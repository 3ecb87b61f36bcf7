/** One whole `ingestText`: the log folded, decorated, and its new ids reported. */
module Panel {
  import opened Text
  import opened Alerts
  import opened LogFold
  import opened LogStore
  import opened SeenSet

  class PanelStore {
    const log: Log
    const seen: Seen

    ghost predicate Valid()
      reads this, log, log.fold, seen
    {
      log.Valid() && seen.Valid()
    }

    /** `createStore`. */
    constructor (parse: Parser)
      ensures Valid() && fresh(log) && fresh(seen)
      ensures log.parse == parse && !seen.primed && seen.seenOrder == []
    {
      var l := new Log(parse);
      var s := new Seen();
      log, seen := l, s;
    }

    /** `ingestText`. The first one only primes the store. */
    method IngestText(live: Str, o: Options)
      returns (alerts: seq<Alert>, newIds: seq<Str>, initialLoad: bool, reloaded: bool)
      requires Valid()
      modifies log, log.fold, seen
      ensures Valid() && seen.primed && log.fold != null && Guarded(old(log.Contents()))
      ensures log.Contents() == ReadLog(old(log.Contents()), live, o, log.parse)
      ensures initialLoad == !old(seen.primed)
      ensures seen.seenOrder == OrderFrom(old(seen.seenOrder), VisitsOf(log.fold.alerts))
      ensures newIds == if initialLoad then [] else Found(old(seen.seenOrder), VisitsOf(log.fold.alerts))
      ensures |alerts| == |log.fold.alerts| && forall i :: 0 <= i < |alerts| ==> alerts[i].id == log.fold.alerts[i]
    {
      hide ReadLog;
      hide NewestFirst;
      hide OrderFrom;
      hide Found;
      alerts, reloaded := log.ReadText(live, o);
      ConsistentOrder(log.fold.Alerts());
      NewestFirstOnce(log.fold.Alerts());
      initialLoad := !seen.primed;
      newIds := seen.Report(log.fold.alerts);
    }
  }
}
