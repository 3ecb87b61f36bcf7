/** Update lines: what one may change on an alert, and why one parked for an alert that has not
    arrived yet acts as if it had come after it. */
module Updates {
  import opened Wrappers
  import opened Text
  import opened Alerts

  // -------------------------------------------------------------------- values off the wire

  datatype Listed = Items(items: seq<Str>) | NotAList

  datatype RawSurface = Known(surface: Surface) | UnknownSurface

  datatype RawChain = ChainObject(id: Str, severity: Severity, steps: seq<ChainStep>, total: Number) | NoChainObject

  datatype RawTriage = TriageObject(verdict: Option<Verdict>, summary: Str, reasoning: Str, outcome: Str) | NoTriageObject

  /** The fields of a line that the log may carry for an alert's changing half. */
  datatype Patch = Patch(
    acked: Option<bool>, ackedBy: Option<Str>, actionTaken: Option<Str>, count: Option<Number>,
    mode: Option<Str>, rotate: Option<Listed>, actions: Option<Listed>, ts: Option<Str>,
    triage: Option<RawTriage>, chain: Option<RawChain>, surface: Option<RawSurface>)

  const ANNOTATED: Str := Ascii("annotated")

  function OrElse(s: Str, fallback: Str): Str { if s == [] then fallback else s }

  /** `normalizeTriage`: a verdict with nothing said is not a verdict. */
  function NormalTriage(r: RawTriage): Option<Triage> {
    if r.NoTriageObject? || (Trim(r.summary) == [] && Trim(r.reasoning) == []) then None
    else Some(Triage(if r.verdict.Some? then r.verdict.value else Unclear, Trim(r.summary), Trim(r.reasoning), Trim(OrElse(r.outcome, ANNOTATED))))
  }

  function ValidSteps(steps: seq<ChainStep>): (r: seq<ChainStep>)
    ensures |r| <= |steps| && forall i :: 0 <= i < |r| ==> r[i].alert != []
  {
    if steps == [] then []
    else (if steps[0].alert != [] then [steps[0]] else []) + ValidSteps(steps[1..])
  }

  lemma {:induction false} AllValid(steps: seq<ChainStep>)
    requires forall i :: 0 <= i < |steps| ==> steps[i].alert != []
    ensures ValidSteps(steps) == steps
  {
    if steps != [] {
      AllValid(steps[1..]);
    }
  }

  /** `normalizeChain`: an id, at least two steps, and a total no smaller than the steps. */
  function NormalChain(r: RawChain): (c: Option<Chain>)
    ensures c.Some? ==> c.value.id != [] && |c.value.steps| >= 2 && c.value.total >= |c.value.steps| as real
  {
    if r.NoChainObject? || r.id == [] then None
    else
      var steps := ValidSteps(r.steps);
      if |steps| < 2 then None
      else Some(Chain(r.id, r.severity, steps, if r.total.NotFinite? || r.total.value < |steps| as real then |steps| as real else r.total.value))
  }

  // --------------------------------------------------------------------------- one update

  function Grown(held: Option<Chain>, sent: Option<Chain>): Option<Chain> {
    if sent.Some? && (held.None? || sent.value.total >= held.value.total) then sent else held
  }

  function Latest<T>(held: Option<T>, sent: Option<T>): Option<T> {
    if sent.Some? then sent else held
  }

  function AsItems(l: Option<Listed>): Option<seq<Str>> {
    if l.Some? && l.value.Items? then Some(l.value.items) else None
  }

  function AsCount(n: Option<Number>): Option<Number> {
    if n.Some? && n.value.Finite? && n.value.value > 0.0 then n else None
  }

  function AsSurface(s: Option<RawSurface>): Option<Surface> {
    if s.Some? && s.value.Known? then Some(s.value.surface) else None
  }

  function AsTriage(t: Option<RawTriage>): Option<Triage> {
    if t.Some? then NormalTriage(t.value) else None
  }

  function AsChain(c: Option<RawChain>): Option<Chain> {
    if c.Some? then NormalChain(c.value) else None
  }

  /** `applyUpdate`. */
  function Apply(t: Live, p: Patch): Live {
    Live(
      Latest(t.acked, p.acked), Latest(t.ackedBy, p.ackedBy), Latest(t.actionTaken, p.actionTaken),
      Latest(t.count, AsCount(p.count)), Latest(t.mode, p.mode),
      Latest(t.rotate, AsItems(p.rotate)), Latest(t.actions, AsItems(p.actions)), Latest(t.ts, p.ts),
      Latest(t.triage, AsTriage(p.triage)), Grown(t.chain, AsChain(p.chain)),
      Latest(t.surface, AsSurface(p.surface)), t.stamped || AsSurface(p.surface).Some?)
  }

  /** Updates in log order. */
  function ApplyAll(t: Live, ps: seq<Patch>): Live
    decreases |ps|
  {
    if ps == [] then t else ApplyAll(Apply(t, ps[0]), ps[1..])
  }

  lemma {:induction false} ApplyAllSnoc(t: Live, ps: seq<Patch>, p: Patch)
    ensures ApplyAll(t, ps + [p]) == Apply(ApplyAll(t, ps), p)
    decreases |ps|
  {
    hide Apply;
    if ps == [] {
      assert ps + [p] == [p] && [p][1..] == [];
    } else {
      assert (ps + [p])[1..] == ps[1..] + [p];
      ApplyAllSnoc(Apply(t, ps[0]), ps[1..], p);
    }
  }

  lemma {:induction false} ApplyAllConcat(t: Live, ps: seq<Patch>, qs: seq<Patch>)
    ensures ApplyAll(t, ps + qs) == ApplyAll(ApplyAll(t, ps), qs)
    decreases |ps|
  {
    hide Apply;
    if ps == [] {
      assert ps + qs == qs;
    } else {
      assert (ps + qs)[1..] == ps[1..] + qs;
      ApplyAllConcat(Apply(t, ps[0]), ps[1..], qs);
    }
  }

  // ------------------------------------------------------------------------ parked updates

  /** The empty object updates are parked on. */
  const NOTHING := Live(None, None, None, None, None, None, None, None, None, None, None, false)

  /** A parked object read as a patch, which is how it reaches its alert. */
  function AsPatch(t: Live): Patch {
    Patch(
      t.acked, t.ackedBy, t.actionTaken, t.count, t.mode,
      if t.rotate.Some? then Some(Items(t.rotate.value)) else None,
      if t.actions.Some? then Some(Items(t.actions.value)) else None,
      t.ts,
      if t.triage.Some? then
        Some(TriageObject(Some(t.triage.value.verdict), t.triage.value.summary, t.triage.value.reasoning, t.triage.value.outcome))
      else None,
      if t.chain.Some? then
        Some(ChainObject(t.chain.value.id, t.chain.value.severity, t.chain.value.steps, Finite(t.chain.value.total)))
      else None,
      if t.surface.Some? then Some(Known(t.surface.value)) else None)
  }

  /** What parking leaves on an object: values that have been normalised once. */
  ghost predicate Settled(t: Live) {
    && AsCount(t.count) == t.count
    && (t.triage.Some? ==>
          Trim(t.triage.value.summary) == t.triage.value.summary && Trim(t.triage.value.reasoning) == t.triage.value.reasoning
          && Trim(t.triage.value.outcome) == t.triage.value.outcome
          && (t.triage.value.summary != [] || t.triage.value.reasoning != []))
    && (t.chain.Some? ==> AsChain(AsPatch(t).chain) == t.chain)
    && (t.stamped <==> t.surface.Some?)
  }

  lemma NormalChainTwice(r: RawChain)
    ensures (var c := NormalChain(r);
             c.Some? ==> NormalChain(ChainObject(c.value.id, c.value.severity, c.value.steps, Finite(c.value.total))) == c)
  {
    var c := NormalChain(r);
    if c.Some? {
      AllValid(c.value.steps);
    }
  }

  lemma ApplySettles(t: Live, p: Patch)
    requires Settled(t)
    ensures Settled(Apply(t, p))
  {
    hide Trim;
    hide NormalChain;
    if p.triage.Some? && p.triage.value.TriageObject? {
      TrimTwice(p.triage.value.summary);
      TrimTwice(p.triage.value.reasoning);
      TrimTwice(OrElse(p.triage.value.outcome, ANNOTATED));
    }
    if p.chain.Some? {
      NormalChainTwice(p.chain.value);
    }
  }

  lemma {:induction false} ApplyAllSettles(t: Live, ps: seq<Patch>)
    requires Settled(t)
    ensures Settled(ApplyAll(t, ps))
    decreases |ps|
  {
    hide Apply;
    hide Settled;
    if ps != [] {
      ApplySettles(t, ps[0]);
      ApplyAllSettles(Apply(t, ps[0]), ps[1..]);
    }
  }

  /** A chain that grew twice grew to the larger, the later on a tie. */
  lemma GrownAssociates(a: Option<Chain>, b: Option<Chain>, c: Option<Chain>)
    ensures Grown(a, Grown(b, c)) == Grown(Grown(a, b), c)
  {
  }

  /** The fields of `base` overlaid with those of `t`. */
  function Overlaid(base: Live, t: Live): Live {
    Live(
      Latest(base.acked, t.acked), Latest(base.ackedBy, t.ackedBy), Latest(base.actionTaken, t.actionTaken),
      Latest(base.count, t.count), Latest(base.mode, t.mode), Latest(base.rotate, t.rotate), Latest(base.actions, t.actions),
      Latest(base.ts, t.ts), Latest(base.triage, t.triage), Grown(base.chain, t.chain),
      Latest(base.surface, t.surface), base.stamped || t.stamped)
  }

  lemma AnnotatedSpeaks()
    ensures Trim(ANNOTATED) != [] && Trim([]) == []
  {
    assert ANNOTATED[0] == 97 && ANNOTATED[8] == 100;
    assert TrimStart(ANNOTATED) == ANNOTATED;
  }

  /** A parked object's patch overlays it, except that a blank outcome gets the default. */
  lemma AsPatchApplies(base: Live, t: Live)
    requires Settled(t)
    ensures (var r, o := Apply(base, AsPatch(t)), Overlaid(base, t);
             r.(triage := o.triage) == o && (r.triage == o.triage <==> (t.triage.Some? ==> t.triage.value.outcome != [])))
  {
    hide Trim;
    hide NormalChain;
    AnnotatedSpeaks();
  }

  lemma {:induction false} ApplyAllOverlays(base: Live, ps: seq<Patch>)
    ensures ApplyAll(base, ps) == Overlaid(base, ApplyAll(NOTHING, ps))
    decreases |ps|
  {
    if ps != [] {
      var init, last := ps[..|ps| - 1], ps[|ps| - 1];
      assert ps == init + [last];
      ApplyAllOverlays(base, init);
      ApplyAllSnoc(base, init, last);
      ApplyAllSnoc(NOTHING, init, last);
      GrownAssociates(base.chain, ApplyAll(NOTHING, init).chain, AsChain(last.chain));
    }
  }

  /** The verdict that a run of updates leaves, as it was sent. */
  function LastTriage(ps: seq<Patch>): Option<RawTriage> {
    if ps == [] then None
    else if AsTriage(ps[|ps| - 1].triage).Some? then ps[|ps| - 1].triage
    else LastTriage(ps[..|ps| - 1])
  }

  /** An outcome of nothing but blanks: trimmed once it is empty, and empty means the default. */
  predicate BlankOutcome(t: Option<RawTriage>) {
    t.Some? && t.value.TriageObject? && t.value.outcome != [] && Trim(t.value.outcome) == []
  }

  lemma {:induction false} LastTriageIsHeld(ps: seq<Patch>)
    ensures (var held := ApplyAll(NOTHING, ps).triage;
             held == AsTriage(LastTriage(ps)) && (held.Some? && held.value.outcome == [] <==> BlankOutcome(LastTriage(ps))))
    decreases |ps|
  {
    hide Trim;
    AnnotatedSpeaks();
    if ps != [] {
      var init, last := ps[..|ps| - 1], ps[|ps| - 1];
      assert ps == init + [last];
      LastTriageIsHeld(init);
      ApplyAllSnoc(NOTHING, init, last);
    }
  }

  /** Updates parked and then applied act exactly as if they had come after the alert, unless
      the last verdict among them has a blank outcome; then only its outcome differs. */
  lemma ParkedActsAsAfter(base: Live, ps: seq<Patch>)
    ensures (var parked, after := Apply(base, AsPatch(ApplyAll(NOTHING, ps))), ApplyAll(base, ps);
             (parked == after <==> !BlankOutcome(LastTriage(ps))) && parked.(triage := after.triage) == after)
  {
    hide Apply;
    hide ApplyAll;
    hide Overlaid;
    hide AsPatch;
    hide Settled;
    NothingSettled();
    ApplyAllSettles(NOTHING, ps);
    AsPatchApplies(base, ApplyAll(NOTHING, ps));
    ApplyAllOverlays(base, ps);
    LastTriageIsHeld(ps);
  }

  lemma NothingSettled()
    ensures Settled(NOTHING)
  {
  }

  /** The family is not empty: a verdict whose outcome is one space. */
  lemma BlankOutcomeDiffers(base: Live)
    ensures (var p := AsPatch(NOTHING).(triage := Some(TriageObject(Some(Benign), Ascii("read"), [], [SPACE])));
             Apply(base, AsPatch(ApplyAll(NOTHING, [p]))) != ApplyAll(base, [p]))
  {
    var r := TriageObject(Some(Benign), Ascii("read"), [], [SPACE]);
    var p := AsPatch(NOTHING).(triage := Some(r));
    assert Ascii("read")[0] == 114 && TrimStart(Ascii("read")) == Ascii("read");
    assert Ascii("read")[3] == 100 && Trim(Ascii("read")) == Ascii("read");
    assert TrimStart([SPACE]) == [];
    assert LastTriage([p]) == Some(r);
    ParkedActsAsAfter(base, [p]);
  }

  // ------------------------------------------------------------------------------- chains

  predicate Smaller(c: Option<Chain>, total: real) {
    c.Some? ==> c.value.total < total
  }

  /** Between two full records the chain is the last of the largest sent: it never shrinks. */
  lemma {:induction false} ChainIsLastLargest(base: Live, ps: seq<Patch>)
    ensures (var r := ApplyAll(base, ps).chain;
             (r.None? ==> base.chain.None? && forall i :: 0 <= i < |ps| ==> AsChain(ps[i].chain).None?)
             && (r.Some? ==>
                   (r == base.chain && forall i :: 0 <= i < |ps| ==> Smaller(AsChain(ps[i].chain), r.value.total))
                   || (exists k :: 0 <= k < |ps| && AsChain(ps[k].chain) == r
                         && (base.chain.Some? ==> base.chain.value.total <= r.value.total)
                         && (forall i :: 0 <= i < k && AsChain(ps[i].chain).Some? ==> AsChain(ps[i].chain).value.total <= r.value.total)
                         && (forall i :: k < i < |ps| ==> Smaller(AsChain(ps[i].chain), r.value.total)))))
    decreases |ps|
  {
    hide AsChain;
    if ps != [] {
      var init, last := ps[..|ps| - 1], ps[|ps| - 1];
      assert ps == init + [last];
      ChainIsLastLargest(base, init);
      ApplyAllSnoc(base, init, last);
      assert forall i :: 0 <= i < |init| ==> ps[i] == init[i];
      var r := ApplyAll(base, ps).chain;
      if r.Some? && r == AsChain(last.chain) {
        assert AsChain(ps[|ps| - 1].chain) == r;
      }
    }
  }
}
