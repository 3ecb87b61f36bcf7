# Proofs about the Moat feed and panel

This project models two programs of the Moat repository and proves what they are for.

**The feed aggregator** (`aggregator/src`) turns advisory records into an index from package to
version clauses, keeps that index up to date from small changes, and publishes it as a sorted
artifact with a rolling window of deltas and one pointer document that two wings share. The
proofs follow it end to end: the byte order of the artifact, the fold of records, the delta
algebra, ticks against rebuilds, and the publisher as a machine over an object store whose runs
may stop between any two writes. The tar, gzip and zip readers that feed it are proved
independent of how the transport cuts their input.

**The panel** (`shell/MoatModel.js`) folds an alert log piece by piece, remembers what it has
shown, groups alerts into incidents under one verdict line, and decides when to interrupt. The
proofs relate each of these to a simple form: the incremental fold to one fold of the whole log,
the cached feed rows to fresh ones, the grouped incidents to the alerts, and the notifier's
windows to laws over every run.

## How the model is laid out

| part | modules |
|---|---|
| optional values, text, UTF-8, sorting | `Wrappers`, `Text`, `Utf8`, `Sorting`, `LineOrder` |
| deltas and their files | `Delta`, `MergeJoin`, `Wire`, `DeltaText` |
| records and their fold | `Clauses`, `Contributions`, `Records`, `Ticks`, `RecordIndex`, `RecordRuns` |
| the publisher | `Bucket`, `Publisher`, `Runs`, `DeltaWindow`, `Clients`, `Aggregator` |
| readers | `Stream`, `Tar`, `TarFormat`, `Zip`, `Domains` |
| alerts and the log | `Alerts`, `Updates`, `LogFold`, `LogStore`, `LogRuns`, `SurfaceRuns`, `SeenSet`, `Panel` |
| notifications | `Notify`, `NotifyRuns` |
| incidents and the live feed | `Incidents`, `VerdictLine`, `RowCache` |

Code that changes things step by step is imperative here too: the aggregator's index, store and
wing states, `ByteReader`, the log fold, the seen set, the notifier and the row cache are
classes whose methods are proved against a function of the old state. The laws are then lemmas
about those functions and about runs of them. Strings are sequences of UTF-16 code units, since
a JavaScript string may hold a lone surrogate and a Dafny `char` may not.

A run of the publisher is the list of its writes, and a history is a list of runs each with a
cut: how many of its writes reached the store; a whole run is one with nothing cut. A file name carries
a digest of its content in the program; here it carries the content, which is to take the digest
as injective. Signatures are blobs tied to the signed text.

## Where the code does less than its words

Each of these is stated as a theorem with the exact condition, or with the input that shows it.

- A comment in `runFull` counts on the next compare to re-deliver what a newer records file
  already holds (`aggregator/src/index.js:561-563`). After a tick that died between the records
  file and its bookmark, the next tick is right exactly when its compare accounts for every
  source the dead one moved; a change that upstream reverts in between is not in that compare
  and stays in the file (`Ticks.TickAfterDeadTickIff`; `Ticks.RevertedChangeStays` is one).
- `publish` writes the pointer before the state. A client that read pointer.json while the two
  were level catches up with one delta however the history goes on and whatever runs die; and it
  is sure to only then (`Clients.ClientCatchesUpIff`). They are level unless the last publish to
  reach the pointer died right there (`Clients.LevelIff`); then a later publish announces the
  same sequence again, and what that one carried decides (`Clients.ReuseDecides`).
  `Clients.DeadPublishMisleads` is such a history of three publishes.
- `runDomains` writes its state before the pointer. If it dies between the two, every later run
  on the same list finds the content unchanged and leaves the pointer on the old artifact, until
  a run brings other content (`Clients.DomainsLevelIff`, `Clients.DomainsRerunNeverAnnounces`;
  `Clients.FirstListUnannounced` is such a stop).
- Keys are said to sort like whole lines. Two keys do, whatever their specs, exactly when neither
  goes on from the other with a tab (`LineOrder.LinesFollowKeysIff`), which keys of one tab each
  never do; a tab in a package name breaks it (`LineOrder.TabInNameBreaksOrder`).
- An update line that arrives before its alert is said to act as if it came after. It does but
  for the verdict, and for that too unless the last parked verdict has an outcome of nothing but
  blanks, which is normalised twice, and no later update brings another
  (`Updates.ParkedActsAsAfter`, `LogFold.ClosedForm`; `Updates.BlankOutcomeDiffers` is one).
- The incremental reader decorates the fold's own alerts. An alert the daemon stamped and a
  verdict later put on the timeline stays there after a milder verdict, until a line stamps it
  again, while a fold of the whole log would surface it
  (`SurfaceRuns.ReaderShownWhereTheLogSays`; `SurfaceRuns.DemotionOutlivesItsVerdict` is one).
- The append guard compares 64 characters, so a rewrite above them goes unseen
  (`LogRuns.GuardMissesRewrite`). A read leaves the whole lines of the body folded exactly when
  it was a true append or started over (`LogRuns.ReadIsWholeLinesIff`). That reads are true appends or are refused is an assumption of
  the theorem that needs it, and follows for a log that only grows
  (`LogRuns.GrowingIsHonest`).
- The comment above `SEEN_LIMIT` says every folded id is always remembered. A visit forgets an id,
  folded or not, exactly when it brings an unknown one and at least the limit and the folded count
  of ids were remembered after it (`SeenSet.ForgottenIff`), which a fold that shrinks at once can
  bring about (`SeenSet.FoldedYetForgotten`). It never comes to a second report when ids leave the
  fold in the order they were seen (`SeenSet.InOrderNeverTwice`).
- A kept feed row shows what a fresh one would, its chain aside. The chain may differ: a payload
  without `chains` leaves a kept row its old link, and a payload with them drops a chain inlined
  beside a chain id (`RowCache.KeptRowAgreesIff`; `RowCache.LinkOutlivesItsPayload` is one).
- The comment on the notification cooldown says an out-of-range setting falls back to the
  default; the code takes the nearer end of the range, and so does `Notify.CooldownMinutes`.
- In a tar stream a name goes to the entry right after the extension that gives it, an ignored
  `g` or `K` entry or a pax header without a path included. So a file is read under another name
  than the one meant for it exactly when such an entry stands between the two and the file's own
  header spells something else (`TarFormat.ReadAsMeantIff`; `TarFormat.NameStrays` is one).

## Assumptions

Version strings hold no tab, newline or `|` where a theorem says clean; record ids of different
paths differ (`Records.Apart`); a compare response is complete (`Ticks.Complete`); the two wings
do not run at the same moment; `DELTA_WINDOW` and `KEEP_ARTIFACTS` are positive integers; the
notifier's spacing laws take a clock that does not go backwards, its conservation law does not.

## Model

| member | source | states |
|---|---|---|
| `Utf8.EncodingKeepsOrder` | aggregator/src/normalize.js:50-69 | comparing UTF-8 encodings byte by byte is comparing code points, for all scalar values (RFC 3629, section 3) |
| `LineOrder.CompareBytes` | aggregator/src/normalize.js:57-69 | the two-iterator loop returns `CmpBytes`, for strings with and without surrogates |
| `LineOrder.CmpBytesIsCodePointOrder` | aggregator/src/normalize.js:50-69 | the surrogate-free shortcut changes nothing: the comparison is code point order and is zero only on equal strings |
| `LineOrder.CodePointsInjective` | aggregator/src/normalize.js:60-67 | string iteration loses nothing: equal code points, equal strings, lone surrogates included |
| `LineOrder.LineKeysCompareTabbed` | aggregator/src/normalize.js:70-90 | comparing keys by `cmpLineKeys` is comparing them with their tab attached |
| `LineOrder.LineKeysTotal` | aggregator/src/normalize.js:75-90 | `cmpLineKeys` is antisymmetric and zero only on equality |
| `LineOrder.BeforeIsStrictOrder` | aggregator/src/normalize.js:75-90 | it is a strict total order, so a sort by it has one result |
| `LineOrder.KeyOrderIsLineByteOrder` | aggregator/src/normalize.js:70-90 | unless one key goes on from the other with a tab it agrees with the byte order of the UTF-8 encodings of the whole lines, whatever the specs |
| `LineOrder.OneTabUnextended` | aggregator/src/normalize.js:70-90 | keys of one tab each never go on from one another so |
| `LineOrder.ExtendedKeyMisplaced` | aggregator/src/normalize.js:70-90 | a key that does is sorted after the other, and under some tab-free specs its line comes first |
| `LineOrder.LinesFollowKeysIff` | aggregator/src/normalize.js:70-90 | two keys sort like their lines under all specs exactly when neither goes on from the other with a tab |
| `Sorting.SortSet` | aggregator/src/normalize.js:284-290 | sorting a set of keys by a strict total order gives the one sorted sequence of its elements |
| `Sorting.SortedUnique` | aggregator/src/normalize.js:284-290 | two strictly sorted sequences of the same elements are equal |
| `Delta.PackageIndex.ApplyOps` | aggregator/src/delta.js:110-116 | the in-place loop leaves the index at `Apply` of the old one |
| `Delta.ApplyIsOverlay` | aggregator/src/delta.js:110-116 | applying a list is overlaying the last op of each key, so earlier ops on a key leave no trace |
| `Delta.ComposeOps` | aggregator/src/delta.js:122-127 | the map-filling loops return the sorted list of the last op of each key |
| `Delta.ComposeHomomorphism` | aggregator/src/delta.js:118-127 | applying the composition is applying both lists in turn, even when a list repeats a key |
| `Delta.ComposeAssociative` | aggregator/src/delta.js:118-127 | composition is associative, list for list |
| `Delta.AnyOrderAnyTimes` | aggregator/src/delta.js:118-127 | a list with distinct keys may be applied in any order and again; a composed list is one |
| `Delta.SortedOpsUnique` | aggregator/src/delta.js:12-18 | a sorted list is the only sorted list with its effect |
| `Delta.DiffCorrect` | aggregator/src/delta.js:20-70 | the diff leads from old to new, has strictly increasing keys, and touches exactly the keys whose spec differs |
| `Delta.DiffIndexes` | aggregator/src/delta.js:60-70 | the two loops over maps return that diff |
| `MergeJoin.DiffSorted` | aggregator/src/delta.js:27-58 | the streaming merge of sorted lines against sorted keys returns the same list as the diff of the parsed indexes |
| `DeltaText.ParseDelta` | aggregator/src/delta.js:87-107 | the loop returns `Parse` of the text: headers by their pattern, malformed lines passed over |
| `DeltaText.OpReadIff` | aggregator/src/delta.js:89-105 | a line adds an op exactly when it is the line that op is written as and the spec holds no tab |
| `DeltaText.DeltaRoundTrip` | aggregator/src/delta.js:72-107 | a delta reads back as written exactly when no key or spec holds a newline and no spec a tab |
| `Wire.ParseArtifact` | aggregator/src/normalize.js:316-330 | the cursor loop returns the index of the text's lines, later lines winning |
| `Wire.ArtifactRoundTrip` | aggregator/src/normalize.js:294-330 | an artifact reads back as the index it was written from exactly when every key and spec is clean |
| `Wire.ArtifactLinesRead` | aggregator/src/normalize.js:294-307 | the lines of a clean artifact are its entries in key order, which is what the merge join takes |
| `Clauses.Collapse` | aggregator/src/normalize.js:139-142 | the loop returns `*` if any clause is, else the sorted duplicate-free join |
| `Clauses.MergeSpecs` | aggregator/src/normalize.js:277-280 | two specs merge to the collapse of the clauses of both |
| `Clauses.FoldInto` | aggregator/src/normalize.js:253-258 | one contribution changes one key of the index as `FoldStep` says and nothing else |
| `Clauses.PiecesOfSpec` | aggregator/src/normalize.js:139-142 | splitting a collapsed spec gives its clauses back |
| `Clauses.FoldCanonical` | aggregator/src/normalize.js:253-275 | the closed form of the fold for any contributions: each key's spec is `Canon` of the set of specs given to it |
| `Clauses.FoldOrderFree` | aggregator/src/normalize.js:260-275 | permuting or repeating contributions does not change the index |
| `Clauses.SpecIsUnionOfClauses` | aggregator/src/normalize.js:139-142 | for collapsed clause sets `Canon` is the collapse of the union of all of them |
| `Contributions.ClausesFromAffected` | aggregator/src/normalize.js:105-136 | the loops return the clauses of versions and ranges in insertion order, `*` when there are none |
| `Contributions.ClausesClean` | aggregator/src/normalize.js:105-136 | separator-free versions give separator-free clauses |
| `Contributions.AffectedClean` | aggregator/src/normalize.js:175-194 | an advisory with separator-free versions contributes only lines that part where they should |
| `Contributions.ManifestClean` | aggregator/src/normalize.js:197-212 | the same for a manifest |
| `Records.ApartIffPathsApart` | aggregator/src/normalize.js:225-239 | ids of sources collide only if two advisory paths do: a path's id is never a manifest's |
| `Records.RebuildRepresents` | aggregator/src/build.js:22-53 | a rebuild in any order of sources holds, as a multiset of lines, what the snapshot calls for |
| `Records.RepresentsIffRebuilt` | aggregator/src/build.js:22-53 | a file represents a snapshot exactly when it is a permutation of a rebuild's lines |
| `Records.TickIff` | aggregator/src/index.js:646-695 | a tick on a file for the old snapshot yields one for the new exactly when its change accounts for every source |
| `Records.TickIdempotent` | aggregator/src/index.js:674-695 | the same tick again alters nothing, line for line |
| `Ticks.CompareSince` | aggregator/src/index.js:93-114 | a response at either cap means a rebuild; otherwise changed and removed paths are exactly those the files tell of, renames included |
| `Ticks.CompleteAccounts` | aggregator/src/index.js:93-114 | a complete response accounts for every source |
| `Ticks.TicksRepresent` | aggregator/src/index.js:602-718 | after any sequence of ticks the records file is, as a multiset, that of a rebuild of the last snapshot |
| `Ticks.TickAfterDeadTickIff` | aggregator/src/index.js:674-711 | after a tick that died between records and bookmark, the next tick is right exactly when its change accounts for the sources the dead one moved |
| `Ticks.RevertedChangeStays` | aggregator/src/index.js:561-563 | an advisory withdrawn, back in the dead tick and withdrawn again keeps its line |
| `RecordIndex.SameBagSameIndex` | aggregator/src/index.js:674-695 | files with the same lines fold to the same index |
| `RecordIndex.RecordLineReads` | aggregator/src/index.js:681-684 | a record line of a clean contribution reads back as its key and spec |
| `RecordIndex.TickIndexIsRebuildIndex` | aggregator/src/index.js:674-695 | after any ticks the folded index is the one a rebuild of the last snapshot folds |
| `RecordIndex.IndexIsUnionOfClauses` | aggregator/src/normalize.js:253-280 | a built index has a key exactly when something is contributed under it, and its spec is `*` if any clause contributed under it is, else the sorted join of all of them |
| `RecordIndex.BuiltIndexIsClean` | aggregator/src/build.js:22-53 | from separator-free upstream comes an index an artifact carries faithfully, with one tab in each key |
| `RecordIndex.ArtifactInByteOrder` | aggregator/src/normalize.js:284-307 | the artifact of such an index is sorted by the UTF-8 bytes of its lines |
| `RecordRuns.EmitOne` | aggregator/src/build.js:26-31 | one contribution's line, with its entry folded into the index |
| `RecordRuns.EmitSource` | aggregator/src/build.js:45-52 | a source's lines in order, with its entries folded |
| `RecordRuns.BuildFullRecords` | aggregator/src/build.js:22-53 | the build yields the rebuild's lines and leaves the index folded from all of them |
| `RecordRuns.FreshLines` | aggregator/src/index.js:652-672 | the lines a tick adds are those of the sources it fetched, in order |
| `RecordRuns.RewriteRecords` | aggregator/src/index.js:674-695 | the one pass keeps the lines of untouched ids, appends the fresh ones, and folds exactly what it writes |
| `RecordRuns.FoldLine` | aggregator/src/index.js:681-692 | a line folds by its parts between first and last tab |
| `RecordRuns.TickRecords` | aggregator/src/index.js:646-695 | a whole tick writes `Ticked` and leaves the index folded from it |
| `Bucket.Store.PutSigned` | aggregator/src/index.js:166-174 | the file is written, then its signature |
| `Runs.RunIsSafe` | aggregator/src/index.js:166-327 | every write of every kind of run leaves what the live pointer.json lists in the store, the pointer's own replacement and the prune included |
| `Runs.PointerNeverDangles` | aggregator/src/index.js:166-327 | pointer closure: over every history of runs, each stopped after any number of its writes, every artifact and delta that pointer.json lists is in the store with its bytes and signature |
| `DeltaWindow.CompositeReaches` | aggregator/src/index.js:224-233 | the ops composed from step `i` on lead from that step's recorded index to the last |
| `DeltaWindow.NextStepsOk` | aggregator/src/index.js:195-223 | the steps after a release are contiguous, lead to the new index and fit the window |
| `DeltaWindow.NoOpIffUnchanged` | aggregator/src/index.js:186-210 | a publish with a readable previous artifact is a no-op exactly when the index did not change |
| `DeltaWindow.PublishKeepsConsistent` | aggregator/src/index.js:180-257 | state, steps and pointer stay consistent with the recorded indexes wherever a publish stops |
| `DeltaWindow.AlwaysConsistent` | aggregator/src/index.js:180-257 | so they are after every history |
| `DeltaWindow.EveryDeltaReachesCurrent` | aggregator/src/index.js:224-247 | over every history each delta in the pointer reads back whole and leads from its recorded index to the pointer's |
| `DeltaWindow.StepsStayContiguous` | aggregator/src/index.js:220-223 | over every history the steps go one sequence at a time, end to end, up to the state's |
| `DeltaWindow.StepsStayInWindow` | aggregator/src/index.js:220-223 | over every history they are no more than the largest window any publish was given |
| `DeltaWindow.DeltasAreTheWindow` | aggregator/src/index.js:224-233 | over every history, unless a publish died between pointer and state, the pointer offers a delta from exactly the sequences the window spans |
| `Clients.WholePublish` | aggregator/src/index.js:180-257 | a whole publish replaces the package fields and keeps the domains block, or leaves the pointer be |
| `Clients.DomainStages` | aggregator/src/index.js:493-512 | what state and pointer say after any number of a domain run's writes |
| `Clients.PointerIsBothHalves` | aggregator/src/index.js:259-289 | over every history, whatever runs died, the pointer is the package fields and the domains block of the last run of each wing to reach it |
| `Clients.SameAfterOps` | aggregator/src/delta.js:110-116 | two indexes agree after the same ops exactly when they agree on every key the ops do not touch |
| `Clients.LevelIff` | aggregator/src/index.js:247-254 | over every history pointer and state name the same sequence unless the last publish to reach the pointer died right there, and then the pointer is one ahead |
| `Clients.ClientCatchesUpIff` | aggregator/src/index.js:224-254 | however a history goes on and whatever runs die, the delta from the sequence a client read, applied once to what it installed, gives exactly the current index; sure if and only if pointer and state were level when it read |
| `Clients.ReuseDecides` | aggregator/src/index.js:224-254 | if they were not, a later publish carries the client's sequence, and the delta brings it level exactly when it covers every key on which that publish and the client differ |
| `Clients.DeadPublishMisleads` | aggregator/src/index.js:247-254 | a first publish cut after the pointer and two whole ones after it leave its client with a delta that misses |
| `Clients.SequenceMovesIffIndexMoves` | aggregator/src/index.js:186-212 | after any history a publish moves the sequence and pointer exactly when the index moved |
| `Clients.PreviousFilesStay` | aggregator/src/index.js:309-327 | with keep at least two, the previous pointer's artifact and deltas outlive the next publish |
| `Clients.DomainsLevelIff` | aggregator/src/index.js:499-512 | over every history the domains block is what the state says was released exactly when the last domain run to save a release did not stop right there |
| `Clients.SameContentStays` | aggregator/src/index.js:483-491 | from a saved content on, runs on the same content leave block and state as they are, with any package runs between and wherever any of them die |
| `Clients.DomainsRerunNeverAnnounces` | aggregator/src/index.js:483-512 | so after such a stop no history of runs on the same list announces it: the block stays the old one |
| `Clients.FirstListUnannounced` | aggregator/src/index.js:499-512 | a first domain run cut after its third write is such a stop |
| `Aggregator.WriteArtifact` | aggregator/src/normalize.js:294-307 | the loop over sorted keys writes the artifact's text |
| `Aggregator.PublishDeltas` | aggregator/src/index.js:224-233 | the loop from the newest step back writes one composed delta per old sequence and names each |
| `Aggregator.StepAgainstPrevious` | aggregator/src/index.js:197-202 | the ops against the previous artifact, or none when it cannot be read |
| `Aggregator.Prune` | aggregator/src/index.js:311-327 | deletes every doomed package object and no other |
| `Aggregator.ReleaseFiles` | aggregator/src/index.js:212-233 | the artifact and the deltas reach the store, and the pointer is as before |
| `Aggregator.ReleaseIndex` | aggregator/src/index.js:212-256 | a release performs exactly its list of writes and moves the state |
| `Aggregator.Publish` | aggregator/src/index.js:180-257 | publishing performs exactly the writes of the model's run and releases unless the index is unchanged |
| `Aggregator.PreviousIsSorted` | aggregator/src/index.js:198-200 | every history leaves a store whose previous artifact is sorted, as the merge join needs |
| `Aggregator.PruneDomains` | aggregator/src/index.js:521-534 | deletes every doomed domain object and no other |
| `Aggregator.ReleaseDomains` | aggregator/src/index.js:493-512 | artifact, then state, then pointer, then prune, and the wing's new state |
| `Aggregator.RunDomains` | aggregator/src/index.js:468-519 | a list below half of what is published, or unchanged content, releases nothing; anything else releases |
| `Stream.ByteReader.Fill` | aggregator/src/tar.js:19-25 | buffers at least `n` bytes if the stream has them and changes nothing that is left to read |
| `Stream.ByteReader.Take` | aggregator/src/tar.js:32-51 | hands over the next `n` bytes of the stream, from one chunk or several |
| `Stream.ByteReader.Read` | aggregator/src/tar.js:28-52 | exactly the next `n` bytes, or none with nothing consumed |
| `Stream.ByteReader.Skip` | aggregator/src/tar.js:54-62 | drops the next `n` bytes; on a short stream the whole steps |
| `Stream.SplitMore` | aggregator/src/gz.js:62-77 | text that arrives later only adds to the tail |
| `Stream.YieldEnded` | aggregator/src/gz.js:66-74 | the inner loop yields every ended line and keeps the tail |
| `Stream.ReadLines` | aggregator/src/gz.js:57-78 | for every chunking the reader yields the lines of the whole text; with `crlf` this is the zip reader of aggregator/src/zip.js:84-103 |
| `Tar.ParsePax` | aggregator/src/tar.js:94-110 | the loop returns `PaxFrom` of the text |
| `Tar.NamingStep` | aggregator/src/tar.js:150-164 | a long-name or pax entry names the entry after it and is consumed with its padding |
| `Tar.FileStep` | aggregator/src/tar.js:165-181 | any other entry is yielded if it is a wanted file and skipped if not |
| `Tar.UntarStep` | aggregator/src/tar.js:130-148 | one turn of the loop consumes input or ends |
| `Tar.ReadTar` | aggregator/src/tar.js:124-186 | the reader ends on every input and yields a function of the stream's bytes, whatever the chunking |
| `TarFormat.OctalFieldReads` | aggregator/src/tar.js:76-87 | a size field of eleven octal digits and a NUL reads as its number |
| `TarFormat.RecordReads` | aggregator/src/tar.js:99-108 | one pax record in the middle of a header is read whole and adds its field |
| `TarFormat.PaxHeaderReads` | aggregator/src/tar.js:94-110 | a pax header of ASCII records reads as its fields and names the next entry by its last path |
| `TarFormat.HeaderReads` | aggregator/src/tar.js:138-152 | of a ustar header written from name, prefix, type and size the reader takes that size, that kind and prefix, slash, name |
| `TarFormat.ReadsItem` | aggregator/src/tar.js:138-181 | whatever name is held, an entry written from its fields and body uses it up: a wanted file is yielded under that name or else its own, an extension entry leaves the name it gives, and the reader is left at the next entry |
| `TarFormat.ArchiveReads` | aggregator/src/tar.js:124-186 | reading an archive written from files, directories, links, GNU long names and pax headers in any order yields exactly the name and body of each wanted file, in order, each named by the extension entry right before it if there is one |
| `TarFormat.ReadAsMeantIff` | aggregator/src/tar.js:149-178 | an archive's files are read under the names meant for them exactly when no file is so separated from its name |
| `TarFormat.NameStrays` | aggregator/src/tar.js:149-171 | a long name, a long link name and a file: the file is read under the name its header spells |
| `Zip.HeaderReads` | aggregator/src/zip.js:31-47 | every field of a local file header is read from its place, little-endian |
| `Zip.FirstEntryReads` | aggregator/src/zip.js:31-81 | the first entry is its name and exactly its payload, whatever extra field precedes and whatever directory follows |
| `Domains.ParseCsvLine` | aggregator/src/domains.js:196-213 | the flag-and-field loop returns `Csv` of the line |
| `Domains.QuotedReads` | aggregator/src/domains.js:200-206 | a quoted body reads as what was quoted, commas and doubled quotes included |
| `Domains.CsvRoundTrip` | aggregator/src/domains.js:192-213 | the parser inverts the quoted writer of section 2 of RFC 4180, joined by comma and space, up to trimming |
| `Domains.WriteMetaTable` | aggregator/src/domains.js:353-358 | the loop over sorted domains writes the table's text |
| `Domains.ParseMetaTable` | aggregator/src/domains.js:360-372 | the loop returns the table of the lines, later lines winning, short lines passed over |
| `Domains.MetaRoundTrip` | aggregator/src/domains.js:353-372 | the table survives being written and read back exactly when no field holds a tab or newline |
| `Updates.NormalChain` | shell/MoatModel.js:406-446 | a chain has an id, at least two steps, and a total no smaller than its steps |
| `Updates.NormalChainTwice` | shell/MoatModel.js:406-446 | normalising a normalised chain changes nothing |
| `Updates.ParkedActsAsAfter` | shell/MoatModel.js:1281-1299 | parked updates act exactly as if they had followed the alert, unless the last verdict among them has a blank outcome; then only the verdict differs |
| `Updates.ChainIsLastLargest` | shell/MoatModel.js:1397-1408 | between full records the chain is the last of the largest sent, so it never shrinks |
| `LogFold.FoldRecords` | shell/MoatModel.js:1269-1307 | the loop and the sort return the folded alerts, newest id first |
| `LogFold.SortNewest` | shell/MoatModel.js:1309-1317 | the order of arrival does not show in the sorted alerts |
| `LogFold.FoldConsistent` | shell/MoatModel.js:1281-1303 | no id is both held and parked, and the order lists each held id once |
| `LogFold.WaitingForm` | shell/MoatModel.js:1286-1294 | before its first full record an id is not held, and what is parked is all its updates in order |
| `LogFold.ClosedForm` | shell/MoatModel.js:1269-1307 | an alert is its last full record with later updates applied in log order, earlier ones acting too when no full record came before; its verdict is so exactly unless the last earlier verdict has a blank outcome and no later one comes |
| `LogStore.BodySlice` | shell/MoatModel.js:1741-1746 | a range of the two halves is that range of the whole body |
| `LogStore.Fold.FoldOne` | shell/MoatModel.js:1765-1797 | one record changes the held fold as `FoldRecord` says, and reports whether it did |
| `LogStore.Fold.FoldChunk` | shell/MoatModel.js:1762-1800 | a chunk's records are folded in order; none changed means nothing changed |
| `LogStore.Fold.Extend` | shell/MoatModel.js:1851-1874 | only the whole lines past what was consumed are folded, and the tail kept is that of the body consumed |
| `LogStore.Fold.Decorate` | shell/MoatModel.js:2279-2297 | every held alert is decorated in place |
| `LogStore.Log.SetLogPrefix` | shell/MoatModel.js:2119-2126 | a different rotated half drops the fold, the same one changes nothing |
| `LogStore.Log.Resume` | shell/MoatModel.js:1842-1849 | the fold is kept for what the guard takes for an append, and started over for anything else |
| `LogStore.Log.ReadText` | shell/MoatModel.js:1839-1876 | one read moves the store as `ReadLog` says and returns the fold's alerts, newest first |
| `LogRuns.RecordsConcat` | shell/MoatModel.js:1419-1427 | whole lines parse the same in pieces |
| `LogRuns.ReadIsWholeLinesIff` | shell/MoatModel.js:1748-1754 | the text folded after a read is the whole lines of the body exactly when the read was a true append or started over |
| `LogRuns.AlwaysFaithful` | shell/MoatModel.js:1741-1800 | after any run of reads and rotations the fold is one fold of the text it stands for |
| `LogRuns.IncrementalIsBatch` | shell/MoatModel.js:1839-1874 | after any run of reads, cut anywhere and split into rotated and live half, the fold holds what folding all whole lines of the body at once would, decoration aside |
| `LogRuns.GrowingIsHonest` | shell/MoatModel.js:1749-1754 | reads of a log that only grows are all true appends |
| `LogRuns.GuardMissesRewrite` | shell/MoatModel.js:1748-1754 | a rewrite above the last 64 characters is taken for no change |
| `SurfaceRuns.QuietStaysQuiet` | shell/MoatModel.js:2217-2297 | over any reads an alert is shown on the timeline if it was quiet at an earlier read with no stamp since, and else where the whole log puts it |
| `SurfaceRuns.ShownWhereTheLogSays` | shell/MoatModel.js:2217-2297 | the reader shows an alert where the whole log would exactly when it is not such an alert that the log now surfaces |
| `SurfaceRuns.DemotionOutlivesItsVerdict` | shell/MoatModel.js:2217-2297 | three lines and three reads that show the difference |
| `SurfaceRuns.ReaderShowsChunks` | shell/MoatModel.js:1839-1876 | over any reads and rotations the fold is the fold of the chunks since the reader last started over, decorated read by read |
| `SurfaceRuns.ChunksAreTheLog` | shell/MoatModel.js:1839-1876 | after true appends and rotations those chunks hold exactly the records of the text folded |
| `SurfaceRuns.GrowingNeverRestarts` | shell/MoatModel.js:1842-1849 | reads of a log that only grows never start over |
| `SurfaceRuns.ReaderShownWhereTheLogSays` | shell/MoatModel.js:2217-2297 | after such a run the reader shows an alert where one fold of the body's whole lines would exactly when it is not one left on the timeline that the log now surfaces |
| `SeenSet.Seen.RememberSeen` | shell/MoatModel.js:1818-1827 | the set stays the elements of the duplicate-free order, which drops its oldest past the limit |
| `SeenSet.Seen.Report` | shell/MoatModel.js:1877-1895 | walks oldest first; reports the ids it finds missing, and none on the first ingest |
| `SeenSet.VisitsCompose` | shell/MoatModel.js:1889-1894 | ingest after ingest is one run of visits |
| `SeenSet.DroppedIff` | shell/MoatModel.js:1818-1827 | an id is dropped exactly when a new one comes and at least the limit and the folded count stand from it on |
| `SeenSet.ForgottenIff` | shell/MoatModel.js:1818-1827 | over every run a visit drops a remembered id exactly when it brings an unknown one and at least the limit and the folded count of ids were remembered after it |
| `SeenSet.FoldedYetForgotten` | shell/MoatModel.js:1802-1827 | after more than the limit of alerts and then a fold of two, the older of the two is no longer remembered and the next ingest reports it again |
| `SeenSet.DroppedPastTheLimit` | shell/MoatModel.js:1802-1827 | a folded id that is dropped has more than `SEEN_LIMIT` later ids that are no longer folded |
| `SeenSet.FoundAgainPastTheLimit` | shell/MoatModel.js:1802-1827 | over every run, an id that stays folded is found missing again only after such a visit |
| `SeenSet.InOrderNeverTwice` | shell/MoatModel.js:1889-1894 | if ids leave the fold for good in first-seen order, no id is ever reported twice |
| `Panel.PanelStore.IngestText` | shell/MoatModel.js:1839-1909 | one ingest is one read of the log and one walk over its alerts; the first one only primes |
| `Notify.CooldownMinutes` | shell/MoatModel.js:2525-2538 | a number rounds to the nearest minute of 1 to 120, beyond either end to that end, and anything else is the default of 10 |
| `Notify.Notifier.NotificationCooldownDecision` | shell/MoatModel.js:2640-2742 | decision and new state are those of `Cooled` |
| `Notify.Notifier.WindowDecision` | shell/MoatModel.js:2702-2742 | the rule's window decides, retiring an expired one into the pending summaries |
| `Notify.Notifier.NotifyDecision` | shell/MoatModel.js:2624-2638 | decision and new state are those of `Decide` |
| `Notify.Notifier.SyncNotificationIncidents` | shell/MoatModel.js:2609-2622 | an incident is kept while an unacknowledged alert has its key, with the rank it had |
| `Notify.Notifier.FlushCollapsed` | shell/MoatModel.js:2750-2777 | pending summaries, then those of the windows that are over, oldest first; both are cleared |
| `NotifyRuns.FlushTells` | shell/MoatModel.js:2750-2777 | what a flush tells about a rule and what is owed after it add up to what was owed before |
| `NotifyRuns.Conservation` | shell/MoatModel.js:2568-2777 | over every run, whatever the clock does, the alerts a rule's cooldown swallowed are those its flushed summaries told about, those pending, and those of its open window |
| `NotifyRuns.FlushedTwiceSaysNothing` | shell/MoatModel.js:2745-2749 | a second flush at the same moment tells nothing |
| `NotifyRuns.ToastsKeepTheirDistance` | shell/MoatModel.js:2576-2580 | under a clock that does not go back, two toasts that open windows of one rule are at least the earlier window apart, and so at least a minute |
| `NotifyRuns.CredentialToastsHourly` | shell/MoatModel.js:2689-2732 | two such toasts about one credential investigation are at least an hour apart |
| `NotifyRuns.ToastsBoundedByRank` | shell/MoatModel.js:2609-2638 | the rank an incident is known at bounds how often it has interrupted while unresolved |
| `NotifyRuns.AtMostFourToasts` | shell/MoatModel.js:2609-2638 | over any stretch of any run in which it stays unresolved an incident interrupts at most four times |
| `NotifyRuns.ToastsOutrank` | shell/MoatModel.js:2624-2638 | each of those toasts outranks the ones before |
| `NotifyRuns.ChainToastsOnce` | shell/MoatModel.js:2660-2687 | a chain id brings one toast at most, however many members it has, the noise guard's own alerts aside |
| `Incidents.GroupAlerts` | shell/MoatModel.js:909-944 | each shown alert joins the group of its key; counts, first and last times and severity are those of the members |
| `Incidents.SortAlerts` | shell/MoatModel.js:949 | a permutation with no newer alert behind an older one |
| `Incidents.FindHead` | shell/MoatModel.js:950-955 | the newest member that waits for the user, else the newest |
| `Incidents.FindChain` | shell/MoatModel.js:962-967 | the largest chain a member carries |
| `Incidents.FindState` | shell/MoatModel.js:1008-1017 | the state of the member that asks for most |
| `Incidents.SortIncidents` | shell/MoatModel.js:1047 | the same incidents, newest activity first |
| `Incidents.BuildIncidents` | shell/MoatModel.js:909-1050 | one incident per key of a shown alert, each finished from exactly its members, newest activity first |
| `VerdictLine.IncidentsPartition` | shell/MoatModel.js:909-944 | every shown alert is in exactly one incident, under its own key, and the counts add up |
| `VerdictLine.NeedsYouIffAlert` | shell/MoatModel.js:838-876 | some incident needs the user exactly when some alert does, whatever the settings show |
| `VerdictLine.StoppedIffAlert` | shell/MoatModel.js:1171-1207 | there is a stopped incident exactly when a shown alert was stopped and not acknowledged |
| `VerdictLine.DeriveVerdict` | shell/MoatModel.js:1142-1165 | chain when a waiting incident is a sequence, needs when one waits at all, then the sensor, then unseen interventions |
| `VerdictLine.VerdictOf` | shell/MoatModel.js:1142-1230 | the line is needs or chain exactly when some alert waits, and quiet exactly when none does, the sensor is provably watching and no shown intervention is unseen |
| `RowCache.DeepEqualIsEqual` | shell/MoatModel.js:2030-2047 | deep equality is equality of values |
| `RowCache.SameRowIsSame` | shell/MoatModel.js:2072-2088 | rows that compare as the same are the same exactly when the skipped subtrees are |
| `RowCache.FeedCache.IngestFeed` | shell/MoatModel.js:1953-2010 | the loop over the payload, newest first, returns and keeps what the model says |
| `RowCache.UnackedCounts` | shell/MoatModel.js:2422-2445 | the loop counts the unacknowledged rows on the Alerts surface by severity; total and badge are the sum |
| `RowCache.KeptRowAgreesIff` | shell/MoatModel.js:1965-1978 | a kept row is exactly what a fresh one would be just when the chains agree, said from what it holds and what the payload sends |
| `RowCache.PollAgrees` | shell/MoatModel.js:1953-2010 | one poll through a good cache shows what a fresh panel would, chains aside, and chains too exactly when those of all kept rows agree |
| `RowCache.CacheAgreesWithFresh` | shell/MoatModel.js:1911-2010 | after any run of polls under any settings the cache shows the last payload as a fresh panel would: fields, surface, visibility and counts always, chains exactly when those of all kept rows agree, as when shared chains are sent for every chain id |
| `RowCache.LinkOutlivesItsPayload` | shell/MoatModel.js:1972-1977 | two polls of one row, the second without chains, after which the kept row shows a chain and a fresh one none |

## Left out

- HTTP fetches, R2 and cache bindings, cron dispatch and `serve`: the store is a map with atomic puts and deletes, and fetched documents are inputs.
- Compression, SHA-256 and ed25519: gzip is the identity on text, a digest is injective, a signature is a blob tied to its text.
- JSON, YAML and `Date`: parsed records, integer milliseconds and time strings are inputs; the line parser of the panel is any function that gives nothing for a blank line.
- Runs of the two wings at the same moment: `writePointer` is a read and a write with nothing between.
- Pointer and state fields that carry no law: generated, entries, sha256, bytes, sources, upstream, etags, stats and last; steps are kept as ops rather than in their wire form.
- `Aggregator.Prune`: the source deletes in batches of 100 keys; here one key at a time, which allows more stopping points, not fewer.
- The public suffix list, the hostfile, `gateDomains`, the ThreatFox table's choice of the most confident row and the text of the domain artifact: a domain run starts from the gated list and its content.
- Stats counters of `normalize.js` and `build.js`.
- `Contributions.ClausesFromAffected`: a range keeps only its last introduced and fixed pair, as the code does; this is not the meaning of OSV ranges.
- Non-ASCII case folding in PyPI names.
- `Tar.ParsePax`: record lengths count bytes here and decoded characters in the code, so pax text is ASCII.
- `TarFormat.ArchiveReads`: sizes are written in octal; the reader's base-256 sizes are modelled but no archive with them is written.
- `TarFormat.OctalFieldReads`: a minus sign in an octal field, and numbers past 2^53, are not modelled.
- `Domains.MetaRoundTrip`: confidence is a natural number, and `Number` is any reader that reads decimals back.
- The `incident` field of alerts: its normalisation is not idempotent on odd input, and nothing else reads it.
- Titles, stakes, stories, verdict text, uncertainty, `coveredBy`, `surfaced`, `awaitingVerdict` and the incident memo: wording and identity, not grouping.
- `Incidents.GroupAlerts`: an infinite count reads as one.
- Install receipts beyond their number in file order, and their sort.
- `LogStore.Log.ReadText`: the fold's objects are values in a map here; that an unchanged read hands back the same array is not modelled, that decoration writes on the fold's own alerts is.
- `RowCache.UnackedCounts`: a severity spelt like an inherited property of a JavaScript object (`constructor`) is not modelled.
- `RowCache.FeedCache.IngestFeed`: object identity, `reuseChains`, fetched explain blocks and null rows are not modelled; a kept row keeps what was written on it.
- `NotifyRuns.ToastsKeepTheirDistance`: says nothing of toasts that bypass the window (`critical-first-seen`, `noisy-rule`, `chain`, `incident-escalated`), which the program lets through on purpose.
- The daemon, the sandbox, the scanner and the QML views.
