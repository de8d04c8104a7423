# Verified model of the k8s-httpcache controller

This project models the parts of the controller that are state machines or stream algorithms and
proves what they promise. `dafny verify dfyconfig.toml` checks all of it.

Every component is modelled twice. Imperative classes and methods follow the program's own fields,
loops and branches. Each is proved equal, call by call, to a function on values, and the theorems
are about those functions: over every input, every chunking, every run or every reachable state.

- **Redaction** (`Redaction`, `RedactingStream`, `RedactingBounds`, `RedactingWriter`,
  `NcsaWriters`, `NcsaLedger`). Whole-text redaction is the specification; the line-buffering
  writer with its overflow cuts is the chunked form that refines it. A ledger of what was fed,
  dropped, forwarded and buffered carries the proofs over whole runs. The prefix writer is composed
  behind it, and has a ledger of its own.
- **Backend discovery** (`Discovery`, `DiscoveryProtocol`, `DiscoveryRest`, `BackendConsumer`). Any
  number of watchers claim bare names, stamp incarnations with generations and announce them over
  channels that reorder; the event loop resolves what arrives. The protocol is a step system over
  all of them together; one watcher's undisturbed sync in it is its reconcile.
- **Reload and rollback** (`ReloadLoop`, `ReloadRuns`). The event loop with its debounce and retry
  timers, the renderer's unproven template, and varnishd's answers as an adversarial environment.
- **varnishstat** (`JsonText`, `JsonUnicode`, `JsonScan`, `JsonExact`, `Varnishstat`,
  `CounterDocuments`, `JsonScanner`). The concrete syntax of RFC 8259 sections 2 to 7, whitespace and
  escapes included, is the reference the hand-written scanner is proved exact against. One `char`
  stands for one byte.
- **Drain injection** (`VclLexer`, `VclBlocks`, `DrainInjection`, `DrainInjector`, `DrainFinding`,
  `DrainStructure`). A lexical grammar of VCL pieces is the reference for the comment scanner and the brace matcher.
- **Service and endpoint watching** (`Endpoints`, `EndpointSlices`, `BackendWatcher`) and
  **certificate rotation** (`TlsRotation`).

## What turned out not to hold

Each of these is a lemma with a concrete input or run. Where the code can meet the property, the
exact condition is proved beside it unless the line says otherwise.

- A target that overlaps the placeholder can reappear in redacted output, put together by a
  replacement (`RedactingStream.PlaceholderBytesCanSurvive`); no other target can
  (`RedactingStream.TargetSurvivesIff`).
- A backend seeded at startup has no owner generation, so an older removal still in flight deletes it
  (`BackendConsumer.SeededBackendCanBeLost`, `SeededBackendIsRightIff`).
- The comment on `BackendState` says consumers never see endpoints of one observation with metadata of
  another. An ExternalName that changes its metadata together with its host or its type sends exactly
  such a pair, and so does a later metadata change before the child has reported
  (`BackendWatcher.TornByNewHost`, `TornByNewType`, `TornBeforeFirstReport`, `TornSnapshotIff`).
- The comment on `syntheticEndpointName` says its results are unique per endpoint. IPv6 spellings
  that mix both separators collide (`EndpointSlices.MappedAddressesCollide`, `SyntheticNamesCollideIff`).
- A refused commit whose rollback fails leaves a certificate staged; the next call commits two and
  leaks one, although all listings succeed (`TlsRotation.FailedRollbackLeaks`, `RunLeaksNothingIff`).
- The import pattern allows a line break between `import` and `std`; commenting out such a match
  leaves its second line in force (`DrainStructure.SplitImportStaysInForce`, `CommentedIsCommentIff`).
- With a version line behind the first backend, drain injection can cut its own blocks in two
  (`DrainStructure.LateVersionCutsImport`, `LateVersionCutsBackend`). The condition of
  `DrainInjection.DrainPreservesProgram` is sufficient.
- With retries disabled, a failed reload leaves an update lost until the next event
  (`ReloadLoop.LostWithoutRetries`); with them none is lost (`EveryLoopTop`).

## Model

| member | source | states |
|---|---|---|
| Redaction.LongestMatchWins | internal/redact/redact.go:128-139 | with targets sorted longest first, no target that fits at a position is longer than the one replaced there |
| Redaction.MatchIsTarget | internal/redact/redact.go:133-139 | what is replaced is one of the targets, and nothing is replaced exactly when no target fits |
| Redaction.RedactIgnoresTieOrder | internal/redact/redact.go:128-139 | any two longest-first orderings of one target set redact every text alike, so an unstable sort is harmless |
| Redaction.LongestTargetIsReplaced | internal/redact/redact.go:133-139 | the longest target a text starts with gives way to exactly one placeholder, a byte no target starts at is copied, and what follows is redacted on its own |
| Redaction.RedactedTextIsClean | internal/redact/redact.go:72-79 | a target that does not overlap the placeholder occurs nowhere in redacted text, not even across a replacement |
| Redaction.VerbatimUpToPlaceholder | internal/redact/redact.go:72-79 | redacted text is verbatim input up to its first placeholder |
| Redaction.OverlapSurvives | internal/redact/redact.go:133-139 | for every target that overlaps the placeholder, a second target and an input are constructed that make it reappear in redacted text |
| Redaction.RedactDistributes | internal/redact/redact.go:200-211 | at a cut that no occurrence straddles, redacting the halves separately gives the redaction of the whole |
| Redaction.HoldIsLongest | internal/redact/redact.go:175-198 | the held-back tail is the longest suffix that is a proper prefix of a target |
| Redaction.GreatestSafeIsGreatest | internal/redact/redact.go:200-212 | the cut found is safe and every position above it up to the raw cut is straddled by an occurrence |
| Redaction.SafeBelowHoldIsSettled | internal/redact/redact.go:286-307 | a safe cut below the held-back tail stays safe for every continuation of the input |
| Redaction.LoweredPastSecretsOnly | internal/redact/redact.go:206-211 | every byte between the safe cut and the raw cut lies inside an occurrence, so a head with no cut is secret throughout |
| Redaction.SettledAfterNewline | internal/redact/redact.go:95-104 | with single-line targets the position behind a newline is a settled cut |
| RedactingStream.StepKeepsLedger | internal/redact/redact.go:272-333 | one Write or Flush keeps the account of what was fed, dropped as secret, forwarded and still buffered |
| RedactingStream.EveryRunIsAccounted | internal/redact/redact.go:272-333 | that account balances after every sequence of Writes and Flushes, collapses included |
| RedactingStream.FlushCompletes | internal/redact/redact.go:320-333 | Flush after a run without collapse leaves exactly the redaction of everything fed, plus a newline if bytes were buffered |
| RedactingStream.StreamingRefinesRedact | internal/redact/redact.go:269-333 | for every chunking and every place the buffer overflows, a flushed run that never collapses emits Redact of the concatenated input plus one newline iff bytes were buffered |
| RedactingStream.LedgerOutputIsClean | internal/redact/redact.go:272-318 | a balanced account has no target in its output that does not overlap the placeholder |
| RedactingStream.NoTargetSurvives | internal/redact/redact.go:272-345 | after any Writes and Flushes, collapses included, the whole output contains no target that does not overlap the placeholder |
| RedactingStream.TargetSurvivesIff | internal/redact/redact.go:133-345 | over all target sets, bounds and runs: a target can be found in the output of some run iff it overlaps the placeholder |
| RedactingStream.PlaceholderBytesCanSurvive | internal/redact/redact.go:133-139 | concrete input: the word the placeholder spells reappears inside its own replacement |
| RedactingBounds.OverflowRebounds | internal/redact/redact.go:286-317 | however far an overflow lowers its cut, what is left is bounded again, because positions it was lowered past stay uncuttable |
| RedactingBounds.BufferBound | internal/redact/redact.go:252-260 | after any history, the partial line kept by Write(p) is shorter than the larger of limit and longest target, plus the length of p |
| RedactingBounds.ShortLinesNeverCut | internal/redact/redact.go:269-318 | a stream whose lines stay below the limit never overflows and buffers exactly its current partial line |
| RedactingWriter.Redactor.constructor | internal/redact/redact.go:29-35 | starts with no targets |
| RedactingWriter.CollectLeafStrings | internal/redact/redact.go:366-383 | walking a nested Secret value collects exactly its text leaves of at least the minimum length |
| RedactingWriter.Redactor.Update | internal/redact/redact.go:37-51 | replaces the Secret-derived targets by the long-enough leaves of all Secrets, keeps the static ones, and rebuilds |
| RedactingWriter.Redactor.SetStaticValues | internal/redact/redact.go:53-70 | replaces one source key's targets only, dropping short ones, and rebuilds |
| RedactingWriter.Redactor.Rebuild | internal/redact/redact.go:109-140 | the target list is the union of both value sets, without duplicates, longest first |
| RedactingWriter.Redactor.TailHold | internal/redact/redact.go:175-198 | the descending loop over suffix lengths computes the longest held-back suffix |
| RedactingWriter.Redactor.StraddlingStart | internal/redact/redact.go:219-243 | the windowed search finds an occurrence straddling the cut if there is one |
| RedactingWriter.Redactor.SafeCutBelow | internal/redact/redact.go:200-250 | the fixpoint loop over targets terminates with the greatest safe cut |
| RedactingWriter.WindowSuffices | internal/redact/redact.go:206-207 | the window of one target length on either side of the cut contains every occurrence that straddles it |
| RedactingWriter.Writer.BoundPartialLine | internal/redact/redact.go:286-317 | an overflow forwards a safe head in one call, or collapses a head with no safe cut to one placeholder |
| RedactingWriter.Writer.Write | internal/redact/redact.go:269-318 | appending, forwarding complete lines in one call and bounding the rest is the stream's Write step |
| RedactingWriter.Writer.Flush | internal/redact/redact.go:320-333 | forwards the partial line newline-terminated and empties the buffer: the stream's Flush step |
| NcsaWriters.RedactStaysSingleLine | internal/redact/redact.go:95-104 | redacting a line leaves one line |
| NcsaWriters.PrefixedRedaction | internal/varnish/manager.go:100-111 | prefixing the redaction of complete lines equals redacting and prefixing line by line |
| NcsaWriters.ChainForwardsLines | internal/varnish/manager.go:687-711 | while running, the chain has forwarded each complete line redacted and prefixed |
| NcsaWriters.ChainIsLineByLine | internal/varnish/manager.go:687-720 | for every chunking of a stream of short lines, after flushing redactor then prefixer the sink holds, line by line, the prefix followed by the redaction of the line |
| NcsaLedger.EveryPrefixedRunIsBalanced | internal/varnish/manager.go:117-214 | over any Writes and Flushes, over-long lines included: the input divides into whole lines, over-long stretches and the buffered rest, and the output is those lines and stretches, in order, each behind one prefix |
| NcsaWriters.PrefixWriter.Write | internal/varnish/manager.go:117-179 | all three code paths compute the one prefixing step; complete lines leave in one call |
| NcsaWriters.PrefixWriter.Flush | internal/varnish/manager.go:181-194 | a partial last line leaves prefixed and newline-terminated |
| NcsaWriters.PrefixWriter.FlushOverlongLine | internal/varnish/manager.go:196-214 | an over-long partial line leaves prefixed without an invented newline |
| BackendConsumer.CellAfter | main.go:1977-2025 | owner generation, tombstone and state of a name after any history of messages, in terms of its newest ADD and REMOVAL |
| BackendConsumer.PresentIffNewestNotRemoved | main.go:1977-2025 | after any messages in any order the backend is present iff the newest ADD generation exceeds the newest REMOVAL generation, with the last state that generation sent |
| BackendConsumer.InterleavingsAgree | main.go:1977-2025 | two interleavings that keep each generation's own order end in the same state |
| BackendConsumer.SeededBackendCanBeLost | main.go:1034-1051 | a backend seeded at startup carries no owner generation, so an older removal still in flight deletes it: concrete run |
| BackendConsumer.SeededBackendIsRightIff | main.go:1034-1051 | exactly when a seeded backend ends as if its first state had been delivered as an ADD: no message at all, or one of its own or a newer generation, or an older ADD outliving the removals with the same state |
| BackendConsumer.ExplicitHistory | main.go:1973-2025 | whatever was held before, explicit messages leave what the last of them says; none is dropped, none records a removed generation |
| BackendConsumer.ExplicitBackendFollowsItsWatcher | main.go:1973-2025 | an explicit backend, fresh or seeded, holds what its watcher sent last, with no owner and no tombstone |
| BackendConsumer.ExplicitAddIsHeld | main.go:2010-2018 | an explicit ADD is held as soon as it arrives, after any history |
| BackendConsumer.ExplicitAddsLeaveGenerations | main.go:2016-2018 | explicit ADDs, wherever they stand in a history, never change what later messages are compared with |
| BackendConsumer.ExplicitAddStaysUntilTimely | main.go:1977-2018 | an explicit ADD stays in force exactly until a message arrives that is neither older than the owner nor an ADD of a removed generation; from then on the name is as if it had never been |
| BackendConsumer.Consumer.Handle | main.go:1966-2033 | one backend event: drops what a newer owner or a tombstone supersedes, deletes, or stores, for its name only; an explicit message is always applied; an applied removal renews the tombstone's time |
| BackendConsumer.Consumer.Sweep | main.go:2459-2479 | evicts exactly the tombstones at least as old as the TTL, none if it is 0, counts them, and changes nothing else of any name |
| Discovery.NameRegistry.Claim | internal/watcher/discovery_watcher.go:85-97 | succeeds iff the name is free or already this owner's, and then records it |
| Discovery.NameRegistry.Release | internal/watcher/discovery_watcher.go:99-127 | frees the name iff this owner holds it, and then owes every subscriber a kick |
| Discovery.NameRegistry.Subscribe | internal/watcher/discovery_watcher.go:129-149 | a new subscription id joins the set that releases notify |
| Discovery.NameRegistry.Unsubscribe | internal/watcher/discovery_watcher.go:144-148 | removes exactly that subscription |
| Discovery.AddPassAdoptsFirst | internal/watcher/discovery_watcher.go:548-607 | an add pass manages, besides what it managed, exactly the first listed Service of each free non-explicit name, with fresh generations |
| Discovery.ReconcileLeavesNoOrphan | internal/watcher/discovery_watcher.go:504-641 | without a shared registry, after a reconcile exactly the winners of the listed non-explicit names are managed, one per name; still-listed incumbents keep name and generation |
| Discovery.EveryListedNameIsManaged | internal/watcher/discovery_watcher.go:635-641 | no listed non-explicit name is left without a manager after one reconcile |
| Discovery.ReconcileBesideOthers | internal/watcher/discovery_watcher.go:504-641 | with a registry: afterwards exactly the winners of the listed names that are neither explicit nor owned by another watcher are managed, every one holds its claim, no other claim is this watcher's, and the others' claims are untouched |
| Discovery.EveryListedNameIsOwned | internal/watcher/discovery_watcher.go:635-641 | with a registry: each listed non-explicit name is managed here or owned by another watcher, never both |
| Discovery.ReconcileIgnoresListingOrder | internal/watcher/discovery_watcher.go:510-522 | the result of a reconcile depends on the set of listed Services, not on the lister's order |
| Discovery.FirstIsLowest | internal/watcher/discovery_watcher.go:518-522 | the Service that wins a contested name is the one with the lowest namespace/name path |
| Discovery.GenCounter.Next | internal/watcher/discovery_watcher.go:697-706 | generations are handed out strictly increasing, starting at 1 |
| Discovery.DiscoveryWatcher.AddServices | internal/watcher/discovery_watcher.go:540-607 | the add-pass loop over registry and managed map is the specified pass |
| Discovery.DiscoveryWatcher.SyncServices | internal/watcher/discovery_watcher.go:463-668 | both add passes and the remove loop are the specified reconcile; it returns the removals to announce and the kicks owed |
| Discovery.WithoutOneMore | internal/watcher/discovery_watcher.go:618-633 | dropping incarnations one at a time in map order equals dropping them together |
| DiscoveryProtocol.ExamineAndCreateIsAdopt | internal/watcher/discovery_watcher.go:550-607 | the two interleavable halves of adopting a Service (claim, then generation) compose to one iteration of the add pass |
| DiscoveryProtocol.DropIsWithout | internal/watcher/discovery_watcher.go:618-633 | one drop step is one iteration of the remove pass |
| DiscoveryProtocol.ClaimsStayMatched | internal/watcher/discovery_watcher.go:566-633 | every step keeps registry owners and managed incarnations in correspondence |
| DiscoveryProtocol.NewestAfterCreate | internal/watcher/discovery_watcher.go:578-590 | a newly created incarnation is the newest its name ever had, and no other is managed |
| DiscoveryProtocol.RecordStaysExact | internal/watcher/discovery_watcher.go:426-459 | every step keeps the record of what each incarnation sent, what arrived and whether its removal is out |
| DiscoveryProtocol.CellsStayMatched | main.go:1966-2033 | every step keeps the consumer's cell equal to what the arrived messages determine, evictions included |
| DiscoveryProtocol.EveryoneStaysAwake | internal/watcher/discovery_watcher.go:296-316 | every step keeps each running watcher either owning, about to sync, or owed a kick for each name it lists |
| DiscoveryProtocol.EveryRunKeepsInvariant | internal/watcher/discovery_watcher.go:426-668 | all of the above hold in every state reachable by any interleaving of any number of watchers |
| DiscoveryProtocol.OneManagedIncarnationPerName | internal/watcher/discovery_watcher.go:566-590 | in every reachable state a bare name has at most one managed incarnation across all watchers, newer than every incarnation it ever had |
| DiscoveryProtocol.DrainedNamesConverge | main.go:1966-2033 | in every reachable state whose channels for a name have drained, the loop holds the name iff its newest incarnation is still managed and delivered a state, and then holds the last one delivered |
| DiscoveryProtocol.NoLostWakeup | internal/watcher/discovery_watcher.go:99-127 | in every reachable state each non-explicit name a running watcher lists is owned by someone, or that watcher has a sync due or running, or a kick on its way |
| DiscoveryProtocol.AtRestEveryNameIsManaged | internal/watcher/discovery_watcher.go:99-127 | when nothing is scheduled any more, every listed non-explicit name is managed by the incarnation its owner token names |
| DiscoveryRest.UndisturbedSyncIsReconcile | internal/watcher/discovery_watcher.go:504-641 | however a sync's steps are interleaved with deliveries, kicks and changes of view, if no other watcher takes or frees a name it ends exactly where one reconcile ends |
| DiscoveryRest.SyncNeverStalls | internal/watcher/discovery_watcher.go:504-641 | in every state on record a running sync has a step to take |
| DiscoveryRest.EveryRunIsTidy | internal/watcher/discovery_watcher.go:609-641 | in every reachable state, an idle watcher with nothing due manages only Services its view lists |
| DiscoveryRest.RecordIsHistory | internal/watcher/discovery_watcher.go:426-459 | in every reachable state an incarnation has sent exactly the states handed to its forwarder, in order, as many have arrived as were delivered, and only a shutdown drops one without an announcement |
| DiscoveryRest.RestingSystemServesWhatIsListed | main.go:1966-2033 | end to end: at rest and drained, the loop holds a name iff a running watcher lists a Service of that name that is not explicit and the incarnation in charge has reported, and then its last report |
| ReloadLoop.Renderer.Reload | internal/renderer/renderer.go:157-183 | the first unproven swap saves the baseline, later ones keep it; a parse failure changes nothing |
| ReloadLoop.Renderer.Commit | internal/renderer/renderer.go:185-190 | discards the baseline and keeps the active template |
| ReloadLoop.Renderer.Rollback | internal/renderer/renderer.go:192-200 | restores the baseline if there is one, otherwise does nothing |
| ReloadLoop.RevertOutcome | main.go:1390-1428 | a rollback reload ends with the baseline running the current inputs, or keeps what runs with a retry due |
| ReloadLoop.AttemptOutcome | main.go:1754-1879 | every outcome of a render and reload attempt keeps hash and swap flag right and leaves the result current, retried or unrenderable |
| ReloadLoop.ReloadLosesNothing | main.go:1705-1880 | one handleReload neither loses an update nor forgets a changed template file |
| ReloadLoop.ReloadKeepsBaselineProven | main.go:1740-1879 | the baseline only moves to a template whose render varnishd runs |
| ReloadLoop.EveryLoopTop | main.go:1941-2128 | at every loop top of every run with retries enabled: the running VCL is current, or a reload is pending with a timer armed, or these inputs do not render; the hash is that of the running VCL; the swap flag holds iff a baseline is saved; the baseline is a proven template |
| ReloadLoop.LostWithoutRetries | main.go:162-177 | with retries disabled a failed reload leaves nothing armed: concrete family of runs |
| ReloadLoop.NewTemplateKeptUnlessRefused | main.go:1833-1845 | a new template is given up only if it failed to render or varnishd refused its VCL |
| ReloadRuns.ReloadVerdict | main.go:1740-1879 | a due reload is about the changed file if it can be read, else the active template, and by the renders and answers alone: what then runs, which template is active, which baseline is saved, what is due and which timers are armed |
| ReloadRuns.UnchangedFileIsIgnored | main.go:1707-1752 | a reload that is not due, or without a file change, never depends on the file |
| ReloadRuns.EveryRunRemembers | main.go:1941-2108 | over any run, retries or not: the inputs are those announced last, a file change is remembered exactly until the next firing, each debounce timer is armed exactly while an event of its own group awaits it |
| ReloadRuns.NextFiringTriesFile | main.go:1941-2108 | over any run: the next firing after a file change attempts that file with the latest inputs; if varnishd takes it, it runs and nothing is left to roll back |
| ReloadLoop.EventLoop.RevertTemplate | main.go:1770-1789 | rollback, reload and conditional re-read are the specified revert |
| ReloadLoop.EventLoop.ReloadAfterRollback | main.go:1387-1428 | renders and reloads with the rolled-back template; the hash moves only with the running VCL |
| ReloadLoop.EventLoop.AttemptReload | main.go:1754-1879 | the attempt on the loop's own fields is the specified one, branch by branch |
| ReloadLoop.EventLoop.Reload | main.go:1705-1752 | clears both debounce groups, picks up a changed template, then attempts |
| ReloadLoop.EventLoop.Handle | main.go:1941-2128 | one iteration of the loop is the specified transition |
| JsonScan.BodyIsText | internal/telemetry/varnishstat_parser.go:71-132 | the closing quote is found exactly at the end of the string's text, whatever escapes it contains |
| JsonScan.UnescapeIsMeaning | internal/telemetry/varnishstat_parser.go:303-367 | unescaping any RFC 8259 spelling, surrogate pairs included, gives the bytes it means |
| JsonScan.ScanStringReadsMeaning | internal/telemetry/varnishstat_parser.go:71-108 | scanning a quoted string returns its meaning and leaves exactly what follows |
| JsonScan.EscapeRoundTrip | internal/telemetry/varnishstat_parser.go:303-367 | the escaped form of any byte string means that string |
| JsonUnicode.Utf8IsDecoded | internal/telemetry/varnishstat_parser.go:303-367 | every scalar value is written in its one UTF-8 encoding, any other number as U+FFFD |
| JsonUnicode.EscapesMeanCodePoints | internal/telemetry/varnishstat_parser.go:303-367 | the escape of every code point, surrogate pairs and either case of digits included, is unescaped to that code point |
| JsonUnicode.ShortEscapes | internal/telemetry/varnishstat_parser.go:303-367 | the eight two-character escapes mean what RFC 8259 section 7 says |
| JsonScan.ScanEscapedRoundTrip | internal/telemetry/varnishstat_parser.go:71-108 | scanning the escaped, quoted form of any byte string returns the string |
| JsonExact.NumberExact | internal/telemetry/varnishstat_parser.go:134-170 | every RFC 8259 number followed by a delimiter is consumed exactly |
| JsonExact.SkipExact | internal/telemetry/varnishstat_parser.go:172-289 | skipValue consumes exactly any JSON value in any layout, and refuses a well-formed one iff it would open more than 1000 levels |
| JsonExact.ItemsExact | internal/telemetry/varnishstat_parser.go:253-289 | the array loop consumes exactly the items up to and including the closing bracket |
| JsonExact.MembersExact | internal/telemetry/varnishstat_parser.go:202-251 | the object loop consumes exactly the members up to and including the closing brace |
| Varnishstat.FieldsExact | internal/telemetry/varnishstat_parser.go:399-505 | a counter object in any layout is read as what its members mean |
| Varnishstat.SkipFieldsExact | internal/telemetry/varnishstat_parser.go:527-563 | after a non-numeric value the rest of the object is consumed exactly, so the enclosing map stays in step |
| Varnishstat.EntriesExact | internal/telemetry/varnishstat_parser.go:565-638 | the counter map is read as the fold of its entries |
| Varnishstat.NestedExact | internal/telemetry/varnishstat_parser.go:656-716 | the search for the nested schema takes the first "counters" member and skips the others |
| Varnishstat.ParseIsMeaning | internal/telemetry/varnishstat_parser.go:640-654 | for every JSON value in every spelling and layout, the parser's answer (counters or error) is what the document means |
| CounterDocuments.LastFieldWins | internal/telemetry/varnishstat_parser.go:459-563 | what every object means: with regular fields the last of each name counts, in any order and among unknown ones; otherwise the first irregular field decides between dropping the object and failing |
| CounterDocuments.NonNumberIsDropped | internal/telemetry/varnishstat_parser.go:507-525 | an object whose last value is not a number is never counted |
| CounterDocuments.LastEntryWins | internal/telemetry/varnishstat_parser.go:565-638 | a map is refused iff some entry spoils it; otherwise each key that is kept has its last counter, and entries that are no counter neither count nor displace one |
| CounterDocuments.FlatRoundTrip | internal/telemetry/varnishstat_parser.go:718-736 | counters printed in the flat schema with dotted keys, among any lines with dotless keys other than "counters", are read back exactly |
| CounterDocuments.NestedRoundTrip | internal/telemetry/varnishstat_parser.go:656-716 | counters printed in the nested schema are read back exactly, whatever comes before and after them |
| JsonScanner.UnescapeJSONString | internal/telemetry/varnishstat_parser.go:303-367 | the byte loop with its in-place index arithmetic is the unescaping function |
| JsonScanner.ParseHex4 | internal/telemetry/varnishstat_parser.go:374-397 | shifting in four digits gives their value, and fails iff one is not hexadecimal |
| JsonScanner.Scanner.SkipWhitespace | internal/telemetry/varnishstat_parser.go:47-56 | advances over exactly the leading whitespace |
| JsonScanner.Scanner.ExpectByte | internal/telemetry/varnishstat_parser.go:58-69 | skips whitespace and consumes the byte iff it is next |
| JsonScanner.Scanner.SkipStringEscape | internal/telemetry/varnishstat_parser.go:110-132 | passes exactly one escape sequence; fails iff it is malformed |
| JsonScanner.Scanner.ScanStringLiteral | internal/telemetry/varnishstat_parser.go:71-108 | returns the content and leaves what follows, as specified on the unread text |
| JsonScanner.Scanner.ScanNumberLiteral | internal/telemetry/varnishstat_parser.go:134-170 | returns the text of the number and leaves what follows |
| JsonScanner.Scanner.SkipLit | internal/telemetry/varnishstat_parser.go:291-301 | consumes the literal iff the text starts with it |
| JsonScanner.Scanner.SkipAnyValue | internal/telemetry/varnishstat_parser.go:172-200 | skips one value as specified and restores the nesting depth |
| JsonScanner.Scanner.SkipWholeObject | internal/telemetry/varnishstat_parser.go:202-251 | skips one object; the nesting depth is restored on success and on failure |
| JsonScanner.Scanner.SkipWholeArray | internal/telemetry/varnishstat_parser.go:253-289 | skips one array; the nesting depth is restored on success and on failure |
| JsonScanner.Scanner.SkipRemainingFields | internal/telemetry/varnishstat_parser.go:527-563 | consumes the rest of the object as specified |
| JsonScanner.Scanner.ParseCounterObject | internal/telemetry/varnishstat_parser.go:399-505 | the field loop is the specified reading of one counter object |
| JsonScanner.Scanner.ParseCounterMap | internal/telemetry/varnishstat_parser.go:565-638 | the entry loop fills the map the specification describes, last entry of a key winning |
| JsonScanner.Scanner.ParseV7 | internal/telemetry/varnishstat_parser.go:656-716 | the search loop gives the specified answer for the nested schema |
| JsonScanner.ReadVarnishstat | internal/telemetry/varnishstat_parser.go:640-654 | nested schema first, flat schema with a scanner of its own only if there is no "counters" key |
| VclLexer.InCommentOrLongStringAt | internal/renderer/renderer.go:349-421 | one pass over the text answers every offset as a scan of its own would |
| VclLexer.Decomposed | internal/renderer/renderer.go:331-347 | every text is a sequence of code bytes, comments and strings, and perhaps one that never ends |
| VclLexer.HiddenIffInside | internal/renderer/renderer.go:331-347 | on every text an offset is reported iff it lies inside a block comment or a long string, or behind the opener of one that never ends, whatever delimiters other pieces contain |
| VclLexer.ReachesScan | internal/renderer/renderer.go:371-414 | behind the end of a token the text is scanned like a text of its own |
| VclLexer.LineStartReaches | internal/renderer/renderer.go:342-344 | tokens end at line ends, and no line comment is open at the start of a line |
| VclBlocks.CloseBraceMatches | internal/renderer/renderer.go:495-562 | the closing brace of a balanced block is found whatever its comments and strings contain |
| VclBlocks.AdvanceReaches | internal/renderer/renderer.go:499-544 | brace matcher and comment scanner agree on where comments and strings end, on every text |
| VclBlocks.BlockEndIsCode | internal/renderer/renderer.go:467-474 | on every text, a block entered in code ends in code, at the end of a token |
| DrainInjection.LineStartIsCode | internal/renderer/renderer.go:342-344 | a line-anchored match outside block comments and long strings starts in code, unless a quoted string is open across the line break |
| DrainInjection.BackendEndIsCode | internal/renderer/renderer.go:551-561 | in the scan of the whole text, the offset behind a closed backend block, newline included, is code between two tokens |
| DrainInjection.PlainMatchIsCode | internal/renderer/renderer.go:304-325 | the offset behind a version line is code between two tokens |
| DrainInjection.CommentOutKeepsPrefix | internal/renderer/renderer.go:438-462 | commenting out late imports leaves everything before the threshold as it is |
| DrainInjection.NothingLateNothingChanged | internal/renderer/renderer.go:456-458 | with no late import the text is unchanged |
| DrainFinding.StructureIsTaken | internal/renderer/renderer.go:313-325 | the version line and the vcl_deliver taken are the first matches outside block comments and long strings, the imports and backends exactly such matches |
| DrainFinding.FirstFromIsFirst | internal/renderer/renderer.go:763-773 | the import looked for is the first of those that start at or behind the offset |
| DrainFinding.EndsFollowBackends | internal/renderer/renderer.go:469-565 | the block ends are those of the backends found, in order |
| DrainFinding.BalancedBlockEnds | internal/renderer/renderer.go:495-562 | a block of comments, strings and code with balanced braces ends behind its closing brace and one newline |
| DrainFinding.LateImportsAreCommentedOut | internal/renderer/renderer.go:438-462 | byte for byte: what belongs to no late import is kept in order, each late import gives way to its comment, nothing else is added |
| DrainStructure.CommentedIsCommentIff | internal/renderer/renderer.go:451-453 | every non-blank byte of a commented-out match is comment iff no line break comes before its last non-blank byte; the pattern also allows one between import and std |
| DrainStructure.SplitImportStaysInForce | internal/renderer/renderer.go:438-462 | concrete input: of an import split over two lines, the second line stays in force |
| DrainInjection.DrainPreservesProgram | internal/renderer/renderer.go:646-761 | if an added import follows a version line that ends no later than the drain backend's offset: the output is the user's text, late imports commented out, cut at the planned offsets with only the injected blocks between the pieces; up to the drain sub it is untouched |
| DrainStructure.InjectionKeepsStructure | internal/renderer/renderer.go:606-631 | blocks put at offsets in code are code, and every offset of the user's text is scanned as before: code stays code, comments stay comments, strings stay strings |
| DrainStructure.DrainKeepsStructure | internal/renderer/renderer.go:646-761 | the same of the whole injection, whenever the planned offsets are in code |
| DrainInjection.DrainPlacement | internal/renderer/renderer.go:633-674 | with any backend: the drain backend directly follows a user backend and precedes the sub; an import is added iff no user import starts before the sub; unless the warning is raised the sub precedes the user's first vcl_deliver; the warning is raised iff that one starts before the first backend ends |
| DrainInjection.DrainWithoutBackend | internal/renderer/renderer.go:763-782 | without a backend the blocks follow the first import behind the version line, or the version line with an import of their own; nothing else changes and no warning is raised |
| DrainStructure.LateVersionCutsImport | internal/renderer/renderer.go:756-760 | a version line behind the only backend: the drain blocks cut the injected import in two |
| DrainStructure.LateVersionCutsBackend | internal/renderer/renderer.go:698-714 | a version line and a vcl_deliver between two backends: the injected import cuts the drain backend in two |
| DrainInjector.ImportStdPositions | internal/renderer/renderer.go:423-436 | keeps exactly the matches that are structure |
| DrainInjector.FirstLive | internal/renderer/renderer.go:591-604 | finds the first match that is structure |
| DrainInjector.EndOfBlock | internal/renderer/renderer.go:495-561 | the index loop finds the end of the block, or the offset behind the brace for an unclosed one |
| DrainInjector.BackendBlockEnds | internal/renderer/renderer.go:469-565 | the ends of all structural backend blocks in source order, from one shared scan |
| DrainInjector.LastBackendBlockEnd | internal/renderer/renderer.go:573-585 | the largest end |
| DrainInjector.CommentOutFrom | internal/renderer/renderer.go:438-462 | the builder loop is the specified rewriting |
| DrainInjector.InjectDrainPrepended | internal/renderer/renderer.go:676-715 | splicing from the highest offset down computes the specified text |
| DrainInjector.InjectDrainVCLLegacy | internal/renderer/renderer.go:717-782 | splicing behind the last backend, or behind an import or the version line, computes the specified text |
| DrainInjector.InjectDrainVCL | internal/renderer/renderer.go:646-674 | the choice of placement and the warning flag are the specified ones |
| BackendWatcher.LatestSnapshot | internal/watcher/backend_watcher.go:183-272 | after any events the value put on the channel last pairs the current metadata with the endpoints established last, and a consumer that emptied the channel holds exactly that; the endpoints are those of the latest view except while a backed Service's child has yet to report, when they may be an earlier ExternalName's |
| BackendWatcher.ExternalNameIsHeld | internal/watcher/backend_watcher.go:246-293 | over any run that last found an ExternalName: the consumer holds its metadata, excluded annotations removed, and its host at the configured decimal port, at 80 if none is configured, and nothing without a host or with a port that is no 32-bit number |
| BackendWatcher.MissingServiceIsHeld | internal/watcher/backend_watcher.go:197-218 | over any run that last found no Service: no metadata and no endpoints |
| BackendWatcher.BackedServiceIsHeld | internal/watcher/backend_watcher.go:220-271 | from the current child's report on, lookups that find the Service backed and stale reports leave the reported endpoints, paired with the metadata found last |
| BackendWatcher.SupersededChildIsMute | internal/watcher/backend_watcher.go:371-389 | once a child watcher was stopped or replaced, nothing it still has in flight changes anything, however late it arrives |
| BackendWatcher.TornSnapshotIff | internal/watcher/backend_watcher.go:223-272 | exactly which lookups put a pair on the channel the Service cannot have had: new metadata with new ExternalName endpoints, or new metadata of a backed Service whose child has not reported while an earlier ExternalName's endpoints are in use; in the first case the right pair follows at once |
| BackendWatcher.OtherSendsAreCoherent | internal/watcher/backend_watcher.go:195-218 | what a child's report or a failed lookup sends is always coherent |
| BackendWatcher.TornByNewHost | internal/watcher/backend_watcher.go:223-266 | concrete run: an ExternalName gets a new host and a new label |
| BackendWatcher.TornByNewType | internal/watcher/backend_watcher.go:235-271 | concrete run: an ExternalName becomes a backed Service with a new label |
| BackendWatcher.TornBeforeFirstReport | internal/watcher/backend_watcher.go:235-271 | concrete run: the label changes after that, before the child's first report |
| BackendWatcher.Watcher.SyncService | internal/watcher/backend_watcher.go:183-272 | all branches of a Service sync are the specified step |
| BackendWatcher.Watcher.SendFromChild | internal/watcher/backend_watcher.go:371-389 | an update of the current child is sent, any other ignored |
| BackendWatcher.Watcher.SendLocked | internal/watcher/backend_watcher.go:398-425 | sends and records the endpoints unless they are the previous ones |
| BackendWatcher.Watcher.ResendLocked | internal/watcher/backend_watcher.go:344-353 | sends the previous endpoints with the metadata now known |
| BackendWatcher.Watcher.CoalescingSend | internal/watcher/watcher.go:445-460 | the buffered value is replaced by the new one |
| BackendWatcher.Watcher.FilterAnnotations | internal/watcher/annotation_filter.go:51-67 | keeps exactly the annotations not excluded |
| BackendWatcher.PortOverrideMeans | internal/watcher/backend_watcher.go:274-293 | for both kinds of Service a configured 32-bit decimal number is the port; text that is no number names a port of a slice and is an error for an ExternalName |
| EndpointSlices.DecimalParses | internal/watcher/watcher.go:368-382 | a number written in decimal is read back, unless it does not fit 32 bits |
| EndpointSlices.ParsedIffNumeral | internal/watcher/watcher.go:368-382 | exactly what is read as a port number: a decimal numeral that fits 32 bits, behind a sign or none and any zeros |
| Endpoints.CompareIsTotalOrder | internal/watcher/watcher.go:330-357 | the comparator over all fields is a total order in which only identical endpoints tie |
| Endpoints.StringsByBytes | internal/watcher/watcher.go:338-357 | strings compare by the first byte that differs, a proper prefix first |
| Endpoints.SortedIsSorted | internal/watcher/watcher.go:338-357 | sorting gives an ascending permutation |
| Endpoints.AscendingIsUnique | internal/watcher/watcher.go:330-337 | there is one ascending arrangement of a multiset, so an unstable sort is deterministic here |
| Endpoints.CanonicalIsFunctionOfMultiset | internal/watcher/watcher.go:330-362 | permutations of the same endpoints canonicalise to equal lists |
| Endpoints.AnySortGivesCanonical | internal/watcher/watcher.go:338-362 | whatever algorithm sorts, compacting gives the canonical list |
| Endpoints.CanonicalCoversAddresses | internal/watcher/watcher.go:338-362 | the list is strictly increasing in host and port, covers exactly the given addresses, and keeps of each the least endpoint |
| EndpointSlices.FromSlicesIgnoresOrder | internal/watcher/watcher.go:172-250 | listing the slices in another order takes the same multiset of endpoints |
| EndpointSlices.PublishedIffCounts | internal/watcher/watcher.go:136-262 | an address and port are published iff some entry has that first address in a slice of the served family whose port resolves so, and is ready or of unknown readiness, or, while there is no such entry, is not ready but serving and terminating |
| EndpointSlices.PublishedIsDescribed | internal/watcher/watcher.go:180-262 | every published endpoint carries the name (or synthetic name), zone, node and hints of such an entry |
| EndpointSlices.ResolvedPort | internal/watcher/watcher.go:368-390 | the configured number; or the first port of the configured name that has a number; or without configuration the first port's number; else 0 |
| EndpointSlices.PublishedIgnoresListingOrder | internal/watcher/watcher.go:129-281 | family choice, readiness fallback and canonical order together do not depend on the lister's order |
| EndpointSlices.SyncSendsChangesOnly | internal/watcher/watcher.go:281-303 | a sync sends iff it is the first or the list changed; re-syncing an unchanged store in any order sends nothing |
| EndpointSlices.SyntheticNamesCollideIff | internal/watcher/watcher.go:305-328 | two synthetic names are equal iff the ports agree and the addresses differ only in folded characters |
| EndpointSlices.SyntheticNameIsSafe | internal/watcher/watcher.go:305-328 | the name is made of VCL identifier characters only: the address, every other character replaced by an underscore, then the port |
| EndpointSlices.OneSeparatorKeepsNamesApart | internal/watcher/watcher.go:305-310 | addresses that use a single separator keep their synthetic names apart |
| EndpointSlices.MappedAddressesCollide | internal/watcher/watcher.go:305-310 | two IPv6 spellings with both separators get the same synthetic name, so names are not unique in general: concrete pair |
| EndpointSlices.SortEndpoints | internal/watcher/watcher.go:338-357 | the stand-in for the library sort computes the sorted list |
| EndpointSlices.CanonicalizeEndpoints | internal/watcher/watcher.go:338-362 | sorting and compacting in a loop gives the canonical list |
| EndpointSlices.EndpointsEqual | internal/watcher/watcher.go:427-443 | true iff the lists are equal, field by field |
| EndpointSlices.Watcher.TakeSlice | internal/watcher/watcher.go:174-250 | the inner loop sorts a slice's endpoints into ready and serving-terminating ones |
| EndpointSlices.Watcher.FamilyOf | internal/watcher/watcher.go:136-161 | IPv4 iff any IPv4 slice exists |
| EndpointSlices.Watcher.Sync | internal/watcher/watcher.go:118-303 | one sync is the specified step |
| TlsRotation.EnqueueKeepsDistinct | internal/varnish/tls.go:210-226 | queueing keeps ids distinct and at most 8, dropping the oldest exactly when a new id meets a full queue |
| TlsRotation.DiscardAllIs | internal/varnish/tls.go:228-257 | exactly the ids whose discard was not accepted (or that no listing vouches for) stay queued, exactly the active ones not refused are discarded, and the accepted ones are counted |
| TlsRotation.AppearedIsStaged | internal/varnish/tls.go:133-149 | the before/after difference is exactly what was staged, never a recorded or queued id |
| TlsRotation.StepIsSafe | internal/varnish/tls.go:77-179 | whatever commands fail and however, a call keeps recorded ids pairwise distinct, active, undiscarded and out of the queue, and queue ids distinct and at most 8 |
| TlsRotation.EveryRunIsSafe | internal/varnish/tls.go:77-179 | the same over any sequence of calls |
| TlsRotation.DiscardsSpareRecorded | internal/varnish/tls.go:160-170 | no discard sent during a call names a certificate recorded for any name |
| TlsRotation.RotationReplaces | internal/varnish/tls.go:112-170 | what a call does for its name: recorded ids change only on a commit with two listings, for this name only, to a certificate that was not there before; the one replaced is discarded unless refused and queued unless confirmed |
| TlsRotation.LeakedExactly | internal/varnish/tls.go:112-170 | exactly which active certificates a call puts beyond the reach of any later discard |
| TlsRotation.RunLeaksNothingIff | internal/varnish/tls.go:77-179 | at any point of any run nothing has leaked iff nothing had before and no call so far leaked anything |
| TlsRotation.OrderlyRunsLeakNothing | internal/varnish/tls.go:210-215 | as long as commits are bracketed by working listings, no failed commit took effect, rollbacks that have something to clear succeed and the queue does not overflow, every active certificate is recorded, queued or discarded |
| TlsRotation.FailedRollbackLeaks | internal/varnish/tls.go:124-131 | a refused commit whose rollback also fails makes the next call commit two certificates and leak one: concrete run |
| TlsRotation.GaugeIsExactIff | internal/varnish/tls.go:166-173 | the gauge is the number of active undiscarded certificates iff no discard reported as failed took effect |
| TlsRotation.Manager.QueueDiscard | internal/varnish/tls.go:210-226 | the loop and the append are the specified enqueue |
| TlsRotation.Manager.DiscardQueued | internal/varnish/tls.go:228-257 | filtering the queue in place is the specified discard of every id in turn |
| TlsRotation.Manager.LoadCert | internal/varnish/tls.go:77-179 | one call on the manager's fields is the specified step; the gauge is set iff it committed and listed, and is then the number of active undiscarded certificates iff no discard reported as failed took effect |

## Left out

- Redaction: targets with newlines, target updates in the middle of a run, and inner writers that fail; splitting PEM keys into lines. The 1 MiB bounds are any positive constant.
- `strings.Replacer` is taken to do what its documentation says: leftmost match, first listed target, no overlap.
- `slices.SortFunc` is modelled by an insertion sort; lemmas show that any sort gives the same results.
- Discovery: lister errors, contexts and goroutine plumbing, the initial synchronous collection of first states. Claiming a name and drawing its generation are two separate steps.
- DiscoveryProtocol.DrainedNamesConverge: the loop starts from empty maps; what seeding at startup changes is stated by the `Seeded` lemmas. A tombstone is evicted only when nothing of the generations it covers is in flight, which is what its TTL is for.
- ReloadLoop.EveryLoopTop: time is reduced to which timers are armed, so debounce lengths and backoff are not modelled. Template execution is any function of template and inputs; the VCL hash is identified with the VCL it is the hash of. Reloads cut short by a signal end the run. Metrics, events, logs and status are left out.
- `strconv.ParseFloat` is a parameter saying which number texts it accepts; a counter's numeric value is represented by that text. Scanner errors carry no message or position.
- DrainInjection.DrainPreservesProgram: where an import is added, the version line it follows must end no later than the offset of the drain backend; a version line at the top, as VCL requires, does. The four regular expressions are parameters of which only this is assumed: matches are non-empty, in ascending order and in bounds.
- DrainStructure.DrainKeepsStructure: that the planned offsets are in code is a premise; the lemmas on match shapes give it for text no multi-line quoted string reaches into.
- DrainInjection.DrainPlacement: speaks of the planned offsets; without a backend nothing is promised about the user's vcl_deliver.
- DrainStructure.CommentedIsCommentIff: says nothing about the extra newlines at the end of a match, which the code reduces to one.
- Kubernetes clients and informers: a lookup or a listing is an event with its result. Services are looked up without errors other than not being found.
- EndpointSlices.Watcher.Sync: the one-time warnings are left out; endpoint addresses are sequences of bytes.
- TlsRotation.StepIsSafe: certificate ids are fresh and only this manager changes the active set. A rollback clears what is staged and nothing else; a discard takes effect with the next commit. PEM handling, files and the retries inside one listing are outside; they decide only whether a call gets that far and whether a listing succeeds.
- TlsRotation.OrderlyRunsLeakNothing: a sufficient condition on the commands alone; LeakedExactly and RunLeaksNothingIff are exact.
- Discarding old VCLs, TLS certificate reload scheduling, the broadcast server, metrics, the drain and shutdown sequences, and flag validation are not part of this model.
