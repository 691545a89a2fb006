# Agent browser: handoff, private sources and the protocol compiler

This project models the parts of agent-browser that move state nobody may lose or leak,
and proves what they promise.

- **Browser-preserving handoff.** Every daemon session is prepared, retired or refused, the
  executable is replaced, and each prepared session is resumed with its browser
  (`HandoffIdentity`, `HandoffWorld`, `HandoffReport`, `PrepareReport`, `ResumeReport`,
  `HandoffJournal`, `RuntimeHandoff`). The machine is an
  oracle whose answers may depend on everything done and observed so far; every report entry
  is read off the part of the history that produced it, and every error off what was observed
  last.
- **Convergence.** The repair of stale daemons, confirmed by a second doctor reading
  (`Convergence`, `ConvergenceRun`).
- **Private sources.** Paged discovery with one-shot extraction from a channel (`SlackText`,
  `SlackTimestamp`, `SlackMaterial`, `SlackScan`, `SlackDiscovery`); the versioned credential
  slot under concurrent writers and the process pump behind it (`CredentialSlot`, `PipePump`);
  and the renewal that spends one capability under arbitrary callbacks (`PrivateBroker`,
  `PrivateRenewal`).
- **Protocol compiler.** Name mangling, enum de-duplication, reference resolution and box
  insertion (`CdpNames`, `CdpCompiler`).
- **Benchmark algorithms.** The process-tree walk and the statistics (`ProcessTree`,
  `Statistics`).

Loops and objects of the source are methods and classes, proved against functions or against
the history of acts; the properties of those functions and histories are lemmas.

## What the model shows about the code

- The endpoint comparison in the recovery branch of resume cannot fail, and the PID
  comparison fails only for a service record without a `pid` key: the selection before it
  has already compared both.
- A handoff rediscovered from its record file carries no display environment. The merge with
  the journal gives it back, so recovery refuses a rediscovered attached external browser whose
  PID is recorded exactly if no journal entry of its session has a display environment.
- The process walk lists everybody once if and only if, among the processes it reaches, none is
  a child twice. A concrete snapshot shows that it can list somebody twice.
- Generated integers have 64 bits where the schema sets no limit: a wider one is refused.
- The emptiness check at the end of channel extraction cannot fire.
- In the local importer the second metadata check alone makes extraction faithful; the first
  only refuses earlier. Both rest on write times that strictly increase.
- The test of the convergence script on failed required steps never decides its outcome. The
  process it signals is the one the first reading names. The confirming reading names it too if
  and only if its own candidate for the session has the same listener, which the script does not
  check; a run on a replaced daemon signals the process that is no longer named.
- The handoff of a renewal is unique because discovery is over when the broker runs. If the
  discovery callback were kept and called again later, each further handoff would need such
  a call of its own.

## Model

| member | source | states |
|---|---|---|
| RuntimeHandoff.Publisher.PrepareRuntimeHandoffs | scripts/publish-local-dashboard-runtime.js:656-773 | For any session list and any answers of the machine: a normal return splits the acts session by session, each part either a handoff or an idle exit of the daemon whose PID file was read, with no unsupported session and exactly the prepared browsers given up, and no exit wait that saw a live new owner; a throw names the session it stopped at with its evidence, leaves later ones untouched, and gives every prepared entry, in order, one resume attempt, so a browser stays given up only where that failed; no close is issued unless the last readback showed the session idle; the inventory check fails exactly on a different multiset of sessions |
| RuntimeHandoff.Publisher.PrepareEach | scripts/publish-local-dashboard-runtime.js:660-756 | The loop alone: what is settled, what is given up, and on a throw the session where it stopped, why, and how far it got |
| RuntimeHandoff.Publisher.PrepareSession | scripts/publish-local-dashboard-runtime.js:661-755 | One iteration: PID file, display of that process, prepare, then handed over with the identity the daemon replied and that daemon seen dead, or retired idle with that daemon seen dead, or stopped with evidence |
| RuntimeHandoff.Publisher.SettlePrepare | scripts/publish-local-dashboard-runtime.js:664-755 | What the reply decides: an accepted prepare is in the report before its exit is awaited, so rollback covers a failed wait; an empty one is entered as retired; a refused one is retired only through an idle readback |
| RuntimeHandoff.Publisher.AdmitPrepared | scripts/publish-local-dashboard-runtime.js:679-687 | The old daemon of an accepted prepare was seen dead at last, by waiting alone exactly if no termination is reported, otherwise through a whole retirement after a wait that took its full time; on failure either a live new owner appeared, or such a wait was followed by a retirement attempt |
| RuntimeHandoff.Publisher.RetireWithoutHandoff | scripts/publish-local-dashboard-runtime.js:695-755 | A daemon that cannot hand off is closed exactly once, after a readback that showed no active browser, and reported as already exited exactly if the close was refused; an active browser is recorded as unsupported and stops the run without a close |
| RuntimeHandoff.Publisher.ActiveBrowser | scripts/publish-local-dashboard-runtime.js:695-719 | Activity is decided by the last ownership readback and the probe of the process it names; an unsuccessful readback is a refusal |
| HandoffReport.IdleIsNotActive | scripts/publish-local-dashboard-runtime.js:712-720 | A history that shows a session idle does not show it active |
| RuntimeHandoff.Publisher.ReadOwnership | scripts/publish-local-dashboard-runtime.js:695-709 | The ownership readback is retried through the rollback client exactly after an ENOENT from another client |
| RuntimeHandoff.Publisher.CloseIdle | scripts/publish-local-dashboard-runtime.js:720-742 | An idle session is entered as retired only after its daemon was observed gone |
| RuntimeHandoff.Publisher.RollBack | scripts/publish-local-dashboard-runtime.js:757-771 | One resume command per prepared entry, in order, with that entry's display environment; the report repeats the replies; the browsers taken back are those of the successful attempts, all of them if all succeed |
| PrepareReport.FullRollbackRecoversAll | scripts/publish-local-dashboard-runtime.js:757-771 | If every rollback attempt succeeds, the sessions recovered are exactly the prepared ones |
| PrepareReport.SettledStep | scripts/publish-local-dashboard-runtime.js:660-756 | One more part that is a handoff or an idle exit extends the split of the acts and the matching list |
| PrepareReport.SettledFacts | scripts/publish-local-dashboard-runtime.js:656-756 | What the split means: the two lists are an in-order partition of the sessions, and every prepared entry repeats its daemon's reply, PID file and display |
| PrepareReport.FailedStep | scripts/publish-local-dashboard-runtime.js:757-772 | The split up to the session where the loop stopped, which may itself have been prepared or entered as retired |
| PrepareReport.StoppedFacts | scripts/publish-local-dashboard-runtime.js:757-772 | What a stop means: the error is about that session, later sessions were left alone, and the prepared list holds the settled sessions and at most that one |
| RuntimeHandoff.Publisher.WaitForDaemonExit | scripts/lib/runtime-daemon-exit.js:29-52 | The acts are looks at the PID file, at any new owner and at the prior process, with pauses: it returns only once the prior process was seen dead and no live new owner was, refuses at the first live new owner, and times out only after the full timeout on a process just seen live; terminates against any clock that passes time while sleeping |
| RuntimeHandoff.Publisher.PollDaemon | scripts/lib/runtime-daemon-exit.js:40-48 | One look at a session: the PID file, the new owner it may name, the prior process; a live new owner is always refused |
| RuntimeHandoff.Publisher.RetirePreparedDaemon | scripts/lib/prepared-daemon-retirement.js:3-57 | Signals go only to the daemon, only after its record was read and found to describe the prepared handoff, its browser was seen present and the daemon too, and in order; success names the signal that ended it, with the browser still present after it |
| RuntimeHandoff.Publisher.VerifyRetirementBoundary | scripts/lib/prepared-daemon-retirement.js:4-29 | Succeeds exactly if the record read describes the handoff and a recorded browser was seen present; each refusal has its evidence |
| RuntimeHandoff.Publisher.SignalUntilGone | scripts/lib/prepared-daemon-retirement.js:31-44 | SIGTERM first and once; SIGKILL only after a delivered SIGTERM and a full wait at whose end the process was still there; success means it was last seen absent |
| RuntimeHandoff.Publisher.SignalAndCheckBrowser | scripts/lib/prepared-daemon-retirement.js:31-56 | On success a recorded browser was seen present after the daemon was seen absent |
| RuntimeHandoff.Publisher.WaitForProcessExit | scripts/lib/prepared-daemon-retirement.js:69-76 | Ends with a look at the process, and gives up only after the full timeout by the clock |
| HandoffIdentity.SelectionIsUnambiguous | scripts/lib/runtime-handoff-browser-selection.js:3-42 | A selected browser is the only claim on the session, or nobody claims it and it is the only record of the prepared identity |
| HandoffIdentity.SelectionFailsExactly | scripts/lib/runtime-handoff-browser-selection.js:12-36 | Selection fails exactly on a duplicate claim, a claimed record of another identity, or several unclaimed records of that identity |
| HandoffIdentity.RecoveryThrowsExactly | scripts/publish-local-dashboard-runtime.js:819-836 | After selection the endpoint throw of recovery cannot fire, and the PID throw fires exactly for a record without a pid key |
| RuntimeHandoff.Publisher.RemoveVerifiedRecord | scripts/lib/runtime-handoff-browser-selection.js:68-111 | Succeeds exactly if no record is named, it is missing, or it was removed right after it was read and found to carry the identity of the handoff; nothing else is ever removed |
| RuntimeHandoff.Publisher.ResumeRuntimeHandoffs | scripts/publish-local-dashboard-runtime.js:775-909 | A normal return splits the acts entry by entry, each part supporting its report entry through one of the three exits, and matches the prepared list one to one and in order: same session, same PID and same endpoint wherever recorded; a throw names the entry with its evidence, touches no later one, and removed or signalled nothing it had not verified; at most three resume commands per entry; a session that is healthy until disturbed gets none and is reported as already resumed |
| RuntimeHandoff.Publisher.ResumeSession | scripts/publish-local-dashboard-runtime.js:776-908 | One iteration with all its exits; it is refused for lack of display custody exactly for an attached external browser with a recorded PID and no display environment, and then before anything is done |
| RuntimeHandoff.Publisher.AttemptResume | scripts/publish-local-dashboard-runtime.js:862-867 | Between one and three resume commands, stopping at the first accepted one, three if none is |
| RuntimeHandoff.Publisher.Readopt | scripts/publish-local-dashboard-runtime.js:819-860 | An offered browser is adopted only with its daemon seen live and itself active, by the probe of its process where that decides, and with its record out of the way; passed over only if one of the two was not; refused for its PID exactly if the service record has no pid key |
| RuntimeHandoff.Publisher.SeesBoth | scripts/publish-local-dashboard-runtime.js:837-844 | Says yes only on a live daemon and an active browser, and no only with the probe that denied one of them |
| RuntimeHandoff.Publisher.DropStaleEndpoint | scripts/publish-local-dashboard-runtime.js:794-818 | On success the record was missing or removed after it proved to be the same, and the daemon was absent, seen dead, or terminated and then seen dead |
| RuntimeHandoff.Publisher.StopDaemon | scripts/publish-local-dashboard-runtime.js:801-804 | The daemon that pointed at the endpoint is signalled only when just seen live, and success means it is gone |
| RuntimeHandoff.Publisher.ResumeAndVerify | scripts/publish-local-dashboard-runtime.js:862-907 | Succeeds exactly if the last reply was accepted and names the recorded PID, or is the one permitted case of a dropped stale attached PID, and the recorded endpoint; the entry repeats that reply |
| ResumeReport.SupportedConserves | scripts/publish-local-dashboard-runtime.js:775-909 | Through each of the three exits, an entry that the acts support has the prepared session, PID and endpoint wherever recorded |
| ResumeReport.ExitIsReported | scripts/publish-local-dashboard-runtime.js:794-907 | An entry is reported as fresh exactly if a resume command was accepted for it, and as a dropped endpoint exactly if the endpoint was found down |
| ResumeReport.RestoredFacts | scripts/publish-local-dashboard-runtime.js:775-909 | What the split of a pass means: identity is conserved entry by entry, no resumed entry lacked display custody, and nobody else was touched |
| ResumeReport.PassedStep | scripts/publish-local-dashboard-runtime.js:776-908 | One more resumed entry keeps identity, support, the attempt budget and the durability facts of the whole pass |
| ResumeReport.RefusedStep | scripts/publish-local-dashboard-runtime.js:868-894 | The same facts when the pass stops at an entry |
| ResumeReport.ResumeTakesBack | scripts/publish-local-dashboard-runtime.js:862-873 | A session freshly resumed and left alone is not given up at the end of the pass |
| ResumeReport.FreshIsDurable | scripts/publish-local-dashboard-runtime.js:862-907 | Where an accepted resume leaves a live daemon with its browser, a freshly resumed session stays healthy until disturbed |
| RuntimeHandoff.Publisher.ResumeAgain | scripts/publish-local-dashboard-runtime.js:775-909 | Re-entry: a second pass over the same list issues no resume command for a session that the first pass resumed, or that was healthy before it, and reports the same PID and endpoint wherever the prepared handoff recorded one |
| RuntimeHandoff.Publisher.HandOff | scripts/publish-local-dashboard-runtime.js:656-909 | Prepare and resume together over distinct sessions: every session is retired or resumed under its identity, and no freshly resumed browser is left given up |
| HandoffJournal.CompletedPassIsRecognised | scripts/lib/local-dashboard-publisher-orchestration.js:1112-1122 | A completed resume pass satisfies the journal's own test for not resuming again |
| RuntimeHandoff.Publisher.DiscoverPrepared | scripts/publish-local-dashboard-runtime.js:911-944 | After a crash: one entry per candidate session that left a record, in order, or a refusal at the first session with a bad name, file or identity, all before it being readable |
| HandoffJournal.RediscoveryKeepsIdentity | scripts/publish-local-dashboard-runtime.js:928-941 | The rediscovered handoff matches the same browsers and the same resumed entries as the prepared one; by itself it carries no display environment |
| HandoffJournal.MergePreparedHandoffs | scripts/lib/local-dashboard-publisher-orchestration.js:1087-1108 | The merge loop computes its specification |
| HandoffJournal.MergeMeans | scripts/lib/local-dashboard-publisher-orchestration.js:1087-1110 | Merging fails exactly on two pieces of evidence for one session that name different browsers; otherwise there is one entry per session, it agrees with all evidence on it, and it has a display environment exactly if some piece of evidence has |
| HandoffJournal.CustodyAfterRecovery | scripts/lib/local-dashboard-publisher-orchestration.js:593-599 | After the merge an entry lacks display custody exactly if it is an attached external browser with a recorded PID and no journal entry of its session has a display environment |
| HandoffJournal.RecoveryRecognisesCompletedPass | scripts/lib/local-dashboard-publisher-orchestration.js:675-681 | A completed pass in the journal is recognised after a crash, whatever record files of its sessions are found again |
| RuntimeHandoff.Publisher.RecoverPrepared | scripts/lib/local-dashboard-publisher-orchestration.js:593-599 | Discovery and merge: the list to resume, or the first unreadable record, or a conflict that exists |
| RuntimeHandoff.Publisher.Recover | scripts/lib/local-dashboard-publisher-orchestration.js:593-691 | The resume phase of recovery is skipped exactly if the journal's resumed list answers for every merged handoff, so after a completed pass no command runs; otherwise it is the ordinary pass |
| RuntimeHandoff.Publisher.ResumeRediscovered | scripts/publish-local-dashboard-runtime.js:777-783 | A rediscovered external browser is refused for lack of custody exactly if its PID is recorded and no journal entry of its session has a display environment, and then before anything is done |
| SlackText.FieldIsNeverCode | scripts/private-slack-discovery.py:27-28 | A line that matches a field label can never be read as a code |
| SlackTimestamp.StringOrderIsNumeric | scripts/private-slack-discovery.py:24 | On equally shaped digit strings the string order is the numeric order |
| SlackTimestamp.WindowIsNumeric | scripts/private-slack-discovery.py:45-54 | The string window test on timestamps is the numeric one |
| SlackMaterial.ParseMaterial | scripts/private-slack-discovery.py:112-171 | The parser's nested loops compute the specification, for every text, account and mode |
| SlackMaterial.CollectRun | scripts/private-slack-discovery.py:150-158 | The inner loop collects exactly the maximal run of codes below an empty label |
| SlackMaterial.StrictAgreesWithLenient | scripts/private-slack-discovery.py:112-171 | A strict parse succeeds exactly when the lenient one does and no backup label is loose, and then returns the same material |
| SlackMaterial.CodesComeFromOwnLines | scripts/private-slack-discovery.py:125-162 | The codes come from strictly increasing, hence distinct, lines: blocks never overlap and there are at most as many codes as lines |
| SlackMaterial.MaterialIsUsable | scripts/private-slack-discovery.py:139-171 | A returned password is nonempty, trimmed, free of control characters, no redaction word and not all stars, and every returned code is a code |
| SlackDiscovery.ScanHistory | scripts/private-slack-discovery.py:237-300 | The paged loop computes the paged specification; every request asks for at most 100 messages and no more than are still wanted, no cursor is requested twice, and the number of requests is bounded |
| SlackDiscovery.InspectMessages | scripts/private-slack-discovery.py:257-280 | The message loop computes its specification |
| SlackScan.PagedIsChainThenMessages | scripts/private-slack-discovery.py:240-300 | The interleaved scan is following the cursor chain and then scanning the concatenated messages |
| SlackScan.DiscoveryIsFlat | scripts/private-slack-discovery.py:237-305 | Discovery succeeds exactly when the chain completes within bounds and the concatenated messages have distinct in-window timestamps, no replies, no parse error and exactly one candidate of either kind, and it reports those |
| SlackScan.PagingIsIrrelevant | scripts/private-slack-discovery.py:237-305 | Two accepted pagings of the same messages give the same references and count |
| SlackScan.PagesBoundedByMessages | scripts/private-slack-discovery.py:297-300 | On success there is at most one page more than there are messages |
| SlackDiscovery.PrivateSlack.Discover | scripts/private-slack-discovery.py:215-305 | Succeeds exactly when admitted and the flat specification accepts, and only then mints one capability |
| SlackDiscovery.PrivateSlack.Extract | scripts/private-slack-discovery.py:315-367 | Succeeds exactly when the result is live, authority and connection match, and both sources are served unchanged and parse strictly; passes the provenance gate at most once per result; returns exactly what discovery classified, from messages equal to their snapshots; the emptiness check never fires |
| SlackDiscovery.SourcesAreUsable | scripts/private-slack-discovery.py:363-366 | Why the emptiness check never fires |
| SlackDiscovery.PrivateSlack.Refetch | scripts/private-slack-discovery.py:350-362 | Succeeds exactly when the source serves the snapshotted message alone and it parses strictly, and then returns the lenient result |
| SlackDiscovery.PrivateSlack.ExtractTwice | scripts/private-slack-discovery.py:323-327 | A spent capability stays spent, whatever is discovered in between |
| CdpNames.ToSnakeCase | cli/build.rs:187-203 | The loop computes the specification |
| CdpNames.WireNameRoundTrip | cli/build.rs:187-203 | For nonempty ASCII names, serde's camelCase field rule undoes to_snake_case if and only if the name has no underscore, does not start in upper case, and each later upper-case letter follows a non-upper-case one or precedes a lower-case one |
| CdpNames.SnakeIsInjective | cli/build.rs:187-203 | Hence to_snake_case is injective on those names |
| CdpNames.FieldsKeepWireNames | cli/build.rs:376-381 | Two properties with such names never share a field, keyword escape included |
| CdpNames.ToPascalCase | cli/build.rs:171-185 | The loop computes the specification |
| CdpNames.PascalFixedPoints | cli/build.rs:171-185 | to_pascal_case leaves a name alone exactly when it has no separator and does not start in lower case |
| CdpNames.EmitVariants | cli/build.rs:349-369 | The enum loop with its set of seen names computes the specification |
| CdpNames.VariantsAreDistinct | cli/build.rs:349-369 | Emitted variants are pairwise distinct, by name and by wire string |
| CdpNames.VariantsAreFirsts | cli/build.rs:349-369 | A variant is emitted exactly for the first value of its normal form |
| CdpNames.EveryNameIsEmitted | cli/build.rs:349-369 | Every value's normal form is emitted |
| CdpNames.VariantNamesAreLegal | cli/build.rs:355-361 | No variant is Self or starts with a digit |
| CdpNames.DecodeInvertsEncode | cli/build.rs:349-369 | Decoding an encoded variant returns that variant |
| CdpCompiler.Generate | cli/build.rs:58-67 | Collecting the type table and generating every domain computes the program |
| CdpCompiler.GenerateDomain | cli/build.rs:335-498 | Types, then command payloads, then event payloads |
| CdpCompiler.EmitFields | cli/build.rs:375-403 | The field loop, with the keyword escape and the box edit on recursive fields |
| CdpCompiler.EmitTypes | cli/build.rs:348-422 | The branches over the kind of a schema type |
| CdpCompiler.EmitCommands | cli/build.rs:424-470 | The command loop |
| CdpCompiler.EmitEvents | cli/build.rs:472-495 | The event loop |
| CdpCompiler.TableIsExact | cli/build.rs:58-67 | For distinct domains the table maps each to exactly its type ids |
| CdpCompiler.EmittedIsDeclared | cli/build.rs:348-422 | A schema type yields a declaration exactly for the emitted kinds, under its own id |
| CdpCompiler.RefResolves | cli/build.rs:207-237 | A reference resolves in its own module, in the module it names, or is a JSON value |
| CdpCompiler.TypesAdmitTheSchema | cli/build.rs:251-288 | A value the schema allows for a property without references is accepted by its generated type exactly if its integers have at most 64 bits; for strings, integers, numbers, booleans and arrays of them, exactly those values are |
| CdpCompiler.WideIntegerIsLost | cli/build.rs:251-256 | An integer the schema allows and no generated type holds |
| CdpCompiler.MisreadReference | cli/build.rs:390-395 | A required reference spelled like an option, where the box lands inside the name |
| CdpCompiler.BoxSurgeryIsStructural | cli/build.rs:390-395 | The string surgery is wrapping in the type tree exactly when a non-optional type is not spelled like an optional one |
| CdpCompiler.MappedTypesAreNotMisread | cli/build.rs:239-289 | Types mapped from references without angle brackets never are |
| CdpCompiler.PropertyResolves | cli/build.rs:239-289 | Every emitted field's text spells a type all of whose paths resolve |
| CdpCompiler.GeneratedCodeIsClosed | cli/build.rs:335-498 | If domains and their module names are distinct, type ids are of an emitted kind and left alone by to_pascal_case, and references inside a domain are declared there, then the generated program refers to nothing it does not declare |
| CredentialSlot.Sandwich | scripts/private-sam-local-credentials.py:267-273 | Two observations of one write time enclose no change, so a read in between returned the value of that write time |
| CredentialSlot.LocalCredentials.StillThere | scripts/private-sam-local-credentials.py:271-273 | The second metadata check alone shows that nobody touched the slot since discovery |
| CredentialSlot.OrderedStep | scripts/private-sam-local-credentials.py:184-197 | Write times keep growing whatever the other processes do next |
| CredentialSlot.LocalCredentials.Store | scripts/private-sam-local-credentials.py:219-245 | Whatever others do meanwhile, a successful store returns a write time newer than everything before it, at which the slot holds exactly the payload; in a quiet world it succeeds |
| CredentialSlot.LocalCredentials.Discover | scripts/private-sam-local-credentials.py:248-256 | Mints one capability, bound to the write time it saw |
| CredentialSlot.LocalCredentials.ReadVersion | scripts/private-sam-local-credentials.py:267-273 | Metadata, read, metadata: success means nobody touched the slot since discovery; the change error means somebody did |
| CredentialSlot.LocalCredentials.Extract | scripts/private-sam-local-credentials.py:259-281 | Spends the capability, and returns the value stored at exactly the discovered write time, for the authorised account |
| CredentialSlot.LocalCredentials.StoreDiscoverExtract | scripts/private-sam-local-credentials.py:219-281 | Left alone, what is stored is what is extracted, and a second extraction is refused |
| CredentialSlot.UsableIsChecked | scripts/private-sam-local-credentials.py:204-216 | Validation accepts the encoding of a material exactly when it is usable, and returns it unchanged |
| PipePump.Pump.Run | scripts/private-sam-local-credentials.py:125-181 | For every schedule the pump ends; a normal return has the child's complete output of at most 8192 bytes and both streams at their end; what the child received is a prefix of the input, all of it unless the child stopped taking it, which a child that takes a byte whenever offered never does; every other exit kills the child and clears the buffers; an obliging child succeeds |
| PipePump.Pump.Dispatch | scripts/private-sam-local-credentials.py:143-162 | The events of one select: progress if any stream was ready; an overflow means that a stream really exceeds its limit |
| PipePump.Pump.Round | scripts/private-sam-local-credentials.py:139-162 | One round moves something, or waits until the deadline: the measure behind termination |
| PipePump.Pump.Handle | scripts/private-sam-local-credentials.py:143-162 | A ready stream makes progress; one that is not ready changes nothing |
| PipePump.Pump.Finish | scripts/private-sam-local-credentials.py:163-170 | After both outputs ended, success exactly if the child exits within what is left of the deadline |
| PipePump.Reader.Receive | scripts/private-sam-local-credentials.py:154-162 | Every read asks for at least one byte, so an empty chunk is the end; the buffer never holds more than limit + 1 bytes |
| PipePump.Reader.Next | scripts/private-sam-local-credentials.py:155-156 | A nonzero request comes back empty exactly at the end |
| PipePump.Pump.Send | scripts/private-sam-local-credentials.py:144-153 | Input goes out as consecutive prefixes |
| PipePump.Pump.RunHelper | scripts/private-sam-local-credentials.py:102-122 | How the outcomes reach the importer; its own size check never fires after the pump |
| PrivateBroker.SlotsRestore | scripts/private-renewal-coordinator.py:264-266 | The two values land in their slots and nothing else differs; putting the slots back gives the reviewed recipe exactly when they were there |
| PrivateBroker.InjectedRecipeIsReviewed | scripts/private-renewal-coordinator.py:56-138 | For a validated plan the restored recipe has the reviewed digest |
| PrivateBroker.AtMostOneHandoff | scripts/private-renewal-coordinator.py:225-280 | If discovery is over before the broker starts, capabilities are taken, extracted, sent and installed at most once in any run |
| PrivateBroker.LateDiscoveryAllowsTwo | scripts/private-renewal-coordinator.py:225-280 | The assumption is needed: under any valid plan an orderly run with a late discovery takes twice |
| PrivateBroker.MintedBetween | scripts/private-renewal-coordinator.py:225-231 | In general, between two handoffs there is a discovery of its own |
| PrivateBroker.FedStep | scripts/private-renewal-coordinator.py:228-231 | A callback that takes from stock keeps every handoff paired with its discovery |
| PrivateBroker.OrderlyStep | scripts/private-renewal-coordinator.py:225-277 | One more act that is allowed by what was recorded right before it keeps the whole run in order |
| PrivateBroker.ExactlyOneDelivery | scripts/private-renewal-coordinator.py:276-282 | One recorded delivery ends one whole handoff: presented, taken, connected, proved, plan read and bound, extracted, plan read again, sent, acknowledged, installed |
| PrivateBroker.EverythingSentIsReviewed | scripts/private-renewal-coordinator.py:264-272 | Everything ever sent is the reviewed recipe up to its two slots, which hold the password and the code extracted two steps before |
| PrivateBroker.ReceiveExactly | scripts/private-renewal-coordinator.py:192-203 | Exactly the next bytes in order, never one too many, or nothing; on a prompt stream it fails exactly when there are too few |
| PrivateRenewal.Execution.BeforeExtraction | scripts/private-renewal-coordinator.py:225-257 | The one retained capability is taken before the server is contacted, and the server proves itself and the plan is re-read before the extraction, in the order recorded |
| PrivateRenewal.Execution.AfterExtraction | scripts/private-renewal-coordinator.py:259-277 | Nothing is sent before the plan was re-read after the extraction; what is sent has one code and the reviewed account; nothing is installed before the acknowledgement |
| PrivateRenewal.Execution.OnHandoff | scripts/private-renewal-coordinator.py:225-277 | The callback's acts are recorded as they happen and each is allowed by those before it; it stops only where it must; without an extraction the private sources are unchanged, and with one the secret is what discovery found |
| PrivateRenewal.Execution.RunPhases | scripts/private-renewal-coordinator.py:223-279 | The history of any sequence of callbacks is orderly and fed, and private acts happen at most once without a late collect |
| PrivateRenewal.Execution.ExecuteApprovedRenewal | scripts/private-renewal-coordinator.py:206-288 | For any callbacks and any swallowing: at most one handoff, everything sent reviewed, a value exactly when the file and plan are admitted, both callers return and one delivery was installed, which then ends one whole handoff; nothing retained at the end |
| PrivateRenewal.Execution.PrepareAuthority | scripts/private-renewal-coordinator.py:153-189 | An authority file is created at most once and never replaced; success exactly if the plan is approved, matches and validates, file and key have their sizes, none was there and the write went through; a write that breaks off leaves an incomplete file |
| PrivateRenewal.Execution.Collect | scripts/private-sam-discovery.py:57-80 | One capability per successful discovery, and the references of that capability |
| PrivateRenewal.Execution.ExtractPrivate | scripts/private-sam-discovery.py:90-93 | The secret is the value of the slot version, or of the messages, that was discovered; the capability is spent |
| PrivateRenewal.Execution.OnConsume | scripts/private-sam-discovery.py:132-139 | The consumer gets what the one retained capability yields; refused exactly if there is not one, the references differ, or the extraction fails, which it does not while the source still yields the secret |
| PrivateRenewal.Execution.ExecuteApprovedSources | scripts/private-sam-discovery.py:120-146 | The consumer is called never more often than discovery succeeded, and at most once more than it succeeded late, hence at most once without a late call |
| Convergence.StaleDaemonCandidates | scripts/converge-local-runtime.js:280-296 | The two loops over the insertion-ordered map compute the specification |
| Convergence.CandidatesAreExact | scripts/converge-local-runtime.js:252-296 | One candidate per stale session, with the last listener's process and the last remedy's command |
| ConvergenceRun.Converger.RetireConfirmedIdleDaemon | scripts/converge-local-runtime.js:385-401 | A positive pid gets one SIGTERM and then up to 50 looks as long as it takes them, nothing else does; true exactly when the last answer was that the process is gone |
| ConvergenceRun.Converger.RepairOne | scripts/converge-local-runtime.js:315-381 | One candidate: exactly the acts that the machine's answers call for, one prepare and then nothing, one resume or a retirement, answered for in both lists; it throws only on a step that could not start or whose output does not parse |
| ConvergenceRun.Converger.RepairConfirmedStaleDaemons | scripts/converge-local-runtime.js:298-383 | The acts after the confirming reading are the repairs of the confirmed candidates, in order and one after the other, and the two lists grow by exactly what they say; no skipped entry is removed; it throws only for such a step |
| ConvergenceRun.Converger.CloseStaleMetadata | scripts/converge-local-runtime.js:86-100 | Exactly the sessions that both listings name are closed and reported |
| ConvergenceRun.Converger.Apply | scripts/converge-local-runtime.js:72-161 | The apply sequence keeps the report sound, and the readings that the first repair starts from are dealt with |
| ConvergenceRun.Converger.ReconcileRoutes | scripts/converge-local-runtime.js:102-160 | The unconditional steps are done, every advised step is done, and without advice the reading stays |
| ConvergenceRun.Converger.ReadAndRepair | scripts/converge-local-runtime.js:128-131 | Doctor readings, then the repair of what they list, keep the report sound |
| ConvergenceRun.Converger.Converge | scripts/converge-local-runtime.js:68-191 | Reported success means that every handoff begun ended with the same PID and endpoint or with the listener process of that very candidate observed gone; nothing is touched that the first and the confirming reading of its repair do not both list; a dry run touches nothing; apply mode did its unconditional steps and dealt with its closing reading; the test on failed required steps never decides |
| ConvergenceRun.SignalledProcess | scripts/converge-local-runtime.js:299-316 | A signalled process is the one the first reading names for the session; the confirming reading names it too exactly if its own candidate has the same listener |
| ConvergenceRun.SignalsReplacedProcess | scripts/converge-local-runtime.js:298-383 | A run in which it has not: the first reading's process is signalled although the second names another |
| ConvergenceRun.SettledStep | scripts/converge-local-runtime.js:298-383 | A handoff that ended well, or is listed as skipped, stays so for the rest of the run |
| ConvergenceRun.ConfirmedFor | scripts/converge-local-runtime.js:299-316 | Acts for a candidate seen twice keep the whole run confirmed |
| ProcessTree.GetAllDescendantPids | benchmarks/bench.ts:301-314 | The walk ends without a visited set, on the number of processes below the queue, yields the queue order, and lists nobody twice exactly if no process of the tree is a child twice |
| ProcessTree.WalkIsLevels | benchmarks/bench.ts:301-314 | The queue order is level by level |
| ProcessTree.LevelsAreExact | benchmarks/bench.ts:301-314 | The levels hold exactly the processes of the trees, each at its depth |
| ProcessTree.WalkVisitsEveryone | benchmarks/bench.ts:301-314 | Every process is visited exactly as often as it occurs |
| ProcessTree.DescendantsAreExact | benchmarks/bench.ts:301-314 | The root first, then exactly its descendants, each as often as it occurs below, in nondecreasing depth |
| ProcessTree.DescendantsAreDistinct | benchmarks/bench.ts:301-314 | The walk lists every process once if and only if no process is a child twice among the processes of the tree |
| ProcessTree.SharedChildIsListedTwice | benchmarks/bench.ts:301-314 | A snapshot with a shared child, which the walk lists twice |
| ProcessTree.CollectPids | benchmarks/bench.ts:326-332 | The de-duplicated union over several roots is exactly the reachable set |
| ProcessTree.Dedup | benchmarks/bench.ts:332 | Same members, no duplicates |
| Statistics.StatsAreBounded | benchmarks/bench.ts:178-193 | The samples are a sorted permutation; minimum, median, rounded mean and maximum are in order; four times the variance is between zero and the squared range, and zero exactly for constant samples |
| Statistics.CentreIsBest | benchmarks/bench.ts:181-183 | No centre gives a smaller sum of squares than the mean |
| Statistics.SortKeeps | benchmarks/bench.ts:179 | The sort is a permutation in order |

## Left out

- Processes, sockets, `/proc`, files, HTTP and DevTools fetches: their results are oracle values, arbitrary at every use.
- Who owns a browser is judged by the commands and replies the scripts see, not by the daemon's own state, whose program is not part of this model.
- The publication journal, its interlock and lock files, the binary replacement and the retained-browser custody checks around the handoff: long, but without state of their own beyond the lists modelled here.
- HandoffJournal.MergePreparedHandoffs: entries stay in the order of the map; the source finally sorts them by name in locale order, so the order in which recovery resumes them is left open. Journal entries that are no handoff objects are refused there and not modelled.
- RuntimeHandoff.Publisher.Recover: the checks between the merge and the resume phase (exact handoff set, installed binary, provenance) are not modelled.
- RuntimeHandoff.Publisher.ResumeAgain: the second pass is quiet only in a world where an accepted resume leaves a live daemon with its browser; without that the source promises nothing.
- The parsing of a process environment into display variables: the captured value is an oracle value.
- HTML unescaping, the login-page context pattern and line splitting: `read` turns a message body into its lines and context flag, arbitrarily.
- Letters outside ASCII in labels, accounts and identifiers: case folding is modelled for ASCII only.
- The 60 and 30 second deadlines of channel discovery: one arbitrary expiry answer per page.
- JSON encoding of the credential payload: an encoder and decoder with the round trip assumed only where CredentialSlot.LocalCredentials.StoreDiscoverExtract needs it.
- Cryptography: digests and message authentication are uninterpreted values, and the digest comparison after a store is equality of the payloads.
- Garbage collection of weak provenance tables: an entry goes only by being spent.
- CredentialSlot.LocalCredentials.Extract: assumes, as the source does, that every write by anyone gets a strictly larger write time.
- The PowerShell helper itself, terminal input and process hardening.
- PrivateBroker.InjectedRecipeIsReviewed: the URL, handle, selector and printability checks of plan validation are one uninterpreted predicate on file and manifest.
- Exceptions are refusals; a callback that raises is a callback that returns without its later steps, and a run that swallows it goes on.
- CdpCompiler.GeneratedCodeIsClosed: about the tree of declarations and the text of field types; attributes, indentation and the module header are not modelled, nor is the abort on a field type spelled exactly `Option<`.
- Clients, version check, postinstall, wrappers, documentation components and route audit: tables, templates and straight-line checks.
- ProcessTree.GetAllDescendantPids: about one snapshot of a finite forest; a table read while processes are re-parented may not be one.
- Statistics.StatsAreBounded: exact arithmetic on integer samples; floating-point rounding, the square root and the empty sample list (where the source yields NaN) are not modelled.
- Metric collection per process: sums over lists already covered.
