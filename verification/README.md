# A Dafny model of the statecraft adapters and their judgments

This project models the parts of statecraft-cli that decide what a provider run meant, and proves what
each decision rests on. Every rule is stated over all inputs, all streams or all interleavings.

`dafny verify dfyconfig.toml` checks the whole project.

| part | files | what it is |
|---|---|---|
| Supervised event stream | `EventStream`, `TrustedPrefix`, `Supervisor`, `SupervisorInvariant`, `SupervisorTheorems`, `SupervisorReport`, `SupervisionLoop` | A reader thread, a prompt writer, a child, a clock and the supervising loop as one labelled step system. `Run` is any sequence of enabled steps, so a statement about `Run` holds in every interleaving. `SupervisionLoop` is the loop as an object with mutable fields, each method proved to take steps of that system, with the steps the other threads take in between. |
| Provider mappings | `ClaudeAdapter`, `ClaudeOutcomes`, `WriteRequests`, `RequestRules`, `SeamReading`, `CodexAdapter`, `CodexRules` | What the two adapters make of the supervised events, with the supervisor's guarantees as their premise. |
| Redaction | `Substrings`, `Redaction`, `RedactionFacts`, `WorkTrees`, `RootsRemoved`, `RedactionIdempotence`, `NameLists`, `RedactionPass`, `RecordedStream`, `NamedTree`, `RootsExactly`, `RootWitnesses`, `RedactionTwice`, `RedactionRules` | The rewriting of a recorded stream: dropped events, fixed values, renamed lists, and replacement of roots the stream itself names. |
| Documentation acceptance | `Corrections`, `DimensionStates`, `Acceptance`, `AcceptanceTheorems`, `AcceptanceRequests`, `AcceptanceJudge`, `RecordFacts`, `AcceptanceVerdict`, `Anchors`, `HeadingRules` | The effective subject, the twelve dimensions, the outcome, and the Markdown line scanner behind artifact validation. |
| Framing | `Decimal`, `Framing`, `FrameReader`, `InputText`, `Bundles` | The length-declared frames written after the prompt, a reader that recovers them, and the bundles' assembly and check. |
| Goldens and qualification | `Versions`, `Golden`, `GoldenTheorems`, `GoldenRules`, `GoldenComparison`, `ComparisonRules` | Version order, the loaded corpus, the comparison of a version's captures, the record it leads to. |
| Command coverage | `CommandReading`, `CommandRules`, `Coverage`, `CoverageRules` | The quoting scan, the missing programs, and the two refusals that must agree. |

Loops of the source are methods with loops here, each proved equal to a function or predicate; what the
source promises is then proved of that function. The modules called rules, facts, outcomes, verdict and
report state what each of those functions answers without naming it: over literal words and characters, over
the places of events and entries, and over the steps of a run. Strings are sequences of bytes except in `Anchors`,
where they are Unicode scalars.

## What the proofs found

- `StreamError::NoInit` is raised not only when there is no init event: the last init event decides, and
  one that names no version has the same effect (`crates/statecraft-adapter-claude-code/src/stream.rs:502`,
  `567`). `ClaudeAdapter.ExecutionCompletedExactly` says so.
- At the deadline the drain keeps every delivered event but not what an `Ended` item carried
  (`crates/statecraft-adapter/src/supervisor.rs:574-590`). `SupervisorTheorems.DeliveredFailureIsLost` is a
  run whose read failure is in no report; `SupervisorTheorems.ReadFailureLostExactly` says which runs lose
  one: those whose drain at the deadline received it, with no malformed line to report instead.
- A work tree can survive redaction. `RootsExactly.NoRootSurvivesExactly`: a root is removed from every
  stream that names it if and only if it can nowhere overlap the placeholder and lies in neither longer
  placeholder path. `/work/t` is one that survives (`RootWitnesses.OverlappingRootSurvives`), by the end of a
  text running into the placeholder written behind it. As the only tree of its stream a root may overlap and
  still always be removed, as `/t/t` is: `RootsExactly.LoneTreeRemovedExactly` gives the exact condition.
- Redaction is not idempotent on every stream. Replacing a root can write the `/private` spelling of the
  placeholder, which a second pass then takes for a work tree (`RedactionTwice.SecondPassDiffers`).
  `RedactionTwice.RedactingAgain` gives the exact condition.
- In a name list the number counts every remaining entry, so the only string behind an entry of another
  kind is not number one (`NameLists.StringEntryNumberedPastAnother`).
- `documentation::Bundle::assemble` compares the skill and the schema with nothing the task pins; only
  `check` does (`Bundles.AssemblyAcceptsUnpinnedSkill`). `context::Bundle::assemble` and its `check` agree.
- `version_order` is not transitive on all versions: `9 < 10 < 1a < 9` (`Versions.MixedVersionsCycle`).
  `Versions.VersionsOrderedExactly` says which versions in sequence are ordered; versions of numbers alone
  and versions of text alone always are. The golden chosen can then depend on the manifest's order
  (`GoldenTheorems.MixedGoldensHaveNoMaximum`), which `GoldenTheorems.OrderDoesNotMatterExactly` decides:
  it does not if and only if one golden is greater than all others.
- The branch of `compare` for a scenario with neither a golden nor an active quarantine, and the branch of
  `judge` for a binding review without a policy, are both unreachable.
- The repository's documentation asks of an accepted result that no required correction be unresolved. The
  code reads a requested correction only when it counts the accepting reviews: a bound review that requests
  one beside an accepting quorum does not prevent acceptance
  (`crates/statecraft-acceptance/src/documentation_acceptance.rs:956-959`). The model follows the code.
  `AcceptanceRequests.SampleIsAccepted` is such a record, and `AcceptanceRequests.RequestsExcludedExactly`
  says which quorums and numbers of bound reviews leave no room for one.
- A fenced block is neutral only where no paragraph is pending: otherwise an underline after it makes no
  heading (`Anchors.FencedBlockTakesTheHeading`).

## Model

| member | source | states |
|---|---|---|
| EventStream.ReadStream | crates/statecraft-adapter/src/supervisor.rs:363-424 | The reader thread's loop sends exactly the items `AllItems` defines: events up to the first terminal, malformed, unreadable or over-bound line, the drain after it, and one closing item. |
| EventStream.ReadTurn | crates/statecraft-adapter/src/supervisor.rs:369-409 | A line that is skipped or delivered is within the line bound and keeps the total within the stream bound; a delivered event is not terminal; the last item before the drain is a malformed line or a terminal event. |
| EventStream.ItemsAreWellShaped | crates/statecraft-adapter/src/supervisor.rs:329-423 | What the reader sends ends with exactly one `Ended`; only the item just before it can be terminal or malformed; there are at most as many items as bytes left in the stream bound, plus one. |
| TrustedPrefix.TrustedPrefixIs | crates/statecraft-adapter/src/supervisor.rs:363-424 | The events sent are the decoded non-blank lines up to and including the first terminal event, or strictly before the first line that is malformed, not text, cut short or over a bound. Those lines concatenate to a prefix of the raw bytes within 64 MiB, and the items end cleanly exactly when the last such line is terminal and the pipe then closed without failure. |
| TrustedPrefix.BoundsAre | crates/statecraft-adapter/src/supervisor.rs:370-371 | A line ends in a line feed; the two bounds are one mebibyte and sixty-four. |
| SupervisorInvariant.InvByRun | crates/statecraft-adapter/src/supervisor.rs:352-523 | Every reachable state keeps the invariant: received items, enqueued items and what the reader still owes are the reader's whole sequence; the loop's variables are those of the received items; the watch, the clock, the exit and the start are each accounted for. |
| SupervisorInvariant.NothingAfterEnded | crates/statecraft-adapter/src/supervisor.rs:329-340 | Once the closing item was received everything the reader sends was received, the channel is empty and the reader did not die. |
| SupervisorTheorems.KeptEventsAreTrusted | crates/statecraft-adapter/src/supervisor.rs:363-500 | In every interleaving the kept events are a prefix of the trusted prefix, and all of it when neither the deadline nor the watch ended the run and the reader did not die. |
| SupervisorTheorems.LeftByItself | crates/statecraft-adapter/src/supervisor.rs:451-453 | A run that ended by itself did so before its deadline with the child exited, both threads finished and the whole sequence received, or with the dead reader reported as a read failure. |
| SupervisorTheorems.CompletedExactly | crates/statecraft-adapter/src/supervisor.rs:433-566 | `Completed` if and only if neither deadline nor watch ended the run, the reader did not die, and the stream was read to a clean end behind a terminal event. |
| SupervisorTheorems.DiagnosticOrder | crates/statecraft-adapter/src/supervisor.rs:525-542 | The diagnostic of a run that ended by itself: a malformed line over a read failure over the absence of a result, each with its count of events. |
| SupervisorTheorems.InterruptionIsNotNoResult | crates/statecraft-adapter/src/supervisor.rs:537-548 | A timeout or a stop is `Interrupted` and is never by itself reported as the absence of a result. |
| SupervisorTheorems.WatchSeesWhatIsKept | crates/statecraft-adapter/src/supervisor.rs:434-476 | The events shown to the watch are a prefix of those kept, and equal to them unless the deadline fired; whenever the deadline fired everything received or enqueued by then is kept, the first malformed line included; after a stop the list ends at the last event shown. |
| SupervisorTheorems.RefusalWritesNothing | crates/statecraft-adapter/src/supervisor.rs:293-318 | A run with a refused spawn confirmation never writes a prompt byte, whatever else happens, and reports only the refusal. |
| SupervisorTheorems.TurnsAreBounded | crates/statecraft-adapter/src/supervisor.rs:433-500 | The loop's turns are at most the items of the bounded stream plus the clock readings before the deadline plus one. |
| SupervisorTheorems.LoopTerminates | crates/statecraft-adapter/src/supervisor.rs:433-523 | In every run the steps of the supervising loop are bounded by a number fixed before it started, whatever the reader, the writer and the child do. |
| SupervisorTheorems.LoopNeverBlocks | crates/statecraft-adapter/src/supervisor.rs:433-523 | Before it is left, the loop always has a step of its own to take, at latest after one tick of the clock: no other thread can hold it. |
| SupervisorTheorems.DeadlineLeaves | crates/statecraft-adapter/src/supervisor.rs:434-445 | In every run, after the first reading of the clock at or past the deadline the loop takes no step but draining, reports a timeout, and what it knew of the end stays as it was, whatever the other threads do. |
| SupervisorTheorems.TimeoutHasItsReading | crates/statecraft-adapter/src/supervisor.rs:434-445 | Every run that times out has such a reading of the clock. |
| SupervisorTheorems.ReadFailureReportedExactly | crates/statecraft-adapter/src/supervisor.rs:525-542 | A run the deadline ended reports its first malformed line, or else a read failure exactly when the reader was lost, or its failing end received, before the deadline was read. |
| SupervisorTheorems.ReadFailureLostExactly | crates/statecraft-adapter/src/supervisor.rs:574-590 | Of a run that received a failing end, the failure is reported exactly when it was received before the deadline was read and no line was malformed; received by the drain it is lost. |
| SupervisorTheorems.DeliveredFailureIsLost | crates/statecraft-adapter/src/supervisor.rs:574-590 | A run whose read failure was enqueued before the deadline, received by the drain, and is in no report. |
| SupervisorTheorems.OnlyLastIsTerminal | crates/statecraft-adapter/src/supervisor.rs:400-411 | Among the kept events of any run at most the last is terminal. |
| SupervisorReport.ReportExactly | crates/statecraft-adapter/src/supervisor.rs:525-566 | The report of every run that ended: its events are all those received, in order; it timed out exactly when a step read the clock at or past the deadline; it is stopped for a reason exactly when a step stopped it for that; and it is `Completed` without timeout, stop and diagnostic, and else `Interrupted`. |
| SupervisorReport.ReportedEventsAreTrusted | crates/statecraft-adapter/src/supervisor.rs:433-566 | The reported events are a prefix of the trusted prefix, all of it when nothing else ended the run; the watch was shown a prefix of them, and all of them unless the deadline fired, when everything received or enqueued by then is reported. |
| SupervisorReport.StoppedExactly | crates/statecraft-adapter/src/supervisor.rs:456-476 | A run is stopped for a reason exactly by a refused confirmation, or by the watch's answer to a poll or to an event, with that reason. |
| SupervisorReport.TimedOutExactly | crates/statecraft-adapter/src/supervisor.rs:434-445 | A run times out exactly when a step reads the clock at or past the deadline. |
| SupervisorReport.ChannelIsBounded | crates/statecraft-adapter/src/supervisor.rs:362-365 | In every run the channel never holds more than sixteen items. |
| SupervisorReport.EmptyChannelIsTold | crates/statecraft-adapter/src/supervisor.rs:466-499 | On an empty channel the loop waits while the reader lives, and otherwise takes it for lost. |
| SupervisionLoop.RunThen | crates/statecraft-adapter/src/supervisor.rs:433-500 | Taking steps from a reached state gives a reached state, so what is proved of runs holds of what the loop's methods do. |
| SupervisionLoop.Supervision.constructor | crates/statecraft-adapter/src/supervisor.rs:426-431 | The loop starts with the fields of the step system's initial state. |
| SupervisionLoop.Supervision.Turn | crates/statecraft-adapter/src/supervisor.rs:433-500 | One turn of the loop takes enabled steps of the step system, from its top to its top or to its end, with the watch's own answers and with whatever the other threads do before the end is tested and before the channel is looked at, and leaves exactly that state's fields. |
| SupervisionLoop.Supervision.DrainDelivered | crates/statecraft-adapter/src/supervisor.rs:574-590 | Draining takes every item enqueued when it begins up to an `Ended`, in order and without waiting, by draining steps alone, and changes neither the timeout nor the stop. |
| SupervisionLoop.Supervision.TakeNext | crates/statecraft-adapter/src/supervisor.rs:466-489 | One received item updates the fields as the step system does and leaves the loop exactly when the watch stops it. |
| SupervisionLoop.Supervision.ReceiveOrWait | crates/statecraft-adapter/src/supervisor.rs:461-499 | With whatever the other threads enqueue until the receive returns, the end of a turn is an item, a closed channel reported as a lost reader, or a wait that took a tick. |
| SupervisionLoop.Supervision.CheckAndReceive | crates/statecraft-adapter/src/supervisor.rs:446-499 | Before the deadline a turn checks for the end, then asks the watch, then receives, in that order, with any steps of the other threads before the check and before the receive. |
| SupervisionLoop.Supervision.Conclude | crates/statecraft-adapter/src/supervisor.rs:525-566 | The diagnostic and outcome computed from the fields are those `Decide` gives, and the events, the stop and the timeout are reported as the fields hold them. |
| ClaudeAdapter.MapStream | crates/statecraft-adapter-claude-code/src/stream.rs:488-575 | The mapping fails exactly when the last init event names no version or there is none; otherwise it carries one seam event per native event, the terminal's refusals ahead of its result, the last result, the last init's tools, and the tools mid-stream denials name, in order. |
| ClaudeAdapter.MapNative | crates/statecraft-adapter-claude-code/src/execution.rs:398-480 | What the execution takes from the supervision and the mapping: events, outcome, diagnostic with its physical line, result and the terminal's reading with its claim, refusals and turns, on both the mapped and the unmapped path. |
| ClaudeAdapter.FindResult | crates/statecraft-adapter-claude-code/src/execution.rs:422-425 | The first terminal event's result. |
| ClaudeAdapter.SupervisorHandsOver | crates/statecraft-adapter-claude-code/src/execution.rs:398-412 | Every run of the supervisor hands over a stream whose only terminal event is its last, completed only with one. |
| ClaudeAdapter.RefusalsConserved | crates/statecraft-adapter-claude-code/src/stream.rs:336-341 | For every stream the supervisor can hand over, the seam's refusals are exactly the terminal event's denial entries, once each and in order, mapped or not; a mid-stream denial is never counted. |
| ClaudeAdapter.ExecutionCompletedExactly | crates/statecraft-adapter-claude-code/src/outcome.rs:75-108 | The execution is `Completed` if and only if the supervision was, the last init names a version, and the terminal is an error-free, undenied success that is no turn cap. |
| ClaudeAdapter.LaunchCompletedExactly | crates/statecraft-adapter-claude-code/src/execution.rs:305-395 | Over every interleaving of a launch: the refusals are the terminal's denials, and the execution is `Completed` if and only if neither deadline nor watch ended it, the reader did not die, the pipe was read to a clean end, and the trusted prefix of the pipe names a version last and ends in a clean success. |
| ClaudeOutcomes.TerminalExactly | crates/statecraft-adapter-claude-code/src/outcome.rs:64-108 | A terminal event is unmapped exactly when it is neither a success nor a turn cap; otherwise refused exactly for a denied success, completed for an undenied error-free one, and interrupted for a turn cap or an undenied failing success; with the provider's claim, the denials and the turns. |
| ClaudeOutcomes.ExecutionRefusedExactly | crates/statecraft-adapter-claude-code/src/execution.rs:426-468 | An execution is `Refused` if and only if the supervision completed, the last init names a version and the terminal is a denied success that is no turn cap; what is neither refused nor completed is `Interrupted`. |
| ClaudeOutcomes.DiagnosticExactly | crates/statecraft-adapter-claude-code/src/execution.rs:439-465 | The diagnostic is the supervision's own, but for a missing init where it had none, and for `Malformed` with the last line and the subtype exactly when the stream maps and its terminal is neither success nor turn cap. |
| ClaudeOutcomes.LaunchRefusedExactly | crates/statecraft-adapter-claude-code/src/execution.rs:305-395 | The same from the pipe to the execution, over every interleaving of a launch. |
| ClaudeOutcomes.MappedEventsAre | crates/statecraft-adapter-claude-code/src/stream.rs:501-565 | Beside its refusals the seam carries one event for each native one, in order: an init with the version, the delivered context and everything granted but hook enforcement before a hook was seen; a result with claim and cost; or progress. |
| ClaudeOutcomes.LastInitExactly | crates/statecraft-adapter-claude-code/src/stream.rs:501-515 | The version and the applied tools are those of the last init event, no tools when it names none. |
| ClaudeOutcomes.MidStreamExactly | crates/statecraft-adapter-claude-code/src/stream.rs:517-524 | Each mid-stream denial adds the tool it names, or an empty name, and no other event adds any. |
| ClaudeOutcomes.RefusalsStandBeforeTheResult | crates/statecraft-adapter-claude-code/src/stream.rs:541-561 | The terminal's refusals stand in one run right before the result that ends the seam. |
| SeamReading.ReadStream | crates/statecraft-adapter/src/protocol.rs:263-307 | The last init and the last result decide the adapter's result; a missing init is reported before a missing result. |
| SeamReading.MappedStreamSays | crates/statecraft-adapter/src/protocol.rs:263-307 | A mapped Claude stream carries, as its last init and last result, the native stream's last version and the provider's own claim about its last result. |
| WriteRequests.RequestsOf | crates/statecraft-adapter-claude-code/src/execution.rs:66-84 | The requests of one message, in order; an error exactly when a write tool's target is not a string. |
| WriteRequests.Gather | crates/statecraft-adapter-claude-code/src/execution.rs:57-102 | The write-tool uses in order, and exactly the tool uses the stream says were refused, and answered without error. |
| WriteRequests.Classify | crates/statecraft-adapter-claude-code/src/execution.rs:103-111 | Refused over executed over unresolved, for each request, with nothing else changed. |
| WriteRequests.Collect | crates/statecraft-adapter-claude-code/src/execution.rs:52-113 | Every write request once and in order with the fate the whole stream gives it; an error exactly when something it needs cannot be read. |
| RequestRules.TargetExactly | crates/statecraft-adapter-claude-code/src/execution.rs:45-50 | `Write`, `Edit` and `MultiEdit` name the file under `file_path`, `NotebookEdit` under `notebook_path`, and no other tool writes. |
| RequestRules.RequestedExactly | crates/statecraft-adapter-claude-code/src/execution.rs:64-84 | The requests are, event by event, the uses of those four tools in readable assistant messages, in their order. |
| CodexAdapter.Read | crates/statecraft-adapter-codex/src/stream.rs:186-239 | The stream's first thread, first claim, first usage and exactly its faults: a missing thread first, then errors and changed ids in stream order, then a wrong count of terminals, then a failed turn; completed exactly without one. |
| CodexAdapter.FaultsSay | crates/statecraft-adapter-codex/src/stream.rs:219-234 | There is no fault if and only if a thread started, one turn ended, none failed, and no event is an error or changes the id; the two faults the map reads say there is no thread, and no terminal. |
| CodexAdapter.FaultlessMeans | crates/statecraft-adapter-codex/src/stream.rs:185-239 | The loop's faults are empty exactly when the whole stream is one completed turn, no failed turn, no error, and at least one thread id with all of them equal. |
| CodexAdapter.BrokenStaysBroken | crates/statecraft-adapter-codex/src/stream.rs:193-218 | Once an error, a failed turn, a second terminal or a changed id appeared, no continuation is a completed turn. |
| CodexAdapter.ToSeam | crates/statecraft-adapter-codex/src/stream.rs:241-284 | One seam event for each native one; only the first started thread is the init. |
| CodexAdapter.Map | crates/statecraft-adapter-codex/src/execution.rs:64-96 | The outcome is `Completed` exactly when the supervisor read to the end and the stream is one completed turn; the diagnostic is the missing thread over the missing terminal over none. |
| CodexAdapter.TurnCompletedExactly | crates/statecraft-adapter-codex/src/execution.rs:41-62 | In every interleaving of a launch that calls no event terminal: completed if and only if neither deadline nor watch ended it, the reader did not die, the pipe was read to a clean end with no refused line, and the trusted prefix is one completed turn. |
| CodexRules.MapExactly | crates/statecraft-adapter-codex/src/execution.rs:64-96 | What the map answers, by the places of the events: completed or interrupted, the diagnostic by whether a thread started and a turn ended, and what each event becomes on the seam. |
| CodexRules.SeamExactly | crates/statecraft-adapter-codex/src/stream.rs:241-284 | The first started thread is the init and later ones are progress, a completed and a failed turn are results that claim so, and every other event is progress of its own kind. |
| CodexRules.FaultsExactly | crates/statecraft-adapter-codex/src/stream.rs:219-227 | A missing thread, then the faults found, then a count of ended turns other than one, then a failed turn. |
| CodexRules.FaultsFoundExactly | crates/statecraft-adapter-codex/src/stream.rs:193-218 | Each event adds at most its own fault: an error, or a started thread that is not the first one, with both ids. |
| CodexRules.ThreadExactly | crates/statecraft-adapter-codex/src/stream.rs:195-202 | The thread is the first one started. |
| CodexRules.ClaimExactly | crates/statecraft-adapter-codex/src/stream.rs:203-214 | The claim is that of the first turn that ended, completed or failed. |
| CodexRules.UsageExactly | crates/statecraft-adapter-codex/src/stream.rs:203-209 | The usage is the first that a completed turn states. |
| Substrings.ReplaceKeepsClean | crates/statecraft-adapter-claude-code/src/capture.rs:333-339 | A leftmost non-overlapping replacement removes its needle and brings in no other absent text, for every text that cannot overlap the replacement. |
| Substrings.InsideSurvives | crates/statecraft-adapter-claude-code/src/capture.rs:333-339 | A needle that lies inside its replacement is in the result whenever it was in the text. |
| Substrings.RemovedExactly | crates/statecraft-adapter-claude-code/src/capture.rs:333-339 | A replacement removes its needle from every text if and only if, at every offset at which needle and replacement can overlap, they disagree or the part of the needle ahead of the replacement would have matched earlier; bordered needles included. |
| Substrings.ReplaceShortens | crates/statecraft-adapter-claude-code/src/capture.rs:333-339 | Replacing by something shorter leaves the text as it is exactly when the needle does not occur. |
| WorkTrees.WorkTreesAre | crates/statecraft-adapter-claude-code/src/capture.rs:268-309 | The work trees are exactly the spellings some init event names, each once, longest first, those of one length in first-seen order. |
| RedactionFacts.SpellingsAreUsable | crates/statecraft-adapter-claude-code/src/capture.rs:288-304 | Every spelling taken is absolute and longer than a single slash. |
| RedactionFacts.SpellingsOfPlaceholder | crates/statecraft-adapter-claude-code/src/capture.rs:292-304 | Of the placeholder path only its `/private` spelling is taken. |
| RootsRemoved.RewriteFrees | crates/statecraft-adapter-claude-code/src/capture.rs:333-339 | After all the replacements no root that cannot overlap the placeholder occurs, so no later replacement brings an earlier root back. |
| RootsRemoved.FixFrees | crates/statecraft-adapter-claude-code/src/capture.rs:312-353 | What replacing the roots removes from every text is gone at every depth of an event, fixed values and remembered paths included, when no path redaction writes holds it. |
| RootsRemoved.GoneExactly | crates/statecraft-adapter-claude-code/src/capture.rs:333-339 | A single root is gone from every text after the rewriting if and only if it is one a replacement by the placeholder always removes. |
| RootsRemoved.EachRootBecomesThePlaceholder | crates/statecraft-adapter-claude-code/src/capture.rs:268-309 | Longest first, every spelling of the work tree becomes exactly the placeholder, with nothing of a longer spelling left around it. |
| RedactionPass.WorkTreesIn | crates/statecraft-adapter-claude-code/src/capture.rs:274-309 | The collecting loop finds the work trees. |
| RedactionPass.RewriteText | crates/statecraft-adapter-claude-code/src/capture.rs:333-339 | The loop over the roots, with its containment test, computes the replacement of each in turn. |
| RedactionPass.FixTree | crates/statecraft-adapter-claude-code/src/capture.rs:311-342 | The recursive rewriting computes the fixed values and replacements at every depth. |
| RedactionPass.RememberTree | crates/statecraft-adapter-claude-code/src/capture.rs:344-353 | Every path under `memory_paths` becomes the placeholder, its shape and keys staying. |
| RedactionPass.Placeholders | crates/statecraft-adapter-claude-code/src/capture.rs:355-382 | The partition and the numbering loop compute the renamed list. |
| RedactionPass.Redact | crates/statecraft-adapter-claude-code/src/capture.rs:198-233 | Either every line is blank or an object and the result is the redacted kept events in order, or the error names the first line that is neither, counting from one. |
| NameLists.ListsKeepTheirLength | crates/statecraft-adapter-claude-code/src/capture.rs:355-382 | A renamed list is as long as it was; the verbatim tools come first in their order and nothing behind them is one. |
| NameLists.StringEntriesAreRanked | crates/statecraft-adapter-claude-code/src/capture.rs:367-380 | A remaining string entry is numbered by its rank among the remaining strings if and only if every remaining entry before it is a string. |
| NameLists.StringEntryNumberedPastAnother | crates/statecraft-adapter-claude-code/src/capture.rs:367-380 | An input where the only remaining string is number two. |
| NameLists.EntriesKeepTheirKeys | crates/statecraft-adapter-claude-code/src/capture.rs:367-380 | Every renamed entry keeps its kind and, as an object, all its keys in order and every value but its first `name`, which takes the entry's number. |
| NameLists.RenamedAgain | crates/statecraft-adapter-claude-code/src/capture.rs:355-382 | Renaming a list that was renamed and then redacted changes nothing. |
| RecordedStream.NoRootSurvives | crates/statecraft-adapter-claude-code/src/capture.rs:198-233 | No string value at any depth of any redacted event contains a work tree the stream names, for every one that does not overlap the placeholder and lies in neither longer placeholder path. |
| RootsExactly.NoRootSurvivesExactly | crates/statecraft-adapter-claude-code/src/capture.rs:198-233 | A nameable root that leaves some character unused is removed from every stream that names it, at every depth and for every date, if and only if it cannot overlap the placeholder and lies in neither longer placeholder path. |
| RootsExactly.LoneTreeRemovedExactly | crates/statecraft-adapter-claude-code/src/capture.rs:198-233 | A root with one spelling is removed from every stream of which it is the only work tree if and only if a replacement by the placeholder always removes it and neither longer placeholder path holds it. |
| RootsExactly.TreesAreNameable | crates/statecraft-adapter-claude-code/src/capture.rs:268-309 | Every work tree a line names is absolute, without a slash at its end, and not the placeholder. |
| RootWitnesses.OverlappingRootSurvives | crates/statecraft-adapter-claude-code/src/capture.rs:333-339 | A stream whose only work tree is not inside the placeholder and is still in a string of its redaction. |
| RootWitnesses.DoubledRootIsGone | crates/statecraft-adapter-claude-code/src/capture.rs:333-339 | A root that overlaps an end of the placeholder and is removed from every text all the same. |
| RecordedStream.EventsKeepOrderAndKeys | crates/statecraft-adapter-claude-code/src/capture.rs:198-202 | The redacted events are the kept events in order, each with its keys in their order. |
| RecordedStream.FixKeepsShape | crates/statecraft-adapter-claude-code/src/capture.rs:311-353 | Wherever redaction descends, arrays keep their length, objects their keys in order, and every other value but a string is verbatim. |
| RecordedStream.DroppedIsKept | crates/statecraft-adapter-claude-code/src/capture.rs:243-266 | A redacted event is dropped exactly when the event was, so a second pass drops nothing. |
| RedactionRules.RedactedExactly | crates/statecraft-adapter-claude-code/src/capture.rs:203-233 | Every redacted event is its own kept event with each name list renamed and every value then fixed, remembered or rewritten by its key, with the date's midnight. |
| RedactionRules.FixExactly | crates/statecraft-adapter-claude-code/src/capture.rs:311-342 | At every depth: `session_id`, `uuid`, `hook_id`, `timestamp`, `credential_expires_at`, `cwd`, `original_cwd`, `messaging_socket_path`, `plugins` and `additional_directories` hold their fixed value, `memory_paths` is remembered, every other key is descended into, every other string rewritten and everything else as it was. |
| RedactionRules.ListExactly | crates/statecraft-adapter-claude-code/src/capture.rs:355-382 | A name list keeps the seven plain tools of `tools` in front in their order; every other entry follows under its stem and number, as a string or in its first `name`. |
| RedactionRules.KeptExactly | crates/statecraft-adapter-claude-code/src/capture.rs:243-266 | A line is kept if and only if it is an object that is no rate limit, no count of thinking tokens, and no assistant message whose content is thinking alone, by the first field of each key. |
| RedactionRules.NamedExactly | crates/statecraft-adapter-claude-code/src/capture.rs:274-309 | A line names a work tree if and only if it is an init event whose `cwd` or `original_cwd`, less the slashes at its end, is that tree or its other spelling with or without `/private`. |
| RedactionIdempotence.SettledIsFixedPoint | crates/statecraft-adapter-claude-code/src/capture.rs:311-342 | A value already fixed is left as it is by one longer root if and only if no string redaction would rewrite contains it. |
| RedactionTwice.TreesOfRedacted | crates/statecraft-adapter-claude-code/src/capture.rs:274-309 | The work trees of a redacted stream are the `/private` spelling of the placeholder, or none when no kept init event names a tree. |
| RedactionTwice.RedactingAgain | crates/statecraft-adapter-claude-code/src/capture.rs:198-233 | Redacting the output for the same date gives the output if and only if it names no work tree or no string in it spells the placeholder in its `/private` form. |
| RedactionTwice.SecondPassDiffers | crates/statecraft-adapter-claude-code/src/capture.rs:292-304 | A stream whose second redaction differs from its first. |
| Corrections.ApplyCorrections | crates/statecraft-acceptance/src/documentation_acceptance.rs:245-283 | The loops over corrections and changed artifacts compute the effective subject, the applied digests and the changed claims. |
| Corrections.AppliedAreAChain | crates/statecraft-acceptance/src/documentation_acceptance.rs:245-283 | The applied corrections are exactly those whose subject is the one the earlier applied ones produced, and they form an unbroken chain from the result's subject to the effective one. |
| Corrections.UnboundCorrectionIsInert | crates/statecraft-acceptance/src/documentation_acceptance.rs:257-262 | Striking a correction that does not bind where it stands changes nothing that follows. |
| Corrections.NoCorrectionAppliesTwiceRunning | crates/statecraft-acceptance/src/documentation_acceptance.rs:257-278 | A correction that changes its subject does not apply again right after itself. |
| Corrections.CorrectionsOnlyChangeIdentities | crates/statecraft-acceptance/src/documentation_acceptance.rs:263-278 | Whatever the corrections, only artifact identities and the result digest change; no path is removed or moved, and distinct paths stay distinct. |
| Corrections.LastChangeWins | crates/statecraft-acceptance/src/documentation_acceptance.rs:264-272 | After a list of changes a path has the last identity given it, or the one it had. |
| Corrections.ChangedClaimsExactly | crates/statecraft-acceptance/src/documentation_acceptance.rs:245-283 | The corrected claims are those of the corrections that bind, in record order. |
| Corrections.ResultExactly | crates/statecraft-acceptance/src/documentation_acceptance.rs:263-278 | A binding correction's own result replaces the one before, and nothing else does. |
| DimensionStates.CombineIsAJoin | crates/statecraft-acceptance/src/documentation_acceptance.rs:227-234 | Combining is associative, commutative and idempotent, with pass neutral and fail absorbing. |
| DimensionStates.CombineAllIsJoin | crates/statecraft-acceptance/src/documentation_acceptance.rs:227-234 | Many states combine to fail if any is fail, and otherwise to the weakest of them. |
| DimensionStates.SameStatesCombineAlike | crates/statecraft-acceptance/src/documentation_acceptance.rs:227-234 | Lists holding the same states combine alike in any order and number. |
| AcceptanceTheorems.AcceptedExactly | crates/statecraft-acceptance/src/documentation_acceptance.rs:622-1057 | The outcome is accepted if and only if a list of facts about the record holds, stated without states or folds: identities, delivery, citations, evidence, claims, artifacts, freshness, authority, quorum, boundary, and transport being optional. |
| AcceptanceVerdict.RejectedExactly | crates/statecraft-acceptance/src/documentation_acceptance.rs:1014-1024 | The outcome is rejected if and only if the record holds one of these: another manifest, ineligible delivery or findings, an invalid schema, a failed citation, refused evidence, a claim a bound review finds against where semantic review is required, a failing, unexpected or turned-down artifact, stale or incomplete freshness, a review by the producer, or an applied path. |
| AcceptanceVerdict.StateExactly | crates/statecraft-acceptance/src/documentation_acceptance.rs:622-1012 | Every dimension is in the state of the worst fact the record holds against it, fail first, then not recorded, unreadable, unsupported, unknown; and passes without any. |
| AcceptanceVerdict.NeedExactly | crates/statecraft-acceptance/src/documentation_acceptance.rs:660-790 | All dimensions are required but transport and semantic review, each where its own policy makes it optional. |
| RecordFacts.SubjectExactly | crates/statecraft-acceptance/src/documentation_acceptance.rs:641-676 | There is a subject exactly when result, custody, candidate and policy are recorded, and each of its members is the record's. |
| RecordFacts.ClaimsExactly | crates/statecraft-acceptance/src/documentation_acceptance.rs:678-684 | The claims judged are the result's, the subject is the effective one, and the changed claims are its corrections'. |
| RecordFacts.ReferencesExactly | crates/statecraft-acceptance/src/documentation_acceptance.rs:659-672 | Every cited reference stands once, behind those that earlier claims cite. |
| RecordFacts.BoundExactly | crates/statecraft-acceptance/src/documentation_acceptance.rs:811-857 | The bound reviews are those of the subject whose reviewer did not produce the result and is named by exactly one grant of that authority that did not end before now, as often as recorded. |
| RecordFacts.AcceptingExactly | crates/statecraft-acceptance/src/documentation_acceptance.rs:955-959 | The accepting reviews counted are the bound ones that recommend acceptance and request nothing. |
| RecordFacts.DispositionExactly | crates/statecraft-acceptance/src/documentation_acceptance.rs:864-880 | A review's answer about a claim is its first one, and there is none when it names the claim nowhere. |
| RecordFacts.DecisionExactly | crates/statecraft-acceptance/src/documentation_acceptance.rs:403-428 | The decision about a reference is the last one recorded for it. |
| AcceptanceTheorems.ArtifactsPass | crates/statecraft-acceptance/src/documentation_acceptance.rs:430-521 | Artifact validation passes if and only if the artifacts are one for one with the distinct expected paths, each with retained bytes under its digest, within the limit, text, and with no missing anchor. |
| AcceptanceTheorems.SemanticPass | crates/statecraft-acceptance/src/documentation_acceptance.rs:859-905 | Semantic review passes if and only if some review is bound and every bound one supports every claim and reviewed every corrected claim. |
| AcceptanceTheorems.EvidencePass | crates/statecraft-acceptance/src/documentation_acceptance.rs:403-428 | Evidence admission passes if and only if the last decision recorded for every cited reference admits it. |
| AcceptanceTheorems.EligibleExactly | crates/statecraft-acceptance/src/documentation_acceptance.rs:285-309 | A reviewer is eligible if and only if exactly one grant names them and it grants the claimed authority and has not expired. |
| AcceptanceTheorems.AcceptedMeansReviewed | crates/statecraft-acceptance/src/documentation_acceptance.rs:811-979 | Accepted documentation has at least the quorum of bound accepting reviews without requested corrections, no unreadable review, and every review of its subject comes from one granted reviewer who did not produce the result. |
| AcceptanceTheorems.StandingNeverLacksAPolicy | crates/statecraft-acceptance/src/documentation_acceptance.rs:844-854 | The branch for a binding review without a policy is never taken. |
| AcceptanceTheorems.ReviewOrderDoesNotMatter | crates/statecraft-acceptance/src/documentation_acceptance.rs:811-979 | Permuting the reviews changes no dimension's state and not the outcome. |
| AcceptanceTheorems.RejectedStaysRejected | crates/statecraft-acceptance/src/documentation_acceptance.rs:1015-1024 | Appending any review, readable or not, leaves a rejection a rejection. |
| AcceptanceTheorems.InertCorrectionsDoNotMatter | crates/statecraft-acceptance/src/documentation_acceptance.rs:678-684 | Striking an unbound correction changes neither the subject, the corrected claims, the state of any dimension nor the outcome. |
| AcceptanceRequests.NoRequestsWithinQuorum | crates/statecraft-acceptance/src/documentation_acceptance.rs:956-959 | In an accepted record with no more bound reviews than the quorum, no bound review requests a correction. |
| AcceptanceRequests.SampleIsAccepted | crates/statecraft-acceptance/src/documentation_acceptance.rs:956-959 | For every quorum below the number of bound reviews, a record that is accepted and holds a bound review requesting a correction. |
| AcceptanceRequests.RequestsExcludedExactly | crates/statecraft-acceptance/src/documentation_acceptance.rs:956-959 | Accepted records with a given quorum and number of bound reviews never hold a requested correction if and only if the reviews are no more than the quorum, or the quorum is past the 32 bits the count has. |
| AcceptanceJudge.JudgeReviews | crates/statecraft-acceptance/src/documentation_acceptance.rs:811-857 | The loop over reviews finds the bound ones in order and the combined standing of all. |
| AcceptanceJudge.JudgeClaims | crates/statecraft-acceptance/src/documentation_acceptance.rs:864-905 | The nested loops over bound reviews and claims reach the semantic dimension's state. |
| AcceptanceJudge.JudgeArtifacts | crates/statecraft-acceptance/src/documentation_acceptance.rs:430-521 | The loops over expected paths and extra artifacts reach the artifacts' state. |
| AcceptanceJudge.JudgeCitations | crates/statecraft-acceptance/src/documentation_acceptance.rs:357-401 | The citation loop, behind its two counts, reaches the citation dimension's state. |
| AcceptanceJudge.JudgeEvidence | crates/statecraft-acceptance/src/documentation_acceptance.rs:403-428 | The reference loop reaches the evidence dimension's state. |
| AcceptanceJudge.Judge | crates/statecraft-acceptance/src/documentation_acceptance.rs:622-1057 | Every dimension in its order with its need and state, the bound reviews, and the outcome, accepted if and only if all the facts hold. |
| Anchors.MissingAnchors | crates/statecraft-acceptance/src/documentation_acceptance.rs:523-619 | The line scan and the link scan report the anchors `MissingOf` defines. |
| Anchors.ReadHeadings | crates/statecraft-acceptance/src/documentation_acceptance.rs:548-604 | The line loop with its fence and paragraph collects the headings and the prose. |
| Anchors.ReportedAnchors | crates/statecraft-acceptance/src/documentation_acceptance.rs:603-618 | An anchor is reported if and only if a link in the prose names it and no heading produces it, and none is reported twice. |
| Anchors.AnchorsAreLinks | crates/statecraft-acceptance/src/documentation_acceptance.rs:603-618 | Every anchor read stands between a link's opening and the next closing parenthesis. |
| Anchors.LinksAreRead | crates/statecraft-acceptance/src/documentation_acceptance.rs:603-618 | Every link in the prose is read: its anchor is one that is read, or the end of one that began earlier. |
| Anchors.FencedBlockChangesNothing | crates/statecraft-acceptance/src/documentation_acceptance.rs:551-585 | A whole fenced block inserted where no fence is open leaves the scanner where it was if and only if no paragraph is pending, and then leaves the answer as it was whatever follows (section 4.5 of CommonMark 0.31.2). |
| Anchors.FencedBlockTakesTheHeading | crates/statecraft-acceptance/src/documentation_acceptance.rs:571-592 | With a paragraph pending, the block makes an underline after it no heading. |
| HeadingRules.HeadingsExactly | crates/statecraft-acceptance/src/documentation_acceptance.rs:548-601 | The slugs a link may name are exactly those of the headings: outside a fence, a line of at most three spaces, one to six number signs and then its end or white space, or an underline behind a pending paragraph (sections 4.2 and 4.3 of CommonMark 0.31.2). |
| HeadingRules.LineExactly | crates/statecraft-acceptance/src/documentation_acceptance.rs:548-601 | What every line does to headings, prose, paragraph and fence, over its characters: closing and opening of a fence, lines left out of the prose, headings of both kinds, and paragraph lines. |
| HeadingRules.LinkOpensExactly | crates/statecraft-acceptance/src/documentation_acceptance.rs:603-618 | A link to an anchor opens with `](#` and nothing else. |
| HeadingRules.TitleExactly | crates/statecraft-acceptance/src/documentation_acceptance.rs:589-599 | A title is the text behind the number signs without white space around it and without closing number signs set off by white space. |
| Decimal.ParsePrint | crates/statecraft-adapter/src/context.rs:139-149 | A printed byte count reads back as the count. |
| Framing.ContextInput | crates/statecraft-adapter/src/context.rs:122-155 | The prompt alone without pages, otherwise the prompt, a preamble, one frame per page in order and a closing line. |
| Framing.DocumentationInput | crates/statecraft-adapter/src/documentation.rs:109-141 | The input so far, a preamble, the frames of task, schema and skill, and a closing line. |
| Framing.ProviderInput | crates/statecraft-adapter/src/protocol.rs:49-62 | The prompt, then the context part and the documentation part the request carries. |
| InputText.ProviderInputExactly | crates/statecraft-adapter/src/protocol.rs:49-62 | What follows the prompt, word for word: the preamble, the pages numbered from one in their order under their repository, digest and byte count, the closing line, and the same for the documents. |
| FrameReader.TakeFrameOf | crates/statecraft-adapter/src/documentation.rs:119-129 | Reading a header line, its declared count, that many bytes and one newline gives back the body and what followed, whatever bytes the body holds. |
| FrameReader.ReadBackIsExact | crates/statecraft-adapter/src/protocol.rs:49-62 | From what follows a known prompt the reader recovers exactly the contents of every page and document in order, for all contents, given single-line ids and digests. |
| FrameReader.EqualInputsEqualContents | crates/statecraft-adapter/src/protocol.rs:49-62 | Equal provider inputs under one prompt carry equal contents. |
| FrameReader.IdsCanCoincide | crates/statecraft-adapter/src/context.rs:140-148 | Only contents are recoverable: two different repository and digest pairs can print one header. |
| Bundles.AssembleContext | crates/statecraft-adapter/src/context.rs:93-120 | A context bundle is assembled if and only if every delivered page is retained under its digest as text, and then carries exactly those pages in order; otherwise the error names the first page that is not, as missing or as failing its digest. |
| RequestRules.DeliveredExactly | crates/statecraft-adapter/src/context.rs:84-90 | The pages delivered are those not withheld, as often as the manifest lists them. |
| Bundles.CheckContext | crates/statecraft-adapter/src/context.rs:167-200 | The check passes if and only if neither side has a bundle, or both do and the bundle is the recorded manifest with its delivered pages in order under their digests; otherwise the error is the first that applies, naming the first page that is extra, another one, of other bytes, or missing. |
| Bundles.CheckedContextIsAssembled | crates/statecraft-adapter/src/context.rs:167-200 | With an injective digest, a bundle that passes is page for page the assembled one. |
| Bundles.AssembledContextChecks | crates/statecraft-adapter/src/context.rs:93-120 | An assembled bundle passes the check exactly when the manifest reads back from its own bytes and states its own digest. |
| Bundles.CheckTask | crates/statecraft-adapter/src/documentation.rs:160-213 | The check passes if and only if neither side has a task, or both do and the bundle is the recorded task byte for byte with the pinned schema and skill and every required capability declared; otherwise the error is the first that applies, naming the first undeclared capability. |
| Bundles.AssembledTaskChecks | crates/statecraft-adapter/src/documentation.rs:77-107 | An assembled bundle passes the check exactly when the task reads back, the schema and the skill are the pinned ones and the capabilities are declared. |
| Bundles.AssemblyAcceptsUnpinnedSkill | crates/statecraft-adapter/src/documentation.rs:77-107 | Assembling accepts bytes that are not the pinned skill's, and no check then passes. |
| Versions.ComponentsJoin | crates/statecraft-adapter-claude-code/src/golden.rs:508-509 | Splitting a version loses nothing: no component holds a dot, and joined by dots they are the version. |
| GoldenRules.NumberExactly | crates/statecraft-adapter-claude-code/src/golden.rs:515-517 | A component is a number exactly when it is digits, perhaps behind a plus sign, whose value is below two to the sixty-fourth. |
| Versions.VersionOrder | crates/statecraft-adapter-claude-code/src/golden.rs:503-526 | The loop over components computes the recursive comparison. |
| Versions.Antisymmetry | crates/statecraft-adapter-claude-code/src/golden.rs:503-526 | For all versions, swapping the two reverses the answer. |
| Versions.NumericOrder | crates/statecraft-adapter-claude-code/src/golden.rs:503-526 | On versions of decimal 64-bit components the answer is lexicographic order on the numbers with a prefix first, equal exactly when the numbers are. |
| Versions.NumericTransitivity | crates/statecraft-adapter-claude-code/src/golden.rs:503-526 | On such versions the answer is transitive: a total preorder. |
| Versions.ComponentsOrderedExactly | crates/statecraft-adapter-claude-code/src/golden.rs:515-521 | Three components in sequence fail to be ordered if and only if a text stands between two numbers that number order and text order disagree about. |
| Versions.VersionsOrderedExactly | crates/statecraft-adapter-claude-code/src/golden.rs:503-526 | Three whole versions in sequence fail to be ordered if and only if the first components that are not pairwise equal are three that fail to be, or a text stands between two spellings of one number and the rest of the outer two is the wrong way round. |
| Versions.TextVersionsAreOrdered | crates/statecraft-adapter-claude-code/src/golden.rs:503-526 | Versions with at most one number in every place are ordered, those of text alone among them. |
| Versions.MixedVersionsCycle | crates/statecraft-adapter-claude-code/src/golden.rs:515-521 | Three versions, each before the next and the last before the first. |
| Golden.Record | crates/statecraft-adapter-claude-code/src/golden.rs:337-380 | The entries are recorded if and only if no key repeats and each is filled in, dated and read from a stream of its own version; the meanings are those streams'. Otherwise the error is the first thing wrong with the first entry that is not. |
| Golden.LoadQuarantine | crates/statecraft-adapter-claude-code/src/golden.rs:405-432 | The quarantine loads if and only if every entry has a reason, evidence, a date, a kept readable file, and, when lifted, a later golden of its scenario; otherwise the error is the first thing wrong with the first entry that is not sound. |
| Golden.LoadLedger | crates/statecraft-adapter-claude-code/src/golden.rs:433-461 | The ledger loads if and only if every entry is reviewed, dated, names only mapped fields and at least one, and none is dated before the one above it; otherwise the error is the first thing wrong with the first such entry. |
| Golden.Load | crates/statecraft-adapter-claude-code/src/golden.rs:382-467 | A loaded corpus is sound and holds what was given; when loading fails, no corpus of those entries is sound, and the error is the first golden kept in quarantine or the first fault, list by list. |
| Golden.LoadSet | crates/statecraft-adapter-claude-code/src/golden.rs:528-567 | A capture set loads if and only if it is of one version, has one capture per scenario, and its entries are recordable; otherwise the error is the first of these that fails. |
| GoldenRules.CaptureExactly | crates/statecraft-adapter-claude-code/src/golden.rs:337-380 | A capture is recordable exactly when its scenario, platform and invocation are not blank, its date is digits and dashes in their places, and its file reads as a stream of its version. |
| GoldenRules.QuarantineExactly | crates/statecraft-adapter-claude-code/src/golden.rs:405-432 | A quarantine entry is sound exactly when reason and evidence are not blank, it is dated, its file stands under `quarantine/` and can be read, and it is lifted only by a later golden of its scenario. |
| GoldenRules.EntryExactly | crates/statecraft-adapter-claude-code/src/golden.rs:433-461 | A ledger entry is sound exactly when reviewer and reason are not blank, it is dated, and it names at least one of the ten mapped fields and no other. |
| GoldenTheorems.LatestIsAMaximum | crates/statecraft-adapter-claude-code/src/golden.rs:484-493 | The chosen golden is a maximum by date and then by version in every list no three of which, of one date, have versions that fail to be ordered. |
| GoldenTheorems.GoldensOrderedExactly | crates/statecraft-adapter-claude-code/src/golden.rs:484-493 | Three goldens in sequence fail to be ordered if and only if they are of one date and their versions fail to be. |
| GoldenTheorems.NumericIsUnbroken | crates/statecraft-adapter-claude-code/src/golden.rs:484-493 | Goldens of numeric versions form such a list. |
| GoldenTheorems.OrderDoesNotMatterExactly | crates/statecraft-adapter-claude-code/src/golden.rs:484-493 | Every order of the manifest leads to the same choice if and only if some golden is greater than every other. |
| GoldenTheorems.ChosenIsMaximumExactly | crates/statecraft-adapter-claude-code/src/golden.rs:484-493 | When no two tie, the choice is a maximum in every order of the manifest if and only if some golden is at least all the others. |
| GoldenTheorems.OrderOfGoldensDoesNotMatter | crates/statecraft-adapter-claude-code/src/golden.rs:484-493 | In such a list, when no two goldens tie, permuting the manifest does not change the choice. |
| GoldenTheorems.MixedGoldensHaveNoMaximum | crates/statecraft-adapter-claude-code/src/golden.rs:484-493 | With a version that is no number the choice is not a maximum and depends on the manifest's order. |
| GoldenComparison.ScenariosAreSorted | crates/statecraft-adapter-claude-code/src/golden.rs:474-481 | The scenarios compared are exactly those a golden or a quarantine entry names, sorted, each once. |
| GoldenComparison.CompareScenario | crates/statecraft-adapter-claude-code/src/golden.rs:658-697 | A scenario's row has exactly the status, the differing fields and the first covering ledger entry it should, and blocks if and only if the scenario is neither quarantined nor captured with every difference covered by one entry for that version. |
| GoldenComparison.CompareCaptures | crates/statecraft-adapter-claude-code/src/golden.rs:645-711 | Fails exactly for an unknown scenario, or for one with neither golden nor active quarantine, and names the first; otherwise one row per scenario in order, qualifiable if and only if every scenario passes, the blocking scenarios being exactly the others. |
| ComparisonRules.RowExactly | crates/statecraft-adapter-claude-code/src/golden.rs:658-697 | Every row is its scenario's: in quarantine, missing, matching, or with exactly the fields that differ and the first ledger entry of that scenario and version naming them all. |
| ComparisonRules.QualifiableExactly | crates/statecraft-adapter-claude-code/src/golden.rs:698-711 | A comparison qualifies exactly when no row is missing or diverges without review, and the blocking scenarios are those of such rows. |
| GoldenComparison.LoadedScenariosAreAnswered | crates/statecraft-adapter-claude-code/src/golden.rs:405-432 | In a loaded corpus every scenario named has a golden or an active quarantine. |
| GoldenComparison.CompareLoaded | crates/statecraft-adapter-claude-code/src/golden.rs:673-679 | On a loaded corpus the comparison fails only for a capture of an unknown scenario. |
| GoldenComparison.QualifiedByOneRecord | crates/statecraft-adapter-claude-code/src/qualification.rs:116-127 | An adapter is qualified for an observed provider exactly by a record naming the adapter, its version, the suite and that provider. |
| ComparisonRules.QualifiedExactly | crates/statecraft-adapter-claude-code/src/qualification.rs:116-127 | Qualified exactly by a record of the manifest's own adapter and version, the suite and the observed provider. |
| GoldenComparison.RecordQualifiesOnlyTheCompared | crates/statecraft-adapter-claude-code/src/qualification.rs:89-108 | Of what comparing captures answers: a record follows if and only if every scenario passes, and it qualifies this build for the compared version and no other; otherwise the refusal names that version and exactly the scenarios that do not pass. |
| CommandReading.Classify | crates/statecraft-adapter/src/coverage.rs:105-144 | The loop over two flags, with its early return, reads the command as `ReadingOf` does. |
| CommandReading.ScanMeansSimple | crates/statecraft-adapter/src/coverage.rs:105-123 | The scan ends outside quotes if and only if the command splits into plain characters and closed quoted spans with no metacharacter outside a single-quoted one (section 2.2.2 of the POSIX.1-2017 Shell Command Language). |
| CommandReading.ReadExactly | crates/statecraft-adapter/src/coverage.rs:89-144 | Read as the program `p` if and only if simple, leading with `p`, and `p` a bare name that is no wrapper; read as a path if and only if simple and leading with the name of a file. |
| CommandRules.ReadingExactly | crates/statecraft-adapter/src/coverage.rs:36-144 | Program, path and not parsed, each exactly, over the twelve metacharacters, the characters of a name and the nineteen wrappers. |
| Coverage.Compare | crates/statecraft-adapter/src/coverage.rs:585-643 | The find-or-insert loop computes the missing programs and the verdict from them. |
| CoverageRules.VerdictExactly | crates/statecraft-adapter/src/coverage.rs:619-627 | Refused exactly when some command requires a program that is not allowed, partial exactly when none does and some command is not parsed, and else direct. |
| Coverage.GroupedPrograms | crates/statecraft-adapter/src/coverage.rs:604-619 | The missing programs are the disallowed ones, each once and in first-seen order. |
| Coverage.GroupedCommands | crates/statecraft-adapter/src/coverage.rs:604-619 | Each missing program lists exactly the commands whose program it is, in their order. |
| Coverage.RequiredPrograms | crates/statecraft-adapter/src/coverage.rs:665-676 | The required programs, each once and in first-seen order. |
| Coverage.Construct | crates/statecraft-adapter/src/environment.rs:138-186 | The child's variables are exactly those given that are not withheld; refused if and only if a required command is not allowed, and otherwise degraded if and only if a withheld name was given. |
| CoverageRules.WithheldExactly | crates/statecraft-adapter/src/environment.rs:110-123 | A name is withheld exactly when it starts, in whatever letter case, like one of six. |
| CoverageRules.VariableExactly | crates/statecraft-adapter/src/environment.rs:142-152 | A variable of the child has a value exactly when its name is not withheld and that is the last value given for it. |
| Coverage.WithheldNamesNeverReach | crates/statecraft-adapter/src/environment.rs:102-123 | A name is a variable of the child if and only if it was given and is not withheld. |
| Coverage.VerdictRefusesExactly | crates/statecraft-adapter/src/coverage.rs:619-627 | The verdict refuses if and only if the environment's own test of the required programs against the allowance would. |
| Coverage.ChildEnvironmentWith | crates/statecraft-cli/src/adapters.rs:124-150 | The child environment is refused exactly when the coverage's verdict is, holds no withheld name, and is made of the binding, then `PATH` and `USER` where set. |

## Left out

- Process creation, signals, `kill_tree`, survivors, confinement, `try_wait` errors, file descriptors and raw `capture`: operating-system effects. The child's exit, the clock and the pipe's bytes are environment steps of the model.
- `settings` files, hook responses, and the session id of a Claude execution: copied through without a decision.
- JSON text, UTF-8, digests and timestamps' clocks: abstract decoders, an abstract digest (injective only where a lemma says so) and JSON trees with ordered keys. A float that prints differently from how it was read is therefore not modelled.
- The in-place update of the JSON tree in redaction: `fixed`, `memory` and `placeholders` are modelled on values, by methods that build the new tree; the aliasing of `&mut` is not captured.
- Object keys in redaction: the code rewrites values only, and so does the model; a work tree in a key stays.
- The golden's version and the quarantine's reason repeated in a comparison's row: copied without a decision.
- Reason texts and their order in a judgment, comparison or environment, and the rendering of verdicts.
- `RootsExactly.NoRootSurvivesExactly`: a root whose spellings use every character there is stays undecided when it overlaps the placeholder; the stream that shows a root surviving needs a second work tree the root does not share a character with.
- `SupervisionLoop.Supervision.DrainDelivered`: what the reader enqueues while the loop drains is not in the method's channel; the step system covers it.
- Slugs, lower-casing and line splitting in the Markdown scanner: given functions on a heading line, an anchor and a text.
- The meaning of a stream over the mapped fields, `read_under` and the parsing of manifests, quarantine and ledger files: given to the corpus as parsed entries, a reader and a meaning function.
- `drift`, plan digests, the declaration parser and the suite plan reader of command coverage: no part of the verdict.
- Context packet judgment, authority, delta, contract, trust, receipt and wire admission in the acceptance crate, and the run record, home and envelope crates: tables and filters, or state not part of this model.
