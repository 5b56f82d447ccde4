# Verified models of the Suricate agent server's stateful core

This project models, in Dafny, the parts of the repository in which correctness depends on how steps
follow or interleave, and proves what those parts promise.

| files | what they model |
|---|---|
| `LeaseModel`, `LeaseDocuments`, `ConversationLeases`, `LeaseRuns`, `LeaseLocking`, `LeaseCalls`, `LeaseExecutions` | the conversation ownership lease: one lease file shared by any number of server processes |
| `Strings`, `BashNames`, `BashSearch`, `BashPaging`, `BashOutputs` | the bash event service: file names as an index, cursor pages, retention, the two output readers |
| `ProfileStore`, `ProfileRequests`, `ProfileRuns`, `ProfileSeeding` | the agent-profile store, the active pointer, and lazy seeding |
| `BaselineChecker` | the forbidden-attribute baseline and its shrink-only rule |
| `Redaction`, `RedactionInPlace`, `RedactedFiles`, `ExportedDocuments` | secret redaction of JSON trees and of JSON-lines files |
| `SkillNames`, `SkillWords` | skill-name normalisation into the AgentSkills name pattern |
| `Prelude`, `JsonModel` | shared datatypes, JSON values |

How the pieces fit together:

- **Lease.** `LeaseModel.Apply` is one atomic operation on the lease file, and `LeaseDocuments` says what it does by
  the members of the document it finds. `ConversationLeases` has the class with its methods, each proved to do exactly
  that operation. `LeaseRuns` proves properties of every run of operations: who is accepted, fencing, takeover,
  retention. `LeaseLocking` takes the file lock apart into single actions, with crashes and outside interference
  between any two, and proves the invariant every action keeps; `LeaseCalls` proves what a call left alone does.
  `LeaseExecutions` concludes that every execution is linearizable, so the run properties carry over to the calls.
- **Bash events.** `BashNames` proves that file names encode events faithfully and in time order. `BashSearch` has
  the directory with its scanning, searching and deleting loops. `BashPaging` proves what a client sees. `BashOutputs`
  treats the code between two awaits of a stream reader as one segment and quantifies over all interleavings.
- **Profiles.** Handlers are atomic requests on a store and a pointer (`ProfileRequests` says profile by profile what
  each changes), except in `ProfileSeeding`, where every store and settings access is a step of its own.

## Where the code does not keep a promise

Each of these is proved with a concrete input and with the exact condition under which the promise does hold.

- The lease class describes its generation as monotonically increasing. It restarts at 1 after a release or an
  unreadable file, and a token that a takeover had fenced is then accepted again
  (`LeaseRuns.ReleaseRevivesFencedToken`). From an empty directory it is monotone exactly on runs in which no claim
  finds the lease lost after a takeover (`LeaseRuns.MonotoneFromAbsentIff`; for any starting file
  `LeaseRuns.MonotoneIffNoLateRestart`).
- The profile store strips a `.json` suffix from the name it is given, while the handlers look the profile up by the
  full name. Saving or deleting `x.json` therefore works on the file of profile `x`: a delete leaves the active
  pointer dangling and later list responses empty (`ProfileRuns.SuffixedDeleteStrandsThePointer`), an overwrite
  changes the id or duplicates another one. `ProfileRuns.RequestKeepsInvIff` gives the exact requests.
- Stdout and stderr chunks can carry the same order number (`BashOutputs.StreamsMayShareANumber`); numbers are distinct
  exactly when the two readers were never both awaiting a publication
  (`BashOutputs.OrdersDistinctIffNeverBothPublishing`).
- A timeout that lands on the publication of a chunk repeats that chunk in the final event
  (`BashOutputs.TimeoutOnPublicationDuplicates`), which then exceeds the maximum length. Output is conserved, and the
  final event within the maximum, exactly when the reader is not waiting for a publication at the cut
  (`BashOutputs.OutputConservedIffNotPublishing`, `BashOutputs.ChunksAreFullAndRemainderFits`).
- The skill-name validator accepts a valid name followed by one newline, which normalisation changes
  (`SkillNames.NewlineNameAccepted`, `SkillNames.AcceptedNameFixedIffNoNewline`).
- A replaced JSON-lines file keeps its line structure only if every parsed line before the last ended in a newline
  character, because `splitlines` also breaks at other separators (`RedactedFiles.FormFeedIsLost`,
  `RedactedFiles.LineStructureKeptIff`).
- For the same reason a document that holds a secret and contains a raw separator such as U+2028 inside a string is cut
  into pieces, of which the first does not parse and is kept as it stands. It can reach the archive with the secret in
  it (`ExportedDocuments.SeparatorKeepsSecret`). In a file with one document to a line every secret-holding document is
  redacted exactly when none contains such a character (`ExportedDocuments.SecretsRedactedIffUnbroken`).

The laws these last two items assume of `json` and `str.strip` are predicates: a redacted value can be written on one
line and read back (`RedactedFiles.Lawful`), and no proper prefix of a list or object text that `strip` leaves alone
parses (`ExportedDocuments.PrefixesDoNotParse`). `ExportedDocuments.Trimmed` says how a document is written to its line.
`ExportedDocuments.SampleIsLawful` gives an instance that meets all of them and, like `json.loads`, parses a text with
white space after it.

## Model

| member | source | states |
|---|---|---|
| LeaseModel.WriteThenRead | suricate-agent-server/openhands/agent_server/conversation_lease.py:234-281 | Round trip: reading the document a process writes gives back its instance, generation, expiry, host and pid; only an empty host name is lost |
| LeaseDocuments.ReadFieldByField | suricate-agent-server/openhands/agent_server/conversation_lease.py:234-269 | By the members of the document: a payload is read iff there are a string owner, an integer generation (bool included) and a numeric expiry, with those values; host and pid are read iff present with the right type, the host non-empty |
| LeaseDocuments.ReadsAsNoLease | suricate-agent-server/openhands/agent_server/conversation_lease.py:234-269 | A file reads as no lease iff it is not a JSON object with those three fields of those types |
| LeaseDocuments.TokenByTheDocument | suricate-agent-server/openhands/agent_server/conversation_lease.py:203-232 | A token is accepted iff the document says that owner and generation |
| LeaseDocuments.ClaimByTheDocument | suricate-agent-server/openhands/agent_server/conversation_lease.py:126-185 | Whoever wrote the document: one's own lease is claimed with its generation; another's is refused, unchanged, iff it is unexpired and does not record a pid, on the claimer's host and not the claimer's, that is not positive or that os.kill reports missing (no permission and other errors count as alive); otherwise it is taken over with the next generation |
| LeaseDocuments.ClaimWithoutDocument | suricate-agent-server/openhands/agent_server/conversation_lease.py:126-164 | Over a file that says no lease a claim returns generation 1 and no takeover |
| LeaseDocuments.WrittenDocumentSays | suricate-agent-server/openhands/agent_server/conversation_lease.py:160-164 | A successful claim or renewal leaves a document with that instance, generation, expiry one TTL after its time, host and pid under the documented keys |
| LeaseDocuments.LegacyLeaseIsHonoured | suricate-agent-server/openhands/agent_server/conversation_lease.py:41-45 | The three-member document of an older server is refused until it expires and then claimed with generation 8 |
| ConversationLeases.ConversationLease.WritePayload | suricate-agent-server/openhands/agent_server/conversation_lease.py:271-281 | The lease path ends up with the complete new document and no temporary file is left |
| ConversationLeases.ConversationLease.Claim | suricate-agent-server/openhands/agent_server/conversation_lease.py:122-164 | Claiming does to the file and returns or raises exactly what the atomic claim step does; a refusal leaves the directory unchanged |
| ConversationLeases.ConversationLease.AssertOwner | suricate-agent-server/openhands/agent_server/conversation_lease.py:216-232 | Succeeds exactly when the readable lease names this instance and generation; expiry plays no part |
| ConversationLeases.ConversationLease.Renew | suricate-agent-server/openhands/agent_server/conversation_lease.py:187-194 | Renewing is the atomic renew step; losing ownership is reported and changes nothing |
| ConversationLeases.ConversationLease.EnterGuardedWrite | suricate-agent-server/openhands/agent_server/conversation_lease.py:196-201 | The body is entered exactly when the atomic guarded-write step permits it |
| ConversationLeases.ConversationLease.Release | suricate-agent-server/openhands/agent_server/conversation_lease.py:203-214 | Unlinks the file exactly when it still names this instance and generation |
| LeaseRuns.StepAccepts | suricate-agent-server/openhands/agent_server/conversation_lease.py:122-232 | For one step of any kind: a token is good afterwards iff this claim handed it out, or it was good and the step did not take the lease away |
| LeaseRuns.TokenAcceptedIffEarned | suricate-agent-server/openhands/agent_server/conversation_lease.py:122-232 | After any run from any file a token (i, g) is accepted iff an earlier claim by i returned g and since then no other claim succeeded, no release removed the file and it was never unreadable or missing (or the starting file carried it, undisturbed) |
| LeaseRuns.OperationsAcceptedIffEarned | suricate-agent-server/openhands/agent_server/conversation_lease.py:187-232 | In any run from any file each renew, guarded_write and release takes effect if its token was so earned (or carried by the starting file, undisturbed) and is otherwise refused; from no lease it must be earned |
| LeaseRuns.GenerationsOnlyGrow | suricate-agent-server/openhands/agent_server/conversation_lease.py:128-164 | Along a stretch that never loses the file the lease stays readable, generations never decrease, and one generation has one owner |
| LeaseRuns.MonotoneIffNoLateRestart | suricate-agent-server/openhands/agent_server/conversation_lease.py:101-164 | From any file, over the moments at which the lease is readable: the documented monotone generation is kept iff no claim finds the lease gone or unreadable after a generation above 1 was on record |
| LeaseRuns.MonotoneFromAbsentIff | suricate-agent-server/openhands/agent_server/conversation_lease.py:101-164 | From a directory without a lease: the generation is monotone iff no claim finds the lease lost after a takeover |
| LeaseRuns.TakeoverFencesForGood | suricate-agent-server/openhands/agent_server/conversation_lease.py:128-232 | Once another instance owned the lease, every later renew, guarded write and release by the old token has no effect, even after its instance claimed again |
| LeaseRuns.ReleaseRevivesFencedToken | suricate-agent-server/openhands/agent_server/conversation_lease.py:157-164 | A run in which a fenced token is accepted again, because the generation restarted at 1 after a release |
| LeaseRuns.LastWriteIsWhatIsRead | suricate-agent-server/openhands/agent_server/conversation_lease.py:160-163 | The lease read after any run is the owner, generation, expiry, host and pid of the last claim or renewal |
| LeaseRuns.TakeoverIffStale | suricate-agent-server/openhands/agent_server/conversation_lease.py:126-185 | In any run a claim by another instance succeeds, with the generation raised by exactly one, iff the last claim or renewal is a TTL old at the claimer's clock or its process is dead on the claimer's own host; otherwise it is refused and changes nothing |
| LeaseRuns.EveryTakeoverWasOfAStaleLease | suricate-agent-server/openhands/agent_server/conversation_lease.py:126-185 | Every takeover of every run was of another instance's lease that was expired or whose process was dead on the claimer's host |
| LeaseRuns.PromptHolderRetainsOwnership | suricate-agent-server/openhands/agent_server/conversation_lease.py:125-194 | With a monotone clock, a live holder that does not give its token up, and refresh gaps below its TTL, every other claim of the run is refused in the holder's name and the holder's own operations succeed |
| LeaseLocking.ActIsAtomic | suricate-agent-server/openhands/agent_server/conversation_lease.py:122-232 | Each single action under the lock either leaves the lease file alone or is one atomic operation with that outcome on the lease the run has reached, whatever was done to the file from outside meanwhile |
| LeaseCalls.HolderAloneIsAtomic | suricate-agent-server/openhands/agent_server/conversation_lease.py:122-214 | From getting the lock on, a call nobody interrupts runs through its actions to the way out, and does to the lease file, and answers, what its atomic operation does |
| LeaseLocking.ActionKeepsInv | suricate-agent-server/openhands/agent_server/conversation_lease.py:122-281 | Every action of every call, with kills, outside interference and clock changes in either direction at any moment, keeps the lock exclusive, the history an explanation of the file, each call's knowledge true, and the operations of the history one-to-one with the calls that took effect |
| LeaseExecutions.ExecutionRefinesAtomicRun | suricate-agent-server/openhands/agent_server/conversation_lease.py:122-281 | However calls interleave, crash and are interfered with, and whatever the clock shows, an atomic run leads to the lease file shown (or to the one the write under way will restore); each finished call answered what a step of its own in that run answers, the run holds no other operations, and its times are monotone if the clock never went back |
| LeaseExecutions.TimesAreReadUnderLock | suricate-agent-server/openhands/agent_server/conversation_lease.py:125-194 | The time of every step is one its own call read off the clock while it held the lock |
| LeaseExecutions.StepWithinCall | suricate-agent-server/openhands/agent_server/conversation_lease.py:122-232 | The step a call stands for was taken between the call's start and its end |
| LeaseExecutions.RealTimeOrder | suricate-agent-server/openhands/agent_server/conversation_lease.py:122-232 | A call that ended before another started stands for an earlier step than it |
| LeaseExecutions.CallAcceptedIffEarned | suricate-agent-server/openhands/agent_server/conversation_lease.py:187-232 | At lock granularity, from any file, a renewal, guarded write or release took effect iff its token was earned in that atomic run or carried by the starting file, undisturbed |
| LeaseExecutions.PromptHolderRetainsLease | suricate-agent-server/openhands/agent_server/conversation_lease.py:122-201 | At lock granularity, with times that do not go back from a prompt live holder's claim on, every later claim by another instance is refused in its name, and the holder's own claims, renewals and guarded writes succeed with its token |
| LeaseExecutions.BodyExcludesOthers | suricate-agent-server/openhands/agent_server/conversation_lease.py:196-201 | While a call is inside its guarded body no other action takes effect, and only outside interference touches the lease file |
| LeaseExecutions.GuardedBodyOwnsTheLease | suricate-agent-server/openhands/agent_server/conversation_lease.py:196-201 | From entering to leaving the guarded body no claim, renewal or release of anyone takes effect, and the file names (i, g) exactly as long as nothing from outside garbles it |
| LeaseExecutions.CrashIsAllOrNothing | suricate-agent-server/openhands/agent_server/conversation_lease.py:271-281 | A crash anywhere in claim or renew leaves the lease file as it is: the file the call found (or what was put there from outside while it held the lock) before the move, one with the whole operation in it after |
| LeaseExecutions.LeaseIsOnlyReplacedWhole | suricate-agent-server/openhands/agent_server/conversation_lease.py:203-281 | No action of any call changes the lease file except a release's unlink or the lock holder moving the complete document of its claim or renewal over it |
| Strings.SplitInvertsJoin | suricate-agent-server/openhands/agent_server/bash_service.py:67-74 | Splitting on the separator gives back the pieces a name was joined from |
| Strings.JoinInvertsSplit | suricate-agent-server/openhands/agent_server/bash_service.py:205-212 | Splitting any name gives separator-free pieces that join back to it |
| Strings.LessAtFirstDifference | suricate-agent-server/openhands/agent_server/bash_service.py:198-204 | String comparison is decided at the first difference, a proper prefix being smaller |
| BashNames.PaddedOrder | suricate-agent-server/openhands/agent_server/bash_service.py:61-65 | Zero-padded fixed-width decimals compare as strings the way the numbers compare |
| BashNames.TimestampReadsBack | suricate-agent-server/openhands/agent_server/bash_service.py:61-65 | The digits of the timestamp text at the strftime positions read back as year, month, day, hour, minute, second and microsecond |
| BashNames.NamesAreLaidOut | suricate-agent-server/openhands/agent_server/bash_service.py:67-74 | File names are timestamp, kind, command id for outputs only, and event id, joined by underscores |
| BashNames.TextOrderIsTimeOrder | suricate-agent-server/openhands/agent_server/bash_service.py:61-65 | The 20-digit text preserves and reflects the order of timestamps with four-digit years, and determines the timestamp |
| BashNames.NameAgainstTimestamp | suricate-agent-server/openhands/agent_server/bash_service.py:192-198 | Comparing a whole name with a bare timestamp text compares the event's timestamp with it |
| BashNames.NameFilterIsPlainSearch | suricate-agent-server/openhands/agent_server/bash_service.py:182-210 | For every saved event and query the name filter passes iff kind, command id and timestamp satisfy the query |
| BashNames.NameFilterBySegments | suricate-agent-server/openhands/agent_server/bash_service.py:195-212 | For any file name, saved or foreign: it passes iff it is within the bounds as text, its second segment is the kind asked for, and its third of at least four is the command id |
| BashNames.NameOrderIsTimeOrder | suricate-agent-server/openhands/agent_server/bash_service.py:175-180 | Name order never contradicts time order |
| BashNames.NamesAreUnique | suricate-agent-server/openhands/agent_server/bash_service.py:67-74 | Different events never share a file name |
| BashSearch.SortedIsOrdered | suricate-agent-server/openhands/agent_server/bash_service.py:212 | The sort puts distinct names in strict order, in either direction |
| BashSearch.BashEventDirectory.Scan | suricate-agent-server/openhands/agent_server/bash_service.py:188-212 | Whatever order the directory lists its entries in, the result is strictly ordered and holds exactly the matching names |
| BashSearch.BashEventDirectory.Search | suricate-agent-server/openhands/agent_server/bash_service.py:162-225 | A page holds the first `limit` matching names from the cursor on (from the start when the cursor is gone) and points at the least name left, if any |
| BashSearch.BashEventDirectory.DeleteEventsOlderThan | suricate-agent-server/openhands/agent_server/bash_service.py:417-446 | Despite stopping at the first newer file it removes exactly the visible names below the cutoff that can be unlinked, and returns their number |
| BashPaging.ScanIsPlainSearch | suricate-agent-server/openhands/agent_server/bash_service.py:162-212 | Over a directory of saved events the matching names are the names of exactly the events the query describes, one each |
| BashPaging.NameOrderListsEventsByTime | suricate-agent-server/openhands/agent_server/bash_service.py:175-212 | A listing in name order has its events in time order, newest first when descending |
| BashPaging.FollowedPagesAreComplete | suricate-agent-server/openhands/agent_server/bash_service.py:188-225 | Pages followed over a changing directory whose cursors survive never repeat a name, stay in strict order, and when they end hold every name that matched at every request; both directions, any limit |
| BashPaging.UnchangedDirectoryIsListed | suricate-agent-server/openhands/agent_server/bash_service.py:188-225 | Over an unchanged directory the followed pages list exactly the matching names, each once and in order, every page but the last with exactly the limit |
| BashPaging.ExpiredAreTheOlderEvents | suricate-agent-server/openhands/agent_server/bash_service.py:417-440 | A saved event is removed iff it is older than the cutoff and can be unlinked |
| BashPaging.ExpiredByName | suricate-agent-server/openhands/agent_server/bash_service.py:417-440 | Any file is removed iff it can be unlinked, is not a dot file and its name sorts below the cutoff text |
| BashPaging.RetentionLeavesLaterSearchesAlone | suricate-agent-server/openhands/agent_server/bash_service.py:195-225 | Searches whose lower bound is at or after the cutoff match the same names and allow the same pages before and after the pass |
| BashOutputs.CommandOutput.OnData | suricate-agent-server/openhands/agent_server/bash_service.py:303-330 | The code from a read to the next await is the data segment |
| BashOutputs.CommandOutput.OnPublished | suricate-agent-server/openhands/agent_server/bash_service.py:317-338 | The code from a finished publication to the next await is the publication segment: count it, catch the shared buffer up, then split again or read |
| BashOutputs.CommandOutput.FinalOutput | suricate-agent-server/openhands/agent_server/bash_service.py:382-395 | The final event is built from the shared buffers and counter, and omitted only with nothing left and no exit code |
| BashOutputs.FinalEventReports | suricate-agent-server/openhands/agent_server/bash_service.py:382-395 | For every interleaving the final event reports the exit code given; it exists iff there is one or some stream was not saved completely, and each stream is None in it iff that stream was |
| BashOutputs.EndOfStreamIsFinal | suricate-agent-server/openhands/agent_server/bash_service.py:303-307 | Once a reader met the end of its stream it consumes and saves nothing more |
| BashOutputs.OutputConservedIffNotPublishing | suricate-agent-server/openhands/agent_server/bash_service.py:290-338 | For every interleaving cut anywhere: saved text followed by the final event's text is what the reader consumed, iff that reader is not waiting for a publication |
| BashOutputs.CutWhilePublishingRepeatsOneChunk | suricate-agent-server/openhands/agent_server/bash_service.py:323-338 | In the remaining case the final event overlaps the saved text by exactly one full chunk |
| BashOutputs.TimeoutOnPublicationDuplicates | suricate-agent-server/openhands/agent_server/bash_service.py:303-338 | An interleaving of reads of at most 8192 characters, cut during a publication, whose events carry one full chunk more than was read |
| BashOutputs.ChunksAreFullAndRemainderFits | suricate-agent-server/openhands/agent_server/bash_service.py:316-395 | Every saved chunk has exactly the maximum length; the final event's text is within it iff the reader is not waiting for a publication, and is not empty if anything was cut off |
| BashOutputs.OrdersFollowSaves | suricate-agent-server/openhands/agent_server/bash_service.py:291-338 | Orders never decrease in save order and strictly increase within a stream; the final order equals the number of chunks iff no publication is pending, and then exceeds them all |
| BashOutputs.OrdersDistinctIffNeverBothPublishing | suricate-agent-server/openhands/agent_server/bash_service.py:311-338 | For every interleaving the saved chunks carry pairwise distinct orders iff the two readers were never both awaiting a publication |
| BashOutputs.AllOrdersDistinctIff | suricate-agent-server/openhands/agent_server/bash_service.py:311-395 | The final event's order is distinct from theirs too iff, besides, nothing is being published at the cut |
| BashOutputs.StreamsMayShareANumber | suricate-agent-server/openhands/agent_server/bash_service.py:303-332 | An interleaving of reads of at most 8192 characters in which a stdout and a stderr chunk carry one number |
| ProfileStore.StemIsValid | suricate-sdk/openhands/sdk/profiles/agent_profile_store.py:104-117 | Every name the router lets through resolves to a stem the store accepts |
| ProfileRequests.StemIsTheFile | suricate-sdk/openhands/sdk/profiles/agent_profile_store.py:104-117 | A name stands for the file it names after dropping exactly one ending `.json`, if it has one |
| ProfileRequests.BadNamesAreUnprocessable | suricate-agent-server/openhands/agent_server/agent_profiles_router.py:59-62 | A request is turned away, changing nothing, iff one of its names is not 1 to 64 ASCII letters, digits, dots, underscores and hyphens starting with a letter or digit |
| ProfileStore.AgentProfiles.List | suricate-agent-server/openhands/agent_server/agent_profiles_router.py:255-281 | Listing seeds one active default profile exactly on an empty store without pointer, then answers names and pointer |
| ProfileStore.AgentProfiles.Save | suricate-sdk/openhands/sdk/profiles/agent_profile_store.py:405-432 | Saving keeps the identity found under the full name, or mints one, and stores it under the stripped name within the limit |
| ProfileStore.AgentProfiles.Delete | suricate-agent-server/openhands/agent_server/agent_profiles_router.py:366-397 | Deleting unlinks the stripped name and clears the pointer iff it equals the id found under the full name |
| ProfileStore.AgentProfiles.Rename | suricate-sdk/openhands/sdk/profiles/agent_profile_store.py:231-261 | Renaming moves the record with its id, or reports a missing source or a taken target |
| ProfileStore.AgentProfiles.Activate | suricate-agent-server/openhands/agent_server/agent_profiles_router.py:435-483 | Activating sets the pointer iff some stored profile has the id |
| ProfileRequests.ListByProfile | suricate-agent-server/openhands/agent_server/agent_profiles_router.py:255-281 | Listing answers all stored names and the pointer; iff nothing is stored and no pointer set, it first stores `default` with the minted id and points at it |
| ProfileRequests.SaveByProfile | suricate-sdk/openhands/sdk/profiles/agent_profile_store.py:405-432 | Profile by profile: saving writes the one file with the kept id and next revision, or the minted id, leaves the others and the pointer alone, and is refused iff the file is new and 50 are stored |
| ProfileRequests.DeleteByProfile | suricate-agent-server/openhands/agent_server/agent_profiles_router.py:366-397 | Profile by profile: deleting removes exactly the one file, and clears the pointer iff it is the id stored under the full name |
| ProfileRequests.RenameByProfile | suricate-sdk/openhands/sdk/profiles/agent_profile_store.py:231-261 | Profile by profile: the record moves with id and revision, the others and the pointer stay; a missing source or a taken target changes nothing |
| ProfileRequests.ActivateByProfile | suricate-agent-server/openhands/agent_server/agent_profiles_router.py:435-483 | The pointer moves to the id, wherever it was, iff some stored profile has it |
| ProfileRuns.RequestKeepsInvIff | suricate-agent-server/openhands/agent_server/agent_profiles_router.py:255-483 | One request keeps valid names, unique ids, the limit and a pointer at a stored profile, iff it is not a save or delete through a `.json` name that reaches another profile's file |
| ProfileRuns.PlainRequestsKeepInv | suricate-agent-server/openhands/agent_server/agent_profiles_router.py:255-483 | Over every request sequence without `.json` names in saves and deletes the invariant holds throughout and every list response is non-empty |
| ProfileRuns.PointerFollowsItsProfile | suricate-agent-server/openhands/agent_server/agent_profiles_router.py:341-433 | Overwriting and renaming never move the pointer to another profile |
| ProfileRuns.SuffixedDeleteStrandsThePointer | suricate-sdk/openhands/sdk/profiles/agent_profile_store.py:110 | Deleting `default.json` after the first list leaves an empty store with a dangling pointer, and the next list is empty |
| ProfileRuns.RenameBackRestores | suricate-sdk/openhands/sdk/profiles/agent_profile_store.py:231-261 | Renaming to a free name and back restores the whole store and the pointer |
| ProfileRuns.CreateThenDeleteRestores | suricate-agent-server/openhands/agent_server/agent_profiles_router.py:341-397 | Creating a profile under a new plain name, with the minted id, and deleting it restores the whole store and the pointer |
| ProfileSeeding.ActionKeepsInv | suricate-agent-server/openhands/agent_server/agent_profiles_router.py:202-281 | Every store or settings access of any request keeps the critical section's knowledge of store, pointer and seeds |
| ProfileSeeding.SeedsOnceAndPointsAtTheSeed | suricate-agent-server/openhands/agent_server/agent_profiles_router.py:208-242 | For any interleaving of list, activate, save and rename requests, with crashes, at most one seed is ever saved, and when a seeding critical section ends the pointer is the id of the profile it stored |
| ProfileSeeding.ListAloneIsAtomic | suricate-agent-server/openhands/agent_server/agent_profiles_router.py:202-281 | A list request nobody interrupts, access by access, does to store and pointer what the whole handler does, and leaves the lock free |
| ProfileSeeding.ActivateAloneIsAtomic | suricate-agent-server/openhands/agent_server/agent_profiles_router.py:435-483 | An activate request nobody interrupts does what the whole handler does |
| BaselineChecker.CurrentEntries | scripts/check_forbidden_dynamic_attributes.py:128-136 | The nested loops collect every violation of every path, in order |
| BaselineChecker.SdkSourcesByPath | scripts/check_forbidden_dynamic_attributes.py:118-125 | A path is auto-discovered iff it is `suricate-sdk/`, anything, `.py` |
| BaselineChecker.FileEntriesAreItsViolations | scripts/check_forbidden_dynamic_attributes.py:128-136 | Under a key a file's entries are, line by line, its violations with that name and digest, and nothing under another file's keys |
| BaselineChecker.EntriesCountEachFileOnce | scripts/check_forbidden_dynamic_attributes.py:128-136 | Over distinct paths a key stands for the occurrences of its name and digest in its own file, line by line, and nothing else |
| BaselineChecker.NewViolations | scripts/check_forbidden_dynamic_attributes.py:182-188 | The loop reports the first excess occurrences of each key, and leaves in the counter it decrements the smaller of current and baseline count |
| BaselineChecker.ReportedExactlyTheExcess | scripts/check_forbidden_dynamic_attributes.py:182-188 | Each key is reported exactly max(0, current - baseline) times, at the first of its lines |
| BaselineChecker.DecrementingDoesNotHideStaleness | scripts/check_forbidden_dynamic_attributes.py:193-197 | Computed from the decremented counter, the stale set is still the keys whose baseline exceeds the true count in checked or deleted files |
| BaselineChecker.BaselineFile.Run | scripts/check_forbidden_dynamic_attributes.py:139-207 | One invocation: updating rewrites the baseline to the current counts, checking exits 0 iff nothing was added, new or stale, and combining update with a reference is an error |
| BaselineChecker.PassesKeyByKey | scripts/check_forbidden_dynamic_attributes.py:156-207 | A check passes iff, for every key, the baseline is within the reference, the count is within the baseline, and a shortfall occurs only in files neither checked nor deleted |
| BaselineChecker.UpdateThenCheckPasses | scripts/check_forbidden_dynamic_attributes.py:173-207 | A check right after an update on the same paths passes |
| BaselineChecker.ForbiddenCallsOnlyShrink | scripts/check_forbidden_dynamic_attributes.py:156-207 | Along any sequence of commits passing against their predecessors no key under the SDK root ever becomes more frequent |
| Redaction.RedactedPositionByPosition | suricate-agent-server/openhands/agent_server/_secret_redaction.py:25-60 | At every path of every tree: same presence and key, secrets become the marker, everything else keeps its kind, length, keys or scalar |
| Redaction.TextsByPath | suricate-agent-server/openhands/agent_server/_secret_redaction.py:25-60 | Every string below the root, in lists and under any key: ten asterisks if it starts with `gAAAAA` or is non-empty under one of the five credential field names, and otherwise itself |
| Redaction.CredentialsAreWhatChanges | suricate-agent-server/openhands/agent_server/_secret_redaction.py:25-60 | A document is changed iff such a string not yet masked stands below its root, and none does afterwards |
| Redaction.NothingSecretRemains | suricate-agent-server/openhands/agent_server/_secret_redaction.py:37-60 | No dictionary entry or list item of the result, at any depth, is a secret |
| Redaction.ChangesIffSecret | suricate-agent-server/openhands/agent_server/_secret_redaction.py:37-60 | The tree changes iff it held a secret somewhere inside a container |
| Redaction.RedactIsIdempotent | suricate-agent-server/openhands/agent_server/_secret_redaction.py:37-60 | Redacting twice is redacting once |
| RedactionInPlace.RedactInPlace | suricate-agent-server/openhands/agent_server/_secret_redaction.py:37-60 | The recursive slot overwriting turns the object tree into the redacted value, stays a sound tree of the same objects, and returns true iff the value changed |
| RedactedFiles.RedactedFileText | suricate-agent-server/openhands/agent_server/_secret_redaction.py:63-104 | A JSON-lines result is None iff no line holds a secret, and otherwise the concatenation of the lines, each redacted or verbatim; a JSON result is None iff unparsable or unchanged; the exported text is the result, or the original text without one |
| RedactedFiles.RedactedLineReadsBack | suricate-agent-server/openhands/agent_server/_secret_redaction.py:82-95 | Blank and unparsable lines are verbatim; a parsed line reads back as its redacted value and holds no secret |
| RedactedFiles.SplitLinesAreLines | suricate-agent-server/openhands/agent_server/_secret_redaction.py:82 | Splitting keeps every character, and each piece is exactly the first line of what follows |
| RedactedFiles.SplitLinesByCharacter | suricate-agent-server/openhands/agent_server/_secret_redaction.py:82 | By code point: every piece is one line, each but the last is ended by a line-end character, and no "\r\n" is cut in two |
| RedactedFiles.LineStructureKeptIff | suricate-agent-server/openhands/agent_server/_secret_redaction.py:79-96 | The exported text has the exported lines as its lines iff it was not replaced or every parsed line but the last ended in a newline character |
| RedactedFiles.FormFeedIsLost | suricate-agent-server/openhands/agent_server/_secret_redaction.py:82-96 | Two secret-holding documents on lines separated by a form feed are exported glued into one line |
| ExportedDocuments.RedactedDocumentByDocument | suricate-agent-server/openhands/agent_server/_secret_redaction.py:79-96 | A file with one document to a line is redacted document by document: a newline character always ends a line |
| ExportedDocuments.SecretsRedactedIffUnbroken | suricate-agent-server/openhands/agent_server/_secret_redaction.py:79-96 | The exported text of such a file is its exported documents one after the other, and every secret-holding one is exported as json.dumps writes its redacted value iff none of them contains a raw separator other than newline that str.splitlines breaks at |
| ExportedDocuments.SeparatorKeepsSecret | suricate-agent-server/openhands/agent_server/_secret_redaction.py:82-92 | A document with a credential and a raw U+2028 in another string is exported unchanged |
| SkillNames.PatternIffScan | scripts/convert_legacy_skills.py:34-35 | The name pattern, read as a regular expression, is accepted by a one-pass scan and nothing else is |
| SkillNames.ScanMeans | scripts/convert_legacy_skills.py:34-35 | In other words: only lower-case letters, digits and hyphens, none of the hyphens leading, trailing or double |
| SkillWords.NormalizedIsItsWords | scripts/convert_legacy_skills.py:38-49 | For every input, and whatever str.lower does: the result is the non-empty pieces between hyphens and underscores, stripped of all but lower-case letters and digits, joined by single hyphens |
| SkillNames.NormalizedIsEmptyOrInPattern | scripts/convert_legacy_skills.py:38-49 | For every input, and whatever str.lower does, the result is empty or in the pattern |
| SkillNames.FixedIffInPattern | scripts/convert_legacy_skills.py:38-49 | Normalisation leaves a text alone iff it is empty or in the pattern |
| SkillNames.NormalizeIsIdempotent | scripts/convert_legacy_skills.py:38-49 | Normalising twice is normalising once |
| SkillNames.ValidateSkillName | scripts/convert_legacy_skills.py:52-65 | The error list is exactly emptiness alone, or length over 64 and a failed match of the regular expression, in that order |
| SkillWords.ErrorsByCharacter | scripts/convert_legacy_skills.py:52-65 | By character: the list is emptiness alone for the empty name, and else a length error iff over 64 characters, followed by a form error iff the name, one final newline overlooked, is not lower-case letters, digits and single inner hyphens |
| SkillNames.NormalizedFailsOnlyOnLength | scripts/convert_legacy_skills.py:38-65 | The error list of a normalised name never names the pattern: it is emptiness, or the length alone, or nothing |
| SkillNames.AcceptedNameFixedIffNoNewline | scripts/convert_legacy_skills.py:52-65 | A name the validator's pattern accepts is fixed by normalisation iff it does not end in a newline |
| SkillNames.NewlineNameAccepted | scripts/convert_legacy_skills.py:60 | The validator's pattern accepts a name with a final newline, which is not in the AgentSkills pattern |

## Left out

- Wall clocks, `socket.gethostname`, `os.getpid` and `os.kill` are parameters: a real-valued clock reading, a process record, and a function from pid to outcome. Not-a-number and infinite numbers and lone surrogates, in a lease file or an exported document, are not modelled, nor texts on which `json.loads` fails other than by a decoding error.
- Outside interference makes the lease file unreadable or missing; a readable lease forged from outside, and interference with the temporary file, are not modelled.
- Lock acquisition time-outs, deadlock and fairness of the file lock.
- Subprocess creation, signals, pub/sub delivery and UTF-8 decoding: a read is an arbitrary piece of decoded text and a publication is a point where the other reader may run.
- Reader exceptions, failing saves and the error-output event of a bash command.
- Loading the events of a page from their files, and the `order__gt` filter applied to them, which only drop entries from a page.
- Negative page limits, which the bash router rejects; years below 1000 and timestamps in other time zones.
- Profile contents other than id, name and revision; corrupted or hand-edited profile files; case-insensitive file systems; edits of the pointer through the settings endpoint.
- That `uuid4` never repeats a stored id is a hypothesis of the profile properties.
- Deletions and a pointer write lost to a crash in ProfileSeeding: with a deletion a second seed is intended, and a crash between saving and pointing leaves the pointer unset.
- LLM-profile seeding, ciphers, dry-run resolution and skill discovery.
- AST walking, hashing, git access and the JSON text of the baseline: violations per file and the multiset of entries are the input. The discovered SDK files come in any order.
- `json.loads`, `json.dumps` and `str.strip` are parameters of RedactedFiles, with the laws the proofs use stated as predicates; objects are trees, as `json.loads` builds them.
- Case conversion: `str.lower` is a parameter assumed to keep text over lower-case letters, digits and hyphens.
- HTTP wiring, telemetry and configuration.
