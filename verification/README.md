# A verification model of the xtask core

This project models the hard parts of the repository's `xtask` crate in Dafny and proves properties of them.
The outside world appears as explicit state or as arbitrary values: file systems are maps, native commands and
GitHub answer with any outcome, clocks give any reading. A property that is proved for all of these holds in every run.

| files | what they model |
|---|---|
| `Comments`, `CommentGrammar`, `CommentRendering`, `CommentScan`, `CommentCoverage`, `CommentLines`, `ConfigComments` | the comment scanners |
| `SelectionLink`, `Supervision`, `DefaultRoles`, `DefaultFiles` | the proof-tool binder |
| `Publication`, `TagBinding`, `Timestamp`, `Discovery` | the release publication and its queue |
| `Wire`, `Handoff`, `Archive` | the release handoff |
| `Signing`, `SecurityInput`, `NotaryPoll` | the signing session |
| `CiPaths`, `CiPlan`, `CiGate` | the plan of checks and its gate |
| `PackageXml` | the package metadata reader |
| `OwnershipTokens`, `OwnershipTree`, `Ownership`, `OwnershipPlaces` | the ownership policy |
| `Wrappers`, `Collections`, `Characters`, `Limits` | shared definitions |

How the main results are built:

- **Comment scanner.** `Comments.Lexer` is the mutable scanner with its five modes, and its run equals `Comments.CommentLines`.
  `CommentGrammar` is an independent grammar of source text: bare characters, quoted text, raw text with hashes, line
  comments, block comments nested to any depth, and the endings that a cut-off file can have.
  `CommentLines.RenderedLines` says that the scanner reports, in increasing order, exactly the lines on which a
  comment segment without the licence prefix starts. `CommentLines.SourceIsRendered` says that every text is the rendering
  of such segments, so nothing is outside the theorem.
- **Symbolic links.** The reference is the resolver of a POSIX kernel, which never goes back to the root.
  `SelectionLink.WalkSucceedsExactly` gives the exact condition under which the walk succeeds: the resolver finds the path
  and follows no link twice under one spelling. The walk therefore refuses as cyclic some paths without a cycle;
  `SelectionLink.RefusesWithoutCycle` is one.
- **Publication.** `Publication.Github` lets other actors change the releases between any two calls. Every command in
  its log is warranted by the reload and the checks right before it. Without interference and failures, publishing
  succeeds exactly from a recoverable state that the release listing can hold, and a repetition changes nothing. A crash
  leaves a recoverable state exactly if it leaves no half-finished asset, and after any number of attempts that crash
  anywhere a clean one succeeds exactly then (`Publication.PublishAfterCrashes`).
  `Publication.StarterIsNotRecoverable` is a state that the code never repairs, and `Publication.NinetyNineOthers` one in
  which it creates a draft that it then cannot find.
- **Handoff.** Hash injectivity cannot be assumed of a hash with a finite range, so the theorem assumes only that the
  two directories at hand hold no collision.
- **Signing.** Every native command may fail at any time; the session's log fixes what was tried and in which order, and at
  the end the search list and the keychain file are as they were, or the failure to restore or remove them is reported.
- **Ownership.** The visitor saves and restores fields; the reference hands each node the context of its own ancestors.

## Model

| member | source | states |
|---|---|---|
| Comments.CountHashesCounts | xtask/src/comments.rs:33-39 | the number of hashes after a raw prefix is the length of the longest run of hashes there |
| Comments.RawHashesFinds | xtask/src/comments.rs:33-39 | raw text with n hashes opens at a position if and only if `r`, exactly n hashes and a quote stand there |
| Comments.Lexer.Advance | xtask/src/comments.rs:62-70 | takes the next character and keeps the line number and the two previous characters in step with the position |
| Comments.Lexer.Skip | xtask/src/comments.rs:72-76 | advances by a number of characters, or to the end of the text |
| Comments.Lexer.CodeTurn | xtask/src/comments.rs:98-126 | in code, moves to the mode and position the text there asks for, and notes the line of a comment that has no licence prefix |
| Comments.Lexer.TextTurn | xtask/src/comments.rs:128-135 | passes one character of quoted text; an escape takes two, the quote ends the text |
| Comments.Lexer.RawTurn | xtask/src/comments.rs:137-149 | raw text ends only at a quote with its own number of hashes |
| Comments.Lexer.BlockTurn | xtask/src/comments.rs:151-163 | block comments nest; the outermost end returns to code |
| Comments.Lexer.Run | xtask/src/comments.rs:165-182 | from any state, the result is the lines already found and then those of the comments that open ahead, each once |
| Comments.InRust | xtask/src/comments.rs:186-188 | the result is the list of comment lines of the text |
| CommentScan.PassSegment | xtask/src/comments.rs:98-163 | from the start of a well-formed segment the scan arrives at its end in code and reports it exactly if it is a comment without licence prefix |
| CommentScan.BlockInner | xtask/src/comments.rs:151-163 | the content of a block comment, nested to any depth, leaves the depth as it was |
| CommentScan.ScanSegments | xtask/src/comments.rs:165-182 | over a whole rendered text the scan reports exactly the starts of the reported segments, in order |
| CommentRendering.RenderSpelling | xtask/src/comments.rs:84-126 | rendering segments and spelling them position by position agree, in both directions |
| CommentCoverage.EverySourceHasSegments | xtask/src/comments.rs:165-182 | every text can be cut into well-formed segments |
| CommentLines.RenderedLines | xtask/src/comments.rs:165-188 | on every rendering of well-formed segments the result is strictly increasing and holds a line if and only if a comment to be reported starts on it |
| CommentLines.SourceIsRendered | xtask/src/comments.rs:186-188 | every text is the rendering of well-formed segments |
| ConfigComments.HasComment | xtask/src/comments.rs:206-227 | a configuration line has a comment if and only if some `#` stands at its start or after white space and everything before it is unquoted text and closed quotations |
| ConfigComments.OutsideExactly | xtask/src/comments.rs:206-227 | the scan is outside of quotes exactly after texts made of unquoted characters and closed quotations with their escapes |
| SelectionLink.FirstLink | xtask/src/proof_tools.rs:430-463 | the inner loop finds the first prefix of the path that is missing or a link, or that there is none |
| SelectionLink.SelectLink | xtask/src/proof_tools.rs:425-474 | the loop ends within the member bound and gives the walk's links and the platform's canonical place, or the walk's refusal |
| SelectionLink.RedirectResolves | xtask/src/proof_tools.rs:450-466 | rewriting the path at its first link resolves to the same place as following that link, with one hop less |
| SelectionLink.ChaseResolves | xtask/src/proof_tools.rs:425-474 | rewriting and restarting finds a path if and only if the reference resolver does, at the same place |
| SelectionLink.ChaseIsTrace | xtask/src/proof_tools.rs:425-474 | rewriting meets exactly the links that the reference resolver follows, in order, under the same spelling |
| SelectionLink.WalkIsSound | xtask/src/proof_tools.rs:425-474 | after success the recorded links are at most the bound, pairwise distinct, and applied in order lead to a link-free path at the place the reference resolver finds |
| SelectionLink.WalkSucceedsExactly | xtask/src/proof_tools.rs:425-474 | the walk succeeds if and only if the reference resolver finds the path within the bound and follows no link twice under one spelling |
| SelectionLink.SelectionAgrees | xtask/src/proof_tools.rs:425-474 | the canonical place that the platform gives is the place the recorded links lead to |
| SelectionLink.RefusesWithoutCycle | xtask/src/proof_tools.rs:439-449 | a path that meets one link twice is refused as cyclic although the reference resolver finds it |
| Supervision.CaptureReasons | xtask/src/proof_tools.rs:231-256 | the reasons are collected in the order time, exit, output |
| Supervision.ReasonsOfIllness | xtask/src/proof_tools.rs:231-256 | there is no reason if and only if the poll is in time, its outputs are in bounds and the child runs or succeeded; each of the five reasons has its own cause |
| Supervision.CaptureObserved | xtask/src/proof_tools.rs:258-335 | if some poll shows the child no longer running well, the loop ends at the first such poll and settles; all that was done to the child is in the log |
| Supervision.LateIsNotRunning | xtask/src/proof_tools.rs:150-156 | a poll past the time limit is such a poll, and a strictly advancing clock reaches one after at most as many polls as the limit has milliseconds |
| Supervision.ChildIsReaped | xtask/src/proof_tools.rs:258-335 | the child is waited for exactly once if no exit was seen, and killed at most once and only then |
| Supervision.OkMeansSuccess | xtask/src/proof_tools.rs:258-335 | a successful capture had a success status, time under the limit and both outputs in bounds |
| DefaultRoles.MaskHas | xtask/src/proof_tools/native_default.rs:246-303 | a role's bit is in the 32-bit mask if and only if the role was taken |
| DefaultRoles.IncludeIsDistinct | xtask/src/proof_tools/native_default.rs:296-303 | a role is admitted if and only if it is the support role or was not taken before, and the new mask stands for the roles with it |
| DefaultRoles.TakeRole | xtask/src/proof_tools/native_default.rs:296-303 | the mask operation refuses exactly a repeated required role |
| DefaultRoles.AdmitsAllRequired | xtask/src/proof_tools/native_default.rs:305-307 | the mask is complete if and only if every required role was taken |
| DefaultFiles.AdmissibleNext | xtask/src/proof_tools.rs:991-1016 | checking role and budget step by step admits exactly the lists of readable files with distinct roles within the total bounds |
| DefaultFiles.Snapshot.Include | xtask/src/proof_tools.rs:991-1016 | a file is taken in with its role and its bytes, or nothing changes |
| DefaultFiles.IncludeSupport | xtask/src/proof_tools.rs:1018-1052 | a support directory is taken in if and only if every entry is registered and everything stays within the budget |
| DefaultFiles.IncludeRequired | xtask/src/proof_tools.rs:1129-1131 | the required files are taken in, in order, if and only if they are admissible together |
| DefaultFiles.RecordedOrAbsent | xtask/src/proof_tools.rs:980-989 | every directory asked for is recorded with its identity or absent, and never both |
| DefaultFiles.ScanFiles | xtask/src/proof_tools.rs:1117-1168 | the scan succeeds if and only if all files are admissible together, fill every required role, and every needed directory exists; its inventory lists files and directories by path, and the optional directories that are absent |
| DefaultFiles.InventoryIsExact | xtask/src/proof_tools.rs:1117-1168 | a successful inventory counts its files, sums their sizes within the budget, is sorted by path and fills each required role exactly once |
| DefaultFiles.ScanOrderIsFree | xtask/src/proof_tools.rs:1018-1052 | whether a scan succeeds does not depend on the order in which directories list their entries |
| DefaultFiles.ListingOrderIsFree | xtask/src/proof_tools.rs:955-977 | inventories of the same files in two orders are equal |
| DefaultFiles.TwoScansAgree | xtask/src/proof_tools.rs:959-1168 | two scans of one file system, whose directories list their entries in any two orders, both fail or give equal inventories |
| Publication.MissingAssets | xtask/src/release_orchestration.rs:1530-1553 | succeeds if and only if every asset is a correct upload under a name of its own, and gives exactly the expected files without an asset |
| Publication.CompleteIsOneToOne | xtask/src/release_orchestration.rs:1530-1553 | nothing is missing if and only if assets and expected files match one to one by name and digest |
| Publication.MatchingInventory | xtask/src/release_orchestration.rs:1449-1466 | in a listing of all releases the only match of the tag is the release of this publication |
| Publication.ReloadRelease | xtask/src/release_orchestration.rs:1468-1480 | a reload gives a release of the same id and of the tag, in a quiet world the current one, and changes nothing |
| Publication.ReleaseForTag | xtask/src/release_orchestration.rs:1449-1466 | finds the one release of the tag in a full listing |
| Publication.UploadKeepsSound | xtask/src/release_orchestration.rs:1563-1581 | uploading any part of the missing files as whole assets leaves a draft that can be resumed |
| Publication.UploadCompletes | xtask/src/release_orchestration.rs:1570-1588 | uploading all missing files completes the assets |
| Publication.PartUploadStaysSound | xtask/src/release_orchestration.rs:1541-1580 | after an upload that may have failed halfway a draft can be resumed if and only if none of its assets is half finished |
| Publication.UploadMissing | xtask/src/release_orchestration.rs:1570-1581 | uploads only what the last reload lacks, after the bytes were checked |
| Publication.PublishComplete | xtask/src/release_orchestration.rs:1582-1604 | publishes only a reloaded draft that is complete, after tag, ancestry and bytes were checked on this attempt |
| Publication.ResumePublication | xtask/src/release_orchestration.rs:1555-1608 | every command in any run is warranted; without interference a draft with any correct part of the assets ends published and complete, and a release that is not recoverable is refused and left alone |
| Publication.CreateRelease | xtask/src/release_orchestration.rs:1482-1514 | a draft is created only after a bounded listing showed no release of the tag; it gets exactly the expected files and is then completed and published under the same guards |
| Publication.VerifyPublished | xtask/src/release_orchestration.rs:1610-1630 | success means that a published, complete release of this tag was read and the tag binding checked after it; nothing is changed |
| Publication.PublishRelease | xtask/src/release_orchestration.rs:1421-1446 | in every run all commands are warranted; without interference a crash leaves a recoverable state if and only if it leaves no half-finished asset, and without failures publishing succeeds if and only if the state is recoverable and the listing can hold the release; then exactly the missing files were sent, and a refused or published release is left as it is |
| Publication.PublishAgain | xtask/src/release_orchestration.rs:1421-1446 | repeating the publication never repairs a state in which it was refused: any number of attempts succeeds if and only if the first one does |
| Publication.PublishAfterCrashes | xtask/src/release_orchestration.rs:1421-1446 | from a recoverable state that the listing can hold, after any number of attempts that may fail at any command, an attempt without failures succeeds if and only if no asset is half finished, and otherwise changes nothing |
| Publication.StarterIsNotRecoverable | xtask/src/release_orchestration.rs:1541-1547 | a draft whose only upload stopped as a starter asset is not recoverable |
| Publication.NinetyNineOthers | xtask/src/release_orchestration.rs:1449-1466 | beside 99 other releases a listing admits creating a draft, and no listing admits the draft afterwards |
| Publication.FinishedIsComplete | xtask/src/release_orchestration.rs:1555-1608 | a recoverable draft with its missing files added is complete |
| TagBinding.Peel | xtask/src/release_orchestration.rs:907-948 | a tag is bound if and only if peeling annotated tags reaches the source commit within four objects, each hash being well formed |
| Timestamp.YearDaysClosed | xtask/src/release_orchestration.rs:441-500 | the sum over the years equals the closed form with Gregorian leap days |
| Timestamp.SecondsClosed | xtask/src/release_orchestration.rs:441-500 | for the years 1970 to 9999 the saturating count never saturates and equals the closed form |
| Timestamp.SecondsCount | xtask/src/release_orchestration.rs:441-500 | the next second of the calendar has the next number |
| Timestamp.EverySecondIsCounted | xtask/src/release_orchestration.rs:441-500 | every number up to the last second of 9999 is the count of a valid instant |
| Timestamp.FormatParses | xtask/src/release_orchestration.rs:441-500 | the text of a valid instant is accepted with its own number |
| Timestamp.AcceptedIsFormatted | xtask/src/release_orchestration.rs:441-500 | nothing else is accepted |
| Timestamp.TextOrderIsTimeOrder | xtask/src/release_orchestration.rs:441-500 | accepted texts are ordered as their times are |
| Timestamp.TimestampIsBijective | xtask/src/release_orchestration.rs:441-500 | every second of the range has exactly one accepted text |
| Discovery.GridIsPartitioned | xtask/src/release_orchestration.rs:595-627 | at each minute of the five-minute grid exactly one cadence fires, and at no other minute any |
| Discovery.VisitedOnGrid | xtask/src/release_orchestration.rs:621-627 | which grid minutes visit a run depends on its age: all under an hour, every fifteen under six hours, then hourly |
| Discovery.VisitedInTime | xtask/src/release_orchestration.rs:595-627 | from any moment the next visit comes within the period of the run's age |
| Discovery.Discover | xtask/src/release_orchestration.rs:630-701 | the discovery succeeds if and only if event, schedule and named run are consistent, the list is bounded and every run is answered, and gives the plan of included and late runs |
| Discovery.PlanMembers | xtask/src/release_orchestration.rs:660-700 | the plan holds a run if and only if it is included, and an expired identity if and only if a run with it is late |
| Discovery.NeverBoth | xtask/src/release_orchestration.rs:660-700 | no run is both included and expired |
| Discovery.IncludedIsVisited | xtask/src/release_orchestration.rs:502-508 | an unfinished live run is included by the firing cadence if and only if its age asks for a visit now |
| Discovery.WaitingRunIsPlanned | xtask/src/release_orchestration.rs:595-701 | a live run that keeps waiting is taken up by the discovery of some firing schedule within the period of its age, if the lists it is found in stay within the bound and every question about their runs is answered |
| Wire.ReceiptsAreExact | xtask/src/release_queue.rs:258-391 | reading and writing receipts are inverse in both directions between valid receipts and accepted records, for both schemas |
| Wire.ManifestsAreExact | xtask/src/release_queue.rs:571-670 | reading and writing manifests, with the records of their receipts, are inverse in both directions between valid manifests and accepted records |
| Wire.PackagesAreClaims | xtask/src/release_queue.rs:572-606 | in an accepted schema 2 manifest the packages and the claims of the receipts are the same map from target to digest |
| Handoff.Inventory | xtask/src/release_queue.rs:697-725 | an inventory is accepted if and only if it holds exactly the expected names with the expected kinds, in any listing order |
| Handoff.CreatedIsAccepted | xtask/src/release_queue.rs:789-899 | a handoff just created is accepted and gives back the same manifest |
| Handoff.AcceptedExactly | xtask/src/release_queue.rs:848-899 | a later state is accepted under the same manifest if and only if every archive, package, checksum and receipt is the recorded one and no other file is present |
| Archive.TrailerIsZero | xtask/src/release_queue.rs:1108-1122 | reading the trailer in chunks accepts exactly trailers of zeros |
| Archive.ReadEntry | xtask/src/release_queue.rs:1069-1107 | an entry is accepted exactly if it fits the inventory, is new and keeps the total in bounds |
| Archive.ReadEntries | xtask/src/release_queue.rs:1066-1107 | the loop accepts exactly the entry lists that are good as a whole, and keeps the bytes of the binary |
| Archive.ExtractArchive | xtask/src/release_queue.rs:1058-1128 | accepts exactly the bounded archives with zero trailer whose entries are the inventory with the right kinds and sizes |
| Archive.PayloadIsBinary | xtask/src/release_queue.rs:1093-1107 | what is returned is the content of the one binary entry |
| Archive.OrderIsFree | xtask/src/release_queue.rs:1058-1128 | acceptance does not depend on the order of the entries |
| Archive.PayloadPermuted | xtask/src/release_queue.rs:1058-1128 | the returned bytes do not depend on the order of the entries |
| Archive.InventoryIsSafe | xtask/src/release_queue.rs:1028-1056 | every expected name is a safe relative path |
| Signing.RunPlan | xtask/src/release.rs:560-641 | forward work follows its plan and stops at the first failure |
| Signing.SigningKeychain.Cleanup | xtask/src/release.rs:648-679 | a touched keychain has its captured search list restored and its file looked for, each whatever became of the other; the file is deleted exactly if it was seen, and is gone afterwards unless looking or deleting failed; an untouched keychain is left alone |
| Signing.SigningKeychain.Drop | xtask/src/release.rs:687-691 | an unfinished keychain is cleaned up when it is dropped, a finished one is left alone |
| Signing.SigningKeychain.Finish | xtask/src/release.rs:681-683 | finishing cleans up once |
| Signing.KeychainSession | xtask/src/release.rs:874-894 | for every failure pattern cleanup runs at most once and the search list is the captured one unless restoring failed |
| Signing.TryAll | xtask/src/release.rs:442-466 | every private file is removed or reported, whatever failed before |
| Signing.WithSigning | xtask/src/release.rs:874-894 | the whole session is ordered as files, capture, work, cleanup, closing, and its outcome names the first failure and all cleanup failures; at the end the captured search list is in force and the keychain file gone, unless restoring or removing failed |
| Signing.RestoreFailureIsReported | xtask/src/release.rs:648-679 | if the search list could not be restored, the outcome reports it |
| Signing.KeychainFailureIsReported | xtask/src/release.rs:659-676 | if looking for the keychain file or deleting it failed, the outcome reports it |
| Signing.SucceedsWhenAllOk | xtask/src/release.rs:89-101 | success is reported if and only if every command of the session succeeded, cleanup included |
| SecurityInput.SecurityInput | xtask/src/release.rs:310-340 | accepts exactly the bounded lists of valid tokens whose line fits |
| SecurityInput.LineIsRead | xtask/src/release.rs:310-340 | a quoted-word reader gives the arguments back |
| SecurityInput.LineIsInjective | xtask/src/release.rs:310-340 | different argument lists have different lines |
| SecurityInput.LineIsOneLine | xtask/src/release.rs:310-340 | the output is one line of at most 4095 bytes whose only newline is last |
| NotaryPoll.Session.Initial | xtask/src/release.rs:1524-1546 | asks one to five times, again only while the answer is pending and before 120 seconds, and gives the last answer; between two queries it pauses 30 seconds or what the limit leaves |
| CiPlan.Classify | xtask/src/ci.rs:490-544 | the loop with its early return gives the plan of the changed paths |
| CiPlan.SelectedByOne | xtask/src/ci.rs:490-544 | a check is selected if and only if it is the documentation check or one of the paths adds it |
| CiPlan.OrderIsFree | xtask/src/ci.rs:490-544 | order and repetition of the paths do not matter |
| CiPlan.ConcatenationIsUnion | xtask/src/ci.rs:490-544 | paths together select the union, and the full plan absorbs every other |
| CiPlan.ClassifiedExactlyAccepted | xtask/src/ci.rs:463-486 | the classified plans are exactly the plans that the decoder's scope policy accepts |
| CiGate.WrittenExactly | xtask/src/ci.rs:436-440 | a record is the written form of a plan if and only if it has the schema, one flag for each check and nothing else |
| CiGate.Json | xtask/src/ci.rs:436-440 | builds the written form |
| CiGate.Decode | xtask/src/ci.rs:442-487 | succeeds exactly on the written forms of accepted plans and gives that plan back |
| CiGate.ClassifiedPlansAreRead | xtask/src/ci.rs:436-487 | every classified plan survives writing and reading |
| CiGate.VerifyGate | xtask/src/ci.rs:1178-1236 | the gate passes if and only if there is a result for exactly the workflow's jobs, selected ones succeeded, others succeeded or were skipped, and the `changes` job put out this very plan |
| PackageXml.ReadTag | xtask/src/macos_package.rs:283-320 | the attribute loop ends and gives the attributes or the first refusal |
| PackageXml.SpelledIsRead | xtask/src/macos_package.rs:280-324 | every layout of distinct attributes is read as their map, and every repeated name is refused |
| PackageXml.ReadIsSpelled | xtask/src/macos_package.rs:280-324 | nothing is read but layouts of distinct attributes |
| PackageXml.ValuesAreSpelled | xtask/src/macos_package.rs:313-318 | the map holds exactly the spelled names, each with its own value |
| PackageXml.Attributes | xtask/src/macos_package.rs:280-324 | collects the attributes of every wanted element, in order, up to the first refusal |
| PackageXml.DocumentIsSplit | xtask/src/macos_package.rs:264-278 | a rendered document without declarations and entities is taken apart into its own elements |
| PackageXml.Single | xtask/src/macos_package.rs:438-447 | gives the attributes of the one wanted element, or refuses |
| PackageXml.DescribedIsRead | xtask/src/macos_package.rs:280-447 | reading a rendered document gives back the attributes of its one wanted element, whatever the layout |
| PackageXml.ReadIsDescribed | xtask/src/macos_package.rs:280-447 | every accepted text is such a document |
| OwnershipTree.AccountingImportsAreRoles | xtask/src/ownership.rs:28-45 | an import is accepted if and only if its path parts come before any group, no group is empty, and it brings in nothing but registered names of the whole namespace |
| OwnershipTree.EarlyGroupIsRefused | xtask/src/ownership.rs:28-45 | an import of one registered name is refused when it opens its group before the namespace is complete |
| OwnershipTokens.FollowsNext | xtask/src/ownership.rs:416-459 | how the automaton's flag follows the pattern of an identifier with only colons after it |
| Ownership.Visitor.Tokens | xtask/src/ownership.rs:416-459 | the automaton over macro tokens finds what the patterns describe, at every group depth |
| Ownership.Visitor.VisitFunction | xtask/src/ownership.rs:484-501 | a function's findings are those of its own context, and all saved fields are restored |
| Ownership.Visitor.NestedCallable | xtask/src/ownership.rs:247-254 | below an associated function nothing may create commands, and all saved fields are restored |
| Ownership.Visitor.VisitModule | xtask/src/ownership.rs:564-579 | below a module named `raw` the raw context holds, and all saved fields are restored |
| Ownership.Visitor.VisitAll | xtask/src/ownership.rs:462-724 | the visitor finds exactly what a recursion finds that hands each node the context of its ancestors |
| Ownership.Check | xtask/src/ownership.rs:727-738 | a file's findings are those of the recursion from the outermost context |
| OwnershipPlaces.FoundExactlyAtPlaces | xtask/src/ownership.rs:462-724 | a file has a finding if and only if some node has it in the context of its own ancestors |
| OwnershipPlaces.ContextDescribes | xtask/src/ownership.rs:484-579 | the context flags say exactly what encloses a node |
| OwnershipPlaces.CommandsBelongToTheFactory | xtask/src/ownership.rs:484-509 | in the command factory's file a node may create commands if and only if the innermost function around it is the private top-level factory or its test |

## Left out

- Chat ledger, job state, terminal decoder and wire merging: their sources are not part of this model.
- Integer widths of the scanners' line and depth counters: unbounded numbers stand for the saturating ones, which no text of representable length can saturate.
- Unicode classification: `is_alphanumeric` and `is_lowercase` are arbitrary predicates; white space is the `White_Space` list.
- ConfigComments.HasComment: one line at a time; the exemptions for generated files and pinned actions are left out, because they are field tests.
- SelectionLink: paths are component lists on a static file system; a trailing slash and empty components are not modelled.
- Supervision.CaptureObserved: assumes that some poll shows the child no longer running well, because the loop does not end otherwise.
- DefaultFiles.ScanFiles: the identity re-check between reservation and capture, the canonical form of directory paths and the reading of object headers are left out; a file shows which kinds it is admitted as.
- Publication.PublishRelease: the expected files are the same for the whole run and have distinct names, and the tag, ancestry and bytes checks are arbitrary answers.
- TagBinding.Peel: the protection rulesets of the tag are left out, because they are field-by-field tests.
- Discovery.Discover: the trusted completion marker and the artifact listing of a run are given with the run.
- Wire: the source record is a validated value; JSON text and version syntax are not modelled.
- Handoff.AcceptedExactly: SHA-256 and the JSON codec are parameters; a written manifest is read back as itself.
- Archive.ExtractArchive: gzip and tar decoding are left out; an archive is its decoded entries, its trailer and its length.
- Signing.WithSigning: the contents of commands and secrets are left out; each step only succeeds or fails.
- NotaryPoll.Session.Initial: the clock counts from the creation of the session, and runs at least as fast as the pauses.
- CiGate: JSON text is not modelled; an object is a map, and a job's plan output is there or cannot be parsed.
- Ownership.Check: attributes, types, and the findings at declarations of capability types come with the tree, because they do not depend on the context; nesting fits the machine's counters.
- Process spawning, Docker, `gh`, `codesign`, `notarytool`, environment reading, temporary files and threads: outcomes are arbitrary.
- Version records of the proof tools, GraphQL identity checks, package payload walking and Windows path shapes: long conjunctions that are settled by reading a branch.
