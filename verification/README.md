# Verified models of the Selene collaboration and agent protocols

This project models, in Dafny 4.11, the parts of the repository that keep state or move untrusted data, and proves what
callers rely on. `dafny verify dfyconfig.toml` checks all of it.

- **Bounded JSON codec** (`Utf16`, `JsonStrings`, `JsonNumbers`, `JsonSyntax`, `JsonDescent`, `JsonCompleteness`,
  `JsonParser`, `JsonGraphs`, `JsonSnapshot`, `JsonRoundTrip`). The iterative frame-stack parser refines a recursive-descent
  reader, the reader accepts exactly the grammar within the budgets, and the recursive snapshot copies the object graphs in
  which nothing is met twice and charges what it would print. Text is a sequence of UTF-16 code units.
- **Protocol session** (`AgentSession`). The request lifecycle and its two bounded memories over every run.
- **Diff and merge** (`SortedKeys`, `Documents`, `Merge`, `Pointers`, `InheritedNames`, `History`, `MergePlans`, `KeptChanges`).
  Diff, apply and merge laws, first on paths, then on pointer texts, then for the part of a diff that a plan keeps; and when
  the walk of the code, which also sees inherited names, is that diff.
- **Review mutations** (`ReviewThreads`, `ReviewScopes`, `ReviewFingerprints`, `ReviewRequests`). Exactly-once application, which
  threads share their receipts, what a fingerprint identifies, and the bridge between requests and fingerprints.
- **In-memory repository** (`OrderedMaps`, `MapSwaps`, `RepositoryState`, `RepositoryIntegrity`, `RepositorySnapshots`,
  `Repository`, `RepositoryRuns`, `DesignRevisions`, `DesignChanges`, `AwaitedCalls`, `Overlaps`). JavaScript maps keep their
  insertion order. Each operation is a step on the whole state; the two that await are two steps, and runs interleave the
  halves with everything else. The class `InMemoryRepository` performs the steps on mutable maps.
- **Design baseline** (`DesignBudgets`, `DesignBaseline`, `DesignExamples`). The core machine with the budgets of its boundary,
  and the proof that repository commits follow it.
- **Canonical data and owned copies** (`CanonicalText`, `Heaps`, `CanonicalData`, `OwnedData`, `Ownership`, `OwnedTrees`).
  Traversals of object graphs that may share parts or be cyclic, against the finite value a graph unfolds to.
- **Protocols** (`Idempotency`, `AccessProtocol`, `BrowserLocal`, `BrowserProvider`). State machines in which one SQL
  statement, or the code between two awaits, is one step and callers interleave freely.

Conventions. Number conversion is a pair `NumberCodec(show, lex)`, inverse to each other; a number is an opaque code, and -0
is 0. What a record carries besides the fields an operation looks at is its `body`; the verdict of the field-by-field
validators on an operation's input is a parameter (`fieldsValid`, `Checks`). The boundary copy, which also drops the key
`length` from every record, is part of `diffRevisions`, `planRevisionMerge`, `replaceProject` and the review fingerprint; the
records given to the repository's other operations, and the contents in the laws of `Documents`, `Merge`, `MergePlans` and
`KeptChanges`, are such copies already, and so are the states and commands of `DesignBaseline`. `hide` statements only keep
definitions out of a proof's context.

Where the code and the promise differ, the code was followed. A final unpaired high surrogate passes the surrogate check
(`QuotedBytesExactly`, `UnpairedUndercharged`); the boundary copy skips the key `length` of any record, so a record can change,
a cycle through that key is accepted, and two records that differ only there are equal (`CopyIsUnfolding`, `OnlyLength`,
`EqualUpToLength`); a diff also sees inherited names, so contents that differ can have an empty diff or none (`WalkIsDiff`,
`WalkEmpty`, `InheritedExamples`); a merge plan can be free of conflicts and still not apply (`PlanLaw`,
`ToleratedOverlapFails`); a combined commit with a used baseline id is refused after its revision is stored
(`RefusedUnchanged`, `TornExample`); an append or commit whose project is deleted, whose id is taken or whose predecessor is
succeeded while it waits stores its revision all the same (`SoundExactly`, `RunNumbered`, `DeletedBetween`, `SameIdTwice`,
`SequenceTwice`), which cannot happen to callers that await their calls (`AwaitedSound`, `AwaitedUpToDate`); a snapshot with
colliding reaction or approval keys, or with a key `length` in a record, is imported but not exported as it was (`ReplaceLaw`);
the core baseline machine refuses a valid mutation once the state is full (`AppliedToDescribed`, `SameChangeRefused`); the
retry of a review mutation can be refused for a time that its fingerprint ignores (`FingerprintOfRetry`, `LongTimeRefused`);
review threads whose identifiers hold colons can share their receipts (`SharedExactly`, `SharedAmongIdentifiers`,
`ScopesCollide`); a direct `acceptHello` skips the duplicate check (`DirectHello`); and two processes may both run an idempotent
operation (`QuietExactly`, `QuietRunExactly`, `TwoProcessesOverlap`). Each has its exact condition.

## Model

| member | source | states |
|---|---|---|
| `Utf16.Utf8ByteLengthAtMost` | packages/agent-sdk/src/index.ts:205-214 | The counter gives the exact UTF-8 length of the string while it is within the limit, and one more than the limit otherwise |
| `Utf16.TruncateUtf8` | packages/agent-sdk/src/index.ts:181-192 | The result is a prefix that splits no surrogate pair and fits the limit, and no longer such prefix fits |
| `Utf16.IsWellFormedUnicode` | packages/agent-sdk/src/index.ts:597-607 | Accepts exactly the strings without an unpaired surrogate, plus those whose only fault is a final unpaired high surrogate |
| `Utf16.WellFormedExactly` | packages/agent-sdk/src/index.ts:597-607 | The two descriptions of that acceptance agree: paired everywhere, or paired but for a last high surrogate |
| `JsonStrings.JsonStringBytesAtMost` | packages/agent-sdk/src/index.ts:150-179 | Charges the escaped and quoted size of a string, cut off one above the limit |
| `JsonStrings.QuotedBytesExactly` | packages/agent-sdk/src/index.ts:150-179 | That charge is the UTF-8 length of the quoted text, 3 bytes short exactly when the string ends in an unpaired high surrogate |
| `JsonStrings.DecodeEscape` | packages/agent-sdk/src/index.ts:534-557 | Decoding a string token undoes quoting, for every string |
| `JsonStrings.ScanDecodable` | packages/agent-sdk/src/index.ts:534-557 | The scan for the closing quote stops exactly at the end of a well-formed string body |
| `JsonNumbers.LexExtend` | packages/agent-sdk/src/index.ts:566-577 | The number expression takes the longest token: text that cannot continue a number never changes the match |
| `JsonNumbers.LexSound` | packages/agent-sdk/src/index.ts:566-577 | Whatever the number expression matches is itself a whole token |
| `JsonParser.BoundedJsonParser.Space` | packages/agent-sdk/src/index.ts:584-586 | Skips exactly the leading white space |
| `JsonParser.BoundedJsonParser.Take` | packages/agent-sdk/src/index.ts:588-594 | Takes one expected character with the space around it, or only skips space |
| `JsonParser.BoundedJsonParser.ScanQuoted` | packages/agent-sdk/src/index.ts:534-557 | Finds the closing quote where the scanning function does, or fails where it does |
| `JsonParser.BoundedJsonParser.ReadQuoted` | packages/agent-sdk/src/index.ts:534-557 | Reads a string token with the value and the budget errors of the recursive reader |
| `JsonParser.BoundedJsonParser.Literal` | packages/agent-sdk/src/index.ts:559-564 | Reads one of the three words or fails |
| `JsonParser.BoundedJsonParser.Number` | packages/agent-sdk/src/index.ts:566-577 | Reads a number token within its character budget |
| `JsonParser.BoundedJsonParser.Attach` | packages/agent-sdk/src/index.ts:506-532 | Attaching a value to the innermost frame keeps what the rest of the input will answer, and fails exactly when that answer is the same failure |
| `JsonParser.BoundedJsonParser.CloseFrame` | packages/agent-sdk/src/index.ts:500-504 | Closing a frame hands its value to the frame around it without changing the eventual answer |
| `JsonParser.BoundedJsonParser.ReadAndAttachValue` | packages/agent-sdk/src/index.ts:467-504 | Opening an object or array, or reading a scalar, keeps the eventual answer |
| `JsonParser.BoundedJsonParser.ObjectStep` | packages/agent-sdk/src/index.ts:433-455 | Each step in one of the four object states keeps the eventual answer |
| `JsonParser.BoundedJsonParser.ArrayStep` | packages/agent-sdk/src/index.ts:457-465 | Each step in one of the two array states keeps the eventual answer |
| `JsonParser.BoundedJsonParser.Parse` | packages/agent-sdk/src/index.ts:413-432 | The frame-stack machine answers every text, with value or error, as the recursive-descent reader does, and ends because it consumes input |
| `JsonDescent.ValueSound` | packages/agent-sdk/src/index.ts:467-481 | A value the reader accepts has a concrete syntax tree of exactly the text it consumed, within every budget |
| `JsonDescent.ItemsSound` | packages/agent-sdk/src/index.ts:457-465 | The same for what stands inside an array, trailing comma included |
| `JsonDescent.MembersSound` | packages/agent-sdk/src/index.ts:433-455 | The same for what stands inside an object: no duplicate and no dangerous key |
| `JsonCompleteness.ReaderComplete` | packages/agent-sdk/src/index.ts:392-595 | Every text of the grammar within the budgets is read, to the value its syntax tree stands for |
| `JsonCompleteness.ReaderMeetsGrammar` | packages/agent-sdk/src/index.ts:392-595 | A text is accepted with a value if and only if RFC 8259 sections 2 to 7, one optional trailing comma added and duplicate and dangerous keys removed, gives it that value within depth, value, array, string and number budgets |
| `JsonGraphs.UnfoldsUnique` | packages/agent-sdk/src/index.ts:626-714 | An object graph unfolds to at most one JSON tree |
| `JsonGraphs.CyclesDoNotUnfold` | packages/agent-sdk/src/index.ts:656-657 | No object on a cycle unfolds to anything |
| `JsonSnapshot.Snapshot.Copy` | packages/agent-sdk/src/index.ts:620-714 | The recursive copy succeeds exactly when the graph unfolds to a tree that still fits every budget, and no object below is met twice or was met before; it then charges exactly the tree's count and bytes and has seen exactly the objects below |
| `JsonSnapshot.Snapshot.CopyObject` | packages/agent-sdk/src/index.ts:652-714 | The same for an object: refused past the depth, when seen, when exotic or with too many properties, else its items or members decide |
| `JsonSnapshot.Snapshot.CopyItems` | packages/agent-sdk/src/index.ts:670-689 | The array loop, comma by comma, each item against what the items before it have spent and met |
| `JsonSnapshot.Snapshot.CopyMembers` | packages/agent-sdk/src/index.ts:690-713 | The object loop, key by key, in property order |
| `JsonSnapshot.Snapshot.CopyMember` | packages/agent-sdk/src/index.ts:693-711 | One member: the key is checked and charged with its colon and comma, then the value is copied |
| `JsonSnapshot.SnapshotJsonValue` | packages/agent-sdk/src/index.ts:610-716 | A value is accepted exactly when its graph unfolds to a tree within the budgets and no object is met twice; the snapshot is that tree, and the final byte counter is its charge |
| `JsonSnapshot.CyclicRefused` | packages/agent-sdk/src/index.ts:656-657 | A cyclic value has no snapshot |
| `JsonRoundTrip.SnapshotChargesPrintedBytes` | packages/agent-sdk/src/index.ts:610-716 | The byte counter is the UTF-8 length of the compact text, less 3 per string or key that ends in an unpaired high surrogate: equal if and only if there is none |
| `JsonRoundTrip.BudgetsCoincide` | packages/agent-sdk/src/index.ts:392-716 | The parser's limits on a value's compact text and the snapshot's limits on the value coincide, but for the parser's surrogate check |
| `JsonRoundTrip.PrintThenParse` | packages/agent-sdk/src/index.ts:392-716 | The compact text of an accepted value parses back to the value under the same limits if and only if every string passes the surrogate check |
| `JsonRoundTrip.UnpairedUndercharged` | packages/agent-sdk/src/index.ts:150-179 | A concrete string whose charge is 5 bytes and whose text is 8 |
| `JsonRoundTrip.UnpairedNotReadBack` | packages/agent-sdk/src/index.ts:534-557 | A concrete string the snapshot accepts and the parser refuses |
| `AgentSession.AgentProtocolSession.AcceptHelloEnvelope` | packages/agent-sdk/src/index.ts:914-921 | `acceptHello`: the new session state, or nothing when refused |
| `AgentSession.AgentProtocolSession.BeginRequest` | packages/agent-sdk/src/index.ts:938-947 | Starts a request unless closed, not negotiated, full, in flight or remembered as retired |
| `AgentSession.AgentProtocolSession.Cancelled` | packages/agent-sdk/src/index.ts:950-955 | `cancelRequest`: only an active request becomes cancelling |
| `AgentSession.AgentProtocolSession.AcceptIncoming` | packages/agent-sdk/src/index.ts:958-987 | Each inbound frame changes the session as its step says, or is refused and changes nothing |
| `AgentSession.AgentProtocolSession.RetireRequest` | packages/agent-sdk/src/index.ts:999-1002 | A retired request leaves the in-flight map and enters the bounded memory |
| `AgentSession.AgentProtocolSession.TrackMessageId` | packages/agent-sdk/src/index.ts:1004-1012 | The bounded memory drops its oldest id beyond 1024 |
| `AgentSession.RunKeeps` | packages/agent-sdk/src/index.ts:958-1012 | In every run that receives hello through `acceptIncoming`, in-flight and retired ids are disjoint and both memories are exactly the last 1024 logged ids, set and order alike |
| `AgentSession.NothingRepeatsSoon` | packages/agent-sdk/src/index.ts:938-1012 | A retired id restarts only after 1024 further retirements, and an accepted message id differs from the 1024 accepted before it |
| `AgentSession.NeverCompleted` | packages/agent-sdk/src/index.ts:958-987 | What is not active can only be made active by beginning it, so no run completes it before that |
| `AgentSession.CancelledNeverCompletes` | packages/agent-sdk/src/index.ts:950-1012 | A cancelled request never yields 'completed', and cannot be begun again, until more than 1024 requests have been retired since, whatever is attempted in between |
| `AgentSession.DirectHello` | packages/agent-sdk/src/index.ts:914-921 | Called directly, `acceptHello` keeps the message memory exact if and only if its id was not remembered |
| `SortedKeys.SortKeys` | packages/collaboration/src/history.ts:111 | Lists the keys of an object in ascending code-unit order, each once |
| `SortedKeys.SortedUnique` | packages/collaboration/src/history.ts:111 | There is only one such list |
| `Documents.DiffThenApply` | packages/collaboration/src/history.ts:108-126 | Applying the diff of two contents to the first gives the second |
| `Documents.DiffEmpty` | packages/collaboration/src/history.ts:108-126 | The diff is empty exactly when the contents are equal |
| `Documents.DiffSeparate` | packages/collaboration/src/history.ts:108-126 | No path of a diff is a prefix of another |
| `Merge.MergeLaw` | packages/collaboration/src/history.ts:182-214 | Two diffs of one base put on top of each other's side apply both ways to one result if and only if overlapping edits coincide in path and outcome |
| `Merge.LookupApply` | packages/collaboration/src/history.ts:182-214 | Applying separate edits leaves each edit's outcome at its path and everything apart untouched |
| `Pointers.PointerRoundTrip` | packages/collaboration/src/history.ts:90-92 | A pointer (RFC 6901 section 3) reads back to the path it was made of |
| `Pointers.TokenInjective` | packages/collaboration/src/history.ts:90-92 | Two keys with one token are one key |
| `Pointers.OverlapIsPrefix` | packages/collaboration/src/history.ts:177-179 | The string test for overlap holds exactly when one path is a prefix of the other |
| `History.ChangeList.Append` | packages/collaboration/src/history.ts:102-106 | Appends a change below the limit, refuses it at the limit |
| `InheritedNames.WalkIsDiff` | packages/collaboration/src/history.ts:108-126 | What the walk pushes is the structural diff if and only if no name that plain objects inherit is a key of one of two compared records and not of the other |
| `InheritedNames.WalkEmpty` | packages/collaboration/src/history.ts:108-126 | It pushes nothing exactly for values that are equal but for one-sided keys `__proto__` whose value looks empty |
| `InheritedNames.InheritedExamples` | packages/collaboration/src/history.ts:113-115 | Two different contents with an empty diff, and two that cannot be diffed although their structural diff is one addition |
| `History.ChangeList.DiffValue` | packages/collaboration/src/history.ts:108-126 | Pushes the rendered edits of the walk onto the shared list, inherited names included, or fails exactly when that would exceed the limit; a walk that meets an inherited function or object fails or marks the list |
| `History.ChangeList.DiffPrototype` | packages/collaboration/src/history.ts:108-126 | The same walk of a record against the object that plain objects inherit from |
| `History.OwnRevision` | packages/collaboration/src/history.ts:130-131 | The boundary copy of a revision: refused exactly past the budgets of `ownCollaborationValue`, else the revision with the keys `length` dropped from its content |
| `History.DiffRevisions` | packages/collaboration/src/history.ts:129-141 | Returns the rendered walk of the two copied contents, refused exactly when a revision cannot be copied, the projects differ, the walk holds something inherited that cannot be copied, or the result is past a budget of the boundary |
| `History.TooManyChanges` | packages/collaboration/src/history.ts:129-141 | A diff of n changes costs at least n + 2 objects of that result, so from 9,999 changes on it is refused |
| `History.EmptyDiff` | packages/collaboration/src/history.ts:129-141 | The diff of two revisions is empty exactly when their contents, without the keys `length`, are alike |
| `History.DiffIsStructural` | packages/collaboration/src/history.ts:129-141 | Without one-sided inherited names the changes of a diff are the structural diff of the copied contents |
| `History.FindOverlap` | packages/collaboration/src/history.ts:200-202 | Finds the first target change that overlaps a pointer |
| `History.Partition` | packages/collaboration/src/history.ts:198-206 | The filter keeps the retained changes and reports the others with the first change they collide with, both in order |
| `History.ConflictSources` | packages/collaboration/src/history.ts:198-206 | The reported conflicts are the changes not kept, each with a target change that overlaps it and leaves something else |
| `History.PlanRevisionMerge` | packages/collaboration/src/history.ts:182-214 | The plan is that partition of the source diff against the target diff of the copied revisions, refused exactly when a copy, one of the two diffs, or the plan itself cannot be made, or the projects differ |
| `History.PlanIsStructural` | packages/collaboration/src/history.ts:182-214 | Without one-sided inherited names a plan keeps and reports changes of the two structural diffs, so the laws below speak of it |
| `MergePlans.DiffLaws` | packages/collaboration/src/history.ts:90-141 | The same diff laws for pointer-addressed changes: applying, emptiness, pairwise non-overlap |
| `MergePlans.PlanSplits` | packages/collaboration/src/history.ts:198-206 | Kept changes and conflict sources split the source diff: nothing lost, nothing in both, nothing reordered |
| `MergePlans.PlanLaw` | packages/collaboration/src/history.ts:182-214 | Without conflicts the kept changes applied to the target equal the target diff applied to the source if and only if every overlap is at one pointer |
| `MergePlans.PlanValues` | packages/collaboration/src/history.ts:182-214 | And then the merge has the source's value at every source-changed path and the target's at every path apart |
| `MergePlans.RemovalsConflict` | packages/collaboration/src/history.ts:199-206 | Two removals of one place are reported as a conflict |
| `MergePlans.ToleratedOverlapFails` | packages/collaboration/src/history.ts:199-206 | A concrete plan without conflicts that does not apply |
| `KeptChanges.KeptIsDiff` | packages/collaboration/src/history.ts:198-206 | What any plan keeps, conflicts or not, is the diff from the base to some document |
| `KeptChanges.KeptLaw` | packages/collaboration/src/history.ts:182-214 | The kept changes of any plan apply to the base; they apply to the target, to what the target's changes make of that document, if and only if every overlap between the two is at one pointer |
| `KeptChanges.KeptValues` | packages/collaboration/src/history.ts:182-214 | And then the merge has the source's value at every place that is kept, and the target's at every path apart |
| `ReviewThreads.ReviewThreadStore.MutateReviewThread` | packages/collaboration/src/index.ts:2311-2419 | The compare-and-swap on the stored maps answers and changes them exactly as its step function, and keeps every thread under its own id |
| `ReviewThreads.ReviewThreadStore.PruneReviewReceipts` | packages/collaboration/src/index.ts:2051-2058 | Drops the oldest receipts of the scope beyond a hundred, and no others |
| `ReviewThreads.MutateKeeps` | packages/collaboration/src/index.ts:2311-2419 | One mutation keeps the history account when applied, and changes nothing otherwise |
| `ReviewThreads.RunKeeps` | packages/collaboration/src/index.ts:2311-2419 | In every run, the applied mutations of a thread carry versions 0, 1, 2, ... in order, the stored thread is their fold, at most 100 receipts remain per scope, and each speaks of an applied mutation |
| `ReviewThreads.FoldStory` | packages/collaboration/src/index.ts:2373-2408 | The fold's messages are the creation's followed by the replies in order, its lifecycle is the latest settlement, and all else is as created |
| `ReviewThreads.ExactlyOnce` | packages/collaboration/src/index.ts:2311-2419 | Nothing is applied twice, under whatever operation id and time it comes again, even after its receipt is pruned; 'replayed' means a request with that id and fingerprint was applied to that thread |
| `ReviewScopes.ScopesCollide` | packages/collaboration/src/index.ts:2326-2327 | Stable identifiers may hold the colon that joins them, so different threads can share one receipt scope |
| `ReviewScopes.SharedExactly` | packages/collaboration/src/index.ts:2326-2327 | Within an organization a project and thread share their scope with others if and only if one of the two identifiers holds a colon |
| `ReviewScopes.SharedAmongIdentifiers` | packages/collaboration/src/index.ts:957-965 | They share it with other stable identifiers if and only if a colon in one has a letter or digit after it and the pieces it moves across keep within 128 characters |
| `ReviewScopes.ScopeInjective` | packages/collaboration/src/index.ts:2326-2327 | Without colons in organization and project a scope names one thread, across organizations too |
| `ReviewFingerprints.PayloadKeeps` | packages/collaboration/src/index.ts:489-512 | The encoded payload of two requests is equal exactly when they are equal without operation id and times |
| `ReviewFingerprints.CopiedRequest` | packages/collaboration/src/index.ts:347-356 | The boundary copy of a request is the request with the keys `length` dropped from its thread or message |
| `ReviewFingerprints.FingerprintExactly` | packages/collaboration/src/index.ts:436-515 | For accepted requests so are their fingerprints, whichever way the keys are sorted |
| `ReviewFingerprints.FingerprintOfRetry` | packages/collaboration/src/index.ts:276-515 | A request equal to a fingerprinted one without operation id and times has the same fingerprint, or none exactly when the budgets and checks on the whole request refuse it |
| `ReviewFingerprints.LongTimeRefused` | packages/collaboration/src/index.ts:276-345 | A creation time of more than 64 KiB is erased from the fingerprint, and refused all the same |
| `ReviewFingerprints.SeventyThousandRefused` | packages/collaboration/src/index.ts:276-345 | 70,000 characters are such a time: the retry of an accepted request fails |
| `ReviewRequests.FingerprintsAgree` | packages/collaboration/src/index.ts:489-512 | The fingerprints that the store model compares are equal exactly when the erased requests are |
| `ReviewRequests.TextsAgree` | packages/collaboration/src/index.ts:436-515 | So the store model tells requests apart exactly as the source's fingerprint texts do |
| `RepositoryState.BestIsLatest` | packages/collaboration/src/index.ts:2119-2130 | The revision that sorts first: of the project, and no other of the project sorts before it |
| `RepositoryState.LatestIsLatest` | packages/collaboration/src/index.ts:2119-2130 | The same over the whole store, with nothing found exactly when the project has no revision |
| `Repository.InMemoryRepository.LatestRevision` | packages/collaboration/src/index.ts:2119-2130 | Returns that revision |
| `Repository.InMemoryRepository.CreateProject` | packages/collaboration/src/index.ts:2135-2141 | Stores a new project within capacity, or throws and changes nothing; keeps referential integrity |
| `Repository.InMemoryRepository.StartAppendRevision` | packages/collaboration/src/index.ts:2142-2148 | Up to the await: refuses an unknown project or a used id, else goes on with the revision that is latest now |
| `Repository.InMemoryRepository.FinishAppendRevision` | packages/collaboration/src/index.ts:2149-2160 | After it: stores the next revision of the sequence whose expected parent was the latest; keeps referential integrity when the project and the id are still as they were |
| `Repository.InMemoryRepository.CreateThread` | packages/collaboration/src/index.ts:2659-2670 | Stores a thread on a revision of its own project; keeps referential integrity |
| `Repository.InMemoryRepository.CreateComment` | packages/collaboration/src/index.ts:2682-2700 | Stores a comment whose parent, if any, lies in the same thread; keeps referential integrity |
| `Repository.InMemoryRepository.AddReaction` | packages/collaboration/src/index.ts:2705-2713 | Stores a reaction to a stored comment under its own key; keeps referential integrity |
| `Repository.InMemoryRepository.PutApproval` | packages/collaboration/src/index.ts:2714-2721 | Stores an approval of a stored revision under its own key; keeps referential integrity |
| `Repository.InMemoryRepository.MoveReviewThread` | packages/collaboration/src/index.ts:2554-2575 | Re-anchors a thread to a revision of its own project only; keeps referential integrity |
| `Repository.InMemoryRepository.UpdateRequest` | packages/collaboration/src/index.ts:2611-2632 | Replaces a change request whose base and results resolve in its project; keeps referential integrity |
| `Repository.InMemoryRepository.StartCommitDesignRevision` | packages/collaboration/src/index.ts:2161-2190 | Up to the await: replays a stored response, makes the first checks, and goes on with the revision that is latest now |
| `Repository.InMemoryRepository.CheckCommit` | packages/collaboration/src/index.ts:2191-2232 | The checks of a design commit between the await and its first write, in order |
| `Repository.InMemoryRepository.WriteCommit` | packages/collaboration/src/index.ts:2232-2277 | The writes: revision first, then the readiness mark unless it is refused only now, or the recorded change |
| `Repository.InMemoryRepository.FinishCommitDesignRevision` | packages/collaboration/src/index.ts:2191-2295 | After the await a design commit changes the maps and answers as its step says, failures included; keeps referential integrity when its project is still stored |
| `Repository.InMemoryRepository.ExportProject` | packages/collaboration/src/index.ts:2762-2823 | Returns a copy of the project's records in stored order, refused when the copy is past its budgets |
| `Repository.Collides` | packages/collaboration/src/index.ts:2865-2878 | Detects an identifier that belongs to another project |
| `Repository.InMemoryRepository.CheckCollisions` | packages/collaboration/src/index.ts:2865-2910 | Detects any collision in the eight kinds of record |
| `Repository.StoreAll` | packages/collaboration/src/index.ts:2946-2956 | Sets a list of values one by one |
| `Repository.AddEach` | packages/collaboration/src/index.ts:2964-2971 | Adds changes until an id is already there |
| `Repository.InMemoryRepository.BuildReplacement` | packages/collaboration/src/index.ts:2912-2971 | Builds all new maps beside the stored ones, or finds the colliding change id |
| `Repository.InMemoryRepository.ReplaceProject` | packages/collaboration/src/index.ts:2824-3004 | Copies the snapshot, then swaps all maps at once or none; keeps referential integrity |
| `Repository.InMemoryRepository.DeleteProject` | packages/collaboration/src/index.ts:2069-2107 | Removes the project with everything it owns and nothing else; keeps referential integrity |
| `RepositoryIntegrity.ThreadsKeep` | packages/collaboration/src/index.ts:2659-2681 | Creating and resolving threads keep it |
| `RepositoryIntegrity.CommentsKeep` | packages/collaboration/src/index.ts:2682-2713 | Comments and reactions keep it |
| `RepositoryIntegrity.ReviewThreadsKeep` | packages/collaboration/src/index.ts:2296-2575 | Creating, moving and updating review threads keep it |
| `RepositoryIntegrity.RequestsKeep` | packages/collaboration/src/index.ts:2576-2632 | Change requests, with base, result and undo result, keep it |
| `RepositoryIntegrity.AnnotationsKeep` | packages/collaboration/src/index.ts:2633-2646 | Developer annotations keep it |
| `RepositoryIntegrity.FinishKeepsExactly` | packages/collaboration/src/index.ts:2142-2295 | The second half of an append or commit keeps it, and every stored revision as it was, if and only if the project of the revision it stores is still there and the id is free |
| `RepositorySnapshots.ReplaceKeeps` | packages/collaboration/src/index.ts:2824-3004 | Replacing a project keeps it |
| `RepositorySnapshots.DeleteKeeps` | packages/collaboration/src/index.ts:2069-2107 | Deleting a project keeps it |
| `RepositorySnapshots.OtherContent` | packages/collaboration/src/index.ts:2824-3004 | Every other project's content is listed as before |
| `RepositorySnapshots.OwnContent` | packages/collaboration/src/index.ts:2824-3004 | The copied content is listed exactly as it was copied if and only if its reaction and approval keys are distinct, and is shorter otherwise |
| `RepositorySnapshots.OwnSnapshotSame` | packages/collaboration/src/index.ts:2825 | The copy is the snapshot as given if and only if no record has a key `length` |
| `RepositorySnapshots.ReplaceLaw` | packages/collaboration/src/index.ts:2824-3004 | A failed replacement changes nothing; a successful one started from the expected latest revision, is exported as the copied snapshot if and only if its keys are distinct, as the given one if and only if, besides, no record has a key `length`, and leaves every other export alone |
| `RepositorySnapshots.ImportedExports` | packages/collaboration/src/index.ts:2762-2823 | What was imported, and so was within the copy's budgets, is exported again as copied, without a refusal, exactly when its keys are distinct |
| `RepositorySnapshots.DeleteLaw` | packages/collaboration/src/index.ts:2069-2107 | A deleted project exports nothing, every other project exports what it did |
| `RepositoryRuns.SoundExactly` | packages/collaboration/src/index.ts:2029-3023 | Over every interleaving of whole operations and halves of waiting ones, referential integrity and all stored revisions survive if and only if every second half that stores a revision finds its project stored and its id free |
| `RepositoryRuns.EveryLinkLeadsSomewhere` | packages/collaboration/src/index.ts:2029-3023 | Then, after any such run, every reference in the store leads to a stored record of its own project |
| `Overlaps.DeletedBetween` | packages/collaboration/src/index.ts:2144-2159 | A concrete append whose project is deleted while it waits: the stored revision has no project |
| `Overlaps.SameIdTwice` | packages/collaboration/src/index.ts:2146-2159 | Two concrete overlapping appends of one id: the second displaces the first |
| `Overlaps.SequenceTwice` | packages/collaboration/src/index.ts:2190-2232 | Two concrete overlapping commits: both are stored with sequence 1 |
| `RepositoryRuns.RestoreIntoEmpty` | packages/collaboration/src/index.ts:2824-3004 | A snapshot whose copy is valid, with distinct change ids, always goes into a new repository; it is exported as copied exactly when its reaction and approval keys are distinct, and as given exactly when, besides, no record has a key `length` |
| `DesignRevisions.LineKept` | packages/collaboration/src/index.ts:2142-2235 | Whatever runs in between, each action extends the project's line of revisions by the revision it stores, or leaves it |
| `DesignRevisions.NextNumber` | packages/collaboration/src/index.ts:2149-2232 | A second half gives its revision the next sequence number if and only if the latest revision is still the one its first half found |
| `DesignRevisions.RunHolds` | packages/collaboration/src/index.ts:2142-2295 | Over every interleaving that neither imports nor deletes the project, its revisions are those of the traced line |
| `DesignRevisions.RunNumbered` | packages/collaboration/src/index.ts:2142-2295 | Their sequences are 1 to n if and only if no call stores a revision after the latest one it found has been succeeded |
| `DesignChanges.ListKept` | packages/collaboration/src/index.ts:2233-2277 | Such an action keeps the change list exact, unless, and only unless, it stores a revision of a marked project without a change or a mark: a plain append, or a combined commit refused too late |
| `DesignChanges.RunListed` | packages/collaboration/src/index.ts:2161-2295 | Over every such run the change list is exactly the revisions since the last mark |
| `DesignChanges.DesignHistory` | packages/collaboration/src/index.ts:2161-2295 | From an empty project, over every interleaving in which no call is overtaken or torn: sequences 1 to n, and changes since the mark are a connected chain from the marked to the latest revision, current exactly when empty |
| `AwaitedCalls.AwaitedSound` | packages/collaboration/src/index.ts:2029-3023 | Callers that await each call before the next one never meet those conditions: integrity and stored revisions survive all their runs |
| `AwaitedCalls.AwaitedUpToDate` | packages/collaboration/src/index.ts:2142-2232 | And every revision they store was checked against the latest one |
| `AwaitedCalls.AwaitedHistory` | packages/collaboration/src/index.ts:2161-2295 | So from an empty project their sequences are 1 to n, and the chain of changes is exact unless a plain append joins in or a combined commit is refused too late |
| `DesignChanges.RefusedUnchanged` | packages/collaboration/src/index.ts:2191-2295 | A refused second half leaves no trace if and only if it failed the checks before the first write or was a bare mark refused by the later ones |
| `DesignChanges.TornExample` | packages/collaboration/src/index.ts:2233-2243 | A concrete refused commit whose revision is stored all the same |
| `DesignBudgets.PartPortable` | packages/core/src/design-baseline.ts:42-112 | A part of a value within the budgets is within them, so the copies made further in refuse nothing |
| `DesignBudgets.FewerChanges` | packages/core/src/design-baseline.ts:358-363 | A state within the budgets stays within them when changes before the last are taken out |
| `DesignBudgets.ChangesBounded` | packages/core/src/design-baseline.ts:26-37 | A valid change is at least twelve objects, so a state with a baseline holds at most 833 changes |
| `DesignBaseline.RunKeeps` | packages/core/src/design-baseline.ts:306-464 | For any command list the state stays valid, of its project and within 833 changes |
| `DesignBaseline.RunIsFold` | packages/core/src/design-baseline.ts:366-464 | The state is the last accepted baseline with the mutations accepted since, in order: those that were sound and found room after the ones before |
| `DesignBaseline.AppliedToDescribed` | packages/core/src/design-baseline.ts:366-464 | A command is accepted if and only if it is sound for the project and, for a mutation after a baseline, the next state is within the budgets; and its effect on a described state |
| `DesignBaseline.RefusedStays` | packages/core/src/design-baseline.ts:400-433 | A refused mutation stays refused until the next mark, whatever else is executed |
| `DesignBaseline.RefusedInTheEnd` | packages/core/src/design-baseline.ts:400-433 | Any one change, however valid, is refused after at most 833 times |
| `DesignExamples.SameChangeRefused` | packages/core/src/design-baseline.ts:400-433 | A concrete valid change accepted in one valid state and refused in another of the same project and baseline |
| `DesignBaseline.RunOfRelevant` | packages/core/src/design-baseline.ts:400-447 | Deleting collaboration commands and pre-baseline mutations changes nothing |
| `DesignBaseline.CommitFollowsCore` | packages/collaboration/src/index.ts:2191-2295 | The second half of one call is one core command on the project's review state, or none |
| `DesignBaseline.CommitsFollowCore` | packages/collaboration/src/index.ts:2161-2295 | Over any interleaving whose commands the core accepts, the repository's review state is the core's |
| `DesignBaseline.CommitsFold` | packages/core/src/design-baseline.ts:366-464 | So from an empty project it is the fold of the accepted commands since the last mark |
| `CanonicalText.Readable` | packages/core/src/canonical-data.ts:106-164 | A value can be read off the front of a canonical text in one way only |
| `CanonicalText.CanonInjective` | packages/core/src/canonical-data.ts:58-167 | Canonical texts are equal exactly for equal values, under any fixed listing of keys |
| `CanonicalText.BytesExactly` | packages/core/src/canonical-data.ts:101-105 | The chunk-by-chunk byte count is the UTF-8 length of the text |
| `Heaps.UnfoldsUnique` | packages/core/src/canonical-data.ts:106-164 | An object graph unfolds to at most one finite value |
| `Heaps.CyclesDoNotUnfold` | packages/core/src/canonical-data.ts:116 | No object on a cycle unfolds to anything |
| `CanonicalData.Serializer.Append` | packages/core/src/canonical-data.ts:101-105 | Counts a chunk's bytes and fails above the limit |
| `CanonicalData.Serializer.Visit` | packages/core/src/canonical-data.ts:106-164 | Visiting with an on-path set succeeds exactly when the graph below unfolds to a value that fits the remaining budgets, and appends its text |
| `CanonicalData.Serializer.VisitItems` | packages/core/src/canonical-data.ts:137-143 | The loop over an array |
| `CanonicalData.Serializer.VisitMember` | packages/core/src/canonical-data.ts:149-156 | One key of a record: its budget, its comma, the quoted key, the colon and the value |
| `CanonicalData.Serializer.VisitMembers` | packages/core/src/canonical-data.ts:148-157 | The loop over the sorted keys of a record |
| `CanonicalData.SerializeCanonicalData` | packages/core/src/canonical-data.ts:58-167 | Succeeds exactly when the graph unfolds to a finite value within every budget, with that value's canonical text |
| `CanonicalData.SameTextSameValue` | packages/core/src/canonical-data.ts:58-167 | Two graphs have one text exactly when they unfold to one value, however they share parts or order keys |
| `CanonicalData.KeyOrderIrrelevant` | packages/core/src/canonical-data.ts:148 | Reordering keys changes nothing, acceptance included |
| `CanonicalData.CyclesRejected` | packages/core/src/canonical-data.ts:116 | A cyclic graph has no text |
| `Ownership.Owner.Visit` | packages/collaboration/src/boundary.ts:297-360 | Copying with an active set succeeds exactly when the graph without the keys `length` unfolds to a value that fits the remaining budgets, and returns that value |
| `Ownership.Owner.CopyItems` | packages/collaboration/src/boundary.ts:331-344 | The loop over array indices |
| `Ownership.Owner.CopyFields` | packages/collaboration/src/boundary.ts:331-344 | The loop over the keys of a record in property order, `length` skipped and not charged |
| `OwnedData.SumReordered` | packages/collaboration/src/boundary.ts:331-344 | The order of keys does not change what is charged |
| `Ownership.OwnCollaborationValue` | packages/collaboration/src/boundary.ts:295-362 | Returns the finite value that the graph without the keys `length` unfolds to, exactly when it is within the budgets; shared parts are charged per occurrence, and `length` counts as one of a record's keys |
| `Ownership.CopyIsUnfolding` | packages/collaboration/src/boundary.ts:332 | The copy is the value that the graph itself unfolds to if and only if no visited record has a key `length` |
| `Ownership.OwnedOfUnfolding` | packages/collaboration/src/boundary.ts:295-362 | A graph that unfolds is copied to its value with those keys dropped, when that is within the budgets |
| `Ownership.OnlyLength` | packages/collaboration/src/boundary.ts:332 | A record whose only key is `length` is copied to the empty record, be it a number, a function or the record itself |
| `OwnedTrees.OwnTree` | packages/collaboration/src/boundary.ts:295-362 | The same copy of a value given as a literal |
| `Ownership.OwnIdempotent` | packages/collaboration/src/boundary.ts:295-362 | An owned copy is owned as itself |
| `Ownership.CyclesNotOwned` | packages/collaboration/src/boundary.ts:309 | A cycle that does not pass through a key `length` is not owned |
| `Ownership.CompareIsEquality` | packages/collaboration/src/boundary.ts:391-420 | The recursive comparison of owned values is equality, objects being maps |
| `Ownership.EqualCollaborationValues` | packages/collaboration/src/boundary.ts:389-425 | True exactly when both sides can be owned and have the same copy |
| `Ownership.EqualUpToLength` | packages/collaboration/src/boundary.ts:389-425 | Finite values have the same copy exactly when they are equal up to the keys `length` of their records |
| `Idempotency.PlayKeeps` | packages/collaboration/src/index.ts:1973-2011 | Every interleaving keeps: locks name their runs, unsettled runs hold their lock, settled answers are the stored ones |
| `Idempotency.NeverOverlap` | packages/collaboration/src/index.ts:1984-2010 | Operations of one key never overlap in one process |
| `Idempotency.SameAnswer` | packages/collaboration/src/index.ts:1984-2010 | All callers of a key that return, in any process, return one response |
| `Idempotency.NoOperationAfterAnswer` | packages/collaboration/src/index.ts:1988-1996 | No run started after a response is stored ever operates |
| `Idempotency.SingleProcessQuiet` | packages/collaboration/src/index.ts:1984-2010 | In one process nothing operates any more once a response is stored |
| `Idempotency.TwoProcessesOverlap` | packages/collaboration/src/index.ts:1988-2003 | For any store without the key, any two processes and any response there is a run in which the slower operates after the faster has stored its response |
| `Idempotency.QuietExactly` | packages/collaboration/src/index.ts:1973-2011 | Whatever the interleaving, nothing operates once a response is stored, if and only if it was stored from the start or at most one process calls the key |
| `Idempotency.QuietRunExactly` | packages/collaboration/src/index.ts:1973-2011 | One run is quiet at every moment after its response was stored if and only if no other run of the key was between its read and its store when the response was stored |
| `Idempotency.FailureRetries` | packages/collaboration/src/index.ts:2005-2010 | A failed operation leaves its key retryable: the next call operates |
| `AccessProtocol.Resolve` | apps/collaboration-service/src/postgres-repository.ts:333-376 | The resolving query answers exactly when one user matches, with that user's active membership at its present version |
| `AccessProtocol.ChangesRaiseVersions` | apps/collaboration-service/src/postgres-repository.ts:407-453 | Revoking an active membership and every role change raise its access version by one |
| `AccessProtocol.PlayGrows` | apps/collaboration-service/src/postgres-bff-store.ts:145-196 | In every interleaving versions never fall, a bound session is never rebound, an ended one never lives again |
| `AccessProtocol.SuccessIsBound` | apps/collaboration-service/src/oidc-bff.ts:58-95 | Every success is on a session bound to exactly the organization and version it resolved, as a user of that organization with the session's subject |
| `AccessProtocol.SuccessWasResolved` | apps/collaboration-service/src/oidc-bff.ts:58-95 | In every run, whoever holds an identity, and so whoever succeeds, was at some moment about to resolve, found exactly one active membership of a user with the session's subject, and took the identity from it at the version it then had |
| `AccessProtocol.UndisturbedSucceeds` | apps/collaboration-service/src/oidc-bff.ts:66-95 | Undisturbed, an authentication on a live session succeeds exactly when one membership answers the query, and binds a fresh session to it |
| `AccessProtocol.NoSuccessAfterChange` | apps/collaboration-service/src/oidc-bff.ts:58-95 | No authentication that resolves after the membership its session is bound to was revoked or changed succeeds on that session at all |
| `AccessProtocol.PlayOneUser` | packages/collaboration/migrations/0001_collaboration.sql:8-12 | Within an organization a subject belongs to one user, in every run |
| `AccessProtocol.EndedFails` | apps/collaboration-service/src/postgres-bff-store.ts:145-196 | Whoever has not read a session when it ends fails on it |
| `BrowserLocal.CompletedCache.RememberCompleted` | apps/web/src/hosted-review-provider.ts:261-281 | The eviction loop leaves exactly the specified memory; its last early return is never taken |
| `BrowserLocal.RememberTidy` | apps/web/src/hosted-review-provider.ts:261-281 | Key sets stay equal, the byte total is the sum of the sizes, at most 100 entries and 128 KiB |
| `BrowserLocal.EvictsJustEnough` | apps/web/src/hosted-review-provider.ts:267-276 | What remains is the most recent part that leaves room, and one entry more would not have |
| `BrowserLocal.RememberLatest` | apps/web/src/hosted-review-provider.ts:261-281 | The remembered operation is the most recent entry and older kept ones are untouched |
| `BrowserProvider.BrowserLocalProvider.WriteRecord` | apps/web/src/hosted-review-provider.ts:423-445 | Writes the whole record with its last 100 receipts, or nothing |
| `BrowserProvider.BrowserLocalProvider.Mutate` | apps/web/src/hosted-review-provider.ts:482-596 | One call reads, compares, writes and remembers exactly as its step says |
| `BrowserProvider.AppliedEffect` | apps/web/src/hosted-review-provider.ts:518-577 | A creation appends one open thread with its one message, a reply one message, a resolution or reopening none; other threads stay in place |
| `BrowserProvider.MutateThread` | apps/web/src/hosted-review-provider.ts:499-579 | A call changes only the thread it applies to, and raises it to one more than the expected version |
| `BrowserProvider.AppliedInVersionOrder` | apps/web/src/hosted-review-provider.ts:482-596 | In every run of any number of pages over one storage the operations applied to a thread expect strictly rising versions |
| `BrowserProvider.NeverTwice` | apps/web/src/hosted-review-provider.ts:482-596 | No operation is applied twice, on one page or on two, even after the record and every page's memory forget it |
| `BrowserProvider.FailureChangesNothing` | apps/web/src/hosted-review-provider.ts:423-445 | A failed read or write changes nothing |
| `BrowserProvider.RetryAnswered` | apps/web/src/hosted-review-provider.ts:487-498 | The retry of an applied operation is answered from a receipt with the same thread |
| `BrowserProvider.BoundedLatest` | apps/web/src/hosted-review-provider.ts:254-260 | The latest receipt is always among those kept, at most 100 |

## Left out

- SnapshotJsonValue: getters, proxies, prototypes, symbols and holes are one kind of rejected object; one failure stands for a cyclic, an aliased and an exotic object.
- Duplicate member order: JavaScript lists integer-like keys first; entries keep the order of the text instead.
- Number printing and lexing, `Date.parse` and time zones: foreign conversions, modelled as an inverse pair and as integers.
- History: revisions without content are not modelled.
- Locale order: `localeCompare` is replaced by code-unit order, or by any fixed listing of keys where the theorem allows it (`FingerprintExactly`).
- ReviewThreads: works on typed records, with the erased request as fingerprint (`ReviewRequests` shows that this compares as the texts do) and the verdicts of normalization and encoding as parameters; the NUL between scope and operation id is never part of either.
- Fingerprint: states the preflight's and the encoder's budgets and the resulting text as functions of a request with the expected keys; their traversal loops, which repeat the canonical serializer's, and messages that are not objects are not written out.
- Replace: every validation failure is `Invalid`; the source tells INVALID, DUPLICATE and NOT_FOUND apart. Share links, audits and events, which replacement does not touch, are not part of the state.
- Repository: creating review threads, change requests and annotations, resolving threads, and the other in-place review thread updates are steps on values (`RepositoryState`), not methods of the class. Refusals of `clone` for size are part of the validators' verdict on an operation's input, and a verdict of their own on an export.
- Delete: the loops that delete entry by entry are one restriction of each map.
- DesignBaseline: fields that the source's types do not name, other than in the body of a change, and the dispatcher that hands a state to a host's port.
- SerializeCanonicalData: one failure stands for the three error codes; normalizing the requested limits is not modelled; exotic prototypes, accessors, symbols and holes are one kind of rejected object.
- OwnCollaborationValue: freezing, and the identity of copied objects, are not modelled; the copy is the value itself.
- Idempotency: calls without a key, which run the operation directly, and host contexts.
- AccessProtocol: cookies, token contents and clocks; expiry is an event that may come at any time. An external subject is never changed.
- BrowserProvider: legacy record formats, the JSON encoding and the validation of the stored record (its size and the validity of its threads are parameters), and another page's process writing between a read and a write of one call, which the code does in one turn.
- Approval policies, event streams, envelope validation, HTTP, PostgreSQL readiness functions, backups and user interface: shallow, foreign or input and output.
