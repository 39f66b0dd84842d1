# pad-web: diff, rebase and the commit protocol, in Dafny

pad-web is a collaborative plain-text editor. Each client edits locally. It
sends commits (a diff plus the index of the parent commit) to a server
replica, and it pulls every commit of the document's log in order. Commits
written against an older parent are rebased over the entries logged since.
The user's unsent edits, with the selection as two NUL markers, are rebased
over each pulled commit before the result reaches the page.

The model covers four parts of the system:

- **`Git`** (`git.dfy`) models `js/git.js`.
  - `Op`, `Diff` and `ApplyDiff`.
  - The `getDiff` dynamic program (`Dp`) and its collapse loop (`CollapseOps`).
  - `rebase`, as a record of the sweep's variables (`Sweep`) advanced by one
    step function per helper closure. `Rebase` is the method with both loops.
  - The JavaScript string primitives that the code relies on.
- **`GitFixtures`** (`git_fixtures.dfy`) states the literal rebase cases of
  `test/test-git.js`, except the long-string pair, and derives them from the
  general lemmas.
- **`Server`** (`server.dfy`) models the replica's document map in
  `server.js` as the class `Replica`: `getDoc`, `get`, `init`, and the
  append step of `pullFromMaster`. Its invariant `Consistent` says:
  - every logged commit names its predecessor as its parent;
  - the document's text is the log materialized;
  - responses wait only for future indices.
- **`Worker`** (`worker.dfy`) models the web worker of `js/worker.js`:
  - the state record, as `State`, with the class `WorkerState` whose methods
    are the message handlers;
  - `tryNextUpdate`, `advanceHeadState`, `tryUpdateMain` and the commit
    request.
- **`Pad`** (`pad.dfy`) models the main-thread client of `js/pad.js`: its
  state record, `tryCommit`, the `onmessage` branches, and `pause`/`play`.

Each class method is proved against a function of the old state, for example
`ensures Current() == NextUpdate(old(Current()))`. The lemmas then state what
those functions promise.

## Model

| member | source | states |
|---|---|---|
| Git.Substring | js/git.js:108 | For bounds inside the text, substring is the slice. Equal bounds give the empty string. |
| Git.SubstringClamps | js/git.js:108-116 | Swapped bounds give the same text, and reversed in-range bounds give the slice between them. A bound below 0 acts as 0, and one past the end acts as the length. The result is never longer than the text. |
| Git.IndexOf | js/worker.js:205 | The first occurrence of the character, or -1 exactly when it is absent. |
| Git.LastIndexOf | js/worker.js:206 | The last occurrence of the character, or -1 exactly when it is absent. |
| Git.RemoveFirst | js/worker.js:207-208 | `replace(c, "")` removes only the first occurrence, and returns the text unchanged when there is none. |
| Git.Count | js/git.js:145-146 | The number of occurrences of a character. It is zero exactly when the character is absent. |
| Git.ApplyDiff | js/git.js:103-118 | The copying loop returns `Patched(content, diff)`: each untouched span, each inserted text, and the tail after the cursor. |
| Git.ReplaySnoc | js/git.js:106-115 | One more loop round appends the span up to the operation and its inserted text, and moves the cursor past it. |
| Git.PatchedLength | js/git.js:103-118 | On a diff with ascending, in-range operations, the result is longer by the inserted text and shorter by the deleted counts. |
| Git.DpChoosesFirstCheapest | js/git.js:23-59 | dp(i, j) costs the least of its options. On ties the first option pushed wins: Insert, then Delete, then the matching character. |
| Git.DpChoice | js/git.js:27-59 | dp(i, j) is one of its three options, extended by its operation. |
| Git.DpPathSound | js/git.js:11-51 | Every dp path is a script of unit operations that turns a[..i] into b[..j]. |
| Git.CollapseOps | js/git.js:78-99 | The collapse loop returns `Collapse(ops)`. |
| Git.CollapseIsCollapsed | js/git.js:84-98 | No two neighbours of the result could have been merged. |
| Git.CollapsePreservesReplay | js/git.js:84-98 | When every Delete has size 1, collapsing changes neither the applied text nor the cursor. |
| Git.RoundTrip | js/git.js:6-100 | `applyDiff(a, getDiff(a, b)) == b` for all strings, and the diff is collapsed. |
| Git.GetDiff | js/git.js:6-100 | getDiff returns `DiffOf(a, b)`, which patches a into b and is collapsed. |
| Git.OldInsertStep | js/git.js:134-137 | doOldInsert never moves a finger back, moves at least one forward, and keeps d2's length. |
| Git.OldDeleteStep | js/git.js:138-180 | doOldDelete never moves a finger back, moves at least one forward, and keeps d2's length. |
| Git.OldDeleteScan | js/git.js:142-177 | The inner loop moves only the new finger, forward and within d2. The old finger, the shift and d2's length are untouched. |
| Git.ScanPast | js/git.js:143-176 | Passing over one new operation moves only the new finger, by one. d2 and the shift are untouched. |
| Git.Reinserted | js/git.js:143-159 | A swallowed Insert adds its marker Inserts to the output, and only the new finger moves. |
| Git.NewInsertStep | js/git.js:181-186 | doNewInsert never moves a finger back, moves at least one forward, and keeps d2's length. |
| Git.NewDeleteScan | js/git.js:195-220 | The inner loop of doNewDelete moves the old finger forward only, and within d1. |
| Git.NewDeleteStep | js/git.js:187-223 | doNewDelete never moves a finger back, moves at least one forward, and keeps d2's length. |
| Git.MainStep | js/git.js:225-247 | Each round of the first loop never moves a finger back, moves at least one forward, and keeps d2's length. |
| Git.TailStep | js/git.js:248-254 | Each round of the second loop never moves a finger back, moves at least one forward, and keeps d2's length. |
| Git.RunMain | js/git.js:225-247 | The first loop ends with one of the diffs used up. |
| Git.RunTail | js/git.js:248-254 | The second loop ends with d2 used up. |
| Git.Rebase | js/git.js:124-256 | The two loops and the helper closures compute `Rebased(d1, d2)`. |
| Git.DoOldInsert | js/git.js:134-137 | The closure's update of the shared variables is `OldInsertStep`. |
| Git.DoOldDelete | js/git.js:138-180 | The closure and its inner loop compute `OldDeleteStep`. |
| Git.DoNewInsert | js/git.js:181-186 | The closure's update is `NewInsertStep`. |
| Git.DoNewDelete | js/git.js:187-223 | The closure and its inner loop compute `NewDeleteStep`. |
| Git.ScanInsert | js/git.js:143-159 | A new Insert inside an old Delete leaves only its marker Inserts. |
| Git.ScanSkip | js/git.js:172-174 | A new Delete contained in the old one is dropped. |
| Git.ScanClip | js/git.js:161-171 | A new Delete reaching past the old one is rewritten to start at the old end, and the scan stops. |
| Git.ScanDone | js/git.js:142 | The scan does nothing at a new operation at or past the old Delete's end. |
| Git.RebaseOntoNothing | js/git.js:225-254 | Rebasing over an empty diff returns d2 unchanged. |
| Git.CursorReinsertsCount | js/git.js:145-159 | A swallowed Insert leaves one marker Insert per marker it held, at most two. |
| Git.FirstBeforeLastIffTwo | js/git.js:145-157 | lastIndexOf exceeds indexOf exactly when the text holds two or more markers. |
| Git.PatchedMarkers | js/git.js:145-159 | Applying the marker Inserts puts that many markers at the deletion point. |
| Git.EqualIndexInsertsOldFirst | js/git.js:238-240 | At equal indices the old Insert goes first: its text ends up before the new one. |
| Git.InsertAfterOldInsert | js/git.js:226-228 | A new Insert after an old one is moved right by the old text. |
| Git.InsertBeforeOldInsert | js/git.js:232-234 | A new Insert before an old one is emitted unchanged. |
| Git.DisjointInsertsConverge | js/git.js:120-123 | Two Inserts at different indices converge. Rebasing either over the other gives the same text. |
| Git.InsertAtOldDeleteKept | js/git.js:238-242 | A new Insert at an old Delete's index survives in front of the deletion. |
| Git.InsertInsideOldDeleteDropped | js/git.js:142-159 | A new Insert strictly inside an old Delete is dropped. Only its markers come back, at the deletion point. |
| Git.DeleteInsideOldDeleteDropped | js/git.js:160-174 | A new Delete inside an old Delete is dropped entirely. |
| Git.OverlappingDeleteClipped | js/git.js:161-171 | A new Delete reaching past an old one deletes only its remaining tail. |
| Git.OldInsertInsideDeleteDeleted | js/git.js:195-199 | A new Delete covering an old Insert grows to delete the inserted text too. |
| Git.DeleteCutShortByOldDelete | js/git.js:204-217 | A new Delete running into a later old Delete stops where that one starts. |
| Git.DeleteAfterOldDelete | js/git.js:138-180 | A new Delete after an old Delete is moved left by the old size. |
| Git.DeleteBeforeOldDelete | js/git.js:232-236 | A new Delete ending at or before an old Delete is emitted unchanged. |
| Git.DisjointDeletesConverge | js/git.js:120-123 | Two Deletes of disjoint ranges converge, and both ranges are deleted. |
| Git.DeleteAfterOldInsert | js/git.js:225-254 | A new Delete at or after an old Insert's index is moved right by the inserted text. The inserted text survives in front of the deletion. |
| Git.DeleteBeforeOldInsert | js/git.js:187-223 | A new Delete ending at or before an old Insert's index is emitted unchanged, and the inserted text follows it. |
| Git.InsertBeforeOldDelete | js/git.js:181-186 | A new Insert before an old Delete is emitted unchanged, in front of the deletion. |
| Git.InsertAfterOldDelete | js/git.js:138-180 | A new Insert at or after an old Delete's end is moved left by the deleted size. |
| Git.DeleteCoversOldDelete | js/git.js:160-217 | A new Delete starting at or before an old Delete and ending past it is shrunk by the old size. Together they delete exactly the new range. |
| Git.InsertDeleteConverge | js/git.js:120-123 | An Insert and a Delete whose range does not strictly contain the Insert's index converge: rebasing either over the other gives the same text. |
| GitFixtures.DiffAbToAd | test/test-git.js:69 | getDiff("ab", "ad") is [Delete(1, 1), Insert(2, "d")]. |
| GitFixtures.DiffAbToCb | test/test-git.js:70 | getDiff("ab", "cb") is [Delete(0, 1), Insert(1, "c")]. |
| GitFixtures.RebaseAbFixture | test/test-git.js:73 | The rebase of those two diffs. |
| GitFixtures.RunRebaseAbAdCb | test/test-git.js:68-81 | runRebase("ab", "ad", "cb") is "cd". |
| GitFixtures.NewInsertAfterFixture | test/test-git.js:88 | The "new insert after" case gives "ab123cd456ef". |
| GitFixtures.SameIndexInsertsFixture | test/test-git.js:90 | The "same index" case gives "abc123456def". |
| GitFixtures.NewInsertBeforeFixture | test/test-git.js:92 | The "new insert before" case gives "ab456cd123ef". |
| GitFixtures.OldInsertInMiddleFixture | test/test-git.js:101 | The "old insert in middle" case gives "abcdef". |
| GitFixtures.NewInsertInMiddleFixture | test/test-git.js:114 | The "new insert in middle" case gives "abcdef". |
| GitFixtures.NewDeleteEndsAfterFixture | test/test-git.js:145 | The "new delete starts in the middle and ends after" case gives "abcdef". |
| GitFixtures.NewDeleteAfterFixture | test/test-git.js:150 | The "new delete starts and ends after" case gives "abc3def". |
| GitFixtures.CursorMarkersFixture | js/git.js:142-159 | An Insert carrying both markers, inside an old Delete, leaves both markers at the deletion point. |
| GitFixtures.OldInsertBeforeFixture | test/test-git.js:97 | An old Insert before a new Delete gives "ab123cdef". Both sides patch the original as the test's texts say. |
| GitFixtures.OldInsertAtStartFixture | test/test-git.js:99 | An old Insert at a new Delete's start gives "abc123def". Both sides patch the original as the test's texts say. |
| GitFixtures.OldInsertAtEndFixture | test/test-git.js:103 | An old Insert at a new Delete's end gives "abc123def". Both sides patch the original as the test's texts say. |
| GitFixtures.OldInsertAfterFixture | test/test-git.js:105 | An old Insert after a new Delete gives "abcd123ef". Both sides patch the original as the test's texts say. |
| GitFixtures.NewInsertBeforeDeleteFixture | test/test-git.js:110 | A new Insert before an old Delete gives "ab123cdef". Both sides patch the original as the test's texts say. |
| GitFixtures.NewInsertAtStartFixture | test/test-git.js:112 | A new Insert at an old Delete's start gives "abc123def". Both sides patch the original as the test's texts say. |
| GitFixtures.NewInsertAtEndFixture | test/test-git.js:116 | A new Insert at an old Delete's end gives "abc123def". Both sides patch the original as the test's texts say. |
| GitFixtures.NewInsertAfterDeleteFixture | test/test-git.js:118 | A new Insert after an old Delete gives "abcd123ef". Both sides patch the original as the test's texts say. |
| GitFixtures.DeleteBeforeFixture | test/test-git.js:123 | A new Delete starting and ending before an old one gives "abcdef". Both sides patch the original as the test's texts say. |
| GitFixtures.DeleteBeforeToStartFixture | test/test-git.js:125 | A new Delete from before an old one to its start gives "abcdef". Both sides patch the original as the test's texts say; by those texts the new Delete runs one character into the old one. |
| GitFixtures.DeleteBeforeToMiddleFixture | test/test-git.js:127 | A new Delete from before an old one to its middle gives "abcdef". Both sides patch the original as the test's texts say. |
| GitFixtures.DeleteBeforeToEndFixture | test/test-git.js:129 | A new Delete from before an old one to its end gives "abcdef". Both sides patch the original as the test's texts say. |
| GitFixtures.DeleteBeforePastEndFixture | test/test-git.js:131 | A new Delete from before an old one to past its end gives "abcdef". Both sides patch the original as the test's texts say. |
| GitFixtures.DeleteStartToMiddleFixture | test/test-git.js:134 | A new Delete from an old one's start to its middle gives "abcdef". Both sides patch the original as the test's texts say. |
| GitFixtures.DeleteStartToEndFixture | test/test-git.js:136 | A new Delete of the old one's range gives "abcdef". Both sides patch the original as the test's texts say. |
| GitFixtures.DeleteStartPastEndFixture | test/test-git.js:138 | A new Delete from an old one's start to past its end gives "abcdef". Both sides patch the original as the test's texts say. |
| GitFixtures.DeleteMiddleToMiddleFixture | test/test-git.js:141 | A new Delete inside an old one gives "abcdef". Both sides patch the original as the test's texts say. |
| GitFixtures.DeleteMiddleToEndFixture | test/test-git.js:143 | A new Delete from an old one's middle to its end gives "abcdef". Both sides patch the original as the test's texts say. |
| GitFixtures.DeleteEndPastEndFixture | test/test-git.js:148 | A new Delete from an old one's end to past it gives "abcdef". Both sides patch the original as the test's texts say; by those texts the new Delete starts one character inside the old one. |
| GitFixtures.OverlappingDeletesFixture | test/test-git.js:159-163 | "abcdef" edited to "adf" and to "acf" by two Deletes each; the rebase gives "af". |
| GitFixtures.OverlappingDeletesReversedFixture | test/test-git.js:164 | The same edits rebased the other way also give "af". |
| GitFixtures.ManyOverlappingDeletesFixture | test/test-git.js:166-169 | "acbdefghij" edited to "adfj" and to "acgj"; the rebase gives "aj". |
| GitFixtures.ManyOverlappingDeletesReversedFixture | test/test-git.js:170 | The same edits rebased the other way also give "aj". |
| Server.Replica.constructor | server.js:24 | A replica starts with no documents and is consistent. |
| Server.Replica.GetDoc | server.js:139-149 | A document is created with only the null genesis on first use, and afterwards the same one is returned. |
| Server.Replica.Get | server.js:105-113 | An index already in the log is answered at once. A later index parks the response and changes nothing else. A commit answered names the previous index as its parent. |
| Server.Replica.Init | server.js:133-137 | init answers with head = the log length - 1 (at least 0) and the materialized text. |
| Server.Replica.PullCommit | server.js:78-93 | The pulled commit is rebased over every entry after its parent, re-parented at the head, appended and applied, and the waiting responses receive it. A negative parent crashes. Consistency is kept. |
| Server.RebaseOnto | server.js:82-84 | The loop rebases the diff over each later log entry, in order. |
| Server.Relogged | server.js:82-85 | The logged commit's parent is the old head, and its ids are kept. |
| Server.LoggedConsistent | server.js:85-93 | Appending a commit whose parent is the head keeps the document consistent. |
| Server.AppendMaterialized | server.js:86-87 | After the append, the stored text is the materialized log. |
| Server.CatchUp | server.js:133-137 | A client that loads init's text at head h and then applies each later entry in order ends with the replica's text. |
| Server.ClaimedHeadNotRebased | server.js:82-84 | A commit whose parent is already the head is logged with its diff unchanged. |
| Server.BodyParent | server.js:105-108 | Every commit that get returns names the previous index as its parent. |
| Server.ParkKeepsConsistent | server.js:110-111 | Parking a response for a future index keeps the document consistent. |
| Worker.WorkerState.constructor | js/worker.js:9-19 | The initial state record. |
| Worker.WorkerState.OnDocID | js/worker.js:224-231 | Only docID changes. |
| Worker.WorkerState.OnInitLoaded | js/worker.js:100-105 | headText, head and nextDiff = head + 1 are set, and set-text with that head is posted. |
| Worker.WorkerState.OnPulled | js/worker.js:63-72 | A commit is queued only when its parent is nextDiff - 1. Then the queue is drained. |
| Worker.WorkerState.TryNextUpdate | js/worker.js:128-172 | The recursive handler computes `NextUpdate`. |
| Worker.NextUpdate | js/worker.js:128-172 | A busy, paused or idle worker is unchanged. Otherwise the queue shrinks, and the ids, paused, nextDiff and pushes are kept. |
| Worker.DrainQueue | js/worker.js:128-172 | The client's own commits at the front are taken in, and the first foreign commit becomes the current one with the rest still queued. |
| Worker.DrainPosted | js/worker.js:152-171 | Main receives one commit-received per own commit, with its new head, then get-live-state if a foreign commit was reached. |
| Worker.DrainHead | js/worker.js:152-163 | head grows by the number of own commits taken in, and headText has their diffs applied in order. |
| Worker.WorkerState.AdvanceHeadState | js/worker.js:175-179 | The current commit's diff is applied to headText, and head is incremented. |
| Worker.WorkerState.OnCommitRequest | js/worker.js:232-248 | A commit request is rejected with a headless commit-received or pushed as a commit. |
| Worker.CommitRequestSends | js/worker.js:23-31 | An accepted commit carries parent = head and a diff that turns headText into the sent text. A rejected one posts commit-received without a head. |
| Worker.WorkerState.OnLiveState | js/worker.js:250-255 | With a current commit, a live update with the proposal is posted. Without one, nothing changes. |
| Worker.WorkerState.TryUpdateMain | js/worker.js:193-219 | The live update posted carries the old UI state, `Proposal` and head + 1. |
| Worker.WorkerState.PostLiveUpdate | js/worker.js:209-218 | The live-update message for head + 1 is appended. |
| Worker.ProposeUpdate | js/worker.js:193-208 | The string pipeline computes `Proposal`: mark, diff, rebase, apply twice, read and strip the markers. |
| Worker.ProposalOf | js/worker.js:200-208 | The intermediate values of the pipeline determine the proposal. |
| Worker.EmptyCommitKeepsUi | js/worker.js:193-219 | For a commit with an empty diff, the proposal is the UI state itself, selection included, when the text holds no markers. |
| Worker.MarkedReadBack | js/worker.js:197-208 | Marking a valid selection and reading it back gives the same text and selection. |
| Worker.MarkersAround | js/worker.js:205-208 | indexOf and lastIndexOf find the two markers, and two replaces remove them. |
| Worker.WorkerState.OnLiveUpdateResponse | js/worker.js:257-276 | On success, the commit is taken in and the next one tried. On failure, the live state is asked for again. |
| Worker.WorkerState.OnPause | js/worker.js:277-278 | Only paused is set. |
| Worker.WorkerState.OnPlay | js/worker.js:279-282 | paused is cleared and the queue is drained. |
| Worker.InitLoadedInOrder | js/worker.js:100-105 | An init answer on an idle worker sets up the bookkeeping: nextDiff, head and the queue line up. |
| Worker.NextUpdateInOrder | js/worker.js:128-172 | Draining keeps the bookkeeping. |
| Worker.PulledInOrder | js/worker.js:63-72 | Accepting a pulled commit keeps the bookkeeping, and a rejected one changes nothing. |
| Worker.RespondedInOrder | js/worker.js:257-276 | A response to a live update keeps the bookkeeping. |
| Worker.PlayedInOrder | js/worker.js:279-282 | Resuming keeps the bookkeeping. |
| Pad.Client.constructor | js/pad.js:2-23 | head 0, nothing pending, and the docID message is sent. |
| Pad.Client.Edit | js/pad.js:6-7 | The user's edit is what getState reports afterwards. |
| Pad.Client.TryCommit | js/pad.js:115-133 | tryCommit computes `Committed`. |
| Pad.Client.OnMessage | js/pad.js:28-109 | Each message type is handled by its branch. |
| Pad.Client.OnPause | js/pad.js:135-139 | A pause message is sent. |
| Pad.Client.OnPlay | js/pad.js:141-145 | A play message is sent. |
| Pad.PendingHoldsBack | js/pad.js:115-119 | While a commit is pending, no edit or tryCommit sends anything. Only the wish to commit is remembered. |
| Pad.CoalescedOnReceipt | js/pad.js:54-60 | Commits tried while one was pending are coalesced. On receipt exactly one commit goes out, with the latest text and the received head, or none if none was tried. |
| Pad.ReceiptClearsWish | js/pad.js:35-44 | After commit-received, the wish is cleared. A commit is pending exactly when one was wished. head moves only to a truthy received head. |
| Pad.LiveUpdateIff | js/pad.js:78-97 | A live update is applied if and only if the UI equals its old state, and the response reports which. A rejected one changes neither the UI, nor head, nor the flags. |
| Pad.AppliedUpdateCommits | js/pad.js:84-97 | An applied update with nothing pending commits the new text at the new head before answering the worker. |
| Pad.CommittedKeepsWish | js/pad.js:115-121 | After tryCommit, a wish is only remembered while a commit is pending. |
| Pad.HandledKeepsWish | js/pad.js:28-98 | Every handler except set-text keeps that rule. |
| Pad.SetTextKeepsStaleWish | js/pad.js:99-107 | set-text leaves a stale wish with nothing pending. The next tryCommit sends at once. |

## Notes on the code as modelled

- At equal indices, rebase processes the old Insert first, then a new
  Insert, then the old Delete (js/git.js:238-245). So the old text lands
  before the new one, and a new Insert at an old Delete's index is kept. The
  model follows the code.
- `applyDiff` is total in the model, with `substring`'s clamping and swapping
  written out (`Git.Substring`, with its laws in `Git.SubstringClamps`). The replica's invariant therefore holds for
  any commit pulled from the master.
- Merging two Deletes in the collapse loop adds 1 to the running size
  whatever the next Delete's size (js/git.js:92). The round trip relies on
  dp's Deletes having size 1.
- The worker's commit check reads `state.isPending` (js/worker.js:241).
  Nothing assigns it, so it is always undefined. The model has no such guard:
  a commit is accepted while the worker is mid-update.
- A commit-received whose head is 0 leaves the pad's head unchanged
  (js/pad.js:42).
- set-text clears `hasPendingCommit` but not `triedWhilePending`
  (js/pad.js:99-107).

## Left out

- Network I/O is not modelled: the HTTP requests, long-poll retries,
  timeouts, `readAll`, the master process, and `put`/`commitAndPush`'s
  resend loop. A pushed commit is recorded in the worker's `pushed` list. The
  master's log order is the order `PullCommit` is called.
- `postMessage` between main and the worker is a message log on each side.
  Delivery and interleaving are not modelled, and neither is the DOM
  (`document.createEvent`); events are recorded as a list.
- `js/main.js` (the page's wiring) is not part of this model.
- Date-based ids (`clientID`, commit `id`) are parameters.
- The worker's `docID: null` starts as the empty string.
- Worker.WorkerState.OnLiveState: with no current commit, the source throws a
  TypeError in `tryUpdateMain`. The model leaves the state unchanged.
- Worker.WorkerState.OnLiveUpdateResponse: a success with no current commit
  would throw in `advanceHeadState`. The model leaves the state unchanged.
- Server.Replica.PullCommit: a negative parent makes the source throw on the
  null genesis entry (server.js:82-83). The model reports `Crashed` after
  getDoc and `slot += 1`, and keeps the log as it was.
- Worker.InitLoadedInOrder: the bookkeeping is proved for an init answer on
  an idle worker with an empty queue. A re-init with queued commits does not
  keep it.
- Worker.RespondedInOrder: this is stated for a response that arrives while
  the worker is updating, which is when main sends one.
- Worker.Proposal: the heap methods state the posted message through the
  proposal value. TryUpdateMain and OnLiveState tie that value to `Proposal`.
- The replica's documents are values in a map, so the aliasing of
  `doc.commits` across handlers is not modelled. `rebase` mutating its d2
  argument is modelled as a value; no caller reads d2 afterwards.
- getDiff's memo table and the linked-list path reconstruction
  (js/git.js:9-19, 62-75) are performance devices. `Dp` computes the same
  cells without them.
- Git.Rebase: js/git.js:120-123 promises that d2' applies to the document
  after d1 and that the cursor markers survive. For general diffs the model
  proves only that the loops compute `Rebased`. The promise is stated for an
  empty d1 (`RebaseOntoNothing`) and for every pair of one-operation diffs
  with nonzero sizes: the case lemmas from `InsertAfterOldInsert` to
  `DeleteCoversOldDelete` give the rebased operation and the resulting
  text, and `DisjointInsertsConverge`, `InsertDeleteConverge` and
  `DisjointDeletesConverge` state that the two orders agree. It is not
  proved for longer diffs; the multi-delete fixtures are concrete
  instances only.
- A `char` stands for one UTF-16 code unit, the unit that JavaScript's
  `length`, `substring`, `indexOf` and the DOM's selectionStart/End count.
  Dafny's `char` is a Unicode scalar value, so lone surrogates cannot be
  written. The model does not cover diffs that split a surrogate pair, such
  as the Delete and lone low-surrogate Insert that getDiff gives for two
  emoji sharing a high surrogate.
- GitFixtures: test cases with longer texts use the one-operation diffs that
  patch the original into each side. getDiff is evaluated only on the
  two-letter case. The random round-trip tests are covered by `Git.RoundTrip`.
- GitFixtures: the multi-delete cases (test/test-git.js:159-170) use
  Delete lists chosen to patch the original into each side. They are not
  proved to be getDiff's output.
- GitFixtures: the long-string pair (test/test-git.js:152-157) is not
  stated, because getDiff is not evaluated on texts that long.
