/** The client's web worker (js/worker.js): it holds the text as of the
    last commit it has taken in (head, headText), queues the commits pulled
    from the server, and moves each one into the UI either directly, when
    the commit is this client's own, or by proposing a rebased live update
    that the UI may accept or reject. */
module Worker {
  import opened Wrappers
  import opened Git
  import Server

  type Commit = Server.Commit

  /** The UI state main sends: its text and selection. */
  datatype UiState = UiState(text: string, selectionStart: int, selectionEnd: int)

  /** Messages the worker posts to main. A commit-received sent on a
      rejected commit request carries no head. */
  datatype ToMain =
    | SetText(text: string, head: int)
    | CommitReceived(receivedHead: Option<int>)
    | GetLiveState
    | LiveUpdate(oldState: UiState, newState: UiState, head: int)

  /** The worker's state record, with the messages it has posted to main and
      the commits it has sent to the server, in order. */
  datatype State = State(
    headText: string,
    head: int,
    clientID: string,
    pendingUpdates: seq<Commit>,
    isUpdating: bool,
    docID: string,
    paused: bool,
    currentCommit: Option<Commit>,
    nextDiff: int,
    posted: seq<ToMain>,
    pushed: seq<Commit>)

  /** The state record as the worker starts. */
  function Initial(clientID: string): State {
    State("", 0, clientID, [], false, "", false, None, 0, [], [])
  }

  // ---------------------------------------------------------------------
  // The handlers as functions of the state
  // ---------------------------------------------------------------------

  /** advanceHeadState: the current commit's diff applied to headText. */
  function Advanced(s: State): (r: State)
    requires s.currentCommit.Some?
  {
    s.(headText := Patched(s.headText, s.currentCommit.value.diff), head := s.head + 1)
  }

  /** tryNextUpdate: unless busy, paused or out of work, take the next queued
      commit; an own commit is taken in at once and the next one tried, a
      foreign one starts the round trip through the UI. */
  function NextUpdate(s: State): (r: State)
    ensures r.clientID == s.clientID && r.docID == s.docID && r.paused == s.paused
    ensures r.nextDiff == s.nextDiff && r.pushed == s.pushed
    ensures if s.isUpdating || s.paused || s.pendingUpdates == [] then r == s
            else |r.pendingUpdates| < |s.pendingUpdates|
    decreases |s.pendingUpdates|
  {
    if s.isUpdating || |s.pendingUpdates| == 0 || s.paused then s
    else
      var c := s.pendingUpdates[0];
      var t := s.(isUpdating := true, pendingUpdates := s.pendingUpdates[1..], currentCommit := Some(c));
      if c.clientID == s.clientID then
        var u := Advanced(t);
        NextUpdate(u.(isUpdating := false, posted := u.posted + [CommitReceived(Some(u.head))]))
      else t.(posted := t.posted + [GetLiveState])
  }

  /** The /init answer: the text and head to start from; main is told to
      show the text. */
  function InitLoaded(s: State, text: string, head: int): State {
    s.(headText := text, head := head, nextDiff := head + 1, posted := s.posted + [SetText(text, head)])
  }

  /** A commit pulled from the server: queued only if it continues the log
      where the last one queued ended. */
  function Pulled(s: State, commit: Commit): State {
    if commit.parent != s.nextDiff - 1 then s
    else NextUpdate(s.(pendingUpdates := s.pendingUpdates + [commit], nextDiff := s.nextDiff + 1))
  }

  /** A commit request from main: rejected when the text is unchanged or the
      parent is not the head, otherwise the diff from headText is sent. */
  function CommitRequested(s: State, text: string, parent: int, id: string): State {
    if text == s.headText || parent != s.head then s.(posted := s.posted + [CommitReceived(None)])
    else s.(pushed := s.pushed + [Server.Commit(s.clientID, parent, DiffOf(s.headText, text), id, s.docID)])
  }

  /** The UI text with a marker at each end of its selection. */
  function Marked(ui: UiState): string {
    var t := ui.text;
    Substring(t, 0, ui.selectionStart) + [Marker] + Substring(t, ui.selectionStart, ui.selectionEnd)
      + [Marker] + Substring(t, ui.selectionEnd, |t|)
  }

  /** tryUpdateMain's proposal: the local edits since headText, markers
      included, rebased over the new commit's diff and applied after it; the
      selection is read back from the markers, which are then removed. */
  function Proposal(headText: string, newDiff: Diff, ui: UiState): UiState {
    var localDiff := DiffOf(headText, Marked(ui));
    var newText := Patched(Patched(headText, newDiff), Rebased(newDiff, localDiff));
    UiState(RemoveFirst(RemoveFirst(newText, Marker), Marker),
            IndexOf(newText, Marker), LastIndexOf(newText, Marker) - 1)
  }

  /** The string computation of tryUpdateMain: mark the selection, diff
      from headText, rebase over the new commit, apply both, read back and
      strip the markers. */
  method ProposeUpdate(headText: string, newDiff: Diff, ui: UiState) returns (proposal: UiState)
    ensures proposal == Proposal(headText, newDiff, ui)
  {
    var currentText := Marked(ui);
    var localDiff := GetDiff(headText, currentText);
    var newLocalDiff := Rebase(newDiff, localDiff);
    var newHeadText := ApplyDiff(headText, newDiff);
    var newText := ApplyDiff(newHeadText, newLocalDiff);
    var newSelectionStart := IndexOf(newText, Marker);
    var newSelectionEnd := LastIndexOf(newText, Marker) - 1;
    newText := RemoveFirst(newText, Marker);
    newText := RemoveFirst(newText, Marker);
    proposal := UiState(newText, newSelectionStart, newSelectionEnd);
    ProposalOf(headText, newDiff, ui, newHeadText, newLocalDiff, proposal);
  }

  /** Proposal, step by step as tryUpdateMain computes it. */
  lemma ProposalOf(headText: string, newDiff: Diff, ui: UiState, newHeadText: string, newLocalDiff: Diff, p: UiState)
    requires newHeadText == Patched(headText, newDiff)
    requires newLocalDiff == Rebased(newDiff, DiffOf(headText, Marked(ui)))
    requires var newText := Patched(newHeadText, newLocalDiff);
      p == UiState(RemoveFirst(RemoveFirst(newText, Marker), Marker), IndexOf(newText, Marker), LastIndexOf(newText, Marker) - 1)
    ensures p == Proposal(headText, newDiff, ui)
  {
  }

  /** The live state main sent: a live update is proposed for the current
      commit; with no current commit the handler throws. */
  function LiveStateGiven(s: State, ui: UiState, proposal: UiState): State {
    if s.currentCommit.None? then s
    else s.(posted := s.posted + [LiveUpdate(ui, proposal, s.head + 1)])
  }

  /** main's answer to a live update: on success the commit is taken in and
      the next one tried, otherwise the live state is asked for again. */
  function Responded(s: State, success: bool): State {
    if !success then s.(posted := s.posted + [GetLiveState])
    else if s.currentCommit.None? then s
    else NextUpdate(Advanced(s).(isUpdating := false))
  }

  function Paused(s: State): State {
    s.(paused := true)
  }

  function Played(s: State): State {
    NextUpdate(s.(paused := false))
  }

  // ---------------------------------------------------------------------
  // The worker
  // ---------------------------------------------------------------------

  class WorkerState {
    var headText: string
    var head: int
    const clientID: string
    var pendingUpdates: seq<Commit>
    var isUpdating: bool
    var docID: string
    var paused: bool
    var currentCommit: Option<Commit>
    var nextDiff: int
    var posted: seq<ToMain>
    var pushed: seq<Commit>

    function Current(): State
      reads this
    {
      State(headText, head, clientID, pendingUpdates, isUpdating, docID, paused, currentCommit, nextDiff, posted, pushed)
    }

    constructor (clientID: string)
      ensures Current() == Initial(clientID)
    {
      headText := "";
      head := 0;
      this.clientID := clientID;
      pendingUpdates := [];
      isUpdating := false;
      docID := "";
      paused := false;
      currentCommit := None;
      nextDiff := 0;
      posted := [];
      pushed := [];
    }

    /** The docID message; the pull it starts is network I/O. */
    method OnDocID(id: string)
      modifies this
      ensures Current() == old(Current()).(docID := id)
    {
      docID := id;
    }

    /** The load handler of the /init request. */
    method OnInitLoaded(text: string, h: int)
      modifies this
      ensures Current() == InitLoaded(old(Current()), text, h)
    {
      headText := text;
      head := h;
      nextDiff := head + 1;
      posted := posted + [SetText(headText, head)];
    }

    /** The success handler of a pull, for a response with status 200. */
    method OnPulled(commit: Commit)
      modifies this
      ensures Current() == Pulled(old(Current()), commit)
    {
      if commit.parent != nextDiff - 1 {
        return;
      }
      pendingUpdates := pendingUpdates + [commit];
      nextDiff := nextDiff + 1;
      TryNextUpdate();
    }

    method TryNextUpdate()
      modifies this
      ensures Current() == NextUpdate(old(Current()))
      decreases |pendingUpdates|
    {
      if isUpdating || |pendingUpdates| == 0 || paused {
        return;
      }
      isUpdating := true;
      var commit := pendingUpdates[0];
      pendingUpdates := pendingUpdates[1..];
      currentCommit := Some(commit);
      if commit.clientID == clientID {
        AdvanceHeadState();
        isUpdating := false;
        posted := posted + [CommitReceived(Some(head))];
        TryNextUpdate();
      } else {
        posted := posted + [GetLiveState];
      }
    }

    method AdvanceHeadState()
      requires currentCommit.Some?
      modifies this
      ensures Current() == Advanced(old(Current()))
    {
      var newHeadText := ApplyDiff(headText, currentCommit.value.diff);
      headText := newHeadText;
      head := head + 1;
    }

    /** The commit message from main, and commitAndPush when accepted. */
    method OnCommitRequest(text: string, parent: int, id: string)
      modifies this
      ensures Current() == CommitRequested(old(Current()), text, parent, id)
    {
      if text == headText || parent != head {
        posted := posted + [CommitReceived(None)];
      } else {
        var diff := GetDiff(headText, text);
        pushed := pushed + [Server.Commit(clientID, parent, diff, id, docID)];
      }
    }

    method OnLiveState(ui: UiState) returns (proposal: UiState)
      modifies this
      ensures old(currentCommit).Some? ==> proposal == Proposal(old(headText), old(currentCommit).value.diff, ui)
      ensures Current() == LiveStateGiven(old(Current()), ui, proposal)
    {
      if currentCommit.None? {
        return ui;
      }
      proposal := TryUpdateMain(ui);
    }

    method TryUpdateMain(ui: UiState) returns (proposal: UiState)
      requires currentCommit.Some?
      modifies this
      ensures proposal == Proposal(old(headText), old(currentCommit).value.diff, ui)
      ensures Current() == LiveStateGiven(old(Current()), ui, proposal)
    {
      proposal := ProposeUpdate(headText, currentCommit.value.diff, ui);
      PostLiveUpdate(ui, proposal);
    }

    /** The live-update message, proposing newState for head + 1. */
    method PostLiveUpdate(ui: UiState, newState: UiState)
      requires currentCommit.Some?
      modifies this
      ensures Current() == LiveStateGiven(old(Current()), ui, newState)
    {
      posted := posted + [LiveUpdate(ui, newState, head + 1)];
    }

    method OnLiveUpdateResponse(success: bool)
      modifies this
      ensures Current() == Responded(old(Current()), success)
    {
      if success {
        if currentCommit.None? {
          return;
        }
        AdvanceHeadState();
        isUpdating := false;
        TryNextUpdate();
      } else {
        posted := posted + [GetLiveState];
      }
    }

    method OnPause()
      modifies this
      ensures Current() == Paused(old(Current()))
    {
      paused := true;
    }

    method OnPlay()
      modifies this
      ensures Current() == Played(old(Current()))
    {
      paused := false;
      TryNextUpdate();
    }
  }

  // ---------------------------------------------------------------------
  // Properties
  // ---------------------------------------------------------------------

  /** The texts the diffs of cs produce from text, applied in order. */
  function PatchAll(text: string, cs: seq<Commit>): string
    decreases |cs|
  {
    if cs == [] then text else PatchAll(Patched(text, cs[0].diff), cs[1..])
  }

  /** The commit-received messages for heads h + 1 .. h + n. */
  function Receipts(h: int, n: nat): seq<ToMain>
    decreases n
  {
    if n == 0 then [] else [CommitReceived(Some(h + 1))] + Receipts(h + 1, n - 1)
  }

  /** How many commits at the front of cs are the client's own. */
  function OwnRun(cs: seq<Commit>, id: string): (n: nat)
    ensures n <= |cs|
    ensures forall k :: 0 <= k < n ==> cs[k].clientID == id
    ensures n < |cs| ==> cs[n].clientID != id
  {
    if cs == [] || cs[0].clientID != id then 0 else 1 + OwnRun(cs[1..], id)
  }

  /** Draining the queue of a free worker: its own commits at the front are
      taken in without a UI round trip; the first foreign commit becomes the
      current one and starts a round trip, and the commits after it stay
      queued. */
  predicate QueueDrained(s: State, r: State) {
    var n := OwnRun(s.pendingUpdates, s.clientID);
    if n < |s.pendingUpdates| then
      && r.isUpdating && r.currentCommit == Some(s.pendingUpdates[n])
      && r.pendingUpdates == s.pendingUpdates[n + 1..]
    else
      !r.isUpdating && r.pendingUpdates == []
  }

  lemma {:induction false} DrainQueue(s: State)
    requires !s.isUpdating && !s.paused
    ensures QueueDrained(s, NextUpdate(s))
    decreases |s.pendingUpdates|
  {
    if s.pendingUpdates != [] && s.pendingUpdates[0].clientID == s.clientID {
      var v := DrainStep(s);
      DrainQueue(v);
      QueueDrainedStep(s, v, NextUpdate(s));
    }
  }

  /** The queue left after the drain is the same whether counted from
      before or after one own commit is taken in. */
  lemma QueueDrainedStep(s: State, v: State, r: State)
    requires s.pendingUpdates != [] && s.pendingUpdates[0].clientID == s.clientID
    requires v.clientID == s.clientID && v.pendingUpdates == s.pendingUpdates[1..]
    requires QueueDrained(v, r)
    ensures QueueDrained(s, r)
  {
    var n' := OwnRun(v.pendingUpdates, s.clientID);
    if n' < |v.pendingUpdates| {
      assert v.pendingUpdates[n' + 1..] == s.pendingUpdates[n' + 2..];
    }
  }

  /** What the drain tells main: one commit-received per own commit, with
      its new head, then a request for the live state if a foreign commit
      was reached. */
  function Announced(s: State): seq<ToMain> {
    var n := OwnRun(s.pendingUpdates, s.clientID);
    s.posted + Receipts(s.head, n) + (if n < |s.pendingUpdates| then [GetLiveState] else [])
  }

  lemma {:induction false} DrainPosted(s: State)
    requires !s.isUpdating && !s.paused
    ensures NextUpdate(s).posted == Announced(s)
    decreases |s.pendingUpdates|
  {
    if s.pendingUpdates != [] && s.pendingUpdates[0].clientID == s.clientID {
      var v := DrainStep(s);
      DrainPosted(v);
      AnnouncedStep(s, v);
    } else {
      DrainStops(s);
    }
  }

  /** Taking in one own commit moves its announcement from the drain's
      future to what is already posted. */
  lemma AnnouncedStep(s: State, v: State)
    requires s.pendingUpdates != [] && s.pendingUpdates[0].clientID == s.clientID
    requires v.clientID == s.clientID && v.pendingUpdates == s.pendingUpdates[1..]
    requires v.head == s.head + 1 && v.posted == s.posted + [CommitReceived(Some(s.head + 1))]
    ensures Announced(v) == Announced(s)
  {
    var n' := OwnRun(v.pendingUpdates, s.clientID);
    var tail: seq<ToMain> := if n' < |v.pendingUpdates| then [GetLiveState] else [];
    assert Receipts(s.head, n' + 1) == [CommitReceived(Some(s.head + 1))] + Receipts(s.head + 1, n');
    assert s.posted + [CommitReceived(Some(s.head + 1))] + Receipts(s.head + 1, n') + tail
        == s.posted + ([CommitReceived(Some(s.head + 1))] + Receipts(s.head + 1, n')) + tail;
  }

  /** A drain that meets no own commit announces nothing of its own. */
  lemma DrainStops(s: State)
    requires !s.isUpdating && !s.paused
    requires s.pendingUpdates == [] || s.pendingUpdates[0].clientID != s.clientID
    ensures NextUpdate(s).posted == Announced(s)
  {
    assert Receipts(s.head, 0) == [];
    if s.pendingUpdates == [] {
      assert s.posted + [] + [] == s.posted;
    } else {
      assert s.posted + [] + [GetLiveState] == s.posted + [GetLiveState];
    }
  }

  /** The same drain, for the text: head moves by one per own commit, and
      headText has their diffs applied in order. */
  function DrainedText(s: State): string {
    PatchAll(s.headText, s.pendingUpdates[..OwnRun(s.pendingUpdates, s.clientID)])
  }

  lemma {:induction false} DrainHead(s: State)
    requires !s.isUpdating && !s.paused
    ensures NextUpdate(s).head == s.head + OwnRun(s.pendingUpdates, s.clientID)
    ensures NextUpdate(s).headText == DrainedText(s)
    decreases |s.pendingUpdates|
  {
    if s.pendingUpdates != [] && s.pendingUpdates[0].clientID == s.clientID {
      var v := DrainStep(s);
      DrainHead(v);
      DrainedTextStep(s, v);
    } else {
      assert s.pendingUpdates[..0] == [];
    }
  }

  /** Taking in one own commit applies its diff to headText ahead of the
      rest of the drain. */
  lemma DrainedTextStep(s: State, v: State)
    requires s.pendingUpdates != [] && s.pendingUpdates[0].clientID == s.clientID
    requires v.clientID == s.clientID && v.pendingUpdates == s.pendingUpdates[1..]
    requires v.headText == Patched(s.headText, s.pendingUpdates[0].diff)
    ensures OwnRun(s.pendingUpdates, s.clientID) == OwnRun(v.pendingUpdates, v.clientID) + 1
    ensures DrainedText(v) == DrainedText(s)
  {
    var n' := OwnRun(v.pendingUpdates, s.clientID);
    assert s.pendingUpdates[..n' + 1][1..] == v.pendingUpdates[..n'];
  }

  /** One own commit taken in by tryNextUpdate, before it recurses. */
  function DrainStep(s: State): (v: State)
    requires !s.isUpdating && !s.paused && s.pendingUpdates != [] && s.pendingUpdates[0].clientID == s.clientID
    ensures NextUpdate(v) == NextUpdate(s)
    ensures !v.isUpdating && !v.paused && v.clientID == s.clientID && v.pendingUpdates == s.pendingUpdates[1..]
    ensures v.head == s.head + 1 && v.headText == Patched(s.headText, s.pendingUpdates[0].diff)
    ensures v.posted == s.posted + [CommitReceived(Some(s.head + 1))]
  {
    var c := s.pendingUpdates[0];
    var u := Advanced(s.(isUpdating := true, pendingUpdates := s.pendingUpdates[1..], currentCommit := Some(c)));
    u.(isUpdating := false, posted := u.posted + [CommitReceived(Some(u.head))])
  }

  /** The worker's bookkeeping of the log: nextDiff is the index after the
      last commit queued, the current commit (while updating) sits on head,
      and the queued commits follow it one index apart. */
  predicate InOrder(s: State) {
    var busy := if s.isUpdating then 1 else 0;
    && s.nextDiff == s.head + busy + |s.pendingUpdates| + 1
    && (s.isUpdating ==> s.currentCommit.Some? && s.currentCommit.value.parent == s.head)
    && forall k :: 0 <= k < |s.pendingUpdates| ==> s.pendingUpdates[k].parent == s.head + busy + k
  }

  /** An /init answer on an idle worker starts the bookkeeping. */
  lemma InitLoadedInOrder(s: State, text: string, h: int)
    requires !s.isUpdating && s.pendingUpdates == []
    ensures InOrder(InitLoaded(s, text, h))
  {
  }

  /** Taking in queued commits keeps the bookkeeping. */
  lemma {:induction false} NextUpdateInOrder(s: State)
    requires InOrder(s)
    ensures InOrder(NextUpdate(s))
    decreases |s.pendingUpdates|
  {
    if !(s.isUpdating || |s.pendingUpdates| == 0 || s.paused) {
      var c := s.pendingUpdates[0];
      var t := s.(isUpdating := true, pendingUpdates := s.pendingUpdates[1..], currentCommit := Some(c));
      assert forall k :: 0 <= k < |t.pendingUpdates| ==> t.pendingUpdates[k] == s.pendingUpdates[k + 1];
      if c.clientID == s.clientID {
        var u := Advanced(t);
        NextUpdateInOrder(u.(isUpdating := false, posted := u.posted + [CommitReceived(Some(u.head))]));
      }
    }
  }

  /** Only a commit continuing the queue is accepted, so pulling keeps the
      bookkeeping. */
  lemma PulledInOrder(s: State, commit: Commit)
    requires InOrder(s)
    ensures InOrder(Pulled(s, commit))
    ensures commit.parent != s.nextDiff - 1 ==> Pulled(s, commit) == s
  {
    if commit.parent == s.nextDiff - 1 {
      var s' := s.(pendingUpdates := s.pendingUpdates + [commit], nextDiff := s.nextDiff + 1);
      assert forall k :: 0 <= k < |s.pendingUpdates| ==> s'.pendingUpdates[k] == s.pendingUpdates[k];
      NextUpdateInOrder(s');
    }
  }

  /** An accepted live update, answering the round trip of the current
      commit, keeps the bookkeeping. */
  lemma RespondedInOrder(s: State, success: bool)
    requires InOrder(s) && s.isUpdating
    ensures InOrder(Responded(s, success))
  {
    if success {
      NextUpdateInOrder(Advanced(s).(isUpdating := false));
    }
  }

  /** Resuming keeps the bookkeeping. */
  lemma PlayedInOrder(s: State)
    requires InOrder(s)
    ensures InOrder(Played(s))
  {
    NextUpdateInOrder(s.(paused := false));
  }

  /** A commit request is sent only for a changed text on head, and what is
      sent turns headText into the text; otherwise main is freed with an
      empty commit-received and nothing is sent. */
  lemma CommitRequestSends(s: State, text: string, parent: int, id: string)
    ensures var r := CommitRequested(s, text, parent, id);
      if text != s.headText && parent == s.head then
        && |r.pushed| == |s.pushed| + 1 && r.pushed[..|s.pushed|] == s.pushed
        && r.pushed[|s.pushed|].parent == s.head && r.pushed[|s.pushed|].clientID == s.clientID
        && Patched(s.headText, r.pushed[|s.pushed|].diff) == text
        && r.posted == s.posted
      else
        r.pushed == s.pushed && r.posted == s.posted + [CommitReceived(None)]
  {
    RoundTrip(s.headText, text);
    var r := CommitRequested(s, text, parent, id);
    if text != s.headText && parent == s.head {
      assert r.pushed[..|s.pushed|] == s.pushed;
    }
  }

  /** A commit that changes nothing proposes the UI state unchanged: the
      markers come back where the selection was, and are removed again. */
  lemma EmptyCommitKeepsUi(headText: string, ui: UiState)
    requires 0 <= ui.selectionStart <= ui.selectionEnd <= |ui.text| && Marker !in ui.text
    ensures Proposal(headText, [], ui) == ui
  {
    var marked := Marked(ui);
    var localDiff := DiffOf(headText, marked);
    RebaseOntoNothing(localDiff);
    PatchedNothing(headText);
    RoundTrip(headText, marked);
    MarkedReadBack(ui);
    ProposalOf(headText, [], ui, headText, localDiff, ui);
  }

  /** Marking the selection and reading it back gives the UI state again. */
  lemma MarkedReadBack(ui: UiState)
    requires 0 <= ui.selectionStart <= ui.selectionEnd <= |ui.text| && Marker !in ui.text
    ensures var m := Marked(ui);
      UiState(RemoveFirst(RemoveFirst(m, Marker), Marker), IndexOf(m, Marker), LastIndexOf(m, Marker) - 1) == ui
  {
    var t, ss, se := ui.text, ui.selectionStart, ui.selectionEnd;
    var x, y, z := Substring(t, 0, ss), Substring(t, ss, se), Substring(t, se, |t|);
    SplitThree(t, ss, se);
    MarkersAround(x, y, z);
  }

  /** Cutting t at ss and se gives three marker-free pieces that join back
      to t. */
  lemma SplitThree(t: string, ss: int, se: int)
    requires 0 <= ss <= se <= |t| && Marker !in t
    ensures var x, y, z := Substring(t, 0, ss), Substring(t, ss, se), Substring(t, se, |t|);
      Marker !in x && Marker !in y && Marker !in z && x + y + z == t
  {
    var x, y, z := t[..ss], t[ss..se], t[se..];
    assert Marker !in x && Marker !in y && Marker !in z by {
      assert forall ch :: ch in x || ch in y || ch in z ==> ch in t;
    }
    assert x + y + z == t;
  }

  /** An empty diff leaves the text as it is. */
  lemma PatchedNothing(content: string)
    ensures Patched(content, []) == content
  {
    assert content[0..|content|] == content;
  }

  /** Reading back and removing the two selection markers placed around b. */
  lemma MarkersAround(a: string, b: string, c: string)
    requires Marker !in a && Marker !in b && Marker !in c
    ensures IndexOf(a + [Marker] + b + [Marker] + c, Marker) == |a|
    ensures LastIndexOf(a + [Marker] + b + [Marker] + c, Marker) == |a| + |b| + 1
    ensures RemoveFirst(RemoveFirst(a + [Marker] + b + [Marker] + c, Marker), Marker) == a + b + c
  {
    MarkerFirst(a, b, c);
    LastMarker(a + [Marker] + b, c);
    assert Marker !in a + b;
    FirstMarker(a + b, c);
  }

  /** The first of the two markers is the one after a. */
  lemma MarkerFirst(a: string, b: string, c: string)
    requires Marker !in a
    ensures IndexOf(a + [Marker] + b + [Marker] + c, Marker) == |a|
    ensures RemoveFirst(a + [Marker] + b + [Marker] + c, Marker) == a + b + [Marker] + c
  {
    assert a + [Marker] + b + [Marker] + c == a + [Marker] + (b + [Marker] + c);
    FirstMarker(a, b + [Marker] + c);
    assert a + (b + [Marker] + c) == a + b + [Marker] + c;
  }

  /** The first marker of x + [Marker] + y, when x has none. */
  lemma FirstMarker(x: string, y: string)
    requires Marker !in x
    ensures IndexOf(x + [Marker] + y, Marker) == |x|
    ensures RemoveFirst(x + [Marker] + y, Marker) == x + y
  {
    var s := x + [Marker] + y;
    assert s[|x|] == Marker;
    assert s[..|x|] + s[|x| + 1..] == x + y;
  }

  /** The last marker of x + [Marker] + y, when y has none. */
  lemma LastMarker(x: string, y: string)
    requires Marker !in y
    ensures LastIndexOf(x + [Marker] + y, Marker) == |x|
  {
    var s := x + [Marker] + y;
    assert s[|x|] == Marker;
  }
}
