/** The pad client on the page's main thread (js/pad.js): it keeps the head
    the UI shows, lets at most one commit of the UI's text be pending with
    the worker, and applies the worker's live updates only when the UI has
    not changed since the worker read it. */
module Pad {
  import opened Wrappers
  import Worker

  type UiState = Worker.UiState

  /** Messages main posts to the worker. */
  datatype ToWorker =
    | DocID(docID: string)
    | CommitText(text: string, parent: int)
    | LiveState(state: UiState)
    | LiveUpdateResponse(success: bool)
    | Pause
    | Play

  /** The DOM events the pad dispatches; a commit-received carries no new
      state, so its commit-applied event has no detail. */
  datatype Event =
    | CommitApplied(detail: Option<UiState>)
    | CommitSent(text: string, parent: int)

  /** The pad's state record, the UI state behind getState/setState, and the
      messages and events it has produced, in order. */
  datatype State = State(
    docID: string,
    ui: UiState,
    head: int,
    hasPendingCommit: bool,
    triedWhilePending: bool,
    sent: seq<ToWorker>,
    events: seq<Event>)

  /** A new pad: head 0, nothing pending, and the docID sent to its worker. */
  function Initial(docID: string, ui: UiState): State {
    State(docID, ui, 0, false, false, [DocID(docID)], [])
  }

  // ---------------------------------------------------------------------
  // The handlers as functions of the state
  // ---------------------------------------------------------------------

  /** tryCommit: while a commit is pending only remember that one was
      wanted; otherwise send the UI's text with head as its parent. */
  function Committed(s: State): State {
    if s.hasPendingCommit then s.(triedWhilePending := true)
    else s.(hasPendingCommit := true, triedWhilePending := false,
            sent := s.sent + [CommitText(s.ui.text, s.head)],
            events := s.events + [CommitSent(s.ui.text, s.head)])
  }

  /** The head a commit-received message leaves: the received one when it is
      truthy, which a head of 0 is not. */
  function ReceivedHead(s: State, receivedHead: Option<int>): int {
    if receivedHead.Some? && receivedHead.value != 0 then receivedHead.value else s.head
  }

  /** commit-received: the commit is no longer pending; a commit wanted in
      the meantime is tried now. */
  function Received(s: State, receivedHead: Option<int>): State {
    var t := s.(hasPendingCommit := false, head := ReceivedHead(s, receivedHead),
                events := s.events + [CommitApplied(None)]);
    if s.triedWhilePending then Committed(t) else t
  }

  /** get-live-state: the UI state is sent to the worker. */
  function LiveStateSent(s: State): State {
    s.(sent := s.sent + [LiveState(s.ui)])
  }

  /** live-update: applied only when the UI still shows oldState, after
      which the new state is committed if possible; the worker is told which
      it was. */
  function LiveUpdated(s: State, oldState: UiState, newState: UiState, head: int): State {
    if oldState == s.ui then
      var t := Committed(s.(head := head, ui := newState, events := s.events + [CommitApplied(Some(newState))]));
      t.(sent := t.sent + [LiveUpdateResponse(true)])
    else s.(sent := s.sent + [LiveUpdateResponse(false)])
  }

  /** set-text: the UI shows text with the caret at its start. */
  function TextSet(s: State, text: string, head: int): State {
    s.(ui := Worker.UiState(text, 0, 0), head := head, hasPendingCommit := false)
  }

  /** The worker's onmessage dispatch, by message type. */
  function Handled(s: State, msg: Worker.ToMain): State {
    match msg
    case CommitReceived(h) => Received(s, h)
    case GetLiveState => LiveStateSent(s)
    case LiveUpdate(oldState, newState, head) => LiveUpdated(s, oldState, newState, head)
    case SetText(text, head) => TextSet(s, text, head)
  }

  // ---------------------------------------------------------------------
  // The pad
  // ---------------------------------------------------------------------

  class Client {
    const docID: string
    var ui: UiState
    var head: int
    var hasPendingCommit: bool
    var triedWhilePending: bool
    var sent: seq<ToWorker>
    var events: seq<Event>

    function Current(): State
      reads this
    {
      State(docID, ui, head, hasPendingCommit, triedWhilePending, sent, events)
    }

    /** The Pad constructor; ui is what getState returns at the start. */
    constructor (docID: string, ui: UiState)
      ensures Current() == Initial(docID, ui)
    {
      this.docID := docID;
      this.ui := ui;
      head := 0;
      hasPendingCommit := false;
      triedWhilePending := false;
      sent := [DocID(docID)];
      events := [];
    }

    /** The user editing the UI, which getState then reports. */
    method Edit(newUi: UiState)
      modifies this
      ensures Current() == old(Current()).(ui := newUi)
    {
      ui := newUi;
    }

    method TryCommit()
      modifies this
      ensures Current() == Committed(old(Current()))
    {
      if hasPendingCommit {
        triedWhilePending := true;
        return;
      }
      hasPendingCommit := true;
      triedWhilePending := false;
      sent := sent + [CommitText(ui.text, head)];
      events := events + [CommitSent(ui.text, head)];
    }

    method OnMessage(msg: Worker.ToMain)
      modifies this
      ensures Current() == Handled(old(Current()), msg)
    {
      match msg
      case CommitReceived(h) =>
        hasPendingCommit := false;
        if h.Some? && h.value != 0 {
          head := h.value;
        }
        events := events + [CommitApplied(None)];
        if triedWhilePending {
          TryCommit();
        }
      case GetLiveState =>
        sent := sent + [LiveState(ui)];
      case LiveUpdate(oldState, newState, h) =>
        var success := false;
        if oldState == ui {
          success := true;
          head := h;
          ui := newState;
          events := events + [CommitApplied(Some(newState))];
          TryCommit();
        }
        sent := sent + [LiveUpdateResponse(success)];
      case SetText(text, h) =>
        ui := Worker.UiState(text, 0, 0);
        head := h;
        hasPendingCommit := false;
    }

    method OnPause()
      modifies this
      ensures Current() == old(Current()).(sent := old(sent) + [Pause])
    {
      sent := sent + [Pause];
    }

    method OnPlay()
      modifies this
      ensures Current() == old(Current()).(sent := old(sent) + [Play])
    {
      sent := sent + [Play];
    }
  }

  // ---------------------------------------------------------------------
  // Properties
  // ---------------------------------------------------------------------

  /** What happens on the page while a commit is pending: the user edits,
      or something calls tryCommit. */
  datatype Action = Type(newUi: UiState) | Try

  function Run(s: State, acts: seq<Action>): State
    decreases |acts|
  {
    if acts == [] then s
    else
      var t := match acts[0] case Type(newUi) => s.(ui := newUi) case Try => Committed(s);
      Run(t, acts[1..])
  }

  /** The UI state after the edits among acts. */
  function LastUi(ui: UiState, acts: seq<Action>): UiState
    decreases |acts|
  {
    if acts == [] then ui
    else LastUi(if acts[0].Type? then acts[0].newUi else ui, acts[1..])
  }

  /** While a commit is pending, nothing reaches the worker however much the
      user types and commits are tried; the pad only remembers whether one
      was wanted. */
  lemma {:induction false} PendingHoldsBack(s: State, acts: seq<Action>)
    requires s.hasPendingCommit
    ensures var r := Run(s, acts);
      && r.sent == s.sent && r.events == s.events && r.head == s.head
      && r.hasPendingCommit && r.ui == LastUi(s.ui, acts)
      && (r.triedWhilePending <==> s.triedWhilePending || Try in acts)
    decreases |acts|
  {
    if acts != [] {
      var t := match acts[0] case Type(newUi) => s.(ui := newUi) case Try => Committed(s);
      PendingHoldsBack(t, acts[1..]);
      assert acts == [acts[0]] + acts[1..];
      assert Try in acts <==> acts[0] == Try || Try in acts[1..];
    }
  }

  /** Commits tried while one is pending are coalesced: when the pending one
      is received, exactly one commit goes out, carrying the text the user
      has at that point, with the received head as its parent; if none was
      tried, nothing goes out. */
  lemma CoalescedOnReceipt(s: State, acts: seq<Action>, receivedHead: Option<int>)
    requires s.hasPendingCommit
    ensures var r, h := Received(Run(s, acts), receivedHead), ReceivedHead(s, receivedHead);
      if s.triedWhilePending || Try in acts then
        && r.sent == s.sent + [CommitText(LastUi(s.ui, acts).text, h)]
        && r.hasPendingCommit && !r.triedWhilePending && r.head == h
      else
        r.sent == s.sent && !r.hasPendingCommit && !r.triedWhilePending && r.head == h
  {
    PendingHoldsBack(s, acts);
  }

  /** A commit-received always ends the wait for the old commit: the flag
      for a wanted commit is cleared, and a commit is pending again exactly
      when one was wanted. */
  lemma ReceiptClearsWish(s: State, receivedHead: Option<int>)
    ensures var r := Received(s, receivedHead);
      && !r.triedWhilePending && (r.hasPendingCommit <==> s.triedWhilePending)
      && (r.head == s.head || (receivedHead == Some(r.head) && r.head != 0))
  {
  }

  /** A live update is applied if and only if the UI still shows the state
      the worker read, and the answer to the worker says which; a rejected
      one changes neither the UI nor head nor the commit flags. */
  lemma LiveUpdateIff(s: State, oldState: UiState, newState: UiState, head: int)
    ensures var r := LiveUpdated(s, oldState, newState, head);
      && |r.sent| > 0 && r.sent[|r.sent| - 1] == LiveUpdateResponse(oldState == s.ui)
      && (oldState == s.ui ==> r.ui == newState && r.head == head && r.hasPendingCommit)
      && (oldState != s.ui ==>
            && r.ui == s.ui && r.head == s.head && r.hasPendingCommit == s.hasPendingCommit
            && r.triedWhilePending == s.triedWhilePending && r.sent == s.sent + [LiveUpdateResponse(false)])
  {
  }

  /** An applied live update is committed right away when nothing is
      pending: the new text goes out with the new head as its parent,
      before the answer to the worker. */
  lemma AppliedUpdateCommits(s: State, newState: UiState, head: int)
    requires !s.hasPendingCommit
    ensures LiveUpdated(s, s.ui, newState, head).sent
      == s.sent + [CommitText(newState.text, head), LiveUpdateResponse(true)]
  {
  }

  /** A wish to commit is only remembered while a commit is pending. Every
      handler keeps this except set-text, which clears the pending flag and
      leaves the wish in place. */
  predicate WishOnlyWhilePending(s: State) {
    s.triedWhilePending ==> s.hasPendingCommit
  }

  lemma HandledKeepsWish(s: State, msg: Worker.ToMain)
    requires WishOnlyWhilePending(s) && !msg.SetText?
    ensures WishOnlyWhilePending(Handled(s, msg))
  {
  }

  /** set-text with a remembered wish breaks the rule; the stale wish is
      dropped by the next tryCommit, which sends at once. */
  lemma SetTextKeepsStaleWish(s: State, text: string, head: int)
    requires s.triedWhilePending
    ensures !WishOnlyWhilePending(TextSet(s, text, head))
    ensures var r := Committed(TextSet(s, text, head));
      WishOnlyWhilePending(r) && r.sent == s.sent + [CommitText(text, head)]
  {
  }

  lemma CommittedKeepsWish(s: State)
    ensures WishOnlyWhilePending(Committed(s))
  {
  }
}
