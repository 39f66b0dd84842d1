/** The replica's per-document commit log (server.js): lazily created
    documents, long-poll reads of the log, the head/text snapshot handed to a
    new client, and the append step that fold-rebases a commit pulled from
    the master onto the log. */
module Server {
  import opened Wrappers
  import opened Git

  /** A commit as it travels in JSON. */
  datatype Commit = Commit(clientID: string, parent: int, diff: Diff, id: string, docID: string)

  /** An open long-poll response, by handle. */
  type Response = nat

  /** One document: the log (entry 0 is null), the responses waiting per
      future index, and the text all logged diffs produce. */
  datatype Document = Document(commits: seq<Option<Commit>>, listeners: map<int, seq<Response>>, state: string)

  /** What getDoc creates on first use. */
  const NewDocument := Document([None], map[], "")

  /** The document getDoc returns for docID, before it exists. */
  function DocOf(docs: map<string, Document>, docID: string): Document {
    if docID in docs then docs[docID] else NewDocument
  }

  /** The diff of log entry i; the null entry counts as no change. */
  function DiffAt(log: seq<Option<Commit>>, i: nat): Diff
    requires i < |log|
  {
    if log[i].Some? then log[i].value.diff else []
  }

  /** d rebased, in increasing order, over the diffs of log[lo..hi]. */
  function RebasedOver(log: seq<Option<Commit>>, lo: int, hi: int, d: Diff): Diff
    requires hi <= |log|
    decreases hi - lo
  {
    if hi <= lo || hi <= 0 then d else Rebased(DiffAt(log, hi - 1), RebasedOver(log, lo, hi - 1, d))
  }

  /** text with the diffs of log[lo..hi] applied in order, as a client
      catching up one commit at a time does. */
  function AppliedFrom(text: string, log: seq<Option<Commit>>, lo: nat, hi: nat): string
    requires hi <= |log|
    decreases hi
  {
    if hi <= lo then text else Patched(AppliedFrom(text, log, lo, hi - 1), DiffAt(log, hi - 1))
  }

  /** The text the diffs of log[1..] produce from "", applied in order. */
  function Materialized(log: seq<Option<Commit>>): string {
    AppliedFrom("", log, 1, |log|)
  }

  /** The invariant the append step keeps for every document: entry 0 is the
      null genesis, entry i is a commit whose parent is i - 1, the text is
      the log materialized, and responses wait only for future indices. */
  predicate Consistent(d: Document) {
    && |d.commits| >= 1 && d.commits[0].None?
    && (forall i :: 1 <= i < |d.commits| ==> d.commits[i].Some? && d.commits[i].value.parent == i - 1)
    && d.state == Materialized(d.commits)
    && (forall k :: k in d.listeners ==> k >= |d.commits|)
  }

  /** The document stored under id, if any, is consistent. */
  predicate ConsistentAt(docs: map<string, Document>, id: string) {
    id in docs ==> Consistent(docs[id])
  }

  /** Every document of a replica is consistent. */
  ghost predicate AllConsistent(docs: map<string, Document>) {
    forall id :: ConsistentAt(docs, id)
  }

  lemma StoreConsistent(docs: map<string, Document>, id: string, d: Document)
    requires AllConsistent(docs) && Consistent(d)
    ensures AllConsistent(docs[id := d])
  {
    var docs' := docs[id := d];
    forall id' ensures ConsistentAt(docs', id') {
      assert ConsistentAt(docs, id');
    }
  }

  /** What a get request's response carries: JSON of commits[k], which is
      null for the genesis and nothing at all for a negative k. */
  datatype Body = NullBody | EmptyBody | CommitBody(commit: Commit)

  function BodyAt(log: seq<Option<Commit>>, k: int): Body
    requires k < |log|
  {
    if k < 0 then EmptyBody else if log[k].None? then NullBody else CommitBody(log[k].value)
  }

  /** A logged commit names the entry before it as its parent. */
  lemma BodyParent(d: Document, k: int)
    requires Consistent(d) && k < |d.commits|
    ensures BodyAt(d.commits, k).CommitBody? ==> BodyAt(d.commits, k).commit.parent == k - 1
  {
  }

  /** Parking responses for a future index keeps a document consistent. */
  lemma ParkKeepsConsistent(d: Document, k: int, w: seq<Response>)
    requires Consistent(d) && k >= |d.commits|
    ensures Consistent(d.(listeners := d.listeners[k := w]))
  {
  }

  /** The responses waiting for index k. */
  function Waiting(listeners: map<int, seq<Response>>, k: int): seq<Response> {
    if k in listeners then listeners[k] else []
  }

  /** What consuming one commit from the master did: the process dies on a
      negative parent, or the commit is logged and sent to the waiters. */
  datatype Pulled = Crashed | Appended(sent: Commit, delivered: seq<Response>)

  class Replica {
    var docs: map<string, Document>
    var slot: int

    ghost predicate Valid()
      reads this
    {
      AllConsistent(docs)
    }

    constructor ()
      ensures docs == map[] && slot == 0
      ensures Valid()
    {
      docs := map[];
      slot := 0;
    }

    /** getDoc: creates the document on first use, afterwards returns the
        same one. */
    method GetDoc(docID: string) returns (doc: Document)
      requires Valid()
      modifies this
      ensures Valid()
      ensures docs == old(docs)[docID := DocOf(old(docs), docID)] && slot == old(slot)
      ensures doc == docs[docID] && Consistent(doc)
    {
      if docID !in docs {
        StoreConsistent(docs, docID, NewDocument);
        docs := docs[docID := NewDocument];
      }
      doc := docs[docID];
      assert ConsistentAt(docs, docID);
    }

    /** get: answers at once from the log, or parks the response until
        entry commitID is appended. */
    method Get(docID: string, commitID: int, res: Response) returns (answer: Option<Body>)
      requires Valid()
      modifies this
      ensures Valid() && slot == old(slot)
      ensures var d := DocOf(old(docs), docID);
        if commitID < |d.commits| then
          answer == Some(BodyAt(d.commits, commitID)) && docs == old(docs)[docID := d]
        else
          answer == None
          && docs == old(docs)[docID := d.(listeners := d.listeners[commitID := Waiting(d.listeners, commitID) + [res]])]
      ensures answer.Some? && answer.value.CommitBody? ==> answer.value.commit.parent == commitID - 1
    {
      var doc := GetDoc(docID);
      if commitID < |doc.commits| {
        BodyParent(doc, commitID);
        answer := Some(BodyAt(doc.commits, commitID));
      } else {
        var waiting := Waiting(doc.listeners, commitID);
        var parked := doc.(listeners := doc.listeners[commitID := waiting + [res]]);
        ParkKeepsConsistent(doc, commitID, waiting + [res]);
        StoreConsistent(docs, docID, parked);
        Overwrite(old(docs), docID, doc, parked);
        docs := docs[docID := parked];
        answer := None;
      }
    }

    /** init: the head index and the text of the whole log. */
    method Init(docID: string) returns (head: int, body: string)
      requires Valid()
      modifies this
      ensures Valid() && slot == old(slot)
      ensures docs == old(docs)[docID := DocOf(old(docs), docID)]
      ensures head == |docs[docID].commits| - 1 >= 0
      ensures body == Materialized(docs[docID].commits)
    {
      var doc := GetDoc(docID);
      head := |doc.commits| - 1;
      body := doc.state;
    }

    /** The append step of pullFromMaster for one commit read from the
        master. */
    method PullCommit(commit: Commit) returns (outcome: Pulled)
      requires Valid()
      modifies this
      ensures Valid()
      ensures slot == old(slot) + 1
      ensures var d := DocOf(old(docs), commit.docID);
        if commit.parent < 0 then
          outcome == Crashed && docs == old(docs)[commit.docID := d]
        else
          var sent := Relogged(d, commit);
          && outcome == Appended(sent, Waiting(d.listeners, |d.commits|))
          && docs == old(docs)[commit.docID := Logged(d, sent)]
    {
      slot := slot + 1;
      var doc := GetDoc(commit.docID);
      if commit.parent < 0 {
        // commits[parent + 1] is the null genesis or undefined: reading its
        // diff throws.
        return Crashed;
      }
      var diff := RebaseOnto(doc.commits, commit.parent, commit.diff);
      var sent := commit.(diff := diff, parent := |doc.commits| - 1);
      assert sent == Relogged(doc, commit);
      LogStored(docs, commit.docID, doc, sent);
      Overwrite(old(docs), commit.docID, doc, Logged(doc, sent));
      docs := docs[commit.docID := Logged(doc, sent)];
      outcome := Appended(sent, Waiting(doc.listeners, |doc.commits|));
    }
  }

  /** Storing twice under one key keeps only the second value. */
  lemma Overwrite<K, V>(m: map<K, V>, k: K, v: V, w: V)
    ensures m[k := v][k := w] == m[k := w]
  {
  }

  /** The commit as logged: its diff rebased over every entry after its
      parent, and its parent moved to the head. */
  function Relogged(d: Document, commit: Commit): (sent: Commit)
    ensures sent.parent == |d.commits| - 1
    ensures sent.id == commit.id && sent.clientID == commit.clientID && sent.docID == commit.docID
  {
    commit.(diff := RebasedOver(d.commits, commit.parent + 1, |d.commits|, commit.diff), parent := |d.commits| - 1)
  }

  /** d with sent appended: logged, applied to the text, and the responses
      waiting for its index dropped. */
  function Logged(d: Document, sent: Commit): Document {
    Document(d.commits + [Some(sent)], d.listeners - {|d.commits|}, Patched(d.state, sent.diff))
  }

  /** The rebase loop of the append step: d, written against entry
      parent, rebased over every later entry of the log in turn. */
  method RebaseOnto(log: seq<Option<Commit>>, parent: nat, d: Diff) returns (diff: Diff)
    ensures diff == RebasedOver(log, parent + 1, |log|, d)
  {
    diff := d;
    var i := parent + 1;
    while i < |log|
      invariant parent + 1 <= i
      invariant i <= |log| || i == parent + 1
      invariant diff == RebasedOver(log, parent + 1, if i <= |log| then i else |log|, d)
      decreases |log| - i
    {
      diff := Rebase(DiffAt(log, i), diff);
      i := i + 1;
    }
  }

  /** Applying diffs only reads the log up to the last one applied. */
  lemma {:induction false} AppliedPrefix(text: string, log: seq<Option<Commit>>, lo: nat, hi: nat, n: nat)
    requires hi <= n <= |log|
    ensures AppliedFrom(text, log[..n], lo, hi) == AppliedFrom(text, log, lo, hi)
    decreases hi
  {
    if lo < hi {
      AppliedPrefix(text, log, lo, hi - 1, n);
      assert DiffAt(log[..n], hi - 1) == DiffAt(log, hi - 1);
    }
  }

  /** Applying log[lo..mid] and then log[mid..hi] is applying log[lo..hi]. */
  lemma {:induction false} AppliedSplit(text: string, log: seq<Option<Commit>>, lo: nat, mid: nat, hi: nat)
    requires lo <= mid <= hi <= |log|
    ensures AppliedFrom(AppliedFrom(text, log, lo, mid), log, mid, hi) == AppliedFrom(text, log, lo, hi)
    decreases hi
  {
    if mid < hi {
      AppliedSplit(text, log, lo, mid, hi - 1);
    }
  }

  /** Appending a commit applies its diff to the materialized text. */
  lemma AppendMaterialized(log: seq<Option<Commit>>, c: Commit)
    requires |log| >= 1
    ensures Materialized(log + [Some(c)]) == Patched(Materialized(log), c.diff)
  {
    var log' := log + [Some(c)];
    assert log'[..|log|] == log;
    AppliedPrefix("", log', 1, |log|, |log|);
  }

  /** Logging a commit whose parent is the head keeps a document
      consistent. */
  lemma LoggedConsistent(d: Document, sent: Commit)
    requires Consistent(d) && sent.parent == |d.commits| - 1
    ensures Consistent(Logged(d, sent))
  {
    var log := d.commits + [Some(sent)];
    var d' := Logged(d, sent);
    AppendMaterialized(d.commits, sent);
    assert d'.state == Materialized(d'.commits);
    forall i | 1 <= i < |log|
      ensures log[i].Some? && log[i].value.parent == i - 1
    {
      if i < |d.commits| {
        assert log[i] == d.commits[i];
      }
    }
    assert |log| >= 1 && log[0].None?;
    forall k | k in d'.listeners
      ensures k >= |log|
    {
      assert k in d.listeners && k != |d.commits|;
    }
  }

  /** A client that loads the text at head h and then applies every later
      commit in order ends with the replica's text. */
  lemma CatchUp(log: seq<Option<Commit>>, h: nat, hi: nat)
    requires h < hi <= |log|
    ensures AppliedFrom(Materialized(log[..h + 1]), log, h + 1, hi) == Materialized(log[..hi])
  {
    AppliedPrefix("", log, 1, h + 1, h + 1);
    AppliedPrefix("", log, 1, hi, hi);
    AppliedSplit("", log, 1, h + 1, hi);
  }

  /** Storing a document with a commit logged at its head keeps the
      replica consistent. */
  lemma LogStored(docs: map<string, Document>, id: string, d: Document, sent: Commit)
    requires AllConsistent(docs) && Consistent(d) && sent.parent == |d.commits| - 1
    ensures AllConsistent(docs[id := Logged(d, sent)])
  {
    LoggedConsistent(d, sent);
    StoreConsistent(docs, id, Logged(d, sent));
  }

  /** A commit whose parent is already the head is logged unchanged. */
  lemma ClaimedHeadNotRebased(log: seq<Option<Commit>>, parent: int, d: Diff)
    requires |log| - 1 <= parent
    ensures RebasedOver(log, parent + 1, |log|, d) == d
  {
  }
}
