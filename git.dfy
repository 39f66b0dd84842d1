/** Diff, patch and rebase over plain text (js/git.js).

    A diff is a sequence of operations against ONE base text: an index always
    names a position in the text before the diff is applied. */
module Git {

  /** The two kinds of edit operation. */
  datatype Op = Insert(index: int, val: string) | Delete(index: int, size: int)

  type Diff = seq<Op>

  /** The character used to mark the two selection bounds inside a text. */
  const Marker: char := '\0'

  // ---------------------------------------------------------------------
  // JavaScript string primitives used by the source
  // ---------------------------------------------------------------------

  function Clamp(k: int, n: nat): (r: nat)
    ensures r <= n
    ensures 0 <= k <= n ==> r == k
  {
    if k < 0 then 0 else if k > n then n else k
  }

  /** String.prototype.substring: both bounds are clamped into [0, |s|]
      and swapped when the first exceeds the second. */
  function Substring(s: string, start: int, end: int): (r: string)
    ensures 0 <= start <= end <= |s| ==> r == s[start..end]
    ensures start == end ==> r == ""
  {
    var a, b := Clamp(start, |s|), Clamp(end, |s|);
    if a <= b then s[a..b] else s[b..a]
  }

  /** The clamping and swapping of substring: bounds out of range act as
      the nearest end of the text, and reversed bounds give the same slice
      as ordered ones. */
  lemma SubstringClamps(s: string, start: int, end: int)
    ensures Substring(s, start, end) == Substring(s, end, start)
    ensures 0 <= end <= start <= |s| ==> Substring(s, start, end) == s[end..start]
    ensures start <= 0 ==> Substring(s, start, end) == Substring(s, 0, end)
    ensures end >= |s| ==> Substring(s, start, end) == Substring(s, start, |s|)
    ensures |Substring(s, start, end)| <= |s|
  {
    var a, b := Clamp(start, |s|), Clamp(end, |s|);
    assert Substring(s, start, end) == if a <= b then s[a..b] else s[b..a];
    assert Substring(s, end, start) == if b <= a then s[b..a] else s[a..b];
    assert start <= 0 ==> a == Clamp(0, |s|);
    assert end >= |s| ==> b == Clamp(|s|, |s|);
  }

  /** Number of occurrences of c in s. */
  function Count(s: string, c: char): (n: nat)
    ensures n <= |s|
    ensures n == 0 <==> c !in s
  {
    if s == [] then 0 else Count(s[..|s| - 1], c) + (if s[|s| - 1] == c then 1 else 0)
  }

  /** String.prototype.indexOf for a one-character needle. */
  function IndexOf(s: string, c: char): (k: int)
    ensures -1 <= k < |s|
    ensures k == -1 <==> c !in s
    ensures k >= 0 ==> s[k] == c && forall l :: 0 <= l < k ==> s[l] != c
  {
    if s == [] then -1
    else if s[0] == c then 0
    else
      var k := IndexOf(s[1..], c);
      assert forall l :: 1 <= l < |s| ==> s[l] == s[1..][l - 1];
      if k == -1 then -1 else k + 1
  }

  /** String.prototype.lastIndexOf for a one-character needle. */
  function LastIndexOf(s: string, c: char): (k: int)
    ensures -1 <= k < |s|
    ensures k == -1 <==> c !in s
    ensures k >= 0 ==> s[k] == c && forall l :: k < l < |s| ==> s[l] != c
  {
    if s == [] then -1
    else if s[|s| - 1] == c then |s| - 1
    else
      var init := s[..|s| - 1];
      assert forall l :: 0 <= l < |s| - 1 ==> s[l] == init[l];
      assert c in s ==> c in init;
      LastIndexOf(init, c)
  }

  /** String.prototype.replace(c, ""): removes the first occurrence only. */
  function RemoveFirst(s: string, c: char): (r: string)
    ensures c !in s ==> r == s
    ensures c in s ==> r == s[..IndexOf(s, c)] + s[IndexOf(s, c) + 1..]
  {
    var k := IndexOf(s, c);
    if k < 0 then s else s[..k] + s[k + 1..]
  }

  // ---------------------------------------------------------------------
  // applyDiff (js/git.js:103-118)
  // ---------------------------------------------------------------------

  /** Where the copy cursor of applyDiff stands after processing op. */
  function Resume(op: Op): int {
    match op
    case Insert(k, _) => k
    case Delete(k, n) => k + n
  }

  /** The copy cursor after processing all of d (0 before the first op). */
  function Cursor(d: Diff): int {
    if d == [] then 0 else Resume(d[|d| - 1])
  }

  function Emitted(op: Op): string {
    if op.Insert? then op.val else ""
  }

  /** The output accumulated by applyDiff's loop after processing all of d:
      for each op, the untouched span since the cursor, then the inserted text. */
  function Replay(content: string, d: Diff): string
    decreases |d|
  {
    if d == [] then ""
    else
      var prefix := d[..|d| - 1];
      var op := d[|d| - 1];
      Replay(content, prefix) + Substring(content, Cursor(prefix), op.index) + Emitted(op)
  }

  /** The text applyDiff returns: the accumulated output and the trailing span. */
  function Patched(content: string, d: Diff): string {
    Replay(content, d) + Substring(content, Cursor(d), |content|)
  }

  /** Appending one operation: the accumulated output grows by the span up
      to the operation and its inserted text; the cursor moves past it. */
  lemma ReplaySnoc(content: string, d: Diff, op: Op)
    ensures Replay(content, d + [op])
      == Replay(content, d) + Substring(content, Cursor(d), op.index) + Emitted(op)
    ensures Cursor(d + [op]) == Resume(op)
  {
    assert (d + [op])[..|d|] == d;
  }

  /** applyDiff: the loop copies the untouched spans, splices inserts and
      skips deleted characters. */
  method ApplyDiff(content: string, diff: Diff) returns (output: string)
    ensures output == Patched(content, diff)
  {
    var index := 0;
    output := "";
    var i := 0;
    while i < |diff|
      invariant 0 <= i <= |diff|
      invariant index == Cursor(diff[..i])
      invariant output == Replay(content, diff[..i])
    {
      var op := diff[i];
      assert diff[..i + 1][..i] == diff[..i];
      output := output + Substring(content, index, op.index);
      index := op.index;
      match op {
        case Insert(_, val) =>
          output := output + val;
        case Delete(_, size) =>
          index := index + size;
      }
      i := i + 1;
    }
    assert diff[..i] == diff;
    output := output + Substring(content, index, |content|);
  }

  /** A diff applyDiff can process without relying on substring's clamping
      and swapping: indices ascending, spans disjoint and inside the text. */
  ghost predicate Applicable(content: string, d: Diff) {
    && (forall k :: 0 <= k < |d| ==> 0 <= d[k].index <= Resume(d[k]) <= |content|)
    && (forall k :: 0 < k < |d| ==> Resume(d[k - 1]) <= d[k].index)
  }

  function Inserted(d: Diff): nat {
    if d == [] then 0 else Inserted(d[..|d| - 1]) + |Emitted(d[|d| - 1])|
  }

  function Deleted(d: Diff): int {
    if d == [] then 0
    else Deleted(d[..|d| - 1]) + (if d[|d| - 1].Delete? then d[|d| - 1].size else 0)
  }

  /** On an applicable diff, the patched text grows by what is inserted and
      shrinks by what is deleted. */
  lemma {:induction false} PatchedLength(content: string, d: Diff)
    requires Applicable(content, d)
    ensures |Patched(content, d)| == |content| + Inserted(d) - Deleted(d)
  {
    ReplayLength(content, d);
  }

  lemma {:induction false} ReplayLength(content: string, d: Diff)
    requires Applicable(content, d)
    ensures 0 <= Cursor(d) <= |content|
    ensures |Replay(content, d)| == Cursor(d) + Inserted(d) - Deleted(d)
    decreases |d|
  {
    if d != [] {
      var prefix := d[..|d| - 1];
      assert Applicable(content, prefix) by {
        forall k | 0 < k < |prefix| ensures Resume(prefix[k - 1]) <= prefix[k].index {
          assert prefix[k - 1] == d[k - 1] && prefix[k] == d[k];
        }
      }
      ReplayLength(content, prefix);
      assert |d| > 1 ==> Cursor(prefix) == Resume(d[|d| - 2]);
    }
  }

  // ---------------------------------------------------------------------
  // getDiff (js/git.js:6-100)
  // ---------------------------------------------------------------------

  /** An entry of the dynamic program: its cost and the operations on the
      chosen path, in the order they apply. */
  datatype Cell = Cell(cost: nat, path: Diff)

  /** Extend a predecessor's path by one unit operation of cost 1. */
  function Step(prev: Cell, op: Op): Cell {
    Cell(prev.cost + 1, prev.path + [op])
  }

  /** One round of the selection loop of dp(): the option found so far is
      replaced only by a strictly cheaper one. */
  function Better(best: Cell, option: Cell): Cell {
    if option.cost < best.cost then option else best
  }

  /** dp(i, j): the cheapest way found to turn a[..i] into b[..j]. The options
      are pushed in the order Insert b[j-1] (from dp(i, j-1)), Delete a[i-1]
      (from dp(i-1, j)), then, when a[i-1] == b[j-1], dp(i-1, j-1) itself at no
      extra cost; the first option is kept unless a later one is strictly
      cheaper. */
  function Dp(a: string, b: string, i: nat, j: nat): (c: Cell)
    requires i <= |a| && j <= |b|
    ensures c.cost == |c.path|
    decreases i + j
  {
    if i == 0 && j == 0 then Cell(0, [])
    else if i == 0 then Step(Dp(a, b, i, j - 1), Insert(i, [b[j - 1]]))
    else if j == 0 then Step(Dp(a, b, i - 1, j), Delete(i - 1, 1))
    else
      var firstTwo := Better(Step(Dp(a, b, i, j - 1), Insert(i, [b[j - 1]])),
                             Step(Dp(a, b, i - 1, j), Delete(i - 1, 1)));
      if a[i - 1] == b[j - 1] then Better(firstTwo, Dp(a, b, i - 1, j - 1)) else firstTwo
  }

  /** The choice made at an inner cell: its cost is the least of its options,
      an Insert is taken whenever it is among the cheapest, a Delete whenever
      it is and the Insert is not, and the matching character only when it is
      strictly cheaper than both. */
  lemma DpChoosesFirstCheapest(a: string, b: string, i: nat, j: nat)
    requires 0 < i <= |a| && 0 < j <= |b|
    ensures var c, ins, del, same := Dp(a, b, i, j), Dp(a, b, i, j - 1).cost + 1,
                                     Dp(a, b, i - 1, j).cost + 1, Dp(a, b, i - 1, j - 1);
      var match_ := a[i - 1] == b[j - 1];
      && c.cost <= ins && c.cost <= del && (match_ ==> c.cost <= same.cost)
      && (ins <= del && (!match_ || ins <= same.cost) ==>
            c.path == Dp(a, b, i, j - 1).path + [Insert(i, [b[j - 1]])])
      && (del < ins && (!match_ || del <= same.cost) ==>
            c.path == Dp(a, b, i - 1, j).path + [Delete(i - 1, 1)])
      && (match_ && same.cost < ins && same.cost < del ==> c == same)
  {
  }

  /** Every Delete of d removes one character, as on a dp path. */
  predicate UnitDeletes(d: Diff) {
    forall k :: 0 <= k < |d| ==> d[k].Delete? ==> d[k].size == 1
  }

  /** The dp path turns a[..i] into b[..j]: replaying it over a and copying
      the rest of a[..i] gives b[..j]. */
  lemma {:induction false} DpPathSound(a: string, b: string, i: nat, j: nat)
    requires i <= |a| && j <= |b|
    ensures PathSound(a, b, i, j, Dp(a, b, i, j).path)
    decreases i + j, 1
  {
    if i > 0 || j > 0 {
      var choice := DpChoice(a, b, i, j);
      if choice == 0 {
        DpInsertSound(a, b, i, j);
      } else if choice == 1 {
        DpDeleteSound(a, b, i, j);
      } else {
        DpEqualSound(a, b, i, j);
      }
    }
  }

  lemma {:induction false} DpInsertSound(a: string, b: string, i: nat, j: nat)
    requires i <= |a| && 0 < j <= |b|
    requires Dp(a, b, i, j).path == Dp(a, b, i, j - 1).path + [Insert(i, [b[j - 1]])]
    ensures PathSound(a, b, i, j, Dp(a, b, i, j).path)
    decreases i + j, 0
  {
    DpPathSound(a, b, i, j - 1);
    InsertExtends(a, b, i, j, Dp(a, b, i, j - 1).path);
  }

  lemma {:induction false} DpDeleteSound(a: string, b: string, i: nat, j: nat)
    requires 0 < i <= |a| && j <= |b|
    requires Dp(a, b, i, j).path == Dp(a, b, i - 1, j).path + [Delete(i - 1, 1)]
    ensures PathSound(a, b, i, j, Dp(a, b, i, j).path)
    decreases i + j, 0
  {
    DpPathSound(a, b, i - 1, j);
    DeleteExtends(a, b, i, j, Dp(a, b, i - 1, j).path);
  }

  lemma {:induction false} DpEqualSound(a: string, b: string, i: nat, j: nat)
    requires 0 < i <= |a| && 0 < j <= |b| && a[i - 1] == b[j - 1]
    requires Dp(a, b, i, j) == Dp(a, b, i - 1, j - 1)
    ensures PathSound(a, b, i, j, Dp(a, b, i, j).path)
    decreases i + j, 0
  {
    DpPathSound(a, b, i - 1, j - 1);
    EqualExtends(a, b, i, j, Dp(a, b, i - 1, j - 1).path);
  }

  /** dp(i, j) is one of its three options. */
  lemma DpChoice(a: string, b: string, i: nat, j: nat) returns (choice: nat)
    requires i <= |a| && j <= |b| && (i > 0 || j > 0)
    ensures choice == 0 ==> j > 0 && Dp(a, b, i, j).path == Dp(a, b, i, j - 1).path + [Insert(i, [b[j - 1]])]
    ensures choice == 1 ==> i > 0 && Dp(a, b, i, j).path == Dp(a, b, i - 1, j).path + [Delete(i - 1, 1)]
    ensures choice >= 2 ==> i > 0 && j > 0 && a[i - 1] == b[j - 1] && Dp(a, b, i, j) == Dp(a, b, i - 1, j - 1)
  {
    var c := Dp(a, b, i, j);
    if j > 0 && c == Step(Dp(a, b, i, j - 1), Insert(i, [b[j - 1]])) {
      choice := 0;
    } else if i > 0 && c == Step(Dp(a, b, i - 1, j), Delete(i - 1, 1)) {
      choice := 1;
    } else {
      choice := 2;
    }
  }

  /** p is a unit-step script that turns a[..i] into b[..j]. */
  ghost predicate PathSound(a: string, b: string, i: nat, j: nat, p: Diff)
    requires i <= |a| && j <= |b|
  {
    && 0 <= Cursor(p) <= i
    && Replay(a, p) + a[Cursor(p)..i] == b[..j]
    && UnitDeletes(p)
  }

  lemma InsertExtends(a: string, b: string, i: nat, j: nat, p: Diff)
    requires i <= |a| && 0 < j <= |b|
    requires PathSound(a, b, i, j - 1, p)
    ensures PathSound(a, b, i, j, p + [Insert(i, [b[j - 1]])])
  {
    var op := Insert(i, [b[j - 1]]);
    var q := p + [op];
    ReplaySnoc(a, p, op);
    assert Cursor(q) == i;
    assert Replay(a, q) == b[..j] by {
      assert Substring(a, Cursor(p), i) == a[Cursor(p)..i];
      assert b[..j] == b[..j - 1] + [b[j - 1]];
    }
    assert a[i..i] == [];
    assert UnitDeletes(q) by {
      UnitDeletesSnoc(p, op);
    }
  }

  lemma UnitDeletesSnoc(p: Diff, op: Op)
    requires UnitDeletes(p) && (op.Delete? ==> op.size == 1)
    ensures UnitDeletes(p + [op])
  {
    forall k | 0 <= k < |p| + 1
      ensures (p + [op])[k].Delete? ==> (p + [op])[k].size == 1
    {
      if k < |p| {
        assert (p + [op])[k] == p[k];
      }
    }
  }

  lemma DeleteExtends(a: string, b: string, i: nat, j: nat, p: Diff)
    requires 0 < i <= |a| && j <= |b|
    requires PathSound(a, b, i - 1, j, p)
    ensures PathSound(a, b, i, j, p + [Delete(i - 1, 1)])
  {
    ReplaySnoc(a, p, Delete(i - 1, 1));
  }

  lemma EqualExtends(a: string, b: string, i: nat, j: nat, p: Diff)
    requires 0 < i <= |a| && 0 < j <= |b| && a[i - 1] == b[j - 1]
    requires PathSound(a, b, i - 1, j - 1, p)
    ensures PathSound(a, b, i, j, p)
  {
    SliceSnoc(a, Cursor(p), i);
    SliceSnoc(b, 0, j);
    AppendBoth(Replay(a, p), a[Cursor(p)..i - 1], b[..j - 1], a[i - 1]);
  }

  lemma SliceSnoc(s: string, lo: nat, hi: nat)
    requires lo < hi <= |s|
    ensures s[lo..hi] == s[lo..hi - 1] + [s[hi - 1]]
  {
  }

  lemma AppendBoth(r: string, x: string, y: string, c: char)
    requires r + x == y
    ensures r + (x + [c]) == y + [c]
  {
    assert r + (x + [c]) == (r + x) + [c];
  }

  // ---------------------------------------------------------------------
  // Collapsing adjacent operations (js/git.js:78-99)
  // ---------------------------------------------------------------------

  /** next continues prev: an Insert at the same index, or a Delete starting
      where prev's deleted span ends. */
  predicate Mergeable(prev: Op, next: Op) {
    || (prev.Insert? && next.Insert? && next.index == prev.index)
    || (prev.Delete? && next.Delete? && next.index == prev.index + prev.size)
  }

  /** The running operation absorbing next: inserted texts concatenate, a
      delete grows by one character. */
  function Merge(prev: Op, next: Op): Op
    requires Mergeable(prev, next)
  {
    if prev.Insert? then Insert(prev.index, prev.val + next.val)
    else Delete(prev.index, prev.size + 1)
  }

  /** The state of the collapse loop after it has consumed ops: the finished
      operations and the running one. */
  datatype Collapsing = Collapsing(finished: Diff, running: Op)

  function CollapseLoop(ops: Diff): Collapsing
    requires ops != []
  {
    if |ops| == 1 then Collapsing([], ops[0])
    else
      var st := CollapseLoop(ops[..|ops| - 1]);
      var next := ops[|ops| - 1];
      if Mergeable(st.running, next) then Collapsing(st.finished, Merge(st.running, next))
      else Collapsing(st.finished + [st.running], next)
  }

  /** The collapsed diff: nothing for no operations, else the finished
      operations followed by the running one. */
  function Collapse(ops: Diff): Diff {
    if ops == [] then [] else CollapseLoop(ops).finished + [CollapseLoop(ops).running]
  }

  /** No two neighbouring operations could have been merged. */
  predicate Collapsed(d: Diff) {
    forall k :: 0 < k < |d| ==> !Mergeable(d[k - 1], d[k])
  }

  /** One more round of the collapse loop. */
  lemma CollapseLoopSnoc(init: Diff, next: Op)
    requires init != []
    ensures var st := CollapseLoop(init);
      CollapseLoop(init + [next]) ==
        if Mergeable(st.running, next) then Collapsing(st.finished, Merge(st.running, next))
        else Collapsing(st.finished + [st.running], next)
  {
    assert (init + [next])[..|init|] == init;
  }

  lemma {:induction false} CollapseIsCollapsed(ops: Diff)
    ensures Collapsed(Collapse(ops))
    decreases |ops|
  {
    if |ops| > 1 {
      var init, next := ops[..|ops| - 1], ops[|ops| - 1];
      assert ops == init + [next];
      CollapseIsCollapsed(init);
      CollapseLoopSnoc(init, next);
      var st := CollapseLoop(init);
      if Mergeable(st.running, next) {
        MergeKeepsCollapsed(st.finished, st.running, Merge(st.running, next));
      } else {
        PushKeepsCollapsed(st.finished + [st.running], next);
      }
    }
  }

  /** Replacing the last operation by one of the same kind and index keeps a
      diff collapsed. */
  lemma MergeKeepsCollapsed(d: Diff, old_: Op, new_: Op)
    requires Collapsed(d + [old_])
    requires old_.Insert? == new_.Insert? && old_.index == new_.index
    ensures Collapsed(d + [new_])
  {
    forall k | 0 < k < |d| + 1 ensures !Mergeable((d + [new_])[k - 1], (d + [new_])[k]) {
      assert (d + [new_])[k - 1] == (d + [old_])[k - 1];
      assert !Mergeable((d + [old_])[k - 1], (d + [old_])[k]);
      if k < |d| {
        assert (d + [new_])[k] == (d + [old_])[k];
      }
    }
  }

  lemma PushKeepsCollapsed(d: Diff, next: Op)
    requires d != [] && Collapsed(d) && !Mergeable(d[|d| - 1], next)
    ensures Collapsed(d + [next])
  {
    forall k | 0 < k < |d| + 1 ensures !Mergeable((d + [next])[k - 1], (d + [next])[k]) {
      if k < |d| {
        assert (d + [next])[k - 1] == d[k - 1] && (d + [next])[k] == d[k];
      }
    }
  }

  /** Collapsing changes neither what applyDiff accumulates nor where its
      cursor ends, provided every Delete removes one character. */
  lemma {:induction false} CollapsePreservesReplay(content: string, ops: Diff)
    requires UnitDeletes(ops)
    ensures Replay(content, Collapse(ops)) == Replay(content, ops)
    ensures Cursor(Collapse(ops)) == Cursor(ops)
    decreases |ops|
  {
    if |ops| > 1 {
      var init, next := ops[..|ops| - 1], ops[|ops| - 1];
      assert ops == init + [next];
      assert UnitDeletes(init) by {
        forall k | 0 <= k < |init| ensures init[k] == ops[k] { }
      }
      CollapsePreservesReplay(content, init);
      CollapseLoopSnoc(init, next);
      var st := CollapseLoop(init);
      ReplaySnoc(content, init, next);
      ReplaySnoc(content, st.finished + [st.running], next);
      if Mergeable(st.running, next) {
        MergePreservesReplay(content, st.finished, st.running, next);
      }
    }
  }

  /** Replacing a running operation and its continuation by their merge
      leaves the replay and the cursor as they were. */
  lemma MergePreservesReplay(content: string, rest: Diff, running: Op, next: Op)
    requires Mergeable(running, next) && (next.Delete? ==> next.size == 1)
    ensures Replay(content, rest + [Merge(running, next)]) == Replay(content, rest + [running] + [next])
    ensures Cursor(rest + [Merge(running, next)]) == Cursor(rest + [running] + [next])
  {
    ReplaySnoc(content, rest, running);
    ReplaySnoc(content, rest + [running], next);
    ReplaySnoc(content, rest, Merge(running, next));
    if running.Insert? {
      InsertsConcatenate(Replay(content, rest) + Substring(content, Cursor(rest), running.index),
                         running.val, Substring(content, Resume(running), next.index), next.val);
    }
  }

  lemma InsertsConcatenate(done: string, u: string, gap: string, v: string)
    requires gap == ""
    ensures done + (u + v) == done + u + gap + v
  {
  }

  /** The diff getDiff returns for a -> b. */
  function DiffOf(a: string, b: string): Diff {
    Collapse(Dp(a, b, |a|, |b|).path)
  }

  /** Round trip: patching a with the diff from a to b yields b, and the
      diff is collapsed. */
  lemma RoundTrip(a: string, b: string)
    ensures Patched(a, DiffOf(a, b)) == b
    ensures Collapsed(DiffOf(a, b))
  {
    var p := Dp(a, b, |a|, |b|).path;
    DpPathSound(a, b, |a|, |b|);
    CollapsePreservesReplay(a, p);
    CollapseIsCollapsed(p);
    assert Substring(a, Cursor(p), |a|) == a[Cursor(p)..|a|];
    assert b[..|b|] == b;
  }

  /** getDiff: the dp path, then the collapse loop. */
  method GetDiff(a: string, b: string) returns (diff: Diff)
    ensures diff == DiffOf(a, b)
    ensures Patched(a, diff) == b
    ensures Collapsed(diff)
  {
    var ops := Dp(a, b, |a|, |b|).path;
    diff := CollapseOps(ops);
    RoundTrip(a, b);
  }

  /** The collapse loop of getDiff: grows a running operation while the
      next one continues it. */
  method CollapseOps(ops: Diff) returns (diff: Diff)
    ensures diff == Collapse(ops)
  {
    if |ops| == 0 {
      return [];
    }
    diff := [];
    var running := ops[0];
    var i := 1;
    while i < |ops|
      invariant 1 <= i <= |ops|
      invariant CollapseLoop(ops[..i]) == Collapsing(diff, running)
    {
      CollapseLoopSnoc(ops[..i], ops[i]);
      assert ops[..i + 1] == ops[..i] + [ops[i]];
      if running.Insert? && ops[i].Insert? && ops[i].index == running.index {
        running := Insert(running.index, running.val + ops[i].val);
      } else if running.Delete? && ops[i].Delete? && ops[i].index == running.index + running.size {
        running := Delete(running.index, running.size + 1);
      } else {
        diff := diff + [running];
        running := ops[i];
      }
      i := i + 1;
    }
    assert ops[..i] == ops;
    diff := diff + [running];
  }

  // ---------------------------------------------------------------------
  // rebase (js/git.js:120-256)
  // ---------------------------------------------------------------------

  /** The variables shared by rebase and its helper closures: the fingers i
      into d1 and j into d2, the running shift from d1's coordinates to the
      text after d1, the incoming diff as rewritten so far (a clipped Delete
      is written back into it), and the output. */
  datatype Sweep = Sweep(i: nat, j: nat, shift: int, d2: Diff, output: Diff)

  /** Both fingers within their diffs. */
  predicate Fingers(d1: Diff, s: Sweep) {
    s.i <= |d1| && s.j <= |s.d2|
  }

  /** One step of the sweep moves at least one finger forward, never back,
      and keeps the incoming diff's length. */
  predicate Advances(d1: Diff, s: Sweep, r: Sweep) {
    && Fingers(d1, r) && |r.d2| == |s.d2|
    && s.i <= r.i && s.j <= r.j && s.i + s.j < r.i + r.j
  }

  /** What a dropped new Insert leaves behind: one marker Insert at the
      deletion point if its text holds a marker, a second one if its last
      marker comes after its first. */
  function CursorReinserts(val: string, at: int): Diff {
    (if IndexOf(val, Marker) >= 0 then [Insert(at, [Marker])] else [])
    + (if LastIndexOf(val, Marker) > IndexOf(val, Marker) then [Insert(at, [Marker])] else [])
  }

  /** doOldInsert: an old Insert only shifts what follows. */
  function OldInsertStep(d1: Diff, s: Sweep): (r: Sweep)
    requires Fingers(d1, s) && s.i < |d1| && d1[s.i].Insert?
    ensures Advances(d1, s, r)
  {
    s.(shift := s.shift + |d1[s.i].val|, i := s.i + 1)
  }

  /** A new Insert swallowed by an old Delete: only its cursor markers are
      put back, at the deletion point. */
  function Reinserted(s: Sweep, val: string, at: int): (r: Sweep)
    ensures r.i == s.i && r.j == s.j + 1 && r.shift == s.shift && r.d2 == s.d2
    ensures r.output == s.output + CursorReinserts(val, at)
  {
    s.(output := s.output + CursorReinserts(val, at), j := s.j + 1)
  }

  /** The inner loop of doOldDelete over the new operations starting before
      the end of the old Delete del. */
  function OldDeleteScan(del: Op, s: Sweep): (r: Sweep)
    requires del.Delete? && s.j <= |s.d2|
    ensures r.i == s.i && r.shift == s.shift && |r.d2| == |s.d2| && s.j <= r.j <= |r.d2|
    decreases |s.d2| - s.j
  {
    var end := del.index + del.size;
    if s.j < |s.d2| && s.d2[s.j].index < end then
      var op := s.d2[s.j];
      if op.Delete? && op.index + op.size > end then s.(d2 := s.d2[s.j := Delete(end, op.index + op.size - end)])
      else OldDeleteScan(del, ScanPast(del, s))
    else s
  }

  /** One new operation inside the old Delete del that does not reach past
      it: an Insert leaves only its markers, a Delete is dropped. */
  function ScanPast(del: Op, s: Sweep): (r: Sweep)
    requires del.Delete? && s.j < |s.d2|
    ensures r.i == s.i && r.j == s.j + 1 && r.shift == s.shift && r.d2 == s.d2
  {
    match s.d2[s.j]
    case Insert(_, val) => Reinserted(s, val, del.index + s.shift)
    case Delete(_, _) => s.(j := s.j + 1)
  }

  /** doOldDelete: drop or clip the new operations inside the old Delete,
      then shift what follows back by its size. */
  function OldDeleteStep(d1: Diff, s: Sweep): (r: Sweep)
    requires Fingers(d1, s) && s.i < |d1| && d1[s.i].Delete?
    ensures Advances(d1, s, r)
  {
    var t := OldDeleteScan(d1[s.i], s);
    t.(shift := t.shift - d1[s.i].size, i := t.i + 1)
  }

  /** doNewInsert: a new Insert is emitted, moved by the shift. */
  function NewInsertStep(d1: Diff, s: Sweep): (r: Sweep)
    requires Fingers(d1, s) && s.j < |s.d2| && s.d2[s.j].Insert?
    ensures Advances(d1, s, r)
  {
    s.(output := s.output + [Insert(s.d2[s.j].index + s.shift, s.d2[s.j].val)], j := s.j + 1)
  }

  /** The variables the inner loop of doNewDelete updates. */
  datatype Stretch = Stretch(i: nat, shift: int, size: int)

  /** The inner loop of doNewDelete over the old operations starting before
      end, the original end of the new Delete: an old Insert is deleted too,
      an old Delete ending strictly inside is not deleted twice, and an old
      Delete reaching end or beyond cuts the new Delete short at its start
      and stays to be processed. */
  function NewDeleteScan(d1: Diff, end: int, st: Stretch): (r: Stretch)
    requires st.i <= |d1|
    ensures st.i <= r.i <= |d1|
    decreases |d1| - st.i
  {
    if st.i < |d1| && d1[st.i].index < end then
      match d1[st.i]
      case Insert(_, val) => NewDeleteScan(d1, end, Stretch(st.i + 1, st.shift + |val|, st.size + |val|))
      case Delete(k, n) =>
        if k + n < end then NewDeleteScan(d1, end, Stretch(st.i + 1, st.shift - n, st.size - n))
        else st.(size := st.size - (end - k))
    else st
  }

  /** doNewDelete: a new Delete is emitted at its shifted start, resized by
      the old operations it covers. */
  function NewDeleteStep(d1: Diff, s: Sweep): (r: Sweep)
    requires Fingers(d1, s) && s.j < |s.d2| && s.d2[s.j].Delete?
    ensures Advances(d1, s, r)
  {
    var op := s.d2[s.j];
    var st := NewDeleteScan(d1, op.index + op.size, Stretch(s.i, s.shift, op.size));
    s.(i := st.i, shift := st.shift, output := s.output + [Delete(op.index + s.shift, st.size)], j := s.j + 1)
  }

  /** One round of the first loop: the operation with the smaller index goes
      first; at equal indices an old Insert, then a new Insert, then the old
      Delete. */
  function MainStep(d1: Diff, s: Sweep): (r: Sweep)
    requires Fingers(d1, s) && s.i < |d1| && s.j < |s.d2|
    ensures Advances(d1, s, r)
  {
    var old_, new_ := d1[s.i], s.d2[s.j];
    if old_.index < new_.index then
      (if old_.Insert? then OldInsertStep(d1, s) else OldDeleteStep(d1, s))
    else if new_.index < old_.index then
      (if new_.Insert? then NewInsertStep(d1, s) else NewDeleteStep(d1, s))
    else if old_.Insert? then OldInsertStep(d1, s)
    else if new_.Insert? then NewInsertStep(d1, s)
    else OldDeleteStep(d1, s)
  }

  /** One round of the second loop, over what is left of d2. */
  function TailStep(d1: Diff, s: Sweep): (r: Sweep)
    requires Fingers(d1, s) && s.j < |s.d2|
    ensures Advances(d1, s, r)
  {
    if s.d2[s.j].Insert? then NewInsertStep(d1, s) else NewDeleteStep(d1, s)
  }

  /** The first loop: runs while both diffs have operations left. */
  function RunMain(d1: Diff, s: Sweep): (r: Sweep)
    requires Fingers(d1, s)
    ensures Fingers(d1, r) && |r.d2| == |s.d2| && (r.i == |d1| || r.j == |r.d2|)
    decreases |d1| - s.i + |s.d2| - s.j
  {
    if s.i < |d1| && s.j < |s.d2| then RunMain(d1, MainStep(d1, s)) else s
  }

  /** The second loop: runs while d2 has operations left; whatever is left
      of d1 is not looked at. */
  function RunTail(d1: Diff, s: Sweep): (r: Sweep)
    requires Fingers(d1, s)
    ensures Fingers(d1, r) && r.j == |r.d2|
    decreases |s.d2| - s.j
  {
    if s.j < |s.d2| then RunTail(d1, TailStep(d1, s)) else s
  }

  /** rebase(d1, d2): d2 transformed to apply after d1. */
  function Rebased(d1: Diff, d2: Diff): Diff {
    RunTail(d1, RunMain(d1, Sweep(0, 0, 0, d2, []))).output
  }

  /** rebase: the two-finger sweep, then the new operations left over. */
  method Rebase(d1: Diff, d2: Diff) returns (output: Diff)
    ensures output == Rebased(d1, d2)
  {
    var s := Sweep(0, 0, 0, d2, []);
    while s.i < |d1| && s.j < |s.d2|
      invariant Fingers(d1, s)
      invariant RunMain(d1, s) == RunMain(d1, Sweep(0, 0, 0, d2, []))
      decreases |d1| - s.i + |s.d2| - s.j
    {
      var old_, new_ := d1[s.i], s.d2[s.j];
      if old_.index < new_.index {
        if old_.Insert? {
          s := DoOldInsert(d1, s);
        } else {
          s := DoOldDelete(d1, s);
        }
      } else if new_.index < old_.index {
        if new_.Insert? {
          s := DoNewInsert(d1, s);
        } else {
          s := DoNewDelete(d1, s);
        }
      } else if old_.Insert? {
        s := DoOldInsert(d1, s);
      } else if new_.Insert? {
        s := DoNewInsert(d1, s);
      } else {
        s := DoOldDelete(d1, s);
      }
    }
    ghost var afterMain := s;
    while s.j < |s.d2|
      invariant Fingers(d1, s)
      invariant RunTail(d1, s) == RunTail(d1, afterMain)
      decreases |s.d2| - s.j
    {
      if s.d2[s.j].Insert? {
        s := DoNewInsert(d1, s);
      } else {
        s := DoNewDelete(d1, s);
      }
    }
    output := s.output;
  }

  method DoOldInsert(d1: Diff, s: Sweep) returns (r: Sweep)
    requires Fingers(d1, s) && s.i < |d1| && d1[s.i].Insert?
    ensures r == OldInsertStep(d1, s)
  {
    r := s.(shift := s.shift + |d1[s.i].val|);
    r := r.(i := r.i + 1);
  }

  method DoNewInsert(d1: Diff, s: Sweep) returns (r: Sweep)
    requires Fingers(d1, s) && s.j < |s.d2| && s.d2[s.j].Insert?
    ensures r == NewInsertStep(d1, s)
  {
    var op := s.d2[s.j];
    r := s.(output := s.output + [Insert(op.index + s.shift, op.val)]);
    r := r.(j := r.j + 1);
  }

  method DoOldDelete(d1: Diff, s: Sweep) returns (r: Sweep)
    requires Fingers(d1, s) && s.i < |d1| && d1[s.i].Delete?
    ensures r == OldDeleteStep(d1, s)
  {
    var del := d1[s.i];
    var end := del.index + del.size;
    r := s;
    while r.j < |r.d2| && r.d2[r.j].index < end
      invariant r.j <= |r.d2|
      invariant OldDeleteScan(del, r) == OldDeleteScan(del, s)
      decreases |r.d2| - r.j
    {
      var op := r.d2[r.j];
      if op.Insert? {
        ScanInsert(del, r);
        r := Reinserted(r, op.val, del.index + r.shift);
      } else if op.index + op.size > end {
        ScanClip(del, r);
        r := r.(d2 := r.d2[r.j := Delete(end, op.index + op.size - end)]);
        break;
      } else {
        ScanSkip(del, r);
        r := r.(j := r.j + 1);
      }
    }
    ScanDone(del, r);
    r := r.(shift := r.shift - del.size, i := r.i + 1);
  }

  /** A new operation inside the old Delete that does not reach past it is
      stepped over. */
  lemma ScanOn(del: Op, s: Sweep)
    requires del.Delete? && s.j < |s.d2| && s.d2[s.j].index < del.index + del.size
    requires s.d2[s.j].Insert? || s.d2[s.j].index + s.d2[s.j].size <= del.index + del.size
    ensures OldDeleteScan(del, s) == OldDeleteScan(del, ScanPast(del, s))
  {
  }

  /** A new Insert inside the old Delete leaves its markers behind. */
  lemma ScanInsert(del: Op, s: Sweep)
    requires del.Delete? && s.j < |s.d2| && s.d2[s.j].index < del.index + del.size && s.d2[s.j].Insert?
    ensures OldDeleteScan(del, s)
         == OldDeleteScan(del, Reinserted(s, s.d2[s.j].val, del.index + s.shift))
  {
    ScanOn(del, s);
  }

  /** A new Delete within the old one is dropped. */
  lemma ScanSkip(del: Op, s: Sweep)
    requires del.Delete? && s.j < |s.d2| && s.d2[s.j].index < del.index + del.size && s.d2[s.j].Delete?
    requires s.d2[s.j].index + s.d2[s.j].size <= del.index + del.size
    ensures OldDeleteScan(del, s) == OldDeleteScan(del, s.(j := s.j + 1))
  {
    ScanOn(del, s);
  }

  /** A new Delete reaching past the old one is clipped and ends the scan. */
  lemma ScanClip(del: Op, s: Sweep)
    requires del.Delete? && s.j < |s.d2| && s.d2[s.j].index < del.index + del.size && s.d2[s.j].Delete?
    requires s.d2[s.j].index + s.d2[s.j].size > del.index + del.size
    ensures var op, end := s.d2[s.j], del.index + del.size;
      OldDeleteScan(del, s) == s.(d2 := s.d2[s.j := Delete(end, op.index + op.size - end)])
  {
  }

  /** The scan stops at the first new operation at or past the end. */
  lemma ScanDone(del: Op, s: Sweep)
    requires del.Delete? && s.j <= |s.d2|
    requires s.j == |s.d2| || s.d2[s.j].index >= del.index + del.size
    ensures OldDeleteScan(del, s) == s
  {
  }

  method DoNewDelete(d1: Diff, s: Sweep) returns (r: Sweep)
    requires Fingers(d1, s) && s.j < |s.d2| && s.d2[s.j].Delete?
    ensures r == NewDeleteStep(d1, s)
  {
    var op := s.d2[s.j];
    var originalIndex, originalSize := op.index, op.size;
    var index, size := op.index + s.shift, op.size;
    var i, shift := s.i, s.shift;
    while i < |d1| && d1[i].index < originalIndex + originalSize
      invariant i <= |d1|
      invariant NewDeleteScan(d1, originalIndex + originalSize, Stretch(i, shift, size))
             == NewDeleteScan(d1, originalIndex + originalSize, Stretch(s.i, s.shift, op.size))
      decreases |d1| - i
    {
      match d1[i] {
        case Insert(_, val) =>
          size := size + |val|;
          shift := shift + |val|;
        case Delete(k, n) =>
          if k + n < originalIndex + originalSize {
            size := size - n;
            shift := shift - n;
          } else {
            size := size - (originalIndex + originalSize - k);
            break;
          }
      }
      i := i + 1;
    }
    r := s.(i := i, shift := shift, output := s.output + [Delete(index, size)], j := s.j + 1);
  }

  // ---------------------------------------------------------------------
  // Properties of rebase
  // ---------------------------------------------------------------------

  /** Over an empty d1 the sweep goes straight to the second loop, the shift
      stays 0 and every operation of d2 comes out as it was. */
  lemma RebaseOntoNothing(d2: Diff)
    ensures Rebased([], d2) == d2
  {
    assert d2[..0] == [];
    TailOntoNothing(d2, 0);
  }

  lemma {:induction false} TailOntoNothing(d2: Diff, j: nat)
    requires j <= |d2|
    ensures RunTail([], Sweep(0, j, 0, d2, d2[..j])).output == d2
    decreases |d2| - j
  {
    var s := Sweep(0, j, 0, d2, d2[..j]);
    if j == |d2| {
      assert d2[..j] == d2;
    } else {
      assert d2[..j + 1] == d2[..j] + [d2[j]];
      if d2[j].Delete? {
        var op := d2[j];
        assert NewDeleteScan([], op.index + op.size, Stretch(0, 0, op.size)) == Stretch(0, 0, op.size);
      }
      assert TailStep([], s) == Sweep(0, j + 1, 0, d2, d2[..j + 1]);
      TailOntoNothing(d2, j + 1);
    }
  }

  /** indexOf on a string extended by one character. */
  lemma IndexOfSnoc(init: string, x: char, c: char)
    ensures IndexOf(init + [x], c) == if c in init then IndexOf(init, c) else if x == c then |init| else -1
  {
    var s := init + [x];
    assert forall l :: 0 <= l < |init| ==> s[l] == init[l];
    if c in init {
      var k1, k2 := IndexOf(s, c), IndexOf(init, c);
      assert s[k2] == c;
      assert k1 <= k2;
      assert init[k1] == c;
    } else if x == c {
      assert s[|init|] == c;
    } else {
      assert c !in s;
    }
  }

  /** The first and the last marker differ exactly when there are two or more. */
  lemma {:induction false} FirstBeforeLastIffTwo(s: string, c: char)
    ensures IndexOf(s, c) < LastIndexOf(s, c) <==> Count(s, c) >= 2
    decreases |s|
  {
    if s != [] {
      var init, x := s[..|s| - 1], s[|s| - 1];
      assert s == init + [x];
      IndexOfSnoc(init, x, c);
      if x != c {
        assert forall l :: 0 <= l < |init| ==> s[l] == init[l];
        assert c in s <==> c in init;
        FirstBeforeLastIffTwo(init, c);
      }
    }
  }

  /** A dropped insert leaves one marker Insert per marker it carried, at
      most two. */
  lemma CursorReinsertsCount(val: string, at: int)
    ensures |CursorReinserts(val, at)| == if Count(val, Marker) >= 2 then 2 else Count(val, Marker)
    ensures forall op :: op in CursorReinserts(val, at) ==> op == Insert(at, [Marker])
  {
    FirstBeforeLastIffTwo(val, Marker);
  }

  /** A one-operation diff applied to a text it fits. */
  lemma PatchedOne(content: string, op: Op)
    requires 0 <= op.index <= Resume(op) <= |content|
    ensures Patched(content, [op]) == content[..op.index] + Emitted(op) + content[Resume(op)..]
  {
    assert [op][..0] == [];
    assert Replay(content, [op]) == content[..op.index] + Emitted(op);
    assert Cursor([op]) == Resume(op);
  }

  /** The markers a dropped insert leaves behind, as text. */
  function MarkersOf(val: string): string {
    if Count(val, Marker) >= 2 then [Marker, Marker]
    else if Count(val, Marker) == 1 then [Marker]
    else ""
  }

  lemma PatchedMarkers(content: string, k: nat, val: string)
    requires k <= |content|
    ensures Patched(content, CursorReinserts(val, k)) == content[..k] + MarkersOf(val) + content[k..]
  {
    CursorReinsertsCount(val, k);
    var d := CursorReinserts(val, k);
    var one := Insert(k, [Marker]);
    if |d| == 0 {
      assert d == [];
      assert content[..k] + content[k..] == content;
    } else if |d| == 1 {
      assert d == [one];
      PatchedInsert(content, k, [Marker]);
    } else {
      assert d == [one] + [one];
      PatchedTwoMarkers(content, k);
    }
  }

  /** Two marker Inserts at one index put both markers there. */
  lemma PatchedTwoMarkers(content: string, k: nat)
    requires k <= |content|
    ensures Patched(content, [Insert(k, [Marker])] + [Insert(k, [Marker])]) == content[..k] + [Marker, Marker] + content[k..]
  {
    ReplayTwoInserts(content, k, [Marker], [Marker]);
    assert content[k..|content|] == content[k..];
  }

  lemma ReplayTwoInserts(content: string, k: nat, v: string, w: string)
    requires k <= |content|
    ensures Replay(content, [Insert(k, v)] + [Insert(k, w)]) == content[..k] + v + w
    ensures Cursor([Insert(k, v)] + [Insert(k, w)]) == k
  {
    ReplayOneInsert(content, k, v);
    ReplayInsertAtCursor(content, [Insert(k, v)], w);
  }

  /** An Insert at the point where the previous operation left off adds
      only its text. */
  lemma ReplayInsertAtCursor(content: string, d: Diff, w: string)
    requires 0 <= Cursor(d) <= |content|
    ensures Replay(content, d + [Insert(Cursor(d), w)]) == Replay(content, d) + w
    ensures Cursor(d + [Insert(Cursor(d), w)]) == Cursor(d)
  {
    var a, gap := Replay(content, d), Substring(content, Cursor(d), Cursor(d));
    ReplaySnoc(content, d, Insert(Cursor(d), w));
    assert gap == "";
    assert a + gap == a;
  }

  lemma ReplayOneInsert(content: string, k: nat, v: string)
    requires k <= |content|
    ensures Replay(content, [Insert(k, v)]) == content[..k] + v
  {
    ReplaySnoc(content, [], Insert(k, v));
    assert [] + [Insert(k, v)] == [Insert(k, v)];
  }

  lemma EqualIndexInsertsOldFirstSweep(k: nat, u: string, v: string)
    ensures Rebased([Insert(k, u)], [Insert(k, v)]) == [Insert(k + |u|, v)]
  {
    var d1, d2 := [Insert(k, u)], [Insert(k, v)];
    var s1 := Sweep(1, 0, |u|, d2, []);
    assert RunMain(d1, Sweep(0, 0, 0, d2, [])) == s1 by {
      assert MainStep(d1, Sweep(0, 0, 0, d2, [])) == s1;
    }
    assert RunTail(d1, s1) == Sweep(1, 1, |u|, d2, [Insert(k + |u|, v)]) by {
      assert TailStep(d1, s1) == Sweep(1, 1, |u|, d2, [Insert(k + |u|, v)]);
    }
  }

  /** At equal indices the old Insert goes first: its text ends up before
      the new one. */
  lemma EqualIndexInsertsOldFirst(s: string, k: nat, u: string, v: string)
    requires k <= |s|
    ensures Rebased([Insert(k, u)], [Insert(k, v)]) == [Insert(k + |u|, v)]
    ensures Patched(Patched(s, [Insert(k, u)]), Rebased([Insert(k, u)], [Insert(k, v)])) == s[..k] + u + v + s[k..]
  {
    EqualIndexInsertsOldFirstSweep(k, u, v);
    EqualIndexInsertsOldFirstText(s, k, u, v);
  }

  lemma EqualIndexInsertsOldFirstText(s: string, k: nat, u: string, v: string)
    requires k <= |s|
    ensures Patched(Patched(s, [Insert(k, u)]), [Insert(k + |u|, v)]) == s[..k] + u + v + s[k..]
  {
    PatchedInsert(s, k, u);
    SpliceThenInsertAt(s, k, u, v);
  }

  /** A one-Insert diff splices its text in. */
  lemma PatchedInsert(content: string, k: nat, val: string)
    requires k <= |content|
    ensures Patched(content, [Insert(k, val)]) == content[..k] + val + content[k..]
  {
    PatchedOne(content, Insert(k, val));
  }

  /** A one-Delete diff cuts its range out. */
  lemma PatchedDelete(content: string, k: nat, n: nat)
    requires k + n <= |content|
    ensures Patched(content, [Delete(k, n)]) == content[..k] + content[k + n..]
  {
    PatchedOne(content, Delete(k, n));
  }

  // A one-operation diff applied to a text that another one-operation diff
  // has already spliced (s[..k] + u + s[k..]) or cut (s[..k] + s[k + n..]),
  // read off in terms of the original text s.

  /** Slices of s with its [k, k + n) cut out, in terms of s. */
  lemma CutTake(s: string, k: nat, n: nat, j: nat)
    requires k + n <= j <= |s|
    ensures (s[..k] + s[k + n..])[..j - n] == s[..k] + s[k + n..j]
  {
    assert (s[..k] + s[k + n..])[..j - n] == s[..k] + s[k + n..][..j - n - k];
  }

  lemma CutKeepsFront(s: string, k: nat, n: nat, j: nat)
    requires j <= k && k + n <= |s|
    ensures (s[..k] + s[k + n..])[..j] == s[..j]
  {
    assert (s[..k] + s[k + n..])[..j] == s[..k][..j];
  }

  lemma CutDrop(s: string, k: nat, n: nat, j: nat)
    requires k + n <= j <= |s|
    ensures (s[..k] + s[k + n..])[j - n..] == s[j..]
  {
    assert (s[..k] + s[k + n..])[j - n..] == s[k + n..][j - n - k..];
  }

  lemma CutThenCutAfter(s: string, k: nat, n: nat, m: nat, p: nat)
    requires k + n <= m && m + p <= |s|
    ensures var t := s[..k] + s[k + n..];
      t[..m - n] + t[m - n + p..] == s[..k] + s[k + n..m] + s[m + p..]
  {
    CutTake(s, k, n, m);
    CutDrop(s, k, n, m + p);
  }

  lemma CutThenCutBefore(s: string, k: nat, n: nat, m: nat)
    requires m <= k && k + n <= |s|
    ensures var t := s[..k] + s[k + n..];
      t[..m] + t[m + (k - m)..] == s[..m] + s[k + n..]
  {
    var t := s[..k] + s[k + n..];
    assert t[..m] == s[..m];
    assert t[m + (k - m)..] == s[k + n..];
  }

  lemma SpliceThenCutAround(s: string, k: nat, u: string, m: nat, p: nat)
    requires m <= k <= m + p <= |s|
    ensures var t := s[..k] + u + s[k..];
      t[..m] + t[m + (p + |u|)..] == s[..m] + s[m + p..]
  {
    var t := s[..k] + u + s[k..];
    assert t[..m] == s[..m];
    assert t[m + (p + |u|)..] == s[m + p..];
  }

  lemma SpliceThenInsertAt(s: string, k: nat, u: string, v: string)
    requires k <= |s|
    ensures Patched(s[..k] + u + s[k..], [Insert(k + |u|, v)]) == s[..k] + u + v + s[k..]
  {
    var t := s[..k] + u + s[k..];
    PatchedInsert(t, k + |u|, v);
    assert t[..k + |u|] == s[..k] + u;
    assert t[k + |u|..] == s[k..];
  }

  lemma SpliceThenInsertAfter(s: string, k: nat, u: string, m: nat, v: string)
    requires k <= m <= |s|
    ensures Patched(s[..k] + u + s[k..], [Insert(m + |u|, v)]) == s[..k] + u + s[k..m] + v + s[m..]
  {
    var t := s[..k] + u + s[k..];
    PatchedInsert(t, m + |u|, v);
    assert t[..m + |u|] == s[..k] + u + s[k..m];
    assert t[m + |u|..] == s[m..];
  }

  lemma SpliceThenInsertBefore(s: string, k: nat, u: string, m: nat, v: string)
    requires m <= k <= |s|
    ensures Patched(s[..k] + u + s[k..], [Insert(m, v)]) == s[..m] + v + s[m..k] + u + s[k..]
  {
    var t := s[..k] + u + s[k..];
    PatchedInsert(t, m, v);
    assert t[..m] == s[..m];
    assert t[m..] == s[m..k] + u + s[k..];
  }

  lemma SpliceThenDeleteAround(s: string, k: nat, u: string, m: nat, p: nat)
    requires m <= k <= m + p <= |s|
    ensures Patched(s[..k] + u + s[k..], [Delete(m, p + |u|)]) == s[..m] + s[m + p..]
  {
    PatchedDelete(s[..k] + u + s[k..], m, p + |u|);
    SpliceThenCutAround(s, k, u, m, p);
  }

  lemma CutThenInsert(s: string, k: nat, n: nat, v: string)
    requires k + n <= |s|
    ensures Patched(s[..k] + s[k + n..], [Insert(k, v)]) == s[..k] + v + s[k + n..]
  {
    var t := s[..k] + s[k + n..];
    PatchedInsert(t, k, v);
    assert t[..k] == s[..k];
    assert t[k..] == s[k + n..];
  }

  lemma CutThenMarkers(s: string, k: nat, n: nat, v: string)
    requires k + n <= |s|
    ensures Patched(s[..k] + s[k + n..], CursorReinserts(v, k)) == s[..k] + MarkersOf(v) + s[k + n..]
  {
    var t := s[..k] + s[k + n..];
    PatchedMarkers(t, k, v);
    assert t[..k] == s[..k];
    assert t[k..] == s[k + n..];
  }

  lemma CutThenDeleteOverlapping(s: string, k: nat, n: nat, m: nat, p: nat)
    requires k + n <= m + p <= |s|
    ensures Patched(s[..k] + s[k + n..], [Delete(k, m + p - k - n)]) == s[..k] + s[m + p..]
  {
    var t := s[..k] + s[k + n..];
    PatchedDelete(t, k, m + p - k - n);
    assert t[..k] == s[..k];
    CutDrop(s, k, n, m + p);
  }

  lemma CutThenDeleteBefore(s: string, k: nat, n: nat, m: nat)
    requires m <= k && k + n <= |s|
    ensures Patched(s[..k] + s[k + n..], [Delete(m, k - m)]) == s[..m] + s[k + n..]
  {
    PatchedDelete(s[..k] + s[k + n..], m, k - m);
    CutThenCutBefore(s, k, n, m);
  }

  lemma CutThenDeleteAfter(s: string, k: nat, n: nat, m: nat, p: nat)
    requires k + n <= m && m + p <= |s|
    ensures Patched(s[..k] + s[k + n..], [Delete(m - n, p)]) == s[..k] + s[k + n..m] + s[m + p..]
  {
    PatchedDelete(s[..k] + s[k + n..], m - n, p);
    CutThenCutAfter(s, k, n, m, p);
  }

  lemma CutThenDeleteDisjointBefore(s: string, k: nat, n: nat, m: nat, p: nat)
    requires m + p <= k && k + n <= |s|
    ensures Patched(s[..k] + s[k + n..], [Delete(m, p)]) == s[..m] + s[m + p..k] + s[k + n..]
  {
    var t := s[..k] + s[k + n..];
    PatchedDelete(t, m, p);
    assert t[..m] == s[..m];
    assert t[m + p..] == s[m + p..k] + s[k + n..];
  }

  lemma InsertAfterOldInsertSweep(k: nat, u: string, m: nat, v: string)
    requires k < m
    ensures Rebased([Insert(k, u)], [Insert(m, v)]) == [Insert(m + |u|, v)]
  {
    var d1, d2 := [Insert(k, u)], [Insert(m, v)];
    var s1 := Sweep(1, 0, |u|, d2, []);
    assert RunMain(d1, Sweep(0, 0, 0, d2, [])) == s1 by {
      assert MainStep(d1, Sweep(0, 0, 0, d2, [])) == s1;
    }
    assert RunTail(d1, s1) == Sweep(1, 1, |u|, d2, [Insert(m + |u|, v)]) by {
      assert TailStep(d1, s1) == Sweep(1, 1, |u|, d2, [Insert(m + |u|, v)]);
    }
  }

  /** A new Insert after an old Insert's index is moved right by the old text. */
  lemma InsertAfterOldInsert(s: string, k: nat, u: string, m: nat, v: string)
    requires k < m <= |s|
    ensures Rebased([Insert(k, u)], [Insert(m, v)]) == [Insert(m + |u|, v)]
    ensures Patched(Patched(s, [Insert(k, u)]), Rebased([Insert(k, u)], [Insert(m, v)]))
         == s[..k] + u + s[k..m] + v + s[m..]
  {
    InsertAfterOldInsertSweep(k, u, m, v);
    InsertAfterOldInsertText(s, k, u, m, v);
  }

  lemma InsertAfterOldInsertText(s: string, k: nat, u: string, m: nat, v: string)
    requires k < m <= |s|
    ensures Patched(Patched(s, [Insert(k, u)]), [Insert(m + |u|, v)])
         == s[..k] + u + s[k..m] + v + s[m..]
  {
    PatchedInsert(s, k, u);
    SpliceThenInsertAfter(s, k, u, m, v);
  }

  lemma InsertBeforeOldInsertSweep(k: nat, u: string, m: nat, v: string)
    requires m < k
    ensures Rebased([Insert(k, u)], [Insert(m, v)]) == [Insert(m, v)]
  {
    var d1, d2 := [Insert(k, u)], [Insert(m, v)];
    var s1 := Sweep(0, 1, 0, d2, [Insert(m, v)]);
    assert RunMain(d1, Sweep(0, 0, 0, d2, [])) == s1 by {
      assert MainStep(d1, Sweep(0, 0, 0, d2, [])) == s1;
    }
  }

  /** A new Insert before an old Insert's index is emitted unchanged. */
  lemma InsertBeforeOldInsert(s: string, k: nat, u: string, m: nat, v: string)
    requires m < k <= |s|
    ensures Rebased([Insert(k, u)], [Insert(m, v)]) == [Insert(m, v)]
    ensures Patched(Patched(s, [Insert(k, u)]), Rebased([Insert(k, u)], [Insert(m, v)]))
         == s[..m] + v + s[m..k] + u + s[k..]
  {
    InsertBeforeOldInsertSweep(k, u, m, v);
    InsertBeforeOldInsertText(s, k, u, m, v);
  }

  lemma InsertBeforeOldInsertText(s: string, k: nat, u: string, m: nat, v: string)
    requires m < k <= |s|
    ensures Patched(Patched(s, [Insert(k, u)]), [Insert(m, v)])
         == s[..m] + v + s[m..k] + u + s[k..]
  {
    PatchedInsert(s, k, u);
    SpliceThenInsertBefore(s, k, u, m, v);
  }

  /** Two Inserts at different indices converge: either one rebased over the
      other gives the same text, holding both. */
  lemma DisjointInsertsConverge(s: string, k: nat, u: string, m: nat, v: string)
    requires k <= |s| && m <= |s| && k != m
    ensures Patched(Patched(s, [Insert(k, u)]), Rebased([Insert(k, u)], [Insert(m, v)]))
         == Patched(Patched(s, [Insert(m, v)]), Rebased([Insert(m, v)], [Insert(k, u)]))
  {
    if k < m {
      InsertAfterOldInsert(s, k, u, m, v);
      InsertBeforeOldInsert(s, m, v, k, u);
    } else {
      InsertBeforeOldInsert(s, k, u, m, v);
      InsertAfterOldInsert(s, m, v, k, u);
    }
  }

  lemma InsertAtOldDeleteKeptSweep(k: nat, n: nat, v: string)
    ensures Rebased([Delete(k, n)], [Insert(k, v)]) == [Insert(k, v)]
  {
    var d1, d2 := [Delete(k, n)], [Insert(k, v)];
    var s1 := Sweep(0, 1, 0, d2, [Insert(k, v)]);
    assert RunMain(d1, Sweep(0, 0, 0, d2, [])) == s1 by {
      assert MainStep(d1, Sweep(0, 0, 0, d2, [])) == s1;
    }
  }

  /** At equal indices a new Insert goes before an old Delete, so it
      survives the deletion. */
  lemma InsertAtOldDeleteKept(s: string, k: nat, n: nat, v: string)
    requires k + n <= |s|
    ensures Rebased([Delete(k, n)], [Insert(k, v)]) == [Insert(k, v)]
    ensures Patched(Patched(s, [Delete(k, n)]), Rebased([Delete(k, n)], [Insert(k, v)]))
         == s[..k] + v + s[k + n..]
  {
    InsertAtOldDeleteKeptSweep(k, n, v);
    InsertAtOldDeleteKeptText(s, k, n, v);
  }

  lemma InsertAtOldDeleteKeptText(s: string, k: nat, n: nat, v: string)
    requires k + n <= |s|
    ensures Patched(Patched(s, [Delete(k, n)]), [Insert(k, v)])
         == s[..k] + v + s[k + n..]
  {
    PatchedDelete(s, k, n);
    CutThenInsert(s, k, n, v);
  }

  lemma InsertInsideOldDeleteDroppedSweep(k: nat, n: nat, m: nat, v: string)
    requires k < m < k + n
    ensures Rebased([Delete(k, n)], [Insert(m, v)]) == CursorReinserts(v, k)
  {
    var d1, d2 := [Delete(k, n)], [Insert(m, v)];
    var scanned := Sweep(0, 1, 0, d2, CursorReinserts(v, k));
    assert OldDeleteScan(Delete(k, n), Sweep(0, 0, 0, d2, [])) == scanned;
    var s1 := scanned.(shift := -(n as int), i := 1);
    assert RunMain(d1, Sweep(0, 0, 0, d2, [])) == s1 by {
      assert MainStep(d1, Sweep(0, 0, 0, d2, [])) == s1;
    }
  }

  /** A new Insert strictly inside an old Delete is dropped; only the
      cursor markers it carried come back, at the deletion point. */
  lemma InsertInsideOldDeleteDropped(s: string, k: nat, n: nat, m: nat, v: string)
    requires k < m < k + n <= |s|
    ensures Rebased([Delete(k, n)], [Insert(m, v)]) == CursorReinserts(v, k)
    ensures Patched(Patched(s, [Delete(k, n)]), Rebased([Delete(k, n)], [Insert(m, v)]))
         == s[..k] + MarkersOf(v) + s[k + n..]
  {
    InsertInsideOldDeleteDroppedSweep(k, n, m, v);
    InsertInsideOldDeleteDroppedText(s, k, n, m, v);
  }

  lemma InsertInsideOldDeleteDroppedText(s: string, k: nat, n: nat, m: nat, v: string)
    requires k < m < k + n <= |s|
    ensures Patched(Patched(s, [Delete(k, n)]), CursorReinserts(v, k))
         == s[..k] + MarkersOf(v) + s[k + n..]
  {
    PatchedDelete(s, k, n);
    CutThenMarkers(s, k, n, v);
  }

  lemma DeleteInsideOldDeleteDroppedSweep(k: nat, n: nat, m: nat, p: nat)
    requires k <= m < k + n && m + p <= k + n
    ensures Rebased([Delete(k, n)], [Delete(m, p)]) == []
  {
    var d1, d2 := [Delete(k, n)], [Delete(m, p)];
    assert OldDeleteScan(Delete(k, n), Sweep(0, 0, 0, d2, [])) == Sweep(0, 1, 0, d2, []);
    var s1 := Sweep(1, 1, -(n as int), d2, []);
    assert RunMain(d1, Sweep(0, 0, 0, d2, [])) == s1 by {
      assert MainStep(d1, Sweep(0, 0, 0, d2, [])) == s1;
    }
  }

  /** A new Delete inside an old Delete is dropped entirely. */
  lemma DeleteInsideOldDeleteDropped(s: string, k: nat, n: nat, m: nat, p: nat)
    requires k <= m < k + n && m + p <= k + n <= |s|
    ensures Rebased([Delete(k, n)], [Delete(m, p)]) == []
    ensures Patched(Patched(s, [Delete(k, n)]), Rebased([Delete(k, n)], [Delete(m, p)])) == s[..k] + s[k + n..]
  {
    DeleteInsideOldDeleteDroppedSweep(k, n, m, p);
    DeleteInsideOldDeleteDroppedText(s, k, n, m, p);
  }

  lemma DeleteInsideOldDeleteDroppedText(s: string, k: nat, n: nat, m: nat, p: nat)
    requires k <= m < k + n && m + p <= k + n <= |s|
    ensures Patched(Patched(s, [Delete(k, n)]), []) == s[..k] + s[k + n..]
  {
    PatchedDelete(s, k, n);
    assert Patched(s[..k] + s[k + n..], []) == s[..k] + s[k + n..];
  }

  lemma OverlappingDeleteClippedSweep(k: nat, n: nat, m: nat, p: nat)
    requires k < m < k + n < m + p
    ensures Rebased([Delete(k, n)], [Delete(m, p)]) == [Delete(k, m + p - k - n)]
  {
    var d1, d2 := [Delete(k, n)], [Delete(m, p)];
    var rest := [Delete(k + n, m + p - k - n)];
    assert OldDeleteScan(Delete(k, n), Sweep(0, 0, 0, d2, [])) == Sweep(0, 0, 0, rest, []);
    var s1 := Sweep(1, 0, -(n as int), rest, []);
    assert RunMain(d1, Sweep(0, 0, 0, d2, [])) == s1 by {
      assert MainStep(d1, Sweep(0, 0, 0, d2, [])) == s1;
    }
    assert RunTail(d1, s1) == Sweep(1, 1, -(n as int), rest, [Delete(k, m + p - k - n)]) by {
      assert NewDeleteScan(d1, m + p, Stretch(1, -(n as int), m + p - k - n)) == Stretch(1, -(n as int), m + p - k - n);
      assert TailStep(d1, s1) == Sweep(1, 1, -(n as int), rest, [Delete(k, m + p - k - n)]);
    }
  }

  /** A new Delete reaching past the end of an old Delete is clipped to its
      surviving tail; together they delete the union of both ranges. */
  lemma OverlappingDeleteClipped(s: string, k: nat, n: nat, m: nat, p: nat)
    requires k < m < k + n < m + p <= |s|
    ensures Rebased([Delete(k, n)], [Delete(m, p)]) == [Delete(k, m + p - k - n)]
    ensures Patched(Patched(s, [Delete(k, n)]), Rebased([Delete(k, n)], [Delete(m, p)])) == s[..k] + s[m + p..]
  {
    OverlappingDeleteClippedSweep(k, n, m, p);
    OverlappingDeleteClippedText(s, k, n, m, p);
  }

  lemma OverlappingDeleteClippedText(s: string, k: nat, n: nat, m: nat, p: nat)
    requires k < m < k + n < m + p <= |s|
    ensures Patched(Patched(s, [Delete(k, n)]), [Delete(k, m + p - k - n)]) == s[..k] + s[m + p..]
  {
    PatchedDelete(s, k, n);
    CutThenDeleteOverlapping(s, k, n, m, p);
  }

  lemma OldInsertInsideDeleteDeletedSweep(m: nat, p: nat, k: nat, u: string)
    requires m < k < m + p
    ensures Rebased([Insert(k, u)], [Delete(m, p)]) == [Delete(m, p + |u|)]
  {
    var d1, d2 := [Insert(k, u)], [Delete(m, p)];
    assert NewDeleteScan(d1, m + p, Stretch(0, 0, p)) == Stretch(1, |u|, p + |u|) by {
      assert NewDeleteScan(d1, m + p, Stretch(1, |u|, p + |u|)) == Stretch(1, |u|, p + |u|);
    }
    var s1 := Sweep(1, 1, |u|, d2, [Delete(m, p + |u|)]);
    assert RunMain(d1, Sweep(0, 0, 0, d2, [])) == s1 by {
      assert MainStep(d1, Sweep(0, 0, 0, d2, [])) == s1;
    }
  }

  /** A new Delete covering an old Insert grows to delete the inserted text too. */
  lemma OldInsertInsideDeleteDeleted(s: string, m: nat, p: nat, k: nat, u: string)
    requires m < k < m + p <= |s|
    ensures Rebased([Insert(k, u)], [Delete(m, p)]) == [Delete(m, p + |u|)]
    ensures Patched(Patched(s, [Insert(k, u)]), Rebased([Insert(k, u)], [Delete(m, p)])) == s[..m] + s[m + p..]
  {
    OldInsertInsideDeleteDeletedSweep(m, p, k, u);
    OldInsertInsideDeleteDeletedText(s, m, p, k, u);
  }

  lemma OldInsertInsideDeleteDeletedText(s: string, m: nat, p: nat, k: nat, u: string)
    requires m < k < m + p <= |s|
    ensures Patched(Patched(s, [Insert(k, u)]), [Delete(m, p + |u|)]) == s[..m] + s[m + p..]
  {
    PatchedInsert(s, k, u);
    SpliceThenDeleteAround(s, k, u, m, p);
  }

  lemma DeleteCutShortByOldDeleteSweep(m: nat, p: nat, k: nat, n: nat)
    requires m < k < m + p <= k + n
    ensures Rebased([Delete(k, n)], [Delete(m, p)]) == [Delete(m, k - m)]
  {
    var d1, d2 := [Delete(k, n)], [Delete(m, p)];
    assert NewDeleteScan(d1, m + p, Stretch(0, 0, p)) == Stretch(0, 0, k - m);
    var s1 := Sweep(0, 1, 0, d2, [Delete(m, k - m)]);
    assert RunMain(d1, Sweep(0, 0, 0, d2, [])) == s1 by {
      assert MainStep(d1, Sweep(0, 0, 0, d2, [])) == s1;
    }
  }

  /** A new Delete running into a later old Delete stops where that one
      starts; together they delete the union of both ranges. */
  lemma DeleteCutShortByOldDelete(s: string, m: nat, p: nat, k: nat, n: nat)
    requires m < k < m + p <= k + n <= |s|
    ensures Rebased([Delete(k, n)], [Delete(m, p)]) == [Delete(m, k - m)]
    ensures Patched(Patched(s, [Delete(k, n)]), Rebased([Delete(k, n)], [Delete(m, p)])) == s[..m] + s[k + n..]
  {
    DeleteCutShortByOldDeleteSweep(m, p, k, n);
    DeleteCutShortByOldDeleteText(s, m, p, k, n);
  }

  lemma DeleteCutShortByOldDeleteText(s: string, m: nat, p: nat, k: nat, n: nat)
    requires m < k < m + p <= k + n <= |s|
    ensures Patched(Patched(s, [Delete(k, n)]), [Delete(m, k - m)]) == s[..m] + s[k + n..]
  {
    PatchedDelete(s, k, n);
    CutThenDeleteBefore(s, k, n, m);
  }

  lemma DeleteAfterOldDeleteSweep(k: nat, n: nat, m: nat, p: nat)
    requires k + n <= m
    ensures Rebased([Delete(k, n)], [Delete(m, p)]) == [Delete(m - n, p)]
  {
    var d1, d2 := [Delete(k, n)], [Delete(m, p)];
    assert OldDeleteScan(Delete(k, n), Sweep(0, 0, 0, d2, [])) == Sweep(0, 0, 0, d2, []);
    var s1 := Sweep(1, 0, -(n as int), d2, []);
    assert RunMain(d1, Sweep(0, 0, 0, d2, [])) == s1 by {
      assert MainStep(d1, Sweep(0, 0, 0, d2, [])) == s1;
    }
    assert RunTail(d1, s1) == Sweep(1, 1, -(n as int), d2, [Delete(m - n, p)]) by {
      assert NewDeleteScan(d1, m + p, Stretch(1, -(n as int), p)) == Stretch(1, -(n as int), p);
      assert TailStep(d1, s1) == Sweep(1, 1, -(n as int), d2, [Delete(m - n, p)]);
    }
  }

  /** A new Delete after an old Delete is moved left by the old size. */
  lemma DeleteAfterOldDelete(s: string, k: nat, n: nat, m: nat, p: nat)
    requires k + n <= m && m + p <= |s|
    ensures Rebased([Delete(k, n)], [Delete(m, p)]) == [Delete(m - n, p)]
    ensures Patched(Patched(s, [Delete(k, n)]), Rebased([Delete(k, n)], [Delete(m, p)]))
         == s[..k] + s[k + n..m] + s[m + p..]
  {
    DeleteAfterOldDeleteSweep(k, n, m, p);
    DeleteAfterOldDeleteText(s, k, n, m, p);
  }

  lemma DeleteAfterOldDeleteText(s: string, k: nat, n: nat, m: nat, p: nat)
    requires k + n <= m && m + p <= |s|
    ensures Patched(Patched(s, [Delete(k, n)]), [Delete(m - n, p)])
         == s[..k] + s[k + n..m] + s[m + p..]
  {
    PatchedDelete(s, k, n);
    CutThenDeleteAfter(s, k, n, m, p);
  }

  lemma DeleteBeforeOldDeleteSweep(k: nat, n: nat, m: nat, p: nat)
    requires m < k && m + p <= k
    ensures Rebased([Delete(k, n)], [Delete(m, p)]) == [Delete(m, p)]
  {
    var d1, d2 := [Delete(k, n)], [Delete(m, p)];
    assert NewDeleteScan(d1, m + p, Stretch(0, 0, p)) == Stretch(0, 0, p);
    var s1 := Sweep(0, 1, 0, d2, [Delete(m, p)]);
    assert RunMain(d1, Sweep(0, 0, 0, d2, [])) == s1 by {
      assert MainStep(d1, Sweep(0, 0, 0, d2, [])) == s1;
    }
  }

  /** A new Delete ending at or before an old Delete is emitted unchanged. */
  lemma DeleteBeforeOldDelete(s: string, k: nat, n: nat, m: nat, p: nat)
    requires m < k && m + p <= k && k + n <= |s|
    ensures Rebased([Delete(k, n)], [Delete(m, p)]) == [Delete(m, p)]
    ensures Patched(Patched(s, [Delete(k, n)]), Rebased([Delete(k, n)], [Delete(m, p)]))
         == s[..m] + s[m + p..k] + s[k + n..]
  {
    DeleteBeforeOldDeleteSweep(k, n, m, p);
    DeleteBeforeOldDeleteText(s, k, n, m, p);
  }

  lemma DeleteBeforeOldDeleteText(s: string, k: nat, n: nat, m: nat, p: nat)
    requires m < k && m + p <= k && k + n <= |s|
    ensures Patched(Patched(s, [Delete(k, n)]), [Delete(m, p)])
         == s[..m] + s[m + p..k] + s[k + n..]
  {
    PatchedDelete(s, k, n);
    CutThenDeleteDisjointBefore(s, k, n, m, p);
  }

  /** Two Deletes of disjoint ranges converge: either one rebased over the
      other deletes both ranges. */
  lemma DisjointDeletesConverge(s: string, k: nat, n: nat, m: nat, p: nat)
    requires k < m && k + n <= m && m + p <= |s|
    ensures Patched(Patched(s, [Delete(k, n)]), Rebased([Delete(k, n)], [Delete(m, p)]))
         == Patched(Patched(s, [Delete(m, p)]), Rebased([Delete(m, p)], [Delete(k, n)]))
  {
    DeleteAfterOldDelete(s, k, n, m, p);
    DeleteBeforeOldDelete(s, m, p, k, n);
  }

  lemma SpliceThenDeleteAfter(s: string, k: nat, u: string, m: nat, p: nat)
    requires k <= m && m + p <= |s|
    ensures Patched(s[..k] + u + s[k..], [Delete(m + |u|, p)]) == s[..k] + u + s[k..m] + s[m + p..]
  {
    var t := s[..k] + u + s[k..];
    PatchedDelete(t, m + |u|, p);
    assert t[..m + |u|] == s[..k] + u + s[k..m];
    assert t[m + |u| + p..] == s[m + p..];
  }

  lemma SpliceThenDeleteBefore(s: string, k: nat, u: string, m: nat, p: nat)
    requires m + p <= k <= |s|
    ensures Patched(s[..k] + u + s[k..], [Delete(m, p)]) == s[..m] + s[m + p..k] + u + s[k..]
  {
    var t := s[..k] + u + s[k..];
    PatchedDelete(t, m, p);
    assert t[..m] == s[..m];
    assert t[m + p..] == s[m + p..k] + u + s[k..];
  }

  lemma CutThenInsertBefore(s: string, k: nat, n: nat, m: nat, v: string)
    requires m <= k && k + n <= |s|
    ensures Patched(s[..k] + s[k + n..], [Insert(m, v)]) == s[..m] + v + s[m..k] + s[k + n..]
  {
    var t := s[..k] + s[k + n..];
    PatchedInsert(t, m, v);
    assert t[..m] == s[..m];
    assert t[m..] == s[m..k] + s[k + n..];
  }

  lemma CutThenInsertAfter(s: string, k: nat, n: nat, m: nat, v: string)
    requires k + n <= m <= |s|
    ensures Patched(s[..k] + s[k + n..], [Insert(m - n, v)]) == s[..k] + s[k + n..m] + v + s[m..]
  {
    PatchedInsert(s[..k] + s[k + n..], m - n, v);
    CutTake(s, k, n, m);
    CutDrop(s, k, n, m);
  }

  lemma CutThenDeleteCovering(s: string, k: nat, n: nat, m: nat, p: nat)
    requires m <= k && k + n <= m + p <= |s|
    ensures Patched(s[..k] + s[k + n..], [Delete(m, p - n)]) == s[..m] + s[m + p..]
  {
    PatchedDelete(s[..k] + s[k + n..], m, p - n);
    CutCoveringSlices(s, k, n, m, p);
  }

  lemma CutCoveringSlices(s: string, k: nat, n: nat, m: nat, p: nat)
    requires m <= k && k + n <= m + p <= |s|
    ensures var t := s[..k] + s[k + n..];
      t[..m] + t[m + (p - n)..] == s[..m] + s[m + p..]
  {
    CutKeepsFront(s, k, n, m);
    CutDrop(s, k, n, m + p);
  }

  lemma DeleteAfterOldInsertSweep(k: nat, u: string, m: nat, p: nat)
    requires k <= m
    ensures Rebased([Insert(k, u)], [Delete(m, p)]) == [Delete(m + |u|, p)]
  {
    var d1, d2 := [Insert(k, u)], [Delete(m, p)];
    var s1 := Sweep(1, 0, |u|, d2, []);
    assert RunMain(d1, Sweep(0, 0, 0, d2, [])) == s1 by {
      assert MainStep(d1, Sweep(0, 0, 0, d2, [])) == s1;
    }
    assert RunTail(d1, s1) == Sweep(1, 1, |u|, d2, [Delete(m + |u|, p)]) by {
      assert NewDeleteScan(d1, m + p, Stretch(1, |u|, p)) == Stretch(1, |u|, p);
      assert TailStep(d1, s1) == Sweep(1, 1, |u|, d2, [Delete(m + |u|, p)]);
    }
  }

  /** A new Delete at or after an old Insert's index is moved right by the
      old text, so the inserted text survives in front of it. */
  lemma DeleteAfterOldInsert(s: string, k: nat, u: string, m: nat, p: nat)
    requires k <= m && m + p <= |s|
    ensures Rebased([Insert(k, u)], [Delete(m, p)]) == [Delete(m + |u|, p)]
    ensures Patched(Patched(s, [Insert(k, u)]), Rebased([Insert(k, u)], [Delete(m, p)]))
         == s[..k] + u + s[k..m] + s[m + p..]
  {
    DeleteAfterOldInsertSweep(k, u, m, p);
    DeleteAfterOldInsertText(s, k, u, m, p);
  }

  lemma DeleteAfterOldInsertText(s: string, k: nat, u: string, m: nat, p: nat)
    requires k <= m && m + p <= |s|
    ensures Patched(Patched(s, [Insert(k, u)]), [Delete(m + |u|, p)]) == s[..k] + u + s[k..m] + s[m + p..]
  {
    PatchedInsert(s, k, u);
    SpliceThenDeleteAfter(s, k, u, m, p);
  }

  lemma DeleteBeforeOldInsertSweep(k: nat, u: string, m: nat, p: nat)
    requires m < k && m + p <= k
    ensures Rebased([Insert(k, u)], [Delete(m, p)]) == [Delete(m, p)]
  {
    var d1, d2 := [Insert(k, u)], [Delete(m, p)];
    assert NewDeleteScan(d1, m + p, Stretch(0, 0, p)) == Stretch(0, 0, p);
    var s1 := Sweep(0, 1, 0, d2, [Delete(m, p)]);
    assert RunMain(d1, Sweep(0, 0, 0, d2, [])) == s1 by {
      assert MainStep(d1, Sweep(0, 0, 0, d2, [])) == s1;
    }
  }

  /** A new Delete ending at or before an old Insert's index is emitted
      unchanged; the inserted text survives after it. */
  lemma DeleteBeforeOldInsert(s: string, k: nat, u: string, m: nat, p: nat)
    requires m < k && m + p <= k <= |s|
    ensures Rebased([Insert(k, u)], [Delete(m, p)]) == [Delete(m, p)]
    ensures Patched(Patched(s, [Insert(k, u)]), Rebased([Insert(k, u)], [Delete(m, p)]))
         == s[..m] + s[m + p..k] + u + s[k..]
  {
    DeleteBeforeOldInsertSweep(k, u, m, p);
    DeleteBeforeOldInsertText(s, k, u, m, p);
  }

  lemma DeleteBeforeOldInsertText(s: string, k: nat, u: string, m: nat, p: nat)
    requires m < k && m + p <= k <= |s|
    ensures Patched(Patched(s, [Insert(k, u)]), [Delete(m, p)]) == s[..m] + s[m + p..k] + u + s[k..]
  {
    PatchedInsert(s, k, u);
    SpliceThenDeleteBefore(s, k, u, m, p);
  }

  lemma InsertBeforeOldDeleteSweep(k: nat, n: nat, m: nat, v: string)
    requires m < k
    ensures Rebased([Delete(k, n)], [Insert(m, v)]) == [Insert(m, v)]
  {
    var d1, d2 := [Delete(k, n)], [Insert(m, v)];
    var s1 := Sweep(0, 1, 0, d2, [Insert(m, v)]);
    assert RunMain(d1, Sweep(0, 0, 0, d2, [])) == s1 by {
      assert MainStep(d1, Sweep(0, 0, 0, d2, [])) == s1;
    }
  }

  /** A new Insert before an old Delete's index is emitted unchanged. */
  lemma InsertBeforeOldDelete(s: string, k: nat, n: nat, m: nat, v: string)
    requires m < k && k + n <= |s|
    ensures Rebased([Delete(k, n)], [Insert(m, v)]) == [Insert(m, v)]
    ensures Patched(Patched(s, [Delete(k, n)]), Rebased([Delete(k, n)], [Insert(m, v)]))
         == s[..m] + v + s[m..k] + s[k + n..]
  {
    InsertBeforeOldDeleteSweep(k, n, m, v);
    InsertBeforeOldDeleteText(s, k, n, m, v);
  }

  lemma InsertBeforeOldDeleteText(s: string, k: nat, n: nat, m: nat, v: string)
    requires m < k && k + n <= |s|
    ensures Patched(Patched(s, [Delete(k, n)]), [Insert(m, v)]) == s[..m] + v + s[m..k] + s[k + n..]
  {
    PatchedDelete(s, k, n);
    CutThenInsertBefore(s, k, n, m, v);
  }

  lemma InsertAfterOldDeleteSweep(k: nat, n: nat, m: nat, v: string)
    requires k < m && k + n <= m
    ensures Rebased([Delete(k, n)], [Insert(m, v)]) == [Insert(m - n, v)]
  {
    var d1, d2 := [Delete(k, n)], [Insert(m, v)];
    assert OldDeleteScan(Delete(k, n), Sweep(0, 0, 0, d2, [])) == Sweep(0, 0, 0, d2, []);
    var s1 := Sweep(1, 0, -(n as int), d2, []);
    assert RunMain(d1, Sweep(0, 0, 0, d2, [])) == s1 by {
      assert MainStep(d1, Sweep(0, 0, 0, d2, [])) == s1;
    }
    assert RunTail(d1, s1) == Sweep(1, 1, -(n as int), d2, [Insert(m - n, v)]) by {
      assert TailStep(d1, s1) == Sweep(1, 1, -(n as int), d2, [Insert(m - n, v)]);
    }
  }

  /** A new Insert at or after an old Delete's end is moved left by the old
      size. */
  lemma InsertAfterOldDelete(s: string, k: nat, n: nat, m: nat, v: string)
    requires k < m && k + n <= m <= |s|
    ensures Rebased([Delete(k, n)], [Insert(m, v)]) == [Insert(m - n, v)]
    ensures Patched(Patched(s, [Delete(k, n)]), Rebased([Delete(k, n)], [Insert(m, v)]))
         == s[..k] + s[k + n..m] + v + s[m..]
  {
    InsertAfterOldDeleteSweep(k, n, m, v);
    InsertAfterOldDeleteText(s, k, n, m, v);
  }

  lemma InsertAfterOldDeleteText(s: string, k: nat, n: nat, m: nat, v: string)
    requires k < m && k + n <= m <= |s|
    ensures Patched(Patched(s, [Delete(k, n)]), [Insert(m - n, v)]) == s[..k] + s[k + n..m] + v + s[m..]
  {
    PatchedDelete(s, k, n);
    CutThenInsertAfter(s, k, n, m, v);
  }

  lemma DeleteCoversOldDeleteSweep(k: nat, n: nat, m: nat, p: nat)
    requires m <= k && k + n < m + p
    ensures Rebased([Delete(k, n)], [Delete(m, p)]) == [Delete(m, p - n)]
  {
    var d1, d2 := [Delete(k, n)], [Delete(m, p)];
    if m < k {
      assert NewDeleteScan(d1, m + p, Stretch(0, 0, p)) == Stretch(1, -(n as int), p - n) by {
        assert NewDeleteScan(d1, m + p, Stretch(1, -(n as int), p - n)) == Stretch(1, -(n as int), p - n);
      }
      var s1 := Sweep(1, 1, -(n as int), d2, [Delete(m, p - n)]);
      assert RunMain(d1, Sweep(0, 0, 0, d2, [])) == s1 by {
        assert MainStep(d1, Sweep(0, 0, 0, d2, [])) == s1;
      }
    } else {
      var rest := [Delete(k + n, p - n)];
      assert OldDeleteScan(Delete(k, n), Sweep(0, 0, 0, d2, [])) == Sweep(0, 0, 0, rest, []);
      var s1 := Sweep(1, 0, -(n as int), rest, []);
      assert RunMain(d1, Sweep(0, 0, 0, d2, [])) == s1 by {
        assert MainStep(d1, Sweep(0, 0, 0, d2, [])) == s1;
      }
      assert RunTail(d1, s1) == Sweep(1, 1, -(n as int), rest, [Delete(m, p - n)]) by {
        assert NewDeleteScan(d1, k + n + (p - n), Stretch(1, -(n as int), p - n)) == Stretch(1, -(n as int), p - n);
        assert TailStep(d1, s1) == Sweep(1, 1, -(n as int), rest, [Delete(m, p - n)]);
      }
    }
  }

  /** A new Delete starting at or before an old Delete and ending past it
      shrinks by the old size; together they delete the new range. */
  lemma DeleteCoversOldDelete(s: string, k: nat, n: nat, m: nat, p: nat)
    requires m <= k && k + n < m + p <= |s|
    ensures Rebased([Delete(k, n)], [Delete(m, p)]) == [Delete(m, p - n)]
    ensures Patched(Patched(s, [Delete(k, n)]), Rebased([Delete(k, n)], [Delete(m, p)])) == s[..m] + s[m + p..]
  {
    DeleteCoversOldDeleteSweep(k, n, m, p);
    DeleteCoversOldDeleteText(s, k, n, m, p);
  }

  lemma DeleteCoversOldDeleteText(s: string, k: nat, n: nat, m: nat, p: nat)
    requires m <= k && k + n < m + p <= |s|
    ensures Patched(Patched(s, [Delete(k, n)]), [Delete(m, p - n)]) == s[..m] + s[m + p..]
  {
    PatchedDelete(s, k, n);
    CutThenDeleteCovering(s, k, n, m, p);
  }

  /** An Insert and a Delete whose range does not strictly contain the
      Insert's index converge: either one rebased over the other gives the
      same text, with the inserted text kept and the range deleted. */
  lemma InsertDeleteConverge(s: string, k: nat, u: string, m: nat, p: nat)
    requires k <= |s| && m + p <= |s| && (k <= m || m + p <= k)
    ensures Patched(Patched(s, [Insert(k, u)]), Rebased([Insert(k, u)], [Delete(m, p)]))
         == Patched(Patched(s, [Delete(m, p)]), Rebased([Delete(m, p)], [Insert(k, u)]))
  {
    if k < m {
      InsertBeforeDeleteConverge(s, k, u, m, p);
    } else if k == m {
      InsertAtDeleteConverge(s, k, u, p);
    } else {
      InsertAfterDeleteConverge(s, k, u, m, p);
    }
  }

  lemma InsertBeforeDeleteConverge(s: string, k: nat, u: string, m: nat, p: nat)
    requires k < m && m + p <= |s|
    ensures Patched(Patched(s, [Insert(k, u)]), Rebased([Insert(k, u)], [Delete(m, p)]))
         == Patched(Patched(s, [Delete(m, p)]), Rebased([Delete(m, p)], [Insert(k, u)]))
  {
    DeleteAfterOldInsert(s, k, u, m, p);
    InsertBeforeOldDelete(s, m, p, k, u);
  }

  lemma InsertAtDeleteConverge(s: string, k: nat, u: string, p: nat)
    requires k + p <= |s|
    ensures Patched(Patched(s, [Insert(k, u)]), Rebased([Insert(k, u)], [Delete(k, p)]))
         == Patched(Patched(s, [Delete(k, p)]), Rebased([Delete(k, p)], [Insert(k, u)]))
  {
    DeleteAfterOldInsert(s, k, u, k, p);
    InsertAtOldDeleteKept(s, k, p, u);
    var front := s[..k] + u;
    assert s[k..k] == [];
    assert front + s[k..k] == front;
  }

  lemma InsertAfterDeleteConverge(s: string, k: nat, u: string, m: nat, p: nat)
    requires m < k && m + p <= k <= |s|
    ensures Patched(Patched(s, [Insert(k, u)]), Rebased([Insert(k, u)], [Delete(m, p)]))
         == Patched(Patched(s, [Delete(m, p)]), Rebased([Delete(m, p)], [Insert(k, u)]))
  {
    DeleteBeforeOldInsert(s, k, u, m, p);
    InsertAfterOldDelete(s, m, p, k, u);
  }
}
