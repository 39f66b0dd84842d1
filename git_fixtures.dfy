/** Literal cases of the diff engine and of rebase, as the repository's
    own tests state them (test/test-git.js). */
module GitFixtures {
  import opened Git

  /** getDiff("ab", "ad"): the tie at (2, 2) between Insert and Delete goes
      to Insert, so the Delete of "b" comes first on the path. */
  lemma DiffAbToAd()
    ensures DiffOf("ab", "ad") == [Delete(1, 1), Insert(2, "d")]
  {
    var a, b := "ab", "ad";
    assert Dp(a, b, 0, 1) == Cell(1, [Insert(0, "a")]);
    assert Dp(a, b, 0, 2) == Cell(2, [Insert(0, "a"), Insert(0, "d")]);
    assert Dp(a, b, 1, 0) == Cell(1, [Delete(0, 1)]);
    assert Dp(a, b, 2, 0) == Cell(2, [Delete(0, 1), Delete(1, 1)]);
    assert Dp(a, b, 1, 1) == Cell(0, []);
    assert Dp(a, b, 1, 2) == Cell(1, [Insert(1, "d")]);
    assert Dp(a, b, 2, 1) == Cell(1, [Delete(1, 1)]);
    assert Dp(a, b, 2, 2) == Cell(2, [Delete(1, 1), Insert(2, "d")]);
  }

  /** getDiff("ab", "cb"): the matching "b" makes the Equal step cheapest at
      (2, 2); the tie at (1, 1) again goes to Insert. */
  lemma DiffAbToCb()
    ensures DiffOf("ab", "cb") == [Delete(0, 1), Insert(1, "c")]
  {
    var a, b := "ab", "cb";
    assert Dp(a, b, 0, 1) == Cell(1, [Insert(0, "c")]);
    assert Dp(a, b, 0, 2) == Cell(2, [Insert(0, "c"), Insert(0, "b")]);
    assert Dp(a, b, 1, 0) == Cell(1, [Delete(0, 1)]);
    assert Dp(a, b, 2, 0) == Cell(2, [Delete(0, 1), Delete(1, 1)]);
    assert Dp(a, b, 1, 1) == Cell(2, [Delete(0, 1), Insert(1, "c")]);
    assert Dp(a, b, 1, 2) == Cell(3, [Delete(0, 1), Insert(1, "c"), Insert(1, "b")]);
    assert Dp(a, b, 2, 1) == Cell(3, [Delete(0, 1), Delete(1, 1), Insert(2, "c")]);
    assert Dp(a, b, 2, 2) == Cell(2, [Delete(0, 1), Insert(1, "c")]);
  }

  /** The sweep for the two diffs above: the new Delete at 0 comes first,
      then the new Insert at 1 goes before the old Delete at 1. */
  lemma RebaseAbFixture()
    ensures Rebased([Delete(1, 1), Insert(2, "d")], [Delete(0, 1), Insert(1, "c")])
         == [Delete(0, 1), Insert(1, "c")]
  {
    var d1, d2 := [Delete(1, 1), Insert(2, "d")], [Delete(0, 1), Insert(1, "c")];
    var s1 := Sweep(0, 1, 0, d2, [Delete(0, 1)]);
    var s2 := Sweep(0, 2, 0, d2, d2);
    assert NewDeleteScan(d1, 1, Stretch(0, 0, 1)) == Stretch(0, 0, 1);
    assert MainStep(d1, Sweep(0, 0, 0, d2, [])) == s1;
    assert MainStep(d1, s1) == s2;
    assert RunMain(d1, s1) == s2;
  }

  /** runRebase("ab", "ad", "cb") == "cd". */
  lemma RunRebaseAbAdCb()
    ensures Patched("ab", DiffOf("ab", "ad")) == "ad"
    ensures Patched("ab", DiffOf("ab", "cb")) == "cb"
    ensures Patched("ad", Rebased(DiffOf("ab", "ad"), DiffOf("ab", "cb"))) == "cd"
  {
    RoundTrip("ab", "ad");
    RoundTrip("ab", "cb");
    DiffAbToAd();
    DiffAbToCb();
    RebaseAbFixture();
    PatchedAdToCd();
  }

  lemma PatchedAdToCd()
    ensures Patched("ad", [Delete(0, 1), Insert(1, "c")]) == "cd"
  {
    ReplaySnoc("ad", [Delete(0, 1)], Insert(1, "c"));
    assert [Delete(0, 1)] + [Insert(1, "c")] == [Delete(0, 1), Insert(1, "c")];
    PatchedOne("ad", Delete(0, 1));
  }

  // The remaining cases of test/test-git.js, each an instance of one of the
  // general rebase lemmas: the one-operation diffs that patch the original
  // into each side, then the general lemma read off on the literal text.

  /** Old insert, new insert after it: moved right by the old text. */
  lemma NewInsertAfterFixture()
    ensures Patched("abcdef", [Insert(2, "123")]) == "ab123cdef"
    ensures Patched("abcdef", [Insert(4, "456")]) == "abcd456ef"
    ensures Patched("ab123cdef", Rebased([Insert(2, "123")], [Insert(4, "456")])) == "ab123cd456ef"
  {
    NewInsertAfterOld();
    NewInsertAfterNew();
    InsertAfterOldInsert("abcdef", 2, "123", 4, "456");
    NewInsertAfterText();
  }

  lemma NewInsertAfterOld()
    ensures Patched("abcdef", [Insert(2, "123")]) == "ab123cdef"
  {
    PatchedInsert("abcdef", 2, "123");
    assert "abcdef"[..2] == "ab" && "abcdef"[2..] == "cdef";
  }

  lemma NewInsertAfterNew()
    ensures Patched("abcdef", [Insert(4, "456")]) == "abcd456ef"
  {
    PatchedInsert("abcdef", 4, "456");
    assert "abcdef"[..4] == "abcd" && "abcdef"[4..] == "ef";
  }

  lemma NewInsertAfterText()
    ensures "abcdef"[..2] + "123" + "abcdef"[2..4] + "456" + "abcdef"[4..] == "ab123cd456ef"
  {
    assert "abcdef"[..2] == "ab" && "abcdef"[2..4] == "cd" && "abcdef"[4..] == "ef";
  }

  /** Old insert, new insert at the same index: the old text comes first. */
  lemma SameIndexInsertsFixture()
    ensures Patched("abcdef", [Insert(3, "123")]) == "abc123def"
    ensures Patched("abcdef", [Insert(3, "456")]) == "abc456def"
    ensures Patched("abc123def", Rebased([Insert(3, "123")], [Insert(3, "456")])) == "abc123456def"
  {
    SameIndexInsertsOld();
    SameIndexInsertsNew();
    EqualIndexInsertsOldFirst("abcdef", 3, "123", "456");
    SameIndexInsertsText();
  }

  lemma SameIndexInsertsOld()
    ensures Patched("abcdef", [Insert(3, "123")]) == "abc123def"
  {
    PatchedInsert("abcdef", 3, "123");
    assert "abcdef"[..3] == "abc" && "abcdef"[3..] == "def";
  }

  lemma SameIndexInsertsNew()
    ensures Patched("abcdef", [Insert(3, "456")]) == "abc456def"
  {
    PatchedInsert("abcdef", 3, "456");
    assert "abcdef"[..3] == "abc" && "abcdef"[3..] == "def";
  }

  lemma SameIndexInsertsText()
    ensures "abcdef"[..3] + "123" + "456" + "abcdef"[3..] == "abc123456def"
  {
    assert "abcdef"[..3] == "abc" && "abcdef"[3..] == "def";
  }

  /** Old insert, new insert before it: emitted unchanged. */
  lemma NewInsertBeforeFixture()
    ensures Patched("abcdef", [Insert(4, "123")]) == "abcd123ef"
    ensures Patched("abcdef", [Insert(2, "456")]) == "ab456cdef"
    ensures Patched("abcd123ef", Rebased([Insert(4, "123")], [Insert(2, "456")])) == "ab456cd123ef"
  {
    NewInsertBeforeOld();
    NewInsertBeforeNew();
    InsertBeforeOldInsert("abcdef", 4, "123", 2, "456");
    NewInsertBeforeText();
  }

  lemma NewInsertBeforeOld()
    ensures Patched("abcdef", [Insert(4, "123")]) == "abcd123ef"
  {
    PatchedInsert("abcdef", 4, "123");
    assert "abcdef"[..4] == "abcd" && "abcdef"[4..] == "ef";
  }

  lemma NewInsertBeforeNew()
    ensures Patched("abcdef", [Insert(2, "456")]) == "ab456cdef"
  {
    PatchedInsert("abcdef", 2, "456");
    assert "abcdef"[..2] == "ab" && "abcdef"[2..] == "cdef";
  }

  lemma NewInsertBeforeText()
    ensures "abcdef"[..2] + "456" + "abcdef"[2..4] + "123" + "abcdef"[4..] == "ab456cd123ef"
  {
    assert "abcdef"[..2] == "ab" && "abcdef"[2..4] == "cd" && "abcdef"[4..] == "ef";
  }

  /** New delete, old insert in its middle: the inserted text is deleted too. */
  lemma OldInsertInMiddleFixture()
    ensures Patched("abc456def", [Insert(4, "123")]) == "abc412356def"
    ensures Patched("abc456def", [Delete(3, 3)]) == "abcdef"
    ensures Patched("abc412356def", Rebased([Insert(4, "123")], [Delete(3, 3)])) == "abcdef"
  {
    OldInsertInMiddleOld();
    OldInsertInMiddleNew();
    OldInsertInsideDeleteDeleted("abc456def", 3, 3, 4, "123");
    OldInsertInMiddleText();
  }

  lemma OldInsertInMiddleOld()
    ensures Patched("abc456def", [Insert(4, "123")]) == "abc412356def"
  {
    PatchedInsert("abc456def", 4, "123");
    assert "abc456def"[..4] == "abc4" && "abc456def"[4..] == "56def";
  }

  lemma OldInsertInMiddleNew()
    ensures Patched("abc456def", [Delete(3, 3)]) == "abcdef"
  {
    PatchedDelete("abc456def", 3, 3);
    assert "abc456def"[..3] == "abc" && "abc456def"[6..] == "def";
  }

  lemma OldInsertInMiddleText()
    ensures "abc456def"[..3] + "abc456def"[6..] == "abcdef"
  {
    assert "abc456def"[..3] == "abc" && "abc456def"[6..] == "def";
  }

  /** Old delete, new insert in its middle: the new text is dropped. */
  lemma NewInsertInMiddleFixture()
    ensures Patched("abc456def", [Delete(3, 3)]) == "abcdef"
    ensures Patched("abc456def", [Insert(4, "123")]) == "abc412356def"
    ensures Patched("abcdef", Rebased([Delete(3, 3)], [Insert(4, "123")])) == "abcdef"
  {
    NewInsertInMiddleOld();
    NewInsertInMiddleNew();
    InsertInsideOldDeleteDropped("abc456def", 3, 3, 4, "123");
    NewInsertInMiddleText();
  }

  lemma NewInsertInMiddleOld()
    ensures Patched("abc456def", [Delete(3, 3)]) == "abcdef"
  {
    PatchedDelete("abc456def", 3, 3);
    assert "abc456def"[..3] == "abc" && "abc456def"[6..] == "def";
  }

  lemma NewInsertInMiddleNew()
    ensures Patched("abc456def", [Insert(4, "123")]) == "abc412356def"
  {
    PatchedInsert("abc456def", 4, "123");
    assert "abc456def"[..4] == "abc4" && "abc456def"[4..] == "56def";
  }

  lemma NewInsertInMiddleText()
    ensures "abc456def"[..3] + MarkersOf("123") + "abc456def"[6..] == "abcdef"
  {
    assert Count("123", Marker) == 0;
    assert "abc456def"[..3] == "abc" && "abc456def"[6..] == "def";
  }

  /** New delete starting inside the old delete and ending after it: only its tail survives. */
  lemma NewDeleteEndsAfterFixture()
    ensures Patched("abc123456def", [Delete(3, 5)]) == "abc6def"
    ensures Patched("abc123456def", [Delete(5, 4)]) == "abc12def"
    ensures Patched("abc6def", Rebased([Delete(3, 5)], [Delete(5, 4)])) == "abcdef"
  {
    NewDeleteEndsAfterOld();
    NewDeleteEndsAfterNew();
    OverlappingDeleteClipped("abc123456def", 3, 5, 5, 4);
    NewDeleteEndsAfterText();
  }

  lemma NewDeleteEndsAfterOld()
    ensures Patched("abc123456def", [Delete(3, 5)]) == "abc6def"
  {
    PatchedDelete("abc123456def", 3, 5);
    assert "abc123456def"[..3] == "abc" && "abc123456def"[8..] == "6def";
  }

  lemma NewDeleteEndsAfterNew()
    ensures Patched("abc123456def", [Delete(5, 4)]) == "abc12def"
  {
    PatchedDelete("abc123456def", 5, 4);
    assert "abc123456def"[..5] == "abc12" && "abc123456def"[9..] == "def";
  }

  lemma NewDeleteEndsAfterText()
    ensures "abc123456def"[..3] + "abc123456def"[9..] == "abcdef"
  {
    assert "abc123456def"[..3] == "abc" && "abc123456def"[9..] == "def";
  }

  /** New delete after the old one: moved left by its size. */
  lemma NewDeleteAfterFixture()
    ensures Patched("abc123456def", [Delete(3, 2)]) == "abc3456def"
    ensures Patched("abc123456def", [Delete(6, 3)]) == "abc123def"
    ensures Patched("abc3456def", Rebased([Delete(3, 2)], [Delete(6, 3)])) == "abc3def"
  {
    NewDeleteAfterOld();
    NewDeleteAfterNew();
    DeleteAfterOldDelete("abc123456def", 3, 2, 6, 3);
    NewDeleteAfterText();
  }

  lemma NewDeleteAfterOld()
    ensures Patched("abc123456def", [Delete(3, 2)]) == "abc3456def"
  {
    PatchedDelete("abc123456def", 3, 2);
    assert "abc123456def"[..3] == "abc" && "abc123456def"[5..] == "3456def";
  }

  lemma NewDeleteAfterNew()
    ensures Patched("abc123456def", [Delete(6, 3)]) == "abc123def"
  {
    PatchedDelete("abc123456def", 6, 3);
    assert "abc123456def"[..6] == "abc123" && "abc123456def"[9..] == "def";
  }

  lemma NewDeleteAfterText()
    ensures "abc123456def"[..3] + "abc123456def"[5..6] + "abc123456def"[9..] == "abc3def"
  {
    assert "abc123456def"[..3] == "abc" && "abc123456def"[5..6] == "3" && "abc123456def"[9..] == "def";
  }

  /** A new insert carrying both cursor markers, inside an old delete: both markers come back at the deletion point. */
  lemma CursorMarkersFixture()
    ensures Patched("abcdef", [Delete(1, 4)]) == "af"
    ensures Patched("abcdef", [Insert(3, "\0x\0")]) == "abc\0x\0def"
    ensures Patched("af", Rebased([Delete(1, 4)], [Insert(3, "\0x\0")])) == "a\0\0f"
  {
    CursorMarkersOld();
    CursorMarkersNew();
    InsertInsideOldDeleteDropped("abcdef", 1, 4, 3, "\0x\0");
    CursorMarkersText();
  }

  lemma CursorMarkersOld()
    ensures Patched("abcdef", [Delete(1, 4)]) == "af"
  {
    PatchedDelete("abcdef", 1, 4);
    assert "abcdef"[..1] == "a" && "abcdef"[5..] == "f";
  }

  lemma CursorMarkersNew()
    ensures Patched("abcdef", [Insert(3, "\0x\0")]) == "abc\0x\0def"
  {
    PatchedInsert("abcdef", 3, "\0x\0");
    assert "abcdef"[..3] == "abc" && "abcdef"[3..] == "def";
  }

  lemma CursorMarkersText()
    ensures "abcdef"[..1] + MarkersOf("\0x\0") + "abcdef"[5..] == "a\0\0f"
  {
    assert Count("\0x\0", Marker) == 2;
    assert "abcdef"[..1] == "a" && "abcdef"[5..] == "f";
  }

  // The one-operation diffs of the remaining cases, read off on the literal
  // texts: a diff that patches the original into the expected side.

  /** A one-Insert diff applied to a literal text. */
  lemma InsertInto(o: string, k: nat, u: string, r: string)
    requires k <= |o| && o[..k] + u + o[k..] == r
    ensures Patched(o, [Insert(k, u)]) == r
  {
    PatchedInsert(o, k, u);
  }

  /** A one-Delete diff applied to a literal text. */
  lemma CutFrom(o: string, k: nat, n: nat, r: string)
    requires k + n <= |o| && o[..k] + o[k + n..] == r
    ensures Patched(o, [Delete(k, n)]) == r
  {
    PatchedDelete(o, k, n);
  }

  /** New delete, old insert before it (test/test-git.js:97). */
  lemma OldInsertBeforeFixture()
    ensures Patched("abc456def", [Insert(2, "123")]) == "ab123c456def"
    ensures Patched("abc456def", [Delete(3, 3)]) == "abcdef"
    ensures Patched("ab123c456def", Rebased([Insert(2, "123")], [Delete(3, 3)])) == "ab123cdef"
  {
    var o := "abc456def";
    InsertInto(o, 2, "123", "ab123c456def");
    CutFrom(o, 3, 3, "abcdef");
    DeleteAfterOldInsert(o, 2, "123", 3, 3);
    OldInsertBeforeText();
  }

  lemma OldInsertBeforeText()
    ensures "abc456def"[..2] + "123" + "abc456def"[2..3] + "abc456def"[6..] == "ab123cdef"
  {
    var o := "abc456def";
    assert o[..2] == "ab" && o[2..3] == "c" && o[6..] == "def";
  }

  /** New delete, old insert at its start (test/test-git.js:99). */
  lemma OldInsertAtStartFixture()
    ensures Patched("abc456def", [Insert(3, "123")]) == "abc123456def"
    ensures Patched("abc456def", [Delete(3, 3)]) == "abcdef"
    ensures Patched("abc123456def", Rebased([Insert(3, "123")], [Delete(3, 3)])) == "abc123def"
  {
    var o := "abc456def";
    InsertInto(o, 3, "123", "abc123456def");
    CutFrom(o, 3, 3, "abcdef");
    DeleteAfterOldInsert(o, 3, "123", 3, 3);
    OldInsertAtStartText();
  }

  lemma OldInsertAtStartText()
    ensures "abc456def"[..3] + "123" + "abc456def"[3..3] + "abc456def"[6..] == "abc123def"
  {
    var o := "abc456def";
    assert o[..3] == "abc" && o[3..3] == "" && o[6..] == "def";
  }

  /** New delete, old insert at its end (test/test-git.js:103). */
  lemma OldInsertAtEndFixture()
    ensures Patched("abc456def", [Insert(6, "123")]) == "abc456123def"
    ensures Patched("abc456def", [Delete(3, 3)]) == "abcdef"
    ensures Patched("abc456123def", Rebased([Insert(6, "123")], [Delete(3, 3)])) == "abc123def"
  {
    var o := "abc456def";
    InsertInto(o, 6, "123", "abc456123def");
    CutFrom(o, 3, 3, "abcdef");
    DeleteBeforeOldInsert(o, 6, "123", 3, 3);
    OldInsertAtEndText();
  }

  lemma OldInsertAtEndText()
    ensures "abc456def"[..3] + "abc456def"[6..6] + "123" + "abc456def"[6..] == "abc123def"
  {
    var o := "abc456def";
    assert o[..3] == "abc" && o[6..6] == "" && o[6..] == "def";
  }

  /** New delete, old insert after it (test/test-git.js:105). */
  lemma OldInsertAfterFixture()
    ensures Patched("abc456def", [Insert(7, "123")]) == "abc456d123ef"
    ensures Patched("abc456def", [Delete(3, 3)]) == "abcdef"
    ensures Patched("abc456d123ef", Rebased([Insert(7, "123")], [Delete(3, 3)])) == "abcd123ef"
  {
    var o := "abc456def";
    InsertInto(o, 7, "123", "abc456d123ef");
    CutFrom(o, 3, 3, "abcdef");
    DeleteBeforeOldInsert(o, 7, "123", 3, 3);
    OldInsertAfterText();
  }

  lemma OldInsertAfterText()
    ensures "abc456def"[..3] + "abc456def"[6..7] + "123" + "abc456def"[7..] == "abcd123ef"
  {
    var o := "abc456def";
    assert o[..3] == "abc" && o[6..7] == "d" && o[7..] == "ef";
  }

  /** Old delete, new insert before it (test/test-git.js:110). */
  lemma NewInsertBeforeDeleteFixture()
    ensures Patched("abc456def", [Delete(3, 3)]) == "abcdef"
    ensures Patched("abc456def", [Insert(2, "123")]) == "ab123c456def"
    ensures Patched("abcdef", Rebased([Delete(3, 3)], [Insert(2, "123")])) == "ab123cdef"
  {
    var o := "abc456def";
    CutFrom(o, 3, 3, "abcdef");
    InsertInto(o, 2, "123", "ab123c456def");
    InsertBeforeOldDelete(o, 3, 3, 2, "123");
    NewInsertBeforeDeleteText();
  }

  lemma NewInsertBeforeDeleteText()
    ensures "abc456def"[..2] + "123" + "abc456def"[2..3] + "abc456def"[6..] == "ab123cdef"
  {
    var o := "abc456def";
    assert o[..2] == "ab" && o[2..3] == "c" && o[6..] == "def";
  }

  /** Old delete, new insert at its start (test/test-git.js:112). */
  lemma NewInsertAtStartFixture()
    ensures Patched("abc456def", [Delete(3, 3)]) == "abcdef"
    ensures Patched("abc456def", [Insert(3, "123")]) == "abc123456def"
    ensures Patched("abcdef", Rebased([Delete(3, 3)], [Insert(3, "123")])) == "abc123def"
  {
    var o := "abc456def";
    CutFrom(o, 3, 3, "abcdef");
    InsertInto(o, 3, "123", "abc123456def");
    InsertAtOldDeleteKept(o, 3, 3, "123");
    NewInsertAtStartText();
  }

  lemma NewInsertAtStartText()
    ensures "abc456def"[..3] + "123" + "abc456def"[6..] == "abc123def"
  {
    var o := "abc456def";
    assert o[..3] == "abc" && o[6..] == "def";
  }

  /** Old delete, new insert at its end (test/test-git.js:116). */
  lemma NewInsertAtEndFixture()
    ensures Patched("abc456def", [Delete(3, 3)]) == "abcdef"
    ensures Patched("abc456def", [Insert(6, "123")]) == "abc456123def"
    ensures Patched("abcdef", Rebased([Delete(3, 3)], [Insert(6, "123")])) == "abc123def"
  {
    var o := "abc456def";
    CutFrom(o, 3, 3, "abcdef");
    InsertInto(o, 6, "123", "abc456123def");
    InsertAfterOldDelete(o, 3, 3, 6, "123");
    NewInsertAtEndText();
  }

  lemma NewInsertAtEndText()
    ensures "abc456def"[..3] + "abc456def"[6..6] + "123" + "abc456def"[6..] == "abc123def"
  {
    var o := "abc456def";
    assert o[..3] == "abc" && o[6..6] == "" && o[6..] == "def";
  }

  /** Old delete, new insert after it (test/test-git.js:118). */
  lemma NewInsertAfterDeleteFixture()
    ensures Patched("abc456def", [Delete(3, 3)]) == "abcdef"
    ensures Patched("abc456def", [Insert(7, "123")]) == "abc456d123ef"
    ensures Patched("abcdef", Rebased([Delete(3, 3)], [Insert(7, "123")])) == "abcd123ef"
  {
    var o := "abc456def";
    CutFrom(o, 3, 3, "abcdef");
    InsertInto(o, 7, "123", "abc456d123ef");
    InsertAfterOldDelete(o, 3, 3, 7, "123");
    NewInsertAfterDeleteText();
  }

  lemma NewInsertAfterDeleteText()
    ensures "abc456def"[..3] + "abc456def"[6..7] + "123" + "abc456def"[7..] == "abcd123ef"
  {
    var o := "abc456def";
    assert o[..3] == "abc" && o[6..7] == "d" && o[7..] == "ef";
  }

  /** Old delete, new delete starting and ending before it (test/test-git.js:123). */
  lemma DeleteBeforeFixture()
    ensures Patched("ab123c456def", [Delete(6, 3)]) == "ab123cdef"
    ensures Patched("ab123c456def", [Delete(2, 3)]) == "abc456def"
    ensures Patched("ab123cdef", Rebased([Delete(6, 3)], [Delete(2, 3)])) == "abcdef"
  {
    var o := "ab123c456def";
    CutFrom(o, 6, 3, "ab123cdef");
    CutFrom(o, 2, 3, "abc456def");
    DeleteBeforeOldDelete(o, 6, 3, 2, 3);
    DeleteBeforeText();
  }

  /** Old delete, new delete starting before it and ending at its start (test/test-git.js:125); as texts, the new delete runs one character into the old one. */
  lemma DeleteBeforeToStartFixture()
    ensures Patched("abc123456def", [Delete(6, 3)]) == "abc123def"
    ensures Patched("abc123456def", [Delete(3, 4)]) == "abc56def"
    ensures Patched("abc123def", Rebased([Delete(6, 3)], [Delete(3, 4)])) == "abcdef"
  {
    var o := "abc123456def";
    CutFrom(o, 6, 3, "abc123def");
    CutFrom(o, 3, 4, "abc56def");
    DeleteCutShortByOldDelete(o, 3, 4, 6, 3);
    NewDeleteEndsAfterText();
  }

  /** Old delete, new delete starting before it and ending in its middle (test/test-git.js:127). */
  lemma DeleteBeforeToMiddleFixture()
    ensures Patched("abc123456def", [Delete(6, 3)]) == "abc123def"
    ensures Patched("abc123456def", [Delete(3, 5)]) == "abc6def"
    ensures Patched("abc123def", Rebased([Delete(6, 3)], [Delete(3, 5)])) == "abcdef"
  {
    var o := "abc123456def";
    CutFrom(o, 6, 3, "abc123def");
    CutFrom(o, 3, 5, "abc6def");
    DeleteCutShortByOldDelete(o, 3, 5, 6, 3);
    NewDeleteEndsAfterText();
  }

  /** Old delete, new delete starting before it and ending at its end (test/test-git.js:129). */
  lemma DeleteBeforeToEndFixture()
    ensures Patched("abc123456def", [Delete(6, 3)]) == "abc123def"
    ensures Patched("abc123456def", [Delete(3, 6)]) == "abcdef"
    ensures Patched("abc123def", Rebased([Delete(6, 3)], [Delete(3, 6)])) == "abcdef"
  {
    var o := "abc123456def";
    CutFrom(o, 6, 3, "abc123def");
    CutFrom(o, 3, 6, "abcdef");
    DeleteCutShortByOldDelete(o, 3, 6, 6, 3);
    NewDeleteEndsAfterText();
  }

  /** Old delete, new delete starting before it and ending after it (test/test-git.js:131). */
  lemma DeleteBeforePastEndFixture()
    ensures Patched("abc124563def", [Delete(5, 3)]) == "abc123def"
    ensures Patched("abc124563def", [Delete(3, 6)]) == "abcdef"
    ensures Patched("abc123def", Rebased([Delete(5, 3)], [Delete(3, 6)])) == "abcdef"
  {
    var o := "abc124563def";
    CutFrom(o, 5, 3, "abc123def");
    CutFrom(o, 3, 6, "abcdef");
    DeleteCoversOldDelete(o, 5, 3, 3, 6);
    DeleteBeforePastEndText();
  }

  /** Old delete, new delete starting at its start and ending in its middle (test/test-git.js:134). */
  lemma DeleteStartToMiddleFixture()
    ensures Patched("abc123456def", [Delete(3, 6)]) == "abcdef"
    ensures Patched("abc123456def", [Delete(3, 3)]) == "abc456def"
    ensures Patched("abcdef", Rebased([Delete(3, 6)], [Delete(3, 3)])) == "abcdef"
  {
    var o := "abc123456def";
    CutFrom(o, 3, 6, "abcdef");
    CutFrom(o, 3, 3, "abc456def");
    DeleteInsideOldDeleteDropped(o, 3, 6, 3, 3);
    NewDeleteEndsAfterText();
  }

  /** Old delete, new delete of the same range (test/test-git.js:136). */
  lemma DeleteStartToEndFixture()
    ensures Patched("abc123456def", [Delete(3, 6)]) == "abcdef"
    ensures Patched("abc123456def", [Delete(3, 6)]) == "abcdef"
    ensures Patched("abcdef", Rebased([Delete(3, 6)], [Delete(3, 6)])) == "abcdef"
  {
    var o := "abc123456def";
    CutFrom(o, 3, 6, "abcdef");
    CutFrom(o, 3, 6, "abcdef");
    DeleteInsideOldDeleteDropped(o, 3, 6, 3, 6);
    NewDeleteEndsAfterText();
  }

  /** Old delete, new delete starting at its start and ending after it (test/test-git.js:138). */
  lemma DeleteStartPastEndFixture()
    ensures Patched("abc123456def", [Delete(3, 5)]) == "abc6def"
    ensures Patched("abc123456def", [Delete(3, 6)]) == "abcdef"
    ensures Patched("abc6def", Rebased([Delete(3, 5)], [Delete(3, 6)])) == "abcdef"
  {
    var o := "abc123456def";
    CutFrom(o, 3, 5, "abc6def");
    CutFrom(o, 3, 6, "abcdef");
    DeleteCoversOldDelete(o, 3, 5, 3, 6);
    NewDeleteEndsAfterText();
  }

  /** Old delete, new delete starting and ending in its middle (test/test-git.js:141). */
  lemma DeleteMiddleToMiddleFixture()
    ensures Patched("abc123456def", [Delete(3, 6)]) == "abcdef"
    ensures Patched("abc123456def", [Delete(5, 3)]) == "abc126def"
    ensures Patched("abcdef", Rebased([Delete(3, 6)], [Delete(5, 3)])) == "abcdef"
  {
    var o := "abc123456def";
    CutFrom(o, 3, 6, "abcdef");
    CutFrom(o, 5, 3, "abc126def");
    DeleteInsideOldDeleteDropped(o, 3, 6, 5, 3);
    NewDeleteEndsAfterText();
  }

  /** Old delete, new delete starting in its middle and ending at its end (test/test-git.js:143). */
  lemma DeleteMiddleToEndFixture()
    ensures Patched("abc123456def", [Delete(3, 6)]) == "abcdef"
    ensures Patched("abc123456def", [Delete(5, 4)]) == "abc12def"
    ensures Patched("abcdef", Rebased([Delete(3, 6)], [Delete(5, 4)])) == "abcdef"
  {
    var o := "abc123456def";
    CutFrom(o, 3, 6, "abcdef");
    CutFrom(o, 5, 4, "abc12def");
    DeleteInsideOldDeleteDropped(o, 3, 6, 5, 4);
    NewDeleteEndsAfterText();
  }

  /** Old delete, new delete starting at its end and ending after it (test/test-git.js:148); as texts, the new delete starts one character inside the old one. */
  lemma DeleteEndPastEndFixture()
    ensures Patched("abc123456def", [Delete(3, 3)]) == "abc456def"
    ensures Patched("abc123456def", [Delete(5, 4)]) == "abc12def"
    ensures Patched("abc456def", Rebased([Delete(3, 3)], [Delete(5, 4)])) == "abcdef"
  {
    var o := "abc123456def";
    CutFrom(o, 3, 3, "abc456def");
    CutFrom(o, 5, 4, "abc12def");
    OverlappingDeleteClipped(o, 3, 3, 5, 4);
    NewDeleteEndsAfterText();
  }

  lemma DeleteBeforeText()
    ensures "ab123c456def"[..2] + "ab123c456def"[5..6] + "ab123c456def"[9..] == "abcdef"
  {
    var o := "ab123c456def";
    assert o[..2] == "ab" && o[5..6] == "c" && o[9..] == "def";
  }

  lemma DeleteBeforePastEndText()
    ensures "abc124563def"[..3] + "abc124563def"[9..] == "abcdef"
  {
    var o := "abc124563def";
    assert o[..3] == "abc" && o[9..] == "def";
  }

  // Diffs of several operations: the multi-delete cases.

  /** A Delete after where the previous operation left off copies the span
      between and moves the cursor past the deleted range. */
  lemma ReplayDeleteAt(o: string, d: Diff, k: nat, n: nat)
    requires 0 <= Cursor(d) <= k && k + n <= |o|
    ensures Replay(o, d + [Delete(k, n)]) == Replay(o, d) + o[Cursor(d)..k]
    ensures Cursor(d + [Delete(k, n)]) == k + n
  {
    var a, gap := Replay(o, d), Substring(o, Cursor(d), k);
    ReplaySnoc(o, d, Delete(k, n));
    assert gap == o[Cursor(d)..k];
    assert a + gap + "" == a + gap;
  }

  /** applyDiff's last step: the text after the cursor is copied. */
  lemma PatchedTail(o: string, d: Diff)
    requires 0 <= Cursor(d) <= |o|
    ensures Patched(o, d) == Replay(o, d) + o[Cursor(d)..]
  {
    assert Substring(o, Cursor(d), |o|) == o[Cursor(d)..];
  }

  lemma ReplayFirstDelete(o: string, k: nat, n: nat)
    requires k + n <= |o|
    ensures Replay(o, [Delete(k, n)]) == o[..k]
    ensures Cursor([Delete(k, n)]) == k + n
  {
    ReplayDeleteAt(o, [], k, n);
    assert [] + [Delete(k, n)] == [Delete(k, n)];
    assert Replay(o, []) + o[0..k] == o[..k];
  }

  lemma ReplayTwoDeletes(o: string, k1: nat, n1: nat, k2: nat, n2: nat)
    requires k1 + n1 <= k2 && k2 + n2 <= |o|
    ensures Replay(o, [Delete(k1, n1), Delete(k2, n2)]) == o[..k1] + o[k1 + n1..k2]
    ensures Cursor([Delete(k1, n1), Delete(k2, n2)]) == k2 + n2
  {
    var d1, d2 := [Delete(k1, n1)], [Delete(k1, n1), Delete(k2, n2)];
    var r1 := o[..k1];
    assert Replay(o, d1) == r1 && Cursor(d1) == k1 + n1 by { ReplayFirstDelete(o, k1, n1); }
    assert Replay(o, d2) == r1 + o[k1 + n1..k2] && Cursor(d2) == k2 + n2 by {
      ReplayDeleteAt(o, d1, k2, n2);
      assert d1 + [Delete(k2, n2)] == d2;
    }
  }

  lemma PatchedTwoDeletes(o: string, k1: nat, n1: nat, k2: nat, n2: nat)
    requires k1 + n1 <= k2 && k2 + n2 <= |o|
    ensures Patched(o, [Delete(k1, n1), Delete(k2, n2)]) == o[..k1] + o[k1 + n1..k2] + o[k2 + n2..]
  {
    var d2 := [Delete(k1, n1), Delete(k2, n2)];
    var r2 := o[..k1] + o[k1 + n1..k2];
    assert Replay(o, d2) == r2 && Cursor(d2) == k2 + n2 by { ReplayTwoDeletes(o, k1, n1, k2, n2); }
    PatchedTail(o, d2);
  }

  /** A Delete appended to a diff d whose output so far is r and whose
      cursor is c: the span up to the Delete is copied, it is skipped, and
      the rest of the text follows. */
  lemma PatchedDeleteAt(o: string, d: Diff, r: string, c: nat, e: Diff, k: nat, n: nat)
    requires Replay(o, d) == r && Cursor(d) == c
    requires c <= k && k + n <= |o| && e == d + [Delete(k, n)]
    ensures Patched(o, e) == r + o[c..k] + o[k + n..]
  {
    assert Replay(o, e) == r + o[c..k] && Cursor(e) == k + n by { ReplayDeleteAt(o, d, k, n); }
    assert Patched(o, e) == Replay(o, e) + o[k + n..] by { PatchedTail(o, e); }
  }

  lemma PatchedThreeDeletes(o: string, k1: nat, n1: nat, k2: nat, n2: nat, k3: nat, n3: nat)
    requires k1 + n1 <= k2 && k2 + n2 <= k3 && k3 + n3 <= |o|
    ensures Patched(o, [Delete(k1, n1), Delete(k2, n2), Delete(k3, n3)])
         == o[..k1] + o[k1 + n1..k2] + o[k2 + n2..k3] + o[k3 + n3..]
  {
    var d2 := [Delete(k1, n1), Delete(k2, n2)];
    var d3 := [Delete(k1, n1), Delete(k2, n2), Delete(k3, n3)];
    assert d3 == d2 + [Delete(k3, n3)];
    ReplayTwoDeletes(o, k1, n1, k2, n2);
    PatchedDeleteAt(o, d2, o[..k1] + o[k1 + n1..k2], k2 + n2, d3, k3, n3);
  }

  /** The sweep for "abcdef" edited to "adf" (old) and to "acf" (new): the
      new Delete of "b" lies inside the old Delete of "bc" and is dropped;
      the new Delete of "de" is cut where the old Delete of "e" starts. */
  lemma AdfUnderAcfSweep()
    ensures Rebased([Delete(1, 2), Delete(4, 1)], [Delete(1, 1), Delete(3, 2)]) == [Delete(1, 1)]
  {
    var d1, d2 := [Delete(1, 2), Delete(4, 1)], [Delete(1, 1), Delete(3, 2)];
    var s0 := Sweep(0, 0, 0, d2, []);
    assert OldDeleteScan(Delete(1, 2), s0) == Sweep(0, 1, 0, d2, []) by {
      assert OldDeleteScan(Delete(1, 2), Sweep(0, 1, 0, d2, [])) == Sweep(0, 1, 0, d2, []);
    }
    var s1 := Sweep(1, 1, -2, d2, []);
    assert MainStep(d1, s0) == s1;
    assert NewDeleteScan(d1, 5, Stretch(1, -2, 2)) == Stretch(1, -2, 1);
    var s2 := Sweep(1, 2, -2, d2, [Delete(1, 1)]);
    assert MainStep(d1, s1) == s2;
    assert RunMain(d1, s1) == s2;
  }

  /** The same two edits the other way round: the new Delete of "bc" is
      clipped to "c" by the old Delete of "b", and the new Delete of "e" lies
      inside the old Delete of "de". */
  lemma AcfUnderAdfSweep()
    ensures Rebased([Delete(1, 1), Delete(3, 2)], [Delete(1, 2), Delete(4, 1)]) == [Delete(1, 1)]
  {
    var d1, d2 := [Delete(1, 1), Delete(3, 2)], [Delete(1, 2), Delete(4, 1)];
    var clipped := [Delete(2, 1), Delete(4, 1)];
    var s0 := Sweep(0, 0, 0, d2, []);
    assert OldDeleteScan(Delete(1, 1), s0) == Sweep(0, 0, 0, clipped, []);
    var s1 := Sweep(1, 0, -1, clipped, []);
    assert MainStep(d1, s0) == s1;
    assert NewDeleteScan(d1, 3, Stretch(1, -1, 1)) == Stretch(1, -1, 1);
    var s2 := Sweep(1, 1, -1, clipped, [Delete(1, 1)]);
    assert MainStep(d1, s1) == s2;
    assert OldDeleteScan(Delete(3, 2), s2) == Sweep(1, 2, -1, clipped, [Delete(1, 1)]) by {
      assert OldDeleteScan(Delete(3, 2), Sweep(1, 2, -1, clipped, [Delete(1, 1)])) == Sweep(1, 2, -1, clipped, [Delete(1, 1)]);
    }
    var s3 := Sweep(2, 2, -3, clipped, [Delete(1, 1)]);
    assert MainStep(d1, s2) == s3;
    assert RunMain(d1, s2) == s3;
    assert RunMain(d1, s1) == s3;
  }

  /** Multiple overlapping deletes, "abcdef" to "adf" and to "acf", rebased
      one way (test/test-git.js:161-163). */
  lemma OverlappingDeletesFixture()
    ensures Patched("abcdef", [Delete(1, 2), Delete(4, 1)]) == "adf"
    ensures Patched("abcdef", [Delete(1, 1), Delete(3, 2)]) == "acf"
    ensures Patched("adf", Rebased([Delete(1, 2), Delete(4, 1)], [Delete(1, 1), Delete(3, 2)])) == "af"
  {
    OverlappingDeletesSides();
    AdfUnderAcfSweep();
    CutFrom("adf", 1, 1, "af");
  }

  /** The same edits rebased the other way (test/test-git.js:164). */
  lemma OverlappingDeletesReversedFixture()
    ensures Patched("acf", Rebased([Delete(1, 1), Delete(3, 2)], [Delete(1, 2), Delete(4, 1)])) == "af"
  {
    AcfUnderAdfSweep();
    CutFrom("acf", 1, 1, "af");
  }

  lemma OverlappingDeletesSides()
    ensures Patched("abcdef", [Delete(1, 2), Delete(4, 1)]) == "adf"
    ensures Patched("abcdef", [Delete(1, 1), Delete(3, 2)]) == "acf"
  {
    var o := "abcdef";
    PatchedTwoDeletes(o, 1, 2, 4, 1);
    PatchedTwoDeletes(o, 1, 1, 3, 2);
    assert o[..1] == "a" && o[3..4] == "d" && o[2..3] == "c" && o[5..] == "f";
  }

  /** The sweep for "acbdefghij" edited to "adfj" (old) and to "acgj" (new). */
  lemma AdfjUnderAcgjSweep()
    ensures Rebased([Delete(1, 2), Delete(4, 1), Delete(6, 3)], [Delete(2, 4), Delete(7, 2)]) == [Delete(1, 2)]
  {
    var d1, d2 := [Delete(1, 2), Delete(4, 1), Delete(6, 3)], [Delete(2, 4), Delete(7, 2)];
    var clipped := [Delete(3, 3), Delete(7, 2)];
    var s0 := Sweep(0, 0, 0, d2, []);
    assert OldDeleteScan(Delete(1, 2), s0) == Sweep(0, 0, 0, clipped, []);
    var s1 := Sweep(1, 0, -2, clipped, []);
    assert MainStep(d1, s0) == s1;
    assert NewDeleteScan(d1, 6, Stretch(1, -2, 3)) == Stretch(2, -3, 2) by {
      assert NewDeleteScan(d1, 6, Stretch(2, -3, 2)) == Stretch(2, -3, 2);
    }
    var s2 := Sweep(2, 1, -3, clipped, [Delete(1, 2)]);
    assert MainStep(d1, s1) == s2;
    assert OldDeleteScan(Delete(6, 3), s2) == Sweep(2, 2, -3, clipped, [Delete(1, 2)]) by {
      assert OldDeleteScan(Delete(6, 3), Sweep(2, 2, -3, clipped, [Delete(1, 2)])) == Sweep(2, 2, -3, clipped, [Delete(1, 2)]);
    }
    var s3 := Sweep(3, 2, -6, clipped, [Delete(1, 2)]);
    assert MainStep(d1, s2) == s3;
    assert RunMain(d1, s2) == s3;
    assert RunMain(d1, s1) == s3;
  }

  /** The same two edits the other way round. */
  lemma AcgjUnderAdfjSweep()
    ensures Rebased([Delete(2, 4), Delete(7, 2)], [Delete(1, 2), Delete(4, 1), Delete(6, 3)]) == [Delete(1, 1), Delete(2, 1)]
  {
    var d1, d2 := [Delete(2, 4), Delete(7, 2)], [Delete(1, 2), Delete(4, 1), Delete(6, 3)];
    var s0 := Sweep(0, 0, 0, d2, []);
    assert NewDeleteScan(d1, 3, Stretch(0, 0, 2)) == Stretch(0, 0, 1);
    var s1 := Sweep(0, 1, 0, d2, [Delete(1, 1)]);
    assert MainStep(d1, s0) == s1;
    assert OldDeleteScan(Delete(2, 4), s1) == Sweep(0, 2, 0, d2, [Delete(1, 1)]) by {
      assert OldDeleteScan(Delete(2, 4), Sweep(0, 2, 0, d2, [Delete(1, 1)])) == Sweep(0, 2, 0, d2, [Delete(1, 1)]);
    }
    var s2 := Sweep(1, 2, -4, d2, [Delete(1, 1)]);
    assert MainStep(d1, s1) == s2;
    assert NewDeleteScan(d1, 9, Stretch(1, -4, 3)) == Stretch(1, -4, 1);
    var s3 := Sweep(1, 3, -4, d2, [Delete(1, 1), Delete(2, 1)]);
    assert MainStep(d1, s2) == s3;
    assert RunMain(d1, s2) == s3;
    assert RunMain(d1, s1) == s3;
  }

  /** Multiple overlapping deletes, "acbdefghij" to "adfj" and to "acgj",
      rebased one way (test/test-git.js:166-169). */
  lemma ManyOverlappingDeletesFixture()
    ensures Patched("acbdefghij", [Delete(1, 2), Delete(4, 1), Delete(6, 3)]) == "adfj"
    ensures Patched("acbdefghij", [Delete(2, 4), Delete(7, 2)]) == "acgj"
    ensures Patched("adfj", Rebased([Delete(1, 2), Delete(4, 1), Delete(6, 3)], [Delete(2, 4), Delete(7, 2)])) == "aj"
  {
    ManyOverlappingDeletesSides();
    AdfjUnderAcgjSweep();
    CutFrom("adfj", 1, 2, "aj");
  }

  /** The same edits rebased the other way (test/test-git.js:170). */
  lemma ManyOverlappingDeletesReversedFixture()
    ensures Patched("acgj", Rebased([Delete(2, 4), Delete(7, 2)], [Delete(1, 2), Delete(4, 1), Delete(6, 3)])) == "aj"
  {
    AcgjUnderAdfjSweep();
    AcgjToAj();
  }

  lemma AcgjToAj()
    ensures Patched("acgj", [Delete(1, 1), Delete(2, 1)]) == "aj"
  {
    var o := "acgj";
    PatchedTwoDeletes(o, 1, 1, 2, 1);
    assert o[..1] == "a" && o[2..2] == "" && o[3..] == "j";
  }

  lemma ManyOverlappingDeletesSides()
    ensures Patched("acbdefghij", [Delete(1, 2), Delete(4, 1), Delete(6, 3)]) == "adfj"
    ensures Patched("acbdefghij", [Delete(2, 4), Delete(7, 2)]) == "acgj"
  {
    AdfjSide();
    AcgjSide();
  }

  lemma AdfjSide()
    ensures Patched("acbdefghij", [Delete(1, 2), Delete(4, 1), Delete(6, 3)]) == "adfj"
  {
    var o := "acbdefghij";
    PatchedThreeDeletes(o, 1, 2, 4, 1, 6, 3);
    AdfjText();
  }

  lemma AdfjText()
    ensures var o := "acbdefghij"; o[..1] + o[3..4] + o[5..6] + o[9..] == "adfj"
  {
    var o := "acbdefghij";
    assert o[..1] == "a" && o[3..4] == "d" && o[5..6] == "f" && o[9..] == "j";
  }

  lemma AcgjSide()
    ensures Patched("acbdefghij", [Delete(2, 4), Delete(7, 2)]) == "acgj"
  {
    var o := "acbdefghij";
    PatchedTwoDeletes(o, 2, 4, 7, 2);
    AcgjText();
  }

  lemma AcgjText()
    ensures var o := "acbdefghij"; o[..2] + o[6..7] + o[9..] == "acgj"
  {
    var o := "acbdefghij";
    assert o[..2] == "ac" && o[6..7] == "g" && o[9..] == "j";
  }
}
