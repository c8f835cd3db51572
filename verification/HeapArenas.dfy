/** Creating an arena from freshly mapped pages and giving an arena's pages back. */
module HeapArenas {
  import opened Wrappers
  import opened Paging
  import opened Pages
  import opened PageAlloc
  import opened Heap
  import opened HeapBlocks

  // ---- Arenas and the page layer ----

  /** The pages of an arena are mapped and reserved. */
  lemma SpanReserved(h: HeapState, own: map<nat, Use>, a: nat, n: nat)
    requires Inv(h.pages, own, {}) && ArenasOk(h) && a in h.arenas && a <= n < a + Span(h.arenas[a])
    ensures InHeap(h.pages, n) && Reserved(h.pages, n) && PageOf(h.pages, n).Some? && n !in h.pages.lost
  {
    hide WalkPage, TablesOk, OwnExact;
    assert ArenaOk(h.pages, a, h.arenas[a]);
  }

  /** Arenas keep their pages when malloc_page takes others. */
  lemma ArenasSurviveGrowth(h: HeapState, own: map<nat, Use>, q: State, own': map<nat, Use>, page: nat, cnt: nat)
    requires Inv(h.pages, own, {}) && ArenasOk(h) && Inv(q, own', {}) && SameShape(h.pages, q)
    requires Grows(own, own', page, cnt)
    requires forall n: nat :: n in q.lost && n !in h.pages.lost ==> !Reserved(h.pages, n)
    ensures ArenasOk(h.(pages := q))
  {
    hide WalkPage, TablesOk, Layout, OwnExact, PagesOk;
    forall a: nat | a in h.arenas ensures ArenaOk(q, a, h.arenas[a]) {
      assert ArenaOk(h.pages, a, h.arenas[a]);
      forall n: nat | a <= n < a + Span(h.arenas[a])
        ensures PageOf(q, n).Some? && PageOf(q, n) != Some(q.dir) && n !in q.lost
      {
        SpanReserved(h, own, a, n);
        var f := PageOf(h.pages, n).value;
        TranslationIsUse(h.pages, own, {}, n, f);
        assert InHeap(q, n);
        TranslationIsUse(q, own', {}, n, f);
      }
    }
  }

  /** A granted run overlaps no arena, so it can become one. */
  lemma NewArenaOk(h: HeapState, own: map<nat, Use>, q: State, own': map<nat, Use>, t: Flag, page: nat, r: Arena)
    requires Inv(h.pages, own, {}) && ArenasOk(h) && Inv(q, own', {}) && SameShape(h.pages, q)
    requires Granted(h.pages, own, q, own', t, page, Span(r))
    requires match r case Small(d, n) => d.flag == t && n <= BlocksCnt(d.idx) case Large(n) => 0 < n < 3840
    ensures page !in h.arenas && ArenasOk(h.(pages := q, arenas := h.arenas[page := r]))
  {
    hide WalkPage, TablesOk, OwnExact, PagesOk, Layout;
    ArenasSurviveGrowth(h, own, q, own', page, Span(r));
    forall a: nat | a in h.arenas
      ensures a + Span(h.arenas[a]) <= page || page + Span(r) <= a
    {
      Apart(h, own, q, own', t, page, Span(r), a);
    }
    GrantedFreeable(h.pages, own, q, own', t, page, Span(r));
    assert ArenaOk(q, page, r);
    var h' := h.(pages := q, arenas := h.arenas[page := r]);
    forall a: nat | a in h'.arenas ensures ArenaOk(q, a, h'.arenas[a]) {
      if a != page { assert a in h.(pages := q).arenas; }
    }
  }

  lemma Apart(h: HeapState, own: map<nat, Use>, q: State, own': map<nat, Use>, t: Flag, page: nat, cnt: nat, a: nat)
    requires Inv(h.pages, own, {}) && ArenasOk(h) && cnt > 0 && a in h.arenas
    requires Granted(h.pages, own, q, own', t, page, cnt)
    ensures a + Span(h.arenas[a]) <= page || page + cnt <= a
  {
    hide WalkPage, TablesOk, OwnExact, PagesOk, Layout, ArenaOk;
    assert Span(h.arenas[a]) > 0 by { SpanPositive(h, a); }
    if a < page + cnt && page < a + Span(h.arenas[a]) {
      var n := if a <= page then page else a;
      SpanReserved(h, own, a, n);
    }
  }

  lemma SpanPositive(h: HeapState, a: nat)
    requires ArenasOk(h) && a in h.arenas
    ensures Span(h.arenas[a]) > 0
  {
    assert ArenaOk(h.pages, a, h.arenas[a]);
  }

  /** Freeing one arena's pages leaves the other arenas theirs. */
  lemma ArenasSurviveRelease(h: HeapState, own: map<nat, Use>, q: State, own': map<nat, Use>, a: nat)
    requires Inv(h.pages, own, {}) && ArenasOk(h) && a in h.arenas
    requires Released(h.pages, own, q, own', a, Span(h.arenas[a]))
    ensures ArenasOk(h.(pages := q, arenas := h.arenas - {a}))
  {
    hide WalkPage, TablesOk, OwnExact, PagesOk, Layout;
    var h' := h.(pages := q, arenas := h.arenas - {a});
    forall b: nat | b in h'.arenas ensures ArenaOk(q, b, h'.arenas[b]) {
      assert ArenaOk(h.pages, b, h.arenas[b]);
      forall n: nat | b <= n < b + Span(h.arenas[b])
        ensures PageOf(q, n).Some? && PageOf(q, n) != Some(q.dir) && n !in q.lost
      {
        SpanReserved(h, own, b, n);
        assert !(a <= n < a + Span(h.arenas[a]));
      }
    }
  }

  /** The context of an arena's pages is unique. */
  lemma ReleaseArena(h: HeapState, own: map<nat, Use>, t: Flag, a: nat) returns (own': map<nat, Use>)
    requires Inv(h.pages, own, {}) && ArenasOk(h) && a in h.arenas
    requires InContext(h.pages, t, a, Span(h.arenas[a])) && 0 < Span(h.arenas[a]) < 3840
    ensures var q := FreePage(h.pages, t, a, Span(h.arenas[a]));
            && q.Some? && Inv(q.value, own', {}) && Released(h.pages, own, q.value, own', a, Span(h.arenas[a]))
            && SamePinned(own, own') && ArenasOk(h.(pages := q.value, arenas := h.arenas - {a}))
  {
    hide WalkPage, TablesOk, OwnExact, PagesOk, Layout, FreePage;
    var cnt := Span(h.arenas[a]);
    assert ArenaOk(h.pages, a, h.arenas[a]);
    own' := FreePageKeeps(h.pages, own, t, a, cnt);
    ReleasedPinned(h.pages, own, FreePage(h.pages, t, a, cnt).value, own', a, cnt);
    ArenasSurviveRelease(h, own, FreePage(h.pages, t, a, cnt).value, own', a);
  }

  // ---- Cutting a page into blocks ----

  /** The addresses of blocks k, k+1, ... of arena `page`. */
  function BlockSeq(page: nat, i: Index, k: nat): (s: seq<nat>)
    requires k <= BlocksCnt(i)
    ensures |s| == BlocksCnt(i) - k && forall j: nat :: j < |s| ==> s[j] == Block(page, i, k + j)
    decreases BlocksCnt(i) - k
  {
    if k == BlocksCnt(i) then [] else [Block(page, i, k)] + BlockSeq(page, i, k + 1)
  }

  /** No node of the list lies in `page`, so the assertion of the cutting loop never fails and the list
      gains exactly the page's blocks, in order. */
  lemma {:induction false} CutAppends(s: seq<nat>, page: nat, i: Index, k: nat)
    requires k <= BlocksCnt(i)
    requires forall j: nat :: k <= j < BlocksCnt(i) ==> Block(page, i, j) !in s
    ensures CutBlocks(s, page, i, k) == Some(s + BlockSeq(page, i, k))
    decreases BlocksCnt(i) - k
  {
    if k < BlocksCnt(i) {
      var s' := s + [Block(page, i, k)];
      forall j: nat | k + 1 <= j < BlocksCnt(i) ensures Block(page, i, j) !in s' {
        if Block(page, i, j) == Block(page, i, k) { BlockInjective(page, i, j, k); }
      }
      CutAppends(s', page, i, k + 1);
      assert s' + BlockSeq(page, i, k + 1) == s + BlockSeq(page, i, k);
    } else {
      assert s + BlockSeq(page, i, k) == s;
    }
  }

  lemma BlockSeqNoDup(page: nat, i: Index)
    ensures NoDup(BlockSeq(page, i, 0))
  {
    var s := BlockSeq(page, i, 0);
    forall j, l | 0 <= j < l < |s| ensures s[j] != s[l] {
      if s[j] == s[l] { BlockInjective(page, i, j, l); }
    }
  }

  // ---- Removing an arena's blocks ----

  /** The list without the addresses in x, in the same order. */
  function Without(s: seq<nat>, x: set<nat>): (r: seq<nat>)
    ensures forall y :: y in r <==> y in s && y !in x
  {
    if s == [] then [] else (if s[0] in x then [] else [s[0]]) + Without(s[1..], x)
  }

  lemma {:induction false} WithoutNothing(s: seq<nat>, x: set<nat>)
    requires forall y :: y in x ==> y !in s
    ensures Without(s, x) == s
  {
    if s != [] { WithoutNothing(s[1..], x); }
  }

  lemma {:induction false} RemoveOneIsWithout(s: seq<nat>, x: nat)
    requires NoDup(s)
    ensures RemoveOne(s, x) == Without(s, {x}) && NoDup(RemoveOne(s, x))
  {
    if s != [] {
      assert forall j :: 0 <= j < |s[1..]| ==> s[1..][j] == s[j + 1];
      RemoveOneIsWithout(s[1..], x);
      if s[0] == x { WithoutNothing(s[1..], {x}); }
    }
  }

  lemma {:induction false} WithoutTwice(s: seq<nat>, x: set<nat>, y: set<nat>)
    ensures Without(Without(s, x), y) == Without(s, x + y)
  {
    if s != [] {
      WithoutTwice(s[1..], x, y);
      if s[0] in x {
        assert Without(s, x) == Without(s[1..], x);
        assert Without(s, x + y) == Without(s[1..], x + y);
      } else {
        assert Without(s, x)[1..] == Without(s[1..], x);
      }
    }
  }

  lemma {:induction false} WithoutSame(s: seq<nat>, x: set<nat>, y: set<nat>)
    requires forall z :: z in s ==> (z in x <==> z in y)
    ensures Without(s, x) == Without(s, y)
  {
    if s != [] { WithoutSame(s[1..], x, y); }
  }

  function BlockSet(page: nat, i: Index, k: nat): set<nat>
    requires k <= BlocksCnt(i)
  {
    set b | b in BlockSeq(page, i, k)
  }

  /** The removal loop of sys_free takes out exactly the arena's blocks and keeps the order of the rest. */
  lemma {:induction false} RemoveBlocksIsWithout(s: seq<nat>, page: nat, i: Index, k: nat)
    requires k <= BlocksCnt(i) && NoDup(s)
    ensures RemoveBlocks(s, page, i, k) == Without(s, BlockSet(page, i, k))
    decreases BlocksCnt(i) - k
  {
    hide Block, BlocksCnt, NoDup, Without, RemoveOne;
    if k == BlocksCnt(i) {
      WithoutNothing(s, BlockSet(page, i, k));
    } else {
      var b := Block(page, i, k);
      RemoveOneIsWithout(s, b);
      if b !in s { WithoutNothing(s, {b}); }
      RemoveBlocksIsWithout(Without(s, {b}), page, i, k + 1);
      WithoutTwice(s, {b}, BlockSet(page, i, k + 1));
      BlockSetStep(page, i, k);
    }
  }

  lemma BlockSetStep(page: nat, i: Index, k: nat)
    requires k < BlocksCnt(i)
    ensures {Block(page, i, k)} + BlockSet(page, i, k + 1) == BlockSet(page, i, k)
  {
    hide Block, BlocksCnt;
  }

  lemma {:induction false} WithoutNoDup(s: seq<nat>, x: set<nat>)
    requires NoDup(s)
    ensures NoDup(Without(s, x))
  {
    if s != [] {
      assert forall j :: 0 <= j < |s[1..]| ==> s[1..][j] == s[j + 1];
      WithoutNoDup(s[1..], x);
      var r := Without(s[1..], x);
      assert s[0] !in r;
    }
  }
}
