/** palloc and vaddr_get by any number of callers at once, as the steps they are: the search of the bitmap and
    the setting of each bit.  Not every caller holds the lock of the pool it takes from, and none holds one for
    the kernel's virtual pages. */
module PallocRuns {
  import opened Bitmaps
  import opened Pages
  import opened PagesInvariant
  import opened PageAlloc

  type Tid = nat

  /** The bits a caller has still to set. */
  datatype Claim = Claim(pos: nat, cnt: nat)

  /** `found`: what each caller's search ended with.  `given` is history: the frames or pages handed out and not
      given back, as often as they were.  `halted`: a caller was to set a bit past the end. */
  datatype Sys = Sys(pool: Region, found: map<Tid, Claim>, given: multiset<nat>, halted: bool)

  datatype Event = Search(t: Tid, pos: nat, cnt: nat) | SetBit(t: Tid) | Free(page: nat)

  /** A search may end with any position, since others may change the bitmap while it runs.  A caller frees what
      it was given. */
  predicate Enabled(s: Sys, e: Event) {
    !s.halted &&
    match e
    case Search(t, _, cnt) => t !in s.found && cnt > 0
    case SetBit(t) => t in s.found
    case Free(n) => n in s.given && Owns(s.pool, n)
  }

  function Rest(c: Claim, found: map<Tid, Claim>, t: Tid): map<Tid, Claim> {
    if c.cnt <= 1 then found - {t} else found[t := Claim(c.pos + 1, c.cnt - 1)]
  }

  function Apply(s: Sys, e: Event): Sys
    requires Enabled(s, e)
  {
    match e
    case Search(t, pos, cnt) => s.(found := s.found[t := Claim(pos, cnt)])
    case SetBit(t) =>
      var c := s.found[t];
      if c.pos >= |s.pool.bits| then s.(halted := true)
      else s.(pool := s.pool.(bits := s.pool.bits[c.pos := true]), found := Rest(c, s.found, t),
              given := s.given + multiset{s.pool.start + c.pos})
    case Free(n) => s.(pool := Mark(s.pool, n, 1, false), given := s.given - multiset{n})
  }

  /** Nothing is given to two callers. */
  ghost predicate Exclusive(s: Sys) { forall n :: s.given[n] <= 1 }

  /** The bits are those of what was given out, each once. */
  ghost predicate Inv(s: Sys) { Exclusive(s) && forall n :: n in s.given <==> Taken(s.pool, n) }

  /** A caller sets a bit that is set already. */
  predicate Clashes(s: Sys, e: Event)
    requires Enabled(s, e)
  {
    e.SetBit? && s.found[e.t].pos < |s.pool.bits| && s.pool.bits[s.found[e.t].pos]
  }

  lemma SetStep(s: Sys, t: Tid)
    requires Inv(s) && Enabled(s, SetBit(t))
    ensures Exclusive(Apply(s, SetBit(t))) <==> !Clashes(s, SetBit(t))
    ensures !Clashes(s, SetBit(t)) ==> Inv(Apply(s, SetBit(t)))
  {
    var q := Apply(s, SetBit(t));
    var n := s.pool.start + s.found[t].pos;
    if Clashes(s, SetBit(t)) {
      assert Taken(s.pool, n) && q.given[n] == 2;
    } else if !q.halted {
      assert !Taken(s.pool, n);
      forall g ensures g in q.given <==> Taken(q.pool, g) { assert g in s.given <==> Taken(s.pool, g); }
    }
  }

  lemma FreeStep(s: Sys, n: nat)
    requires Inv(s) && Enabled(s, Free(n))
    ensures Inv(Apply(s, Free(n)))
  {
    var q := Apply(s, Free(n));
    assert s.given[n] == 1;
    forall g ensures g in q.given <==> Taken(q.pool, g) { assert g in s.given <==> Taken(s.pool, g); }
  }

  /** A step gives nothing twice if and only if it does not set a bit that is set already; it stops the kernel if
      and only if it sets one past the end. */
  lemma StepExclusiveIff(s: Sys, e: Event)
    requires Inv(s) && Enabled(s, e)
    ensures Apply(s, e).halted <==> e.SetBit? && s.found[e.t].pos >= |s.pool.bits|
    ensures Exclusive(Apply(s, e)) <==> !Clashes(s, e)
    ensures !Clashes(s, e) ==> Inv(Apply(s, e))
  {
    match e
    case Search(_, _, _) =>
    case SetBit(t) => SetStep(s, t);
    case Free(n) => FreeStep(s, n);
  }

  // ---- Runs ----

  ghost predicate Reaches(s: Sys, es: seq<Event>, q: Sys)
    decreases |es|
  {
    if es == [] then q == s else Enabled(s, es[0]) && Reaches(Apply(s, es[0]), es[1..], q)
  }

  ghost predicate NoClash(s: Sys, es: seq<Event>)
    decreases |es|
  {
    es != [] && Enabled(s, es[0]) ==> !Clashes(s, es[0]) && NoClash(Apply(s, es[0]), es[1..])
  }

  ghost predicate AlwaysExclusive(s: Sys, es: seq<Event>)
    decreases |es|
  {
    Exclusive(s) && (es != [] && Enabled(s, es[0]) ==> AlwaysExclusive(Apply(s, es[0]), es[1..]))
  }

  /** Over every interleaving, whatever the searches end with, no two callers get the same if and only if no
      caller sets a bit that is set already. */
  lemma {:induction false} ExclusiveIff(s: Sys, es: seq<Event>, q: Sys)
    requires Inv(s) && Reaches(s, es, q)
    ensures AlwaysExclusive(s, es) <==> NoClash(s, es)
    ensures NoClash(s, es) ==> Inv(q)
    decreases |es|
  {
    assert Exclusive(s);
    if es != [] {
      var m := Apply(s, es[0]);
      hide Inv, Apply, Enabled, Clashes, Exclusive;
      StepExclusiveIff(s, es[0]);
      if !Clashes(s, es[0]) { ExclusiveIff(m, es[1..], q); }
    }
  }

  lemma Prepend(s: Sys, e: Event, es: seq<Event>, q: Sys)
    requires Enabled(s, e) && Reaches(Apply(s, e), es, q)
    ensures Reaches(s, [e] + es, q)
  {
    assert ([e] + es)[1..] == es;
  }

  // ---- A search that nobody disturbs ----

  predicate Undisturbed(s: Sys, e: Event, r: ScanResult) { e.Search? ==> r == Found(e.pos) }

  /** With nobody in between, the two steps are palloc. */
  lemma TwoStepsArePalloc(p: State, k: Flag, s: Sys, t: Tid)
    requires s.pool == Pool(p, k) && t !in s.found && !s.halted
    ensures var (q, frame) := Palloc(p, k);
            match frame
            case None => !ScanSpec(s.pool.bits, 1).Found?
            case Some(f) =>
              && f >= s.pool.start && ScanSpec(s.pool.bits, 1) == Found(f - s.pool.start)
              && Apply(Apply(s, Search(t, f - s.pool.start, 1)), SetBit(t))
                 == s.(pool := Pool(q, k), given := s.given + multiset{f})
  {
    PallocFacts(p, k);
    match Palloc(p, k).1
    case None =>
    case Some(f) =>
      var m := Apply(s, Search(t, f - s.pool.start, 1));
      assert m.found - {t} == s.found;
  }

  function SetBits(t: Tid, cnt: nat): seq<Event> { if cnt == 0 then [] else [SetBit(t)] + SetBits(t, cnt - 1) }

  /** A caller that sets all its bits with nobody in between marks the run. */
  lemma {:induction false} ClaimMarks(s: Sys, t: Tid, c: Claim) returns (q: Sys)
    requires !s.halted && t in s.found && s.found[t] == c && c.cnt > 0 && c.pos + c.cnt <= |s.pool.bits|
    ensures Reaches(s, SetBits(t, c.cnt), q) && q.found == s.found - {t}
    ensures q.pool == Mark(s.pool, s.pool.start + c.pos, c.cnt, true)
    decreases c.cnt
  {
    var m := Apply(s, SetBit(t));
    if c.cnt == 1 {
      q := m;
      assert q.pool.bits == SetRun(s.pool.bits, c.pos, 1, true);
      assert SetBits(t, 1) == [SetBit(t)] + [];
      Prepend(s, SetBit(t), [], q);
    } else {
      q := ClaimMarks(m, t, Claim(c.pos + 1, c.cnt - 1));
      assert m.found - {t} == s.found - {t};
      assert q.pool.bits == SetRun(s.pool.bits, c.pos, c.cnt, true);
      Prepend(s, SetBit(t), SetBits(t, c.cnt - 1), q);
    }
  }

  /** And a search and as many steps as pages are vaddr_get. */
  lemma StepsAreVaddrGet(p: State, k: Flag, cnt: nat, s: Sys, t: Tid) returns (q: Sys)
    requires s.pool == Virt(p, k) && t !in s.found && !s.halted && cnt > 0 && VaddrGet(p, k, cnt).1.Page?
    ensures ScanSpec(s.pool.bits, cnt).Found?
    ensures Reaches(s, [Search(t, ScanSpec(s.pool.bits, cnt).pos, cnt)] + SetBits(t, cnt), q)
    ensures q.pool == Virt(VaddrGet(p, k, cnt).0, k) && q.found == s.found
  {
    VaddrGetShape(p, k, cnt);
    var pos := ScanSpec(s.pool.bits, cnt).pos;
    var m := Apply(s, Search(t, pos, cnt));
    q := ClaimMarks(m, t, Claim(pos, cnt));
    assert m.found - {t} == s.found;
    Prepend(s, Search(t, pos, cnt), SetBits(t, cnt), q);
  }

  // ---- A search that is disturbed ----

  /** What bitmap_scan's second loop finds in the byte the first loop stopped at, round by round: others may
      change it in between. */
  predicate Rounds(seen: seq<seq<bool>>) { |seen| == 8 && forall j :: 0 <= j < 8 ==> |seen[j]| == 8 }

  /** Where the loop stops from `offset` on: at a bit that is clear when its round reads it, or behind the byte. */
  function ByteEnd(seen: seq<seq<bool>>, offset: nat): nat
    requires Rounds(seen) && offset <= 8
    decreases 8 - offset
  {
    if offset < 8 && seen[offset][offset] then ByteEnd(seen, offset + 1) else offset
  }

  /** It stops behind the byte, on bit 0 of the next one or past the end, if and only if every round found its own
      bit set; otherwise on the first bit that its round found clear. */
  lemma {:induction false} DisturbedSearchIff(seen: seq<seq<bool>>, offset: nat)
    requires Rounds(seen) && offset <= 8
    ensures var r := ByteEnd(seen, offset);
            && offset <= r <= 8 && (r == 8 <==> forall j :: offset <= j < 8 ==> seen[j][j])
            && (r < 8 ==> !seen[r][r] && forall j :: offset <= j < r ==> seen[j][j])
    decreases 8 - offset
  {
    if offset < 8 && seen[offset][offset] { DisturbedSearchIff(seen, offset + 1); }
  }

  /** With the byte at rest during the loop, that is if and only if it has been filled since the first loop. */
  lemma SteadySearchIff(b: seq<bool>)
    requires |b| == 8
    ensures var r := ByteEnd(seq(8, _ => b), 0);
            r <= 8 && (r == 8 <==> Full(b)) && (r < 8 ==> !b[r] && forall j :: 0 <= j < r ==> b[j])
  {
    var seen := seq(8, _ => b);
    DisturbedSearchIff(seen, 0);
    assert forall j :: 0 <= j < 8 ==> seen[j][j] == b[j];
  }

  /** With bits freed behind the offset and others set before it, it happens in a byte that is never full. */
  lemma NeverFull() returns (seen: seq<seq<bool>>)
    ensures Rounds(seen) && (forall j :: 0 <= j < 8 ==> !Full(seen[j])) && ByteEnd(seen, 0) == 8
  {
    seen := seq(8, j => seq(8, i => i == j));
    forall j | 0 <= j < 8 ensures !Full(seen[j]) {
      assert !seen[j][if j == 0 then 1 else 0];
    }
    DisturbedSearchIff(seen, 0);
  }

  // ---- What a lock would give, and what goes wrong without ----

  /** Every search of the run is undisturbed and starts with no other caller under way. */
  ghost predicate OneAtATime(s: Sys, es: seq<Event>)
    decreases |es|
  {
    es != [] && Enabled(s, es[0]) ==>
      && (es[0].Search? ==> s.found == map[] && Undisturbed(s, es[0], ScanSpec(s.pool.bits, es[0].cnt)))
      && OneAtATime(Apply(s, es[0]), es[1..])
  }

  /** At most one caller is under way, and the bits it has to set are clear. */
  ghost predicate Alone(s: Sys) {
    && (forall t :: t in s.found ==> s.found[t].cnt > 0 && Run(s.pool.bits, s.found[t].pos, s.found[t].cnt))
    && (forall t, u :: t in s.found && u in s.found ==> t == u) && !s.halted
  }

  lemma AloneStep(s: Sys, e: Event)
    requires Inv(s) && Alone(s) && Enabled(s, e)
    requires e.Search? ==> s.found == map[] && Undisturbed(s, e, ScanSpec(s.pool.bits, e.cnt))
    ensures !Clashes(s, e) && Alone(Apply(s, e))
  {
    match e
    case Search(t, pos, cnt) => assert Run(s.pool.bits, pos, cnt);
    case SetBit(t) => assert Run(s.pool.bits, s.found[t].pos, s.found[t].cnt);
    case Free(n) =>
  }

  /** Callers that go one at a time never get the same, whatever is freed in between, and none is to set a bit
      past the end. */
  lemma {:induction false} LockedExclusive(s: Sys, es: seq<Event>, q: Sys)
    requires Inv(s) && Alone(s) && Reaches(s, es, q) && OneAtATime(s, es)
    ensures AlwaysExclusive(s, es) && Inv(q) && !q.halted
    decreases |es|
  {
    assert Exclusive(s);
    if es != [] {
      hide Inv, Alone, Apply, Enabled, Clashes, Exclusive;
      AloneStep(s, es[0]);
      StepExclusiveIff(s, es[0]);
      LockedExclusive(Apply(s, es[0]), es[1..], q);
    }
  }

  /** Two callers at the same position both set its bit. */
  lemma BothSet(s: Sys, t: Tid, u: Tid, c: Claim) returns (m: Sys, q: Sys)
    requires Inv(s) && !s.halted && t != u && t in s.found && u in s.found && s.found[t] == c && s.found[u] == c
    requires c.pos < |s.pool.bits| && !s.pool.bits[c.pos]
    ensures Enabled(s, SetBit(t)) && Apply(s, SetBit(t)) == m
    ensures Enabled(m, SetBit(u)) && Apply(m, SetBit(u)) == q && q.given[s.pool.start + c.pos] == 2
  {
    assert !Taken(s.pool, s.pool.start + c.pos);
    m := Apply(s, SetBit(t));
    q := Apply(m, SetBit(u));
  }

  /** Two callers whose searches both end before either sets a bit get the same, even if neither search was
      disturbed: whenever there is a run of cnt clear bits. */
  lemma RacingPallocs(s: Sys, t: Tid, u: Tid, cnt: nat) returns (q: Sys)
    requires Inv(s) && !s.halted && t != u && t !in s.found && u !in s.found
    requires cnt > 0 && ScanSpec(s.pool.bits, cnt).Found?
    ensures var pos := ScanSpec(s.pool.bits, cnt).pos;
            && Reaches(s, [Search(t, pos, cnt)] + ([Search(u, pos, cnt)] + ([SetBit(t)] + [SetBit(u)])), q)
            && q.given[s.pool.start + pos] == 2
  {
    var pos := ScanSpec(s.pool.bits, cnt).pos;
    assert Run(s.pool.bits, pos, cnt);
    hide Reaches, ScanSpec, Run;
    var s1 := Apply(s, Search(t, pos, cnt));
    var s2 := Apply(s1, Search(u, pos, cnt));
    var s3;
    s3, q := BothSet(s2, t, u, Claim(pos, cnt));
    ReachesNow(q);
    Prepend(s3, SetBit(u), [], q);
    assert [SetBit(u)] + [] == [SetBit(u)];
    Prepend(s2, SetBit(t), [SetBit(u)], q);
    Prepend(s1, Search(u, pos, cnt), [SetBit(t)] + [SetBit(u)], q);
    Prepend(s, Search(t, pos, cnt), [Search(u, pos, cnt)] + ([SetBit(t)] + [SetBit(u)]), q);
  }

  lemma ReachesNow(q: Sys)
    ensures Reaches(q, [], q)
  {
  }
}
