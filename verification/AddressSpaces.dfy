/** Address spaces over whole runs: what map, remap, unmap and fork do to every page of every address space,
    and what no run of them can do. */
module AddressSpaces {
  import opened Memory
  import opened Bits
  import opened Pmm
  import opened Paging

  // ----- Words the mapping operations store -----

  /** frame address | perms; the upper four of 16 permission bits fall on the frame number. */
  function Tagged(p: int, perms: int): (w: Word)
    requires 0 <= p < 0x100000 && 0 <= perms < 0x10000
  {
    WordPowers();
    OrBound(p * 0x1000, perms, 32);
    Or(p * 0x1000, perms)
  }

  lemma WordPowers()
    ensures Pow2(12) == 0x1000 && Pow2(32) == 0x1_0000_0000
  {
    assert Pow2(8) == 0x100;
    assert Pow2(16) == 0x1_0000;
    assert Pow2(24) == 0x100_0000;
  }

  /** Every bit stored is the or of the address bit and the permission bit ... */
  lemma TaggedBits(p: int, perms: int, k: nat)
    requires 0 <= p < 0x100000 && 0 <= perms < 0x10000
    ensures Bit(Tagged(p, perms), k) <==> Bit(p * 0x1000, k) || Bit(perms, k)
  {
    OrBits(p * 0x1000, perms, k);
  }

  /** ... and no other word has these bits. */
  lemma TaggedOnly(p: int, perms: int, w: nat)
    requires 0 <= p < 0x100000 && 0 <= perms < 0x10000
    requires forall k: nat :: Bit(w, k) <==> Bit(p * 0x1000, k) || Bit(perms, k)
    ensures w == Tagged(p, perms)
  {
    forall k: nat ensures Bit(w, k) == Bit(Tagged(p, perms), k) { TaggedBits(p, perms, k); }
    BitsDetermine(w, Tagged(p, perms));
  }

  /** With flags only, the entry is the frame's address plus the flags. */
  lemma TaggedReads(p: int, perms: int)
    requires 0 <= p < 0x100000 && 0 <= perms < 0x1000
    ensures Tagged(p, perms) == p * 0x1000 + perms
    ensures FrameOf(Tagged(p, perms)) == p && Tagged(p, perms) % 0x1000 == perms
    ensures Present(Tagged(p, perms)) <==> perms % 2 == 1
  {
    WordPowers();
    OrJoins(p, perms, 12);
    Quotient(p * 0x1000 + perms, 0x1000, p, perms);
    Parity(p * 0x800, perms);
  }

  lemma Parity(n: int, x: int)
    ensures (2 * n + x) % 2 == x % 2
  {
  }

  // ----- The mapping loops -----

  predicate Ready(s: Sys, d: int, v: int) { |s.bits| == TRACKED_PAGES && 0 <= d < FRAMES && 0 <= v < FRAMES }

  /** vmm_map_pages from page v on: an occupied page makes the loop stay on it. */
  function MapFrom(s: Sys, d: int, v: int, p: int, count: nat, perms: int, ret: int): Result
    requires Ready(s, d, v) && 0 <= p < FRAMES && 0 <= perms < 0x10000
    decreases count
  {
    if count == 0 then Ok(s, ret)
    else match EnsureTable(s, d, Slot(v))
      case None => Halted
      case Some(s1) =>
        if Present(Pte(s1.mem, d, v)) then MapFrom(s1, d, v, p, count - 1, perms, 1)
        else MapFrom(SetPte(s1, d, v, Tagged(p, perms)), d, Next(v), Next(p), count - 1, perms, ret)
  }

  /** vmm_remap_pages from page v on. */
  function RemapFrom(s: Sys, d: int, v: int, p: int, count: nat, perms: int): Result
    requires Ready(s, d, v) && 0 <= p < FRAMES && 0 <= perms < 0x10000
    decreases count
  {
    if count == 0 then Ok(s, 0)
    else match EnsureTable(s, d, Slot(v))
      case None => Halted
      case Some(s1) => RemapFrom(SetPte(s1, d, v, Tagged(p, perms)), d, Next(v), Next(p), count - 1, perms)
  }

  /** vmm_unmap_pages from page v on. */
  function UnmapFrom(s: Sys, d: int, v: int, count: nat, ret: int): Result
    requires Ready(s, d, v)
    decreases count
  {
    if count == 0 then Ok(s, ret)
    else match EnsureTable(s, d, Slot(v))
      case None => Halted
      case Some(s1) =>
        if Present(Pte(s1.mem, d, v)) then UnmapFrom(SetPte(s1, d, v, 0), d, Next(v), count - 1, ret)
        else UnmapFrom(s1, d, Next(v), count - 1, 1)
  }

  /** One turn of each loop, once the table is there. */
  lemma MapTurn(s: Sys, d: int, v: int, p: int, count: nat, perms: int, ret: int)
    requires Ready(s, d, v) && 0 <= Slot(v) < 1024 && 0 <= p < FRAMES && 0 <= perms < 0x10000 && count > 0
    ensures EnsureTable(s, d, Slot(v)).None? ==> MapFrom(s, d, v, p, count, perms, ret) == Halted
    ensures EnsureTable(s, d, Slot(v)).Some? ==>
              var s1 := EnsureTable(s, d, Slot(v)).value;
              var s2 := SetPte(s1, d, v, Tagged(p, perms));
              && Ready(s1, d, v) && Ready(s2, d, Next(v)) && 0 <= Next(p) < FRAMES
              && MapFrom(s, d, v, p, count, perms, ret) ==
                 if Present(Pte(s1.mem, d, v)) then MapFrom(s1, d, v, p, count - 1, perms, 1)
                 else MapFrom(s2, d, Next(v), Next(p), count - 1, perms, ret)
  {
    hide Pte, Tagged, Present;
  }

  lemma RemapTurn(s: Sys, d: int, v: int, p: int, count: nat, perms: int)
    requires Ready(s, d, v) && 0 <= Slot(v) < 1024 && 0 <= p < FRAMES && 0 <= perms < 0x10000 && count > 0
    ensures EnsureTable(s, d, Slot(v)).None? ==> RemapFrom(s, d, v, p, count, perms) == Halted
    ensures EnsureTable(s, d, Slot(v)).Some? ==>
              var s2 := SetPte(EnsureTable(s, d, Slot(v)).value, d, v, Tagged(p, perms));
              && Ready(s2, d, Next(v)) && 0 <= Next(p) < FRAMES
              && RemapFrom(s, d, v, p, count, perms) == RemapFrom(s2, d, Next(v), Next(p), count - 1, perms)
  {
    hide Tagged;
  }

  lemma UnmapTurn(s: Sys, d: int, v: int, count: nat, ret: int)
    requires Ready(s, d, v) && 0 <= Slot(v) < 1024 && count > 0
    ensures EnsureTable(s, d, Slot(v)).None? ==> UnmapFrom(s, d, v, count, ret) == Halted
    ensures EnsureTable(s, d, Slot(v)).Some? ==>
              var s1 := EnsureTable(s, d, Slot(v)).value;
              var s2 := SetPte(s1, d, v, 0);
              && Ready(s1, d, Next(v)) && Ready(s2, d, Next(v))
              && UnmapFrom(s, d, v, count, ret) ==
                 if Present(Pte(s1.mem, d, v)) then UnmapFrom(s2, d, Next(v), count - 1, ret)
                 else UnmapFrom(s1, d, Next(v), count - 1, 1)
  {
    hide Pte, Present;
  }

  lemma NoTurn(s: Sys, d: int, v: int, p: int, perms: int, ret: int)
    requires Ready(s, d, v) && 0 <= p < FRAMES && 0 <= perms < 0x10000
    ensures MapFrom(s, d, v, p, 0, perms, ret) == Ok(s, ret) == UnmapFrom(s, d, v, 0, ret)
    ensures RemapFrom(s, d, v, p, 0, perms) == Ok(s, 0)
  {
  }

  // ----- None of them halts while there are frames -----

  /** Free frames in the range pmm_alloc searches. */
  ghost function FreeFrames(bits: seq<bool>): nat
    requires |bits| == TRACKED_PAGES
  {
    CountClear(bits[..BITMAP_BYTES])
  }

  /** ensure_table takes at most one of them, and succeeds while there is one. */
  lemma EnsureTakesOne(s: Sys, d: int, t: int)
    requires |s.bits| == TRACKED_PAGES && 0 <= d < FRAMES && 0 <= t < 1024 && FreeFrames(s.bits) > 0
    ensures var r := EnsureTable(s, d, t); r.Some? && FreeFrames(r.value.bits) >= FreeFrames(s.bits) - 1
  {
    hide CountClear, FindFreePage;
    var low := s.bits[..BITMAP_BYTES];
    CountZero(low);
    var p :| 0 <= p < |low| && !low[p];
    assert !s.bits[p];
    EnsureTableSucceeds(s, d, t);
    FrameFound(s.bits);
    if !Present(At(s.mem, d, t)) {
      var f := FindFreePage(s.bits, 1).value;
      CountMarked(low, f, 1, true, s.bits[f := true][..BITMAP_BYTES]);
    }
  }

  lemma {:induction false} MapSucceeds(s: Sys, d: int, v: int, p: int, count: nat, perms: int, ret: int)
    requires Ready(s, d, v) && 0 <= p < FRAMES && 0 <= perms < 0x10000 && FreeFrames(s.bits) >= count
    ensures MapFrom(s, d, v, p, count, perms, ret).Ok?
    decreases count
  {
    hide MapFrom, FreeFrames, EnsureTable, Tagged, Pte, Present;
    NoTurn(s, d, v, p, perms, ret);
    if count > 0 {
      SlotBound(v);
      MapTurn(s, d, v, p, count, perms, ret);
      EnsureTakesOne(s, d, Slot(v));
      var s1 := EnsureTable(s, d, Slot(v)).value;
      if Present(Pte(s1.mem, d, v)) {
        MapSucceeds(s1, d, v, p, count - 1, perms, 1);
      } else {
        MapSucceeds(SetPte(s1, d, v, Tagged(p, perms)), d, Next(v), Next(p), count - 1, perms, ret);
      }
    }
  }

  lemma {:induction false} RemapSucceeds(s: Sys, d: int, v: int, p: int, count: nat, perms: int)
    requires Ready(s, d, v) && 0 <= p < FRAMES && 0 <= perms < 0x10000 && FreeFrames(s.bits) >= count
    ensures RemapFrom(s, d, v, p, count, perms).Ok?
    decreases count
  {
    hide RemapFrom, FreeFrames, EnsureTable, Tagged;
    NoTurn(s, d, v, p, perms, 0);
    if count > 0 {
      SlotBound(v);
      RemapTurn(s, d, v, p, count, perms);
      EnsureTakesOne(s, d, Slot(v));
      var s1 := EnsureTable(s, d, Slot(v)).value;
      RemapSucceeds(SetPte(s1, d, v, Tagged(p, perms)), d, Next(v), Next(p), count - 1, perms);
    }
  }

  lemma {:induction false} UnmapSucceeds(s: Sys, d: int, v: int, count: nat, ret: int)
    requires Ready(s, d, v) && FreeFrames(s.bits) >= count
    ensures UnmapFrom(s, d, v, count, ret).Ok?
    decreases count
  {
    hide UnmapFrom, FreeFrames, EnsureTable, Pte, Present;
    NoTurn(s, d, v, 0, 0, ret);
    if count > 0 {
      SlotBound(v);
      UnmapTurn(s, d, v, count, ret);
      EnsureTakesOne(s, d, Slot(v));
      var s1 := EnsureTable(s, d, Slot(v)).value;
      if Present(Pte(s1.mem, d, v)) {
        UnmapSucceeds(SetPte(s1, d, v, 0), d, Next(v), count - 1, ret);
      } else {
        UnmapSucceeds(s1, d, Next(v), count - 1, 1);
      }
    }
  }

  /** None of the pages v, v + 1, ..., v + count - 1 is one the paging code works through. */
  predicate Avoids(l: Layout, v: int, count: int) {
    Ahead(v, l.wdir) >= count && Ahead(v, l.wtab) >= count && Ahead(v, l.btab) >= count && Ahead(v, l.kdir) >= count
  }

  predicate LowPages(l: Layout) { 0 < l.wdir < 1024 && 0 < l.wtab < 1024 && 0 < l.btab < 1024 && 0 < l.kdir < 1024 }

  lemma DirReady(l: Layout, s: Sys, d: int)
    requires WellFormed(l, s) && d in s.dirs
    ensures DirOk(l, s, d) && LowPages(l) && |s.bits| == TRACKED_PAGES
  {
  }

  lemma SlotBound(v: int)
    requires 0 <= v < FRAMES
    ensures 0 <= Slot(v) < 1024
  {
  }

  lemma AvoidsStep(l: Layout, v: int, count: int)
    requires 0 <= v < FRAMES && 0 < count && Avoids(l, v, count) && LowPages(l)
    ensures !IsPinned(l, v) && Avoids(l, Next(v), count - 1) && Avoids(l, v, count - 1)
    ensures count < FRAMES && 0 <= Next(v) < FRAMES
  {
    AheadNext(v, l.wdir);
    AheadNext(v, l.wtab);
    AheadNext(v, l.btab);
    AheadNext(v, l.kdir);
  }

  lemma NextBound(p: int)
    ensures 0 <= Next(p) < FRAMES
  {
  }

  /** The number of leading pages of the range that are free. */
  function Prefix(m: Frames, d: int, v: int, count: nat): nat
    decreases count
  {
    if count == 0 || Present(Pte(m, d, v)) then 0 else 1 + Prefix(m, d, Next(v), count - 1)
  }

  lemma {:induction false} PrefixBound(m: Frames, d: int, v: int, count: nat)
    ensures Prefix(m, d, v, count) <= count
    ensures 0 <= v < FRAMES && count <= FRAMES ==>
              (Prefix(m, d, v, count) == count <==>
                forall u :: 0 <= u < FRAMES && Ahead(v, u) < count ==> !Present(Pte(m, d, u)))
    decreases count
  {
    if count > 0 {
      PrefixBound(m, d, Next(v), count - 1);
      if 0 <= v < FRAMES && count <= FRAMES {
        forall u | 0 <= u < FRAMES
          ensures u == v || (Ahead(v, u) < count <==> Ahead(Next(v), u) < count - 1)
        {
          AheadNext(v, u);
        }
        AheadNext(v, v);
      }
    }
  }

  lemma {:induction false} PrefixSame(m: Frames, m': Frames, d: int, v: int, count: nat)
    requires 0 <= v < FRAMES && count <= FRAMES
    requires forall u :: 0 <= u < FRAMES && Ahead(v, u) < count ==> Pte(m', d, u) == Pte(m, d, u)
    ensures Prefix(m', d, v, count) == Prefix(m, d, v, count)
    decreases count
  {
    if count > 0 {
      AheadNext(v, v);
      forall u | 0 <= u < FRAMES && Ahead(Next(v), u) < count - 1
        ensures Pte(m', d, u) == Pte(m, d, u)
      {
        AheadNext(v, u);
      }
      PrefixSame(m, m', d, Next(v), count - 1);
    }
  }

  // ----- One page at a time -----

  /** Every page of the prefix is free, and the one that ends it is not. */
  lemma {:induction false} PrefixIsLongest(m: Frames, d: int, v: int, count: nat, u: int)
    requires 0 <= v < FRAMES && count <= FRAMES && 0 <= u < FRAMES
    ensures var k := Prefix(m, d, v, count);
            && (Ahead(v, u) < k ==> !Present(Pte(m, d, u)))
            && (Ahead(v, u) == k < count ==> Present(Pte(m, d, u)))
    decreases count
  {
    hide Pte, Present;
    AheadNext(v, u);
    if count > 0 && !Present(Pte(m, d, v)) {
      NextBound(v);
      PrefixIsLongest(m, d, Next(v), count - 1, u);
      PrefixBound(m, d, Next(v), count - 1);
    }
  }

  lemma ExtendsTwice(s: Sys, s1: Sys, s2: Sys)
    requires Extends(s, s1) && Extends(s1, s2)
    ensures Extends(s, s2)
  {
    forall d, t | Live(s, d, t)
      ensures At(s2.mem, d, t) == At(s.mem, d, t)
    {
      assert Live(s1, d, t);
    }
  }

  /** The state after ensure_table and a store of w for page v. */
  ghost predicate PageEdited(l: Layout, s: Sys, s': Sys, d: int, v: int, w: Word) {
    && WellFormed(l, s') && s'.dirs == s.dirs && Extends(s, s')
    && (forall e, u :: e in s.dirs && 0 <= u < FRAMES ==>
          Pte(s'.mem, e, u) == if u == v && Shares(l, s, d, e, Slot(v)) then w else Pte(s.mem, e, u))
  }

  lemma EditPage(l: Layout, s: Sys, d: int, v: int, w: Word)
    requires WellFormed(l, s) && d in s.dirs && 0 <= v < FRAMES && !IsPinned(l, v)
    ensures 0 <= d < FRAMES
    ensures var r := EnsureTable(s, d, Slot(v));
            r.Some? ==> && PageEdited(l, s, SetPte(r.value, d, v, w), d, v, w)
                        && WellFormed(l, r.value) && Extends(s, r.value) && SameMaps(s, r.value)
  {
    EnsureTableOk(l, s, d, Slot(v));
    var r := EnsureTable(s, d, Slot(v));
    if r.Some? {
      var s1 := r.value;
      SetPteWellFormed(l, s1, d, v, w);
      ExtendsTwice(s, s1, SetPte(s1, d, v, w));
      forall e, u | e in s.dirs && 0 <= u < FRAMES
        ensures Pte(SetPte(s1, d, v, w).mem, e, u) ==
                if u == v && Shares(l, s, d, e, Slot(v)) then w else Pte(s.mem, e, u)
      {
        SetPteMaps(l, s1, d, v, w, e, u);
      }
    }
  }

  // ----- What the loops do to the flat page maps -----

  /** Pages v .. v + k - 1 of d, and of every directory that shares their slot, map to consecutive frames
      from p on; every other page of every directory maps as before. */
  ghost predicate MapsRange(l: Layout, s: Sys, s': Sys, d: int, v: int, p: int, k: int, perms: int)
    requires 0 <= perms < 0x10000
  {
    forall e, u :: e in s.dirs && 0 <= u < FRAMES ==>
      Pte(s'.mem, e, u) ==
        if Ahead(v, u) < k && Shares(l, s, d, e, Slot(u)) then Tagged((p + Ahead(v, u)) % 0x100000, perms)
                           else Pte(s.mem, e, u)
  }

  /** The operation kept the invariant, the set of directories and every present directory entry. */
  ghost predicate Kept(l: Layout, s: Sys, s': Sys) { WellFormed(l, s') && s'.dirs == s.dirs && Extends(s, s') }

  lemma MapsStep(l: Layout, s: Sys, s1: Sys, s2: Sys, d: int, v: int, p: int, k: int, perms: int)
    requires 0 <= v < FRAMES && 0 <= p < FRAMES && 0 <= perms < 0x10000 && 0 <= k < FRAMES && d in s.dirs
    requires PageEdited(l, s, s1, d, v, Tagged(p, perms))
    requires MapsRange(l, s1, s2, d, Next(v), Next(p), k, perms)
    ensures MapsRange(l, s, s2, d, v, p, k + 1, perms)
  {
    hide Tagged, Ahead, Pte, WellFormed, Extends, Slot;
    forall e, u | e in s.dirs && 0 <= u < FRAMES
      ensures Pte(s2.mem, e, u) ==
              if Ahead(v, u) < k + 1 && Shares(l, s, d, e, Slot(u)) then Tagged((p + Ahead(v, u)) % 0x100000, perms)
                                   else Pte(s.mem, e, u)
    {
      AheadNext(v, u);
      AheadNext(v, v);
      if u != v { WrapAdd(p, Ahead(v, u)); }
    }
  }

  lemma WrapAdd(p: int, i: int)
    requires 0 <= p < FRAMES && 0 < i < FRAMES
    ensures (Next(p) + (i - 1)) % 0x100000 == (p + i) % 0x100000
  {
  }

  /** An occupied page stops vmm_map_pages there: nothing more changes and the result is 1. */
  lemma {:induction false} MapStuck(s: Sys, d: int, v: int, p: int, count: nat, perms: int, ret: int)
    requires Ready(s, d, v) && 0 <= p < FRAMES && 0 <= perms < 0x10000 && Present(Pte(s.mem, d, v))
    ensures MapFrom(s, d, v, p, count, perms, ret) == Ok(s, if count == 0 then ret else 1)
    decreases count
  {
    if count > 0 {
      MapStuck(s, d, v, p, count - 1, perms, 1);
    }
  }

  /** vmm_map_pages installs exactly the longest prefix of free pages, and returns 1 exactly when that is
      not the whole range. */
  lemma {:induction false} MapRefines(l: Layout, s: Sys, d: int, v: int, p: int, count: nat, perms: int, ret: int)
    requires WellFormed(l, s) && d in s.dirs && 0 <= v < FRAMES && 0 <= p < FRAMES && 0 <= perms < 0x10000
             && Avoids(l, v, count)
    ensures 0 <= d < FRAMES
    ensures var r, k := MapFrom(s, d, v, p, count, perms, ret), Prefix(s.mem, d, v, count);
            r.Ok? ==>
              && Kept(l, s, r.sys) && MapsRange(l, s, r.sys, d, v, p, k, perms)
              && r.ret == if k == count then ret else 1
    decreases count
  {
    hide
      WellFormed, Extends, MapsRange, Pte, SetPte, Ahead, Present, PageEdited, Shares, Tagged, EnsureTable, Next, Slot,
        Avoids;
    DirReady(l, s, d);
    if count == 0 {
      MapNone(l, s, d, v, p, perms);
    } else {
      AvoidsStep(l, v, count);
      SlotBound(v);
      NextBound(p);
      EditPage(l, s, d, v, Tagged(p, perms));
      var e := EnsureTable(s, d, Slot(v));
      if e.Some? {
        assert Pte(e.value.mem, d, v) == Pte(s.mem, d, v);
        if Present(Pte(s.mem, d, v)) {
          MapStuck(e.value, d, v, p, count - 1, perms, 1);
          MapNone(l, s, d, v, p, perms);
          SameMapsRange(l, s, e.value, d, v, p, perms);
        } else {
          var s1 := SetPte(e.value, d, v, Tagged(p, perms));
          MapFreePage(l, s, s1, d, v, p, count, perms);
          DirReady(l, s1, d);
          assert MapFrom(s, d, v, p, count, perms, ret) == MapFrom(s1, d, Next(v), Next(p), count - 1, perms, ret);
          hide MapFrom;
          MapRefines(l, s1, d, Next(v), Next(p), count - 1, perms, ret);
        }
      }
    }
  }

  /** After a map that returns 0, with flags that include the present bit, every page of the range translates to its
      frame, in every directory that shares its slot. */
  lemma MapThenTranslate(l: Layout, s: Sys, d: int, v: int, p: int, count: nat, perms: int, e: int, u: int)
    requires WellFormed(l, s) && d in s.dirs && 0 <= v < FRAMES && 0 <= p < FRAMES && Avoids(l, v, count)
    requires 0 <= perms < 0x1000 && perms % 2 == 1 && Ready(s, d, v)
    requires var r := MapFrom(s, d, v, p, count, perms, 0); r.Ok? && r.ret == 0
    requires e in s.dirs && 0 <= u < FRAMES && Ahead(v, u) < count && Shares(l, s, d, e, Slot(u))
    ensures var w := Pte(MapFrom(s, d, v, p, count, perms, 0).sys.mem, e, u);
            w == (p + Ahead(v, u)) % FRAMES * 0x1000 + perms && FrameOf(w) == (p + Ahead(v, u)) % FRAMES
            && w % 0x1000 == perms && Present(w)
  {
    hide WellFormed, Pte, MapFrom, Tagged, Avoids, Shares, Present, FrameOf;
    MapRefines(l, s, d, v, p, count, perms, 0);
    AheadBound(v);
    TaggedReads((p + Ahead(v, u)) % FRAMES, perms);
  }

  /** After a remap the same holds of every page of the range, whatever was there before. */
  lemma RemapThenTranslate(l: Layout, s: Sys, d: int, v: int, p: int, count: nat, perms: int, e: int, u: int)
    requires WellFormed(l, s) && d in s.dirs && 0 <= v < FRAMES && 0 <= p < FRAMES && Avoids(l, v, count)
    requires 0 <= perms < 0x1000 && Ready(s, d, v) && RemapFrom(s, d, v, p, count, perms).Ok?
    requires e in s.dirs && 0 <= u < FRAMES && Ahead(v, u) < count && Shares(l, s, d, e, Slot(u))
    ensures var w := Pte(RemapFrom(s, d, v, p, count, perms).sys.mem, e, u);
            w == (p + Ahead(v, u)) % FRAMES * 0x1000 + perms && FrameOf(w) == (p + Ahead(v, u)) % FRAMES
            && w % 0x1000 == perms && (Present(w) <==> perms % 2 == 1)
  {
    hide WellFormed, Pte, RemapFrom, Tagged, Avoids, Shares, Present, FrameOf;
    RemapRefines(l, s, d, v, p, count, perms);
    AheadBound(v);
    TaggedReads((p + Ahead(v, u)) % FRAMES, perms);
  }

  lemma MapNone(l: Layout, s: Sys, d: int, v: int, p: int, perms: int)
    requires WellFormed(l, s) && 0 <= perms < 0x10000
    ensures Kept(l, s, s) && MapsRange(l, s, s, d, v, p, 0, perms)
  {
    AheadBound(v);
  }

  lemma SameMapsRange(l: Layout, s: Sys, s': Sys, d: int, v: int, p: int, perms: int)
    requires SameMaps(s, s') && 0 <= perms < 0x10000
    ensures MapsRange(l, s, s', d, v, p, 0, perms)
  {
    AheadBound(v);
  }

  /** If k more pages come out right from s1, k + 1 pages come out right from s. */
  lemma MapStep(l: Layout, s: Sys, s1: Sys, d: int, v: int, p: int, k: int, perms: int)
    requires d in s.dirs && 0 <= v < FRAMES && 0 <= p < FRAMES && 0 <= perms < 0x10000 && 0 <= k < FRAMES
    requires PageEdited(l, s, s1, d, v, Tagged(p, perms))
    ensures WellFormed(l, s1) && d in s1.dirs
    ensures forall s2 :: Kept(l, s1, s2) && MapsRange(l, s1, s2, d, Next(v), Next(p), k, perms)
                         ==> Kept(l, s, s2) && MapsRange(l, s, s2, d, v, p, k + 1, perms)
  {
    forall s2 | Kept(l, s1, s2) && MapsRange(l, s1, s2, d, Next(v), Next(p), k, perms)
      ensures Kept(l, s, s2) && MapsRange(l, s, s2, d, v, p, k + 1, perms)
    {
      MapsStep(l, s, s1, s2, d, v, p, k, perms);
      ExtendsTwice(s, s1, s2);
    }
  }

  lemma MapFreePage(l: Layout, s: Sys, s1: Sys, d: int, v: int, p: int, count: nat, perms: int)
    requires d in s.dirs && 0 <= v < FRAMES && 0 <= p < FRAMES && 0 <= perms < 0x10000 && 0 < count < FRAMES
    requires PageEdited(l, s, s1, d, v, Tagged(p, perms)) && !Present(Pte(s.mem, d, v))
    ensures WellFormed(l, s1) && d in s1.dirs
    ensures Prefix(s.mem, d, v, count) == 1 + Prefix(s1.mem, d, Next(v), count - 1)
    ensures var k := Prefix(s1.mem, d, Next(v), count - 1);
            forall s2 :: Kept(l, s1, s2) && MapsRange(l, s1, s2, d, Next(v), Next(p), k, perms)
                         ==> Kept(l, s, s2) && MapsRange(l, s, s2, d, v, p, Prefix(s.mem, d, v, count), perms)
  {
    RestSame(l, s, s1, d, v, Tagged(p, perms), count);
    PrefixBound(s1.mem, d, Next(v), count - 1);
    MapStep(l, s, s1, d, v, p, Prefix(s1.mem, d, Next(v), count - 1), perms);
  }

  lemma RestSame(l: Layout, s: Sys, s1: Sys, d: int, v: int, w: Word, count: nat)
    requires PageEdited(l, s, s1, d, v, w) && d in s.dirs && 0 <= v < FRAMES && 0 < count <= FRAMES
    ensures Prefix(s1.mem, d, Next(v), count - 1) == Prefix(s.mem, d, Next(v), count - 1)
  {
    forall u | 0 <= u < FRAMES && Ahead(Next(v), u) < count - 1
      ensures Pte(s1.mem, d, u) == Pte(s.mem, d, u)
    {
      AheadNext(v, u);
    }
    PrefixSame(s.mem, s1.mem, d, Next(v), count - 1);
  }

  /** vmm_remap_pages overwrites the whole range. */
  lemma {:induction false} RemapRefines(l: Layout, s: Sys, d: int, v: int, p: int, count: nat, perms: int)
    requires WellFormed(l, s) && d in s.dirs && 0 <= v < FRAMES && 0 <= p < FRAMES && 0 <= perms < 0x10000
             && Avoids(l, v, count)
    ensures 0 <= d < FRAMES
    ensures var r := RemapFrom(s, d, v, p, count, perms);
            r.Ok? ==> Kept(l, s, r.sys) && MapsRange(l, s, r.sys, d, v, p, count, perms) && r.ret == 0
    decreases count
  {
    hide
      WellFormed, Extends, MapsRange, Pte, SetPte, Ahead, Present, PageEdited, Shares, Tagged, EnsureTable, Next, Slot,
        Avoids;
    DirReady(l, s, d);
    if count == 0 {
      MapNone(l, s, d, v, p, perms);
    } else {
      AvoidsStep(l, v, count);
      SlotBound(v);
      NextBound(p);
      EditPage(l, s, d, v, Tagged(p, perms));
      var e := EnsureTable(s, d, Slot(v));
      if e.Some? {
        var s1 := SetPte(e.value, d, v, Tagged(p, perms));
        MapStep(l, s, s1, d, v, p, count - 1, perms);
        DirReady(l, s1, d);
        assert RemapFrom(s, d, v, p, count, perms) == RemapFrom(s1, d, Next(v), Next(p), count - 1, perms);
        hide RemapFrom, LayoutOk;
        RemapRefines(l, s1, d, Next(v), Next(p), count - 1, perms);
      }
    }
  }

  /** The present pages of the range are cleared, in every directory that shares their slot; every other
      page maps as before. */
  ghost predicate ClearsRange(l: Layout, s: Sys, s': Sys, d: int, v: int, count: int) {
    forall e, u :: e in s.dirs && 0 <= u < FRAMES ==>
      Pte(s'.mem, e, u) == if Ahead(v, u) < count && Shares(l, s, d, e, Slot(u)) && Present(Pte(s.mem, d, u)) then 0
                           else Pte(s.mem, e, u)
  }

  ghost predicate AllPresent(m: Frames, d: int, v: int, count: int) {
    forall u :: 0 <= u < FRAMES && Ahead(v, u) < count ==> Present(Pte(m, d, u))
  }

  lemma ClearsStep(l: Layout, s: Sys, s1: Sys, s2: Sys, d: int, v: int, count: int)
    requires 0 <= v < FRAMES && 0 <= count < FRAMES && d in s.dirs && s1.dirs == s.dirs
    requires if Present(Pte(s.mem, d, v)) then PageEdited(l, s, s1, d, v, 0) else SameMaps(s, s1)
    requires ClearsRange(l, s1, s2, d, Next(v), count)
    ensures ClearsRange(l, s, s2, d, v, count + 1)
  {
    forall e, u | e in s.dirs && 0 <= u < FRAMES
      ensures Pte(s2.mem, e, u) ==
              if Ahead(v, u) < count + 1 && Shares(l, s, d, e, Slot(u)) && Present(Pte(s.mem, d, u)) then 0
                else Pte(s.mem, e, u)
    {
      AheadNext(v, u);
      AheadNext(v, v);
    }
  }

  /** vmm_unmap_pages clears the whole range, and returns 1 exactly when some page of it was absent. */
  lemma {:induction false} UnmapRefines(l: Layout, s: Sys, d: int, v: int, count: nat, ret: int)
    requires WellFormed(l, s) && d in s.dirs && 0 <= v < FRAMES && Avoids(l, v, count)
    ensures 0 <= d < FRAMES
    ensures var r := UnmapFrom(s, d, v, count, ret);
            r.Ok? ==> && Kept(l, s, r.sys) && ClearsRange(l, s, r.sys, d, v, count)
                      && r.ret == if AllPresent(s.mem, d, v, count) then ret else 1
    decreases count
  {
    hide
      WellFormed, Extends, ClearsRange, Pte, SetPte, AllPresent, Ahead, Present, PageEdited, Shares, EnsureTable, Next,
        Slot, Avoids;
    DirReady(l, s, d);
    if count == 0 {
      UnmapNone(l, s, d, v);
    } else {
      AvoidsStep(l, v, count);
      SlotBound(v);
      EditPage(l, s, d, v, 0);
      var e := EnsureTable(s, d, Slot(v));
      if e.Some? {
        assert Pte(e.value.mem, d, v) == Pte(s.mem, d, v);
        var s1 := if Present(Pte(s.mem, d, v)) then SetPte(e.value, d, v, 0) else e.value;
        var ret' := if Present(Pte(s.mem, d, v)) then ret else 1;
        UnmapStep(l, s, s1, d, v, count, ret');
        DirReady(l, s1, d);
        assert UnmapFrom(s, d, v, count, ret) == UnmapFrom(s1, d, Next(v), count - 1, ret');
        hide UnmapFrom, LayoutOk;
        UnmapRefines(l, s1, d, Next(v), count - 1, ret');
      }
    }
  }

  lemma UnmapNone(l: Layout, s: Sys, d: int, v: int)
    requires WellFormed(l, s)
    ensures Kept(l, s, s) && ClearsRange(l, s, s, d, v, 0) && AllPresent(s.mem, d, v, 0)
  {
    AheadBound(v);
  }

  /** If the rest of the range comes out right from s1, the whole range comes out right from s. */
  lemma UnmapStep(l: Layout, s: Sys, s1: Sys, d: int, v: int, count: nat, ret: int)
    requires d in s.dirs && 0 <= v < FRAMES && 0 < count < FRAMES
    requires if Present(Pte(s.mem, d, v)) then PageEdited(l, s, s1, d, v, 0)
             else WellFormed(l, s1) && s1.dirs == s.dirs && Extends(s, s1) && SameMaps(s, s1)
    ensures WellFormed(l, s1) && d in s1.dirs
    ensures AllPresent(s.mem, d, v, count) <==> Present(Pte(s.mem, d, v)) && AllPresent(s1.mem, d, Next(v), count - 1)
    ensures forall s2 :: Kept(l, s1, s2) && ClearsRange(l, s1, s2, d, Next(v), count - 1)
                         ==> Kept(l, s, s2) && ClearsRange(l, s, s2, d, v, count)
  {
    AllPresentStep(l, s, s1, d, v, count);
    forall s2 | Kept(l, s1, s2) && ClearsRange(l, s1, s2, d, Next(v), count - 1)
      ensures Kept(l, s, s2) && ClearsRange(l, s, s2, d, v, count)
    {
      ClearsStep(l, s, s1, s2, d, v, count - 1);
      ExtendsTwice(s, s1, s2);
    }
  }

  lemma AheadBound(v: int)
    ensures forall u :: 0 <= Ahead(v, u)
  {
  }

  lemma AllPresentStep(l: Layout, s: Sys, s1: Sys, d: int, v: int, count: nat)
    requires d in s.dirs && 0 <= v < FRAMES && 0 < count <= FRAMES
    requires if Present(Pte(s.mem, d, v)) then PageEdited(l, s, s1, d, v, 0) else SameMaps(s, s1)
    ensures AllPresent(s.mem, d, v, count) <==> Present(Pte(s.mem, d, v)) && AllPresent(s1.mem, d, Next(v), count - 1)
  {
    AheadNext(v, v);
    forall u | 0 <= u < FRAMES && u != v
      ensures Pte(s1.mem, d, u) == Pte(s.mem, d, u) && (Ahead(v, u) < count <==> Ahead(Next(v), u) < count - 1)
    {
      AheadNext(v, u);
    }
    AheadNext(v, v);
  }

  // ----- Forking the kernel space -----

  /** The new directory's words: the kernel's present entries, zero elsewhere. */
  function ForkedTable(m: Frames, kdir: int): Table {
    seq(1024, t => if Present(At(m, kdir, t)) then At(m, kdir, t) else 0)
  }

  function PresentSlots(m: Frames, d: int): set<int> { set t: int | 0 <= t < 1024 && Present(At(m, d, t)) }

  /** The state after directory f is forked. */
  function Forked(l: Layout, s: Sys, f: int): Sys
    requires 0 <= f < |s.bits| <= FRAMES
  {
    s.(mem := s.mem[f := ForkedTable(s.mem, l.kdir)], bits := s.bits[f := true],
       dirs := s.dirs[f := PresentSlots(s.mem, l.kdir)])
  }

  /** vmm_fork_kernel_space; the result is the new directory's frame. */
  function Fork(l: Layout, s: Sys): Result
    requires |s.bits| == TRACKED_PAGES
  {
    match FindFreePage(s.bits, 1)
    case None => Halted
    case Some(f) => Ok(Forked(l, s, f), f)
  }

  /** A fork halts exactly if the searched range has no free frame. */
  lemma ForkSucceeds(l: Layout, s: Sys)
    requires |s.bits| == TRACKED_PAGES
    ensures Fork(l, s).Ok? <==> exists p :: 0 <= p < BITMAP_BYTES && !s.bits[p]
  {
    FrameFound(s.bits);
  }

  lemma ForkedReads(l: Layout, s: Sys, f: int, g: int, t: int)
    requires 0 <= f < |s.bits| <= FRAMES
    ensures At(Forked(l, s, f).mem, g, t) ==
            if g == f then (if 0 <= t < 1024 && Present(At(s.mem, l.kdir, t)) then At(s.mem, l.kdir, t) else 0)
              else At(s.mem, g, t)
  {
  }

  /** The directory e stands for in the old state: the new one stands for the kernel's present part. */
  function Origin(l: Layout, f: int, e: int): int { if e == f then l.kdir else e }

  lemma ForkedLive(l: Layout, s: Sys, f: int, e: int, t: int)
    requires WellFormed(l, s) && 0 < f < |s.bits| && !s.bits[f]
    ensures var s' := Forked(l, s, f);
            && (Live(s', e, t) <==> Live(s, Origin(l, f, e), t))
            && (Live(s', e, t) ==> At(s'.mem, e, t) == At(s.mem, Origin(l, f, e), t))
            && (e in s.dirs ==> e != f && At(s'.mem, e, t) == At(s.mem, e, t))
  {
    FreshFrame(l, s, f);
    ForkedReads(l, s, f, e, t);
    assert !Present(0);
  }

  lemma ForkedTables(l: Layout, s: Sys, f: int, d: int, t: int, e: int, u: int)
    requires WellFormed(l, s) && 0 < f < |s.bits| && !s.bits[f]
    ensures var s' := Forked(l, s, f);
            Live(s', d, t) && Live(s', e, u) ==> TableOk(l, s', d, t) && ApartOk(l, s', d, t, e, u)
  {
    FreshFrame(l, s, f);
    ForkedLive(l, s, f, d, t);
    ForkedLive(l, s, f, e, u);
    var d', e' := Origin(l, f, d), Origin(l, f, e);
    if Live(s, d', t) && Live(s, e', u) {
      assert TableOk(l, s, d', t) && ApartOk(l, s, d', t, e', u);
    }
  }

  lemma ForkedWellFormed(l: Layout, s: Sys, f: int)
    requires WellFormed(l, s) && 0 < f < |s.bits| && !s.bits[f]
    ensures WellFormed(l, Forked(l, s, f)) && Extends(s, Forked(l, s, f)) && SameMaps(s, Forked(l, s, f))
  {
    var s' := Forked(l, s, f);
    FreshFrame(l, s, f);
    ForkedLive(l, s, f, l.kdir, 0);
    ForkedReads(l, s, f, l.btab, l.wdir);
    ForkedReads(l, s, f, l.btab, l.wtab);
    ForkedReads(l, s, f, l.btab, l.btab);
    ForkedReads(l, s, f, l.btab, l.kdir);
    TableEntryReads(l.btab);
    forall e | e in s'.dirs ensures DirOk(l, s', e) { assert e != f ==> DirOk(l, s, e); }
    forall e, u | Live(s', e, u) ensures TableOk(l, s', e, u) { ForkedTables(l, s, f, e, u, e, u); }
    forall d, t, e, u | Live(s', d, t) && Live(s', e, u) ensures ApartOk(l, s', d, t, e, u) {
      ForkedTables(l, s, f, d, t, e, u);
    }
    forall e, u | e in s'.dirs && u in s'.dirs[e] ensures InheritOk(l, s', e, u) {
      ForkedLive(l, s, f, l.kdir, u);
      ForkedReads(l, s, f, e, u);
      if e != f { assert InheritOk(l, s, e, u); }
    }
    forall e, u | Live(s, e, u) ensures At(s'.mem, e, u) == At(s.mem, e, u) { ForkedLive(l, s, f, e, u); }
    forall e, v | e in s.dirs && 0 <= v < FRAMES
      ensures Pte(s'.mem, e, v) == Pte(s.mem, e, v)
    {
      ForkedLive(l, s, f, e, Slot(v));
      if Live(s, e, Slot(v)) {
        assert TableOk(l, s, e, Slot(v));
        ForkedReads(l, s, f, FrameOf(At(s.mem, e, Slot(v))), v % 1024);
      }
    }
  }

  // ----- Runs -----

  /** One call, or a frame claimed or released by some other part of the kernel. */
  datatype Op =
    | ForkOp
    | MapOp(d: int, v: int, p: int, count: nat, perms: int)
    | RemapOp(d: int, v: int, p: int, count: nat, perms: int)
    | UnmapOp(d: int, v: int, count: nat)
    | ClaimOp(page: nat, pages: nat)
    | ReleaseOp(page: nat, pages: nat)

  /** Frame f belongs to the page tables, the windows or page 0. */
  ghost predicate InUse(l: Layout, s: Sys, f: int) {
    f == 0 || f in s.dirs || f == l.btab || f == l.wdir || f == l.wtab
      || exists d, t :: Live(s, d, t) && FrameOf(At(s.mem, d, t)) == f
  }

  /** What callers owe: a live directory, a range clear of the pages the paging code works through, and no release of a
      frame in use. */
  ghost predicate Allowed(l: Layout, s: Sys, op: Op) {
    match op
    case ForkOp => true
    case MapOp(d, v, p, count, perms) =>
      && d in s.dirs && 0 <= v < FRAMES && 0 <= p < FRAMES && 0 <= perms < 0x10000
      && Avoids(l, v, count)
    case RemapOp(d, v, p, count, perms) =>
      && d in s.dirs && 0 <= v < FRAMES && 0 <= p < FRAMES && 0 <= perms < 0x10000
      && Avoids(l, v, count)
    case UnmapOp(d, v, count) => d in s.dirs && 0 <= v < FRAMES && Avoids(l, v, count)
    case ClaimOp(page, pages) => page + pages <= TRACKED_PAGES
    case ReleaseOp(page, pages) =>
      && page + pages <= TRACKED_PAGES
      && forall f :: page <= f < page + pages ==> !InUse(l, s, f)
  }

  function Flagged(s: Sys, page: nat, pages: nat, v: bool): Sys {
    s.(bits := seq(|s.bits|, i requires 0 <= i < |s.bits| => if page <= i < page + pages then v else s.bits[i]))
  }

  ghost function Step(l: Layout, s: Sys, op: Op): Result
    requires WellFormed(l, s) && Allowed(l, s, op)
  {
    match op
    case ForkOp => Fork(l, s)
    case MapOp(d, v, p, count, perms) => assert DirOk(l, s, d); MapFrom(s, d, v, p, count, perms, 0)
    case RemapOp(d, v, p, count, perms) => assert DirOk(l, s, d); RemapFrom(s, d, v, p, count, perms)
    case UnmapOp(d, v, count) => assert DirOk(l, s, d); UnmapFrom(s, d, v, count, 0)
    case ClaimOp(page, pages) => Ok(Flagged(s, page, pages, true), 0)
    case ReleaseOp(page, pages) => Ok(Flagged(s, page, pages, false), 0)
  }

  lemma FlaggedOk(l: Layout, s: Sys, page: nat, pages: nat, v: bool)
    requires WellFormed(l, s) && page + pages <= TRACKED_PAGES
    requires !v ==> forall f :: page <= f < page + pages ==> !InUse(l, s, f)
    ensures WellFormed(l, Flagged(s, page, pages, v))
  {
    var s' := Flagged(s, page, pages, v);
    forall f | InUse(l, s, f) && Taken(s, f) ensures Taken(s', f) {}
    forall e | e in s'.dirs ensures DirOk(l, s', e) { assert DirOk(l, s, e) && InUse(l, s, e); }
    forall e, u | Live(s', e, u) ensures TableOk(l, s', e, u) {
      assert Live(s, e, u) && TableOk(l, s, e, u) && InUse(l, s, FrameOf(At(s.mem, e, u)));
    }
    forall d, t, e, u | Live(s', d, t) && Live(s', e, u) ensures ApartOk(l, s', d, t, e, u) {
      assert Live(s, d, t) && Live(s, e, u) && ApartOk(l, s, d, t, e, u);
    }
    forall e, u | e in s'.dirs && u in s'.dirs[e] ensures InheritOk(l, s', e, u) { assert InheritOk(l, s, e, u); }
    assert InUse(l, s, 0) && InUse(l, s, l.btab) && InUse(l, s, l.wdir) && InUse(l, s, l.wtab);
  }

  /** Every step keeps the invariant and every present directory entry. */
  lemma StepOk(l: Layout, s: Sys, op: Op)
    requires WellFormed(l, s) && Allowed(l, s, op)
    ensures var r := Step(l, s, op); r.Ok? ==> WellFormed(l, r.sys) && Extends(s, r.sys)
  {
    match op
    case ForkOp =>
      FoundIsFree(s);
      var r := FindFreePage(s.bits, 1);
      if r.Some? { ForkedWellFormed(l, s, r.value); }
    case MapOp(d, v, p, count, perms) => MapRefines(l, s, d, v, p, count, perms, 0);
    case RemapOp(d, v, p, count, perms) => RemapRefines(l, s, d, v, p, count, perms);
    case UnmapOp(d, v, count) => UnmapRefines(l, s, d, v, count, 0);
    case ClaimOp(page, pages) => FlaggedOk(l, s, page, pages, true);
    case ReleaseOp(page, pages) => FlaggedOk(l, s, page, pages, false);
  }

  /** s' is reached from s by the calls of ops, none of which halted. */
  ghost predicate Reaches(l: Layout, s: Sys, ops: seq<Op>, s': Sys)
    requires WellFormed(l, s)
    decreases |ops|
  {
    if ops == [] then s' == s
    else
      && Allowed(l, s, ops[0])
      && var r := Step(l, s, ops[0]);
         r.Ok? && (StepOk(l, s, ops[0]); Reaches(l, r.sys, ops[1..], s'))
  }

  /** Over any run the invariant holds and no present directory entry ever changes. */
  lemma {:induction false} RunOk(l: Layout, s: Sys, ops: seq<Op>, s': Sys)
    requires WellFormed(l, s) && Reaches(l, s, ops, s')
    ensures WellFormed(l, s') && Extends(s, s')
    decreases |ops|
  {
    if ops != [] {
      StepOk(l, s, ops[0]);
      var s1 := Step(l, s, ops[0]).sys;
      RunOk(l, s1, ops[1..], s');
      ExtendsTwice(s, s1, s');
    }
  }

  /** Kernel sharing is permanent: after any run, parent and child of a fork map every page of a slot the
      kernel directory had at the fork identically. */
  lemma KernelSharingPermanent(l: Layout, s: Sys, ops: seq<Op>, s': Sys, d: int, v: int)
    requires WellFormed(l, s) && Reaches(l, s, ops, s') && d in s.dirs && 0 <= v < FRAMES && Slot(v) in s.dirs[d]
    ensures At(s'.mem, d, Slot(v)) == At(s.mem, l.kdir, Slot(v))
    ensures Pte(s'.mem, d, v) == Pte(s'.mem, l.kdir, v)
  {
    RunOk(l, s, ops, s');
    assert InheritOk(l, s, d, Slot(v)) && InheritOk(l, s', d, Slot(v));
    assert Live(s, d, Slot(v));
  }

  /** The child of a fork inherits exactly the kernel's present slots and maps nothing else. */
  lemma ForkInherits(l: Layout, s: Sys, v: int)
    requires WellFormed(l, s) && Fork(l, s).Ok? && 0 <= v < FRAMES
    ensures var Ok(s', f) := Fork(l, s);
            && f !in s.dirs && f in s'.dirs && WellFormed(l, s')
            && (Slot(v) in s'.dirs[f] <==> Live(s, l.kdir, Slot(v)))
            && Pte(s'.mem, f, v) == Pte(s.mem, l.kdir, v)
  {
    FoundIsFree(s);
    var f := FindFreePage(s.bits, 1).value;
    FreshFrame(l, s, f);
    ForkedWellFormed(l, s, f);
    ForkedReads(l, s, f, f, Slot(v));
    assert !Present(0);
    assert Pte(Forked(l, s, f).mem, l.kdir, v) == Pte(s.mem, l.kdir, v);
    ForkedLive(l, s, f, l.kdir, Slot(v));
  }

  // ----- Isolation -----

  /** The pages an operation edits, by directory. */
  ghost predicate Touches(op: Op, d: int, u: int) {
    match op
    case MapOp(e, v, _, count, _) => e == d && Ahead(v, u) < count
    case RemapOp(e, v, _, count, _) => e == d && Ahead(v, u) < count
    case UnmapOp(e, v, count) => e == d && Ahead(v, u) < count
    case _ => false
  }

  /** The operation touches page u of no directory that shares u's slot with e. */
  ghost predicate Avoided(l: Layout, s: Sys, op: Op, e: int, u: int) {
    forall d :: d in s.dirs && Shares(l, s, d, e, Slot(u)) ==> !Touches(op, d, u)
  }

  lemma StepIsolated(l: Layout, s: Sys, op: Op, e: int, u: int)
    requires WellFormed(l, s) && Allowed(l, s, op) && Step(l, s, op).Ok?
    requires e in s.dirs && 0 <= u < FRAMES && Avoided(l, s, op, e, u)
    ensures Pte(Step(l, s, op).sys.mem, e, u) == Pte(s.mem, e, u)
  {
    match op
    case ForkOp =>
      FoundIsFree(s);
      var r := FindFreePage(s.bits, 1);
      ForkedWellFormed(l, s, r.value);
    case MapOp(d, v, p, count, perms) =>
      MapRefines(l, s, d, v, p, count, perms, 0);
      PrefixBound(s.mem, d, v, count);
      assert Touches(op, d, u) <==> Ahead(v, u) < count;
    case RemapOp(d, v, p, count, perms) =>
      RemapRefines(l, s, d, v, p, count, perms);
      assert Touches(op, d, u) <==> Ahead(v, u) < count;
    case UnmapOp(d, v, count) =>
      UnmapRefines(l, s, d, v, count, 0);
      assert Touches(op, d, u) <==> Ahead(v, u) < count;
    case ClaimOp(page, pages) =>
    case ReleaseOp(page, pages) =>
  }

  /** At every point of the run, the next operation leaves page u of the tables e reaches alone. */
  ghost predicate RunAvoids(l: Layout, s: Sys, ops: seq<Op>, e: int, u: int)
    requires WellFormed(l, s)
    decreases |ops|
  {
    ops == [] || (
      && Allowed(l, s, ops[0])
      && Avoided(l, s, ops[0], e, u)
      && var r := Step(l, s, ops[0]);
         r.Ok? ==> (StepOk(l, s, ops[0]); RunAvoids(l, r.sys, ops[1..], e, u)))
  }

  /** Isolation over whole runs: a page keeps its translation as long as no operation edits that page in a
      directory that shares its slot, whatever is done in private slots and in other address spaces. */
  lemma {:induction false} RunIsolated(l: Layout, s: Sys, ops: seq<Op>, s': Sys, e: int, u: int)
    requires WellFormed(l, s) && Reaches(l, s, ops, s') && e in s.dirs && 0 <= u < FRAMES && RunAvoids(l, s, ops, e, u)
    ensures Pte(s'.mem, e, u) == Pte(s.mem, e, u)
    decreases |ops|
  {
    if ops != [] {
      StepOk(l, s, ops[0]);
      StepIsolated(l, s, ops[0], e, u);
      RunIsolated(l, Step(l, s, ops[0]).sys, ops[1..], s', e, u);
    }
  }

  /** Whatever an operation does through d to pages of slots d did not inherit reaches no other directory. */
  lemma PrivateSlotsIsolated(l: Layout, s: Sys, op: Op, d: int, e: int, u: int)
    requires WellFormed(l, s) && Allowed(l, s, op) && Step(l, s, op).Ok?
    requires (op.MapOp? || op.RemapOp? || op.UnmapOp?) && op.d == d && d != l.kdir
    requires forall w :: 0 <= w < FRAMES && Touches(op, d, w) ==> Slot(w) !in s.dirs[d]
    requires e in s.dirs && e != d && 0 <= u < FRAMES
    ensures Pte(Step(l, s, op).sys.mem, e, u) == Pte(s.mem, e, u)
  {
    StepIsolated(l, s, op, e, u);
  }

  /** In every reachable state two directories hold the same table in a slot only if it was inherited. */
  lemma SharedOnlyIfInherited(l: Layout, s: Sys, ops: seq<Op>, s': Sys, d: int, t: int, e: int, u: int)
    requires WellFormed(l, s) && Reaches(l, s, ops, s') && Live(s', d, t) && Live(s', e, u) && (d != e || t != u)
    requires FrameOf(At(s'.mem, d, t)) == FrameOf(At(s'.mem, e, u))
    ensures t == u && (d == l.kdir || t in s'.dirs[d]) && (e == l.kdir || t in s'.dirs[e])
  {
    RunOk(l, s, ops, s');
    assert ApartOk(l, s', d, t, e, u);
  }

  /** The windows' own page, seen through any live directory, is the window entry of the kernel's first table. */
  lemma WindowsVisible(l: Layout, s: Sys, d: int, w: int)
    requires WellFormed(l, s) && d in s.dirs && 0 <= w < 1024
    ensures Pte(s.mem, d, w) == At(s.mem, l.btab, w)
  {
    assert DirOk(l, s, d);
    if d != l.kdir { assert InheritOk(l, s, d, 0); }
    TableEntryReads(l.btab);
  }

  /** In every reachable state every directory maps the pages the paging code works through onto themselves, so that
      code runs whichever directory is loaded. */
  lemma PinnedReachable(l: Layout, s: Sys, ops: seq<Op>, s': Sys, d: int, v: int)
    requires WellFormed(l, s) && Reaches(l, s, ops, s') && d in s'.dirs && IsPinned(l, v)
    ensures 0 <= v < FRAMES && Pte(s'.mem, d, v) == TableEntry(v)
  {
    RunOk(l, s, ops, s');
    WindowsVisible(l, s', d, v);
  }

  // ----- The state setup leaves behind -----

  /** What vmm_memory_setup writes: an otherwise empty directory over a table that maps 4 MiB onto itself. */
  ghost predicate BootMemory(l: Layout, m: Frames) {
    && 0 < l.btab < 1024
    && (forall t :: 0 <= t < 1024 ==> At(m, l.kdir, t) == if t == 0 then TableEntry(l.btab) else 6)
    && (forall i :: 0 <= i < 1024 ==> At(m, l.btab, i) == TableEntry(i))
  }

  lemma BootWellFormed(l: Layout, m: Frames, bits: seq<bool>)
    requires BootMemory(l, m) && |bits| == TRACKED_PAGES && bits[0]
    requires 0 < l.kdir < 1024 && 0 < l.btab < 1024 && 0 < l.wdir < 1024 && 0 < l.wtab < 1024
    requires l.kdir != l.btab && l.kdir != l.wdir && l.kdir != l.wtab && l.btab != l.wdir && l.btab != l.wtab
             && l.wdir != l.wtab
    requires bits[l.kdir] && bits[l.btab] && bits[l.wdir] && bits[l.wtab]
    ensures WellFormed(l, Sys(m, bits, map[l.kdir := {}]))
  {
    var s := Sys(m, bits, map[l.kdir := {}]);
    TableEntryReads(l.btab);
    forall d, t | Live(s, d, t)
      ensures d == l.kdir && t == 0
    {
      assert !Present(6);
    }
    assert DirOk(l, s, l.kdir) && TableOk(l, s, l.kdir, 0);
  }
}
