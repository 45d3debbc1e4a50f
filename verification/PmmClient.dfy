/** Any client of the frame allocator: whatever it asks for, in whatever order, if it frees only what it holds. */
module PmmClient {
  import opened Memory
  import opened Pmm

  datatype Op = Take(size: Word) | TakeAt(addr: Word, size: Word) | Drop(k: nat)

  /** A run of frames the client was given; `found` when pmm_alloc chose it. */
  datatype Run = Run(addr: Word, size: Word, found: bool)

  /** The allocator's bitmap and what the client holds. */
  datatype View = View(bits: seq<bool>, held: seq<Run>)

  function First(r: Run): nat { r.addr / 0x1000 }

  function Pages(r: Run): nat { PagesFor(r.size) }

  function Total(held: seq<Run>): nat { if held == [] then 0 else Total(held[..|held| - 1]) + Pages(held[|held| - 1]) }

  function Without(held: seq<Run>, k: nat): seq<Run>
    requires k < |held|
  {
    held[..k] + held[k + 1..]
  }

  lemma {:induction false} TotalWithout(held: seq<Run>, k: nat)
    requires k < |held|
    ensures Total(held) == Total(Without(held, k)) + Pages(held[k])
  {
    var last := |held| - 1;
    if k < last {
      TotalWithout(held[..last], k);
      assert Without(held, k)[..last - 1] == Without(held[..last], k);
      assert Without(held, k)[last - 1] == held[last];
    } else {
      assert Without(held, k) == held[..last];
    }
  }

  /** No page lies in both runs. */
  predicate Apart(a: Run, b: Run) {
    Pages(a) == 0 || Pages(b) == 0 || First(a) + Pages(a) <= First(b) || First(b) + Pages(b) <= First(a)
  }

  ghost predicate AllApart(held: seq<Run>) {
    forall i, j {:trigger Apart(held[i], held[j])} :: 0 <= i < j < |held| ==> Apart(held[i], held[j])
  }

  /** Every page of the run is marked, it starts a page other than page 0, and a run pmm_alloc chose can be freed. */
  ghost predicate Owned(bits: seq<bool>, r: Run) {
    r.addr % 0x1000 == 0 && UsedRun(bits, First(r), Pages(r)) && (Pages(r) > 0 ==> First(r) > 0)
    && (r.found ==> First(r) + Pages(r) <= BITMAP_BYTES)
  }

  ghost predicate AllOwned(bits: seq<bool>, held: seq<Run>) {
    forall i {:trigger Owned(bits, held[i])} :: 0 <= i < |held| ==> Owned(bits, held[i])
  }

  /** What holds between any two requests; `base` is what was in use before the client started. */
  ghost predicate Good(pmm: FrameAllocator, held: seq<Run>, base: nat)
    requires pmm.Valid()
    reads pmm, pmm.bitmap
  {
    pmm.Accounted() && pmm.Bits()[0] && AllApart(held) && AllOwned(pmm.Bits(), held)
    && pmm.used == base + 0x1000 * Total(held)
  }

  /** A run taken from free pages is apart from everything held, and marking it disturbs nothing held. */
  lemma TakeKeeps(bits: seq<bool>, held: seq<Run>, r: Run, bits': seq<bool>)
    requires AllApart(held) && AllOwned(bits, held) && |bits| == |bits'| > 0 && bits[0]
    requires FreeRun(bits, First(r), Pages(r)) && Marked(bits, First(r), Pages(r), true, bits')
    requires r.addr % 0x1000 == 0 && (r.found ==> First(r) + Pages(r) <= BITMAP_BYTES)
    ensures AllApart(held + [r]) && AllOwned(bits', held + [r]) && bits'[0]
  {
    var held' := held + [r];
    forall i | 0 <= i < |held| ensures Apart(held[i], r) && Owned(bits', held[i]) {
      assert Owned(bits, held[i]);
      assert Pages(held[i]) > 0 ==> bits[First(held[i])];
      assert Pages(r) > 0 ==> !bits[First(r)];
    }
    forall i | 0 <= i < |held'| ensures Owned(bits', held'[i]) {
      if i == |held| { assert Owned(bits', r); }
    }
  }

  lemma DropKeeps(bits: seq<bool>, held: seq<Run>, k: nat, bits': seq<bool>)
    requires k < |held| && AllApart(held) && AllOwned(bits, held) && |bits| == |bits'| > 0 && bits[0]
    requires Marked(bits, First(held[k]), Pages(held[k]), false, bits')
    ensures AllApart(Without(held, k)) && AllOwned(bits', Without(held, k)) && bits'[0]
  {
    var rest := Without(held, k);
    assert Owned(bits, held[k]);
    forall i | 0 <= i < |held| && i != k ensures Owned(bits', held[i]) {
      assert Owned(bits, held[i]);
      assert if i < k then Apart(held[i], held[k]) else Apart(held[k], held[i]);
    }
    forall i | 0 <= i < |rest| ensures Owned(bits', rest[i]) {
      assert rest[i] == held[if i < k then i else i + 1];
    }
    forall i, j | 0 <= i < j < |rest| ensures Apart(rest[i], rest[j]) {
      assert Apart(held[if i < k then i else i + 1], held[if j < k then j else j + 1]);
    }
  }

  /** What one request does: the first fit is taken, the pages named are taken if all are free, or a run that the
      allocator accepts is dropped. */
  ghost function Served(bits: seq<bool>, op: Op, held: seq<Run>): seq<Run>
    requires |bits| == TRACKED_PAGES
  {
    match op
    case Take(size) =>
      var found := FindFreePage(bits, PagesFor(size));
      if found.Some? then held + [Run(found.value * 0x1000, size, true)] else held
    case TakeAt(addr, size) =>
      if addr / 0x1000 > 0 && FreeRun(bits, addr / 0x1000, PagesFor(size))
        then held + [Run(addr / 0x1000 * 0x1000, size, false)] else held
    case Drop(k) =>
      if k < |held| && (held[k].found || First(held[k]) + Pages(held[k]) <= BITMAP_BYTES) then Without(held, k)
        else held
  }

  /** A page's mark changes only with the runs held: it is set by one that joins and cleared by one that leaves. */
  ghost predicate OnlyHeldChanges(v: View, v': View) {
    && |v.bits| == |v'.bits|
    && forall p :: 0 <= p < |v.bits| ==>
       v'.bits[p] == ((v.bits[p] && !Leaves(v.held, v'.held, p)) || Covers(v'.held, p))
  }

  ghost predicate Covers(held: seq<Run>, p: int) { exists i :: 0 <= i < |held| && InRun(held[i], p) }

  predicate InRun(r: Run, p: int) { First(r) <= p < First(r) + Pages(r) }

  ghost predicate Leaves(held: seq<Run>, held': seq<Run>, p: int) { Covers(held, p) && !Covers(held', p) }

  lemma TakeChanges(bits: seq<bool>, held: seq<Run>, r: Run, bits': seq<bool>)
    requires AllOwned(bits, held) && Marked(bits, First(r), Pages(r), true, bits')
    ensures OnlyHeldChanges(View(bits, held), View(bits', held + [r]))
  {
    var held' := held + [r];
    forall p | 0 <= p < |bits|
      ensures bits'[p] == ((bits[p] && !Leaves(held, held', p)) || Covers(held', p))
    {
      if i :| 0 <= i < |held| && InRun(held[i], p) {
        assert Owned(bits, held[i]) && InRun(held'[i], p);
      }
      assert InRun(held'[|held|], p) <==> First(r) <= p < First(r) + Pages(r);
    }
  }

  lemma DropChanges(bits: seq<bool>, held: seq<Run>, k: nat, bits': seq<bool>)
    requires k < |held| && AllApart(held) && AllOwned(bits, held)
    requires Marked(bits, First(held[k]), Pages(held[k]), false, bits')
    ensures OnlyHeldChanges(View(bits, held), View(bits', Without(held, k)))
  {
    var rest := Without(held, k);
    forall p | 0 <= p < |bits|
      ensures bits'[p] == ((bits[p] && !Leaves(held, rest, p)) || Covers(rest, p))
    {
      WithoutCovers(held, k, p);
      if i :| 0 <= i < |rest| && InRun(rest[i], p) {
        var j := if i < k then i else i + 1;
        assert rest[i] == held[j] && Owned(bits, held[j]);
        assert if j < k then Apart(held[j], held[k]) else Apart(held[k], held[j]);
      }
    }
  }

  lemma WithoutCovers(held: seq<Run>, k: nat, p: int)
    requires k < |held|
    ensures Covers(held, p) <==> Covers(Without(held, k), p) || InRun(held[k], p)
  {
    var rest := Without(held, k);
    forall i | 0 <= i < |rest|
      ensures rest[i] == held[if i < k then i else i + 1]
    {
    }
    forall j | 0 <= j < |held| && j != k
      ensures held[j] == rest[if j < k then j else j - 1]
    {
    }
  }

  lemma NothingChanges(bits: seq<bool>, held: seq<Run>)
    requires AllOwned(bits, held)
    ensures OnlyHeldChanges(View(bits, held), View(bits, held))
  {
    forall p | 0 <= p < |bits| && Covers(held, p)
      ensures bits[p]
    {
      var i :| 0 <= i < |held| && InRun(held[i], p);
      assert Owned(bits, held[i]);
    }
  }

  lemma StartGood(pmm: FrameAllocator)
    requires pmm.Valid() && pmm.Accounted() && pmm.Bits()[0] && pmm.used == 0
    ensures Good(pmm, [], 0)
  {
  }

  lemma GoodMeans(pmm: FrameAllocator, held: seq<Run>)
    requires pmm.Valid() && Good(pmm, held, 0)
    ensures pmm.Accounted() && pmm.used == 0x1000 * Total(held) && AllApart(held) && AllOwned(pmm.Bits(), held)
  {
  }

  method Serve(pmm: FrameAllocator, op: Op, held: seq<Run>, ghost base: nat) returns (held': seq<Run>)
    requires pmm.Valid() && Good(pmm, held, base)
    modifies pmm`total, pmm`used, pmm`available, pmm.bitmap
    ensures Good(pmm, held', base) && pmm.total == old(pmm.total) && held' == Served(old(pmm.Bits()), op, held)
    ensures OnlyHeldChanges(View(old(pmm.Bits()), held), View(pmm.Bits(), held'))
  {
    hide Good;
    match op {
      case Take(size) => held' := ServeTake(pmm, size, held, base);
      case TakeAt(addr, size) => held' := ServeTakeAt(pmm, addr, size, held, base);
      case Drop(k) => held' := ServeDrop(pmm, k, held, base);
    }
  }

  /** A run held covers what was asked for: every byte of it lies in a marked page. */
  lemma OwnedCovers(bits: seq<bool>, r: Run, b: nat)
    requires Owned(bits, r) && r.size <= 0xFFFF_F000 && r.addr <= b < r.addr + r.size
    ensures b / 0x1000 < |bits| && bits[b / 0x1000]
  {
    hide PagesFor;
    BytesInPages(First(r), r.size, b);
  }

  lemma TotalMore(held: seq<Run>, r: Run)
    ensures Total(held + [r]) == Total(held) + Pages(r)
  {
    assert (held + [r])[..|held|] == held;
  }

  method ServeTake(pmm: FrameAllocator, size: Word, held: seq<Run>, ghost base: nat) returns (held': seq<Run>)
    requires pmm.Valid() && Good(pmm, held, base)
    modifies pmm`total, pmm`used, pmm`available, pmm.bitmap
    ensures Good(pmm, held', base) && pmm.total == old(pmm.total) && held' == Served(old(pmm.Bits()), Take(size), held)
    ensures OnlyHeldChanges(View(old(pmm.Bits()), held), View(pmm.Bits(), held'))
  {
    hide FindFreePage, CountClear, PagesFor, AllOwned, AllApart, Total, OnlyHeldChanges;
    held' := held;
    ghost var bits := pmm.Bits();
    NothingChanges(bits, held);
    var r := pmm.Alloc(size);
    if r.Some? {
      var run := Run(r.value, size, true);
      held' := held + [run];
      TakeKeeps(bits, held, run, pmm.Bits());
      TakeChanges(bits, held, run, pmm.Bits());
      TotalMore(held, run);
    }
  }

  method ServeTakeAt(pmm: FrameAllocator, addr: Word, size: Word, held: seq<Run>, ghost base: nat)
    returns (held': seq<Run>)
    requires pmm.Valid() && Good(pmm, held, base)
    modifies pmm`total, pmm`used, pmm`available, pmm.bitmap
    ensures Good(pmm, held', base) && pmm.total == old(pmm.total)
            && held' == Served(old(pmm.Bits()), TakeAt(addr, size), held)
    ensures OnlyHeldChanges(View(old(pmm.Bits()), held), View(pmm.Bits(), held'))
  {
    hide CountClear, PagesFor, AllOwned, AllApart, Total, OnlyHeldChanges;
    held' := held;
    ghost var bits := pmm.Bits();
    NothingChanges(bits, held);
    if addr / 0x1000 + PagesFor(size) <= 8 * 131071 {
      var r := pmm.AllocFrom(addr, size);
      if r != 0 {
        var run := Run(r, size, false);
        held' := held + [run];
        assert First(run) == addr / 0x1000;
        WholePage(addr / 0x1000);
        TakeKeeps(bits, held, run, pmm.Bits());
        TakeChanges(bits, held, run, pmm.Bits());
        TotalMore(held, run);
      } else {
        // Page 0 is never free, so a zero answer means that nothing was taken.
        assert bits[0] && pmm.Bits() == bits;
      }
    }
  }

  method ServeDrop(pmm: FrameAllocator, k: nat, held: seq<Run>, ghost base: nat) returns (held': seq<Run>)
    requires pmm.Valid() && Good(pmm, held, base)
    modifies pmm`total, pmm`used, pmm`available, pmm.bitmap
    ensures Good(pmm, held', base) && pmm.total == old(pmm.total) && held' == Served(old(pmm.Bits()), Drop(k), held)
    ensures OnlyHeldChanges(View(old(pmm.Bits()), held), View(pmm.Bits(), held'))
  {
    hide CountClear, PagesFor, AllApart, Total, Without, OnlyHeldChanges;
    held' := held;
    ghost var bits := pmm.Bits();
    NothingChanges(bits, held);
    if k < |held| {
      assert Owned(bits, held[k]);
      TotalWithout(held, k);
      var ok := pmm.Unalloc(held[k].addr, held[k].size);
      if ok {
        held' := Without(held, k);
        DropKeeps(bits, held, k, pmm.Bits());
        DropChanges(bits, held, k, pmm.Bits());
      }
    }
  }

  /** Memory accounting over every run: from a fresh setup, available + used = total and available is a page for
      every clear bit after any requests; each request does exactly what it must; what is in use is exactly what the
      client holds, its runs never overlap, and a run pmm_alloc chose can always be given back. */
  method Requests(pmm: FrameAllocator, mmap: seq<MapEntry>, ops: seq<Op>)
    returns (held: seq<Run>, ghost views: seq<View>)
    requires pmm.Valid() && pmm.available == 0 && pmm.used == 0
    requires EntriesDisjoint(mmap) && forall i :: 0 <= i < |mmap| ==> EntryBounded(mmap[i])
    modifies pmm`total, pmm`used, pmm`available, pmm.bitmap
    ensures |views| == |ops| + 1 && views[0].held == [] && views[|ops|] == View(pmm.Bits(), held)
    ensures forall i :: 0 <= i < |views| ==> |views[i].bits| == TRACKED_PAGES
    ensures forall p :: 0 <= p < TRACKED_PAGES ==> (!views[0].bits[p] <==> Usable(mmap, |mmap|, p))
    ensures forall i :: 0 <= i < |ops| ==> views[i + 1].held == Served(views[i].bits, ops[i], views[i].held)
    ensures forall i :: 0 <= i < |ops| ==> OnlyHeldChanges(views[i], views[i + 1])
    ensures pmm.Accounted() && pmm.used == 0x1000 * Total(held) && AllApart(held) && AllOwned(pmm.Bits(), held)
  {
    hide Good, Served, OnlyHeldChanges, AllApart, AllOwned, Total;
    pmm.MemorySetup(mmap);
    held := [];
    views := [View(pmm.Bits(), held)];
    StartGood(pmm);
    for i := 0 to |ops|
      invariant Good(pmm, held, 0) && |views| == i + 1 && views[0].held == [] && views[i] == View(pmm.Bits(), held)
      invariant forall j :: 0 <= j <= i ==> |views[j].bits| == TRACKED_PAGES
      invariant forall p :: 0 <= p < TRACKED_PAGES ==> (!views[0].bits[p] <==> Usable(mmap, |mmap|, p))
      invariant forall j :: 0 <= j < i ==> views[j + 1].held == Served(views[j].bits, ops[j], views[j].held)
      invariant forall j :: 0 <= j < i ==> OnlyHeldChanges(views[j], views[j + 1])
    {
      held := Serve(pmm, ops[i], held, 0);
      views := views + [View(pmm.Bits(), held)];
    }
    GoodMeans(pmm, held);
  }
}
