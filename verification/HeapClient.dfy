/** Whole runs of the heap: any sequence of allocations, page-aligned allocations, frees and stores by the
    owners of live blocks. */
module HeapClient {
  import opened Memory
  import opened HeapShape
  import opened Heap

  /** A client names blocks by their position among those it holds, and stores 4-aligned words. */
  datatype Op =
    | Allocate(size: Word)
    | AllocatePage(size: Word)
    | Release(index: nat)
    | Store(index: nat, offset: nat, value: Word)

  /** A live block: its address and the bytes asked for; `sure` if it came from alloc, not from palignedAlloc. */
  datatype Lease = Lease(ptr: Word, size: Word, sure: bool)

  /** Memory, tiling, free list and heap end, the blocks held, and the words stored in them. */
  datatype View = View(m: Ram, cs: Chunks, fl: seq<Word>, end: Word, live: seq<Lease>, stored: map<int, Word>)

  /** Each lease is a live block that remembers its size, and no block is leased twice. */
  ghost predicate Leased(live: seq<Lease>, cs: Chunks) {
    && (forall i :: 0 <= i < |live| ==> Held(live[i], cs))
    && (forall i, j :: 0 <= i < j < |live| ==> live[i].ptr != live[j].ptr)
  }

  ghost predicate Held(l: Lease, cs: Chunks) {
    var a: int := l.ptr - 8;
    a in cs && cs[a].Block? && cs[a].asked == l.size && (l.sure ==> cs[a].tagged)
  }

  /** Every word a client stored in a block it still holds is in memory as stored. */
  ghost predicate Intact(stored: map<int, Word>, live: seq<Lease>, cs: Chunks, m: Ram) {
    forall x :: x in stored ==> 0 <= x < WORD_LIMIT && m[x] == stored[x] && exists i :: Owns(live, cs, i, x)
  }

  ghost predicate Owns(live: seq<Lease>, cs: Chunks, i: int, x: int) {
    0 <= i < |live| && PayloadWord(cs, live[i].ptr - 8, x)
  }

  /** The bytes two leases asked for do not overlap. */
  predicate Disjoint(live: seq<Lease>) {
    forall i, j :: 0 <= i < j < |live| ==>
      live[i].ptr + live[i].size <= live[j].ptr || live[j].ptr + live[j].size <= live[i].ptr
  }

  /** What a client may rely on between any two operations. */
  ghost predicate Sound(v: View, lo: Word) {
    && Tiles(v.cs, lo, v.end) && Lists(v.fl, FreeMap(v.cs))
    && Leased(v.live, v.cs) && Intact(v.stored, v.live, v.cs, v.m) && Disjoint(v.live)
  }

  // ----- What one operation does -----

  /** The answer and the new view an operation must give.  A block granted joins at the end; one freed leaves with its
      words; an aligned store inside a block is remembered; an operation that names no block does nothing. */
  ghost predicate StepSpec(lo: Word, max: Word, op: Op, v: View, v': View, r: Outcome) {
    match op
    case Allocate(size) =>
      && AllocSpec(v.cs, v.fl, v.end, v'.cs, v'.end, lo, max, size, r)
      && v'.stored == v.stored && v'.live == Received(v.live, size, true, r)
    case AllocatePage(size) =>
      && (exists mid, took :: PalignedSpec(v.cs, v.fl, v.end, mid, v'.cs, lo, v'.end, max, size, r, took))
      && v'.stored == v.stored && v'.live == Received(v.live, size, false, r)
    case Release(k) => if k < |v.live| then ReleaseSpec(lo, k, v, v', r) else v' == v && r == Done(0)
    case Store(k, offset, value) =>
      && r == Done(0)
      && v' == if Storable(v.live, k, offset) then
                 var x := v.live[k].ptr + offset;
                 v.(m := if x < WORD_LIMIT then v.m[x := value] else v.m, stored := v.stored[x := value])
               else v
  }

  function Received(live: seq<Lease>, size: Word, sure: bool, r: Outcome): seq<Lease> {
    if r.Done? then live + [Lease(r.ptr, size, sure)] else live
  }

  /** Free never panics on a block held, and never fails on one from alloc that another chunk follows. */
  ghost predicate ReleaseSpec(lo: Word, k: nat, v: View, v': View, r: Outcome)
    requires k < |v.live|
  {
    var l := v.live[k];
    && FreeSpec(v.m, v.cs, v'.cs, lo, v.end, l.ptr, r)
    && v'.end == v.end && !r.Panic? && l.ptr - 8 in v.cs
    && (l.sure ==> (r.Done? <==> l.ptr - 8 + v.cs[l.ptr - 8].size != v.end))
    && v'.live == (if r.Done? then v.live[..k] + v.live[k + 1..] else v.live)
    && v'.stored == if r.Done? then Without(v.stored, v.cs, l.ptr - 8) else v.stored
  }

  function Without(stored: map<int, Word>, cs: Chunks, a: int): map<int, Word> {
    map x | x in stored && !InPayload(cs, a, x) :: stored[x]
  }

  predicate Storable(live: seq<Lease>, k: nat, offset: nat) {
    k < |live| && offset % 4 == 0 && offset + 4 <= live[k].size
  }

  // ----- Keeping leases and words -----

  lemma KeptIntact(stored: map<int, Word>, live: seq<Lease>, live': seq<Lease>, cs: Chunks, cs': Chunks, m: Ram,
                   m': Ram)
    requires Intact(stored, live, cs, m) && Leased(live, cs)
    requires BlocksKept(cs, cs') && PayloadsKept(m, m', cs, cs') && live <= live'
    ensures Intact(stored, live', cs', m')
  {
    forall x | x in stored
      ensures m'[x] == stored[x] && exists i :: Owns(live', cs', i, x)
    {
      var i :| Owns(live, cs, i, x);
      assert Held(live[i], cs);
      assert Owns(live', cs', i, x);
    }
  }

  lemma ReceivedLeased(live: seq<Lease>, cs: Chunks, cs': Chunks, size: Word, sure: bool, r: Outcome)
    requires Leased(live, cs) && BlocksKept(cs, cs') && Granted(cs, cs', size, r, sure)
    ensures Leased(Received(live, size, sure, r), cs') && live <= Received(live, size, sure, r)
  {
    var live' := Received(live, size, sure, r);
    forall i | 0 <= i < |live'|
      ensures Held(live'[i], cs')
      ensures i < |live| && r.Done? ==> live'[i].ptr != r.ptr
    {
      assert i < |live| ==> Held(live[i], cs);
    }
  }

  /** What is left after block k goes: the other leases, and the words stored in them. */
  lemma ReleasedIntact(stored: map<int, Word>, live: seq<Lease>, k: nat, cs: Chunks, m: Ram, m': Ram)
    requires k < |live| && Leased(live, cs) && Intact(stored, live, cs, m)
    requires live[k].ptr - 8 in cs
    requires var a: int := live[k].ptr - 8; PayloadsKept(m, m', cs, cs[a := Hole(cs[a].size)])
    ensures var a: int := live[k].ptr - 8;
            var cs' := cs[a := Hole(cs[a].size)];
            var live' := live[..k] + live[k + 1..];
            Leased(live', cs') && Intact(Without(stored, cs, a), live', cs', m')
  {
    var a: int := live[k].ptr - 8;
    var cs', live' := cs[a := Hole(cs[a].size)], live[..k] + live[k + 1..];
    forall i | 0 <= i < |live'|
      ensures Held(live'[i], cs')
    {
      var j := if i < k then i else i + 1;
      assert live'[i] == live[j] && Held(live[j], cs);
      assert if j < k then live[j].ptr != live[k].ptr else live[k].ptr != live[j].ptr;
    }
    forall x | x in Without(stored, cs, a)
      ensures m'[x] == stored[x] && exists i :: Owns(live', cs', i, x)
    {
      var j :| Owns(live, cs, j, x);
      var i := if j < k then j else j - 1;
      assert live'[i] == live[j] && Held(live'[i], cs');
      assert Owns(live', cs', i, x);
    }
  }

  lemma LeasesDisjoint(live: seq<Lease>, cs: Chunks, lo: int, hi: int)
    requires Tiles(cs, lo, hi) && Leased(live, cs)
    ensures Disjoint(live)
  {
    forall i, j | 0 <= i < j < |live|
      ensures live[i].ptr + live[i].size <= live[j].ptr || live[j].ptr + live[j].size <= live[i].ptr
    {
      assert Held(live[i], cs) && Held(live[j], cs);
      assert GoodChunk(cs, live[i].ptr - 8, lo, hi) && GoodChunk(cs, live[j].ptr - 8, lo, hi);
      assert if live[i].ptr < live[j].ptr then live[i].ptr - 8 < live[j].ptr - 8 else live[j].ptr - 8 < live[i].ptr - 8;
    }
  }

  lemma HeapLists(m: Ram, head: Word, lo: int, hi: int, cs: Chunks, fl: seq<Word>)
    requires HeapOk(m, head, lo, hi, cs, fl)
    ensures Lists(fl, FreeMap(cs))
  {
  }

  lemma PayloadStoreOk(m: Ram, head: Word, lo: int, hi: int, cs: Chunks, fl: seq<Word>, a: int, x: int, v: Word)
    requires HeapOk(m, head, lo, hi, cs, fl) && InPayload(cs, a, x) && 0 <= x < WORD_LIMIT
    ensures HeapOk(m[x := v], head, lo, hi, cs, fl)
  {
    NotALink(cs, lo, hi, head, x);
    if x - 4 in cs { NotAHeader(cs, lo, hi, a, x - 4, x); }
    PokeKeepsFreeList(m, head, fl, FreeMap(cs), x, v);
  }

  /** An aligned store inside the bytes asked for is a payload word of that block and of no other. */
  lemma StoreOwned(live: seq<Lease>, cs: Chunks, lo: int, hi: int, k: nat, offset: nat)
    requires Tiles(cs, lo, hi) && hi + 8 <= WORD_LIMIT && Leased(live, cs) && Storable(live, k, offset)
    ensures live[k].ptr + offset < WORD_LIMIT && Owns(live, cs, k, live[k].ptr + offset)
  {
    var a: int := live[k].ptr - 8;
    assert Held(live[k], cs) && GoodChunk(cs, a, lo, hi) && AlignedAt(a, cs[a].size);
    FourAligned(a + 8, offset);
  }

  lemma FourAligned(p: int, offset: int)
    requires p % 8 == 0 && offset % 4 == 0
    ensures (p + offset) % 4 == 0
  {
  }

  // ----- Runs -----

  ghost function Now(h: Heap, live: seq<Lease>, stored: map<int, Word>): View
    reads h, h.mem
  {
    View(h.mem.ram, h.chunks, h.fl, h.endAddr, live, stored)
  }

  /** A run so far: every step did what it must, every view is sound, and only the last step may have stopped it. */
  ghost predicate History(lo: Word, max: Word, ops: seq<Op>, views: seq<View>, answers: seq<Outcome>) {
    && |views| == |answers| + 1 && |answers| <= |ops|
    && (forall i :: 0 <= i < |answers| ==> StepSpec(lo, max, ops[i], views[i], views[i + 1], answers[i]))
    && (forall i :: 0 <= i < |views| ==> Sound(views[i], lo))
    && (forall i :: 0 <= i < |answers| - 1 ==> answers[i].Done?)
  }

  /** The run may go on. */
  predicate Running(answers: seq<Outcome>) { answers == [] || answers[|answers| - 1].Done? }

  lemma HistoryGrows(lo: Word, max: Word, ops: seq<Op>, views: seq<View>, answers: seq<Outcome>, v: View, r: Outcome)
    requires History(lo, max, ops, views, answers) && Running(answers) && |answers| < |ops|
    requires Sound(v, lo) && StepSpec(lo, max, ops[|answers|], views[|answers|], v, r)
    ensures History(lo, max, ops, views + [v], answers + [r])
  {
    hide StepSpec, Sound;
    var views', answers' := views + [v], answers + [r];
    forall i | 0 <= i < |answers'|
      ensures StepSpec(lo, max, ops[i], views'[i], views'[i + 1], answers'[i])
    {
      assert i < |answers| ==> views'[i] == views[i] && views'[i + 1] == views[i + 1] && answers'[i] == answers[i];
    }
    forall i | 0 <= i < |views'|
      ensures Sound(views'[i], lo)
    {
      assert i < |views| ==> views'[i] == views[i];
    }
  }

  /** Run any client from an empty set of leases.  Every step does what it must, the run stops only at a step that
      panicked or left the model, and in every view on the way the client's blocks are disjoint and intact. */
  method Run(h: Heap, ops: seq<Op>) returns (live: seq<Lease>, ghost views: seq<View>, ghost answers: seq<Outcome>)
    requires h.Valid()
    modifies h`chunks, h`fl, h`endAddr, h.mem
    ensures h.Valid() && History(h.startAddr, h.maxAddr, ops, views, answers)
    ensures views[0] == View(old(h.mem.ram), old(h.chunks), old(h.fl), old(h.endAddr), [], map[])
    ensures views[|answers|] == Now(h, live, views[|answers|].stored)
    ensures |answers| < |ops| ==> !Running(answers)
  {
    live := [];
    ghost var stored := map[];
    views, answers := [Now(h, [], map[])], [];
    assert Sound(views[0], h.startAddr);
    assert History(h.startAddr, h.maxAddr, ops, views, answers);
    hide History, StepSpec, Sound, HeapOk;
    var n, running := 0, true;
    while n < |ops| && running
      invariant n == |answers| <= |ops| && |views| == n + 1 && running == Running(answers)
      invariant h.Valid() && History(h.startAddr, h.maxAddr, ops, views, answers) && Sound(views[n], h.startAddr)
      invariant views[0] == View(old(h.mem.ram), old(h.chunks), old(h.fl), old(h.endAddr), [], map[])
      invariant views[n] == Now(h, live, stored)
    {
      var r;
      live, stored, r := Step(h, ops[n], live, stored);
      HistoryGrows(h.startAddr, h.maxAddr, ops, views, answers, Now(h, live, stored), r);
      views, answers := views + [Now(h, live, stored)], answers + [r];
      n, running := n + 1, r.Done?;
    }
  }

  method Step(h: Heap, op: Op, live: seq<Lease>, ghost stored: map<int, Word>)
    returns (live': seq<Lease>, ghost stored': map<int, Word>, r: Outcome)
    requires h.Valid() && Sound(Now(h, live, stored), h.startAddr)
    modifies h`chunks, h`fl, h`endAddr, h.mem
    ensures h.Valid() && Sound(Now(h, live', stored'), h.startAddr)
    ensures StepSpec(h.startAddr, h.maxAddr, op, old(Now(h, live, stored)), Now(h, live', stored'), r)
  {
    hide HeapOk, AllocSpec, PalignedSpec, PayloadsKept, Outside;
    live', stored' := live, stored;
    match op {
      case Allocate(size) => live', r := Allocated(h, size, live, stored);
      case AllocatePage(size) => live', r := AllocatedPage(h, size, live, stored);
      case Release(k) =>
        r := Done(0);
        if k < |live| { live', stored', r := GiveUp(h, live, k, stored); }
      case Store(k, offset, value) =>
        r := Done(0);
        if k < |live| && offset % 4 == 0 && offset + 4 <= live[k].size {
          stored' := Put(h, live, k, offset, value, stored);
        }
    }
  }

  method Allocated(h: Heap, size: Word, live: seq<Lease>, ghost stored: map<int, Word>)
    returns (live': seq<Lease>, r: Outcome)
    requires h.Valid() && Sound(Now(h, live, stored), h.startAddr)
    modifies h`chunks, h`fl, h`endAddr, h.mem
    ensures h.Valid() && Sound(Now(h, live', stored), h.startAddr)
    ensures AllocSpec(old(h.chunks), old(h.fl), old(h.endAddr), h.chunks, h.endAddr, h.startAddr, h.maxAddr, size, r)
    ensures live' == Received(live, size, true, r)
  {
    hide Headers, FreeList, AllocSpec, PayloadsKept, Outside;
    ghost var m, cs := h.mem.ram, h.chunks;
    r := h.Alloc(size);
    live' := if r.Done? then live + [Lease(r.ptr, size, true)] else live;
    ReceivedLeased(live, cs, h.chunks, size, true, r);
    KeptIntact(stored, live, live', cs, h.chunks, m, h.mem.ram);
    LeasesDisjoint(live', h.chunks, h.startAddr, h.endAddr);
    HeapLists(h.mem.ram, h.head, h.startAddr, h.endAddr, h.chunks, h.fl);
  }

  method AllocatedPage(h: Heap, size: Word, live: seq<Lease>, ghost stored: map<int, Word>)
    returns (live': seq<Lease>, r: Outcome)
    requires h.Valid() && Sound(Now(h, live, stored), h.startAddr)
    modifies h`chunks, h`fl, h`endAddr, h.mem
    ensures h.Valid() && Sound(Now(h, live', stored), h.startAddr)
    ensures exists mid, took ::
              PalignedSpec(old(h.chunks), old(h.fl), old(h.endAddr), mid, h.chunks, h.startAddr, h.endAddr, h.maxAddr,
                           size, r, took)
    ensures live' == Received(live, size, false, r)
  {
    hide Headers, FreeList, PalignedSpec, PayloadsKept, Outside;
    ghost var m, cs := h.mem.ram, h.chunks;
    ghost var mid, took;
    r, mid, took := h.PalignedAlloc(size);
    live' := if r.Done? then live + [Lease(r.ptr, size, false)] else live;
    ReceivedLeased(live, cs, h.chunks, size, false, r);
    KeptIntact(stored, live, live', cs, h.chunks, m, h.mem.ram);
    LeasesDisjoint(live', h.chunks, h.startAddr, h.endAddr);
    HeapLists(h.mem.ram, h.head, h.startAddr, h.endAddr, h.chunks, h.fl);
  }

  method GiveUp(h: Heap, live: seq<Lease>, k: nat, ghost stored: map<int, Word>)
    returns (live': seq<Lease>, ghost stored': map<int, Word>, r: Outcome)
    requires h.Valid() && Sound(Now(h, live, stored), h.startAddr) && k < |live|
    modifies h`chunks, h`fl, h.mem
    ensures h.Valid() && Sound(Now(h, live', stored'), h.startAddr)
    ensures ReleaseSpec(h.startAddr, k, old(Now(h, live, stored)), Now(h, live', stored'), r)
  {
    hide FreeList, Headers, PayloadsKept, Outside, PrevInUse;
    ghost var m, cs := h.mem.ram, h.chunks;
    ghost var a: int := live[k].ptr - 8;
    assert Held(live[k], cs) && GoodChunk(cs, a, h.startAddr, h.endAddr);
    r := h.Free(live[k].ptr);
    if live[k].sure { TaggedIsFreed(m, cs, h.chunks, h.startAddr, h.endAddr, live[k].ptr, r); }
    live', stored' := live, stored;
    if r.Done? {
      ReleasedIntact(stored, live, k, cs, m, h.mem.ram);
      stored' := Without(stored, cs, a);
      live' := live[..k] + live[k + 1..];
    }
    LeasesDisjoint(live', h.chunks, h.startAddr, h.endAddr);
    HeapLists(h.mem.ram, h.head, h.startAddr, h.endAddr, h.chunks, h.fl);
  }

  /** An owner stores an aligned word inside the bytes it asked for. */
  method Put(h: Heap, live: seq<Lease>, k: nat, offset: nat, value: Word, ghost stored: map<int, Word>)
    returns (ghost stored': map<int, Word>)
    requires h.Valid() && Sound(Now(h, live, stored), h.startAddr) && Storable(live, k, offset)
    modifies h.mem
    ensures h.Valid() && Sound(Now(h, live, stored'), h.startAddr)
    ensures var x := live[k].ptr + offset;
            x < WORD_LIMIT && h.mem.ram == old(h.mem.ram)[x := value] && stored' == stored[x := value]
  {
    hide FreeList, Headers;
    ghost var a: int, x: int := live[k].ptr - 8, live[k].ptr + offset;
    StoreOwned(live, h.chunks, h.startAddr, h.endAddr, k, offset);
    PayloadStoreOk(h.mem.ram, h.head, h.startAddr, h.endAddr, h.chunks, h.fl, a, x, value);
    h.mem.ram := h.mem.ram[live[k].ptr + offset := value];
    stored' := stored[x := value];
    forall y | y in stored'
      ensures 0 <= y < WORD_LIMIT && h.mem.ram[y] == stored'[y] && exists i :: Owns(live, h.chunks, i, y)
    {
      assert y != x ==> y in stored;
    }
  }
}
