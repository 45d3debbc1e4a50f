/** The boundary-tag heap of src/mm/heap.c.  Chunk headers and the free list live in raw memory and are
    edited in place; the ghost fields say which tiling of [startAddr, endAddr) they represent. */
module Heap {
  import opened Memory
  import opened LinkedList
  import opened HeapShape

  ghost predicate HeaderOk(w: Word, c: Chunk) {
    match c
    case Hole(size) => w == size + 1
    case Block(size, _, tagged) => w == size + 3 || (!tagged && w == size + 2)
  }

  ghost predicate Headers(m: Ram, cs: Chunks) {
    forall a :: a in cs ==> 0 <= a + 4 < WORD_LIMIT && HeaderOk(m[a + 4], cs[a])
  }

  /** The heap range and the list head (in the heap descriptor) do not overlap. */
  ghost predicate Placed(head: Word, lo: int, hi: int) {
    IsNode(head) && 0 < lo && hi + 8 <= WORD_LIMIT && (head + 8 <= lo || hi + 8 <= head)
  }

  ghost predicate HeapOk(m: Ram, head: Word, lo: int, hi: int, cs: Chunks, fl: seq<Word>) {
    && Placed(head, lo, hi)
    && Tiles(cs, lo, hi)
    && Headers(m, cs)
    && FreeList(m, head, fl, FreeMap(cs))
  }

  lemma SpacedOf(cs: Chunks, lo: int, hi: int, head: Word)
    requires Placed(head, lo, hi) && Tiles(cs, lo, hi)
    ensures Spaced(FreeMap(cs), head)
  {
    forall a | a in FreeMap(cs)
      ensures ClearOf(head, a)
    {
      assert GoodChunk(cs, a, lo, hi) && AlignedAt(a, cs[a].size);
    }
    forall a, b | a in FreeMap(cs) && b in FreeMap(cs) && a < b
      ensures Gap(a, b)
    {
      assert GoodChunk(cs, a, lo, hi);
    }
  }

  /** Headers, payloads and the word past the heap end are never link words. */
  lemma NotALink(cs: Chunks, lo: int, hi: int, head: Word, x: int)
    requires Placed(head, lo, hi) && Tiles(cs, lo, hi)
    requires x - 4 in cs || x == hi + 4 || exists b :: InPayload(cs, b, x)
    ensures !IsLink(x, head, FreeMap(cs))
  {
    var c: int;
    if x - 4 in cs {
      c := x - 4;
    } else if x == hi + 4 {
      c := lo;
    } else {
      c :| InPayload(cs, c, x);
    }
    assert c in cs && GoodChunk(cs, c, lo, hi);
    assert x != head && x != head + 4;
    forall f | f in FreeMap(cs)
      ensures x != f + 8 && x != f + 12
    {
      assert GoodChunk(cs, f, lo, hi);
    }
    assert x - 8 + 8 == x && x - 12 + 12 == x;
  }

  /** Payload words are not header words. */
  lemma NotAHeader(cs: Chunks, lo: int, hi: int, a: int, c: int, x: int)
    requires Tiles(cs, lo, hi) && InPayload(cs, a, x) && (c in cs || c == hi)
    ensures x != c + 4
  {
    assert GoodChunk(cs, a, lo, hi);
  }

  /** Writing a word that is not a link, and keeps the size if it is a listed chunk's header, keeps the list. */
  lemma PokeKeepsFreeList(m: Ram, head: Word, fl: seq<Word>, fs: map<int, int>, x: int, v: Word)
    requires FreeList(m, head, fl, fs) && 0 <= x < WORD_LIMIT && !IsLink(x, head, fs)
    requires x - 4 in fs ==> SizeOf(v) == fs[x - 4]
    ensures FreeList(m[x := v], head, fl, fs)
  {
    var d := [head] + fl;
    forall i | 0 <= i < |d|
      ensures m[x := v][d[i]] == m[d[i]] && m[x := v][d[i] + 4] == m[d[i] + 4]
    {
      assert i > 0 ==> d[i] == fl[i - 1] && Entry(fl[i - 1]) in fs;
    }
    OtherCycleKept(m, m[x := v], d);
    forall a | a in fs
      ensures SizedAt(m[x := v], a, fs[a])
    {
      assert SizedAt(m, a, fs[a]);
    }
  }

  predicate Fits(cs: Chunks, nb: int, a: int) { a in cs && cs[a].Hole? && cs[a].size >= nb }

  /** The chunk alloc must choose: a smallest free chunk of at least nb bytes. */
  ghost predicate BestFit(cs: Chunks, nb: int, a: int) {
    Fits(cs, nb, a) && forall b :: Fits(cs, nb, b) ==> cs[a].size <= cs[b].size
  }

  /** From m to m' only links of free chunks and the headers of the `touched` chunks changed. */
  ghost predicate Edited(m: Ram, m': Ram, head: Word, cs: Chunks, cs': Chunks, touched: set<int>) {
    forall x ::
      0 <= x < WORD_LIMIT && !IsLink(x, head, FreeMap(cs)) && !IsLink(x, head, FreeMap(cs')) && x - 4 !in touched
      ==> m'[x] == m[x]
  }

  /** Each chunk of cs' either has a correct header or is an untouched chunk of cs. */
  ghost predicate Accounted(m': Ram, cs: Chunks, cs': Chunks, touched: set<int>) {
    forall a :: a in cs' ==>
      if a in touched then 0 <= a + 4 < WORD_LIMIT && HeaderOk(m'[a + 4], cs'[a]) else a in cs && cs[a] == cs'[a]
  }

  lemma EditedHeaders(m: Ram, m': Ram, head: Word, lo: int, hi: int, hi': int, cs: Chunks, cs': Chunks,
                      touched: set<int>)
    requires Placed(head, lo, hi) && Tiles(cs, lo, hi) && Headers(m, cs)
    requires Placed(head, lo, hi') && Tiles(cs', lo, hi')
    requires Edited(m, m', head, cs, cs', touched) && Accounted(m', cs, cs', touched)
    ensures Headers(m', cs')
  {
    forall a | a in cs'
      ensures 0 <= a + 4 < WORD_LIMIT && HeaderOk(m'[a + 4], cs'[a])
    {
      if a !in touched {
        NotALink(cs, lo, hi, head, a + 4);
        NotALink(cs', lo, hi', head, a + 4);
        assert m'[a + 4] == m[a + 4];
      }
    }
  }

  /** No payload word of a block that stays live is written. */
  ghost predicate PayloadsKept(m: Ram, m': Ram, cs: Chunks, cs': Chunks) {
    forall b, x :: PayloadWord(cs, b, x) && PayloadWord(cs', b, x) && 0 <= x < WORD_LIMIT ==> m'[x] == m[x]
  }

  /** The heap [lo, hi) and its list head changed at most: words outside keep their values, except that the word
      after the heap end, where a chunk beyond it would have its header, gets its lowest bit set if `marks`. */
  ghost predicate Outside(m: Ram, m': Ram, head: Word, lo: int, hi: int, marks: bool) {
    && 0 <= hi + 4 < WORD_LIMIT
    && (forall x :: 0 <= x < WORD_LIMIT && x % 4 == 0 && OutsideWord(head, lo, hi, x) ==> m'[x] == m[x])
    && m'[hi + 4] == if marks then SetPrevInUse(m[hi + 4]) else m[hi + 4]
  }

  predicate OutsideWord(head: Word, lo: int, hi: int, x: int) {
    !(lo <= x < hi) && x != head && x != head + 4 && x != hi + 4
  }

  lemma Unchanged(m: Ram, head: Word, lo: int, hi: int, cs: Chunks)
    requires 0 <= hi + 4 < WORD_LIMIT
    ensures PayloadsKept(m, m, cs, cs) && Outside(m, m, head, lo, hi, false)
  {
  }

  lemma OutsideTwice(m: Ram, m1: Ram, m2: Ram, head: Word, lo: int, hi: int, p: bool, q: bool)
    requires Outside(m, m1, head, lo, hi, p) && Outside(m1, m2, head, lo, hi, q)
    ensures Outside(m, m2, head, lo, hi, p || q)
  {
    SetBitTwice(m[hi + 4]);
  }

  lemma SetBitTwice(w: Word)
    ensures SetPrevInUse(SetPrevInUse(w)) == SetPrevInUse(w)
  {
    SetBitIsOdd(w);
  }

  /** An edit of links and of headers inside the heap stays inside, the word past the end apart. */
  lemma EditedOutside(m: Ram, m': Ram, head: Word, lo: int, hi: int, hi': int, cs: Chunks, cs': Chunks,
                      touched: set<int>)
    requires Placed(head, lo, hi) && Tiles(cs, lo, hi) && hi <= hi'
    requires Placed(head, lo, hi') && Tiles(cs', lo, hi')
    requires Edited(m, m', head, cs, cs', touched)
    requires forall c :: c in touched ==> lo <= c + 4 < hi' || c == hi'
    ensures forall x :: 0 <= x < WORD_LIMIT && OutsideWord(head, lo, hi', x) ==> m'[x] == m[x]
    ensures hi' !in touched ==> Outside(m, m', head, lo, hi', false)
    ensures 0 <= hi' + 4 < WORD_LIMIT
    ensures m'[hi' + 4] == SetPrevInUse(m[hi' + 4]) ==> Outside(m, m', head, lo, hi', true)
  {
    TilesOrder(cs', lo, hi');
    forall x | 0 <= x < WORD_LIMIT && (OutsideWord(head, lo, hi', x) || (x == hi' + 4 && hi' !in touched))
      ensures m'[x] == m[x]
    {
      OutsideNotALink(cs, lo, hi, head, x);
      OutsideNotALink(cs', lo, hi', head, x);
      assert x - 4 !in touched;
    }
  }

  lemma OutsideNotALink(cs: Chunks, lo: int, hi: int, head: Word, x: int)
    requires Placed(head, lo, hi) && Tiles(cs, lo, hi) && !(lo <= x < hi) && x != head && x != head + 4
    ensures !IsLink(x, head, FreeMap(cs))
  {
    forall f | f in FreeMap(cs)
      ensures x != f + 8 && x != f + 12
    {
      assert GoodChunk(cs, f, lo, hi);
    }
    assert x - 8 + 8 == x && x - 12 + 12 == x;
  }

  /** x is no payload word of a block live both before and after. */
  ghost predicate NotLive(cs: Chunks, cs': Chunks, x: int) {
    forall b :: !(InPayload(cs, b, x) && InPayload(cs', b, x))
  }

  lemma HeaderNotLive(cs: Chunks, cs': Chunks, lo: int, hi: int, c: int)
    requires Tiles(cs', lo, hi) && (c in cs' || c == hi)
    ensures NotLive(cs, cs', c + 4)
  {
    var x := c + 4;
    forall b
      ensures !InPayload(cs', b, x)
    {
      if InPayload(cs', b, x) { NotAHeader(cs', lo, hi, b, c, x); }
    }
  }

  lemma EditedPayloads(m: Ram, m': Ram, head: Word, lo: int, hi: int, hi': int, cs: Chunks, cs': Chunks,
                       touched: set<int>)
    requires Placed(head, lo, hi) && Tiles(cs, lo, hi)
    requires Placed(head, lo, hi') && Tiles(cs', lo, hi')
    requires Edited(m, m', head, cs, cs', touched)
    requires forall c :: c in touched ==> NotLive(cs, cs', c + 4)
    ensures PayloadsKept(m, m', cs, cs')
  {
    forall b, x | PayloadWord(cs, b, x) && PayloadWord(cs', b, x) && 0 <= x < WORD_LIMIT
      ensures m'[x] == m[x]
    {
      NotALink(cs, lo, hi, head, x);
      NotALink(cs', lo, hi', head, x);
      assert x - 4 in touched ==> NotLive(cs, cs', x - 4 + 4);
    }
  }

  /** A tiling, an edited memory and a matching free list make a heap again. */
  lemma EditedOk(m: Ram, m': Ram, head: Word, lo: int, hi: int, hi': int, cs: Chunks, fl: seq<Word>, cs': Chunks,
                 fl': seq<Word>,
                 touched: set<int>)
    requires HeapOk(m, head, lo, hi, cs, fl)
    requires Placed(head, lo, hi') && Tiles(cs', lo, hi') && FreeList(m', head, fl', FreeMap(cs'))
    requires Edited(m, m', head, cs, cs', touched) && Accounted(m', cs, cs', touched)
    requires forall c :: c in touched ==> NotLive(cs, cs', c + 4)
    ensures HeapOk(m', head, lo, hi', cs', fl') && PayloadsKept(m, m', cs, cs')
  {
    hide FreeList, FreeMap, Tiles, Headers, PayloadsKept, Edited, Accounted, NotLive;
    EditedHeaders(m, m', head, lo, hi, hi', cs, cs', touched);
    EditedPayloads(m, m', head, lo, hi, hi', cs, cs', touched);
  }

  lemma PageAligned(x: int)
    requires x % 0x1000 == 0
    ensures x % 8 == 0 && x % 4 == 0
  {
    var k := x / 0x1000;
    assert x == 0x1000 * k;
    Multiples(512 * k);
  }

  lemma Multiples(j: int)
    ensures (8 * j) % 8 == 0 && (4 * (2 * j)) % 4 == 0 && (2 * (4 * j)) % 2 == 0
  {
  }

  lemma PageSum(x: int, y: int)
    requires x % 0x1000 == 0 && y % 0x1000 == 0
    ensures (x + y) % 0x1000 == 0
  {
  }

  function RoundUp(n: int): int { (n + PAGE_SIZE - 1) / 0x1000 * 0x1000 }

  /** Done: the call returned.  Panic: the kernel panicked and nothing changed.  Escape: control reaches
      code outside this model (a 32-bit wrap that slips past the assertions, or a free the source sends
      to a header that is not part of the heap). */
  datatype Outcome = Done(ptr: Word) | Panic | Escape

  lemma WholeHeapSpaced(head: Word, lo: int, hi: int)
    requires Placed(head, lo, hi) && lo % 8 == 0 && hi % 8 == 0 && lo + MIN_CHUNK <= hi
    ensures Tiles(map[lo := Hole(hi - lo)], lo, hi)
    ensures Spaced((map[])[lo := hi - lo], head)
  {
    var cs := map[lo := Hole(hi - lo)];
    assert GoodChunk(cs, lo, lo, hi) && AlignedAt(lo, cs[lo].size);
    SpacedOf(cs, lo, hi, head);
    assert FreeMap(cs) == (map[])[lo := hi - lo];
  }

  lemma EmptyFreeList(m: Ram, head: Word)
    requires IsNode(head) && m[head] == head && m[head + 4] == head
    ensures FreeList(m, head, [], map[])
  {
  }

  lemma WholeHeapOk(m: Ram, head: Word, lo: int, hi: int, fl: seq<Word>)
    requires Placed(head, lo, hi) && lo % 8 == 0 && hi % 8 == 0 && lo + MIN_CHUNK <= hi
    requires FreeList(m, head, fl, (map[])[lo := hi - lo]) && m[lo + 4] == hi - lo + 1
    ensures HeapOk(m, head, lo, hi, map[lo := Hole(hi - lo)], fl)
  {
    WholeHeapSpaced(head, lo, hi);
    assert FreeMap(map[lo := Hole(hi - lo)]) == (map[])[lo := hi - lo];
  }

  lemma PagesPlaced(start: Word, size: Word, head: Word)
    requires start % 0x1000 == 0 && size % 0x1000 == 0 && size > 0 && start > 0 && start + size < WORD_LIMIT
             && IsNode(head)
    requires head + 8 <= start || start + size + 8 <= head
    ensures Placed(head, start, start + size) && start + MIN_CHUNK <= start + size
    ensures start % 8 == 0 && (start + size) % 8 == 0 && (start + size) % 0x1000 == 0
  {
    PageAligned(start);
    PageSum(start, size);
    PageAligned(start + size);
    BelowLimit(start + size);
    AtLeastPage(size);
  }

  lemma AtLeastPage(size: int)
    requires size > 0 && size % 0x1000 == 0
    ensures size >= 0x1000
  {
  }

  class Heap {
    const head: Word
    const mem: ListMemory
    var startAddr: Word
    var endAddr: Word
    var maxAddr: Word
    ghost var chunks: Chunks
    ghost var fl: seq<Word>

    /** Memory, tiling and free list agree. */
    ghost predicate Consistent()
      reads this, mem
    {
      HeapOk(mem.ram, head, startAddr, endAddr, chunks, fl)
    }

    ghost predicate Valid()
      reads this, mem
    {
      && Consistent()
      && startAddr % 0x1000 == 0 && endAddr % 0x1000 == 0
      && (head + 8 <= startAddr || maxAddr + 8 <= head)
    }

    /** createHeap: one free chunk that spans the whole initial range. */
    constructor CreateHeap(memory: ListMemory, headAddr: Word, start: Word, size: Word, max: Word)
      requires start % 0x1000 == 0 && size % 0x1000 == 0 && size > 0 && start > 0
      requires start + size < WORD_LIMIT && IsNode(headAddr)
      requires headAddr + 8 <= start || (start + size + 8 <= headAddr && max + 8 <= headAddr)
      modifies memory
      ensures Valid() && mem == memory && head == headAddr
      ensures startAddr == start && endAddr == start + size && maxAddr == max
      ensures chunks == map[start := Hole(size)]
      ensures Outside(old(memory.ram), memory.ram, headAddr, start, start + size, false)
    {
      head, mem, startAddr, endAddr, maxAddr := headAddr, memory, start, start + size, max;
      chunks, fl := map[start := Hole(size)], [];
      new;
      hide Tiles, Headers, FreeList, Outside;
      PagesPlaced(start, size, headAddr);
      Format();
    }

    /** Lay out an empty heap as one free chunk. */
    method Format()
      requires Placed(head, startAddr, endAddr) && startAddr % 8 == 0 && endAddr % 8 == 0
      requires startAddr + MIN_CHUNK <= endAddr && fl == [] && chunks == map[startAddr := Hole(endAddr - startAddr)]
      modifies mem, this`fl
      ensures Consistent() && Outside(old(mem.ram), mem.ram, head, startAddr, endAddr, false)
    {
      hide Tiles, Headers, FreeMap, Spaced;
      mem.InitListHead(head);
      ghost var none: map<int, int> := map[];
      var size := endAddr - startAddr;
      mem.ram := mem.ram[startAddr := 0];
      mem.ram := mem.ram[startAddr + 4 := size + 1];
      EmptyFreeList(mem.ram, head);
      WholeHeapSpaced(head, startAddr, endAddr);
      HeaderNotALink(none[startAddr := size], head, startAddr);
      InsertChunk(startAddr, none, size);
      WholeHeapOk(mem.ram, head, startAddr, endAddr, fl);
    }

    /** A store to a word that is no link of the free list. */
    method SetWord(x: Word, v: Word, ghost fs: map<int, int>)
      requires FreeList(mem.ram, head, fl, fs) && !IsLink(x, head, fs)
      requires x - 4 in fs ==> SizeOf(v) == fs[x - 4]
      modifies mem
      ensures FreeList(mem.ram, head, fl, fs) && mem.ram == old(mem.ram)[x := v]
    {
      PokeKeepsFreeList(mem.ram, head, fl, fs, x, v);
      mem.ram := mem.ram[x := v];
    }

    /** The list walk shared by insertChunk and findSmallestChunk: the first link, at position k, whose
        chunk is at least `size` large, or the head. */
    method Scan(size: Word, ghost fs: map<int, int>) returns (iter: Word, ghost k: nat)
      requires FreeList(mem.ram, head, fl, fs)
      ensures k <= |fl| && iter == After([head] + fl, k) && (iter == head <==> k == |fl|)
      ensures k < |fl| ==> iter == fl[k]
      ensures SplitsAt(fl, fs, size, k)
    {
      ghost var d := [head] + fl;
      k := 0;
      assert After(d, 0) == mem.ram[head];
      iter := mem.ram[head];
      assert iter != head ==> 0 < |fl| && iter == fl[0] && ClearOf(head, Entry(fl[0]));
      while iter != head && SizeOf(mem.ram[iter - 4]) < size
        invariant k <= |fl| && iter == After(d, k)
        invariant iter != head ==> k < |fl| && iter == fl[k] && Entry(iter) in fs
        invariant iter != head ==> iter >= 8 && SizedAt(mem.ram, iter - 8, fs[Entry(iter)])
        invariant forall i :: 0 <= i < k ==> fs[Entry(fl[i])] < size
        decreases |fl| - k
      {
        k := k + 1;
        assert After(d, k) == mem.ram[iter];
        iter := mem.ram[iter];
        assert iter != head ==> iter == fl[k] && ClearOf(head, Entry(fl[k]));
      }
      assert k < |fl| ==> Apart(d[0], d[k + 1]);
      forall i | k < i < |fl|
        ensures size <= fs[Entry(fl[i])]
      {
        assert InOrder(fl, fs, k, i);
      }
    }

    /** insertChunk: in front of the first list entry that is at least as large. */
    method InsertChunk(chunk: Word, ghost fs: map<int, int>, ghost size: int)
      requires FreeList(mem.ram, head, fl, fs)
      requires chunk !in fs && Spaced(fs[chunk := size], head) && Sized(mem.ram, fs[chunk := size])
      modifies mem, this`fl
      ensures FreeList(mem.ram, head, fl, fs[chunk := size])
      ensures OnlyLinksChanged(old(mem.ram), mem.ram, head, fs[chunk := size])
    {
      assert chunk in fs[chunk := size] && SizedAt(mem.ram, chunk, size);
      var iter, k := Scan(SizeOf(mem.ram[chunk + 4]), fs);
      InsertKeepsFreeList(mem.ram, head, fl, fs, chunk, size, k);
      NewNodeApart(head, fl, fs, chunk, size);
      mem.ListAddTail(chunk + 8, iter, head, fl, k);
      fl := Inserted(fl, k, chunk + 8);
    }

    /** removeChunk */
    method RemoveChunk(chunk: Word, ghost fs: map<int, int>, ghost k: nat)
      requires FreeList(mem.ram, head, fl, fs) && k < |fl| && fl[k] == chunk + 8
      modifies mem, this`fl
      ensures FreeList(mem.ram, head, fl, fs - {chunk})
      ensures OnlyLinksChanged(old(mem.ram), mem.ram, head, fs)
    {
      RemoveKeepsFreeList(mem.ram, head, fl, fs, k);
      mem.ListDelEntry(chunk + 8, head, fl, k);
      fl := Removed(fl, k);
    }

    /** findSmallestChunk: first of the ascending list that is large enough. */
    method FindSmallestChunk(size: Word, ghost fs: map<int, int>) returns (hole: Word, ghost k: nat)
      requires FreeList(mem.ram, head, fl, fs)
      ensures hole == 0 ==> forall a :: a in fs ==> fs[a] < size
      ensures hole != 0 ==> hole in fs && fs[hole] >= size && k < |fl| && fl[k] == hole + 8
      ensures hole != 0 ==> forall i :: 0 <= i < k ==> Entry(fl[i]) in fs && fs[Entry(fl[i])] < size
      ensures hole != 0 ==> forall a :: a in fs && fs[a] >= size ==> fs[hole] <= fs[a]
    {
      var iter;
      iter, k := Scan(size, fs);
      forall a | a in fs
        ensures exists i :: 0 <= i < |fl| && fl[i] == a + 8 && Entry(fl[i]) == a
        ensures k < |fl| && fs[a] >= size ==> fs[Entry(fl[k])] <= fs[a]
      {
        assert OnList(fl, a);
        var i :| 0 <= i < |fl| && fl[i] == a + 8;
        assert k < i ==> InOrder(fl, fs, k, i);
      }
      assert iter != head ==> ClearOf(head, Entry(iter));
      hole := if iter == head then 0 else iter - 8;
    }

    /** set_inuse */
    method SetInUse(p: Word, size: Word, ghost fs: map<int, int>)
      requires FreeList(mem.ram, head, fl, fs) && size % 8 == 0 && p % 8 == 0 && size > 0
      requires p + size + 8 <= WORD_LIMIT
      requires !IsLink(p + 4, head, fs) && !IsLink(p + size + 4, head, fs) && p !in fs
      modifies mem
      ensures FreeList(mem.ram, head, fl, fs)
      ensures var m := old(mem.ram);
              mem.ram == m[p + 4 := MarkInUse(m[p + 4], size)][p + size + 4 := SetPrevInUse(m[p + size + 4])]
    {
      SetWord(p + 4, MarkInUse(mem.ram[p + 4], size), fs);
      var next := mem.ram[p + size + 4];
      assert p + size in fs ==> SizedAt(mem.ram, p + size, fs[p + size]);
      SetBitKeepsSize(next);
      SetWord(p + size + 4, SetPrevInUse(next), fs);
    }

    /** alloc */
    method Alloc(size: Word) returns (r: Outcome)
      requires Valid()
      modifies mem, this`fl, this`chunks, this`endAddr
      ensures Valid()
      ensures AllocSpec(old(chunks), old(fl), old(endAddr), chunks, endAddr, startAddr, maxAddr, size, r)
      ensures BlocksKept(old(chunks), chunks) && Granted(old(chunks), chunks, size, r, true)
      ensures !r.Done? ==> mem.ram == old(mem.ram)
      ensures PayloadsKept(old(mem.ram), mem.ram, old(chunks), chunks)
      ensures startAddr <= old(endAddr)
      ensures Outside(old(mem.ram), mem.ram, head, startAddr, endAddr,
                      WillEnd(old(chunks), old(fl), startAddr, old(endAddr), maxAddr, size))
      ensures EndsHeap(chunks, endAddr, r) <==>
                WillEnd(old(chunks), old(fl), startAddr, old(endAddr), maxAddr, size)
    {
      TilesOrder(chunks, startAddr, endAddr);
      if size + 11 >= WORD_LIMIT {
        return Escape;
      }
      var nb := RequestToSize(size);
      RequestFits(size);
      var e := ExpandTo(startAddr, endAddr, maxAddr, nb);
      if e.Grows? { ExpandRoom(startAddr, endAddr, maxAddr, nb); }
      ghost var cs, fl0, end := chunks, fl, endAddr;
      r := AllocChunk(nb, size, e);
      AllocGrants(cs, fl0, startAddr, end, chunks, endAddr, nb, size, e, r);
      AllocEndsExactly(cs, fl0, end, chunks, endAddr, startAddr, maxAddr, size, r);
    }

    /** alloc once the request is padded; e is what expand would do if no hole is found. */
    method AllocChunk(nb: Word, size: Word, e: Expansion) returns (r: Outcome)
      requires Valid() && nb % 8 == 0 && MIN_CHUNK <= nb && size <= nb - 4
      requires e.Grows? ==> Room(startAddr, endAddr, maxAddr, nb, e.newEnd)
      modifies mem, this`fl, this`chunks, this`endAddr
      ensures Valid()
      ensures AllocNb(old(chunks), old(fl), old(endAddr), chunks, endAddr, nb, size, e, r)
      ensures !r.Done? ==> mem.ram == old(mem.ram)
      ensures PayloadsKept(old(mem.ram), mem.ram, old(chunks), chunks)
      ensures Outside(old(mem.ram), mem.ram, head, startAddr, endAddr, EndsHeap(chunks, endAddr, r))
      decreases if exists a :: Fits(chunks, nb, a) then 0 else 1, 1
    {
      hide FreeList, Headers, Spaced, Grown, Take, PayloadsKept, Outside, Tiles, AllocNb, Fits;
      ghost var cs := chunks;
      Unchanged(mem.ram, head, startAddr, endAddr, chunks);
      var hole, k := FindSmallestChunk(nb, FreeMap(chunks));
      if hole == 0 {
        NoFit(cs, nb);
        AllocStops(cs, fl, endAddr, nb, size, e);
        match e {
          case Fails => return Panic;
          case Wraps => return Escape;
          case Grows(newEnd) =>
            r := AllocGrown(nb, size, newEnd);
        }
      } else {
        r := AllocHole(hole, k, nb, size, e);
      }
    }

    /** alloc when a hole was found. */
    method AllocHole(hole: Word, ghost k: nat, nb: Word, size: Word, ghost e: Expansion) returns (r: Outcome)
      requires Valid() && nb % 8 == 0 && MIN_CHUNK <= nb && size <= nb - 4
      requires hole in FreeMap(chunks) && FreeMap(chunks)[hole] >= nb && k < |fl| && fl[k] == hole + 8
      requires forall i :: 0 <= i < k ==> Entry(fl[i]) in FreeMap(chunks) && FreeMap(chunks)[Entry(fl[i])] < nb
      requires forall a ::
                 a in FreeMap(chunks) && FreeMap(chunks)[a] >= nb ==> FreeMap(chunks)[hole] <= FreeMap(chunks)[a]
      modifies mem, this`fl, this`chunks
      ensures Valid() && r.Done?
      ensures AllocNb(old(chunks), old(fl), endAddr, chunks, endAddr, nb, size, e, r)
      ensures PayloadsKept(old(mem.ram), mem.ram, old(chunks), chunks)
      ensures Outside(old(mem.ram), mem.ram, head, startAddr, endAddr, EndsHeap(chunks, endAddr, r))
    {
      ghost var cs, fl0 := chunks, fl;
      SmallestIsBestFit(cs, nb, hole);
      ListChoice(fl, cs, nb, k);
      hide FreeList, Headers, Spaced, Grown, Take, PayloadsKept, Outside, Tiles, AllocNb, FreeMap;
      TakeHole(hole, nb, size, k);
      r := Done(hole + 8);
      AllocTakes(cs, fl0, endAddr, nb, size, e, hole);
    }

    /** alloc when none was: grow, and call alloc again. */
    method AllocGrown(nb: Word, size: Word, newEnd: Word) returns (r: Outcome)
      requires Valid() && nb % 8 == 0 && MIN_CHUNK <= nb && size <= nb - 4 && !exists a :: Fits(chunks, nb, a)
      requires Room(startAddr, endAddr, maxAddr, nb, newEnd)
      modifies mem, this`fl, this`chunks, this`endAddr
      ensures Valid()
      ensures AllocNb(old(chunks), old(fl), old(endAddr), chunks, endAddr, nb, size, Grows(newEnd), r)
      ensures !r.Done? ==> mem.ram == old(mem.ram)
      ensures PayloadsKept(old(mem.ram), mem.ram, old(chunks), chunks)
      ensures Outside(old(mem.ram), mem.ram, head, startAddr, endAddr, EndsHeap(chunks, endAddr, r))
      decreases 1, 0
    {
      hide FreeList, Headers, Spaced, Grown, Take, PayloadsKept, Outside, Tiles, AllocNb, Fits;
      ghost var m, cs, fl0, end := mem.ram, chunks, fl, endAddr;
      Grow(newEnd);
      GrownFits(cs, startAddr, end, newEnd, nb);
      ghost var m1, cs1, fl1 := mem.ram, chunks, fl;
      r := AllocChunk(nb, size, Fails);
      AllocGrows(cs, fl0, end, fl1, newEnd, chunks, endAddr, nb, size, r);
      GrownKeepsUsed(cs, startAddr, end, newEnd);
      PayloadsKeptTwice(m, m1, mem.ram, cs, cs1, chunks);
      OutsideTwice(m, m1, mem.ram, head, startAddr, newEnd, false, EndsHeap(chunks, newEnd, r));
    }

    /** free.  The pointer must be one that alloc returned; the call escapes the model when the block
        touches the heap end or its previous-in-use bit is clear. */
    method Free(ptr: Word) returns (r: Outcome)
      requires Valid()
      requires startAddr <= ptr < endAddr ==> ptr - 8 in chunks
      modifies mem, this`fl, this`chunks
      ensures Valid()
      ensures FreeSpec(old(mem.ram), old(chunks), chunks, startAddr, endAddr, ptr, r)
      // The size is left at the hole's end too, as the next chunk's prevFoot.
      ensures r.Done? && ptr != 0 ==>
                && ptr - 8 in chunks && 0 <= ptr - 8 + chunks[ptr - 8].size < WORD_LIMIT
                && mem.ram[ptr - 8 + chunks[ptr - 8].size] == chunks[ptr - 8].size
      ensures !r.Done? ==> mem.ram == old(mem.ram)
      ensures PayloadsKept(old(mem.ram), mem.ram, old(chunks), chunks)
      ensures Outside(old(mem.ram), mem.ram, head, startAddr, endAddr, false)
    {
      TilesOrder(chunks, startAddr, endAddr);
      if ptr == 0 {
        return Done(0);
      }
      if !(startAddr <= ptr < endAddr) {
        return Panic;
      }
      ghost var cs := chunks;
      assert GoodChunk(cs, ptr - 8, startAddr, endAddr) && AlignedAt(ptr - 8, cs[ptr - 8].size);
      var header := mem.ram[ptr - 4];
      HeaderReads(header, cs[ptr - 8]);
      if header % 4 == 1 {
        return Panic;
      }
      var size: int := SizeOf(header);
      if !PrevInUse(header) || ptr - 8 + size >= endAddr {
        return Escape;
      }
      Release(ptr - 8, size);
      r := Done(ptr);
    }

    /** set_foot, set_size_and_pinuse and insertChunk on a block with a chunk after it. */
    method Release(block: Word, size: Word)
      requires Consistent() && block in chunks && chunks[block].Block? && size == chunks[block].size
      requires block + size < endAddr
      modifies mem, this`fl, this`chunks
      ensures Consistent() && chunks == old(chunks)[block := Hole(size)]
      ensures 0 <= block + size < WORD_LIMIT && mem.ram[block + size] == size
      ensures PayloadsKept(old(mem.ram), mem.ram, old(chunks), chunks)
      ensures Outside(old(mem.ram), mem.ram, head, startAddr, endAddr, false)
    {
      hide Tiles, Headers, FreeMap, FreeList, PayloadsKept, Outside;
      ghost var m, cs, fl0 := mem.ram, chunks, fl;
      ReleaseReady(m, head, startAddr, endAddr, cs, fl, block);
      SetWord(block + size, size, FreeMap(cs));
      AddTop(block, size, FreeMap(cs));
      chunks := cs[block := Hole(size)];
      ReleaseOk(m, mem.ram, head, startAddr, endAddr, cs, fl0, fl, block);
    }

    /** palignedAlloc: over-allocate, give back a lead chunk so that the payload starts a page, and give
        back what is left at the end.  `mid` is the tiling right after the inner alloc, `took` the chunk
        that alloc returned. */
    method PalignedAlloc(size: Word) returns (r: Outcome, ghost mid: Chunks, ghost took: Option<int>)
      requires Valid()
      modifies mem, this`fl, this`chunks, this`endAddr
      ensures Valid()
      ensures PalignedSpec(old(chunks), old(fl), old(endAddr), mid, chunks, startAddr, endAddr, maxAddr, size, r, took)
      ensures BlocksKept(old(chunks), chunks) && Granted(old(chunks), chunks, size, r, false)
      ensures PayloadsKept(old(mem.ram), mem.ram, old(chunks), chunks)
      ensures startAddr <= old(endAddr)
      ensures Outside(old(mem.ram), mem.ram, head, startAddr, endAddr,
                      PalignedEnds(old(chunks), old(fl), startAddr, old(endAddr), maxAddr, size))
      ensures r.Escape? <==> PalignedEscapes(old(chunks), old(fl), startAddr, old(endAddr), maxAddr, size)
    {
      TilesOrder(chunks, startAddr, endAddr);
      ghost var cs, fl0, end := chunks, fl, endAddr;
      Unchanged(mem.ram, head, startAddr, endAddr, chunks);
      mid, took := chunks, None;
      if size + 11 >= WORD_LIMIT {
        return Escape, mid, None;
      }
      var nb := RequestToSize(size);
      RequestFits(size);
      if nb + 0x1000 + 12 + 11 >= WORD_LIMIT {
        return Escape, mid, None;
      }
      r, mid, took := PalignedChunk(nb, size);
      PalignedExactly(cs, fl0, end, mid, chunks, startAddr, endAddr, maxAddr, size, r, took);
    }

    method PalignedChunk(nb: Word, size: Word) returns (r: Outcome, ghost mid: Chunks, ghost took: Option<int>)
      requires Valid() && nb % 8 == 0 && MIN_CHUNK <= nb && size <= nb - 4 && nb + 0x1000 + 12 + 11 < WORD_LIMIT
      modifies mem, this`fl, this`chunks, this`endAddr
      ensures Valid()
      ensures PalignedNb(old(chunks), old(fl), old(endAddr), mid, chunks, startAddr, endAddr, maxAddr, nb, size, r,
                         took)
      ensures BlocksKept(old(chunks), chunks) && Granted(old(chunks), chunks, size, r, false)
      ensures PayloadsKept(old(mem.ram), mem.ram, old(chunks), chunks)
      ensures Outside(old(mem.ram), mem.ram, head, startAddr, endAddr, TookEnd(mid, endAddr, took))
    {
      hide Tiles, Headers, FreeList, PayloadsKept, Outside, AllocSpec, CarveSpec;
      ghost var m0, cs0 := mem.ram, chunks;
      r := OverAllocate(nb);
      mid, took := chunks, None;
      if r.Done? {
        ghost var m1, a := mem.ram, r.ptr - 8;
        took := Some(a);
        r := Carve(r.ptr - 8, nb, size);
        CarveGrants(cs0, mid, startAddr, endAddr, a, nb, size, chunks, r);
        PayloadsKeptTwice(m0, m1, mem.ram, cs0, mid, chunks);
        ghost var ends := a + mid[a].size == endAddr;
        OutsideTwice(m0, m1, mem.ram, head, startAddr, endAddr, ends, ends);
      }
    }

    /** The inner alloc of palignedAlloc: a page and a minimal chunk more than needed. */
    method OverAllocate(nb: Word) returns (r: Outcome)
      requires Valid() && nb % 8 == 0 && MIN_CHUNK <= nb && nb + 0x1000 + 12 + 11 < WORD_LIMIT
      modifies mem, this`fl, this`chunks, this`endAddr
      ensures Valid()
      ensures AllocSpec(old(chunks), old(fl), old(endAddr), chunks, endAddr, startAddr, maxAddr, nb + 0x1000 + 12, r)
      ensures BlocksKept(old(chunks), chunks) && PayloadsKept(old(mem.ram), mem.ram, old(chunks), chunks)
      ensures Outside(old(mem.ram), mem.ram, head, startAddr, endAddr, EndsHeap(chunks, endAddr, r))
      ensures r.Done? ==> var a: int := r.ptr - 8;
                a >= 0 && a in chunks && chunks[a].Block? && chunks[a].size >= nb + 0x1010
                && (a in old(chunks) ==> old(chunks)[a].Hole?)
    {
      hide Tiles, Headers, FreeList, PayloadsKept, Outside, AllocSpec, RequestToSize;
      ghost var cs, fl0, end := chunks, fl, endAddr;
      PaddedSize(nb);
      r := Alloc(nb + 0x1000 + 12);
      if r.Done? {
        TakenSize(cs, fl0, end, chunks, endAddr, startAddr, maxAddr, nb + 0x1000 + 12, r);
        ChunkOf(chunks, startAddr, endAddr, r.ptr - 8);
      }
    }

    /** The carving half of palignedAlloc. */
    method Carve(chunk: Word, nb: Word, asked: Word) returns (r: Outcome)
      requires Valid() && chunk in chunks && chunks[chunk].Block? && chunks[chunk].size >= nb + 0x1010
      requires nb % 8 == 0 && MIN_CHUNK <= nb && asked <= nb - 4
      modifies mem, this`fl, this`chunks
      ensures Valid()
      ensures CarveSpec(old(chunks), chunk, nb, asked, endAddr, chunks, r)
      ensures PayloadsKept(old(mem.ram), mem.ram, old(chunks), chunks)
      ensures Outside(old(mem.ram), mem.ram, head, startAddr, endAddr, chunk + old(chunks)[chunk].size == endAddr)
    {
      hide FreeList, Headers, Spaced, PayloadsKept, CarvePos, TrimSpec, Outside, Tiles;
      ghost var m, cs := mem.ram, chunks;
      ChunkOf(chunks, startAddr, endAddr, chunk);
      CarveRoom(chunk, chunks[chunk].size, nb);
      var pos := CarvePos(chunk);
      CutLead(chunk, pos, nb, asked);
      ghost var m1, cs1 := mem.ram, chunks;
      r := Trim(pos, nb);
      if pos != chunk { TrimKeepsLead(cs1, pos, nb, endAddr, chunks, r, chunk); }
      CarvedKeeps(m, m1, mem.ram, cs, cs1, chunks, chunk, pos);
      ghost var ends := chunk + cs[chunk].size == endAddr;
      OutsideTwice(m, m1, mem.ram, head, startAddr, endAddr, pos != chunk && ends, cs1[pos].size > nb + MIN_CHUNK
        && ends);
    }

    /** Make the block start at `pos`, freeing what comes before it. */
    method CutLead(chunk: Word, pos: Word, nb: Word, asked: Word)
      requires Valid() && chunk in chunks && chunks[chunk].Block? && chunk <= pos
      requires pos == chunk || CutPoint(chunks, chunk, pos - chunk)
      requires asked <= nb - 4 && chunks[chunk].size - (pos - chunk) >= nb
      modifies mem, this`fl, this`chunks
      ensures Valid()
      ensures var size := chunk + old(chunks)[chunk].size - pos;
              chunks == if pos == chunk then old(chunks)[chunk := Block(size, asked, old(chunks)[chunk].tagged)]
                        else old(chunks)[chunk := Hole(pos - chunk)][pos := Block(size, asked, false)]
      ensures PayloadsKept(old(mem.ram), mem.ram, old(chunks), chunks)
      ensures pos == chunk ==> mem.ram == old(mem.ram)
      ensures Outside(old(mem.ram), mem.ram, head, startAddr, endAddr, pos != chunk
              && chunk + old(chunks)[chunk].size == endAddr)
      ensures BlocksKept(old(chunks) - {chunk}, chunks)
    {
      hide FreeList, Headers, Tiles, PayloadsKept, Outside;
      Unchanged(mem.ram, head, startAddr, endAddr, chunks);
      if pos != chunk {
        LeadReady(mem.ram, head, startAddr, endAddr, chunks, fl, chunk, pos, asked);
        CarveLead(chunk, pos, asked);
      } else {
        ChunkOf(chunks, startAddr, endAddr, chunk);
        RelabelKeeps(mem.ram, chunks, chunk, asked);
        ReplaceTiles(chunks, startAddr, endAddr, chunk, Block(chunks[chunk].size, asked, chunks[chunk].tagged));
        RelabelOk(mem.ram, head, startAddr, endAddr, chunks, fl, chunk, asked);
        chunks := chunks[chunk := Block(chunks[chunk].size, asked, chunks[chunk].tagged)];
      }
    }

    /** Give back the end of a block that is more than a minimal chunk too large. */
    method Trim(pos: Word, nb: Word) returns (r: Outcome)
      requires Valid() && pos in chunks && chunks[pos].Block? && chunks[pos].size >= nb && (pos + 8) % 0x1000 == 0
      requires nb % 8 == 0 && MIN_CHUNK <= nb && chunks[pos].asked <= nb - 4
      modifies mem, this`fl, this`chunks
      ensures Valid()
      ensures TrimSpec(old(chunks), pos, nb, endAddr, chunks, r)
      ensures PayloadsKept(old(mem.ram), mem.ram, old(chunks), chunks)
      ensures var size := old(chunks)[pos].size;
              Outside(old(mem.ram), mem.ram, head, startAddr, endAddr, size > nb + MIN_CHUNK && pos + size == endAddr)
    {
      hide FreeList, Tiles, PayloadsKept, Outside, SizeOf, InUse, PrevInUse;
      Unchanged(mem.ram, head, startAddr, endAddr, chunks);
      ChunkOf(chunks, startAddr, endAddr, pos);
      HeaderReads(mem.ram[pos + 4], chunks[pos]);
      var csize: int := SizeOf(mem.ram[pos + 4]);
      r := Done(pos + 8);
      if csize > nb + MIN_CHUNK {
        var freed := GiveBack(pos, nb);
        if !freed {
          r := Escape;
        }
      }
      ChunkOf(chunks, startAddr, endAddr, pos);
      HeaderReads(mem.ram[pos + 4], chunks[pos]);
      // The source's closing assertions.
      assert SizeOf(mem.ram[pos + 4]) >= nb && (pos + 8) % 0x1000 == 0 && InUse(mem.ram[pos + 4]);
    }

    /** Cut the block after nb bytes and free the second half, unless that half ends the heap. */
    method GiveBack(pos: Word, nb: Word) returns (freed: bool)
      requires Valid() && CutPoint(chunks, pos, nb) && 0 <= chunks[pos].asked <= nb - 4
      modifies mem, this`fl, this`chunks
      ensures Valid()
      ensures freed <==> pos + old(chunks)[pos].size != endAddr
      ensures var c := old(chunks)[pos];
              chunks == old(chunks)[pos := Block(nb, c.asked, c.tagged)]
                                   [pos + nb := if freed then Hole(c.size - nb) else Block(c.size - nb, 0, true)]
      ensures PayloadsKept(old(mem.ram), mem.ram, old(chunks), chunks)
      ensures Outside(old(mem.ram), mem.ram, head, startAddr, endAddr, pos + old(chunks)[pos].size == endAddr)
    {
      hide Tiles, Headers, FreeList, PayloadsKept, Outside, PrevInUse;
      ghost var m, cs := mem.ram, chunks;
      ChunkOf(cs, startAddr, endAddr, pos);
      InsideNoChunk(cs, startAddr, endAddr, pos, pos + nb);
      CarveTail(pos, nb);
      ghost var m1, cs1 := mem.ram, chunks;
      var f := Free(pos + nb + 8);
      freed := f.Done?;
      TrimKeeps(m, m1, mem.ram, cs, cs1, chunks, pos, nb);
      OutsideTwice(m, m1, mem.ram, head, startAddr, endAddr, pos + cs[pos].size == endAddr, false);
    }

    /** Cut a block at `pos`: the part before becomes a free lead chunk, the part after the block. */
    method CarveLead(chunk: Word, pos: Word, asked: Word)
      requires Consistent() && CutPoint(chunks, chunk, pos - chunk) && asked <= chunk + chunks[chunk].size - pos - 4
      modifies mem, this`fl, this`chunks
      ensures Consistent()
      ensures chunks == old(chunks)[chunk := Hole(pos - chunk)][pos := Block(chunk + old(chunks)[chunk].size - pos,
          asked, false)]
      ensures mem.ram[pos] == pos - chunk
      ensures PayloadsKept(old(mem.ram), mem.ram, old(chunks), chunks)
      ensures Outside(old(mem.ram), mem.ram, head, startAddr, endAddr, chunk + old(chunks)[chunk].size == endAddr)
    {
      hide Tiles, Headers, FreeMap, FreeList, PayloadsKept, Outside;
      ghost var m, cs, fl0 := mem.ram, chunks, fl;
      LeadReady(m, head, startAddr, endAddr, cs, fl, chunk, pos, asked);
      var size := SizeOf(mem.ram[chunk + 4]);
      SetInUse(pos, chunk + size - pos, FreeMap(cs));
      ghost var m1 := mem.ram;
      SetWord(pos, pos - chunk, FreeMap(cs));
      AddTop(chunk, pos - chunk, FreeMap(cs));
      chunks := cs[chunk := Hole(pos - chunk)][pos := Block(chunk + cs[chunk].size - pos, asked, false)];
      LeadOk(m, m1, mem.ram, head, startAddr, endAddr, cs, fl0, fl, chunk, pos, asked);
    }

    /** Cut a block after nb bytes into two blocks; the second one's previous-in-use bit is set. */
    method CarveTail(pos: Word, nb: Word)
      requires Consistent() && CutPoint(chunks, pos, nb) && 0 <= chunks[pos].asked <= nb - 4
      modifies mem, this`fl, this`chunks
      ensures Consistent()
      ensures var c := old(chunks)[pos];
              chunks == old(chunks)[pos := Block(nb, c.asked, c.tagged)][pos + nb := Block(c.size - nb, 0, true)]
      ensures 0 <= pos + nb + 4 < WORD_LIMIT && PrevInUse(mem.ram[pos + nb + 4])
      ensures PayloadsKept(old(mem.ram), mem.ram, old(chunks), chunks)
      ensures Outside(old(mem.ram), mem.ram, head, startAddr, endAddr, pos + old(chunks)[pos].size == endAddr)
    {
      hide Tiles, Headers, FreeMap, FreeList, PayloadsKept, Outside, MarkInUse, SetPrevInUse, PrevInUse, SizeOf;
      ghost var m, cs := mem.ram, chunks;
      TailReady(m, head, startAddr, endAddr, cs, fl, pos, nb);
      var size := SizeOf(mem.ram[pos + 4]);
      MarkReads(mem.ram[pos + 4], nb);
      SetInUse(pos, nb, FreeMap(cs));
      SetBitIsOdd(m[pos + nb + 4]);
      MarkReads(mem.ram[pos + nb + 4], size - nb);
      SetInUse(pos + nb, size - nb, FreeMap(cs));
      chunks := Halved(cs, pos, nb);
      TailOk(m, mem.ram, head, startAddr, endAddr, cs, fl, pos, nb);
    }

    /** The highest link on the free list, 0 if the list is empty. */
    method HighestLink(ghost fs: map<int, int>) returns (tmp: Word, ghost k: nat)
      requires FreeList(mem.ram, head, fl, fs)
      ensures tmp == 0 ==> fs == map[]
      ensures tmp != 0 ==> k < |fl| && fl[k] == tmp
      ensures forall a :: a in fs ==> a + 8 <= tmp
    {
      ghost var d, j: nat := [head] + fl, 0;
      tmp, k := 0, 0;
      assert After(d, 0) == mem.ram[head];
      var iter := mem.ram[head];
      while iter != head
        invariant j <= |fl| && iter == After(d, j)
        invariant tmp == 0 <==> j == 0
        invariant tmp != 0 ==> k < |fl| && fl[k] == tmp
        invariant forall i :: 0 <= i < j ==> fl[i] <= tmp
        decreases |fl| - j
      {
        assert j < |fl| && iter == fl[j] && IsNode(d[j + 1]);
        if iter > tmp {
          tmp, k := iter, j;
        }
        j := j + 1;
        assert After(d, j) == mem.ram[iter];
        iter := mem.ram[iter];
      }
      assert j < |fl| ==> Apart(d[0], d[j + 1]);
      forall a | a in fs
        ensures a + 8 <= tmp && tmp != 0
      {
        assert OnList(fl, a);
      }
    }

    /** Move the heap end, and give the new room to the free chunk at the old end or to a new chunk. */
    method Grow(newEnd: Word)
      requires Consistent() && Placed(head, startAddr, newEnd)
      requires endAddr % 8 == 0 && newEnd % 8 == 0 && newEnd >= endAddr + MIN_CHUNK
      modifies mem, this`fl, this`chunks, this`endAddr
      ensures Consistent() && endAddr == newEnd && chunks == Grown(old(chunks), old(endAddr), newEnd)
      ensures PayloadsKept(old(mem.ram), mem.ram, old(chunks), chunks)
      ensures Outside(old(mem.ram), mem.ram, head, startAddr, endAddr, false)
    {
      hide FreeList, Tiles, Headers, Spaced, PayloadsKept;
      ghost var m, cs, fs, fl0 := mem.ram, chunks, FreeMap(chunks), fl;
      var oldEnd := endAddr;
      endAddr := newEnd;
      var top, merge, k := FindTop(oldEnd);
      GrownFree(cs, startAddr, oldEnd, newEnd, top);
      GrownTiles(cs, startAddr, oldEnd, newEnd);
      SpacedOf(Grown(cs, oldEnd, newEnd), startAddr, newEnd, head);
      assert AlignedAt(top, Grown(cs, oldEnd, newEnd)[top].size);
      if merge {
        RemoveChunk(top, fs, k);
      } else {
        assert fs - {top} == fs;
      }
      assert 0 <= top <= newEnd;
      AddTop(top, newEnd - top, fs - {top});
      chunks := Grown(cs, oldEnd, newEnd);
      GrownOk(m, mem.ram, head, startAddr, oldEnd, newEnd, cs, fl0, fl, top);
    }

    /** Where the new room begins: at the highest free chunk if that one ends at the old heap end. */
    method FindTop(oldEnd: Word) returns (top: Word, merge: bool, ghost k: nat)
      requires HeapOk(mem.ram, head, startAddr, oldEnd, chunks, fl)
      ensures top <= oldEnd
      ensures merge ==> FreeTop(chunks, oldEnd, top) && k < |fl| && fl[k] == top + 8
      ensures !merge ==> top == oldEnd && !exists a :: FreeTop(chunks, oldEnd, a)
    {
      ghost var fs := FreeMap(chunks);
      var tmp;
      tmp, k := HighestLink(fs);
      top, merge := oldEnd, false;
      if tmp != 0 {
        ghost var a := Entry(fl[k]);
        assert a in fs && SizedAt(mem.ram, a, fs[a]) && ClearOf(head, a);
        var size: int := SizeOf(mem.ram[tmp - 4]);
        if tmp - 8 + size == oldEnd {
          top, merge := tmp - 8, true;
        } else {
          forall b | b in chunks && chunks[b].Hole?
            ensures b <= a
          {
            assert b in fs;
          }
          HighestDecides(chunks, startAddr, oldEnd, a);
        }
      } else {
        assert forall b :: FreeTop(chunks, oldEnd, b) ==> b in fs;
      }
    }

    /** set_size_and_pinuse on the top chunk, then insertChunk. */
    method AddTop(top: Word, size: Word, ghost fs: map<int, int>)
      requires FreeList(mem.ram, head, fl, fs) && top !in fs && Spaced(fs[top := size], head)
      requires size % 8 == 0 && size + 1 < WORD_LIMIT
      modifies mem, this`fl
      ensures FreeList(mem.ram, head, fl, fs[top := size])
      ensures 0 <= top + 4 < WORD_LIMIT && mem.ram[top + 4] == size + 1
      ensures forall x :: 0 <= x < WORD_LIMIT && !IsLink(x, head, fs[top := size]) && x != top + 4 ==>
              mem.ram[x] == old(mem.ram[x])
    {
      ghost var fs' := fs[top := size];
      assert top in fs' && ClearOf(head, top);
      HeaderNotALink(fs', head, top);
      SetWord(top + 4, size + 1, fs);
      assert Sized(mem.ram, fs') by {
        forall a | a in fs'
          ensures SizedAt(mem.ram, a, fs'[a])
        {
          assert a != top ==> SizedAt(mem.ram, a, fs[a]);
        }
      }
      InsertChunk(top, fs, size);
    }

    /** The part of alloc after a hole is found: unlink it, split off the rest, mark it used. */
    method TakeHole(hole: Word, nb: Word, asked: Word, ghost k: nat)
      requires Consistent() && k < |fl| && fl[k] == hole + 8 && Fits(chunks, nb, hole)
      requires nb % 8 == 0 && MIN_CHUNK <= nb && asked <= nb - 4
      modifies mem, this`fl, this`chunks
      ensures Consistent() && chunks == Take(old(chunks), hole, nb, asked) && hole in chunks
      ensures PayloadsKept(old(mem.ram), mem.ram, old(chunks), chunks)
      ensures Outside(old(mem.ram), mem.ram, head, startAddr, endAddr, hole + chunks[hole].size == endAddr)
    {
      hide FreeList, Tiles, Headers, Spaced, PayloadsKept, UnlinkFrame, Outside;
      ghost var m, cs, cs', fl0 := mem.ram, chunks, Take(chunks, hole, nb, asked), fl;
      TakeReady(m, head, startAddr, endAddr, cs, fl, hole, nb, asked);
      var size := UnlinkHole(hole, nb, FreeMap(cs), k);
      assert size == cs'[hole].size;
      ghost var m1 := mem.ram;
      SetInUse(hole, size, FreeMap(cs'));
      chunks := cs';
      TakeOk(m, m1, mem.ram, head, startAddr, endAddr, cs, fl0, fl, hole, nb, asked);
    }

    /** Take the hole off the free list and put the rest of it, if large enough, back on. */
    method UnlinkHole(hole: Word, nb: Word, ghost fs: map<int, int>, ghost k: nat) returns (size: Word)
      requires FreeList(mem.ram, head, fl, fs) && k < |fl| && fl[k] == hole + 8 && hole in fs && nb <= fs[hole]
      requires fs[hole] >= nb + MIN_CHUNK ==>
                 var rest := hole + nb;
                 && rest !in fs && !IsLink(rest + 4, head, fs) && (fs[hole] - nb) % 8 == 0
                 && Spaced((fs - {hole})[rest := fs[hole] - nb], head)
      modifies mem, this`fl
      ensures FreeList(mem.ram, head, fl, AfterUnlink(fs, hole, nb))
      ensures UnlinkFrame(old(mem.ram), mem.ram, head, fs, hole, nb)
      ensures size == if fs[hole] >= nb + MIN_CHUNK then nb else fs[hole]
    {
      HeaderNotALink(fs, head, hole);
      assert SizedAt(mem.ram, hole, fs[hole]);
      RemoveChunk(hole, fs, k);
      size := SizeOf(mem.ram[hole + 4]);
      if size >= nb + MIN_CHUNK {
        ghost var fs' := (fs - {hole})[hole + nb := fs[hole] - nb];
        assert hole + nb in fs' && ClearOf(head, hole + nb);
        HeaderNotALink(fs', head, hole + nb);
        SetWord(hole + nb + 4, size - nb, fs - {hole});
        assert Sized(mem.ram, fs') by {
          forall a | a in fs'
            ensures SizedAt(mem.ram, a, fs'[a])
          {
            assert a != hole + nb ==> SizedAt(mem.ram, a, (fs - {hole})[a]);
          }
        }
        InsertChunk(hole + nb, fs - {hole}, size - nb);
        size := nb;
      }
    }
  }

  /** What a call of alloc does to the tiling, and exactly when it panics or escapes the model. */
  ghost predicate AllocSpec(cs: Chunks, fl: seq<Word>, end: Word, cs': Chunks, end': Word, start: Word, max: Word,
                            size: Word, r: Outcome) {
    && start <= end
    && if size + 11 >= WORD_LIMIT then r.Escape? && cs' == cs && end' == end
       else
         var nb := RequestToSize(size);
         AllocNb(cs, fl, end, cs', end', nb, size, ExpandTo(start, end, max, nb), r)
  }

  /** The first chunk on the free list that is large enough. */
  function Choice(fl: seq<Word>, cs: Chunks, nb: int): (r: Option<int>)
    ensures r.Some? ==> Fits(cs, nb, r.value)
  {
    if fl == [] then None else if Fits(cs, nb, Entry(fl[0])) then Some(Entry(fl[0])) else Choice(fl[1..], cs, nb)
  }

  lemma {:induction false} ChoiceIs(fl: seq<Word>, cs: Chunks, nb: int, k: nat)
    requires k < |fl| && Fits(cs, nb, Entry(fl[k])) && forall i :: 0 <= i < k ==> !Fits(cs, nb, Entry(fl[i]))
    ensures Choice(fl, cs, nb) == Some(Entry(fl[k]))
  {
    if k > 0 { ChoiceIs(fl[1..], cs, nb, k - 1); }
  }

  /** alloc of a padded size nb: the first fit of the sorted list, which is a best fit, if there is one; otherwise one
      expansion and then the chunk that has the new room. */
  ghost predicate AllocNb(cs: Chunks, fl: seq<Word>, end: Word, cs': Chunks, end': Word, nb: Word, size: Word,
                          e: Expansion, r: Outcome) {
    var fit := exists a :: Fits(cs, nb, a);
    && (r.Escape? <==> !fit && e.Wraps?)
    && (r.Panic? <==> !fit && e.Fails?)
    && (!r.Done? ==> cs' == cs && end' == end)
    && (r.Done? && fit ==> end' == end && Choice(fl, cs, nb) == Some(r.ptr - 8) && Taken(cs, nb, size, r.ptr, cs'))
    && (r.Done? && !fit ==>
          end' == e.newEnd && r.ptr - 8 == Top(cs, end) && Taken(Grown(cs, end, end'), nb, size, r.ptr, cs'))
  }

  /** The new end is page aligned, within the maximum, and leaves nb more bytes. */
  ghost predicate Room(start: int, end: int, max: int, nb: int, newEnd: int) {
    && newEnd - end >= nb && newEnd % 0x1000 == 0 && newEnd % 8 == 0 && end % 8 == 0
    && newEnd + 8 <= WORD_LIMIT && newEnd <= max
  }

  /** Every live block stays live, at its place and size. */
  ghost predicate BlocksKept(cs: Chunks, cs': Chunks) {
    forall b :: b in cs && cs[b].Block? ==> b in cs' && cs'[b] == cs[b]
  }

  /** The pointer returned is a new live block that remembers the request; `sure` if it is also known to have its
      previous-in-use bit, so that free will take it. */
  ghost predicate Granted(cs: Chunks, cs': Chunks, size: int, r: Outcome, sure: bool) {
    r.Done? ==> var a: int := r.ptr - 8;
      a in cs' && cs'[a].Block? && cs'[a].asked == size && (sure ==> cs'[a].tagged) && (a in cs ==> cs[a].Hole?)
  }

  /** The block handed out is the last chunk of the heap. */
  ghost predicate EndsHeap(cs: Chunks, end: int, r: Outcome) {
    r.Done? && r.ptr - 8 in cs && r.ptr - 8 + cs[r.ptr - 8].size == end
  }

  lemma AllocGrants(cs: Chunks, fl: seq<Word>, lo: Word, end: Word, cs': Chunks, end': Word, nb: Word, size: Word,
                    e: Expansion, r: Outcome)
    requires Tiles(cs, lo, end) && AllocNb(cs, fl, end, cs', end', nb, size, e, r) && nb >= MIN_CHUNK
    requires e.Grows? ==> end % 8 == 0 && e.newEnd % 8 == 0 && e.newEnd >= end + MIN_CHUNK
    ensures BlocksKept(cs, cs') && Granted(cs, cs', size, r, true)
  {
    if r.Done? {
      AllocSource(cs, fl, end, cs', end', nb, size, e, r);
      hide Grown, Tiles, Take, Fits, Top, AllocNb, BestFit;
      if Fits(cs, nb, r.ptr - 8) && cs' == Take(cs, r.ptr - 8, nb, size) {
        TakeKeepsBlocks(cs, lo, end, r.ptr - 8, nb, size);
      } else {
        GrownKeepsUsed(cs, lo, end, end');
        GrownTiles(cs, lo, end, end');
        TakeKeepsBlocks(Grown(cs, end, end'), lo, end', r.ptr - 8, nb, size);
        GrantedEarlier(cs, Grown(cs, end, end'), cs', size, r);
      }
    }
  }

  /** What alloc hands out comes from the tiling as it was or as it grew. */
  lemma AllocSource(cs: Chunks, fl: seq<Word>, end: Word, cs': Chunks, end': Word, nb: Word, size: Word, e: Expansion,
                    r: Outcome)
    requires AllocNb(cs, fl, end, cs', end', nb, size, e, r) && r.Done?
    ensures var a := r.ptr - 8; var grown := Grown(cs, end, end');
            || (Fits(cs, nb, a) && cs' == Take(cs, a, nb, size))
            || (e.Grows? && end' == e.newEnd && Fits(grown, nb, a) && cs' == Take(grown, a, nb, size))
  {
    hide Grown, Take, Top;
  }

  lemma GrantedEarlier(cs: Chunks, cs1: Chunks, cs': Chunks, size: int, r: Outcome)
    requires BlocksKept(cs, cs1) && BlocksKept(cs1, cs') && Granted(cs1, cs', size, r, true)
    ensures BlocksKept(cs, cs') && Granted(cs, cs', size, r, true)
  {
  }

  lemma TakeKeepsBlocks(cs: Chunks, lo: int, hi: int, a: int, nb: int, asked: int)
    requires Tiles(cs, lo, hi) && Fits(cs, nb, a) && nb >= MIN_CHUNK
    ensures BlocksKept(cs, Take(cs, a, nb, asked))
    ensures 0 <= a + 8 < WORD_LIMIT ==> Granted(cs, Take(cs, a, nb, asked), asked, Done(a + 8), true)
  {
    forall b | b in cs && cs[b].Block?
      ensures b in Take(cs, a, nb, asked) && Take(cs, a, nb, asked)[b] == cs[b]
    {
      assert a < b ==> a + cs[a].size <= b;
    }
  }

  /** cs' gives the owner a best-fitting free chunk of cs. */
  ghost predicate Taken(cs: Chunks, nb: int, size: int, ptr: int, cs': Chunks) {
    BestFit(cs, nb, ptr - 8) && cs' == Take(cs, ptr - 8, nb, size)
  }

  /** What a call of free does, and exactly when it panics or escapes the model. */
  ghost predicate FreeSpec(m: Ram, cs: Chunks, cs': Chunks, start: Word, end: Word, ptr: Word, r: Outcome) {
    var inside := start <= ptr < end;
    && (inside ==> 4 <= ptr && ptr - 8 in cs)
    && (inside && cs[ptr - 8].Block? && cs[ptr - 8].tagged ==> PrevInUse(m[ptr - 4]))
    && (r.Panic? <==> ptr != 0 && (!inside || cs[ptr - 8].Hole?))
    && (r.Escape? <==> ptr != 0 && inside && cs[ptr - 8].Block?
                       && (!PrevInUse(m[ptr - 4]) || ptr - 8 + cs[ptr - 8].size == end))
    && (cs' == if r.Done? && ptr != 0 then cs[ptr - 8 := Hole(cs[ptr - 8].size)] else cs)
  }

  /** A tagged block with a chunk after it is always freed. */
  lemma TaggedIsFreed(m: Ram, cs: Chunks, cs': Chunks, start: Word, end: Word, ptr: Word, r: Outcome)
    requires FreeSpec(m, cs, cs', start, end, ptr, r) && start <= ptr < end && cs[ptr - 8].Block? && cs[ptr - 8].tagged
    ensures r.Done? <==> ptr == 0 || ptr - 8 + cs[ptr - 8].size != end
    ensures !r.Panic?
  {
  }

  /** Known before the call: alloc will hand out the last chunk of the heap, whole.  The chunk it will choose ends the
      heap, or none fits and the grown heap's last chunk is too small to split. */
  ghost predicate WillEnd(cs: Chunks, fl: seq<Word>, start: Word, end: Word, max: Word, size: Word)
    requires start <= end
  {
    && size + 11 < WORD_LIMIT
    && var nb := RequestToSize(size);
       match Choice(fl, cs, nb)
       case Some(a) => a + cs[a].size == end && cs[a].size < nb + MIN_CHUNK
       case None =>
         var e := ExpandTo(start, end, max, nb);
         e.Grows? && e.newEnd - Top(cs, end) < nb + MIN_CHUNK
  }

  lemma AllocEndsExactly(cs: Chunks, fl: seq<Word>, end: Word, cs': Chunks, end': Word, start: Word, max: Word,
                         size: Word, r: Outcome)
    requires Tiles(cs, start, end) && AllocSpec(cs, fl, end, cs', end', start, max, size, r)
    ensures EndsHeap(cs', end', r) <==> WillEnd(cs, fl, start, end, max, size)
  {
    hide Tiles, Top, BestFit, ExpandTo, RequestToSize;
    RequestFits(size);
    var nb := RequestToSize(size);
    var c := Choice(fl, cs, nb);
    if size + 11 < WORD_LIMIT && r.Done? && c.Some? { ChunkOf(cs, start, end, c.value); }
  }

  /** The word past the heap end changes exactly when alloc is bound to hand out the last chunk whole and the bit there
      was clear. */
  lemma EndWordChanges(m: Ram, m': Ram, head: Word, cs: Chunks, fl: seq<Word>, end: Word, cs': Chunks, end': Word,
                       start: Word, max: Word, size: Word, r: Outcome)
    requires Tiles(cs, start, end) && AllocSpec(cs, fl, end, cs', end', start, max, size, r)
    requires Outside(m, m', head, start, end', EndsHeap(cs', end', r))
    ensures m'[end' + 4] != m[end' + 4] <==> WillEnd(cs, fl, start, end, max, size) && !PrevInUse(m[end' + 4])
  {
    hide Tiles, AllocSpec, EndsHeap, WillEnd;
    AllocEndsExactly(cs, fl, end, cs', end', start, max, size, r);
    SetBitIsOdd(m[end' + 4]);
  }

  /** It happens: 4092 bytes from a fresh heap of one page take its only chunk, and the word past its end changes. */
  lemma EndWordExample(m: Ram, m': Ram, head: Word, cs': Chunks, end': Word, r: Outcome)
    requires AllocSpec(map[0x10_0000 := Hole(0x1000)], [0x10_0008], 0x10_1000, cs', end', 0x10_0000, 0x20_0000, 4092, r)
    requires Outside(m, m', head, 0x10_0000, end', EndsHeap(cs', end', r)) && m[0x10_1004] == 0
    ensures r == Done(0x10_0008) && end' == 0x10_1000 && m'[0x10_1004] == 1
    ensures WillEnd(map[0x10_0000 := Hole(0x1000)], [0x10_0008], 0x10_0000, 0x10_1000, 0x20_0000, 4092)
  {
    var cs: Chunks := map[0x10_0000 := Hole(0x1000)];
    assert RequestToSize(4092) == 0x1000;
    assert Fits(cs, 0x1000, 0x10_0000);
  }

  lemma HeaderReads(w: Word, c: Chunk)
    requires HeaderOk(w, c) && c.size % 8 == 0
    ensures SizeOf(w) == c.size && (w % 4 == 1 <==> c.Hole?) && (PrevInUse(w) <==> w != c.size + 2)
            && (InUse(w) <==> c.Block?)
  {
    FlagBits(c.size / 8, w - c.size);
  }

  lemma SetBitKeepsSize(w: Word)
    ensures SizeOf(SetPrevInUse(w)) == SizeOf(w)
  {
    var q, k := w / 8, w % 8;
    assert w == 8 * q + k;
    FlagBits(q, k);
    if k % 2 == 0 { FlagBits(q, k + 1); }
  }

  lemma SetBitIsOdd(w: Word)
    ensures PrevInUse(SetPrevInUse(w))
  {
  }

  lemma MarkReads(w: Word, size: Word)
    requires size % 8 == 0
    ensures MarkInUse(w, size) == if PrevInUse(w) then size + 3 else size + 2
    ensures PrevInUse(MarkInUse(w, size)) <==> PrevInUse(w)
  {
    FlagBits(size / 8, if PrevInUse(w) then 3 else 2);
  }

  lemma FlagBits(q: int, k: int)
    requires 0 <= k < 8
    ensures (8 * q + k) % 8 == k && (8 * q + k) % 4 == k % 4 && (8 * q + k) % 2 == k % 2
    ensures (8 * q + k) / 2 % 2 == k / 2 % 2
  {
    LowThree(q, k);
    LowTwo(q, k);
    SecondBit(q, k);
  }

  lemma LowThree(q: int, k: int)
    requires 0 <= k < 8
    ensures (8 * q + k) % 8 == k
  {
  }

  lemma LowTwo(q: int, k: int)
    requires 0 <= k < 8
    ensures (8 * q + k) % 4 == k % 4
  {
    if k < 4 { Quarters(2 * q, k); } else { Quarters(2 * q + 1, k - 4); }
  }

  lemma Quarters(n: int, r: int)
    requires 0 <= r < 4
    ensures (4 * n + r) % 4 == r
  {
  }

  lemma SecondBit(q: int, k: int)
    requires 0 <= k < 8
    ensures (8 * q + k) % 2 == k % 2 && (8 * q + k) / 2 % 2 == k / 2 % 2
  {
    var j, b := k / 2, k % 2;
    var i, c := j / 2, j % 2;
    assert 8 * q + k == 2 * (4 * q + j) + b && 4 * q + j == 2 * (2 * q + i) + c;
    Halves(4 * q + j, b);
    Halves(2 * q + i, c);
  }

  lemma Halves(n: int, bit: int)
    requires 0 <= bit < 2
    ensures (2 * n + bit) / 2 == n && (2 * n + bit) % 2 == bit
  {
  }

  /** The foot word after a block is no chunk's header. */
  lemma FootNotHeader(cs: Chunks, lo: int, hi: int, a: int)
    requires Tiles(cs, lo, hi) && a in cs
    ensures a + cs[a].size - 4 !in cs
  {
    assert GoodChunk(cs, a, lo, hi);
    assert a < a + cs[a].size - 4;
  }

  lemma ReleaseReady(m: Ram, head: Word, lo: int, hi: int, cs: Chunks, fl: seq<Word>, a: int)
    requires HeapOk(m, head, lo, hi, cs, fl) && a in cs && cs[a].Block?
    ensures var cs' := cs[a := Hole(cs[a].size)];
            && Tiles(cs', lo, hi)
            && FreeMap(cs') == FreeMap(cs)[a := cs[a].size]
            && Spaced(FreeMap(cs'), head)
            && cs[a].size >= MIN_CHUNK && cs[a].size % 8 == 0 && a + cs[a].size <= hi < WORD_LIMIT - 1 && lo <= a
            && !IsLink(a + cs[a].size, head, FreeMap(cs))
            && a + cs[a].size - 4 !in cs && a + cs[a].size - 4 !in FreeMap(cs) && a !in FreeMap(cs)
  {
    assert GoodChunk(cs, a, lo, hi) && AlignedAt(a, cs[a].size);
    ReplaceTiles(cs, lo, hi, a, Hole(cs[a].size));
    SpacedOf(cs[a := Hole(cs[a].size)], lo, hi, head);
    assert InPayload(cs, a, a + cs[a].size);
    NotALink(cs, lo, hi, head, a + cs[a].size);
    FootNotHeader(cs, lo, hi, a);
  }

  lemma ReleaseOk(m: Ram, m': Ram, head: Word, lo: int, hi: int, cs: Chunks, fl: seq<Word>, fl': seq<Word>, a: int)
    requires HeapOk(m, head, lo, hi, cs, fl) && a in cs && cs[a].Block? && a + cs[a].size < hi
    requires FreeList(m', head, fl', FreeMap(cs)[a := cs[a].size])
    requires 0 <= a + 4 < WORD_LIMIT && m'[a + 4] == cs[a].size + 1
    requires forall x :: (0 <= x < WORD_LIMIT && !IsLink(x, head, FreeMap(cs)[a := cs[a].size])
                          && x != a + 4 && x != a + cs[a].size) ==> m'[x] == m[x]
    ensures HeapOk(m', head, lo, hi, cs[a := Hole(cs[a].size)], fl')
    ensures PayloadsKept(m, m', cs, cs[a := Hole(cs[a].size)]) && Outside(m, m', head, lo, hi, false)
  {
    hide FreeList, Headers, Spaced, FreeMap, PayloadsKept, NotLive, Outside, IsLink;
    var cs' := cs[a := Hole(cs[a].size)];
    var touched := {a, a + cs[a].size - 4};
    ReleaseReady(m, head, lo, hi, cs, fl, a);
    assert Edited(m, m', head, cs, cs', touched);
    assert Accounted(m', cs, cs', touched);
    hide Edited, Accounted;
    ReleaseNotLive(cs, lo, hi, a);
    EditedOk(m, m', head, lo, hi, hi, cs, fl, cs', fl', touched);
    assert GoodChunk(cs, a, lo, hi);
    EditedOutside(m, m', head, lo, hi, hi, cs, cs', touched);
  }

  lemma ReleaseNotLive(cs: Chunks, lo: int, hi: int, a: int)
    requires Tiles(cs, lo, hi) && a in cs && cs[a].Block?
    ensures var cs' := cs[a := Hole(cs[a].size)];
            NotLive(cs, cs', a + 4) && NotLive(cs, cs', a + cs[a].size - 4 + 4)
  {
    var cs' := cs[a := Hole(cs[a].size)];
    var x := a + cs[a].size;
    assert GoodChunk(cs, a, lo, hi);
    ReplaceTiles(cs, lo, hi, a, Hole(cs[a].size));
    HeaderNotLive(cs, cs', lo, hi, a);
    forall b
      ensures !(InPayload(cs, b, x) && InPayload(cs', b, x))
    {
      assert b in cs ==> GoodChunk(cs, b, lo, hi);
    }
  }

  lemma NoFit(cs: Chunks, nb: int)
    requires forall a :: a in FreeMap(cs) ==> FreeMap(cs)[a] < nb
    ensures !exists a :: Fits(cs, nb, a)
  {
    forall a | a in cs && cs[a].Hole?
      ensures cs[a].size < nb
    {
      assert a in FreeMap(cs);
    }
  }

  lemma AllocStops(cs: Chunks, fl: seq<Word>, end: Word, nb: Word, size: Word, e: Expansion)
    requires !exists a :: Fits(cs, nb, a)
    ensures e.Fails? ==> AllocNb(cs, fl, end, cs, end, nb, size, e, Panic)
    ensures e.Wraps? ==> AllocNb(cs, fl, end, cs, end, nb, size, e, Escape)
  {
  }

  lemma AllocTakes(cs: Chunks, fl: seq<Word>, end: Word, nb: Word, size: Word, e: Expansion, hole: Word)
    requires BestFit(cs, nb, hole) && Choice(fl, cs, nb) == Some(hole) && hole + 8 < WORD_LIMIT
    ensures AllocNb(cs, fl, end, Take(cs, hole, nb, size), end, nb, size, e, Done(hole + 8))
  {
    hide Take;
  }

  lemma AllocGrows(cs: Chunks, fl: seq<Word>, end: Word, fl1: seq<Word>, newEnd: Word, cs': Chunks, end': Word,
                   nb: Word, size: Word, r: Outcome)
    requires !(exists b :: Fits(cs, nb, b)) && exists b :: Fits(Grown(cs, end, newEnd), nb, b)
    requires AllocNb(Grown(cs, end, newEnd), fl1, newEnd, cs', end', nb, size, Fails, r)
    ensures r.Done? && end' == newEnd && AllocNb(cs, fl, end, cs', end', nb, size, Grows(newEnd), r)
  {
    OnlyTopFits(cs, end, newEnd, nb, r.ptr - 8);
  }

  lemma ListChoice(fl: seq<Word>, cs: Chunks, nb: int, k: nat)
    requires k < |fl| && Fits(cs, nb, Entry(fl[k]))
    requires forall i :: 0 <= i < k ==> Entry(fl[i]) in FreeMap(cs) && FreeMap(cs)[Entry(fl[i])] < nb
    ensures Choice(fl, cs, nb) == Some(Entry(fl[k]))
  {
    ChoiceIs(fl, cs, nb, k);
  }

  lemma OnlyTopFits(cs: Chunks, end: int, newEnd: int, nb: int, a: int)
    requires !(exists b :: Fits(cs, nb, b)) && Fits(Grown(cs, end, newEnd), nb, a)
    ensures a == Top(cs, end)
  {
    assert !Fits(cs, nb, a);
  }

  lemma SmallestIsBestFit(cs: Chunks, nb: int, hole: int)
    requires hole in FreeMap(cs) && FreeMap(cs)[hole] >= nb
    requires forall a :: a in FreeMap(cs) && FreeMap(cs)[a] >= nb ==> FreeMap(cs)[hole] <= FreeMap(cs)[a]
    ensures BestFit(cs, nb, hole)
  {
    forall b | Fits(cs, nb, b)
      ensures cs[hole].size <= cs[b].size
    {
      assert b in FreeMap(cs);
    }
  }

  lemma TilesOrder(cs: Chunks, lo: int, hi: int)
    requires Tiles(cs, lo, hi)
    ensures lo + MIN_CHUNK <= hi
  {
    assert GoodChunk(cs, lo, lo, hi);
  }

  /** One expansion makes room: the grown heap has a free chunk of at least nb bytes. */
  lemma GrownFits(cs: Chunks, lo: int, end: int, newEnd: int, nb: int)
    requires Tiles(cs, lo, end) && newEnd - end >= nb
    ensures exists a :: Fits(Grown(cs, end, newEnd), nb, a)
  {
    if a :| FreeTop(cs, end, a) {
      GrownIs(cs, lo, end, newEnd, a);
      assert GoodChunk(cs, a, lo, end);
      assert Fits(Grown(cs, end, newEnd), nb, a);
    } else {
      assert Fits(Grown(cs, end, newEnd), nb, end);
    }
  }

  lemma GrownKeepsUsed(cs: Chunks, lo: int, end: int, newEnd: int)
    requires Tiles(cs, lo, end)
    ensures forall b :: b in cs && cs[b].Block? ==> b in Grown(cs, end, newEnd) && Grown(cs, end, newEnd)[b] == cs[b]
  {
    if a :| FreeTop(cs, end, a) {
      GrownIs(cs, lo, end, newEnd, a);
    } else {
      assert end in cs ==> GoodChunk(cs, end, lo, end);
    }
  }

  lemma PayloadsKeptTwice(m: Ram, m1: Ram, m2: Ram, cs: Chunks, cs1: Chunks, cs2: Chunks)
    requires PayloadsKept(m, m1, cs, cs1) && PayloadsKept(m1, m2, cs1, cs2)
    requires forall b :: b in cs && cs[b].Block? ==> b in cs1 && cs1[b] == cs[b]
    ensures PayloadsKept(m, m2, cs, cs2)
  {
    forall b, x | PayloadWord(cs, b, x) && PayloadWord(cs2, b, x) && 0 <= x < WORD_LIMIT
      ensures m2[x] == m[x]
    {
      assert PayloadWord(cs1, b, x);
    }
  }

  // ----- Page-aligned carving -----

  /** Where the page-aligned block starts inside an over-allocated chunk. */
  function CarvePos(chunk: int): int {
    if (chunk + 8) % 0x1000 == 0 then chunk
    else
      var br := ((chunk + 8) / 0x1000 + 1) * 0x1000 - 8;
      if br - chunk >= MIN_CHUNK then br else br + 0x1000
  }

  /** The over-allocation always leaves room: a page-aligned payload, a lead chunk that can stand alone,
      and at least nb bytes after it. */
  lemma CarveRoom(chunk: int, csize: int, nb: int)
    requires chunk % 8 == 0 && csize % 8 == 0 && nb % 8 == 0 && csize >= nb + 0x1010
    ensures var pos := CarvePos(chunk);
            && (pos + 8) % 0x1000 == 0 && pos % 8 == 0 && (pos - chunk) % 8 == 0
            && (pos == chunk || pos - chunk >= MIN_CHUNK)
            && chunk <= pos <= chunk + 0x1008
            && csize - (pos - chunk) >= nb + 8
  {
    var q := (chunk + 8) / 0x1000;
    var k := chunk / 8 + 1 - 512 * q;
    CarveOffset(chunk, q, k);
    var pos := CarvePos(chunk);
    PageLessEight(pos);
    if k != 0 {
      if pos - chunk == 8 * (512 - k) { Multiples(512 - k); } else { Multiples(1024 - k); }
    }
  }

  /** It is the first place that will do. */
  lemma CarveLeast(chunk: int, p: int)
    requires chunk <= p && (p + 8) % 0x1000 == 0 && (p == chunk || p - chunk >= 16)
    ensures CarvePos(chunk) <= p
  {
    var q, j := (chunk + 8) / 0x1000, (p + 8) / 0x1000;
    assert p + 8 == 0x1000 * j && chunk + 8 == 0x1000 * q + (chunk + 8) % 0x1000;
  }

  /** With chunk + 8 = 4096 q + 8 k, the block starts 8 bytes before one of the next two pages. */
  lemma CarveOffset(chunk: int, q: int, k: int)
    requires chunk % 8 == 0 && q == (chunk + 8) / 0x1000 && k == chunk / 8 + 1 - 512 * q
    ensures 0 <= k < 512 && chunk == 0x1000 * q + 8 * k - 8
    ensures k == 0 ==> CarvePos(chunk) == chunk
    ensures 0 < k < 511 ==> CarvePos(chunk) == 0x1000 * (q + 1) - 8
    ensures k == 511 ==> CarvePos(chunk) == 0x1000 * (q + 2) - 8
    ensures (CarvePos(chunk) + 8) % 0x1000 == 0
  {
    assert chunk == 8 * (chunk / 8);
    var pos := CarvePos(chunk);
    if k == 511 { WholePage(q + 2); } else if k != 0 { WholePage(q + 1); }
  }

  lemma PageLessEight(pos: int)
    requires (pos + 8) % 0x1000 == 0
    ensures pos % 8 == 0
  {
    var k := (pos + 8) / 0x1000;
    assert pos + 8 == 0x1000 * k;
    Multiples(512 * k - 1);
  }

  lemma PaddedSize(nb: Word)
    requires nb % 8 == 0 && nb + 0x1000 + 12 + 11 < WORD_LIMIT
    ensures RequestToSize(nb + 0x1000 + 12) == nb + 0x1010
  {
    assert nb + 0x1000 + 12 + 11 == 8 * (nb / 8 + 514) + 7;
  }

  /** The chunk a successful alloc hands out. */
  lemma TakenSize(cs: Chunks, fl: seq<Word>, end: Word, cs': Chunks, end': Word, start: Word, max: Word, size: Word,
                  r: Outcome)
    requires AllocSpec(cs, fl, end, cs', end', start, max, size, r) && r.Done? && size + 11 < WORD_LIMIT
    ensures var a: int := r.ptr - 8;
            a in cs' && cs'[a].Block? && cs'[a].size >= RequestToSize(size) && cs'[a].asked == size
  {
  }

  /** A block that can be cut in two after n bytes. */
  ghost predicate CutPoint(cs: Chunks, a: int, n: int) {
    a in cs && cs[a].Block? && n % 8 == 0 && MIN_CHUNK <= n <= cs[a].size - MIN_CHUNK
  }

  /** The tiling after a block is trimmed to nb bytes; the rest is free unless it ends the heap. */
  function Trimmed(cs: Chunks, pos: int, nb: int, end: int): Chunks
    requires pos in cs && cs[pos].Block?
  {
    var size := cs[pos].size;
    if size > nb + MIN_CHUNK then
      cs[pos := Block(nb, cs[pos].asked, cs[pos].tagged)]
        [pos + nb := if pos + size == end then Block(size - nb, 0, true) else Hole(size - nb)]
    else cs
  }

  /** Trimming succeeds with a page-aligned block of nb to nb + 16 bytes, and escapes the model exactly when
      there is a rest to free and it ends the heap. */
  ghost predicate TrimSpec(cs: Chunks, pos: int, nb: int, end: int, cs': Chunks, r: Outcome) {
    && pos in cs && cs[pos].Block? && 0 <= pos + 8 < WORD_LIMIT
    && cs' == Trimmed(cs, pos, nb, end)
    && (pos + 8) % 0x1000 == 0 && cs'[pos].Block? && nb <= cs'[pos].size <= nb + 16
    && cs'[pos].asked == cs[pos].asked && cs'[pos].tagged == cs[pos].tagged
    && r == (if cs[pos].size > nb + MIN_CHUNK && pos + cs[pos].size == end then Escape else Done(pos + 8))
  }

  /** The tiling after the lead is cut off: a free chunk and a block, or the relabelled block alone. */
  function Led(cs: Chunks, chunk: int, asked: int): Chunks
    requires chunk in cs && cs[chunk].Block?
  {
    var pos := CarvePos(chunk);
    var size := chunk + cs[chunk].size - pos;
    if pos == chunk then cs[chunk := Block(size, asked, cs[chunk].tagged)]
    else cs[chunk := Hole(pos - chunk)][pos := Block(size, asked, false)]
  }

  /** Lead, block and rest tile the chunk: the lead and the trimming compose. */
  ghost predicate CarveSpec(cs: Chunks, chunk: int, nb: int, asked: int, end: int, cs': Chunks, r: Outcome) {
    && chunk in cs && cs[chunk].Block?
    && (CarvePos(chunk) == chunk || CarvePos(chunk) - chunk >= MIN_CHUNK)
    && CarvePos(chunk) + nb <= chunk + cs[chunk].size
    && TrimSpec(Led(cs, chunk, asked), CarvePos(chunk), nb, end, cs', r)
  }

  /** The inner alloc took the last chunk of the heap. */
  ghost predicate TookEnd(mid: Chunks, end: int, took: Option<int>) {
    took.Some? && took.value in mid && took.value + mid[took.value].size == end
  }

  /** The whole call: the inner alloc, then the carve of the chunk it took. */
  ghost predicate PalignedSpec(cs: Chunks, fl: seq<Word>, end: Word, mid: Chunks, cs': Chunks, start: Word, end': Word,
                               max: Word, size: Word, r: Outcome, took: Option<int>) {
    var nb := RequestToSize(size);
    if size + 11 >= WORD_LIMIT || nb + 0x1000 + 12 + 11 >= WORD_LIMIT then
      r.Escape? && took.None? && cs' == cs && end' == end
    else
      PalignedNb(cs, fl, end, mid, cs', start, end', max, nb, size, r, took)
  }

  ghost predicate PalignedNb(cs: Chunks, fl: seq<Word>, end: Word, mid: Chunks, cs': Chunks, start: Word, end': Word,
                             max: Word, nb: Word, size: Word, r: Outcome, took: Option<int>) {
    && nb + 0x1000 + 12 < WORD_LIMIT
    && match took
       case None => !r.Done? && cs' == mid && AllocSpec(cs, fl, end, mid, end', start, max, nb + 0x1000 + 12, r)
       case Some(a) =>
         && 0 <= a + 8 < WORD_LIMIT
         && AllocSpec(cs, fl, end, mid, end', start, max, nb + 0x1000 + 12, Done(a + 8))
         && CarveSpec(mid, a, nb, size, end', cs', r)
  }

  /** What palignedAlloc asks alloc for, if neither padding wraps. */
  function Padded(size: Word): Option<Word> {
    var nb := RequestToSize(size);
    if size + 11 < WORD_LIMIT && nb + 0x1000 + 12 + 11 < WORD_LIMIT then Some(nb + 0x1000 + 12) else None
  }

  /** Known before the call: the inner alloc will take the last chunk of the heap, whole. */
  ghost predicate PalignedEnds(cs: Chunks, fl: seq<Word>, start: Word, end: Word, max: Word, size: Word)
    requires start <= end
  {
    Padded(size).Some? && WillEnd(cs, fl, start, end, max, Padded(size).value)
  }

  /** The chunk the inner alloc will take, with its size before any split. */
  ghost function Source(cs: Chunks, fl: seq<Word>, start: Word, end: Word, max: Word, req: Word): (int, int)
    requires start <= end
  {
    var nb := RequestToSize(req);
    match Choice(fl, cs, nb)
    case Some(a) => (a, cs[a].size)
    case None =>
      var e := ExpandTo(start, end, max, nb);
      (Top(cs, end), if e.Grows? then e.newEnd - Top(cs, end) else 0)
  }

  /** Known before the call: it leaves the model, because a sum wraps, or because the chunk taken ends the heap and
      more than a minimal chunk is left over behind the aligned block. */
  ghost predicate PalignedEscapes(cs: Chunks, fl: seq<Word>, start: Word, end: Word, max: Word, size: Word)
    requires start <= end
  {
    match Padded(size)
    case None => true
    case Some(req) =>
      var nb := RequestToSize(size);
      var (a, span) := Source(cs, fl, start, end, max, req);
      || (Choice(fl, cs, RequestToSize(req)).None? && ExpandTo(start, end, max, RequestToSize(req)).Wraps?)
      || (WillEnd(cs, fl, start, end, max, req) && span - (CarvePos(a) - a) > nb + MIN_CHUNK)
  }

  lemma PalignedExactly(cs: Chunks, fl: seq<Word>, end: Word, mid: Chunks, cs': Chunks, start: Word, end': Word,
                        max: Word, size: Word, r: Outcome, took: Option<int>)
    requires Tiles(cs, start, end) && PalignedSpec(cs, fl, end, mid, cs', start, end', max, size, r, took)
    ensures start <= end
    ensures TookEnd(mid, end', took) <==> PalignedEnds(cs, fl, start, end, max, size)
    ensures r.Escape? <==> PalignedEscapes(cs, fl, start, end, max, size)
  {
    hide Tiles, Top, BestFit, ExpandTo, CarvePos;
    TilesOrder(cs, start, end);
    if Padded(size).Some? {
      var req := Padded(size).value;
      var r1 := if took.Some? then Done(took.value + 8) else r;
      AllocEndsExactly(cs, fl, end, mid, end', start, max, req, r1);
      if took.Some? { SourceTaken(cs, fl, end, mid, end', start, max, req, took.value); }
    }
  }

  lemma SourceTaken(cs: Chunks, fl: seq<Word>, end: Word, mid: Chunks, end': Word, start: Word, max: Word, req: Word,
                    a: int)
    requires req + 11 < WORD_LIMIT && 0 <= a + 8 < WORD_LIMIT
    requires Tiles(cs, start, end) && AllocSpec(cs, fl, end, mid, end', start, max, req, Done(a + 8))
    ensures a in mid && Source(cs, fl, start, end, max, req).0 == a
    ensures a + mid[a].size == end' ==> mid[a].size == Source(cs, fl, start, end, max, req).1
  {
    hide Tiles, Top, BestFit, ExpandTo, RequestToSize;
    RequestFits(req);
    var c := Choice(fl, cs, RequestToSize(req));
    if c.Some? { ChunkOf(cs, start, end, a); }
  }

  /** Carving one block changes no other block, and the carved block keeps its request. */
  lemma CarveGrants(cs: Chunks, mid: Chunks, lo: int, hi: int, a: int, nb: int, size: int, cs': Chunks, r: Outcome)
    requires Tiles(mid, lo, hi) && BlocksKept(cs, mid) && a in mid && mid[a].Block? && (a in cs ==> cs[a].Hole?)
    requires CarveSpec(mid, a, nb, size, hi, cs', r) && nb > 0
    ensures BlocksKept(cs, cs') && Granted(cs, cs', size, r, false)
  {
    forall b | b in cs && cs[b].Block?
      ensures b in cs' && cs'[b] == cs[b] && b != CarvePos(a)
    {
      assert b in mid && mid[b] == cs[b] && b != a;
      assert if a < b then a + mid[a].size <= b else b < a;
    }
  }

  lemma CarvedKeeps(m: Ram, m1: Ram, m2: Ram, cs: Chunks, cs1: Chunks, cs2: Chunks, chunk: int, pos: int)
    requires PayloadsKept(m, m1, cs, cs1) && PayloadsKept(m1, m2, cs1, cs2) && chunk in cs
    requires BlocksKept(cs - {chunk}, cs1)
    requires pos == chunk ==> m1 == m && chunk in cs1 && cs1[chunk].size == cs[chunk].size && cs1[chunk].Block?
    requires pos != chunk ==> chunk in cs2 && cs2[chunk].Hole?
    ensures PayloadsKept(m, m2, cs, cs2)
  {
    forall b, x | PayloadWord(cs, b, x) && PayloadWord(cs2, b, x) && 0 <= x < WORD_LIMIT
      ensures m2[x] == m[x]
    {
      assert b != chunk ==> b in cs - {chunk} && (cs - {chunk})[b] == cs[b];
      assert PayloadWord(cs1, b, x);
    }
  }

  /** Trimming leaves chunks other than the trimmed block and its rest alone. */
  lemma TrimKeepsLead(cs: Chunks, pos: int, nb: int, end: int, cs': Chunks, r: Outcome, b: int)
    requires TrimSpec(cs, pos, nb, end, cs', r) && b in cs && b < pos && nb > 0
    ensures b in cs' && cs'[b] == cs[b]
  {
  }

  lemma TrimKeeps(m: Ram, m1: Ram, m2: Ram, cs: Chunks, cs1: Chunks, cs2: Chunks, pos: int, nb: int)
    requires PayloadsKept(m, m1, cs, cs1) && PayloadsKept(m1, m2, cs1, cs2) && pos in cs && pos in cs1 && pos in cs2
    requires forall b :: b in cs && cs[b].Block? && b != pos ==> b in cs1 && cs1[b] == cs[b]
    requires cs1[pos] == cs2[pos]
    ensures PayloadsKept(m, m2, cs, cs2)
  {
    forall b, x | PayloadWord(cs, b, x) && PayloadWord(cs2, b, x) && 0 <= x < WORD_LIMIT
      ensures m2[x] == m[x]
    {
      assert PayloadWord(cs1, b, x);
    }
  }

  lemma RelabelKeeps(m: Ram, cs: Chunks, a: int, asked: int)
    requires a in cs && cs[a].Block?
    ensures PayloadsKept(m, m, cs, cs[a := Block(cs[a].size, asked, cs[a].tagged)])
  {
  }

  lemma RelabelOk(m: Ram, head: Word, lo: int, hi: int, cs: Chunks, fl: seq<Word>, a: int, asked: int)
    requires HeapOk(m, head, lo, hi, cs, fl) && a in cs && cs[a].Block?
    requires Tiles(cs[a := Block(cs[a].size, asked, cs[a].tagged)], lo, hi)
    ensures HeapOk(m, head, lo, hi, cs[a := Block(cs[a].size, asked, cs[a].tagged)], fl)
  {
    assert FreeMap(cs[a := Block(cs[a].size, asked, cs[a].tagged)]) == FreeMap(cs);
  }

  lemma LeadReady(m: Ram, head: Word, lo: int, hi: int, cs: Chunks, fl: seq<Word>, a: int, pos: int, asked: int)
    requires HeapOk(m, head, lo, hi, cs, fl) && CutPoint(cs, a, pos - a) && 0 <= asked <= a + cs[a].size - pos - 4
    ensures var cs' := cs[a := Hole(pos - a)][pos := Block(a + cs[a].size - pos, asked, false)];
            && Tiles(cs', lo, hi) && pos !in cs && pos - 4 !in cs && pos - 4 !in cs'
            && a !in FreeMap(cs) && pos !in FreeMap(cs) && pos - 4 !in FreeMap(cs)
            && FreeMap(cs') == FreeMap(cs)[a := pos - a] && Spaced(FreeMap(cs'), head)
            && 0 <= a + 4 < WORD_LIMIT && SizeOf(m[a + 4]) == cs[a].size
            && pos % 8 == 0 && (a + cs[a].size - pos) % 8 == 0 && a + cs[a].size + 8 <= WORD_LIMIT
            && !IsLink(pos, head, FreeMap(cs)) && !IsLink(pos + 4, head, FreeMap(cs))
            && !IsLink(a + cs[a].size + 4, head, FreeMap(cs))
  {
    hide FreeList, Spaced, Tiles, FreeMap, IsLink;
    var cs' := cs[a := Hole(pos - a)][pos := Block(a + cs[a].size - pos, asked, false)];
    ChunkOf(cs, lo, hi, a);
    HeaderReads(m[a + 4], cs[a]);
    hide Headers, PrevInUse, SizeOf;
    Eight(a, pos - a);
    Eight(cs[a].size, pos - a);
    CutTiles(cs, lo, hi, a, pos - a, Hole(pos - a), Block(a + cs[a].size - pos, asked, false));
    InsideNoChunk(cs, lo, hi, a, pos - 4);
    LeadFree(cs, a, pos, asked);
    SpacedOf(cs', lo, hi, head);
    assert InPayload(cs, a, pos) && InPayload(cs, a, pos + 4);
    NotALink(cs, lo, hi, head, pos);
    NotALink(cs, lo, hi, head, pos + 4);
    NotALink(cs, lo, hi, head, a + cs[a].size + 4);
  }

  lemma InsideNoChunk(cs: Chunks, lo: int, hi: int, a: int, x: int)
    requires Tiles(cs, lo, hi) && a in cs && a < x < a + cs[a].size
    ensures x !in cs
  {
  }

  lemma LeadFree(cs: Chunks, a: int, pos: int, asked: int)
    requires a in cs && cs[a].Block? && pos !in cs && pos - 4 !in cs && pos > a + 4
    ensures var cs' := cs[a := Hole(pos - a)][pos := Block(a + cs[a].size - pos, asked, false)];
            && FreeMap(cs') == FreeMap(cs)[a := pos - a] && pos - 4 !in cs'
            && a !in FreeMap(cs) && pos !in FreeMap(cs) && pos - 4 !in FreeMap(cs)
  {
  }

  lemma LeadOk(m: Ram, m1: Ram, m': Ram, head: Word, lo: int, hi: int, cs: Chunks, fl: seq<Word>, fl': seq<Word>,
               a: int, pos: int, asked: int)
    requires HeapOk(m, head, lo, hi, cs, fl) && CutPoint(cs, a, pos - a) && 0 <= asked <= a + cs[a].size - pos - 4
    requires var n := a + cs[a].size;
             && 0 <= a + 4 < pos + 4 < n + 4 < WORD_LIMIT && n - pos < WORD_LIMIT - 3
             && m1 == m[pos + 4 := MarkInUse(m[pos + 4], n - pos)][n + 4 := SetPrevInUse(m[n + 4])]
             && m'[a + 4] == pos - a + 1
             && FreeList(m', head, fl', FreeMap(cs)[a := pos - a])
    requires forall x :: (0 <= x < WORD_LIMIT && !IsLink(x, head, FreeMap(cs)[a := pos - a]) && x != a + 4 && x != pos)
                         ==> m'[x] == m1[x]
    ensures var cs' := cs[a := Hole(pos - a)][pos := Block(a + cs[a].size - pos, asked, false)];
            && HeapOk(m', head, lo, hi, cs', fl') && PayloadsKept(m, m', cs, cs')
            && Outside(m, m', head, lo, hi, a + cs[a].size == hi)
  {
    hide FreeList, Headers, Spaced, PayloadsKept, Edited, Accounted, NotLive, SetPrevInUse, FreeMap, Outside, IsLink,
         Tiles, HeaderOk;
    var n := a + cs[a].size;
    var cs' := cs[a := Hole(pos - a)][pos := Block(n - pos, asked, false)];
    var touched := {a, pos, pos - 4, n};
    LeadReady(m, head, lo, hi, cs, fl, a, pos, asked);
    LeadEdited(m, m1, m', head, cs, a, pos, asked);
    ChunkOf(cs', lo, hi, pos);
    NotALink(cs', lo, hi, head, pos + 4);
    NotALink(cs', lo, hi, head, n + 4);
    assert m'[pos + 4] == m1[pos + 4] && m'[n + 4] == m1[n + 4];
    LeadAccounted(m, m', lo, hi, cs, a, pos, asked);
    LeadNotLive(cs, lo, hi, a, pos, asked);
    EditedOk(m, m', head, lo, hi, hi, cs, fl, cs', fl', touched);
    ChunkOf(cs, lo, hi, a);
    if n != hi { ChunkOf(cs, lo, hi, n); }
    EditedOutside(m, m', head, lo, hi, hi, cs, cs', touched);
  }

  lemma LeadEdited(m: Ram, m1: Ram, m': Ram, head: Word, cs: Chunks, a: int, pos: int, asked: int)
    requires CutPoint(cs, a, pos - a)
    requires FreeMap(cs[a := Hole(pos - a)][pos := Block(a + cs[a].size - pos, asked, false)]) ==
             FreeMap(cs)[a := pos - a]
    requires forall x :: 0 <= x < WORD_LIMIT && x != pos + 4 && x != a + cs[a].size + 4 ==> m1[x] == m[x]
    requires forall x :: (0 <= x < WORD_LIMIT && !IsLink(x, head, FreeMap(cs)[a := pos - a]) && x != a + 4 && x != pos)
                         ==> m'[x] == m1[x]
    ensures var cs' := cs[a := Hole(pos - a)][pos := Block(a + cs[a].size - pos, asked, false)];
            Edited(m, m', head, cs, cs', {a, pos, pos - 4, a + cs[a].size})
  {
  }

  lemma LeadNotLive(cs: Chunks, lo: int, hi: int, a: int, pos: int, asked: int)
    requires a in cs && Tiles(cs, lo, hi) && a + MIN_CHUNK <= pos < a + cs[a].size
    requires Tiles(cs[a := Hole(pos - a)][pos := Block(a + cs[a].size - pos, asked, false)], lo, hi)
    ensures var cs' := cs[a := Hole(pos - a)][pos := Block(a + cs[a].size - pos, asked, false)];
            && NotLive(cs, cs', a + 4) && NotLive(cs, cs', pos + 4) && NotLive(cs, cs', a + cs[a].size + 4)
            && NotLive(cs, cs', pos - 4 + 4)
  {
    var cs' := cs[a := Hole(pos - a)][pos := Block(a + cs[a].size - pos, asked, false)];
    assert GoodChunk(cs', pos, lo, hi) && GoodChunk(cs, a, lo, hi);
    HeaderNotLive(cs, cs', lo, hi, a);
    HeaderNotLive(cs, cs', lo, hi, pos);
    HeaderNotLive(cs, cs', lo, hi, a + cs[a].size);
    forall b
      ensures !(InPayload(cs, b, pos) && InPayload(cs', b, pos))
    {
      assert b in cs ==> GoodChunk(cs, b, lo, hi);
    }
  }

  lemma LeadAccounted(m: Ram, m': Ram, lo: int, hi: int, cs: Chunks, a: int, pos: int, asked: int)
    requires Tiles(cs, lo, hi) && Headers(m, cs) && CutPoint(cs, a, pos - a)
    requires var n := a + cs[a].size;
             && 0 <= a + 4 < pos + 4 < n + 4 < WORD_LIMIT
             && m'[a + 4] == pos - a + 1 && (m'[pos + 4] == n - pos + 2 || m'[pos + 4] == n - pos + 3)
             && m'[n + 4] == SetPrevInUse(m[n + 4])
    ensures var cs' := cs[a := Hole(pos - a)][pos := Block(a + cs[a].size - pos, asked, false)];
            Accounted(m', cs, cs', {a, pos, pos - 4, a + cs[a].size})
  {
    hide SetPrevInUse;
    var n := a + cs[a].size;
    InsideNoChunk(cs, lo, hi, a, pos - 4);
    if n in cs {
      ChunkOf(cs, lo, hi, n);
      SetBitKeepsHeader(m[n + 4], cs[n]);
    }
    hide Tiles;
  }

  /** A block cut after nb bytes into two. */
  function Halved(cs: Chunks, a: int, nb: int): Chunks
    requires a in cs && cs[a].Block?
  {
    cs[a := Block(nb, cs[a].asked, cs[a].tagged)][a + nb := Block(cs[a].size - nb, 0, true)]
  }

  lemma TailReady(m: Ram, head: Word, lo: int, hi: int, cs: Chunks, fl: seq<Word>, a: int, nb: int)
    requires HeapOk(m, head, lo, hi, cs, fl) && CutPoint(cs, a, nb) && 0 <= cs[a].asked <= nb - 4
    ensures var cs' := Halved(cs, a, nb);
            && Tiles(cs', lo, hi) && FreeMap(cs') == FreeMap(cs)
            && a + nb !in cs && a !in FreeMap(cs) && a + nb !in FreeMap(cs)
            && 0 <= a + 4 < WORD_LIMIT && SizeOf(m[a + 4]) == cs[a].size && (cs[a].tagged ==> PrevInUse(m[a + 4]))
            && a % 8 == 0 && (cs[a].size - nb) % 8 == 0 && (a + nb) % 8 == 0 && a + cs[a].size + 8 <= WORD_LIMIT
            && !IsLink(a + 4, head, FreeMap(cs)) && !IsLink(a + nb + 4, head, FreeMap(cs))
            && !IsLink(a + cs[a].size + 4, head, FreeMap(cs))
  {
    hide FreeList, Spaced, Tiles, FreeMap, IsLink;
    ChunkOf(cs, lo, hi, a);
    HeaderReads(m[a + 4], cs[a]);
    hide Headers, PrevInUse, SizeOf;
    Eight(a, nb);
    Eight(cs[a].size, nb);
    CutTiles(cs, lo, hi, a, nb, Block(nb, cs[a].asked, cs[a].tagged), Block(cs[a].size - nb, 0, true));
    HalvedFree(cs, a, nb);
    assert InPayload(cs, a, a + nb + 4);
    NotALink(cs, lo, hi, head, a + 4);
    NotALink(cs, lo, hi, head, a + nb + 4);
    NotALink(cs, lo, hi, head, a + cs[a].size + 4);
  }

  lemma HalvedFree(cs: Chunks, a: int, nb: int)
    requires a in cs && cs[a].Block? && a + nb !in cs
    ensures FreeMap(Halved(cs, a, nb)) == FreeMap(cs) && a !in FreeMap(cs) && a + nb !in FreeMap(cs)
  {
  }

  /** What CarveTail has done to memory: three headers, and nothing else. */
  ghost predicate TailMemory(m: Ram, m': Ram, cs: Chunks, a: int, nb: int) {
    && CutPoint(cs, a, nb)
    && var b, n := a + nb, a + cs[a].size;
       && 0 <= a + 4 < b + 4 < n + 4 < WORD_LIMIT
       && HeaderOk(m'[a + 4], Block(nb, cs[a].asked, cs[a].tagged)) && m'[b + 4] == n - b + 3
       && m'[n + 4] == SetPrevInUse(m[n + 4])
       && (forall x :: 0 <= x < WORD_LIMIT && x != a + 4 && x != b + 4 && x != n + 4 ==> m'[x] == m[x])
  }

  lemma TailOk(m: Ram, m': Ram, head: Word, lo: int, hi: int, cs: Chunks, fl: seq<Word>, a: int, nb: int)
    requires HeapOk(m, head, lo, hi, cs, fl) && CutPoint(cs, a, nb) && 0 <= cs[a].asked <= nb - 4
    requires TailMemory(m, m', cs, a, nb) && FreeList(m', head, fl, FreeMap(cs))
    ensures var cs' := Halved(cs, a, nb);
            && HeapOk(m', head, lo, hi, cs', fl) && PayloadsKept(m, m', cs, cs')
            && Outside(m, m', head, lo, hi, a + cs[a].size == hi)
  {
    hide FreeList, Spaced, PayloadsKept, NotLive, SetPrevInUse, FreeMap, Edited, Outside, Accounted, Headers, Tiles,
         TailMemory;
    var n := a + cs[a].size;
    var cs' := Halved(cs, a, nb);
    var touched := {a, a + nb, n};
    assert cs'[a + nb].size == n - (a + nb);
    hide Halved;
    TailReady(m, head, lo, hi, cs, fl, a, nb);
    ChunkOf(cs', lo, hi, a);
    ChunkOf(cs', lo, hi, a + nb);
    TailEdited(m, m', head, cs, a, nb);
    TailAccounted(m, m', lo, hi, cs, a, nb);
    HeaderNotLive(cs, cs', lo, hi, a);
    HeaderNotLive(cs, cs', lo, hi, a + nb);
    HeaderNotLive(cs, cs', lo, hi, n);
    EditedOk(m, m', head, lo, hi, hi, cs, fl, cs', fl, touched);
    if n != hi { ChunkOf(cs', lo, hi, n); }
    EditedOutside(m, m', head, lo, hi, hi, cs, cs', touched);
  }

  lemma TailEdited(m: Ram, m': Ram, head: Word, cs: Chunks, a: int, nb: int)
    requires TailMemory(m, m', cs, a, nb)
    ensures Edited(m, m', head, cs, Halved(cs, a, nb), {a, a + nb, a + cs[a].size})
    ensures var n := a + cs[a].size; 0 <= n + 4 < WORD_LIMIT && m'[n + 4] == SetPrevInUse(m[n + 4])
  {
    hide FreeMap, IsLink, HeaderOk, SetPrevInUse;
  }

  lemma TailAccounted(m: Ram, m': Ram, lo: int, hi: int, cs: Chunks, a: int, nb: int)
    requires Tiles(cs, lo, hi) && Headers(m, cs) && TailMemory(m, m', cs, a, nb)
    ensures Accounted(m', cs, Halved(cs, a, nb), {a, a + nb, a + cs[a].size})
  {
    hide SetPrevInUse, Tiles;
    var n := a + cs[a].size;
    if n in cs {
      ChunkOf(cs, lo, hi, n);
      SetBitKeepsHeader(m[n + 4], cs[n]);
    }
    hide Headers;
  }

  // ----- Growing the heap -----

  lemma ExpandRoom(start: Word, end: Word, max: Word, nb: Word)
    requires start % 0x1000 == 0 && end % 0x1000 == 0 && start + MIN_CHUNK <= end && nb >= MIN_CHUNK
    requires ExpandTo(start, end, max, nb).Grows?
    ensures Room(start, end, max, nb, ExpandTo(start, end, max, nb).newEnd)
  {
    var newEnd := ExpandTo(start, end, max, nb).newEnd;
    PageAligned(RoundUp(end - start + nb));
    PageSum(start, RoundUp(end - start + nb));
    PageAligned(newEnd);
    PageAligned(end);
    BelowLimit(newEnd);
  }

  lemma BelowLimit(x: int)
    requires x % 0x1000 == 0 && x < WORD_LIMIT
    ensures x + 8 <= WORD_LIMIT
  {
  }

  datatype Expansion = Grows(newEnd: int) | Fails | Wraps

  /** What expand(oldSize + nb) does: pass both assertions and move the end, fail one of them, or pass
      them only because a 32-bit sum wrapped. */
  function ExpandTo(start: Word, end: Word, max: Word, nb: Word): Expansion
    requires start <= end
  {
    if end - start + nb >= WORD_LIMIT then Fails
    else
      var newEnd := start + RoundUp(end - start + nb);
      if Wrap(newEnd) > max then Fails else if newEnd >= WORD_LIMIT then Wraps else Grows(newEnd)
  }

  /** expand's check of the maximum is passed by a wrapped sum exactly for the requests that reach past the top of
      memory from the heap's end without the new size overflowing; it grows the heap exactly within the maximum. */
  lemma ExpandExactly(start: Word, end: Word, max: Word, nb: Word)
    requires start % 0x1000 == 0 && end % 0x1000 == 0 && start <= end <= max
    ensures var e := ExpandTo(start, end, max, nb);
            && (e.Wraps? <==> end - start + nb < WORD_LIMIT <= end + RoundUp(nb))
            && (e.Grows? <==> end + RoundUp(nb) <= max)
            && (e.Grows? ==> nb <= e.newEnd - end < nb + 0x1000 && e.newEnd % 0x1000 == 0)
  {
    WholePage(start / 0x1000);
    WholePage(end / 0x1000);
    RoundUpBound(nb);
    PageSum(end, RoundUp(nb));
    RoundUpSum((end - start) / 0x1000, nb);
    RoundUpBound(end - start + nb);
    hide RoundUp;
  }

  lemma RoundUpSum(k: int, n: int)
    ensures RoundUp(0x1000 * k + n) == 0x1000 * k + RoundUp(n)
  {
  }

  lemma RoundUpBound(n: int)
    ensures n <= RoundUp(n) < n + 0x1000 && RoundUp(n) % 0x1000 == 0
    ensures n < WORD_LIMIT ==> RoundUp(n) <= WORD_LIMIT
  {
  }

  /** A request of 3 GiB takes a heap at 1.25 GiB past its maximum unnoticed. */
  lemma ExpandWrapsExample()
    ensures ExpandTo(0x5000_0000, 0x5010_0000, 0x5020_0000, 0xC000_0000).Wraps?
  {
  }

  /** A free chunk at the heap end is the highest free chunk, so looking at the highest one decides. */
  lemma HighestDecides(cs: Chunks, lo: int, hi: int, top: int)
    requires Tiles(cs, lo, hi) && top in cs && cs[top].Hole? && top + cs[top].size != hi
    requires forall a :: a in cs && cs[a].Hole? ==> a <= top
    ensures !exists a :: FreeTop(cs, hi, a)
  {
    forall a | a in cs && cs[a].Hole?
      ensures a + cs[a].size != hi
    {
      assert GoodChunk(cs, a, lo, hi) && GoodChunk(cs, top, lo, hi);
    }
  }

  lemma GrownFree(cs: Chunks, lo: int, hi: int, newEnd: int, top: int)
    requires Tiles(cs, lo, hi)
    requires FreeTop(cs, hi, top) || (top == hi && !exists a :: FreeTop(cs, hi, a))
    ensures Grown(cs, hi, newEnd) == cs[top := Hole(newEnd - top)]
    ensures FreeMap(Grown(cs, hi, newEnd)) == (FreeMap(cs) - {top})[top := newEnd - top]
    ensures top == hi ==> top !in cs
  {
    if FreeTop(cs, hi, top) { GrownIs(cs, lo, hi, newEnd, top); }
    assert hi in cs ==> GoodChunk(cs, hi, lo, hi);
    hide Tiles;
    FreeMapHole(cs, top, newEnd - top);
  }

  lemma FreeMapHole(cs: Chunks, a: int, size: int)
    ensures FreeMap(cs[a := Hole(size)]) == (FreeMap(cs) - {a})[a := size]
  {
  }

  lemma GrownOk(m: Ram, m': Ram, head: Word, lo: int, hi: int, newEnd: int, cs: Chunks, fl: seq<Word>, fl': seq<Word>,
                top: int)
    requires HeapOk(m, head, lo, hi, cs, fl) && Placed(head, lo, newEnd)
    requires hi % 8 == 0 && newEnd % 8 == 0 && newEnd >= hi + MIN_CHUNK
    requires Grown(cs, hi, newEnd) == cs[top := Hole(newEnd - top)]
    requires FreeList(m', head, fl', FreeMap(Grown(cs, hi, newEnd)))
    requires Edited(m, m', head, cs, Grown(cs, hi, newEnd), {top})
    requires 0 <= top + 4 < WORD_LIMIT && m'[top + 4] == newEnd - top + 1
    ensures HeapOk(m', head, lo, newEnd, Grown(cs, hi, newEnd), fl')
    ensures PayloadsKept(m, m', cs, Grown(cs, hi, newEnd)) && Outside(m, m', head, lo, newEnd, false)
  {
    hide FreeList, Edited, FreeMap, Headers, PayloadsKept, NotLive, Outside, Tiles, Grown;
    var cs' := cs[top := Hole(newEnd - top)];
    GrownTiles(cs, lo, hi, newEnd);
    HeaderNotLive(cs, cs', lo, newEnd, top);
    EditedOk(m, m', head, lo, hi, newEnd, cs, fl, cs', fl', {top});
    ChunkOf(cs', lo, newEnd, top);
    EditedOutside(m, m', head, lo, hi, newEnd, cs, cs', {top});
  }

  /** The free chunks once the hole is unlinked and its rest, if any, is linked in. */
  function AfterUnlink(fs: map<int, int>, hole: int, nb: int): map<int, int>
    requires hole in fs
  {
    if fs[hole] >= nb + MIN_CHUNK then (fs - {hole})[hole + nb := fs[hole] - nb] else fs - {hole}
  }

  ghost predicate UnlinkFrame(m: Ram, m': Ram, head: Word, fs: map<int, int>, hole: int, nb: int)
    requires hole in fs
  {
    && (fs[hole] >= nb + MIN_CHUNK ==> 0 <= hole + nb + 4 < WORD_LIMIT && m'[hole + nb + 4] == fs[hole] - nb)
    && (forall x :: (0 <= x < WORD_LIMIT && !IsLink(x, head, fs) && !IsLink(x, head, AfterUnlink(fs, hole, nb))
                     && (fs[hole] >= nb + MIN_CHUNK ==> x != hole + nb + 4)) ==> m'[x] == m[x])
  }

  /** The preconditions of the steps of TakeHole. */
  lemma TakeReady(m: Ram, head: Word, lo: int, hi: int, cs: Chunks, fl: seq<Word>, a: int, nb: int, asked: int)
    requires HeapOk(m, head, lo, hi, cs, fl) && Fits(cs, nb, a)
    requires nb % 8 == 0 && MIN_CHUNK <= nb && 0 <= asked <= nb - 4
    ensures var fs, cs' := FreeMap(cs), Take(cs, a, nb, asked);
            && a in fs && fs[a] == cs[a].size
            && FreeMap(cs') == AfterUnlink(fs, a, nb)
            && Spaced(FreeMap(cs'), head)
            && cs'[a].size % 8 == 0 && a % 8 == 0 && cs'[a].size > 0 && a + cs'[a].size + 8 <= WORD_LIMIT
            && !IsLink(a + 4, head, FreeMap(cs')) && !IsLink(a + cs'[a].size + 4, head, FreeMap(cs'))
            && (fs[a] - nb) % 8 == 0
            && (fs[a] >= nb + MIN_CHUNK ==> a + nb !in fs && !IsLink(a + nb + 4, head, fs))
  {
    hide FreeList, Headers, Spaced, IsLink;
    TakeTiles(cs, lo, hi, a, nb, asked);
    TakeFree(cs, lo, hi, a, nb, asked);
    TakenReady(Take(cs, a, nb, asked), lo, hi, head, a);
    SplitReady(cs, lo, hi, head, a, nb);
  }

  lemma TakenReady(cs: Chunks, lo: int, hi: int, head: Word, a: int)
    requires Placed(head, lo, hi) && Tiles(cs, lo, hi) && a in cs && cs[a].Block?
    ensures Spaced(FreeMap(cs), head) && cs[a].size % 8 == 0 && a % 8 == 0 && cs[a].size > 0
            && a + cs[a].size + 8 <= WORD_LIMIT
    ensures !IsLink(a + 4, head, FreeMap(cs)) && !IsLink(a + cs[a].size + 4, head, FreeMap(cs))
  {
    hide Spaced;
    assert GoodChunk(cs, a, lo, hi) && AlignedAt(a, cs[a].size);
    SpacedOf(cs, lo, hi, head);
    NotALink(cs, lo, hi, head, a + 4);
    NotALink(cs, lo, hi, head, a + cs[a].size + 4);
  }

  lemma SplitReady(cs: Chunks, lo: int, hi: int, head: Word, a: int, nb: int)
    requires Placed(head, lo, hi) && Tiles(cs, lo, hi) && Fits(cs, nb, a) && nb % 8 == 0 && MIN_CHUNK <= nb
    ensures a in FreeMap(cs) && FreeMap(cs)[a] == cs[a].size && (cs[a].size - nb) % 8 == 0
    ensures cs[a].size >= nb + MIN_CHUNK ==> a + nb !in FreeMap(cs) && !IsLink(a + nb + 4, head, FreeMap(cs))
  {
    assert GoodChunk(cs, a, lo, hi) && AlignedAt(a, cs[a].size);
    Eight(cs[a].size, nb);
    if cs[a].size >= nb + MIN_CHUNK { InsideNotALink(cs, lo, hi, head, a, a + nb + 4); }
  }

  /** Words inside a chunk, past its own links, are not links. */
  lemma InsideNotALink(cs: Chunks, lo: int, hi: int, head: Word, a: int, x: int)
    requires Placed(head, lo, hi) && Tiles(cs, lo, hi) && a in cs && a + MIN_CHUNK <= x < a + cs[a].size
    ensures !IsLink(x, head, FreeMap(cs))
  {
    assert GoodChunk(cs, a, lo, hi);
    forall f | f in FreeMap(cs)
      ensures x != f + 8 && x != f + 12
    {
      assert GoodChunk(cs, f, lo, hi);
    }
    assert x - 8 + 8 == x && x - 12 + 12 == x;
  }

  /** What TakeHole has done to memory: m1 once the hole is unlinked, m2 once it is marked. */
  ghost predicate TakeMemory(m: Ram, m1: Ram, m2: Ram, head: Word, cs: Chunks, a: int, nb: int, asked: int) {
    && Fits(cs, nb, a) && nb % 8 == 0 && MIN_CHUNK <= nb && 0 <= asked <= nb - 4
    && a in FreeMap(cs) && FreeMap(cs)[a] == cs[a].size && UnlinkFrame(m, m1, head, FreeMap(cs), a, nb)
    && var cs' := Take(cs, a, nb, asked);
       var n := a + cs'[a].size;
       && FreeMap(cs') == AfterUnlink(FreeMap(cs), a, nb)
       && 0 <= a + 4 < n + 4 < WORD_LIMIT && cs'[a].size < WORD_LIMIT - 3
       && m2 == m1[a + 4 := MarkInUse(m1[a + 4], cs'[a].size)][n + 4 := SetPrevInUse(m1[n + 4])]
  }

  lemma TakeOk(m: Ram, m1: Ram, m2: Ram, head: Word, lo: int, hi: int, cs: Chunks, fl: seq<Word>, fl': seq<Word>,
               a: int, nb: int, asked: int)
    requires HeapOk(m, head, lo, hi, cs, fl) && TakeMemory(m, m1, m2, head, cs, a, nb, asked)
    requires FreeList(m2, head, fl', FreeMap(Take(cs, a, nb, asked)))
    ensures var cs' := Take(cs, a, nb, asked);
            && HeapOk(m2, head, lo, hi, cs', fl') && PayloadsKept(m, m2, cs, cs')
            && Outside(m, m2, head, lo, hi, a + cs'[a].size == hi)
  {
    hide FreeList, Headers, Spaced, FreeMap, PayloadsKept, Edited, Accounted, NotLive, UnlinkFrame, Outside,
         AfterUnlink,
         MarkInUse, SetPrevInUse, HeaderOk;
    var cs' := Take(cs, a, nb, asked);
    var n := a + cs'[a].size;
    TakeTiles(cs, lo, hi, a, nb, asked);
    assert GoodChunk(cs', a, lo, hi);
    hide Take;
    TakeEdited(m, m1, m2, head, cs, a, nb, asked);
    TakeSelf(m, m1, m2, head, lo, hi, cs, a, nb, asked);
    TakeNext(m, m1, head, lo, hi, cs, a, nb, asked);
    TakeAccounted(m2, cs, a, nb, asked);
    HeaderNotLive(cs, cs', lo, hi, a);
    HeaderNotLive(cs, cs', lo, hi, n);
    EditedOk(m, m2, head, lo, hi, hi, cs, fl, cs', fl', {a, n});
    TakeEnd(m, m1, m2, head, lo, hi, cs, a, nb, asked);
    assert n != hi ==> GoodChunk(cs', n, lo, hi);
    EditedOutside(m, m2, head, lo, hi, hi, cs, cs', {a, n});
  }

  /** The hole's header had the previous-in-use bit, and marking it used keeps that bit. */
  lemma TakeSelf(m: Ram, m1: Ram, m2: Ram, head: Word, lo: int, hi: int, cs: Chunks, a: int, nb: int, asked: int)
    requires Placed(head, lo, hi) && Tiles(cs, lo, hi) && Headers(m, cs)
             && TakeMemory(m, m1, m2, head, cs, a, nb, asked)
    requires Tiles(Take(cs, a, nb, asked), lo, hi)
    ensures HeaderOk(m2[a + 4], Take(cs, a, nb, asked)[a])
  {
    hide FreeMap, AfterUnlink, MarkInUse;
    var cs' := Take(cs, a, nb, asked);
    NotALink(cs, lo, hi, head, a + 4);
    NotALink(cs', lo, hi, head, a + 4);
    assert m1[a + 4] == cs[a].size + 1;
    assert AlignedAt(a, cs[a].size) && AlignedAt(a, cs'[a].size);
    MarkReads(m1[a + 4], cs'[a].size);
    FlagBits(cs[a].size / 8, 1);
  }

  /** If the chunk ends the heap, the word that marking it changes next is the one past the heap end. */
  lemma TakeEnd(m: Ram, m1: Ram, m2: Ram, head: Word, lo: int, hi: int, cs: Chunks, a: int, nb: int, asked: int)
    requires Placed(head, lo, hi) && Tiles(cs, lo, hi) && TakeMemory(m, m1, m2, head, cs, a, nb, asked)
    requires Tiles(Take(cs, a, nb, asked), lo, hi)
    ensures var n := a + Take(cs, a, nb, asked)[a].size; n == hi ==> m2[hi + 4] == SetPrevInUse(m[hi + 4])
  {
    hide FreeMap, AfterUnlink, MarkInUse, SetPrevInUse;
    assert GoodChunk(cs, a, lo, hi);
    if a + Take(cs, a, nb, asked)[a].size == hi {
      NotALink(cs, lo, hi, head, hi + 4);
      NotALink(Take(cs, a, nb, asked), lo, hi, head, hi + 4);
    }
  }

  /** The chunk after the one taken keeps, or now gets, a correct header. */
  lemma TakeNext(m: Ram, m1: Ram, head: Word, lo: int, hi: int, cs: Chunks, a: int, nb: int, asked: int)
    requires Placed(head, lo, hi) && Tiles(cs, lo, hi) && Headers(m, cs) && Fits(cs, nb, a) && nb >= MIN_CHUNK
    requires a in FreeMap(cs) && FreeMap(cs)[a] == cs[a].size && UnlinkFrame(m, m1, head, FreeMap(cs), a, nb)
    requires Tiles(Take(cs, a, nb, asked), lo, hi)
    requires FreeMap(Take(cs, a, nb, asked)) == AfterUnlink(FreeMap(cs), a, nb)
    ensures var cs' := Take(cs, a, nb, asked);
            var n := a + cs'[a].size;
            n in cs' ==> 0 <= n + 4 < WORD_LIMIT && HeaderOk(SetPrevInUse(m1[n + 4]), cs'[n])
  {
    hide FreeMap;
    var cs' := Take(cs, a, nb, asked);
    var n := a + cs'[a].size;
    if cs[a].size >= nb + MIN_CHUNK {
      assert AlignedAt(n, cs'[n].size) && GoodChunk(cs', n, lo, hi);
      EvenHeader(m1[n + 4], cs'[n].size);
    } else if n in cs' {
      NotALink(cs, lo, hi, head, n + 4);
      NotALink(cs', lo, hi, head, n + 4);
      assert AlignedAt(n, cs[n].size);
      SetBitKeepsHeader(m[n + 4], cs[n]);
    }
  }

  lemma EvenHeader(w: Word, size: int)
    requires w == size && size % 8 == 0
    ensures SetPrevInUse(w) == size + 1
  {
    FlagBits(size / 8, 0);
  }

  lemma TakeAccounted(m2: Ram, cs: Chunks, a: int, nb: int, asked: int)
    requires a in cs && nb > 0 && cs[a].size > 0
    requires 0 <= a + 4 < WORD_LIMIT && HeaderOk(m2[a + 4], Take(cs, a, nb, asked)[a])
    requires var cs' := Take(cs, a, nb, asked);
             var n := a + cs'[a].size;
             n in cs' ==> 0 <= n + 4 < WORD_LIMIT && HeaderOk(m2[n + 4], cs'[n])
    ensures var cs' := Take(cs, a, nb, asked); Accounted(m2, cs, cs', {a, a + cs'[a].size})
  {
  }

  lemma TakeEdited(m: Ram, m1: Ram, m2: Ram, head: Word, cs: Chunks, a: int, nb: int, asked: int)
    requires TakeMemory(m, m1, m2, head, cs, a, nb, asked)
    ensures var cs' := Take(cs, a, nb, asked); Edited(m, m2, head, cs, cs', {a, a + cs'[a].size})
  {
    hide FreeMap, AfterUnlink, IsLink, MarkInUse, SetPrevInUse;
  }

  lemma SetBitKeepsHeader(w: Word, c: Chunk)
    requires HeaderOk(w, c) && c.size % 8 == 0
    ensures HeaderOk(SetPrevInUse(w), c)
  {
    FlagBits(c.size / 8, w - c.size);
  }

  /** The free chunks after Take: the hole is gone, and the rest, if split off, has appeared. */
  lemma TakeFree(cs: Chunks, lo: int, hi: int, a: int, nb: int, asked: int)
    requires Tiles(cs, lo, hi) && Fits(cs, nb, a) && nb >= MIN_CHUNK
    ensures var fs, fs' := FreeMap(cs), FreeMap(Take(cs, a, nb, asked));
            if cs[a].size >= nb + MIN_CHUNK then fs' == (fs - {a})[a + nb := cs[a].size - nb] else fs' == fs - {a}
  {
    if cs[a].size >= nb + MIN_CHUNK { InsideNoChunk(cs, lo, hi, a, a + nb); }
    hide Tiles;
  }
}
