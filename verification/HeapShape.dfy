/** What the heap of src/mm/heap.c looks like: chunks that tile an address range, their header words,
    and the size-ordered free list threaded through the free ones. */
module HeapShape {
  import opened Memory
  import opened LinkedList

  const MIN_CHUNK := 16

  /** request2size: bytes requested to chunk size, with the source's 32-bit wrap. */
  function RequestToSize(req: Word): Word {
    if req < 11 then MIN_CHUNK else Wrap(req + 11) / 8 * 8
  }

  /** A padded request is a legal chunk size with room for the request exactly when padding does not wrap, and then it
      is the least such size. */
  lemma RequestFits(req: Word)
    ensures var nb := RequestToSize(req);
            && (LegalSize(nb, req) <==> req + 11 < WORD_LIMIT)
            && (req + 11 < WORD_LIMIT ==> forall n :: LegalSize(n, req) ==> nb <= n)
  {
  }

  /** A chunk of n bytes is aligned, holds its links when free, and holds req bytes when used. */
  predicate LegalSize(n: int, req: int) { n % 8 == 0 && n >= 16 && n - 4 >= req }

  /** chunksize: the header word without its three flag bits. */
  function SizeOf(header: Word): Word { header - header % 8 }

  predicate PrevInUse(header: Word) { header % 2 == 1 }

  predicate InUse(header: Word) { header / 2 % 2 == 1 }

  /** set_inuse on the chunk itself: keep the previous-in-use bit, set the in-use bit, store the size. */
  function MarkInUse(header: Word, size: int): Word
    requires 0 <= size < WORD_LIMIT - 3
  {
    header % 2 + 2 + size
  }

  function SetPrevInUse(header: Word): Word { if header % 2 == 1 then header else header + 1 }

  /** A chunk of the heap; a used one remembers how many bytes its owner asked for, and is `tagged` if its
      previous-in-use bit is known to be set. */
  datatype Chunk = Hole(size: int) | Block(size: int, asked: int, tagged: bool)

  type Chunks = map<int, Chunk>

  /** The chunks, keyed by address, cover [lo, hi) without gap or overlap. */
  ghost predicate Tiles(cs: Chunks, lo: int, hi: int) {
    && lo in cs
    && (forall a {:trigger GoodChunk(cs, a, lo, hi)} :: a in cs ==> GoodChunk(cs, a, lo, hi))
    && (forall a {:trigger AlignedAt(a, cs[a].size)} :: a in cs ==> AlignedAt(a, cs[a].size))
    && (forall a, b :: a in cs && b in cs && a < b ==> a + cs[a].size <= b)
  }

  predicate AlignedAt(a: int, size: int) { a % 8 == 0 && size % 8 == 0 }

  ghost predicate GoodChunk(cs: Chunks, a: int, lo: int, hi: int)
    requires a in cs
  {
    && lo <= a && cs[a].size >= MIN_CHUNK
    && a + cs[a].size <= hi
    && (a + cs[a].size == hi || a + cs[a].size in cs)
    && (cs[a].Block? ==> 0 <= cs[a].asked <= cs[a].size - 4)
  }

  /** What a tiling says of one chunk. */
  lemma ChunkOf(cs: Chunks, lo: int, hi: int, a: int)
    requires Tiles(cs, lo, hi) && a in cs
    ensures GoodChunk(cs, a, lo, hi) && AlignedAt(a, cs[a].size)
  {
  }

  /** Every address of a tiled range lies in exactly one chunk. */
  lemma TilesExactly(cs: Chunks, lo: int, hi: int, x: int)
    requires Tiles(cs, lo, hi) && lo <= x < hi
    ensures exists a :: a in cs && a <= x < a + cs[a].size
    ensures forall a, b :: a in cs && b in cs && a <= x < a + cs[a].size && b <= x < b + cs[b].size ==> a == b
  {
    var a := lo;
    while !(x < a + cs[a].size)
      invariant a in cs && a <= x
      decreases x - a
    {
      assert GoodChunk(cs, a, lo, hi);
      a := a + cs[a].size;
    }
  }

  /** The bytes an owner may use: up to and including the next chunk's prevFoot word. */
  predicate InPayload(cs: Chunks, a: int, x: int) {
    a in cs && cs[a].Block? && a + 8 <= x < a + cs[a].size + 4
  }

  /** A word an owner may use: 4-aligned, so that it lies wholly in the payload. */
  predicate PayloadWord(cs: Chunks, a: int, x: int) { x % 4 == 0 && InPayload(cs, a, x) }

  /** Live payloads never overlap, each holds what was asked for, and only a block that ends the heap
      has payload bytes (its last four) outside the heap. */
  lemma PayloadsDisjoint(cs: Chunks, lo: int, hi: int, a: int, b: int)
    requires Tiles(cs, lo, hi) && a in cs && b in cs && cs[a].Block? && cs[b].Block?
    ensures a != b ==> forall x :: !(InPayload(cs, a, x) && InPayload(cs, b, x))
    ensures forall x :: a + 8 <= x < a + 8 + cs[a].asked ==> InPayload(cs, a, x)
    ensures (forall x :: InPayload(cs, a, x) ==> lo <= x < hi) <==> a + cs[a].size != hi
  {
    assert GoodChunk(cs, a, lo, hi) && GoodChunk(cs, b, lo, hi);
    if a + cs[a].size != hi {
      assert GoodChunk(cs, a + cs[a].size, lo, hi);
    } else {
      assert InPayload(cs, a, hi);
    }
  }

  // ----- The edits alloc, free and expand make to the tiling -----

  /** Give the free chunk at a to an owner, splitting off the rest when it can stand alone. */
  function Take(cs: Chunks, a: int, nb: int, asked: int): Chunks
    requires a in cs
  {
    if cs[a].size >= nb + MIN_CHUNK then
      cs[a := Block(nb, asked, true)][a + nb := Hole(cs[a].size - nb)]
    else
      cs[a := Block(cs[a].size, asked, true)]
  }

  lemma ReplaceTiles(cs: Chunks, lo: int, hi: int, a: int, c: Chunk)
    requires Tiles(cs, lo, hi) && a in cs && c.size == cs[a].size && (c.Block? ==> 0 <= c.asked <= c.size - 4)
    ensures Tiles(cs[a := c], lo, hi)
  {
    var cs' := cs[a := c];
    forall b | b in cs'
      ensures GoodChunk(cs', b, lo, hi)
      ensures AlignedAt(b, cs'[b].size)
    {
      assert GoodChunk(cs, b, lo, hi) && AlignedAt(b, cs[b].size);
    }
  }

  /** Cutting a chunk in two tiles the same range. */
  lemma CutTiles(cs: Chunks, lo: int, hi: int, a: int, n: int, first: Chunk, second: Chunk)
    requires Tiles(cs, lo, hi) && a in cs && n % 8 == 0 && MIN_CHUNK <= n <= cs[a].size - MIN_CHUNK
    requires first.size == n && second.size == cs[a].size - n
    requires first.Block? ==> 0 <= first.asked <= n - 4
    requires second.Block? ==> 0 <= second.asked <= second.size - 4
    ensures a + n !in cs && Tiles(cs[a := first][a + n := second], lo, hi)
  {
    var cs' := cs[a := first][a + n := second];
    CutOrdered(cs, lo, hi, a, n, first, second);
    hide Tiles, GoodChunk, AlignedAt;
    forall b | b in cs'
      ensures GoodChunk(cs', b, lo, hi)
      ensures AlignedAt(b, cs'[b].size)
    {
      CutGood(cs, lo, hi, a, n, first, second, b);
    }
    CutMakesTiles(cs', lo, hi);
  }

  lemma CutMakesTiles(cs: Chunks, lo: int, hi: int)
    requires lo in cs && forall b :: b in cs ==> GoodChunk(cs, b, lo, hi) && AlignedAt(b, cs[b].size)
    requires forall a, b :: a in cs && b in cs && a < b ==> a + cs[a].size <= b
    ensures Tiles(cs, lo, hi)
  {
  }

  lemma CutGood(cs: Chunks, lo: int, hi: int, a: int, n: int, first: Chunk, second: Chunk, b: int)
    requires Tiles(cs, lo, hi) && a in cs && n % 8 == 0 && MIN_CHUNK <= n <= cs[a].size - MIN_CHUNK
    requires first.size == n && second.size == cs[a].size - n
    requires first.Block? ==> 0 <= first.asked <= n - 4
    requires second.Block? ==> 0 <= second.asked <= second.size - 4
    requires b in cs[a := first][a + n := second]
    ensures var cs' := cs[a := first][a + n := second]; GoodChunk(cs', b, lo, hi) && AlignedAt(b, cs'[b].size)
  {
    hide Tiles;
    ChunkOf(cs, lo, hi, a);
    if b in cs { ChunkOf(cs, lo, hi, b); }
    Eight(a, n);
    Eight(cs[a].size, n);
  }

  lemma Eight(a: int, b: int)
    requires a % 8 == 0 && b % 8 == 0
    ensures (a + b) % 8 == 0 && (a - b) % 8 == 0
  {
  }

  lemma CutOrdered(cs: Chunks, lo: int, hi: int, a: int, n: int, first: Chunk, second: Chunk)
    requires Tiles(cs, lo, hi) && a in cs && 0 < n < cs[a].size
    requires first.size == n && second.size == cs[a].size - n
    ensures a + n !in cs && lo in cs
    ensures var cs' := cs[a := first][a + n := second];
            forall b, c :: b in cs' && c in cs' && b < c ==> b + cs'[b].size <= c
  {
    var cs' := cs[a := first][a + n := second];
    forall b, c | b in cs' && c in cs' && b < c
      ensures b + cs'[b].size <= c
    {
      assert b in cs ==> GoodChunk(cs, b, lo, hi);
      assert b != a + n ==> b in cs;
    }
  }

  lemma TakeTiles(cs: Chunks, lo: int, hi: int, a: int, nb: int, asked: int)
    requires Tiles(cs, lo, hi) && a in cs && nb % 8 == 0 && MIN_CHUNK <= nb <= cs[a].size && 0 <= asked <= nb - 4
    ensures Tiles(Take(cs, a, nb, asked), lo, hi)
    ensures cs[a].size >= nb + MIN_CHUNK ==> a + nb !in cs
  {
    assert GoodChunk(cs, a, lo, hi) && AlignedAt(a, cs[a].size);
    if cs[a].size >= nb + MIN_CHUNK {
      CutTiles(cs, lo, hi, a, nb, Block(nb, asked, true), Hole(cs[a].size - nb));
    } else {
      ReplaceTiles(cs, lo, hi, a, Block(cs[a].size, asked, true));
    }
  }

  /** The block handed out is less than 16 bytes larger than it must be, what is left of the chunk is free behind it,
      and no other chunk changes. */
  lemma TakeExactly(cs: Chunks, lo: int, hi: int, a: int, nb: int, asked: int)
    requires Tiles(cs, lo, hi) && a in cs && nb % 8 == 0 && MIN_CHUNK <= nb <= cs[a].size && 0 <= asked <= nb - 4
    ensures var cs' := Take(cs, a, nb, asked);
            && cs'[a].Block? && cs'[a].asked == asked && nb <= cs'[a].size < nb + 16
            && (cs'[a].size < cs[a].size ==> a + nb in cs' && cs'[a + nb] == Hole(cs[a].size - nb))
            && forall b :: b in cs && b != a ==> b in cs' && cs'[b] == cs[b]
  {
    TakeTiles(cs, lo, hi, a, nb, asked);
    hide Tiles;
  }

  /** The chunk that ends at `end`, if it is free. */
  ghost predicate FreeTop(cs: Chunks, end: int, a: int) { a in cs && cs[a].Hole? && a + cs[a].size == end }

  /** Where room added at the heap end begins: at the chunk that touches the end if it is free, else at the end. */
  ghost function Top(cs: Chunks, end: int): int {
    if exists a :: FreeTop(cs, end, a) then
      var a :| FreeTop(cs, end, a);
      a
    else end
  }

  /** The tiling after the heap end moves from `end` to `newEnd`: the chunk that touched the old end grows
      if it is free, and a new free chunk appears otherwise. */
  ghost function Grown(cs: Chunks, end: int, newEnd: int): Chunks {
    cs[Top(cs, end) := Hole(newEnd - Top(cs, end))]
  }

  lemma GrownIs(cs: Chunks, lo: int, end: int, newEnd: int, a: int)
    requires Tiles(cs, lo, end) && FreeTop(cs, end, a)
    ensures Grown(cs, end, newEnd) == cs[a := Hole(newEnd - a)]
  {
    forall b | FreeTop(cs, end, b)
      ensures a == b
    {
      assert GoodChunk(cs, a, lo, end) && GoodChunk(cs, b, lo, end);
    }
  }

  lemma GrownTiles(cs: Chunks, lo: int, end: int, newEnd: int)
    requires Tiles(cs, lo, end) && end % 8 == 0 && newEnd % 8 == 0 && newEnd >= end + MIN_CHUNK
    ensures Tiles(Grown(cs, end, newEnd), lo, newEnd)
  {
    if a :| FreeTop(cs, end, a) {
      GrownIs(cs, lo, end, newEnd, a);
      StretchTiles(cs, lo, end, newEnd, a);
    } else {
      AppendTiles(cs, lo, end, newEnd);
    }
  }

  lemma StretchTiles(cs: Chunks, lo: int, end: int, newEnd: int, a: int)
    requires Tiles(cs, lo, end) && FreeTop(cs, end, a) && newEnd % 8 == 0 && newEnd >= end
    ensures Tiles(cs[a := Hole(newEnd - a)], lo, newEnd)
  {
    var cs' := cs[a := Hole(newEnd - a)];
    assert GoodChunk(cs, a, lo, end);
    forall b | b in cs'
      ensures GoodChunk(cs', b, lo, newEnd)
      ensures AlignedAt(b, cs'[b].size)
      ensures b <= a
    {
      assert GoodChunk(cs, b, lo, end) && AlignedAt(b, cs[b].size);
    }
  }

  lemma AppendTiles(cs: Chunks, lo: int, end: int, newEnd: int)
    requires Tiles(cs, lo, end) && end % 8 == 0 && newEnd % 8 == 0 && newEnd >= end + MIN_CHUNK
    ensures Tiles(cs[end := Hole(newEnd - end)], lo, newEnd)
  {
    var cs' := cs[end := Hole(newEnd - end)];
    assert GoodChunk(cs, lo, lo, end);
    forall b | b in cs'
      ensures GoodChunk(cs', b, lo, newEnd)
      ensures AlignedAt(b, cs'[b].size)
      ensures b != end ==> b + cs'[b].size <= end
    {
      assert b != end ==> GoodChunk(cs, b, lo, end) && AlignedAt(b, cs[b].size);
    }
  }

  // ----- The free list -----

  /** Free chunks by address, with their sizes. */
  ghost function FreeMap(cs: Chunks): map<int, int> { map a | a in cs && cs[a].Hole? :: cs[a].size }

  /** A chunk's links are a node, and neither they nor its header touch the list head. */
  predicate ClearOf(head: Word, a: int) {
    IsNode(a + 8) && a > 0 && Apart(a + 8, head) && a + 4 != head && a + 4 != head + 4
  }

  predicate Gap(a: int, b: int) { a + MIN_CHUNK <= b }

  /** Chunks far enough apart, from each other and from the list head, for their links not to overlap. */
  ghost predicate Spaced(fs: map<int, int>, head: Word) {
    && IsNode(head)
    && (forall a {:trigger ClearOf(head, a)} :: a in fs ==> ClearOf(head, a))
    && (forall a, b {:trigger Gap(a, b)} :: a in fs && b in fs && a < b ==> Gap(a, b))
  }

  /** list_entry: the chunk whose link sits at p. */
  function Entry(p: int): int { p - 8 }

  predicate OnList(fl: seq<Word>, a: int) { exists i :: 0 <= i < |fl| && fl[i] == a + 8 }

  predicate InOrder(fl: seq<Word>, fs: map<int, int>, i: int, j: int) {
    0 <= i < j < |fl| && Entry(fl[i]) in fs && Entry(fl[j]) in fs && fs[Entry(fl[i])] <= fs[Entry(fl[j])]
  }

  /** `fl` names exactly the chunks of fs, smallest first. */
  ghost predicate Lists(fl: seq<Word>, fs: map<int, int>) {
    && (forall i :: 0 <= i < |fl| ==> Entry(fl[i]) in fs)
    && (forall a {:trigger OnList(fl, a)} :: a in fs ==> OnList(fl, a))
    && (forall i, j {:trigger InOrder(fl, fs, i, j)} :: 0 <= i < j < |fl| ==> InOrder(fl, fs, i, j))
  }

  /** The headers of the chunks of fs carry their sizes. */
  ghost predicate Sized(m: Ram, fs: map<int, int>) {
    forall a {:trigger SizedAt(m, a, fs[a])} :: a in fs ==> SizedAt(m, a, fs[a])
  }

  predicate SizedAt(m: Ram, a: int, size: int) { 0 <= a + 4 < WORD_LIMIT && SizeOf(m[a + 4]) == size }

  /** The list at `head` holds exactly the chunks of fs, smallest first. */
  ghost predicate FreeList(m: Ram, head: Word, fl: seq<Word>, fs: map<int, int>) {
    IsList(m, head, fl) && Spaced(fs, head) && Lists(fl, fs) && Sized(m, fs)
  }

  /** x is a link word of the list head or of a chunk of fs. */
  predicate IsLink(x: int, head: Word, fs: map<int, int>) {
    x == head || x == head + 4 || x - 8 in fs || x - 12 in fs
  }

  ghost predicate OnlyLinksChanged(m: Ram, m': Ram, head: Word, fs: map<int, int>) {
    forall x :: 0 <= x < WORD_LIMIT && !IsLink(x, head, fs) ==> m'[x] == m[x]
  }

  lemma HeaderNotALink(fs: map<int, int>, head: Word, a: int)
    requires Spaced(fs, head) && a in fs
    ensures !IsLink(a + 4, head, fs)
  {
    assert ClearOf(head, a);
    assert a - 4 in fs ==> Gap(a - 4, a);
    assert a - 8 in fs ==> Gap(a - 8, a);
  }

  /** Header words are not link words, so an edit of links keeps them. */
  lemma SizesKept(m: Ram, m': Ram, head: Word, fs: map<int, int>)
    requires Spaced(fs, head) && Sized(m, fs) && OnlyLinksChanged(m, m', head, fs)
    ensures Sized(m', fs)
  {
    forall a | a in fs
      ensures SizedAt(m', a, fs[a])
    {
      assert SizedAt(m, a, fs[a]);
      HeaderNotALink(fs, head, a);
    }
  }

  /** The neighbours of position k on the list are the head or links of listed chunks. */
  lemma LinkOfList(head: Word, fl: seq<Word>, fs: map<int, int>, k: nat)
    requires k <= |fl| && forall i :: 0 <= i < |fl| ==> Entry(fl[i]) in fs
    ensures var d := [head] + fl;
            && (d[k] == head || Entry(d[k]) in fs)
            && (After(d, k) == head || Entry(After(d, k)) in fs)
  {
    var d := [head] + fl;
    assert k > 0 ==> fl[k - 1] == d[k];
    assert k < |fl| ==> fl[k] == After(d, k);
  }

  lemma NewNodeApart(head: Word, fl: seq<Word>, fs: map<int, int>, c: int, size: int)
    requires Lists(fl, fs) && c !in fs && Spaced(fs[c := size], head)
    ensures IsNode(c + 8) && ApartFrom(c + 8, [head] + fl)
  {
    var fs' := fs[c := size];
    assert c in fs' && ClearOf(head, c);
    forall i | 0 <= i < |[head] + fl|
      ensures Apart(c + 8, ([head] + fl)[i])
    {
      if i > 0 {
        var a := Entry(fl[i - 1]);
        assert a in fs && a in fs' && a != c;
        assert if a < c then Gap(a, c) else Gap(c, a);
      }
    }
  }

  /** Position k separates the smaller chunks of the list from those of at least `size`. */
  ghost predicate SplitsAt(fl: seq<Word>, fs: map<int, int>, size: int, k: nat) {
    && k <= |fl|
    && (forall i :: 0 <= i < k ==> Entry(fl[i]) in fs && fs[Entry(fl[i])] < size)
    && (forall i :: k <= i < |fl| ==> Entry(fl[i]) in fs && size <= fs[Entry(fl[i])])
  }

  lemma InsertLists(fl: seq<Word>, fs: map<int, int>, c: int, size: int, k: nat)
    requires Lists(fl, fs) && c !in fs && 0 <= c + 8 < WORD_LIMIT && SplitsAt(fl, fs, size, k)
    ensures Lists(Inserted(fl, k, c + 8), fs[c := size])
  {
    var fl', fs' := Inserted(fl, k, c + 8), fs[c := size];
    forall a | a in fs'
      ensures OnList(fl', a)
    {
      if a == c {
        assert fl'[k] == a + 8;
      } else {
        assert OnList(fl, a);
        var i :| 0 <= i < |fl| && fl[i] == a + 8;
        assert fl'[if i < k then i else i + 1] == a + 8;
      }
    }
    forall i, j | 0 <= i < j < |fl'|
      ensures InOrder(fl', fs', i, j)
    {
      InsertInOrder(fl, fs, c, size, k, i, j);
    }
    forall i | 0 <= i < |fl'|
      ensures Entry(fl'[i]) in fs'
    {
    }
  }

  lemma InsertInOrder(fl: seq<Word>, fs: map<int, int>, c: int, size: int, k: nat, i: int, j: int)
    requires Lists(fl, fs) && c !in fs && 0 <= c + 8 < WORD_LIMIT && SplitsAt(fl, fs, size, k) && 0 <= i < j <= |fl|
    ensures InOrder(Inserted(fl, k, c + 8), fs[c := size], i, j)
  {
    var i', j' := if i <= k then i else i - 1, if j <= k then j else j - 1;
    assert i != k && j != k ==> InOrder(fl, fs, i', j');
  }

  lemma RemoveLists(head: Word, fl: seq<Word>, fs: map<int, int>, k: nat)
    requires Lists(fl, fs) && Nodes([head] + fl) && k < |fl|
    ensures Lists(Removed(fl, k), fs - {Entry(fl[k])})
  {
    var d, fl', fs' := [head] + fl, Removed(fl, k), fs - {Entry(fl[k])};
    forall i | 0 <= i < |fl'|
      ensures Entry(fl'[i]) in fs'
    {
      var j := if i < k then i else i + 1;
      assert fl'[i] == fl[j] && d[j + 1] == fl[j] && d[k + 1] == fl[k];
      PairApart(d, j + 1, k + 1);
    }
    forall a | a in fs'
      ensures OnList(fl', a)
    {
      assert OnList(fl, a);
      var i :| 0 <= i < |fl| && fl[i] == a + 8;
      assert fl'[if i < k then i else i - 1] == a + 8;
    }
    forall i, j | 0 <= i < j < |fl'|
      ensures InOrder(fl', fs', i, j)
    {
      assert InOrder(fl, fs, if i < k then i else i + 1, if j < k then j else j + 1);
    }
  }

  lemma AddOnlyLinks(m: Ram, node: Word, prev: Word, next: Word, head: Word, fs: map<int, int>)
    requires IsNode(node) && IsNode(prev) && IsNode(next) && Entry(node) in fs
    requires prev == head || Entry(prev) in fs
    requires next == head || Entry(next) in fs
    ensures OnlyLinksChanged(m, Add(m, node, prev, next), head, fs)
  {
  }

  lemma UnlinkOnlyLinks(m: Ram, prev: Word, next: Word, head: Word, fs: map<int, int>)
    requires IsNode(prev) && IsNode(next)
    requires prev == head || Entry(prev) in fs
    requires next == head || Entry(next) in fs
    ensures OnlyLinksChanged(m, Unlink(m, prev, next), head, fs)
  {
  }

  /** Linking a chunk in at its place in the size order extends the free list by it. */
  lemma InsertKeepsFreeList(m: Ram, head: Word, fl: seq<Word>, fs: map<int, int>, c: int, size: int, k: nat)
    requires FreeList(m, head, fl, fs) && c !in fs && Spaced(fs[c := size], head)
    requires Sized(m, fs[c := size])
    requires SplitsAt(fl, fs, size, k)
    ensures IsNode(c + 8)
    ensures var m' := Add(m, c + 8, ([head] + fl)[k], After([head] + fl, k));
            && FreeList(m', head, Inserted(fl, k, c + 8), fs[c := size])
            && OnlyLinksChanged(m, m', head, fs[c := size])
  {
    var fs', d := fs[c := size], [head] + fl;
    NewNodeApart(head, fl, fs, c, size);
    var m' := Add(m, c + 8, d[k], After(d, k));
    InsertRefines(m, head, fl, k, c + 8);
    LinkOfList(head, fl, fs, k);
    AddOnlyLinks(m, c + 8, d[k], After(d, k), head, fs');
    SizesKept(m, m', head, fs');
    InsertLists(fl, fs, c, size, k);
  }

  /** Unlinking a free chunk drops it, and nothing else, from the free list. */
  lemma RemoveKeepsFreeList(m: Ram, head: Word, fl: seq<Word>, fs: map<int, int>, k: nat)
    requires FreeList(m, head, fl, fs) && k < |fl|
    ensures var m' := Unlink(m, ([head] + fl)[k], After([head] + fl, k + 1));
            && FreeList(m', head, Removed(fl, k), fs - {Entry(fl[k])})
            && OnlyLinksChanged(m, m', head, fs)
  {
    var d := [head] + fl;
    var m' := Unlink(m, d[k], After(d, k + 1));
    RemoveRefines(m, head, fl, k);
    LinkOfList(head, fl, fs, k);
    LinkOfList(head, fl, fs, k + 1);
    UnlinkOnlyLinks(m, d[k], After(d, k + 1), head, fs);
    SizesKept(m, m', head, fs);
    RemoveLists(head, fl, fs, k);
  }
}
