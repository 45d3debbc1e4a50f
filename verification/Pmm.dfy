/** The bitmap frame allocator of src/mm/pmm.c. */
module Pmm {
  import opened Memory

  /** BITMAP_MAX_PAGE: the bitmap's length in bytes, which the search also takes as its page limit. */
  const BITMAP_BYTES := 131071
  const TRACKED_PAGES := 8 * 131071

  // ----- One byte of the bitmap -----

  function Mask(bit: nat): bv8
    requires bit < 8
  {
    match bit
    case 0 => 1 case 1 => 2 case 2 => 4 case 3 => 8
    case 4 => 16 case 5 => 32 case 6 => 64 case _ => 128
  }

  function TestBit(b: bv8, bit: nat): bool
    requires bit < 8
  {
    b & Mask(bit) != 0
  }

  lemma SetBitReads(b: bv8, i: nat, j: nat)
    requires i < 8 && j < 8
    ensures TestBit(b | Mask(i), j) == (i == j || TestBit(b, j))
    ensures TestBit(b & !Mask(i), j) == (i != j && TestBit(b, j))
  {
  }

  // ----- The bitmap as a sequence of used flags -----

  /** All of [p, p + n) is clear. */
  predicate FreeRun(bits: seq<bool>, p: int, n: nat) {
    0 <= p && p + n <= |bits| && forall i :: p <= i < p + n ==> !bits[i]
  }

  /** All of [p, p + n) is set. */
  predicate UsedRun(bits: seq<bool>, p: int, n: nat) {
    0 <= p && p + n <= |bits| && forall i :: p <= i < p + n ==> bits[i]
  }

  /** The bitmap with [p, p + n) set to v and everything else as it was. */
  ghost predicate Marked(bits: seq<bool>, p: int, n: nat, v: bool, bits': seq<bool>) {
    |bits'| == |bits| && forall i :: 0 <= i < |bits| ==> bits'[i] == if p <= i < p + n then v else bits[i]
  }

  ghost function CountClear(bits: seq<bool>): nat {
    if bits == [] then 0 else CountClear(bits[..|bits| - 1]) + if bits[|bits| - 1] then 0 else 1
  }

  lemma {:induction false} CountAppend(a: seq<bool>, b: seq<bool>)
    ensures CountClear(a + b) == CountClear(a) + CountClear(b)
  {
    if b == [] {
      assert a + b == a;
    } else {
      var b' := b[..|b| - 1];
      assert (a + b)[..|a + b| - 1] == a + b';
      CountAppend(a, b');
    }
  }

  lemma {:induction false} CountUniform(bits: seq<bool>, v: bool)
    requires forall i :: 0 <= i < |bits| ==> bits[i] == v
    ensures CountClear(bits) == if v then 0 else |bits|
  {
    if bits != [] {
      CountUniform(bits[..|bits| - 1], v);
    }
  }

  lemma CountBound(bits: seq<bool>)
    ensures CountClear(bits) <= |bits|
  {
  }

  /** Marking a run that was uniformly the other way moves the count by its length. */
  lemma CountMarked(bits: seq<bool>, p: nat, n: nat, v: bool, bits': seq<bool>)
    requires p + n <= |bits| && Marked(bits, p, n, v, bits')
    requires forall i :: p <= i < p + n ==> bits[i] != v
    ensures v ==> CountClear(bits') == CountClear(bits) - n
    ensures !v ==> CountClear(bits') == CountClear(bits) + n
  {
    SplitCount(bits, p, n);
    SplitCount(bits', p, n);
    assert bits'[..p] == bits[..p] && bits'[p + n..] == bits[p + n..];
    CountUniform(bits[p..p + n], !v);
    CountUniform(bits'[p..p + n], v);
  }

  /** Clearing a run adds what was set in it; nothing was clear in it exactly if it was all in use. */
  lemma CountCleared(bits: seq<bool>, p: nat, n: nat, bits': seq<bool>)
    requires p + n <= |bits| && Marked(bits, p, n, false, bits')
    ensures var k := CountClear(bits[p..p + n]);
            CountClear(bits') == CountClear(bits) + n - k && k <= n && (k == 0 <==> UsedRun(bits, p, n))
  {
    SplitCount(bits, p, n);
    SplitCount(bits', p, n);
    assert bits'[..p] == bits[..p] && bits'[p + n..] == bits[p + n..];
    CountUniform(bits'[p..p + n], false);
    CountBound(bits[p..p + n]);
    CountZero(bits[p..p + n]);
    assert forall i :: p <= i < p + n ==> bits[i] == bits[p..p + n][i - p];
  }

  lemma {:induction false} CountZero(bits: seq<bool>)
    ensures CountClear(bits) == 0 <==> forall i :: 0 <= i < |bits| ==> bits[i]
  {
    if bits != [] {
      CountZero(bits[..|bits| - 1]);
      assert forall i :: 0 <= i < |bits| - 1 ==> bits[i] == bits[..|bits| - 1][i];
    }
  }

  /** The counters after giving back n pages of which k were free already. */
  lemma ChargesExactly(available: Word, used: Word, clear: nat, n: nat, k: nat)
    requires available == 0x1000 * clear && available + used < WORD_LIMIT && k <= n <= 131071
    ensures var a, u := Wrap(available + n * 0x1000), Wrap(used - n * 0x1000);
            a == 0x1000 * (clear + n - k) && a + u == available + used <==> k == 0 && 0x1000 * n <= used
  {
  }

  /** Freeing page 5 while it is free: the counter then claims a page more than the bitmap has. */
  lemma FreeTwiceExample(bits: seq<bool>, bits': seq<bool>, available: Word)
    requires |bits| == TRACKED_PAGES && !bits[5] && Marked(bits, 5, 1, false, bits')
    requires available == 0x1000 * CountClear(bits)
    ensures Wrap(available + 0x1000) == 0x1000 * CountClear(bits') + 0x1000
  {
    CountCleared(bits, 5, 1, bits');
    CountBound(bits);
  }

  lemma SplitCount(bits: seq<bool>, p: nat, n: nat)
    requires p + n <= |bits|
    ensures CountClear(bits) == CountClear(bits[..p]) + CountClear(bits[p..p + n]) + CountClear(bits[p + n..])
  {
    assert bits == bits[..p] + bits[p..p + n] + bits[p + n..];
    CountAppend(bits[..p] + bits[p..p + n], bits[p + n..]);
    CountAppend(bits[..p], bits[p..p + n]);
  }

  // ----- The search -----

  /** find_free_page from page i on, with a run of `found` clear pages just seen that began at `first`.
      None: nothing was found and the machine halts. */
  function Search(bits: seq<bool>, pages: nat, i: nat, found: nat, first: nat): (r: Option<nat>)
    requires BITMAP_BYTES <= |bits| && first <= i
    ensures r.Some? ==> r.value < BITMAP_BYTES
    decreases BITMAP_BYTES - i
  {
    if i >= BITMAP_BYTES then None
    else
      var found' := if bits[i] then 0 else found + 1;
      var first' := if bits[i] then 0 else if first == 0 then i else first;
      if found' == pages then Some(first') else Search(bits, pages, i + 1, found', first')
  }

  function FindFreePage(bits: seq<bool>, pages: nat): (r: Option<nat>)
    requires BITMAP_BYTES <= |bits|
    ensures r.Some? ==> r.value < BITMAP_BYTES
  {
    Search(bits, pages, 0, 0, 0)
  }

  /** The answer first fit must give: the lowest free run of that length, or none if there is none. */
  ghost predicate FirstFit(bits: seq<bool>, pages: nat, r: Option<nat>)
    requires BITMAP_BYTES <= |bits|
  {
    match r
    case None => forall p :: 0 <= p && p + pages <= BITMAP_BYTES ==> !FreeRun(bits, p, pages)
    case Some(q) =>
      && q + pages <= BITMAP_BYTES && FreeRun(bits, q, pages)
      && forall p :: 0 <= p < q ==> !FreeRun(bits, p, pages)
  }

  /** While the scan's run start is genuine, what it returns is first fit. */
  lemma {:induction false} SearchIsFirstFit(bits: seq<bool>, pages: nat, i: nat, found: nat, first: nat)
    requires BITMAP_BYTES <= |bits| && i <= BITMAP_BYTES && pages > 0
    requires found < pages && found <= i && (found == 0 ==> first == 0)
             && (found > 0 ==> first == i - found && first > 0)
    requires forall k :: i - found <= k < i ==> !bits[k]
    requires i - found > 0 ==> bits[i - found - 1]
    requires i == 0 ==> bits[0] || pages == 1
    requires forall p :: 0 <= p && p + pages <= i ==> !FreeRun(bits, p, pages)
    ensures FirstFit(bits, pages, Search(bits, pages, i, found, first))
    decreases BITMAP_BYTES - i
  {
    if i < BITMAP_BYTES {
      forall p | 0 <= p && p + pages <= i + 1 && (bits[i] || found + 1 < pages)
        ensures !FreeRun(bits, p, pages)
      {
        if p + pages == i + 1 {
          assert bits[i] || !(p <= i - found - 1 < p + pages) || bits[i - found - 1];
        }
      }
      if bits[i] {
        SearchIsFirstFit(bits, pages, i + 1, 0, 0);
      } else if found + 1 < pages {
        SearchIsFirstFit(bits, pages, i + 1, found + 1, if first == 0 then i else first);
      } else {
        assert FreeRun(bits, i + 1 - pages, pages);
      }
    }
  }

  /** With page 0 free and a run still growing from it, the scan mistakes page 1 for the run's start. */
  lemma {:induction false} SearchFromPageZero(bits: seq<bool>, pages: nat, i: nat)
    requires BITMAP_BYTES <= |bits| && 1 <= i <= BITMAP_BYTES && i < pages && FreeRun(bits, 0, i)
    ensures var r := Search(bits, pages, i, i, if i == 1 then 0 else 1);
            if pages <= BITMAP_BYTES && FreeRun(bits, 0, pages) then r == Some(1) else FirstFit(bits, pages, r)
    decreases BITMAP_BYTES - i
  {
    if i < BITMAP_BYTES {
      if bits[i] {
        SearchIsFirstFit(bits, pages, i + 1, 0, 0);
      } else if i + 1 < pages {
        SearchFromPageZero(bits, pages, i + 1);
      }
    }
  }

  lemma {:induction false} SearchNoPages(bits: seq<bool>, i: nat, found: nat, first: nat)
    requires BITMAP_BYTES <= |bits| && first <= i <= BITMAP_BYTES
    ensures Search(bits, 0, i, found, first) == if exists k :: i <= k < BITMAP_BYTES && bits[k] then Some(0) else None
    decreases BITMAP_BYTES - i
  {
    if i < BITMAP_BYTES && !bits[i] {
      SearchNoPages(bits, i + 1, found + 1, if first == 0 then i else first);
    }
  }

  /** When the search can be trusted: page 0 is reserved, or no run from page 0 is mistaken for a later one. */
  ghost predicate Trusted(bits: seq<bool>, pages: nat)
    requires BITMAP_BYTES <= |bits|
  {
    bits[0] || match pages
               case 0 => exists k :: 0 <= k < BITMAP_BYTES && bits[k]
               case 1 => true
               case _ => !(pages <= BITMAP_BYTES && FreeRun(bits, 0, pages))
  }

  /** The search is first fit exactly when it can be trusted. */
  lemma FindFreePageExact(bits: seq<bool>, pages: nat)
    requires BITMAP_BYTES <= |bits|
    ensures FirstFit(bits, pages, FindFreePage(bits, pages)) <==> Trusted(bits, pages)
  {
    if pages == 0 {
      SearchNoPages(bits, 0, 0, 0);
      assert FreeRun(bits, 0, 0);
    } else if bits[0] || pages == 1 {
      SearchIsFirstFit(bits, pages, 0, 0, 0);
    } else {
      SearchFromPageZero(bits, pages, 1);
      if pages <= BITMAP_BYTES && FreeRun(bits, 0, pages) {
        assert !FirstFit(bits, pages, Some(1));
      }
    }
  }

  /** With page 0 free and page 2 used, two pages are "found" at page 1 although page 2 is taken. */
  lemma PageZeroCounterexample(bits: seq<bool>)
    requires BITMAP_BYTES <= |bits| && !bits[0] && !bits[1] && bits[2]
    ensures FindFreePage(bits, 2) == Some(1) && !FreeRun(bits, 1, 2)
  {
    SearchFromPageZero(bits, 2, 1);
    assert FreeRun(bits, 0, 2);
  }

  /** A free page above the searched range is not found, although the bitmap tracks it. */
  lemma UnsearchedPage(bits: seq<bool>)
    requires |bits| == TRACKED_PAGES && (forall i :: 0 <= i < BITMAP_BYTES ==> bits[i]) && !bits[BITMAP_BYTES]
    ensures FreeRun(bits, BITMAP_BYTES, 1) && FindFreePage(bits, 1) == None
  {
    FindFreePageExact(bits, 1);
    forall p | 0 <= p < BITMAP_BYTES
      ensures !FreeRun(bits, p, 1)
    {
      assert bits[p];
    }
  }

  // ----- The allocator -----

  /** pages needed for size bytes, with the source's 32-bit wrap. */
  function PagesFor(size: Word): nat { Wrap(size + 0xFFF) / 0x1000 }

  /** The pages are the fewest that cover the bytes, unless the sum wraps: then they are none. */
  lemma PagesCover(size: Word)
    ensures size + 0xFFF < WORD_LIMIT ==> 0x1000 * (PagesFor(size) - 1) < size <= 0x1000 * PagesFor(size)
    ensures size + 0xFFF >= WORD_LIMIT <==> size > 0xFFFF_F000
    ensures size > 0xFFFF_F000 ==> PagesFor(size) == 0
  {
  }

  /** Every byte of a request that does not wrap, from the start of page p on, lies in the pages taken for it. */
  lemma BytesInPages(p: nat, size: Word, b: nat)
    requires size <= 0xFFFF_F000 && 0x1000 * p <= b < 0x1000 * p + size
    ensures p <= b / 0x1000 < p + PagesFor(size)
  {
    PagesCover(size);
    PageOfByte(p, b, PagesFor(size));
  }

  lemma PageOfByte(p: nat, b: nat, n: nat)
    requires 0x1000 * p <= b < 0x1000 * p + 0x1000 * n
    ensures p <= b / 0x1000 < p + n
  {
  }

  /** Every page that holds a byte of [addr, addr + size) was marked `was` before and is marked `now` after. */
  ghost predicate BytesMarked(bits: seq<bool>, bits': seq<bool>, addr: nat, size: nat, was: bool, now: bool) {
    forall b :: addr <= b < addr + size ==>
      b / 0x1000 < |bits| && b / 0x1000 < |bits'| && bits[b / 0x1000] == was && bits'[b / 0x1000] == now
  }

  lemma RunBytes(bits: seq<bool>, bits': seq<bool>, p: nat, size: Word, v: bool)
    requires size <= 0xFFFF_F000 && Marked(bits, p, PagesFor(size), v, bits')
    requires p + PagesFor(size) <= |bits| && forall i :: p <= i < p + PagesFor(size) ==> bits[i] != v
    ensures BytesMarked(bits, bits', 0x1000 * p, size, !v, v)
  {
    hide PagesFor;
    forall b | 0x1000 * p <= b < 0x1000 * p + size
      ensures b / 0x1000 < |bits| && bits[b / 0x1000] != v && bits'[b / 0x1000] == v
    {
      BytesInPages(p, size, b);
    }
  }

  /** A memory map entry as the boot loader hands it over. */
  datatype MapEntry = MapEntry(addr: nat, len: nat, available: bool)

  /** ROUND_UP to a page in 32 bits. */
  function RoundUpPage(x: nat): Word { Wrap(Wrap(x) + 0xFFF) / 0x1000 * 0x1000 }

  /** The pages setup frees for an entry: those of available memory from 1 MiB up. */
  function EntryStart(e: MapEntry): nat { RoundUpPage(e.addr) / 0x1000 }

  function EntryPages(e: MapEntry): nat {
    if EntryUsable(e) then Wrap(RoundUpPage(e.addr + e.len) - RoundUpPage(e.addr)) / 0x1000 else 0
  }

  predicate EntryUsable(e: MapEntry) { e.available && Wrap(e.addr) >= 0x100000 }

  /** Available memory lies below the last page the bitmap can hold. */
  predicate EntryBounded(e: MapEntry) { e.available ==> e.addr + e.len <= 0x1000 * (8 * 131071) }

  /** An entry below 4 GiB that does not start inside the last page lies in the bitmap exactly if it is bounded; for any
      other the source would write past the bitmap's last byte. */
  lemma EntryBoundedExactly(e: MapEntry)
    requires EntryUsable(e) && e.len > 0 && e.addr <= 0xFFFF_F000 && e.addr + e.len <= WORD_LIMIT
    ensures EntryBounded(e) <==> EntryStart(e) + EntryPages(e) <= TRACKED_PAGES
  {
    var end := e.addr + e.len;
    if end <= 0xFFFF_F000 {
      RoundUpBelow(e.addr, end);
      hide RoundUpPage;
      WholePages(RoundUpPage(e.addr), RoundUpPage(end));
    } else {
      RoundUpBelow(e.addr, e.addr);
      RoundUpWraps(end);
      hide RoundUpPage;
      ToTheTop(RoundUpPage(e.addr));
    }
  }

  /** An end in the last page rounds up to 0. */
  lemma RoundUpWraps(y: nat)
    requires 0xFFFF_F000 < y <= WORD_LIMIT
    ensures RoundUpPage(y) == 0
  {
  }

  lemma ToTheTop(x: Word)
    requires x > 0 && x % 0x1000 == 0
    ensures x / 0x1000 + Wrap(0 - x) / 0x1000 == 0x10_0000
  {
    var k := x / 0x1000;
    assert x == 0x1000 * k;
    WrapNegative(k);
    PageQuotient(0x10_0000 - k);
  }

  lemma WrapNegative(k: int)
    requires 0 < k < 0x10_0000
    ensures Wrap(0 - 0x1000 * k) == 0x1000 * (0x10_0000 - k)
  {
    OneTurn(0x1000 * (0x10_0000 - k));
  }

  lemma OneTurn(y: Word)
    ensures Wrap(y - 0x1_0000_0000) == y
  {
  }

  lemma PageQuotient(j: int)
    ensures (0x1000 * j) / 0x1000 == j
  {
  }

  lemma RoundUpBelow(x: nat, y: nat)
    requires x <= y <= 0xFFFF_F000
    ensures RoundUpPage(x) <= RoundUpPage(y) && RoundUpPage(x) % 0x1000 == 0 && RoundUpPage(y) % 0x1000 == 0
    ensures y <= 0x1000 * (8 * 131071) <==> RoundUpPage(y) <= 0x1000 * (8 * 131071)
  {
    RoundUpIs(x);
    RoundUpIs(y);
    var i, j := (x + 0xFFF) / 0x1000, (y + 0xFFF) / 0x1000;
    assert i <= j;
  }

  lemma RoundUpIs(x: nat)
    requires x <= 0xFFFF_F000
    ensures var k := (x + 0xFFF) / 0x1000; RoundUpPage(x) == 0x1000 * k && 0x1000 * k - 0x1000 < x <= 0x1000 * k
    ensures RoundUpPage(x) % 0x1000 == 0
  {
    var k := (x + 0xFFF) / 0x1000;
    assert 0x1000 * k <= x + 0xFFF < WORD_LIMIT;
    WholePage(k);
  }

  /** The first such entry: one page from page 8 * 131071 on. */
  lemma EntryPastBitmap()
    ensures var e := MapEntry(0x1000 * (8 * 131071), 0x1000, true);
            EntryUsable(e) && EntryStart(e) == TRACKED_PAGES && EntryPages(e) == 1
  {
  }

  /** Setup frees the pages of available memory from 1 MiB up that start inside an entry. */
  lemma EntryFrees(e: MapEntry, p: int)
    requires EntryBounded(e)
    ensures InEntry(e, p) <==> e.available && e.addr >= 0x10_0000 && e.addr <= 0x1000 * p < e.addr + e.len
  {
    if EntryUsable(e) {
      EntryInBitmap(e);
      RoundUpIs(e.addr);
      RoundUpIs(e.addr + e.len);
      hide RoundUpPage;
      EntryStartIs(e);
    } else {
      NoPages(e);
    }
  }

  lemma EntryStartIs(e: MapEntry)
    requires EntryBounded(e) && EntryUsable(e)
    ensures 0x1000 * EntryStart(e) == RoundUpPage(e.addr)
    ensures 0x1000 * (EntryStart(e) + EntryPages(e)) == RoundUpPage(e.addr + e.len)
  {
    EntryInBitmap(e);
    RoundUpIs(e.addr);
    hide RoundUpPage;
  }

  lemma EntryInBitmap(e: MapEntry)
    requires EntryBounded(e) && EntryUsable(e)
    ensures EntryStart(e) + EntryPages(e) <= TRACKED_PAGES
    ensures EntryPages(e) > 0 ==> EntryStart(e) > 0
    ensures EntryPages(e) * 0x1000 == RoundUpPage(e.addr + e.len) - RoundUpPage(e.addr)
  {
    RoundUpMonotone(e.addr, e.addr + e.len);
    hide RoundUpPage;
    WholePages(RoundUpPage(e.addr), RoundUpPage(e.addr + e.len));
  }

  lemma WholePages(x: Word, y: Word)
    requires x <= y && x % 0x1000 == 0 && y % 0x1000 == 0
    ensures x / 0x1000 + Wrap(y - x) / 0x1000 == y / 0x1000 && Wrap(y - x) / 0x1000 * 0x1000 == y - x
  {
  }

  lemma RoundUpMonotone(x: nat, y: nat)
    requires x <= y <= 0x1000 * (8 * 131071)
    ensures RoundUpPage(x) == (x + 0xFFF) / 0x1000 * 0x1000 <= RoundUpPage(y) <= 0x1000 * (8 * 131071)
    ensures RoundUpPage(x) % 0x1000 == 0 && RoundUpPage(y) % 0x1000 == 0 && (x > 0 ==> RoundUpPage(x) > 0)
  {
  }

  class FrameAllocator {
    const bitmap: array<bv8>
    var total: Word
    var used: Word
    var available: Word

    ghost predicate Valid() {
      bitmap.Length == BITMAP_BYTES
    }

    /** The used flag of every tracked page. */
    ghost function Bits(): (s: seq<bool>)
      requires Valid()
      reads bitmap
      ensures |s| == TRACKED_PAGES
    {
      seq(TRACKED_PAGES, p requires 0 <= p < TRACKED_PAGES && bitmap.Length == BITMAP_BYTES reads bitmap =>
        TestBit(bitmap[p / 8], p % 8))
    }

    constructor ()
      ensures Valid() && total == 0 && used == 0 && available == 0
      ensures fresh(bitmap)
    {
      bitmap := new bv8[131071](_ => 0);
      total, used, available := 0, 0, 0;
    }

    method SetBit(page: nat)
      requires Valid() && page < TRACKED_PAGES
      modifies bitmap
      ensures Bits() == old(Bits())[page := true]
    {
      ghost var byte := bitmap[page / 8];
      bitmap[page / 8] := bitmap[page / 8] | Mask(page % 8);
      forall p | 0 <= p < TRACKED_PAGES
        ensures Bits()[p] == old(Bits())[page := true][p]
      {
        if p / 8 == page / 8 { SetBitReads(byte, page % 8, p % 8); }
      }
    }

    method ClearBit(page: nat)
      requires Valid() && page < TRACKED_PAGES
      modifies bitmap
      ensures Bits() == old(Bits())[page := false]
    {
      ghost var byte := bitmap[page / 8];
      bitmap[page / 8] := bitmap[page / 8] & !Mask(page % 8);
      forall p | 0 <= p < TRACKED_PAGES
        ensures Bits()[p] == old(Bits())[page := false][p]
      {
        if p / 8 == page / 8 { SetBitReads(byte, page % 8, p % 8); }
      }
    }

    method GetBit(page: nat) returns (taken: bool)
      requires Valid() && page < TRACKED_PAGES
      ensures taken == Bits()[page]
    {
      taken := TestBit(bitmap[page / 8], page % 8);
    }

    /** The counters agree with the bitmap. */
    ghost predicate Accounted()
      requires Valid()
      reads this, bitmap
    {
      available == 0x1000 * CountClear(Bits()) && available + used == total
    }

    method MarkRun(page: nat, pages: nat, value: bool)
      requires Valid() && page + pages <= TRACKED_PAGES
      modifies bitmap
      ensures Marked(old(Bits()), page, pages, value, Bits())
    {
      for i := 0 to pages
        invariant Marked(old(Bits()), page, i, value, Bits())
      {
        if value {
          SetBit(page + i);
        } else {
          ClearBit(page + i);
        }
      }
    }

    /** find_free_page */
    method FindRun(pages: nat) returns (r: Option<nat>)
      requires Valid()
      ensures r == FindFreePage(Bits(), pages)
    {
      var found, first := 0, 0;
      for i := 0 to 131071
        invariant first <= i && Search(Bits(), pages, i, found, first) == FindFreePage(Bits(), pages)
      {
        var taken := GetBit(i);
        if !taken {
          found := found + 1;
          if first == 0 {
            first := i;
          }
        } else {
          found, first := 0, 0;
        }
        if found == pages {
          return Some(first);
        }
      }
      r := None;
    }

    /** pmm_alloc; None means that no run was found and the machine halted. */
    method Alloc(size: Word) returns (r: Option<Word>)
      requires Valid() && Accounted() && Bits()[0]
      modifies this`total, this`used, this`available, bitmap
      ensures Valid() && Accounted() && Bits()[0] && total == old(total)
      ensures AllocSpec(old(Bits()), Bits(), size, r)
      ensures var found := FindFreePage(old(Bits()), PagesFor(size));
              r == if found.None? then None else Some(found.value * 0x1000)
      ensures used == old(used) + if r.Some? then 0x1000 * PagesFor(size) else 0
      ensures r.Some? && size <= 0xFFFF_F000 ==> BytesMarked(old(Bits()), Bits(), r.value, size, false, true)
    {
      hide CountClear, FindFreePage, PagesFor, BytesMarked;
      var pages := PagesFor(size);
      var run := FindRun(pages);
      FindFreePageExact(Bits(), pages);
      if run.None? {
        return None;
      }
      ghost var bits := Bits();
      MarkRun(run.value, pages, true);
      CountMarked(bits, run.value, pages, true, Bits());
      if size <= 0xFFFF_F000 { RunBytes(bits, Bits(), run.value, size, true); }
      Charge(pages);
      r := Some(run.value * 0x1000);
      assert r.value / 0x1000 == run.value;
    }

    /** Move the bytes of `pages` pages from available to used. */
    method Charge(pages: nat)
      requires 0x1000 * pages <= available && available + used == total
      modifies this`used, this`available
      ensures available == old(available) - 0x1000 * pages && used == old(used) + 0x1000 * pages
    {
      available := available - pages * 0x1000;
      used := used + pages * 0x1000;
    }

    /** pmm_alloc_from: exactly the pages asked for, or nothing. */
    method AllocFrom(addr: Word, size: Word) returns (r: Word)
      requires Valid() && Accounted() && addr / 0x1000 + PagesFor(size) <= TRACKED_PAGES
      modifies this`total, this`used, this`available, bitmap
      ensures Valid() && Accounted() && total == old(total)
      ensures var page, pages := addr / 0x1000, PagesFor(size);
              if FreeRun(old(Bits()), page, pages)
              then r == 0x1000 * page && Marked(old(Bits()), page, pages, true, Bits())
                && used == old(used) + 0x1000 * pages
              else r == 0 && Bits() == old(Bits()) && used == old(used) && available == old(available)
      ensures r != 0 && size <= 0xFFFF_F000 ==> BytesMarked(old(Bits()), Bits(), r, size, false, true)
    {
      hide CountClear, PagesFor, BytesMarked;
      var pages, page := PagesFor(size), addr / 0x1000;
      for i := 0 to pages
        invariant FreeRun(Bits(), page, i)
        modifies {}
      {
        var taken := GetBit(page + i);
        if taken {
          return 0;
        }
      }
      ghost var bits := Bits();
      MarkRun(page, pages, true);
      CountMarked(bits, page, pages, true, Bits());
      if size <= 0xFFFF_F000 { RunBytes(bits, Bits(), page, size, true); }
      Charge(pages);
      r := page * 0x1000;
    }

    /** pmm_unalloc; false means that the run is out of the searched range and the machine halted.  It frees whatever
        it is told to, and keeps the accounts exactly when all of that was in use and charged. */
    method Unalloc(addr: Word, size: Word) returns (ok: bool)
      requires Valid()
      modifies this`used, this`available, bitmap
      ensures Valid()
      ensures ok <==> addr / 0x1000 + PagesFor(size) <= BITMAP_BYTES
      ensures ok ==> Marked(old(Bits()), addr / 0x1000, PagesFor(size), false, Bits())
      ensures ok && size <= 0xFFFF_F000 ==>
                forall b :: addr / 0x1000 * 0x1000 <= b < addr / 0x1000 * 0x1000 + size ==>
                  b / 0x1000 < TRACKED_PAGES && !Bits()[b / 0x1000]
      ensures ok ==> available == Wrap(old(available) + 0x1000 * PagesFor(size))
      ensures ok ==> used == Wrap(old(used) - 0x1000 * PagesFor(size))
      ensures ok && old(Accounted()) ==>
                (Accounted() <==>
                  UsedRun(old(Bits()), addr / 0x1000, PagesFor(size)) && 0x1000 * PagesFor(size) <= old(used))
      ensures !ok ==> Bits() == old(Bits()) && used == old(used) && available == old(available)
    {
      hide CountClear, PagesFor;
      ghost var accounted := Accounted();
      var page, pages := addr / 0x1000, PagesFor(size);
      if page + pages > 131071 {
        return false;
      }
      ghost var bits := Bits();
      MarkRun(page, pages, false);
      if size <= 0xFFFF_F000 {
        forall b | 0x1000 * page <= b < 0x1000 * page + size
          ensures b / 0x1000 < TRACKED_PAGES && !Bits()[b / 0x1000]
        {
          BytesInPages(page, size, b);
        }
      }
      CountCleared(bits, page, pages, Bits());
      if accounted {
        ChargesExactly(available, used, CountClear(bits), pages, CountClear(bits[page..page + pages]));
      }
      available := Wrap(available + pages * 0x1000);
      used := Wrap(used - pages * 0x1000);
      ok := true;
    }

    /** Freeing what Alloc just returned is accepted and restores bitmap and counters. */
    method AllocThenFree(size: Word) returns (r: Option<Word>)
      requires Valid() && Accounted() && Bits()[0]
      modifies this`total, this`used, this`available, bitmap
      ensures Valid() && Bits() == old(Bits())
      ensures total == old(total) && used == old(used) && available == old(available)
    {
      r := Alloc(size);
      if r.Some? {
        var ok := Unalloc(r.value, size);
        assert ok;
      }
    }

    /** pmm_memory_setup: everything reserved, then the pages of each usable entry cleared.  The counters
        are right when no page belongs to two entries. */
    method MemorySetup(mmap: seq<MapEntry>)
      requires Valid() && available == 0 && used == 0
      requires forall i :: 0 <= i < |mmap| ==> EntryBounded(mmap[i])
      modifies this`total, this`used, this`available, bitmap
      ensures Valid() && Bits()[0] && used == 0
      ensures forall p :: 0 <= p < TRACKED_PAGES ==> (!Bits()[p] <==> Usable(mmap, |mmap|, p))
      ensures forall p :: 0 <= p < TRACKED_PAGES ==> (!Bits()[p] <==> StartsIn(mmap, p))
      ensures EntriesDisjoint(mmap) ==> Accounted()
    {
      ReserveAll();
      CountUniform(Bits(), true);
      for i := 0 to |mmap|
        invariant Valid() && used == 0
        invariant EntriesDisjoint(mmap) ==> available == 0x1000 * CountClear(Bits())
        invariant forall p :: 0 <= p < TRACKED_PAGES ==> (!Bits()[p] <==> Usable(mmap, i, p))
      {
        SetupEntry(mmap, i);
      }
      total := available;
      NotUsableZero(mmap);
      forall p ensures Usable(mmap, |mmap|, p) <==> StartsIn(mmap, p) { UsableIs(mmap, p); }
    }

    method SetupEntry(mmap: seq<MapEntry>, i: nat)
      requires Valid() && i < |mmap| && EntryBounded(mmap[i])
      requires EntriesDisjoint(mmap) ==> available == 0x1000 * CountClear(Bits())
      requires forall p :: 0 <= p < TRACKED_PAGES ==> (!Bits()[p] <==> Usable(mmap, i, p))
      modifies this`available, bitmap
      ensures EntriesDisjoint(mmap) ==> available == 0x1000 * CountClear(Bits())
      ensures forall p :: 0 <= p < TRACKED_PAGES ==> (!Bits()[p] <==> Usable(mmap, i + 1, p))
    {
      hide CountClear, EntriesDisjoint, EntryStart, EntryPages;
      UsableStep(mmap, i);
      if EntryUsable(mmap[i]) {
        var start, pages := EntryStart(mmap[i]), EntryPages(mmap[i]);
        EntryInBitmap(mmap[i]);
        ghost var bits := Bits();
        MarkRun(start, pages, false);
        available := Wrap(available + pages * 0x1000);
        if EntriesDisjoint(mmap) {
          StillReserved(mmap, i, bits);
          CountMarked(bits, start, pages, false, Bits());
          CountBound(Bits());
        }
      } else {
        NoPages(mmap[i]);
      }
    }

    method ReserveAll()
      requires Valid()
      modifies bitmap
      ensures forall p :: 0 <= p < TRACKED_PAGES ==> Bits()[p]
    {
      for i := 0 to 131071
        invariant forall k :: 0 <= k < i ==> bitmap[k] == 0xFF
      {
        bitmap[i] := 0xFF;
      }
      forall p | 0 <= p < TRACKED_PAGES
        ensures Bits()[p]
      {
        AllOnes(p % 8);
      }
    }
  }

  lemma AllOnes(bit: nat)
    requires bit < 8
    ensures TestBit(0xFF, bit)
  {
  }

  /** The run Alloc hands out: the lowest free one, now marked; or nothing changed because there is none. */
  ghost predicate AllocSpec(bits: seq<bool>, bits': seq<bool>, size: Word, r: Option<Word>)
    requires |bits| == |bits'| == TRACKED_PAGES
  {
    var pages := PagesFor(size);
    match r
    case None => bits' == bits && FirstFit(bits, pages, None)
    case Some(addr) =>
      && addr % 0x1000 == 0 && FirstFit(bits, pages, Some(addr / 0x1000))
      && Marked(bits, addr / 0x1000, pages, true, bits')
  }

  /** Page p belongs to one of the first n usable entries. */
  ghost predicate Usable(mmap: seq<MapEntry>, n: nat, p: int)
    requires n <= |mmap|
  {
    exists i :: 0 <= i < n && InEntry(mmap[i], p)
  }

  /** Page p starts inside an available entry at or above 1 MiB. */
  ghost predicate StartsIn(mmap: seq<MapEntry>, p: int) {
    exists i :: 0 <= i < |mmap| && mmap[i].available && mmap[i].addr >= 0x10_0000
                && mmap[i].addr <= 0x1000 * p < mmap[i].addr + mmap[i].len
  }

  lemma UsableIs(mmap: seq<MapEntry>, p: int)
    requires forall i :: 0 <= i < |mmap| ==> EntryBounded(mmap[i])
    ensures Usable(mmap, |mmap|, p) <==> StartsIn(mmap, p)
  {
    hide InEntry, EntryBounded;
    if i :| 0 <= i < |mmap| && InEntry(mmap[i], p) { EntryFrees(mmap[i], p); }
    if i :| 0 <= i < |mmap| && mmap[i].available && mmap[i].addr >= 0x10_0000
            && mmap[i].addr <= 0x1000 * p < mmap[i].addr + mmap[i].len { EntryFrees(mmap[i], p); }
  }

  predicate InEntry(e: MapEntry, p: int) { EntryStart(e) <= p < EntryStart(e) + EntryPages(e) }

  /** No page belongs to two usable entries. */
  ghost predicate EntriesDisjoint(mmap: seq<MapEntry>) {
    forall i, j, p :: 0 <= i < j < |mmap| ==> !(InEntry(mmap[i], p) && InEntry(mmap[j], p))
  }

  lemma StillReserved(mmap: seq<MapEntry>, i: nat, bits: seq<bool>)
    requires i < |mmap| && EntriesDisjoint(mmap) && |bits| == TRACKED_PAGES
    requires EntryStart(mmap[i]) + EntryPages(mmap[i]) <= TRACKED_PAGES
    requires forall p :: 0 <= p < TRACKED_PAGES ==> (!bits[p] <==> Usable(mmap, i, p))
    ensures UsedRun(bits, EntryStart(mmap[i]), EntryPages(mmap[i]))
  {
    forall p | EntryStart(mmap[i]) <= p < EntryStart(mmap[i]) + EntryPages(mmap[i])
      ensures bits[p]
    {
      assert InEntry(mmap[i], p);
    }
  }

  lemma NoPages(e: MapEntry)
    requires !EntryUsable(e)
    ensures EntryPages(e) == 0
  {
  }

  lemma UsableStep(mmap: seq<MapEntry>, i: nat)
    requires i < |mmap|
    ensures forall p :: Usable(mmap, i + 1, p) <==> Usable(mmap, i, p) || InEntry(mmap[i], p)
  {
  }

  lemma NotUsableZero(mmap: seq<MapEntry>)
    requires forall i :: 0 <= i < |mmap| ==> EntryBounded(mmap[i])
    ensures !Usable(mmap, |mmap|, 0)
  {
    forall i | 0 <= i < |mmap|
      ensures !InEntry(mmap[i], 0)
    {
      if EntryUsable(mmap[i]) { EntryInBitmap(mmap[i]); }
    }
  }
}
