/** Two-level page tables in physical memory: 32-bit paging with 4 KiB pages, section 4.3 of the Intel
    Software Developer's Manual, volume 3A, as src/mm/vmm.c edits them.  This module is the meaning of
    each operation on memory; PagingMachine proves that the code, which works through two movable windows,
    computes exactly this. */
module Paging {
  import opened Memory
  import opened Bits
  import opened Pmm

  const FRAMES := 0x100000

  type Table = t: seq<Word> | |t| == 1024 ghost witness seq(1024, _ => 0)
  type Frames = m: seq<Table> | |m| == FRAMES ghost witness seq<Table>(FRAMES, _ => EmptyTable())

  function EmptyTable(): Table { seq(1024, _ => 0) }

  // ----- Entries -----

  predicate Present(w: Word) { w % 2 == 1 }

  function FrameOf(w: Word): (f: int)
    ensures 0 <= f < 0x100000
  {
    w / 0x1000
  }

  /** A directory entry the kernel writes: present, writable, user. */
  function TableEntry(f: int): Word
    requires 0 <= f < 0x100000
  {
    f * 0x1000 + 7
  }

  lemma TableEntryReads(f: int)
    requires 0 <= f < 0x100000
    ensures Present(TableEntry(f)) && FrameOf(TableEntry(f)) == f
  {
  }

  /** Present, writable and user, the three lowest bits, are set and the rest is the frame's address. */
  lemma TableEntryBits(f: int)
    requires 0 <= f < 0x100000
    ensures forall k: nat :: Bit(TableEntry(f), k) <==> Bit(f * 0x1000, k) || k < 3
    ensures TableEntry(f) % 0x1000 == 7
  {
    assert Pow2(3) == 8;
    forall k: nat ensures Bit(TableEntry(f), k) <==> Bit(f * 0x1000, k) || k < 3 {
      assert f * 0x1000 == (f * 0x200) * Pow2(3);
      JoinBits(f * 0x200, 7, 3, k);
      JoinBits(f * 0x200, 0, 3, k);
      if k < 3 { SevenBits(k); }
    }
  }

  lemma SevenBits(k: nat)
    requires k < 3
    ensures Bit(7, k)
  {
    if k == 1 { assert Bit(7, 1) == Bit(3, 0); } else if k == 2 { assert Bit(7, 2) == Bit(3, 1) == Bit(1, 0); }
  }

  /** The word at index i of frame f, 0 outside memory. */
  function At(m: Frames, f: int, i: int): Word { if 0 <= f < 0x100000 && 0 <= i < 1024 then m[f][i] else 0 }

  function Write(m: Frames, f: int, i: int, w: Word): Frames
    requires 0 <= f < 0x100000 && 0 <= i < 1024
  {
    m[f := m[f][i := w]]
  }

  function Zeroed(m: Frames, f: int): Frames
    requires 0 <= f < 0x100000
  {
    m[f := EmptyTable()]
  }

  lemma AtWrite(m: Frames, f: int, i: int, w: Word, g: int, j: int)
    requires 0 <= f < 0x100000 && 0 <= i < 1024
    ensures At(Write(m, f, i, w), g, j) == if g == f && j == i then w else At(m, g, j)
  {
  }

  lemma AtZeroed(m: Frames, f: int, g: int, j: int)
    requires 0 <= f < 0x100000
    ensures At(Zeroed(m, f), g, j) == if g == f then 0 else At(m, g, j)
  {
  }

  // ----- Virtual addresses -----

  datatype Offsets = Offsets(tid: Word, pid: Word, off: Word)

  function VirtToOffs(virt: Word): Offsets { Offsets(virt / 0x400000 % 1024, virt / 0x1000 % 1024, virt % 0x1000) }

  /** Shifts and masks drop whatever does not fit a field. */
  function OffsToVirt(o: Offsets): Word { o.tid % 1024 * 0x400000 + o.pid % 1024 * 0x1000 + o.off % 0x1000 }

  lemma OffsetsRoundTrip(virt: Word, o: Offsets)
    ensures OffsToVirt(VirtToOffs(virt)) == virt
    ensures VirtToOffs(OffsToVirt(o)) == o <==> o.tid < 1024 && o.pid < 1024 && o.off < 0x1000
  {
    hide VirtToOffs, OffsToVirt;
    SplitFields(virt);
    KeptFields(o);
    FieldFits(o.tid);
    FieldFits(o.pid);
    OffsetFits(o.off);
  }

  lemma SplitFields(virt: Word)
    ensures OffsToVirt(VirtToOffs(virt)) == virt
  {
    var q, r := virt / 0x1000, virt % 0x1000;
    JoinFields(q / 1024, q % 1024, r);
  }

  /** Joining keeps of each field what fits it. */
  lemma KeptFields(o: Offsets)
    ensures VirtToOffs(OffsToVirt(o)) == Offsets(o.tid % 1024, o.pid % 1024, o.off % 0x1000)
  {
    var t, p, f := o.tid % 1024, o.pid % 1024, o.off % 0x1000;
    JoinFields(t, p, f);
    FieldFits(t);
  }

  lemma FieldFits(x: Word)
    ensures x % 1024 == x <==> x < 1024
  {
  }

  lemma OffsetFits(x: Word)
    ensures x % 0x1000 == x <==> x < 0x1000
  {
  }

  lemma JoinFields(t: int, p: int, o: int)
    requires 0 <= t < 1024 && 0 <= p < 1024 && 0 <= o < 0x1000
    ensures var a := t * 0x400000 + p * 0x1000 + o;
            a / 0x400000 == t && a / 0x1000 == t * 1024 + p && a / 0x1000 % 1024 == p && a % 0x1000 == o
  {
  }

  /** Virtual page numbers: slot v / 1024 of the directory, entry v % 1024 of the table. */
  function Slot(v: int): int { v / 1024 }

  function Next(v: int): int { (v + 1) % 0x100000 }

  /** How far u lies past v, around the 4 GiB address space. */
  function Ahead(v: int, u: int): int { (u - v) % 0x100000 }

  lemma AheadNext(v: int, u: int)
    requires 0 <= v < 0x100000 && 0 <= u < 0x100000
    ensures Ahead(v, v) == 0 && (u != v ==> Ahead(v, u) > 0) && 0 <= Ahead(v, u) < 0x100000
    ensures Ahead(Next(v), u) == if u == v then 0xFFFFF else Ahead(v, u) - 1
  {
  }

  /** The table entry that maps page v in directory d; 0 when the directory has no table there. */
  function Pte(m: Frames, d: int, v: int): Word {
    if Present(At(m, d, Slot(v))) then At(m, FrameOf(At(m, d, Slot(v))), v % 1024) else 0
  }

  /** The translation the processor makes of a virtual address under directory d: bits 31-22 choose the directory
      entry, bits 21-12 the table entry, each counts only if its bit 0 is set, and bits 31-12 of each name a frame. */
  function Translated(m: Frames, d: int, virt: Word): Option<Word> {
    var pde := At(m, d, virt / 0x400000);
    if pde % 2 != 1 then None
    else
      var pte := At(m, pde / 0x1000, virt / 0x1000 % 1024);
      if pte % 2 != 1 then None else Some(pte / 0x1000 * 0x1000 + virt % 0x1000)
  }

  /** Page table entries are what the processor walks to, and the code's split of an address is the processor's. */
  lemma PteTranslates(m: Frames, d: int, virt: Word)
    ensures var w := Pte(m, d, virt / 0x1000);
            Translated(m, d, virt) == if Present(w) then Some(FrameOf(w) * 0x1000 + virt % 0x1000) else None
    ensures VirtToOffs(virt) == Offsets(Slot(virt / 0x1000), virt / 0x1000 % 1024, virt % 0x1000)
  {
    var q := virt / 0x1000;
    assert virt / 0x400000 == q / 1024 && q / 1024 < 1024;
  }

  // ----- The state -----

  /** Where the kernel image keeps its directory, its first table and the two windows.  All four lie in the
      first 4 MiB, which that table maps onto itself, so the window at page w is entry w of the table, and the
      code reaches directory and table at their own pages. */
  datatype Layout = Layout(kdir: int, btab: int, wdir: int, wtab: int)

  /** Memory, the allocator's used flags, and every live directory with the slots it inherited from the
      kernel directory when it was forked. */
  datatype Sys = Sys(mem: Frames, bits: seq<bool>, dirs: map<int, set<int>>)

  datatype Result = Halted | Ok(sys: Sys, ret: int)

  /** A slot through which d reaches tables that other directories may reach too. */
  predicate Common(l: Layout, s: Sys, d: int, t: int) { d in s.dirs && (d == l.kdir || t in s.dirs[d]) }

  /** d and e reach the same table in slot t. */
  predicate Shares(l: Layout, s: Sys, d: int, e: int, t: int) { d == e || (Common(l, s, d, t) && Common(l, s, e, t)) }

  predicate Taken(s: Sys, f: int) { 0 < f < |s.bits| && s.bits[f] }

  ghost predicate LayoutOk(l: Layout, s: Sys) {
    && 0 < l.kdir < 1024 && 0 < l.btab < 1024 && 0 < l.wdir < 1024 && 0 < l.wtab < 1024
    && l.kdir != l.btab && l.kdir != l.wdir && l.kdir != l.wtab
    && l.btab != l.wdir && l.btab != l.wtab && l.wdir != l.wtab
    && Taken(s, l.btab) && Taken(s, l.wdir) && Taken(s, l.wtab)
    && At(s.mem, l.kdir, 0) == TableEntry(l.btab)
    && At(s.mem, l.btab, l.wdir) == TableEntry(l.wdir)
    && At(s.mem, l.btab, l.wtab) == TableEntry(l.wtab)
    && At(s.mem, l.btab, l.btab) == TableEntry(l.btab)
    && At(s.mem, l.btab, l.kdir) == TableEntry(l.kdir)
  }

  predicate DirOk(l: Layout, s: Sys, d: int) {
    && Taken(s, d) && d != l.btab && d != l.wdir && d != l.wtab
    && (d != l.kdir ==> d in s.dirs && 0 in s.dirs[d])
  }

  predicate TableOk(l: Layout, s: Sys, d: int, t: int) {
    var f := FrameOf(At(s.mem, d, t));
    Taken(s, f) && f !in s.dirs && f != l.wdir && f != l.wtab
  }

  /** Two present slots that hold the same table are the same slot, reached by one directory or in common. */
  predicate ApartOk(l: Layout, s: Sys, d: int, t: int, e: int, u: int) {
    FrameOf(At(s.mem, d, t)) == FrameOf(At(s.mem, e, u)) ==> t == u && Shares(l, s, d, e, t)
  }

  predicate InheritOk(l: Layout, s: Sys, d: int, t: int) {
    0 <= t < 1024 && Present(At(s.mem, l.kdir, t)) && At(s.mem, d, t) == At(s.mem, l.kdir, t)
  }

  predicate Live(s: Sys, d: int, t: int) { d in s.dirs && 0 <= t < 1024 && Present(At(s.mem, d, t)) }

  /** The invariant of every run: frames in use are reserved, directories and tables are distinct frames,
      tables are shared only where inherited, and both windows are closed. */
  ghost predicate WellFormed(l: Layout, s: Sys) {
    && |s.bits| == TRACKED_PAGES && s.bits[0]
    && LayoutOk(l, s)
    && l.kdir in s.dirs
    && (forall d {:trigger DirOk(l, s, d)} :: d in s.dirs ==> DirOk(l, s, d))
    && (forall d, t {:trigger TableOk(l, s, d, t)} :: Live(s, d, t) ==> TableOk(l, s, d, t))
    && (forall d, t, e, u {:trigger ApartOk(l, s, d, t, e, u)} ::
       Live(s, d, t) && Live(s, e, u) ==> ApartOk(l, s, d, t, e, u))
    && (forall d, t {:trigger InheritOk(l, s, d, t)} :: d in s.dirs && t in s.dirs[d] ==> InheritOk(l, s, d, t))
  }

  // ----- The operations -----

  /** The state after a fresh, empty table f is hung into slot t of d. */
  function Hung(s: Sys, d: int, t: int, f: int): Sys
    requires 0 <= d < FRAMES && 0 <= t < 1024 && 0 <= f < FRAMES && f < |s.bits|
  {
    s.(mem := Write(Zeroed(s.mem, f), d, t, TableEntry(f)), bits := s.bits[f := true])
  }

  /** ensure_table: None means that the allocator found no frame and the machine halted. */
  function EnsureTable(s: Sys, d: int, t: int): (r: Option<Sys>)
    requires |s.bits| == TRACKED_PAGES && 0 <= d < FRAMES && 0 <= t < 1024
    ensures r.Some? ==> |r.value.bits| == TRACKED_PAGES && r.value.dirs == s.dirs
  {
    if Present(At(s.mem, d, t)) then Some(s)
    else match FindFreePage(s.bits, 1)
      case None => None
      case Some(f) => Some(Hung(s, d, t, f))
  }

  /** Store w in the table entry that maps page v in d. */
  function SetPte(s: Sys, d: int, v: int, w: Word): Sys
    requires 0 <= v < FRAMES
  {
    s.(mem := Write(s.mem, FrameOf(At(s.mem, d, Slot(v))), v % 1024, w))
  }

  // ----- ensure_table keeps the invariant and every translation -----

  /** A frame the allocator hands out is no directory, no table and no window. */
  lemma FreshFrame(l: Layout, s: Sys, f: int)
    requires WellFormed(l, s) && 0 < f < |s.bits| && !s.bits[f]
    ensures f !in s.dirs && f != l.btab && f != l.wdir && f != l.wtab
    ensures forall d, t :: Live(s, d, t) ==> FrameOf(At(s.mem, d, t)) != f
  {
    assert f in s.dirs ==> DirOk(l, s, f);
    forall d, t | Live(s, d, t)
      ensures FrameOf(At(s.mem, d, t)) != f
    {
      assert TableOk(l, s, d, t);
    }
  }

  lemma FoundIsFree(s: Sys)
    requires |s.bits| == TRACKED_PAGES && s.bits[0]
    ensures var r := FindFreePage(s.bits, 1); r.Some? ==> 0 < r.value < BITMAP_BYTES && !s.bits[r.value]
  {
    FindFreePageExact(s.bits, 1);
    var r := FindFreePage(s.bits, 1);
    assert r.Some? ==> FreeRun(s.bits, r.value, 1);
  }

  lemma HungReads(s: Sys, d: int, t: int, f: int, g: int, j: int)
    requires 0 <= d < FRAMES && 0 <= t < 1024 && 0 <= f < FRAMES && f < |s.bits| && d != f
    ensures At(Hung(s, d, t, f).mem, g, j) ==
            if g == d && j == t then TableEntry(f) else if g == f then 0 else At(s.mem, g, j)
  {
    AtZeroed(s.mem, f, g, j);
    AtWrite(Zeroed(s.mem, f), d, t, TableEntry(f), g, j);
  }

  lemma HungKeepsPte(l: Layout, s: Sys, d: int, t: int, f: int, e: int, v: int)
    requires WellFormed(l, s) && d in s.dirs && 0 <= t < 1024 && !Present(At(s.mem, d, t))
    requires 0 < f < |s.bits| && !s.bits[f] && e in s.dirs && 0 <= v < FRAMES
    ensures 0 <= d < FRAMES && d != f && Pte(Hung(s, d, t, f).mem, e, v) == Pte(s.mem, e, v)
  {
    FreshFrame(l, s, f);
    assert DirOk(l, s, d) && DirOk(l, s, e);
    TableEntryReads(f);
    HungReads(s, d, t, f, e, Slot(v));
    if e == d && Slot(v) == t {
      HungReads(s, d, t, f, f, v % 1024);
    } else if Present(At(s.mem, e, Slot(v))) {
      assert Live(s, e, Slot(v)) && TableOk(l, s, e, Slot(v));
      HungReads(s, d, t, f, FrameOf(At(s.mem, e, Slot(v))), v % 1024);
    }
  }

  lemma HungLive(l: Layout, s: Sys, d: int, t: int, f: int, e: int, u: int)
    requires WellFormed(l, s) && d in s.dirs && 0 <= t < 1024 && !Present(At(s.mem, d, t))
    requires 0 < f < |s.bits| && !s.bits[f]
    ensures 0 <= d < FRAMES && d != f
    ensures var s' := Hung(s, d, t, f);
            && (Live(s', e, u) <==> Live(s, e, u) || (e == d && u == t))
            && (e in s.dirs ==> At(s'.mem, e, u) == if e == d && u == t then TableEntry(f) else At(s.mem, e, u))
  {
    FreshFrame(l, s, f);
    assert DirOk(l, s, d);
    TableEntryReads(f);
    HungReads(s, d, t, f, e, u);
  }

  lemma HungTables(l: Layout, s: Sys, d: int, t: int, f: int, e: int, u: int, e': int, u': int)
    requires WellFormed(l, s) && d in s.dirs && 0 <= t < 1024 && !Present(At(s.mem, d, t))
    requires 0 < f < |s.bits| && !s.bits[f]
    ensures 0 <= d < FRAMES
    ensures var s' := Hung(s, d, t, f);
            Live(s', e, u) && Live(s', e', u') ==> TableOk(l, s', e, u) && ApartOk(l, s', e, u, e', u')
  {
    FreshFrame(l, s, f);
    TableEntryReads(f);
    HungLive(l, s, d, t, f, e, u);
    HungLive(l, s, d, t, f, e', u');
    if Live(s, e, u) { assert TableOk(l, s, e, u); }
    if Live(s, e, u) && Live(s, e', u') { assert ApartOk(l, s, e, u, e', u'); }
  }

  lemma HungWellFormed(l: Layout, s: Sys, d: int, t: int, f: int)
    requires WellFormed(l, s) && d in s.dirs && 0 <= t < 1024 && !Present(At(s.mem, d, t))
    requires 0 < f < |s.bits| && !s.bits[f]
    ensures 0 <= d < FRAMES && WellFormed(l, Hung(s, d, t, f))
  {
    assert DirOk(l, s, d) && DirOk(l, s, l.kdir);
    var s' := Hung(s, d, t, f);
    FreshFrame(l, s, f);
    HungLive(l, s, d, t, f, l.kdir, 0);
    TableEntryReads(l.btab);
    HungReads(s, d, t, f, l.btab, l.wdir);
    HungReads(s, d, t, f, l.btab, l.wtab);
    HungReads(s, d, t, f, l.btab, l.btab);
    HungReads(s, d, t, f, l.btab, l.kdir);
    forall e | e in s'.dirs ensures DirOk(l, s', e) { assert DirOk(l, s, e); }
    forall e, u | Live(s', e, u) ensures TableOk(l, s', e, u) { HungTables(l, s, d, t, f, e, u, e, u); }
    forall e, u, e', u' | Live(s', e, u) && Live(s', e', u') ensures ApartOk(l, s', e, u, e', u') {
      HungTables(l, s, d, t, f, e, u, e', u');
    }
    forall e, u | e in s'.dirs && u in s'.dirs[e] ensures InheritOk(l, s', e, u) {
      assert InheritOk(l, s, e, u);
      HungLive(l, s, d, t, f, e, u);
      HungLive(l, s, d, t, f, l.kdir, u);
    }
  }

  /** Present directory entries never change, no live directory disappears, and no frame is released. */
  ghost predicate Extends(s: Sys, s': Sys) {
    && (forall d :: d in s.dirs ==> d in s'.dirs && s'.dirs[d] == s.dirs[d])
    && (forall d, t :: Live(s, d, t) ==> At(s'.mem, d, t) == At(s.mem, d, t))
  }

  /** Every page of every live directory maps as before. */
  ghost predicate SameMaps(s: Sys, s': Sys) {
    forall d, v :: d in s.dirs && 0 <= v < FRAMES ==> Pte(s'.mem, d, v) == Pte(s.mem, d, v)
  }

  /** ensure_table either halts or leaves a table in the slot, every translation as it was, and the
      invariant intact. */
  lemma EnsureTableOk(l: Layout, s: Sys, d: int, t: int)
    requires WellFormed(l, s) && d in s.dirs && 0 <= t < 1024
    ensures 0 <= d < FRAMES
    ensures var r := EnsureTable(s, d, t);
            r.Some? ==> && WellFormed(l, r.value) && r.value.dirs == s.dirs && Live(r.value, d, t)
                        && Extends(s, r.value) && SameMaps(s, r.value)
  {
    assert DirOk(l, s, d);
    FoundIsFree(s);
    var r := FindFreePage(s.bits, 1);
    if !Present(At(s.mem, d, t)) && r.Some? {
      HungWellFormed(l, s, d, t, r.value);
      HungLive(l, s, d, t, r.value, d, t);
      forall e, v | e in s.dirs && 0 <= v < FRAMES
        ensures Pte(Hung(s, d, t, r.value).mem, e, v) == Pte(s.mem, e, v)
      {
        HungKeepsPte(l, s, d, t, r.value, e, v);
      }
      forall e, u | Live(s, e, u)
        ensures At(Hung(s, d, t, r.value).mem, e, u) == At(s.mem, e, u)
      {
        HungLive(l, s, d, t, r.value, e, u);
      }
    }
  }

  /** ensure_table halts exactly if it needs a frame and the searched range has none. */
  lemma EnsureTableSucceeds(s: Sys, d: int, t: int)
    requires |s.bits| == TRACKED_PAGES && 0 <= d < FRAMES && 0 <= t < 1024
    ensures EnsureTable(s, d, t).Some? <==>
              Present(At(s.mem, d, t)) || exists p :: 0 <= p < BITMAP_BYTES && !s.bits[p]
  {
    FrameFound(s.bits);
  }

  /** The search for one frame succeeds exactly if the searched range has a free one. */
  lemma FrameFound(bits: seq<bool>)
    requires BITMAP_BYTES <= |bits|
    ensures FindFreePage(bits, 1).Some? <==> exists p :: 0 <= p < BITMAP_BYTES && !bits[p]
    ensures FindFreePage(bits, 1).Some? ==> !bits[FindFreePage(bits, 1).value]
  {
    FindFreePageExact(bits, 1);
    var r := FindFreePage(bits, 1);
    if p :| 0 <= p < BITMAP_BYTES && !bits[p] { assert FreeRun(bits, p, 1); }
    if r.Some? { assert FreeRun(bits, r.value, 1) && !bits[r.value]; }
  }

  // ----- Editing one page -----

  /** Two live directories reach the same table in a slot exactly when they share it. */
  lemma SharesIff(l: Layout, s: Sys, d: int, e: int, t: int)
    requires WellFormed(l, s) && Live(s, d, t) && e in s.dirs
    ensures Shares(l, s, d, e, t) <==> Live(s, e, t) && FrameOf(At(s.mem, e, t)) == FrameOf(At(s.mem, d, t))
  {
    if Live(s, e, t) { assert ApartOk(l, s, d, t, e, t); }
    if Common(l, s, d, t) && Common(l, s, e, t) {
      assert t in s.dirs[d] ==> InheritOk(l, s, d, t);
      assert t in s.dirs[e] ==> InheritOk(l, s, e, t);
    }
  }

  /** A page the paging code itself works through: a window, the kernel's first table or its directory. */
  predicate IsPinned(l: Layout, v: int) { v == l.wdir || v == l.wtab || v == l.btab || v == l.kdir }

  lemma SetPteReads(l: Layout, s: Sys, d: int, v: int, w: Word, g: int, j: int)
    requires WellFormed(l, s) && 0 <= v < FRAMES && Live(s, d, Slot(v))
    ensures var f := FrameOf(At(s.mem, d, Slot(v)));
            At(SetPte(s, d, v, w).mem, g, j) == if g == f && j == v % 1024 then w else At(s.mem, g, j)
    ensures g in s.dirs ==> At(SetPte(s, d, v, w).mem, g, j) == At(s.mem, g, j)
  {
    assert TableOk(l, s, d, Slot(v));
    AtWrite(s.mem, FrameOf(At(s.mem, d, Slot(v))), v % 1024, w, g, j);
  }

  /** Editing page v through d edits it in exactly the directories that share the slot, and edits no
      other page anywhere. */
  lemma SetPteMaps(l: Layout, s: Sys, d: int, v: int, w: Word, e: int, u: int)
    requires WellFormed(l, s) && 0 <= v < FRAMES && Live(s, d, Slot(v)) && e in s.dirs && 0 <= u < FRAMES
    ensures Pte(SetPte(s, d, v, w).mem, e, u) == if u == v && Shares(l, s, d, e, Slot(v)) then w else Pte(s.mem, e, u)
  {
    SetPteReads(l, s, d, v, w, e, Slot(u));
    SharesIff(l, s, d, e, Slot(v));
    if Present(At(s.mem, e, Slot(u))) {
      assert Live(s, e, Slot(u)) && ApartOk(l, s, e, Slot(u), d, Slot(v));
      SetPteReads(l, s, d, v, w, FrameOf(At(s.mem, e, Slot(u))), u % 1024);
      assert u == 1024 * Slot(u) + u % 1024 && v == 1024 * Slot(v) + v % 1024;
    }
  }

  lemma SetPteLayout(l: Layout, s: Sys, d: int, v: int, w: Word)
    requires WellFormed(l, s) && 0 <= v < FRAMES && Live(s, d, Slot(v)) && !IsPinned(l, v)
    ensures LayoutOk(l, SetPte(s, d, v, w))
  {
    SetPteReads(l, s, d, v, w, l.kdir, 0);
    SetPteReads(l, s, d, v, w, l.btab, l.wdir);
    SetPteReads(l, s, d, v, w, l.btab, l.wtab);
    SetPteReads(l, s, d, v, w, l.btab, l.btab);
    SetPteReads(l, s, d, v, w, l.btab, l.kdir);
    TableEntryReads(l.btab);
    assert Live(s, l.kdir, 0) && ApartOk(l, s, d, Slot(v), l.kdir, 0);
    assert v == 1024 * Slot(v) + v % 1024;
  }

  lemma SetPteWellFormed(l: Layout, s: Sys, d: int, v: int, w: Word)
    requires WellFormed(l, s) && 0 <= v < FRAMES && Live(s, d, Slot(v)) && !IsPinned(l, v)
    ensures WellFormed(l, SetPte(s, d, v, w)) && Extends(s, SetPte(s, d, v, w))
  {
    var s' := SetPte(s, d, v, w);
    SetPteLayout(l, s, d, v, w);
    forall e, u | e in s.dirs
      ensures At(s'.mem, e, u) == At(s.mem, e, u)
    {
      SetPteReads(l, s, d, v, w, e, u);
    }
    forall e | e in s'.dirs ensures DirOk(l, s', e) { assert DirOk(l, s, e); }
    forall e, u | Live(s', e, u) ensures TableOk(l, s', e, u) { assert Live(s, e, u) && TableOk(l, s, e, u); }
    forall e, u, e', u' | Live(s', e, u) && Live(s', e', u') ensures ApartOk(l, s', e, u, e', u') {
      assert Live(s, e, u) && Live(s, e', u') && ApartOk(l, s, e, u, e', u');
    }
    forall e, u | e in s'.dirs && u in s'.dirs[e] ensures InheritOk(l, s', e, u) { assert InheritOk(l, s, e, u); }
  }
}
