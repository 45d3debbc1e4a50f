/** The code of src/mm/vmm.c as it runs, under whichever directory is loaded: every directory and table is reached
    through one of two windows, whose targets are entries of the kernel's first table and so live in the very memory
    being edited, and that table and the kernel's directory are themselves reached at their own virtual pages. */
module PagingMachine {
  import opened Memory
  import opened Pmm
  import opened Paging
  import opened AddressSpaces

  /** Memory m with the two window entries set to a and b. */
  function Windowed(l: Layout, m: Frames, a: Word, b: Word): Frames
    requires Placed(l)
  {
    m[l.btab := m[l.btab][l.wdir := a][l.wtab := b]]
  }

  predicate Placed(l: Layout) {
    && LowPages(l) && l.wdir != l.wtab && l.kdir != l.btab
    && l.btab != l.wdir && l.btab != l.wtab && l.kdir != l.wdir && l.kdir != l.wtab
  }

  /** Under directory c the kernel's first table and its directory are mapped at their own pages. */
  predicate Rooted(l: Layout, m: Frames, c: int) {
    && Placed(l) && 0 <= c < FRAMES && c != l.btab && At(m, c, 0) == TableEntry(l.btab)
    && At(m, l.btab, l.btab) == TableEntry(l.btab) && At(m, l.btab, l.kdir) == TableEntry(l.kdir)
  }

  /** So the code finds both, and finds at each window's page what the window entry names. */
  lemma RootedReads(l: Layout, m: Frames, c: int, a: Word, b: Word)
    requires Rooted(l, m, c)
    ensures var m' := Windowed(l, m, a, b);
            && FrameOf(Pte(m', c, l.btab)) == l.btab && FrameOf(Pte(m', c, l.kdir)) == l.kdir
            && Pte(m', c, l.wdir) == a && Pte(m', c, l.wtab) == b
  {
    TableEntryReads(l.btab);
    TableEntryReads(l.kdir);
    WindowedReads(l, m, a, b, c, 0);
    WindowedReads(l, m, a, b, l.btab, l.btab);
    WindowedReads(l, m, a, b, l.btab, l.kdir);
  }

  lemma RootedKept(l: Layout, m: Frames, c: int, f: int, t: Table)
    requires Rooted(l, m, c) && 0 <= f < FRAMES && f != c && f != l.btab
    ensures Rooted(l, m[f := t], c)
  {
  }

  lemma WellFormedRooted(l: Layout, s: Sys, c: int)
    requires WellFormed(l, s) && c in s.dirs
    ensures Rooted(l, s.mem, c)
  {
    assert DirOk(l, s, c);
    assert c != l.kdir ==> InheritOk(l, s, c, 0);
  }

  /** f, i is neither window's entry. */
  predicate NotWindowWord(l: Layout, f: int, i: int) { f != l.btab || (i != l.wdir && i != l.wtab) }

  lemma WindowedReads(l: Layout, m: Frames, a: Word, b: Word, f: int, i: int)
    requires Placed(l)
    ensures NotWindowWord(l, f, i) ==> At(Windowed(l, m, a, b), f, i) == At(m, f, i)
    ensures At(Windowed(l, m, a, b), l.btab, l.wdir) == a && At(Windowed(l, m, a, b), l.btab, l.wtab) == b
  {
  }

  lemma WindowedWrites(l: Layout, m: Frames, a: Word, b: Word, f: int, i: int, w: Word)
    requires Placed(l) && 0 <= f < FRAMES && 0 <= i < 1024 && NotWindowWord(l, f, i)
    ensures Write(Windowed(l, m, a, b), f, i, w) == Windowed(l, Write(m, f, i, w), a, b)
  {
    var x, y := Write(Windowed(l, m, a, b), f, i, w), Windowed(l, Write(m, f, i, w), a, b);
    if f == l.btab {
      assert m[f][l.wdir := a][l.wtab := b][i := w] == m[f][i := w][l.wdir := a][l.wtab := b];
    }
    assert x == y;
  }

  lemma WindowedMoves(l: Layout, m: Frames, a: Word, b: Word, c: Word)
    requires Placed(l)
    ensures Write(Windowed(l, m, a, b), l.btab, l.wdir, c) == Windowed(l, m, c, b)
    ensures Write(Windowed(l, m, a, b), l.btab, l.wtab, c) == Windowed(l, m, a, c)
  {
    assert m[l.btab][l.wdir := a][l.wtab := b][l.wdir := c] == m[l.btab][l.wdir := c][l.wtab := b];
    assert m[l.btab][l.wdir := a][l.wtab := b][l.wtab := c] == m[l.btab][l.wdir := a][l.wtab := c];
  }

  /** Memory with closed windows is its own windowed form. */
  lemma WindowedClosed(l: Layout, m: Frames)
    requires Placed(l) && At(m, l.btab, l.wdir) == TableEntry(l.wdir) && At(m, l.btab, l.wtab) == TableEntry(l.wtab)
    ensures Windowed(l, m, TableEntry(l.wdir), TableEntry(l.wtab)) == m
  {
    assert m[l.btab][l.wdir := TableEntry(l.wdir)][l.wtab := TableEntry(l.wtab)] == m[l.btab];
  }

  /** Frame f with its first n words cleared. */
  function ClearedTo(m: Frames, f: int, n: int): Frames
    requires 0 <= f < FRAMES && 0 <= n <= 1024
  {
    m[f := seq(1024, j requires 0 <= j < 1024 => if j < n then 0 else m[f][j])]
  }

  lemma ClearStep(m: Frames, f: int, n: int)
    requires 0 <= f < FRAMES && 0 <= n < 1024
    ensures Write(ClearedTo(m, f, n), f, n, 0) == ClearedTo(m, f, n + 1)
    ensures ClearedTo(m, f, 0) == m && ClearedTo(m, f, 1024) == Zeroed(m, f)
  {
    assert ClearedTo(m, f, n)[f][n := 0] == ClearedTo(m, f, n + 1)[f];
    assert ClearedTo(m, f, 0)[f] == m[f];
    assert ClearedTo(m, f, 1024)[f] == EmptyTable();
  }

  /** Frame f holding the first n of the kernel's present entries and zeros. */
  function CopiedTo(l: Layout, m: Frames, f: int, n: int): Frames
    requires 0 <= f < FRAMES
  {
    m[f := seq(1024, t => if t < n && Present(At(m, l.kdir, t)) then At(m, l.kdir, t) else 0)]
  }

  lemma CopyStep(l: Layout, m: Frames, f: int, n: int)
    requires 0 <= f < FRAMES && f != l.kdir && 0 <= n < 1024
    ensures At(CopiedTo(l, m, f, n), l.kdir, n) == At(m, l.kdir, n)
    ensures var w := At(m, l.kdir, n);
            CopiedTo(l, m, f, n + 1) ==
              if Present(w) then Write(CopiedTo(l, m, f, n), f, n, w) else CopiedTo(l, m, f, n)
    ensures CopiedTo(l, m, f, 0) == Zeroed(m, f) && CopiedTo(l, m, f, 1024) == m[f := ForkedTable(m, l.kdir)]
  {
    var w := At(m, l.kdir, n);
    assert CopiedTo(l, m, f, n + 1)[f] ==
           if Present(w) then CopiedTo(l, m, f, n)[f][n := w] else CopiedTo(l, m, f, n)[f];
    assert CopiedTo(l, m, f, 0)[f] == EmptyTable();
    assert CopiedTo(l, m, f, 1024)[f] == ForkedTable(m, l.kdir);
  }

  class Machine {
    const l: Layout
    const pmm: FrameAllocator
    var mem: Frames
    var cr3: int
    ghost var dirs: map<int, set<int>>

    ghost predicate Valid()
      reads this, pmm, pmm.bitmap
    {
      pmm.Valid() && pmm.Accounted() && WellFormed(l, State()) && cr3 in dirs
    }

    ghost function State(): Sys
      requires pmm.Valid()
      reads this, pmm.bitmap
    {
      Sys(mem, pmm.Bits(), dirs)
    }

    /** In the middle of an operation: memory is s with the windows open on directory d and some table. */
    ghost predicate Open(s: Sys, d: int, b: int)
      reads this, pmm, pmm.bitmap
    {
      && pmm.Valid() && pmm.Accounted() && WellFormed(l, s) && d in s.dirs && 0 <= b < FRAMES
      && s.bits == pmm.Bits() && s.dirs == dirs && 0 <= d < FRAMES
      && cr3 in dirs && mem == (LayoutPlaced(l, s); Windowed(l, s.mem, TableEntry(d), TableEntry(b)))
    }

    constructor (layout: Layout, allocator: FrameAllocator, memory: Frames)
      requires allocator.Valid() && allocator.Accounted() && BootMemory(layout, memory)
      requires WellFormed(layout, Sys(memory, allocator.Bits(), map[layout.kdir := {}]))
      ensures Valid() && l == layout && pmm == allocator && cr3 == layout.kdir
      ensures State() == Sys(memory, allocator.Bits(), map[layout.kdir := {}])
    {
      l, pmm, mem, dirs := layout, allocator, memory, map[layout.kdir := {}];
      cr3 := layout.kdir;
    }

    /** vmm_set_cr3: any live directory may be loaded. */
    method SetCr3(d: int)
      requires Valid() && d in dirs
      modifies this`cr3
      ensures Valid() && State() == old(State()) && cr3 == d
    {
      cr3 := d;
    }

    /** The frame at a page of the loaded directory. */
    function Seen(page: int): int
      reads this
    {
      FrameOf(Pte(mem, cr3, page))
    }

    // ----- The windows -----

    /** open_dir: aim the directory window at d unless it already points there. */
    method OpenDir(d: int, ghost m: Frames, ghost a: int, ghost b: int)
      requires Rooted(l, m, cr3) && 0 <= d < FRAMES && 0 <= a < FRAMES && 0 <= b < FRAMES
      requires mem == Windowed(l, m, TableEntry(a), TableEntry(b))
      modifies this`mem
      ensures mem == Windowed(l, m, TableEntry(d), TableEntry(b))
    {
      WindowedReads(l, m, TableEntry(a), TableEntry(b), 0, 0);
      RootedReads(l, m, cr3, TableEntry(a), TableEntry(b));
      TableEntryReads(a);
      if FrameOf(At(mem, Seen(l.btab), l.wdir)) == d {
        return;
      }
      WindowedMoves(l, m, TableEntry(a), TableEntry(b), TableEntry(d));
      mem := Write(mem, Seen(l.btab), l.wdir, TableEntry(d));
    }

    /** open_table: aim the table window at frame f unless it already points there. */
    method OpenTable(f: int, ghost m: Frames, ghost a: int, ghost b: int)
      requires Rooted(l, m, cr3) && 0 <= f < FRAMES && 0 <= a < FRAMES && 0 <= b < FRAMES
      requires mem == Windowed(l, m, TableEntry(a), TableEntry(b))
      modifies this`mem
      ensures mem == Windowed(l, m, TableEntry(a), TableEntry(f))
    {
      WindowedReads(l, m, TableEntry(a), TableEntry(b), 0, 0);
      RootedReads(l, m, cr3, TableEntry(a), TableEntry(b));
      TableEntryReads(b);
      if FrameOf(At(mem, Seen(l.btab), l.wtab)) == f {
        return;
      }
      WindowedMoves(l, m, TableEntry(a), TableEntry(b), TableEntry(f));
      mem := Write(mem, Seen(l.btab), l.wtab, TableEntry(f));
    }

    /** close_table, then close_dir: both windows point at their own pages again. */
    method Close(ghost s: Sys, ghost d: int, ghost b: int)
      requires Open(s, d, b)
      modifies this`mem
      ensures Valid() && State() == s
    {
      WellFormedRooted(l, s, cr3);
      OpenTable(l.wtab, s.mem, d, b);
      OpenDir(l.wdir, s.mem, d, l.wtab);
      WindowedClosed(l, s.mem);
    }

    /** A word of the table the directory window shows. */
    function DirWindow(t: int): Word
      reads this
    {
      At(mem, Seen(l.wdir), t)
    }

    /** A word of the table the table window shows. */
    function TableWindow(i: int): Word
      reads this
    {
      At(mem, Seen(l.wtab), i)
    }

    lemma DirWindowShows(s: Sys, d: int, b: int, t: int)
      requires Open(s, d, b)
      ensures DirWindow(t) == At(s.mem, d, t)
    {
      WellFormedRooted(l, s, cr3);
      RootedReads(l, s.mem, cr3, TableEntry(d), TableEntry(b));
      WindowedReads(l, s.mem, TableEntry(d), TableEntry(b), d, t);
      TableEntryReads(d);
      assert DirOk(l, s, d);
    }

    lemma TableWindowShows(s: Sys, d: int, b: int, v: int)
      requires Open(s, d, b) && 0 <= v < FRAMES && Live(s, d, Slot(v)) && b == FrameOf(At(s.mem, d, Slot(v)))
      ensures Seen(l.wtab) == b
      ensures v != l.wdir && v != l.wtab ==> NotWindowWord(l, b, v % 1024)
      ensures TableWindow(v % 1024) == Shown(s, d, v)
    {
      WellFormedRooted(l, s, cr3);
      hide WellFormed, Windowed, TableEntry, FrameOf, Present;
      RootedReads(l, s.mem, cr3, TableEntry(d), TableEntry(b));
      TableEntryReads(b);
      WindowedReads(l, s.mem, TableEntry(d), TableEntry(b), b, v % 1024);
      if v == l.wdir || v == l.wtab {
        assert Slot(v) == 0 && v % 1024 == v;
        WellFormedRooted(l, s, d);
        TableEntryReads(l.btab);
      } else {
        WindowWordOnly(l, s, d, v);
        assert Pte(s.mem, d, v) == At(s.mem, b, v % 1024);
        hide Pte;
      }
    }

    /** The entry of page v that the table window shows while d is open: the page map, except that the windows' own
        pages show where the windows stand. */
    ghost function Shown(s: Sys, d: int, v: int): Word
      requires 0 <= d < FRAMES && 0 < l.btab < 1024
    {
      if v == l.wdir then TableEntry(d) else if v == l.wtab then TableEntry(l.btab) else Pte(s.mem, d, v)
    }

    /** Store through the table window. */
    method StoreTable(v: int, w: Word, ghost s: Sys, ghost d: int, ghost b: int)
      requires Open(s, d, b) && 0 <= v < FRAMES && Live(s, d, Slot(v)) && b == FrameOf(At(s.mem, d, Slot(v)))
               && !IsPinned(l, v)
      modifies this`mem
      ensures Open(SetPte(s, d, v, w), d, b)
    {
      TableWindowShows(s, d, b, v);
      WindowedWrites(l, s.mem, TableEntry(d), TableEntry(b), b, v % 1024, w);
      SetPteWellFormed(l, s, d, v, w);
      mem := Write(mem, Seen(l.wtab), v % 1024, w);
    }

    /** ensure_table, through both windows; false means that the allocator halted the machine. */
    method EnsureSlot(t: int, ghost s: Sys, ghost d: int, ghost b: int) returns (ok: bool, ghost b': int)
      requires Open(s, d, b) && 0 <= t < 1024
      modifies this`mem, pmm`total, pmm`used, pmm`available, pmm.bitmap
      ensures ok <==> EnsureTable(s, d, t).Some?
      ensures ok ==> Open(EnsureTable(s, d, t).value, d, b') && Live(EnsureTable(s, d, t).value, d, t)
    {
      DirWindowShows(s, d, b, t);
      EnsureTableOk(l, s, d, t);
      ok, b' := true, b;
      if !Present(DirWindow(t)) {
        WellFormedBits(l, s);
        hide WellFormed, Windowed, Extends, SameMaps, FindFreePage;
        FoundIsFree(s);
        var frame := AllocFrame();
        if frame.None? {
          return false, b;
        }
        b' := HangTable(frame.value, t, s, d, b);
      }
    }

    /** pmm_alloc(PAGE_SIZE), as a frame number. */
    method AllocFrame() returns (f: Option<nat>)
      requires pmm.Valid() && pmm.Accounted() && pmm.Bits()[0]
      modifies pmm`total, pmm`used, pmm`available, pmm.bitmap
      ensures pmm.Valid() && pmm.Accounted() && f == FindFreePage(old(pmm.Bits()), 1)
      ensures pmm.Bits() == if f.Some? then old(pmm.Bits())[f.value := true] else old(pmm.Bits())
    {
      assert PagesFor(0x1000) == 1;
      var frame := pmm.Alloc(0x1000);
      f := if frame.None? then None else Some(frame.value / 0x1000);
    }

    /** Clear the fresh frame through the table window, close that window, and write the directory entry. */
    method HangTable(f: int, t: int, ghost s: Sys, ghost d: int, ghost b: int) returns (ghost b': int)
      requires WellFormed(l, s) && d in s.dirs && 0 <= d < FRAMES && 0 <= b < FRAMES && 0 <= t < 1024
      requires 0 < f < |s.bits| && f < FRAMES && !s.bits[f] && !Present(At(s.mem, d, t))
      requires Placed(l) && cr3 in s.dirs && mem == Windowed(l, s.mem, TableEntry(d), TableEntry(b))
      modifies this`mem
      ensures b' == l.wtab && mem == Windowed(l, Hung(s, d, t, f).mem, TableEntry(d), TableEntry(b'))
    {
      FreshFrame(l, s, f);
      WellFormedRooted(l, s, cr3);
      assert DirOk(l, s, d);
      OpenTable(f, s.mem, d, b);
      ClearTable(f, s.mem, d);
      RootedKept(l, s.mem, cr3, f, EmptyTable());
      OpenTable(l.wtab, Zeroed(s.mem, f), d, f);
      RootedReads(l, Zeroed(s.mem, f), cr3, TableEntry(d), TableEntry(l.wtab));
      WindowedReads(l, Zeroed(s.mem, f), TableEntry(d), TableEntry(l.wtab), d, t);
      TableEntryReads(d);
      WindowedWrites(l, Zeroed(s.mem, f), TableEntry(d), TableEntry(l.wtab), d, t, TableEntry(f));
      mem := Write(mem, Seen(l.wdir), t, TableEntry(f));
      b' := l.wtab;
    }

    // ----- The exported operations -----

    /** Open the windows for page v of d: ensure its table and aim the table window at it. */
    method OpenPage(v: int, ghost s: Sys, ghost d: int, ghost b: int) returns (ok: bool, ghost s1: Sys, ghost b': int)
      requires Open(s, d, b) && 0 <= v < FRAMES
      modifies this`mem, pmm`total, pmm`used, pmm`available, pmm.bitmap
      ensures ok <==> EnsureTable(s, d, Slot(v)).Some?
      ensures ok ==> && s1 == EnsureTable(s, d, Slot(v)).value && Open(s1, d, b') && Live(s1, d, Slot(v))
                     && b' == FrameOf(At(s1.mem, d, Slot(v)))
    {
      s1, b' := s, b;
      ok, b' := EnsureSlot(Slot(v), s, d, b);
      if ok {
        s1 := EnsureTable(s, d, Slot(v)).value;
        DirWindowShows(s1, d, b', Slot(v));
        WellFormedRooted(l, s1, cr3);
        var f := FrameOf(DirWindow(Slot(v)));
        OpenTable(f, s1.mem, d, b');
        b' := f;
      }
    }

    /** Every operation on pages starts by aiming the directory window at its directory. */
    method Begin(d: int)
      requires Valid() && d in dirs
      modifies this`mem
      ensures 0 <= d < FRAMES && pmm.Valid() && pmm.Accounted() && WellFormed(l, old(State()))
              && Open(old(State()), d, l.wtab)
    {
      ghost var s := State();
      assert DirOk(l, s, d);
      WellFormedRooted(l, s, cr3);
      WindowedClosed(l, s.mem);
      OpenDir(d, s.mem, l.wdir, l.wtab);
    }

    /** One turn of vmm_remap_pages. */
    method RemapPage(v: int, w: Word, ghost s: Sys, ghost d: int, ghost b: int)
      returns (ok: bool, ghost s': Sys, ghost b': int)
      requires Open(s, d, b) && Ready(s, d, v) && !IsPinned(l, v)
      modifies this`mem, pmm`total, pmm`used, pmm`available, pmm.bitmap
      ensures ok <==> EnsureTable(s, d, Slot(v)).Some?
      ensures ok ==> s' == SetPte(EnsureTable(s, d, Slot(v)).value, d, v, w) && Open(s', d, b')
    {
      hide WellFormed, Windowed, SetPte, EnsureTable, Pte, Open;
      ok, s', b' := OpenPage(v, s, d, b);
      if ok {
        StoreTable(v, w, s', d, b');
        s' := SetPte(s', d, v, w);
      }
    }

    /** One turn of vmm_map_pages, when `present` is false, or of vmm_unmap_pages, when it is true: the entry is stored
        if the page is present exactly as that says. */
    method EditPageIf(v: int, w: Word, present: bool, ghost s: Sys, ghost d: int, ghost b: int)
      returns (ok: bool, edited: bool, ghost s': Sys, ghost b': int)
      requires Open(s, d, b) && Ready(s, d, v) && !IsPinned(l, v)
      modifies this`mem, pmm`total, pmm`used, pmm`available, pmm.bitmap
      ensures ok <==> EnsureTable(s, d, Slot(v)).Some?
      ensures ok ==>
                var s1 := EnsureTable(s, d, Slot(v)).value;
                && (edited <==> Present(Pte(s1.mem, d, v)) == present)
                && s' == (if edited then SetPte(s1, d, v, w) else s1) && Open(s', d, b')
    {
      hide WellFormed, Windowed, SetPte, EnsureTable, Pte, Open, Present;
      edited := false;
      ok, s', b' := OpenPage(v, s, d, b);
      if ok {
        OpenPlaced(s', d, b');
        TableWindowShows(s', d, b', v);
        if Present(TableWindow(v % 1024)) == present {
          StoreTable(v, w, s', d, b');
          s', edited := SetPte(s', d, v, w), true;
        }
      }
    }

    lemma OpenPlaced(s: Sys, d: int, b: int)
      requires Open(s, d, b)
      ensures 0 <= d < FRAMES && 0 < l.btab < 1024 && |s.bits| == TRACKED_PAGES
    {
    }

    method MapLoop(first: int, frame: int, count: Word, perms: int, ghost s0: Sys, ghost d: int, ghost b0: int)
      returns (ok: bool, ret: int, ghost s: Sys, ghost b: int)
      requires Open(s0, d, b0) && Ready(s0, d, first) && LowPages(l) && Avoids(l, first, count)
      requires 0 <= frame < FRAMES && 0 <= perms < 0x10000
      modifies this`mem, pmm`total, pmm`used, pmm`available, pmm.bitmap
      ensures var want := MapFrom(s0, d, first, frame, count, perms, 0);
              if ok then want == Ok(s, ret) && Open(s, d, b) else want == Halted
    {
      hide WellFormed, Windowed, Tagged, SetPte, EnsureTable, Pte, Avoids, Next, Slot, Open, Present, IsPinned,
           MapFrom;
      var v, p := first, frame;
      ghost var left: nat := count;
      ret, s, b := 0, s0, b0;
      for page := 0 to count
        invariant left == count - page && Open(s, d, b) && Ready(s, d, v) && 0 <= p < FRAMES && Avoids(l, v, left)
        invariant MapFrom(s, d, v, p, left, perms, ret) == MapFrom(s0, d, first, frame, count, perms, 0)
      {
        AvoidsStep(l, v, left);
        NextBound(p);
        SlotBound(v);
        MapTurn(s, d, v, p, left, perms, ret);
        var edited;
        ok, edited, s, b := EditPageIf(v, Tagged(p, perms), false, s, d, b);
        if !ok {
          return;
        }
        if edited {
          v, p := Next(v), Next(p);
        } else {
          ret := 1;
        }
        left := left - 1;
      }
      NoTurn(s, d, v, p, perms, ret);
      ok := true;
    }

    method MapPages(phys: Word, virt: Word, d: int, count: Word, perms: int) returns (r: Option<int>)
      requires Valid() && d in dirs && 0 <= perms < 0x10000 && Avoids(l, virt / 0x1000, count)
      modifies this`mem, pmm`total, pmm`used, pmm`available, pmm.bitmap
      ensures 0 <= d < FRAMES
      ensures var want := MapFrom(old(State()), d, virt / 0x1000, phys / 0x1000, count, perms, 0);
              if want.Ok? then r == Some(want.ret) && Valid() && State() == want.sys else r == None
    {
      hide WellFormed, Windowed, Avoids, Open, MapFrom;
      ghost var s, b := State(), l.wtab;
      Begin(d);
      LayoutPlaced(l, s);
      var ok, ret;
      ok, ret, s, b := MapLoop(virt / 0x1000, phys / 0x1000, count, perms, s, d, b);
      if !ok {
        return None;
      }
      Close(s, d, b);
      r := Some(ret);
    }

    method RemapLoop(first: int, frame: int, count: Word, perms: int, ghost s0: Sys, ghost d: int, ghost b0: int)
      returns (ok: bool, ret: int, ghost s: Sys, ghost b: int)
      requires Open(s0, d, b0) && Ready(s0, d, first) && LowPages(l) && Avoids(l, first, count)
      requires 0 <= frame < FRAMES && 0 <= perms < 0x10000
      modifies this`mem, pmm`total, pmm`used, pmm`available, pmm.bitmap
      ensures var want := RemapFrom(s0, d, first, frame, count, perms);
              if ok then want == Ok(s, ret) && Open(s, d, b) else want == Halted
    {
      hide WellFormed, Windowed, Tagged, SetPte, EnsureTable, Pte, Avoids, Next, Slot, Open, Present, IsPinned,
           RemapFrom;
      var v, p := first, frame;
      ghost var left: nat := count;
      ret, s, b := 0, s0, b0;
      for page := 0 to count
        invariant left == count - page && Open(s, d, b) && Ready(s, d, v) && 0 <= p < FRAMES && Avoids(l, v, left)
        invariant RemapFrom(s, d, v, p, left, perms) == RemapFrom(s0, d, first, frame, count, perms)
        invariant ret == 0
      {
        AvoidsStep(l, v, left);
        NextBound(p);
        SlotBound(v);
        RemapTurn(s, d, v, p, left, perms);
        ok, s, b := RemapPage(v, Tagged(p, perms), s, d, b);
        if !ok {
          return;
        }
        v, p := Next(v), Next(p);
        left := left - 1;
      }
      NoTurn(s, d, v, p, perms, 0);
      ok := true;
    }

    method RemapPages(phys: Word, virt: Word, d: int, count: Word, perms: int) returns (r: Option<int>)
      requires Valid() && d in dirs && 0 <= perms < 0x10000 && Avoids(l, virt / 0x1000, count)
      modifies this`mem, pmm`total, pmm`used, pmm`available, pmm.bitmap
      ensures 0 <= d < FRAMES
      ensures var want := RemapFrom(old(State()), d, virt / 0x1000, phys / 0x1000, count, perms);
              if want.Ok? then r == Some(want.ret) && Valid() && State() == want.sys else r == None
    {
      hide WellFormed, Windowed, Avoids, Open, RemapFrom;
      ghost var s, b := State(), l.wtab;
      Begin(d);
      LayoutPlaced(l, s);
      var ok, ret;
      ok, ret, s, b := RemapLoop(virt / 0x1000, phys / 0x1000, count, perms, s, d, b);
      if !ok {
        return None;
      }
      Close(s, d, b);
      r := Some(ret);
    }

    method UnmapLoop(first: int, count: Word, ghost s0: Sys, ghost d: int, ghost b0: int)
      returns (ok: bool, ret: int, ghost s: Sys, ghost b: int)
      requires Open(s0, d, b0) && Ready(s0, d, first) && LowPages(l) && Avoids(l, first, count)
      modifies this`mem, pmm`total, pmm`used, pmm`available, pmm.bitmap
      ensures var want := UnmapFrom(s0, d, first, count, 0);
              if ok then want == Ok(s, ret) && Open(s, d, b) else want == Halted
    {
      hide WellFormed, Windowed, Tagged, SetPte, EnsureTable, Pte, Avoids, Next, Slot, Open, Present, IsPinned,
           UnmapFrom;
      var v := first;
      ghost var left: nat := count;
      ret, s, b := 0, s0, b0;
      for page := 0 to count
        invariant left == count - page && Open(s, d, b) && Ready(s, d, v) && Avoids(l, v, left)
        invariant UnmapFrom(s, d, v, left, ret) == UnmapFrom(s0, d, first, count, 0)
      {
        AvoidsStep(l, v, left);
        SlotBound(v);
        UnmapTurn(s, d, v, left, ret);
        var edited;
        ok, edited, s, b := EditPageIf(v, 0, true, s, d, b);
        if !ok {
          return;
        }
        if !edited {
          ret := 1;
        }
        v := Next(v);
        left := left - 1;
      }
      NoTurn(s, d, v, 0, 0, ret);
      ok := true;
    }

    method UnmapPages(virt: Word, d: int, count: Word) returns (r: Option<int>)
      requires Valid() && d in dirs && Avoids(l, virt / 0x1000, count)
      modifies this`mem, pmm`total, pmm`used, pmm`available, pmm.bitmap
      ensures 0 <= d < FRAMES
      ensures var want := UnmapFrom(old(State()), d, virt / 0x1000, count, 0);
              if want.Ok? then r == Some(want.ret) && Valid() && State() == want.sys else r == None
    {
      hide WellFormed, Windowed, Avoids, Open, UnmapFrom;
      ghost var s, b := State(), l.wtab;
      Begin(d);
      LayoutPlaced(l, s);
      var ok, ret;
      ok, ret, s, b := UnmapLoop(virt / 0x1000, count, s, d, b);
      if !ok {
        return None;
      }
      Close(s, d, b);
      r := Some(ret);
    }

    /** virt_to_phys reads the flat page map and leaves memory as it was; asked about the windows' own pages it tells
        where they stand during the call. */
    method VirtToPhys(virt: Word, d: int) returns (phys: Word)
      requires Valid() && d in dirs
      modifies this`mem
      ensures Valid() && State() == old(State())
      ensures 0 <= d < FRAMES && 0 < l.btab < 1024
      ensures var w := Shown(State(), d, virt / 0x1000);
              phys == if Present(w) then FrameOf(w) * 0x1000 + virt % 0x1000 else 0xFFFF_FFFF
      // On any other page it is the processor's own translation.
      ensures virt / 0x1000 != l.wdir && virt / 0x1000 != l.wtab ==>
                phys == match Translated(mem, d, virt) case Some(p) => p case None => 0xFFFF_FFFF
    {
      hide WellFormed, Windowed, Pte, TableEntry, FrameOf, Present, Open, Shown;
      ghost var s, b := State(), l.wtab;
      Begin(d);
      LayoutPlaced(l, s);
      var w;
      w, b := ReadPage(virt / 0x1000, s, d, b);
      phys := if Present(w) then FrameOf(w) * 0x1000 + virt % 0x1000 else 0xFFFF_FFFF;
      Close(s, d, b);
      hide Translated;
      ShownTranslates(s, d, virt);
    }

    lemma ShownTranslates(s: Sys, d: int, virt: Word)
      requires 0 <= d < FRAMES && 0 < l.btab < 1024
      ensures virt / 0x1000 != l.wdir && virt / 0x1000 != l.wtab ==>
                var w := Shown(s, d, virt / 0x1000);
                Translated(s.mem, d, virt) == if Present(w) then Some(FrameOf(w) * 0x1000 + virt % 0x1000) else None
    {
      hide Pte, Translated, FrameOf, Present;
      PteTranslates(s.mem, d, virt);
    }

    /** The entry of a page, read through both windows; 0 if its slot has no table. */
    method ReadPage(v: int, ghost s: Sys, ghost d: int, ghost b: int) returns (w: Word, ghost b': int)
      requires Open(s, d, b) && Ready(s, d, v) && LowPages(l)
      modifies this`mem
      ensures Open(s, d, b') && w == Shown(s, d, v)
    {
      SlotBound(v);
      DirWindowShows(s, d, b, Slot(v));
      SlotZeroLive(l, s, d);
      w, b' := 0, b;
      if Present(DirWindow(Slot(v))) {
        var f := FrameOf(DirWindow(Slot(v)));
        WellFormedRooted(l, s, cr3);
        hide WellFormed, Windowed, Present, TableEntry;
        OpenTable(f, s.mem, d, b);
        b' := f;
        TableWindowShows(s, d, b', v);
        w := TableWindow(v % 1024);
      } else {
        assert v >= 1024;
      }
    }

    /** vmm_fork_kernel_space; None means that the allocator halted the machine. */
    method ForkKernelSpace() returns (r: Option<int>)
      requires Valid()
      modifies this`mem, this`dirs, pmm`total, pmm`used, pmm`available, pmm.bitmap
      ensures var want := Fork(l, old(State()));
              if want.Ok? then r == Some(want.ret) && Valid() && State() == want.sys else r == None
    {
      ghost var s := State();
      hide FindFreePage;
      FoundIsFree(s);
      var frame := AllocFrame();
      if frame.None? {
        return None;
      }
      var f := frame.value;
      FreshFrame(l, s, f);
      ForkedWellFormed(l, s, f);
      BuildDir(f, s);
      dirs := dirs[f := PresentSlots(s.mem, l.kdir)];
      r := Some(f);
    }

    /** Fill the fresh frame through the directory window and close it. */
    method BuildDir(f: int, ghost s: Sys)
      requires WellFormed(l, s) && cr3 in s.dirs && mem == s.mem && 0 < f < |s.bits| && f < FRAMES && !s.bits[f]
      modifies this`mem
      ensures mem == Forked(l, s, f).mem
    {
      hide Windowed;
      FreshFrame(l, s, f);
      WellFormedRooted(l, s, cr3);
      WindowedClosed(l, s.mem);
      OpenDir(f, s.mem, l.wdir, l.wtab);
      FillDir(f, s.mem);
      RootedKept(l, s.mem, cr3, f, ForkedTable(s.mem, l.kdir));
      OpenDir(l.wdir, Forked(l, s, f).mem, f, l.wtab);
      ForkedReads(l, s, f, l.btab, l.wdir);
      ForkedReads(l, s, f, l.btab, l.wtab);
      WindowedClosed(l, Forked(l, s, f).mem);
    }

    /** memset through the directory window, then the copy of the kernel's present entries. */
    method FillDir(f: int, ghost m: Frames)
      requires Rooted(l, m, cr3) && 0 <= f < FRAMES && f != l.btab && f != l.kdir && f != cr3
      requires mem == Windowed(l, m, TableEntry(f), TableEntry(l.wtab))
      modifies this`mem
      ensures mem == Windowed(l, m[f := ForkedTable(m, l.kdir)], TableEntry(f), TableEntry(l.wtab))
    {
      ClearStep(m, f, 0);
      for i := 0 to 1024
        invariant mem == Windowed(l, ClearedTo(m, f, i), TableEntry(f), TableEntry(l.wtab))
      {
        RootedKept(l, m, cr3, f, ClearedTo(m, f, i)[f]);
        StoreDir(f, i, 0, ClearedTo(m, f, i));
        ClearStep(m, f, i);
      }
      CopyStep(l, m, f, 0);
      for i := 0 to 1024
        invariant mem == Windowed(l, CopiedTo(l, m, f, i), TableEntry(f), TableEntry(l.wtab))
      {
        CopyStep(l, m, f, i);
        RootedKept(l, m, cr3, f, CopiedTo(l, m, f, i)[f]);
        RootedReads(l, CopiedTo(l, m, f, i), cr3, TableEntry(f), TableEntry(l.wtab));
        WindowedReads(l, CopiedTo(l, m, f, i), TableEntry(f), TableEntry(l.wtab), l.kdir, i);
        if Present(At(mem, Seen(l.kdir), i)) {
          StoreDir(f, i, At(mem, Seen(l.kdir), i), CopiedTo(l, m, f, i));
        }
      }
    }

    method StoreDir(f: int, i: int, w: Word, ghost m: Frames)
      requires Rooted(l, m, cr3) && 0 <= f < FRAMES && f != l.btab && 0 <= i < 1024
      requires mem == Windowed(l, m, TableEntry(f), TableEntry(l.wtab))
      modifies this`mem
      ensures mem == Windowed(l, Write(m, f, i, w), TableEntry(f), TableEntry(l.wtab))
    {
      RootedReads(l, m, cr3, TableEntry(f), TableEntry(l.wtab));
      TableEntryReads(f);
      WindowedWrites(l, m, TableEntry(f), TableEntry(l.wtab), f, i, w);
      mem := Write(mem, Seen(l.wdir), i, w);
    }

    method ClearTable(f: int, ghost m: Frames, ghost d: int)
      requires Rooted(l, m, cr3) && 0 <= f < FRAMES && 0 <= d < FRAMES && f != l.btab && f != cr3
      requires mem == Windowed(l, m, TableEntry(d), TableEntry(f))
      modifies this`mem
      ensures mem == Windowed(l, Zeroed(m, f), TableEntry(d), TableEntry(f))
    {
      ClearStep(m, f, 0);
      for i := 0 to 1024
        invariant mem == Windowed(l, ClearedTo(m, f, i), TableEntry(d), TableEntry(f))
      {
        RootedKept(l, m, cr3, f, ClearedTo(m, f, i)[f]);
        RootedReads(l, ClearedTo(m, f, i), cr3, TableEntry(d), TableEntry(f));
        TableEntryReads(f);
        WindowedWrites(l, ClearedTo(m, f, i), TableEntry(d), TableEntry(f), f, i, 0);
        ClearStep(m, f, i);
        mem := Write(mem, Seen(l.wtab), i, 0);
      }
    }
  }

  lemma LayoutPlaced(l: Layout, s: Sys)
    requires WellFormed(l, s)
    ensures Placed(l)
  {
  }

  lemma SlotZeroLive(l: Layout, s: Sys, d: int)
    requires WellFormed(l, s) && d in s.dirs
    ensures Live(s, d, 0)
  {
    WellFormedRooted(l, s, d);
    TableEntryReads(l.btab);
  }

  lemma WellFormedBits(l: Layout, s: Sys)
    requires WellFormed(l, s)
    ensures |s.bits| == TRACKED_PAGES && s.bits[0]
  {
  }

  /** The table words of a page that is not a window's are not window entries. */
  lemma WindowWordOnly(l: Layout, s: Sys, d: int, v: int)
    requires WellFormed(l, s) && 0 <= v < FRAMES && Live(s, d, Slot(v)) && v != l.wdir && v != l.wtab
    ensures NotWindowWord(l, FrameOf(At(s.mem, d, Slot(v))), v % 1024)
  {
    TableEntryReads(l.btab);
    assert Live(s, l.kdir, 0) && ApartOk(l, s, d, Slot(v), l.kdir, 0);
    assert v == 1024 * Slot(v) + v % 1024;
  }
}
