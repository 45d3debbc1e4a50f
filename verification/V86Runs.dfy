/** Runs of a virtual-8086 guest: faults taken by the monitor, interleaved with arbitrary native code.  A shadow
    stack records what every open interrupt or PUSHF put on the guest's stack; it says which runs are well
    bracketed and what closing a bracket must give back. */
module V86Runs {
  import opened Memory
  import opened V86

  /** An open bracket: an emulated interrupt, a PUSHF, or bytes native code pushed for itself. */
  datatype Frame = Trap(eip: Word, cs: Half, flags: Word) | Flags(wide: bool, flags: Word) | Data(size: nat)

  datatype Shadow = Nil | On(top: Frame, below: Shadow)

  /** `base` is the stack pointer under the outermost frame. */
  datatype Conf = Conf(g: State, base: Half, shadow: Shadow)

  function FrameSize(f: Frame): nat {
    match f
    case Trap(_, _, _) => 8
    case Flags(wide, _) => Width(wide)
    case Data(size) => size
  }

  function Size(k: Shadow): nat { if k.Nil? then 0 else FrameSize(k.top) + Size(k.below) }

  function Height(k: Shadow): nat { if k.Nil? then 0 else 1 + Height(k.below) }

  /** The stack pointer with d bytes in use above the base, wrapping at the segment's start. */
  function Off(base: Half, d: nat): Half
    requires d <= 0x1_0000
  {
    if d <= base then base - d else base - d + 0x1_0000
  }

  /** The value v lies d bytes below the base. */
  predicate Cell(m: GuestMem, ss: Word, base: Half, d: nat, wide: bool, v: Word)
    requires d <= 0x1_0000
  {
    Get(m, Linear(ss, Off(base, d)), wide) == v
  }

  predicate Holds(m: GuestMem, ss: Word, base: Half, d: nat, f: Frame)
    requires FrameSize(f) <= d <= 0x1_0000
  {
    match f
    case Trap(eip, cs, flags) => Cell(m, ss, base, d, true, eip) && Cell(m, ss, base, d - 4, false, cs)
      && Cell(m, ss, base, d - 6, false, flags)
    case Flags(wide, flags) => Cell(m, ss, base, d, wide, flags)
    case Data(_) => true
  }

  /** Guest memory still holds every open frame. */
  predicate AllHold(m: GuestMem, ss: Word, base: Half, k: Shadow)
    requires Size(k) <= 0x1_0000
  {
    k.Nil? || (AllHold(m, ss, base, k.below) && Holds(m, ss, base, Size(k), k.top))
  }

  predicate StackAt(s: State, base: Half, d: nat)
    requires d <= 0x1_0000
  {
    s.esp % 0x1_0000 == Off(base, d)
  }

  /** The stack pointer is where the open frames put it, they fit the segment, and memory holds them. */
  predicate Inv(c: Conf) {
    Size(c.shadow) <= 0x1_0000 && StackAt(c.g, c.base, Size(c.shadow)) && AllHold(c.g.mem, c.g.ss, c.base, c.shadow)
  }

  /** Any guest, seen as having no open frames. */
  function Start(g: State): (c: Conf)
    ensures Inv(c) && c.g == g
  {
    Conf(g, g.esp % 0x1_0000, Nil)
  }

  // ----- Frames do not overlap -----

  lemma OffLinear(ss: Word, base: Half, d: nat)
    requires d <= 0x1_0000
    ensures Linear(ss, Off(base, d)) == ss % 0x1_0000 * 16 + Off(base, d)
  {
  }

  /** A store below a cell misses it, also when either wraps and when an access runs over the segment's end. */
  lemma StoreMisses(m: GuestMem, ss: Word, base: Half, d: nat, wide: bool, v: Word, d': nat, wide': bool, v': Word)
    requires Width(wide) <= d && d + Width(wide') <= d' <= 0x1_0000
    requires Cell(m, ss, base, d, wide, v)
    ensures Cell(Put(m, Linear(ss, Off(base, d')), wide', v'), ss, base, d, wide, v)
  {
    OffLinear(ss, base, d);
    OffLinear(ss, base, d');
    PutOther(m, Linear(ss, Off(base, d')), wide', v', Linear(ss, Off(base, d)), wide);
  }

  lemma {:induction false} StoreKeepsFrames(m: GuestMem, ss: Word, base: Half, k: Shadow, d: nat, wide: bool, v: Word)
    requires Size(k) + Width(wide) <= d <= 0x1_0000 && AllHold(m, ss, base, k)
    ensures AllHold(Put(m, Linear(ss, Off(base, d)), wide, v), ss, base, k)
  {
    if k.On? {
      StoreKeepsFrames(m, ss, base, k.below, d, wide, v);
      match k.top {
        case Trap(eip, cs, flags) =>
          StoreMisses(m, ss, base, Size(k), true, eip, d, wide, v);
          StoreMisses(m, ss, base, Size(k) - 4, false, cs, d, wide, v);
          StoreMisses(m, ss, base, Size(k) - 6, false, flags, d, wide, v);
        case Flags(w, flags) => StoreMisses(m, ss, base, Size(k), w, flags, d, wide, v);
        case Data(_) =>
      }
    }
  }

  lemma PushAt(s: State, base: Half, d: nat, v: Word, wide: bool)
    requires d + Width(wide) <= 0x1_0000 && StackAt(s, base, d)
    ensures var s' := Push(s, v, wide); var d' := d + Width(wide);
            && StackAt(s', base, d')
            && s'.mem == Put(s.mem, Linear(s.ss, Off(base, d')), wide, v)
            && Cell(s'.mem, s.ss, base, d', wide, Cut(v, wide))
  {
    hide Put, Get, Cut;
    var d' := d + Width(wide);
    PutGet(s.mem, Linear(s.ss, Off(base, d')), wide, v);
  }

  lemma PopAt(s: State, base: Half, d: nat, wide: bool, v: Word)
    requires Width(wide) <= d <= 0x1_0000 && StackAt(s, base, d) && Cell(s.mem, s.ss, base, d, wide, v)
    ensures StackAt(Pop(s, wide), base, d - Width(wide)) && Popped(s, wide) == v
  {
    assert Linear(s.ss, s.esp) == Linear(s.ss, Off(base, d));
  }

  // ----- Runs -----

  /** A fault the monitor handles, or native code that leaves the stack level, grows it or shrinks it. */
  datatype Event = Fault | Native(after: State) | Grow(size: nat, after: State) | Shrink(after: State)

  /** What the open frames look like after the event. */
  function ShadowAfter(c: Conf, e: Event): Shadow {
    match e
    case Native(_) => c.shadow
    case Grow(size, _) => On(Data(size), c.shadow)
    case Shrink(_) => if c.shadow.On? then c.shadow.below else Nil
    case Fault =>
      match Fetched(c.g)
      case None => c.shadow
      case Some((op, s)) =>
        match op
        case Int(_) => On(Trap(s.eip, s.cs % 0x1_0000, Cut(Image(s), false)), c.shadow)
        case Pushf(wide) => On(Flags(wide, Cut(Image(s), wide)), c.shadow)
        case Iret => if c.shadow.On? then c.shadow.below else Nil
        case Popf(_) => if c.shadow.On? then c.shadow.below else Nil
        case _ => c.shadow
  }

  /** Brackets close what they opened with the same kind and width, and the frames fit 64 KiB. */
  predicate Bracketed(c: Conf, op: Op) {
    match op
    case Int(n) => n != 3 && Size(c.shadow) + 8 <= 0x1_0000
    case Pushf(wide) => Size(c.shadow) + Width(wide) <= 0x1_0000
    case Iret => c.shadow.On? && c.shadow.top.Trap?
    case Popf(wide) => c.shadow.On? && c.shadow.top.Flags? && c.shadow.top.wide == wide
    case Cli => true
    case Sti => true
    case Bad => false
  }

  /** Native code may do anything to registers and memory, but keeps ss and the open frames, cannot touch the
      virtual interrupt flag, and leaves the stack pointer where the event says. */
  predicate NativeOk(c: Conf, after: State, k: Shadow) {
    && after.ss == c.g.ss && after.vif == c.g.vif && Size(k) <= 0x1_0000
    && StackAt(after, c.base, Size(k)) && AllHold(after.mem, after.ss, c.base, k)
  }

  predicate StepOk(c: Conf, e: Event) {
    match e
    case Fault => Fetched(c.g).Some? && Bracketed(c, Fetched(c.g).value.0)
    case Native(after) => NativeOk(c, after, c.shadow)
    case Grow(size, after) => NativeOk(c, after, On(Data(size), c.shadow))
    case Shrink(after) => c.shadow.On? && c.shadow.top.Data? && NativeOk(c, after, c.shadow.below)
  }

  function Next(c: Conf, e: Event, env: Env): Conf
    requires StepOk(c, e)
  {
    var g := if e.Fault? then Emulate(Fetched(c.g).value.0, Fetched(c.g).value.1, env).value else e.after;
    Conf(g, c.base, ShadowAfter(c, e))
  }

  /** The monitor's INT builds exactly the frame its IRET expects. */
  lemma IntBuildsFrame(s: State, base: Half, k: Shadow, n: Byte)
    requires Size(k) + 8 <= 0x1_0000 && StackAt(s, base, Size(k)) && AllHold(s.mem, s.ss, base, k)
    ensures var k' := On(Trap(s.eip, s.cs % 0x1_0000, Cut(Image(s), false)), k); var s' := Interrupted(s, n);
            s'.ss == s.ss && StackAt(s', base, Size(k')) && AllHold(s'.mem, s.ss, base, k')
  {
    FramedHolds(s, base, k);
    hide Framed, AllHold, Image, Cut;
  }

  lemma FramedHolds(s: State, base: Half, k: Shadow)
    requires Size(k) + 8 <= 0x1_0000 && StackAt(s, base, Size(k)) && AllHold(s.mem, s.ss, base, k)
    ensures var k' := On(Trap(s.eip, s.cs % 0x1_0000, Cut(Image(s), false)), k); var s' := Framed(s);
            s'.ss == s.ss && StackAt(s', base, Size(k')) && AllHold(s'.mem, s.ss, base, k')
  {
    var f, cs := Image(s), Cut(s.cs, false);
    assert Cut(s.eip, true) == s.eip;
    hide Image, Push, Cell, AllHold, StackAt;
    assert cs == s.cs % 0x1_0000;
    hide Cut;
    ThreePushes(s, base, k, Size(k), f, s.cs, s.eip);
    assert Framed(s).ss == s.ss && StackAt(Framed(s), base, Size(k) + 8);
    hide Framed;
    FrameOnTop(Framed(s).mem, s.ss, base, k, s.eip, cs, Cut(f, false));
  }

  /** Two halves and a word, pushed in turn. */
  lemma ThreePushes(s: State, base: Half, k: Shadow, d: nat, x: Word, y: Word, z: Word)
    requires Size(k) <= d && d + 8 <= 0x1_0000 && StackAt(s, base, d) && AllHold(s.mem, s.ss, base, k)
    ensures var s' := Push(Push(Push(s, x, false), y, false), z, true);
            && s'.ss == s.ss && StackAt(s', base, d + 8) && AllHold(s'.mem, s.ss, base, k)
            && Cell(s'.mem, s.ss, base, d + 8, true, Cut(z, true))
            && Cell(s'.mem, s.ss, base, d + 4, false, Cut(y, false))
            && Cell(s'.mem, s.ss, base, d + 2, false, Cut(x, false))
  {
    hide Cut, Push, Cell, AllHold, StackAt, Size;
    var s1 := Push(s, x, false);
    var s2 := Push(s1, y, false);
    PushStep(s, base, k, d, x, false);
    PushStep(s1, base, k, d + 2, y, false);
    PushStep(s2, base, k, d + 4, z, true);
    PushMisses(s1, base, d + 2, Cut(x, false), d + 2, y, false);
    PushMisses(s2, base, d + 2, Cut(x, false), d + 4, z, true);
    PushMisses(s2, base, d + 4, Cut(y, false), d + 4, z, true);
  }

  /** One push: the stack pointer moves, the value lies there, and every open frame stays. */
  lemma PushStep(s: State, base: Half, k: Shadow, d: nat, v: Word, wide: bool)
    requires Size(k) <= d && d + Width(wide) <= 0x1_0000 && StackAt(s, base, d) && AllHold(s.mem, s.ss, base, k)
    ensures var s' := Push(s, v, wide); var d' := d + Width(wide);
            && s'.ss == s.ss && StackAt(s', base, d') && AllHold(s'.mem, s.ss, base, k)
            && Cell(s'.mem, s.ss, base, d', wide, Cut(v, wide))
  {
    hide Put, Cut, Cell, AllHold;
    PushAt(s, base, d, v, wide);
    StoreKeepsFrames(s.mem, s.ss, base, k, d + Width(wide), wide, v);
  }

  /** A push leaves a value pushed before it. */
  lemma PushMisses(s: State, base: Half, d: nat, v: Word, d': nat, v': Word, wide: bool)
    requires 2 <= d <= d' && d' + Width(wide) <= 0x1_0000 && StackAt(s, base, d')
             && Cell(s.mem, s.ss, base, d, false, v)
    ensures Cell(Push(s, v', wide).mem, s.ss, base, d, false, v)
  {
    hide Put, Cut, Cell;
    PushAt(s, base, d', v', wide);
    StoreMisses(s.mem, s.ss, base, d, false, v, d' + Width(wide), wide, v');
  }

  lemma FrameOnTop(m: GuestMem, ss: Word, base: Half, k: Shadow, eip: Word, cs: Half, flags: Word)
    requires Size(k) + 8 <= 0x1_0000 && AllHold(m, ss, base, k)
    requires Cell(m, ss, base, Size(k) + 8, true, eip) && Cell(m, ss, base, Size(k) + 4, false, cs)
    requires Cell(m, ss, base, Size(k) + 2, false, flags)
    ensures AllHold(m, ss, base, On(Trap(eip, cs, flags), k)) && Size(On(Trap(eip, cs, flags), k)) == Size(k) + 8
  {
    hide Cell;
  }

  /** The monitor's IRET takes a frame apart into the registers it was built from. */
  lemma IretReadsFrame(s: State, base: Half, k: Shadow)
    requires k.On? && k.top.Trap? && Size(k) <= 0x1_0000 && StackAt(s, base, Size(k)) && AllHold(s.mem, s.ss, base, k)
    ensures var s' := Returned(s);
            && s'.eip == k.top.eip && s'.cs == k.top.cs && s'.eflags == Forced(k.top.flags)
            && s'.vif == IfBit(Forced(k.top.flags))
            && s'.ss == s.ss && s'.mem == s.mem && StackAt(s', base, Size(k.below)) && s'.host == s.host
  {
    var d := Size(k);
    PopAt(s, base, d, true, k.top.eip);
    var s1 := Pop(s.(eip := Popped(s, true)), true);
    PopAt(s1, base, d - 4, false, k.top.cs);
    var s2 := Pop(s1.(cs := Popped(s1, false)), false);
    PopAt(s2, base, d - 6, false, k.top.flags);
  }

  lemma PopfReadsFrame(s: State, base: Half, k: Shadow)
    requires k.On? && k.top.Flags? && Size(k) <= 0x1_0000 && StackAt(s, base, Size(k)) && AllHold(s.mem, s.ss, base, k)
    ensures var s' := Loaded(Pop(s, k.top.wide), Forced(Popped(s, k.top.wide)));
            && s'.eflags == Forced(k.top.flags) && s'.vif == IfBit(Forced(k.top.flags))
            && s'.ss == s.ss && s'.mem == s.mem && StackAt(s', base, Size(k.below))
  {
    PopAt(s, base, Size(k), k.top.wide, k.top.flags);
  }

  /** Every event of a well-bracketed run keeps the open frames in place. */
  lemma StepKeepsInv(c: Conf, e: Event, env: Env)
    requires Inv(c) && StepOk(c, e)
    ensures Inv(Next(c, e, env)) && Next(c, e, env).g.ss == c.g.ss
  {
    if e.Fault? {
      FetchedFrame(c.g);
      var op, s := Fetched(c.g).value.0, Fetched(c.g).value.1;
      match op {
        case Int(n) => IntBuildsFrame(s, c.base, c.shadow, n);
        case Pushf(wide) =>
          PushAt(s, c.base, Size(c.shadow), Image(s), wide);
          StoreKeepsFrames(s.mem, s.ss, c.base, c.shadow, Size(c.shadow) + Width(wide), wide, Image(s));
        case Iret => IretReadsFrame(s, c.base, c.shadow);
        case Popf(_) => PopfReadsFrame(s, c.base, c.shadow);
        case _ =>
      }
    }
  }

  /** A run that never closes a bracket opened below the given height. */
  predicate RunOk(c: Conf, events: seq<Event>, env: Env, floor: nat)
    decreases |events|
  {
    events == [] ||
    (StepOk(c, events[0]) && floor <= Height(ShadowAfter(c, events[0]))
      && RunOk(Next(c, events[0], env), events[1..], env, floor))
  }

  function Final(c: Conf, events: seq<Event>, env: Env, floor: nat): Conf
    requires RunOk(c, events, env, floor)
    decreases |events|
  {
    if events == [] then c else Final(Next(c, events[0], env), events[1..], env, floor)
  }

  /** The frames at the bottom of the shadow stack, up to a height. */
  function Bottom(k: Shadow, height: nat): Shadow { if Height(k) <= height then k else Bottom(k.below, height) }

  /** Whatever happens above it, the part of the stack below the floor stays, and so does the invariant. */
  lemma {:induction false} RunKeepsFloor(c: Conf, events: seq<Event>, env: Env, floor: nat)
    requires Inv(c) && floor <= Height(c.shadow) && RunOk(c, events, env, floor)
    ensures var f := Final(c, events, env, floor);
            Inv(f) && f.g.ss == c.g.ss && f.base == c.base && floor <= Height(f.shadow)
            && Bottom(f.shadow, floor) == Bottom(c.shadow, floor)
    decreases |events|
  {
    if events != [] {
      StepKeepsInv(c, events[0], env);
      RunKeepsFloor(Next(c, events[0], env), events[1..], env, floor);
    }
  }

  /** A bracket opened by the fault in c, run to its close: `events` in between never close it. */
  predicate Closes(c: Conf, events: seq<Event>, env: Env) {
    && StepOk(c, Fault)
    && RunOk(Next(c, Fault, env), events, env, Height(c.shadow) + 1)
    && var f := Final(Next(c, Fault, env), events, env, Height(c.shadow) + 1);
       Height(f.shadow) == Height(c.shadow) + 1 && StepOk(f, Fault) && Height(ShadowAfter(f, Fault)) == Height(c.shadow)
  }

  function Closed(c: Conf, events: seq<Event>, env: Env): Conf
    requires Closes(c, events, env)
  {
    Next(Final(Next(c, Fault, env), events, env, Height(c.shadow) + 1), Fault, env)
  }

  lemma BottomWhole(k: Shadow)
    ensures Bottom(k, Height(k)) == k
  {
  }

  /** A fault at an INT or PUSHF opens the frame that records it. */
  lemma Opens(c: Conf, env: Env)
    requires StepOk(c, Fault)
    ensures var f := Fetched(c.g).value; var s := f.1;
            && Next(c, Fault, env).base == c.base
            && (f.0.Int? ==>
                  Next(c, Fault, env).shadow == On(Trap(s.eip, s.cs % 0x1_0000, Cut(Image(s), false)), c.shadow))
            && (f.0.Pushf? ==> Next(c, Fault, env).shadow == On(Flags(f.0.wide, Cut(Image(s), f.0.wide)), c.shadow))
  {
    hide Fetched, Emulate, Image, Cut;
  }

  /** A fault that closes the top frame gives back what that frame holds. */
  lemma Gives(c: Conf, env: Env)
    requires Inv(c) && StepOk(c, Fault) && Height(ShadowAfter(c, Fault)) < Height(c.shadow)
    ensures var r := Next(c, Fault, env);
            && c.shadow.On? && r.shadow == c.shadow.below && Inv(r) && r.g.ss == c.g.ss && r.base == c.base
            && (c.shadow.top.Trap? ==>
                  && r.g.eip == c.shadow.top.eip && r.g.cs == c.shadow.top.cs
                  && r.g.eflags == Forced(c.shadow.top.flags) && r.g.vif == IfBit(Forced(c.shadow.top.flags)))
            && (c.shadow.top.Flags? ==>
                  r.g.eflags == Forced(c.shadow.top.flags) && r.g.vif == IfBit(Forced(c.shadow.top.flags)))
  {
    hide Fetched, Forced, IfBit, Image, Holds;
    StepKeepsInv(c, Fault, env);
    FetchedFrame(c.g);
    var op, s := Fetched(c.g).value.0, Fetched(c.g).value.1;
    match op {
      case Iret => IretReadsFrame(s, c.base, c.shadow);
      case Popf(_) => PopfReadsFrame(s, c.base, c.shadow);
      case _ =>
    }
  }

  /** The bracket as a whole: what the opening fault recorded is on top again when the closing fault comes. */
  lemma Spans(c: Conf, events: seq<Event>, env: Env)
    requires Inv(c) && Closes(c, events, env) && Next(c, Fault, env).shadow.On?
             && Next(c, Fault, env).shadow.below == c.shadow
    ensures var f := Final(Next(c, Fault, env), events, env, Height(c.shadow) + 1);
            Inv(f) && f.shadow == Next(c, Fault, env).shadow && f.base == c.base && f.g.ss == c.g.ss
  {
    hide Fetched, Emulate, Inv, RunOk, Final;
    StepKeepsInv(c, Fault, env);
    assert Next(c, Fault, env).base == c.base && Height(Next(c, Fault, env).shadow) == Height(c.shadow) + 1;
    hide StepOk, Next, ShadowAfter;
    Level(Next(c, Fault, env), events, env);
  }

  /** A run that ends at the height it started from, and never dipped below, ends with the same frames. */
  lemma Level(c: Conf, events: seq<Event>, env: Env)
    requires Inv(c) && RunOk(c, events, env, Height(c.shadow))
    requires Height(Final(c, events, env, Height(c.shadow)).shadow) == Height(c.shadow)
    ensures var f := Final(c, events, env, Height(c.shadow));
            Inv(f) && f.shadow == c.shadow && f.base == c.base && f.g.ss == c.g.ss
  {
    hide Inv, RunOk, Final, Bottom, Height;
    RunKeepsFloor(c, events, env, Height(c.shadow));
    BottomWhole(c.shadow);
    BottomWhole(Final(c, events, env, Height(c.shadow)).shadow);
  }

  lemma SameStack(c: Conf, r: Conf)
    requires Inv(c) && Inv(r) && r.shadow == c.shadow && r.base == c.base
    ensures r.g.esp % 0x1_0000 == c.g.esp % 0x1_0000
  {
  }

  /** Nested emulated interrupts undo exactly: from an INT to its matching IRET, whatever brackets, native code and
      wraps of the stack pointer lie between, the guest is back behind the INT with its cs, stack and interrupt flag. */
  lemma InterruptUndone(c: Conf, events: seq<Event>, env: Env)
    requires Inv(c) && Closes(c, events, env) && Fetched(c.g).value.0.Int?
    ensures var r := Closed(c, events, env); var s := Fetched(c.g).value.1;
            && r.shadow == c.shadow && Inv(r)
            && r.g.eip == s.eip && r.g.cs == c.g.cs % 0x1_0000 && r.g.ss == c.g.ss
            && r.g.esp % 0x1_0000 == c.g.esp % 0x1_0000 && r.g.vif == c.g.vif
            && r.g.eflags == Reloaded(Image(c.g), false) && r.g.eflags % 0x1_0000 == Image(c.g) % 0x1_0000
  {
    hide Inv, RunOk, Final, Next, ShadowAfter, Fetched, Forced, IfBit, Image, Cut, Reloaded;
    var s := Fetched(c.g).value.1;
    FetchedFrame(c.g);
    Opens(c, env);
    Spans(c, events, env);
    Gives(Final(Next(c, Fault, env), events, env, Height(c.shadow) + 1), env);
    SameStack(c, Closed(c, events, env));
    InterruptFlags(c.g, s);
  }

  lemma InterruptFlags(g: State, s: State)
    requires s == g.(eip := s.eip)
    ensures var w := Forced(Cut(Image(s), false));
            IfBit(w) == g.vif && w == Reloaded(Image(g), false) && w % 0x1_0000 == Image(g) % 0x1_0000
  {
    ReloadIf(s, false);
  }

  /** The shortest such run: an INT whose handler starts with an IRET. */
  lemma PlainHandlerCloses(g: State, n: Byte, env: Env)
    requires n != 3 && Fetched(g).Some? && Fetched(g).value.0 == Int(n)
    requires var h := Interrupted(Fetched(g).value.1, n); Fetched(h).Some? && Fetched(h).value.0 == Iret
    ensures Closes(Start(g), [], env)
  {
    hide Fetched, Interrupted;
    var c := Start(g);
    assert Next(c, Fault, env).g == Interrupted(Fetched(g).value.1, n);
  }

  lemma PushBelow(s: State, v: Word, wide: bool, a: nat)
    requires s.ss == 0 && 0x9000 <= s.esp < 0x1_0000 && a < 0x8ffc
    ensures var s' := Push(s, v, wide);
            s'.ss == 0 && s'.esp == s.esp - Width(wide) && s'.mem[a] == s.mem[a]
  {
  }

  /** Pushing an interrupt frame high in segment 0 leaves low memory alone. */
  lemma EnteredReads(s: State, n: Byte, a: nat)
    requires s.ss == 0 && s.esp == 0xa000 && a < 0x8ffc
    ensures Interrupted(s, n).mem[a] == s.mem[a]
  {
    var s1 := Push(s, Image(s), false);
    var s2 := Push(s1, s.cs, false);
    PushBelow(s, Image(s), false, a);
    PushBelow(s1, s.cs, false, a);
    PushBelow(s2, s.eip, true, a);
  }

  /** It exists: INT 0x21 at 07C0:0000, whose vector holds 00 80 00 00, goes to an empty handler at 0000:8000. */
  lemma PlainHandlerExists(env: Env) returns (g: State)
    ensures g.cs == 0x7c0 && g.eip == 0 && g.mem[0x7c00] == 0xcd && g.mem[0x7c01] == 0x21
    ensures g.mem[0x84] == 0x00 && g.mem[0x85] == 0x80 && g.mem[0x86] == 0x00 && g.mem[0x87] == 0x00
    ensures Closes(Start(g), [], env) && Fetched(g).value.0 == Int(0x21)
    ensures var h := Next(Start(g), Fault, env).g; h.cs == 0 && h.eip == 0x8000
  {
    var mem: GuestMem := seq(0x11_0000, _ => 0)[0x7c00 := 0xcd][0x7c01 := 0x21][0x85 := 0x80][0x8000 := 0xcf];
    g := State(mem, 0, 0x7c0, 0, 0xa000, 2, true, Host(0, 0, 0, 0));
    var s := Advance(Advance(g));
    FetchesInt(g);
    EntersAt(s);
    var h := Interrupted(s, 0x21);
    hide Interrupted;
    FetchesIret(h);
    hide Fetched;
    PlainHandlerCloses(g, 0x21, env);
  }

  lemma FetchesInt(g: State)
    requires g.cs == 0x7c0 && g.eip == 0 && g.mem[0x7c00] == 0xcd && g.mem[0x7c01] == 0x21
    ensures Fetched(g) == Some((Int(0x21), Advance(Advance(g))))
  {
    var s := Advance(g);
    assert s == g.(eip := 1) && Code(g, 0) == 0xcd && Code(s, 1) == 0x21;
    hide Code, Advance, Linear;
    assert Decode(g, false, 0x1_0000) == Some(Decoded(0xcd, false, s));
    hide Decode;
  }

  lemma FetchesIret(h: State)
    requires h.cs == 0 && h.eip == 0x8000 && h.mem[0x8000] == 0xcf
    ensures Fetched(h) == Some((Iret, Advance(h)))
  {
    assert Code(h, 0x8000) == 0xcf;
    hide Code, Advance, Linear;
    assert Decode(h, false, 0x1_0000) == Some(Decoded(0xcf, false, Advance(h)));
    hide Decode;
  }

  lemma EntersAt(s: State)
    requires s.ss == 0 && s.esp == 0xa000
    requires s.mem[0x84] == 0x00 && s.mem[0x85] == 0x80 && s.mem[0x86] == 0x00 && s.mem[0x87] == 0x00
    ensures var h := Interrupted(s, 0x21); h.cs == 0 && h.eip == 0x8000 && h.mem[0x8000] == s.mem[0x8000]
  {
    hide Framed;
    EnteredReads(s, 0x21, 0x84);
    EnteredReads(s, 0x21, 0x85);
    EnteredReads(s, 0x21, 0x86);
    EnteredReads(s, 0x21, 0x87);
    EnteredReads(s, 0x21, 0x8000);
  }

  /** The same for PUSHF and the POPF of its width: stack and virtual interrupt flag come back. */
  lemma PushfUndone(c: Conf, events: seq<Event>, env: Env)
    requires Inv(c) && Closes(c, events, env) && Fetched(c.g).value.0.Pushf?
    ensures var r := Closed(c, events, env);
            && r.shadow == c.shadow && Inv(r) && r.g.ss == c.g.ss
            && r.g.esp % 0x1_0000 == c.g.esp % 0x1_0000 && r.g.vif == c.g.vif
            && r.g.eflags == Reloaded(Image(c.g), Fetched(c.g).value.0.wide)
  {
    hide Inv, RunOk, Final, Next, ShadowAfter, Fetched, Forced, IfBit, Image, Cut;
    var s, wide := Fetched(c.g).value.1, Fetched(c.g).value.0.wide;
    FetchedFrame(c.g);
    Opens(c, env);
    Spans(c, events, env);
    Gives(Final(Next(c, Fault, env), events, env, Height(c.shadow) + 1), env);
    SameStack(c, Closed(c, events, env));
    ImageOf(c.g, s);
    ReloadIf(s, wide);
  }

  lemma ImageOf(g: State, s: State)
    requires s == g.(eip := s.eip)
    ensures Image(s) == Image(g) && s.vif == g.vif
  {
  }
}
