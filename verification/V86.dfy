/** The virtual-8086 monitor of src/proc/v86.c: the state a general-protection fault hands it, one call of the
    monitor as a function of that state, and what whole runs of faults and native guest code restore. */
module V86 {
  import opened Memory

  type Half = h: int | 0 <= h < 0x1_0000

  /** Linear memory as far as any segment reaches, with room for an access that starts at its last byte. */
  type GuestMem = m: seq<Byte> | |m| == 0x11_0000 ghost witness seq(0x11_0000, _ => 0)

  /** The ring-0 registers that only leaving virtual-8086 mode writes. */
  datatype Host = Host(ds: Word, esp: Word, eax: Word, ebx: Word)

  datatype State = State(mem: GuestMem, eip: Word, cs: Word, ss: Word, esp: Word, eflags: Word, vif: bool, host: Host)

  /** Addresses the monitor takes from elsewhere: _exit_v86, v86_exit and the thread's kernel stack. */
  datatype Env = Env(exitStub: Word, exitHandler: Word, kernelStack: Word)

  // ----- Segmented memory -----

  function Linear(seg: Word, off: int): (a: nat)
    ensures a < 0x10_fff0
  {
    (seg % 0x1_0000) * 16 + off % 0x1_0000
  }

  function Width(wide: bool): nat { if wide then 4 else 2 }

  function Get16(m: GuestMem, a: nat): (v: Half)
    requires a + 2 <= |m|
  {
    m[a] + 0x100 * (m[a + 1] as int)
  }

  function Put16(m: GuestMem, a: nat, v: Half): GuestMem
    requires a + 2 <= |m|
  {
    m[a := v % 0x100][a + 1 := v / 0x100]
  }

  /** A little-endian access of two or four bytes; it never wraps inside the segment. */
  function Get(m: GuestMem, a: nat, wide: bool): (v: Word)
    requires a + 4 <= |m|
  {
    if wide then Get16(m, a) + 0x1_0000 * (Get16(m, a + 2) as int) else Get16(m, a)
  }

  function Put(m: GuestMem, a: nat, wide: bool, v: Word): GuestMem
    requires a + 4 <= |m|
  {
    var low := Put16(m, a, v % 0x1_0000);
    if wide then Put16(low, a + 2, v / 0x1_0000) else low
  }

  /** What a store of that width keeps of a value. */
  function Cut(v: Word, wide: bool): Word { if wide then v else v % 0x1_0000 }

  lemma PutGet(m: GuestMem, a: nat, wide: bool, v: Word)
    requires a + 4 <= |m|
    ensures Get(Put(m, a, wide, v), a, wide) == Cut(v, wide)
  {
  }

  lemma PutOther(m: GuestMem, a: nat, wide: bool, v: Word, b: nat, wide': bool)
    requires a + 4 <= |m| && b + 4 <= |m|
    requires a + Width(wide) <= b || b + Width(wide') <= a
    ensures Get(Put(m, a, wide, v), b, wide') == Get(m, b, wide')
  {
  }

  // ----- The stack -----

  function Push(s: State, v: Word, wide: bool): State {
    var sp := (s.esp % 0x1_0000 - Width(wide)) % 0x1_0000;
    s.(mem := Put(s.mem, Linear(s.ss, sp), wide, v), esp := sp)
  }

  function Popped(s: State, wide: bool): Word { Get(s.mem, Linear(s.ss, s.esp), wide) }

  function Pop(s: State, wide: bool): State { s.(esp := (s.esp % 0x1_0000 + Width(wide)) % 0x1_0000) }

  lemma StackWraps(sp: Half, wide: bool)
    ensures var down := (sp - Width(wide)) % 0x1_0000; (down + Width(wide)) % 0x1_0000 == sp && down % 0x1_0000 == down
  {
  }

  /** Whatever the stack pointer, and also when it wraps, a pop of the same width undoes a push. */
  lemma PushPop(s: State, v: Word, wide: bool)
    ensures Popped(Push(s, v, wide), wide) == Cut(v, wide)
    ensures Pop(Push(s, v, wide), wide) == Push(s, v, wide).(esp := s.esp % 0x1_0000)
  {
    var sp := (s.esp % 0x1_0000 - Width(wide)) % 0x1_0000;
    StackWraps(s.esp % 0x1_0000, wide);
    PutGet(s.mem, Linear(s.ss, sp), wide, v);
  }

  /** Only the same width brings the stack pointer back. */
  lemma WidthsMustMatch(s: State, v: Word, pushed: bool, popped: bool)
    ensures Pop(Push(s, v, pushed), popped).esp == s.esp % 0x1_0000 <==> pushed == popped
  {
    StackWraps(s.esp % 0x1_0000, pushed);
  }

  // ----- Flags -----

  /** eflags | 0x20002: the reserved bit 1 and the virtual-8086 bit 17. */
  function Forced(w: Word): Word {
    var low := if w / 2 % 2 == 1 then w else w + 2;
    if low / 0x2_0000 % 2 == 1 then low else low + 0x2_0000
  }

  predicate IfBit(w: Word) { w / 0x200 % 2 == 1 }

  function WithIf(w: Word, on: bool): Word {
    if IfBit(w) then (if on then w else w - 0x200) else if on then w + 0x200 else w
  }

  /** The flags word the guest sees: its own flags with the virtual interrupt flag in bit 9. */
  function Image(s: State): Word { WithIf(Forced(s.eflags), s.vif) }

  /** What a pop of either width reads back from that word. */
  function Reloaded(image: Word, wide: bool): Word { Forced(Cut(image, wide)) }

  lemma ForcedBits(w: Word)
    ensures Forced(w) / 2 % 2 == 1 && Forced(w) / 0x2_0000 % 2 == 1
  {
  }

  lemma Div2(q: int, r: int)
    requires 0 <= r < 2
    ensures (2 * q + r) / 2 == q
  {
  }

  lemma Div512(q: int, r: int)
    requires 0 <= r < 0x200
    ensures (0x200 * q + r) / 0x200 == q
  {
  }

  lemma Div128K(q: int, r: int)
    requires 0 <= r < 0x2_0000
    ensures (0x2_0000 * q + r) / 0x2_0000 == q
  {
  }

  predicate Flips(w: nat, step: int) { (step == 1 && w / 0x200 % 2 == 0) || (step == -1 && w / 0x200 % 2 == 1) }

  /** Adding or removing bit 9 flips that bit ... */
  lemma FlipsNine(w: nat, step: int)
    requires Flips(w, step)
    ensures (w + 0x200 * step) / 0x200 % 2 == 1 <==> step == 1
  {
    Div512(w / 0x200 + step, w % 0x200);
  }

  /** ... and leaves bit 1 ... */
  lemma FlipKeepsOne(w: nat, step: int)
    ensures (w + 0x200 * step) / 2 % 2 == w / 2 % 2
  {
    Div2(w / 2 + 0x100 * step, w % 2);
    EvenShift(w / 2, 0x80 * step);
  }

  /** ... and everything from bit 17 up. */
  lemma FlipKeepsHigh(w: nat, step: int)
    requires Flips(w, step)
    ensures (w + 0x200 * step) / 0x2_0000 == w / 0x2_0000
  {
    var q, r := w / 0x200, w % 0x200;
    EvenPart(q);
    NoCarry(q / 0x100, q % 0x100, r, step, w);
  }

  lemma NoCarry(k: int, j: int, r: int, step: int, w: int)
    requires 0 <= j < 0x100 && 0 <= r < 0x200 && w == 0x2_0000 * k + 0x200 * j + r
    requires (step == 1 && j % 2 == 0) || (step == -1 && j % 2 == 1)
    ensures (w + 0x200 * step) / 0x2_0000 == k == w / 0x2_0000
  {
    Div128K(k, 0x200 * j + r);
    Div128K(k, 0x200 * (j + step) + r);
  }

  lemma EvenPart(q: int)
    ensures q % 0x100 % 2 == q % 2
  {
  }

  lemma EvenShift(h: int, k: int)
    ensures (h + 2 * k) % 2 == h % 2
  {
  }

  lemma WithIfBits(w: Word, on: bool)
    ensures IfBit(WithIf(w, on)) == on
    ensures WithIf(w, on) / 2 % 2 == w / 2 % 2
    ensures WithIf(w, on) / 0x2_0000 == w / 0x2_0000
  {
    if IfBit(w) != on {
      var step := if on then 1 else -1;
      FlipsNine(w, step);
      FlipKeepsOne(w, step);
      FlipKeepsHigh(w, step);
    }
  }

  lemma LowHalfBits(w: Word)
    ensures w % 0x1_0000 / 2 % 2 == w / 2 % 2
    ensures IfBit(w % 0x1_0000) == IfBit(w)
    ensures IfBit(w % 0x1_0000 + 0x2_0000) == IfBit(w)
  {
    var q, l := w / 0x1_0000, w % 0x1_0000;
    assert w / 2 == 0x8000 * q + l / 2;
    assert w / 0x200 == 0x80 * q + l / 0x200;
    assert (l + 0x2_0000) / 0x200 == 0x100 + l / 0x200;
  }

  /** Either width brings the virtual interrupt flag back; the wide one brings back the whole word. */
  lemma ReloadIf(s: State, wide: bool)
    ensures IfBit(Reloaded(Image(s), wide)) == s.vif
    ensures wide ==> Reloaded(Image(s), wide) == Image(s)
    ensures Reloaded(Image(s), wide) % 0x1_0000 == Image(s) % 0x1_0000
  {
    ForcedBits(s.eflags);
    WithIfBits(Forced(s.eflags), s.vif);
    LowHalfBits(Image(s));
  }

  // ----- Fetching and the prefix loop -----

  predicate IsPrefix(b: Byte) { b == 0x66 || b == 0x67 }

  function Code(s: State, off: int): Byte { s.mem[Linear(s.cs, off)] }

  /** Only the low half of eip moves. */
  function Advance(s: State): State {
    s.(eip := s.eip / 0x1_0000 * 0x1_0000 + (s.eip % 0x1_0000 + 1) % 0x1_0000)
  }

  /** The opcode the loop stops at, whether an operand-size prefix came before it, and the state after the fetch. */
  datatype Decoded = Decoded(opcode: Byte, wide: bool, after: State)

  /** The prefix loop, given at most `fetches` turns. */
  function Decode(s: State, wide: bool, fetches: nat): Option<Decoded>
    decreases fetches
  {
    if fetches == 0 then None
    else
      var b := Code(s, s.eip);
      if IsPrefix(b) then Decode(Advance(s), wide || b == 0x66, fetches - 1)
      else Some(Decoded(b, wide, Advance(s)))
  }

  /** Some byte of the 64 KiB code segment is neither 0x66 nor 0x67. */
  ghost predicate HasOpcode(s: State) { exists off :: 0 <= off < 0x1_0000 && !IsPrefix(Code(s, off)) }

  /** An opcode lies within the next `fetches` bytes, counted round the segment. */
  ghost predicate OpcodeWithin(s: State, fetches: nat) { exists k :: 0 <= k < fetches && OpcodeAt(s, k) }

  predicate OpcodeAt(s: State, k: int) { !IsPrefix(Code(s, s.eip + k)) }

  lemma CodeWraps(s: State, k: int)
    ensures OpcodeAt(Advance(s), k) == OpcodeAt(s, k + 1)
  {
  }

  /** The loop ends within a number of fetches exactly when an opcode lies that near. */
  lemma {:induction false} DecodeEnds(s: State, wide: bool, fetches: nat)
    ensures Decode(s, wide, fetches).Some? <==> OpcodeWithin(s, fetches)
    decreases fetches
  {
    if fetches > 0 {
      var s1, b := Advance(s), Code(s, s.eip);
      DecodeEnds(s1, wide || b == 0x66, fetches - 1);
      if !IsPrefix(b) {
        assert OpcodeAt(s, 0);
      } else {
        if OpcodeWithin(s, fetches) {
          var k :| 0 <= k < fetches && OpcodeAt(s, k);
          assert k != 0;
          CodeWraps(s, k - 1);
        }
        if OpcodeWithin(s1, fetches - 1) {
          var k :| 0 <= k < fetches - 1 && OpcodeAt(s1, k);
          CodeWraps(s, k);
          assert OpcodeAt(s, k + 1);
        }
      }
    }
  }

  /** 65536 fetches see the whole segment. */
  lemma WholeSegment(s: State, fetches: nat)
    requires fetches >= 0x1_0000
    ensures OpcodeWithin(s, fetches) <==> HasOpcode(s)
  {
    if HasOpcode(s) {
      var off :| 0 <= off < 0x1_0000 && !IsPrefix(Code(s, off));
      var k := (off - s.eip) % 0x1_0000;
      assert (s.eip + k) % 0x1_0000 == off;
      assert OpcodeAt(s, k);
    }
    if OpcodeWithin(s, fetches) {
      var k :| 0 <= k < fetches && OpcodeAt(s, k);
      assert !IsPrefix(Code(s, (s.eip + k) % 0x1_0000));
    }
  }

  /** The prefix loop ends within 65536 fetches if the code segment holds any opcode; otherwise it never ends. */
  lemma PrefixLoopEnds(s: State, wide: bool, fetches: nat)
    ensures HasOpcode(s) && fetches >= 0x1_0000 ==> Decode(s, wide, fetches).Some?
    ensures !HasOpcode(s) ==> Decode(s, wide, fetches).None?
  {
    DecodeEnds(s, wide, fetches);
    if fetches >= 0x1_0000 {
      WholeSegment(s, fetches);
    } else {
      WholeSegment(s, 0x1_0000);
    }
  }

  /** It does not end in a segment filled with operand-size prefixes. */
  lemma PrefixesOnlyExample(s: State, wide: bool, fetches: nat)
    requires s.mem == seq(0x11_0000, _ => 0x66)
    ensures Decode(s, wide, fetches).None?
  {
    PrefixLoopEnds(s, wide, fetches);
  }

  /** Decoding moves nothing but the low half of eip, and more turns change nothing. */
  lemma {:induction false} DecodeFrame(s: State, wide: bool, fetches: nat, more: nat)
    requires Decode(s, wide, fetches).Some? && more >= fetches
    ensures Decode(s, wide, more) == Decode(s, wide, fetches)
    ensures var d := Decode(s, wide, fetches).value;
            !IsPrefix(d.opcode) && d.after == s.(eip := d.after.eip) && d.after.eip / 0x1_0000 == s.eip / 0x1_0000
    decreases fetches
  {
    if IsPrefix(Code(s, s.eip)) {
      DecodeFrame(Advance(s), wide || Code(s, s.eip) == 0x66, fetches - 1, more - 1);
    }
  }

  // ----- One call of the monitor -----

  datatype Op = Pushf(wide: bool) | Popf(wide: bool) | Int(n: Byte) | Iret | Cli | Sti | Bad

  /** The instruction a fault is about, and the state once it is fetched. */
  function Fetched(s: State): Option<(Op, State)> {
    match Decode(s, false, 0x1_0000)
    case None => None
    case Some(Decoded(opcode, wide, after)) =>
      if opcode == 0x9c then Some((Pushf(wide), after))
      else if opcode == 0x9d then Some((Popf(wide), after))
      else if opcode == 0xcd then Some((Int(Code(after, after.eip)), Advance(after)))
      else if opcode == 0xcf then Some((Iret, after))
      else if opcode == 0xfa then Some((Cli, after))
      else if opcode == 0xfb then Some((Sti, after))
      else Some((Bad, after))
  }

  /** The state with an interrupt frame pushed. */
  function Framed(s: State): State { Push(Push(Push(s, Image(s), false), s.cs, false), s.eip, true) }

  function Interrupted(s: State, n: Byte): State {
    var s1 := Framed(s);
    s1.(cs := Get16(s1.mem, 4 * n + 2), eip := Get16(s1.mem, 4 * n))
  }

  function Left(s: State, env: Env): State {
    s.(cs := 0x08, eip := env.exitStub, eflags := 0x202, host := Host(0x10, env.kernelStack, env.exitHandler, s.esp))
  }

  function Loaded(s: State, flags: Word): State { s.(eflags := flags, vif := IfBit(flags)) }

  function Returned(s: State): State {
    var s1 := Pop(s.(eip := Popped(s, true)), true);
    var s2 := Pop(s1.(cs := Popped(s1, false)), false);
    Loaded(Pop(s2, false), Forced(Popped(s2, false)))
  }

  /** Nothing when the monitor panics. */
  function Emulate(op: Op, s: State, env: Env): Option<State> {
    match op
    case Pushf(wide) => Some(Push(s, Image(s), wide))
    case Popf(wide) => Some(Loaded(Pop(s, wide), Forced(Popped(s, wide))))
    case Int(n) => Some(if n == 3 then Left(s, env) else Interrupted(s, n))
    case Iret => Some(Returned(s))
    case Cli => Some(s.(vif := false))
    case Sti => Some(s.(vif := true))
    case Bad => None
  }

  /** Fetching changes nothing but eip. */
  lemma FetchedFrame(s: State)
    requires Fetched(s).Some?
    ensures Fetched(s).value.1 == s.(eip := Fetched(s).value.1.eip)
  {
    DecodeFrame(s, false, 0x1_0000, 0x1_0000);
  }
}
