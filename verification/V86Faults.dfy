/** What each fault of a virtual-8086 guest does, told by the bytes in its memory and the bits of its flags. */
module V86Faults {
  import opened Memory
  import opened Bits
  import opened V86
  import opened V86Runs

  // ----- Bytes and bits -----

  /** The linear address of an offset in a segment. */
  function Address(seg: Word, off: int): nat { 16 * (seg % 0x1_0000) + off % 0x1_0000 }

  lemma LinearIs(seg: Word, off: int)
    ensures Linear(seg, off) == Address(seg, off) < 0x10_fff0
  {
  }

  /** Accesses are little-endian. */
  lemma GetBytes(m: GuestMem, a: nat)
    requires a + 4 <= |m|
    ensures Get16(m, a) == m[a] as int + 0x100 * m[a + 1] as int == Get(m, a, false)
    ensures Get(m, a, true) ==
              m[a] as int + 0x100 * m[a + 1] as int + 0x1_0000 * m[a + 2] as int + 0x100_0000 * m[a + 3] as int
  {
  }

  /** The two and the four bytes at an offset of a segment, the low byte first. */
  function HalfAt(m: GuestMem, seg: Word, off: int): Half {
    var a := Address(seg, off);
    m[a] as int + 0x100 * m[a + 1] as int
  }

  function WordAt(m: GuestMem, seg: Word, off: int): Word {
    var a := Address(seg, off);
    m[a] as int + 0x100 * m[a + 1] as int + 0x1_0000 * m[a + 2] as int + 0x100_0000 * m[a + 3] as int
  }

  lemma ReadsAt(m: GuestMem, seg: Word, off: int)
    ensures Get(m, Linear(seg, off), false) == HalfAt(m, seg, off)
    ensures Get(m, Linear(seg, off), true) == WordAt(m, seg, off)
  {
    LinearIs(seg, off);
    GetBytes(m, Address(seg, off));
  }

  lemma PutBytes(m: GuestMem, a: nat, wide: bool, v: Word)
    requires a + 4 <= |m|
    ensures var m' := Put(m, a, wide, v);
            && m'[a] == v % 0x100 && m'[a + 1] == v / 0x100 % 0x100
            && (wide ==> m'[a + 2] == v / 0x1_0000 % 0x100 && m'[a + 3] == v / 0x100_0000)
            && forall x :: 0 <= x < |m| && !(a <= x < a + if wide then 4 else 2) ==> m'[x] == m[x]
  {
    LowBytes(v);
  }

  lemma LowBytes(v: Word)
    ensures v % 0x1_0000 % 0x100 == v % 0x100 && v % 0x1_0000 / 0x100 == v / 0x100 % 0x100
    ensures v / 0x1_0000 / 0x100 == v / 0x100_0000
  {
  }

  lemma Powers()
    ensures Pow2(1) == 2 && Pow2(9) == 0x200 && Pow2(17) == 0x2_0000
  {
    assert Pow2(4) == 16 && Pow2(8) == 0x100;
    assert Pow2(12) == 0x1000;
    assert Pow2(16) == 0x1_0000;
  }

  /** eflags | 0x20002: bits 1 and 17 are set and the others are kept. */
  lemma ForcedExactly(w: Word, k: nat)
    ensures Bit(Forced(w), k) <==> Bit(w, k) || k == 1 || k == 17
  {
    Powers();
    SetExactly(w, 1, k);
    SetExactly(w, 1, 17);
    SetExactly(if w / 2 % 2 == 1 then w else w + 2, 17, k);
  }

  /** Setting bit j. */
  lemma SetExactly(w: nat, j: nat, k: nat)
    ensures var v := if w / Pow2(j) % 2 == 1 then w else w + Pow2(j); Bit(v, k) <==> Bit(w, k) || k == j
  {
    if w / Pow2(j) % 2 == 1 { BitIs(w, j); } else { AddBit(w, j, k); }
  }

  /** Bit 9 is the interrupt flag and the others are kept. */
  lemma WithIfExactly(w: Word, on: bool, k: nat)
    ensures Bit(WithIf(w, on), k) <==> if k == 9 then on else Bit(w, k)
    ensures IfBit(w) <==> Bit(w, 9)
  {
    Powers();
    BitIs(w, 9);
    if IfBit(w) && !on {
      FlipsNine(w, -1);
      AddBit(w - 0x200, 9, k);
    } else if !IfBit(w) && on {
      AddBit(w, 9, k);
    }
  }

  /** The flags word a guest sees: its own bits, bits 1 and 17 set, and the virtual interrupt flag in bit 9. */
  lemma ImageBits(s: State, k: nat)
    ensures Bit(Image(s), k) <==> if k == 9 then s.vif else Bit(s.eflags, k) || k == 1 || k == 17
  {
    ForcedExactly(s.eflags, k);
    WithIfExactly(Forced(s.eflags), s.vif, k);
  }

  // ----- The instruction -----

  /** The byte j places past the instruction pointer, round the segment. */
  function CodeByte(s: State, j: int): Byte { s.mem[Address(s.cs, s.eip + j)] }

  /** The instruction pointer n bytes on: its low half moves round, its high half stays. */
  function Moved(eip: Word, n: nat): Word { eip / 0x1_0000 * 0x1_0000 + (eip % 0x1_0000 + n) % 0x1_0000 }

  lemma MovedOnce(s: State, j: nat)
    ensures Advance(s).eip == Moved(s.eip, 1) && Moved(Advance(s).eip, j) == Moved(s.eip, j + 1)
    ensures CodeByte(Advance(s), j) == CodeByte(s, j + 1)
  {
    hide Advance, Moved, Address;
    FetchOnce(s);
    RoundOnce(s.eip, j);
    SameAddress(s.cs, Moved(s.eip, 1) + j, s.eip + (j + 1));
  }

  lemma SameAddress(seg: Word, x: int, y: int)
    requires x % 0x1_0000 == y % 0x1_0000
    ensures Address(seg, x) == Address(seg, y)
  {
  }

  lemma RoundOnce(eip: Word, j: nat)
    ensures (Moved(eip, 1) + j) % 0x1_0000 == (eip + (j + 1)) % 0x1_0000
    ensures Moved(Moved(eip, 1), j) == Moved(eip, j + 1)
  {
    var high, low := eip / 0x1_0000, (eip % 0x1_0000 + 1) % 0x1_0000;
    assert Moved(eip, 1) == high * 0x1_0000 + low && 0 <= low < 0x1_0000;
    assert Moved(eip, 1) / 0x1_0000 == high && Moved(eip, 1) % 0x1_0000 == low;
  }

  /** The first byte that is no prefix is the opcode, the operand is wide if 0x66 came before it, and nothing but the
      instruction pointer has moved. */
  lemma {:induction false} DecodeReads(s: State, wide: bool, fetches: nat) returns (k: nat)
    requires Decode(s, wide, fetches).Some?
    ensures var d := Decode(s, wide, fetches).value;
            && d.opcode == CodeByte(s, k) && d.opcode != 0x66 && d.opcode != 0x67
            && d.after == s.(eip := Moved(s.eip, k + 1))
            && (d.wide <==> wide || exists j :: 0 <= j < k && CodeByte(s, j) == 0x66)
    ensures forall j :: 0 <= j < k ==> CodeByte(s, j) == 0x66 || CodeByte(s, j) == 0x67
    decreases fetches
  {
    FetchOnce(s);
    var b, s1 := Code(s, s.eip), Advance(s);
    hide CodeByte, Moved, Advance, Code;
    if !IsPrefix(b) {
      k := 0;
    } else {
      var k1 := DecodeReads(s1, wide || b == 0x66, fetches - 1);
      k := k1 + 1;
      forall j: nat ensures CodeByte(s1, j) == CodeByte(s, j + 1) { MovedOnce(s, j); }
      MovedOnce(s, k);
      forall j | 0 <= j < k ensures CodeByte(s, j) == 0x66 || CodeByte(s, j) == 0x67 {
        if j > 0 { assert CodeByte(s1, j - 1) == CodeByte(s, j); }
      }
      WideOnward(s, s1, k1);
    }
  }

  lemma FetchOnce(s: State)
    ensures Code(s, s.eip) == CodeByte(s, 0) && Advance(s) == s.(eip := Moved(s.eip, 1))
  {
    LinearIs(s.cs, s.eip);
  }

  lemma WideOnward(s: State, s1: State, k: nat)
    requires forall j: nat :: CodeByte(s1, j) == CodeByte(s, j + 1)
    ensures (exists j :: 0 <= j < k + 1 && CodeByte(s, j) == 0x66) <==>
              CodeByte(s, 0) == 0x66 || exists j :: 0 <= j < k && CodeByte(s1, j) == 0x66
  {
    hide CodeByte;
    if j :| 0 <= j < k + 1 && CodeByte(s, j) == 0x66 {
      if j > 0 { assert CodeByte(s1, j - 1) == 0x66; }
    }
    if j :| 0 <= j < k && CodeByte(s1, j) == 0x66 { assert CodeByte(s, j + 1) == 0x66; }
  }

  lemma OnlyEip(s: State, d: Decoded)
    requires Decode(s, false, 0x1_0000) == Some(d)
    ensures d.after == s.(eip := d.after.eip)
  {
    hide Decode;
    DecodeFrame(s, false, 0x1_0000, 0x1_0000);
  }

  /** One fault: nothing if the monitor panics. */
  function Faulted(s: State, env: Env): Option<State> {
    match Fetched(s)
    case None => None
    case Some((op, after)) => Emulate(op, after, env)
  }

  // ----- What each opcode does -----

  /** CLI and STI set the virtual interrupt flag; an opcode outside the table panics. */
  lemma FlagFault(s: State, env: Env, d: Decoded)
    requires Decode(s, false, 0x1_0000) == Some(d)
    ensures d.opcode == 0xfa ==> Faulted(s, env) == Some(d.after.(vif := false))
    ensures d.opcode == 0xfb ==> Faulted(s, env) == Some(d.after.(vif := true))
    ensures d.opcode !in {0x9c, 0x9d, 0xcd, 0xcf, 0xfa, 0xfb} <==> Faulted(s, env) == None
  {
    hide Decode;
  }

  /** PUSHF stores the flags word below the stack pointer, two bytes or four. */
  lemma PushfFault(s: State, env: Env, d: Decoded)
    requires Decode(s, false, 0x1_0000) == Some(d) && d.opcode == 0x9c
    ensures var n := if d.wide then 4 else 2;
            var sp := (s.esp % 0x1_0000 - n) % 0x1_0000;
            var a, w := Address(s.ss, sp), Image(s);
            && Faulted(s, env).Some?
            && var r := Faulted(s, env).value;
               && r == d.after.(esp := sp, mem := r.mem)
               && r.mem[a] == w % 0x100 && r.mem[a + 1] == w / 0x100 % 0x100
               && (d.wide ==> r.mem[a + 2] == w / 0x1_0000 % 0x100 && r.mem[a + 3] == w / 0x100_0000)
               && forall x :: 0 <= x < |s.mem| && !(a <= x < a + n) ==> r.mem[x] == s.mem[x]
  {
    hide Decode, Put, Image;
    OnlyEip(s, d);
    var n := if d.wide then 4 else 2;
    var sp := (s.esp % 0x1_0000 - n) % 0x1_0000;
    LinearIs(s.ss, sp);
    SameImage(s, d.after);
    PutBytes(s.mem, Address(s.ss, sp), d.wide, Image(s));
  }

  lemma SameImage(s: State, s': State)
    requires s' == s.(eip := s'.eip)
    ensures Image(s') == Image(s)
  {
  }

  /** POPF loads the flags it pops and takes the virtual interrupt flag from their bit 9. */
  lemma PopfFault(s: State, env: Env, d: Decoded)
    requires Decode(s, false, 0x1_0000) == Some(d) && d.opcode == 0x9d
    ensures var flags := if d.wide then WordAt(s.mem, s.ss, s.esp) else HalfAt(s.mem, s.ss, s.esp);
            var n := if d.wide then 4 else 2;
            Faulted(s, env) == Some(d.after.(esp := (s.esp % 0x1_0000 + n) % 0x1_0000, eflags := Forced(flags),
                                             vif := Bit(flags, 9)))
  {
    hide Decode, Get, HalfAt, WordAt, Linear, Forced, IfBit, Bit;
    OnlyEip(s, d);
    ReadsAt(s.mem, s.ss, s.esp);
    FlagOf(if d.wide then WordAt(s.mem, s.ss, s.esp) else HalfAt(s.mem, s.ss, s.esp));
  }

  lemma FlagOf(w: Word)
    ensures IfBit(Forced(w)) <==> Bit(w, 9)
  {
    hide Bit, Forced, IfBit;
    ForcedExactly(w, 9);
    WithIfExactly(Forced(w), true, 9);
  }

  /** IRET reloads eip, cs and flags from eight bytes of the stack, in that order from the stack pointer up, and the
      virtual interrupt flag from the flags' bit 9. */
  lemma IretFault(s: State, env: Env, d: Decoded)
    requires Decode(s, false, 0x1_0000) == Some(d) && d.opcode == 0xcf
    ensures var sp := s.esp % 0x1_0000;
            var flags := HalfAt(s.mem, s.ss, sp + 6);
            Faulted(s, env) == Some(d.after.(eip := WordAt(s.mem, s.ss, sp), cs := HalfAt(s.mem, s.ss, sp + 4),
                                             eflags := Forced(flags), vif := Bit(flags, 9),
                                             esp := (sp + 8) % 0x1_0000))
  {
    hide Decode, Returned, Get, HalfAt, WordAt, Linear, Forced, IfBit, Bit;
    OnlyEip(s, d);
    assert Faulted(s, env) == Some(Returned(d.after));
    hide Faulted;
    var sp := s.esp % 0x1_0000;
    ReturnedReads(d.after);
    ReadsAt(s.mem, s.ss, sp);
    ReadsAt(s.mem, s.ss, sp + 4);
    ReadsAt(s.mem, s.ss, sp + 6);
    FlagOf(HalfAt(s.mem, s.ss, sp + 6));
  }

  /** Three pops, from the stack pointer up. */
  lemma ReturnedReads(s: State)
    ensures var sp := s.esp % 0x1_0000;
            var flags := Forced(Get(s.mem, Linear(s.ss, sp + 6), false));
            Returned(s) == s.(eip := Get(s.mem, Linear(s.ss, sp), true), cs := Get(s.mem, Linear(s.ss, sp + 4), false),
                              eflags := flags, vif := IfBit(flags), esp := (sp + 8) % 0x1_0000)
  {
    var sp := s.esp % 0x1_0000;
    SpSteps(sp);
    SameOffset(s.ss, s.esp);
    SameOffset(s.ss, sp + 4);
    SameOffset(s.ss, sp + 6);
    hide Get, Linear, Address, Forced, IfBit;
  }

  lemma SpSteps(sp: Half)
    ensures (sp + 4) % 0x1_0000 % 0x1_0000 == (sp + 4) % 0x1_0000
    ensures ((sp + 4) % 0x1_0000 + 2) % 0x1_0000 == (sp + 6) % 0x1_0000
    ensures ((sp + 6) % 0x1_0000 + 2) % 0x1_0000 == (sp + 8) % 0x1_0000
  {
  }

  lemma SameOffset(seg: Word, off: int)
    ensures Linear(seg, off % 0x1_0000) == Linear(seg, off) && Address(seg, off % 0x1_0000) == Address(seg, off)
  {
  }

  /** INT 3 leaves virtual-8086 mode: kernel segments, the exit stub, and the guest's stack pointer for its handler. */
  lemma ExitFault(s: State, env: Env, d: Decoded)
    requires Decode(s, false, 0x1_0000) == Some(d) && d.opcode == 0xcd
    requires CodeByte(d.after, 0) == 3
    ensures Faulted(s, env) == Some(s.(cs := 0x08, eip := env.exitStub, eflags := 0x202,
                                       host := Host(0x10, env.kernelStack, env.exitHandler, s.esp)))
  {
    hide Decode;
    OnlyEip(s, d);
    LinearIs(s.cs, d.after.eip);
  }

  /** The bytes of a store of n bytes at a and those at b do not meet. */
  predicate Clear(a: nat, n: nat, b: nat, m: nat) { a + n <= b || b + m <= a }

  /** The vector n of a guest's memory: the handler's offset, and its segment behind it. */
  predicate Vector(m: GuestMem, n: Byte, cs: Word, eip: Word) {
    && eip == m[4 * n] as int + 0x100 * m[4 * n + 1] as int
    && cs == m[4 * n + 2] as int + 0x100 * m[4 * n + 3] as int
  }

  /** An interrupt frame pushed at sp misses n bytes at x. */
  predicate FrameMisses(ss: Word, sp: Half, x: nat, n: nat) {
    && Clear(Address(ss, sp - 2), 2, x, n) && Clear(Address(ss, sp - 4), 2, x, n)
    && Clear(Address(ss, sp - 8), 4, x, n)
  }

  /** Any other INT n goes where the vector at 4 n says, offset first and segment second, after pushing flags, cs
      and the address of the next instruction.  The vector is read after the pushes; if they miss it, it is the one
      the guest had there. */
  lemma IntFault(s: State, env: Env, d: Decoded, n: Byte) returns (r: State)
    requires Decode(s, false, 0x1_0000) == Some(d) && d.opcode == 0xcd
    requires n == CodeByte(d.after, 0) && n != 3
    ensures Faulted(s, env) == Some(r) && Enters(s, n, r)
    ensures FrameMisses(s.ss, s.esp % 0x1_0000, 4 * n, 4) ==> Vector(s.mem, n, r.cs, r.eip)
  {
    hide Decode, Interrupted;
    OnlyEip(s, d);
    LinearIs(s.cs, d.after.eip);
    var s1 := Advance(d.after);
    r := Interrupted(s1, n);
    assert Faulted(s, env) == Some(r);
    hide Faulted;
    assert s1 == s.(eip := s1.eip);
    hide Advance, Address;
    InterruptGoes(s1, n);
    hide FrameMisses, Vector;
    FrameLeaves(s, n, r);
  }

  /** The guest is at the handler and its frame is all that memory has gained. */
  predicate Enters(s: State, n: Byte, r: State) {
    && r == s.(mem := r.mem, eip := r.eip, cs := r.cs, esp := (s.esp % 0x1_0000 - 8) % 0x1_0000)
    && Vector(r.mem, n, r.cs, r.eip)
    && forall x :: 0 <= x < |s.mem| && FrameMisses(s.ss, s.esp % 0x1_0000, x, 1) ==> r.mem[x] == s.mem[x]
  }

  lemma InterruptGoes(s: State, n: Byte)
    ensures Enters(s, n, Interrupted(s, n))
  {
    hide Framed, FrameMisses;
    FramedBytes(s);
    var m := Framed(s).mem;
    GetBytes(m, 4 * n);
    GetBytes(m, 4 * n + 2);
    hide Get16, Get;
  }

  /** If the frame misses the vector, memory holds the same vector after it. */
  lemma FrameLeaves(s: State, n: Byte, r: State)
    requires Enters(s, n, r)
    ensures FrameMisses(s.ss, s.esp % 0x1_0000, 4 * n, 4) ==> Vector(s.mem, n, r.cs, r.eip)
  {
    var sp := s.esp % 0x1_0000;
    if FrameMisses(s.ss, sp, 4 * n, 4) {
      Within(s.ss, sp, 4 * n, 0);
      Within(s.ss, sp, 4 * n, 1);
      Within(s.ss, sp, 4 * n, 2);
      Within(s.ss, sp, 4 * n, 3);
      hide FrameMisses;
    }
  }

  lemma Within(ss: Word, sp: Half, x: nat, i: nat)
    requires FrameMisses(ss, sp, x, 4) && i < 4
    ensures FrameMisses(ss, sp, x + i, 1)
  {
    hide Address;
  }

  /** The three stores of an interrupt frame. */
  lemma FramedBytes(s: State)
    ensures var sp := s.esp % 0x1_0000;
            var r := Framed(s);
            && r == s.(mem := r.mem, esp := (sp - 8) % 0x1_0000)
            && forall x :: 0 <= x < |s.mem| && FrameMisses(s.ss, sp, x, 1) ==> r.mem[x] == s.mem[x]
  {
    hide Image, Push, Address;
    var sp := s.esp % 0x1_0000;
    var s1 := Push(s, Image(s), false);
    var s2 := Push(s1, s.cs, false);
    SpDown(sp);
    Pushes(s, Image(s), false);
    Pushes(s1, s.cs, false);
    Pushes(s2, s.eip, true);
    SameOffset(s.ss, sp - 2);
    SameOffset(s.ss, sp - 4);
    SameOffset(s.ss, sp - 8);
  }

  lemma Pushes(s: State, v: Word, wide: bool)
    ensures var n := if wide then 4 else 2;
            var sp := (s.esp % 0x1_0000 - n) % 0x1_0000;
            var r := Push(s, v, wide);
            && r == s.(mem := r.mem, esp := sp)
            && forall x :: 0 <= x < |s.mem| && Clear(Address(s.ss, sp), n, x, 1) ==> r.mem[x] == s.mem[x]
  {
    hide Put;
    var sp := (s.esp % 0x1_0000 - if wide then 4 else 2) % 0x1_0000;
    LinearIs(s.ss, sp);
    PutBytes(s.mem, Address(s.ss, sp), wide, v);
    hide Linear, Address;
  }

  lemma SpDown(sp: Half)
    ensures ((sp - 2) % 0x1_0000 % 0x1_0000 - 2) % 0x1_0000 == (sp - 4) % 0x1_0000
    ensures ((sp - 4) % 0x1_0000 % 0x1_0000 - 4) % 0x1_0000 == (sp - 8) % 0x1_0000
  {
  }
}
