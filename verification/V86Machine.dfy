/** v86_monitor as it works in place on the fault's registers, the thread's interrupt flag and guest memory. */
module V86Machine {
  import opened Memory
  import opened V86

  class Monitor {
    const mem: array<Byte>
    const env: Env
    var eip: Word
    var cs: Word
    var ss: Word
    var esp: Word
    var eflags: Word
    var vif: bool
    var host: Host

    ghost predicate Valid()
      reads this
    {
      mem.Length == 0x11_0000
    }

    ghost function Now(): State
      requires Valid()
      reads this, mem
    {
      State(mem[..], eip, cs, ss, esp, eflags, vif, host)
    }

    constructor (mem: array<Byte>, env: Env, eip: Word, cs: Word, ss: Word, esp: Word, eflags: Word, vif: bool,
                 host: Host)
      requires mem.Length == 0x11_0000
      ensures Valid() && this.mem == mem && this.env == env
      ensures Now() == State(mem[..], eip, cs, ss, esp, eflags, vif, host)
    {
      this.mem, this.env := mem, env;
      this.eip, this.cs, this.ss, this.esp := eip, cs, ss, esp;
      this.eflags, this.vif, this.host := eflags, vif, host;
    }

    method Store16(a: nat, v: Half)
      requires Valid() && a + 2 <= mem.Length
      modifies mem
      ensures Now() == old(Now()).(mem := Put16(old(mem[..]), a, v))
    {
      mem[a] := v % 0x100;
      mem[a + 1] := v / 0x100;
    }

    method Store(a: nat, wide: bool, v: Word)
      requires Valid() && a + 4 <= mem.Length
      modifies mem
      ensures Now() == old(Now()).(mem := Put(old(mem[..]), a, wide, v))
    {
      Store16(a, v % 0x1_0000);
      if wide { Store16(a + 2, v / 0x1_0000); }
    }

    method Load16(a: nat) returns (v: Half)
      requires Valid() && a + 2 <= mem.Length
      ensures v == Get16(mem[..], a)
    {
      v := mem[a] + 0x100 * (mem[a + 1] as int);
    }

    method Load(a: nat, wide: bool) returns (v: Word)
      requires Valid() && a + 4 <= mem.Length
      ensures v == Get(mem[..], a, wide)
    {
      v := Load16(a);
      if wide {
        var high := Load16(a + 2);
        v := v + 0x1_0000 * (high as int);
      }
    }

    method PushValue(v: Word, wide: bool)
      requires Valid()
      modifies this`esp, mem
      ensures Now() == Push(old(Now()), v, wide)
    {
      var stack: Half := esp % 0x1_0000;
      if wide { stack := (stack - 4) % 0x1_0000; } else { stack := (stack - 2) % 0x1_0000; }
      Store(Linear(ss, stack), wide, v);
      esp := stack;
    }

    method PopValue(wide: bool) returns (v: Word)
      requires Valid()
      modifies this`esp
      ensures v == Popped(old(Now()), wide) && Now() == Pop(old(Now()), wide)
    {
      var stack: Half := esp % 0x1_0000;
      v := Load(Linear(ss, stack), wide);
      if wide { stack := (stack + 4) % 0x1_0000; } else { stack := (stack + 2) % 0x1_0000; }
      esp := stack;
    }

    method GetIpByte() returns (b: Byte)
      requires Valid()
      modifies this`eip
      ensures b == Code(old(Now()), old(eip)) && Now() == Advance(old(Now()))
    {
      b := mem[Linear(cs, eip)];
      eip := eip / 0x1_0000 * 0x1_0000 + (eip % 0x1_0000 + 1) % 0x1_0000;
    }

    method FlagsImage() returns (flags: Word)
      requires Valid()
      ensures flags == Image(Now())
    {
      flags := WithIf(Forced(eflags), vif);
    }

    /** INT n other than 3. */
    method EnterHandler(n: Byte)
      requires Valid()
      modifies this, mem
      ensures Now() == Interrupted(old(Now()), n)
    {
      var flags := FlagsImage();
      PushValue(flags, false);
      PushValue(cs, false);
      PushValue(eip, true);
      var seg := Load16(4 * n + 2);
      var off := Load16(4 * n);
      cs, eip := seg, off;
    }

    method LeaveHandler()
      requires Valid()
      modifies this
      ensures Now() == Returned(old(Now()))
    {
      ghost var s := Now();
      var ip := PopValue(true);
      eip := ip;
      ghost var s1 := Now();
      assert s1 == Pop(s.(eip := Popped(s, true)), true);
      var seg := PopValue(false);
      cs := seg;
      ghost var s2 := Now();
      assert s2 == Pop(s1.(cs := Popped(s1, false)), false);
      var flags := PopValue(false);
      assert Now() == Pop(s2, false) && flags == Popped(s2, false);
      eflags := Forced(flags);
      vif := IfBit(eflags);
    }

    /** The switch on an opcode that is not a prefix; false is the panic. */
    method Dispatch(op: Op) returns (handled: bool)
      requires Valid()
      modifies this, mem
      ensures handled == Emulate(op, old(Now()), env).Some?
      ensures Now() == if handled then Emulate(op, old(Now()), env).value else old(Now())
    {
      handled := true;
      match op {
        case Pushf(wide) =>
          var flags := FlagsImage();
          PushValue(flags, wide);
        case Popf(wide) =>
          var flags := PopValue(wide);
          eflags := Forced(flags);
          vif := IfBit(eflags);
        case Int(n) =>
          if n == 3 {
            cs, eip, eflags := 0x08, env.exitStub, 0x202;
            host := Host(0x10, env.kernelStack, env.exitHandler, esp);
          } else {
            EnterHandler(n);
          }
        case Iret => LeaveHandler();
        case Cli => vif := false;
        case Sti => vif := true;
        case Bad => handled := false;
      }
    }

    /** One fault.  It needs an opcode somewhere in the code segment, without which the loop never ends. */
    method Handle() returns (handled: bool)
      requires Valid() && HasOpcode(Now())
      modifies this, mem
      ensures Fetched(old(Now())).Some?
      ensures var f := Fetched(old(Now())).value; var r := Emulate(f.0, f.1, env);
              handled == r.Some? && Now() == if handled then r.value else f.1
    {
      ghost var start := Now();
      PrefixLoopEnds(start, false, 0x1_0000);
      var wide, op := false, Bad;
      ghost var left: nat := 0x1_0000;
      while true
        invariant Valid() && mem[..] == start.mem
        invariant Decode(Now(), wide, left) == Decode(start, false, 0x1_0000)
        decreases left
      {
        var opcode := GetIpByte();
        if opcode == 0x66 {
          wide := true;
        } else if opcode != 0x67 {
          assert Decode(start, false, 0x1_0000) == Some(Decoded(opcode, wide, Now()));
          match opcode {
            case 0x9c => op := Pushf(wide);
            case 0x9d => op := Popf(wide);
            case 0xcd =>
              var n := GetIpByte();
              op := Int(n);
            case 0xcf => op := Iret;
            case 0xfa => op := Cli;
            case 0xfb => op := Sti;
            case _ => op := Bad;
          }
          assert Fetched(start) == Some((op, Now()));
          break;
        }
        left := left - 1;
      }
      handled := Dispatch(op);
    }
  }
}
