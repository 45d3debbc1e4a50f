/** The walk over the interrupt-controller entries of the ACPI MADT (parse_madt in src/sys/apic.c, section 5.2.12
    of the ACPI specification). */
module Madt {
  import opened Memory

  /** Byte-addressed memory. */
  type ByteRam = m: seq<Byte> | |m| == 0x1_0000_0000 ghost witness seq(0x1_0000_0000, _ => 0)

  function Le32(m: seq<Byte>, a: nat): Word
    requires a + 4 <= |m|
  {
    m[a] + 0x100 * (m[a + 1] as int) + 0x1_0000 * (m[a + 2] as int) + 0x100_0000 * (m[a + 3] as int)
  }

  /** Byte k of the word is the k-th byte in memory. */
  lemma Le32Bytes(m: seq<Byte>, a: nat)
    requires a + 4 <= |m|
    ensures var w := Le32(m, a);
            w % 0x100 == m[a] && w / 0x100 % 0x100 == m[a + 1] && w / 0x1_0000 % 0x100 == m[a + 2]
            && w / 0x100_0000 == m[a + 3]
  {
    FourBytes(m[a], m[a + 1], m[a + 2], m[a + 3]);
  }

  lemma FourBytes(b0: Byte, b1: Byte, b2: Byte, b3: Byte)
    ensures var w := b0 as int + 0x100 * b1 as int + 0x1_0000 * b2 as int + 0x100_0000 * b3 as int;
            w % 0x100 == b0 && w / 0x100 % 0x100 == b1 && w / 0x1_0000 % 0x100 == b2 && w / 0x100_0000 == b3
  {
    var w2 := b2 as int + 0x100 * b3 as int;
    var w1 := b1 as int + 0x100 * w2;
    OneByte(b2, b3);
    OneByte(b1, w2);
    OneByte(b0, w1);
  }

  lemma OneByte(b: Byte, q: nat)
    ensures var w := b as int + 0x100 * q;
            w % 0x100 == b && w / 0x100 == q && w / 0x1_0000 == q / 0x100 && w / 0x100_0000 == q / 0x100 / 0x100
  {
  }

  /** The four lists of entry payloads, by address, and the local APIC's base. */
  datatype Found = Found(cpus: seq<int>, ioapics: seq<int>, isos: seq<int>, nmis: seq<int>, lapic: Word)

  // ----- The walk over any bytes -----

  /** The entries lie at `at`, `bytes` of them, with room in memory for the last payload read. */
  predicate InMemory(at: nat, bytes: nat) { at + bytes + 0x100 <= 0x1_0000_0000 }

  function Classify(m: ByteRam, found: Found, kind: Byte, payload: nat): Found
    requires payload + 6 <= |m|
  {
    match kind
    case 0 => found.(cpus := found.cpus + [payload])
    case 1 => found.(ioapics := found.ioapics + [payload])
    case 2 => found.(isos := found.isos + [payload])
    case 4 => found.(nmis := found.nmis + [payload])
    // The low half of a 64-bit address behind two reserved bytes.
    case 5 => found.(lapic := Le32(m, payload + 2))
    case _ => found
  }

  /** Whether the loop, standing at offset e, is done after at most `turns` turns. */
  predicate EndsWithin(m: ByteRam, at: nat, bytes: nat, e: nat, turns: nat)
    requires InMemory(at, bytes)
    decreases turns
  {
    e >= bytes || (turns > 0 && EndsWithin(m, at, bytes, e + m[at + e + 1], turns - 1))
  }

  /** No entry the loop comes to has length zero. */
  predicate NoEmptyEntry(m: ByteRam, at: nat, bytes: nat, e: nat)
    requires InMemory(at, bytes)
    decreases bytes - e
  {
    e >= bytes || (m[at + e + 1] > 0 && NoEmptyEntry(m, at, bytes, e + m[at + e + 1]))
  }

  lemma {:induction false} EndsInTime(m: ByteRam, at: nat, bytes: nat, e: nat)
    requires InMemory(at, bytes) && NoEmptyEntry(m, at, bytes, e)
    ensures EndsWithin(m, at, bytes, e, if e < bytes then bytes - e else 0)
    decreases bytes - e
  {
    if e < bytes {
      var e' := e + m[at + e + 1];
      EndsInTime(m, at, bytes, e');
      EndsLater(m, at, bytes, e', if e' < bytes then bytes - e' else 0, bytes - e - 1);
    }
  }

  lemma {:induction false} EndsLater(m: ByteRam, at: nat, bytes: nat, e: nat, turns: nat, more: nat)
    requires InMemory(at, bytes) && EndsWithin(m, at, bytes, e, turns) && turns <= more
    ensures EndsWithin(m, at, bytes, e, more)
    decreases turns
  {
    if e < bytes { EndsLater(m, at, bytes, e + m[at + e + 1], turns - 1, more - 1); }
  }

  lemma {:induction false} EndingMeetsNoEmpty(m: ByteRam, at: nat, bytes: nat, e: nat, turns: nat)
    requires InMemory(at, bytes) && EndsWithin(m, at, bytes, e, turns)
    ensures NoEmptyEntry(m, at, bytes, e)
    decreases turns
  {
    if e < bytes {
      if m[at + e + 1] == 0 { NeverPasses(m, at, bytes, e, turns); }
      EndingMeetsNoEmpty(m, at, bytes, e + m[at + e + 1], turns - 1);
    }
  }

  /** At an entry of length zero the loop stands still for ever. */
  lemma {:induction false} NeverPasses(m: ByteRam, at: nat, bytes: nat, e: nat, turns: nat)
    requires InMemory(at, bytes) && e < bytes && m[at + e + 1] == 0
    ensures !EndsWithin(m, at, bytes, e, turns)
    decreases turns
  {
    if turns > 0 { NeverPasses(m, at, bytes, e, turns - 1); }
  }

  /** The loop ends exactly when it meets no entry of length zero, and then within one turn a byte. */
  lemma WalkEnds(m: ByteRam, at: nat, bytes: nat, turns: nat)
    requires InMemory(at, bytes)
    ensures NoEmptyEntry(m, at, bytes, 0) && turns >= bytes ==> EndsWithin(m, at, bytes, 0, turns)
    ensures !NoEmptyEntry(m, at, bytes, 0) ==> !EndsWithin(m, at, bytes, 0, turns)
  {
    if NoEmptyEntry(m, at, bytes, 0) {
      EndsInTime(m, at, bytes, 0);
      if turns >= bytes { EndsLater(m, at, bytes, 0, bytes, turns); }
    } else if EndsWithin(m, at, bytes, 0, turns) {
      EndingMeetsNoEmpty(m, at, bytes, 0, turns);
    }
  }

  /** It does not end over zeros. */
  lemma ZeroEntryExample(m: ByteRam, at: nat, bytes: nat, turns: nat)
    requires InMemory(at, bytes) && bytes > 0 && m == seq(0x1_0000_0000, _ => 0)
    ensures !EndsWithin(m, at, bytes, 0, turns)
  {
    NeverPasses(m, at, bytes, 0, turns);
  }

  /** What the loop collects from offset e on. */
  function Walk(m: ByteRam, at: nat, bytes: nat, e: nat, found: Found): Found
    requires InMemory(at, bytes) && NoEmptyEntry(m, at, bytes, e)
    decreases bytes - e
  {
    if e >= bytes then found
    else Walk(m, at, bytes, e + m[at + e + 1], Classify(m, found, m[at + e], at + e + 2))
  }

  /** The offsets at which the loop reads a kind byte. */
  function Visited(m: ByteRam, at: nat, bytes: nat, e: nat): seq<nat>
    requires InMemory(at, bytes) && NoEmptyEntry(m, at, bytes, e)
    decreases bytes - e
  {
    if e >= bytes then [] else [e] + Visited(m, at, bytes, e + m[at + e + 1])
  }

  // ----- The encoding -----

  /** An entry as the table's author sees it: a kind and what follows the kind and length bytes. */
  datatype Entry = Entry(kind: Byte, body: seq<Byte>)

  predicate Fits(entry: Entry) { |entry.body| + 2 < 0x100 }

  predicate AllFit(entries: seq<Entry>) { forall i :: 0 <= i < |entries| ==> Fits(entries[i]) }

  function Encoded(entry: Entry): seq<Byte>
    requires Fits(entry)
  {
    [entry.kind, |entry.body| + 2] + entry.body
  }

  function Encode(entries: seq<Entry>): seq<Byte>
    requires AllFit(entries)
  {
    if entries == [] then [] else Encoded(entries[0]) + Encode(entries[1..])
  }

  /** The payload addresses of the entries of one kind, in table order. */
  function Payloads(entries: seq<Entry>, at: nat, kind: Byte): seq<int> {
    if entries == [] then []
    else (if entries[0].kind == kind then [at + 2] else []) + Payloads(entries[1..], at + 2 + |entries[0].body|, kind)
  }

  /** The address the last override names, or the one given. */
  function LastOverride(m: ByteRam, entries: seq<Entry>, at: nat, otherwise: Word): Word
    requires AllFit(entries) && InMemory(at, |Encode(entries)|)
  {
    if entries == [] then otherwise
    else LastOverride(m, entries[1..], at + 2 + |entries[0].body|, if entries[0].kind == 5 then Le32(m, at + 4)
      else otherwise)
  }

  /** Where each entry starts, the first at offset e. */
  function Starts(entries: seq<Entry>, e: nat): seq<nat> {
    if entries == [] then [] else [e] + Starts(entries[1..], e + 2 + |entries[0].body|)
  }

  /** No other list of entries has the same bytes. */
  lemma {:induction false} EncodeInjective(a: seq<Entry>, b: seq<Entry>)
    requires AllFit(a) && AllFit(b) && Encode(a) == Encode(b)
    ensures a == b
  {
    if a != [] && b != [] {
      var x, y := Encoded(a[0]), Encoded(b[0]);
      assert Encode(a)[1] == x[1] && Encode(b)[1] == y[1] && Encode(a)[0] == x[0] && Encode(b)[0] == y[0];
      assert Encode(a)[..|x|] == x && Encode(b)[..|y|] == y;
      assert x[2..] == a[0].body && y[2..] == b[0].body;
      assert Encode(a)[|x|..] == Encode(a[1..]) && Encode(b)[|y|..] == Encode(b[1..]);
      EncodeInjective(a[1..], b[1..]);
      assert a == [a[0]] + a[1..] && b == [b[0]] + b[1..];
    }
  }

  predicate Holds(m: ByteRam, at: nat, s: seq<Byte>) { at + |s| <= |m| && m[at..at + |s|] == s }

  function Appended(found: Found, m: ByteRam, entries: seq<Entry>, at: nat): Found
    requires AllFit(entries) && InMemory(at, |Encode(entries)|)
  {
    Found(found.cpus + Payloads(entries, at, 0), found.ioapics + Payloads(entries, at, 1),
          found.isos + Payloads(entries, at, 2),
          found.nmis + Payloads(entries, at, 4), LastOverride(m, entries, at, found.lapic))
  }

  lemma HeadBytes(m: ByteRam, at: nat, entries: seq<Entry>)
    requires AllFit(entries) && entries != [] && Holds(m, at, Encode(entries))
    ensures m[at] == entries[0].kind && m[at + 1] == |entries[0].body| + 2
    ensures |Encode(entries)| == |entries[0].body| + 2 + |Encode(entries[1..])|
    ensures Holds(m, at + 2, entries[0].body) && Holds(m, at + |entries[0].body| + 2, Encode(entries[1..]))
  {
    hide Holds, Encode, Encoded;
    var first, rest := entries[0], Encode(entries[1..]);
    EncodeCons(entries);
    HoldsParts(m, at, Encoded(first), rest);
    HoldsParts(m, at, [first.kind, |first.body| + 2], first.body);
    HoldsPair(m, at, first.kind, |first.body| + 2);
  }

  lemma EncodeNil()
    ensures Encode([]) == []
  {
  }

  lemma EncodeCons(entries: seq<Entry>)
    requires AllFit(entries) && entries != []
    ensures Encode(entries) == Encoded(entries[0]) + Encode(entries[1..])
    ensures Encoded(entries[0]) == [entries[0].kind, |entries[0].body| + 2] + entries[0].body
    ensures |Encoded(entries[0])| == |entries[0].body| + 2
  {
  }

  lemma HoldsPair(m: ByteRam, at: nat, x: Byte, y: Byte)
    requires Holds(m, at, [x, y])
    ensures m[at] == x && m[at + 1] == y
  {
    assert m[at..at + 2][0] == m[at] && m[at..at + 2][1] == m[at + 1];
  }

  lemma HoldsParts(m: ByteRam, at: nat, a: seq<Byte>, b: seq<Byte>)
    requires Holds(m, at, a + b)
    ensures Holds(m, at, a) && Holds(m, at + |a|, b)
  {
    var s := m[at..at + |a + b|];
    assert s[..|a|] == a && s[|a|..] == b;
    assert m[at..at + |a|] == s[..|a|] && m[at + |a|..at + |a| + |b|] == s[|a|..];
  }

  lemma AppendedStep(found: Found, m: ByteRam, entries: seq<Entry>, at: nat)
    requires AllFit(entries) && entries != [] && InMemory(at, |Encode(entries)|)
    ensures Appended(found, m, entries, at)
         == Appended(Classify(m, found, entries[0].kind, at + 2), m, entries[1..], at + 2 + |entries[0].body|)
  {
    hide Payloads, Encode;
    PayloadsStep(found.cpus, entries, at, 0);
    PayloadsStep(found.ioapics, entries, at, 1);
    PayloadsStep(found.isos, entries, at, 2);
    PayloadsStep(found.nmis, entries, at, 4);
  }

  lemma PayloadsStep(acc: seq<int>, entries: seq<Entry>, at: nat, kind: Byte)
    requires entries != []
    ensures acc + Payloads(entries, at, kind)
         == (if entries[0].kind == kind then acc + [at + 2]
           else acc) + Payloads(entries[1..], at + 2 + |entries[0].body|, kind)
  {
  }

  lemma AppendedNone(found: Found, m: ByteRam, at: nat)
    requires InMemory(at, 0)
    ensures Appended(found, m, [], at) == found && Encode([]) == []
  {
  }

  /** Over the bytes of any list of entries the loop ends and visits exactly their starts. */
  lemma {:induction false} WalkVisits(m: ByteRam, at: nat, bytes: nat, e: nat, entries: seq<Entry>)
    requires InMemory(at, bytes) && AllFit(entries) && e + |Encode(entries)| == bytes
             && Holds(m, at + e, Encode(entries))
    ensures NoEmptyEntry(m, at, bytes, e) && Visited(m, at, bytes, e) == Starts(entries, e)
    decreases |entries|
  {
    hide Encode, Holds;
    if entries == [] {
      EncodeNil();
    } else {
      HeadBytes(m, at + e, entries);
      var e' := e + |entries[0].body| + 2;
      assert e < bytes && e + m[at + e + 1] == e';
      WalkVisits(m, at, bytes, e', entries[1..]);
      assert Visited(m, at, bytes, e) == [e] + Visited(m, at, bytes, e');
    }
  }

  lemma WalkStep(m: ByteRam, at: nat, bytes: nat, e: nat, found: Found)
    requires InMemory(at, bytes) && NoEmptyEntry(m, at, bytes, e) && e < bytes
    ensures var e' := e + m[at + e + 1];
            && NoEmptyEntry(m, at, bytes, e')
            && Walk(m, at, bytes, e, found)
               == Walk(m, at, bytes, e', Classify(m, found, m[at + e], at + e + 2))
  {
    hide Classify;
  }

  /** The walk inverts the encoding: it collects every kind in order and keeps the last override. */
  lemma {:induction false} WalkInverts(m: ByteRam, at: nat, bytes: nat, e: nat, entries: seq<Entry>, found: Found)
    requires InMemory(at, bytes) && AllFit(entries) && e + |Encode(entries)| == bytes
             && Holds(m, at + e, Encode(entries))
    ensures NoEmptyEntry(m, at, bytes, e) && Walk(m, at, bytes, e, found) == Appended(found, m, entries, at + e)
    decreases |entries|
  {
    hide Appended, Classify, Encode, Holds, Visited, Starts, NoEmptyEntry;
    WalkVisits(m, at, bytes, e, entries);
    if entries == [] {
      AppendedNone(found, m, at + e);
    } else {
      hide Walk;
      HeadBytes(m, at + e, entries);
      WalkStep(m, at, bytes, e, found);
      var e', found' := e + |entries[0].body| + 2, Classify(m, found, entries[0].kind, at + e + 2);
      AppendedStep(found, m, entries, at + e);
      WalkInverts(m, at, bytes, e', entries[1..], found');
    }
  }

  /** An override long enough to hold its address gives the low four of that address's bytes. */
  lemma OverrideReads(m: ByteRam, at: nat, entries: seq<Entry>)
    requires AllFit(entries) && entries != [] && Holds(m, at, Encode(entries)) && |entries[0].body| >= 6
    requires InMemory(at, |Encode(entries)|)
    ensures var w, body := Le32(m, at + 4), entries[0].body;
            w % 0x100 == body[2] && w / 0x100 % 0x100 == body[3] && w / 0x1_0000 % 0x100 == body[4]
            && w / 0x100_0000 == body[5]
  {
    HeadBytes(m, at, entries);
    var body := entries[0].body;
    assert m[at + 2..at + 2 + |body|] == body;
    Le32Bytes(m, at + 4);
    hide Le32;
  }

  // ----- parse_madt -----

  /** The globals parse_madt fills in. */
  class Apic {
    var cpus: seq<int>
    var ioapics: seq<int>
    var isos: seq<int>
    var nmis: seq<int>
    var lapicBase: Word

    ghost function Now(): Found
      reads this
    {
      Found(cpus, ioapics, isos, nmis, lapicBase)
    }

    method Add(m: ByteRam, kind: Byte, payload: nat)
      requires payload + 6 <= |m|
      modifies this
      ensures Now() == Classify(m, old(Now()), kind, payload)
    {
      match kind {
        case 0 => cpus := cpus + [payload];
        case 1 => ioapics := ioapics + [payload];
        case 2 => isos := isos + [payload];
        case 4 => nmis := nmis + [payload];
        case 5 => lapicBase := Le32(m, payload + 2);
        case _ =>
      }
    }

    /** The table at `madt`, if one was found; its header gives the length and the default base. */
    method ParseMadt(m: ByteRam, madt: Option<Word>) returns (ok: bool)
      requires madt.Some? ==> madt.value + 44 <= |m| && Le32(m, madt.value + 4) >= 44
      requires madt.Some? ==> InMemory(madt.value + 44, Le32(m, madt.value + 4) - 44)
      requires madt.Some? ==> NoEmptyEntry(m, madt.value + 44, Le32(m, madt.value + 4) - 44, 0)
      modifies this
      ensures ok == madt.Some?
      ensures !ok ==> Now() == old(Now())
      ensures ok ==>
                var start := Found([], [], [], [], Le32(m, madt.value + 36));
                Now() == Walk(m, madt.value + 44, Le32(m, madt.value + 4) - 44, 0, start)
    {
      if madt.None? { return false; }
      var at, bytes := madt.value + 44, Le32(m, madt.value + 4) - 44;
      lapicBase := Le32(m, madt.value + 36);
      cpus, isos, ioapics, nmis := [], [], [], [];
      ghost var goal := Walk(m, at, bytes, 0, Now());
      var e := 0;
      while e < bytes
        invariant 0 <= e && NoEmptyEntry(m, at, bytes, e) && Walk(m, at, bytes, e, Now()) == goal
        decreases bytes - e
      {
        var kind := m[at + e];
        e := e + 1;
        var size := m[at + e];
        e := e + 1;
        Add(m, kind, at + e);
        e := e + (size as int - 3);
        e := e + 1;
      }
      ok := true;
    }
  }
}
