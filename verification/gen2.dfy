/** The Gen2 value types of the Java API: the Gen2 tag record with its
    protocol-control (PC) bytes and EPC length check, the search-target code
    table, the backscatter link frequency codec, and the Gen2 part of a tag
    read. Java `null` is `None`; a thrown `IllegalArgumentException` is a
    `Failure`. */
module Gen2 {
  import opened Wrappers
  import opened MachineInts
  import TagDataHeader

  /* ---------------------------------------------------------------------- */
  /* Gen2.TagData                                                           */
  /* ---------------------------------------------------------------------- */

  /** A Gen2 tag: the EPC and CRC bytes kept by the base class, and the PC
      bytes this class adds. Java arrays are immutable sequences here, so a
      tag value can never observe a later write to a caller's array. */
  datatype TagData = TagData(epc: seq<int8>, crc: Option<seq<int8>>, pc: seq<int8>)

  /** The PC the constructors compute when none is given:
      `pc[0] = (byte)(epc.length << 3)` and `pc[1] = 0`, with the shift done
      on a Java `int` and the result narrowed to a signed byte. */
  function DefaultPc(epcLength: nat): seq<int8>
  {
    [ToInt8(ShiftLeft32(ToInt32(epcLength), 3)), 0]
  }

  /** The default PC as unsigned byte values: two bytes, the first one eight
      times the EPC byte count modulo 256, the second one zero. */
  predicate HasDefaultPc(t: TagData)
  {
    && |t.pc| == 2
    && Unsigned8(t.pc[0]) == (8 * |t.epc|) % TWO_8
    && t.pc[1] == 0
  }

  /** The shift-and-narrow formula keeps exactly the low eight bits of
      eight times the length, whatever the length. */
  lemma DefaultPcTruncates(n: nat)
    ensures |DefaultPc(n)| == 2
    ensures Unsigned8(DefaultPc(n)[0]) == (8 * n) % TWO_8
    ensures DefaultPc(n)[1] == 0
  {
    var x := ToInt32(n);
    var y := ShiftLeft32(x, 3);
    ShiftedLow8(x, n);
    assert y % TWO_8 == (8 * n) % TWO_8;
    UnsignedOfNarrowed(y);
  }

  /** Shifting an int congruent to `n` left by three leaves the low eight
      bits of `8 * n`. */
  lemma ShiftedLow8(x: int32, n: int)
    requires (x - n) % TWO_32 == 0
    ensures ShiftLeft32(x, 3) % TWO_8 == (8 * n) % TWO_8
  {
    assert Pow2(3) == 8 by {
      assert Pow2(1) == 2;
      assert Pow2(2) == 4;
    }
    var y := ToInt32(x * 8);
    assert ShiftLeft32(x, 3) == y;
    SameLow8(y, 8 * x);
    ScaleCongruence(x, n);
    SameLow8(8 * x, 8 * n);
  }

  /** Congruence modulo 2^32 survives multiplication by eight. */
  lemma ScaleCongruence(x: int, n: int)
    requires (x - n) % TWO_32 == 0
    ensures (8 * x - 8 * n) % TWO_32 == 0
  {
    var k := (x - n) / TWO_32;
    assert x - n == TWO_32 * k;
    assert 8 * x - 8 * n == TWO_32 * (8 * k);
  }

  /** Numbers that agree modulo 2^32 agree in their low eight bits. */
  lemma SameLow8(a: int, b: int)
    requires (a - b) % TWO_32 == 0
    ensures a % TWO_8 == b % TWO_8
  {
    var k := (a - b) / TWO_32;
    assert a == b + TWO_8 * (0x100_0000 * k);
    ModAddMultiple(b, 0x100_0000 * k);
  }

  lemma ModAddMultiple(b: int, m: int)
    ensures (b + TWO_8 * m) % TWO_8 == b % TWO_8
  {
  }

  /** Reading a narrowed byte unsigned gives the low eight bits. */
  lemma UnsignedOfNarrowed(y: int)
    ensures Unsigned8(ToInt8(y)) == y % TWO_8
  {
  }

  /** The five high bits of the default PC's first byte hold the EPC byte
      count modulo 32: lengths of 32 bytes or more wrap around. */
  lemma DefaultPcLengthField(n: nat)
    ensures Unsigned8(DefaultPc(n)[0]) / 8 == n % 32
    ensures Unsigned8(DefaultPc(n)[0]) % 8 == 0
  {
    DefaultPcTruncates(n);
    LowByteOfEightTimes(n);
  }

  /** The low byte of `8 * n` is eight times `n` modulo 32. */
  lemma LowByteOfEightTimes(n: nat)
    ensures (8 * n) % TWO_8 == 8 * (n % 32)
  {
    var q := n / 32;
    assert n == 32 * q + n % 32;
    assert 8 * n == TWO_8 * q + 8 * (n % 32);
    ModAddMultiple(8 * (n % 32), q);
  }

  /** `TagData(byte[] bEPC)`: default PC, no CRC. */
  function FromEpcBytes(bEpc: seq<int8>): (t: TagData)
    ensures t.epc == bEpc && t.crc == None
    ensures HasDefaultPc(t)
  {
    DefaultPcTruncates(|bEpc|);
    TagData(bEpc, None, DefaultPc(|bEpc|))
  }

  /** `TagData(String sEPC)`: the base class turns the string into EPC bytes
      (`parse`, code not part of this model); the PC is the default one. */
  function FromEpcString(sEpc: string, parse: string -> seq<int8>): (t: TagData)
    ensures t.epc == parse(sEpc) && t.crc == None
    ensures HasDefaultPc(t)
  {
    DefaultPcTruncates(|parse(sEpc)|);
    TagData(parse(sEpc), None, DefaultPc(|parse(sEpc)|))
  }

  /** `TagData(String sEPC, String sCrc)`: as above, with a CRC parsed by the
      base class; the PC is still the default one. */
  function FromEpcAndCrcStrings(sEpc: string, sCrc: string, parse: string -> seq<int8>): (t: TagData)
    ensures t.epc == parse(sEpc) && t.crc == Some(parse(sCrc))
    ensures HasDefaultPc(t)
  {
    DefaultPcTruncates(|parse(sEpc)|);
    TagData(parse(sEpc), Some(parse(sCrc)), DefaultPc(|parse(sEpc)|))
  }

  /** `TagData(byte[] bEPC, byte[] newPC)`: the PC is the given one. */
  function FromEpcAndPc(bEpc: seq<int8>, newPc: seq<int8>): TagData
  {
    TagData(bEpc, None, newPc)
  }

  /** `TagData(byte[] bEPC, byte[] crc, byte[] newPC)`. */
  function FromEpcCrcAndPc(bEpc: seq<int8>, crc: seq<int8>, newPc: seq<int8>): TagData
  {
    TagData(bEpc, Some(crc), newPc)
  }

  /** `newPC.clone()` in the explicit-PC constructors: the tag keeps the
      current contents of the caller's array as a value of its own. */
  method ClonePc(newPc: array<int8>) returns (pc: seq<int8>)
    ensures pc == newPc[..]
  {
    pc := [];
    var i := 0;
    while i < newPc.Length
      invariant 0 <= i <= newPc.Length
      invariant pc == newPc[..i]
    {
      pc := pc + [newPc[i]];
      i := i + 1;
    }
  }

  /** `TagData(byte[] bEPC, byte[] newPC)`: the tag's PC is a clone of the
      caller's array. */
  method NewWithPc(bEpc: seq<int8>, newPc: array<int8>) returns (t: TagData)
    ensures t.epc == bEpc && t.crc == None
    ensures t.pc == newPc[..]
  {
    var pc := ClonePc(newPc);
    t := FromEpcAndPc(bEpc, pc);
  }

  /** `TagData(byte[] bEPC, byte[] crc, byte[] newPC)`: as above, with the
      CRC kept as given. */
  method NewWithCrcAndPc(bEpc: seq<int8>, crc: seq<int8>, newPc: array<int8>) returns (t: TagData)
    ensures t.epc == bEpc && t.crc == Some(crc)
    ensures t.pc == newPc[..]
  {
    var pc := ClonePc(newPc);
    t := FromEpcCrcAndPc(bEpc, crc, pc);
  }

  /** Because the PC is cloned, writing to the caller's array after the
      constructor returns does not change the tag's PC. */
  method WriteAfterConstruction(bEpc: seq<int8>, newPc: array<int8>, i: nat, v: int8)
    returns (t: TagData)
    requires i < newPc.Length
    modifies newPc
    ensures newPc[i] == v
    ensures t.pc == old(newPc[..])
  {
    t := NewWithPc(bEpc, newPc);
    newPc[i] := v;
  }

  /** The explicit-PC constructors build the same tag as the default-PC ones
      exactly when the given PC is the default one for the EPC's length. */
  lemma ExplicitPcMatchesDefault(bEpc: seq<int8>, newPc: seq<int8>,
                                 sEpc: string, sCrc: string, parse: string -> seq<int8>)
    ensures FromEpcAndPc(bEpc, newPc) == FromEpcBytes(bEpc) <==> newPc == DefaultPc(|bEpc|)
    ensures FromEpcCrcAndPc(parse(sEpc), parse(sCrc), newPc) == FromEpcAndCrcStrings(sEpc, sCrc, parse)
      <==> newPc == DefaultPc(|parse(sEpc)|)
  {
  }

  /** `pcBytes()`: a new array holding the tag's PC. */
  method PcBytes(t: TagData) returns (a: array<int8>)
    ensures fresh(a)
    ensures a[..] == t.pc
  {
    a := new int8[|t.pc|](i requires 0 <= i < |t.pc| => t.pc[i]);
  }

  /** `checkLen`: an EPC byte count is acceptable when it is not negative,
      at most 62, and even (the EPC is a whole number of 16-bit words). */
  function CheckLen(epcbytes: int32): (ok: bool)
    ensures ok <==> 0 <= epcbytes <= 62 && epcbytes % 2 == 0
  {
    if epcbytes < 0 then false
    else if epcbytes > 62 then false
    else
      BitAndLowBits(epcbytes);
      if BitAnd(epcbytes, 1) != 0 then false
      else true
  }

  /** A length `checkLen` accepts always fits the C API's EPC buffer, while
      the odd lengths the buffer could hold are still refused. */
  lemma CheckedLengthFitsEpcBuffer(n: int32)
    ensures CheckLen(n) ==> 0 <= n <= TagDataHeader.MAX_EPC_BYTE_COUNT
    ensures 0 <= n <= TagDataHeader.MAX_EPC_BYTE_COUNT && n % 2 == 1 ==> !CheckLen(n)
  {
  }

  /* ---------------------------------------------------------------------- */
  /* Gen2.Target                                                            */
  /* ---------------------------------------------------------------------- */

  /** Inventory search target, in declaration order. */
  datatype Target = AB | BA | A | B

  /** The order `EnumSet.allOf(Target.class)` visits the constants in. */
  const TargetConstants: seq<Target> := [AB, BA, A, B]

  /** `getCode()`: the Gen2 air-protocol representation of the target. */
  function Code(t: Target): int32
  {
    match t
    case AB => 0
    case BA => 1
    case A => 2
    case B => 3
  }

  /** Distinct targets have distinct codes. */
  lemma CodeInjective(t: Target, u: Target)
    ensures Code(t) == Code(u) <==> t == u
  {
  }

  /** The static initialiser: `lookup.put(target.getCode(), target)` for
      every constant in turn. */
  function BuildLookup(ts: seq<Target>): (m: map<int32, Target>)
    ensures forall t :: t in ts ==> Code(t) in m && m[Code(t)] == t
    ensures forall k :: k in m ==> m[k] in ts && Code(m[k]) == k
  {
    if |ts| == 0 then map[]
    else
      var last := ts[|ts| - 1];
      BuildLookup(ts[..|ts| - 1])[Code(last) := last]
  }

  /** The lookup table after class initialisation. */
  const Lookup: map<int32, Target> := BuildLookup(TargetConstants)

  /** The table holds exactly the four codes. */
  lemma LookupKeys()
    ensures forall k :: k in Lookup <==> 0 <= k <= 3
  {
    forall k | 0 <= k <= 3
      ensures k in Lookup
    {
      var t := if k == 0 then AB else if k == 1 then BA else if k == 2 then A else B;
      assert t in TargetConstants && Code(t) == k;
    }
  }

  /** `Target.get(rep)`: the target with that code, or null. */
  function TargetGet(rep: int32): (r: Option<Target>)
    ensures r.Some? ==> Code(r.value) == rep
    ensures r.None? <==> rep !in {0, 1, 2, 3}
  {
    LookupKeys();
    if rep in Lookup then Some(Lookup[rep]) else None
  }

  /** `get` undoes `getCode` for every target. */
  lemma TargetGetOfCode(t: Target)
    ensures TargetGet(Code(t)) == Some(t)
  {
    assert t in TargetConstants;
  }

  /* ---------------------------------------------------------------------- */
  /* Gen2.LinkFrequency                                                     */
  /* ---------------------------------------------------------------------- */

  /** Backscatter link frequencies. */
  datatype LinkFrequency = Link250kHz | Link320kHz | Link640kHz

  /** The `rep` field: the frequency in kHz. */
  function Rep(lf: LinkFrequency): int32
  {
    match lf
    case Link250kHz => 250
    case Link320kHz => 320
    case Link640kHz => 640
  }

  /** The exception `getFrequency` and `get` throw. */
  datatype IllegalArgument = InvalidLinkFrequency(code: int32)

  /** `getFrequency(fr)`: decode a wire code, throwing for unknown codes. */
  function GetFrequency(fr: int32): (r: Result<LinkFrequency, IllegalArgument>)
    ensures r.Success? <==> fr == 0 || fr == 2 || fr == 4
    ensures r.Failure? ==> r.error == InvalidLinkFrequency(fr)
    ensures r.Success? ==> (fr < 4 <==> Rep(r.value) < 640) && (fr > 0 <==> Rep(r.value) > 250)
  {
    match fr
    case 0 => Success(Link250kHz)
    case 2 => Success(Link320kHz)
    case 4 => Success(Link640kHz)
    case _ => Failure(InvalidLinkFrequency(fr))
  }

  /** `get(lf)`: the wire code of a link frequency. */
  function Get(lf: LinkFrequency): (fr: int32)
    ensures fr == 0 || fr == 2 || fr == 4
  {
    match lf
    case Link250kHz => 0
    case Link320kHz => 2
    case Link640kHz => 4
  }

  /** Decoding an encoded link frequency gives it back. */
  lemma GetFrequencyOfGet(lf: LinkFrequency)
    ensures GetFrequency(Get(lf)) == Success(lf)
  {
  }

  /** Encoding a decoded wire code gives it back. */
  lemma GetOfGetFrequency(fr: int32)
    requires GetFrequency(fr).Success?
    ensures Get(GetFrequency(fr).value) == fr
  {
  }

  /* ---------------------------------------------------------------------- */
  /* Gen2.TagReadData                                                       */
  /* ---------------------------------------------------------------------- */

  /** The Q algorithm classes. */
  datatype Q = DynamicQ | StaticQ(initialQ: int32)

  /** A `Gen2.StaticQ` reference that is not null: only the static class. */
  type StaticQValue = q: Q | q.StaticQ? witness StaticQ(0)

  /** The Gen2 part of a tag read; `None` is a null field. The `q` field is
      declared `Gen2.StaticQ`, so it never holds a dynamic Q. */
  datatype TagReadData = TagReadData(q: Option<StaticQValue>, target: Option<Target>, lf: Option<LinkFrequency>)

  /** The field initialisers of a new `TagReadData`. */
  function NewTagReadData(): (r: TagReadData)
    ensures r.q == Some(StaticQ(0))
    ensures r.target == None && r.lf == None
  {
    var initialQ := 0;
    TagReadData(Some(StaticQ(initialQ)), None, None)
  }
}
