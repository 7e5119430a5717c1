/** The passive data contracts of the C tag-data header: the EPC buffer
    bound, the Gen2 Q / link-frequency / target enumerations with their
    MIN, MAX and INVALID markers, the metadata flag bitmask, and the
    millisecond timestamp split into two 32-bit halves. */
module TagDataHeader {
  import opened Wrappers
  import opened MachineInts

  /* ---------------------------------------------------------------------- */
  /* EPC storage                                                            */
  /* ---------------------------------------------------------------------- */

  /** `TMR_MAX_EPC_BYTE_COUNT`: the size of the EPC buffer of a tag. */
  const MAX_EPC_BYTE_COUNT: nat := 62

  /** Size of the PC buffer of the Gen2 per-tag data. */
  const PC_BUFFER_SIZE: nat := 6

  /** `TMR_TagData`, with the Gen2 member of the protocol union. The
      protocol is kept as its raw `TMR_TagProtocol` value: the header stores
      any value of the enumeration, whose numbers are defined outside this
      model, while `NanoPrinters.TagProtocol` only names the values the
      sample prints. */
  datatype TagData = TagData(
    epc: seq<uint8>,
    protocol: int,
    epcByteCount: uint8,
    crc: uint16,
    pcByteCount: uint8,
    pc: seq<uint8>)

  /** The buffers have their declared sizes and the counts fit in them. */
  predicate WellFormed(t: TagData)
  {
    && |t.epc| == MAX_EPC_BYTE_COUNT
    && t.epcByteCount <= MAX_EPC_BYTE_COUNT
    && |t.pc| == PC_BUFFER_SIZE
    && t.pcByteCount <= PC_BUFFER_SIZE
  }

  /** The meaningful part of the EPC buffer. */
  function EpcBytes(t: TagData): (r: seq<uint8>)
    requires WellFormed(t)
    ensures |r| == t.epcByteCount <= MAX_EPC_BYTE_COUNT
    ensures forall i :: 0 <= i < |r| ==> r[i] == t.epc[i]
  {
    t.epc[..t.epcByteCount]
  }

  /** Any EPC of at most 62 bytes can be stored, and read back unchanged. */
  function StoreEpc(epc: seq<uint8>, protocol: int, crc: uint16): (r: Option<TagData>)
    ensures r.Some? <==> |epc| <= MAX_EPC_BYTE_COUNT
    ensures r.Some? ==> WellFormed(r.value) && EpcBytes(r.value) == epc
  {
    if |epc| <= MAX_EPC_BYTE_COUNT then
      var padding := seq(MAX_EPC_BYTE_COUNT - |epc|, _ => 0);
      assert (epc + padding)[..|epc|] == epc;
      Some(TagData(epc + padding, protocol, |epc|, crc, 0, seq(PC_BUFFER_SIZE, _ => 0)))
    else None
  }

  /* ---------------------------------------------------------------------- */
  /* TMR_SR_GEN2_QType and TMR_SR_GEN2_Q                                    */
  /* ---------------------------------------------------------------------- */

  const Q_MIN: int := 0
  const Q_DYNAMIC: int := 0
  const Q_STATIC: int := 1
  const Q_MAX: int := Q_STATIC
  const Q_INVALID: int := Q_MAX + 1

  /** A Q algorithm: the static one carries its initial Q. */
  datatype Q = Dynamic | Static(initialQ: uint8)

  /** The C structure: a type tag and a union whose only member is the
      static-Q configuration. */
  datatype RawQ = RawQ(qtype: int, staticInitialQ: uint8)

  /** Read a raw Q; the union payload only matters for the static type. */
  function DecodeQ(raw: RawQ): (r: Option<Q>)
    ensures r.Some? <==> Q_MIN <= raw.qtype <= Q_MAX
    ensures r.Some? ==> (r.value.Static? <==> raw.qtype == Q_STATIC)
  {
    if raw.qtype == Q_DYNAMIC then Some(Dynamic)
    else if raw.qtype == Q_STATIC then Some(Static(raw.staticInitialQ))
    else None
  }

  /** Write a Q; for the dynamic type the union keeps whatever it held. */
  function EncodeQ(q: Q, stale: uint8): (raw: RawQ)
    ensures Q_MIN <= raw.qtype <= Q_MAX
  {
    match q
    case Dynamic => RawQ(Q_DYNAMIC, stale)
    case Static(initialQ) => RawQ(Q_STATIC, initialQ)
  }

  /** DYNAMIC and STATIC span MIN..MAX, and INVALID = MAX + 1 names no Q,
      whatever the union holds. */
  lemma QRange(q: Q, payload: uint8)
    ensures Q_MIN == Q_DYNAMIC < Q_STATIC == Q_MAX < Q_INVALID
    ensures Q_MIN <= EncodeQ(q, payload).qtype <= Q_MAX
    ensures DecodeQ(RawQ(Q_INVALID, payload)) == None
  {
  }

  /** Writing then reading a Q gives it back, whatever was in the union. */
  lemma QRoundTrip(q: Q, stale: uint8)
    ensures DecodeQ(EncodeQ(q, stale)) == Some(q)
  {
  }

  /** The payload of a dynamic Q is never looked at. */
  lemma DynamicPayloadIgnored(x: uint8, y: uint8)
    ensures DecodeQ(RawQ(Q_DYNAMIC, x)) == DecodeQ(RawQ(Q_DYNAMIC, y))
  {
  }

  /* ---------------------------------------------------------------------- */
  /* TMR_GEN2_LinkFrequency                                                 */
  /* ---------------------------------------------------------------------- */

  /** Link frequencies; the enumeration values are the kHz figures. */
  datatype LinkFrequency = Lf250kHz | Lf320kHz | Lf640kHz

  const LINKFREQUENCY_MAX: int := 640
  const LINKFREQUENCY_INVALID: int := LINKFREQUENCY_MAX + 1

  function LinkFrequencyValue(lf: LinkFrequency): int
  {
    match lf
    case Lf250kHz => 250
    case Lf320kHz => 320
    case Lf640kHz => 640
  }

  /** Read an enumeration value; the valid values are not a range. */
  function LinkFrequencyFromValue(v: int): (r: Option<LinkFrequency>)
    ensures r.Some? <==> v == 250 || v == 320 || v == 640
    ensures r.Some? ==> LinkFrequencyValue(r.value) == v
  {
    match v
    case 250 => Some(Lf250kHz)
    case 320 => Some(Lf320kHz)
    case 640 => Some(Lf640kHz)
    case _ => None
  }

  /** Every value is at most MAX, INVALID is above them all and decodes to
      nothing, and values round-trip. */
  lemma LinkFrequencyRange(lf: LinkFrequency)
    ensures LinkFrequencyValue(lf) <= LINKFREQUENCY_MAX < LINKFREQUENCY_INVALID
    ensures LinkFrequencyFromValue(LinkFrequencyValue(lf)) == Some(lf)
    ensures LinkFrequencyFromValue(LINKFREQUENCY_INVALID) == None
  {
  }

  /* ---------------------------------------------------------------------- */
  /* TMR_GEN2_Target                                                        */
  /* ---------------------------------------------------------------------- */

  /** Search targets. Their values differ from the Java API's target codes;
      the two tables are kept apart on purpose. */
  datatype Target = TargetA | TargetB | TargetAB | TargetBA

  const TARGET_MIN: int := 0
  const TARGET_MAX: int := 3
  const TARGET_INVALID: int := TARGET_MAX + 1

  function TargetValue(t: Target): int
  {
    match t
    case TargetA => 0
    case TargetB => 1
    case TargetAB => 2
    case TargetBA => 3
  }

  /** A value names a target exactly when it lies in MIN..MAX. */
  function TargetFromValue(v: int): (r: Option<Target>)
    ensures r.Some? <==> TARGET_MIN <= v <= TARGET_MAX
    ensures r.Some? ==> TargetValue(r.value) == v
  {
    if v == 0 then Some(TargetA)
    else if v == 1 then Some(TargetB)
    else if v == 2 then Some(TargetAB)
    else if v == 3 then Some(TargetBA)
    else None
  }

  /** MAX is the value of BA, every value lies in MIN..MAX, INVALID is the
      first value past it, and values round-trip. */
  lemma TargetRange(t: Target)
    ensures TARGET_MIN <= TargetValue(t) <= TARGET_MAX == TargetValue(TargetBA)
    ensures TargetFromValue(TargetValue(t)) == Some(t)
    ensures TargetFromValue(TARGET_INVALID) == None
  {
  }

  /* ---------------------------------------------------------------------- */
  /* TMR_TRD_MetadataFlag                                                   */
  /* ---------------------------------------------------------------------- */

  /** The optional fields of a tag read. */
  datatype MetadataFlag =
    | ReadCount | Rssi | AntennaId | Frequency | Timestamp | Phase
    | Protocol | Data | GpioStatus | Gen2Q | Gen2Lf | Gen2Target

  const FLAG_NONE: bv16 := 0x0000
  const FLAG_MAX: bv16 := 0x0800

  /** All flags, in the order they are declared. */
  const AllFlags: seq<MetadataFlag> :=
    [ReadCount, Rssi, AntennaId, Frequency, Timestamp, Phase,
     Protocol, Data, GpioStatus, Gen2Q, Gen2Lf, Gen2Target]

  function FlagBit(f: MetadataFlag): bv16
  {
    match f
    case ReadCount => 0x0001
    case Rssi => 0x0002
    case AntennaId => 0x0004
    case Frequency => 0x0008
    case Timestamp => 0x0010
    case Phase => 0x0020
    case Protocol => 0x0040
    case Data => 0x0080
    case GpioStatus => 0x0100
    case Gen2Q => 0x0200
    case Gen2Lf => 0x0400
    case Gen2Target => 0x0800
  }

  /** The bitwise OR of the flags of a list. */
  function OrOf(fs: seq<MetadataFlag>): (m: bv16)
    ensures m & !0x0FFF == 0
  {
    if |fs| == 0 then FLAG_NONE else OrOf(fs[..|fs| - 1]) | FlagBit(fs[|fs| - 1])
  }

  /** `TMR_TRD_METADATA_FLAG_ALL`. */
  const FLAG_ALL: bv16 := OrOf(AllFlags)

  predicate SingleBit(x: bv16)
  {
    x != 0 && x & (x - 1) == 0
  }

  /** Each flag is one bit, different flags share no bit, and FLAG_MAX is
      the highest flag. */
  lemma FlagsAreDistinctBits(f: MetadataFlag, g: MetadataFlag)
    ensures SingleBit(FlagBit(f))
    ensures f != g ==> FlagBit(f) & FlagBit(g) == 0
    ensures FlagBit(f) <= FLAG_MAX == FlagBit(Gen2Target)
  {
  }

  /** The OR of a list has the bit of a flag exactly when the flag is in it. */
  lemma {:induction false} OrOfHasBit(fs: seq<MetadataFlag>, f: MetadataFlag)
    ensures OrOf(fs) & FlagBit(f) != 0 <==> f in fs
  {
    if |fs| > 0 {
      var init, last := fs[..|fs| - 1], fs[|fs| - 1];
      OrOfHasBit(init, f);
      FlagsAreDistinctBits(last, f);
      assert fs == init + [last];
    }
  }

  /** The first k flags are the k lowest bits. */
  lemma {:induction false} OrOfFirstFlags(k: nat)
    requires k <= |AllFlags|
    ensures OrOf(AllFlags[..k]) == ((1 as bv16) << k) - 1
  {
    if k > 0 {
      assert AllFlags[..k][..k - 1] == AllFlags[..k - 1];
      OrOfFirstFlags(k - 1);
      FlagBitPosition(k - 1);
      LowOnesStep(k - 1);
    }
  }

  /** The `i`-th declared flag is bit `i`. */
  lemma FlagBitPosition(i: nat)
    requires i < |AllFlags|
    ensures FlagBit(AllFlags[i]) == (1 as bv16) << i
  {
  }

  /** Adding bit `i` to the `i` lowest bits gives the `i + 1` lowest bits. */
  lemma LowOnesStep(i: nat)
    requires i < 16
    ensures (((1 as bv16) << i) - 1) | ((1 as bv16) << i) == ((1 as bv16) << (i + 1)) - 1
  {
  }

  /** FLAG_ALL is 0x0FFF. */
  lemma FlagAllValue()
    ensures FLAG_ALL == 0x0FFF
  {
    OrOfFirstFlags(|AllFlags|);
    assert AllFlags[..|AllFlags|] == AllFlags;
  }

  /** The flags of a list that belong to a set, in list order. */
  function Filter(fs: seq<MetadataFlag>, s: set<MetadataFlag>): (r: seq<MetadataFlag>)
    ensures forall f :: f in r <==> f in fs && f in s
  {
    if |fs| == 0 then []
    else Filter(fs[..|fs| - 1], s) + (if fs[|fs| - 1] in s then [fs[|fs| - 1]] else [])
  }

  /** The mask of a set of flags: the OR of their bits. */
  function Mask(s: set<MetadataFlag>): bv16
  {
    OrOf(Filter(AllFlags, s))
  }

  /** The flags whose bit is set in a mask. */
  function FlagsOf(m: bv16): (s: set<MetadataFlag>)
    ensures forall f :: f in s <==> m & FlagBit(f) != 0
  {
    set f | f in AllFlags && m & FlagBit(f) != 0
  }

  /** Reading a mask back gives the set it was built from. */
  lemma FlagsOfMask(s: set<MetadataFlag>)
    ensures FlagsOf(Mask(s)) == s
  {
    forall f
      ensures f in FlagsOf(Mask(s)) <==> f in s
    {
      MaskHasBit(s, f);
    }
  }

  /** The mask of a set has the bit of a flag exactly when the flag is in it. */
  lemma MaskHasBit(s: set<MetadataFlag>, f: MetadataFlag)
    ensures Mask(s) & FlagBit(f) != 0 <==> f in s
  {
    OrOfHasBit(Filter(AllFlags, s), f);
  }

  /** Clearing the undefined bits keeps every flag bit. */
  lemma InsideAll(m: bv16, f: MetadataFlag)
    ensures (m & 0x0FFF) & FlagBit(f) != 0 <==> m & FlagBit(f) != 0
  {
  }

  lemma RebuiltMaskHasBit(m: bv16, f: MetadataFlag)
    ensures Mask(FlagsOf(m)) & FlagBit(f) != 0 <==> (m & 0x0FFF) & FlagBit(f) != 0
  {
    MaskHasBit(FlagsOf(m), f);
    InsideAll(m, f);
  }

  /** Two masks without undefined bits are equal when they agree on every flag. */
  lemma MasksEqualByFlags(x: bv16, y: bv16)
    requires x & !0x0FFF == 0 && y & !0x0FFF == 0
    requires forall f :: x & FlagBit(f) != 0 <==> y & FlagBit(f) != 0
    ensures x == y
  {
    assert x & FlagBit(ReadCount) != 0 <==> y & FlagBit(ReadCount) != 0;
    assert x & FlagBit(Rssi) != 0 <==> y & FlagBit(Rssi) != 0;
    assert x & FlagBit(AntennaId) != 0 <==> y & FlagBit(AntennaId) != 0;
    assert x & FlagBit(Frequency) != 0 <==> y & FlagBit(Frequency) != 0;
    assert x & FlagBit(Timestamp) != 0 <==> y & FlagBit(Timestamp) != 0;
    assert x & FlagBit(Phase) != 0 <==> y & FlagBit(Phase) != 0;
    assert x & FlagBit(Protocol) != 0 <==> y & FlagBit(Protocol) != 0;
    assert x & FlagBit(Data) != 0 <==> y & FlagBit(Data) != 0;
    assert x & FlagBit(GpioStatus) != 0 <==> y & FlagBit(GpioStatus) != 0;
    assert x & FlagBit(Gen2Q) != 0 <==> y & FlagBit(Gen2Q) != 0;
    assert x & FlagBit(Gen2Lf) != 0 <==> y & FlagBit(Gen2Lf) != 0;
    assert x & FlagBit(Gen2Target) != 0 <==> y & FlagBit(Gen2Target) != 0;
  }

  /** Rebuilding the mask from its flags drops only the undefined bits. */
  lemma MaskOfFlags(m: bv16)
    ensures Mask(FlagsOf(m)) == m & FLAG_ALL
  {
    FlagAllValue();
    var x, y := Mask(FlagsOf(m)), m & 0x0FFF;
    forall f
      ensures x & FlagBit(f) != 0 <==> y & FlagBit(f) != 0
    {
      RebuiltMaskHasBit(m, f);
    }
    assert y & !0x0FFF == 0;
    MasksEqualByFlags(x, y);
  }

  /* ---------------------------------------------------------------------- */
  /* Timestamps                                                             */
  /* ---------------------------------------------------------------------- */

  /** The absolute read time in milliseconds from its two 32-bit halves. */
  function TimestampMs(high: uint32, low: uint32): (ms: nat)
    ensures ms < TWO_32 * TWO_32
    ensures ms / TWO_32 == high && ms % TWO_32 == low
  {
    high * TWO_32 + low
  }

  /** Split a 64-bit millisecond time into the two fields. */
  function SplitTimestamp(ms: nat): (halves: (uint32, uint32))
    requires ms < TWO_32 * TWO_32
    ensures TimestampMs(halves.0, halves.1) == ms
  {
    (ms / TWO_32, ms % TWO_32)
  }

  /** Splitting the combined time gives back the two fields. */
  lemma TimestampRoundTrip(high: uint32, low: uint32)
    ensures SplitTimestamp(TimestampMs(high, low)) == (high, low)
  {
  }
}
