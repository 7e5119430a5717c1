/** The two pure helpers of the C autonomous-configuration sample:
    `protocolName`, which names a tag protocol, and the line layout of
    `serialPrinter`, which dumps transport bytes sixteen to a line. */
module NanoPrinters {
  import opened Wrappers
  import opened MachineInts

  /* ---------------------------------------------------------------------- */
  /* protocolName                                                           */
  /* ---------------------------------------------------------------------- */

  /** The tag protocols the sample names; `Unlisted` stands for every other
      enumeration value of `TMR_TagProtocol`, all of which the sample treats
      alike. */
  datatype TagProtocol =
    | ProtocolNone | Iso180006b | Gen2 | Iso180006bUcode | Ipx64 | Ipx256 | Ata
    | Unlisted

  function ProtocolName(p: TagProtocol): (name: string)
    ensures name == "unknown" <==> p.Unlisted?
  {
    match p
    case ProtocolNone => "NONE"
    case Iso180006b => "ISO180006B"
    case Gen2 => "GEN2"
    case Iso180006bUcode => "ISO180006B_UCODE"
    case Ipx64 => "IPX64"
    case Ipx256 => "IPX256"
    case Ata => "ATA"
    case Unlisted => "unknown"
  }

  /** The listed protocol with a given name, if any: the reverse table. */
  function ProtocolByName(name: string): (r: Option<TagProtocol>)
    ensures r.Some? ==> !r.value.Unlisted? && ProtocolName(r.value) == name
  {
    if name == "NONE" then Some(ProtocolNone)
    else if name == "ISO180006B" then Some(Iso180006b)
    else if name == "GEN2" then Some(Gen2)
    else if name == "ISO180006B_UCODE" then Some(Iso180006bUcode)
    else if name == "IPX64" then Some(Ipx64)
    else if name == "IPX256" then Some(Ipx256)
    else if name == "ATA" then Some(Ata)
    else None
  }

  /** Every listed protocol has its own name, so its name identifies it;
      the name of any other value identifies nothing. */
  lemma ProtocolNameRoundTrip(p: TagProtocol)
    ensures ProtocolByName(ProtocolName(p)) == if p.Unlisted? then None else Some(p)
  {
  }

  /** Distinct listed protocols have distinct names. */
  lemma ProtocolNamesDistinct(p: TagProtocol, q: TagProtocol)
    requires !p.Unlisted? && !q.Unlisted?
    ensures ProtocolName(p) == ProtocolName(q) <==> p == q
  {
    ProtocolNameRoundTrip(p);
    ProtocolNameRoundTrip(q);
  }

  /* ---------------------------------------------------------------------- */
  /* serialPrinter                                                          */
  /* ---------------------------------------------------------------------- */

  /** The loop's test before printing byte `i` of a `uint32_t`-sized buffer:
      `i > 0 && (i & 15) == 0` starts a new, indented line. */
  function StartsNewLine(i: uint32): bool
  {
    i > 0 && BitAnd(i, 15) == 0
  }

  /** The bit test is a multiple-of-16 test. */
  lemma NewLineRule(i: uint32)
    ensures StartsNewLine(i) <==> i > 0 && i % 16 == 0
  {
    BitAndLowBits(i);
  }

  /** The bytes of a list of lines, in order. */
  function Flatten(lines: seq<seq<uint8>>): seq<uint8>
  {
    if |lines| == 0 then [] else Flatten(lines[..|lines| - 1]) + lines[|lines| - 1]
  }

  /** The bytes of each printed line, built as the loop goes: a byte joins
      the current line unless the loop starts a new one before it. The
      first line (after "Sending: " or "Received:") may be empty. */
  function Lines(data: seq<uint8>): (lines: seq<seq<uint8>>)
    requires |data| < TWO_32
    ensures |lines| >= 1
  {
    if |data| == 0 then [[]]
    else
      var i := |data| - 1;
      var prev := Lines(data[..i]);
      if StartsNewLine(i) then prev + [[data[i]]]
      else prev[..|prev| - 1] + [prev[|prev| - 1] + [data[i]]]
  }

  /** Flattening a list with one more line appends that line's bytes. */
  lemma {:induction false} FlattenSnoc(lines: seq<seq<uint8>>, line: seq<uint8>)
    ensures Flatten(lines + [line]) == Flatten(lines) + line
  {
    assert (lines + [line])[..|lines|] == lines;
  }

  /** Starting a new line with one byte appends that byte to the bytes. */
  lemma NewLineKeepsBytes(prev: seq<seq<uint8>>, bytes: seq<uint8>, b: uint8, lines: seq<seq<uint8>>)
    requires Flatten(prev) == bytes
    requires lines == prev + [[b]]
    ensures Flatten(lines) == bytes + [b]
  {
    FlattenSnoc(prev, [b]);
  }

  /** Adding one byte to the last line appends that byte to the bytes. */
  lemma SameLineKeepsBytes(prev: seq<seq<uint8>>, bytes: seq<uint8>, b: uint8, lines: seq<seq<uint8>>)
    requires |prev| >= 1 && Flatten(prev) == bytes
    requires lines == prev[..|prev| - 1] + [prev[|prev| - 1] + [b]]
    ensures Flatten(lines) == bytes + [b]
  {
    var n := |prev| - 1;
    assert prev[..n] + [prev[n]] == prev;
    FlattenSnoc(prev[..n], prev[n]);
    FlattenSnoc(prev[..n], prev[n] + [b]);
  }

  /** A byte that starts a new line adds a line holding just that byte. */
  lemma LinesNewLine(front: seq<uint8>, b: uint8)
    requires |front| + 1 < TWO_32 && StartsNewLine(|front|)
    ensures Lines(front + [b]) == Lines(front) + [[b]]
  {
    assert (front + [b])[..|front|] == front;
  }

  /** Any other byte is added to the last line. */
  lemma LinesSameLine(front: seq<uint8>, b: uint8)
    requires |front| + 1 < TWO_32 && !StartsNewLine(|front|)
    ensures var prev := Lines(front);
      Lines(front + [b]) == prev[..|prev| - 1] + [prev[|prev| - 1] + [b]]
  {
    assert (front + [b])[..|front|] == front;
  }

  /** The layout keeps every byte, in order. */
  lemma {:induction false} LinesKeepBytes(data: seq<uint8>)
    requires |data| < TWO_32
    ensures Flatten(Lines(data)) == data
  {
    if |data| > 0 {
      var i := |data| - 1;
      LinesKeepBytes(data[..i]);
      assert data[..i] + [data[i]] == data;
      var prev := Lines(data[..i]);
      if StartsNewLine(i) {
        LinesNewLine(data[..i], data[i]);
        NewLineKeepsBytes(prev, data[..i], data[i], Lines(data));
      } else {
        LinesSameLine(data[..i], data[i]);
        SameLineKeepsBytes(prev, data[..i], data[i], Lines(data));
      }
    }
  }

  /** The shape of a dump of `n` bytes: at most sixteen bytes on a line,
      every line but the last full, one line per started group of sixteen
      bytes, and a last line holding the remaining bytes. */
  predicate Shaped(lines: seq<seq<uint8>>, n: nat)
  {
    && |lines| == (if n == 0 then 1 else (n + 15) / 16)
    && (forall j :: 0 <= j < |lines| ==> |lines[j]| <= 16)
    && (forall j :: 0 <= j < |lines| - 1 ==> |lines[j]| == 16)
    && |lines[|lines| - 1]| == (if n == 0 then 0 else (n - 1) % 16 + 1)
  }

  /** The layout puts at most sixteen bytes on a line, fills every line but
      the last, and uses one line per started group of sixteen bytes. */
  lemma LinesSizes(data: seq<uint8>)
    requires |data| < TWO_32
    ensures forall j :: 0 <= j < |Lines(data)| ==> |Lines(data)[j]| <= 16
    ensures forall j :: 0 <= j < |Lines(data)| - 1 ==> |Lines(data)[j]| == 16
    ensures |Lines(data)| == if |data| == 0 then 1 else (|data| + 15) / 16
    ensures |Lines(data)[|Lines(data)| - 1]| == if |data| == 0 then 0 else (|data| - 1) % 16 + 1
  {
    LinesShaped(data);
  }

  lemma {:induction false} LinesShaped(data: seq<uint8>)
    requires |data| < TWO_32
    ensures Shaped(Lines(data), |data|)
  {
    if |data| > 0 {
      var i := |data| - 1;
      var prev := Lines(data[..i]);
      LinesShaped(data[..i]);
      NewLineRule(i);
      assert data[..i] + [data[i]] == data;
      if StartsNewLine(i) {
        LinesNewLine(data[..i], data[i]);
        ShapedNewLine(prev, data[i], i);
      } else {
        LinesSameLine(data[..i], data[i]);
        ShapedSameLine(prev, data[i], i);
      }
    }
  }

  /** A byte that starts a new line keeps the shape. */
  lemma ShapedNewLine(prev: seq<seq<uint8>>, b: uint8, i: nat)
    requires Shaped(prev, i) && i > 0 && i % 16 == 0
    ensures Shaped(prev + [[b]], i + 1)
  {
    LineCountStep(i);
    var lines := prev + [[b]];
    forall j | 0 <= j < |lines| - 1
      ensures |lines[j]| == 16
    {
      assert lines[j] == prev[j];
    }
  }

  /** A byte that joins the last line keeps the shape. */
  lemma ShapedSameLine(prev: seq<seq<uint8>>, b: uint8, i: nat)
    requires Shaped(prev, i) && (i == 0 || i % 16 != 0)
    ensures Shaped(prev[..|prev| - 1] + [prev[|prev| - 1] + [b]], i + 1)
  {
    LineCountStep(i);
    var n := |prev| - 1;
    var lines := prev[..n] + [prev[n] + [b]];
    assert |lines| == |prev| && |lines[n]| == |prev[n]| + 1;
    forall j | 0 <= j < n
      ensures lines[j] == prev[j]
    {
    }
  }

  /** How the line count and the last line's length change with byte `i`. */
  lemma LineCountStep(i: nat)
    ensures i == 0 ==> (i + 1 + 15) / 16 == 1 && i % 16 + 1 == 1
    ensures i > 0 && i % 16 == 0 ==> (i + 1 + 15) / 16 == (i + 15) / 16 + 1 && i % 16 + 1 == 1
    ensures i > 0 && i % 16 != 0 ==> (i + 1 + 15) / 16 == (i + 15) / 16 && (i - 1) % 16 + 1 == i % 16
  {
  }

  /** Byte `i` of the dump is printed on line `i / 16`, in column `i % 16`. */
  lemma {:induction false} BytePosition(data: seq<uint8>, i: nat)
    requires |data| < TWO_32 && i < |data|
    ensures i / 16 < |Lines(data)|
    ensures i % 16 < |Lines(data)[i / 16]|
    ensures Lines(data)[i / 16][i % 16] == data[i]
  {
    var lines := Lines(data);
    var k := i / 16;
    LinesKeepBytes(data);
    LinesSizes(data);
    FlattenFullLines(lines, k);
    assert Flatten(lines)[16 * k + i % 16] == data[i];
  }

  /** When every line before `k` is full, line `k` starts at byte `16 * k`. */
  lemma {:induction false} FlattenFullLines(lines: seq<seq<uint8>>, k: nat)
    requires k < |lines|
    requires forall j :: 0 <= j < k ==> |lines[j]| == 16
    ensures |Flatten(lines[..k])| == 16 * k
    ensures Flatten(lines) == Flatten(lines[..k]) + lines[k] + Flatten(lines[k + 1..])
  {
    if k + 1 == |lines| {
      FlattenAtLastLine(lines, k);
    } else {
      var init, last := lines[..|lines| - 1], lines[|lines| - 1];
      FlattenFullLines(init, k);
      assert init + [last] == lines;
      FullLinesSnoc(init, last, k);
    }
  }

  /** The step of `FlattenFullLines`: one more line after line `k`. */
  lemma FullLinesSnoc(init: seq<seq<uint8>>, last: seq<uint8>, k: nat)
    requires k < |init|
    requires |Flatten(init[..k])| == 16 * k
    requires Flatten(init) == Flatten(init[..k]) + init[k] + Flatten(init[k + 1..])
    ensures var lines := init + [last];
      && |Flatten(lines[..k])| == 16 * k
      && Flatten(lines) == Flatten(lines[..k]) + lines[k] + Flatten(lines[k + 1..])
  {
    var lines := init + [last];
    assert lines[..k] == init[..k] && lines[k] == init[k];
    assert Flatten(lines) == Flatten(init) + last by {
      FlattenSnoc(init, last);
    }
    assert Flatten(lines[k + 1..]) == Flatten(init[k + 1..]) + last by {
      assert lines[k + 1..] == init[k + 1..] + [last];
      FlattenSnoc(init[k + 1..], last);
    }
  }

  /** The base case of `FlattenFullLines`: `k` is the last line. */
  lemma FlattenAtLastLine(lines: seq<seq<uint8>>, k: nat)
    requires k + 1 == |lines|
    requires forall j :: 0 <= j < k ==> |lines[j]| == 16
    ensures |Flatten(lines[..k])| == 16 * k
    ensures Flatten(lines) == Flatten(lines[..k]) + lines[k] + Flatten(lines[k + 1..])
  {
    assert lines[k + 1..] == [];
    FlattenPrefixLength(lines, k);
  }

  lemma {:induction false} FlattenPrefixLength(lines: seq<seq<uint8>>, k: nat)
    requires k <= |lines|
    requires forall j :: 0 <= j < k ==> |lines[j]| == 16
    ensures |Flatten(lines[..k])| == 16 * k
  {
    if k > 0 {
      assert lines[..k][..k - 1] == lines[..k - 1];
      FlattenPrefixLength(lines, k - 1);
    }
  }
}
