/** The documented contracts of the header's two conversion helpers,
    `TMR_hexToBytes` and `TMR_bytesToHex`. Their implementations are not part
    of this model: each helper is a predicate relating inputs to the outputs
    the documentation allows, and lemmas state what follows from it. Letter
    case of the produced digits and the behaviour for malformed input or a
    too small buffer are left open, as the documentation leaves them. */
module HexConversion {
  import opened Wrappers
  import opened MachineInts
  import opened Ascii

  /* ---------------------------------------------------------------------- */
  /* Hexadecimal digits                                                     */
  /* ---------------------------------------------------------------------- */

  predicate IsHexDigit(c: char)
  {
    '0' <= c <= '9' || 'a' <= c <= 'f' || 'A' <= c <= 'F'
  }

  function DigitValue(c: char): (v: nat)
    requires IsHexDigit(c)
    ensures v < 16
  {
    if '0' <= c <= '9' then c as int - '0' as int
    else if 'a' <= c <= 'f' then c as int - 'a' as int + 10
    else c as int - 'A' as int + 10
  }

  /** Two digits with the same value are the same letter up to case. */
  predicate SameDigit(c: char, d: char)
  {
    IsHexDigit(c) && IsHexDigit(d) && DigitValue(c) == DigitValue(d)
  }

  lemma SameDigitUpToCase(c: char, d: char)
    requires SameDigit(c, d)
    ensures c == d || LowerChar(c) == LowerChar(d)
  {
  }

  /** The string of byte values written as pairs of hex digits, most
      significant digit first, letter case allowed either way. */
  function DecodeHex(s: string): (r: Option<seq<uint8>>)
    ensures r.Some? ==> |s| == 2 * |r.value|
    ensures r.Some? ==> forall i :: 0 <= i < |s| ==> IsHexDigit(s[i])
  {
    if |s| == 0 then Some([])
    else if |s| == 1 || !IsHexDigit(s[0]) || !IsHexDigit(s[1]) then None
    else
      match DecodeHex(s[2..])
      case None => None
      case Some(rest) => Some([16 * DigitValue(s[0]) + DigitValue(s[1])] + rest)
  }

  /** Strings that decode to the same bytes differ only in letter case: the
      text a conversion produces is the input up to case. */
  lemma {:induction false} SameBytesSameText(s: string, t: string)
    requires DecodeHex(s).Some? && DecodeHex(s) == DecodeHex(t)
    ensures Lower(s) == Lower(t)
  {
    if |s| > 0 {
      var a, b := DecodeHex(s).value, DecodeHex(t).value;
      assert 16 * DigitValue(s[0]) + DigitValue(s[1]) == a[0] == b[0]
        == 16 * DigitValue(t[0]) + DigitValue(t[1]);
      assert SameDigit(s[0], t[0]) && SameDigit(s[1], t[1]);
      SameDigitUpToCase(s[0], t[0]);
      SameDigitUpToCase(s[1], t[1]);
      assert DecodeHex(s[2..]) == Some(a[1..]) && DecodeHex(t[2..]) == Some(b[1..]);
      SameBytesSameText(s[2..], t[2..]);
      assert s[1..][1..] == s[2..] && t[1..][1..] == t[2..];
    }
  }

  /* ---------------------------------------------------------------------- */
  /* TMR_hexToBytes                                                         */
  /* ---------------------------------------------------------------------- */

  predicate HasHexPrefix(s: string)
  {
    |s| >= 2 && s[0] == '0' && s[1] == 'x'
  }

  /** The digits a conversion looks at: a leading "0x" is ignored. */
  function StripPrefix(hex: string): (r: string)
    ensures HasHexPrefix(hex) ==> hex == "0x" + r
    ensures !HasHexPrefix(hex) ==> r == hex
  {
    if HasHexPrefix(hex) then hex[2..] else hex
  }

  /** The calls the documentation speaks of: the digits are well formed and
      the bytes fit in the array. */
  predicate Documented(hex: string, size: nat)
  {
    DecodeHex(StripPrefix(hex)).Some? && |DecodeHex(StripPrefix(hex)).value| <= size
  }

  /** `TMR_hexToBytes(hex, bytes, size, convertLen)`: `before` and `after`
      are the array contents (its length is `size`), `wantLen` says whether
      `convertLen` is a real pointer and `convertLen` is what was stored
      through it. The array keeps its size, nothing is stored through a NULL
      pointer, and a documented call writes the decoded bytes at the front,
      leaves the rest alone and reports their number. */
  predicate HexToBytesContract(hex: string, before: seq<uint8>, wantLen: bool,
                               after: seq<uint8>, convertLen: Option<nat>)
  {
    && |after| == |before|
    && (!wantLen ==> convertLen == None)
    && (Documented(hex, |before|) ==>
          var d := DecodeHex(StripPrefix(hex)).value;
          && after == d + before[|d|..]
          && (wantLen ==> convertLen == Some(|d|)))
  }

  /** An empty string leaves the array unaltered, and reports zero bytes. */
  lemma HexToBytesEmpty(before: seq<uint8>, wantLen: bool, after: seq<uint8>, convertLen: Option<nat>)
    requires HexToBytesContract("", before, wantLen, after, convertLen)
    ensures after == before
    ensures convertLen == if wantLen then Some(0) else None
  {
    assert DecodeHex("") == Some([]);
  }

  /** A leading "0x" changes nothing: "0xffff" converts as "ffff" does. */
  lemma HexPrefixIgnored(hex: string, before: seq<uint8>, wantLen: bool,
                         after: seq<uint8>, convertLen: Option<nat>)
    requires !HasHexPrefix(hex)
    ensures HexToBytesContract("0x" + hex, before, wantLen, after, convertLen)
        <==> HexToBytesContract(hex, before, wantLen, after, convertLen)
  {
    assert StripPrefix("0x" + hex) == hex;
  }

  /** The outcome a documented call must have. */
  function ExpectedHexToBytes(hex: string, before: seq<uint8>, wantLen: bool): (r: (seq<uint8>, Option<nat>))
    requires Documented(hex, |before|)
    ensures HexToBytesContract(hex, before, wantLen, r.0, r.1)
  {
    var d := DecodeHex(StripPrefix(hex)).value;
    (d + before[|d|..], if wantLen then Some(|d|) else None)
  }

  /** A documented call has exactly one allowed outcome, with or without
      `convertLen`; the bytes written do not depend on it. */
  lemma HexToBytesDeterminate(hex: string, before: seq<uint8>, wantLen: bool,
                              after: seq<uint8>, convertLen: Option<nat>)
    requires Documented(hex, |before|)
    requires HexToBytesContract(hex, before, wantLen, after, convertLen)
    ensures (after, convertLen) == ExpectedHexToBytes(hex, before, wantLen)
    ensures after == ExpectedHexToBytes(hex, before, !wantLen).0
  {
  }

  /** The specific values the documentation tests. */
  lemma DocumentedValues()
    ensures DecodeHex(StripPrefix("00")) == Some([0x00])
    ensures DecodeHex(StripPrefix("0000")) == Some([0x00, 0x00])
    ensures DecodeHex(StripPrefix("ffff")) == Some([0xff, 0xff])
    ensures DecodeHex(StripPrefix("0xffff")) == Some([0xff, 0xff])
  {
    assert "00"[2..] == "" && "ff"[2..] == "";
    assert DigitValue('0') == 0 && DigitValue('f') == 15;
    assert [0x00] + [] == [0x00] && [0xff] + [] == [0xff];
    assert DecodeHex("00") == Some([0x00]);
    assert DecodeHex("ff") == Some([0xff]);
    assert "0000"[2..] == "00" && "ffff"[2..] == "ff";
    assert [0x00] + [0x00] == [0x00, 0x00] && [0xff] + [0xff] == [0xff, 0xff];
    assert DecodeHex("0000") == Some([0x00, 0x00]);
    assert DecodeHex("ffff") == Some([0xff, 0xff]);
    assert "0xffff"[2..] == "ffff";
  }

  /* ---------------------------------------------------------------------- */
  /* TMR_bytesToHex                                                         */
  /* ---------------------------------------------------------------------- */

  /** The C string held by a character buffer: everything before the first
      NUL (or the whole buffer when there is none). */
  function CString(buf: seq<char>): (r: string)
    ensures |r| <= |buf| && r == buf[..|r|]
    ensures forall i :: 0 <= i < |r| ==> r[i] != '\0'
  {
    if |buf| == 0 || buf[0] == '\0' then [] else [buf[0]] + CString(buf[1..])
  }

  /** `TMR_bytesToHex(bytes, size, hex)`: `out` is what was written to the
      `hex` buffer — two hex digits per input byte, then the terminating
      NUL. */
  predicate BytesToHexContract(bytes: seq<uint8>, size: nat, out: seq<char>)
    requires size <= |bytes|
  {
    && |out| == 2 * size + 1
    && out[2 * size] == '\0'
    && DecodeHex(out[..2 * size]) == Some(bytes[..size])
  }

  /** The hex buffer holds a C string that is exactly the digits. */
  lemma {:induction false} CStringOfDigits(text: string)
    requires forall i :: 0 <= i < |text| ==> IsHexDigit(text[i])
    ensures CString(text + ['\0']) == text
  {
    if |text| > 0 {
      assert (text + ['\0'])[1..] == text[1..] + ['\0'];
      CStringOfDigits(text[1..]);
    }
  }

  /** The string a call produces: as many digit pairs as bytes; for size 0
      the empty string. */
  lemma BytesToHexString(bytes: seq<uint8>, size: nat, out: seq<char>)
    requires size <= |bytes|
    requires BytesToHexContract(bytes, size, out)
    ensures CString(out) == out[..2 * size]
    ensures |CString(out)| == 2 * size
    ensures size == 0 ==> CString(out) == ""
  {
    assert out == out[..2 * size] + ['\0'];
    CStringOfDigits(out[..2 * size]);
  }

  /** Lower-case digits of a byte sequence: one output the contract allows. */
  function LowerHex(bytes: seq<uint8>): (r: string)
    ensures |r| == 2 * |bytes|
  {
    if |bytes| == 0 then []
    else [HexChar(bytes[0] / 16), HexChar(bytes[0] % 16)] + LowerHex(bytes[1..])
  }

  function HexChar(v: nat): (c: char)
    requires v < 16
    ensures IsHexDigit(c) && DigitValue(c) == v
  {
    if v < 10 then ('0' as int + v) as char else ('a' as int + v - 10) as char
  }

  lemma {:induction false} DecodeLowerHex(bytes: seq<uint8>)
    ensures DecodeHex(LowerHex(bytes)) == Some(bytes)
  {
    if |bytes| > 0 {
      var s := LowerHex(bytes);
      assert s[2..] == LowerHex(bytes[1..]);
      DecodeLowerHex(bytes[1..]);
      assert [bytes[0]] + bytes[1..] == bytes;
    }
  }

  /** The contract can be met for every input. */
  lemma BytesToHexSatisfiable(bytes: seq<uint8>, size: nat)
    requires size <= |bytes|
    ensures BytesToHexContract(bytes, size, LowerHex(bytes[..size]) + ['\0'])
  {
    var out := LowerHex(bytes[..size]) + ['\0'];
    assert out[..2 * size] == LowerHex(bytes[..size]);
    DecodeLowerHex(bytes[..size]);
  }

  /** Two different byte sequences never produce the same string. */
  lemma BytesToHexInjective(b1: seq<uint8>, b2: seq<uint8>, size: nat, out: seq<char>)
    requires size <= |b1| && size <= |b2|
    requires BytesToHexContract(b1, size, out) && BytesToHexContract(b2, size, out)
    ensures b1[..size] == b2[..size]
  {
  }

  /* ---------------------------------------------------------------------- */
  /* Round trips                                                            */
  /* ---------------------------------------------------------------------- */

  /** Converting bytes to hex and back into a large enough array restores
      them and reports their number. */
  lemma BytesHexBytes(bytes: seq<uint8>, size: nat, out: seq<char>,
                      before: seq<uint8>, wantLen: bool, after: seq<uint8>, convertLen: Option<nat>)
    requires size <= |bytes| && size <= |before|
    requires BytesToHexContract(bytes, size, out)
    requires HexToBytesContract(CString(out), before, wantLen, after, convertLen)
    ensures after[..size] == bytes[..size]
    ensures wantLen ==> convertLen == Some(size)
  {
    BytesToHexString(bytes, size, out);
    var text := CString(out);
    assert size > 0 ==> !HasHexPrefix(text) by {
      if size > 0 { assert IsHexDigit(text[1]); }
    }
    assert StripPrefix(text) == text;
    assert Documented(text, |before|);
  }

  /** Converting an even-length hex string (no "0x") to bytes and back gives
      the string again, up to letter case. */
  lemma HexBytesHex(hex: string, before: seq<uint8>, wantLen: bool,
                    after: seq<uint8>, convertLen: Option<nat>, size: nat, out: seq<char>)
    requires !HasHexPrefix(hex) && Documented(hex, |before|)
    requires HexToBytesContract(hex, before, wantLen, after, convertLen)
    requires 2 * size == |hex| && size <= |after|
    requires BytesToHexContract(after, size, out)
    ensures Lower(CString(out)) == Lower(hex)
  {
    BytesToHexString(after, size, out);
    var d := DecodeHex(hex).value;
    assert after[..size] == d;
    SameBytesSameText(hex, CString(out));
  }
}
