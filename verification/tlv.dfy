/** The nested TLV decoder of `test_code/tlv.cpp`: a hex string becomes bytes, and
    the bytes are read as a run of elements, each a 2-byte big-endian type, a 4-byte
    big-endian length and that many bytes of value. A type with its top bit set
    holds further elements one level deeper; any other type holds text, which is
    written out with its level. */
module Tlv {

  /** `uint8_t`. */
  type Byte = x: int | 0 <= x < 0x100

  const HeaderSize: nat := 6
  const NestedBit: nat := 0x8000

  predicate IsHexDigit(c: char) {
    '0' <= c <= '9' || 'a' <= c <= 'f' || 'A' <= c <= 'F'
  }

  predicate IsHex(s: string) {
    forall k :: 0 <= k < |s| ==> IsHexDigit(s[k])
  }

  /** The value base-16 `stoi` gives a single digit, in either case. */
  function HexValue(c: char): (v: nat)
    requires IsHexDigit(c)
    ensures v < 16
    ensures '0' <= c <= '9' ==> v == c as int - '0' as int
  {
    if '0' <= c <= '9' then c as int - '0' as int
    else if 'a' <= c <= 'f' then c as int - 'a' as int + 10
    else c as int - 'A' as int + 10
  }

  /** The lower-case digit for a value below 16. */
  function HexDigit(v: nat): (c: char)
    requires v < 16
    ensures IsHexDigit(c)
  {
    if v < 10 then ('0' as int + v) as char else ('a' as int + v - 10) as char
  }

  lemma HexDigitValue(v: nat)
    requires v < 16
    ensures HexValue(HexDigit(v)) == v
  {
  }

  /** `hexToBytes`: every two characters make one byte, high digit first, and a lone
      last character makes a byte of its own. Non-hex input, on which `stoi` throws
      or stops early, is excluded. */
  function HexToBytes(s: string): (r: seq<Byte>)
    requires IsHex(s)
    ensures |r| == (|s| + 1) / 2
    decreases |s|
  {
    if |s| == 0 then []
    else if |s| == 1 then [HexValue(s[0])]
    else [16 * HexValue(s[0]) + HexValue(s[1])] + HexToBytes(s[2..])
  }

  /** Byte `i` is the value of characters `2i` and `2i+1`, or of the last character
      alone when it has no partner. */
  lemma {:induction false} HexToBytesAt(s: string, i: nat)
    requires IsHex(s) && 2 * i < |s|
    ensures 2 * i + 1 < |s| ==> HexToBytes(s)[i] == 16 * HexValue(s[2 * i]) + HexValue(s[2 * i + 1])
    ensures 2 * i + 1 == |s| ==> HexToBytes(s)[i] == HexValue(s[2 * i])
    decreases i
  {
    if i > 0 {
      var t := s[2..];
      HexToBytesAt(t, i - 1);
      assert t[2 * (i - 1)] == s[2 * i];
      if 2 * i + 1 < |s| {
        assert t[2 * (i - 1) + 1] == s[2 * i + 1];
      }
    }
  }

  /** The whole of an even-length conversion, byte by byte. */
  lemma HexToBytesEven(s: string)
    requires IsHex(s) && |s| % 2 == 0
    ensures |HexToBytes(s)| == |s| / 2
    ensures forall i :: 0 <= i < |s| / 2 ==> HexToBytes(s)[i] == 16 * HexValue(s[2 * i]) + HexValue(s[2 * i + 1])
  {
    forall i | 0 <= i < |s| / 2
      ensures HexToBytes(s)[i] == 16 * HexValue(s[2 * i]) + HexValue(s[2 * i + 1])
    {
      HexToBytesAt(s, i);
    }
  }

  /** Two lower-case digits per byte. */
  function BytesToHex(bs: seq<Byte>): (s: string)
    ensures |s| == 2 * |bs| && IsHex(s)
  {
    if bs == [] then [] else [HexDigit(bs[0] / 16), HexDigit(bs[0] % 16)] + BytesToHex(bs[1..])
  }

  /** Reading back the hex text of any bytes gives the same bytes. */
  lemma {:induction false} HexRoundTrip(bs: seq<Byte>)
    ensures HexToBytes(BytesToHex(bs)) == bs
  {
    if bs != [] {
      var s := BytesToHex(bs);
      HexRoundTrip(bs[1..]);
      HexDigitValue(bs[0] / 16);
      HexDigitValue(bs[0] % 16);
      assert s[2..] == BytesToHex(bs[1..]);
    }
  }

  /** Even-length hex text converts piece by piece. */
  lemma {:induction false} HexToBytesAppend(a: string, b: string)
    requires IsHex(a) && IsHex(b) && |a| % 2 == 0
    ensures IsHex(a + b)
    ensures HexToBytes(a + b) == HexToBytes(a) + HexToBytes(b)
    decreases |a|
  {
    assert IsHex(a + b) by {
      forall k | 0 <= k < |a + b| ensures IsHexDigit((a + b)[k]) {
        if k < |a| { assert (a + b)[k] == a[k]; } else { assert (a + b)[k] == b[k - |a|]; }
      }
    }
    if a != [] {
      assert (a + b)[2..] == a[2..] + b;
      HexToBytesAppend(a[2..], b);
    } else {
      assert a + b == b;
    }
  }

  /** The type at the front of the unread bytes: two bytes, high byte first. */
  function Tag(bytes: seq<Byte>): (t: nat)
    requires |bytes| >= 2
    ensures t < 0x1_0000
  {
    bytes[0] as int * 0x100 + bytes[1] as int
  }

  /** The length after the type: four bytes, high byte first. */
  function Len(bytes: seq<Byte>): (l: nat)
    requires |bytes| >= HeaderSize
    ensures l < 0x1_0000_0000
  {
    bytes[2] as int * 0x100_0000 + bytes[3] as int * 0x1_0000 + bytes[4] as int * 0x100 + bytes[5] as int
  }

  /** The low 16 bits of `n`, high byte first. */
  function Be16(n: nat): (r: seq<Byte>)
    ensures |r| == 2
  {
    [(n / 0x100) % 0x100, n % 0x100]
  }

  /** The low 32 bits of `n`, high byte first. */
  function Be32(n: nat): (r: seq<Byte>)
    ensures |r| == 4
  {
    Be16((n / 0x1_0000) % 0x1_0000) + Be16(n % 0x1_0000)
  }

  /** A header written big-endian is read back as the type and length it holds, and
      the bytes after it are what followed it. */
  lemma HeaderRoundTrip(t: nat, l: nat, rest: seq<Byte>)
    requires t < 0x1_0000 && l < 0x1_0000_0000
    ensures Tag(Be16(t) + Be32(l) + rest) == t
    ensures Len(Be16(t) + Be32(l) + rest) == l
    ensures (Be16(t) + Be32(l) + rest)[HeaderSize..] == rest
  {
    var b := Be16(t) + Be32(l) + rest;
    var hi, lo := Be16(l / 0x1_0000), Be16(l % 0x1_0000);
    assert b[..2] == Be16(t) && b[2..4] == hi && b[4..6] == lo;
    Be16Value(t);
    Be16Value(l / 0x1_0000);
    Be16Value(l % 0x1_0000);
    assert Tag(b) == Tag(b[..2]);
    assert Len(b) == Tag(hi) * 0x1_0000 + Tag(lo);
  }

  /** Two bytes written big-endian read back as the value they hold. */
  lemma Be16Value(n: nat)
    requires n < 0x1_0000
    ensures Tag(Be16(n)) == n
  {
  }

  /** `(T & 0x8000) != 0`. */
  predicate IsNested(t: nat) {
    (t / NestedBit) % 2 == 1
  }

  /** For a 16-bit type the bit test is the upper half of the range. */
  lemma IsNestedRange(t: nat)
    requires t < 0x1_0000
    ensures IsNested(t) <==> t >= NestedBit
  {
  }

  /** One printed line: the level and the value's bytes as characters. */
  datatype Output = Output(level: nat, text: string)

  /** The `static_cast<char>` of each byte. */
  function ToText(v: seq<Byte>): (s: string)
    ensures |s| == |v|
    ensures forall i :: 0 <= i < |v| ==> s[i] as int == v[i]
  {
    if v == [] then [] else [v[0] as char] + ToText(v[1..])
  }

  /** The bytes of a text whose characters all fit in a byte. */
  function FromText(s: string): (v: seq<Byte>)
    requires forall i :: 0 <= i < |s| ==> s[i] as int < 0x100
    ensures |v| == |s|
    ensures forall i :: 0 <= i < |s| ==> v[i] == s[i] as int
  {
    if s == [] then [] else [s[0] as int] + FromText(s[1..])
  }

  /** Bytes holding the codes of a text's characters are printed as that text. */
  lemma ToTextOfCodes(v: seq<Byte>, s: string)
    requires |v| == |s| && forall i :: 0 <= i < |s| ==> v[i] == s[i] as int
    ensures ToText(v) == s
  {
    var t := ToText(v);
    forall i | 0 <= i < |s| ensures t[i] == s[i] {
      assert t[i] as int == s[i] as int;
    }
  }

  lemma TextRoundTrip(s: string)
    requires forall i :: 0 <= i < |s| ==> s[i] as int < 0x100
    ensures ToText(FromText(s)) == s
  {
  }

  /** `parseTLV(buffer, length, level)`: the lines printed for the elements within
      the first `length` bytes. Both calls in the source pass the size of the buffer
      they pass, so `length` never exceeds it; a `length` below the header size reads
      nothing. */
  function ParseTlv(buffer: seq<Byte>, length: int, level: nat): (r: seq<Output>)
    requires length <= |buffer|
    ensures length < HeaderSize ==> r == []
    ensures length >= 0 ==> r == ParseRun(buffer[..length], level)
    decreases |buffer|, 1
  {
    if length < 0 then [] else ParseRun(buffer[..length], level)
  }

  /** The `while` loop of `parseTLV`, on the bytes from `index` up to `length`;
      advancing `index` by `6 + L` is dropping the element just read. An element is
      read only when its whole header is there (`index + 5 < length`); one whose
      value would run past the end ends this level with nothing more printed;
      otherwise the value is parsed one level deeper or printed, and reading resumes
      right after it. */
  function ParseRun(bytes: seq<Byte>, level: nat): (r: seq<Output>)
    ensures |bytes| < HeaderSize ==> r == []
    ensures |bytes| >= HeaderSize && HeaderSize + Len(bytes) > |bytes| ==> r == []
    decreases |bytes|, 0
  {
    if |bytes| < HeaderSize then []
    else
      var l := Len(bytes);
      if HeaderSize + l > |bytes| then []
      else
        ReadValue(Tag(bytes), bytes[HeaderSize .. HeaderSize + l], level)
        + ParseRun(bytes[HeaderSize + l ..], level)
  }

  /** The lines for one element's value: parsed one level deeper when the type's top
      bit is set, printed as text at this level otherwise. */
  function ReadValue(t: nat, v: seq<Byte>, level: nat): (r: seq<Output>)
    ensures !IsNested(t) ==> r == [Output(level, ToText(v))]
    decreases |v|, 2
  {
    if IsNested(t) then ParseTlv(v, |v|, level + 1) else [Output(level, ToText(v))]
  }

  /** Every printed line is at the level of the call or deeper, and its text, with a
      header, fits in the bytes read. */
  lemma {:induction false} ParseRunBounds(bytes: seq<Byte>, level: nat)
    ensures var r := ParseRun(bytes, level);
      forall k :: 0 <= k < |r| ==> r[k].level >= level && |r[k].text| + HeaderSize <= |bytes|
    decreases |bytes|, 1
  {
    if |bytes| >= HeaderSize && HeaderSize + Len(bytes) <= |bytes| {
      var l := Len(bytes);
      var v := bytes[HeaderSize .. HeaderSize + l];
      var rest := bytes[HeaderSize + l ..];
      assert |v| == l && |rest| == |bytes| - HeaderSize - l;
      ParseRunBounds(rest, level);
      ReadValueBounds(Tag(bytes), v, level);
      assert ParseRun(bytes, level) == ReadValue(Tag(bytes), v, level) + ParseRun(rest, level);
      BoundsAppend(ReadValue(Tag(bytes), v, level), ParseRun(rest, level), level, l, |bytes|);
    }
  }

  lemma {:induction false} ReadValueBounds(t: nat, v: seq<Byte>, level: nat)
    ensures var r := ReadValue(t, v, level);
      forall k :: 0 <= k < |r| ==> r[k].level >= level && |r[k].text| <= |v|
    decreases |v|, 2
  {
    if IsNested(t) {
      assert v[..|v|] == v;
      assert ReadValue(t, v, level) == ParseRun(v, level + 1);
      ParseRunBounds(v, level + 1);
    } else {
      assert ReadValue(t, v, level) == [Output(level, ToText(v))];
    }
  }

  /** Levels and text lengths bounded in two runs of lines stay bounded in both. */
  lemma BoundsAppend(a: seq<Output>, b: seq<Output>, level: nat, m: nat, n: int)
    requires forall k :: 0 <= k < |a| ==> a[k].level >= level && |a[k].text| <= m
    requires forall k :: 0 <= k < |b| ==> b[k].level >= level && |b[k].text| + HeaderSize <= n - HeaderSize - m
    requires m + HeaderSize <= n
    ensures forall k :: 0 <= k < |a + b| ==> (a + b)[k].level >= level && |(a + b)[k].text| + HeaderSize <= n
  {
    forall k | 0 <= k < |a + b| ensures (a + b)[k].level >= level && |(a + b)[k].text| + HeaderSize <= n {
      if k < |a| { assert (a + b)[k] == a[k]; } else { assert (a + b)[k] == b[k - |a|]; }
    }
  }

  /** An element as the bytes describe it: a text value, or a list of elements. */
  datatype Element =
    | Leaf(tag: nat, value: seq<Byte>)
    | Nested(tag: nat, children: seq<Element>)

  /** An element's header and value. */
  function Encode(e: Element): (r: seq<Byte>)
    ensures |r| >= HeaderSize
    decreases e
  {
    match e
    case Leaf(t, v) => Be16(t) + Be32(|v|) + v
    case Nested(t, cs) => var p := EncodeSeq(cs); Be16(t) + Be32(|p|) + p
  }

  /** Elements written one after another. */
  function EncodeSeq(es: seq<Element>): (r: seq<Byte>)
    ensures es == [] <==> r == []
    decreases es
  {
    if es == [] then [] else Encode(es[0]) + EncodeSeq(es[1..])
  }

  /** The value an element's encoding carries after its header. */
  function Payload(e: Element): (p: seq<Byte>)
    ensures Encode(e) == Be16(e.tag) + Be32(|p|) + p
  {
    if e.Leaf? then e.value else EncodeSeq(e.children)
  }

  /** Types fit in 16 bits with the top bit telling the kind, and lengths fit in 32. */
  predicate Valid(e: Element)
    decreases e
  {
    match e
    case Leaf(t, v) => t < NestedBit && |v| < 0x1_0000_0000
    case Nested(t, cs) => NestedBit <= t < 0x1_0000 && ValidSeq(cs) && |EncodeSeq(cs)| < 0x1_0000_0000
  }

  predicate ValidSeq(es: seq<Element>)
    decreases es
  {
    forall k :: 0 <= k < |es| ==> Valid(es[k])
  }

  /** The lines a decoder is meant to print for elements starting at `level`: each
      text value in order, at the depth of the list holding it. */
  function Flatten(e: Element, level: nat): (r: seq<Output>)
    decreases e
  {
    match e
    case Leaf(_, v) => [Output(level, ToText(v))]
    case Nested(_, cs) => FlattenSeq(cs, level + 1)
  }

  function FlattenSeq(es: seq<Element>, level: nat): (r: seq<Output>)
    decreases es
  {
    if es == [] then [] else Flatten(es[0], level) + FlattenSeq(es[1..], level)
  }

  /** Reading one valid element at the front of some bytes: its own lines (its
      payload parsed one level deeper, or its text), then whatever follows it. */
  lemma ParseElement(e: Element, rest: seq<Byte>, level: nat)
    requires Valid(e)
    ensures |Payload(e)| < |Encode(e) + rest|
    ensures ParseRun(Encode(e) + rest, level)
         == (if e.Nested? then ParseRun(Payload(e), level + 1) else [Output(level, ToText(e.value))])
            + ParseRun(rest, level)
  {
    var p := Payload(e);
    var bytes := Encode(e) + rest;
    assert bytes == Be16(e.tag) + Be32(|p|) + (p + rest);
    HeaderRoundTrip(e.tag, |p|, p + rest);
    IsNestedRange(e.tag);
    assert bytes[HeaderSize .. HeaderSize + |p|] == p;
    assert bytes[HeaderSize + |p| ..] == rest;
    assert p[..|p|] == p;
  }

  /** The encoding of a non-empty list is its first element's then the rest's, and
      both the rest and a nested first element's children encode shorter. */
  lemma EncodeSeqSizes(es: seq<Element>)
    requires es != []
    ensures EncodeSeq(es) == Encode(es[0]) + EncodeSeq(es[1..])
    ensures |EncodeSeq(es[1..])| < |EncodeSeq(es)|
    ensures es[0].Nested? ==> |EncodeSeq(es[0].children)| < |EncodeSeq(es)|
  {
    if es[0].Nested? {
      assert Encode(es[0]) == Be16(es[0].tag) + Be32(|Payload(es[0])|) + Payload(es[0]);
    }
  }

  lemma ValidTail(es: seq<Element>)
    requires ValidSeq(es) && es != []
    ensures Valid(es[0]) && ValidSeq(es[1..])
  {
    forall k | 0 <= k < |es[1..]| ensures Valid(es[1..][k]) {
      assert es[1..][k] == es[k + 1];
    }
  }

  /** The decoder inverts the encoder: the lines printed for the bytes of any valid
      elements are their text values, each at its nesting depth, in order. */
  lemma {:induction false} ParseEncoded(es: seq<Element>, level: nat)
    requires ValidSeq(es)
    ensures ParseRun(EncodeSeq(es), level) == FlattenSeq(es, level)
    decreases |EncodeSeq(es)|
  {
    if es != [] {
      var e := es[0];
      EncodeSeqSizes(es);
      ValidTail(es);
      ParseElement(e, EncodeSeq(es[1..]), level);
      ParseEncoded(es[1..], level);
      if e.Nested? {
        ParseEncoded(e.children, level + 1);
      }
    }
  }

  /** `parseTLV` called as `main` calls it, on the encoding of valid elements. */
  lemma DecodeEncoded(es: seq<Element>, level: nat)
    requires ValidSeq(es)
    ensures ParseTlv(EncodeSeq(es), |EncodeSeq(es)|, level) == FlattenSeq(es, level)
  {
    var b := EncodeSeq(es);
    assert b[..|b|] == b;
    ParseEncoded(es, level);
  }
}
