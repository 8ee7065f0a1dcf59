/** The worked input in the header comment of `test_code/tlv.cpp`: one container
    holding a text, a container with one text, and two more texts. The input is
    the comment's hex string cut at element boundaries. */
module TlvExample {
  import opened Tlv

  /** Each header is the tag with the top length byte, then the rest of the length. */
  const NestedHeadHex: string := "c00000"
  const LeafHeadHex: string := "000000"
  const OuterHeaderHex: string := NestedHeadHex + "00003f"
  const InnerHeaderHex: string := NestedHeadHex + "000010"
  const HelloHeaderHex: string := LeafHeadHex + "00000a"
  const TttHeaderHex: string := LeafHeadHex + "000003"
  const HelloHex: string := "68656c" + "6c6f"
  const SpaceWordHex: string := "20776f" + "7264"
  const HelloWordHex: string := HelloHex + SpaceWordHex
  const TttHex: string := "545454"

  const HelloElementHex: string := HelloHeaderHex + HelloWordHex
  const InnerElementHex: string := InnerHeaderHex + HelloElementHex
  const TttElementHex: string := TttHeaderHex + TttHex

  const WorkedInput: string :=
    OuterHeaderHex + HelloElementHex + InnerElementHex + HelloElementHex + TttElementHex

  const NestedHead: seq<Byte> := [0xc0, 0, 0]
  const LeafHead: seq<Byte> := [0, 0, 0]
  const OuterHeader: seq<Byte> := NestedHead + [0, 0, 0x3f]
  const InnerHeader: seq<Byte> := NestedHead + [0, 0, 0x10]
  const HelloHeader: seq<Byte> := LeafHead + [0, 0, 10]
  const TttHeader: seq<Byte> := LeafHead + [0, 0, 3]
  const Hello: seq<Byte> := [0x68, 0x65, 0x6c, 0x6c, 0x6f]
  const SpaceWord: seq<Byte> := [0x20, 0x77, 0x6f, 0x72, 0x64]
  const HelloWord: seq<Byte> := Hello + SpaceWord
  const Ttt: seq<Byte> := [0x54, 0x54, 0x54]

  const HelloElement: seq<Byte> := HelloHeader + HelloWord
  const InnerElement: seq<Byte> := InnerHeader + HelloElement
  const TttElement: seq<Byte> := TttHeader + Ttt

  /** The bytes of the worked input, cut as the hex text is. */
  const WorkedBytes: seq<Byte> :=
    OuterHeader + HelloElement + InnerElement + HelloElement + TttElement

  /** The elements the worked input encodes. */
  const HelloLeaf: Element := Leaf(0, HelloWord)
  const TttLeaf: Element := Leaf(0, Ttt)
  const Inner: Element := Nested(0xc000, [HelloLeaf])
  const Outer: Element := Nested(0xc000, [HelloLeaf, Inner, HelloLeaf, TttLeaf])

  /** Two pieces of hex text that convert to two runs of bytes convert, joined, to
      the joined bytes. */
  lemma JoinDecodes(a: string, b: string, x: seq<Byte>, y: seq<Byte>)
    requires IsHex(a) && |a| % 2 == 0 && HexToBytes(a) == x
    requires IsHex(b) && HexToBytes(b) == y
    ensures IsHex(a + b) && HexToBytes(a + b) == x + y
  {
    HexToBytesAppend(a, b);
  }

  lemma HeadsDecode()
    ensures IsHex(NestedHeadHex) && HexToBytes(NestedHeadHex) == NestedHead
    ensures IsHex(LeafHeadHex) && HexToBytes(LeafHeadHex) == LeafHead
  {
    HexToBytesEven(NestedHeadHex);
    HexToBytesEven(LeafHeadHex);
  }

  lemma OuterLengthDecodes()
    ensures IsHex("00003f") && HexToBytes("00003f") == [0, 0, 0x3f]
  {
    HexToBytesEven("00003f");
  }

  lemma InnerLengthDecodes()
    ensures IsHex("000010") && HexToBytes("000010") == [0, 0, 0x10]
  {
    HexToBytesEven("000010");
  }

  lemma HelloLengthDecodes()
    ensures IsHex("00000a") && HexToBytes("00000a") == [0, 0, 10]
  {
    HexToBytesEven("00000a");
  }

  lemma TttLengthDecodes()
    ensures IsHex("000003") && HexToBytes("000003") == [0, 0, 3]
  {
    HexToBytesEven("000003");
  }

  lemma HeadersDecode()
    ensures IsHex(OuterHeaderHex) && HexToBytes(OuterHeaderHex) == OuterHeader
    ensures IsHex(InnerHeaderHex) && HexToBytes(InnerHeaderHex) == InnerHeader
    ensures IsHex(HelloHeaderHex) && HexToBytes(HelloHeaderHex) == HelloHeader
    ensures IsHex(TttHeaderHex) && HexToBytes(TttHeaderHex) == TttHeader
  {
    HeadsDecode();
    OuterLengthDecodes();
    InnerLengthDecodes();
    HelloLengthDecodes();
    TttLengthDecodes();
    JoinDecodes(NestedHeadHex, "00003f", NestedHead, [0, 0, 0x3f]);
    JoinDecodes(NestedHeadHex, "000010", NestedHead, [0, 0, 0x10]);
    JoinDecodes(LeafHeadHex, "00000a", LeafHead, [0, 0, 10]);
    JoinDecodes(LeafHeadHex, "000003", LeafHead, [0, 0, 3]);
  }

  lemma HelloDecodes()
    ensures IsHex(HelloHex) && HexToBytes(HelloHex) == Hello
  {
    HexToBytesEven("68656c");
    HexToBytesEven("6c6f");
    JoinDecodes("68656c", "6c6f", [0x68, 0x65, 0x6c], [0x6c, 0x6f]);
  }

  lemma SpaceWordDecodes()
    ensures IsHex(SpaceWordHex) && HexToBytes(SpaceWordHex) == SpaceWord
  {
    HexToBytesEven("20776f");
    HexToBytesEven("7264");
    JoinDecodes("20776f", "7264", [0x20, 0x77, 0x6f], [0x72, 0x64]);
  }

  lemma TextsDecode()
    ensures IsHex(HelloWordHex) && HexToBytes(HelloWordHex) == HelloWord
    ensures IsHex(TttHex) && HexToBytes(TttHex) == Ttt
  {
    HelloDecodes();
    SpaceWordDecodes();
    JoinDecodes(HelloHex, SpaceWordHex, Hello, SpaceWord);
    HexToBytesEven(TttHex);
  }

  lemma ElementsDecode()
    ensures IsHex(HelloElementHex) && HexToBytes(HelloElementHex) == HelloElement
    ensures IsHex(InnerElementHex) && HexToBytes(InnerElementHex) == InnerElement
    ensures IsHex(TttElementHex) && HexToBytes(TttElementHex) == TttElement
  {
    HeadersDecode();
    TextsDecode();
    JoinDecodes(HelloHeaderHex, HelloWordHex, HelloHeader, HelloWord);
    JoinDecodes(InnerHeaderHex, HelloElementHex, InnerHeader, HelloElement);
    JoinDecodes(TttHeaderHex, TttHex, TttHeader, Ttt);
  }

  lemma InputDecodes()
    ensures IsHex(WorkedInput) && HexToBytes(WorkedInput) == WorkedBytes
  {
    HeadersDecode();
    ElementsDecode();
    var x1 := OuterHeaderHex + HelloElementHex;
    JoinDecodes(OuterHeaderHex, HelloElementHex, OuterHeader, HelloElement);
    var x2 := x1 + InnerElementHex;
    JoinDecodes(x1, InnerElementHex, OuterHeader + HelloElement, InnerElement);
    var x3 := x2 + HelloElementHex;
    JoinDecodes(x2, HelloElementHex, OuterHeader + HelloElement + InnerElement, HelloElement);
    JoinDecodes(x3, TttElementHex, OuterHeader + HelloElement + InnerElement + HelloElement, TttElement);
  }

  lemma FlattenCons(es: seq<Element>, level: nat)
    requires es != []
    ensures FlattenSeq(es, level) == Flatten(es[0], level) + FlattenSeq(es[1..], level)
  {
  }

  lemma EncodeCons(es: seq<Element>)
    requires es != []
    ensures EncodeSeq(es) == Encode(es[0]) + EncodeSeq(es[1..])
  {
  }

  lemma LeavesEncode()
    ensures Encode(HelloLeaf) == HelloElement
    ensures Encode(TttLeaf) == TttElement
    ensures Encode(Inner) == InnerElement
  {
    assert Be16(0) + Be32(10) == HelloHeader;
    assert Be16(0) + Be32(3) == TttHeader;
    EncodeCons([HelloLeaf]);
    assert [HelloLeaf][1..] == [];
    assert EncodeSeq([HelloLeaf]) == HelloElement + [];
    assert Be16(0xc000) + Be32(16) == InnerHeader;
    assert Encode(Inner) == InnerHeader + EncodeSeq([HelloLeaf]);
  }

  lemma ChildrenEncode()
    ensures EncodeSeq(Outer.children) == HelloElement + InnerElement + HelloElement + TttElement
  {
    LeavesEncode();
    var c3 := [TttLeaf];
    var c2 := [HelloLeaf, TttLeaf];
    var c1 := [Inner, HelloLeaf, TttLeaf];
    var cs := Outer.children;
    assert c3[1..] == [] && c2[1..] == c3 && c1[1..] == c2 && cs[1..] == c1;
    EncodeCons(c3);
    EncodeCons(c2);
    EncodeCons(c1);
    EncodeCons(cs);
    assert EncodeSeq(cs) == HelloElement + (InnerElement + (HelloElement + (TttElement + [])));
  }

  lemma InnerValid()
    ensures Valid(HelloLeaf) && Valid(TttLeaf) && Valid(Inner)
  {
    assert ValidSeq([HelloLeaf]);
    LeavesEncode();
    assert |EncodeSeq(Inner.children)| == 16;
  }

  lemma OuterValid()
    ensures Valid(Outer)
  {
    ChildrenEncode();
    InnerValid();
    var cs := Outer.children;
    assert cs[0] == HelloLeaf && cs[1] == Inner && cs[2] == HelloLeaf && cs[3] == TttLeaf;
    assert ValidSeq(cs);
    assert |EncodeSeq(cs)| == 63;
  }

  lemma WorkedEncoding()
    ensures EncodeSeq([Outer]) == WorkedBytes
    ensures ValidSeq([Outer])
  {
    ChildrenEncode();
    assert Be16(0xc000) + Be32(63) == OuterHeader;
    assert Encode(Outer) == OuterHeader + EncodeSeq(Outer.children);
    EncodeCons([Outer]);
    assert [Outer][1..] == [];
    assert EncodeSeq([Outer]) == Encode(Outer) + [];
    OuterValid();
  }

  lemma ToTextAppend(a: seq<Byte>, b: seq<Byte>)
    ensures ToText(a + b) == ToText(a) + ToText(b)
  {
    var t := ToText(a + b);
    forall i | 0 <= i < |a + b| ensures t[i] == (ToText(a) + ToText(b))[i] {
      if i < |a| { assert (a + b)[i] == a[i]; } else { assert (a + b)[i] == b[i - |a|]; }
    }
  }

  lemma TextsPrinted()
    ensures ToText(HelloWord) == "hello word" && ToText(Ttt) == "TTT"
  {
    ToTextOfCodes(Hello, "hello");
    ToTextOfCodes(SpaceWord, " word");
    ToTextAppend(Hello, SpaceWord);
    assert "hello" + " word" == "hello word";
    ToTextOfCodes(Ttt, "TTT");
  }

  lemma LeafLines(level: nat)
    ensures Flatten(HelloLeaf, level) == [Output(level, ToText(HelloWord))]
    ensures Flatten(TttLeaf, level) == [Output(level, ToText(Ttt))]
    ensures Flatten(Inner, level) == [Output(level + 1, ToText(HelloWord))]
  {
    assert Flatten(Inner, level) == FlattenSeq([HelloLeaf], level + 1);
    assert [HelloLeaf][1..] == [];
    FlattenCons([HelloLeaf], level + 1);
  }

  lemma FlattenOne(e: Element, level: nat)
    ensures FlattenSeq([e], level) == Flatten(e, level)
  {
    assert [e][1..] == [];
  }

  lemma FlattenFour(a: Element, b: Element, c: Element, d: Element, level: nat)
    ensures FlattenSeq([a, b, c, d], level)
         == Flatten(a, level) + (Flatten(b, level) + (Flatten(c, level) + Flatten(d, level)))
  {
    FlattenOne(d, level);
    assert [c, d][1..] == [d];
    FlattenCons([c, d], level);
    assert [b, c, d][1..] == [c, d];
    FlattenCons([b, c, d], level);
    assert [a, b, c, d][1..] == [b, c, d];
    FlattenCons([a, b, c, d], level);
  }

  lemma FourLines(h: Element, i: Element, t: Element, hello: string, ttt: string)
    requires Flatten(h, 1) == [Output(1, hello)]
    requires Flatten(i, 1) == [Output(2, hello)]
    requires Flatten(t, 1) == [Output(1, ttt)]
    ensures FlattenSeq([h, i, h, t], 1) == [Output(1, hello), Output(2, hello), Output(1, hello), Output(1, ttt)]
  {
    FlattenFour(h, i, h, t, 1);
  }

  lemma ChildLines()
    ensures var hello, ttt := ToText(HelloWord), ToText(Ttt);
      FlattenSeq(Outer.children, 1) == [Output(1, hello), Output(2, hello), Output(1, hello), Output(1, ttt)]
  {
    LeafLines(1);
    FourLines(HelloLeaf, Inner, TttLeaf, ToText(HelloWord), ToText(Ttt));
  }

  lemma WorkedLines()
    ensures FlattenSeq([Outer], 0)
         == [Output(1, "hello word"), Output(2, "hello word"), Output(1, "hello word"), Output(1, "TTT")]
  {
    TextsPrinted();
    ChildLines();
    assert Flatten(Outer, 0) == FlattenSeq(Outer.children, 1);
    FlattenCons([Outer], 0);
    assert [Outer][1..] == [];
    assert FlattenSeq([Outer], 0) == Flatten(Outer, 0) + [];
  }

  /** The output the header comment of the source shows for its input. */
  lemma WorkedExample()
    ensures IsHex(WorkedInput)
    ensures var bytes := HexToBytes(WorkedInput);
      ParseTlv(bytes, |bytes|, 0)
      == [Output(1, "hello word"), Output(2, "hello word"), Output(1, "hello word"), Output(1, "TTT")]
  {
    InputDecodes();
    WorkedEncoding();
    DecodeEncoded([Outer], 0);
    WorkedLines();
  }
}
