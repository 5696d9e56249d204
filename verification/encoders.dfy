/**
 The two numeric encoders of the project saver: `createVersionCode`, which packs
 a dotted version string into one integer printed as hex, and
 `countMaxPluginChannels`, which reads the largest input or output channel count
 out of a channel-configuration string such as "{1,1},{2,2}".
 Arithmetic is on unbounded integers; the 32-bit `int` of the C++ code only
 shows in the printed hex, which is taken modulo 2^32 (see VersionCodeText).
 */
module Encoders {
  import opened JuceText
  import opened StringArray

  /** Separators of a version string. */
  const VersionBreaks := ",."

  /** Separators of a channel-configuration string. */
  const ChannelBreaks := ", {}"

  /** The `k`-th token read as an integer; a missing token is "" and reads as 0. */
  function Component(tokens: seq<string>, k: nat): int
  {
    IntValue(At(tokens, k))
  }

  /**
   The value createVersionCode computes: the first three components weighted
   2^16, 2^8 and 1, then shifted by another 8 bits with the fourth added when
   there are at least four tokens. Tokens after the fourth are ignored.
   */
  function VersionCode(version: string): (v: int)
    ensures var t := Tokenise(version, VersionBreaks);
            (forall k :: 0 <= k < 4 ==> 0 <= Component(t, k) < 0x100) ==> 0 <= v < 0x1_0000_0000
    ensures var t := Tokenise(version, VersionBreaks);
            |t| < 4 && (forall k :: 0 <= k < 3 ==> 0 <= Component(t, k) < 0x100) ==> 0 <= v < 0x100_0000
    ensures var t := Tokenise(version, VersionBreaks);
            (forall k :: 0 <= k < 4 ==> 0 <= Component(t, k) < 0x100) && Component(t, 0) < 0x80 ==> 0 <= v < 0x8000_0000
  {
    var t := Tokenise(version, VersionBreaks);
    var v := Component(t, 0) * 0x10000 + Component(t, 1) * 0x100 + Component(t, 2);
    if |t| >= 4 then v * 0x100 + Component(t, 3) else v
  }

  /**
   "0x" followed by String::toHexString of a 32-bit int, which prints the value's
   unsigned bit pattern in lower-case hex: reading the digits back gives the value
   modulo 2^32, and there is no leading zero.
   */
  function HexLiteral(value: int): (text: string)
    ensures |text| > 2 && text[..2] == "0x"
    ensures forall k :: 2 <= k < |text| ==> IsHexChar(text[k])
    ensures HexValue(text[2..]) == value % 0x1_0000_0000
    ensures text[2] == '0' ==> value % 0x1_0000_0000 == 0
  {
    var code := value % 0x1_0000_0000;
    HexRoundTrip(code);
    var text := "0x" + ToHex(code);
    assert text[2..] == ToHex(code);
    text
  }

  /** createVersionCode: the version code as a hex literal. */
  function VersionCodeText(version: string): (text: string)
    ensures |text| > 2 && text[..2] == "0x"
    ensures forall k :: 2 <= k < |text| ==> IsHexChar(text[k])
    ensures HexValue(text[2..]) == VersionCode(version) % 0x1_0000_0000
  {
    HexLiteral(VersionCode(version))
  }

  /** Dotted decimal text of `parts`: [1, 2, 3] gives "1.2.3". */
  function JoinDots(parts: seq<nat>): string
    requires |parts| > 0
  {
    if |parts| == 1 then NatToString(parts[0]) else NatToString(parts[0]) + "." + JoinDots(parts[1..])
  }

  /** Decimal text of every element of `parts`. */
  function DecimalTexts(parts: seq<nat>): seq<string>
  {
    seq(|parts|, k requires 0 <= k < |parts| => NatToString(parts[k]))
  }

  lemma {:induction false} DigitsHaveNoBreaks(n: nat, breaks: string)
    requires forall k :: 0 <= k < |breaks| ==> !IsDigit(breaks[k])
    ensures NoBreaks(NatToString(n), breaks)
  {
    var s := NatToString(n);
    forall k | 0 <= k < |s| ensures s[k] !in breaks {
      assert IsDigit(s[k]);
    }
  }

  lemma {:induction false} SplitJoinDots(parts: seq<nat>)
    requires |parts| > 0
    ensures Split(JoinDots(parts), VersionBreaks) == DecimalTexts(parts)
  {
    var x := NatToString(parts[0]);
    DigitsHaveNoBreaks(parts[0], VersionBreaks);
    SplitNoBreaks(x, VersionBreaks);
    if |parts| > 1 {
      SplitJoinDots(parts[1..]);
      assert JoinDots(parts) == x + (['.'] + JoinDots(parts[1..]));
      SplitAtBreak(x, '.', JoinDots(parts[1..]), VersionBreaks);
      assert DecimalTexts(parts) == [x] + DecimalTexts(parts[1..]);
    }
  }

  /** Decimal text has no surrounding whitespace, so trimming leaves it alone. */
  lemma {:induction false} TrimDecimal(n: nat)
    ensures Trim(NatToString(n)) == NatToString(n)
  {
    var s := NatToString(n);
    assert IsDigit(s[0]) && IsDigit(s[|s| - 1]);
  }

  /** Tokenising dotted decimal text gives back the decimal text of each part. */
  lemma {:induction false} TokeniseJoinDots(parts: seq<nat>)
    requires |parts| > 0
    ensures Tokenise(JoinDots(parts), VersionBreaks) == DecimalTexts(parts)
  {
    SplitJoinDots(parts);
    var texts := DecimalTexts(parts);
    var raw := AddTokens(JoinDots(parts), VersionBreaks);
    assert raw == texts;
    var trimmed := TrimAll(raw);
    assert |trimmed| == |texts|;
    forall k | 0 <= k < |texts| ensures trimmed[k] == texts[k] && texts[k] != "" {
      TrimDecimal(parts[k]);
    }
    assert trimmed == texts;
    RemoveEmptyStringsKeepsNonEmpty(texts);
  }

  /** The `k`-th part, or 0 when there is none. */
  function PartOrZero(parts: seq<nat>, k: nat): nat
  {
    if k < |parts| then parts[k] else 0
  }

  /**
   The version code of "a.b.c.d...": missing parts count as 0, three or fewer
   parts give a·2^16 + b·2^8 + c, four or more give (a·2^16 + b·2^8 + c)·2^8 + d
   and the parts after the fourth do not matter.
   */
  lemma {:induction false} VersionCodeOfDotted(parts: seq<nat>)
    requires |parts| > 0
    ensures |parts| < 4 ==>
      VersionCode(JoinDots(parts)) == PartOrZero(parts, 0) * 0x10000 + PartOrZero(parts, 1) * 0x100 + PartOrZero(parts, 2)
    ensures |parts| >= 4 ==>
      VersionCode(JoinDots(parts)) == (parts[0] * 0x10000 + parts[1] * 0x100 + parts[2]) * 0x100 + parts[3]
  {
    var t := Tokenise(JoinDots(parts), VersionBreaks);
    TokeniseJoinDots(parts);
    forall k: nat | k < 4 ensures Component(t, k) == PartOrZero(parts, k) {
      if k < |parts| {
        IntValueOfDecimal(parts[k]);
      }
    }
  }

  /** The hex digits of 0x10203 and 0x1020304, one digit at a time. */
  lemma {:induction false} ToHexExamples()
    ensures ToHex(0x10203) == "10203"
    ensures ToHex(0x1020304) == "1020304"
  {
    assert ToHex(0x1) == "1";
    assert ToHex(0x10) == "10";
    assert ToHex(0x102) == "102";
    assert ToHex(0x1020) == "1020";
    assert ToHex(0x10203) == "10203";
    assert ToHex(0x102030) == "102030";
  }

  /** The hex literals of 0x10203 and 0x1020304. */
  lemma {:induction false} HexLiteralExamples()
    ensures HexLiteral(0x10203) == "0x10203"
    ensures HexLiteral(0x1020304) == "0x1020304"
  {
    ToHexExamples();
    assert 0x10203 % 0x1_0000_0000 == 0x10203;
    assert 0x1020304 % 0x1_0000_0000 == 0x1020304;
  }

  /** The first worked example: "1.2.3" gives 0x10203. */
  lemma {:induction false} VersionCodeThreePartExample()
    ensures VersionCodeText("1.2.3") == "0x10203"
  {
    assert JoinDots([1, 2, 3]) == "1.2.3";
    VersionCodeOfDotted([1, 2, 3]);
    HexLiteralExamples();
  }

  /** A four-part version whose first part is 128 or more exceeds the largest signed 32-bit int. */
  lemma {:induction false} VersionCodePastIntMax()
    ensures VersionCode("128.0.0.0") == 0x8000_0000
    ensures VersionCode("128.0.0.0") > 0x7fff_ffff
  {
    assert JoinDots([128, 0, 0, 0]) == "128.0.0.0";
    VersionCodeOfDotted([128, 0, 0, 0]);
  }

  /** The second worked example: "1.2.3.4" gives 0x1020304. */
  lemma {:induction false} VersionCodeFourPartExample()
    ensures VersionCodeText("1.2.3.4") == "0x1020304"
  {
    assert JoinDots([1, 2, 3, 4]) == "1.2.3.4";
    VersionCodeOfDotted([1, 2, 3, 4]);
    HexLiteralExamples();
  }

  /** The tokens of a channel-configuration string. */
  function ChannelTokens(config: string): seq<string>
  {
    Tokenise(config, ChannelBreaks)
  }

  /**
   The debug check of countMaxPluginChannels: the tokens come in (input, output)
   pairs. It has no effect on the result.
   */
  predicate ChannelConfigsPaired(config: string)
  {
    |ChannelTokens(config)| % 2 == 0
  }

  /** A well-formed "{a,b},{c,d},…" configuration passes the debug check: its tokens pair up. */
  lemma {:induction false} PairsTextIsPaired(pairs: seq<(nat, nat)>)
    requires |pairs| > 0
    ensures ChannelConfigsPaired(PairsText(pairs))
  {
    ChannelValuesOfPairs(pairs);
    PairNumbersLength(pairs);
  }

  lemma {:induction false} PairNumbersLength(pairs: seq<(nat, nat)>)
    ensures |PairNumbers(pairs)| == 2 * |pairs|
  {
    if |pairs| > 0 {
      PairNumbersLength(pairs[1..]);
    }
  }

  /** The tokens of a channel-configuration string read as integers. */
  function ChannelValues(config: string): (values: seq<int>)
    ensures |values| == |ChannelTokens(config)|
  {
    var t := ChannelTokens(config);
    seq(|t|, k requires 0 <= k < |t| => IntValue(t[k]))
  }

  /**
   The loop of countMaxPluginChannels from index `i` on, stepping by two, with
   running maximum `acc`: the result is at least `acc` and every visited value,
   and is `acc` or one of the visited values.
   */
  function MaxEveryOther(values: seq<int>, i: nat, acc: int): (r: int)
    ensures r >= acc
    ensures forall k :: i <= k < |values| && k % 2 == i % 2 ==> values[k] <= r
    ensures r == acc || exists k :: i <= k < |values| && k % 2 == i % 2 && r == values[k]
    decreases |values| - i
  {
    if i >= |values| then acc
    else MaxEveryOther(values, i + 2, if acc < values[i] then values[i] else acc)
  }

  /**
   countMaxPluginChannels: the largest value among the even-indexed tokens (inputs)
   or the odd-indexed ones (outputs), never below 0.
   */
  function MaxPluginChannels(config: string, isInput: bool): (r: int)
    ensures r >= 0
    ensures forall k :: 0 <= k < |ChannelValues(config)| && k % 2 == (if isInput then 0 else 1) ==>
              ChannelValues(config)[k] <= r
    ensures r == 0 || exists k :: 0 <= k < |ChannelValues(config)| && k % 2 == (if isInput then 0 else 1)
                                  && r == ChannelValues(config)[k]
  {
    MaxAtParity(ChannelValues(config), if isInput then 0 else 1)
  }

  /** The loop of countMaxPluginChannels started at index `parity` (0 or 1) with maximum 0. */
  function MaxAtParity(values: seq<int>, parity: nat): (r: int)
    requires parity < 2
    ensures r >= 0
    ensures forall k :: 0 <= k < |values| && k % 2 == parity ==> values[k] <= r
    ensures r == 0 || exists k :: 0 <= k < |values| && k % 2 == parity && r == values[k]
  {
    assert parity % 2 == parity;
    MaxEveryOther(values, parity, 0)
  }

  /** Channel-configuration text of (inputs, outputs) pairs: [(1, 2), (3, 4)] gives "{1,2},{3,4}". */
  function PairsText(pairs: seq<(nat, nat)>): string
    requires |pairs| > 0
  {
    var head := "{" + NatToString(pairs[0].0) + "," + NatToString(pairs[0].1) + "}";
    if |pairs| == 1 then head else head + "," + PairsText(pairs[1..])
  }

  /** What addTokens cuts such text into: the two numbers of each pair between empty pieces. */
  function PairPieces(pairs: seq<(nat, nat)>): seq<string>
    requires |pairs| > 0
  {
    var head := ["", NatToString(pairs[0].0), NatToString(pairs[0].1), ""];
    if |pairs| == 1 then head else head + PairPieces(pairs[1..])
  }

  /** The numbers of the pairs, inputs and outputs alternating. */
  function PairNumbers(pairs: seq<(nat, nat)>): seq<nat>
  {
    if |pairs| == 0 then [] else [pairs[0].0, pairs[0].1] + PairNumbers(pairs[1..])
  }

  lemma {:induction false} ConcatRight(a: string, b: string, c: string, d: string, e: string, f: string)
    ensures a + b + c + d + e + f == a + (b + (c + (d + (e + f))))
  {
  }

  /** Text without break characters followed by a break is one piece of its own. */
  lemma {:induction false} PieceThenBreak(x: string, c: char, rest: string)
    requires NoBreaks(x, ChannelBreaks) && c in ChannelBreaks
    ensures Split(x + ([c] + rest), ChannelBreaks) == [x] + Split(rest, ChannelBreaks)
  {
    SplitNoBreaks(x, ChannelBreaks);
    SplitAtBreak(x, c, rest, ChannelBreaks);
  }

  /** "{x,y}" in front of `tail`, for x and y without break characters, splits into "", x, y and the pieces of `tail`. */
  lemma {:induction false} SplitBraced(x: string, y: string, tail: string)
    requires NoBreaks(x, ChannelBreaks) && NoBreaks(y, ChannelBreaks)
    ensures Split("{" + x + "," + y + "}" + tail, ChannelBreaks) == ["", x, y] + Split(tail, ChannelBreaks)
  {
    var afterY := ['}'] + tail;
    var afterX := [','] + (y + afterY);
    ConcatRight("{", x, ",", y, "}", tail);
    SplitCons('{', x + afterX, ChannelBreaks);
    PieceThenBreak(x, ',', y + afterY);
    PieceThenBreak(y, '}', tail);
    var rest := Split(tail, ChannelBreaks);
    assert [""] + ([x] + ([y] + rest)) == ["", x, y] + rest;
  }

  /** One braced pair in front of `tail` splits into an empty piece and the two numbers. */
  lemma {:induction false} SplitPairHead(a: nat, b: nat, tail: string)
    ensures Split("{" + NatToString(a) + "," + NatToString(b) + "}" + tail, ChannelBreaks)
         == ["", NatToString(a), NatToString(b)] + Split(tail, ChannelBreaks)
  {
    DigitsHaveNoBreaks(a, ChannelBreaks);
    DigitsHaveNoBreaks(b, ChannelBreaks);
    SplitBraced(NatToString(a), NatToString(b), tail);
  }

  /** A leading comma contributes one empty piece. */
  lemma {:induction false} SplitLeadingComma(rest: string)
    ensures Split("," + rest, ChannelBreaks) == [""] + Split(rest, ChannelBreaks)
  {
    assert ("," + rest)[1..] == rest;
  }

  /** A braced pair, a comma, then more text: the pair's pieces come first. */
  lemma {:induction false} SplitPairThenMore(a: nat, b: nat, rest: string)
    ensures Split("{" + NatToString(a) + "," + NatToString(b) + "}" + ("," + rest), ChannelBreaks)
         == ["", NatToString(a), NatToString(b), ""] + Split(rest, ChannelBreaks)
  {
    SplitLeadingComma(rest);
    SplitPairHead(a, b, "," + rest);
  }

  lemma {:induction false} SplitPairs(pairs: seq<(nat, nat)>)
    requires |pairs| > 0
    ensures Split(PairsText(pairs), ChannelBreaks) == PairPieces(pairs)
  {
    if |pairs| == 1 {
      SplitLastPair(pairs);
    } else {
      SplitPairs(pairs[1..]);
      SplitPairsStep(pairs);
    }
  }

  lemma {:induction false} SplitLastPair(pairs: seq<(nat, nat)>)
    requires |pairs| == 1
    ensures Split(PairsText(pairs), ChannelBreaks) == PairPieces(pairs)
  {
    var head := "{" + NatToString(pairs[0].0) + "," + NatToString(pairs[0].1) + "}";
    SplitPairHead(pairs[0].0, pairs[0].1, "");
    assert head + "" == head;
    assert Split("", ChannelBreaks) == [""];
  }

  lemma {:induction false} SplitPairsStep(pairs: seq<(nat, nat)>)
    requires |pairs| > 1
    requires Split(PairsText(pairs[1..]), ChannelBreaks) == PairPieces(pairs[1..])
    ensures Split(PairsText(pairs), ChannelBreaks) == PairPieces(pairs)
  {
    var head := "{" + NatToString(pairs[0].0) + "," + NatToString(pairs[0].1) + "}";
    SplitPairThenMore(pairs[0].0, pairs[0].1, PairsText(pairs[1..]));
    assert PairsText(pairs) == head + ("," + PairsText(pairs[1..]));
  }

  /** Every piece is empty or decimal text, so trimming changes none of them. */
  lemma {:induction false} PairPiecesTrimmed(pairs: seq<(nat, nat)>)
    requires |pairs| > 0
    ensures TrimAll(PairPieces(pairs)) == PairPieces(pairs)
  {
    var pieces := PairPieces(pairs);
    if |pairs| > 1 {
      PairPiecesTrimmed(pairs[1..]);
    }
    forall k | 0 <= k < |pieces| ensures Trim(pieces[k]) == pieces[k] {
      if k >= 4 {
        assert pieces[k] == PairPieces(pairs[1..])[k - 4];
        assert TrimAll(PairPieces(pairs[1..]))[k - 4] == pieces[k];
      } else if k == 1 {
        TrimDecimal(pairs[0].0);
      } else if k == 2 {
        TrimDecimal(pairs[0].1);
      }
    }
  }

  /** The pieces of one pair lose their two empty strings. */
  lemma {:induction false} RemoveEmptyAroundPair(a: string, b: string)
    requires a != "" && b != ""
    ensures RemoveEmptyStrings(["", a, b, ""]) == [a, b]
  {
    assert [""][1..] == [];
    assert RemoveEmptyStrings([""]) == [];
    assert [b, ""][1..] == [""];
    assert RemoveEmptyStrings([b, ""]) == [b];
    assert [a, b, ""][1..] == [b, ""];
    assert RemoveEmptyStrings([a, b, ""]) == [a, b];
    assert ["", a, b, ""][1..] == [a, b, ""];
  }

  lemma {:induction false} RemoveEmptyPairPieces(pairs: seq<(nat, nat)>)
    requires |pairs| > 0
    ensures RemoveEmptyStrings(PairPieces(pairs)) == DecimalTexts(PairNumbers(pairs))
  {
    if |pairs| > 1 {
      RemoveEmptyPairPieces(pairs[1..]);
    }
    RemoveEmptyPairsStep(pairs);
  }

  /** The first pair contributes its two numbers, and the rest contributes what it does on its own. */
  lemma {:induction false} RemoveEmptyPairsStep(pairs: seq<(nat, nat)>)
    requires |pairs| > 0
    requires |pairs| > 1 ==> RemoveEmptyStrings(PairPieces(pairs[1..])) == DecimalTexts(PairNumbers(pairs[1..]))
    ensures RemoveEmptyStrings(PairPieces(pairs)) == DecimalTexts(PairNumbers(pairs))
  {
    var a := NatToString(pairs[0].0);
    var b := NatToString(pairs[0].1);
    var head := ["", a, b, ""];
    RemoveEmptyAroundPair(a, b);
    if |pairs| > 1 {
      RemoveEmptyStringsConcat(head, PairPieces(pairs[1..]));
      assert DecimalTexts(PairNumbers(pairs)) == [a, b] + DecimalTexts(PairNumbers(pairs[1..]));
    } else {
      assert DecimalTexts(PairNumbers(pairs)) == [a, b];
    }
  }

  /** getIntValue reads every decimal text back as its number. */
  lemma {:induction false} DecimalTextValues(numbers: seq<nat>)
    ensures forall k :: 0 <= k < |numbers| ==> IntValue(DecimalTexts(numbers)[k]) == numbers[k]
  {
    forall k | 0 <= k < |numbers| ensures IntValue(DecimalTexts(numbers)[k]) == numbers[k] {
      IntValueOfDecimal(numbers[k]);
    }
  }

  /** A channel-configuration list written out as "{a,b},{c,d},..." is read back as a, b, c, d, ... */
  lemma {:induction false} ChannelValuesOfPairs(pairs: seq<(nat, nat)>)
    requires |pairs| > 0
    ensures ChannelValues(PairsText(pairs)) == PairNumbers(pairs)
  {
    SplitPairs(pairs);
    PairPiecesTrimmed(pairs);
    RemoveEmptyPairPieces(pairs);
    DecimalTextValues(PairNumbers(pairs));
    assert |PairsText(pairs)| > 0;
    assert ChannelTokens(PairsText(pairs)) == DecimalTexts(PairNumbers(pairs));
  }

  /** The values of "{1,2},{3,4}", in order. */
  lemma {:induction false} ChannelExampleValues()
    ensures ChannelValues("{1,2},{3,4}") == [1, 2, 3, 4]
  {
    assert PairsText([(1, 2), (3, 4)]) == "{1,2},{3,4}";
    ChannelValuesOfPairs([(1, 2), (3, 4)]);
    assert PairNumbers([(1, 2), (3, 4)]) == [1, 2, 3, 4];
  }

  /** The largest input and output of the pairs (1, 2) and (3, 4). */
  lemma {:induction false} ExampleMaxima()
    ensures MaxAtParity([1, 2, 3, 4], 0) == 3
    ensures MaxAtParity([1, 2, 3, 4], 1) == 4
  {
    var v := [1, 2, 3, 4];
    assert MaxEveryOther(v, 4, 3) == 3 && MaxEveryOther(v, 5, 4) == 4;
    assert MaxEveryOther(v, 2, 1) == 3 && MaxEveryOther(v, 3, 2) == 4;
  }

  /** The worked example: "{1,2},{3,4}" allows at most 3 inputs and 4 outputs. */
  lemma {:induction false} ChannelExample()
    ensures MaxPluginChannels("{1,2},{3,4}", true) == 3
    ensures MaxPluginChannels("{1,2},{3,4}", false) == 4
  {
    ChannelExampleValues();
    ExampleMaxima();
  }
}
