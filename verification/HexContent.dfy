/** Rule contents: literal text with hexadecimal passages between pipes. */
module HexContent {
  import opened Bytes
  import opened Common

  const PIPE: byte := 124  // |
  const SPACE: byte := 32

  // ---- Hexadecimal ----

  function Digit(c: byte): Option<byte> {
    if 48 <= c <= 57 then Some(c - 48)
    else if 65 <= c <= 70 then Some(c - 55)
    else if 97 <= c <= 102 then Some(c - 87)
    else None
  }

  function WithoutSpaces(s: Bytes): Bytes {
    if s == [] then [] else
      var n := |s| - 1;
      if s[n] == SPACE then WithoutSpaces(s[..n]) else WithoutSpaces(s[..n]) + [s[n]]
  }

  /** Pairs of digits, of either case. */
  function Decode(s: Bytes): Option<Bytes> {
    if s == [] then Some([])
    else if |s| == 1 then None
    else
      var n := |s| - 2;
      match (Decode(s[..n]), Digit(s[n]), Digit(s[n + 1]))
      case (Some(r), Some(hi), Some(lo)) => Some(r + [16 * hi + lo])
      case _ => None
  }

  // ---- The parser's states ----

  datatype Parse = Reading(result: Bytes, inHex: bool, hex: Bytes) | Bad

  const START := Reading([], false, [])

  function Step(st: Parse, c: byte): Parse {
    if st.Bad? then Bad
    else if c == PIPE then
      if st.inHex then
        match Decode(WithoutSpaces(st.hex))
        case Some(bytes) => Reading(st.result + bytes, false, [])
        case None => Bad
      else Reading(st.result, true, st.hex)
    else if st.inHex then Reading(st.result, true, st.hex + [c])
    else Reading(st.result + [c], false, st.hex)
  }

  function From(st: Parse, s: Bytes): Parse {
    if s == [] then st else Step(From(st, s[..|s| - 1]), s[|s| - 1])
  }

  function Answer(st: Parse): Option<Bytes> {
    if st.Bad? then None else Some(st.result)
  }

  /** The bytes a content stands for. An unfinished hexadecimal passage at the end is dropped. */
  function Meaning(content: Bytes): Option<Bytes> {
    Answer(From(START, content))
  }

  /** The library decoder. */
  method DecodeString(s: Bytes) returns (r: Option<Bytes>)
    ensures r == Decode(WithoutSpaces(s))
  {
    r := Decode(WithoutSpaces(s));
  }

  method ParseHexContent(content: Bytes) returns (r: Option<Bytes>)
    ensures r == Meaning(content)
  {
    var result: Bytes := [];
    var inHex := false;
    var currentHex: Bytes := [];
    for i := 0 to |content|
      invariant From(START, content[..i]) == Reading(result, inHex, currentHex)
    {
      assert content[..i + 1][..i] == content[..i];
      if content[i] == PIPE {
        if inHex {
          var bytes := DecodeString(currentHex);
          if bytes == None {
            StaysBad(START, content, i + 1);
            return None;
          }
          result := result + bytes.value;
          currentHex := [];
        }
        inHex := !inHex;
      } else {
        if inHex {
          currentHex := currentHex + [content[i]];
        } else {
          result := result + [content[i]];
        }
      }
    }
    assert content[..|content|] == content;
    r := Some(result);
  }

  lemma {:induction false} StaysBad(st: Parse, s: Bytes, n: nat)
    requires n <= |s| && From(st, s[..n]) == Bad
    ensures From(st, s) == Bad
  {
    if n < |s| {
      assert s[..|s| - 1][..n] == s[..n];
      StaysBad(st, s[..|s| - 1], n);
    } else {
      assert s[..n] == s;
    }
  }

  // ---- Concatenation ----

  lemma {:induction false} InTwo(st: Parse, a: Bytes, b: Bytes)
    ensures From(st, a + b) == From(From(st, a), b)
  {
    if b == [] {
      assert a + b == a;
    } else {
      var n := |b| - 1;
      InTwo(st, a, b[..n]);
      assert (a + b)[..|a + b| - 1] == a + b[..n];
    }
  }

  function Pipes(s: Bytes): nat {
    if s == [] then 0 else Pipes(s[..|s| - 1]) + if s[|s| - 1] == PIPE then 1 else 0
  }

  /** Outside a hexadecimal passage nothing is pending. */
  lemma {:induction false} PassagesAlternate(s: Bytes)
    ensures From(START, s).Reading? ==> From(START, s).inHex == (Pipes(s) % 2 == 1) && (!From(START, s).inHex ==> From(START, s).hex == [])
  {
    if s != [] {
      PassagesAlternate(s[..|s| - 1]);
    }
  }

  function Prefixed(r: Bytes, st: Parse): Parse {
    if st.Bad? then Bad else st.(result := r + st.result)
  }

  /** What was read before does not matter to what follows. */
  lemma {:induction false} ResultIsAppended(r: Bytes, s: Bytes)
    ensures From(Reading(r, false, []), s) == Prefixed(r, From(START, s))
  {
    if s == [] {
      assert r + [] == r;
    } else {
      var n := |s| - 1;
      ResultIsAppended(r, s[..n]);
    }
  }

  function Joined(x: Option<Bytes>, y: Option<Bytes>): Option<Bytes> {
    if x.Some? && y.Some? then Some(x.value + y.value) else None
  }

  /** After an even number of pipes the meaning of a concatenation is that of its halves, errors included. */
  lemma MeaningDistributes(a: Bytes, b: Bytes)
    requires Pipes(a) % 2 == 0
    ensures Meaning(a + b) == Joined(Meaning(a), Meaning(b))
  {
    InTwo(START, a, b);
    PassagesAlternate(a);
    var st := From(START, a);
    if st.Bad? {
      assert (a + b)[..|a|] == a;
      StaysBad(START, a + b, |a|);
    } else {
      ResultIsAppended(st.result, b);
    }
  }

  predicate IsHexDigit(c: byte) {
    ('0' as int <= c <= '9' as int) || ('A' as int <= c <= 'F' as int) || ('a' as int <= c <= 'f' as int)
  }

  /** Exactly the even numbers of digits decode. */
  lemma {:induction false} DecodesIff(s: Bytes)
    ensures Decode(s).Some? <==> |s| % 2 == 0 && forall i :: 0 <= i < |s| ==> IsHexDigit(s[i])
    decreases |s|
  {
    if |s| > 1 {
      var n := |s| - 2;
      DecodesIff(s[..n]);
      assert forall i :: 0 <= i < n ==> s[..n][i] == s[i];
    }
  }

  /** A hexadecimal passage is rejected exactly if, but for spaces, it is no even number of digits. */
  lemma PassageReadsIff(s: Bytes)
    requires PIPE !in s
    ensures var t := WithoutSpaces(s);
      Meaning([PIPE] + s + [PIPE]).Some? <==> |t| % 2 == 0 && forall i :: 0 <= i < |t| ==> IsHexDigit(t[i])
  {
    assert [PIPE][..0] == [];
    assert From(START, [PIPE]) == START.(inHex := true);
    InTwo(START, [PIPE], s);
    ReadText(START.(inHex := true), s);
    InTwo(START, [PIPE] + s, [PIPE]);
    assert [] + s == s;
    DecodesIff(WithoutSpaces(s));
  }

  /** Digits of either case mean the same. */
  lemma {:induction false} CaseOfDigits(s: Bytes)
    ensures Decode(AsciiLower(s)) == Decode(s)
    decreases |s|
  {
    if |s| > 1 {
      var n, l := |s| - 2, AsciiLower(s);
      CaseOfDigits(s[..n]);
      assert l[..n] == AsciiLower(s[..n]);
      CaseOfDigit(s[n]);
      CaseOfDigit(s[n + 1]);
    }
  }

  lemma CaseOfDigit(c: byte)
    ensures Digit(LowerByte(c)) == Digit(c)
  {
  }

  // ---- Printing ----

  datatype Piece = Literal(text: Bytes) | Hex(bytes: Bytes)

  function DigitOf(n: byte): byte
    requires n < 16
  {
    if n < 10 then n + 48 else n + 55
  }

  /** Two digits and a space for each byte. */
  function HexOf(bytes: Bytes): Bytes {
    if bytes == [] then [] else
      var b := bytes[|bytes| - 1];
      HexOf(bytes[..|bytes| - 1]) + [DigitOf(b / 16)] + [DigitOf(b % 16)] + [SPACE]
  }

  function PrintOne(p: Piece): Bytes {
    match p
    case Literal(text) => text
    case Hex(bytes) => [PIPE] + HexOf(bytes) + [PIPE]
  }

  function Print(ps: seq<Piece>): Bytes {
    if ps == [] then [] else Print(ps[..|ps| - 1]) + PrintOne(ps[|ps| - 1])
  }

  function BytesOf(p: Piece): Bytes {
    match p
    case Literal(text) => text
    case Hex(bytes) => bytes
  }

  function AllBytes(ps: seq<Piece>): Bytes {
    if ps == [] then [] else AllBytes(ps[..|ps| - 1]) + BytesOf(ps[|ps| - 1])
  }

  predicate Printable(p: Piece) {
    p.Literal? ==> PIPE !in p.text
  }

  lemma DigitsDecode(n: byte)
    requires n < 16
    ensures Digit(DigitOf(n)) == Some(n) && DigitOf(n) != SPACE && DigitOf(n) != PIPE
  {
  }

  lemma SpacelessStep(s: Bytes, c: byte, t: Bytes)
    requires t == s + [c]
    ensures WithoutSpaces(t) == if c == SPACE then WithoutSpaces(s) else WithoutSpaces(s) + [c]
  {
    assert t[..|t| - 1] == s;
  }

  lemma DecodeStep(s: Bytes, x: byte, y: byte, t: Bytes, r: Bytes, b: byte)
    requires t == s + [x] + [y] && Decode(s) == Some(r) && Digit(x) == Some(b / 16) && Digit(y) == Some(b % 16)
    ensures Decode(t) == Some(r + [b])
  {
    assert t[..|t| - 2] == s;
  }

  lemma HexStep(s: Bytes, b: byte, r: Bytes)
    requires Decode(WithoutSpaces(s)) == Some(r)
    ensures Decode(WithoutSpaces(s + [DigitOf(b / 16)] + [DigitOf(b % 16)] + [SPACE])) == Some(r + [b])
  {
    var x, y := DigitOf(b / 16), DigitOf(b % 16);
    DigitsDecode(b / 16);
    DigitsDecode(b % 16);
    SpacelessStep(s, x, s + [x]);
    SpacelessStep(s + [x], y, s + [x] + [y]);
    SpacelessStep(s + [x] + [y], SPACE, s + [x] + [y] + [SPACE]);
    DecodeStep(WithoutSpaces(s), x, y, WithoutSpaces(s) + [x] + [y], r, b);
  }

  lemma {:induction false} HexDecodes(bytes: Bytes)
    ensures Decode(WithoutSpaces(HexOf(bytes))) == Some(bytes)
  {
    if bytes != [] {
      var n := |bytes| - 1;
      HexDecodes(bytes[..n]);
      HexStep(HexOf(bytes[..n]), bytes[n], bytes[..n]);
      assert bytes[..n] + [bytes[n]] == bytes;
    }
  }

  lemma {:induction false} NoPipeInHex(bytes: Bytes)
    ensures PIPE !in HexOf(bytes)
  {
    if bytes != [] {
      var b := bytes[|bytes| - 1];
      NoPipeInHex(bytes[..|bytes| - 1]);
      DigitsDecode(b / 16);
      DigitsDecode(b % 16);
    }
  }

  lemma {:induction false} ReadText(st: Parse, s: Bytes)
    requires st.Reading? && PIPE !in s
    ensures From(st, s) == if st.inHex then st.(hex := st.hex + s) else st.(result := st.result + s)
  {
    if s == [] {
      assert st.hex + [] == st.hex && st.result + [] == st.result;
    } else {
      var n := |s| - 1;
      ReadText(st, s[..n]);
      assert st.hex + s[..n] + [s[n]] == st.hex + s && st.result + s[..n] + [s[n]] == st.result + s;
    }
  }

  lemma ReadHex(st: Parse, bytes: Bytes)
    requires st.Reading? && !st.inHex && st.hex == []
    ensures From(st, [PIPE] + HexOf(bytes) + [PIPE]) == st.(result := st.result + bytes)
  {
    var open := st.(inHex := true);
    HexDecodes(bytes);
    NoPipeInHex(bytes);
    assert [PIPE][..0] == [];
    assert From(st, [PIPE]) == open;
    InTwo(st, [PIPE], HexOf(bytes));
    ReadText(open, HexOf(bytes));
    assert [] + HexOf(bytes) == HexOf(bytes);
    InTwo(st, [PIPE] + HexOf(bytes), [PIPE]);
  }

  lemma {:induction false} ReadPrinted(ps: seq<Piece>)
    requires forall i :: 0 <= i < |ps| ==> Printable(ps[i])
    ensures From(START, Print(ps)) == Reading(AllBytes(ps), false, [])
  {
    if ps != [] {
      var n := |ps| - 1;
      var st := Reading(AllBytes(ps[..n]), false, []);
      ReadPrinted(ps[..n]);
      InTwo(START, Print(ps[..n]), PrintOne(ps[n]));
      match ps[n]
      case Literal(text) => ReadText(st, text);
      case Hex(bytes) => ReadHex(st, bytes);
    }
  }

  /** Parsing inverts printing. */
  lemma {:induction false} ParseInvertsPrint(ps: seq<Piece>)
    requires forall i :: 0 <= i < |ps| ==> Printable(ps[i])
    ensures Meaning(Print(ps)) == Some(AllBytes(ps))
  {
    ReadPrinted(ps);
  }

  /** A passage that is not closed is dropped. */
  lemma UnfinishedIsDropped(ps: seq<Piece>, s: Bytes)
    requires (forall i :: 0 <= i < |ps| ==> Printable(ps[i])) && PIPE !in s
    ensures Meaning(Print(ps) + ([PIPE] + s)) == Some(AllBytes(ps))
  {
    var st := Reading(AllBytes(ps), false, []);
    ReadPrinted(ps);
    InTwo(START, Print(ps), [PIPE] + s);
    assert [PIPE][..0] == [];
    assert From(st, [PIPE]) == st.(inHex := true);
    InTwo(st, [PIPE], s);
    ReadText(st.(inHex := true), s);
  }
}
