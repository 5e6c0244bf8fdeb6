/** From the options of a rule to what the engine matches: the contents and their modifiers. */
module RuleParser {
  import opened Bytes
  import opened Common
  import opened RuleMatcher
  import RuleEngine
  import O = RuleOptions
  import H = HexContent

  const CONTENT: Bytes := [99, 111, 110, 116, 101, 110, 116]
  const NOCASE: Bytes := [110, 111, 99, 97, 115, 101]
  const OFFSET: Bytes := [111, 102, 102, 115, 101, 116]
  const DEPTH: Bytes := [100, 101, 112, 116, 104]
  const DISTANCE: Bytes := [100, 105, 115, 116, 97, 110, 99, 101]
  const WITHIN: Bytes := [119, 105, 116, 104, 105, 110]

  const UNLIMITED := Modifier(false, -1, -1, -1, -1)

  /** The text without the quotes around it. */
  function TrimQuotes(s: Bytes): Bytes {
    TrimQuotesRight(TrimQuotesLeft(s))
  }

  function TrimQuotesLeft(s: Bytes): Bytes {
    if s != [] && s[0] == O.QUOTE then TrimQuotesLeft(s[1..]) else s
  }

  function TrimQuotesRight(s: Bytes): Bytes {
    if s != [] && s[|s| - 1] == O.QUOTE then TrimQuotesRight(s[..|s| - 1]) else s
  }

  /** What a modifier option makes of the content before it. `atoi` is the library's conversion,
      whose errors are ignored. */
  function Modified(c: Content, o: O.RuleOption, atoi: Bytes -> int): Content {
    var m := c.modifier;
    if o.key == NOCASE then Content(AsciiLower(c.pattern), m.(nocase := true))
    else if o.key == OFFSET then Content(c.pattern, m.(offset := atoi(o.value)))
    else if o.key == DEPTH then Content(c.pattern, m.(depth := atoi(o.value)))
    else if o.key == DISTANCE then Content(c.pattern, m.(distance := atoi(o.value)))
    else if o.key == WITHIN then Content(c.pattern, m.(within := atoi(o.value)))
    else c
  }

  /** One option: a content that can be read and is not empty, or a modifier of the last one. */
  function Applied(cs: seq<Content>, o: O.RuleOption, atoi: Bytes -> int): seq<Content> {
    if o.key == CONTENT then
      match H.Meaning(TrimQuotes(o.value))
      case Some(pattern) => if pattern != [] then cs + [Content(pattern, UNLIMITED)] else cs
      case None => cs
    else if cs == [] then cs
    else cs[..|cs| - 1] + [Modified(cs[|cs| - 1], o, atoi)]
  }

  function Contents(os: seq<O.RuleOption>, atoi: Bytes -> int): seq<Content> {
    if os == [] then [] else Applied(Contents(os[..|os| - 1], atoi), os[|os| - 1], atoi)
  }

  /** One option more than `os` read. */
  lemma OneMore(os: seq<O.RuleOption>, o: O.RuleOption, all: seq<O.RuleOption>, atoi: Bytes -> int)
    requires all == os + [o]
    ensures Contents(all, atoi) == Applied(Contents(os, atoi), o, atoi)
  {
    assert all[..|all| - 1] == os;
  }

  /** What the loop does with one option. */
  method ReadOption(contents: seq<Content>, opt: O.RuleOption, atoi: Bytes -> int) returns (r: seq<Content>)
    ensures r == Applied(contents, opt, atoi)
  {
    r := contents;
    if opt.key == CONTENT {
      var parsed := H.ParseHexContent(TrimQuotes(opt.value));
      if parsed.Some? && |parsed.value| > 0 {
        r := contents + [Content(parsed.value, UNLIMITED)];
      }
    } else if contents != [] {
      var last := contents[|contents| - 1];
      r := contents[..|contents| - 1] + [Modified(last, opt, atoi)];
    }
  }

  method ReadContents(os: seq<O.RuleOption>, atoi: Bytes -> int) returns (contents: seq<Content>)
    ensures contents == Contents(os, atoi)
  {
    contents := [];
    for i := 0 to |os|
      invariant contents == Contents(os[..i], atoi)
    {
      assert os[..i + 1] == os[..i] + [os[i]];
      OneMore(os[..i], os[i], os[..i + 1], atoi);
      contents := ReadOption(contents, os[i], atoi);
    }
    assert os[..|os|] == os;
  }

  // ---- What every parsed rule satisfies ----

  /** The pattern is not empty, and lower-case where case is ignored. */
  predicate WellMade(c: Content) {
    c.pattern != [] && (c.modifier.nocase ==> AsciiLower(c.pattern) == c.pattern)
  }

  predicate AllWellMade(cs: seq<Content>) {
    forall i :: 0 <= i < |cs| ==> WellMade(cs[i])
  }

  lemma FoldsOnce(s: Bytes)
    ensures AsciiLower(AsciiLower(s)) == AsciiLower(s)
  {
  }

  lemma ModifiedIsWellMade(c: Content, o: O.RuleOption, atoi: Bytes -> int)
    requires WellMade(c)
    ensures WellMade(Modified(c, o, atoi))
  {
    FoldsOnce(c.pattern);
  }

  lemma AppliedAreWellMade(cs: seq<Content>, o: O.RuleOption, atoi: Bytes -> int)
    requires AllWellMade(cs)
    ensures AllWellMade(Applied(cs, o, atoi))
  {
    if cs != [] {
      ModifiedIsWellMade(cs[|cs| - 1], o, atoi);
    }
  }

  lemma {:induction false} ParsedContentsAreWellMade(os: seq<O.RuleOption>, atoi: Bytes -> int)
    ensures AllWellMade(Contents(os, atoi))
  {
    if os != [] {
      ParsedContentsAreWellMade(os[..|os| - 1], atoi);
      AppliedAreWellMade(Contents(os[..|os| - 1], atoi), os[|os| - 1], atoi);
    }
  }

  /** Whatever the text of a rule, the prefilter can find it: no pattern is empty, and the pattern
      registered for it is the one the matcher looks for. */
  lemma ParsedIsSearchable(os: seq<O.RuleOption>, atoi: Bytes -> int, r: Rule)
    requires r.contents == Contents(os, atoi)
    ensures RuleEngine.Searchable(r)
    ensures r.contents != [] ==> RuleEngine.FastPattern(r) == r.contents[0].pattern
  {
    ParsedContentsAreWellMade(os, atoi);
  }

  // ---- From the printed text to the pattern ----

  lemma TrimsQuotes(v: Bytes)
    requires v != [] && v[0] != O.QUOTE && v[|v| - 1] != O.QUOTE
    ensures TrimQuotes([O.QUOTE] + v + [O.QUOTE]) == v
  {
    var q := v + [O.QUOTE];
    assert [O.QUOTE] + v + [O.QUOTE] == [O.QUOTE] + q && ([O.QUOTE] + q)[1..] == q;
    assert TrimQuotesLeft([O.QUOTE] + q) == TrimQuotesLeft(q) == q;
    assert q[..|q| - 1] == v;
    assert TrimQuotesRight(q) == TrimQuotesRight(v) == v;
  }

  lemma PrintedAlone(v: Bytes, o: O.Printable)
    requires o == O.Quoted(CONTENT, v) && !O.EndsInBackslash(v)
    ensures O.Parsed(O.Print([o])) == [O.RuleOption(CONTENT, [O.QUOTE] + v + [O.QUOTE])]
  {
    O.ParseRecoversPrinted([o]);
    assert O.AllMeant([o]) == [O.Meant(o)];
  }

  // ---- Exactly when the text round-trips ----

  /** Text that reads back, and is outside a hexadecimal passage at its end. */
  predicate Reads(s: Bytes) {
    H.Pipes(s) % 2 == 0 && H.Meaning(s).Some?
  }

  lemma {:induction false} PipesBehind(c: byte, s: Bytes)
    requires c != H.PIPE
    ensures H.Pipes([c] + s) == H.Pipes(s)
  {
    if s == [] {
      assert [c][..0] == [];
    } else {
      PipesBehind(c, s[..|s| - 1]);
      assert ([c] + s)[..|s|] == [c] + s[..|s| - 1];
    }
  }

  lemma OneByte(c: byte)
    requires c != H.PIPE
    ensures H.Pipes([c]) == 0 && H.Meaning([c]) == Some([c])
  {
    assert [c][..0] == [];
    assert H.Pipes([c][..0]) == 0;
    H.ReadText(H.START, [c]);
    assert [] + [c] == [c];
  }

  /** A byte that is no pipe stands for itself, before a text and behind one. */
  lemma ByteBefore(c: byte, s: Bytes, t: Bytes)
    requires c != H.PIPE && t == [c] + s
    ensures H.Pipes(t) == H.Pipes(s)
    ensures H.Meaning(t) == if H.Meaning(s).Some? then Some([c] + H.Meaning(s).value) else None
  {
    OneByte(c);
    PipesBehind(c, s);
    H.MeaningDistributes([c], s);
  }

  lemma ByteBehind(s: Bytes, c: byte, t: Bytes)
    requires c != H.PIPE && t == s + [c]
    ensures H.Pipes(t) == H.Pipes(s)
    ensures H.Pipes(s) % 2 == 0 ==> H.Meaning(t) == if H.Meaning(s).Some? then Some(H.Meaning(s).value + [c]) else None
  {
    OneByte(c);
    assert t[..|s|] == s;
    if H.Pipes(s) % 2 == 0 {
      H.MeaningDistributes(s, [c]);
    }
  }

  /** Trimming a quote takes one byte off the meaning. */
  lemma {:induction false} TrimLeftReads(s: Bytes)
    requires Reads(s)
    ensures var t := TrimQuotesLeft(s);
      |t| <= |s| && t == s[|s| - |t|..] && Reads(t) && |H.Meaning(s).value| - |H.Meaning(t).value| == |s| - |t|
  {
    if s != [] && s[0] == O.QUOTE {
      ByteBefore(O.QUOTE, s[1..], s);
      TrimLeftReads(s[1..]);
    }
  }

  lemma {:induction false} TrimRightReads(s: Bytes)
    requires Reads(s)
    ensures var t := TrimQuotesRight(s);
      |t| <= |s| && Reads(t) && |H.Meaning(s).value| - |H.Meaning(t).value| == |s| - |t|
  {
    if s != [] && s[|s| - 1] == O.QUOTE {
      ByteBehind(s[..|s| - 1], O.QUOTE, s);
      TrimRightReads(s[..|s| - 1]);
    }
  }

  lemma {:induction false} LeftShortens(s: Bytes)
    ensures |TrimQuotesLeft(s)| <= |s| && TrimQuotesLeft(s) == s[|s| - |TrimQuotesLeft(s)|..]
  {
    if s != [] && s[0] == O.QUOTE {
      LeftShortens(s[1..]);
    }
  }

  lemma {:induction false} RightShortens(s: Bytes)
    ensures |TrimQuotesRight(s)| <= |s|
  {
    if s != [] && s[|s| - 1] == O.QUOTE {
      RightShortens(s[..|s| - 1]);
    }
  }

  lemma LastQuote(t: Bytes)
    requires t != [] ==> t[|t| - 1] == O.QUOTE
    ensures t != [] ==> |TrimQuotesRight(t)| < |t|
  {
    if t != [] {
      RightShortens(t[..|t| - 1]);
    }
  }

  /** Only the quotes that enclose the text are trimmed, unless it starts or ends in one. */
  lemma TrimmedLength(v: Bytes, u: Bytes)
    requires v != [] && u == [O.QUOTE] + v + [O.QUOTE]
    ensures |TrimQuotes(u)| == |v| <==> v[0] != O.QUOTE && v[|v| - 1] != O.QUOTE
  {
    var t, n, q := TrimQuotesLeft(u), |v| - 1, v + [O.QUOTE];
    assert u[1..] == q && q[1..] == v[1..] + [O.QUOTE] && q[..|v|] == v;
    assert t == TrimQuotesLeft(q);
    LeftShortens(u);
    if v[0] == O.QUOTE {
      assert t == TrimQuotesLeft(q[1..]);
      LeftShortens(q[1..]);
      LastQuote(t);
    } else {
      assert t == q;
      assert TrimQuotesRight(t) == TrimQuotesRight(v);
      if v[n] == O.QUOTE {
        RightShortens(v[..n]);
      }
    }
  }

  lemma EnclosedReads(v: Bytes, u: Bytes)
    requires Reads(v) && u == [O.QUOTE] + v + [O.QUOTE]
    ensures Reads(u) && |H.Meaning(u).value| == |H.Meaning(v).value| + 2
    ensures Reads(TrimQuotes(u)) && |H.Meaning(u).value| - |H.Meaning(TrimQuotes(u)).value| == |u| - |TrimQuotes(u)|
  {
    ByteBefore(O.QUOTE, v, [O.QUOTE] + v);
    ByteBehind([O.QUOTE] + v, O.QUOTE, u);
    TrimLeftReads(u);
    TrimRightReads(TrimQuotesLeft(u));
  }

  /** A content alone yields at most one pattern: the meaning of the trimmed text. */
  lemma {:induction false} ContentIs(o: O.RuleOption, p: Bytes, atoi: Bytes -> int)
    requires o.key == CONTENT && Reads(TrimQuotes(o.value))
    ensures Contents([o], atoi) == [Content(p, UNLIMITED)] <==> H.Meaning(TrimQuotes(o.value)) == Some(p) && p != []
  {
    assert [o][..0] == [];
    assert Contents([o], atoi) == Applied([], o, atoi);
    var c := Content(H.Meaning(TrimQuotes(o.value)).value, UNLIMITED);
    assert [] + [c] == [c];
  }

  lemma QuoteAtEdge(v: Bytes, p: Bytes, atoi: Bytes -> int)
    requires v != [] && Reads(v) && H.Meaning(v) == Some(p) && p != []
    ensures Contents([O.RuleOption(CONTENT, [O.QUOTE] + v + [O.QUOTE])], atoi) == [Content(p, UNLIMITED)] <==>
      v[0] != O.QUOTE && v[|v| - 1] != O.QUOTE
  {
    var u := [O.QUOTE] + v + [O.QUOTE];
    EnclosedReads(v, u);
    TrimmedLength(v, u);
    if v[0] != O.QUOTE && v[|v| - 1] != O.QUOTE {
      TrimsQuotes(v);
    }
    ContentIs(O.RuleOption(CONTENT, u), p, atoi);
  }

  /** A backslash at the end turns the closing quote and the semicolon into text. */
  lemma BackslashAtEnd(w: Bytes, v: Bytes, u: Bytes)
    requires Reads(v) && v == w + [O.BACKSLASH] && u == [O.QUOTE] + w + [O.QUOTE] + [O.SEMICOLON]
    ensures Reads(TrimQuotes(u)) && H.Meaning(TrimQuotes(u)) != H.Meaning(v)
  {
    var t := TrimQuotesLeft(u);
    ByteBehind(w, O.BACKSLASH, v);
    ByteBefore(O.QUOTE, w, [O.QUOTE] + w);
    ByteBehind([O.QUOTE] + w, O.QUOTE, [O.QUOTE] + w + [O.QUOTE]);
    ByteBehind([O.QUOTE] + w + [O.QUOTE], O.SEMICOLON, u);
    TrimLeftReads(u);
    KeepsLast(u, O.SEMICOLON);
    ByteBehind(t[..|t| - 1], O.SEMICOLON, t);
    var m, n := H.Meaning(t).value, H.Meaning(v).value;
    assert m[|m| - 1] == O.SEMICOLON && n[|n| - 1] == O.BACKSLASH;
  }

  lemma {:induction false} KeepsLast(s: Bytes, c: byte)
    requires s != [] && s[|s| - 1] == c && c != O.QUOTE
    ensures var t := TrimQuotesLeft(s); t != [] && t[|t| - 1] == c && TrimQuotes(s) == t && t == t[..|t| - 1] + [c]
  {
    if s[0] == O.QUOTE {
      KeepsLast(s[1..], c);
    }
  }

  /** A content option written from literal and hexadecimal pieces is matched as the bytes they
      stand for exactly when its text neither starts nor ends in a quote nor ends in a backslash. */
  lemma ContentRoundTripIff(ps: seq<H.Piece>, atoi: Bytes -> int)
    requires forall i :: 0 <= i < |ps| ==> H.Printable(ps[i])
    requires H.AllBytes(ps) != []
    ensures var v := H.Print(ps);
      v != [] &&
      (Contents(O.Parsed(O.Print([O.Quoted(CONTENT, v)])), atoi) == [Content(H.AllBytes(ps), UNLIMITED)] <==>
        v[0] != O.QUOTE && v[|v| - 1] != O.QUOTE && v[|v| - 1] != O.BACKSLASH)
  {
    PrintedReads(ps);
    TextRoundTrips(H.Print(ps), H.AllBytes(ps), O.Quoted(CONTENT, H.Print(ps)), atoi);
  }

  lemma TextRoundTrips(v: Bytes, p: Bytes, o: O.Printable, atoi: Bytes -> int)
    requires v != [] && Reads(v) && H.Meaning(v) == Some(p) && p != [] && o == O.Quoted(CONTENT, v)
    ensures Contents(O.Parsed(O.Print([o])), atoi) == [Content(p, UNLIMITED)] <==>
      v[0] != O.QUOTE && v[|v| - 1] != O.QUOTE && v[|v| - 1] != O.BACKSLASH
  {
    if O.EndsInBackslash(v) {
      TextMisread(v, p, o, atoi);
    } else {
      PrintedAlone(v, o);
      QuoteAtEdge(v, p, atoi);
    }
  }

  lemma TextMisread(v: Bytes, p: Bytes, o: O.Printable, atoi: Bytes -> int)
    requires O.EndsInBackslash(v) && Reads(v) && H.Meaning(v) == Some(p) && o == O.Quoted(CONTENT, v)
    ensures Contents(O.Parsed(O.Print([o])), atoi) != [Content(p, UNLIMITED)]
  {
    var r := MisreadOption(v, o);
    OtherMeaning(r, v, p, atoi);
  }

  /** What the text is read as instead. */
  lemma MisreadOption(v: Bytes, o: O.Printable) returns (r: O.RuleOption)
    requires O.EndsInBackslash(v) && Reads(v) && o == O.Quoted(CONTENT, v)
    ensures O.Parsed(O.Print([o])) == [r] && r.key == CONTENT
    ensures Reads(TrimQuotes(r.value)) && H.Meaning(TrimQuotes(r.value)) != H.Meaning(v)
  {
    var w := v[..|v| - 1];
    var u := [O.QUOTE] + w + [O.QUOTE] + [O.SEMICOLON];
    r := O.RuleOption(CONTENT, u);
    WithoutBackslash(v, w);
    BackslashAtEnd(w, v, u);
    PrintedMisread(v, o, r);
  }

  lemma WithoutBackslash(v: Bytes, w: Bytes)
    requires O.EndsInBackslash(v) && w == v[..|v| - 1]
    ensures v == w + [O.BACKSLASH]
  {
  }

  lemma PrintedMisread(v: Bytes, o: O.Printable, r: O.RuleOption)
    requires O.EndsInBackslash(v) && o == O.Quoted(CONTENT, v)
    requires r == O.RuleOption(CONTENT, [O.QUOTE] + v[..|v| - 1] + [O.QUOTE] + [O.SEMICOLON])
    ensures O.Parsed(O.Print([o])) == [r]
  {
    O.Misquoted(CONTENT, v);
  }

  lemma OtherMeaning(o: O.RuleOption, v: Bytes, p: Bytes, atoi: Bytes -> int)
    requires o.key == CONTENT && Reads(TrimQuotes(o.value)) && H.Meaning(TrimQuotes(o.value)) != H.Meaning(v) == Some(p)
    ensures Contents([o], atoi) != [Content(p, UNLIMITED)]
  {
    ContentIs(o, p, atoi);
  }

  lemma PrintedReads(ps: seq<H.Piece>)
    requires forall i :: 0 <= i < |ps| ==> H.Printable(ps[i])
    ensures Reads(H.Print(ps)) && H.Meaning(H.Print(ps)) == Some(H.AllBytes(ps))
    ensures H.AllBytes(ps) != [] ==> H.Print(ps) != []
  {
    H.ReadPrinted(ps);
    H.PassagesAlternate(H.Print(ps));
  }
}
