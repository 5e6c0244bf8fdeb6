/** Splitting the body of a rule into its options: quotes protect semicolons, and a backslash
    escapes a quote or a semicolon. */
module RuleOptions {
  import opened Bytes

  const QUOTE: byte := 34  // "
  const SEMICOLON: byte := 59  // ;
  const COLON: byte := 58  // :
  const BACKSLASH: byte := 92  // \
  const SPACE: byte := 32

  datatype RuleOption = RuleOption(key: Bytes, value: Bytes)

  // ---- Splitting at semicolons ----

  datatype Scan = Scan(parts: seq<Bytes>, current: Bytes, inQuote: bool)

  const START := Scan([], [], false)

  predicate Escapable(c: byte) {
    c == SEMICOLON || c == QUOTE
  }

  /** The text starts with an escape sequence. */
  predicate StartsWithEscape(s: Bytes) {
    |s| >= 2 && s[0] == BACKSLASH && Escapable(s[1])
  }

  /** One byte that starts no escape. */
  function Step(st: Scan, c: byte): Scan {
    if c == QUOTE then st.(current := st.current + [QUOTE], inQuote := !st.inQuote)
    else if c == SEMICOLON && !st.inQuote then st.(parts := st.parts + [st.current], current := [])
    else st.(current := st.current + [c])
  }

  function Scanned(st: Scan, s: Bytes): Scan
    decreases |s|
  {
    if s == [] then st
    else if StartsWithEscape(s) then Scanned(st.(current := st.current + [s[1]]), s[2..])
    else Scanned(Step(st, s[0]), s[1..])
  }

  function Parts(s: Bytes): seq<Bytes> {
    var st := Scanned(START, s);
    if st.current == [] then st.parts else st.parts + [st.current]
  }

  // ---- One option ----

  predicate IsSpace(c: byte) {
    c == SPACE || 9 <= c <= 13
  }

  function TrimLeft(s: Bytes): Bytes {
    if s != [] && IsSpace(s[0]) then TrimLeft(s[1..]) else s
  }

  function TrimRight(s: Bytes): Bytes {
    if s != [] && IsSpace(s[|s| - 1]) then TrimRight(s[..|s| - 1]) else s
  }

  function TrimSpace(s: Bytes): Bytes {
    TrimRight(TrimLeft(s))
  }

  /** The index of the first colon, or the length. */
  function ColonAt(s: Bytes): (n: nat)
    ensures n <= |s|
  {
    if s == [] || s[0] == COLON then 0 else 1 + ColonAt(s[1..])
  }

  function OptionOf(p: Bytes): RuleOption {
    var n := ColonAt(p);
    RuleOption(AsciiLower(TrimSpace(p[..n])), if n < |p| then TrimSpace(p[n + 1..]) else [])
  }

  /** The options of the non-blank parts. */
  function Options(parts: seq<Bytes>): seq<RuleOption> {
    if parts == [] then [] else
      var n := |parts| - 1;
      var p := TrimSpace(parts[n]);
      if p == [] then Options(parts[..n]) else Options(parts[..n]) + [OptionOf(p)]
  }

  function Parsed(body: Bytes): seq<RuleOption> {
    Options(Parts(body))
  }

  // ---- The parser ----

  method SplitParts(body: Bytes) returns (parts: seq<Bytes>)
    ensures parts == Parts(body)
  {
    parts := [];
    var current: Bytes := [];
    var inQuote := false;
    var i := 0;
    while i < |body|
      invariant 0 <= i <= |body|
      invariant Scanned(START, body) == Scanned(Scan(parts, current, inQuote), body[i..])
    {
      if body[i] == BACKSLASH && i + 1 < |body| {
        if body[i + 1] == SEMICOLON || body[i + 1] == QUOTE {
          assert body[i..][2..] == body[i + 2..];
          current := current + [body[i + 1]];
          i := i + 2;
          continue;
        }
      }
      assert body[i..][1..] == body[i + 1..];
      if body[i] == QUOTE {
        inQuote := !inQuote;
        current := current + [QUOTE];
      } else if body[i] == SEMICOLON && !inQuote {
        parts := parts + [current];
        current := [];
      } else {
        current := current + [body[i]];
      }
      i := i + 1;
    }
    if |current| > 0 {
      parts := parts + [current];
    }
  }

  method ParseOptions(body: Bytes) returns (opts: seq<RuleOption>)
    ensures opts == Parsed(body)
  {
    opts := [];
    var parts := SplitParts(body);
    for i := 0 to |parts|
      invariant opts == Options(parts[..i])
    {
      assert parts[..i + 1][..i] == parts[..i];
      var p := TrimSpace(parts[i]);
      if p == [] {
        continue;
      }
      opts := opts + [OptionOf(p)];
    }
    assert parts[..|parts|] == parts;
  }

  // ---- Printing ----

  /** What an option is written as: a flag, a plain value or a quoted one. */
  datatype Printable = Flag(key: Bytes) | Plain(key: Bytes, value: Bytes) | Quoted(key: Bytes, value: Bytes)

  function Escape(v: Bytes): Bytes {
    if v == [] then [] else (if Escapable(v[0]) then [BACKSLASH, v[0]] else [v[0]]) + Escape(v[1..])
  }

  function PrintOne(o: Printable): Bytes {
    match o
    case Flag(key) => key
    case Plain(key, value) => key + [COLON] + value
    case Quoted(key, value) => key + [COLON] + [QUOTE] + Escape(value) + [QUOTE]
  }

  /** Each option is followed by a semicolon and a space. */
  function Print(os: seq<Printable>): Bytes {
    if os == [] then [] else Print(os[..|os| - 1]) + PrintOne(os[|os| - 1]) + [SEMICOLON] + [SPACE]
  }

  /** The option a printed one stands for: the parser leaves the quotes on. */
  function Meant(o: Printable): RuleOption {
    match o
    case Flag(key) => RuleOption(key, [])
    case Plain(key, value) => RuleOption(key, value)
    case Quoted(key, value) => RuleOption(key, [QUOTE] + value + [QUOTE])
  }

  function AllMeant(os: seq<Printable>): seq<RuleOption> {
    seq(|os|, i requires 0 <= i < |os| => Meant(os[i]))
  }

  predicate IsPlainByte(c: byte) {
    c != BACKSLASH && !Escapable(c)
  }

  /** A key in ASCII: the library's lower-casing knows Unicode. */
  predicate IsKey(key: Bytes) {
    key != [] && (forall i :: 0 <= i < |key| ==> key[i] < 128) && forall i :: 0 <= i < |key| ==> IsPlainByte(key[i]) && key[i] != COLON && !IsSpace(key[i]) && LowerByte(key[i]) == key[i]
  }

  /** A value that starts and ends in ASCII: so does the library's notion of white space. */
  predicate IsPlainValue(v: Bytes) {
    v != [] && v[0] < 128 && v[|v| - 1] < 128 && !IsSpace(v[0]) && !IsSpace(v[|v| - 1]) && forall i :: 0 <= i < |v| ==> IsPlainByte(v[i])
  }

  predicate EndsInBackslash(v: Bytes) {
    v != [] && v[|v| - 1] == BACKSLASH
  }

  predicate Writable(o: Printable) {
    IsKey(o.key) && (o.Plain? ==> IsPlainValue(o.value)) && (o.Quoted? ==> !EndsInBackslash(o.value))
  }

  // ---- Scanning what was printed ----

  /** Scanning may stop and go on anywhere but after a backslash. */
  lemma {:induction false} ScanInTwo(st: Scan, a: Bytes, b: Bytes)
    requires !EndsInBackslash(a)
    ensures Scanned(st, a + b) == Scanned(Scanned(st, a), b)
    decreases |a|
  {
    if a == [] {
      assert a + b == b;
    } else if StartsWithEscape(a) {
      assert (a + b)[2..] == a[2..] + b;
      ScanInTwo(st.(current := st.current + [a[1]]), a[2..], b);
    } else {
      assert (a + b)[1..] == a[1..] + b;
      ScanInTwo(Step(st, a[0]), a[1..], b);
    }
  }

  lemma {:induction false} ScanPlain(st: Scan, a: Bytes)
    requires forall i :: 0 <= i < |a| ==> IsPlainByte(a[i])
    ensures Scanned(st, a) == st.(current := st.current + a)
    decreases |a|
  {
    if a == [] {
      assert st.current + a == st.current;
    } else {
      ScanPlain(Step(st, a[0]), a[1..]);
      assert st.current + [a[0]] + a[1..] == st.current + a;
    }
  }

  lemma ScanEscape(st: Scan, c: byte, rest: Bytes, s: Bytes)
    requires s == [BACKSLASH, c] + rest && Escapable(c)
    ensures Scanned(st, s) == Scanned(st.(current := st.current + [c]), rest)
  {
    assert s[2..] == rest;
  }

  /** The first byte of a value, written and read. */
  lemma ScanFirst(st: Scan, v: Bytes, rest: Bytes, s: Bytes)
    requires v != [] && s == (if Escapable(v[0]) then [BACKSLASH, v[0]] else [v[0]]) + rest
    requires v[0] == BACKSLASH ==> rest != [] && !Escapable(rest[0])
    ensures Scanned(st, s) == Scanned(st.(current := st.current + [v[0]]), rest)
  {
    if Escapable(v[0]) {
      ScanEscape(st, v[0], rest, s);
    }
  }

  lemma EscapedHead(v: Bytes)
    requires v != []
    ensures Escape(v) != [] && !Escapable(Escape(v)[0])
  {
  }

  /** In quotes or not, an escaped value is read back, unless it ends in a backslash. */
  lemma {:induction false} ScanEscaped(st: Scan, v: Bytes)
    requires !EndsInBackslash(v)
    ensures Scanned(st, Escape(v)) == st.(current := st.current + v) && !EndsInBackslash(Escape(v))
    decreases |v|
  {
    if v == [] {
      assert st.current + v == st.current;
    } else {
      ScanEscaped(st.(current := st.current + [v[0]]), v[1..]);
      assert st.current + [v[0]] + v[1..] == st.current + v;
      if v[1..] != [] {
        EscapedHead(v[1..]);
      }
      ScanFirst(st, v, Escape(v[1..]), Escape(v));
    }
  }

  /** A printed option as the scanner sees it: its value is no longer escaped. */
  function Raw(o: Printable): Bytes {
    match o
    case Flag(key) => key
    case Plain(key, value) => key + [COLON] + value
    case Quoted(key, value) => key + [COLON] + [QUOTE] + value + [QUOTE]
  }

  lemma ScanByte(st: Scan, c: byte)
    ensures Scanned(st, [c]) == Step(st, c)
  {
    assert [c][1..] == [];
  }

  lemma ScanQuoted(st: Scan, head: Bytes, v: Bytes)
    requires !st.inQuote && !EndsInBackslash(v) && forall i :: 0 <= i < |head| ==> IsPlainByte(head[i])
    ensures Scanned(st, head + [QUOTE] + Escape(v) + [QUOTE]) == st.(current := st.current + head + [QUOTE] + v + [QUOTE])
  {
    var st1 := st.(current := st.current + head);
    var st2 := st1.(current := st1.current + [QUOTE], inQuote := true);
    ScanPlain(st, head);
    ScanInTwo(st, head, [QUOTE]);
    ScanByte(st1, QUOTE);
    ScanInTwo(st, head + [QUOTE], Escape(v));
    ScanEscaped(st2, v);
    assert !EndsInBackslash(head + [QUOTE] + Escape(v));
    ScanInTwo(st, head + [QUOTE] + Escape(v), [QUOTE]);
    ScanByte(st2.(current := st2.current + v), QUOTE);
  }

  lemma ScanOne(st: Scan, o: Printable)
    requires Writable(o) && !st.inQuote
    ensures Scanned(st, PrintOne(o)) == st.(current := st.current + Raw(o)) && !EndsInBackslash(PrintOne(o))
  {
    match o
    case Flag(key) => ScanPlain(st, key);
    case Plain(key, value) => ScanPlain(st, key + [COLON] + value);
    case Quoted(key, value) =>
      ScanQuoted(st, key + [COLON], value);
      assert st.current + (key + [COLON]) + [QUOTE] + value + [QUOTE] == st.current + Raw(o);
  }

  /** The end of an option. */
  lemma ScanEnd(st: Scan)
    requires !st.inQuote
    ensures Scanned(st, [SEMICOLON] + [SPACE]) == Scan(st.parts + [st.current], [SPACE], false)
  {
    var done := Scan(st.parts + [st.current], [], false);
    ScanByte(st, SEMICOLON);
    ScanByte(done, SPACE);
    ScanInTwo(st, [SEMICOLON], [SPACE]);
    assert done.current + [SPACE] == [SPACE];
  }

  /** The parts of a printed list: all but the first start with the space that ends the one before. */
  function RawParts(os: seq<Printable>): seq<Bytes> {
    if os == [] then [] else
      var n := |os| - 1;
      RawParts(os[..n]) + [(if n == 0 then [] else [SPACE]) + Raw(os[n])]
  }

  lemma ScanItem(head: Bytes, one: Bytes, tail: Bytes, st: Scan, st1: Scan, st2: Scan)
    requires Scanned(START, head) == st && Scanned(st, one) == st1 && Scanned(st1, tail) == st2
    requires !EndsInBackslash(head) && !EndsInBackslash(one)
    ensures Scanned(START, head + one + tail) == st2
  {
    ScanInTwo(START, head, one);
    ScanInTwo(START, head + one, tail);
  }

  lemma PrintStep(os: seq<Printable>)
    requires os != []
    ensures Print(os) == Print(os[..|os| - 1]) + PrintOne(os[|os| - 1]) + ([SEMICOLON] + [SPACE])
  {
  }

  lemma {:induction false} ScanPrinted(os: seq<Printable>)
    requires forall i :: 0 <= i < |os| ==> Writable(os[i])
    ensures Scanned(START, Print(os)) == Scan(RawParts(os), if os == [] then [] else [SPACE], false)
    ensures !EndsInBackslash(Print(os))
  {
    if os != [] {
      var n := |os| - 1;
      var st := Scan(RawParts(os[..n]), if n == 0 then [] else [SPACE], false);
      var st1 := st.(current := st.current + Raw(os[n]));
      ScanPrinted(os[..n]);
      ScanOne(st, os[n]);
      ScanEnd(st1);
      ScanItem(Print(os[..n]), PrintOne(os[n]), [SEMICOLON] + [SPACE], st, st1, Scan(st1.parts + [st1.current], [SPACE], false));
      PrintStep(os);
    }
  }

  // ---- Reading one part ----

  predicate Tight(s: Bytes) {
    s != [] && !IsSpace(s[0]) && !IsSpace(s[|s| - 1])
  }

  lemma TrimTight(s: Bytes)
    requires Tight(s)
    ensures TrimSpace(s) == s && TrimSpace([SPACE] + s) == s
  {
    assert ([SPACE] + s)[1..] == s;
  }

  lemma {:induction false} ColonAfterKey(key: Bytes, rest: Bytes)
    requires forall i :: 0 <= i < |key| ==> key[i] != COLON
    ensures ColonAt(key + [COLON] + rest) == |key| && ColonAt(key) == |key|
  {
    if key != [] {
      ColonAfterKey(key[1..], rest);
      assert (key + [COLON] + rest)[1..] == key[1..] + [COLON] + rest;
    }
  }

  lemma ReadKeyed(key: Bytes, v: Bytes)
    requires IsKey(key) && (v == [] || Tight(v))
    ensures OptionOf(key + [COLON] + v) == RuleOption(key, v) && OptionOf(key) == RuleOption(key, [])
  {
    var p := key + [COLON] + v;
    ColonAfterKey(key, v);
    TrimTight(key);
    assert AsciiLower(key) == key;
    assert p[..|key|] == key && p[|key| + 1..] == v && key[..|key|] == key;
    if v != [] {
      TrimTight(v);
    }
  }

  lemma KeyedIsTight(key: Bytes, v: Bytes, raw: Bytes)
    requires IsKey(key) && Tight(v) && raw == key + [COLON] + v
    ensures Tight(raw)
  {
    assert raw[0] == key[0] && raw[|raw| - 1] == v[|v| - 1];
  }

  lemma FlagIsRead(key: Bytes)
    requires IsKey(key)
    ensures Tight(key) && OptionOf(key) == RuleOption(key, [])
  {
    ReadKeyed(key, []);
  }

  lemma KeyedIsRead(key: Bytes, v: Bytes, raw: Bytes)
    requires IsKey(key) && Tight(v) && raw == key + [COLON] + v
    ensures Tight(raw) && OptionOf(raw) == RuleOption(key, v)
  {
    KeyedIsTight(key, v, raw);
    ReadKeyed(key, v);
  }

  lemma QuotedIsRead(key: Bytes, value: Bytes, raw: Bytes)
    requires IsKey(key) && raw == key + [COLON] + [QUOTE] + value + [QUOTE]
    ensures Tight(raw) && OptionOf(raw) == RuleOption(key, [QUOTE] + value + [QUOTE])
  {
    var q := [QUOTE] + value + [QUOTE];
    assert raw == key + [COLON] + q;
    KeyedIsRead(key, q, raw);
  }

  lemma RawIsRead(o: Printable)
    requires Writable(o)
    ensures Tight(Raw(o)) && OptionOf(Raw(o)) == Meant(o)
  {
    match o
    case Flag(key) => FlagIsRead(key);
    case Plain(key, value) => KeyedIsRead(key, value, Raw(o));
    case Quoted(key, value) => QuotedIsRead(key, value, Raw(o));
  }

  lemma OptionsStep(ps: seq<Bytes>, p: Bytes, t: Bytes)
    requires TrimSpace(p) == t
    ensures Options(ps + [p]) == if t == [] then Options(ps) else Options(ps) + [OptionOf(t)]
  {
    assert (ps + [p])[..|ps|] == ps;
  }

  lemma AllMeantStep(os: seq<Printable>)
    requires os != []
    ensures AllMeant(os) == AllMeant(os[..|os| - 1]) + [Meant(os[|os| - 1])]
  {
  }

  lemma {:induction false} PartsAreRead(os: seq<Printable>)
    requires forall i :: 0 <= i < |os| ==> Writable(os[i])
    ensures Options(RawParts(os)) == AllMeant(os)
  {
    if os != [] {
      var n := |os| - 1;
      var p := (if n == 0 then [] else [SPACE]) + Raw(os[n]);
      PartsAreRead(os[..n]);
      RawIsRead(os[n]);
      TrimTight(Raw(os[n]));
      assert n == 0 ==> p == Raw(os[n]);
      OptionsStep(RawParts(os[..n]), p, Raw(os[n]));
      AllMeantStep(os);
    }
  }

  predicate IsBlank(s: Bytes) {
    forall i :: 0 <= i < |s| ==> IsSpace(s[i])
  }

  lemma {:induction false} TrimLeading(gap: Bytes, s: Bytes)
    requires IsBlank(gap) && Tight(s)
    ensures TrimSpace(gap + s) == s
  {
    if gap == [] {
      assert gap + s == s;
      TrimTight(s);
    } else {
      TrimLeading(gap[1..], s);
      assert (gap + s)[1..] == gap[1..] + s;
    }
  }

  lemma {:induction false} TrimTrailing(s: Bytes, gap: Bytes)
    requires IsBlank(gap) && Tight(s)
    ensures TrimSpace(s + gap) == s
  {
    if gap == [] {
      assert s + gap == s;
      TrimTight(s);
    } else {
      var n := |gap| - 1;
      TrimTrailing(s, gap[..n]);
      assert (s + gap)[..|s + gap| - 1] == s + gap[..n];
      assert TrimLeft(s + gap) == s + gap && TrimLeft(s + gap[..n]) == s + gap[..n];
    }
  }

  /** Blanks around the colon and the case of a key do not matter. */
  lemma BlanksAndCase(key: Bytes, gap: Bytes, gap': Bytes, v: Bytes)
    requires IsKey(AsciiLower(key)) && IsBlank(gap) && IsBlank(gap') && Tight(v)
    ensures OptionOf(key + gap + [COLON] + (gap' + v)) == RuleOption(AsciiLower(key), v)
  {
    var p, k, n := key + gap + [COLON] + (gap' + v), AsciiLower(key), |key + gap|;
    forall i | 0 <= i < |key| ensures key[i] != COLON && !IsSpace(key[i]) {
      assert k[i] == LowerByte(key[i]) && k[i] != COLON && !IsSpace(k[i]);
    }
    forall i | 0 <= i < n ensures (key + gap)[i] != COLON {
      if i >= |key| {
        assert (key + gap)[i] == gap[i - |key|];
      }
    }
    ColonAfterKey(key + gap, gap' + v);
    assert p[..n] == key + gap && p[n + 1..] == gap' + v;
    TrimTrailing(key, gap);
    TrimLeading(gap', v);
  }

  lemma TrimBlank(s: Bytes)
    requires |s| == 1 && IsSpace(s[0])
    ensures TrimSpace(s) == []
  {
    assert TrimLeft(s) == s[1..] == [];
    assert TrimRight(s[1..]) == [];
  }

  /** Parsing recovers every printed list of options, whatever quotes, semicolons and colons their
      quoted values hold. */
  lemma {:induction false} ParseRecoversPrinted(os: seq<Printable>)
    requires forall i :: 0 <= i < |os| ==> Writable(os[i])
    ensures Parsed(Print(os)) == AllMeant(os)
  {
    ScanPrinted(os);
    PartsAreRead(os);
    if os == [] {
      assert Parsed(Print(os)) == Options([]);
    } else {
      TrimBlank([SPACE]);
      OptionsStep(RawParts(os), [SPACE], []);
      assert Parts(Print(os)) == RawParts(os) + [[SPACE]];
    }
  }

  /** The last option needs no semicolon. */
  lemma LastNeedsNoSemicolon(os: seq<Printable>, o: Printable)
    requires (forall i :: 0 <= i < |os| ==> Writable(os[i])) && Writable(o)
    ensures Parsed(Print(os) + PrintOne(o)) == AllMeant(os) + [Meant(o)]
  {
    var blank: Bytes := if os == [] then [] else [SPACE];
    var st := Scan(RawParts(os), blank, false);
    ScanPrinted(os);
    ScanInTwo(START, Print(os), PrintOne(o));
    ScanOne(st, o);
    RawIsRead(o);
    BlankThen(blank, Raw(o));
    assert Parts(Print(os) + PrintOne(o)) == RawParts(os) + [blank + Raw(o)];
    OptionsStep(RawParts(os), blank + Raw(o), Raw(o));
    PartsAreRead(os);
  }

  lemma BlankThen(blank: Bytes, s: Bytes)
    requires blank in {[], [SPACE]} && Tight(s)
    ensures blank + s != [] && TrimSpace(blank + s) == s
  {
    TrimTight(s);
    assert [] + s == s;
  }

  // ---- A trailing backslash ----

  /** A value that ends in a backslash takes its closing quote for an escaped one. */
  lemma {:induction false} ScanMisread(st: Scan, v: Bytes)
    requires EndsInBackslash(v)
    ensures Scanned(st, Escape(v) + [QUOTE]) == st.(current := st.current + v[..|v| - 1] + [QUOTE])
    decreases |v|
  {
    if |v| == 1 {
      assert v[1..] == [];
      assert Escape(v) + [QUOTE] == [BACKSLASH, QUOTE] + [];
      ScanEscape(st, QUOTE, [], Escape(v) + [QUOTE]);
      assert st.current + v[..0] == st.current;
    } else {
      var rest := Escape(v[1..]) + [QUOTE];
      ScanMisread(st.(current := st.current + [v[0]]), v[1..]);
      assert st.current + [v[0]] + v[1..][..|v| - 2] == st.current + v[..|v| - 1];
      EscapedHead(v[1..]);
      assert Escape(v) + [QUOTE] == (if Escapable(v[0]) then [BACKSLASH, v[0]] else [v[0]]) + rest;
      ScanFirst(st, v, rest, Escape(v) + [QUOTE]);
    }
  }

  lemma ScanMisquoted(key: Bytes, v: Bytes, text: Bytes)
    requires IsKey(key) && EndsInBackslash(v) && text == key + [COLON] + [QUOTE] + (Escape(v) + [QUOTE])
    ensures Scanned(START, text) == Scan([], key + [COLON] + [QUOTE] + v[..|v| - 1] + [QUOTE], true)
  {
    var head := key + [COLON];
    var st := START.(current := head, inQuote := false);
    ScanPlain(START, head);
    assert [] + head == head;
    ScanInTwo(START, head, [QUOTE]);
    ScanByte(st, QUOTE);
    ScanInTwo(START, head + [QUOTE], Escape(v) + [QUOTE]);
    ScanMisread(st.(current := head + [QUOTE], inQuote := true), v);
  }

  /** The semicolon is then taken for part of the value. */
  lemma ScanQuotedEnd(st: Scan)
    requires st.inQuote
    ensures Scanned(st, [SEMICOLON] + [SPACE]) == st.(current := st.current + [SEMICOLON] + [SPACE])
  {
    ScanByte(st, SEMICOLON);
    ScanByte(st.(current := st.current + [SEMICOLON]), SPACE);
    ScanInTwo(st, [SEMICOLON], [SPACE]);
  }

  lemma TrimEnd(s: Bytes)
    requires Tight(s)
    ensures TrimSpace(s + [SPACE]) == s
  {
    var t := s + [SPACE];
    assert t[..|t| - 1] == s && t[0] == s[0];
    assert TrimLeft(t) == t;
    assert TrimRight(s) == s;
  }

  lemma ReadMisquoted(key: Bytes, w: Bytes)
    requires IsKey(key)
    ensures Options([key + [COLON] + [QUOTE] + w + [QUOTE] + [SEMICOLON] + [SPACE]]) ==
      [RuleOption(key, [QUOTE] + w + [QUOTE] + [SEMICOLON])]
  {
    var v := [QUOTE] + w + [QUOTE] + [SEMICOLON];
    var raw := key + [COLON] + v;
    var p := key + [COLON] + [QUOTE] + w + [QUOTE] + [SEMICOLON] + [SPACE];
    assert p == raw + [SPACE];
    assert Tight(v);
    KeyedIsTight(key, v, raw);
    TrimEnd(raw);
    ReadKeyed(key, v);
    OptionsStep([], p, raw);
    assert [] + [p] == [p];
  }

  lemma Misquoted(key: Bytes, v: Bytes)
    requires IsKey(key) && EndsInBackslash(v)
    ensures Parsed(Print([Quoted(key, v)])) == [RuleOption(key, [QUOTE] + v[..|v| - 1] + [QUOTE] + [SEMICOLON])]
  {
    var one := PrintOne(Quoted(key, v));
    assert [Quoted(key, v)][..0] == [];
    assert Print([Quoted(key, v)]) == [] + one + [SEMICOLON] + [SPACE];
    assert Print([Quoted(key, v)]) == one + ([SEMICOLON] + [SPACE]);
    assert one == key + [COLON] + [QUOTE] + (Escape(v) + [QUOTE]);
    ScanMisquoted(key, v, one);
    ScanInTwo(START, one, [SEMICOLON] + [SPACE]);
    ScanQuotedEnd(Scan([], key + [COLON] + [QUOTE] + v[..|v| - 1] + [QUOTE], true));
    ReadMisquoted(key, v[..|v| - 1]);
  }

  /** A quoted value is recovered exactly when it does not end in a backslash: the printed form has
      no escape for the backslash itself. */
  lemma RecoveredIff(key: Bytes, v: Bytes)
    requires IsKey(key)
    ensures Parsed(Print([Quoted(key, v)])) == [Meant(Quoted(key, v))] <==> !EndsInBackslash(v)
  {
    if EndsInBackslash(v) {
      Misquoted(key, v);
      var got := [QUOTE] + v[..|v| - 1] + [QUOTE] + [SEMICOLON];
      var want := [QUOTE] + v + [QUOTE];
      assert got[|got| - 1] != want[|want| - 1];
    } else {
      ParseRecoversPrinted([Quoted(key, v)]);
      assert AllMeant([Quoted(key, v)]) == [Meant(Quoted(key, v))];
    }
  }
}
