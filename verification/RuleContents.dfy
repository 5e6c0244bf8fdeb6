/** Contents with their modifiers, written as the options of a rule and read back. */
module RuleContents {
  import opened Bytes
  import opened Common
  import opened RuleMatcher
  import opened RuleParser
  import O = RuleOptions
  import H = HexContent

  // ---- Writing ----

  datatype Setting = Nocase | Offset(n: int) | Depth(n: int) | Distance(n: int) | Within(n: int)

  /** A content as it is written: its text in pieces, and its modifiers in some order. */
  datatype Written = Written(pieces: seq<H.Piece>, settings: seq<Setting>)

  function Letters(s: string): Bytes {
    seq(|s|, i requires 0 <= i < |s| => if s[i] as int < 256 then s[i] as int else 0)
  }

  /** `itoa` prints numbers. */
  function SettingOption(s: Setting, itoa: int -> Bytes): O.Printable {
    match s
    case Nocase => O.Flag(Letters("nocase"))
    case Offset(n) => O.Plain(Letters("offset"), itoa(n))
    case Depth(n) => O.Plain(Letters("depth"), itoa(n))
    case Distance(n) => O.Plain(Letters("distance"), itoa(n))
    case Within(n) => O.Plain(Letters("within"), itoa(n))
  }

  function SettingOptions(settings: seq<Setting>, itoa: int -> Bytes): seq<O.Printable> {
    if settings == [] then [] else
      var n := |settings| - 1;
      SettingOptions(settings[..n], itoa) + [SettingOption(settings[n], itoa)]
  }

  function OptionsOf(w: Written, itoa: int -> Bytes): seq<O.Printable> {
    [O.Quoted(Letters("content"), H.Print(w.pieces))] + SettingOptions(w.settings, itoa)
  }

  function AllOptions(ws: seq<Written>, itoa: int -> Bytes): seq<O.Printable> {
    if ws == [] then [] else AllOptions(ws[..|ws| - 1], itoa) + OptionsOf(ws[|ws| - 1], itoa)
  }

  // ---- What is meant ----

  /** The setting gives the modifier its value. */
  predicate Agrees(s: Setting, m: Modifier) {
    match s
    case Nocase => m.nocase
    case Offset(n) => m.offset == n
    case Depth(n) => m.depth == n
    case Distance(n) => m.distance == n
    case Within(n) => m.within == n
  }

  /** The settings say what the modifier says: a field without a setting is -1, or false. */
  predicate Sets(settings: seq<Setting>, m: Modifier) {
    && (forall s :: s in settings ==> Agrees(s, m))
    && (m.nocase ==> Nocase in settings) && (m.offset == -1 || Offset(m.offset) in settings) && (m.depth == -1 || Depth(m.depth) in settings)
    && (m.distance == -1 || Distance(m.distance) in settings) && (m.within == -1 || Within(m.within) in settings)
  }

  /** A content that ignores case is kept in lower case. */
  predicate Describes(w: Written, c: Content) {
    Sets(w.settings, c.modifier) && c.pattern == if c.modifier.nocase then AsciiLower(H.AllBytes(w.pieces)) else H.AllBytes(w.pieces)
  }

  /** The text round-trips: see `RuleParser.ContentRoundTripIff`. */
  predicate TextReads(w: Written) {
    && (forall i :: 0 <= i < |w.pieces| ==> H.Printable(w.pieces[i])) && H.AllBytes(w.pieces) != []
    && var v := H.Print(w.pieces); v != [] && v[0] != O.QUOTE && v[|v| - 1] != O.QUOTE && v[|v| - 1] != O.BACKSLASH
  }

  /** The numbers in use are printed as plain values that `atoi` reads back. */
  predicate NumberReads(s: Setting, itoa: int -> Bytes, atoi: Bytes -> int) {
    !s.Nocase? ==> O.IsPlainValue(itoa(s.n)) && atoi(itoa(s.n)) == s.n
  }

  predicate Readable(w: Written, itoa: int -> Bytes, atoi: Bytes -> int) {
    TextReads(w) && forall s :: s in w.settings ==> NumberReads(s, itoa, atoi)
  }

  /** `w` writes down `c`, readably. */
  predicate Fits(w: Written, c: Content, itoa: int -> Bytes, atoi: Bytes -> int) {
    Describes(w, c) && Readable(w, itoa, atoi)
  }

  predicate AllFit(ws: seq<Written>, cs: seq<Content>, itoa: int -> Bytes, atoi: Bytes -> int) {
    |ws| == |cs| && forall i :: 0 <= i < |ws| ==> Fits(ws[i], cs[i], itoa, atoi)
  }

  // ---- The options are written as the parser expects ----

  lemma KeyContent()
    ensures Letters("content") == CONTENT && O.IsKey(CONTENT)
  {
  }

  lemma KeyNocase()
    ensures Letters("nocase") == NOCASE && O.IsKey(NOCASE)
  {
  }

  lemma KeyOffset()
    ensures Letters("offset") == OFFSET && O.IsKey(OFFSET)
  {
  }

  lemma KeyDepth()
    ensures Letters("depth") == DEPTH && O.IsKey(DEPTH)
  {
  }

  lemma KeyDistance()
    ensures Letters("distance") == DISTANCE && O.IsKey(DISTANCE)
  {
  }

  lemma KeyWithin()
    ensures Letters("within") == WITHIN && O.IsKey(WITHIN)
  {
  }

  lemma Keys()
    ensures Letters("content") == CONTENT && Letters("nocase") == NOCASE && Letters("offset") == OFFSET
    ensures Letters("depth") == DEPTH && Letters("distance") == DISTANCE && Letters("within") == WITHIN
    ensures O.IsKey(CONTENT) && O.IsKey(NOCASE) && O.IsKey(OFFSET) && O.IsKey(DEPTH) && O.IsKey(DISTANCE) && O.IsKey(WITHIN)
  {
    KeyContent();
    KeyNocase();
    KeyOffset();
    KeyDepth();
    KeyDistance();
    KeyWithin();
  }

  lemma SettingIsWritable(s: Setting, itoa: int -> Bytes, atoi: Bytes -> int)
    requires NumberReads(s, itoa, atoi)
    ensures O.Writable(SettingOption(s, itoa))
  {
    Keys();
  }

  predicate AllWritable(os: seq<O.Printable>) {
    forall o :: o in os ==> O.Writable(o)
  }

  lemma BothWritable(a: seq<O.Printable>, b: seq<O.Printable>)
    requires AllWritable(a) && AllWritable(b)
    ensures AllWritable(a + b)
  {
  }

  lemma OneWritable(o: O.Printable)
    requires O.Writable(o)
    ensures AllWritable([o])
  {
  }

  lemma {:induction false} SettingsAreWritable(settings: seq<Setting>, itoa: int -> Bytes, atoi: Bytes -> int)
    requires forall s :: s in settings ==> NumberReads(s, itoa, atoi)
    ensures AllWritable(SettingOptions(settings, itoa))
  {
    if settings != [] {
      var n := |settings| - 1;
      SettingsAreWritable(settings[..n], itoa, atoi);
      SettingIsWritable(settings[n], itoa, atoi);
      OneWritable(SettingOption(settings[n], itoa));
      BothWritable(SettingOptions(settings[..n], itoa), [SettingOption(settings[n], itoa)]);
    }
  }

  lemma TextIsWritable(w: Written)
    requires TextReads(w)
    ensures O.Writable(O.Quoted(Letters("content"), H.Print(w.pieces)))
  {
    KeyContent();
  }

  lemma WrittenIsWritable(w: Written, itoa: int -> Bytes, atoi: Bytes -> int)
    requires Readable(w, itoa, atoi)
    ensures AllWritable(OptionsOf(w, itoa))
  {
    TextIsWritable(w);
    OneWritable(O.Quoted(Letters("content"), H.Print(w.pieces)));
    SettingsAreWritable(w.settings, itoa, atoi);
    BothWritable([O.Quoted(Letters("content"), H.Print(w.pieces))], SettingOptions(w.settings, itoa));
  }

  lemma {:induction false} AllAreWritable(ws: seq<Written>, cs: seq<Content>, itoa: int -> Bytes, atoi: Bytes -> int)
    requires AllFit(ws, cs, itoa, atoi)
    ensures AllWritable(AllOptions(ws, itoa))
  {
    if ws != [] {
      var n := |ws| - 1;
      AllAreWritable(ws[..n], cs[..n], itoa, atoi);
      assert Fits(ws[n], cs[n], itoa, atoi);
      WrittenIsWritable(ws[n], itoa, atoi);
      BothWritable(AllOptions(ws[..n], itoa), OptionsOf(ws[n], itoa));
    }
  }

  // ---- One content ----

  /** The modifier when only some of its settings have been read. */
  ghost function Upto(settings: seq<Setting>, m: Modifier): Modifier {
    Modifier(Nocase in settings,
      if exists n :: Offset(n) in settings then m.offset else -1, if exists n :: Depth(n) in settings then m.depth else -1,
      if exists n :: Distance(n) in settings then m.distance else -1, if exists n :: Within(n) in settings then m.within else -1)
  }

  ghost function ContentUpto(settings: seq<Setting>, m: Modifier, bytes: Bytes): Content {
    Content(if Nocase in settings then AsciiLower(bytes) else bytes, Upto(settings, m))
  }

  lemma SettingIsRead(d: seq<Setting>, s: Setting, settings: seq<Setting>, m: Modifier, bytes: Bytes, itoa: int -> Bytes, atoi: Bytes -> int)
    requires settings == d + [s] && Agrees(s, m) && NumberReads(s, itoa, atoi)
    ensures Modified(ContentUpto(d, m, bytes), O.Meant(SettingOption(s, itoa)), atoi) == ContentUpto(settings, m, bytes)
  {
    Keys();
    FoldsOnce(bytes);
    assert forall t :: t in settings <==> t in d || t == s;
    assert s in settings;
  }

  /** A setting goes to the last content. */
  lemma AppliedToLast(cs: seq<Content>, c: Content, o: O.RuleOption, atoi: Bytes -> int)
    requires o.key != CONTENT
    ensures Applied(cs + [c], o, atoi) == cs + [Modified(c, o, atoi)]
  {
    assert (cs + [c])[..|cs|] == cs;
  }

  lemma SettingKeys(s: Setting, itoa: int -> Bytes)
    ensures O.Meant(SettingOption(s, itoa)).key != CONTENT
  {
    Keys();
    assert CONTENT[0] != NOCASE[0] && CONTENT[0] != OFFSET[0] && CONTENT[0] != DEPTH[0] && CONTENT[0] != DISTANCE[0] && CONTENT[0] != WITHIN[0];
  }

  lemma MeantAppend(os: seq<O.Printable>, o: O.Printable)
    ensures O.AllMeant(os + [o]) == O.AllMeant(os) + [O.Meant(o)]
  {
  }

  /** The options `os` are read as the contents `cs`. */
  ghost predicate Yields(os: seq<O.Printable>, cs: seq<Content>, atoi: Bytes -> int) {
    forall part: seq<Content> :: part == cs ==> YieldsOne(os, part, atoi)
  }

  ghost predicate YieldsOne(os: seq<O.Printable>, cs: seq<Content>, atoi: Bytes -> int) {
    Contents(O.AllMeant(os), atoi) == cs
  }

  /** The options of `w` up to some of its settings. */
  function Part(w: Written, settings: seq<Setting>, itoa: int -> Bytes): seq<O.Printable> {
    [O.Quoted(Letters("content"), H.Print(w.pieces))] + SettingOptions(settings, itoa)
  }

  lemma PartFirst(os: seq<O.Printable>, w: Written, itoa: int -> Bytes)
    ensures os + Part(w, [], itoa) == os + [O.Quoted(Letters("content"), H.Print(w.pieces))]
  {
  }

  lemma PartStep(os: seq<O.Printable>, w: Written, d: seq<Setting>, s: Setting, settings: seq<Setting>, itoa: int -> Bytes)
    requires settings == d + [s]
    ensures os + Part(w, settings, itoa) == os + Part(w, d, itoa) + [SettingOption(s, itoa)]
  {
    assert settings[..|settings| - 1] == d;
  }

  /** After `os` they add the content as far as it is described. */
  lemma {:induction false} SettingsAreRead(os: seq<O.Printable>, w: Written, settings: seq<Setting>, m: Modifier, cs: seq<Content>,
      itoa: int -> Bytes, atoi: Bytes -> int)
    requires TextReads(w) && Yields(os, cs, atoi)
    requires forall s :: s in settings ==> Agrees(s, m) && NumberReads(s, itoa, atoi)
    ensures Yields(os + Part(w, settings, itoa), cs + [ContentUpto(settings, m, H.AllBytes(w.pieces))], atoi)
  {
    if settings == [] {
      PartFirst(os, w, itoa);
      TextIsRead(os, w, cs, m, atoi);
    } else {
      var n := |settings| - 1;
      var d, s := settings[..n], settings[n];
      assert settings == d + [s];
      SettingsAreRead(os, w, d, m, cs, itoa, atoi);
      PartStep(os, w, d, s, settings, itoa);
      OneSettingIsRead(os + Part(w, d, itoa), d, s, settings, m, cs, H.AllBytes(w.pieces), itoa, atoi);
    }
  }

  lemma OneSettingIsRead(before: seq<O.Printable>, d: seq<Setting>, s: Setting, settings: seq<Setting>, m: Modifier, cs: seq<Content>, bytes: Bytes,
      itoa: int -> Bytes, atoi: Bytes -> int)
    requires settings == d + [s] && Agrees(s, m) && NumberReads(s, itoa, atoi)
    requires Yields(before, cs + [ContentUpto(d, m, bytes)], atoi)
    ensures Yields(before + [SettingOption(s, itoa)], cs + [ContentUpto(settings, m, bytes)], atoi)
  {
    assert YieldsOne(before, cs + [ContentUpto(d, m, bytes)], atoi);
    var o := O.Meant(SettingOption(s, itoa));
    MeantAppend(before, SettingOption(s, itoa));
    OneMore(O.AllMeant(before), o, O.AllMeant(before + [SettingOption(s, itoa)]), atoi);
    SettingKeys(s, itoa);
    AppliedToLast(cs, ContentUpto(d, m, bytes), o, atoi);
    SettingIsRead(d, s, settings, m, bytes, itoa, atoi);
  }

  lemma TextIsRead(os: seq<O.Printable>, w: Written, cs: seq<Content>, m: Modifier, atoi: Bytes -> int)
    requires TextReads(w) && Yields(os, cs, atoi)
    ensures Yields(os + [O.Quoted(Letters("content"), H.Print(w.pieces))], cs + [ContentUpto([], m, H.AllBytes(w.pieces))], atoi)
  {
    assert YieldsOne(os, cs, atoi);
    var v := H.Print(w.pieces);
    var q := O.Quoted(Letters("content"), v);
    MeantAppend(os, q);
    OneMore(O.AllMeant(os), O.Meant(q), O.AllMeant(os + [q]), atoi);
    TextIsMeant(w, O.Meant(q));
    AppliedText(cs, O.Meant(q), H.AllBytes(w.pieces), atoi);
    NothingSet(m, H.AllBytes(w.pieces));
  }

  lemma TextIsMeant(w: Written, o: O.RuleOption)
    requires TextReads(w) && o == O.Meant(O.Quoted(Letters("content"), H.Print(w.pieces)))
    ensures o.key == CONTENT && H.Meaning(TrimQuotes(o.value)) == Some(H.AllBytes(w.pieces)) && H.AllBytes(w.pieces) != []
  {
    KeyContent();
    TrimsQuotes(H.Print(w.pieces));
    H.ParseInvertsPrint(w.pieces);
  }

  lemma AppliedText(cs: seq<Content>, o: O.RuleOption, bytes: Bytes, atoi: Bytes -> int)
    requires o.key == CONTENT && H.Meaning(TrimQuotes(o.value)) == Some(bytes) && bytes != []
    ensures Applied(cs, o, atoi) == cs + [Content(bytes, UNLIMITED)]
  {
  }

  lemma NothingSet(m: Modifier, bytes: Bytes)
    ensures ContentUpto([], m, bytes) == Content(bytes, UNLIMITED)
  {
  }

  lemma DescribedInFull(w: Written, c: Content)
    requires Describes(w, c)
    ensures ContentUpto(w.settings, c.modifier, H.AllBytes(w.pieces)) == c
  {
  }

  lemma {:induction false} AllAreRead(ws: seq<Written>, cs: seq<Content>, itoa: int -> Bytes, atoi: Bytes -> int)
    requires AllFit(ws, cs, itoa, atoi)
    ensures Yields(AllOptions(ws, itoa), cs, atoi)
  {
    if ws == [] {
      assert YieldsOne([], [], atoi);
    } else {
      var n := |ws| - 1;
      AllAreRead(ws[..n], cs[..n], itoa, atoi);
      FrontAndLast(cs);
      OneIsRead(AllOptions(ws[..n], itoa), ws[n], cs[n], cs[..n], cs, itoa, atoi);
    }
  }

  lemma FrontAndLast(cs: seq<Content>)
    requires cs != []
    ensures cs == cs[..|cs| - 1] + [cs[|cs| - 1]]
  {
  }

  lemma OneIsRead(os: seq<O.Printable>, w: Written, c: Content, d: seq<Content>, cs: seq<Content>, itoa: int -> Bytes, atoi: Bytes -> int)
    requires Yields(os, d, atoi) && cs == d + [c] && Fits(w, c, itoa, atoi)
    ensures Yields(os + OptionsOf(w, itoa), cs, atoi)
  {
    SettingsAreRead(os, w, w.settings, c.modifier, d, itoa, atoi);
    DescribedInFull(w, c);
  }

  /** Every list of contents is read back with all its modifiers, in whatever order they are written
      after their content. */
  lemma {:induction false} ContentsRoundTrip(ws: seq<Written>, cs: seq<Content>, itoa: int -> Bytes, atoi: Bytes -> int)
    requires AllFit(ws, cs, itoa, atoi)
    ensures Contents(O.Parsed(O.Print(AllOptions(ws, itoa))), atoi) == cs
  {
    AllAreWritable(ws, cs, itoa, atoi);
    AllAreRead(ws, cs, itoa, atoi);
    YieldedIsParsed(AllOptions(ws, itoa), cs, atoi);
  }

  lemma YieldedIsParsed(os: seq<O.Printable>, cs: seq<Content>, atoi: Bytes -> int)
    requires AllWritable(os) && Yields(os, cs, atoi)
    ensures Contents(O.Parsed(O.Print(os)), atoi) == cs
  {
    O.ParseRecoversPrinted(os);
    assert YieldsOne(os, cs, atoi);
  }

  // ---- What is passed over ----

  /** An option with another key is passed over; so is a content that is empty or cannot be read, and a
      modifier before the first content. */
  lemma PassedOver(os: seq<O.RuleOption>, o: O.RuleOption, atoi: Bytes -> int)
    requires o.key !in {Letters("content"), Letters("nocase"), Letters("offset"), Letters("depth"), Letters("distance"), Letters("within")}
      || (o.key == Letters("content") && H.Meaning(TrimQuotes(o.value)) in {None, Some([])})
      || (o.key != Letters("content") && Contents(os, atoi) == [])
    ensures Contents(os + [o], atoi) == Contents(os, atoi)
  {
    Keys();
    OneMore(os, o, os + [o], atoi);
    var cs := Contents(os, atoi);
    if o.key != CONTENT && cs != [] {
      assert Modified(cs[|cs| - 1], o, atoi) == cs[|cs| - 1];
    }
  }
}
