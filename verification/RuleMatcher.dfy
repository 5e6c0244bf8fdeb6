/** One rule against one payload: a greedy, leftmost walk over its contents with a sticky cursor. */
module RuleMatcher {
  import opened Bytes
  import opened Common

  datatype Modifier = Modifier(nocase: bool, offset: int, depth: int, distance: int, within: int)

  datatype Content = Content(pattern: Bytes, modifier: Modifier)

  /** The detection options of a rule; a regular expression is any predicate on the payload. */
  datatype Rule = Rule(contents: seq<Content>, pcre: Option<Bytes -> bool>)

  // ---- Case folding ----

  predicate Ascii(s: Bytes) {
    forall i :: 0 <= i < |s| ==> s[i] < 128
  }

  /** The library's lower-casing knows Unicode; on ASCII text it is the ASCII one. */
  ghost predicate FoldsAscii(lower: Bytes -> Bytes) {
    forall s :: Ascii(s) ==> lower(s) == AsciiLower(s)
  }

  // ---- The library search for the first occurrence ----

  function Index(text: Bytes, p: Bytes): int {
    if |p| > |text| then -1
    else if text[..|p|] == p then 0
    else
      var rest := Index(text[1..], p);
      if rest == -1 then -1 else rest + 1
  }

  /** An occurrence behind the first byte is one in the rest. */
  lemma OccursInRest(p: Bytes, text: Bytes, k: int)
    requires text != []
    ensures OccursAt(p, text[1..], k - 1) <==> k >= 1 && OccursAt(p, text, k)
  {
    if 1 <= k <= |text| - |p| {
      var a, b := text[1..][k - 1..k - 1 + |p|], text[k..k + |p|];
      forall j | 0 <= j < |p| ensures a[j] == b[j] {
        assert a[j] == text[1..][k - 1 + j] == text[k + j];
      }
      assert a == b;
    }
  }

  lemma {:induction false} IndexIsFirst(text: Bytes, p: Bytes)
    ensures Index(text, p) >= 0 ==> OccursAt(p, text, Index(text, p))
    ensures forall k :: OccursAt(p, text, k) ==> 0 <= Index(text, p) <= k
    ensures Index(text, p) >= -1
  {
    if |p| <= |text| {
      assert text[0..|p|] == text[..|p|];
      if text[..|p|] != p {
        IndexIsFirst(text[1..], p);
        OccursInRest(p, text, Index(text[1..], p) + 1);
        forall k | OccursAt(p, text, k) ensures 0 <= Index(text, p) <= k {
          OccursInRest(p, text, k);
        }
      }
    }
  }

  // ---- The greedy walk ----

  /** Where the search for a content may begin. */
  function StartOf(m: Modifier, cursor: nat): nat {
    if m.offset >= 0 then m.offset
    else if m.distance >= 0 then cursor + m.distance
    else if m.within >= 0 then cursor
    else 0
  }

  /** Where its window ends, in a payload of `n` bytes. */
  function EndOf(m: Modifier, start: nat, n: nat): nat {
    if m.depth > 0 then (if start + m.depth <= n then start + m.depth else n)
    else if m.within > 0 then (if start + m.within <= n then start + m.within else n)
    else n
  }

  /** The position of a content found from `cursor`, leftmost in its window. */
  function Find(c: Content, payload: Bytes, lower: Bytes -> Bytes, cursor: nat): Option<nat> {
    var start := StartOf(c.modifier, cursor);
    if start > |payload| then None else
      var end := EndOf(c.modifier, start, |payload|);
      if start > end then None else
        var buf := payload[start..end];
        var idx := if c.modifier.nocase then Index(lower(buf), lower(c.pattern)) else Index(buf, c.pattern);
        if idx < 0 then None else Some(start + idx)
  }

  function Walk(contents: seq<Content>, payload: Bytes, lower: Bytes -> Bytes, cursor: nat): bool {
    contents == [] ||
    match Find(contents[0], payload, lower, cursor)
    case None => false
    case Some(p) => Walk(contents[1..], payload, lower, p + |contents[0].pattern|)
  }

  function RuleMatches(r: Rule, payload: Bytes, lower: Bytes -> Bytes): bool {
    Walk(r.contents, payload, lower, 0) && (r.pcre.Some? ==> r.pcre.value(payload))
  }

  /** One round of the loop: the position of `content` after `cursor`, or -1. */
  method FindContent(content: Content, payload: Bytes, lower: Bytes -> Bytes, cursor: nat) returns (pos: int)
    ensures match Find(content, payload, lower, cursor) case None => pos == -1 case Some(p) => pos == p
  {
    var m := content.modifier;
    var start: nat := 0;
    if m.offset >= 0 {
      start := m.offset;
    } else if m.distance >= 0 {
      start := cursor + m.distance;
    } else if m.within >= 0 {
      start := cursor;
    }
    if start > |payload| {
      return -1;
    }
    var end := |payload|;
    if m.depth > 0 {
      if start + m.depth <= end {
        end := start + m.depth;
      }
    } else if m.within > 0 {
      if start + m.within <= end {
        end := start + m.within;
      }
    }
    if start > end {
      return -1;
    }
    var searchBuf := payload[start..end];
    var matchIdx;
    if m.nocase {
      matchIdx := Index(lower(searchBuf), lower(content.pattern));
    } else {
      matchIdx := Index(searchBuf, content.pattern);
    }
    if matchIdx < 0 {
      return -1;
    }
    return start + matchIdx;
  }

  /** What the search for content `i` decides: failure, or where the walk goes on. */
  lemma WalkStep(contents: seq<Content>, i: nat, payload: Bytes, lower: Bytes -> Bytes, cursor: nat, pos: int)
    requires i < |contents|
    requires match Find(contents[i], payload, lower, cursor) case None => pos == -1 case Some(p) => pos == p
    ensures pos == -1 ==> !Walk(contents[i..], payload, lower, cursor)
    ensures pos >= 0 ==> Walk(contents[i..], payload, lower, cursor) == Walk(contents[i + 1..], payload, lower, pos + |contents[i].pattern|)
  {
    assert contents[i..][1..] == contents[i + 1..];
  }

  /** The loop over the contents. */
  method FindAll(contents: seq<Content>, payload: Bytes, lower: Bytes -> Bytes) returns (ok: bool)
    ensures ok == Walk(contents, payload, lower, 0)
  {
    var cursor: nat := 0;
    assert contents[0..] == contents;
    for i := 0 to |contents|
      invariant Walk(contents, payload, lower, 0) == Walk(contents[i..], payload, lower, cursor)
    {
      var pos := FindContent(contents[i], payload, lower, cursor);
      WalkStep(contents, i, payload, lower, cursor, pos);
      if pos == -1 {
        return false;
      }
      cursor := pos + |contents[i].pattern|;
    }
    return true;
  }

  method Match(r: Rule, payload: Bytes, lower: Bytes -> Bytes) returns (ok: bool)
    ensures ok == RuleMatches(r, payload, lower)
    ensures ok <==> Walk(r.contents, payload, lower, 0) && (r.pcre.Some? ==> r.pcre.value(payload))
  {
    ok := FindAll(r.contents, payload, lower);
    if ok && r.pcre.Some? {
      if !r.pcre.value(payload) {
        return false;
      }
    }
  }

  // ---- What a match means ----

  /** What is searched for in what, once ASCII case is folded. */
  ghost function Pattern(c: Content): Bytes {
    if c.modifier.nocase then AsciiLower(c.pattern) else c.pattern
  }

  ghost function Text(c: Content, payload: Bytes): Bytes {
    if c.modifier.nocase then AsciiLower(payload) else payload
  }

  /** The pattern of `c` stands at position `p` of the payload, up to case for `nocase`. */
  ghost predicate StandsAt(c: Content, payload: Bytes, p: nat) {
    OccursAt(Pattern(c), Text(c, payload), p)
  }

  /** `p..end` lies in a window that opens at `first`: `depth` limits it, or else `within`. */
  predicate InWindow(m: Modifier, first: int, p: int, end: int) {
    && first <= p
    && (m.depth > 0 ==> end <= first + m.depth)
    && (m.depth <= 0 && m.within > 0 ==> end <= first + m.within)
  }

  /** The pattern of `c` stands at `p` and keeps to its modifiers: `offset` counts from the start of the
      payload, `distance` from the end of the content before, `within` alone too. */
  ghost predicate Allowed(c: Content, payload: Bytes, cursor: nat, p: nat) {
    var m, end := c.modifier, p + |c.pattern|;
    && StandsAt(c, payload, p)
    && (m.offset >= 0 ==> InWindow(m, m.offset, p, end))
    && (m.offset < 0 && m.distance >= 0 ==> InWindow(m, cursor + m.distance, p, end))
    && (m.offset < 0 && m.distance < 0 && m.within >= 0 ==> InWindow(m, cursor, p, end))
    && (m.offset < 0 && m.distance < 0 && m.within < 0 ==> InWindow(m, 0, p, end))
  }

  /** The same in terms of the window that the walk computes. */
  lemma AllowedIffInside(c: Content, payload: Bytes, cursor: nat, p: nat)
    ensures var start := StartOf(c.modifier, cursor);
      Allowed(c, payload, cursor, p) <==>
        start <= |payload| && start <= p && p + |c.pattern| <= EndOf(c.modifier, start, |payload|) && StandsAt(c, payload, p)
  {
  }

  /** `ps` places every content, each inside the window left by the one before it. */
  ghost predicate Placement(contents: seq<Content>, payload: Bytes, cursor: nat, ps: seq<nat>) {
    && |ps| == |contents|
    && (contents == [] ||
        (Allowed(contents[0], payload, cursor, ps[0])
         && Placement(contents[1..], payload, ps[0] + |contents[0].pattern|, ps[1..])))
  }

  /** Case-insensitive contents meet ASCII text only. */
  ghost predicate FoldsSafely(contents: seq<Content>, payload: Bytes) {
    contents == [] || (FoldsSafelyAt(contents[0], payload) && FoldsSafely(contents[1..], payload))
  }

  predicate FoldsSafelyAt(c: Content, payload: Bytes) {
    c.modifier.nocase ==> Ascii(payload) && Ascii(c.pattern)
  }

  lemma OccursInWindow(p: Bytes, text: Bytes, lo: nat, hi: nat, k: int)
    requires lo <= hi <= |text|
    ensures OccursAt(p, text[lo..hi], k) <==> k >= 0 && OccursAt(p, text, lo + k) && lo + k + |p| <= hi
  {
    if 0 <= k && lo + k + |p| <= hi {
      var a, b := text[lo..hi][k..k + |p|], text[lo + k..lo + k + |p|];
      forall j | 0 <= j < |p| ensures a[j] == b[j] {
        assert a[j] == text[lo..hi][k + j] == text[lo + k + j];
      }
      assert a == b;
    }
  }

  lemma FindSearchesWindow(c: Content, payload: Bytes, lower: Bytes -> Bytes, cursor: nat)
    requires FoldsAscii(lower) && FoldsSafelyAt(c, payload)
    ensures var start := StartOf(c.modifier, cursor);
      if start > |payload| then Find(c, payload, lower, cursor) == None else
        var idx := Index(Text(c, payload)[start..EndOf(c.modifier, start, |payload|)], Pattern(c));
        Find(c, payload, lower, cursor) == if idx < 0 then None else Some(start + idx)
  {
    var start := StartOf(c.modifier, cursor);
    var end := EndOf(c.modifier, start, |payload|);
    if start <= |payload| && c.modifier.nocase {
      assert Ascii(payload[start..end]) && AsciiLower(payload[start..end]) == Text(c, payload)[start..end];
    }
  }

  /** What is found is allowed. */
  lemma FoundIsAllowed(c: Content, payload: Bytes, lower: Bytes -> Bytes, cursor: nat)
    requires FoldsAscii(lower) && FoldsSafelyAt(c, payload)
    ensures Find(c, payload, lower, cursor).Some? ==> Allowed(c, payload, cursor, Find(c, payload, lower, cursor).value)
  {
    var start := StartOf(c.modifier, cursor);
    FindSearchesWindow(c, payload, lower, cursor);
    if start <= |payload| {
      var end := EndOf(c.modifier, start, |payload|);
      var idx := Index(Text(c, payload)[start..end], Pattern(c));
      IndexIsFirst(Text(c, payload)[start..end], Pattern(c));
      OccursInWindow(Pattern(c), Text(c, payload), start, end, idx);
      if idx >= 0 {
        AllowedIffInside(c, payload, cursor, start + idx);
      }
    }
  }

  /** Nothing allowed lies before what is found. */
  lemma FindIsLeftmost(c: Content, payload: Bytes, lower: Bytes -> Bytes, cursor: nat, p: nat)
    requires FoldsAscii(lower) && FoldsSafelyAt(c, payload)
    requires Allowed(c, payload, cursor, p)
    ensures Find(c, payload, lower, cursor).Some? && Find(c, payload, lower, cursor).value <= p
  {
    var start := StartOf(c.modifier, cursor);
    FindSearchesWindow(c, payload, lower, cursor);
    AllowedIffInside(c, payload, cursor, p);
    var end := EndOf(c.modifier, start, |payload|);
    OccursInWindow(Pattern(c), Text(c, payload), start, end, p - start);
    IndexIsFirst(Text(c, payload)[start..end], Pattern(c));
  }

  /** The search finds exactly the leftmost place that the modifiers allow. */
  lemma FindIff(c: Content, payload: Bytes, lower: Bytes -> Bytes, cursor: nat)
    requires FoldsAscii(lower) && FoldsSafelyAt(c, payload)
    ensures forall p: nat :: Find(c, payload, lower, cursor) == Some(p) <==>
      Allowed(c, payload, cursor, p) && forall q: nat :: q < p ==> !Allowed(c, payload, cursor, q)
  {
    FoundIsAllowed(c, payload, lower, cursor);
    forall q: nat | Allowed(c, payload, cursor, q)
      ensures Find(c, payload, lower, cursor).Some? && Find(c, payload, lower, cursor).value <= q
    {
      FindIsLeftmost(c, payload, lower, cursor, q);
    }
  }

  lemma PlacedFirst(contents: seq<Content>, payload: Bytes, cursor: nat, p: nat, rest: seq<nat>, ps: seq<nat>)
    requires contents != [] && Allowed(contents[0], payload, cursor, p) && ps == [p] + rest
    requires Placement(contents[1..], payload, p + |contents[0].pattern|, rest)
    ensures Placement(contents, payload, cursor, ps)
  {
    HeadAndTail(p, rest, ps);
  }

  lemma HeadAndTail(p: nat, rest: seq<nat>, ps: seq<nat>)
    requires ps == [p] + rest
    ensures ps[0] == p && ps[1..] == rest
  {
  }

  /** Soundness: a walk that succeeds has placed every content inside its window. */
  lemma {:induction false} WalkIsSound(contents: seq<Content>, payload: Bytes, lower: Bytes -> Bytes, cursor: nat) returns (ps: seq<nat>)
    requires FoldsAscii(lower) && FoldsSafely(contents, payload) && Walk(contents, payload, lower, cursor)
    ensures Placement(contents, payload, cursor, ps)
  {
    ps := [];
    if contents != [] {
      var c := contents[0];
      FoundIsAllowed(c, payload, lower, cursor);
      var p := Find(c, payload, lower, cursor).value;
      var rest := WalkIsSound(contents[1..], payload, lower, p + |c.pattern|);
      ps := [p] + rest;
      PlacedFirst(contents, payload, cursor, p, rest, ps);
    }
  }

  /** A content whose window follows the cursor has no far limit. */
  predicate OpenEnded(m: Modifier) {
    m.offset < 0 && (m.distance >= 0 || m.within >= 0) ==> m.depth <= 0 && m.within <= 0
  }

  predicate AllOpenEnded(contents: seq<Content>) {
    contents == [] || (OpenEnded(contents[0].modifier) && AllOpenEnded(contents[1..]))
  }

  /** Moving the cursor back keeps a position allowed when the window is open-ended. */
  lemma EarlierCursor(c: Content, payload: Bytes, cursor: nat, cursor': nat, p: nat)
    requires OpenEnded(c.modifier) && cursor' <= cursor && Allowed(c, payload, cursor, p)
    ensures Allowed(c, payload, cursor', p)
  {
  }

  datatype Aspect = Folding | Openness | Placing

  ghost predicate CompleteAspect(aspect: Aspect, contents: seq<Content>, payload: Bytes, cursor: nat, cursor': nat, ps: seq<nat>) {
    match aspect
    case Folding => FoldsSafely(contents, payload)
    case Openness => AllOpenEnded(contents)
    case Placing => cursor <= cursor' && Placement(contents, payload, cursor', ps)
  }

  /** What the walk of open-ended contents rests on: they are placed from a cursor no earlier. */
  ghost predicate Completable(contents: seq<Content>, payload: Bytes, cursor: nat, cursor': nat, ps: seq<nat>) {
    forall aspect :: CompleteAspect(aspect, contents, payload, cursor, cursor', ps)
  }

  lemma CompletableTail(contents: seq<Content>, payload: Bytes, lower: Bytes -> Bytes, cursor: nat, cursor': nat, ps: seq<nat>)
    returns (p: nat, q: nat, qs: seq<nat>)
    requires FoldsAscii(lower) && contents != [] && Completable(contents, payload, cursor, cursor', ps)
    ensures Find(contents[0], payload, lower, cursor) == Some(p)
    ensures Completable(contents[1..], payload, p + |contents[0].pattern|, q, qs)
  {
    var c := contents[0];
    assert CompleteAspect(Folding, contents, payload, cursor, cursor', ps) && CompleteAspect(Openness, contents, payload, cursor, cursor', ps)
      && CompleteAspect(Placing, contents, payload, cursor, cursor', ps);
    EarlierCursor(c, payload, cursor', cursor, ps[0]);
    FindIsLeftmost(c, payload, lower, cursor, ps[0]);
    p := Find(c, payload, lower, cursor).value;
    q, qs := ps[0] + |c.pattern|, ps[1..];
  }

  lemma {:induction false} CompletableWalks(contents: seq<Content>, payload: Bytes, lower: Bytes -> Bytes, cursor: nat, cursor': nat, ps: seq<nat>)
    requires FoldsAscii(lower) && Completable(contents, payload, cursor, cursor', ps)
    ensures Walk(contents, payload, lower, cursor)
    decreases |contents|
  {
    if contents != [] {
      var p, q, qs := CompletableTail(contents, payload, lower, cursor, cursor', ps);
      CompletableWalks(contents[1..], payload, lower, p + |contents[0].pattern|, q, qs);
    }
  }

  /** Completeness of the greedy choice: the leftmost position leaves the most room, so whenever
      open-ended contents can be placed at all, even from a later cursor, the walk succeeds. */
  lemma WalkIsComplete(contents: seq<Content>, payload: Bytes, lower: Bytes -> Bytes, cursor: nat, cursor': nat, ps: seq<nat>)
    requires FoldsAscii(lower) && FoldsSafely(contents, payload)
    requires AllOpenEnded(contents)
    requires cursor <= cursor' && Placement(contents, payload, cursor', ps)
    ensures Walk(contents, payload, lower, cursor)
  {
    CompletableWalks(contents, payload, lower, cursor, cursor', ps);
  }

  ghost predicate Placeable(contents: seq<Content>, payload: Bytes) {
    exists ps :: Placement(contents, payload, 0, ps)
  }

  /** The first content may be limited too: its window never moves. */
  lemma PlacedIsFound(contents: seq<Content>, payload: Bytes, lower: Bytes -> Bytes, ps: seq<nat>)
    requires FoldsAscii(lower) && FoldsSafely(contents, payload)
    requires contents != [] && AllOpenEnded(contents[1..])
    requires Placement(contents, payload, 0, ps)
    ensures Walk(contents, payload, lower, 0)
  {
    var c := contents[0];
    FindIsLeftmost(c, payload, lower, 0, ps[0]);
    var p := Find(c, payload, lower, 0).value;
    WalkIsComplete(contents[1..], payload, lower, p + |c.pattern|, ps[0] + |c.pattern|, ps[1..]);
  }

  /** When every content after the first is open-ended, the greedy walk decides exactly whether
      the contents can be placed. */
  lemma WalkIffPlaceable(contents: seq<Content>, payload: Bytes, lower: Bytes -> Bytes)
    requires FoldsAscii(lower) && FoldsSafely(contents, payload)
    requires contents != [] && AllOpenEnded(contents[1..])
    ensures Walk(contents, payload, lower, 0) <==> Placeable(contents, payload)
  {
    if Walk(contents, payload, lower, 0) {
      var ps := WalkIsSound(contents, payload, lower, 0);
    } else if Placeable(contents, payload) {
      var ps :| Placement(contents, payload, 0, ps);
      PlacedIsFound(contents, payload, lower, ps);
    }
  }

  /** A limited relative content can defeat the greedy choice: "a" then "b" right after it, in "aab". */
  lemma GreedyMissesPlacement(lower: Bytes -> Bytes) returns (contents: seq<Content>, payload: Bytes, ps: seq<nat>)
    ensures |contents| == 2 && !OpenEnded(contents[1].modifier)
    ensures Placement(contents, payload, 0, ps) && !Walk(contents, payload, lower, 0)
  {
    var a, b := 'a' as int, 'b' as int;
    contents := [Content([a], Modifier(false, -1, -1, -1, -1)), Content([b], Modifier(false, -1, -1, 0, 1))];
    payload, ps := [a, a, b], [1, 2];
    assert payload[1..2] == [a] && payload[2..3] == [b];
    assert contents[1..] == [contents[1]] && ps[1..] == [2] && [contents[1]][1..] == [] && [2][1..] == [];
    assert Placement(contents[1..], payload, 2, ps[1..]);
    assert payload[0..3][..1] == [a] && Find(contents[0], payload, lower, 0) == Some(0);
    assert payload[1..2][..1] == [a] && Index(payload[1..2], [b]) == -1;
  }
}
