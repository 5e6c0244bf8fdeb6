/** Exactly when the greedy walk is complete: for which modifiers it finds a match of every list of
    patterns, in every payload, whenever there is a placement. */
module RuleGreedy {
  import opened Bytes
  import opened Common
  import opened RuleMatcher

  // ---- The condition ----

  /** The window does not move with the cursor. */
  predicate Absolute(m: Modifier) {
    m.offset >= 0 || (m.distance < 0 && m.within < 0)
  }

  /** The length of the window; 0 stands for no limit. */
  function Limit(m: Modifier): nat {
    if m.depth > 0 then m.depth else if m.within > 0 then m.within else 0
  }

  /** After a content the cursor can only be in one place: its window has room for one byte and does
      not move, or starts at a cursor that could only be in one place (`fixed`). */
  predicate Fixes(m: Modifier, fixed: bool) {
    Limit(m) == 1 && (Absolute(m) || fixed)
  }

  /** Every limited relative content starts from a cursor that can only be in one place. */
  predicate Pinned(contents: seq<Content>, fixed: bool) {
    contents == [] ||
    var m := contents[0].modifier;
    (OpenEnded(m) || fixed) && Pinned(contents[1..], Fixes(m, fixed))
  }

  predicate NonEmpty(contents: seq<Content>) {
    forall i :: 0 <= i < |contents| ==> contents[i].pattern != []
  }

  predicate SameModifiers(a: seq<Content>, b: seq<Content>) {
    |a| == |b| && forall i :: 0 <= i < |a| ==> a[i].modifier == b[i].modifier
  }

  ghost predicate Agrees(contents: seq<Content>, payload: Bytes, lower: Bytes -> Bytes) {
    Walk(contents, payload, lower, 0) <==> Placeable(contents, payload)
  }

  /** With the modifiers of `contents`, whatever the patterns and the payload, the walk finds a
      placement whenever there is one. */
  ghost predicate GreedyComplete(contents: seq<Content>, lower: Bytes -> Bytes) {
    forall cs, payload :: SameModifiers(contents, cs) && NonEmpty(cs) && FoldsSafely(cs, payload) ==> Agrees(cs, payload, lower)
  }

  lemma {:induction false} PinnedSame(a: seq<Content>, b: seq<Content>, fixed: bool)
    requires SameModifiers(a, b)
    ensures Pinned(a, fixed) == Pinned(b, fixed)
  {
    if a != [] {
      PinnedSame(a[1..], b[1..], Fixes(a[0].modifier, fixed));
    }
  }

  // ---- The condition suffices ----

  /** In a window of one byte there is one place for a pattern. */
  lemma OnePlace(c: Content, payload: Bytes, cursor: nat, p: nat)
    requires Limit(c.modifier) == 1 && c.pattern != [] && Allowed(c, payload, cursor, p)
    ensures p == StartOf(c.modifier, cursor) && |c.pattern| == 1
  {
  }

  /** The leftmost place for a content is no later than any place left by a later cursor, and the
      same place where the cursor is fixed and stays so. */
  lemma FoundNoLater(c: Content, payload: Bytes, lower: Bytes -> Bytes, cursor: nat, cursor': nat, fixed: bool, p: nat)
    requires FoldsAscii(lower) && FoldsSafelyAt(c, payload) && c.pattern != []
    requires OpenEnded(c.modifier) || fixed
    requires cursor <= cursor' && (fixed ==> cursor == cursor') && Allowed(c, payload, cursor', p)
    ensures Find(c, payload, lower, cursor).Some? && Find(c, payload, lower, cursor).value <= p
    ensures Fixes(c.modifier, fixed) ==> Find(c, payload, lower, cursor).value == p
  {
    if !fixed {
      EarlierCursor(c, payload, cursor', cursor, p);
    }
    FindIsLeftmost(c, payload, lower, cursor, p);
    FoundIsAllowed(c, payload, lower, cursor);
    if Fixes(c.modifier, fixed) {
      OnePlace(c, payload, cursor, Find(c, payload, lower, cursor).value);
      OnePlace(c, payload, cursor', p);
    }
  }

  datatype Part = Texts | Pins | Cursors

  /** What the walk of pinned contents rests on, part by part. */
  ghost predicate Has(part: Part, contents: seq<Content>, payload: Bytes, cursor: nat, cursor': nat, fixed: bool, ps: seq<nat>) {
    match part
    case Texts => FoldsSafely(contents, payload) && NonEmpty(contents)
    case Pins => Pinned(contents, fixed) && Placement(contents, payload, cursor', ps)
    case Cursors => cursor <= cursor' && (fixed ==> cursor == cursor')
  }

  ghost predicate Walkable(contents: seq<Content>, payload: Bytes, cursor: nat, cursor': nat, fixed: bool, ps: seq<nat>) {
    forall part :: Has(part, contents, payload, cursor, cursor', fixed, ps)
  }

  lemma WalkableTail(contents: seq<Content>, payload: Bytes, lower: Bytes -> Bytes, cursor: nat, cursor': nat, fixed: bool, ps: seq<nat>)
    returns (p: nat, q: nat, fixed': bool, qs: seq<nat>)
    requires FoldsAscii(lower) && contents != [] && Walkable(contents, payload, cursor, cursor', fixed, ps)
    ensures Find(contents[0], payload, lower, cursor) == Some(p)
    ensures Walkable(contents[1..], payload, p + |contents[0].pattern|, q, fixed', qs)
  {
    var c := contents[0];
    assert Has(Texts, contents, payload, cursor, cursor', fixed, ps) && Has(Pins, contents, payload, cursor, cursor', fixed, ps)
      && Has(Cursors, contents, payload, cursor, cursor', fixed, ps);
    FoundNoLater(c, payload, lower, cursor, cursor', fixed, ps[0]);
    p := Find(c, payload, lower, cursor).value;
    q, fixed', qs := ps[0] + |c.pattern|, Fixes(c.modifier, fixed), ps[1..];
    var tail, next := contents[1..], p + |c.pattern|;
    forall part ensures Has(part, tail, payload, next, q, fixed', qs) {
      match part
      case Texts =>
      case Pins =>
      case Cursors =>
    }
  }

  lemma {:induction false} PinnedWalks(contents: seq<Content>, payload: Bytes, lower: Bytes -> Bytes, cursor: nat, cursor': nat,
      fixed: bool, ps: seq<nat>)
    requires FoldsAscii(lower) && Walkable(contents, payload, cursor, cursor', fixed, ps)
    ensures Walk(contents, payload, lower, cursor)
    decreases |contents|
  {
    if contents != [] {
      var p, q, fixed', qs := WalkableTail(contents, payload, lower, cursor, cursor', fixed, ps);
      PinnedWalks(contents[1..], payload, lower, p + |contents[0].pattern|, q, fixed', qs);
    }
  }

  lemma PinnedAgrees(contents: seq<Content>, payload: Bytes, lower: Bytes -> Bytes)
    requires FoldsAscii(lower) && FoldsSafely(contents, payload) && NonEmpty(contents) && Pinned(contents, true)
    ensures Agrees(contents, payload, lower)
  {
    if Walk(contents, payload, lower, 0) {
      var ps := WalkIsSound(contents, payload, lower, 0);
    } else if Placeable(contents, payload) {
      var ps :| Placement(contents, payload, 0, ps);
      assert Walkable(contents, payload, 0, 0, true, ps);
      PinnedWalks(contents, payload, lower, 0, 0, true, ps);
    }
  }

  // ---- The condition is needed ----

  /** Content `k` has a choice of places, those between follow it step by step, and the window of
      content `i` moves with it. */
  ghost predicate Loose(ms: seq<Content>, k: nat, i: nat) {
    && k < i < |ms| && Limit(ms[k].modifier) != 1 && !OpenEnded(ms[i].modifier)
    && forall j :: k < j < i ==> Limit(ms[j].modifier) == 1 && !Absolute(ms[j].modifier)
  }

  /** Where the cursor is not fixed before content `n`, content `k` left it open. */
  ghost predicate LeftOpen(ms: seq<Content>, n: nat, k: nat) {
    && k < n <= |ms| && Limit(ms[k].modifier) != 1
    && forall j :: k < j < n ==> Limit(ms[j].modifier) == 1 && !Absolute(ms[j].modifier)
  }

  lemma {:induction false} FindLoose(ms: seq<Content>, n: nat, fixed: bool, k: nat) returns (k': nat, i: nat)
    requires n <= |ms| && !Pinned(ms[n..], fixed) && (!fixed ==> LeftOpen(ms, n, k))
    ensures Loose(ms, k', i)
    decreases |ms| - n
  {
    var m := ms[n].modifier;
    assert ms[n..][1..] == ms[n + 1..];
    if !OpenEnded(m) && !fixed {
      k', i := k, n;
    } else {
      k', i := FindLoose(ms, n + 1, Fixes(m, fixed), if Limit(m) != 1 then n else k);
    }
  }

  /** How far behind the start of its window content `j` is placed. */
  function Shift(ms: seq<Content>, k: nat, i: nat, j: nat): nat
    requires j < |ms|
  {
    if j == k then 1 else if j == i && Limit(ms[j].modifier) > 0 then Limit(ms[j].modifier) - 1 else 0
  }

  function CursorAfter(ps: seq<nat>): nat {
    if ps == [] then 0 else ps[|ps| - 1] + 1
  }

  /** A placement of one-byte patterns: content `k` one byte late, content `i` at the end of its window. */
  function Places(ms: seq<Content>, k: nat, i: nat, n: nat): (ps: seq<nat>)
    requires n <= |ms|
    ensures |ps| == n
  {
    if n == 0 then [] else
      var ps := Places(ms, k, i, n - 1);
      ps + [StartOf(ms[n - 1].modifier, CursorAfter(ps)) + Shift(ms, k, i, n - 1)]
  }

  function CursorBefore(ps: seq<nat>, j: nat): nat
    requires j <= |ps|
  {
    if j == 0 then 0 else ps[j - 1] + 1
  }

  ghost predicate PlaceAt(ms: seq<Content>, k: nat, i: nat, ps: seq<nat>, j: nat)
    requires |ps| == |ms|
  {
    j < |ps| ==> ps[j] == StartOf(ms[j].modifier, CursorBefore(ps, j)) + Shift(ms, k, i, j)
  }

  ghost predicate ArePlaces(ms: seq<Content>, k: nat, i: nat, ps: seq<nat>) {
    |ps| == |ms| && forall j: nat :: PlaceAt(ms, k, i, ps, j)
  }

  lemma {:induction false} PlacesAt(ms: seq<Content>, k: nat, i: nat, n: nat, j: nat)
    requires j < n <= |ms|
    ensures var ps := Places(ms, k, i, n); ps[j] == StartOf(ms[j].modifier, CursorBefore(ps, j)) + Shift(ms, k, i, j)
  {
    if j < n - 1 {
      PlacesAt(ms, k, i, n - 1, j);
    }
  }

  lemma PlacesAre(ms: seq<Content>, k: nat, i: nat)
    ensures ArePlaces(ms, k, i, Places(ms, k, i, |ms|))
  {
    var ps := Places(ms, k, i, |ms|);
    forall j: nat ensures PlaceAt(ms, k, i, ps, j) {
      if j < |ps| {
        PlacesAt(ms, k, i, |ms|, j);
      }
    }
  }

  lemma {:induction false} PlacesAscend(ms: seq<Content>, k: nat, i: nat, ps: seq<nat>, j: nat)
    requires ArePlaces(ms, k, i, ps) && Loose(ms, k, i) && k < j <= i
    ensures ps[k] < ps[j]
  {
    assert PlaceAt(ms, k, i, ps, j);
    if j > k + 1 {
      PlacesAscend(ms, k, i, ps, j - 1);
    }
  }

  function Highest(ps: seq<nat>): (n: nat)
    ensures forall j :: 0 <= j < |ps| ==> ps[j] <= n
  {
    if ps == [] then 0 else
      var n := Highest(ps[..|ps| - 1]);
      if ps[|ps| - 1] > n then ps[|ps| - 1] else n
  }

  const A: byte := 97
  const B: byte := 98
  const C: byte := 99

  /** "aa" where content `k` has a choice, "b" where content `i` goes, and filler. */
  function Trap(ps: seq<nat>, k: nat, i: nat): (payload: Bytes)
    requires k < |ps| && i < |ps|
  {
    seq(Highest(ps) + 1, q => if q == ps[i] then B else if q == ps[k] || q + 1 == ps[k] then A else C)
  }

  predicate IsLetter(b: byte) {
    A <= b <= C
  }

  predicate AllLetters(s: Bytes) {
    forall q :: 0 <= q < |s| ==> IsLetter(s[q])
  }

  lemma PlainText(s: Bytes)
    requires AllLetters(s)
    ensures Ascii(s) && AsciiLower(s) == s
  {
  }

  /** A pattern of one letter, in a payload of letters. */
  ghost predicate IsBait(c: Content, payload: Bytes) {
    |c.pattern| == 1 && AllLetters(c.pattern) && AllLetters(payload)
  }

  lemma BaitFolds(c: Content, payload: Bytes)
    requires IsBait(c, payload)
    ensures FoldsSafelyAt(c, payload)
  {
    PlainText(payload);
    PlainText(c.pattern);
  }

  lemma BaitStands(c: Content, payload: Bytes, p: nat)
    requires IsBait(c, payload)
    ensures StandsAt(c, payload, p) <==> p < |payload| && payload[p] == c.pattern[0]
  {
    PlainText(payload);
    PlainText(c.pattern);
    if p < |payload| {
      assert payload[p..p + 1] == [payload[p]] && c.pattern == [c.pattern[0]];
    }
  }

  lemma {:induction false} AllBaitFolds(cs: seq<Content>, payload: Bytes)
    requires forall j :: 0 <= j < |cs| ==> IsBait(cs[j], payload)
    ensures FoldsSafely(cs, payload)
  {
    if cs != [] {
      BaitFolds(cs[0], payload);
      AllBaitFolds(cs[1..], payload);
    }
  }

  /** Content `j` sits at its place. */
  ghost predicate Sits(cs: seq<Content>, payload: Bytes, ps: seq<nat>, j: nat)
    requires |cs| == |ps|
  {
    j < |ps| ==> |cs[j].pattern| == 1 && Allowed(cs[j], payload, CursorBefore(ps, j), ps[j])
  }

  lemma {:induction false} SittingIsPlacement(cs: seq<Content>, payload: Bytes, ps: seq<nat>, j: nat)
    requires |cs| == |ps| && j <= |ps| && forall l: nat :: Sits(cs, payload, ps, l)
    ensures Placement(cs[j..], payload, CursorBefore(ps, j), ps[j..])
    decreases |ps| - j
  {
    if j < |ps| {
      assert Sits(cs, payload, ps, j);
      Tails(cs, ps, j);
      SittingIsPlacement(cs, payload, ps, j + 1);
      PlacedFirst(cs[j..], payload, CursorBefore(ps, j), ps[j], ps[j + 1..], ps[j..]);
    }
  }

  lemma Tails(cs: seq<Content>, ps: seq<nat>, j: nat)
    requires j < |ps| == |cs|
    ensures cs[j..][1..] == cs[j + 1..] && cs[j..][0] == cs[j] && ps[j..] == [ps[j]] + ps[j + 1..]
  {
  }

  /** From cursor `from` the walk, if it can go on at content `j`, goes on at `next`. */
  ghost predicate LeadsTo(cs: seq<Content>, payload: Bytes, lower: Bytes -> Bytes, j: nat, from: nat, next: nat) {
    j < |cs| && (Find(cs[j], payload, lower, from).Some? ==> Find(cs[j], payload, lower, from).value + |cs[j].pattern| == next)
  }

  /** A walk that can only go one way and is stuck at content `i` fails. */
  lemma {:induction false} StuckWalkFails(cs: seq<Content>, payload: Bytes, lower: Bytes -> Bytes, gs: seq<nat>, i: nat, j: nat)
    requires j <= i < |cs| && |gs| == i + 1 && Find(cs[i], payload, lower, gs[i]).None?
    requires forall l :: 0 <= l < i ==> LeadsTo(cs, payload, lower, l, gs[l], gs[l + 1])
    ensures !Walk(cs[j..], payload, lower, gs[j])
    decreases i - j
  {
    var found := Find(cs[j], payload, lower, gs[j]);
    WalkStep(cs, j, payload, lower, gs[j], if found.Some? then found.value else -1);
    if j < i {
      assert LeadsTo(cs, payload, lower, j, gs[j], gs[j + 1]);
      StuckWalkFails(cs, payload, lower, gs, i, j + 1);
    }
  }

  /** What stands at the start of the window is found there. */
  lemma FoundAtStart(c: Content, payload: Bytes, lower: Bytes -> Bytes, cursor: nat)
    requires FoldsAscii(lower) && FoldsSafelyAt(c, payload) && Allowed(c, payload, cursor, StartOf(c.modifier, cursor))
    ensures Find(c, payload, lower, cursor) == Some(StartOf(c.modifier, cursor))
  {
    FindIsLeftmost(c, payload, lower, cursor, StartOf(c.modifier, cursor));
    FoundIsAllowed(c, payload, lower, cursor);
  }

  /** In a window of one byte the walk can only go one way. */
  lemma FoundInOne(c: Content, payload: Bytes, lower: Bytes -> Bytes, cursor: nat)
    requires FoldsAscii(lower) && FoldsSafelyAt(c, payload) && Limit(c.modifier) == 1 && c.pattern != []
    ensures Find(c, payload, lower, cursor).Some? ==> Find(c, payload, lower, cursor).value == StartOf(c.modifier, cursor)
  {
    FoundIsAllowed(c, payload, lower, cursor);
    if Find(c, payload, lower, cursor).Some? {
      OnePlace(c, payload, cursor, Find(c, payload, lower, cursor).value);
    }
  }

  /** The trap: places of `ms`, patterns taken from the payload, "aa" ending at the place of content
      `k`, and "b" at that of content `i` only. */
  ghost predicate IsTrap(ms: seq<Content>, k: nat, i: nat, ps: seq<nat>, payload: Bytes, cs: seq<Content>) {
    && Loose(ms, k, i) && ArePlaces(ms, k, i, ps) && SameModifiers(ms, cs)
    && (forall j: nat :: BaitAt(ps, payload, cs, j))
    && 0 < ps[k] < |payload| && payload[ps[k]] == A && payload[ps[k] - 1] == A
    && cs[i].pattern == [B] && (forall q :: 0 <= q < |payload| && payload[q] == B ==> q == ps[i])
  }

  ghost predicate BaitAt(ps: seq<nat>, payload: Bytes, cs: seq<Content>, j: nat) {
    j < |ps| ==> j < |cs| && ps[j] < |payload| && cs[j].pattern == [payload[ps[j]]] && IsBait(cs[j], payload)
  }

  lemma TrapSits(ms: seq<Content>, k: nat, i: nat, ps: seq<nat>, payload: Bytes, cs: seq<Content>, j: nat)
    requires IsTrap(ms, k, i, ps, payload, cs) && j < |ps|
    ensures Sits(cs, payload, ps, j)
  {
    assert BaitAt(ps, payload, cs, j) && PlaceAt(ms, k, i, ps, j);
    BaitStands(cs[j], payload, ps[j]);
  }

  /** Where the greedy walk has its cursor: one byte early after content `k`. */
  function GreedyCursor(ps: seq<nat>, k: nat, j: nat): nat
    requires j <= |ps|
  {
    if j <= k then CursorBefore(ps, j) else ps[j - 1]
  }

  lemma TrapLeadsBefore(ms: seq<Content>, k: nat, i: nat, ps: seq<nat>, payload: Bytes, cs: seq<Content>, lower: Bytes -> Bytes, j: nat)
    requires FoldsAscii(lower) && IsTrap(ms, k, i, ps, payload, cs) && j < k
    ensures LeadsTo(cs, payload, lower, j, GreedyCursor(ps, k, j), GreedyCursor(ps, k, j + 1))
  {
    assert BaitAt(ps, payload, cs, j) && PlaceAt(ms, k, i, ps, j);
    TrapSits(ms, k, i, ps, payload, cs, j);
    BaitFolds(cs[j], payload);
    FoundAtStart(cs[j], payload, lower, CursorBefore(ps, j));
  }

  lemma TrapLeadsAt(ms: seq<Content>, k: nat, i: nat, ps: seq<nat>, payload: Bytes, cs: seq<Content>, lower: Bytes -> Bytes)
    requires FoldsAscii(lower) && IsTrap(ms, k, i, ps, payload, cs)
    ensures LeadsTo(cs, payload, lower, k, GreedyCursor(ps, k, k), GreedyCursor(ps, k, k + 1))
  {
    assert BaitAt(ps, payload, cs, k) && PlaceAt(ms, k, i, ps, k);
    TrapSits(ms, k, i, ps, payload, cs, k);
    BaitFolds(cs[k], payload);
    BaitStands(cs[k], payload, ps[k] - 1);
    FoundAtStart(cs[k], payload, lower, CursorBefore(ps, k));
  }

  lemma TrapLeadsAfter(ms: seq<Content>, k: nat, i: nat, ps: seq<nat>, payload: Bytes, cs: seq<Content>, lower: Bytes -> Bytes, j: nat)
    requires FoldsAscii(lower) && IsTrap(ms, k, i, ps, payload, cs) && k < j < i
    ensures LeadsTo(cs, payload, lower, j, GreedyCursor(ps, k, j), GreedyCursor(ps, k, j + 1))
  {
    assert BaitAt(ps, payload, cs, j) && PlaceAt(ms, k, i, ps, j);
    BaitFolds(cs[j], payload);
    FoundInOne(cs[j], payload, lower, ps[j - 1]);
  }

  /** The last window that the greedy walk sees ends before the only "b". */
  lemma TrapShuts(ms: seq<Content>, k: nat, i: nat, ps: seq<nat>, payload: Bytes, cs: seq<Content>, lower: Bytes -> Bytes)
    requires FoldsAscii(lower) && IsTrap(ms, k, i, ps, payload, cs)
    ensures Find(cs[i], payload, lower, GreedyCursor(ps, k, i)).None?
  {
    assert BaitAt(ps, payload, cs, i) && PlaceAt(ms, k, i, ps, i);
    BaitFolds(cs[i], payload);
    FoundIsAllowed(cs[i], payload, lower, ps[i - 1]);
    var found := Find(cs[i], payload, lower, ps[i - 1]);
    if found.Some? {
      BaitStands(cs[i], payload, found.value);
    }
  }

  lemma TrapCatches(ms: seq<Content>, k: nat, i: nat, ps: seq<nat>, payload: Bytes, cs: seq<Content>, lower: Bytes -> Bytes)
    requires FoldsAscii(lower) && IsTrap(ms, k, i, ps, payload, cs)
    ensures Placeable(cs, payload) && !Walk(cs, payload, lower, 0)
  {
    forall j: nat ensures Sits(cs, payload, ps, j) {
      if j < |ps| {
        TrapSits(ms, k, i, ps, payload, cs, j);
      }
    }
    SittingIsPlacement(cs, payload, ps, 0);
    assert cs[0..] == cs && Placement(cs[0..], payload, 0, ps[0..]);
    var gs := seq(i + 1, j requires 0 <= j <= i => GreedyCursor(ps, k, j));
    forall l | 0 <= l < i ensures LeadsTo(cs, payload, lower, l, gs[l], gs[l + 1]) {
      if l < k {
        TrapLeadsBefore(ms, k, i, ps, payload, cs, lower, l);
      } else if l == k {
        TrapLeadsAt(ms, k, i, ps, payload, cs, lower);
      } else {
        TrapLeadsAfter(ms, k, i, ps, payload, cs, lower, l);
      }
    }
    TrapShuts(ms, k, i, ps, payload, cs, lower);
    StuckWalkFails(cs, payload, lower, gs, i, 0);
  }

  lemma LooseIsTrapped(ms: seq<Content>, k: nat, i: nat) returns (ps: seq<nat>, payload: Bytes, cs: seq<Content>)
    requires Loose(ms, k, i)
    ensures IsTrap(ms, k, i, ps, payload, cs)
  {
    ps := Places(ms, k, i, |ms|);
    PlacesAre(ms, k, i);
    PlacesAscend(ms, k, i, ps, i);
    payload := Trap(ps, k, i);
    cs := seq(|ms|, j requires 0 <= j < |ms| => Content([payload[ps[j]]], ms[j].modifier));
    assert PlaceAt(ms, k, i, ps, k);
    forall j: nat ensures BaitAt(ps, payload, cs, j) {
    }
  }

  lemma TrapIsFair(ms: seq<Content>, k: nat, i: nat, ps: seq<nat>, payload: Bytes, cs: seq<Content>)
    requires IsTrap(ms, k, i, ps, payload, cs)
    ensures NonEmpty(cs) && FoldsSafely(cs, payload)
  {
    forall j | 0 <= j < |cs| ensures IsBait(cs[j], payload) {
      assert BaitAt(ps, payload, cs, j);
    }
    AllBaitFolds(cs, payload);
  }

  /** The greedy walk is complete for all patterns and payloads exactly when every limited relative
      content starts from a cursor that can only be in one place. */
  lemma GreedyCompleteIffPinned(contents: seq<Content>, lower: Bytes -> Bytes)
    requires FoldsAscii(lower)
    ensures GreedyComplete(contents, lower) <==> Pinned(contents, true)
  {
    if Pinned(contents, true) {
      forall cs, payload | SameModifiers(contents, cs) && NonEmpty(cs) && FoldsSafely(cs, payload) ensures Agrees(cs, payload, lower) {
        PinnedSame(contents, cs, true);
        PinnedAgrees(cs, payload, lower);
      }
    } else {
      assert contents[0..] == contents;
      var k, i := FindLoose(contents, 0, true, 0);
      var ps, payload, cs := LooseIsTrapped(contents, k, i);
      TrapIsFair(contents, k, i, ps, payload, cs);
      TrapCatches(contents, k, i, ps, payload, cs, lower);
      assert !Agrees(cs, payload, lower);
    }
  }
}
