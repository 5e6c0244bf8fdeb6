/** The rule engine: a multi-pattern prefilter on each rule's first content, in front of the
    full evaluation. The prefilter must not hide a rule that would match. */
module RuleEngine {
  import opened Bytes
  import opened Common
  import opened RuleMatcher
  import TrieSpec
  import AC = AhoCorasick

  // ---- What the prefilter promises ----

  datatype Kind = CaseSensitive | CaseInsensitive | NoContent

  function KindOf(r: Rule): Kind {
    if r.contents == [] then NoContent
    else if r.contents[0].modifier.nocase then CaseInsensitive
    else CaseSensitive
  }

  /** The pattern registered for a rule with contents. */
  function FastPattern(r: Rule): Bytes
    requires r.contents != []
  {
    if KindOf(r) == CaseInsensitive then AsciiLower(r.contents[0].pattern) else r.contents[0].pattern
  }

  /** The rule indices of one kind, in the order the rules were added: pattern ids number them. */
  function Indices(rules: seq<Rule>, kind: Kind): (r: seq<nat>)
    ensures forall k :: 0 <= k < |r| ==> r[k] < |rules| && KindOf(rules[r[k]]) == kind
  {
    if rules == [] then [] else
      var n := |rules| - 1;
      if KindOf(rules[n]) == kind then Indices(rules[..n], kind) + [n] else Indices(rules[..n], kind)
  }

  lemma {:induction false} IndicesAreAll(rules: seq<Rule>, kind: Kind)
    ensures forall i :: 0 <= i < |rules| && KindOf(rules[i]) == kind ==> i in Indices(rules, kind)
    ensures Distinct(Indices(rules, kind))
  {
    if rules == [] {
    } else {
      IndicesAreAll(rules[..|rules| - 1], kind);
    }
  }

  /** What the prefilter looks for stands somewhere in the payload. */
  ghost predicate Prefiltered(r: Rule, payload: Bytes) {
    match KindOf(r)
    case NoContent => true
    case _ => exists i :: OccursAt(FastPattern(r), SearchText(KindOf(r), payload), i)
  }

  /** The text the automaton of a kind searches. */
  function SearchText(kind: Kind, payload: Bytes): Bytes {
    if kind == CaseInsensitive then AsciiLower(payload) else payload
  }

  /** The first content is not empty and, where case is ignored, it and the payload are ASCII. */
  predicate PrefilterIsExactFor(r: Rule, payload: Bytes) {
    r.contents != [] ==>
      r.contents[0].pattern != [] && (r.contents[0].modifier.nocase ==> Ascii(payload) && Ascii(r.contents[0].pattern))
  }

  /** The prefilter never hides a rule that matches. */
  lemma PrefilterHidesNothing(r: Rule, payload: Bytes, lower: Bytes -> Bytes)
    requires FoldsAscii(lower) && RuleMatches(r, payload, lower) && PrefilterIsExactFor(r, payload)
    ensures Prefiltered(r, payload)
  {
    if r.contents != [] {
      var c := r.contents[0];
      FoundIsAllowed(c, payload, lower, 0);
      var p := Find(c, payload, lower, 0).value;
      assert OccursAt(FastPattern(r), SearchText(KindOf(r), payload), p);
    }
  }

  /** Outside ASCII it can: the Kelvin sign lower-cases to "k", which folding ASCII letters alone
      does not find. */
  lemma KelvinSignIsHidden(lower: Bytes -> Bytes) returns (r: Rule, payload: Bytes)
    requires lower([0xE2, 0x84, 0xAA]) == ['k' as int] && lower(['k' as int]) == ['k' as int]
    ensures RuleMatches(r, payload, lower) && !Prefiltered(r, payload)
  {
    var k := 'k' as int;
    payload := [0xE2, 0x84, 0xAA];
    var c := Content([k], Modifier(true, -1, -1, -1, -1));
    r := Rule([c], None);
    assert payload[0..3] == payload && [k][..1] == [k];
    assert Find(c, payload, lower, 0) == Some(0);
    assert r.contents[1..] == [];
    forall i ensures !OccursAt([k], AsciiLower(payload), i) {
      if 0 <= i <= 2 {
        assert AsciiLower(payload)[i..i + 1][0] != k;
      }
    }
  }

  /** The part of the payload that the matcher searches for the first content, if it searches at all. */
  function FirstWindow(c: Content, payload: Bytes): Option<Bytes> {
    var start := StartOf(c.modifier, 0);
    if start > |payload| || start > EndOf(c.modifier, start, |payload|) then None
    else Some(payload[start..EndOf(c.modifier, start, |payload|)])
  }

  /** Under every lower-casing that agrees with the ASCII one on ASCII text. */
  ghost predicate NeverHidden(c: Content, payload: Bytes) {
    forall lower :: FoldsAscii(lower) && RuleMatches(Rule([c], None), payload, lower) ==> Prefiltered(Rule([c], None), payload)
  }

  /** A lower-casing that finds the pattern in the window, if either is not ASCII. */
  lemma HidingCase(c: Content, payload: Bytes, window: Bytes) returns (lower: Bytes -> Bytes)
    requires c.modifier.nocase && FirstWindow(c, payload) == Some(window) && !(Ascii(window) && Ascii(c.pattern))
    ensures FoldsAscii(lower) && RuleMatches(Rule([c], None), payload, lower)
  {
    var other: Bytes := if Ascii(c.pattern) then AsciiLower(c.pattern) else [];
    lower := s => if Ascii(s) then AsciiLower(s) else other;
    var text, p := lower(window), lower(c.pattern);
    assert |p| <= |text| && text[..|p|] == p;
    assert Index(text, p) == 0;
    assert [c][1..] == [];
  }

  lemma WindowOccurs(p: Bytes, text: Bytes, start: nat, end: nat) returns (at: nat)
    requires start <= end <= |text| && Index(text[start..end], p) >= 0
    ensures OccursAt(p, text, at)
  {
    var idx := Index(text[start..end], p);
    IndexIsFirst(text[start..end], p);
    OccursInWindow(p, text, start, end, idx);
    at := start + idx;
  }

  lemma AsciiIsNeverHidden(c: Content, payload: Bytes, window: Bytes, lower: Bytes -> Bytes)
    requires c.modifier.nocase && FirstWindow(c, payload) == Some(window) && Ascii(window) && Ascii(c.pattern)
    requires FoldsAscii(lower) && RuleMatches(Rule([c], None), payload, lower)
    ensures Prefiltered(Rule([c], None), payload)
  {
    var start, text := StartOf(c.modifier, 0), AsciiLower(payload);
    var end := EndOf(c.modifier, start, |payload|);
    assert AsciiLower(window) == text[start..end];
    var at := WindowOccurs(AsciiLower(c.pattern), text, start, end);
    assert OccursAt(FastPattern(Rule([c], None)), SearchText(CaseInsensitive, payload), at);
  }

  /** Exactly when the prefilter of a case-insensitive content hides no match: it lets the payload
      through, the matcher does not search it, or pattern and searched text are ASCII. */
  lemma NeverHiddenIff(c: Content, payload: Bytes)
    requires c.modifier.nocase
    ensures NeverHidden(c, payload) <==>
      Prefiltered(Rule([c], None), payload) || FirstWindow(c, payload).None?
      || (Ascii(FirstWindow(c, payload).value) && Ascii(c.pattern))
  {
    var w := FirstWindow(c, payload);
    if w.Some? {
      if Ascii(w.value) && Ascii(c.pattern) {
        forall lower | FoldsAscii(lower) && RuleMatches(Rule([c], None), payload, lower) ensures Prefiltered(Rule([c], None), payload) {
          AsciiIsNeverHidden(c, payload, w.value, lower);
        }
      } else {
        var lower := HidingCase(c, payload, w.value);
      }
    }
  }

  // ---- The engine ----

  /** Pattern `pid` of an automaton is the fast pattern of the `pid`-th rule of its kind. */
  ghost predicate RegisteredAt(rules: seq<Rule>, patterns: seq<Bytes>, table: map<nat, seq<nat>>, kind: Kind, pid: nat)
    requires kind != NoContent
  {
    var ids := Indices(rules, kind);
    && |patterns| == |ids| && (pid in table ==> pid < |ids|)
    && (pid < |ids| ==> patterns[pid] == FastPattern(rules[ids[pid]]) && pid in table && table[pid] == [ids[pid]])
  }

  ghost predicate Registered(rules: seq<Rule>, patterns: seq<Bytes>, table: map<nat, seq<nat>>, kind: Kind)
    requires kind != NoContent
  {
    forall pid :: RegisteredAt(rules, patterns, table, kind, pid)
  }

  function Enter(table: map<nat, seq<nat>>, pid: nat, ruleIdx: nat): map<nat, seq<nat>> {
    table[pid := (if pid in table then table[pid] else []) + [ruleIdx]]
  }

  lemma IndicesStep(rules: seq<Rule>, r: Rule, kind: Kind)
    ensures Indices(rules + [r], kind) == if KindOf(r) == kind then Indices(rules, kind) + [|rules|] else Indices(rules, kind)
  {
    assert (rules + [r])[..|rules|] == rules;
  }

  lemma RegisterRule(rules: seq<Rule>, r: Rule, patterns: seq<Bytes>, table: map<nat, seq<nat>>, kind: Kind)
    requires kind != NoContent && Registered(rules, patterns, table, kind)
    ensures KindOf(r) == kind ==> Registered(rules + [r], patterns + [FastPattern(r)], Enter(table, |patterns|, |rules|), kind)
    ensures KindOf(r) != kind ==> Registered(rules + [r], patterns, table, kind)
  {
    if KindOf(r) == kind {
      assert RegisteredAt(rules, patterns, table, kind, |patterns|);
      forall pid: nat ensures RegisteredAt(rules + [r], patterns + [FastPattern(r)], Enter(table, |patterns|, |rules|), kind, pid) {
        assert RegisteredAt(rules, patterns, table, kind, pid);
      }
    } else {
      forall pid: nat ensures RegisteredAt(rules + [r], patterns, table, kind, pid) {
        assert RegisteredAt(rules, patterns, table, kind, pid);
      }
    }
  }

  /** The table of a kind after one more rule. */
  lemma RegisteredAfter(rules: seq<Rule>, r: Rule, patterns: seq<Bytes>, table: map<nat, seq<nat>>, kind: Kind,
      rules': seq<Rule>, patterns': seq<Bytes>, table': map<nat, seq<nat>>)
    requires kind != NoContent && Registered(rules, patterns, table, kind) && rules' == rules + [r]
    requires patterns' == if KindOf(r) == kind then patterns + [FastPattern(r)] else patterns
    requires table' == if KindOf(r) == kind then Enter(table, |patterns|, |rules|) else table
    ensures Registered(rules', patterns', table', kind)
  {
    RegisterRule(rules, r, patterns, table, kind);
  }

  ghost function Elements(s: seq<nat>): set<nat> {
    set i | i in s
  }

  lemma ElementsStep(s: seq<nat>, k: nat)
    requires k < |s|
    ensures Elements(s[..k + 1]) == Elements(s[..k]) + {s[k]} && s[k] in s
  {
    assert s[..k + 1] == s[..k] + [s[k]];
  }

  /** Midway through an evaluation: only prefiltered rules are evaluated, and `matched` are those of them that match, each once. */
  ghost predicate Evaluated(rules: seq<Rule>, payload: Bytes, lower: Bytes -> Bytes,
      evaluated: set<nat>, matched: seq<Rule>, hits: seq<nat>)
  {
    && |matched| == |hits| && Distinct(hits)
    && (forall k :: 0 <= k < |hits| ==> hits[k] in evaluated && hits[k] < |rules| && matched[k] == rules[hits[k]])
    && (forall i :: i in evaluated ==> i < |rules| && Prefiltered(rules[i], payload) && (i in hits <==> RuleMatches(rules[i], payload, lower)))
  }

  /** A prefiltered rule has its pattern in the report. */
  lemma PrefilteredIsReported(rules: seq<Rule>, patterns: seq<Bytes>, table: map<nat, seq<nat>>, kind: Kind, payload: Bytes, i: nat)
    returns (m: TrieSpec.MatchResult)
    requires kind != NoContent && Registered(rules, patterns, table, kind)
    requires i < |rules| && KindOf(rules[i]) == kind && FastPattern(rules[i]) != [] && Prefiltered(rules[i], payload)
    ensures m in TrieSpec.Results(patterns, SearchText(kind, payload)) && m.patternID in table
    ensures i in table[m.patternID]
  {
    IndicesAreAll(rules, kind);
    var pid :| 0 <= pid < |Indices(rules, kind)| && Indices(rules, kind)[pid] == i;
    assert RegisteredAt(rules, patterns, table, kind, pid);
    var k :| OccursAt(FastPattern(rules[i]), SearchText(kind, payload), k);
    m := TrieSpec.MatchResult(pid, k);
    TrieSpec.SearchFindsNonEmpty(patterns, SearchText(kind, payload));
    assert TrieSpec.IsOccurrence(patterns, SearchText(kind, payload), m);
  }

  /** And only prefiltered rules have. */
  lemma ReportedIsPrefiltered(rules: seq<Rule>, patterns: seq<Bytes>, table: map<nat, seq<nat>>, kind: Kind, payload: Bytes, m: TrieSpec.MatchResult)
    requires kind != NoContent && Registered(rules, patterns, table, kind)
    requires m in TrieSpec.Results(patterns, SearchText(kind, payload)) && m.patternID in table
    ensures forall i :: i in table[m.patternID] ==> i < |rules| && Prefiltered(rules[i], payload)
  {
    TrieSpec.SearchFindsNonEmpty(patterns, SearchText(kind, payload));
    assert TrieSpec.IsOccurrence(patterns, SearchText(kind, payload), m);
    assert RegisteredAt(rules, patterns, table, kind, m.patternID);
  }

  /** The rules behind every reported pattern have been evaluated. */
  ghost predicate FoundEvaluated(results: seq<TrieSpec.MatchResult>, table: map<nat, seq<nat>>, evaluated: set<nat>) {
    forall m :: m in results && m.patternID in table ==> forall i :: i in table[m.patternID] ==> i in evaluated
  }

  /** Its pattern, if it has one, can be found: the automata do not report empty patterns reliably. */
  predicate Searchable(r: Rule) {
    r.contents != [] ==> r.contents[0].pattern != []
  }

  /** Evaluating what the two automata found, and the rules without content, leaves no prefiltered rule out. */
  lemma PrefilteredIsEvaluated(rules: seq<Rule>, payload: Bytes, evaluated: set<nat>,
      patterns: seq<Bytes>, table: map<nat, seq<nat>>, nocasePatterns: seq<Bytes>, nocaseTable: map<nat, seq<nat>>)
    requires Registered(rules, patterns, table, CaseSensitive) && Registered(rules, nocasePatterns, nocaseTable, CaseInsensitive)
    requires FoundEvaluated(TrieSpec.Results(patterns, payload), table, evaluated)
    requires payload != [] ==> FoundEvaluated(TrieSpec.Results(nocasePatterns, AsciiLower(payload)), nocaseTable, evaluated)
    requires forall i :: i in Indices(rules, NoContent) ==> i in evaluated
    ensures forall i :: 0 <= i < |rules| && Searchable(rules[i]) && Prefiltered(rules[i], payload) ==> i in evaluated
  {
    forall i | 0 <= i < |rules| && Searchable(rules[i]) && Prefiltered(rules[i], payload) ensures i in evaluated {
      match KindOf(rules[i])
      case NoContent =>
        IndicesAreAll(rules, NoContent);
      case CaseSensitive =>
        var m := PrefilteredIsReported(rules, patterns, table, CaseSensitive, payload, i);
      case CaseInsensitive =>
        var m := PrefilteredIsReported(rules, nocasePatterns, nocaseTable, CaseInsensitive, payload, i);
    }
  }

  /** Which rules have been matched, in terms of the rules themselves. */
  lemma MatchedAreHits(rules: seq<Rule>, payload: Bytes, lower: Bytes -> Bytes, evaluated: set<nat>, matched: seq<Rule>, hits: seq<nat>)
    requires Evaluated(rules, payload, lower, evaluated, matched, hits)
    requires forall i :: 0 <= i < |rules| && Searchable(rules[i]) && Prefiltered(rules[i], payload) ==> i in evaluated
    ensures forall r :: r in matched ==> r in rules && RuleMatches(r, payload, lower)
    ensures forall r :: r in rules && Searchable(r) ==> (r in matched <==> RuleMatches(r, payload, lower) && Prefiltered(r, payload))
  {
    forall r | r in matched ensures r in rules && RuleMatches(r, payload, lower) && Prefiltered(r, payload) {
      var k :| 0 <= k < |matched| && matched[k] == r;
      assert hits[k] in evaluated && hits[k] in hits;
    }
    forall r | r in rules && Searchable(r) && RuleMatches(r, payload, lower) && Prefiltered(r, payload) ensures r in matched {
      var i :| 0 <= i < |rules| && rules[i] == r;
      var k :| 0 <= k < |hits| && hits[k] == i;
      assert matched[k] == r;
    }
  }

  /** Where the prefilter is exact, passing it is no condition. */
  lemma ExactHits(rules: seq<Rule>, payload: Bytes, lower: Bytes -> Bytes, hits: seq<nat>)
    requires FoldsAscii(lower)
    requires forall i :: 0 <= i < |rules| && Searchable(rules[i]) ==> (i in hits <==> RuleMatches(rules[i], payload, lower) && Prefiltered(rules[i], payload))
    ensures forall i :: 0 <= i < |rules| && PrefilterIsExactFor(rules[i], payload) ==> (i in hits <==> RuleMatches(rules[i], payload, lower))
  {
    forall i | 0 <= i < |rules| && PrefilterIsExactFor(rules[i], payload) && RuleMatches(rules[i], payload, lower)
      ensures Prefiltered(rules[i], payload)
    {
      PrefilterHidesNothing(rules[i], payload, lower);
    }
  }

  class Engine {
    var Rules: seq<Rule>
    const MPSE: AC.AhoCorasick
    const NocaseMPSE: AC.AhoCorasick
    var patternToRules: map<nat, seq<nat>>
    var nocaseToRules: map<nat, seq<nat>>
    var NoContentRules: seq<nat>

    ghost function Repr(): set<object>
      reads this, MPSE, NocaseMPSE
    {
      {this} + MPSE.Footprint() + NocaseMPSE.Footprint()
    }

    /** Two well-formed automata that share nothing. */
    ghost predicate Automata()
      reads MPSE, NocaseMPSE, MPSE.repr, NocaseMPSE.repr
    {
      && MPSE.Valid() && NocaseMPSE.Valid()
      && MPSE.Footprint() !! NocaseMPSE.Footprint()
    }

    ghost predicate Valid()
      reads Repr()
    {
      && Automata() && this !in MPSE.Footprint() + NocaseMPSE.Footprint()
      && Registered(Rules, MPSE.patterns, patternToRules, CaseSensitive)
      && Registered(Rules, NocaseMPSE.patterns, nocaseToRules, CaseInsensitive)
      && NoContentRules == Indices(Rules, NoContent)
    }

    constructor ()
      ensures Valid() && fresh(Repr()) && Rules == [] && !MPSE.built && !NocaseMPSE.built
    {
      MPSE := new AC.AhoCorasick();
      NocaseMPSE := new AC.AhoCorasick();
      Rules, patternToRules, nocaseToRules, NoContentRules := [], map[], map[], [];
    }

    /** Adds the rule's fast pattern, if it has one, to the automaton of its kind. */
    method AddToPrefilter(r: Rule, ruleIdx: nat)
      requires Automata() && !MPSE.built && !NocaseMPSE.built && this !in MPSE.Footprint() + NocaseMPSE.Footprint()
      modifies this`patternToRules, this`nocaseToRules, this`NoContentRules, MPSE.Footprint(), NocaseMPSE.Footprint()
      ensures Automata() && !MPSE.built && !NocaseMPSE.built && fresh(Repr() - old(Repr()))
      ensures if KindOf(r) == CaseSensitive
        then MPSE.patterns == old(MPSE.patterns) + [FastPattern(r)] && patternToRules == Enter(old(patternToRules), |old(MPSE.patterns)|, ruleIdx)
        else MPSE.patterns == old(MPSE.patterns) && patternToRules == old(patternToRules)
      ensures if KindOf(r) == CaseInsensitive
        then NocaseMPSE.patterns == old(NocaseMPSE.patterns) + [FastPattern(r)] && nocaseToRules == Enter(old(nocaseToRules), |old(NocaseMPSE.patterns)|, ruleIdx)
        else NocaseMPSE.patterns == old(NocaseMPSE.patterns) && nocaseToRules == old(nocaseToRules)
      ensures NoContentRules == if KindOf(r) == NoContent then old(NoContentRules) + [ruleIdx] else old(NoContentRules)
    {
      if |r.contents| > 0 {
        var firstContent := r.contents[0];
        if firstContent.modifier.nocase {
          var lowerPat := AsciiLower(firstContent.pattern);
          var pid := NocaseMPSE.AddPattern(lowerPat);
          nocaseToRules := Enter(nocaseToRules, pid, ruleIdx);
        } else {
          var pid := MPSE.AddPattern(firstContent.pattern);
          patternToRules := Enter(patternToRules, pid, ruleIdx);
        }
      } else {
        NoContentRules := NoContentRules + [ruleIdx];
      }
    }

    method AddRule(r: Rule)
      requires Valid() && !MPSE.built && !NocaseMPSE.built
      modifies Repr()
      ensures Valid() && !MPSE.built && !NocaseMPSE.built && fresh(Repr() - old(Repr()))
      ensures Rules == old(Rules) + [r]
    {
      ghost var rules, patterns, table, nocasePatterns, nocaseTable := Rules, MPSE.patterns, patternToRules, NocaseMPSE.patterns, nocaseToRules;
      var ruleIdx := |Rules|;
      AddToPrefilter(r, ruleIdx);
      Rules := Rules + [r];
      RegisteredAfter(rules, r, patterns, table, CaseSensitive, Rules, MPSE.patterns, patternToRules);
      RegisteredAfter(rules, r, nocasePatterns, nocaseTable, CaseInsensitive, Rules, NocaseMPSE.patterns, nocaseToRules);
      IndicesStep(rules, r, NoContent);
    }

    method Build()
      requires Valid()
      modifies Repr()
      ensures Valid() && MPSE.built && NocaseMPSE.built && Repr() == old(Repr()) && Rules == old(Rules)
    {
      MPSE.Build();
      NocaseMPSE.Build();
    }

    /** Evaluates one rule, unless that was done before. */
    method Consider(ruleIdx: nat, payload: Bytes, lower: Bytes -> Bytes, evaluated: set<nat>, matched: seq<Rule>, ghost hits: seq<nat>)
      returns (evaluated': set<nat>, matched': seq<Rule>, ghost hits': seq<nat>)
      requires ruleIdx < |Rules| && Prefiltered(Rules[ruleIdx], payload) && Evaluated(Rules, payload, lower, evaluated, matched, hits)
      ensures Evaluated(Rules, payload, lower, evaluated', matched', hits') && evaluated' == evaluated + {ruleIdx}
    {
      evaluated', matched', hits' := evaluated, matched, hits;
      if ruleIdx !in evaluated {
        evaluated' := evaluated' + {ruleIdx};
        var ok := RuleMatcher.Match(Rules[ruleIdx], payload, lower);
        if ok {
          matched', hits' := matched' + [Rules[ruleIdx]], hits' + [ruleIdx];
        }
      }
    }

    method ConsiderAll(indices: seq<nat>, payload: Bytes, lower: Bytes -> Bytes, evaluated: set<nat>, matched: seq<Rule>, ghost hits: seq<nat>)
      returns (evaluated': set<nat>, matched': seq<Rule>, ghost hits': seq<nat>)
      requires (forall i :: i in indices ==> i < |Rules| && Prefiltered(Rules[i], payload)) && Evaluated(Rules, payload, lower, evaluated, matched, hits)
      ensures Evaluated(Rules, payload, lower, evaluated', matched', hits')
      ensures evaluated' == evaluated + Elements(indices)
    {
      evaluated', matched', hits' := evaluated, matched, hits;
      for k := 0 to |indices|
        invariant Evaluated(Rules, payload, lower, evaluated', matched', hits')
        invariant evaluated' == evaluated + Elements(indices[..k])
      {
        ElementsStep(indices, k);
        evaluated', matched', hits' := Consider(indices[k], payload, lower, evaluated', matched', hits');
      }
      assert indices[..|indices|] == indices;
    }

    /** Evaluates the rules behind every pattern that one automaton found. */
    method ConsiderFound(results: seq<TrieSpec.MatchResult>, table: map<nat, seq<nat>>,
        payload: Bytes, lower: Bytes -> Bytes, evaluated: set<nat>, matched: seq<Rule>, ghost hits: seq<nat>)
      returns (evaluated': set<nat>, matched': seq<Rule>, ghost hits': seq<nat>)
      requires forall m :: m in results && m.patternID in table ==>
        forall i :: i in table[m.patternID] ==> i < |Rules| && Prefiltered(Rules[i], payload)
      requires Evaluated(Rules, payload, lower, evaluated, matched, hits)
      ensures Evaluated(Rules, payload, lower, evaluated', matched', hits') && evaluated <= evaluated'
      ensures FoundEvaluated(results, table, evaluated')
    {
      evaluated', matched', hits' := evaluated, matched, hits;
      for k := 0 to |results|
        invariant Evaluated(Rules, payload, lower, evaluated', matched', hits') && evaluated <= evaluated'
        invariant FoundEvaluated(results[..k], table, evaluated')
      {
        var pid := results[k].patternID;
        assert results[k] in results && results[..k + 1] == results[..k] + [results[k]];
        if pid in table {
          evaluated', matched', hits' := ConsiderAll(table[pid], payload, lower, evaluated', matched', hits');
        }
      }
      assert results[..|results|] == results;
    }

    /** Searches with one automaton and evaluates the rules behind what it found. */
    method Prefilter(ac: AC.AhoCorasick, table: map<nat, seq<nat>>, ghost kind: Kind, text: Bytes,
        payload: Bytes, lower: Bytes -> Bytes, evaluated: set<nat>, matched: seq<Rule>, ghost hits: seq<nat>)
      returns (evaluated': set<nat>, matched': seq<Rule>, ghost hits': seq<nat>)
      requires ac.Valid() && ac.built && kind != NoContent && Registered(Rules, ac.patterns, table, kind)
      requires text == SearchText(kind, payload)
      requires Evaluated(Rules, payload, lower, evaluated, matched, hits)
      ensures Evaluated(Rules, payload, lower, evaluated', matched', hits') && evaluated <= evaluated'
      ensures FoundEvaluated(TrieSpec.Results(ac.patterns, text), table, evaluated')
    {
      var results, links := ac.Search(text);
      forall m | m in results && m.patternID in table
        ensures forall i :: i in table[m.patternID] ==> i < |Rules| && Prefiltered(Rules[i], payload)
      {
        ReportedIsPrefiltered(Rules, ac.patterns, table, kind, payload, m);
      }
      evaluated', matched', hits' := ConsiderFound(results, table, payload, lower, evaluated, matched, hits);
    }

    /** The case-insensitive search, on a folded copy of a payload that is not empty. */
    method NocasePass(payload: Bytes, lower: Bytes -> Bytes, evaluated: set<nat>, matched: seq<Rule>, ghost hits: seq<nat>)
      returns (evaluated': set<nat>, matched': seq<Rule>, ghost hits': seq<nat>)
      requires Valid() && NocaseMPSE.built && Evaluated(Rules, payload, lower, evaluated, matched, hits)
      ensures Evaluated(Rules, payload, lower, evaluated', matched', hits') && evaluated <= evaluated'
      ensures payload != [] ==> FoundEvaluated(TrieSpec.Results(NocaseMPSE.patterns, AsciiLower(payload)), nocaseToRules, evaluated')
    {
      evaluated', matched', hits' := evaluated, matched, hits;
      if |payload| > 0 {
        var lowerPayload := AsciiLower(payload);
        evaluated', matched', hits' :=
          Prefilter(NocaseMPSE, nocaseToRules, CaseInsensitive, lowerPayload, payload, lower, evaluated', matched', hits');
      }
    }

    /** The rules that match and pass the prefilter, each once; `hits` are the indices of the
        result. Where the prefilter is exact these are the rules that match. */
    method Match(payload: Bytes, lower: Bytes -> Bytes) returns (matchedRules: seq<Rule>, ghost hits: seq<nat>)
      requires Valid() && MPSE.built && NocaseMPSE.built
      ensures |matchedRules| == |hits| && Distinct(hits)
      ensures forall k :: 0 <= k < |hits| ==> hits[k] < |Rules| && matchedRules[k] == Rules[hits[k]]
      ensures forall i :: i in hits ==> RuleMatches(Rules[i], payload, lower) && Prefiltered(Rules[i], payload)
      ensures forall i :: 0 <= i < |Rules| && Searchable(Rules[i]) ==>
        (i in hits <==> RuleMatches(Rules[i], payload, lower) && Prefiltered(Rules[i], payload))
      ensures FoldsAscii(lower) ==>
        forall i :: 0 <= i < |Rules| && PrefilterIsExactFor(Rules[i], payload) ==> (i in hits <==> RuleMatches(Rules[i], payload, lower))
      ensures forall r :: r in matchedRules ==> r in Rules && RuleMatches(r, payload, lower)
      ensures forall r :: r in Rules && Searchable(r) ==> (r in matchedRules <==> RuleMatches(r, payload, lower) && Prefiltered(r, payload))
    {
      var evaluated;
      matchedRules, hits, evaluated := [], [], {};
      evaluated, matchedRules, hits :=
        Prefilter(MPSE, patternToRules, CaseSensitive, payload, payload, lower, evaluated, matchedRules, hits);
      evaluated, matchedRules, hits := NocasePass(payload, lower, evaluated, matchedRules, hits);
      evaluated, matchedRules, hits := ConsiderAll(NoContentRules, payload, lower, evaluated, matchedRules, hits);
      PrefilteredIsEvaluated(Rules, payload, evaluated, MPSE.patterns, patternToRules, NocaseMPSE.patterns, nocaseToRules);
      MatchedAreHits(Rules, payload, lower, evaluated, matchedRules, hits);
      if FoldsAscii(lower) {
        ExactHits(Rules, payload, lower, hits);
      }
    }
  }
}
