/** What the multi-pattern matcher computes, stated on the list of patterns alone:
    the trie is the set of prefixes of the patterns, a failure link is a longest proper
    suffix inside that set, and a search reports every occurrence of every pattern. */
module TrieSpec {
  import opened Bytes

  datatype MatchResult = MatchResult(patternID: nat, index: int)

  /** `w` is the word of a trie node: the root's, or a prefix of some pattern. */
  ghost predicate InTrie(pats: seq<Bytes>, w: Bytes) {
    w == [] || exists id :: 0 <= id < |pats| && IsPrefix(w, pats[id])
  }

  /** The longest suffix of `w` that is the word of a trie node. */
  ghost function Longest(pats: seq<Bytes>, w: Bytes): (r: Bytes)
    ensures InTrie(pats, r) && |r| <= |w|
  {
    if InTrie(pats, w) then w else Longest(pats, w[1..])
  }

  /** The failure word of a node: the longest proper suffix that is in the trie. */
  ghost function Fail(pats: seq<Bytes>, w: Bytes): (r: Bytes)
    requires w != []
    ensures InTrie(pats, r) && |r| < |w|
  {
    Longest(pats, w[1..])
  }

  /** The ids of the patterns equal to `w`, in the order they were added. */
  ghost function Ids(pats: seq<Bytes>, w: Bytes): seq<nat> {
    if pats == [] then [] else
      var n := |pats| - 1;
      if pats[n] == w then Ids(pats[..n], w) + [n] else Ids(pats[..n], w)
  }

  /** The merged output list of a node. The root's children merge nothing; every deeper
      node appends the list of its failure node. */
  ghost function Outputs(pats: seq<Bytes>, w: Bytes): seq<nat>
    decreases |w|
  {
    if |w| <= 1 then Ids(pats, w) else Ids(pats, w) + Outputs(pats, Fail(pats, w))
  }

  /** The results reported when the automaton, standing in the node of word `w`, has consumed byte `i`. */
  ghost function Hits(pats: seq<Bytes>, ids: seq<nat>, i: nat): (r: seq<MatchResult>)
    requires forall k :: 0 <= k < |ids| ==> ids[k] < |pats|
    ensures |r| == |ids|
    ensures forall k :: 0 <= k < |r| ==> r[k] == MatchResult(ids[k], i - |pats[ids[k]]| + 1)
  {
    seq(|ids|, k requires 0 <= k < |ids| => MatchResult(ids[k], i - |pats[ids[k]]| + 1))
  }

  /** The whole report of a search. */
  ghost function Results(pats: seq<Bytes>, payload: Bytes): seq<MatchResult> {
    if payload == [] then [] else
      var n := |payload| - 1;
      OutputsAreSuffixes(pats, Longest(pats, payload));
      Results(pats, payload[..n]) + Hits(pats, Outputs(pats, Longest(pats, payload)), n)
  }

  // ---- The trie and its longest suffixes ----

  lemma TrieIsPrefixClosed(pats: seq<Bytes>, w: Bytes, n: nat)
    requires InTrie(pats, w) && n <= |w|
    ensures InTrie(pats, w[..n])
  {
    if w != [] {
      var id :| 0 <= id < |pats| && IsPrefix(w, pats[id]);
      assert IsPrefix(w[..n], pats[id]);
    }
  }

  lemma TrieOfExtension(pats: seq<Bytes>, p: Bytes, w: Bytes)
    ensures InTrie(pats + [p], w) <==> InTrie(pats, w) || IsPrefix(w, p)
  {
    if InTrie(pats, w) && w != [] {
      var id :| 0 <= id < |pats| && IsPrefix(w, pats[id]);
      assert IsPrefix(w, (pats + [p])[id]);
    }
    if IsPrefix(w, p) {
      assert IsPrefix(w, (pats + [p])[|pats|]);
    }
  }

  lemma TrieIsClosedUnder(pats: seq<Bytes>, w: Bytes, b: byte)
    ensures InTrie(pats, w + [b]) ==> InTrie(pats, w)
  {
    if InTrie(pats, w + [b]) {
      TrieIsPrefixClosed(pats, w + [b], |w|);
      assert (w + [b])[..|w|] == w;
    }
  }

  /** `Longest` is what its name says: a suffix in the trie, and no suffix in the trie is longer. */
  lemma {:induction false} LongestIsLongest(pats: seq<Bytes>, w: Bytes)
    ensures IsSuffix(Longest(pats, w), w)
    ensures forall s :: IsSuffix(s, w) && InTrie(pats, s) ==> |s| <= |Longest(pats, w)|
  {
    if !InTrie(pats, w) {
      LongestIsLongest(pats, w[1..]);
      SuffixTransitive(Longest(pats, w), w[1..], w);
      forall s | IsSuffix(s, w) && InTrie(pats, s)
        ensures |s| <= |Longest(pats, w)|
      {
        assert s != w;
        SuffixesNest(s, w[1..], w);
      }
    }
  }

  /** The state after one more byte depends only on the state before it. */
  lemma {:induction false} LongestStep(pats: seq<Bytes>, w: Bytes, b: byte)
    ensures Longest(pats, w + [b]) == Longest(pats, Longest(pats, w) + [b])
  {
    if !InTrie(pats, w) {
      assert (w + [b])[..|w|] == w;
      assert !InTrie(pats, w + [b]) by { TrieIsClosedUnder(pats, w, b); }
      assert (w + [b])[1..] == w[1..] + [b];
      LongestStep(pats, w[1..], b);
    }
  }

  /** Where the goto function is undefined, the failure node has the same successor. */
  lemma FailKeepsSuccessor(pats: seq<Bytes>, u: Bytes, b: byte)
    requires u != [] && !InTrie(pats, u + [b])
    ensures Longest(pats, u + [b]) == Longest(pats, Fail(pats, u) + [b])
  {
    assert (u + [b])[1..] == u[1..] + [b];
    LongestStep(pats, u[1..], b);
  }

  lemma LongestOfNextPrefix(pats: seq<Bytes>, payload: Bytes, i: nat)
    requires i < |payload|
    ensures payload[..i + 1][..i] == payload[..i]
    ensures Longest(pats, payload[..i + 1]) == Longest(pats, Ext(Longest(pats, payload[..i]), payload[i]))
  {
    assert payload[..i] + [payload[i]] == payload[..i + 1];
    LongestStep(pats, payload[..i], payload[i]);
  }

  /** The failure word of a child is found from its parent's failure word. */
  lemma FailOfChild(pats: seq<Bytes>, w: Bytes, b: byte)
    requires w != []
    ensures Fail(pats, Ext(w, b)) == Longest(pats, Ext(Fail(pats, w), b))
  {
    assert (w + [b])[1..] == w[1..] + [b];
    LongestStep(pats, w[1..], b);
  }

  /** One round of the search for a successor: past `u` the failure node takes over, past the root nothing is left. */
  lemma SuccessorThroughFail(pats: seq<Bytes>, u: Bytes, b: byte)
    requires !InTrie(pats, Ext(u, b))
    ensures u == [] ==> Longest(pats, Ext(u, b)) == []
    ensures u != [] ==> Longest(pats, Ext(u, b)) == Longest(pats, Ext(Fail(pats, u), b))
  {
    if u == [] {
      assert Ext(u, b)[1..] == [];
    } else {
      FailKeepsSuccessor(pats, u, b);
    }
  }

  // ---- Output lists ----

  lemma {:induction false} IdsMeaning(pats: seq<Bytes>, w: Bytes)
    ensures forall k :: 0 <= k < |Ids(pats, w)| ==> Ids(pats, w)[k] < |pats| && pats[Ids(pats, w)[k]] == w
    ensures forall i, j :: 0 <= i < j < |Ids(pats, w)| ==> Ids(pats, w)[i] < Ids(pats, w)[j]
    ensures forall id :: 0 <= id < |pats| && pats[id] == w ==> id in Ids(pats, w)
  {
    if pats == [] {
    } else {
      IdsMeaning(pats[..|pats| - 1], w);
    }
  }

  lemma IdsOfExtension(pats: seq<Bytes>, p: Bytes, w: Bytes)
    ensures Ids(pats + [p], w) == if p == w then Ids(pats, w) + [|pats|] else Ids(pats, w)
  {
    assert (pats + [p])[..|pats|] == pats;
  }

  lemma IdsOutsideTrie(pats: seq<Bytes>, w: Bytes)
    ensures Ids(pats, w) != [] ==> InTrie(pats, w)
  {
    if Ids(pats, w) != [] {
      IdsMeaning(pats, w);
      var id := Ids(pats, w)[0];
      assert IsPrefix(w, pats[id]);
    }
  }

  lemma TrieOfExtensionAll(pats: seq<Bytes>, p: Bytes)
    ensures forall w :: InTrie(pats + [p], w) <==> InTrie(pats, w) || IsPrefix(w, p)
    ensures forall w :: Ids(pats + [p], w) == if p == w then Ids(pats, w) + [|pats|] else Ids(pats, w)
  {
    forall w
      ensures InTrie(pats + [p], w) <==> InTrie(pats, w) || IsPrefix(w, p)
      ensures Ids(pats + [p], w) == if p == w then Ids(pats, w) + [|pats|] else Ids(pats, w)
    {
      IdsOfExtension(pats, p, w);
      TrieOfExtension(pats, p, w);
    }
  }

  /** Inserting the next letter of a pattern: the path grows by one word, and a word
      outside the trie has neither ids nor longer words below it. */
  lemma PathStep(pats: seq<Bytes>, p: Bytes, i: nat, w: Bytes)
    requires i < |p| && w == p[..i + 1]
    ensures Ext(p[..i], p[i]) == w
    ensures forall v :: IsPrefix(v, w) <==> IsPrefix(v, p[..i]) || v == w
    ensures !InTrie(pats, w) ==> Ids(pats, w) == [] && forall b: byte :: !InTrie(pats, Ext(w, b))
  {
    IdsOutsideTrie(pats, w);
    forall b: byte ensures InTrie(pats, Ext(w, b)) ==> InTrie(pats, w) {
      TrieIsClosedUnder(pats, w, b);
    }
  }

  /** Nothing is reported that does not end here, and nothing twice. */
  lemma {:induction false} OutputsAreSuffixes(pats: seq<Bytes>, w: Bytes)
    ensures forall k :: 0 <= k < |Outputs(pats, w)| ==>
      Outputs(pats, w)[k] < |pats| && IsSuffix(pats[Outputs(pats, w)[k]], w)
    ensures Distinct(Outputs(pats, w))
    decreases |w|
  {
    IdsMeaning(pats, w);
    if |w| > 1 {
      var f := Fail(pats, w);
      OutputsAreSuffixes(pats, f);
      LongestIsLongest(pats, w[1..]);
      forall k | 0 <= k < |Outputs(pats, f)|
        ensures IsSuffix(pats[Outputs(pats, f)[k]], w)
      {
        SuffixTransitive(pats[Outputs(pats, f)[k]], f, w[1..]);
        SuffixTransitive(pats[Outputs(pats, f)[k]], w[1..], w);
      }
    }
  }

  /** Every non-empty pattern that ends here is reported: the failure chain skips none. */
  lemma {:induction false} OutputsAreComplete(pats: seq<Bytes>, w: Bytes, id: nat)
    requires id < |pats| && pats[id] != [] && IsSuffix(pats[id], w)
    ensures id in Outputs(pats, w)
    decreases |w|
  {
    IdsMeaning(pats, w);
    if pats[id] != w {
      assert IsSuffix(pats[id], w[1..]);
      assert IsPrefix(pats[id], pats[id]);
      LongestIsLongest(pats, w[1..]);
      SuffixesNest(pats[id], Fail(pats, w), w[1..]);
      OutputsAreComplete(pats, Fail(pats, w), id);
    }
  }

  // ---- Search is exact ----

  /** Match `m` says truly where its pattern stands. */
  ghost predicate IsOccurrence(pats: seq<Bytes>, payload: Bytes, m: MatchResult) {
    m.patternID < |pats| && OccursAt(pats[m.patternID], payload, m.index)
  }

  /** The report is what trying every pattern at every position would give, each pair once. */
  ghost predicate Exact(pats: seq<Bytes>, payload: Bytes) {
    && (forall m :: m in Results(pats, payload) <==> IsOccurrence(pats, payload, m))
    && Distinct(Results(pats, payload))
  }

  ghost predicate NoEmptyPattern(pats: seq<Bytes>) {
    forall id :: 0 <= id < |pats| ==> pats[id] != []
  }

  /** What is reported at the last byte ends there; and a non-empty pattern that ends there is reported. */
  lemma HitsAreTheNewOccurrences(pats: seq<Bytes>, payload: Bytes, m: MatchResult)
    requires payload != [] && m.patternID < |pats|
    ensures forall k :: 0 <= k < |Outputs(pats, Longest(pats, payload))| ==>
      Outputs(pats, Longest(pats, payload))[k] < |pats|
    ensures m in Hits(pats, Outputs(pats, Longest(pats, payload)), |payload| - 1) ==>
      OccursAt(pats[m.patternID], payload, m.index) && m.index + |pats[m.patternID]| == |payload|
    ensures OccursAt(pats[m.patternID], payload, m.index) && m.index + |pats[m.patternID]| == |payload| && pats[m.patternID] != [] ==>
      m in Hits(pats, Outputs(pats, Longest(pats, payload)), |payload| - 1)
  {
    var u := Longest(pats, payload);
    var ids := Outputs(pats, u);
    var p := pats[m.patternID];
    OutputsAreSuffixes(pats, u);
    LongestIsLongest(pats, payload);
    SuffixIsOccurrence(p, payload);
    var hits := Hits(pats, ids, |payload| - 1);
    if m in hits {
      var k :| 0 <= k < |hits| && hits[k] == m;
      SuffixTransitive(p, u, payload);
    }
    if OccursAt(p, payload, m.index) && m.index + |p| == |payload| && p != [] {
      assert IsPrefix(p, pats[m.patternID]);
      SuffixesNest(p, u, payload);
      OutputsAreComplete(pats, u, m.patternID);
      var k :| 0 <= k < |ids| && ids[k] == m.patternID;
      assert hits[k] == m;
    }
  }

  lemma OccurrenceInPrefix(p: Bytes, text: Bytes, n: nat, i: int)
    requires n <= |text|
    ensures OccursAt(p, text[..n], i) <==> OccursAt(p, text, i) && i + |p| <= n
  {
    if 0 <= i && i + |p| <= n {
      assert text[..n][i..i + |p|] == text[i..i + |p|];
    }
  }

  /** For any patterns: the report is sound and free of repetitions, and misses no non-empty pattern. */
  lemma {:induction false} SearchFindsNonEmpty(pats: seq<Bytes>, payload: Bytes)
    ensures forall m :: m in Results(pats, payload) ==> IsOccurrence(pats, payload, m)
    ensures forall m :: IsOccurrence(pats, payload, m) && pats[m.patternID] != [] ==> m in Results(pats, payload)
    ensures Distinct(Results(pats, payload))
  {
    var n := |payload| - 1;
    if payload == [] {
    } else {
      SearchFindsNonEmpty(pats, payload[..n]);
      var u := Longest(pats, payload);
      OutputsAreSuffixes(pats, u);
      var before, hits := Results(pats, payload[..n]), Hits(pats, Outputs(pats, u), n);
      forall m: MatchResult
        ensures m in before + hits ==> IsOccurrence(pats, payload, m)
        ensures IsOccurrence(pats, payload, m) && pats[m.patternID] != [] ==> m in before + hits
        ensures m in before ==> m !in hits
      {
        if m.patternID < |pats| {
          HitsAreTheNewOccurrences(pats, payload, m);
          OccurrenceInPrefix(pats[m.patternID], payload, n, m.index);
        }
      }
      assert Results(pats, payload) == before + hits;
      assert Distinct(hits);
      DistinctAppend(before, hits);
    }
  }

  lemma SearchIsExact(pats: seq<Bytes>, payload: Bytes)
    requires NoEmptyPattern(pats)
    ensures Exact(pats, payload)
  {
    SearchFindsNonEmpty(pats, payload);
  }

  /** With an empty pattern the report misses the occurrence in the empty payload, so the
      matcher is exact on all payloads if and only if no empty pattern was added. */
  lemma ExactOnAllPayloads(pats: seq<Bytes>)
    ensures (forall payload :: Exact(pats, payload)) <==> NoEmptyPattern(pats)
  {
    if NoEmptyPattern(pats) {
      forall payload ensures Exact(pats, payload) { SearchIsExact(pats, payload); }
    } else {
      var id :| 0 <= id < |pats| && pats[id] == [];
      assert IsOccurrence(pats, [], MatchResult(id, 0));
      assert !Exact(pats, []);
    }
  }

  // ---- The amortised bound on failure links ----

  /** The number of links followed (the last one may lead out of the root to nil) before byte `b` is consumed from node `u`. */
  ghost function LinksFollowed(pats: seq<Bytes>, u: Bytes, b: byte): nat
    decreases |u|
  {
    if InTrie(pats, u + [b]) then 0
    else if u == [] then 1
    else 1 + LinksFollowed(pats, Fail(pats, u), b)
  }

  ghost function TotalLinks(pats: seq<Bytes>, payload: Bytes): nat {
    if payload == [] then 0 else
      var n := |payload| - 1;
      TotalLinks(pats, payload[..n]) + LinksFollowed(pats, Longest(pats, payload[..n]), payload[n])
  }

  /** Every link followed loses depth, and a byte gains at most one. */
  lemma {:induction false} LinksPayForDepth(pats: seq<Bytes>, u: Bytes, b: byte)
    ensures LinksFollowed(pats, u, b) + |Longest(pats, u + [b])| <= |u| + 1
    decreases |u|
  {
    if !InTrie(pats, u + [b]) {
      if u == [] {
        assert (u + [b])[1..] == [];
      } else {
        FailKeepsSuccessor(pats, u, b);
        LinksPayForDepth(pats, Fail(pats, u), b);
      }
    }
  }

  lemma {:induction false} SearchIsLinear(pats: seq<Bytes>, payload: Bytes)
    ensures TotalLinks(pats, payload) + |Longest(pats, payload)| <= |payload|
  {
    if payload == [] {
    } else {
      var n := |payload| - 1;
      var u := Longest(pats, payload[..n]);
      SearchIsLinear(pats, payload[..n]);
      assert payload[..n] + [payload[n]] == payload;
      LongestStep(pats, payload[..n], payload[n]);
      LinksPayForDepth(pats, u, payload[n]);
    }
  }

  /** What one more byte adds to the state, the report and the count of links. */
  lemma SearchStep(pats: seq<Bytes>, payload: Bytes, i: nat)
    requires i < |payload|
    ensures var u, next := Longest(pats, payload[..i]), Longest(pats, payload[..i + 1]);
      && next == Longest(pats, Ext(u, payload[i]))
      && (forall k :: 0 <= k < |Outputs(pats, next)| ==> Outputs(pats, next)[k] < |pats|)
      && Results(pats, payload[..i + 1]) == Results(pats, payload[..i]) + Hits(pats, Outputs(pats, next), i)
      && TotalLinks(pats, payload[..i + 1]) == TotalLinks(pats, payload[..i]) + LinksFollowed(pats, u, payload[i])
  {
    LongestOfNextPrefix(pats, payload, i);
    OutputsAreSuffixes(pats, Longest(pats, payload[..i + 1]));
  }
}
