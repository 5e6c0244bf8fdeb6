/** Bytes, byte strings and the few facts about suffixes and distinct lists that several modules share. */
module Bytes {
  type byte = b: int | 0 <= b < 256

  type Bytes = seq<byte>

  /** `p` is a prefix of `w`. */
  predicate IsPrefix(p: Bytes, w: Bytes) {
    p <= w
  }

  /** `w` followed by one more byte. */
  function Ext(w: Bytes, b: byte): Bytes {
    w + [b]
  }

  /** `s` is a suffix of `w`. */
  predicate IsSuffix(s: Bytes, w: Bytes) {
    |s| <= |w| && s == w[|w| - |s|..]
  }

  /** `p` stands in `text` at position `i`. */
  predicate OccursAt(p: Bytes, text: Bytes, i: int) {
    0 <= i <= |text| - |p| && text[i..i + |p|] == p
  }

  // ---- ASCII case ----

  function LowerByte(b: byte): byte {
    if 'A' as int <= b <= 'Z' as int then b + 32 else b
  }

  function AsciiLower(s: Bytes): (r: Bytes)
    ensures |r| == |s| && forall i :: 0 <= i < |s| ==> r[i] == LowerByte(s[i])
  {
    seq(|s|, i requires 0 <= i < |s| => LowerByte(s[i]))
  }

  // ---- Distinct lists ----

  ghost predicate Distinct<T(!new)>(xs: seq<T>) {
    forall i, j :: 0 <= i < j < |xs| ==> xs[i] != xs[j]
  }

  lemma DistinctAppend<T(!new)>(xs: seq<T>, ys: seq<T>)
    requires Distinct(xs) && Distinct(ys)
    requires forall x :: x in xs ==> x !in ys
    ensures Distinct(xs + ys)
  {
    forall i, j | 0 <= i < j < |xs + ys| ensures (xs + ys)[i] != (xs + ys)[j] {
      if i < |xs| <= j {
        assert xs[i] in xs && ys[j - |xs|] in ys;
      }
    }
  }

  lemma WithoutLast(w: Bytes) returns (v: Bytes, b: byte)
    requires w != []
    ensures Ext(v, b) == w && |v| + 1 == |w|
  {
    v, b := w[..|w| - 1], w[|w| - 1];
  }

  lemma SnocInjective(v: Bytes, a: byte, w: Bytes, b: byte)
    ensures v + [a] == w + [b] ==> v == w && a == b
  {
    if v + [a] == w + [b] {
      assert v == (v + [a])[..|v|] == (w + [b])[..|w|] == w;
      assert a == (v + [a])[|v|];
    }
  }

  lemma SuffixTransitive(s: Bytes, t: Bytes, w: Bytes)
    requires IsSuffix(s, t) && IsSuffix(t, w)
    ensures IsSuffix(s, w)
  {
  }

  /** Two suffixes of one word are suffixes of each other, the shorter of the longer. */
  lemma SuffixesNest(s: Bytes, t: Bytes, w: Bytes)
    requires IsSuffix(s, w) && IsSuffix(t, w) && |s| <= |t|
    ensures IsSuffix(s, t)
  {
    assert t[|t| - |s|..] == w[|w| - |s|..];
  }

  /** A pattern ends at the end of `w` exactly when it is a suffix of `w`. */
  lemma SuffixIsOccurrence(p: Bytes, w: Bytes)
    ensures IsSuffix(p, w) <==> OccursAt(p, w, |w| - |p|)
  {
    if |p| <= |w| {
      assert w[|w| - |p|..] == w[|w| - |p|..|w| - |p| + |p|];
    }
  }
}
