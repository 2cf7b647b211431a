/** Sequence vocabulary shared by the filter, the sort and the open-state store. */
module Seqs {

  /** `a` is obtained from `b` by deleting some elements and keeping the order of the rest. */
  predicate IsSubsequence<T(==)>(a: seq<T>, b: seq<T>)
    decreases |b|
  {
    a == [] ||
    (b != [] && ((a[0] == b[0] && IsSubsequence(a[1..], b[1..])) || IsSubsequence(a, b[1..])))
  }

  /** No value occurs twice: the shape of a JavaScript `Set` kept as its insertion order. */
  predicate NoDuplicates<T(==)>(s: seq<T>)
  {
    forall i, j :: 0 <= i < j < |s| ==> s[i] != s[j]
  }

  /** Putting a value in front keeps the sequence duplicate-free exactly when it was absent. */
  lemma NoDuplicatesCons<T>(x: T, t: seq<T>)
    ensures NoDuplicates([x] + t) <==> x !in t && NoDuplicates(t)
  {
    var s := [x] + t;
    if NoDuplicates(s) {
      forall i, j | 0 <= i < j < |t| ensures t[i] != t[j] {
        assert s[i + 1] == t[i] && s[j + 1] == t[j];
      }
      forall i | 0 <= i < |t| ensures t[i] != x {
        assert s[0] == x && s[i + 1] == t[i];
      }
    }
  }

  lemma {:induction false} SubsequenceReflexive<T>(s: seq<T>)
    ensures IsSubsequence(s, s)
    decreases |s|
  {
    if s != [] {
      SubsequenceReflexive(s[1..]);
    }
  }

  /** A subsequence is no longer than the sequence and holds only its elements. */
  lemma {:induction false} SubsequenceBounds<T>(a: seq<T>, b: seq<T>)
    requires IsSubsequence(a, b)
    ensures |a| <= |b|
    ensures forall x :: x in a ==> x in b
    decreases |b|
  {
    if a != [] {
      if a[0] == b[0] && IsSubsequence(a[1..], b[1..]) {
        SubsequenceBounds(a[1..], b[1..]);
        assert forall x :: x in a ==> x == a[0] || x in a[1..];
      } else {
        SubsequenceBounds(a, b[1..]);
      }
    }
  }

  /** Appending the same element to both sides keeps a subsequence a subsequence. */
  lemma {:induction false} SubsequenceAppend<T>(a: seq<T>, b: seq<T>, x: T)
    requires IsSubsequence(a, b)
    ensures IsSubsequence(a + [x], b + [x])
    decreases |b|
  {
    if a == [] {
      if b == [] {
        assert IsSubsequence<T>([], []);
      } else {
        SubsequenceAppend(a, b[1..], x);
        assert (b + [x])[1..] == b[1..] + [x];
      }
    } else if a[0] == b[0] && IsSubsequence(a[1..], b[1..]) {
      SubsequenceAppend(a[1..], b[1..], x);
      assert (a + [x])[1..] == a[1..] + [x];
      assert (b + [x])[1..] == b[1..] + [x];
    } else {
      SubsequenceAppend(a, b[1..], x);
      assert (b + [x])[1..] == b[1..] + [x];
    }
  }

  /** Appending an element to the longer side only keeps a subsequence a subsequence. */
  lemma {:induction false} SubsequenceExtend<T>(a: seq<T>, b: seq<T>, x: T)
    requires IsSubsequence(a, b)
    ensures IsSubsequence(a, b + [x])
    decreases |b|
  {
    if a != [] {
      assert (b + [x])[1..] == b[1..] + [x];
      if a[0] == b[0] && IsSubsequence(a[1..], b[1..]) {
        SubsequenceExtend(a[1..], b[1..], x);
      } else {
        SubsequenceExtend(a, b[1..], x);
      }
    }
  }

  /** Cutting a sequence around position `i`. */
  lemma SplitAt<T>(s: seq<T>, i: nat)
    requires i < |s|
    ensures s[..i + 1] == s[..i] + [s[i]]
    ensures s[i..] == [s[i]] + s[i + 1..]
  {
  }

  lemma AppendAssoc<T>(a: seq<T>, b: seq<T>, c: seq<T>)
    ensures (a + b) + c == a + (b + c)
  {
  }

  /** In a duplicate-free sequence an element occurs neither before nor after its position. */
  lemma OccursOnce<T>(s: seq<T>, i: nat)
    requires NoDuplicates(s) && i < |s|
    ensures s[i] !in s[..i] && s[i] !in s[i + 1..]
  {
    var front, back := s[..i], s[i + 1..];
    forall j | 0 <= j < |front| ensures front[j] != s[i] {
      assert front[j] == s[j];
    }
    forall j | 0 <= j < |back| ensures back[j] != s[i] {
      assert back[j] == s[i + 1 + j];
    }
  }

  /** In a duplicate-free sequence every element is counted once. */
  lemma CountOnce<T>(s: seq<T>, i: nat)
    requires NoDuplicates(s) && i < |s|
    ensures multiset(s)[s[i]] == 1
  {
    OccursOnce(s, i);
    assert s == s[..i] + [s[i]] + s[i + 1..];
  }

  /** A sequence that counts `x` once and nothing else is `[x]`. */
  lemma SingleCount<T>(s: seq<T>, x: T)
    requires forall y :: multiset(s)[y] == if y == x then 1 else 0
    ensures s == [x]
  {
    assert multiset(s) == multiset{x};
    assert |s| == 1;
    assert s[0] in multiset(s);
  }

  /** The position of the first occurrence of `x` in `s`, or |s| when `x` does not occur. */
  function FirstPos<T(==)>(s: seq<T>, x: T): (k: nat)
    ensures k <= |s|
    ensures k < |s| <==> x in s
    ensures k < |s| ==> s[k] == x
    ensures forall j :: 0 <= j < k ==> s[j] != x
    decreases |s|
  {
    if s == [] then 0
    else if s[0] == x then 0
    else
      var k := 1 + FirstPos(s[1..], x);
      assert forall j :: 1 <= j < |s| ==> s[j] == s[1..][j - 1];
      k
  }

  /** The elements of `r` appear in the order of their first occurrences in `s`. */
  predicate InFirstOccurrenceOrder<T(==)>(r: seq<T>, s: seq<T>)
  {
    forall i, j :: 0 <= i < j < |r| ==> FirstPos(s, r[i]) < FirstPos(s, r[j])
  }

  /** Appending to `s` does not move the first occurrence of anything `s` already holds. */
  lemma FirstPosAppend<T>(s: seq<T>, x: T, y: T)
    requires y in s
    ensures FirstPos(s + [x], y) == FirstPos(s, y)
  {
    var k := FirstPos(s, y);
    var t := s + [x];
    assert t[k] == y;
    assert forall j :: 0 <= j < k ==> t[j] == s[j];
  }

  /** Appending to `s` keeps the order of elements `s` already holds. */
  lemma OrderAppendOld<T>(r: seq<T>, s: seq<T>, x: T)
    requires InFirstOccurrenceOrder(r, s) && forall y :: y in r ==> y in s
    ensures InFirstOccurrenceOrder(r, s + [x])
  {
    forall i, j | 0 <= i < j < |r| ensures FirstPos(s + [x], r[i]) < FirstPos(s + [x], r[j]) {
      FirstPosAppend(s, x, r[i]);
      FirstPosAppend(s, x, r[j]);
    }
  }

  /** A value new to `s`, appended to both, comes last in first-occurrence order. */
  lemma OrderAppendNew<T>(r: seq<T>, s: seq<T>, x: T)
    requires InFirstOccurrenceOrder(r, s) && (forall y :: y in r ==> y in s) && x !in s
    ensures InFirstOccurrenceOrder(r + [x], s + [x])
  {
    var r', s' := r + [x], s + [x];
    assert FirstPos(s', x) == |s|;
    forall i, j | 0 <= i < j < |r'| ensures FirstPos(s', r'[i]) < FirstPos(s', r'[j]) {
      assert r'[i] == r[i] && r[i] in r;
      FirstPosAppend(s, x, r[i]);
      if j < |r| {
        assert r'[j] == r[j] && r[j] in r;
        FirstPosAppend(s, x, r[j]);
      }
    }
  }
}
