/**
 * A JavaScript `Set<string>` as the sequence of its members in insertion order, which is the
 * order `for...of` and `Array.from` visit them in.
 */
module JsSet {
  import opened Seqs

  /** `Set.prototype.add`: an absent value goes to the end; a present one keeps its place. */
  function Add(s: seq<string>, x: string): (r: seq<string>)
    ensures forall y :: y in r <==> y in s || y == x
    ensures |s| <= |r| && r[..|s|] == s
    ensures x in s ==> r == s
    ensures x !in s ==> r == s + [x]
    ensures NoDuplicates(s) ==> NoDuplicates(r)
  {
    if x in s then s else s + [x]
  }

  /** `Set.prototype.delete`: the value is gone and the others keep their order. */
  function Delete(s: seq<string>, x: string): (r: seq<string>)
    ensures forall y :: y in r <==> y in s && y != x
    ensures IsSubsequence(r, s)
    ensures x !in s ==> r == s
    ensures NoDuplicates(s) ==> NoDuplicates(r)
    decreases |s|
  {
    if s == [] then []
    else if s[0] == x then Delete(s[1..], x)
    else
      var rest := Delete(s[1..], x);
      NoDuplicatesCons(s[0], s[1..]);
      NoDuplicatesCons(s[0], rest);
      [s[0]] + rest
  }

  /** Deleting a value that the front part does not hold only touches the back part. */
  lemma {:induction false} DeleteAppend(a: seq<string>, b: seq<string>, x: string)
    requires x !in a
    ensures Delete(a + b, x) == a + Delete(b, x)
    decreases |a|
  {
    if a == [] {
      assert a + b == b;
    } else {
      var h, t := a[0], a[1..];
      assert x !in t;
      DeleteAppend(t, b, x);
      assert a == [h] + t;
      ConsAppend(h, t, b);
      DeleteCons(h, t + b, x);
      ConsAppend(h, t, Delete(b, x));
    }
  }

  /** Regrouping after a head, kept apart from DeleteAppend's larger context. */
  lemma ConsAppend(h: string, t: seq<string>, b: seq<string>)
    ensures [h] + t + b == [h] + (t + b)
  {
  }

  /** Deleting another value keeps the head in front. */
  lemma DeleteCons(h: string, t: seq<string>, x: string)
    requires h != x
    ensures Delete([h] + t, x) == [h] + Delete(t, x)
  {
    assert ([h] + t)[0] == h && ([h] + t)[1..] == t;
  }

  /**
   * Adding `x` to a set kept as the first occurrences of `named`, in order, gives the first
   * occurrences of `named + [x]`, in order.
   */
  lemma AddFollowsFirstOccurrences(prev: seq<string>, named: seq<string>, x: string)
    requires IsSubsequence(prev, named) && InFirstOccurrenceOrder(prev, named)
    requires forall y :: y in prev <==> y in named
    ensures IsSubsequence(Add(prev, x), named + [x])
    ensures InFirstOccurrenceOrder(Add(prev, x), named + [x])
    ensures forall y :: y in Add(prev, x) <==> y in named + [x]
  {
    assert forall y :: y in named + [x] <==> y in named || y == x;
    if x in prev {
      SubsequenceExtend(prev, named, x);
      OrderAppendOld(prev, named, x);
    } else {
      SubsequenceAppend(prev, named, x);
      OrderAppendNew(prev, named, x);
    }
  }
}
