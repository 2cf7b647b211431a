/**
 * The three JavaScript string operations the title filter relies on: `trim`, `toLowerCase`
 * and `includes`. Strings are sequences of code points.
 */
module JsString {

  /**
   * The code points `String.prototype.trim` strips: the ECMAScript WhiteSpace set (tab,
   * vertical tab, form feed, space, no-break space, byte order mark and the other Unicode
   * space separators) and the LineTerminator set (line feed, carriage return, line and
   * paragraph separators).
   */
  predicate IsWhitespace(c: char)
  {
    c == '\t' || c == '\n' || c == '\U{000B}' || c == '\U{000C}' || c == '\r' || c == ' ' ||
    c == '\U{00A0}' || c == '\U{1680}' || ('\U{2000}' <= c <= '\U{200A}') ||
    c == '\U{2028}' || c == '\U{2029}' || c == '\U{202F}' || c == '\U{205F}' ||
    c == '\U{3000}' || c == '\U{FEFF}'
  }

  predicate AllWhitespace(s: string)
  {
    forall i :: 0 <= i < |s| ==> IsWhitespace(s[i])
  }

  /** Drops the leading whitespace: the result is the suffix of `s` that starts at its first
      non-whitespace code point. */
  function TrimStart(s: string): (r: string)
    ensures |r| <= |s| && r == s[|s| - |r|..]
    ensures AllWhitespace(s[..|s| - |r|])
    ensures r != [] ==> !IsWhitespace(r[0])
    decreases |s|
  {
    if s != [] && IsWhitespace(s[0]) then
      var tail := s[1..];
      var r := TrimStart(tail);
      assert tail[|tail| - |r|..] == s[|s| - |r|..];
      assert AllWhitespace(s[..|s| - |r|]) by {
        forall i | 0 <= i < |s| - |r| ensures IsWhitespace(s[i]) {
          if i > 0 { assert s[i] == tail[..|tail| - |r|][i - 1]; }
        }
      }
      r
    else s
  }

  /** Drops the trailing whitespace: the result is the prefix of `s` that ends at its last
      non-whitespace code point. */
  function TrimEnd(s: string): (r: string)
    ensures |r| <= |s| && r == s[..|r|]
    ensures AllWhitespace(s[|r|..])
    ensures r != [] ==> !IsWhitespace(r[|r| - 1])
    decreases |s|
  {
    if s != [] && IsWhitespace(s[|s| - 1]) then
      var front := s[..|s| - 1];
      var r := TrimEnd(front);
      assert front[..|r|] == s[..|r|];
      assert AllWhitespace(s[|r|..]) by {
        forall i | |r| <= i < |s| ensures IsWhitespace(s[i]) {
          if i < |s| - 1 { assert s[i] == front[|r|..][i - |r|]; }
        }
      }
      r
    else s
  }

  /** `String.prototype.trim`: a slice of `s` with only whitespace before and after it; empty
      exactly for a whitespace-only string, otherwise it starts and ends with a non-whitespace
      code point. */
  function Trim(s: string): (r: string)
    ensures exists i :: 0 <= i <= |s| - |r| && r == s[i..i + |r|] &&
              AllWhitespace(s[..i]) && AllWhitespace(s[i + |r|..])
    ensures r == [] <==> AllWhitespace(s)
    ensures r != [] ==> !IsWhitespace(r[0]) && !IsWhitespace(r[|r| - 1])
  {
    var head := TrimStart(s);
    var r := TrimEnd(head);
    TrimBothEnds(s, head, r);
    r
  }

  /** Trimming the front and then the back leaves a slice of `s` between two whitespace runs,
      which is empty exactly when `s` is all whitespace. */
  lemma TrimBothEnds(s: string, head: string, r: string)
    requires |head| <= |s| && head == s[|s| - |head|..] && AllWhitespace(s[..|s| - |head|])
    requires head != [] ==> !IsWhitespace(head[0])
    requires |r| <= |head| && r == head[..|r|] && AllWhitespace(head[|r|..])
    requires r != [] ==> !IsWhitespace(r[|r| - 1])
    ensures var i := |s| - |head|;
            i <= |s| - |r| && r == s[i..i + |r|] && AllWhitespace(s[..i]) && AllWhitespace(s[i + |r|..])
    ensures r == [] <==> AllWhitespace(s)
    ensures r != [] ==> !IsWhitespace(r[0]) && !IsWhitespace(r[|r| - 1])
  {
    var i := |s| - |head|;
    assert r == s[i..i + |r|];
    assert head[|r|..] == s[i + |r|..];
    if r != [] {
      assert r[0] == head[0];
    }
  }

  /** `toLowerCase` on one code point, for the ASCII letters: an upper-case letter becomes its
      lower-case partner, every other code point is kept, and whitespace stays whitespace. */
  function ToLowerChar(c: char): (r: char)
    ensures !('A' <= r <= 'Z')
    ensures 'A' <= c <= 'Z' ==> 'a' <= r <= 'z' && r as int - 'a' as int == c as int - 'A' as int
    ensures !('A' <= c <= 'Z') ==> r == c
    ensures IsWhitespace(r) <==> IsWhitespace(c)
  {
    if 'A' <= c <= 'Z' then (c as int + 32) as char else c
  }

  /** `String.prototype.toLowerCase`, code point by code point: the same length, no upper-case
      ASCII letter left, and whitespace exactly where `s` has it. */
  function ToLower(s: string): (r: string)
    ensures |r| == |s|
    ensures forall i :: 0 <= i < |s| ==> r[i] == ToLowerChar(s[i])
    ensures forall i :: 0 <= i < |r| ==> !('A' <= r[i] <= 'Z')
    ensures AllWhitespace(r) <==> AllWhitespace(s)
  {
    seq(|s|, i requires 0 <= i < |s| => ToLowerChar(s[i]))
  }

  /** Lowering an already lowered string changes nothing. */
  lemma ToLowerIdempotent(s: string)
    ensures ToLower(ToLower(s)) == ToLower(s)
  {
  }

  predicate IsPrefix(p: string, s: string)
  {
    |p| <= |s| && s[..|p|] == p
  }

  /** `String.prototype.includes`: `sub` occurs in `s` at some position (the empty string
      occurs everywhere). */
  predicate Includes(s: string, sub: string)
  {
    exists i :: 0 <= i <= |s| && IsPrefix(sub, s[i..])
  }

  /** The empty string is included in every string, and only strings no longer than `s`
      are included in it. */
  lemma IncludesBounds(s: string, sub: string)
    ensures Includes(s, [])
    ensures Includes(s, sub) ==> |sub| <= |s|
  {
    assert IsPrefix([], s[0..]);
  }

  /** Every slice of `s` is included in `s`, and so in any string `s` is part of. */
  lemma IncludesSlice(pre: string, s: string, post: string, i: int, j: int)
    requires 0 <= i <= j <= |s|
    ensures Includes(pre + s + post, s[i..j])
  {
    var w := pre + s + post;
    var k := |pre| + i;
    assert w[k..][..j - i] == s[i..j];
    assert IsPrefix(s[i..j], w[k..]);
  }

  /** Surrounding whitespace does not change the trimmed string. */
  lemma TrimIgnoresPadding(pre: string, q: string, post: string)
    requires AllWhitespace(pre) && AllWhitespace(post)
    ensures Trim(pre + q + post) == Trim(q)
  {
    assert pre + q + post == pre + (q + post);
    TrimStartSkipsWhitespace(pre, q + post);
    if AllWhitespace(q) {
      assert AllWhitespace(q + post) by {
        forall i | 0 <= i < |q + post| ensures IsWhitespace((q + post)[i]) {
          if i >= |q| { assert (q + post)[i] == post[i - |q|]; }
        }
      }
      assert Trim(q + post) == [];
    } else {
      TrimStartKeepsTail(q, post);
      TrimEndSkipsWhitespace(TrimStart(q), post);
    }
  }

  lemma {:induction false} TrimStartSkipsWhitespace(pre: string, s: string)
    requires AllWhitespace(pre)
    ensures TrimStart(pre + s) == TrimStart(s)
    decreases |pre|
  {
    if pre != [] {
      var ps := pre + s;
      var tail := pre[1..];
      assert ps[0] == pre[0] && IsWhitespace(pre[0]);
      assert ps[1..] == tail + s;
      assert AllWhitespace(tail) by {
        forall i | 0 <= i < |tail| ensures IsWhitespace(tail[i]) {
          assert tail[i] == pre[i + 1];
        }
      }
      TrimStartSkipsWhitespace(tail, s);
    } else {
      assert pre + s == s;
    }
  }

  lemma {:induction false} TrimStartKeepsTail(q: string, post: string)
    requires !AllWhitespace(q)
    ensures TrimStart(q + post) == TrimStart(q) + post
    decreases |q|
  {
    assert q != [];
    assert (q + post)[0] == q[0];
    if IsWhitespace(q[0]) {
      assert (q + post)[1..] == q[1..] + post;
      var k :| 0 <= k < |q| && !IsWhitespace(q[k]);
      assert q[1..][k - 1] == q[k];
      TrimStartKeepsTail(q[1..], post);
    }
  }

  lemma {:induction false} TrimEndSkipsWhitespace(s: string, post: string)
    requires AllWhitespace(post)
    ensures TrimEnd(s + post) == TrimEnd(s)
    decreases |post|
  {
    if post == [] {
      assert s + post == s;
    } else {
      var n := |post| - 1;
      assert (s + post)[..|s + post| - 1] == s + post[..n];
      assert (s + post)[|s + post| - 1] == post[n];
      TrimEndSkipsWhitespace(s, post[..n]);
    }
  }
}
