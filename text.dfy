/**
 * The JavaScript string built-ins the journal relies on: `trim`, ASCII
 * `toLowerCase`, `includes`, `split`, `join` and `replace(/\s+/g, '_')`.
 */
module Text {

  /** The characters `String.prototype.trim` removes and the regular-expression
      class `\s` matches: ECMAScript WhiteSpace and LineTerminator. */
  predicate IsSpace(c: char)
  {
    || c == ' ' || c == '\t' || c == '\n' || c == '\r' || c == '\U{B}' || c == '\U{C}'
    || c == '\U{A0}' || c == '\U{1680}' || ('\U{2000}' <= c <= '\U{200A}')
    || c == '\U{2028}' || c == '\U{2029}' || c == '\U{202F}' || c == '\U{205F}'
    || c == '\U{3000}' || c == '\U{FEFF}'
  }

  predicate NoSpace(s: string)
  {
    forall i :: 0 <= i < |s| ==> !IsSpace(s[i])
  }

  /** Nothing but whitespace. */
  predicate AllSpace(s: string)
  {
    forall i :: 0 <= i < |s| ==> IsSpace(s[i])
  }

  /** No whitespace at either end. */
  predicate Trimmed(s: string)
  {
    s == [] || (!IsSpace(s[0]) && !IsSpace(s[|s| - 1]))
  }

  /** Where the leading whitespace of `s[i..]` ends: the first index at or after `i` that does not
      hold whitespace, or `|s|`. */
  function LeadingEnd(s: string, i: nat): (n: nat)
    requires i <= |s|
    ensures i <= n <= |s|
    ensures forall k :: i <= k < n ==> IsSpace(s[k])
    ensures n == |s| || !IsSpace(s[n])
    decreases |s| - i
  {
    if i < |s| && IsSpace(s[i]) then LeadingEnd(s, i + 1) else i
  }

  /** Where the trailing whitespace of `s[lo..j]` starts: just past the last index before `j`, and
      not before `lo`, that does not hold whitespace, or `lo`. */
  function TrailingEnd(s: string, lo: nat, j: nat): (n: nat)
    requires lo <= j <= |s|
    ensures lo <= n <= j
    ensures forall k :: n <= k < j ==> IsSpace(s[k])
    ensures n == lo || !IsSpace(s[n - 1])
    decreases j - lo
  {
    if lo < j && IsSpace(s[j - 1]) then TrailingEnd(s, lo, j - 1) else j
  }

  /** `s.trimStart()`: `s` without its leading whitespace. */
  function TrimStart(s: string): (r: string)
    ensures |r| <= |s|
    ensures r == s[|s| - |r|..]
    ensures r == [] || !IsSpace(r[0])
    ensures AllSpace(s[..|s| - |r|])
  {
    var n := LeadingEnd(s, 0);
    assert forall k :: 0 <= k < n ==> s[..n][k] == s[k];
    s[n..]
  }

  /** `s.trim()`: the result is `s` without its leading and trailing whitespace: the slice of `s`
      that starts where its leading whitespace ends, with nothing but whitespace in front of it and
      behind it. */
  function Trim(s: string): (r: string)
    ensures Trimmed(r)
    ensures |r| <= |s|
    ensures Trimmed(s) ==> r == s
    ensures LeadingEnd(s, 0) + |r| <= |s|
    ensures r == s[LeadingEnd(s, 0)..LeadingEnd(s, 0) + |r|]
    ensures AllSpace(s[..LeadingEnd(s, 0)])
    ensures AllSpace(s[LeadingEnd(s, 0) + |r|..])
  {
    var a := LeadingEnd(s, 0);
    var b := TrailingEnd(s, a, |s|);
    assert AllSpace(s[..a]) by {
      forall k | 0 <= k < a
        ensures IsSpace(s[..a][k])
      {
        assert s[..a][k] == s[k];
      }
    }
    assert AllSpace(s[b..]) by {
      forall k | 0 <= k < |s| - b
        ensures IsSpace(s[b..][k])
      {
        assert s[b..][k] == s[b + k];
      }
    }
    s[a..b]
  }

  /** Whitespace in front of a string that does not start with whitespace is exactly the
      leading whitespace. */
  lemma LeadingRunEnd(w: string, b: string)
    requires AllSpace(w)
    requires b == [] || !IsSpace(b[0])
    ensures LeadingEnd(w + b, 0) == |w|
  {
    var s := w + b;
    assert forall k :: 0 <= k < |w| ==> s[k] == w[k];
    if b != [] {
      assert s[|w|] == b[0];
    }
  }

  /** Whitespace in front of a trimmed string is exactly what `trim` removes. */
  lemma TrimAfterSpaces(w: string, t: string)
    requires AllSpace(w) && Trimmed(t)
    ensures Trim(w + t) == t
  {
    var s := w + t;
    LeadingRunEnd(w, t);
    if t != [] {
      assert s[|s| - 1] == t[|t| - 1];
    }
    assert s[|w|..|s|] == t;
  }

  function LowerChar(c: char): char
  {
    if 'A' <= c <= 'Z' then (c as int + 32) as char else c
  }

  /** `s.toLowerCase()`, restricted to the ASCII letters. */
  function Lower(s: string): (r: string)
    ensures |r| == |s|
    ensures forall i :: 0 <= i < |s| ==> !('A' <= r[i] <= 'Z')
    ensures forall i :: 0 <= i < |s| && !('A' <= s[i] <= 'Z') ==> r[i] == s[i]
    ensures forall i :: 0 <= i < |s| && 'A' <= s[i] <= 'Z' ==>
      'a' <= r[i] <= 'z' && r[i] as int - 'a' as int == s[i] as int - 'A' as int
  {
    seq(|s|, i requires 0 <= i < |s| => LowerChar(s[i]))
  }

  /** `q` occurs in `text` starting at position `i`. */
  predicate OccursAt(text: string, q: string, i: int)
  {
    0 <= i <= |text| - |q| && text[i..i + |q|] == q
  }

  /** `text.includes(q)`: `q` occurs in `text` at some position. */
  function Contains(text: string, q: string): (r: bool)
    ensures r <==> exists i :: OccursAt(text, q, i)
    decreases |text|
  {
    if q <= text then
      assert OccursAt(text, q, 0);
      true
    else if text == [] then
      assert forall i :: !OccursAt(text, q, i);
      false
    else
      var r := Contains(text[1..], q);
      assert !OccursAt(text, q, 0);
      forall i | 1 <= i
        ensures OccursAt(text, q, i) <==> OccursAt(text[1..], q, i - 1)
      {
        if 0 <= i - 1 <= |text| - 1 - |q| {
          assert text[1..][i - 1..i - 1 + |q|] == text[i..i + |q|];
        }
      }
      assert r ==> OccursAt(text, q, 1 + (var j :| OccursAt(text[1..], q, j); j));
      r
  }

  /** A query holding a character the text lacks does not occur in it. */
  lemma MissingChar(text: string, q: string, k: int)
    requires 0 <= k < |q| && q[k] !in text
    ensures !Contains(text, q)
  {
    forall i
      ensures !OccursAt(text, q, i)
    {
      if 0 <= i <= |text| - |q| {
        assert text[i..i + |q|][k] == text[i + k];
      }
    }
  }

  /** `s.split(sep)`: the pieces between separators, always at least one. */
  function Split(s: string, sep: char): (r: seq<string>)
    ensures |r| >= 1
    ensures forall k :: 0 <= k < |r| ==> sep !in r[k]
  {
    if s == [] then [""]
    else
      var rest := Split(s[1..], sep);
      if s[0] == sep then [""] + rest
      else [[s[0]] + rest[0]] + rest[1..]
  }

  /** A string found in `t` is found in any string that has `t` in the middle. */
  lemma ContainsWithin(pre: string, t: string, post: string, q: string)
    requires Contains(t, q)
    ensures Contains(pre + t + post, q)
  {
    var i :| OccursAt(t, q, i);
    assert (pre + t + post)[|pre| + i..|pre| + i + |q|] == t[i..i + |q|];
    assert OccursAt(pre + t + post, q, |pre| + i);
  }

  /** `parts.join(d)`. */
  function Join(parts: seq<string>, d: string): string
  {
    if parts == [] then ""
    else if |parts| == 1 then parts[0]
    else parts[0] + d + Join(parts[1..], d)
  }

  /** Every part can be found in the joined string. */
  lemma {:induction false} JoinContains(parts: seq<string>, d: string)
    ensures forall k :: 0 <= k < |parts| ==> Contains(Join(parts, d), parts[k])
  {
    if |parts| == 1 {
      assert OccursAt(parts[0], parts[0], 0);
    } else if |parts| > 1 {
      JoinContains(parts[1..], d);
      var rest := Join(parts[1..], d);
      assert forall k :: 1 <= k < |parts| ==> Contains(rest, parts[k]) by {
        forall k | 1 <= k < |parts|
          ensures Contains(rest, parts[k])
        {
          assert parts[k] == parts[1..][k - 1];
        }
      }
      JoinFound(parts, d, rest);
    }
  }

  lemma JoinFound(parts: seq<string>, d: string, rest: string)
    requires |parts| >= 2
    requires forall k :: 1 <= k < |parts| ==> Contains(rest, parts[k])
    ensures forall k :: 0 <= k < |parts| ==> Contains(parts[0] + d + rest, parts[k])
  {
    forall k | 0 <= k < |parts|
      ensures Contains(parts[0] + d + rest, parts[k])
    {
      if k == 0 {
        assert OccursAt(parts[0], parts[0], 0);
        ContainsWithin([], parts[0], d + rest, parts[0]);
        assert [] + parts[0] + (d + rest) == parts[0] + d + rest;
      } else {
        ContainsWithin(parts[0] + d, rest, [], parts[k]);
        assert parts[0] + d + rest + [] == parts[0] + d + rest;
      }
    }
  }

  /** `s.replace(/\s+/g, '_')`: every maximal run of whitespace becomes one underscore. */
  function CollapseSpaces(s: string): (r: string)
    ensures NoSpace(r)
    ensures NoSpace(s) ==> r == s
    decreases |s|
  {
    if s == [] then []
    else if IsSpace(s[0]) then "_" + CollapseSpaces(TrimStart(s))
    else [s[0]] + CollapseSpaces(s[1..])
  }

  /** Whitespace in front of a string that does not start with whitespace is exactly what
      `TrimStart` removes. */
  lemma TrimStartRun(w: string, b: string)
    requires AllSpace(w)
    requires b == [] || !IsSpace(b[0])
    ensures TrimStart(w + b) == b
  {
    LeadingRunEnd(w, b);
    assert (w + b)[|w|..] == b;
  }

  /** A leading run of whitespace becomes a single underscore. */
  lemma LeadingRun(w: string, b: string)
    requires w != [] && AllSpace(w)
    requires b == [] || !IsSpace(b[0])
    ensures CollapseSpaces(w + b) == "_" + CollapseSpaces(b)
  {
    assert IsSpace((w + b)[0]) by {
      assert (w + b)[0] == w[0];
    }
    TrimStartRun(w, b);
  }

  /** The run law of `replace(/\s+/g, '_')`: text without whitespace is kept, and a maximal run of
      whitespace becomes a single underscore. */
  lemma {:induction false} CollapseRun(a: string, w: string, b: string)
    requires NoSpace(a)
    requires w != [] && AllSpace(w)
    requires b == [] || !IsSpace(b[0])
    ensures CollapseSpaces(a + w + b) == a + ("_" + CollapseSpaces(b))
    decreases |a|
  {
    if a == [] {
      assert a + w + b == w + b;
      LeadingRun(w, b);
    } else {
      var s := a + w + b;
      assert s[0] == a[0] && !IsSpace(s[0]);
      assert s[1..] == a[1..] + w + b;
      assert NoSpace(a[1..]) by {
        forall i | 0 <= i < |a| - 1
          ensures !IsSpace(a[1..][i])
        {
          assert a[1..][i] == a[i + 1];
        }
      }
      CollapseRun(a[1..], w, b);
      assert CollapseSpaces(s) == [a[0]] + CollapseSpaces(s[1..]);
      HeadTail(a, "_" + CollapseSpaces(b));
    }
  }

  lemma HeadTail(a: string, t: string)
    requires a != []
    ensures [a[0]] + (a[1..] + t) == a + t
  {
    assert a == [a[0]] + a[1..];
  }
}
