/**
 The JavaScript string built-ins the matchers rely on: the white-space class
 shared by the regular-expression escape `\s` and `String.prototype.trim`,
 `trim`, `indexOf`, `split(/\s/)`, `Array.prototype.join` and the decimal
 rendering of an integral number inside a template literal.
 */
module JsText {

  /** The characters ECMAScript counts as WhiteSpace or LineTerminator. */
  predicate IsWhitespace(c: char) {
    || c == '\t' || c == '\n' || c == '\U{000B}' || c == '\U{000C}' || c == '\r' || c == ' '
    || c == '\U{00A0}' || c == '\U{1680}' || ('\U{2000}' <= c <= '\U{200A}')
    || c == '\U{2028}' || c == '\U{2029}' || c == '\U{202F}' || c == '\U{205F}'
    || c == '\U{3000}' || c == '\U{FEFF}'
  }

  predicate NoWhitespace(s: string) {
    forall i :: 0 <= i < |s| ==> !IsWhitespace(s[i])
  }

  predicate AllWhitespace(s: string) {
    forall i :: 0 <= i < |s| ==> IsWhitespace(s[i])
  }

  /** Neither end of `s` is white space. */
  predicate IsTrimmed(s: string) {
    s == [] || (!IsWhitespace(s[0]) && !IsWhitespace(s[|s| - 1]))
  }

  // ---------------------------------------------------------------- trim

  /** `trimStart`: drops the white space at the front. */
  function TrimStart(s: string): string {
    if s != [] && IsWhitespace(s[0]) then TrimStart(s[1..]) else s
  }

  /** `trimEnd`: drops the white space at the back. */
  function TrimEnd(s: string): string {
    if s != [] && IsWhitespace(s[|s| - 1]) then TrimEnd(s[..|s| - 1]) else s
  }

  /** TrimStart keeps a suffix that does not start with white space, and drops only white space. */
  lemma {:induction false} TrimStartShape(s: string)
    ensures var r := TrimStart(s);
      |r| <= |s| && r == s[|s| - |r|..] && AllWhitespace(s[..|s| - |r|])
      && (r == [] || !IsWhitespace(r[0]))
  {
    if s != [] && IsWhitespace(s[0]) {
      TrimStartShape(s[1..]);
      var r := TrimStart(s[1..]);
      var k := |s| - |r|;
      assert s[1..][|s| - 1 - |r|..] == s[k..];
      var tail := s[1..][..k - 1];
      assert AllWhitespace(tail);
      forall i | 0 <= i < k ensures IsWhitespace(s[..k][i]) {
        if i == 0 {
          assert s[..k][i] == s[0];
        } else {
          assert s[..k][i] == tail[i - 1];
          assert IsWhitespace(tail[i - 1]);
        }
      }
    }
  }

  /** TrimEnd keeps a prefix that does not end with white space, and drops only white space. */
  lemma {:induction false} TrimEndShape(s: string)
    ensures var r := TrimEnd(s);
      |r| <= |s| && r == s[..|r|] && AllWhitespace(s[|r|..])
      && (r == [] || !IsWhitespace(r[|r| - 1]))
  {
    if s != [] && IsWhitespace(s[|s| - 1]) {
      var p := s[..|s| - 1];
      TrimEndShape(p);
      var r := TrimEnd(p);
      assert p[..|r|] == s[..|r|];
      forall i | 0 <= i < |s| - |r| ensures IsWhitespace(s[|r|..][i]) {
        if i < |p| - |r| {
          assert s[|r|..][i] == p[|r|..][i];
        }
      }
    }
  }

  /** `String.prototype.trim`: drops the white space at both ends. */
  function Trim(s: string): (r: string)
    ensures IsTrimmed(r)
  {
    var t := TrimStart(s);
    var r := TrimEnd(t);
    TrimStartShape(s);
    TrimEndShape(t);
    assert IsTrimmed(r) by {
      if r != [] {
        assert r[0] == t[0];
      }
    }
    r
  }

  /** What trim removes is white space at either end and nothing else. */
  lemma TrimRemovesPadding(s: string) returns (pre: string, post: string)
    ensures AllWhitespace(pre) && AllWhitespace(post)
    ensures s == pre + Trim(s) + post
  {
    var t := TrimStart(s);
    var r := Trim(s);
    TrimStartShape(s);
    TrimEndShape(t);
    pre, post := s[..|s| - |t|], t[|r|..];
    assert t == r + post;
    assert s == pre + t;
  }

  lemma {:induction false} TrimStartOfPadded(pre: string, t: string)
    requires AllWhitespace(pre)
    requires t == [] || !IsWhitespace(t[0])
    ensures TrimStart(pre + t) == t
  {
    if pre != [] {
      assert (pre + t)[1..] == pre[1..] + t;
      TrimStartOfPadded(pre[1..], t);
    }
  }

  lemma {:induction false} TrimEndOfPadded(t: string, post: string)
    requires AllWhitespace(post)
    requires t == [] || !IsWhitespace(t[|t| - 1])
    ensures TrimEnd(t + post) == t
  {
    if post != [] {
      assert (t + post)[..|t + post| - 1] == t + post[..|post| - 1];
      TrimEndOfPadded(t, post[..|post| - 1]);
    }
  }

  /**
   Trim is characterised by its contract: whenever `s` is a trimmed core
   padded with white space on both sides, trimming gives back that core.
   */
  lemma TrimUnique(pre: string, t: string, post: string)
    requires AllWhitespace(pre) && AllWhitespace(post) && IsTrimmed(t)
    ensures Trim(pre + t + post) == t
  {
    if t == [] {
      assert pre + t + post == pre + post;
      TrimStartOfPadded(pre + post, []);
      assert pre + post + [] == pre + post;
    } else {
      assert pre + t + post == pre + (t + post);
      TrimStartOfPadded(pre, t + post);
      TrimEndOfPadded(t, post);
    }
  }

  /** Trimming is idempotent. */
  lemma TrimIdempotent(s: string)
    ensures Trim(Trim(s)) == Trim(s)
  {
    var t := Trim(s);
    assert t == [] + t + [];
    TrimUnique([], t, []);
  }

  lemma WhitespaceConcat(a: string, b: string)
    requires AllWhitespace(a) && AllWhitespace(b)
    ensures AllWhitespace(a + b)
  {
    forall i | 0 <= i < |a + b| ensures IsWhitespace((a + b)[i]) {
      if i >= |a| { assert (a + b)[i] == b[i - |a|]; }
    }
  }

  lemma Regroup(a: string, b: string, c: string, d: string, e: string)
    ensures a + (b + c + d) + e == (a + b) + c + (d + e)
  {
  }

  /** Extra white space around a string does not change its trimmed form. */
  lemma TrimIgnoresPadding(pre: string, s: string, post: string)
    requires AllWhitespace(pre) && AllWhitespace(post)
    ensures Trim(pre + s + post) == Trim(s)
  {
    var t := Trim(s);
    var p, q := TrimRemovesPadding(s);
    WhitespaceConcat(pre, p);
    WhitespaceConcat(q, post);
    Regroup(pre, p, t, q, post);
    TrimUnique(pre + p, t, q + post);
  }

  // ---------------------------------------------------------------- indexOf

  /** `x` occurs in `s` starting at index `i`. */
  predicate OccursAt(s: string, x: string, i: int) {
    0 <= i && i + |x| <= |s| && s[i..i + |x|] == x
  }

  predicate Contains(s: string, x: string) {
    exists i :: 0 <= i <= |s| && OccursAt(s, x, i)
  }

  function IndexOfFrom(s: string, x: string, from: nat): (r: int)
    ensures r == -1 || (from <= r && OccursAt(s, x, r))
    ensures r == -1 ==> forall i :: from <= i ==> !OccursAt(s, x, i)
    ensures r >= 0 ==> forall i :: from <= i < r ==> !OccursAt(s, x, i)
    decreases |s| - from
  {
    if from + |x| > |s| then -1
    else if s[from..from + |x|] == x then from
    else IndexOfFrom(s, x, from + 1)
  }

  /** `String.prototype.indexOf`: the first index where `x` occurs in `s`, or -1. */
  function IndexOf(s: string, x: string): (r: int)
    ensures r >= 0 <==> Contains(s, x)
    ensures r >= 0 ==> OccursAt(s, x, r) && forall i :: 0 <= i < r ==> !OccursAt(s, x, i)
    ensures r < 0 ==> r == -1
  {
    IndexOfFrom(s, x, 0)
  }

  /** Whatever occurs inside the middle of a concatenation occurs in the whole. */
  lemma ContainsInMiddle(pre: string, mid: string, post: string, x: string)
    requires Contains(mid, x)
    ensures Contains(pre + mid + post, x)
  {
    var i :| 0 <= i <= |mid| && OccursAt(mid, x, i);
    assert (pre + mid + post)[|pre| + i..|pre| + i + |x|] == mid[i..i + |x|];
    assert OccursAt(pre + mid + post, x, |pre| + i);
  }

  // ---------------------------------------------------------------- split and join

  /**
   `s.split(/\s/)`: cuts at every single white-space character, so two
   adjacent white-space characters, or one at either end, give an empty
   token; the empty string gives one empty token.
   */
  function Split(s: string): (tokens: seq<string>)
    ensures |tokens| >= 1
    ensures forall k :: 0 <= k < |tokens| ==> NoWhitespace(tokens[k])
  {
    if s == [] then [""]
    else
      var rest := Split(s[1..]);
      if IsWhitespace(s[0]) then [""] + rest
      else [[s[0]] + rest[0]] + rest[1..]
  }

  /** `parts.join(sep)`. */
  function Join(parts: seq<string>, sep: string): string {
    if |parts| == 0 then ""
    else if |parts| == 1 then parts[0]
    else parts[0] + sep + Join(parts[1..], sep)
  }

  /**
   What `join` gives: the empty string for no parts, the part itself for one
   part, and otherwise the parts with `sep` between neighbours, so that the
   result starts with the first part and ends with the last.
   */
  lemma {:induction false} JoinParts(parts: seq<string>, sep: string)
    ensures |parts| == 0 ==> Join(parts, sep) == ""
    ensures |parts| == 1 ==> Join(parts, sep) == parts[0]
    ensures |parts| >= 2 ==> Join(parts, sep) == parts[0] + sep + Join(parts[1..], sep)
    ensures |parts| >= 1 ==> parts[0] <= Join(parts, sep)
    ensures |parts| >= 1 ==> var r, last := Join(parts, sep), parts[|parts| - 1];
      |last| <= |r| && r[|r| - |last|..] == last
  {
    if |parts| >= 2 {
      JoinParts(parts[1..], sep);
      var r, rest := Join(parts, sep), Join(parts[1..], sep);
      var last := parts[|parts| - 1];
      assert parts[1..][|parts| - 2] == last;
      assert r == (parts[0] + sep) + rest;
      assert r[|r| - |last|..] == rest[|rest| - |last|..];
    }
  }

  lemma JoinExtendsHead(c: char, parts: seq<string>, sep: string)
    requires |parts| >= 1
    ensures Join([[c] + parts[0]] + parts[1..], sep) == [c] + Join(parts, sep)
  {
    var q := [[c] + parts[0]] + parts[1..];
    assert q[1..] == parts[1..];
  }

  /** A string whose only white space is plain spaces is re-assembled by joining its tokens with a space. */
  lemma {:induction false} JoinSplit(s: string)
    requires forall i :: 0 <= i < |s| && IsWhitespace(s[i]) ==> s[i] == ' '
    ensures Join(Split(s), " ") == s
  {
    if s != [] {
      var rest := Split(s[1..]);
      JoinSplit(s[1..]);
      if IsWhitespace(s[0]) {
        assert ([""] + rest)[1..] == rest;
        assert s == [' '] + s[1..];
      } else {
        JoinExtendsHead(s[0], rest, " ");
        assert s == [s[0]] + s[1..];
      }
    }
  }

  /** A string with no white space is a single token. */
  lemma {:induction false} SplitToken(a: string)
    requires NoWhitespace(a)
    ensures Split(a) == [a]
  {
    if a != [] {
      SplitToken(a[1..]);
      assert a == [a[0]] + a[1..];
    }
  }

  /** A token followed by one space is cut off as the first piece. */
  lemma {:induction false} SplitAfterToken(a: string, rest: string)
    requires NoWhitespace(a)
    ensures Split(a + " " + rest) == [a] + Split(rest)
  {
    var s := a + " " + rest;
    if a == [] {
      assert s[1..] == rest;
    } else {
      assert s[1..] == a[1..] + " " + rest;
      SplitAfterToken(a[1..], rest);
      assert a == [a[0]] + a[1..];
    }
  }

  /** Joining white-space free tokens with one space and splitting again gives the tokens back. */
  lemma {:induction false} SplitJoin(tokens: seq<string>)
    requires |tokens| >= 1
    requires forall k :: 0 <= k < |tokens| ==> NoWhitespace(tokens[k])
    ensures Split(Join(tokens, " ")) == tokens
  {
    if |tokens| == 1 {
      SplitToken(tokens[0]);
    } else {
      SplitJoin(tokens[1..]);
      SplitAfterToken(tokens[0], Join(tokens[1..], " "));
      assert tokens == [tokens[0]] + tokens[1..];
    }
  }

  /** The white-space characters of `s`, in order: the places where `split(/\s/)` cuts. */
  function Separators(s: string): (seps: string)
    ensures AllWhitespace(seps)
  {
    if s == [] then []
    else (if IsWhitespace(s[0]) then [s[0]] else []) + Separators(s[1..])
  }

  /** The tokens with the separators put back between them. */
  function Interleave(tokens: seq<string>, seps: string): string
    requires |tokens| == |seps| + 1
  {
    if seps == [] then tokens[0]
    else tokens[0] + [seps[0]] + Interleave(tokens[1..], seps[1..])
  }

  lemma InterleaveExtendsHead(c: char, tokens: seq<string>, seps: string)
    requires |tokens| == |seps| + 1
    ensures Interleave([[c] + tokens[0]] + tokens[1..], seps) == [c] + Interleave(tokens, seps)
  {
    var q := [[c] + tokens[0]] + tokens[1..];
    assert q[1..] == tokens[1..];
  }

  /**
   Splitting loses nothing: there is one token more than there are
   white-space characters, and putting each white-space character back
   between its two tokens gives the string again.
   */
  lemma {:induction false} SplitInterleave(s: string)
    ensures |Split(s)| == |Separators(s)| + 1
    ensures Interleave(Split(s), Separators(s)) == s
  {
    if s != [] {
      SplitInterleave(s[1..]);
      var rest, seps := Split(s[1..]), Separators(s[1..]);
      assert s == [s[0]] + s[1..];
      if IsWhitespace(s[0]) {
        assert ([""] + rest)[1..] == rest;
        assert ([s[0]] + seps)[1..] == seps;
      } else {
        assert Separators(s) == seps;
        InterleaveExtendsHead(s[0], rest, seps);
      }
    }
  }

  /** A string cut at the first occurrence of `c`: the pieces on either side are determined. */
  lemma CutAtFirst(x1: string, y1: string, x2: string, y2: string, c: char)
    requires c !in x1 && c !in x2
    requires x1 + [c] + y1 == x2 + [c] + y2
    ensures x1 == x2 && y1 == y2
  {
    var s := x1 + [c] + y1;
    assert s[|x1|] == c && s[|x2|] == c;
    assert forall i :: 0 <= i < |x1| ==> s[i] == x1[i];
    assert forall i :: 0 <= i < |x2| ==> s[i] == x2[i];
    assert |x1| == |x2|;
    assert x1 == s[..|x1|] == x2;
    assert y1 == s[|x1| + 1..] == y2;
  }

  /** A string cut at the last occurrence of `c`: the pieces on either side are determined. */
  lemma CutAtLast(x1: string, y1: string, x2: string, y2: string, c: char)
    requires c !in y1 && c !in y2
    requires x1 + [c] + y1 == x2 + [c] + y2
    ensures x1 == x2 && y1 == y2
  {
    var s := x1 + [c] + y1;
    assert s[|x1|] == c && s[|x2|] == c;
    assert forall i :: |x1| < i < |s| ==> s[i] == y1[i - |x1| - 1];
    assert forall i :: |x2| < i < |s| ==> s[i] == y2[i - |x2| - 1];
    assert |x1| == |x2|;
    assert x1 == s[..|x1|] == x2;
    assert y1 == s[|x1| + 1..] == y2;
  }

  // ---------------------------------------------------------------- numbers

  function DigitChar(d: nat): (c: char)
    requires d < 10
    ensures '0' <= c <= '9' && c as int - '0' as int == d
  {
    '0' + d as char
  }

  predicate IsDigits(s: string) {
    forall i :: 0 <= i < |s| ==> '0' <= s[i] <= '9'
  }

  /** The value of a string of decimal digits. */
  function DecimalValue(s: string): nat
    requires IsDigits(s)
  {
    if s == [] then 0 else 10 * DecimalValue(s[..|s| - 1]) + (s[|s| - 1] as int - '0' as int)
  }

  /** The decimal digits of `n`, without leading zeros. */
  function NatToString(n: nat): (r: string)
    ensures |r| >= 1 && IsDigits(r)
    ensures r[0] == '0' ==> n == 0
  {
    if n < 10 then [DigitChar(n)] else NatToString(n / 10) + [DigitChar(n % 10)]
  }

  /**
   How a template literal renders an integral number of magnitude below
   10^21; larger numbers are written in exponent form by JavaScript, which
   this rendering does not model.
   */
  function IntToString(n: int): (r: string)
    ensures |r| >= 1
    ensures r[0] == '-' <==> n < 0
    ensures forall c :: c in r ==> c == '-' || '0' <= c <= '9'
  {
    if n < 0 then "-" + NatToString(-n) else NatToString(n)
  }

  /** Reading the digits back gives the number: the rendering loses nothing. */
  lemma {:induction false} NatToStringValue(n: nat)
    ensures DecimalValue(NatToString(n)) == n
  {
    if n >= 10 {
      NatToStringValue(n / 10);
      var r := NatToString(n);
      assert r[..|r| - 1] == NatToString(n / 10);
    }
  }

  lemma NatToStringInjective(a: nat, b: nat)
    requires NatToString(a) == NatToString(b)
    ensures a == b
  {
    NatToStringValue(a);
    NatToStringValue(b);
  }

  /** Distinct numbers are rendered differently. */
  lemma IntToStringInjective(m: int, n: int)
    requires IntToString(m) == IntToString(n)
    ensures m == n
  {
    var r := IntToString(m);
    if m < 0 && n < 0 {
      assert NatToString(-m) == r[1..] == NatToString(-n);
      NatToStringInjective(-m, -n);
    } else if m >= 0 && n >= 0 {
      NatToStringInjective(m, n);
    }
  }
}
