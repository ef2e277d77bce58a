/**
  The JavaScript string operations the server relies on: `String.prototype.trim`,
  `String.prototype.split` with a one-character separator, and its inverse `join`.
*/
module Strings {

  /** The WhiteSpace and LineTerminator code points of ECMAScript (sections 12.2 and 12.3
      of ECMA-262): exactly the characters `trim` removes. */
  const Whitespace: set<char> := {
    '\t', '\n', '\U{000B}', '\U{000C}', '\r', ' ', '\U{00A0}', '\U{1680}',
    '\U{2000}', '\U{2001}', '\U{2002}', '\U{2003}', '\U{2004}', '\U{2005}',
    '\U{2006}', '\U{2007}', '\U{2008}', '\U{2009}', '\U{200A}',
    '\U{2028}', '\U{2029}', '\U{202F}', '\U{205F}', '\U{3000}', '\U{FEFF}'
  }

  predicate IsWhitespace(c: char) {
    c in Whitespace
  }

  predicate AllWhitespace(s: string) {
    forall i :: 0 <= i < |s| ==> IsWhitespace(s[i])
  }

  /** No white space at either end: the shape `trim` produces. */
  predicate IsTrimmed(s: string) {
    |s| == 0 || (!IsWhitespace(s[0]) && !IsWhitespace(s[|s| - 1]))
  }

  /** The number of white-space characters `s` starts with. */
  function LeadingWhitespace(s: string): (n: nat)
    ensures n <= |s|
    ensures forall k :: 0 <= k < n ==> IsWhitespace(s[k])
    ensures n == |s| || !IsWhitespace(s[n])
    decreases |s|
  {
    if |s| > 0 && IsWhitespace(s[0]) then 1 + LeadingWhitespace(s[1..]) else 0
  }

  /** The number of white-space characters `s` ends with. */
  function TrailingWhitespace(s: string): (n: nat)
    ensures n <= |s|
    ensures forall k :: |s| - n <= k < |s| ==> IsWhitespace(s[k])
    ensures n == |s| || !IsWhitespace(s[|s| - n - 1])
    decreases |s|
  {
    if |s| > 0 && IsWhitespace(s[|s| - 1]) then 1 + TrailingWhitespace(s[..|s| - 1]) else 0
  }

  /** `s.trim()`: white space removed from both ends. The result is trimmed, it is empty
      exactly when `s` is all white space, and a string already trimmed is left alone;
      `TrimIsInfix` adds that only white space was removed. */
  function Trim(s: string): (r: string)
    ensures IsTrimmed(r)
    ensures r == "" <==> AllWhitespace(s)
    ensures IsTrimmed(s) ==> r == s
  {
    var i := LeadingWhitespace(s);
    var j := TrailingWhitespace(s[i..]);
    TrimDropped(s, i, j);
    TrimKept(s, i, j);
    TrimAll(s, i, j);
    s[i..|s| - j]
  }

  /** `Trim(s)` is the infix of `s` between its leading and its trailing white space. */
  lemma TrimIsInfix(s: string)
    ensures var i := LeadingWhitespace(s); var r := Trim(s);
      && i + |r| <= |s| && r == s[i..i + |r|]
      && AllWhitespace(s[..i]) && AllWhitespace(s[i + |r|..])
    ensures forall c :: c in Trim(s) ==> c in s
  {
    var i := LeadingWhitespace(s);
    var j := TrailingWhitespace(s[i..]);
    TrimDropped(s, i, j);
  }

  /** What `Trim` drops is white space. */
  lemma TrimDropped(s: string, i: nat, j: nat)
    requires i == LeadingWhitespace(s) && j == TrailingWhitespace(s[i..])
    ensures i <= |s| - j
    ensures AllWhitespace(s[..i]) && AllWhitespace(s[|s| - j..])
  {
    var t := s[i..];
    forall k | |s| - j <= k < |s|
      ensures IsWhitespace(s[k])
    {
      assert s[k] == t[k - i];
    }
  }

  /** What `Trim` keeps has no white space at its ends. */
  lemma TrimKept(s: string, i: nat, j: nat)
    requires i == LeadingWhitespace(s) && j == TrailingWhitespace(s[i..])
    requires i <= |s| - j
    ensures IsTrimmed(s[i..|s| - j])
  {
    var t := s[i..];
    var r := s[i..|s| - j];
    if |r| > 0 {
      assert !IsWhitespace(s[i]);
      assert !IsWhitespace(t[|t| - j - 1]);
      assert r[0] == s[i];
      assert r[|r| - 1] == t[|t| - j - 1];
    }
  }

  /** `Trim` keeps nothing of an all-white-space string and everything of a trimmed one. */
  lemma TrimAll(s: string, i: nat, j: nat)
    requires i == LeadingWhitespace(s) && j == TrailingWhitespace(s[i..])
    requires i <= |s| - j
    requires AllWhitespace(s[..i]) && AllWhitespace(s[|s| - j..])
    ensures i == |s| - j <==> AllWhitespace(s)
    ensures IsTrimmed(s) ==> i == 0 && j == 0
  {
    if AllWhitespace(s) {
      assert i == |s|;
    }
    if i == |s| - j {
      assert s == s[..i] + s[|s| - j..];
    }
  }

  /** `parts.join(sep)`. */
  function Join(parts: seq<string>, sep: char): (s: string)
    requires |parts| >= 1
    decreases |parts|
  {
    if |parts| == 1 then parts[0] else parts[0] + [sep] + Join(parts[1..], sep)
  }

  /** `s.split(sep)` for a one-character separator: at least one field, no field holds the
      separator, and joining the fields back gives `s`. */
  function Split(s: string, sep: char): (parts: seq<string>)
    ensures |parts| >= 1 && FreeOf(parts, sep)
    ensures Join(parts, sep) == s
    decreases |s|
  {
    if |s| == 0 then [""]
    else
      var rest := Split(s[1..], sep);
      if s[0] == sep then
        assert ([""] + rest)[1..] == rest;
        [""] + rest
      else
        var parts := [[s[0]] + rest[0]] + rest[1..];
        assert parts[1..] == rest[1..];
        assert |rest| > 1 ==> Join(rest, sep) == rest[0] + [sep] + Join(rest[1..], sep);
        assert [s[0]] + s[1..] == s;
        parts
  }

  /** A separator-free prefix extends the first field of whatever follows it. */
  lemma {:induction false} SplitPrefix(w: string, t: string, sep: char)
    requires sep !in w
    ensures Split(w + t, sep) == [w + Split(t, sep)[0]] + Split(t, sep)[1..]
    decreases |w|
  {
    if |w| > 0 {
      assert (w + t)[1..] == w[1..] + t;
      SplitPrefix(w[1..], t, sep);
      assert [w[0]] + (w[1..] + Split(t, sep)[0]) == w + Split(t, sep)[0];
    } else {
      var st := Split(t, sep);
      assert w + t == t;
      assert w + st[0] == st[0];
      assert st == [st[0]] + st[1..];
    }
  }

  /** No field contains the separator. */
  predicate FreeOf(parts: seq<string>, sep: char) {
    forall i :: 0 <= i < |parts| ==> sep !in parts[i]
  }

  /** A leading separator closes an empty first field. */
  lemma SplitAfterSeparator(tail: string, sep: char)
    ensures Split([sep] + tail, sep) == [""] + Split(tail, sep)
  {
    assert ([sep] + tail)[1..] == tail;
  }

  /** Splitting undoes joining fields that do not contain the separator. */
  lemma {:induction false} SplitJoin(parts: seq<string>, sep: char)
    requires |parts| >= 1 && FreeOf(parts, sep)
    ensures Split(Join(parts, sep), sep) == parts
    decreases |parts|
  {
    if |parts| == 1 {
      SplitPrefix(parts[0], "", sep);
      assert parts[0] + "" == parts[0];
    } else {
      var rest := parts[1..];
      var tail := Join(rest, sep);
      assert FreeOf(rest, sep) by {
        assert forall i :: 1 <= i < |parts| ==> rest[i - 1] == parts[i];
      }
      SplitJoin(rest, sep);
      SplitAfterSeparator(tail, sep);
      SplitPrefix(parts[0], [sep] + tail, sep);
      assert Join(parts, sep) == parts[0] + ([sep] + tail);
      assert parts[0] + "" == parts[0];
      assert [parts[0]] + rest == parts;
    }
  }

  /** One step of `Split`: a leading separator closes an empty field, any other
      character opens the first field. */
  lemma SplitCons(c: char, t: string, sep: char)
    ensures Split([c] + t, sep)
            == if c == sep then [""] + Split(t, sep) else [[c] + Split(t, sep)[0]] + Split(t, sep)[1..]
  {
    assert ([c] + t)[1..] == t;
  }

  /** Splitting at a separator splits the two sides independently. */
  lemma {:induction false} SplitConcat(a: string, b: string, sep: char)
    ensures Split(a + [sep] + b, sep) == Split(a, sep) + Split(b, sep)
    decreases |a|
  {
    if |a| == 0 {
      assert a + [sep] + b == [sep] + b;
      SplitAfterSeparator(b, sep);
    } else {
      var t := a[1..] + [sep] + b;
      assert a + [sep] + b == [a[0]] + t;
      assert a == [a[0]] + a[1..];
      SplitConcat(a[1..], b, sep);
      SplitCons(a[0], t, sep);
      SplitCons(a[0], a[1..], sep);
      SplitConcatStep(a[0], Split(a[1..], sep), Split(b, sep), sep);
    }
  }

  /** The list identities behind the inductive step of `SplitConcat`. */
  lemma SplitConcatStep(c: char, sa: seq<string>, sb: seq<string>, sep: char)
    requires |sa| >= 1
    ensures c == sep ==> [""] + (sa + sb) == ([""] + sa) + sb
    ensures c != sep ==> [[c] + (sa + sb)[0]] + (sa + sb)[1..] == ([[c] + sa[0]] + sa[1..]) + sb
  {
    assert (sa + sb)[0] == sa[0];
    assert (sa + sb)[1..] == sa[1..] + sb;
  }
}
