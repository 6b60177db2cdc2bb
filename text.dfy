/** The Python string operations the validator relies on, over `seq<char>`:
    `str.strip()`, `str.startswith`, `str.count`, `str.split(sep)`,
    `sep.join(parts)`, `str.lower()` and `f"{i}"` for integers. */
module Text {

  /** The characters Python's `str.strip()` removes (those for which
      `str.isspace()` holds). */
  const Whitespace: set<char> := {
    '\t', '\n', '\U{B}', '\U{C}', '\r', '\U{1C}', '\U{1D}', '\U{1E}', '\U{1F}', ' ',
    '\U{85}', '\U{A0}', '\U{1680}', '\U{2000}', '\U{2001}', '\U{2002}', '\U{2003}', '\U{2004}',
    '\U{2005}', '\U{2006}', '\U{2007}', '\U{2008}', '\U{2009}', '\U{200A}', '\U{2028}', '\U{2029}',
    '\U{202F}', '\U{205F}', '\U{3000}'}

  predicate IsSpace(c: char)
  {
    c in Whitespace
  }

  /** Every character is whitespace; `s.strip() == ""` in Python. */
  predicate IsBlank(s: string)
  {
    forall i :: 0 <= i < |s| ==> IsSpace(s[i])
  }

  /** Neither end of `s` is whitespace. */
  predicate IsStripped(s: string)
  {
    s == [] || (!IsSpace(s[0]) && !IsSpace(s[|s| - 1]))
  }

  /** Concatenation is associative (a helper for long chains of `+`). */
  lemma ConcatAssoc(a: string, b: string, c: string)
    ensures a + b + c == a + (b + c)
  {
  }

  /** Where each of five glued pieces sits (a helper for templates). */
  lemma FiveParts(a: string, b: string, c: string, d: string, e: string)
    ensures var s := a + b + c + d + e;
      var i, j := |a| + |b| + |c|, |a| + |b| + |c| + |d|;
      |s| == j + |e| && s[..|a|] == a && s[|a|..|a| + |b|] == b && s[i..j] == d && s[j..] == e
  {
    var s := a + b + c + d + e;
    var i, j := |a| + |b| + |c|, |a| + |b| + |c| + |d|;
    assert s == (a + b + c + d) + e;
    assert (a + b + c + d)[i..j] == d;
  }

  /** A string holding a non-whitespace character is not blank, wherever it is embedded. */
  lemma NotBlankInside(a: string, b: string, c: string)
    requires !IsBlank(b)
    ensures !IsBlank(a + b + c)
  {
    var i :| 0 <= i < |b| && !IsSpace(b[i]);
    assert (a + b + c)[|a| + i] == b[i];
  }

  /** Gluing blank strings gives a blank string. */
  lemma BlankAppend(a: string, b: string)
    requires IsBlank(a) && IsBlank(b)
    ensures IsBlank(a + b)
  {
    assert forall i :: 0 <= i < |a + b| ==> (a + b)[i] == if i < |a| then a[i] else b[i - |a|];
  }

  /** The number of whitespace characters at the front of `s`. */
  function LeadingBlank(s: string): (n: nat)
    ensures n <= |s|
    ensures forall i :: 0 <= i < n ==> IsSpace(s[i])
    ensures n < |s| ==> !IsSpace(s[n])
    decreases |s|
  {
    if s == [] || !IsSpace(s[0]) then 0
    else 1 + LeadingBlank(s[1..])
  }

  /** The number of whitespace characters at the end of `s`. */
  function TrailingBlank(s: string): (n: nat)
    ensures n <= |s|
    ensures forall i :: |s| - n <= i < |s| ==> IsSpace(s[i])
    ensures n < |s| ==> !IsSpace(s[|s| - n - 1])
    decreases |s|
  {
    if s == [] || !IsSpace(s[|s| - 1]) then 0
    else 1 + TrailingBlank(s[..|s| - 1])
  }

  /** Where the stripped text of `s` ends. */
  function StripEnd(s: string): (e: nat)
    ensures LeadingBlank(s) <= e <= |s|
  {
    |s| - TrailingBlank(s[LeadingBlank(s)..])
  }

  /** Python's `s.strip()`: `s` without its leading and trailing whitespace.
      Its meaning is stated by `StripSplit`, `StripShape` and `StripOfPadded`. */
  function Strip(s: string): string
  {
    s[LeadingBlank(s)..StripEnd(s)]
  }

  /** What `Strip` removes is blank: `s` is the stripped text with blank padding around it. */
  lemma StripSplit(s: string) returns (pre: string, post: string)
    ensures IsBlank(pre) && IsBlank(post)
    ensures s == pre + Strip(s) + post
  {
    var a, e := LeadingBlank(s), StripEnd(s);
    var t := s[a..];
    var n := TrailingBlank(t);
    pre, post := s[..a], s[e..];
    assert IsBlank(post) by {
      forall i | 0 <= i < |post|
        ensures IsSpace(post[i])
      {
        assert post[i] == t[|t| - n + i];
      }
    }
    assert IsBlank(pre);
    var mid := s[a..e];
    assert s == pre + (mid + post) by {
      assert t == mid + post;
      assert s == pre + t;
    }
    ConcatAssoc(pre, mid, post);
  }

  /** The stripped text has no whitespace at either end, and it is empty
      exactly when the whole text is blank. */
  lemma StripShape(s: string)
    ensures IsStripped(Strip(s))
    ensures Strip(s) == [] <==> IsBlank(s)
  {
    var a, e := LeadingBlank(s), StripEnd(s);
    var t := s[a..];
    assert a < |s| ==> t[0] == s[a];
    assert e > a ==> s[e - 1] == t[|t| - TrailingBlank(t) - 1];
    assert e == a ==> a == |s|;
  }

  /** `Strip` is determined by its meaning: whatever blank padding surrounds a
      stripped string, stripping returns exactly that string. */
  lemma StripOfPadded(pre: string, x: string, post: string)
    requires IsBlank(pre) && IsStripped(x) && IsBlank(post)
    ensures Strip(pre + x + post) == x
  {
    var s := pre + x + post;
    if x == [] {
      BlankAppend(pre, post);
      assert s == pre + post;
      StripShape(s);
    } else {
      var a := LeadingBlank(s);
      assert s[|pre|] == x[0];
      assert a == |pre|;
      var t := s[a..];
      assert t == x + post;
      assert t[|x| - 1] == x[|x| - 1];
      assert TrailingBlank(t) == |post|;
      assert s[a..StripEnd(s)] == x;
    }
  }

  /** Stripping ignores any extra whitespace put around the text. */
  lemma StripIgnoresPadding(pre: string, s: string, post: string)
    requires IsBlank(pre) && IsBlank(post)
    ensures Strip(pre + s + post) == Strip(s)
  {
    var r := Strip(s);
    var p, q := StripSplit(s);
    BlankAppend(pre, p);
    BlankAppend(q, post);
    assert pre + s + post == (pre + p) + r + (q + post);
    StripOfPadded(pre + p, r, q + post);
  }

  /** Every character of `Strip(s)` is a character of `s`. */
  lemma StripChars(s: string, c: char)
    requires c in Strip(s)
    ensures c in s
  {
    var p, q := StripSplit(s);
    var k :| 0 <= k < |Strip(s)| && Strip(s)[k] == c;
    assert s[|p| + k] == c;
  }

  /** Python's `s.startswith(prefix)`. */
  predicate StartsWith(s: string, prefix: string)
  {
    |prefix| <= |s| && s[..|prefix|] == prefix
  }

  /** Python's `s.count(c)` for a one-character argument. */
  function Count(s: string, c: char): (n: nat)
    ensures n <= |s|
    ensures n == 0 <==> c !in s
    decreases |s|
  {
    if s == [] then 0
    else (if s[0] == c then 1 else 0) + Count(s[1..], c)
  }

  /** The index of the first `c` in `s`, or `|s|` when there is none. */
  function IndexOf(s: string, c: char): (k: nat)
    ensures k <= |s|
    ensures c !in s[..k]
    ensures k < |s| ==> s[k] == c
    decreases |s|
  {
    if s == [] then 0
    else if s[0] == c then 0
    else
      var k := 1 + IndexOf(s[1..], c);
      assert s[..k] == [s[0]] + s[1..][..k - 1];
      k
  }

  /** Python's `s.split(sep)` for a one-character separator: the maximal
      separator-free pieces, one more than the separators (`"".split("\n") == [""]`). */
  function Split(s: string, sep: char): (parts: seq<string>)
    ensures parts != []
    ensures forall i :: 0 <= i < |parts| ==> sep !in parts[i]
    decreases |s|
  {
    var k := IndexOf(s, sep);
    if k == |s| then [s] else [s[..k]] + Split(s[k + 1..], sep)
  }

  /** Python's `sep.join(parts)`. */
  function Join(sep: string, parts: seq<string>): string
    decreases |parts|
  {
    if parts == [] then ""
    else if |parts| == 1 then parts[0]
    else parts[0] + sep + Join(sep, parts[1..])
  }

  /** Joining the pieces of a split with the separator gives back the text. */
  lemma {:induction false} JoinSplit(s: string, sep: char)
    ensures Join([sep], Split(s, sep)) == s
    decreases |s|
  {
    var k := IndexOf(s, sep);
    if k < |s| {
      var head, rest := s[..k], s[k + 1..];
      var tail := Split(rest, sep);
      var parts := [head] + tail;
      assert Split(s, sep) == parts;
      assert parts[0] == head && parts[1..] == tail;
      JoinSplit(rest, sep);
      assert Join([sep], parts) == head + [sep] + rest;
      assert s == head + [sep] + rest;
    }
  }

  /** Splitting a join of separator-free pieces gives back the pieces. */
  lemma {:induction false} SplitJoin(parts: seq<string>, sep: char)
    requires parts != []
    requires forall i :: 0 <= i < |parts| ==> sep !in parts[i]
    ensures Split(Join([sep], parts), sep) == parts
    decreases |parts|
  {
    var p := parts[0];
    if |parts| == 1 {
      assert IndexOf(p, sep) == |p|;
    } else {
      var rest := Join([sep], parts[1..]);
      var s := p + ([sep] + rest);
      assert Join([sep], parts) == s;
      IndexAfterFree(p, [sep] + rest, sep);
      assert s[..|p|] == p && s[|p| + 1..] == rest;
      assert Split(s, sep) == [p] + Split(rest, sep);
      SplitJoin(parts[1..], sep);
      assert parts == [p] + parts[1..];
    }
  }

  /** The first separator of `a + b` lies in `b` when `a` has none. */
  lemma IndexAfterFree(a: string, b: string, c: char)
    requires c !in a && b != [] && b[0] == c
    ensures IndexOf(a + b, c) == |a|
  {
    assert (a + b)[|a|] == c;
    assert (a + b)[..|a|] == a;
  }

  /** Python's `str.lower()` on one character, for the letters A to Z. */
  function LowerChar(c: char): char
  {
    if 'A' <= c <= 'Z' then (c as int - 'A' as int + 'a' as int) as char else c
  }

  /** Python's `s.lower()`, for the letters A to Z. */
  function Lower(s: string): (r: string)
    ensures |r| == |s| && forall i :: 0 <= i < |s| ==> r[i] == LowerChar(s[i])
  {
    seq(|s|, i requires 0 <= i < |s| => LowerChar(s[i]))
  }

  /** Lowering keeps whitespace where it is, so it commutes with stripping. */
  lemma LowerStrip(s: string)
    ensures Lower(Strip(s)) == Strip(Lower(s))
  {
    var r := Strip(s);
    var pre, post := StripSplit(s);
    LowerAppend(pre + r, post);
    LowerAppend(pre, r);
    LowerBlank(pre);
    LowerBlank(post);
    StripShape(s);
    LowerStripped(r);
    StripOfPadded(pre, Lower(r), post);
  }

  /** Lowering neither creates nor removes whitespace. */
  lemma LowerCharSpace(c: char)
    ensures IsSpace(LowerChar(c)) == IsSpace(c)
  {
    if 'A' <= c <= 'Z' {
      assert 'a' <= LowerChar(c) <= 'z';
    }
  }

  /** Lowering a stripped string leaves it stripped. */
  lemma LowerStripped(s: string)
    requires IsStripped(s)
    ensures IsStripped(Lower(s))
  {
    if s != [] {
      LowerCharSpace(s[0]);
      LowerCharSpace(s[|s| - 1]);
    }
  }

  /** Lowering works character by character. */
  lemma LowerAppend(a: string, b: string)
    ensures Lower(a + b) == Lower(a) + Lower(b)
  {
  }

  /** Whitespace is left alone by lowering, and so is a blank string. */
  lemma LowerBlank(s: string)
    requires IsBlank(s)
    ensures Lower(s) == s
  {
    forall i | 0 <= i < |s|
      ensures Lower(s)[i] == s[i]
    {
      LowerCharSpace(s[i]);
    }
  }

  /** Lowering is idempotent. */
  lemma LowerIdempotent(s: string)
    ensures Lower(Lower(s)) == Lower(s)
  {
  }

  /** The decimal digit for `d`. */
  function Digit(d: nat): char
    requires d < 10
  {
    "0123456789"[d]
  }

  /** The value of a decimal digit, or ten for any other character. */
  function DigitValue(c: char): (d: nat)
    ensures d <= 10
  {
    if '0' <= c <= '9' then c as int - '0' as int else 10
  }

  /** Python's `f"{n}"` for a natural number: its decimal digits, most significant first. */
  function NatToString(n: nat): (s: string)
    ensures s != []
    ensures forall i :: 0 <= i < |s| ==> DigitValue(s[i]) < 10
    decreases n
  {
    if n < 10 then [Digit(n)] else NatToString(n / 10) + [Digit(n % 10)]
  }

  /** Reading a string of decimal digits as a number. */
  function ParseNat(s: string): nat
    decreases |s|
  {
    if s == [] then 0
    else 10 * ParseNat(s[..|s| - 1]) + (var d := DigitValue(s[|s| - 1]); if d < 10 then d else 0)
  }

  /** Decimal rendering is undone by reading the digits back. */
  lemma {:induction false} ParseNatToString(n: nat)
    ensures ParseNat(NatToString(n)) == n
    decreases n
  {
    if n >= 10 {
      ParseNatToString(n / 10);
      var s := NatToString(n);
      assert s[..|s| - 1] == NatToString(n / 10);
    }
  }

  /** Distinct numbers have distinct decimal renderings. */
  lemma NatToStringInjective(m: nat, n: nat)
    requires NatToString(m) == NatToString(n)
    ensures m == n
  {
    ParseNatToString(m);
    ParseNatToString(n);
  }

  /** Python's `str(i)` for any integer: a minus sign before the digits when negative. */
  function IntToString(i: int): string
  {
    if i < 0 then "-" + NatToString(-i) else NatToString(i)
  }

  /** A rendering starts with a minus sign exactly when the integer is negative. */
  lemma SignFirst(i: int)
    ensures IntToString(i) != [] && (IntToString(i)[0] == '-' <==> i < 0)
  {
    if i >= 0 {
      assert DigitValue(NatToString(i)[0]) < 10;
    }
  }

  /** Distinct integers have distinct renderings. */
  lemma IntToStringInjective(i: int, j: int)
    requires IntToString(i) == IntToString(j)
    ensures i == j
  {
    SignFirst(i);
    SignFirst(j);
    if i < 0 && j < 0 {
      assert NatToString(-i) == IntToString(i)[1..];
      NatToStringInjective(-i, -j);
    } else if i >= 0 && j >= 0 {
      NatToStringInjective(i, j);
    }
  }
}
