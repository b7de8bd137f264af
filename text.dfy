/**
 * The small part of the ECMAScript string library the application relies on:
 * `trim`, the `\s` character class, `split` on one separator, `join`, and the
 * decimal rendering of a non-negative integer (`${n}` in a template literal).
 */
module Text {
  import opened Wrappers

  /** JavaScript truthiness of an optional string: present and non-empty. */
  predicate Present(s: Option<string>) {
    s.Some? && s.value != ""
  }

  /** ECMAScript WhiteSpace and LineTerminator code points: the characters
      `String.prototype.trim` removes and the class `\s` matches. */
  const SpaceChars: set<char> := {
    '\t', '\n', '\U{000B}', '\U{000C}', '\r', ' ', '\U{00A0}', '\U{1680}',
    '\U{2000}', '\U{2001}', '\U{2002}', '\U{2003}', '\U{2004}', '\U{2005}',
    '\U{2006}', '\U{2007}', '\U{2008}', '\U{2009}', '\U{200A}',
    '\U{2028}', '\U{2029}', '\U{202F}', '\U{205F}', '\U{3000}', '\U{FEFF}'
  }

  predicate IsSpace(c: char) {
    c in SpaceChars
  }

  predicate IsDigit(c: char) {
    '0' <= c <= '9'
  }

  predicate AllSpace(s: string) {
    forall k :: 0 <= k < |s| ==> IsSpace(s[k])
  }

  predicate NoSpace(s: string) {
    forall k :: 0 <= k < |s| ==> !IsSpace(s[k])
  }

  /** No leading and no trailing white space. */
  predicate IsTrimmed(s: string) {
    s == [] || (!IsSpace(s[0]) && !IsSpace(s[|s| - 1]))
  }

  /** Drops the leading white space (also what a regular expression `^\s*` removes). */
  function TrimStart(s: string): (r: string)
    ensures |r| <= |s|
    ensures AllSpace(s[..|s| - |r|])
    ensures r == [] || !IsSpace(r[0])
  {
    if s != [] && IsSpace(s[0]) then TrimStart(s[1..]) else s
  }

  /** Drops the trailing white space. */
  function TrimEnd(s: string): (r: string)
    ensures |r| <= |s|
    ensures AllSpace(s[|r|..])
    ensures r == [] || !IsSpace(r[|r| - 1])
  {
    if s != [] && IsSpace(s[|s| - 1]) then TrimEnd(s[..|s| - 1]) else s
  }

  /** What `TrimStart` keeps is a suffix of its input. (Kept out of the
      function's own contract: an equation between a string and its own slice
      lets the solver build ever longer slice terms.) */
  lemma {:induction false} TrimStartSuffix(s: string)
    ensures TrimStart(s) == s[|s| - |TrimStart(s)|..]
  {
    if s != [] && IsSpace(s[0]) {
      TrimStartSuffix(s[1..]);
      assert s[1..][|s| - 1 - |TrimStart(s)|..] == s[|s| - |TrimStart(s)|..];
    }
  }

  /** What `TrimEnd` keeps is a prefix of its input. */
  lemma {:induction false} TrimEndPrefix(s: string)
    ensures TrimEnd(s) == s[..|TrimEnd(s)|]
  {
    if s != [] && IsSpace(s[|s| - 1]) {
      TrimEndPrefix(s[..|s| - 1]);
      assert s[..|s| - 1][..|TrimEnd(s)|] == s[..|TrimEnd(s)|];
    }
  }

  /** `String.prototype.trim`. */
  function Trim(s: string): (r: string)
    ensures IsTrimmed(r)
    ensures r == [] <==> AllSpace(s)
    ensures IsTrimmed(s) ==> r == s
  {
    var t := TrimStart(s);
    var r := TrimEnd(t);
    TrimStartSuffix(s);
    TrimEndPrefix(t);
    assert r == [] ==> AllSpace(s) by {
      if r == [] {
        assert s == s[..|s| - |t|] + t;
        assert t == t[|r|..];
      }
    }
    assert IsTrimmed(r) by {
      if r != [] { assert r[0] == t[0]; }
    }
    r
  }

  /** `TrimStart` drops exactly a leading white-space run that ends before a
      non-space character (or at the end). */
  lemma {:induction false} TrimStartDrops(s: string, a: nat)
    requires a <= |s| && AllSpace(s[..a]) && (a == |s| || !IsSpace(s[a]))
    ensures TrimStart(s) == s[a..]
  {
    if a > 0 {
      assert IsSpace(s[..a][0]);
      assert s[1..][..a - 1] == s[1..a];
      TrimStartDrops(s[1..], a - 1);
      assert s[1..][a - 1..] == s[a..];
    }
  }

  /** `TrimEnd` drops exactly a trailing white-space run that starts after a
      non-space character (or at the start). */
  lemma {:induction false} TrimEndKeeps(s: string, b: nat)
    requires b <= |s| && AllSpace(s[b..]) && (b == 0 || !IsSpace(s[b - 1]))
    ensures TrimEnd(s) == s[..b]
  {
    if b < |s| {
      assert IsSpace(s[b..][|s| - 1 - b]);
      assert s[..|s| - 1][b..] == s[b..|s| - 1];
      TrimEndKeeps(s[..|s| - 1], b);
      assert s[..|s| - 1][..b] == s[..b];
    } else {
      assert s[..b] == s;
    }
  }

  /** Whenever `s` is white space, then a string with no white space at
      either end, then white space, `Trim` returns that middle part: trimming
      removes the leading and trailing white space and nothing else. */
  lemma TrimIsMiddle(s: string, a: nat, b: nat)
    requires a <= b <= |s|
    requires AllSpace(s[..a]) && AllSpace(s[b..]) && IsTrimmed(s[a..b])
    ensures Trim(s) == s[a..b]
  {
    if a == b {
      assert AllSpace(s) by {
        forall k | 0 <= k < |s| ensures IsSpace(s[k]) {
          if k < a { assert s[..a][k] == s[k]; } else { assert s[b..][k - b] == s[k]; }
        }
      }
    } else {
      assert s[a..b][0] == s[a];
      assert s[a..b][b - a - 1] == s[b - 1];
      TrimStartDrops(s, a);
      var t := s[a..];
      assert t[b - a..] == s[b..];
      assert t[b - a - 1] == s[b - 1];
      TrimEndKeeps(t, b - a);
      assert t[..b - a] == s[a..b];
    }
  }

  /** Every character of a string made of non-space characters survives `Trim`. */
  lemma {:induction false} TrimNoSpace(s: string)
    requires NoSpace(s)
    ensures Trim(s) == s
  {
    if s != [] {
      assert !IsSpace(s[0]) && !IsSpace(s[|s| - 1]);
    }
  }

  /** Position of the first `x` in `s`, or `|s|` when there is none (`indexOf` with -1 read as `|s|`). */
  function IndexOf<T(==)>(s: seq<T>, x: T): (i: nat)
    ensures i <= |s|
    ensures i < |s| ==> s[i] == x
    ensures x !in s[..i]
    ensures i == |s| <==> x !in s
  {
    if s == [] then 0
    else if s[0] == x then 0
    else
      var j := IndexOf(s[1..], x);
      assert s[..1 + j] == [s[0]] + s[1..][..j];
      1 + j
  }

  /** The part of `s` before its first `x` (all of `s` when it has none). */
  function Before<T(==)>(s: seq<T>, x: T): (r: seq<T>)
    ensures x !in r
    ensures |r| <= |s| && r == s[..|r|]
    ensures |r| < |s| ==> s[|r|] == x
  {
    s[..IndexOf(s, x)]
  }

  /** `parts.join(sep)`. */
  function Join<T>(parts: seq<seq<T>>, sep: seq<T>): seq<T>
  {
    if |parts| == 0 then []
    else if |parts| == 1 then parts[0]
    else parts[0] + sep + Join(parts[1..], sep)
  }

  /** `s.split(sep)` for a one-element separator: the maximal runs of `s`
      between separators, always at least one (`"".split(c)` is `[""]`). */
  function Split<T(==)>(s: seq<T>, sep: T): (parts: seq<seq<T>>)
    ensures |parts| > 0
  {
    if s == [] then [[]]
    else
      var rest := Split(s[1..], sep);
      if s[0] == sep then [[]] + rest
      else [[s[0]] + rest[0]] + rest[1..]
  }

  /** Putting a separator back between the parts of a split gives the original. */
  lemma {:induction false} JoinSplit<T>(s: seq<T>, sep: T)
    ensures Join(Split(s, sep), [sep]) == s
  {
    if s != [] {
      var rest := Split(s[1..], sep);
      JoinSplit(s[1..], sep);
      if s[0] != sep {
        JoinConsFirst([s[0]], rest, [sep]);
      }
    }
  }

  /** Prepending to the first part prepends to the joined result. */
  lemma {:induction false} JoinConsFirst<T>(a: seq<T>, parts: seq<seq<T>>, sep: seq<T>)
    requires |parts| > 0
    ensures Join([a + parts[0]] + parts[1..], sep) == a + Join(parts, sep)
  {
    var ps := [a + parts[0]] + parts[1..];
    assert ps[1..] == parts[1..];
  }

  /** Concatenation is associative. */
  lemma AppendAssoc<T>(x: seq<T>, y: seq<T>, z: seq<T>)
    ensures x + (y + z) == (x + y) + z
  {
  }

  /** The head and tail of a concatenation with a non-empty left side. */
  lemma DropOfAppend<T>(x: seq<T>, y: seq<T>)
    requires x != []
    ensures (x + y)[0] == x[0] && (x + y)[1..] == x[1..] + y
  {
  }

  /** Splitting around a separator splits each side independently. */
  lemma {:induction false} SplitAround<T>(a: seq<T>, b: seq<T>, sep: T)
    ensures Split(a + [sep] + b, sep) == Split(a, sep) + Split(b, sep)
  {
    var s := a + [sep] + b;
    if a == [] {
      assert s == [sep] + b;
      assert s[1..] == b;
    } else {
      assert s[0] == a[0];
      assert s[1..] == a[1..] + [sep] + b;
      SplitAround(a[1..], b, sep);
      var ra := Split(a[1..], sep);
      var rb := Split(b, sep);
      if a[0] == sep {
        AppendAssoc([[]], ra, rb);
      } else {
        DropOfAppend(ra, rb);
        AppendAssoc([[a[0]] + ra[0]], ra[1..], rb);
      }
    }
  }

  /** A sequence free of the separator splits into itself. */
  lemma {:induction false} SplitNoSep<T>(s: seq<T>, sep: T)
    requires sep !in s
    ensures Split(s, sep) == [s]
  {
    if s != [] {
      SplitNoSep(s[1..], sep);
      assert [s[0]] + s[1..] == s;
    }
  }

  /** Splitting the join of separator-free parts gives the parts back. */
  lemma {:induction false} SplitJoin<T>(parts: seq<seq<T>>, sep: T)
    requires |parts| > 0
    requires forall p :: p in parts ==> sep !in p
    ensures Split(Join(parts, [sep]), sep) == parts
  {
    if |parts| == 1 {
      SplitNoSep(parts[0], sep);
    } else {
      assert parts[0] in parts;
      assert forall p :: p in parts[1..] ==> p in parts;
      SplitJoin(parts[1..], sep);
      SplitAround(parts[0], Join(parts[1..], [sep]), sep);
      SplitNoSep(parts[0], sep);
      assert parts == [parts[0]] + parts[1..];
    }
  }

  /** The first part of a split is what precedes the first separator, and
      the remaining parts are the split of what follows it. */
  lemma {:induction false} SplitHead<T>(s: seq<T>, sep: T)
    ensures Split(s, sep)[0] == Before(s, sep)
    ensures sep in s ==> Split(s, sep)[1..] == Split(s[IndexOf(s, sep) + 1..], sep)
    ensures sep !in s <==> |Split(s, sep)| == 1
  {
    var i := IndexOf(s, sep);
    if i < |s| {
      assert s == s[..i] + [sep] + s[i + 1..];
      SplitAround(s[..i], s[i + 1..], sep);
      SplitNoSep(s[..i], sep);
    } else {
      SplitNoSep(s, sep);
    }
  }

  /** Every character of every part comes from the split sequence. */
  lemma {:induction false} SplitPartsFrom<T>(s: seq<T>, sep: T, p: seq<T>, k: nat)
    requires p in Split(s, sep) && k < |p|
    ensures p[k] in s
  {
    if s != [] {
      var rest := Split(s[1..], sep);
      if s[0] == sep {
        if p != [] { SplitPartsFrom(s[1..], sep, p, k); }
      } else if p == [s[0]] + rest[0] {
        if k > 0 { SplitPartsFrom(s[1..], sep, rest[0], k - 1); }
      } else {
        assert p in rest;
        SplitPartsFrom(s[1..], sep, p, k);
      }
    }
  }

  /** Number of leading ASCII digits. */
  function LeadingDigits(s: string): (n: nat)
    ensures n <= |s|
    ensures forall k :: 0 <= k < n ==> IsDigit(s[k])
    ensures n < |s| ==> !IsDigit(s[n])
  {
    if s != [] && IsDigit(s[0]) then 1 + LeadingDigits(s[1..]) else 0
  }

  /** `s.startsWith(prefix)`. */
  predicate StartsWith<T(==)>(s: seq<T>, prefix: seq<T>) {
    |prefix| <= |s| && s[..|prefix|] == prefix
  }

  /** The character of a decimal digit `d`. */
  function DigitChar(d: nat): (c: char)
    requires d < 10
    ensures IsDigit(c)
  {
    (48 + d) as char
  }

  /** The decimal rendering of `n`, without leading zeros. */
  function NatToString(n: nat): (s: string)
    ensures |s| > 0
    ensures forall k :: 0 <= k < |s| ==> IsDigit(s[k])
    ensures |s| > 1 ==> s[0] != '0'
  {
    if n < 10 then [DigitChar(n)] else NatToString(n / 10) + [DigitChar(n % 10)]
  }

  /** The number a string of decimal digits denotes. */
  function DigitsValue(s: string): nat
    requires forall k :: 0 <= k < |s| ==> IsDigit(s[k])
  {
    if s == [] then 0
    else DigitsValue(s[..|s| - 1]) * 10 + DigitValue(s[|s| - 1])
  }

  /** The value of a decimal digit character. */
  function DigitValue(c: char): (d: nat)
    requires IsDigit(c)
    ensures d < 10 && DigitChar(d) == c
  {
    c as int - '0' as int
  }

  /** Reading back a decimal rendering gives the number. */
  lemma {:induction false} NatToStringValue(n: nat)
    ensures DigitsValue(NatToString(n)) == n
  {
    if n >= 10 {
      NatToStringValue(n / 10);
      var s := NatToString(n);
      assert s[..|s| - 1] == NatToString(n / 10);
    }
  }

  /** Distinct numbers have distinct decimal renderings. */
  lemma NatToStringInjective(m: nat, n: nat)
    requires NatToString(m) == NatToString(n)
    ensures m == n
  {
    NatToStringValue(m);
    NatToStringValue(n);
  }

  /** A separator that occurs in neither head determines where the head ends. */
  lemma HeadsBeforeSeparator<T>(a: seq<T>, x: seq<T>, b: seq<T>, y: seq<T>, sep: T)
    requires sep !in a && sep !in b
    requires a + [sep] + x == b + [sep] + y
    ensures a == b && x == y
  {
    var s := a + [sep] + x;
    assert Before(s, sep) == a by {
      assert s[..|a|] == a && s[|a|] == sep;
      assert IndexOf(s, sep) == |a|;
    }
    assert Before(b + [sep] + y, sep) == b by {
      var t := b + [sep] + y;
      assert t[..|b|] == b && t[|b|] == sep;
      assert IndexOf(t, sep) == |b|;
    }
    assert s[|a| + 1..] == x;
    assert (b + [sep] + y)[|b| + 1..] == y;
  }
}
