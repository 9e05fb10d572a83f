/** String operations of Python's `str` that the core relies on: `split` on a
    separator, `join`, the `in` substring test, and decimal digits. */
module Strings {

  /** `s.split(sep)`: cut `s` at every leftmost, non-overlapping occurrence
      of `sep`. Python raises ValueError on an empty separator, so callers
      check for that first. */
  function SplitOn(s: string, sep: string): (pieces: seq<string>)
    requires |sep| > 0
    ensures |pieces| >= 1
    decreases |s|
  {
    if |s| < |sep| then [s]
    else if s[..|sep|] == sep then [""] + SplitOn(s[|sep|..], sep)
    else
      var rest := SplitOn(s[1..], sep);
      [[s[0]] + rest[0]] + rest[1..]
  }

  /** `sep.join(parts)`. */
  function Join(parts: seq<string>, sep: string): string
  {
    if |parts| == 0 then ""
    else if |parts| == 1 then parts[0]
    else parts[0] + sep + Join(parts[1..], sep)
  }

  /** `sub in s`. */
  predicate Contains(s: string, sub: string)
    decreases |s|
  {
    (|sub| <= |s| && s[..|sub|] == sub) || (|s| > 0 && Contains(s[1..], sub))
  }

  lemma {:induction false} ContainsNeedsRoom(s: string, sub: string)
    requires Contains(s, sub)
    ensures |sub| <= |s|
    decreases |s|
  {
    if !(|sub| <= |s| && s[..|sub|] == sub) {
      ContainsNeedsRoom(s[1..], sub);
    }
  }

  /** A string contains every string it is built around. */
  lemma {:induction false} ContainsInfix(a: string, sub: string, b: string)
    ensures Contains(a + sub + b, sub)
    decreases |a|
  {
    var s := a + sub + b;
    if |a| == 0 {
      assert s[..|sub|] == sub;
    } else {
      ContainsInfix(a[1..], sub, b);
      assert s[1..] == a[1..] + sub + b;
    }
  }

  lemma JoinConsHead(c: char, x: string, t: seq<string>, sep: string)
    ensures Join([[c] + x] + t, sep) == [c] + Join([x] + t, sep)
  {
    if |t| > 0 {
      assert ([[c] + x] + t)[1..] == t;
      assert ([x] + t)[1..] == t;
    }
  }

  /** Joining the pieces of a split with the same separator gives back the
      original string. */
  lemma {:induction false} JoinSplitOn(s: string, sep: string)
    requires |sep| > 0
    ensures Join(SplitOn(s, sep), sep) == s
    decreases |s|
  {
    if |s| < |sep| {
    } else if s[..|sep|] == sep {
      var t := s[|sep|..];
      var rest := SplitOn(t, sep);
      JoinSplitOn(t, sep);
      assert SplitOn(s, sep) == [""] + rest;
      assert ([""] + rest)[1..] == rest;
      assert Join([""] + rest, sep) == "" + sep + t;
      assert s == sep + t;
    } else {
      var t := s[1..];
      var rest := SplitOn(t, sep);
      JoinSplitOn(t, sep);
      assert SplitOn(s, sep) == [[s[0]] + rest[0]] + rest[1..];
      assert [rest[0]] + rest[1..] == rest;
      JoinConsHead(s[0], rest[0], rest[1..], sep);
      assert s == [s[0]] + t;
    }
  }

  /** A split yields a single piece exactly when the separator does not
      occur in the string. */
  lemma {:induction false} SplitOnSingleIff(s: string, sep: string)
    requires |sep| > 0
    ensures |SplitOn(s, sep)| == 1 <==> !Contains(s, sep)
    decreases |s|
  {
    if |s| < |sep| {
      if Contains(s, sep) { ContainsNeedsRoom(s, sep); }
    } else if s[..|sep|] == sep {
      assert Contains(s, sep);
    } else {
      SplitOnSingleIff(s[1..], sep);
    }
  }

  /** The pieces of a split on a one-character separator never contain it. */
  lemma {:induction false} SplitOnCharPiecesFree(s: string, c: char)
    ensures forall i :: 0 <= i < |SplitOn(s, [c])| ==> c !in SplitOn(s, [c])[i]
    decreases |s|
  {
    if |s| >= 1 {
      SplitOnCharPiecesFree(s[1..], c);
      if s[..1] != [c] {
        var rest := SplitOn(s[1..], [c]);
        assert s[0] != c;
        var r := SplitOn(s, [c]);
        assert r == [[s[0]] + rest[0]] + rest[1..];
        forall i | 0 <= i < |r| ensures c !in r[i] {
          if i > 0 { assert r[i] == rest[i]; }
        }
      }
    }
  }

  /** Splitting a string free of the separator character gives it back whole. */
  lemma {:induction false} SplitOnCharAbsent(s: string, c: char)
    requires c !in s
    ensures SplitOn(s, [c]) == [s]
    decreases |s|
  {
    if |s| >= 1 {
      assert s[..1] != [c] by { assert s[0] != c; }
      SplitOnCharAbsent(s[1..], c);
      assert [s[0]] + s[1..] == s;
    }
  }

  /** Splitting at the first occurrence of a one-character separator. */
  lemma {:induction false} SplitOnCharFirst(x: string, c: char, y: string)
    requires c !in x
    ensures SplitOn(x + [c] + y, [c]) == [x] + SplitOn(y, [c])
    decreases |x|
  {
    var s := x + [c] + y;
    if |x| == 0 {
      assert s[..1] == [c];
      assert s[1..] == y;
    } else {
      assert s[..1] != [c] by { assert s[0] == x[0] != c; }
      assert s[1..] == x[1..] + [c] + y;
      SplitOnCharFirst(x[1..], c, y);
      assert [x[0]] + x[1..] == x;
    }
  }

    /** A split on a one-character separator cuts at every occurrence: the
      pieces of `a`, the separator, then `b` are those of `a` followed by
      those of `b`. */
  lemma SplitOnCharAppend(a: string, c: char, b: string)
    ensures SplitOn(a + [c] + b, [c]) == SplitOn(a, [c]) + SplitOn(b, [c])
  {
    SplitOnCharAround(a + [c] + b, a, c, b);
  }

  /** `SplitOnCharAppend`, by induction on `a`. */
  lemma {:induction false} SplitOnCharAround(s: string, a: string, c: char, b: string)
    requires s == a + [c] + b
    ensures SplitOn(s, [c]) == SplitOn(a, [c]) + SplitOn(b, [c])
    decreases |a|
  {
    if |a| == 0 {
      assert s[..1] == [c] && s[1..] == b;
    } else {
      assert s[1..] == a[1..] + [c] + b;
      SplitOnCharAround(s[1..], a[1..], c, b);
      assert s[..1] == a[..1];
      if a[..1] != [c] {
        assert s[0] == a[0];
      }
    }
  }

  /** Joining with a one-character separator is undone by splitting on it,
      provided no part contains that character. */
  lemma {:induction false} SplitOnJoinChar(parts: seq<string>, c: char)
    requires |parts| >= 1
    requires forall i :: 0 <= i < |parts| ==> c !in parts[i]
    ensures SplitOn(Join(parts, [c]), [c]) == parts
  {
    if |parts| == 1 {
      SplitOnCharAbsent(parts[0], c);
    } else {
      SplitOnJoinChar(parts[1..], c);
      SplitOnCharFirst(parts[0], c, Join(parts[1..], [c]));
      assert [parts[0]] + parts[1..] == parts;
    }
  }

  predicate IsDigit(c: char) { '0' <= c <= '9' }

  predicate AllDigits(s: string) { forall i :: 0 <= i < |s| ==> IsDigit(s[i]) }

  predicate NoDigits(s: string) { forall i :: 0 <= i < |s| ==> !IsDigit(s[i]) }

  /** The value of a string of decimal digits, most significant first. */
  function DigitsValue(s: string): nat
    requires AllDigits(s)
  {
    if s == [] then 0
    else DigitsValue(s[..|s| - 1]) * 10 + (s[|s| - 1] as int - '0' as int)
  }

  function DigitChar(d: nat): (c: char)
    requires d < 10
    ensures IsDigit(c)
  {
    ('0' as int + d) as char
  }

  /** `str(n)` for a non-negative integer. */
  function NatToString(n: nat): (s: string)
    ensures |s| > 0 && AllDigits(s)
  {
    if n < 10 then [DigitChar(n)] else NatToString(n / 10) + [DigitChar(n % 10)]
  }

  /** `str(i)` for any integer. */
  function IntToString(i: int): string
  {
    if i < 0 then "-" + NatToString(-i) else NatToString(i)
  }

  /** Reading back the digits `str(n)` writes gives `n`. */
  lemma {:induction false} NatToStringValue(n: nat)
    ensures DigitsValue(NatToString(n)) == n
  {
    var s := NatToString(n);
    if n >= 10 {
      NatToStringValue(n / 10);
      assert s[..|s| - 1] == NatToString(n / 10);
    }
  }

  /** Strict lexicographic order on strings by code point, Python's `<` on `str`. */
  predicate StrLt(a: string, b: string)
  {
    if a == [] then b != []
    else if b == [] then false
    else if a[0] != b[0] then a[0] < b[0]
    else StrLt(a[1..], b[1..])
  }

  lemma {:induction false} StrLtIrreflexive(a: string)
    ensures !StrLt(a, a)
  {
    if a != [] { StrLtIrreflexive(a[1..]); }
  }

  lemma {:induction false} StrLtTransitive(a: string, b: string, c: string)
    requires StrLt(a, b) && StrLt(b, c)
    ensures StrLt(a, c)
  {
    if a != [] && b != [] && c != [] && a[0] == b[0] && b[0] == c[0] {
      StrLtTransitive(a[1..], b[1..], c[1..]);
    }
  }

  lemma {:induction false} StrLtAsymmetric(a: string, b: string)
    requires StrLt(a, b)
    ensures !StrLt(b, a)
  {
    if StrLt(b, a) {
      StrLtTransitive(a, b, a);
      StrLtIrreflexive(a);
    }
  }
}
