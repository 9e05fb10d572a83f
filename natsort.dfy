/** The natural-sort key of analysis/cmd/split_vep.py: `try_to_int` and
    `nsort`, and the order `sorted(..., key=nsort)` puts file names in. */
module NaturalSort {
  import opened Strings

  /** An element of a sort key: `int(x)` when that succeeds, else `x`. */
  datatype Token = Num(n: int) | Str(s: string)

  /** The ASCII characters `str.strip()` removes. */
  predicate IsSpace(c: char)
  {
    c == ' ' || 9 <= c as int <= 13 || 28 <= c as int <= 31
  }

  function StripLeft(s: string): (t: string)
    ensures |t| <= |s| && t == s[|s| - |t|..]
    ensures t != [] ==> !IsSpace(t[0])
    ensures forall k :: 0 <= k < |s| - |t| ==> IsSpace(s[k])
  {
    if s != [] && IsSpace(s[0]) then
      var t := StripLeft(s[1..]);
      assert s[1..][|s| - 1 - |t|..] == s[|s| - |t|..];
      t
    else s
  }

  function StripRight(s: string): (t: string)
    ensures |t| <= |s| && t == s[..|t|]
    ensures t != [] ==> !IsSpace(t[|t| - 1])
    ensures forall k :: |t| <= k < |s| ==> IsSpace(s[k])
  {
    if s != [] && IsSpace(s[|s| - 1]) then
      var t := StripRight(s[..|s| - 1]);
      assert s[..|s| - 1][..|t|] == s[..|t|];
      t
    else s
  }

  /** `s.strip()`. */
  function Strip(s: string): (t: string)
    ensures t != [] ==> !IsSpace(t[0]) && !IsSpace(t[|t| - 1])
    ensures exists a, b :: 0 <= a <= b <= |s| && t == s[a..b]
  {
    var u := StripLeft(s);
    var v := StripRight(u);
    var a := |s| - |u|;
    assert 0 <= a <= a + |v| <= |s| && v == s[a..a + |v|];
    assert v != [] ==> v[0] == u[0];
    v
  }

  function Unsigned(t: string): string
  {
    if |t| > 0 && (t[0] == '+' || t[0] == '-') then t[1..] else t
  }

  /** The digits of a base-10 literal: a digit first and last, and an
      underscore only between two digits. */
  predicate DigitGroups(u: string)
  {
    |u| > 0 && IsDigit(u[0]) && IsDigit(u[|u| - 1]) && forall i :: 0 <= i < |u| ==> GroupChar(u, i)
  }

  predicate GroupChar(u: string, i: nat)
    requires i < |u|
  {
    IsDigit(u[i]) || (u[i] == '_' && 0 < i < |u| - 1 && IsDigit(u[i - 1]) && IsDigit(u[i + 1]))
  }

  lemma DigitGroupsChars(u: string)
    requires DigitGroups(u)
    ensures forall i :: 0 <= i < |u| ==> IsDigit(u[i]) || u[i] == '_'
  {
    forall i | 0 <= i < |u| ensures IsDigit(u[i]) || u[i] == '_' {
      assert GroupChar(u, i);
    }
  }

  function RemoveUnderscores(u: string): (d: string)
    requires forall i :: 0 <= i < |u| ==> IsDigit(u[i]) || u[i] == '_'
    ensures AllDigits(d)
  {
    if u == [] then []
    else if u[0] == '_' then RemoveUnderscores(u[1..])
    else [u[0]] + RemoveUnderscores(u[1..])
  }

  /** Whether `int(x)` accepts the string. */
  predicate ParsesAsInt(x: string)
  {
    DigitGroups(Unsigned(Strip(x)))
  }

  /** `try_to_int(x)` on a string. */
  function TryToInt(x: string): (t: Token)
    ensures t.Str? ==> t.s == x
  {
    if ParsesAsInt(x) then
      var t := Strip(x);
      var u := Unsigned(t);
      DigitGroupsChars(u);
      var v: int := DigitsValue(RemoveUnderscores(u));
      Num(if t[0] == '-' then -v else v)
    else Str(x)
  }

  lemma {:induction false} RemoveUnderscoresOfDigits(u: string)
    requires AllDigits(u)
    ensures RemoveUnderscores(u) == u
  {
    if u != [] {
      RemoveUnderscoresOfDigits(u[1..]);
      assert [u[0]] + u[1..] == u;
    }
  }

  /** A run of digits is read as its decimal value. */
  lemma TryToIntDigits(x: string)
    requires |x| > 0 && AllDigits(x)
    ensures TryToInt(x) == Num(DigitsValue(x))
  {
    DigitsParse(x);
    RemoveUnderscoresOfDigits(x);
  }

  /** A run of digits is an integer literal that strips and unsigns to itself. */
  lemma DigitsParse(x: string)
    requires |x| > 0 && AllDigits(x)
    ensures Strip(x) == x
    ensures Unsigned(x) == x && x[0] != '-'
    ensures ParsesAsInt(x)
  {
    DigitsStrip(x);
    DigitsUnsigned(x);
    DigitsAreGroups(x);
  }

  lemma DigitsStrip(x: string)
    requires |x| > 0 && AllDigits(x)
    ensures Strip(x) == x
  {
    assert IsDigit(x[0]) && IsDigit(x[|x| - 1]);
    StripUnspaced(x);
  }

  lemma DigitsUnsigned(x: string)
    requires |x| > 0 && AllDigits(x)
    ensures Unsigned(x) == x && x[0] != '-'
  {
    assert IsDigit(x[0]);
  }

  /** A run of digits is a literal without underscores. */
  lemma DigitsAreGroups(x: string)
    requires |x| > 0 && AllDigits(x)
    ensures DigitGroups(x)
  {
    forall i | 0 <= i < |x| ensures GroupChar(x, i) {
      assert IsDigit(x[i]);
    }
  }

  /** A string with no whitespace at either end is its own strip. */
  lemma StripUnspaced(x: string)
    requires |x| > 0 && !IsSpace(x[0]) && !IsSpace(x[|x| - 1])
    ensures Strip(x) == x
  {
    assert StripLeft(x) == x;
    assert StripRight(x) == x;
  }

  /** A string without a digit is left as it is. */
  lemma TryToIntNoDigits(x: string)
    requires NoDigits(x)
    ensures TryToInt(x) == Str(x)
  {
  }

  function Concat(parts: seq<string>): string
  {
    if parts == [] then "" else parts[0] + Concat(parts[1..])
  }

  /** `re.split(r'(\d+)', s)`: the pieces between maximal runs of digits,
      with the runs kept at the odd positions. `DigitRunsShape` states what
      the pieces are. */
  function DigitRuns(s: string): (r: seq<string>)
    ensures |r| % 2 == 1
    ensures s != [] && IsDigit(s[0]) ==> |r| >= 3 && r[0] == ""
  {
    if s == [] then [""]
    else
      var rest := DigitRuns(s[1..]);
      if IsDigit(s[0]) then
        if |s| > 1 && IsDigit(s[1]) then ["", [s[0]] + rest[1]] + rest[2..]
        else ["", [s[0]]] + rest
      else [[s[0]] + rest[0]] + rest[1..]
  }

  /** What `re.split` with one capturing group returns: an odd number of
      pieces; even pieces hold no digit and only the first and the last may
      be empty; odd pieces are non-empty runs of digits. */
  predicate RunsShape(r: seq<string>)
  {
    && |r| % 2 == 1
    && (forall i :: 0 <= i < |r| && i % 2 == 0 ==> NoDigits(r[i]))
    && (forall i :: 0 <= i < |r| && i % 2 == 1 ==> r[i] != "" && AllDigits(r[i]))
    && (forall i :: 0 < i < |r| - 1 && i % 2 == 0 ==> r[i] != "")
  }

  lemma ShapeExtendRun(c: char, rest: seq<string>)
    requires IsDigit(c) && RunsShape(rest) && |rest| >= 3 && rest[0] == ""
    ensures RunsShape(["", [c] + rest[1]] + rest[2..])
  {
    var r := ["", [c] + rest[1]] + rest[2..];
    forall i | 2 <= i < |r| ensures r[i] == rest[i] { }
  }

  lemma ShapeNewRun(c: char, rest: seq<string>)
    requires IsDigit(c) && RunsShape(rest) && (|rest| == 1 || rest[0] != "")
    ensures RunsShape(["", [c]] + rest)
  {
    var r := ["", [c]] + rest;
    forall i | 2 <= i < |r| ensures r[i] == rest[i - 2] { }
  }

  lemma ShapeExtendText(c: char, rest: seq<string>)
    requires !IsDigit(c) && RunsShape(rest)
    ensures RunsShape([[c] + rest[0]] + rest[1..])
  {
    var r := [[c] + rest[0]] + rest[1..];
    forall i | 1 <= i < |r| ensures r[i] == rest[i] { }
  }

  lemma ConcatCons(a: string, t: seq<string>)
    ensures Concat([a] + t) == a + Concat(t)
  {
    assert ([a] + t)[1..] == t;
  }

  /** The pieces of `DigitRuns(s)` have the shape `re.split` gives them. */
  lemma {:induction false} DigitRunsShape(s: string)
    ensures RunsShape(DigitRuns(s))
    ensures s != [] && !IsDigit(s[0]) ==> DigitRuns(s)[0] != ""
  {
    if s != [] {
      var rest := DigitRuns(s[1..]);
      DigitRunsShape(s[1..]);
      if IsDigit(s[0]) {
        if |s| > 1 && IsDigit(s[1]) {
          assert DigitRuns(s) == ["", [s[0]] + rest[1]] + rest[2..];
          ShapeExtendRun(s[0], rest);
        } else {
          assert DigitRuns(s) == ["", [s[0]]] + rest;
          ShapeNewRun(s[0], rest);
        }
      } else {
        assert DigitRuns(s) == [[s[0]] + rest[0]] + rest[1..];
        ShapeExtendText(s[0], rest);
      }
    }
  }

  /** A leading empty piece adds nothing. */
  lemma ConcatEmptyFirst(b: string, tail: seq<string>)
    ensures Concat(["", b] + tail) == b + Concat(tail)
  {
    assert ["", b] + tail == [""] + ([b] + tail);
    ConcatCons("", [b] + tail);
    assert "" + Concat([b] + tail) == Concat([b] + tail);
    ConcatCons(b, tail);
  }

  lemma ConcatExtendRun(c: char, rest: seq<string>)
    requires |rest| >= 3 && rest[0] == ""
    ensures Concat(["", [c] + rest[1]] + rest[2..]) == [c] + Concat(rest)
  {
    var run, tail := rest[1], rest[2..];
    assert rest == ["", run] + tail;
    ConcatEmptyFirst(run, tail);
    ConcatEmptyFirst([c] + run, tail);
    AppendAssoc([c], run, Concat(tail));
  }

  lemma ConcatNewRun(c: char, rest: seq<string>)
    ensures Concat(["", [c]] + rest) == [c] + Concat(rest)
  {
    assert ["", [c]] + rest == [""] + ([[c]] + rest);
    ConcatCons("", [[c]] + rest);
    ConcatCons([c], rest);
  }

  lemma ConcatExtendText(c: char, rest: seq<string>)
    requires |rest| >= 1
    ensures Concat([[c] + rest[0]] + rest[1..]) == [c] + Concat(rest)
  {
    var text := rest[0];
    var tail := rest[1..];
    assert rest == [text] + tail;
    ConcatCons(text, tail);
    ConcatCons([c] + text, tail);
    AppendAssoc([c], text, Concat(tail));
  }

  lemma AppendAssoc(a: string, b: string, c: string)
    ensures (a + b) + c == a + (b + c)
  {
  }

  /** The pieces of `DigitRuns(s)` put back together give `s`. */
  lemma {:induction false} DigitRunsConcat(s: string)
    ensures Concat(DigitRuns(s)) == s
  {
    if s != [] {
      var rest := DigitRuns(s[1..]);
      DigitRunsConcat(s[1..]);
      assert s == [s[0]] + s[1..];
      if IsDigit(s[0]) {
        if |s| > 1 && IsDigit(s[1]) {
          ConcatExtendRun(s[0], rest);
        } else {
          ConcatNewRun(s[0], rest);
        }
      } else {
        ConcatExtendText(s[0], rest);
      }
    }
  }

  /** `nsort(name)`: the sort key of a file name. It has odd length and
      alternates the digit-free strings of the name, left as they are, with
      the integers read from its maximal digit runs. */
  function NSort(name: string): (key: seq<Token>)
    ensures KeyOfRuns(key, DigitRuns(name))
  {
    var runs := DigitRuns(name);
    DigitRunsShape(name);
    TokensOfRuns(runs);
    Tokens(runs)
  }

  /** `key` alternates the digit-free pieces of `runs`, left as strings,
      with the values of its digit runs; it has odd length. */
  predicate KeyOfRuns(key: seq<Token>, runs: seq<string>)
  {
    && |key| == |runs| && |key| % 2 == 1
    && (forall i :: 0 <= i < |key| && i % 2 == 0 ==> NoDigits(runs[i]) && key[i] == Str(runs[i]))
    && (forall i :: 0 <= i < |key| && i % 2 == 1 ==>
          runs[i] != "" && AllDigits(runs[i]) && key[i] == Num(DigitsValue(runs[i])))
  }

  /** `try_to_int` of each piece. */
  function Tokens(runs: seq<string>): (key: seq<Token>)
    ensures |key| == |runs| && forall i :: 0 <= i < |runs| ==> key[i] == TryToInt(runs[i])
  {
    seq(|runs|, i requires 0 <= i < |runs| => TryToInt(runs[i]))
  }

  /** `try_to_int` leaves the text pieces as strings and reads the runs. */
  lemma TokensOfRuns(runs: seq<string>)
    requires RunsShape(runs)
    ensures KeyOfRuns(Tokens(runs), runs)
  {
    forall i | 0 <= i < |runs| && i % 2 == 0 ensures TryToInt(runs[i]) == Str(runs[i]) {
      TryToIntNoDigits(runs[i]);
    }
    forall i | 0 <= i < |runs| && i % 2 == 1 ensures TryToInt(runs[i]) == Num(DigitsValue(runs[i])) {
      TryToIntDigits(runs[i]);
    }
  }


  /** Python's `<` on two key elements. Comparing an int with a str raises
      TypeError in Python; `NSortComparable` shows it never happens between
      keys, and this definition orders such pairs only to stay total. */
  predicate TokenLt(a: Token, b: Token)
  {
    match (a, b)
    case (Num(x), Num(y)) => x < y
    case (Str(x), Str(y)) => StrLt(x, y)
    case (Num(_), Str(_)) => true
    case (Str(_), Num(_)) => false
  }

  /** Python's `<` on two keys: decided at the first position where they
      differ, else the shorter one is smaller. */
  predicate KeyLt(a: seq<Token>, b: seq<Token>)
  {
    if a == [] then b != []
    else if b == [] then false
    else if a[0] != b[0] then TokenLt(a[0], b[0])
    else KeyLt(a[1..], b[1..])
  }

  /** At every position two keys share, both hold an int or both a string. */
  lemma NSortComparable(x: string, y: string)
    ensures forall i :: 0 <= i < |NSort(x)| && i < |NSort(y)| ==> NSort(x)[i].Num? == NSort(y)[i].Num?
  {
    KeyParity(NSort(x), DigitRuns(x));
    KeyParity(NSort(y), DigitRuns(y));
  }

  /** A key holds its ints exactly at the odd positions. */
  lemma KeyParity(key: seq<Token>, runs: seq<string>)
    requires KeyOfRuns(key, runs)
    ensures forall i :: 0 <= i < |key| ==> (key[i].Num? <==> i % 2 == 1)
  {
  }

  lemma TokenLtTrichotomy(a: Token, b: Token)
    ensures a == b || TokenLt(a, b) || TokenLt(b, a)
  {
    if a.Str? && b.Str? { StrLtTrichotomy(a.s, b.s); }
  }

  lemma {:induction false} StrLtTrichotomy(a: string, b: string)
    ensures a == b || StrLt(a, b) || StrLt(b, a)
  {
    if a != [] && b != [] && a[0] == b[0] {
      StrLtTrichotomy(a[1..], b[1..]);
      if a[1..] == b[1..] {
        assert a == [a[0]] + a[1..] && b == [b[0]] + b[1..];
      }
    }
  }

  lemma TokenLtTransitive(a: Token, b: Token, c: Token)
    requires TokenLt(a, b) && TokenLt(b, c)
    ensures TokenLt(a, c)
  {
    if a.Str? && b.Str? && c.Str? { StrLtTransitive(a.s, b.s, c.s); }
  }

  lemma TokenLtAsymmetric(a: Token, b: Token)
    requires TokenLt(a, b)
    ensures !TokenLt(b, a) && a != b
  {
    if a.Str? && b.Str? {
      StrLtAsymmetric(a.s, b.s);
      StrLtIrreflexive(a.s);
    }
  }

  lemma {:induction false} KeyLtTransitive(a: seq<Token>, b: seq<Token>, c: seq<Token>)
    requires KeyLt(a, b) && KeyLt(b, c)
    ensures KeyLt(a, c)
  {
    if a != [] && b != [] && c != [] {
      if a[0] != b[0] && b[0] != c[0] {
        TokenLtTransitive(a[0], b[0], c[0]);
        TokenLtAsymmetric(a[0], c[0]);
      } else if a[0] == b[0] && b[0] == c[0] {
        KeyLtTransitive(a[1..], b[1..], c[1..]);
      }
    }
  }

  lemma {:induction false} KeyLtTrichotomy(a: seq<Token>, b: seq<Token>)
    ensures a == b || KeyLt(a, b) || KeyLt(b, a)
  {
    if a != [] && b != [] {
      TokenLtTrichotomy(a[0], b[0]);
      if a[0] == b[0] {
        KeyLtTrichotomy(a[1..], b[1..]);
        if a[1..] == b[1..] {
          assert a == [a[0]] + a[1..] && b == [b[0]] + b[1..];
        }
      } else {
        if TokenLt(a[0], b[0]) { TokenLtAsymmetric(a[0], b[0]); }
      }
    }
  }

  lemma {:induction false} KeyLtIrreflexive(a: seq<Token>)
    ensures !KeyLt(a, a)
  {
    if a != [] { KeyLtIrreflexive(a[1..]); }
  }

  /** Names in the order of their keys under `key`. */
  predicate SortedBy(s: seq<string>, key: string -> seq<Token>)
  {
    forall i, j :: 0 <= i < j < |s| ==> !KeyLt(key(s[j]), key(s[i]))
  }

  /** Put `x` before the first name whose key is not smaller. */
  function InsertBy(x: string, s: seq<string>, key: string -> seq<Token>): (r: seq<string>)
    ensures multiset(r) == multiset(s) + multiset{x}
  {
    if s == [] then [x]
    else if !KeyLt(key(s[0]), key(x)) then [x] + s
    else
      assert s == [s[0]] + s[1..];
      [s[0]] + InsertBy(x, s[1..], key)
  }

  /** `sorted(names, key=key)`: insertion sort, which is stable like Python's. */
  function SortBy(s: seq<string>, key: string -> seq<Token>): (r: seq<string>)
    ensures multiset(r) == multiset(s)
  {
    if s == [] then []
    else
      assert s == [s[0]] + s[1..];
      InsertBy(s[0], SortBy(s[1..], key), key)
  }

  /** `sorted(names, key=nsort)`: the names in key order, and names whose
      keys tie (such as `..._b01_...` and `..._b1_...`) in their listed order. */
  function SortByKey(s: seq<string>): (r: seq<string>)
    ensures SortedBy(r, NSort)
    ensures multiset(r) == multiset(s)
    ensures forall k :: WithKey(r, NSort, k) == WithKey(s, NSort, k)
  {
    SortBySorted(s, NSort);
    assert forall k :: WithKey(SortBy(s, NSort), NSort, k) == WithKey(s, NSort, k) by {
      forall k ensures WithKey(SortBy(s, NSort), NSort, k) == WithKey(s, NSort, k) {
        SortByStable(s, NSort, k);
      }
    }
    SortBy(s, NSort)
  }

  /** The names of `s` whose key is `k`, in their order in `s`. */
  function WithKey(s: seq<string>, key: string -> seq<Token>, k: seq<Token>): seq<string>
  {
    if s == [] then [] else (if key(s[0]) == k then [s[0]] else []) + WithKey(s[1..], key, k)
  }

  /** The names with key `k` of a list with one more name in front. */
  lemma WithKeyCons(y: string, s: seq<string>, key: string -> seq<Token>, k: seq<Token>)
    ensures WithKey([y] + s, key, k) == (if key(y) == k then [y] else []) + WithKey(s, key, k)
  {
    assert ([y] + s)[1..] == s;
  }

  /** Insertion puts a name in front of every name with the same key. */
  lemma {:induction false} InsertByStable(x: string, t: seq<string>, key: string -> seq<Token>, k: seq<Token>)
    ensures WithKey(InsertBy(x, t, key), key, k) == (if key(x) == k then [x] else []) + WithKey(t, key, k)
  {
    var here: seq<string> := if key(x) == k then [x] else [];
    if t == [] {
      WithKeyCons(x, [], key, k);
      assert [x] + [] == [x];
    } else if !KeyLt(key(t[0]), key(x)) {
      WithKeyCons(x, t, key, k);
    } else {
      var rest := InsertBy(x, t[1..], key);
      InsertByStable(x, t[1..], key, k);
      var first: seq<string> := if key(t[0]) == k then [t[0]] else [];
      WithKeyCons(t[0], rest, key, k);
      assert WithKey(t, key, k) == first + WithKey(t[1..], key, k);
      if key(x) == k {
        KeyLtIrreflexive(k);
        assert first == [];
        assert WithKey([t[0]] + rest, key, k) == WithKey(rest, key, k);
      } else {
        assert here == [];
        assert WithKey(rest, key, k) == WithKey(t[1..], key, k);
      }
    }
  }

  /** Sorting keeps the order of the names that share a key. */
  lemma {:induction false} SortByStable(s: seq<string>, key: string -> seq<Token>, k: seq<Token>)
    ensures WithKey(SortBy(s, key), key, k) == WithKey(s, key, k)
  {
    if s != [] {
      SortByStable(s[1..], key, k);
      InsertByStable(s[0], SortBy(s[1..], key), key, k);
    }
  }

  lemma KeyLtAsymmetric(a: seq<Token>, b: seq<Token>)
    requires KeyLt(a, b)
    ensures !KeyLt(b, a)
  {
    if KeyLt(b, a) {
      KeyLtTransitive(a, b, a);
      KeyLtIrreflexive(a);
    }
  }

  /** "Not smaller than" is transitive. */
  lemma KeyLeTransitive(a: seq<Token>, b: seq<Token>, c: seq<Token>)
    requires !KeyLt(b, a) && !KeyLt(c, b)
    ensures !KeyLt(c, a)
  {
    if KeyLt(c, a) {
      KeyLtTrichotomy(a, b);
      if a != b { KeyLtTransitive(c, a, b); }
    }
  }

  predicate AllAtLeast(s: seq<string>, b: seq<Token>, key: string -> seq<Token>)
  {
    forall i :: 0 <= i < |s| ==> !KeyLt(key(s[i]), b)
  }

  lemma {:induction false} InsertByAtLeast(x: string, s: seq<string>, b: seq<Token>, key: string -> seq<Token>)
    requires AllAtLeast(s, b, key) && !KeyLt(key(x), b)
    ensures AllAtLeast(InsertBy(x, s, key), b, key)
  {
    if s != [] && KeyLt(key(s[0]), key(x)) {
      InsertByAtLeast(x, s[1..], b, key);
      var t := InsertBy(x, s[1..], key);
      assert forall i :: 1 <= i < |t| + 1 ==> ([s[0]] + t)[i] == t[i - 1];
    }
  }

  lemma InsertInFront(x: string, s: seq<string>, key: string -> seq<Token>)
    requires SortedBy(s, key) && s != [] && !KeyLt(key(s[0]), key(x))
    ensures SortedBy([x] + s, key)
  {
    var r := [x] + s;
    forall i, j | 0 <= i < j < |r| ensures !KeyLt(key(r[j]), key(r[i])) {
      assert r[j] == s[j - 1];
      if i == 0 {
        if j > 1 { KeyLeTransitive(key(x), key(s[0]), key(s[j - 1])); }
      } else {
        assert r[i] == s[i - 1];
      }
    }
  }

  lemma InsertBehind(x: string, s: seq<string>, key: string -> seq<Token>)
    requires SortedBy(s, key) && s != [] && KeyLt(key(s[0]), key(x))
    requires SortedBy(InsertBy(x, s[1..], key), key)
    ensures SortedBy([s[0]] + InsertBy(x, s[1..], key), key)
  {
    var head, tail := s[0], s[1..];
    var t := InsertBy(x, tail, key);
    KeyLtAsymmetric(key(head), key(x));
    assert AllAtLeast(tail, key(head), key) by {
      forall i | 0 <= i < |tail| ensures !KeyLt(key(tail[i]), key(head)) {
        assert tail[i] == s[i + 1];
      }
    }
    InsertByAtLeast(x, tail, key(head), key);
    SortedCons(head, t, key);
  }

  /** A sorted list stays sorted behind a name no larger than any of it. */
  lemma SortedCons(head: string, t: seq<string>, key: string -> seq<Token>)
    requires SortedBy(t, key) && AllAtLeast(t, key(head), key)
    ensures SortedBy([head] + t, key)
  {
    var r := [head] + t;
    forall i, j | 0 <= i < j < |r| ensures !KeyLt(key(r[j]), key(r[i])) {
      assert r[j] == t[j - 1];
      if i == 0 {
        assert r[i] == head;
      } else {
        assert r[i] == t[i - 1];
      }
    }
  }

  lemma {:induction false} InsertBySorted(x: string, s: seq<string>, key: string -> seq<Token>)
    requires SortedBy(s, key)
    ensures SortedBy(InsertBy(x, s, key), key)
  {
    if s == [] {
    } else if !KeyLt(key(s[0]), key(x)) {
      InsertInFront(x, s, key);
    } else {
      assert SortedBy(s[1..], key);
      InsertBySorted(x, s[1..], key);
      InsertBehind(x, s, key);
    }
  }

  /** Sorting yields the same names, each no smaller in key than the one before. */
  lemma {:induction false} SortBySorted(s: seq<string>, key: string -> seq<Token>)
    ensures SortedBy(SortBy(s, key), key)
    ensures multiset(SortBy(s, key)) == multiset(s)
  {
    if s != [] {
      SortBySorted(s[1..], key);
      InsertBySorted(s[0], SortBy(s[1..], key), key);
    }
  }
}
