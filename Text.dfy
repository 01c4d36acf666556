/** The string operations the ranking engine relies on: `str.lower`, the `\w`
    character class, Python's ordering of `str` values, `str.partition('.')`,
    `str(int)` and `', '.join`. */
module Text {
  import opened Wrappers

  /** `str.lower()` on one character (ASCII letters only). */
  function LowerChar(c: char): char
  {
    if 'A' <= c <= 'Z' then (c as int + 32) as char else c
  }

  /** `str.lower()` (ASCII letters only). */
  function Lower(s: string): (r: string)
    ensures |r| == |s|
  {
    seq(|s|, i requires 0 <= i < |s| => LowerChar(s[i]))
  }

  /** A string that `str.lower()` leaves unchanged: it holds no upper-case letter. */
  predicate IsLower(s: string)
  {
    forall i :: 0 <= i < |s| ==> !('A' <= s[i] <= 'Z')
  }

  /** Lowering is idempotent, and its result is exactly a string without capitals. */
  lemma LowerIsLower(s: string)
    ensures IsLower(Lower(s))
    ensures Lower(Lower(s)) == Lower(s)
    ensures IsLower(s) <==> Lower(s) == s
  {
    if IsLower(s) {
      assert forall i :: 0 <= i < |s| ==> Lower(s)[i] == s[i];
    }
    if Lower(s) == s {
      forall i | 0 <= i < |s| ensures !('A' <= s[i] <= 'Z') {
        assert s[i] == LowerChar(s[i]);
      }
    }
  }

  /** The `\w` class of a `re` pattern, restricted to ASCII: letters, digits, `_`. */
  predicate IsWordChar(c: char)
  {
    ('a' <= c <= 'z') || ('A' <= c <= 'Z') || ('0' <= c <= '9') || c == '_'
  }

  predicate IsDigit(c: char)
  {
    '0' <= c <= '9'
  }

  /** Python's `a < b` on `str`: code point by code point, a proper prefix first. */
  predicate LexLess(a: string, b: string)
  {
    if |a| == 0 then |b| > 0
    else if |b| == 0 then false
    else if a[0] != b[0] then a[0] < b[0]
    else LexLess(a[1..], b[1..])
  }

  lemma {:induction false} LexLessIrreflexive(a: string)
    ensures !LexLess(a, a)
  {
    if |a| > 0 {
      LexLessIrreflexive(a[1..]);
    }
  }

  lemma {:induction false} LexLessAsymmetric(a: string, b: string)
    requires LexLess(a, b)
    ensures !LexLess(b, a)
  {
    if |a| > 0 && |b| > 0 && a[0] == b[0] {
      LexLessAsymmetric(a[1..], b[1..]);
    }
  }

  lemma {:induction false} LexLessTransitive(a: string, b: string, c: string)
    requires LexLess(a, b) && LexLess(b, c)
    ensures LexLess(a, c)
  {
    if |a| > 0 && a[0] == b[0] && b[0] == c[0] {
      LexLessTransitive(a[1..], b[1..], c[1..]);
    }
  }

  /** Two different strings are always ordered one way or the other. */
  lemma {:induction false} LexLessTotal(a: string, b: string)
    requires a != b
    ensures LexLess(a, b) || LexLess(b, a)
  {
    if |a| > 0 && |b| > 0 && a[0] == b[0] {
      assert a == [a[0]] + a[1..] && b == [b[0]] + b[1..];
      LexLessTotal(a[1..], b[1..]);
    }
  }

  /** Python's `a <= b` on `str`. */
  predicate LexLe(a: string, b: string)
  {
    a == b || LexLess(a, b)
  }

  /** Of two strings, one is at most the other. */
  lemma LexLeTotal(a: string, b: string)
    ensures LexLe(a, b) || LexLe(b, a)
  {
    if a != b {
      LexLessTotal(a, b);
    }
  }

  lemma LexLeTransitive(a: string, b: string, c: string)
    requires LexLe(a, b) && LexLe(b, c)
    ensures LexLe(a, c)
  {
    if a != b && b != c {
      LexLessTransitive(a, b, c);
    }
  }

  lemma LexLeAntisymmetric(a: string, b: string)
    requires LexLe(a, b) && LexLe(b, a)
    ensures a == b
  {
    if a != b {
      LexLessAsymmetric(a, b);
    }
  }

  /** A common prefix does not change how two strings compare. */
  lemma {:induction false} LexLessPrefix(p: string, x: string, y: string)
    requires LexLess(x, y)
    ensures LexLess(p + x, p + y)
  {
    if p != [] {
      assert (p + x)[1..] == p[1..] + x;
      assert (p + y)[1..] == p[1..] + y;
      LexLessPrefix(p[1..], x, y);
    } else {
      assert p + x == x && p + y == y;
    }
  }

  /** Strings that differ first at a smaller character compare that way,
      whatever follows. */
  lemma LexLessAt(p: string, c: char, d: char, x: string, y: string)
    requires c < d
    ensures LexLess(p + [c] + x, p + [d] + y)
  {
    assert p + [c] + x == p + ([c] + x);
    assert p + [d] + y == p + ([d] + y);
    LexLessPrefix(p, [c] + x, [d] + y);
  }

  /** Sorted ascending as Python sorts `str` values. */
  ghost predicate SortedNames(s: seq<string>)
  {
    forall i, j :: 0 <= i < j < |s| ==> LexLe(s[i], s[j])
  }

  function InsertName(x: string, s: seq<string>): (r: seq<string>)
    ensures multiset(r) == multiset(s) + multiset{x}
  {
    if s == [] || LexLe(x, s[0]) then [x] + s
    else
      assert s == [s[0]] + s[1..];
      [s[0]] + InsertName(x, s[1..])
  }

  /** `sorted(names)`: the names in ascending order. */
  function SortNames(s: seq<string>): (r: seq<string>)
    ensures multiset(r) == multiset(s)
  {
    if s == [] then []
    else
      assert s == [s[0]] + s[1..];
      InsertName(s[0], SortNames(s[1..]))
  }

  /** `sorted` lists the same names. */
  lemma SortNamesMembers(s: seq<string>)
    ensures forall n :: n in SortNames(s) <==> n in s
  {
    forall n ensures n in SortNames(s) <==> n in s {
      assert n in SortNames(s) <==> n in multiset(SortNames(s));
      assert n in s <==> n in multiset(s);
    }
  }

  lemma {:induction false} InsertNameSorted(x: string, s: seq<string>)
    requires SortedNames(s)
    ensures SortedNames(InsertName(x, s))
  {
    var r := InsertName(x, s);
    if s == [] {
    } else if LexLe(x, s[0]) {
      forall i, j | 0 <= i < j < |r| ensures LexLe(r[i], r[j]) {
        if i == 0 && j > 1 {
          LexLeTransitive(x, s[0], s[j - 1]);
        }
      }
    } else {
      LexLeTotal(x, s[0]);
      var t := s[1..];
      InsertNameSorted(x, t);
      var r' := InsertName(x, t);
      forall j | 0 <= j < |r'| ensures LexLe(s[0], r'[j]) {
        assert r'[j] in multiset(r');
        if r'[j] != x {
          assert r'[j] in multiset(t);
          var k :| 0 <= k < |t| && t[k] == r'[j];
          assert s[k + 1] == t[k];
        }
      }
      assert r == [s[0]] + r';
    }
  }

  /** `sorted` puts the names in ascending order. */
  lemma {:induction false} SortNamesSorted(s: seq<string>)
    ensures SortedNames(SortNames(s))
  {
    if s != [] {
      SortNamesSorted(s[1..]);
      InsertNameSorted(s[0], SortNames(s[1..]));
    }
  }

  /** `min(names)`, or `None` for the `ValueError` it raises on no names. */
  function MinName(names: seq<string>): (r: Option<string>)
    ensures r.None? <==> names == []
    ensures r.Some? ==> r.value in names && forall n :: n in names ==> LexLe(r.value, n)
  {
    if names == [] then None
    else
      match MinName(names[1..])
      case None => Some(names[0])
      case Some(m) =>
        LexLeTotal(m, names[0]);
        MinStep(m, names);
        if LexLess(m, names[0]) then Some(m) else Some(names[0])
  }

  lemma MinStep(m: string, names: seq<string>)
    requires names != [] && m in names[1..] && forall n :: n in names[1..] ==> LexLe(m, n)
    ensures LexLess(m, names[0]) ==> forall n :: n in names ==> LexLe(m, n)
    ensures !LexLess(m, names[0]) ==> forall n :: n in names ==> LexLe(names[0], n)
  {
    LexLeTotal(m, names[0]);
    forall n | n in names && !LexLess(m, names[0]) ensures LexLe(names[0], n) {
      if n != names[0] {
        assert n in names[1..];
        LexLeTransitive(names[0], m, n);
      }
    }
  }

  /** `min(names)` is the first of `sorted(names)`. */
  lemma MinIsFirstSorted(names: seq<string>)
    requires names != []
    ensures SortNames(names) != [] && SortNames(names)[0] == MinName(names).value
  {
    var s := SortNames(names);
    var m := MinName(names).value;
    SortNamesSorted(names);
    assert m in multiset(s);
    var j :| 0 <= j < |s| && s[j] == m;
    assert s[0] in multiset(names);
    if j > 0 {
      assert LexLe(s[0], s[j]);
    }
    LexLeAntisymmetric(s[0], m);
  }

  /** The head of `s.partition('.')` (equally `s.split('.')[0]`). */
  function Stem(s: string): (r: string)
    ensures |r| <= |s| && r == s[..|r|]
    ensures '.' !in r
    ensures |r| < |s| ==> s[|r|] == '.'
  {
    if s == [] || s[0] == '.' then [] else [s[0]] + Stem(s[1..])
  }

  /** A dot-free head followed by a dot is the head of the partition. */
  lemma StemOfDotted(p: string, rest: string)
    requires '.' !in p
    ensures Stem(p + "." + rest) == p
  {
    var s := p + "." + rest;
    var r := Stem(s);
    assert s[|p|] == '.';
    assert r == s[..|r|] == p;
  }

  function DigitChar(d: nat): char
    requires d < 10
  {
    ('0' as int + d) as char
  }

  /** The number a string of decimal digits spells. */
  function DigitsValue(s: string): nat
  {
    if s == [] then 0
    else DigitsValue(s[..|s| - 1]) * 10 + (if IsDigit(s[|s| - 1]) then s[|s| - 1] as int - '0' as int else 0)
  }

  /** `str(n)` for a non-negative `int`. */
  function NatToString(n: nat): (r: string)
    ensures |r| > 0 && forall i :: 0 <= i < |r| ==> IsDigit(r[i])
    ensures r[0] == '0' ==> n == 0
    decreases n
  {
    if n < 10 then [DigitChar(n)] else NatToString(n / 10) + [DigitChar(n % 10)]
  }

  /** `str(n)` can be read back: `int(str(n)) == n`. */
  lemma {:induction false} NatToStringValue(n: nat)
    ensures DigitsValue(NatToString(n)) == n
    decreases n
  {
    if n >= 10 {
      var s := NatToString(n);
      assert s[..|s| - 1] == NatToString(n / 10);
      NatToStringValue(n / 10);
    }
  }

  /** `sep.join(xs)`. */
  function Join(xs: seq<string>, sep: string): string
  {
    if |xs| == 0 then [] else if |xs| == 1 then xs[0] else xs[0] + sep + Join(xs[1..], sep)
  }
}
