/** Sequence and string helpers shared by the models: Go's strings.Join,
    decimal rendering (fmt's %d), first-occurrence de-duplication,
    occurrence counting and Go's byte-wise string order. */
module Seqs {

  /** strings.Join: the parts with `sep` between consecutive ones. */
  function Join(parts: seq<string>, sep: string): string
  {
    if |parts| == 0 then ""
    else if |parts| == 1 then parts[0]
    else parts[0] + sep + Join(parts[1..], sep)
  }

  /** Number of occurrences of `x` in `s`. */
  function Count<T(==)>(x: T, s: seq<T>): nat
  {
    if s == [] then 0 else Count(x, s[..|s| - 1]) + (if s[|s| - 1] == x then 1 else 0)
  }

  lemma {:induction false} CountConcat<T>(x: T, a: seq<T>, b: seq<T>)
    ensures Count(x, a + b) == Count(x, a) + Count(x, b)
  {
    if b != [] {
      assert (a + b)[..|a + b| - 1] == a + b[..|b| - 1];
      CountConcat(x, a, b[..|b| - 1]);
    } else {
      assert a + b == a;
    }
  }

  /** Total occurrences of `x` over all the parts. */
  function CountAll<T(==)>(x: T, parts: seq<seq<T>>): nat
  {
    if parts == [] then 0 else Count(x, parts[0]) + CountAll(x, parts[1..])
  }

  /** Counting through Join: every part contributes its own occurrences and
      every one of the |parts| - 1 separators contributes those of `sep`. */
  lemma {:induction false} CountJoin(c: char, parts: seq<string>, sep: string)
    ensures Count(c, Join(parts, sep))
         == CountAll(c, parts) + (if |parts| == 0 then 0 else (|parts| - 1) * Count(c, sep))
  {
    if |parts| == 1 {
      assert parts[1..] == [];
    } else if |parts| > 1 {
      CountJoin(c, parts[1..], sep);
      CountConcat(c, parts[0], sep);
      CountConcat(c, parts[0] + sep, Join(parts[1..], sep));
    }
  }

  predicate IsDigit(c: char)
  {
    '0' <= c <= '9'
  }

  function DigitChar(d: nat): (c: char)
    requires d < 10
    ensures IsDigit(c) && c as int - '0' as int == d
  {
    ('0' as int + d) as char
  }

  /** fmt's %d of a non-negative integer: its decimal digits, no leading zero. */
  function Decimal(n: nat): (r: string)
    ensures |r| > 0 && forall i :: 0 <= i < |r| ==> IsDigit(r[i])
    ensures r[0] == '0' ==> n == 0
  {
    if n < 10 then [DigitChar(n)] else Decimal(n / 10) + [DigitChar(n % 10)]
  }

  /** Reads a string of decimal digits back as a number. */
  function ParseDecimal(s: string): nat
    requires forall i :: 0 <= i < |s| ==> IsDigit(s[i])
  {
    if s == [] then 0
    else
      assert IsDigit(s[|s| - 1]);
      ParseDecimal(s[..|s| - 1]) * 10 + (s[|s| - 1] as int - '0' as int)
  }

  /** Decimal is inverted by ParseDecimal, so distinct numbers render differently. */
  lemma {:induction false} DecimalRoundTrip(n: nat)
    ensures ParseDecimal(Decimal(n)) == n
  {
    if n >= 10 {
      var r := Decimal(n);
      assert r[..|r| - 1] == Decimal(n / 10);
      DecimalRoundTrip(n / 10);
    }
  }

  lemma DecimalInjective(m: nat, n: nat)
    requires Decimal(m) == Decimal(n)
    ensures m == n
  {
    DecimalRoundTrip(m);
    DecimalRoundTrip(n);
  }

  /** No digit string contains the character `c` when `c` is not a digit. */
  lemma {:induction false} CountNonDigit(c: char, n: nat)
    requires !IsDigit(c)
    ensures Count(c, Decimal(n)) == 0
  {
    var r := Decimal(n);
    CountAbsent(c, r);
  }

  lemma {:induction false} CountAbsent<T>(x: T, s: seq<T>)
    requires forall i :: 0 <= i < |s| ==> s[i] != x
    ensures Count(x, s) == 0
  {
    if s != [] {
      CountAbsent(x, s[..|s| - 1]);
    }
  }

  predicate Distinct<T(==)>(s: seq<T>)
  {
    forall i, j :: 0 <= i < j < |s| ==> s[i] != s[j]
  }

  /** The first occurrence of every value, in the order of first appearance:
      an element is kept exactly when it did not occur earlier. */
  function Dedupe<T(==)>(s: seq<T>): seq<T>
  {
    if s == [] then []
    else if s[|s| - 1] in s[..|s| - 1] then Dedupe(s[..|s| - 1])
    else Dedupe(s[..|s| - 1]) + [s[|s| - 1]]
  }

  lemma {:induction false} DedupeSet<T>(s: seq<T>)
    ensures forall y :: y in Dedupe(s) <==> y in s
  {
    if s != [] {
      var p, x := s[..|s| - 1], s[|s| - 1];
      DedupeSet(p);
      assert s == p + [x];
    }
  }

  lemma {:induction false} DedupeDistinct<T>(s: seq<T>)
    ensures Distinct(Dedupe(s))
  {
    if s != [] {
      var p, x := s[..|s| - 1], s[|s| - 1];
      DedupeDistinct(p);
      DedupeSet(p);

    }
  }

  /** A sequence without repeats is its own de-duplication. */
  lemma {:induction false} DedupeOfDistinct<T>(s: seq<T>)
    requires Distinct(s)
    ensures Dedupe(s) == s
  {
    if s != [] {
      var p := s[..|s| - 1];
      DedupeOfDistinct(p);
      assert s[|s| - 1] !in p;
      assert s == p + [s[|s| - 1]];
    }
  }

  /** De-duplicating twice is de-duplicating once. */
  lemma DedupeIdempotent<T>(s: seq<T>)
    ensures Dedupe(Dedupe(s)) == Dedupe(s)
  {
    DedupeDistinct(s);
    DedupeOfDistinct(Dedupe(s));
  }

  /** Go's string comparison `<` (byte-wise on UTF-8, which orders code points
      the same way as Dafny's char order). */
  predicate LexLess(a: string, b: string)
  {
    if a == [] then b != []
    else if b == [] then false
    else if a[0] != b[0] then a[0] < b[0]
    else LexLess(a[1..], b[1..])
  }

  lemma {:induction false} LexLessIrreflexive(a: string)
    ensures !LexLess(a, a)
  {
    if a != [] {
      LexLessIrreflexive(a[1..]);
    }
  }

  lemma {:induction false} LexLessTransitive(a: string, b: string, c: string)
    requires LexLess(a, b) && LexLess(b, c)
    ensures LexLess(a, c)
  {
    if a != [] && b != [] && c != [] && a[0] == b[0] && b[0] == c[0] {
      LexLessTransitive(a[1..], b[1..], c[1..]);
    }
  }

  lemma {:induction false} LexLessTotal(a: string, b: string)
    ensures a == b || LexLess(a, b) || LexLess(b, a)
  {
    if a != [] && b != [] && a[0] == b[0] {
      LexLessTotal(a[1..], b[1..]);
      if a[1..] == b[1..] {
        assert a == [a[0]] + a[1..] && b == [b[0]] + b[1..];
      }
    }
  }

  /** Two equally long strings that agree before position k and differ
      upwards at k are in order. */
  lemma {:induction false} LexLessAt(a: string, b: string, k: nat)
    requires k < |a| && k < |b| && a[..k] == b[..k] && a[k] < b[k]
    ensures LexLess(a, b)
  {
    if k > 0 {
      assert a[0] == a[..k][0] == b[..k][0] == b[0];
      assert a[1..][..k - 1] == a[1..k] == b[1..k] == b[1..][..k - 1];
      LexLessAt(a[1..], b[1..], k - 1);
    }
  }

  /** Lexical order is kept when the same-length left parts are ordered. */
  lemma {:induction false} LexLessAppend(a: string, b: string, x: string, y: string)
    requires |a| == |b| && LexLess(a, b)
    ensures LexLess(a + x, b + y)
  {
    assert a != [] && b != [];
    assert (a + x)[0] == a[0] && (b + y)[0] == b[0];
    if a[0] == b[0] {
      assert (a + x)[1..] == a[1..] + x && (b + y)[1..] == b[1..] + y;
      LexLessAppend(a[1..], b[1..], x, y);
    }
  }

  /** strings.Split on a one-character separator: the texts between
      occurrences of `c`, so always at least one part. */
  function Split(s: string, c: char): (r: seq<string>)
    ensures |r| >= 1 && forall i :: 0 <= i < |r| ==> c !in r[i]
  {
    if s == [] then [[]]
    else
      var rest := Split(s[1..], c);
      if s[0] == c then [[]] + rest else [[s[0]] + rest[0]] + rest[1..]
  }

  /** Joining the parts with the separator gives the text back. */
  lemma {:induction false} SplitJoin(s: string, c: char)
    ensures Join(Split(s, c), [c]) == s
  {
    if s != [] {
      var rest := Split(s[1..], c);
      SplitJoin(s[1..], c);
      if s[0] == c {
        assert ([[]] + rest)[1..] == rest;
      } else {
        var parts := [[s[0]] + rest[0]] + rest[1..];
        if |rest| >= 2 {
          assert parts[1..] == rest[1..];
          assert Join(rest, [c]) == rest[0] + [c] + Join(rest[1..], [c]);
        }
      }
    }
  }

  /** The last part of Split. */
  function LastPart(s: string, c: char): string
  {
    var parts := Split(s, c);
    parts[|parts| - 1]
  }

  /** The last part is the text after the last `c` (all of `s` when there is
      none): a suffix of `s`, free of `c`, preceded by `c` when shorter. */
  lemma {:induction false} LastPartSuffix(s: string, c: char)
    ensures |LastPart(s, c)| <= |s| && s[|s| - |LastPart(s, c)|..] == LastPart(s, c)
    ensures c !in LastPart(s, c)
    ensures |LastPart(s, c)| < |s| ==> s[|s| - |LastPart(s, c)| - 1] == c
  {
    var parts := Split(s, c);
    if s != [] {
      var t := s[1..];
      var rest := Split(t, c);
      LastPartSuffix(t, c);
      assert s[1..][|t| - |LastPart(t, c)|..] == s[|s| - |LastPart(t, c)|..];
      if s[0] != c && |rest| == 1 {
        SplitJoin(t, c);
        assert rest[0] == t;
        assert LastPart(s, c) == [s[0]] + t == s;
      } else if s[0] != c {
        SplitJoin(t, c);
        assert t == rest[0] + [c] + Join(rest[1..], [c]);
        assert t[|rest[0]|] == c;
        assert LastPart(s, c) == LastPart(t, c);
      } else {
        assert LastPart(s, c) == LastPart(t, c);
      }
    }
  }
}
