/** The JavaScript string built-ins the two core files rely on, on Dafny's
    `string` (a sequence of UTF-16 code units there, of chars here):
    startsWith, includes, indexOf, replace with a string pattern (first
    occurrence only), split and join on one character, and decimal numerals. */
module Strings {
  import opened Wrappers

  /** `s.startsWith(prefix)` */
  predicate StartsWith(s: string, prefix: string) {
    |prefix| <= |s| && s[..|prefix|] == prefix
  }

  /** `pat` occurs in `s` starting at position `i`. */
  predicate OccursAt(s: string, pat: string, i: int) {
    0 <= i && i + |pat| <= |s| && s[i..i + |pat|] == pat
  }

  /** `s.indexOf(pat, from)`: the least position at or after `from` where `pat` occurs. */
  function IndexOfFrom(s: string, pat: string, from: nat): (r: Option<nat>)
    ensures r.Some? ==> from <= r.value && OccursAt(s, pat, r.value)
    ensures forall i :: from <= i && (r.Some? ==> i < r.value) ==> !OccursAt(s, pat, i)
    decreases |s| - from
  {
    if from + |pat| > |s| then None
    else if s[from..from + |pat|] == pat then Some(from)
    else IndexOfFrom(s, pat, from + 1)
  }

  /** `s.indexOf(pat)` */
  function IndexOf(s: string, pat: string): Option<nat> {
    IndexOfFrom(s, pat, 0)
  }

  /** `s.includes(pat)` */
  predicate Includes(s: string, pat: string)
    ensures Includes(s, pat) <==> exists i :: OccursAt(s, pat, i)
  {
    IndexOf(s, pat).Some?
  }

  /** `s.replace(pat, rep)` with a string pattern: only the first occurrence
      of `pat` is replaced, and `s` is returned as it is when there is none. */
  function ReplaceFirst(s: string, pat: string, rep: string): (r: string)
    ensures !Includes(s, pat) ==> r == s
    ensures Includes(s, pat) ==>
      exists i :: OccursAt(s, pat, i) && (forall j :: 0 <= j < i ==> !OccursAt(s, pat, j))
        && r == s[..i] + rep + s[i + |pat|..]
  {
    match IndexOf(s, pat)
    case None => s
    case Some(i) => s[..i] + rep + s[i + |pat|..]
  }

  /** Replacing an occurrence of `pat` by `rep` gives back the same string
      exactly when `rep` is `pat`. */
  lemma ReplacingChanges(s: string, pat: string, rep: string, i: nat)
    requires OccursAt(s, pat, i)
    ensures s[..i] + rep + s[i + |pat|..] == s <==> rep == pat
  {
    var t := s[..i] + rep + s[i + |pat|..];
    if rep == pat {
      assert s[..i] + s[i..i + |pat|] == s[..i + |pat|];
      assert s[..i + |pat|] + s[i + |pat|..] == s;
    } else if |rep| == |pat| {
      var j :| 0 <= j < |pat| && pat[j] != rep[j];
      assert t[i + j] == rep[j];
      assert s[i + j] == s[i..i + |pat|][j] == pat[j];
    } else {
      assert |t| != |s|;
    }
  }

  /** The number of occurrences of character `c` in `s`. */
  function Count(s: string, c: char): nat {
    if s == [] then 0 else Count(s[..|s| - 1], c) + (if s[|s| - 1] == c then 1 else 0)
  }

  lemma {:induction false} CountConcat(a: string, b: string, c: char)
    ensures Count(a + b, c) == Count(a, c) + Count(b, c)
  {
    if b != [] {
      assert (a + b)[..|a + b| - 1] == a + b[..|b| - 1];
      CountConcat(a, b[..|b| - 1], c);
    } else {
      assert a + b == a;
    }
  }

  /** `s` with every occurrence of `c` deleted. */
  function Remove(s: string, c: char): (r: string)
    ensures c !in r
  {
    if s == [] then [] else Remove(s[..|s| - 1], c) + (if s[|s| - 1] == c then [] else [s[|s| - 1]])
  }

  /** The strings of `parts` one after another. */
  function Concat(parts: seq<string>): string {
    if parts == [] then [] else Concat(parts[..|parts| - 1]) + parts[|parts| - 1]
  }

  /** `s.split(sep)` for a one-character separator: the maximal pieces of `s`
      between separators, so there is always one piece more than separators. */
  function Split(s: string, sep: char): (parts: seq<string>)
    ensures |parts| == Count(s, sep) + 1
    ensures forall k :: 0 <= k < |parts| ==> sep !in parts[k]
    decreases |s|
  {
    if s == [] then [[]]
    else
      var init := Split(s[..|s| - 1], sep);
      if s[|s| - 1] == sep then init + [[]]
      else init[..|init| - 1] + [init[|init| - 1] + [s[|s| - 1]]]
  }

  /** `parts.join(sep)` for a one-character separator. */
  function Join(parts: seq<string>, sep: char): string {
    if parts == [] then []
    else if |parts| == 1 then parts[0]
    else Join(parts[..|parts| - 1], sep) + [sep] + parts[|parts| - 1]
  }

  lemma JoinThree(a: string, b: string, c: string, sep: char)
    ensures Join([a, b, c], sep) == a + [sep] + b + [sep] + c
  {
    assert [a, b, c][..2] == [a, b] && [a, b][..1] == [a];
    assert Join([a, b], sep) == a + [sep] + b;
  }

  lemma {:induction false} JoinOfSplit(s: string, sep: char)
    ensures Join(Split(s, sep), sep) == s
    decreases |s|
  {
    if s != [] {
      var p, c := s[..|s| - 1], s[|s| - 1];
      assert s == p + [c];
      var init := Split(p, sep);
      JoinOfSplit(p, sep);
      SplitSnoc(p, c, sep);
      if c == sep {
        assert (init + [[]])[..|init|] == init;
      } else {
        JoinExtendLast(init, sep, c);
      }
    }
  }

  /** Extending the last string of `parts` extends their join. */
  lemma JoinExtendLast(parts: seq<string>, sep: char, c: char)
    requires parts != []
    ensures Join(parts[..|parts| - 1] + [parts[|parts| - 1] + [c]], sep) == Join(parts, sep) + [c]
  {
    var m := |parts| - 1;
    var next := parts[..m] + [parts[m] + [c]];
    assert next[..m] == parts[..m];
    if m > 0 {
      assert Join(parts, sep) == Join(parts[..m], sep) + [sep] + parts[m];
    }
  }

  lemma {:induction false} SplitWithoutSeparator(s: string, sep: char)
    requires sep !in s
    ensures Split(s, sep) == [s]
    decreases |s|
  {
    if s != [] {
      var p := s[..|s| - 1];
      assert forall k :: 0 <= k < |p| ==> p[k] == s[k];
      SplitWithoutSeparator(p, sep);
      assert s == p + [s[|s| - 1]];
    }
  }

  /** One step of a split: a separator opens a new, empty piece; any other
      character extends the last piece. */
  function SplitStep(init: seq<string>, c: char, sep: char): seq<string>
    requires init != []
  {
    if c == sep then init + [[]] else init[..|init| - 1] + [init[|init| - 1] + [c]]
  }

  lemma SplitSnoc(s: string, c: char, sep: char)
    ensures Split(s + [c], sep) == SplitStep(Split(s, sep), c, sep)
  {
    assert (s + [c])[..|s|] == s;
  }

  lemma {:induction false} SplitAround(a: string, sep: char, b: string)
    ensures Split(a + [sep] + b, sep) == Split(a, sep) + Split(b, sep)
    decreases |b|
  {
    if b == [] {
      assert a + [sep] + b == a + [sep];
      SplitSnoc(a, sep, sep);
    } else {
      var b', c := b[..|b| - 1], b[|b| - 1];
      SplitAround(a, sep, b');
      SplitAroundStep(a, sep, b', c);
      assert a + [sep] + b == (a + [sep] + b') + [c];
      assert b == b' + [c];
    }
  }

  lemma SplitAroundStep(a: string, sep: char, b: string, c: char)
    requires Split(a + [sep] + b, sep) == Split(a, sep) + Split(b, sep)
    ensures Split(a + [sep] + b + [c], sep) == Split(a, sep) + Split(b + [c], sep)
  {
    var A, B := Split(a, sep), Split(b, sep);
    SplitSnoc(a + [sep] + b, c, sep);
    SplitSnoc(b, c, sep);
    SplitStepAppend(A, B, c, sep);
  }

  /** A step on `A + B` only touches `B`. */
  lemma SplitStepAppend(A: seq<string>, B: seq<string>, c: char, sep: char)
    requires B != []
    ensures SplitStep(A + B, c, sep) == A + SplitStep(B, c, sep)
  {
    var I := A + B;
    if c == sep {
      assert I + [[]] == A + (B + [[]]);
    } else {
      assert I[..|I| - 1] == A + B[..|B| - 1];
    }
  }

  lemma {:induction false} SplitOfJoin(parts: seq<string>, sep: char)
    requires |parts| > 0
    requires forall k :: 0 <= k < |parts| ==> sep !in parts[k]
    ensures Split(Join(parts, sep), sep) == parts
    decreases |parts|
  {
    if |parts| == 1 {
      SplitWithoutSeparator(parts[0], sep);
    } else {
      var init, last := parts[..|parts| - 1], parts[|parts| - 1];
      SplitOfJoin(init, sep);
      SplitAround(Join(init, sep), sep, last);
      SplitWithoutSeparator(last, sep);
      assert init + [last] == parts;
    }
  }

  lemma {:induction false} ConcatOfSplit(s: string, sep: char)
    ensures Concat(Split(s, sep)) == Remove(s, sep)
    decreases |s|
  {
    if s != [] {
      var p, c := s[..|s| - 1], s[|s| - 1];
      var init := Split(p, sep);
      ConcatOfSplit(p, sep);
      if c == sep {
        assert (init + [[]])[..|init|] == init;
      } else {
        var m := |init| - 1;
        var parts := init[..m] + [init[m] + [c]];
        assert parts[..m] == init[..m];
        assert init[..m] + [init[m]] == init;
      }
    }
  }

  // Decimal numerals

  predicate IsDigit(c: char) {
    '0' <= c <= '9'
  }

  predicate AllDigits(s: string) {
    forall i :: 0 <= i < |s| ==> IsDigit(s[i])
  }

  /** A numeral as JavaScript's `String(n)` writes a natural number: at least
      one digit, and no leading zero unless the number is 0. */
  predicate IsCanonicalDecimal(s: string) {
    s != [] && AllDigits(s) && (s[0] == '0' ==> |s| == 1)
  }

  function DigitValue(c: char): (d: nat)
    requires IsDigit(c)
    ensures d < 10
  {
    (c as int - '0' as int) as nat
  }

  function DigitChar(d: nat): (c: char)
    requires d < 10
    ensures IsDigit(c) && DigitValue(c) == d
  {
    ('0' as int + d) as char
  }

  /** The value of a string of decimal digits (leading zeros allowed). */
  function DigitsValue(s: string): nat
    requires AllDigits(s)
  {
    if s == [] then 0 else 10 * DigitsValue(s[..|s| - 1]) + DigitValue(s[|s| - 1])
  }

  /** `String(n)` for a natural number. */
  function NatToDecimal(n: nat): (r: string)
    ensures IsCanonicalDecimal(r)
  {
    if n < 10 then [DigitChar(n)] else NatToDecimal(n / 10) + [DigitChar(n % 10)]
  }

  lemma {:induction false} NatToDecimalValue(n: nat)
    ensures DigitsValue(NatToDecimal(n)) == n
  {
    if n >= 10 {
      var r := NatToDecimal(n);
      NatToDecimalValue(n / 10);
      assert r[..|r| - 1] == NatToDecimal(n / 10);
    }
  }

  lemma {:induction false} PositiveDigitsValue(s: string)
    requires AllDigits(s) && s != [] && s[0] != '0'
    ensures DigitsValue(s) >= 1
    decreases |s|
  {
    if |s| > 1 {
      PositiveDigitsValue(s[..|s| - 1]);
    }
  }

  /** A canonical numeral is the one `NatToDecimal` writes for its value. */
  lemma {:induction false} CanonicalDecimalIsWritten(s: string)
    requires IsCanonicalDecimal(s)
    ensures NatToDecimal(DigitsValue(s)) == s
    decreases |s|
  {
    if |s| > 1 {
      var p := s[..|s| - 1];
      assert p[0] == s[0];
      PositiveDigitsValue(p);
      CanonicalDecimalIsWritten(p);
      var n := DigitsValue(s);
      assert n / 10 == DigitsValue(p) && n % 10 == DigitValue(s[|s| - 1]);
      assert s == p + [s[|s| - 1]];
    }
  }

  /** The longest prefix of `s` made of decimal digits. */
  function DigitPrefix(s: string): (r: string)
    ensures AllDigits(r) && StartsWith(s, r)
    ensures |r| < |s| ==> !IsDigit(s[|r|])
  {
    if s != [] && IsDigit(s[0]) then [s[0]] + DigitPrefix(s[1..]) else []
  }

  lemma {:induction false} DigitPrefixOfDigits(s: string)
    requires AllDigits(s)
    ensures DigitPrefix(s) == s
    decreases |s|
  {
    if s != [] {
      DigitPrefixOfDigits(s[1..]);
    }
  }
}
