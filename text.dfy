/**
 * The string operations behind the grouping keys: decimal rendering of
 * numbers (`String(n)`, template literals), `padStart`, the lexicographic
 * order JavaScript's default `sort()` uses, that sort itself followed by
 * `reverse()`, the `YYYY-MM` and `yyyy-MM-dd` keys, and ASCII lower-casing.
 */
module Text {
  import opened Common

  /** The decimal digit character for `d`. */
  function DigitChar(d: nat): (c: char)
    requires d < 10
    ensures '0' <= c <= '9'
  {
    (48 + d) as char
  }

  /** The numeric value of a decimal digit character. */
  function DigitValue(c: char): (v: nat)
    requires '0' <= c <= '9'
    ensures v < 10
  {
    c as int - 48
  }

  /** Reading back the character of a digit gives the digit. */
  lemma DigitRoundTrip(d: nat)
    requires d < 10
    ensures DigitValue(DigitChar(d)) == d
  {
  }

  /** Every character is a decimal digit. */
  predicate IsDigits(s: string) {
    forall i :: 0 <= i < |s| ==> '0' <= s[i] <= '9'
  }

  /** 10 to the power `w`. */
  function Pow10(w: nat): (p: nat)
    ensures p >= 1
  {
    if w == 0 then 1 else 10 * Pow10(w - 1)
  }

  /** `String(n)` for a non-negative integer: its decimal digits, no leading zeros. */
  function DecimalString(n: nat): (s: string)
    ensures |s| >= 1 && IsDigits(s)
  {
    if n < 10 then [DigitChar(n)] else DecimalString(n / 10) + [DigitChar(n % 10)]
  }

  /** The number of decimal digits of `n`. */
  function NumDigits(n: nat): (d: nat)
    ensures d >= 1
  {
    if n < 10 then 1 else 1 + NumDigits(n / 10)
  }

  /** `c` repeated `k` times. */
  function Repeat(c: char, k: nat): (r: string)
    ensures |r| == k
    ensures forall i :: 0 <= i < k ==> r[i] == c
  {
    if k == 0 then [] else [c] + Repeat(c, k - 1)
  }

  /** `s.padStart(width, c)`: `c` repeated in front of `s` up to `width` characters. */
  function PadStart(s: string, width: nat, c: char): (r: string)
    ensures |r| == if |s| >= width then |s| else width
    ensures r[|r| - |s|..] == s
    ensures forall i :: 0 <= i < |r| - |s| ==> r[i] == c
  {
    if |s| >= width then s else Repeat(c, width - |s|) + s
  }

  /** `n` written with exactly `w` digits (leading zeros kept, higher digits dropped). */
  function Fixed(n: nat, w: nat): (s: string)
    ensures |s| == w && IsDigits(s)
  {
    if w == 0 then [] else Fixed(n / 10, w - 1) + [DigitChar(n % 10)]
  }

  /** The value of a string of decimal digits. */
  function DigitsValue(s: string): nat
    requires IsDigits(s)
  {
    if s == [] then 0 else DigitsValue(s[..|s| - 1]) * 10 + DigitValue(s[|s| - 1])
  }

  /** A fixed-width rendering of a number below 10^w reads back as that number. */
  lemma {:induction false} FixedValue(n: nat, w: nat)
    requires n < Pow10(w)
    ensures DigitsValue(Fixed(n, w)) == n
  {
    if w > 0 {
      var s := Fixed(n, w);
      assert s[..w - 1] == Fixed(n / 10, w - 1);
      FixedValue(n / 10, w - 1);
    }
  }

  /** One more digit of width adds one leading zero. */
  lemma {:induction false} FixedLeadingZero(n: nat, w: nat)
    requires n < Pow10(w)
    ensures Fixed(n, w + 1) == ['0'] + Fixed(n, w)
  {
    if w > 0 {
      FixedLeadingZero(n / 10, w - 1);
    }
  }

  /** Padding a fixed-width rendering with zeros gives the wider rendering. */
  lemma {:induction false} PadFixed(n: nat, d: nat, w: nat)
    requires d <= w && n < Pow10(d)
    ensures Repeat('0', w - d) + Fixed(n, d) == Fixed(n, w)
    decreases w - d
  {
    if d < w {
      PadFixed(n, d + 1, w);
      Pow10Monotone(d, d + 1);
      FixedLeadingZero(n, d);
      assert Repeat('0', w - d) == Repeat('0', w - (d + 1)) + ['0'] by {
        RepeatSnoc('0', w - (d + 1));
      }
    }
  }

  /** One more repetition adds one character at the end. */
  lemma {:induction false} RepeatSnoc(c: char, k: nat)
    ensures Repeat(c, k + 1) == Repeat(c, k) + [c]
  {
    if k > 0 {
      RepeatSnoc(c, k - 1);
    }
  }

  /** A larger exponent gives a power at least as large. */
  lemma {:induction false} Pow10Monotone(a: nat, b: nat)
    requires a <= b
    ensures Pow10(a) <= Pow10(b)
    decreases b
  {
    if a < b {
      Pow10Monotone(a, b - 1);
    }
  }

  /** `String(n)` is `n` written with its own number of digits, and that many digits suffice. */
  lemma {:induction false} DecimalIsFixed(n: nat)
    ensures DecimalString(n) == Fixed(n, NumDigits(n))
    ensures n < Pow10(NumDigits(n))
  {
    if n >= 10 {
      DecimalIsFixed(n / 10);
    }
  }

  /** A number of at least 10^k has more than k digits. */
  lemma {:induction false} NumDigitsLower(n: nat, k: nat)
    requires Pow10(k) <= n
    ensures NumDigits(n) > k
  {
    if k > 0 {
      NumDigitsLower(n / 10, k - 1);
    }
  }

  /** `String(n).padStart(w, '0')` is the fixed-width rendering when n < 10^w. */
  lemma PaddedDecimal(n: nat, w: nat)
    requires 1 <= w && n < Pow10(w)
    ensures PadStart(DecimalString(n), w, '0') == Fixed(n, w)
  {
    var d := NumDigits(n);
    DecimalIsFixed(n);
    if d > w {
      NumDigitsUpper(n, w);
    }
    PadFixed(n, d, w);
  }

  /** A number below 10^w (w >= 1) has at most w digits. */
  lemma {:induction false} NumDigitsUpper(n: nat, w: nat)
    requires 1 <= w && n < Pow10(w)
    ensures NumDigits(n) <= w
  {
    if n >= 10 {
      NumDigitsUpper(n / 10, w - 1);
    }
  }

  /**
   * Lexicographic order on code units: the order of the default
   * `Array.prototype.sort` comparison on strings.
   */
  predicate LexLess(a: string, b: string)
    decreases |a|
  {
    if a == [] then b != []
    else if b == [] then false
    else a[0] < b[0] || (a[0] == b[0] && LexLess(a[1..], b[1..]))
  }

  /** No string is below itself. */
  lemma {:induction false} LexIrreflexive(a: string)
    ensures !LexLess(a, a)
    decreases |a|
  {
    if a != [] {
      LexIrreflexive(a[1..]);
    }
  }

  /** The order is transitive. */
  lemma {:induction false} LexTransitive(a: string, b: string, c: string)
    requires LexLess(a, b) && LexLess(b, c)
    ensures LexLess(a, c)
    decreases |a|
  {
    if a != [] && b != [] && c != [] && a[0] == b[0] && b[0] == c[0] {
      LexTransitive(a[1..], b[1..], c[1..]);
    }
  }

  /** Of two different strings one is below the other. */
  lemma {:induction false} LexTotal(a: string, b: string)
    requires a != b
    ensures LexLess(a, b) || LexLess(b, a)
    decreases |a|
  {
    if a != [] && b != [] && a[0] == b[0] {
      assert a == [a[0]] + a[1..] && b == [b[0]] + b[1..];
      LexTotal(a[1..], b[1..]);
    }
  }

  /** Comparing two strings with equal-length prefixes compares the prefixes first. */
  lemma {:induction false} LexAppend(p: string, q: string, x: string, y: string)
    requires |p| == |q|
    ensures LexLess(p + x, q + y) <==> LexLess(p, q) || (p == q && LexLess(x, y))
    decreases |p|
  {
    if p == [] {
      assert p + x == x && q + y == y;
    } else {
      assert (p + x)[0] == p[0] && (q + y)[0] == q[0];
      assert (p + x)[1..] == p[1..] + x && (q + y)[1..] == q[1..] + y;
      LexAppend(p[1..], q[1..], x, y);
      if p[0] == q[0] && p[1..] == q[1..] {
        assert p == [p[0]] + p[1..] && q == [q[0]] + q[1..];
      }
    }
  }

  /** Comparing two one-digit-extended numbers compares the prefixes first. */
  lemma PlaceOrder(va: nat, vb: nat, dx: nat, dy: nat)
    requires dx < 10 && dy < 10
    ensures va * 10 + dx < vb * 10 + dy <==> va < vb || (va == vb && dx < dy)
    ensures va * 10 + dx == vb * 10 + dy <==> va == vb && dx == dy
  {
    if va < vb {
      assert va * 10 + 10 <= vb * 10;
    } else if vb < va {
      assert vb * 10 + 10 <= va * 10;
    }
  }

  /** Comparing single characters. */
  lemma LexSingle(x: char, y: char)
    ensures LexLess([x], [y]) <==> x < y
  {
    assert [x][1..] == [] && [y][1..] == [];
  }

  /** The value of a digit string with one more digit at the end. */
  lemma DigitsValueSnoc(a: string, x: char)
    requires IsDigits(a) && '0' <= x <= '9'
    ensures IsDigits(a + [x])
    ensures DigitsValue(a + [x]) == DigitsValue(a) * 10 + DigitValue(x)
  {
    assert (a + [x])[..|a|] == a;
  }

  /** On equal-length digit strings the lexicographic order is the numeric order. */
  lemma {:induction false} DigitsOrder(a: string, b: string)
    requires IsDigits(a) && IsDigits(b) && |a| == |b|
    ensures LexLess(a, b) <==> DigitsValue(a) < DigitsValue(b)
    ensures a == b <==> DigitsValue(a) == DigitsValue(b)
    decreases |a|
  {
    if a != [] {
      var n := |a| - 1;
      var a', b' := a[..n], b[..n];
      var x, y := a[n], b[n];
      assert a == a' + [x] && b == b' + [y];
      assert IsDigits(a') && IsDigits(b');
      DigitsOrder(a', b');
      LexAppend(a', b', [x], [y]);
      LexSingle(x, y);
      DigitsValueSnoc(a', x);
      DigitsValueSnoc(b', y);
      PlaceOrder(DigitsValue(a'), DigitsValue(b'), DigitValue(x), DigitValue(y));
    }
  }

  /** Strictly ascending in lexicographic order. */
  ghost predicate StrictlyAscending(s: seq<string>) {
    forall i, j :: 0 <= i < j < |s| ==> LexLess(s[i], s[j])
  }

  /** Strictly descending in lexicographic order. */
  ghost predicate StrictlyDescending(s: seq<string>) {
    forall i, j :: 0 <= i < j < |s| ==> LexLess(s[j], s[i])
  }

  /** No string occurs twice. */
  predicate Distinct(s: seq<string>) {
    forall i, j :: 0 <= i < j < |s| ==> s[i] != s[j]
  }

  /** Inserts `x` into an ascending list before the first element not below it. */
  function InsertAscending(x: string, s: seq<string>): (r: seq<string>)
    ensures multiset(r) == multiset(s) + multiset{x}
  {
    if s == [] then [x]
    else if LexLess(s[0], x) then (
      assert s == [s[0]] + s[1..];
      [s[0]] + InsertAscending(x, s[1..]))
    else [x] + s
  }

  /** `keys.sort()`: insertion sort by the default string comparison. */
  function SortAscending(s: seq<string>): (r: seq<string>)
    ensures multiset(r) == multiset(s)
  {
    if s == [] then [] else (
      assert s == [s[0]] + s[1..];
      InsertAscending(s[0], SortAscending(s[1..])))
  }

  /** `reverse()`. */
  function Reverse(s: seq<string>): (r: seq<string>)
    ensures |r| == |s|
    ensures forall i :: 0 <= i < |s| ==> r[i] == s[|s| - 1 - i]
  {
    if s == [] then [] else Reverse(s[1..]) + [s[0]]
  }

  /** `keys.sort().reverse()`. */
  function SortDescending(s: seq<string>): seq<string> {
    Reverse(SortAscending(s))
  }

  /** Inserting a new string into a strictly ascending list keeps it strictly ascending and adds exactly that string. */
  lemma {:induction false} InsertAscendingSorted(x: string, s: seq<string>)
    requires StrictlyAscending(s) && x !in s
    ensures StrictlyAscending(InsertAscending(x, s))
    decreases |s|
  {
    var r := InsertAscending(x, s);
    if s != [] {
      if LexLess(s[0], x) {
        InsertAscendingSorted(x, s[1..]);
        var t := InsertAscending(x, s[1..]);
        assert r == [s[0]] + t;
        forall j | 0 <= j < |t| ensures LexLess(s[0], t[j]) {
          assert t[j] in multiset(t);
          if t[j] != x {
            assert t[j] in multiset(s[1..]);
            var k :| 0 <= k < |s[1..]| && s[1..][k] == t[j];
            assert s[k + 1] == t[j];
          }
        }
      } else {
        LexTotal(x, s[0]);
        forall j | 0 <= j < |s| ensures LexLess(x, s[j]) {
          if j > 0 {
            LexTransitive(x, s[0], s[j]);
          }
        }
      }
    }
  }

  /** Sorting distinct keys gives them in strictly ascending order. */
  lemma {:induction false} SortAscendingSorted(s: seq<string>)
    requires Distinct(s)
    ensures StrictlyAscending(SortAscending(s))
    decreases |s|
  {
    if s != [] {
      var rest := s[1..];
      assert Distinct(rest);
      SortAscendingSorted(rest);
      var t := SortAscending(rest);
      assert s[0] !in rest;
      assert s[0] !in multiset(rest);
      assert s[0] !in t;
      InsertAscendingSorted(s[0], t);
    }
  }

  /** Reversing a strictly ascending list gives a strictly descending one. */
  lemma ReverseAscending(a: seq<string>)
    requires StrictlyAscending(a)
    ensures StrictlyDescending(Reverse(a))
  {
    var r := Reverse(a);
    forall i, j | 0 <= i < j < |r| ensures LexLess(r[j], r[i]) {
      assert r[j] == a[|a| - 1 - j] && r[i] == a[|a| - 1 - i];
    }
  }

  /**
   * `keys.sort().reverse()` on distinct keys lists exactly those keys, each
   * once, in strictly descending lexicographic order.
   */
  lemma SortDescendingCorrect(s: seq<string>)
    requires Distinct(s)
    ensures multiset(SortDescending(s)) == multiset(s)
    ensures StrictlyDescending(SortDescending(s))
  {
    SortAscendingSorted(s);
    ReverseMultiset(SortAscending(s));
    ReverseAscending(SortAscending(s));
  }

  /** Reversing keeps the same elements. */
  lemma {:induction false} ReverseMultiset(s: seq<string>)
    ensures multiset(Reverse(s)) == multiset(s)
    decreases |s|
  {
    if s != [] {
      ReverseMultiset(s[1..]);
      assert s == [s[0]] + s[1..];
    }
  }

  /** The `YYYY-MM` key of a date: `${getFullYear()}-${String(getMonth() + 1).padStart(2, '0')}`. */
  function MonthKey(d: Date): string {
    DecimalString(d.year) + "-" + PadStart(DecimalString(d.month), 2, '0')
  }

  /** The `yyyy-MM-dd` key of a date (date-fns `format`): zero-padded year, month and day. */
  function DayKey(d: Date): string {
    PadStart(DecimalString(d.year), 4, '0') + "-" + PadStart(DecimalString(d.month), 2, '0')
      + "-" + PadStart(DecimalString(d.day), 2, '0')
  }

  /** A year of at least four digits is its own four-wide padding. */
  lemma LongDecimalPadded(n: nat)
    requires 1000 <= n <= 9999
    ensures DecimalString(n) == Fixed(n, 4)
  {
    NumDigitsLower(n, 3);
    DecimalIsFixed(n);
    PaddedDecimal(n, 4);
  }

  /** For four-digit years the month key is the fixed-width rendering. */
  lemma MonthKeyFixed(d: Date)
    requires 1000 <= d.year <= 9999 && d.month <= 99
    ensures MonthKey(d) == Fixed(d.year, 4) + ("-" + Fixed(d.month, 2))
  {
    LongDecimalPadded(d.year);
    PaddedDecimal(d.month, 2);
  }

  /**
   * For four-digit years, comparing month keys as strings compares the
   * months chronologically, and equal keys mean the same year and month:
   * the zero padding makes lexicographic order chronological.
   */
  lemma MonthKeyOrder(d1: Date, d2: Date)
    requires 1000 <= d1.year <= 9999 && 1000 <= d2.year <= 9999
    requires d1.month <= 99 && d2.month <= 99
    ensures LexLess(MonthKey(d1), MonthKey(d2))
        <==> d1.year < d2.year || (d1.year == d2.year && d1.month < d2.month)
    ensures MonthKey(d1) == MonthKey(d2) <==> d1.year == d2.year && d1.month == d2.month
  {
    MonthKeyFixed(d1);
    MonthKeyFixed(d2);
    assert Pow10(4) == 10000 && Pow10(2) == 100;
    FixedOrder(d1.year, d2.year, 4);
    FixedOrder(d1.month, d2.month, 2);
    KeyPairOrder(Fixed(d1.year, 4), Fixed(d1.month, 2), Fixed(d2.year, 4), Fixed(d2.month, 2));
  }

  /** Fixed-width renderings of numbers below 10^w compare as the numbers do. */
  lemma FixedOrder(n1: nat, n2: nat, w: nat)
    requires n1 < Pow10(w) && n2 < Pow10(w)
    ensures LexLess(Fixed(n1, w), Fixed(n2, w)) <==> n1 < n2
    ensures Fixed(n1, w) == Fixed(n2, w) <==> n1 == n2
  {
    FixedValue(n1, w);
    FixedValue(n2, w);
    DigitsOrder(Fixed(n1, w), Fixed(n2, w));
  }

  /** Keys `y-m` with fields of equal widths compare field by field, year first. */
  lemma KeyPairOrder(y1: string, m1: string, y2: string, m2: string)
    requires |y1| == |y2|
    ensures LexLess(y1 + ("-" + m1), y2 + ("-" + m2)) <==> LexLess(y1, y2) || (y1 == y2 && LexLess(m1, m2))
    ensures y1 + ("-" + m1) == y2 + ("-" + m2) <==> y1 == y2 && m1 == m2
  {
    LexAppend(y1, y2, "-" + m1, "-" + m2);
    LexAppend("-", "-", m1, m2);
    LexIrreflexive("-");
    var k1, k2 := y1 + ("-" + m1), y2 + ("-" + m2);
    if k1 == k2 {
      assert y1 == k1[..|y1|] && y2 == k2[..|y2|];
      assert m1 == k1[|y1| + 1..] && m2 == k2[|y2| + 1..];
    }
  }

  /** For years up to 9999 the day key is the fixed-width rendering. */
  lemma DayKeyFixed(d: Date)
    requires d.year <= 9999 && d.month <= 99 && d.day <= 99
    ensures DayKey(d) == Fixed(d.year, 4) + "-" + Fixed(d.month, 2) + "-" + Fixed(d.day, 2)
  {
    PaddedDecimal(d.year, 4);
    PaddedDecimal(d.month, 2);
    PaddedDecimal(d.day, 2);
  }

  /** Fixed-width renderings of numbers below 10^w are equal only for equal numbers. */
  lemma FixedInjective(n1: nat, n2: nat, w: nat)
    requires n1 < Pow10(w) && n2 < Pow10(w)
    ensures Fixed(n1, w) == Fixed(n2, w) <==> n1 == n2
  {
    FixedValue(n1, w);
    FixedValue(n2, w);
  }

  /** Splits a `y-m-d` key with fixed field widths back into its fields. */
  lemma SplitDayKey(y1: string, m1: string, e1: string, y2: string, m2: string, e2: string)
    requires |y1| == |y2| == 4 && |m1| == |m2| == 2 && |e1| == |e2| == 2
    requires y1 + "-" + m1 + "-" + e1 == y2 + "-" + m2 + "-" + e2
    ensures y1 == y2 && m1 == m2 && e1 == e2
  {
    var k1, k2 := y1 + "-" + m1 + "-" + e1, y2 + "-" + m2 + "-" + e2;
    assert k1[..4] == y1 && k2[..4] == y2;
    assert k1[5..7] == m1 && k2[5..7] == m2;
    assert k1[8..] == e1 && k2[8..] == e2;
  }

  /** Two dates (years up to 9999) share a day key exactly when they are the same date. */
  lemma DayKeyInjective(d1: Date, d2: Date)
    requires d1.year <= 9999 && d1.month <= 99 && d1.day <= 99
    requires d2.year <= 9999 && d2.month <= 99 && d2.day <= 99
    ensures DayKey(d1) == DayKey(d2) <==> d1 == d2
  {
    DayKeyFixed(d1);
    DayKeyFixed(d2);
    if DayKey(d1) == DayKey(d2) {
      SplitDayKey(Fixed(d1.year, 4), Fixed(d1.month, 2), Fixed(d1.day, 2),
                  Fixed(d2.year, 4), Fixed(d2.month, 2), Fixed(d2.day, 2));
      FixedInjective(d1.year, d2.year, 4);
      FixedInjective(d1.month, d2.month, 2);
      FixedInjective(d1.day, d2.day, 2);
    }
  }

  /** ASCII lower-casing of one character. */
  function LowerChar(c: char): char {
    if 'A' <= c <= 'Z' then (c as int + 32) as char else c
  }

  /** `s.toLowerCase()` restricted to ASCII letters. */
  function ToLower(s: string): (r: string)
    ensures |r| == |s|
    ensures forall i :: 0 <= i < |s| ==> r[i] == LowerChar(s[i])
  {
    seq(|s|, i requires 0 <= i < |s| => LowerChar(s[i]))
  }

  /** Lower-casing twice changes nothing more than lower-casing once. */
  lemma ToLowerIdempotent(s: string)
    ensures ToLower(ToLower(s)) == ToLower(s)
  {
  }
}
