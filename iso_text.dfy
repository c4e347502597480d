/** Decimal text of numbers as JavaScript writes it (`String(n)`,
    `padStart(2, "0")`), the fixed-width YYYY-MM-DD form of
    `toISOString().split("T")[0]`, and JavaScript's string order `<`.
    The main result is that, for four-digit years, comparing ISO date strings
    compares the dates. */
module IsoText {
  import opened Common
  import opened Calendar

  function Digit(n: int): (c: char)
    requires 0 <= n < 10
    ensures '0' <= c <= '9'
  {
    ('0' as int + n) as char
  }

  /** The last `w` decimal digits of `n`, zero-padded on the left. */
  function Fixed(n: nat, w: nat): (s: string)
    ensures |s| == w
  {
    if w == 0 then "" else Fixed(n / 10, w - 1) + [Digit(n % 10)]
  }

  /** `String(n)` for a non-negative integer. */
  function NatString(n: nat): (s: string)
    ensures |s| >= 1
  {
    if n < 10 then [Digit(n)] else NatString(n / 10) + [Digit(n % 10)]
  }

  /** `String(n)` for any integer. */
  function DecimalString(n: int): (s: string)
    ensures n >= 0 ==> s == NatString(n)
    ensures n < 0 ==> s == "-" + NatString(-n)
  {
    if n < 0 then "-" + NatString(-n) else NatString(n)
  }

  /** `s.padStart(2, "0")`. */
  function PadStart2(s: string): (r: string)
    ensures |s| >= 2 ==> r == s
    ensures |s| < 2 ==> |r| == 2 && r[2 - |s|..] == s && forall i :: 0 <= i < 2 - |s| ==> r[i] == '0'
  {
    if |s| >= 2 then s else seq(2 - |s|, _ => '0') + s
  }

  /** `toISOString().split("T")[0]` for a date whose year is in 0..9999. */
  function IsoDate(d: Date): (s: string)
    requires 0 <= d.year && 0 <= d.month && 0 <= d.day
    ensures |s| == 10 && s[4] == '-' && s[7] == '-'
  {
    Fixed(d.year, 4) + ("-" + (Fixed(d.month, 2) + ("-" + Fixed(d.day, 2))))
  }

  /** JavaScript string comparison `a < b`: lexicographic on character codes. */
  predicate Less(a: string, b: string) {
    if |a| == 0 then |b| > 0
    else if |b| == 0 then false
    else a[0] < b[0] || (a[0] == b[0] && Less(a[1..], b[1..]))
  }

  /** Comparing strings that start with prefixes of equal length compares the
      prefixes first and the rest only when the prefixes are equal. */
  lemma {:induction false} LessConcat(x: string, y: string, x2: string, y2: string)
    requires |x| == |x2|
    ensures Less(x + y, x2 + y2) <==> Less(x, x2) || (x == x2 && Less(y, y2))
    ensures x + y == x2 + y2 <==> x == x2 && y == y2
  {
    if |x| == 0 {
      assert x + y == y && x2 + y2 == y2;
    } else {
      assert (x + y)[0] == x[0] && (x2 + y2)[0] == x2[0];
      assert (x + y)[1..] == x[1..] + y && (x2 + y2)[1..] == x2[1..] + y2;
      LessConcat(x[1..], y, x2[1..], y2);
      assert x == x2 <==> x[0] == x2[0] && x[1..] == x2[1..] by {
        if x[0] == x2[0] && x[1..] == x2[1..] { assert x == [x[0]] + x[1..] && x2 == [x2[0]] + x2[1..]; }
      }
      assert x + y == x2 + y2 <==> (x + y)[0] == (x2 + y2)[0] && (x + y)[1..] == (x2 + y2)[1..] by {
        if (x + y)[0] == (x2 + y2)[0] && (x + y)[1..] == (x2 + y2)[1..] {
          assert x + y == [(x + y)[0]] + (x + y)[1..];
          assert x2 + y2 == [(x2 + y2)[0]] + (x2 + y2)[1..];
        }
      }
    }
  }

  /** Fixed-width digit strings are ordered like the numbers they spell. */
  lemma {:induction false} FixedOrder(a: nat, b: nat, w: nat)
    requires a < Pow10(w) && b < Pow10(w)
    ensures Less(Fixed(a, w), Fixed(b, w)) <==> a < b
    ensures Fixed(a, w) == Fixed(b, w) <==> a == b
  {
    if w == 0 {
    } else {
      FixedOrder(a / 10, b / 10, w - 1);
      LessConcat(Fixed(a / 10, w - 1), [Digit(a % 10)], Fixed(b / 10, w - 1), [Digit(b % 10)]);
      assert Less([Digit(a % 10)], [Digit(b % 10)]) <==> a % 10 < b % 10 by {
        assert [Digit(a % 10)][1..] == [] && [Digit(b % 10)][1..] == [];
      }
      assert a == 10 * (a / 10) + a % 10 && b == 10 * (b / 10) + b % 10;
    }
  }

  /** With a number of exactly `w` digits, `String(n)` is its fixed form. */
  lemma {:induction false} NatStringFixed(n: nat, w: nat)
    requires w >= 1 && Pow10(w - 1) <= n < Pow10(w)
    ensures NatString(n) == Fixed(n, w)
  {
    if w == 1 {
      assert Fixed(n / 10, 0) == "";
    } else {
      assert n >= 10;
      NatStringFixed(n / 10, w - 1);
    }
  }

  /** A two-digit number padded with padStart(2, "0") is its fixed form. */
  lemma PaddedMonth(m: nat)
    requires 1 <= m <= 12
    ensures PadStart2(NatString(m)) == Fixed(m, 2)
  {
    if m < 10 {
      assert Fixed(m, 2) == [Digit(0), Digit(m)];
    } else {
      NatStringFixed(m, 2);
    }
  }

  /** For dates with four-digit years, ISO strings compare as the dates do,
      and equal strings mean equal dates. */
  lemma IsoOrder(a: Date, b: Date)
    requires ValidDate(a) && ValidDate(b)
    requires 0 <= a.year <= 9999 && 0 <= b.year <= 9999
    ensures Less(IsoDate(a), IsoDate(b)) <==> Before(a, b)
    ensures IsoDate(a) == IsoDate(b) <==> a == b
  {
    var ra := "-" + (Fixed(a.month, 2) + ("-" + Fixed(a.day, 2)));
    var rb := "-" + (Fixed(b.month, 2) + ("-" + Fixed(b.day, 2)));
    FixedOrder(a.year, b.year, 4);
    FixedOrder(a.month, b.month, 2);
    FixedOrder(a.day, b.day, 2);
    LessConcat(Fixed(a.year, 4), ra, Fixed(b.year, 4), rb);
    LessConcat("-", Fixed(a.month, 2) + ("-" + Fixed(a.day, 2)), "-", Fixed(b.month, 2) + ("-" + Fixed(b.day, 2)));
    LessConcat(Fixed(a.month, 2), "-" + Fixed(a.day, 2), Fixed(b.month, 2), "-" + Fixed(b.day, 2));
    LessConcat("-", Fixed(a.day, 2), "-", Fixed(b.day, 2));
    assert !Less("-", "-") by { assert "-"[1..] == []; }
  }
}
