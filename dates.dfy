/** The calendar date the bot stamps on a new row, written as
    `strftime('%Y-%m-%d')` writes it, and the fact that makes the diary's
    `ORDER BY date DESC` newest-first: for these strings, text order is
    chronological order. The clock itself is not modelled; today's date is
    an input. */
module Dates {
  import opened PyText

  datatype Date = Date(year: int, month: int, day: int)

  predicate IsLeap(year: int) {
    year % 4 == 0 && (year % 100 != 0 || year % 400 == 0)
  }

  function DaysInMonth(year: int, month: int): int {
    if month == 2 then (if IsLeap(year) then 29 else 28)
    else if month == 4 || month == 6 || month == 9 || month == 11 then 30
    else 31
  }

  /** A proleptic Gregorian date with a four-digit year. */
  predicate ValidDate(d: Date) {
    && 1000 <= d.year <= 9999
    && 1 <= d.month <= 12
    && 1 <= d.day <= DaysInMonth(d.year, d.month)
  }

  /** Chronological order. */
  predicate DateLeq(a: Date, b: Date) {
    || a.year < b.year
    || (a.year == b.year && (a.month < b.month || (a.month == b.month && a.day <= b.day)))
  }

  function Pow10(w: nat): (p: nat)
    ensures p >= 1
  {
    if w == 0 then 1 else 10 * Pow10(w - 1)
  }

  /** `n` in exactly `width` decimal digits, zero-padded on the left
      (`%04d`, `%02d`), keeping the low `width` digits. */
  function Padded(n: nat, width: nat): (r: string)
    ensures |r| == width && AllDigits(r)
  {
    if width == 0 then [] else Padded(n / 10, width - 1) + [DigitChar(n % 10)]
  }

  /** `d.strftime('%Y-%m-%d')`. */
  function FormatDate(d: Date): (r: string)
    requires ValidDate(d)
    ensures |r| == 10 && r[4] == '-' && r[7] == '-'
    ensures forall i :: 0 <= i < |r| && i != 4 && i != 7 ==> IsDigit(r[i])
  {
    Padded(d.year, 4) + "-" + Padded(d.month, 2) + "-" + Padded(d.day, 2)
  }

  /** Reading the padded digits back gives the number. */
  lemma {:induction false} PaddedValue(n: nat, width: nat)
    requires n < Pow10(width)
    ensures DigitsValue(Padded(n, width)) == n
  {
    if width > 0 {
      PaddedValue(n / 10, width - 1);
      var s := Padded(n, width);
      assert s[..|s| - 1] == Padded(n / 10, width - 1);
    }
  }

  lemma PaddedInjective(a: nat, b: nat, width: nat)
    requires a < Pow10(width) && b < Pow10(width)
    ensures Padded(a, width) == Padded(b, width) <==> a == b
  {
    PaddedValue(a, width);
    PaddedValue(b, width);
  }

  /** Fixed-width decimal strings compare as their numbers do. */
  lemma {:induction false} PaddedOrder(a: nat, b: nat, width: nat)
    requires a < Pow10(width) && b < Pow10(width)
    ensures StrLeq(Padded(a, width), Padded(b, width)) <==> a <= b
  {
    if width == 0 {
    } else {
      var x, y := Padded(a / 10, width - 1), Padded(b / 10, width - 1);
      var c, e := DigitChar(a % 10), DigitChar(b % 10);
      PaddedOrder(a / 10, b / 10, width - 1);
      PaddedInjective(a / 10, b / 10, width - 1);
      StrLeqConcat(x, [c], y, [e]);
      assert StrLeq([c], [e]) <==> a % 10 <= b % 10 by {
        assert [c][1..] == [];
      }
      assert a == 10 * (a / 10) + a % 10;
      assert b == 10 * (b / 10) + b % 10;
    }
  }

  /** For written dates, text order (as SQLite sorts the `date` column) is
      chronological order. */
  lemma FormatDateOrder(a: Date, b: Date)
    requires ValidDate(a) && ValidDate(b)
    ensures StrLeq(FormatDate(a), FormatDate(b)) <==> DateLeq(a, b)
  {
    var ya, ma, da := Padded(a.year, 4), Padded(a.month, 2), Padded(a.day, 2);
    var yb, mb, db := Padded(b.year, 4), Padded(b.month, 2), Padded(b.day, 2);
    assert FormatDate(a) == ya + ("-" + (ma + ("-" + da)));
    assert FormatDate(b) == yb + ("-" + (mb + ("-" + db)));
    PaddedOrder(a.year, b.year, 4);
    PaddedInjective(a.year, b.year, 4);
    PaddedOrder(a.month, b.month, 2);
    PaddedInjective(a.month, b.month, 2);
    PaddedOrder(a.day, b.day, 2);
    StrLeqConcat(ya, "-" + (ma + ("-" + da)), yb, "-" + (mb + ("-" + db)));
    StrLeqConcat("-", ma + ("-" + da), "-", mb + ("-" + db));
    StrLeqConcat(ma, "-" + da, mb, "-" + db);
    StrLeqConcat("-", da, "-", db);
  }

  /** Distinct dates are written differently. */
  lemma FormatDateInjective(a: Date, b: Date)
    requires ValidDate(a) && ValidDate(b)
    ensures FormatDate(a) == FormatDate(b) <==> a == b
  {
    FormatDateOrder(a, b);
    FormatDateOrder(b, a);
    if FormatDate(a) == FormatDate(b) {
      StrLeqRefl(FormatDate(a));
    }
  }
}
