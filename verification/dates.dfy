/** The date formatting that `getTodayParkHours` relies on: the private
    `__formatDate` helper and the `YYYY-MM-DD` key for today's schedule. */
module Dates {
  import opened Decimal

  /** Today's calendar date, as the clock would report it. */
  datatype Date = Date(year: nat, month: nat, day: nat)

  /** `r` is `s` with zeros put in front of it, one at most, exactly when `s`
      is shorter than two characters. */
  predicate ZeroPadded(s: string, r: string) {
    && |s| <= |r| <= |s| + 1
    && r[|r| - |s|..] == s
    && (|r| > |s| ==> r[0] == '0')
    && (|r| > |s| <==> |s| < 2)
  }

  /** One field of `__formatDate`: prefix a single `'0'` to a short string. */
  function PadTwo(s: string): (r: string)
    ensures ZeroPadded(s, r)
    ensures |s| >= 1 ==> |r| >= 2
  {
    if |s| < 2 then ['0'] + s else s
  }

  /** `__formatDate(month, day)`: both fields padded the same way. */
  function FormatDate(month: string, day: string): (r: (string, string))
    ensures ZeroPadded(month, r.0) && ZeroPadded(day, r.1)
    ensures |month| >= 1 ==> |r.0| >= 2
    ensures |day| >= 1 ==> |r.1| >= 2
  {
    (PadTwo(month), PadTwo(day))
  }

  /** `ZeroPadded` pins down its result: `PadTwo` is the only function
      meeting it. */
  lemma ZeroPaddedUnique(s: string, r: string)
    requires ZeroPadded(s, r)
    ensures r == PadTwo(s)
  {
    if |r| > |s| {
      assert r == [r[0]] + r[1..];
    }
  }

  /** Padding a non-empty string twice is the same as padding it once; the
      empty string is the exception ("" becomes "0", then "00"). */
  lemma PadTwoIdempotent(s: string)
    ensures |s| >= 1 <==> PadTwo(PadTwo(s)) == PadTwo(s)
  {
  }

  /** The month or day the key spells reads back as the number it came from:
      `int(MONTH) == month` in `getTodayParkHours`. */
  lemma PaddedNumberRoundTrip(n: nat)
    ensures AllDigits(PadTwo(FromNat(n)))
    ensures ToNat(PadTwo(FromNat(n))) == n
  {
    var s := FromNat(n);
    ToNatFromNat(n);
    if |s| < 2 {
      ToNatLeadingZero(s);
    }
  }

  lemma {:induction false} FromNatOneOrTwoDigits(n: nat)
    requires n < 100
    ensures |FromNat(n)| <= 2
  {
    if n >= 10 {
      assert |FromNat(n / 10)| == 1;
    }
  }

  lemma {:induction false} FromNatFourDigits(n: nat)
    requires 1000 <= n < 10000
    ensures |FromNat(n)| == 4
  {
    assert |FromNat(n / 1000)| == 1;
    assert FromNat(n / 100) == FromNat(n / 100 / 10) + [DigitChar(n / 100 % 10)];
    assert FromNat(n / 10) == FromNat(n / 10 / 10) + [DigitChar(n / 10 % 10)];
  }

  /** A calendar date with a four-digit year. */
  predicate IsCalendarDate(today: Date) {
    1000 <= today.year <= 9999 && 1 <= today.month <= 12 && 1 <= today.day <= 31
  }

  /** `key` is `YYYY-MM-DD` and its three fields read back as the date's own
      numbers. */
  predicate SpellsDate(key: string, today: Date) {
    && |key| == 10 && key[4] == '-' && key[7] == '-'
    && AllDigits(key[..4]) && AllDigits(key[5..7]) && AllDigits(key[8..])
    && ToNat(key[..4]) == today.year
    && ToNat(key[5..7]) == today.month
    && ToNat(key[8..]) == today.day
  }

  /** The schedule key for a date: `'{}-{}-{}'.format(YEAR, MONTH, DAY)`. */
  function DateKey(today: Date): (key: string)
    ensures IsCalendarDate(today) ==> SpellsDate(key, today)
  {
    var yy := FromNat(today.year);
    var padded := FormatDate(FromNat(today.month), FromNat(today.day));
    if IsCalendarDate(today) then
      CalendarKeyFields(today, yy, padded);
      yy + "-" + padded.0 + "-" + padded.1
    else
      yy + "-" + padded.0 + "-" + padded.1
  }

  /** The fields of a calendar date spell to four, two and two digits that
      read back as year, month and day. */
  lemma CalendarKeyFields(today: Date, yy: string, padded: (string, string))
    requires IsCalendarDate(today)
    requires yy == FromNat(today.year)
    requires padded == FormatDate(FromNat(today.month), FromNat(today.day))
    ensures SpellsDate(yy + "-" + padded.0 + "-" + padded.1, today)
  {
    FromNatFourDigits(today.year);
    FromNatOneOrTwoDigits(today.month);
    FromNatOneOrTwoDigits(today.day);
    ToNatFromNat(today.year);
    PaddedNumberRoundTrip(today.month);
    PaddedNumberRoundTrip(today.day);
    KeyFields(yy, padded.0, padded.1, today);
  }

  lemma KeyFields(yy: string, mm: string, dd: string, today: Date)
    requires |yy| == 4 && |mm| == 2 && |dd| == 2
    requires AllDigits(yy) && AllDigits(mm) && AllDigits(dd)
    requires ToNat(yy) == today.year && ToNat(mm) == today.month && ToNat(dd) == today.day
    ensures SpellsDate(yy + "-" + mm + "-" + dd, today)
  {
    SplitKey(yy, mm, dd);
  }

  lemma SplitKey(yy: string, mm: string, dd: string)
    requires |yy| == 4 && |mm| == 2 && |dd| == 2
    ensures var key := yy + "-" + mm + "-" + dd;
      && |key| == 10 && key[4] == '-' && key[7] == '-'
      && key[..4] == yy && key[5..7] == mm && key[8..] == dd
  {
    var key := yy + "-" + mm + "-" + dd;
    assert key[..4] == yy;
    assert key[5..7] == mm;
    assert key[8..] == dd;
  }
}
