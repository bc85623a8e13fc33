/** `getTodayParkHours`: pick today's operating window and Extra Magic Hours
    window out of the schedule response. */
module Hours {
  import opened Wrappers
  import opened Decimal
  import opened Dates

  const Operating: string := "Operating"
  const ExtraMagicHours: string := "Extra Magic Hours"

  /** One element of the response's `schedules` array. */
  datatype ScheduleEntry = ScheduleEntry(date: string, kind: string, startTime: string, endTime: string)

  /** The fields of the `datetime` the source builds. */
  datatype Stamp = Stamp(year: nat, month: nat, day: nat, hour: nat, minute: nat)

  /** The four values returned: operating open, operating close, Extra Magic
      open, Extra Magic close; `None` where no entry supplied them. */
  datatype ParkHours = ParkHours(
    operatingStart: Option<Stamp>,
    operatingEnd: Option<Stamp>,
    extraStart: Option<Stamp>,
    extraEnd: Option<Stamp>)

  /** `HH:MM...`: digits where `int(t[0:2])` and `int(t[3:5])` read. */
  predicate IsClockTime(t: string) {
    |t| >= 5 && IsDigit(t[0]) && IsDigit(t[1]) && IsDigit(t[3]) && IsDigit(t[4])
  }

  /** `int(t[0:2])`: the hour digits of a clock time. */
  function HourOf(t: string): (h: nat)
    requires IsClockTime(t)
    ensures h == 10 * DigitValue(t[0]) + DigitValue(t[1]) && h < 100
  {
    ToNatTwoDigits(t[0..2]);
    ToNat(t[0..2])
  }

  /** `int(t[3:5])`: the minute digits of a clock time. */
  function MinuteOf(t: string): (m: nat)
    requires IsClockTime(t)
    ensures m == 10 * DigitValue(t[3]) + DigitValue(t[4]) && m < 100
  {
    ToNatTwoDigits(t[3..5]);
    ToNat(t[3..5])
  }

  /** `datetime(int(YEAR), int(MONTH), int(DAY), int(t[0:2]), int(t[3:5]))`,
      before `datetime` checks its ranges. */
  function StampAt(today: Date, t: string): (r: Stamp)
    requires IsClockTime(t)
    ensures r.year == today.year && r.month == today.month && r.day == today.day
    ensures r.hour == HourOf(t) && r.minute == MinuteOf(t)
  {
    var yy := FromNat(today.year);
    var padded := FormatDate(FromNat(today.month), FromNat(today.day));
    TodayFieldsReadBack(today, yy, padded);
    Stamp(ToNat(yy), ToNat(padded.0), ToNat(padded.1), HourOf(t), MinuteOf(t))
  }

  /** `int(YEAR)`, `int(MONTH)` and `int(DAY)` give back today's numbers. */
  lemma TodayFieldsReadBack(today: Date, yy: string, padded: (string, string))
    requires yy == FromNat(today.year)
    requires padded == FormatDate(FromNat(today.month), FromNat(today.day))
    ensures AllDigits(yy) && |yy| >= 1 && ToNat(yy) == today.year
    ensures AllDigits(padded.0) && |padded.0| >= 1 && ToNat(padded.0) == today.month
    ensures AllDigits(padded.1) && |padded.1| >= 1 && ToNat(padded.1) == today.day
  {
    ToNatFromNat(today.year);
    PaddedNumberRoundTrip(today.month);
    PaddedNumberRoundTrip(today.day);
  }

  /** An entry the loop acts on for `kind`: dated today and of that type. */
  predicate Selects(e: ScheduleEntry, key: string, kind: string) {
    e.date == key && e.kind == kind
  }

  /** Every entry the loop parses has readable start and end times. */
  predicate TimesReadable(schedules: seq<ScheduleEntry>, key: string) {
    forall i :: 0 <= i < |schedules| ==>
      (schedules[i].date == key && (schedules[i].kind == Operating || schedules[i].kind == ExtraMagicHours))
      ==> IsClockTime(schedules[i].startTime) && IsClockTime(schedules[i].endTime)
  }

  /** The index of the last entry selected for `kind`. */
  function LastSelected(schedules: seq<ScheduleEntry>, key: string, kind: string): (r: Option<nat>)
    ensures r.None? <==> forall j :: 0 <= j < |schedules| ==> !Selects(schedules[j], key, kind)
    ensures r.Some? ==> r.value < |schedules| && Selects(schedules[r.value], key, kind)
                        && forall j :: r.value < j < |schedules| ==> !Selects(schedules[j], key, kind)
    decreases |schedules|
  {
    if |schedules| == 0 then None
    else if Selects(schedules[|schedules| - 1], key, kind) then Some(|schedules| - 1)
    else LastSelected(schedules[..|schedules| - 1], key, kind)
  }

  /** The (start, end) pair for one schedule type: taken from the last entry
      of that type dated today, absent when there is none. */
  function Window(schedules: seq<ScheduleEntry>, today: Date, kind: string): (w: (Option<Stamp>, Option<Stamp>))
    requires kind == Operating || kind == ExtraMagicHours
    requires TimesReadable(schedules, DateKey(today))
    ensures w.0.None? <==> forall j :: 0 <= j < |schedules| ==> !Selects(schedules[j], DateKey(today), kind)
    ensures w.0.None? <==> w.1.None?
    ensures w.0.Some? ==>
      exists i :: && 0 <= i < |schedules| && Selects(schedules[i], DateKey(today), kind)
                  && (forall j :: i < j < |schedules| ==> !Selects(schedules[j], DateKey(today), kind))
                  && w.0 == Some(StampAt(today, schedules[i].startTime))
                  && w.1 == Some(StampAt(today, schedules[i].endTime))
  {
    match LastSelected(schedules, DateKey(today), kind)
    case None => (None, None)
    case Some(i) => (Some(StampAt(today, schedules[i].startTime)), Some(StampAt(today, schedules[i].endTime)))
  }

  /** The hours the schedule promises for today, type by type. */
  function ExpectedHours(schedules: seq<ScheduleEntry>, today: Date): ParkHours
    requires TimesReadable(schedules, DateKey(today))
  {
    var op := Window(schedules, today, Operating);
    var ex := Window(schedules, today, ExtraMagicHours);
    ParkHours(op.0, op.1, ex.0, ex.1)
  }

  /** A prefix of a readable schedule is readable. */
  lemma {:induction false} ReadablePrefix(schedules: seq<ScheduleEntry>, key: string, n: nat)
    requires TimesReadable(schedules, key) && n <= |schedules|
    ensures TimesReadable(schedules[..n], key)
  {
    assert forall i :: 0 <= i < n ==> schedules[..n][i] == schedules[i];
  }

  /** Extending the scanned prefix by one entry: a selected entry replaces
      the window, any other entry keeps it. */
  lemma {:induction false} WindowStep(schedules: seq<ScheduleEntry>, i: nat, today: Date, kind: string)
    requires kind == Operating || kind == ExtraMagicHours
    requires TimesReadable(schedules, DateKey(today)) && i < |schedules|
    ensures TimesReadable(schedules[..i], DateKey(today)) && TimesReadable(schedules[..i + 1], DateKey(today))
    ensures Window(schedules[..i + 1], today, kind)
      == if Selects(schedules[i], DateKey(today), kind)
         then (Some(StampAt(today, schedules[i].startTime)), Some(StampAt(today, schedules[i].endTime)))
         else Window(schedules[..i], today, kind)
  {
    var key := DateKey(today);
    ReadablePrefix(schedules, key, i);
    ReadablePrefix(schedules, key, i + 1);
    LastSelectedStep(schedules, i, key, kind);
  }

  lemma {:induction false} LastSelectedStep(schedules: seq<ScheduleEntry>, i: nat, key: string, kind: string)
    requires i < |schedules|
    ensures LastSelected(schedules[..i + 1], key, kind)
      == if Selects(schedules[i], key, kind) then Some(i) else LastSelected(schedules[..i], key, kind)
  {
    assert schedules[..i + 1][..i] == schedules[..i];
    assert schedules[..i + 1][i] == schedules[i];
  }

  /** The scan of `getTodayParkHours`: each entry dated today overwrites the
      window of its type; other entries are skipped. */
  method TodayParkHours(schedules: seq<ScheduleEntry>, today: Date) returns (hours: ParkHours)
    requires TimesReadable(schedules, DateKey(today))
    ensures hours == ExpectedHours(schedules, today)
  {
    var key := DateKey(today);
    var operatingStart, operatingEnd: Option<Stamp> := None, None;
    var extraStart, extraEnd: Option<Stamp> := None, None;
    var i := 0;
    while i < |schedules|
      invariant 0 <= i <= |schedules|
      invariant (operatingStart, operatingEnd) == Window(schedules[..i], today, Operating)
      invariant (extraStart, extraEnd) == Window(schedules[..i], today, ExtraMagicHours)
    {
      var e := schedules[i];
      if e.date == key {
        if e.kind == Operating {
          operatingStart := Some(StampAt(today, e.startTime));
          operatingEnd := Some(StampAt(today, e.endTime));
        }
        if e.kind == ExtraMagicHours {
          extraStart := Some(StampAt(today, e.startTime));
          extraEnd := Some(StampAt(today, e.endTime));
        }
      }
      WindowStep(schedules, i, today, Operating);
      WindowStep(schedules, i, today, ExtraMagicHours);
      i := i + 1;
    }
    assert schedules[..|schedules|] == schedules;
    hours := ParkHours(operatingStart, operatingEnd, extraStart, extraEnd);
  }

  /** An entry that is not dated today, or is of neither type, leaves the
      result as it was. */
  lemma IgnoredEntry(schedules: seq<ScheduleEntry>, e: ScheduleEntry, today: Date)
    requires TimesReadable(schedules, DateKey(today))
    requires e.date != DateKey(today) || (e.kind != Operating && e.kind != ExtraMagicHours)
    ensures TimesReadable(schedules + [e], DateKey(today))
    ensures ExpectedHours(schedules + [e], today) == ExpectedHours(schedules, today)
  {
    var s := schedules + [e];
    assert s[..|schedules|] == schedules;
  }

  /** A later entry dated today overwrites the window of its own type and
      leaves the other type's window alone. */
  lemma LaterEntryWins(schedules: seq<ScheduleEntry>, e: ScheduleEntry, today: Date)
    requires e.date == DateKey(today) && (e.kind == Operating || e.kind == ExtraMagicHours)
    requires IsClockTime(e.startTime) && IsClockTime(e.endTime)
    requires TimesReadable(schedules, DateKey(today))
    ensures TimesReadable(schedules + [e], DateKey(today))
    ensures var h := ExpectedHours(schedules + [e], today);
      var before := ExpectedHours(schedules, today);
      var window := (Some(StampAt(today, e.startTime)), Some(StampAt(today, e.endTime)));
      if e.kind == Operating then
        (h.operatingStart, h.operatingEnd) == window
        && h.extraStart == before.extraStart && h.extraEnd == before.extraEnd
      else
        (h.extraStart, h.extraEnd) == window
        && h.operatingStart == before.operatingStart && h.operatingEnd == before.operatingEnd
  {
    var s := schedules + [e];
    assert s[..|schedules|] == schedules;
  }

  /** One operating entry for today and no Extra Magic Hours entry: the
      operating window is that entry's, the extra window is absent. */
  lemma SingleOperatingEntry(today: Date, start: string, end: string)
    requires IsClockTime(start) && IsClockTime(end)
    ensures var s := [ScheduleEntry(DateKey(today), Operating, start, end)];
      TimesReadable(s, DateKey(today))
      && ExpectedHours(s, today)
         == ParkHours(Some(StampAt(today, start)), Some(StampAt(today, end)), None, None)
  {
    var s := [ScheduleEntry(DateKey(today), Operating, start, end)];
    assert s == [] + s;
    LaterEntryWins([], s[0], today);
  }

  /** Opening at "09:00" and closing at "22:00" give 9:00 and 22:00 today. */
  lemma NineToTen(today: Date)
    ensures var s := [ScheduleEntry(DateKey(today), Operating, "09:00", "22:00")];
      TimesReadable(s, DateKey(today))
      && ExpectedHours(s, today)
         == ParkHours(Some(Stamp(today.year, today.month, today.day, 9, 0)),
                      Some(Stamp(today.year, today.month, today.day, 22, 0)), None, None)
  {
    SingleOperatingEntry(today, "09:00", "22:00");
  }
}
