/** The daily entry document of src/models/Entry.js: the `YYYY-MM-DD` day key of a
    UTC date, the `pre("validate")` hook that fills an absent day key, and the
    schema's required fields. The ISO day key the entries server stores is here too. */
module DayKey {

  import opened Wrappers
  import opened Strings
  import opened Calendar

  /** `String(n).padStart(2, "0")`. */
  function Pad2(n: nat): string {
    PadStart(NatToString(n), 2, '0')
  }

  lemma Pad2Facts(n: nat)
    requires n < 100
    ensures |Pad2(n)| == 2 && AllDigits(Pad2(n)) && ParseNat(Pad2(n)) == n
  {
    NatToStringLength(n);
    LeadingZeros(Pad2(n), NatToString(n));
    ParseNatToString(n);
  }

  /** `${year}-${MM}-${DD}`: the year as `String(year)`, month and day padded to two digits. */
  function FormatDayKey(d: Date): string
    requires ValidDate(d)
  {
    IntToString(d.year) + "-" + Pad2(d.month) + "-" + Pad2(d.day)
  }

  /** Reads a day key back: a year, then `-MM-DD` with two digits each. */
  function ParseDayKey(s: string): Option<Date> {
    var n := |s|;
    if n >= 7 && s[n - 6] == '-' && s[n - 3] == '-'
       && AllDigits(s[n - 5..n - 3]) && AllDigits(s[n - 2..])
    then
      match ParseInt(s[..n - 6])
      case Some(y) => Some(Date(y, ParseNat(s[n - 5..n - 3]), ParseNat(s[n - 2..])))
      case None => None
    else None
  }

  /** A year text, a dash, two digits, a dash and two digits read back as their values. */
  lemma ParseDashed(y: string, mm: string, dd: string, year: int, month: nat, day: nat)
    requires ParseInt(y) == Some(year)
    requires |mm| == 2 && AllDigits(mm) && ParseNat(mm) == month
    requires |dd| == 2 && AllDigits(dd) && ParseNat(dd) == day
    ensures ParseDayKey(y + "-" + mm + "-" + dd) == Some(Date(year, month, day))
  {
    var s := y + "-" + mm + "-" + dd;
    var n := |s|;
    assert s[n - 6] == '-' && s[n - 3] == '-';
    assert s[..n - 6] == y && s[n - 5..n - 3] == mm && s[n - 2..] == dd;
  }

  /** A day key determines its calendar date. */
  lemma ParseFormatDayKey(d: Date)
    requires ValidDate(d)
    ensures ParseDayKey(FormatDayKey(d)) == Some(d)
  {
    Pad2Facts(d.month);
    Pad2Facts(d.day);
    ParseIntToString(d.year);
    ParseDashed(IntToString(d.year), Pad2(d.month), Pad2(d.day), d.year, d.month, d.day);
  }

  /** How to call `toDayKey`: nothing, a millisecond number, or a `Date` object. */
  datatype DateArg = Missing | Millis(ms: JsTime) | DateObject(ms: JsTime)

  /** JavaScript truthiness of the argument: the number 0 is falsy, every `Date` object is truthy. */
  predicate Truthy(d: DateArg) {
    match d
    case Missing => false
    case Millis(ms) => ms != 0
    case DateObject(_) => true
  }

  /** The day key of the UTC date of instant `t`. */
  function DayKeyAt(t: JsTime): string {
    FormatDayKey(UtcDate(t))
  }

  /** `toDayKey(d)`: the day key of `d`, or of the current time `now` when `d` is falsy. */
  function ToDayKey(d: DateArg, now: JsTime): (r: string)
    ensures ParseDayKey(r) == Some(UtcDate(if Truthy(d) then d.ms else now))
  {
    var t := if Truthy(d) then d.ms else now;
    ParseFormatDayKey(UtcDate(t));
    DayKeyAt(t)
  }

  /** A day key is the year, a two-digit month 01-12 and a two-digit day 01-31, and reads back as its date. */
  lemma FormatDayKeyComponents(u: Date)
    requires ValidDate(u)
    ensures ParseDayKey(FormatDayKey(u)) == Some(u)
    ensures |Pad2(u.month)| == 2 && |Pad2(u.day)| == 2
    ensures 1 <= u.month <= 12 && 1 <= u.day <= 31
  {
    assert u.day <= 31 by { assert DaysInMonth(u.year, u.month) <= 31; }
    Pad2Facts(u.month);
    Pad2Facts(u.day);
    ParseFormatDayKey(u);
  }

  /** `toDayKey` formats the UTC date of its argument, or of now when the argument is falsy. */
  lemma ToDayKeyComponents(d: DateArg, now: JsTime)
    ensures var u := UtcDate(if Truthy(d) then d.ms else now);
      && ParseDayKey(ToDayKey(d, now)) == Some(u)
      && 1 <= u.month <= 12 && 1 <= u.day <= 31
  {
    FormatDayKeyComponents(UtcDate(if Truthy(d) then d.ms else now));
  }

  /** A falsy argument, the epoch number 0 included, falls back to the current time. */
  lemma FalsyArgumentUsesNow(now: JsTime)
    ensures ToDayKey(Missing, now) == DayKeyAt(now)
    ensures ToDayKey(Millis(0), now) == DayKeyAt(now)
  {
  }

  /** Two instants get the same day key exactly when they are on the same UTC day. */
  lemma DayKeyAtIffSameDay(t1: JsTime, t2: JsTime)
    ensures DayKeyAt(t1) == DayKeyAt(t2) <==> t1 / MsPerDay == t2 / MsPerDay
  {
    SameUtcDateIffSameDay(t1, t2);
    if DayKeyAt(t1) == DayKeyAt(t2) {
      ParseFormatDayKey(UtcDate(t1));
      ParseFormatDayKey(UtcDate(t2));
    }
  }

  /** The year field of `toISOString()`: four digits for years 0-9999,
      otherwise a sign and six digits. */
  function IsoYear(y: int): (r: string)
    ensures |r| >= 4
  {
    if 0 <= y <= 9999 then PadStart(NatToString(y), 4, '0')
    else (if y < 0 then "-" else "+") + PadStart(NatToString(if y < 0 then -y else y), 6, '0')
  }

  /** For years 0-9999 the ISO year is four digits that read back as the year. */
  lemma IsoYearFourDigits(y: int)
    requires 0 <= y <= 9999
    ensures |IsoYear(y)| == 4 && AllDigits(IsoYear(y)) && ParseNat(IsoYear(y)) == y
  {
    var s := NatToString(y);
    NatToStringLength(y);
    LeadingZeros(PadStart(s, 4, '0'), s);
    ParseNatToString(y);
  }

  /** `toISOString().slice(0, 10)` of an instant on date `u`. The date part of the ISO
      string is at least ten characters long, so the time part is never reached. */
  function IsoDateKey(u: Date): (r: string)
    requires ValidDate(u)
    ensures |r| == 10
  {
    var full := IsoYear(u.year) + "-" + Pad2(u.month) + "-" + Pad2(u.day);
    assert |full| >= 10 by { Pad2Facts(u.month); Pad2Facts(u.day); }
    full[..10]
  }

  /** `d.toISOString().slice(0, 10)`, the day key the entries server writes. */
  function IsoDayKey(t: JsTime): (r: string)
    ensures |r| == 10
    ensures 0 <= UtcDate(t).year <= 9999 ==> ParseDayKey(r) == Some(UtcDate(t))
  {
    var u := UtcDate(t);
    if 0 <= u.year <= 9999 then IsoDateKeyParses(u); IsoDateKey(u) else IsoDateKey(u)
  }

  /** For four-digit years the ISO slice and the `toDayKey` format agree. */
  lemma IsoDateKeyMatchesFormat(u: Date)
    requires ValidDate(u) && 1000 <= u.year <= 9999
    ensures IsoDateKey(u) == FormatDayKey(u)
  {
    var y := IsoYear(u.year);
    IsoYearFourDigits(u.year);
    assert y == IntToString(u.year) by { NatToStringLength(u.year); }
    Pad2Facts(u.month);
    Pad2Facts(u.day);
    var full := y + "-" + Pad2(u.month) + "-" + Pad2(u.day);
    assert IsoDateKey(u) == full[..10] == full;
  }

  lemma IsoDayKeyMatchesToDayKey(t: JsTime)
    requires 1000 <= UtcDate(t).year <= 9999
    ensures IsoDayKey(t) == DayKeyAt(t)
  {
    IsoDateKeyMatchesFormat(UtcDate(t));
  }

  /** For years 0-9999 the ISO slice reads back as its date. */
  lemma IsoDateKeyParses(u: Date)
    requires ValidDate(u) && 0 <= u.year <= 9999
    ensures ParseDayKey(IsoDateKey(u)) == Some(u)
  {
    var y := IsoYear(u.year);
    IsoYearFourDigits(u.year);
    Pad2Facts(u.month);
    Pad2Facts(u.day);
    assert IsDigit(y[0]);
    assert ParseInt(y) == Some(u.year);
    ParseDashed(y, Pad2(u.month), Pad2(u.day), u.year, u.month, u.day);
    var full := y + "-" + Pad2(u.month) + "-" + Pad2(u.day);
    assert IsoDateKey(u) == full[..10] == full;
  }

  /** Within years 0-9999 the ISO day key, too, identifies the UTC day. */
  lemma IsoDayKeyIffSameDay(t1: JsTime, t2: JsTime)
    requires 0 <= UtcDate(t1).year <= 9999 && 0 <= UtcDate(t2).year <= 9999
    ensures IsoDayKey(t1) == IsoDayKey(t2) <==> t1 / MsPerDay == t2 / MsPerDay
  {
    SameUtcDateIffSameDay(t1, t2);
    if IsoDayKey(t1) == IsoDayKey(t2) {
      IsoDateKeyParses(UtcDate(t1));
      IsoDateKeyParses(UtcDate(t2));
    }
  }

  /** Zeros in front do not change the value of a digit string. */
  lemma {:induction false} LeadingZeros(s: string, tail: string)
    requires AllDigits(tail) && |tail| <= |s| && s[|s| - |tail|..] == tail
    requires forall i :: 0 <= i < |s| - |tail| ==> s[i] == '0'
    ensures AllDigits(s) && ParseNat(s) == ParseNat(tail)
    decreases |tail|
  {
    if tail == [] {
      AllZeros(s);
    } else {
      var k := |s| - 1;
      assert s[..k][|s[..k]| - |tail[..|tail| - 1]|..] == tail[..|tail| - 1];
      LeadingZeros(s[..k], tail[..|tail| - 1]);
    }
  }

  lemma {:induction false} AllZeros(s: string)
    requires forall i :: 0 <= i < |s| ==> s[i] == '0'
    ensures AllDigits(s) && ParseNat(s) == 0
    decreases |s|
  {
    if s != [] {
      AllZeros(s[..|s| - 1]);
    }
  }

  /** Holds whenever the schema's required fields are present: `userId` and `plantId` non-empty
      strings, both amounts given (they are naturals, so `min: 0` holds by type). */
  predicate MeetsSchema(userId: string, plantId: string, waterAmount: Option<nat>, fertilizerAmount: Option<nat>) {
    userId != "" && plantId != "" && waterAmount.Some? && fertilizerAmount.Some?
  }

  /** The day key the `pre("validate")` hook leaves: an existing non-empty key is kept,
      otherwise the key of the document's date, or of now when the date is missing. */
  function HookDayKey(dayKey: string, date: Option<JsTime>, now: JsTime): (r: string)
    ensures dayKey != "" ==> r == dayKey
    ensures dayKey == "" ==> r == DayKeyAt(if date.Some? then date.value else now)
    ensures dayKey == "" ==> ParseDayKey(r) == Some(UtcDate(if date.Some? then date.value else now))
  {
    if dayKey != "" then dayKey
    else ToDayKey(if date.Some? then DateObject(date.value) else Millis(now), now)
  }

  /** A daily entry document before it is saved. */
  class EntryDocument {
    var userId: string
    var plantId: string
    var waterAmount: Option<nat>
    var fertilizerAmount: Option<nat>
    var date: Option<JsTime>
    var dayKey: string

    constructor (userId: string, plantId: string, waterAmount: Option<nat>,
                 fertilizerAmount: Option<nat>, date: Option<JsTime>, dayKey: string)
      ensures this.userId == userId && this.plantId == plantId
      ensures this.waterAmount == waterAmount && this.fertilizerAmount == fertilizerAmount
      ensures this.date == date && this.dayKey == dayKey
    {
      this.userId := userId;
      this.plantId := plantId;
      this.waterAmount := waterAmount;
      this.fertilizerAmount := fertilizerAmount;
      this.date := date;
      this.dayKey := dayKey;
    }

    /** The `pre("validate")` hook: fills `dayKey` when it is absent or empty. */
    method PreValidate(now: JsTime)
      modifies this`dayKey
      ensures dayKey == HookDayKey(old(dayKey), date, now)
      ensures old(dayKey) != "" ==> dayKey == old(dayKey)
    {
      if dayKey == "" {
        var arg := if date.Some? then DateObject(date.value) else Millis(now);
        dayKey := ToDayKey(arg, now);
      }
    }

    /** Validation: the hook runs first, then the required-field checks. */
    method Validate(now: JsTime) returns (ok: bool)
      modifies this`dayKey
      ensures dayKey == HookDayKey(old(dayKey), date, now)
      ensures ok <==> MeetsSchema(userId, plantId, waterAmount, fertilizerAmount)
    {
      PreValidate(now);
      ok := userId != "" && plantId != "" && waterAmount.Some? && fertilizerAmount.Some?;
    }
  }
}
