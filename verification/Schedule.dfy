/**
 Banned time bands applied to a schedule: the bands are cut out of every profile's windows, what is left
 is printed as new windows, and those are compiled and asked minute by minute.
 */
module Schedules {

  import opened Options
  import opened Clock
  import opened Intervals

  type Week = days: seq<bool> | |days| == 7 witness [false, false, false, false, false, false, false]

  datatype Window = Window(profile: string, days: seq<string>, start: string, end: string)

  datatype Band = Band(days: Week, start: int, end: int)

  type Intervals7 = lists: seq<seq<Interval>> | |lists| == 7 witness [[], [], [], [], [], [], []]

  // ---------------------------------------------------------------- banned bands

  /** The band covers the minute of the day, counting the part that runs over from the day before. */
  predicate BannedBy(band: Band, day: nat, m: int)
    requires day < 7
  {
    if band.end > band.start then
      band.days[day] && band.start <= m < band.end && m < DAY
    else
      || (band.days[day] && band.start <= m < DAY)
      || (band.days[(day + 6) % 7] && 0 <= m < band.end)
  }

  ghost predicate Banned(bands: seq<Band>, day: nat, m: int)
    requires day < 7
  {
    exists i :: 0 <= i < |bands| && BannedBy(bands[i], day, m)
  }

  function OwnPart(band: Band, day: nat): seq<Interval>
    requires day < 7
  {
    if !band.days[day] then []
    else if band.end > band.start then [Interval(band.start, if band.end < DAY then band.end else DAY)]
    else [Interval(band.start, DAY)]
  }

  /** What runs over into a day from the day before. */
  function OverPart(band: Band, day: nat): seq<Interval>
    requires day < 7
  {
    if band.days[(day + 6) % 7] && band.end <= band.start && band.end > 0 then [Interval(0, band.end)] else []
  }

  /** The parts of a band that fall on a day, once the days before upto have been walked. */
  function BandOn(band: Band, day: nat, upto: nat): seq<Interval>
    requires day < 7
  {
    var own := if day < upto then OwnPart(band, day) else [];
    if day == 0 then own + (if 6 < upto then OverPart(band, 0) else [])
    else (if day - 1 < upto then OverPart(band, day) else []) + own
  }

  function BlockedOn(bands: seq<Band>, day: nat): seq<Interval>
    requires day < 7
  {
    if bands == [] then []
    else BlockedOn(bands[..|bands| - 1], day) + BandOn(bands[|bands| - 1], day, 7)
  }

  lemma BandMeans(band: Band, day: nat, m: int)
    requires day < 7
    ensures Has(BandOn(band, day, 7), m) <==> BannedBy(band, day, m)
  {
    var own, over := OwnPart(band, day), OverPart(band, day);
    HasAppend(own, over, m);
    HasAppend(over, own, m);
    assert Has(own, m) <==> own != [] && In(own[0], m);
    assert Has(over, m) <==> over != [] && In(over[0], m);
  }

  lemma {:induction false} BlockedMeans(bands: seq<Band>, day: nat, m: int)
    requires day < 7
    ensures Has(BlockedOn(bands, day), m) <==> Banned(bands, day, m)
  {
    hide BandOn, BannedBy;
    if bands != [] {
      var front, last := bands[..|bands| - 1], bands[|bands| - 1];
      BlockedMeans(front, day, m);
      BandMeans(last, day, m);
      HasAppend(BlockedOn(front, day), BandOn(last, day, 7), m);
    }
  }

  /** What walking one day of the band adds to the list of day d. */
  function DayPart(band: Band, d: nat, day: nat): seq<Interval>
    requires d < 7 && day < 7
  {
    if d == day then OwnPart(band, d) else if d == (day + 1) % 7 then OverPart(band, d) else []
  }

  lemma BandOnStep(band: Band, d: nat, day: nat)
    requires d < 7 && day < 7
    ensures BandOn(band, d, day + 1) == BandOn(band, d, day) + DayPart(band, d, day)
  {
  }

  method AddDay(band: Band, day: nat, before: Intervals7) returns (blocked: Intervals7)
    requires day < 7
    ensures forall d | 0 <= d < 7 :: blocked[d] == before[d] + DayPart(band, d, day)
  {
    blocked := before;
    if !band.days[day] {
      return;
    }
    if band.end > band.start {
      var end := if band.end < DAY then band.end else DAY;
      return before[day := before[day] + [Interval(band.start, end)]];
    }
    blocked := before[day := before[day] + [Interval(band.start, DAY)]];
    if band.end > 0 {
      var nextDay := (day + 1) % 7;
      blocked := blocked[nextDay := blocked[nextDay] + [Interval(0, band.end)]];
    }
  }

  method AddBand(band: Band, before: Intervals7) returns (blocked: Intervals7)
    ensures forall d | 0 <= d < 7 :: blocked[d] == before[d] + BandOn(band, d, 7)
  {
    hide BandOn, DayPart;
    blocked := before;
    BandOnStart(band);
    for day := 0 to 7
      invariant forall d | 0 <= d < 7 :: blocked[d] == before[d] + BandOn(band, d, day)
    {
      blocked := AddDay(band, day, blocked);
      forall d | 0 <= d < 7
        ensures blocked[d] == before[d] + BandOn(band, d, day + 1)
      {
        BandOnStep(band, d, day);
      }
    }
  }

  lemma BandOnStart(band: Band)
    ensures forall d | 0 <= d < 7 :: BandOn(band, d, 0) == []
  {
  }

  method BlockedIntervalsByDay(bands: seq<Band>) returns (blocked: Intervals7)
    ensures forall d | 0 <= d < 7 :: blocked[d] == BlockedOn(bands, d)
  {
    hide BandOn;
    blocked := [[], [], [], [], [], [], []];
    for k := 0 to |bands|
      invariant forall d | 0 <= d < 7 :: blocked[d] == BlockedOn(bands[..k], d)
    {
      assert bands[..k + 1][..k] == bands[..k];
      blocked := AddBand(bands[k], blocked);
    }
    assert bands[..|bands|] == bands;
  }

  // ---------------------------------------------------------------- windows

  predicate DaysOk(days: seq<string>)
  {
    forall i | 0 <= i < |days| :: Weekday(days[i]).Some?
  }

  predicate OnDay(days: seq<string>, d: nat)
  {
    days == [] || exists i :: 0 <= i < |days| && Weekday(days[i]) == Some(d)
  }

  predicate ClocksOk(w: Window)
  {
    ParseClock(w.start).Some? && ParseClock(w.end).Some? && ParseClock(w.start).value < ParseClock(w.end).value
  }

  function Span(w: Window): Interval
    requires ClocksOk(w)
  {
    Interval(ParseClock(w.start).value, ParseClock(w.end).value)
  }

  lemma SpanInDay(w: Window)
    requires ClocksOk(w)
    ensures 0 <= Span(w).start < Span(w).end <= DAY
  {
  }

  predicate WindowOk(w: Window)
  {
    ClocksOk(w) && DaysOk(w.days)
  }

  /** The window is open at that minute of that day. */
  predicate Covers(w: Window, d: nat, m: int)
  {
    ClocksOk(w) && OnDay(w.days, d) && In(Span(w), m)
  }

  ghost predicate HasWindows(windows: seq<Window>, profile: string)
  {
    exists i :: 0 <= i < |windows| && windows[i].profile == profile
  }

  ghost predicate ProfileOk(windows: seq<Window>, profile: string)
  {
    forall i | 0 <= i < |windows| && windows[i].profile == profile :: WindowOk(windows[i])
  }

  /** Some window of the profile is open at that minute of that day. */
  ghost predicate Covered(windows: seq<Window>, profile: string, d: nat, m: int)
  {
    exists i :: 0 <= i < |windows| && windows[i].profile == profile && Covers(windows[i], d, m)
  }

  method WindowDays(days: seq<string>) returns (r: Option<Week>)
    ensures r.Some? <==> DaysOk(days)
    ensures r.Some? ==> forall d | 0 <= d < 7 :: r.value[d] <==> OnDay(days, d)
  {
    hide Weekday;
    if days == [] {
      return Some([true, true, true, true, true, true, true]);
    }
    var out: Week := [false, false, false, false, false, false, false];
    for k := 0 to |days|
      invariant DaysOk(days[..k])
      invariant forall d | 0 <= d < 7 :: out[d] <==> exists i :: 0 <= i < k && Weekday(days[i]) == Some(d)
    {
      var day := Weekday(days[k]);
      if day.None? {
        return None;
      }
      out := out[day.value := true];
    }
    r := Some(out);
  }

  // ---------------------------------------------------------------- a profile's own hours

  ghost function OwnWindows(windows: seq<Window>, profile: string, d: nat): seq<Interval>
  {
    if windows == [] then []
    else
      var last := windows[|windows| - 1];
      OwnWindows(windows[..|windows| - 1], profile, d)
      + (if last.profile == profile && ClocksOk(last) && OnDay(last.days, d) then [Span(last)] else [])
  }

  /** A profile without windows is open all day. */
  ghost function AllowedOn(windows: seq<Window>, profile: string, d: nat): seq<Interval>
  {
    if HasWindows(windows, profile) then OwnWindows(windows, profile, d) else [Interval(0, DAY)]
  }

  /** Inside the profile's own hours. */
  ghost predicate OwnHours(windows: seq<Window>, profile: string, d: nat, m: int)
  {
    if HasWindows(windows, profile) then Covered(windows, profile, d, m) else 0 <= m < DAY
  }

  lemma {:induction false} OwnWindowsMean(windows: seq<Window>, profile: string, d: nat, m: int)
    ensures Has(OwnWindows(windows, profile, d), m) <==> Covered(windows, profile, d, m)
    ensures Within(OwnWindows(windows, profile, d), 0, DAY)
  {
    hide ClocksOk, OnDay, ParseClock, Span;
    if windows != [] {
      var front, last := windows[..|windows| - 1], windows[|windows| - 1];
      OwnWindowsMean(front, profile, d, m);
      assert Covered(windows, profile, d, m) <==>
        Covered(front, profile, d, m) || (last.profile == profile && Covers(last, d, m));
      if last.profile == profile && ClocksOk(last) && OnDay(last.days, d) {
        HasAppend(OwnWindows(front, profile, d), [Span(last)], m);
        HasOne(Span(last), m);
        SpanInDay(last);
      } else {
        HasAppend(OwnWindows(front, profile, d), [], m);
      }
    }
  }

  lemma AllowedMeans(windows: seq<Window>, profile: string, d: nat, m: int)
    ensures Has(AllowedOn(windows, profile, d), m) <==> OwnHours(windows, profile, d, m)
    ensures Within(AllowedOn(windows, profile, d), 0, DAY)
  {
    OwnWindowsMean(windows, profile, d, m);
    HasOne(Interval(0, DAY), m);
  }

  method AllowedIntervalsByDay(profile: string, windows: seq<Window>) returns (r: Option<Intervals7>)
    ensures r.Some? <==> ProfileOk(windows, profile)
    ensures r.Some? ==> forall d | 0 <= d < 7 :: r.value[d] == AllowedOn(windows, profile, d)
  {
    hide ParseClock, DaysOk, OnDay;
    var allowed: Intervals7 := [[], [], [], [], [], [], []];
    var hasWindows := false;
    for k := 0 to |windows|
      invariant ProfileOk(windows[..k], profile)
      invariant hasWindows <==> HasWindows(windows[..k], profile)
      invariant forall d | 0 <= d < 7 :: allowed[d] == OwnWindows(windows[..k], profile, d)
    {
      var window := windows[k];
      assert windows[..k + 1][..k] == windows[..k] && windows[..k + 1][k] == window;
      if window.profile == profile {
        hasWindows := true;
        if !ClocksOk(window) {
          return None;
        }
        var days := WindowDays(window.days);
        if days.None? {
          return None;
        }
        allowed := AddSpan(allowed, days.value, Span(window));
      }
    }
    assert windows[..|windows|] == windows;
    if !hasWindows {
      allowed := seq(7, _ => [Interval(0, DAY)]);
    }
    r := Some(allowed);
  }

  method AddSpan(before: Intervals7, days: Week, span: Interval) returns (allowed: Intervals7)
    ensures forall d | 0 <= d < 7 :: allowed[d] == before[d] + (if days[d] then [span] else [])
  {
    allowed := before;
    for day := 0 to 7
      invariant forall d | 0 <= d < day :: allowed[d] == before[d] + (if days[d] then [span] else [])
      invariant forall d | day <= d < 7 :: allowed[d] == before[d]
    {
      if days[day] {
        allowed := allowed[day := allowed[day] + [span]];
      }
    }
  }

  // ---------------------------------------------------------------- bands on the clock of the week

  /** How long a band lasts: up to its end on the same day, or over midnight. */
  function Lasts(band: Band): int
  {
    if band.end > band.start then band.end - band.start else band.end - band.start + DAY
  }

  /** The band of day x is on at that minute of the week, or at that minute of the week after. */
  predicate OnFrom(band: Band, x: nat, minute: int)
  {
    var from := x * DAY + band.start;
    from <= minute < from + Lasts(band) || from <= minute + 7 * DAY < from + Lasts(band)
  }

  /** A band bans the minutes from its start for as long as it lasts, on each of its days, the end of the week leading into its beginning. */
  lemma BannedByMeans(band: Band, day: nat, m: int)
    requires day < 7 && 0 <= m < DAY && 0 <= band.start < DAY && 0 <= band.end <= DAY
    ensures BannedBy(band, day, m) <==> exists x :: 0 <= x < 7 && band.days[x] && OnFrom(band, x, day * DAY + m)
  {
    var before := (day + 6) % 7;
    if BannedBy(band, day, m) {
      if band.days[day] && band.start <= m && (band.end > band.start ==> m < band.end) {
        assert OnFrom(band, day, day * DAY + m);
      } else {
        assert OnFrom(band, before, day * DAY + m);
      }
    }
    if x :| 0 <= x < 7 && band.days[x] && OnFrom(band, x, day * DAY + m) {
      assert x == day || x == before;
    }
  }

  // ---------------------------------------------------------------- windows as they are written

  /** A time of day as it may be written. */
  function Written(hour: nat, minute: nat): string
  {
    Decimal(hour) + ":" + Decimal(minute)
  }

  /** A window written out: open from its start to its end, on the day it names, or on every day if it names none. */
  lemma WindowMeans(profile: string, day: nat, h1: nat, m1: nat, h2: nat, m2: nat, d: nat, m: int)
    requires day < 7 && d < 7 && h1 < 24 && m1 < 60 && h2 < 24 && m2 < 60 && 60 * h1 + m1 < 60 * h2 + m2
    ensures Covers(Window(profile, [FULL[day]], Written(h1, m1), Written(h2, m2)), d, m) <==> d == day && 60 * h1 + m1 <= m < 60 * h2 + m2
    ensures Covers(Window(profile, [], Written(h1, m1), Written(h2, m2)), d, m) <==> 60 * h1 + m1 <= m < 60 * h2 + m2
  {
    hide ParseClock, Weekday;
    ClockMeans(h1, m1);
    ClockMeans(h2, m2);
    FullName(day);
    var days := [FULL[day]];
    assert days[0] == FULL[day];
  }

  lemma FullName(day: nat)
    requires day < 7
    ensures Weekday(FULL[day]) == Some(day)
  {
    hide ToLower, TrimSpace;
    WeekdayMeans(FULL[day], day);
    LowerStays(FULL[day]);
  }
}
