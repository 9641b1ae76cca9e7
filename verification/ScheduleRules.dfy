/**
 The restricted schedule as the proxy asks it: restriction, compilation and the minute-by-minute answer,
 taken together.
 */
module ScheduleRules {

  import opened Options
  import opened Clock
  import opened Intervals
  import opened Schedules

  // ---------------------------------------------------------------- what restriction writes out

  function Entry(profile: string, day: nat, iv: Interval): Window
    requires 0 <= iv.start < iv.end
  {
    Window(profile, [WeekdayName(day)], MinuteClock(iv.start), MinuteClock(iv.end))
  }

  function EntriesOf(profile: string, day: nat, list: seq<Interval>): seq<Window>
    requires forall i | 0 <= i < |list| :: 0 <= list[i].start
  {
    if list == [] then []
    else
      var last := list[|list| - 1];
      EntriesOf(profile, day, list[..|list| - 1])
      + (if last.start >= last.end then [] else [Entry(profile, day, last)])
  }

  /** What is left of a profile's day. */
  ghost function Left(windows: seq<Window>, bands: seq<Band>, profile: string, d: nat): (list: seq<Interval>)
    requires d < 7
    ensures Within(list, 0, DAY)
  {
    AllowedMeans(windows, profile, d, 0);
    SubtractWithin(AllowedOn(windows, profile, d), BlockedOn(bands, d), 0, DAY);
    Subtracted(AllowedOn(windows, profile, d), BlockedOn(bands, d))
  }

  ghost function ForProfile(windows: seq<Window>, bands: seq<Band>, profile: string, days: nat): seq<Window>
    requires days <= 7
  {
    if days == 0 then []
    else
      ForProfile(windows, bands, profile, days - 1)
      + EntriesOf(profile, days - 1, Left(windows, bands, profile, days - 1))
  }

  ghost function Restricted(windows: seq<Window>, bands: seq<Band>, names: seq<string>): seq<Window>
  {
    if names == [] then []
    else
      Restricted(windows, bands, names[..|names| - 1])
      + ForProfile(windows, bands, names[|names| - 1], 7)
  }

  // ---------------------------------------------------------------- what it means

  /** The windows compile: NewScheduleRules accepts them. */
  predicate Compile(windows: seq<Window>)
  {
    forall i | 0 <= i < |windows| :: windows[i].profile != "" && WindowOk(windows[i])
  }

  /** The printed window reads back as exactly the interval, on exactly that day. */
  lemma EntryMeans(profile: string, day: nat, iv: Interval, d: nat, m: int)
    requires 0 <= iv.start < iv.end <= DAY && day < 7
    ensures WindowOk(Entry(profile, day, iv))
    ensures Covers(Entry(profile, day, iv), d, m) <==> d == day && In(iv, m)
  {
    hide ParseClock, MinuteClock, Weekday, WeekdayName;
    ClockRoundTrip(iv.start);
    ClockRoundTrip(iv.end);
    WeekdayRoundTrip(day);
    var days := Entry(profile, day, iv).days;
    assert Weekday(days[0]) == Some(day);
  }

  lemma CoveredAppend(a: seq<Window>, b: seq<Window>, p: string, d: nat, m: int)
    ensures Covered(a + b, p, d, m) <==> Covered(a, p, d, m) || Covered(b, p, d, m)
    ensures HasWindows(a + b, p) <==> HasWindows(a, p) || HasWindows(b, p)
    ensures Compile(a) && Compile(b) ==> Compile(a + b)
  {
    hide Covers, WindowOk;
    var l := a + b;
    assert forall i | 0 <= i < |a| :: l[i] == a[i];
    assert forall i | 0 <= i < |b| :: l[|a| + i] == b[i];
  }

  /** A list of intervals has some minute. */
  ghost predicate Open(list: seq<Interval>)
  {
    exists i :: 0 <= i < |list| && list[i].start < list[i].end
  }

  lemma OpenHas(list: seq<Interval>)
    ensures Open(list) <==> exists m :: Has(list, m)
  {
    if i :| 0 <= i < |list| && list[i].start < list[i].end {
      assert Has(list, list[i].start);
    }
  }

  lemma {:induction false} EntriesMean(profile: string, day: nat, list: seq<Interval>, p: string, d: nat, m: int)
    requires Within(list, 0, DAY) && day < 7
    ensures Covered(EntriesOf(profile, day, list), p, d, m) <==> p == profile && d == day && Has(list, m)
    ensures HasWindows(EntriesOf(profile, day, list), p) <==> p == profile && Open(list)
    ensures profile != "" ==> Compile(EntriesOf(profile, day, list))
  {
    hide Covers, WindowOk, Covered, HasWindows;
    NothingCovered(p, d, m);
    if list != [] {
      var front, last := list[..|list| - 1], list[|list| - 1];
      assert list == front + [last];
      EntriesMean(profile, day, front, p, d, m);
      HasAppend(front, [last], m);
      HasOne(last, m);
      if last.start < last.end {
        var e := Entry(profile, day, last);
        EntryMeans(profile, day, last, d, m);
        CoveredAppend(EntriesOf(profile, day, front), [e], p, d, m);
        CoveredOne(e, p, d, m);
      } else {
        assert EntriesOf(profile, day, list) == EntriesOf(profile, day, front);
      }
    }
  }

  lemma NothingCovered(p: string, d: nat, m: int)
    ensures !Covered([], p, d, m) && !HasWindows([], p) && Compile([])
  {
  }

  lemma CoveredOne(w: Window, p: string, d: nat, m: int)
    ensures Covered([w], p, d, m) <==> w.profile == p && Covers(w, d, m)
    ensures HasWindows([w], p) <==> w.profile == p
  {
    hide Covers;
    assert [w][0] == w;
  }

  ghost predicate OpenBefore(windows: seq<Window>, bands: seq<Band>, profile: string, days: nat)
    requires days <= 7
  {
    exists d :: 0 <= d < days && Open(Left(windows, bands, profile, d))
  }

  lemma {:induction false} ForProfileMeans(
    windows: seq<Window>, bands: seq<Band>, profile: string, days: nat, p: string, d: nat, m: int)
    requires days <= 7 && d < 7
    ensures Covered(ForProfile(windows, bands, profile, days), p, d, m) <==>
      p == profile && d < days && Has(Left(windows, bands, profile, d), m)
    ensures HasWindows(ForProfile(windows, bands, profile, days), p) <==>
      p == profile && OpenBefore(windows, bands, profile, days)
    ensures profile != "" ==> Compile(ForProfile(windows, bands, profile, days))
  {
    hide Covered, HasWindows, Compile, EntriesOf, Left, Open, Has;
    NothingCovered(p, d, m);
    if days > 0 {
      var list := Left(windows, bands, profile, days - 1);
      ForProfileMeans(windows, bands, profile, days - 1, p, d, m);
      EntriesMean(profile, days - 1, list, p, d, m);
      CoveredAppend(ForProfile(windows, bands, profile, days - 1), EntriesOf(profile, days - 1, list), p, d, m);
    }
  }

  lemma {:induction false} RestrictedMeans(
    windows: seq<Window>, bands: seq<Band>, names: seq<string>, p: string, d: nat, m: int)
    requires d < 7
    ensures Covered(Restricted(windows, bands, names), p, d, m) <==>
      p in names && Has(Left(windows, bands, p, d), m)
    ensures HasWindows(Restricted(windows, bands, names), p) <==> p in names && OpenBefore(windows, bands, p, 7)
    ensures "" !in names ==> Compile(Restricted(windows, bands, names))
  {
    hide Covered, HasWindows, Compile, Left, Has, OpenBefore, ForProfile;
    NothingCovered(p, d, m);
    if names != [] {
      var front, last := names[..|names| - 1], names[|names| - 1];
      RestrictedMeans(windows, bands, front, p, d, m);
      ForProfileMeans(windows, bands, last, 7, p, d, m);
      CoveredAppend(Restricted(windows, bands, front), ForProfile(windows, bands, last, 7), p, d, m);
    }
  }

  // ---------------------------------------------------------------- the main results

  /** The answer a schedule gives: a profile without windows is always let through. */
  ghost predicate Allows(windows: seq<Window>, profile: string, d: nat, m: int)
  {
    HasWindows(windows, profile) ==> Covered(windows, profile, d, m)
  }

  /** A minute that subtraction dropped although nothing bans it. */
  ghost predicate Dropped(windows: seq<Window>, bands: seq<Band>, profile: string, d: nat, m: int)
    requires d < 7
  {
    Skipped(AllowedOn(windows, profile, d), BlockedOn(bands, d), m)
  }

  lemma LeftMeans(windows: seq<Window>, bands: seq<Band>, p: string, d: nat, m: int)
    requires d < 7
    ensures Has(Left(windows, bands, p, d), m) <==>
      OwnHours(windows, p, d, m) && !Banned(bands, d, m) && !Dropped(windows, bands, p, d, m)
  {
    hide HasWindows, OwnHours, Banned, Has, Skipped, AllowedOn, BlockedOn;
    AllowedMeans(windows, p, d, m);
    BlockedMeans(bands, d, m);
    SubtractMinutes(AllowedOn(windows, p, d), BlockedOn(bands, d), m);
  }

  /**
   A profile that keeps a window is let through exactly inside its own hours, outside every banned band,
   at the minutes subtraction did not drop.
   */
  lemma RestrictedAllows(
    windows: seq<Window>, bands: seq<Band>, names: seq<string>, p: string, d: nat, m: int)
    requires d < 7 && HasWindows(Restricted(windows, bands, names), p)
    ensures Allows(Restricted(windows, bands, names), p, d, m) <==>
      OwnHours(windows, p, d, m) && !Banned(bands, d, m) && !Dropped(windows, bands, p, d, m)
  {
    hide HasWindows, Covered, Restricted, Left, OwnHours, Banned, Has, Dropped;
    RestrictedMeans(windows, bands, names, p, d, m);
    LeftMeans(windows, bands, p, d, m);
  }

  /** Some minute of the week is in the profile's hours, not banned, and not dropped. */
  ghost predicate Remains(windows: seq<Window>, bands: seq<Band>, p: string)
  {
    exists d, m :: 0 <= d < 7 && RemainsAt(windows, bands, p, d, m)
  }

  ghost predicate RemainsAt(windows: seq<Window>, bands: seq<Band>, p: string, d: nat, m: int)
    requires d < 7
  {
    OwnHours(windows, p, d, m) && !Banned(bands, d, m) && !Dropped(windows, bands, p, d, m)
  }

  /** A profile keeps a window exactly when it is named and some minute of its week remains. */
  lemma KeepsWindowIff(windows: seq<Window>, bands: seq<Band>, names: seq<string>, p: string)
    ensures HasWindows(Restricted(windows, bands, names), p) <==> p in names && Remains(windows, bands, p)
  {
    hide Restricted, OwnHours, Banned, Dropped, Has, Left, Open, HasWindows;
    RestrictedMeans(windows, bands, names, p, 0, 0);
    forall d, m | 0 <= d < 7
      ensures Has(Left(windows, bands, p, d), m) <==> RemainsAt(windows, bands, p, d, m)
    {
      LeftMeans(windows, bands, p, d, m);
    }
    forall d | 0 <= d < 7
      ensures Open(Left(windows, bands, p, d)) <==> exists m :: RemainsAt(windows, bands, p, d, m)
    {
      OpenHas(Left(windows, bands, p, d));
    }
  }

  /** The bands hold for a profile exactly when it is named and some minute of its week remains, or nothing is banned at all. */
  lemma BansHoldIff(windows: seq<Window>, bands: seq<Band>, names: seq<string>, p: string)
    ensures (forall d, m | 0 <= d < 7 && Banned(bands, d, m) :: !Allows(Restricted(windows, bands, names), p, d, m))
      <==> (p in names && Remains(windows, bands, p)) || forall d, m | 0 <= d < 7 :: !Banned(bands, d, m)
  {
    hide Restricted, Banned, HasWindows, Remains;
    KeepsWindowIff(windows, bands, names, p);
    if HasWindows(Restricted(windows, bands, names), p) {
      forall d, m | 0 <= d < 7 && Banned(bands, d, m)
        ensures !Allows(Restricted(windows, bands, names), p, d, m)
      {
        RestrictedAllows(windows, bands, names, p, d, m);
      }
    }
  }

  /** When every minute of a profile's hours is banned, the profile keeps no window and is let through always. */
  lemma FullBanOpens(windows: seq<Window>, bands: seq<Band>, names: seq<string>, p: string, d: nat, m: int)
    requires forall e, n | 0 <= e < 7 && OwnHours(windows, p, e, n) :: Banned(bands, e, n)
    ensures !HasWindows(Restricted(windows, bands, names), p)
    ensures Allows(Restricted(windows, bands, names), p, d, m)
  {
    hide Restricted, Banned, OwnHours, HasWindows, Dropped;
    KeepsWindowIff(windows, bands, names, p);
  }

  /** A band at the same hours every day of the week. */
  function Daily(start: nat, end: nat): Band
    requires start < DAY && end <= DAY
  {
    Band([true, true, true, true, true, true, true], start, end)
  }

  /** For example: one band over the whole week, and the default profile is let through at every minute. */
  lemma WholeWeekBannedYetOpen(d: nat, m: int)
    requires d < 7 && 0 <= m < DAY
    ensures var bands := [Daily(0, DAY)];
      Banned(bands, d, m) && Allows(Restricted([], bands, ["default"]), "default", d, m)
  {
    hide Restricted;
    var band := Daily(0, DAY);
    forall e, n | 0 <= e < 7 && 0 <= n < DAY
      ensures Banned([band], e, n)
    {
      assert BannedBy([band][0], e, n);
    }
    FullBanOpens([], [band], ["default"], "default", d, m);
  }

  lemma DailyBlocks(a: Band, b: Band, c: Band, d: nat)
    requires d < 7 && forall e | 0 <= e < 7 :: a.days[e] && b.days[e] && c.days[e]
    requires a.start < a.end <= DAY && b.start < b.end <= DAY && c.start < c.end <= DAY
    ensures BlockedOn([a, b, c], d) == [Interval(a.start, a.end), Interval(b.start, b.end), Interval(c.start, c.end)]
  {
    var bands := [a, b, c];
    assert bands[..2] == [a, b] && [a, b][..1] == [a] && [a][..0] == [];
    assert BlockedOn([a], d) == [Interval(a.start, a.end)];
    assert BlockedOn([a, b], d) == [Interval(a.start, a.end), Interval(b.start, b.end)];
  }

  /**
   Nor does it take a full ban: with lunch, then the morning break, then the morning banned, nothing is left although
   nothing bans the afternoon, and the profile is let through in the morning too.
   */
  lemma MorningBannedYetOpen(d: nat, m: int)
    requires d < 7
    ensures var bands := [Daily(720, 780), Daily(480, 540), Daily(0, 720)];
      && (0 <= m < 720 ==> Banned(bands, d, m)) && (780 <= m ==> !Banned(bands, d, m))
      && Allows(Restricted([], bands, ["default"]), "default", d, m)
  {
    hide Restricted, Subtracted, HasWindows;
    var bands := [Daily(720, 780), Daily(480, 540), Daily(0, 720)];
    assert 0 <= m < 720 ==> BannedBy(bands[2], d, m);
    forall e, n | 0 <= e < 7
      ensures !RemainsAt([], bands, "default", e, n)
    {
      LeftMeans([], bands, "default", e, n);
      DailyBlocks(bands[0], bands[1], bands[2], e);
      DayLost(n);
      NothingCovered("default", e, n);
    }
    KeepsWindowIff([], bands, ["default"], "default");
  }

  // ---------------------------------------------------------------- the loops

  ghost predicate Named(profiles: seq<string>, name: string)
  {
    exists i :: 0 <= i < |profiles| && TrimSpace(profiles[i]) == name
  }

  /** The trimmed, non-empty names among some profiles. */
  method AddNames(profiles: seq<string>, before: seq<string>) returns (names: seq<string>)
    ensures forall n :: n in names <==> n in before || (n != "" && Named(profiles, n))
  {
    names := before;
    for k := 0 to |profiles|
      invariant forall n :: n in names <==> n in before || (n != "" && Named(profiles[..k], n))
    {
      var profile := TrimSpace(profiles[k]);
      if profile != "" && profile !in names {
        names := names + [profile];
      }
    }
  }

  /** A profile the restriction writes windows for. */
  ghost predicate IsName(windows: seq<Window>, profiles: seq<string>, n: string)
  {
    n != "" && (Named(profiles, n) || Named(ProfilesOf(windows), n))
  }

  function ProfilesOf(windows: seq<Window>): seq<string>
  {
    seq(|windows|, i requires 0 <= i < |windows| => windows[i].profile)
  }

  method ProfileNames(windows: seq<Window>, profiles: seq<string>) returns (names: seq<string>)
    ensures (exists n :: IsName(windows, profiles, n)) ==> forall n :: n in names <==> IsName(windows, profiles, n)
    ensures (forall n :: !IsName(windows, profiles, n)) ==> names == ["default"]
    ensures "" !in names
  {
    hide Named;
    names := AddNames(profiles, []);
    names := AddNames(ProfilesOf(windows), names);
    assert forall n :: n in names <==> IsName(windows, profiles, n);
    if names == [] {
      names := ["default"];
    } else {
      assert IsName(windows, profiles, names[0]);
    }
  }

  method EmitDay(profile: string, day: nat, list: seq<Interval>, before: seq<Window>) returns (out: seq<Window>)
    requires forall i | 0 <= i < |list| :: 0 <= list[i].start
    ensures out == before + EntriesOf(profile, day, list)
  {
    out := before;
    for k := 0 to |list|
      invariant out == before + EntriesOf(profile, day, list[..k])
    {
      assert list[..k + 1][..k] == list[..k];
      if list[k].start < list[k].end {
        out := out + [Entry(profile, day, list[k])];
      }
    }
    assert list[..|list|] == list;
  }

  lemma LeftIs(windows: seq<Window>, bands: seq<Band>, profile: string, d: nat)
    requires d < 7
    ensures Left(windows, bands, profile, d) == Subtracted(AllowedOn(windows, profile, d), BlockedOn(bands, d))
  {
  }

  method EmitProfile(windows: seq<Window>, bands: seq<Band>, profile: string, before: seq<Window>,
                     allowed: Intervals7, blocked: Intervals7) returns (out: seq<Window>)
    requires forall d | 0 <= d < 7 :: allowed[d] == AllowedOn(windows, profile, d)
    requires forall d | 0 <= d < 7 :: blocked[d] == BlockedOn(bands, d)
    ensures out == before + ForProfile(windows, bands, profile, 7)
  {
    hide EntriesOf, Left, AllowedOn, BlockedOn, Subtracted;
    out := before;
    for day := 0 to 7
      invariant out == before + ForProfile(windows, bands, profile, day)
    {
      var list := SubtractIntervals(allowed[day], blocked[day]);
      LeftIs(windows, bands, profile, day);
      out := EmitDay(profile, day, list, out);
    }
  }

  method RestrictByTimeBands(windows: seq<Window>, profiles: seq<string>, bands: seq<Band>)
    returns (r: Option<seq<Window>>, names: seq<string>)
    ensures (exists n :: IsName(windows, profiles, n)) ==> forall n :: n in names <==> IsName(windows, profiles, n)
    ensures (forall n :: !IsName(windows, profiles, n)) ==> names == ["default"]
    ensures r.Some? <==> forall n | n in names :: ProfileOk(windows, n)
    ensures r.Some? ==> r.value == Restricted(windows, bands, names) && Compile(r.value)
  {
    hide ForProfile, IsName, ProfileOk, Compile, AllowedOn, BlockedOn;
    names := ProfileNames(windows, profiles);
    var blocked := BlockedIntervalsByDay(bands);
    var out := [];
    for k := 0 to |names|
      invariant out == Restricted(windows, bands, names[..k])
      invariant forall n | n in names[..k] :: ProfileOk(windows, n)
    {
      assert names[..k + 1][..k] == names[..k];
      var allowed := AllowedIntervalsByDay(names[k], windows);
      if allowed.None? {
        return None, names;
      }
      out := EmitProfile(windows, bands, names[k], out, allowed.value, blocked);
    }
    assert names[..|names|] == names;
    RestrictedMeans(windows, bands, names, "", 0, 0);
    r := Some(out);
  }

  // ---------------------------------------------------------------- the compiled schedule

  datatype Rule = Rule(days: Week, start: int, end: int)

  type Rules = map<string, seq<Rule>>

  predicate RuleCovers(rule: Rule, d: nat, m: int)
    requires d < 7
  {
    rule.days[d] && rule.start <= m < rule.end
  }

  ghost predicate RulesCover(rules: seq<Rule>, d: nat, m: int)
    requires d < 7
  {
    exists k :: 0 <= k < |rules| && RuleCovers(rules[k], d, m)
  }

  /** The compiled rules say what the windows say. */
  ghost predicate Represents(rules: Rules, windows: seq<Window>)
  {
    && (forall p :: p in rules <==> HasWindows(windows, p))
    && (forall p | p in rules :: rules[p] != [])
    && (forall p, d, m | p in rules && 0 <= d < 7 :: RulesCover(rules[p], d, m) <==> Covered(windows, p, d, m))
  }

  method CompileWindow(window: Window) returns (r: Option<Rule>)
    ensures r.Some? <==> WindowOk(window)
    ensures r.Some? ==> forall d, m | 0 <= d < 7 :: RuleCovers(r.value, d, m) <==> Covers(window, d, m)
  {
    hide ParseClock, OnDay;
    var days := WindowDays(window.days);
    if days.None? {
      return None;
    }
    var start, end := ParseClock(window.start), ParseClock(window.end);
    if start.None? || end.None? || end.value <= start.value {
      return None;
    }
    r := Some(Rule(days.value, start.value, end.value));
  }

  lemma AddRule(rules: Rules, windows: seq<Window>, w: Window, rule: Rule, longer: Rules)
    requires Represents(rules, windows)
    requires forall d, m | 0 <= d < 7 :: RuleCovers(rule, d, m) <==> Covers(w, d, m)
    requires longer == rules[w.profile := (if w.profile in rules then rules[w.profile] else []) + [rule]]
    ensures Represents(longer, windows + [w])
  {
    hide Covered, Covers, HasWindows, RuleCovers, RulesCover;
    forall p
      ensures p in longer <==> HasWindows(windows + [w], p)
    {
      CoveredAppend(windows, [w], p, 0, 0);
      CoveredOne(w, p, 0, 0);
    }
    forall p, d, m | p in longer && 0 <= d < 7
      ensures RulesCover(longer[p], d, m) <==> Covered(windows + [w], p, d, m)
    {
      CoveredAppend(windows, [w], p, d, m);
      CoveredOne(w, p, d, m);
      RulesCoverSnoc(if p in rules then rules[p] else [], rule, d, m);
      NoRules(windows, p, d, m);
    }
  }

  lemma RulesCoverSnoc(rules: seq<Rule>, rule: Rule, d: nat, m: int)
    requires d < 7
    ensures RulesCover(rules + [rule], d, m) <==> RulesCover(rules, d, m) || RuleCovers(rule, d, m)
    ensures !RulesCover([], d, m)
  {
    hide RuleCovers;
    var l := rules + [rule];
    assert l[|rules|] == rule && forall i | 0 <= i < |rules| :: l[i] == rules[i];
  }

  lemma NoRules(windows: seq<Window>, p: string, d: nat, m: int)
    ensures !HasWindows(windows, p) ==> !Covered(windows, p, d, m)
  {
  }

  method NewScheduleRules(windows: seq<Window>) returns (r: Option<Rules>)
    ensures r.Some? <==> Compile(windows)
    ensures r.Some? ==> Represents(r.value, windows)
  {
    hide WindowOk, Represents;
    var rules: Rules := map[];
    NoWindows();
    for k := 0 to |windows|
      invariant Compile(windows[..k]) && Represents(rules, windows[..k])
    {
      var window := windows[k];
      if window.profile == "" {
        return None;
      }
      var rule := CompileWindow(window);
      if rule.None? {
        return None;
      }
      ghost var before := rules;
      rules := rules[window.profile := (if window.profile in rules then rules[window.profile] else []) + [rule.value]];
      AddRule(before, windows[..k], window, rule.value, rules);
      assert windows[..k + 1] == windows[..k] + [window];
    }
    assert windows[..|windows|] == windows;
    r := Some(rules);
  }

  lemma NoWindows()
    ensures Represents(map[], [])
  {
  }

  method Allowed(rules: Rules, profile: string, day: nat, minute: int) returns (ok: bool)
    requires day < 7
    ensures forall windows | Represents(rules, windows) :: ok <==> Allows(windows, profile, day, minute)
  {
    if profile !in rules || rules[profile] == [] {
      return true;
    }
    var list := rules[profile];
    for k := 0 to |list|
      invariant forall i | 0 <= i < k :: !RuleCovers(list[i], day, minute)
    {
      if list[k].days[day] && list[k].start <= minute < list[k].end {
        return true;
      }
    }
    return false;
  }

  /** The two together: with bands, a schedule that can be restricted always compiles. */
  method LoadSchedule(windows: seq<Window>, profiles: seq<string>, bands: seq<Band>)
    returns (r: Option<Rules>, names: seq<string>)
    ensures bands == [] ==> (r.Some? <==> Compile(windows))
    ensures bands == [] && r.Some? ==> Represents(r.value, windows)
    ensures bands != [] ==> (r.Some? <==> forall n | n in names :: ProfileOk(windows, n))
    ensures bands != [] && r.Some? ==> Represents(r.value, Restricted(windows, bands, names))
  {
    hide Represents, Restricted, Compile, ProfileOk;
    names := [];
    var kept := windows;
    if bands != [] {
      var restricted;
      restricted, names := RestrictByTimeBands(windows, profiles, bands);
      if restricted.None? {
        return None, names;
      }
      kept := restricted.value;
    }
    r := NewScheduleRules(kept);
  }
}
