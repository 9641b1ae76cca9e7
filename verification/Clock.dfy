/**
 The text forms a schedule is written in: "HH:MM" clocks and weekday names (rules.go, proxy/schedule_rules.go).
 Restricted schedules are printed and then parsed again, so the two directions must agree.
 */
module Clock {

  import opened Options

  const DAY := 1440

  predicate IsSpace(c: char)
  {
    c in " \t\n\r" || c == 11 as char || c == 12 as char || c == 0x85 as char || c == 0xA0 as char
  }

  function TrimLeft(s: string): (r: string)
  {
    if s != [] && IsSpace(s[0]) then TrimLeft(s[1..]) else s
  }

  function TrimRight(s: string): (r: string)
  {
    if s != [] && IsSpace(s[|s| - 1]) then TrimRight(s[..|s| - 1]) else s
  }

  function TrimSpace(s: string): string
  {
    TrimRight(TrimLeft(s))
  }

  /** The text before and after the first separator. */
  function Cut(s: string, sep: char): Option<(string, string)>
  {
    if s == [] then None
    else if s[0] == sep then Some(("", s[1..]))
    else
      match Cut(s[1..], sep)
      case None => None
      case Some(parts) => Some(([s[0]] + parts.0, parts.1))
  }

  predicate IsDigit(c: char)
  {
    '0' <= c <= '9'
  }

  function Number(s: string): (r: Option<nat>)
  {
    if s == [] || !IsDigit(s[|s| - 1]) then None
    else
      var digit: nat := s[|s| - 1] as int - '0' as int;
      if |s| == 1 then Some(digit)
      else
        match Number(s[..|s| - 1])
        case None => None
        case Some(n) => Some(10 * n + digit)
  }

  /** A decimal number with an optional sign. */
  function Atoi(s: string): Option<int>
  {
    if s != [] && (s[0] == '-' || s[0] == '+') then
      match Number(s[1..])
      case None => None
      case Some(n) => var m: int := n; Some(if s[0] == '-' then -m else m)
    else
      match Number(s)
      case None => None
      case Some(n) => Some(n)
  }

  function ParseClock(text: string): (r: Option<nat>)
    ensures r.Some? ==> r.value <= DAY
  {
    match Cut(TrimSpace(text), ':')
    case None => None
    case Some((hourText, minuteText)) =>
      match (Atoi(hourText), Atoi(minuteText))
      case (Some(hour), Some(minute)) =>
        if hour == 24 && minute == 0 then Some(DAY)
        else if hour < 0 || hour > 23 || minute < 0 || minute > 59 then None
        else Some(hour * 60 + minute)
      case _ => None
  }

  function Digit(n: nat): (c: char)
    requires n < 10
    ensures IsDigit(c) && c as int - '0' as int == n
  {
    ('0' as int + n) as char
  }

  function TwoDigits(n: nat): string
    requires n < 100
  {
    [Digit(n / 10), Digit(n % 10)]
  }

  function MinuteClock(minute: nat): string
  {
    if minute >= DAY then "24:00" else TwoDigits(minute / 60) + ":" + TwoDigits(minute % 60)
  }

  lemma AtoiTwoDigits(n: nat)
    requires n < 100
    ensures Atoi(TwoDigits(n)) == Some(n)
  {
    var s := TwoDigits(n);
    assert Number(s[..1]) == Some(n / 10);
  }

  lemma {:induction false} CutAtFirst(before: string, sep: char, after: string)
    requires sep !in before
    ensures Cut(before + [sep] + after, sep) == Some((before, after))
  {
    var s := before + [sep] + after;
    if before == [] {
    } else {
      assert s[1..] == before[1..] + [sep] + after;
      CutAtFirst(before[1..], sep, after);
      assert [s[0]] + before[1..] == before;
    }
  }

  lemma TrimNone(text: string)
    requires text != [] && !IsSpace(text[0]) && !IsSpace(text[|text| - 1])
    ensures TrimSpace(text) == text
  {
  }

  /** Printing a minute of the day and parsing it again gives the minute back. */
  lemma ClockRoundTrip(minute: nat)
    requires minute <= DAY
    ensures ParseClock(MinuteClock(minute)) == Some(minute)
  {
    hide TrimSpace, Cut, Atoi;
    var hour, rest := if minute == DAY then 24 else minute / 60, minute % 60;
    var h, m := TwoDigits(hour), TwoDigits(rest);
    var text := MinuteClock(minute);
    assert text == h + [':'] + m && text[0] == h[0] && text[|text| - 1] == m[1];
    TrimNone(text);
    CutAtFirst(h, ':', m);
    AtoiTwoDigits(hour);
    AtoiTwoDigits(rest);
  }

  /** A number in decimal, without leading zeros. */
  function Decimal(n: nat): (s: string)
    ensures s != [] && forall i | 0 <= i < |s| :: IsDigit(s[i])
  {
    if n < 10 then [Digit(n)] else Decimal(n / 10) + [Digit(n % 10)]
  }

  lemma {:induction false} NumberDecimal(n: nat)
    ensures Number(Decimal(n)) == Some(n) && Atoi(Decimal(n)) == Some(n)
  {
    if n >= 10 {
      NumberDecimal(n / 10);
      var s := Decimal(n);
      assert s[..|s| - 1] == Decimal(n / 10);
    }
  }

  /** White space is the ASCII kind and the two Latin-1 ones; trimming takes it off both ends and nothing else. */
  lemma {:induction false} TrimMeans(a: string, t: string, b: string)
    requires forall i | 0 <= i < |a| :: a[i] in " \t\n\r" || a[i] as int in {11, 12, 0x85, 0xA0}
    requires forall i | 0 <= i < |b| :: b[i] in " \t\n\r" || b[i] as int in {11, 12, 0x85, 0xA0}
    requires t == [] || (!IsSpace(t[0]) && !IsSpace(t[|t| - 1]))
    ensures TrimSpace(a + t + b) == t
  {
    hide TrimRight, TrimLeft;
    TrimFront(a, t + b);
    assert a + t + b == a + (t + b);
    if t == [] {
      assert t + b == b == b + [];
      TrimFront(b, []);
      TrimEmpty();
    } else {
      TrimLeftStop(t + b);
      TrimBack(t, b);
    }
  }

  lemma TrimEmpty()
    ensures TrimLeft([]) == [] && TrimRight([]) == []
  {
  }

  lemma TrimLeftStop(s: string)
    requires s != [] && !IsSpace(s[0])
    ensures TrimLeft(s) == s
  {
  }

  lemma {:induction false} TrimFront(a: string, s: string)
    requires forall i | 0 <= i < |a| :: IsSpace(a[i])
    ensures TrimLeft(a + s) == TrimLeft(s)
  {
    if a == [] {
      assert a + s == s;
    } else {
      assert (a + s)[1..] == a[1..] + s;
      TrimFront(a[1..], s);
    }
  }

  lemma {:induction false} TrimBack(t: string, b: string)
    requires t != [] && !IsSpace(t[|t| - 1]) && forall i | 0 <= i < |b| :: IsSpace(b[i])
    ensures TrimRight(t + b) == t
  {
    if b == [] {
      assert t + b == t;
    } else {
      var n := |b| - 1;
      assert (t + b)[..|t + b| - 1] == t + b[..n];
      TrimBack(t, b[..n]);
    }
  }

  /** Hours and minutes as they are written, padded or not: a time of day, the end of the day, or nothing. */
  lemma ClockMeans(hour: nat, minute: nat)
    ensures ParseClock(Decimal(hour) + ":" + Decimal(minute)) ==
      if hour == 24 && minute == 0 then Some(DAY) else if hour < 24 && minute < 60 then Some(60 * hour + minute) else None
  {
    hide Cut, Atoi, Number, TrimSpace;
    var h, m := Decimal(hour), Decimal(minute);
    var text := h + ":" + m;
    assert text == h + [':'] + m;
    assert text[0] == h[0] && text[|text| - 1] == m[|m| - 1];
    TrimNone(text);
    CutAtFirst(h, ':', m);
    NumberDecimal(hour);
    NumberDecimal(minute);
  }

  // ---------------------------------------------------------------- weekdays, Sunday being 0

  function ToLower(s: string): (r: string)
    ensures |r| == |s|
  {
    seq(|s|, i requires 0 <= i < |s| => if 'A' <= s[i] <= 'Z' then (s[i] as int + 32) as char else s[i])
  }

  function Weekday(text: string): (r: Option<nat>)
    ensures r.Some? ==> r.value < 7
  {
    var name := ToLower(TrimSpace(text));
    if name in ["sun", "sunday"] then Some(0)
    else if name in ["mon", "monday"] then Some(1)
    else if name in ["tue", "tues", "tuesday"] then Some(2)
    else if name in ["wed", "wednesday"] then Some(3)
    else if name in ["thu", "thur", "thurs", "thursday"] then Some(4)
    else if name in ["fri", "friday"] then Some(5)
    else if name in ["sat", "saturday"] then Some(6)
    else None
  }

  function WeekdayName(day: nat): string
  {
    if day < 7 then ["sun", "mon", "tue", "wed", "thu", "fri", "sat"][day] else ""
  }

  lemma WeekdayRoundTrip(day: nat)
    requires day < 7
    ensures Weekday(WeekdayName(day)) == Some(day)
  {
    hide ToLower, TrimSpace;
    LowerStays(WeekdayName(day));
  }

  lemma LowerStays(s: string)
    requires s != [] && forall i | 0 <= i < |s| :: 'a' <= s[i] <= 'z'
    ensures ToLower(TrimSpace(s)) == s
  {
  }

  const FULL := ["sunday", "monday", "tuesday", "wednesday", "thursday", "friday", "saturday"]
  const SHORT := ["sun", "mon", "tue", "wed", "thu", "fri", "sat"]

  /** Names in full or of three letters, and the three longer short forms; nothing else is a weekday. */
  lemma WeekdayMeans(text: string, day: nat)
    requires day < 7
    ensures Weekday(text) == Some(day) <==>
      var name := ToLower(TrimSpace(text));
      || name == FULL[day] || name == SHORT[day]
      || (day == 2 && name == "tues") || (day == 4 && (name == "thur" || name == "thurs"))
  {
    hide ToLower, TrimSpace;
    NamesApart(ToLower(TrimSpace(text)));
  }

  /** No two of the names are the same. */
  lemma NamesApart(name: string)
    ensures forall d, e | 0 <= d < e < 7 :: !(name == FULL[d] && name == FULL[e]) && !(name == SHORT[d] && name == SHORT[e])
    ensures forall d, e | 0 <= d < 7 && 0 <= e < 7 :: !(name == FULL[d] && name == SHORT[e])
  {
    assert |name| >= 3 ==> name == [name[0], name[1], name[2]] + name[3..];
  }
}
