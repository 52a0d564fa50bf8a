/** Weekly schedules: their validation in place and the test whether one is in effect
    (policy.go:36-47, 152-157, 235-259, 359-400). A time is a weekday (0 is Sunday) and a minute. */
module Schedule {
  import opened Common

  datatype Window = Window(days: seq<string>, from: string, to: string)

  const DAYS: seq<string> := ["sun", "mon", "tue", "wed", "thu", "fri", "sat"]
  const WEEK: string := "mon tue wed thu fri sat sun"

  // ------------------------------------------------------------------ HH:MM

  predicate Digit(c: char) { '0' <= c <= '9' }

  function DigitOf(c: char): int
    requires Digit(c)
  {
    c as int - '0' as int
  }

  /** ^([01]\d|2[0-3]):[0-5]\d$ */
  predicate IsTime(s: string) {
    && |s| == 5 && s[2] == ':'
    && Digit(s[0]) && Digit(s[1]) && Digit(s[3]) && Digit(s[4])
    && (s[0] <= '1' || (s[0] == '2' && s[1] <= '3')) && s[3] <= '5'
  }

  function Minutes(s: string): (m: int)
    requires IsTime(s)
    ensures 0 <= m < 1440
  {
    600 * DigitOf(s[0]) + 60 * DigitOf(s[1]) + 10 * DigitOf(s[3]) + DigitOf(s[4])
  }

  function DigitChar(d: int): char
    requires 0 <= d < 10
  {
    '0' + d as char
  }

  /** Format("15:04") of a minute of the day. */
  function Format(m: int): (s: string)
    requires 0 <= m < 1440
    ensures IsTime(s) && Minutes(s) == m
  {
    var hour, minute := m / 60, m % 60;
    [DigitChar(hour / 10), DigitChar(hour % 10), ':', DigitChar(minute / 10), DigitChar(minute % 10)]
  }

  lemma StrLessHead(a: string, b: string)
    requires a != "" && b != ""
    ensures StrLess(a, b) <==> a[0] < b[0] || (a[0] == b[0] && StrLess(a[1..], b[1..]))
  {
  }

  lemma StrLessFive(a: string, b: string)
    requires |a| == |b| == 5
    ensures StrLess(a, b) <==>
      || a[0] < b[0]
      || (a[0] == b[0] && (a[1] < b[1]
      || (a[1] == b[1] && (a[2] < b[2]
      || (a[2] == b[2] && (a[3] < b[3]
      || (a[3] == b[3] && a[4] < b[4])))))))
  {
    StrLessHead(a, b);
    StrLessHead(a[1..], b[1..]);
    assert a[1..][1..] == a[2..] && b[1..][1..] == b[2..];
    StrLessHead(a[2..], b[2..]);
    assert a[2..][1..] == a[3..] && b[2..][1..] == b[3..];
    StrLessHead(a[3..], b[3..]);
    assert a[3..][1..] == a[4..] && b[3..][1..] == b[4..];
    StrLessHead(a[4..], b[4..]);
    assert a[4..][1..] == "" && b[4..][1..] == "";
  }

  /** Comparing two times as strings is comparing their minutes. */
  lemma TimesCompareAsMinutes(a: string, b: string)
    requires IsTime(a) && IsTime(b)
    ensures StrLess(a, b) <==> Minutes(a) < Minutes(b)
  {
    StrLessFive(a, b);
  }

  // -------------------------------------------------------------- in effect?

  predicate DayIn(days: seq<string>, d: string) { days == [] || d in days }

  /** One window of the loop in Active (policy.go:381-397). */
  predicate WindowActive(w: Window, day: string, yday: string, hm: string) {
    if StrLess(w.from, w.to) then DayIn(w.days, day) && !StrLess(hm, w.from) && StrLess(hm, w.to)
    else
      || (DayIn(w.days, day) && !StrLess(hm, w.from))
      || (DayIn(w.days, yday) && StrLess(hm, w.to))
  }

  predicate AnyActive(ws: seq<Window>, day: string, yday: string, hm: string) {
    exists i :: 0 <= i < |ws| && WindowActive(ws[i], day, yday, hm)
  }

  /** Whether a schedule is in effect on a weekday at a minute; no schedule means always. */
  predicate Active(schedules: map<string, seq<Window>>, name: string, weekday: int, minute: int)
    requires 0 <= weekday < 7 && 0 <= minute < 1440
  {
    name == "" || (name in schedules
                   && AnyActive(schedules[name], DAYS[weekday], DAYS[(weekday + 6) % 7], Format(minute)))
  }

  /** Length of a window: to the end time of the same or the next day, a whole day when they are equal. */
  function Length(w: Window): int
    requires IsTime(w.from) && IsTime(w.to)
  {
    var l := (Minutes(w.to) - Minutes(w.from)) % 1440;
    if l == 0 then 1440 else l
  }

  /** The minute of the week lies in the window started on some allowed day; the week wraps around. */
  ghost predicate Covers(w: Window, weekday: int, minute: int)
    requires IsTime(w.from) && IsTime(w.to)
  {
    exists d, t :: StartsAndRuns(w, d, t) && (t == weekday * 1440 + minute || t == weekday * 1440 + minute + 10080)
  }

  predicate StartsAndRuns(w: Window, d: int, t: int)
    requires IsTime(w.from) && IsTime(w.to)
  {
    && 0 <= d < 7 && DayIn(w.days, DAYS[d])
    && d * 1440 + Minutes(w.from) <= t < d * 1440 + Minutes(w.from) + Length(w)
  }

  /** The string comparisons of one window, in minutes. */
  predicate ActiveInMinutes(a: int, b: int, minute: int, today: bool, yesterday: bool) {
    if a < b then today && a <= minute < b
    else (today && a <= minute) || (yesterday && minute < b)
  }

  lemma WindowInMinutes(w: Window, day: string, yday: string, minute: int)
    requires IsTime(w.from) && IsTime(w.to) && 0 <= minute < 1440
    ensures WindowActive(w, day, yday, Format(minute)) <==>
            ActiveInMinutes(Minutes(w.from), Minutes(w.to), minute, DayIn(w.days, day), DayIn(w.days, yday))
  {
    TimesCompareAsMinutes(w.from, w.to);
    TimesCompareAsMinutes(Format(minute), w.from);
    TimesCompareAsMinutes(Format(minute), w.to);
  }

  lemma LengthInMinutes(w: Window)
    requires IsTime(w.from) && IsTime(w.to)
    ensures Length(w) == Minutes(w.to) - Minutes(w.from) + if Minutes(w.from) < Minutes(w.to) then 0 else 1440
  {
  }

  lemma ActiveIsCovered(w: Window, weekday: int, minute: int)
    requires IsTime(w.from) && IsTime(w.to) && 0 <= weekday < 7 && 0 <= minute < 1440
    requires var yd := (weekday + 6) % 7; ActiveInMinutes(Minutes(w.from), Minutes(w.to), minute,
               DayIn(w.days, DAYS[weekday]), DayIn(w.days, DAYS[yd]))
    ensures Covers(w, weekday, minute)
  {
    var a, b, t := Minutes(w.from), Minutes(w.to), weekday * 1440 + minute;
    LengthInMinutes(w);
    if DayIn(w.days, DAYS[weekday]) && a <= minute {
      assert StartsAndRuns(w, weekday, t);
    } else if weekday == 0 {
      assert StartsAndRuns(w, 6, t + 10080);
    } else {
      assert StartsAndRuns(w, weekday - 1, t);
    }
  }

  /** A window of at most a day that runs at minute t of the week started on that day or the day before. */
  lemma StartedTodayOrYesterday(d: int, a: int, len: int, weekday: int, minute: int, u: int)
    requires 0 <= d < 7 && 0 <= weekday < 7 && 0 <= minute < 1440 && 0 <= a < 1440 && 0 < len <= 1440
    requires d * 1440 + a <= u < d * 1440 + a + len
    requires u == weekday * 1440 + minute || u == weekday * 1440 + minute + 10080
    ensures (d == weekday && a <= minute < a + len) || (d == (weekday + 6) % 7 && minute + 1440 < a + len)
  {
    if u == weekday * 1440 + minute {
      assert d == weekday || d == weekday - 1;
    } else {
      assert d == 6 && weekday == 0;
    }
  }

  lemma CoveredIsActive(w: Window, weekday: int, minute: int)
    requires IsTime(w.from) && IsTime(w.to) && 0 <= weekday < 7 && 0 <= minute < 1440
    requires Covers(w, weekday, minute)
    ensures var yd := (weekday + 6) % 7; ActiveInMinutes(Minutes(w.from), Minutes(w.to), minute,
              DayIn(w.days, DAYS[weekday]), DayIn(w.days, DAYS[yd]))
  {
    var t := weekday * 1440 + minute;
    LengthInMinutes(w);
    var d, u :| StartsAndRuns(w, d, u) && (u == t || u == t + 10080);
    StartedTodayOrYesterday(d, Minutes(w.from), Length(w), weekday, minute, u);
  }

  /** A window is active exactly when the minute of the week lies in the interval it opens. */
  lemma WindowMeansInterval(w: Window, weekday: int, minute: int)
    requires IsTime(w.from) && IsTime(w.to) && 0 <= weekday < 7 && 0 <= minute < 1440
    ensures WindowActive(w, DAYS[weekday], DAYS[(weekday + 6) % 7], Format(minute)) <==> Covers(w, weekday, minute)
  {
    WindowInMinutes(w, DAYS[weekday], DAYS[(weekday + 6) % 7], minute);
    if WindowActive(w, DAYS[weekday], DAYS[(weekday + 6) % 7], Format(minute)) {
      ActiveIsCovered(w, weekday, minute);
    }
    if Covers(w, weekday, minute) {
      CoveredIsActive(w, weekday, minute);
    }
  }

  // -------------------------------------------------------------- validation

  function NormalDay(day: string): string { Lower(if |day| < 3 then day else day[..3]) }

  predicate DayOk(day: string) { Contains(WEEK, NormalDay(day)) && |NormalDay(day)| == 3 }

  function NormalDays(days: seq<string>): (r: seq<string>)
    ensures |r| == |days| && forall i :: 0 <= i < |days| ==> r[i] == NormalDay(days[i])
  {
    seq(|days|, i requires 0 <= i < |days| => NormalDay(days[i]))
  }

  function Normal(w: Window): Window { w.(days := NormalDays(w.days)) }

  predicate WindowOk(w: Window) {
    IsTime(w.from) && IsTime(w.to) && forall d :: d in w.days ==> DayOk(d)
  }

  predicate NameChar(c: char) {
    Digit(c) || 'A' <= c <= 'Z' || 'a' <= c <= 'z' || c == ' ' || c == '.' || c == '_' || c == '-'
  }

  /** ^[A-Za-z0-9][A-Za-z0-9 ._-]{0,63}$ */
  predicate IsName(s: string) {
    && 1 <= |s| <= 64 && (forall c :: c in s ==> NameChar(c))
    && s[0] != ' ' && s[0] != '.' && s[0] != '_' && s[0] != '-'
  }

  predicate ScheduleOk(name: string, ws: seq<Window>) {
    IsName(name) && ws != [] && forall w :: w in ws ==> WindowOk(w)
  }

  /** What an aborted validation may leave: some days normalised, nothing else touched. */
  predicate Touched(was: Window, now: Window) {
    && now.from == was.from && now.to == was.to && |now.days| == |was.days|
    && forall i :: 0 <= i < |was.days| ==> now.days[i] == was.days[i] || now.days[i] == NormalDay(was.days[i])
  }

  predicate AllTouched(was: seq<Window>, now: seq<Window>) {
    |now| == |was| && forall i :: 0 <= i < |was| ==> Touched(was[i], now[i])
  }

  predicate AllNormal(was: seq<Window>, now: seq<Window>) {
    |now| == |was| && forall i :: 0 <= i < |was| ==> now[i] == Normal(was[i])
  }

  class PolicyDoc {
    var schedules: map<string, seq<Window>>

    constructor (schedules: map<string, seq<Window>>)
      ensures this.schedules == schedules
    {
      this.schedules := schedules;
    }

    /** The schedule part of Validate: checks every window and shortens its days in place. */
    method ValidateSchedules() returns (ok: bool)
      modifies this
      ensures ok <==> forall n :: n in old(schedules) ==> ScheduleOk(n, old(schedules)[n])
      ensures schedules.Keys == old(schedules).Keys
      ensures ok ==> forall n :: n in schedules ==> AllNormal(old(schedules)[n], schedules[n])
      ensures !ok ==> forall n :: n in schedules ==> AllTouched(old(schedules)[n], schedules[n])
    {
      var left := schedules.Keys;
      while left != {}
        invariant left <= schedules.Keys == old(schedules).Keys
        invariant forall n :: n in left ==> schedules[n] == old(schedules)[n]
        invariant forall n :: n in schedules.Keys - left ==>
                    ScheduleOk(n, old(schedules)[n]) && AllNormal(old(schedules)[n], schedules[n])
        decreases left
      {
        var n :| n in left;
        if !IsName(n) || |schedules[n]| == 0 {
          assert !ScheduleOk(n, old(schedules)[n]);
          return false;
        }
        var fine, ws := ValidateWindows(schedules[n]);
        schedules := schedules[n := ws];
        if !fine {
          assert !ScheduleOk(n, old(schedules)[n]);
          return false;
        }
        left := left - {n};
      }
      return true;
    }

    static method ValidateWindows(was: seq<Window>) returns (ok: bool, ws: seq<Window>)
      ensures ok <==> forall w :: w in was ==> WindowOk(w)
      ensures ok ==> AllNormal(was, ws)
      ensures AllTouched(was, ws)
    {
      ws := was;
      for i := 0 to |was|
        invariant |ws| == |was|
        invariant forall k :: i <= k < |was| ==> ws[k] == was[k]
        invariant forall k :: 0 <= k < i ==> ws[k] == Normal(was[k]) && WindowOk(was[k])
      {
        var w := ws[i];
        if !IsTime(w.from) || !IsTime(w.to) {
          assert was[i] in was;
          return false, ws;
        }
        for j := 0 to |w.days|
          invariant |ws| == |was| && ws[i].from == w.from && ws[i].to == w.to && |ws[i].days| == |w.days|
          invariant forall k :: 0 <= k < |was| && k != i ==> ws[k] == if k < i then Normal(was[k]) else was[k]
          invariant forall k :: j <= k < |w.days| ==> ws[i].days[k] == w.days[k]
          invariant forall k :: 0 <= k < j ==> ws[i].days[k] == NormalDay(w.days[k]) && DayOk(w.days[k])
        {
          var day := NormalDay(w.days[j]);
          if !Contains(WEEK, day) || |day| != 3 {
            assert was[i] in was && w.days[j] in was[i].days;
            return false, ws;
          }
          ws := ws[i := ws[i].(days := ws[i].days[j := day])];
        }
        assert ws[i].days == NormalDays(w.days);
      }
      return true, ws;
    }
  }

  // ------------------------------------------------------------ main theorems

  /** MEANING OF A SCHEDULE: once validated, it is in effect exactly when the minute of the week lies in
      [start, start + length) of one of its windows on one of that window's days. */
  lemma ActiveMeansIntervals(was: seq<Window>, now: seq<Window>, name: string, schedules: map<string, seq<Window>>,
                             weekday: int, minute: int)
    requires ScheduleOk(name, was) && AllNormal(was, now) && name in schedules && schedules[name] == now
    requires 0 <= weekday < 7 && 0 <= minute < 1440
    ensures forall i :: 0 <= i < |now| ==> IsTime(now[i].from) && IsTime(now[i].to)
    ensures Active(schedules, name, weekday, minute) <==>
            exists i :: 0 <= i < |now| && Covers(now[i], weekday, minute)
  {
    forall i | 0 <= i < |now|
      ensures IsTime(now[i].from) && IsTime(now[i].to)
      ensures WindowActive(now[i], DAYS[weekday], DAYS[(weekday + 6) % 7], Format(minute)) <==>
              Covers(now[i], weekday, minute)
    {
      assert was[i] in was;
      WindowMeansInterval(now[i], weekday, minute);
    }
  }

  lemma NormalDayIdempotent(d: string)
    requires |NormalDay(d)| == 3
    ensures NormalDay(NormalDay(d)) == NormalDay(d)
  {
    assert NormalDay(d)[..3] == NormalDay(d);
  }

  /** A validated document validates again and does not change. */
  lemma ValidationIsIdempotent(was: seq<Window>, now: seq<Window>)
    requires (forall w :: w in was ==> WindowOk(w)) && AllNormal(was, now)
    ensures (forall w :: w in now ==> WindowOk(w)) && AllNormal(now, now)
  {
    forall i | 0 <= i < |now|
      ensures WindowOk(now[i]) && Normal(now[i]) == now[i]
    {
      assert was[i] in was;
      forall k | 0 <= k < |was[i].days|
        ensures DayOk(now[i].days[k]) && NormalDay(now[i].days[k]) == now[i].days[k]
      {
        assert was[i].days[k] in was[i].days;
        NormalDayIdempotent(was[i].days[k]);
      }
      assert NormalDays(now[i].days) == now[i].days;
    }
  }

  lemma SpelledAt(s: string, i: nat, x: string)
    requires i + 3 <= |s| && |x| == 3 && s[i] == x[0] && s[i + 1] == x[1] && s[i + 2] == x[2]
    ensures s[i..i + 3] == x
  {
  }

  lemma WeekHasSpaces(k: int)
    requires 0 <= k < 27 && k % 4 == 3
    ensures WEEK[k] == ' '
  {
    var j := k / 4;
    assert j == 0 || j == 1 || j == 2 || j == 3 || j == 4 || j == 5;
  }

  lemma EveryFourthIsDay(j: int)
    requires 0 <= j < 7
    ensures WEEK[4 * j..4 * j + 3] == DAYS[(j + 1) % 7]
  {
    var d := DAYS[(j + 1) % 7];
    assert j == 0 || j == 1 || j == 2 || j == 3 || j == 4 || j == 5 || j == 6;
    assert |d| == 3 && WEEK[4 * j] == d[0] && WEEK[4 * j + 1] == d[1] && WEEK[4 * j + 2] == d[2];
    SpelledAt(WEEK, 4 * j, d);
  }

  lemma DaysHaveNoSpace(d: int)
    requires 0 <= d < 7
    ensures ' ' !in DAYS[d]
  {
    assert |DAYS[d]| == 3 && DAYS[d][0] != ' ' && DAYS[d][1] != ' ' && DAYS[d][2] != ' ';
  }

  /** Every fourth fragment of the week string is a day, the others contain a space. */
  lemma FragmentIsDayOrHasSpace(i: int)
    requires 0 <= i <= 24
    ensures if i % 4 == 0 then WEEK[i..i + 3] in DAYS else ' ' in WEEK[i..i + 3]
  {
    var j := i / 4;
    if i % 4 == 0 {
      EveryFourthIsDay(j);
      assert DAYS[(j + 1) % 7] in DAYS;
    } else {
      WeekHasSpaces(4 * j + 3);
      assert WEEK[i..i + 3][4 * j + 3 - i] == ' ';
    }
  }

  /** The substring test accepts more than days: an accepted entry is a weekday iff it has no space. */
  lemma AcceptedIsDayIff(day: string)
    requires DayOk(day)
    ensures NormalDay(day) in DAYS <==> ' ' !in NormalDay(day)
  {
    var x := NormalDay(day);
    var i :| 0 <= i <= |WEEK| && OccursAt(WEEK, x, i);
    FragmentIsDayOrHasSpace(i);
    if x in DAYS {
      var d :| 0 <= d < 7 && DAYS[d] == x;
      DaysHaveNoSpace(d);
    }
  }

  /** A validated window is in effect at some time iff it has no day list or names a real weekday;
      with only accepted fragments such as "n t" it passes validation and never applies. */
  lemma EverActiveIff(w: Window)
    requires IsTime(w.from) && IsTime(w.to)
    ensures (exists d, m :: 0 <= d < 7 && 0 <= m < 1440 && Covers(w, d, m)) <==>
            w.days == [] || exists d :: 0 <= d < 7 && DAYS[d] in w.days
  {
    if w.days == [] || exists d :: 0 <= d < 7 && DAYS[d] in w.days {
      var d :| 0 <= d < 7 && DayIn(w.days, DAYS[d]);
      assert StartsAndRuns(w, d, d * 1440 + Minutes(w.from));
      assert Covers(w, d, Minutes(w.from));
    }
  }

  const FRAGMENT: string := ['n', ' ', 't']

  /** "n t" passes for a day, stays what it is, and is none. */
  lemma FragmentIsAccepted()
    ensures DayOk(FRAGMENT) && NormalDay(FRAGMENT) == FRAGMENT && FRAGMENT !in DAYS
  {
    var d := FRAGMENT;
    assert d[..3] == d;
    assert Lower(d) == d;
    assert WEEK[2] == 'n' && WEEK[3] == ' ' && WEEK[4] == 't';
    assert WEEK[2..5] == d;
    assert OccursAt(WEEK, d, 2);
    assert d[1] == ' ' && ' ' in d;
    if d in DAYS {
      var k :| 0 <= k < 7 && DAYS[k] == d;
      DaysHaveNoSpace(k);
    }
  }

  // --------------------------------------------------------- in plain terms

  function TwoDigits(n: int): string
    requires 0 <= n < 100
  {
    ['0' + (n / 10) as char, '0' + (n % 10) as char]
  }

  lemma DigitChars(n: int)
    requires 0 <= n < 10
    ensures Digit('0' + n as char) && DigitOf('0' + n as char) == n
  {
  }

  lemma CharOfDigit(c: char)
    requires Digit(c)
    ensures '0' + DigitOf(c) as char == c
  {
  }

  predicate Reads(s: string, h: int, m: int) {
    0 <= h < 24 && 0 <= m < 60 && s == TwoDigits(h) + ":" + TwoDigits(m)
  }

  /** TIMES: 00:00 to 23:59 in two digits each, and nothing else; the minutes are those of the day. */
  lemma TimeIff(s: string)
    ensures IsTime(s) <==> exists h, m :: Reads(s, h, m)
    ensures forall h, m :: Reads(s, h, m) ==> IsTime(s) && Minutes(s) == 60 * h + m
  {
    forall h, m | Reads(s, h, m)
      ensures IsTime(s) && Minutes(s) == 60 * h + m
    {
      DigitsAreTime(s, h, m);
    }
    if IsTime(s) {
      var h, m := TimeReads(s);
    }
  }

  lemma FiveChars(s: string)
    requires |s| == 5 && s[2] == ':'
    ensures s == [s[0], s[1]] + ":" + [s[3], s[4]]
  {
  }

  lemma TimeBounds(s: string)
    requires IsTime(s)
    ensures 0 <= 10 * DigitOf(s[0]) + DigitOf(s[1]) < 24 && 0 <= 10 * DigitOf(s[3]) + DigitOf(s[4]) < 60
  {
  }

  lemma TimeReads(s: string) returns (h: int, m: int)
    requires IsTime(s)
    ensures Reads(s, h, m)
  {
    TimeBounds(s);
    h, m := 10 * DigitOf(s[0]) + DigitOf(s[1]), 10 * DigitOf(s[3]) + DigitOf(s[4]);
    TwoDigitsOf(s[0], s[1]);
    TwoDigitsOf(s[3], s[4]);
    FiveChars(s);
    assert TwoDigits(h) == [s[0], s[1]] && TwoDigits(m) == [s[3], s[4]];
  }

  lemma TwoDigitsOf(x: char, y: char)
    requires Digit(x) && Digit(y)
    ensures TwoDigits(10 * DigitOf(x) + DigitOf(y)) == [x, y]
  {
    CharOfDigit(x);
    CharOfDigit(y);
    var n := 10 * DigitOf(x) + DigitOf(y);
    assert n / 10 == DigitOf(x) && n % 10 == DigitOf(y);
  }

  lemma DigitsAreTime(s: string, h: int, m: int)
    requires Reads(s, h, m)
    ensures IsTime(s) && Minutes(s) == 60 * h + m
  {
    DigitChars(h / 10);
    DigitChars(h % 10);
    DigitChars(m / 10);
    DigitChars(m % 10);
    assert s[0] == TwoDigits(h)[0] && s[1] == TwoDigits(h)[1] && s[2] == ':';
    assert s[3] == TwoDigits(m)[0] && s[4] == TwoDigits(m)[1];
  }

  /** A day is accepted however it is written after its first three letters, in either case. */
  lemma DaysAreAccepted(day: string, d: int)
    requires 0 <= d < 7 && |day| >= 3 && Lower(day[..3]) == DAYS[d]
    ensures DayOk(day) && NormalDay(day) == DAYS[d]
  {
    var j, x := (d + 6) % 7, NormalDay(day);
    assert |x| == 3 && x == DAYS[d] && (j + 1) % 7 == d;
    EveryFourthIsDay(j);
    Occurs(WEEK, x, 4 * j);
  }

  lemma Occurs(s: string, x: string, i: int)
    requires 0 <= i <= |s| - |x| && s[i..i + |x|] == x
    ensures Contains(s, x)
  {
    assert OccursAt(s, x, i);
  }

  /** The days of the week, Sunday first. */
  lemma DaysSay()
    ensures |DAYS| == 7 && DAYS[0] == "sun" && DAYS[1] == "mon" && DAYS[2] == "tue" && DAYS[3] == "wed"
    ensures DAYS[4] == "thu" && DAYS[5] == "fri" && DAYS[6] == "sat"
  {
  }

  /** Names: 1 to 64 letters, digits, spaces, dots, underscores and dashes, a letter or digit first. */
  lemma NameIff(s: string)
    ensures IsName(s) <==>
      && 1 <= |s| <= 64
      && ('0' <= s[0] <= '9' || 'a' <= s[0] <= 'z' || 'A' <= s[0] <= 'Z')
      && forall i :: 0 <= i < |s| ==>
           '0' <= s[i] <= '9' || 'a' <= s[i] <= 'z' || 'A' <= s[i] <= 'Z' || s[i] in " ._-"
  {
    assert forall c: char :: NameChar(c) <==>
      ('0' <= c <= '9' || 'a' <= c <= 'z' || 'A' <= c <= 'Z' || c in " ._-");
    if IsName(s) {
      forall i | 0 <= i < |s|
        ensures NameChar(s[i])
      {
        assert s[i] in s;
      }
    }
  }

  /** WHAT IS ACCEPTED: a schedule with a name, at least one window, times, and days whose first three
      letters, in lower case, occur somewhere in the list of days. */
  lemma AcceptsIff(name: string, ws: seq<Window>)
    ensures ScheduleOk(name, ws) <==>
      && IsName(name) && |ws| > 0
      && forall i :: 0 <= i < |ws| ==>
           IsTime(ws[i].from) && IsTime(ws[i].to) && forall k :: 0 <= k < |ws[i].days| ==> Accepts(ws[i].days[k])
  {
    forall day
      ensures DayOk(day) <==> Accepts(day)
    {
      AcceptsDay(day);
    }
    if ScheduleOk(name, ws) {
      forall i | 0 <= i < |ws|
        ensures WindowOk(ws[i])
      {
        assert ws[i] in ws;
      }
      assert forall i, k :: 0 <= i < |ws| && 0 <= k < |ws[i].days| ==> ws[i].days[k] in ws[i].days;
    }
  }

  predicate Accepts(day: string) {
    |day| >= 3 && exists i :: 0 <= i <= 24 && SpelledIn("mon tue wed thu fri sat sun", i, Lower(day[..3]))
  }

  predicate SpelledIn(s: string, i: int, x: string) { 0 <= i <= |s| - 3 && s[i..i + 3] == x }

  lemma AcceptsDay(day: string)
    ensures DayOk(day) <==> Accepts(day)
  {
    if DayOk(day) {
      var i :| 0 <= i <= |WEEK| && OccursAt(WEEK, NormalDay(day), i);
      assert SpelledIn(WEEK, i, Lower(day[..3]));
    }
    if Accepts(day) {
      var i :| 0 <= i <= 24 && SpelledIn(WEEK, i, Lower(day[..3]));
      Occurs(WEEK, NormalDay(day), i);
    }
  }

  /** No schedule means always; a schedule that does not exist, never. */
  lemma NoScheduleIsAlways(schedules: map<string, seq<Window>>, name: string, weekday: int, minute: int)
    requires 0 <= weekday < 7 && 0 <= minute < 1440
    ensures Active(schedules, "", weekday, minute)
    ensures name != "" && name !in schedules ==> !Active(schedules, name, weekday, minute)
  {
  }
}
