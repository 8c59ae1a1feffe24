// The French periodicity strings of synchronized groups and the next instant
// they name. Instants are whole seconds since the epoch (UTC); local time is
// UTC shifted by a fixed offset, in seconds.
module Periodicity {
  import opened Wrappers
  import opened JsString
  import opened Helpers

  const Minute := 60
  const Hour := 60 * 60
  const Day := 24 * 60 * 60

  /** `Date.UTC(9999, 0, 1)`, in seconds: 2932532 days after the epoch. */
  const Never: int := 2932532 * Day

  const EveryPrefix := "toutes les "
  const DailyAtPrefix := "tous les jours à "

  /** The length of the run of digits `s` starts with (what `\d+` takes). */
  function LeadingDigits(s: string): (n: nat)
    ensures n <= |s| && AllDigits(s[..n])
    ensures forall i :: 0 <= i < n ==> IsDigit(s[i])
    ensures n < |s| ==> !IsDigit(s[n])
  {
    if |s| == 0 || !IsDigit(s[0]) then 0
    else
      var n := 1 + LeadingDigits(s[1..]);
      assert s[..n] == [s[0]] + s[1..][..n - 1];
      n
  }

  /** `\d+` takes the first `k` characters when they are digits and the next one is not. */
  lemma LeadingDigitsAt(s: string, k: nat)
    requires k <= |s| && forall i :: 0 <= i < k ==> IsDigit(s[i])
    requires k < |s| ==> !IsDigit(s[k])
    ensures LeadingDigits(s) == k
  {
  }

  /** Digits followed by text that does not start with a digit: `\d+` takes exactly the digits. */
  lemma LeadingDigitsOf(d: string, tail: string)
    requires AllDigits(d)
    requires |tail| > 0 ==> !IsDigit(tail[0])
    ensures LeadingDigits(d + tail) == |d|
  {
    var s := d + tail;
    forall i | 0 <= i < |d|
      ensures IsDigit(s[i])
    {
      assert s[i] == d[i];
    }
    if |tail| > 0 {
      assert s[|d|] == tail[0];
    }
    LeadingDigitsAt(s, |d|);
  }

  /** The count of `(\d+ )?<unit>` at the start of `rest`: the digits when present, else 1. */
  function CountAfter(rest: string, unit: string): Option<nat>
  {
    var n := LeadingDigits(rest);
    if 0 < n < |rest| && rest[n] == ' ' && unit <= rest[n + 1..] then Some(DigitsValue(rest[..n]))
    else if unit <= rest then Some(1)
    else None
  }

  /** The count `N` of `^toutes les (\d+ )?<unit>`. */
  function EveryCount(p: string, unit: string): Option<nat>
  {
    if EveryPrefix <= p then CountAfter(p[|EveryPrefix|..], unit) else None
  }

  /** The strings the regular expression `(\d+ )?<unit>` accepts at the start of `rest`, with the count it reads. */
  ghost predicate CountMatches(rest: string, unit: string, k: nat)
  {
    || (unit <= rest && k == 1)
    || exists d :: |d| > 0 && AllDigits(d) && d + " " + unit <= rest && k == DigitsValue(d)
  }

  /** The strings the regular expression `^toutes les (\d+ )?<unit>` accepts, with the count it reads. */
  ghost predicate EveryMatches(p: string, unit: string, k: nat)
  {
    EveryPrefix <= p && CountMatches(p[|EveryPrefix|..], unit, k)
  }

  /** A prefix made of two parts, checked part by part. */
  lemma PrefixOfPrefix(a: string, b: string, p: string)
    ensures a + b <= p <==> a <= p && b <= p[|a|..]
  {
    if a + b <= p {
      assert p[..|a|] == (a + b)[..|a|];
      assert p[|a|..][..|b|] == (a + b)[|a|..];
    }
    if a <= p && b <= p[|a|..] {
      assert p[..|a| + |b|] == p[..|a|] + p[|a|..][..|b|];
    }
  }

  /** When the counted form matches, its digits are the count. */
  lemma CountDigitsAreTaken(rest: string, unit: string, d: string)
    requires |d| > 0 && AllDigits(d) && d + " " + unit <= rest
    ensures CountAfter(rest, unit) == Some(DigitsValue(d))
  {
    var w := d + " " + unit;
    PrefixSplit(w, rest);
    CountOf(d, unit, rest[|w|..]);
  }

  /** A text that starts with `w` is `w` and what follows it. */
  lemma PrefixSplit(w: string, rest: string)
    requires w <= rest
    ensures rest == w + rest[|w|..]
  {
  }

  /** Digits, a space and the unit: the digits are the count. */
  lemma CountOf(d: string, unit: string, more: string)
    requires |d| > 0 && AllDigits(d)
    ensures CountAfter(d + " " + unit + more, unit) == Some(DigitsValue(d))
  {
    var tl := [' '] + (unit + more);
    Regroup(d, unit, more);
    LeadingDigitsOf(d, tl);
    SplitAt(d, tl);
    SplitAt([' '], unit + more);
    SplitAt(unit, more);
    var s := d + tl;
    assert s[|d| + 1..] == unit + more by {
      assert s[|d| + 1..] == s[|d|..][1..];
    }
  }

  lemma Regroup(d: string, unit: string, more: string)
    ensures d + " " + unit + more == d + ([' '] + (unit + more))
  {
  }

  /** `CountAfter` reads exactly what the regular expression matches. */
  lemma CountAfterMeaning(rest: string, unit: string, k: nat)
    requires |unit| > 0 && !IsDigit(unit[0])
    ensures CountAfter(rest, unit) == Some(k) <==> CountMatches(rest, unit, k)
  {
    var n := LeadingDigits(rest);
    if 0 < n < |rest| && rest[n] == ' ' && unit <= rest[n + 1..] {
      var d := rest[..n];
      assert rest == d + " " + rest[n + 1..];
      PrefixOfPrefix(d + " ", unit, rest);
      assert !(unit <= rest) by { assert IsDigit(rest[0]); }
      if CountMatches(rest, unit, k) && k != DigitsValue(d) {
        var d' :| |d'| > 0 && AllDigits(d') && d' + " " + unit <= rest && k == DigitsValue(d');
        CountDigitsAreTaken(rest, unit, d');
      }
    } else {
      forall d | |d| > 0 && AllDigits(d)
        ensures !(d + " " + unit <= rest)
      {
        if d + " " + unit <= rest {
          CountDigitsAreTaken(rest, unit, d);
        }
      }
    }
  }

  /** `EveryCount` reads exactly what the regular expression matches. */
  lemma EveryCountMeaning(p: string, unit: string, k: nat)
    requires |unit| > 0 && !IsDigit(unit[0])
    ensures EveryCount(p, unit) == Some(k) <==> EveryMatches(p, unit, k)
  {
    if EveryPrefix <= p {
      CountAfterMeaning(p[|EveryPrefix|..], unit, k);
    }
  }

  /** `toSeconds`: the length of an interval periodicity, in seconds. */
  function ToSeconds(p: string): Option<nat>
  {
    if p == "tous les jours" then Some(Day)
    else match EveryCount(p, "heures")
      case Some(k) => Some(k * Hour)
      case None =>
        match EveryCount(p, "minutes")
        case Some(k) => Some(k * Minute)
        case None => None
  }

  /** `toutes les [N ]heures` lasts N hours. */
  lemma ToSecondsHours(p: string, k: nat)
    requires p != "tous les jours" && EveryMatches(p, "heures", k)
    ensures ToSeconds(p) == Some(k * Hour)
  {
    EveryCountMeaning(p, "heures", k);
  }

  /** `toutes les [N ]minutes` lasts N minutes (when the text is not also read as hours). */
  lemma ToSecondsMinutes(p: string, k: nat)
    requires p != "tous les jours" && EveryMatches(p, "minutes", k)
    requires forall j: nat :: !EveryMatches(p, "heures", j)
    ensures ToSeconds(p) == Some(k * Minute)
  {
    EveryCountMeaning(p, "minutes", k);
    if EveryCount(p, "heures").Some? {
      EveryCountMeaning(p, "heures", EveryCount(p, "heures").value);
    }
  }

  /** Every other string has no interval. */
  lemma ToSecondsNone(p: string)
    ensures ToSeconds(p).None? <==>
              p != "tous les jours" && forall k: nat :: !EveryMatches(p, "heures", k) && !EveryMatches(p, "minutes", k)
  {
    forall k: nat
      ensures EveryCount(p, "heures") == Some(k) <==> EveryMatches(p, "heures", k)
      ensures EveryCount(p, "minutes") == Some(k) <==> EveryMatches(p, "minutes", k)
    {
      EveryCountMeaning(p, "heures", k);
      EveryCountMeaning(p, "minutes", k);
    }
  }

  /** The hour and minute of `(\d+)h(\d+)` at the start of `rest`. */
  function DailyAfter(rest: string): Option<(nat, nat)>
  {
    var n1 := LeadingDigits(rest);
    if n1 == 0 || n1 == |rest| || rest[n1] != 'h' then None
    else
      var after := rest[n1 + 1..];
      var n2 := LeadingDigits(after);
      if n2 == 0 then None else Some((DigitsValue(rest[..n1]), DigitsValue(after[..n2])))
  }

  /** The hour and minute of `^tous les jours à (\d+)h(\d+)`. */
  function DailyAt(p: string): Option<(nat, nat)>
  {
    if DailyAtPrefix <= p then DailyAfter(p[|DailyAtPrefix|..]) else None
  }

  /** `<H>h<M>` followed by anything but a digit reads as `(H, M)`. */
  lemma DailyAfterOf(h: string, m: string, tail: string)
    requires |h| > 0 && AllDigits(h) && |m| > 0 && AllDigits(m)
    requires |tail| > 0 ==> !IsDigit(tail[0])
    ensures DailyAfter(h + "h" + m + tail) == Some((DigitsValue(h), DigitsValue(m)))
  {
    var mt := m + tail;
    var tl := ['h'] + mt;
    var q := h + tl;
    RegroupDaily(h, m, tail);
    SplitAt(h, tl);
    SplitAt(['h'], mt);
    SplitAt(m, tail);
    LeadingDigitsOf(h, tl);
    assert q[|h|] == 'h';
    assert q[|h| + 1..] == mt by {
      assert q[|h| + 1..] == q[|h|..][1..];
    }
    LeadingDigitsOf(m, tail);
  }

  /** Cutting a concatenation at the end of its first part gives back both parts. */
  lemma SplitAt(a: string, b: string)
    ensures (a + b)[..|a|] == a && (a + b)[|a|..] == b
  {
  }

  lemma RegroupDaily(h: string, m: string, tail: string)
    ensures h + "h" + m + tail == h + (['h'] + (m + tail))
  {
  }

  /** `tous les jours à <H>h<M>` followed by anything but a digit reads as `(H, M)`. */
  lemma DailyAtOf(h: string, m: string, tail: string)
    requires |h| > 0 && AllDigits(h) && |m| > 0 && AllDigits(m)
    requires |tail| > 0 ==> !IsDigit(tail[0])
    ensures DailyAt(DailyAtPrefix + h + "h" + m + tail) == Some((DigitsValue(h), DigitsValue(m)))
  {
    var q := h + "h" + m + tail;
    var p := DailyAtPrefix + q;
    assert p == DailyAtPrefix + h + "h" + m + tail;
    assert p[..|DailyAtPrefix|] == DailyAtPrefix;
    assert p[|DailyAtPrefix|..] == q;
    DailyAfterOf(h, m, tail);
  }

  // ------------------------------------------------ the local-time setters of `Date`

  /** The local midnight of the day holding the local instant `l`. */
  function DayStart(l: int): (r: int)
    ensures r <= l < r + Day && r % Day == 0
  {
    l - l % Day
  }

  /** `date.setHours(h)`: the same minutes and seconds, `h` hours after the local midnight. */
  function SetHours(t: int, offset: int, h: nat): (r: int)
    ensures r + offset == DayStart(t + offset) + h * Hour + (t + offset) % Hour
  {
    DayStart(t + offset) + h * Hour + (t + offset) % Hour - offset
  }

  /** `date.setMinutes(m)`: the same seconds, `m` minutes after the start of the local hour. */
  function SetMinutes(t: int, offset: int, m: nat): (r: int)
    ensures r + offset == (t + offset) - (t + offset) % Hour + m * Minute + (t + offset) % Minute
  {
    (t + offset) - (t + offset) % Hour + m * Minute + (t + offset) % Minute - offset
  }

  /** `date.setSeconds(0)` (milliseconds are below the resolution of the model). */
  function ClearSeconds(t: int, offset: int): (r: int)
    ensures r + offset == (t + offset) - (t + offset) % Minute
  {
    (t + offset) - (t + offset) % Minute - offset
  }

  /** The local time of day of an instant, in seconds since the local midnight. */
  function TimeOfDay(t: int, offset: int): (r: int)
    ensures 0 <= r < Day
  {
    (t + offset) % Day
  }

  lemma AlignedHour(a: int, x: int)
    requires a % Hour == 0 && 0 <= x < Hour
    ensures (a + x) % Hour == x
  {
  }

  lemma AlignedMinute(a: int, x: int)
    requires a % Minute == 0 && 0 <= x < Minute
    ensures (a + x) % Minute == x
  {
  }

  /** A local midnight shifted by whole hours and minutes is a whole hour, and a whole minute. */
  lemma MidnightAligned(d: int, h: int, m: int)
    requires d % Day == 0
    ensures (d + h * Hour) % Hour == 0 && (d + h * Hour + m * Minute) % Minute == 0
  {
    var q := d / Day;
    assert d == q * Day;
    assert d + h * Hour == (24 * q + h) * Hour;
    assert d + h * Hour + m * Minute == (1440 * q + 60 * h + m) * Minute;
  }

  lemma MinuteWithinHour(l: int)
    ensures (l % Hour) % Minute == l % Minute
  {
    var q := l / Hour;
    assert l == q * Hour + l % Hour;
    assert q * Hour == (60 * q) * Minute;
  }

  /** The three setters land on `h:m:00` of the local day of `t`. */
  lemma SettersLandOn(t: int, offset: int, h: nat, m: nat)
    ensures ClearSeconds(SetMinutes(SetHours(t, offset, h), offset, m), offset) + offset == DayStart(t + offset) + h * Hour + m * Minute
  {
    var l := t + offset;
    var d := DayStart(l);
    MidnightAligned(d, h, m);
    var l1 := SetHours(t, offset, h) + offset;
    assert l1 == (d + h * Hour) + l % Hour;
    AlignedHour(d + h * Hour, l % Hour);
    assert l1 - l1 % Hour == d + h * Hour;
    MidnightAligned(d, h, 0);
    MinuteWithinHour(l);
    MinuteWithinHour(l1);
    var l2 := SetMinutes(SetHours(t, offset, h), offset, m) + offset;
    assert l2 == (d + h * Hour + m * Minute) + l1 % Minute;
    AlignedMinute(d + h * Hour + m * Minute, l1 % Minute);
  }

  /** The local-time part of `next_elapse`: today's `h:m:00`, or tomorrow's when it is already past. */
  method DailyElapse(now: int, offset: int, h: nat, m: nat) returns (date: int)
    ensures now <= date && TimeOfDay(date, offset) == (h * Hour + m * Minute) % Day
    ensures h * Hour + m * Minute < Day ==>
              date < now + Day && forall t :: now <= t < date ==> TimeOfDay(t, offset) != h * Hour + m * Minute
  {
    date := now;
    date := SetHours(date, offset, h);
    date := SetMinutes(date, offset, m);
    date := ClearSeconds(date, offset);
    SettersLandOn(now, offset, h, m);
    if date < now {
      date := date + Day;  // date.setDate(date.getDate() + 1), one local day with a fixed offset
    }
    DailyIsNext(now, offset, h * Hour + m * Minute, date);
  }

  /** The last two branches of `next_elapse`: a daily time, or a refusal. */
  method DailyOrRefused(p: string, now: int, offset: int) returns (r: Result<int>)
    ensures DailyAt(p).None? ==> r == Err("internal error: not handled periodicity " + p)
    ensures DailyAt(p).Some? ==>
              var (h, m) := DailyAt(p).value;
              && r.Ok? && now <= r.value
              && TimeOfDay(r.value, offset) == (h * Hour + m * Minute) % Day
              && (h * Hour + m * Minute < Day ==>
                    r.value < now + Day && forall t :: now <= t < r.value ==> TimeOfDay(t, offset) != h * Hour + m * Minute)
  {
    var at := DailyAt(p);
    if at.Some? {
      var date := DailyElapse(now, offset, at.value.0, at.value.1);
      return Ok(date);
    }
    return Err("internal error: not handled periodicity " + p);
  }

  /**
   * `next_elapse`: an interval is added to `now` (a zero interval counts as
   * none); `jamais` is the year 9999; a daily time is the next local `H:M:00`
   * at or after `now`; anything else is refused.
   */
  method NextElapse(p: string, now: int, offset: int) returns (r: Result<int>)
    ensures ToSeconds(p).Some? && ToSeconds(p).value != 0 ==> r == Ok(now + ToSeconds(p).value) && r.value > now
    ensures p == "jamais" ==> r == Ok(Never)
    ensures (ToSeconds(p).None? || ToSeconds(p).value == 0) && p != "jamais" && DailyAt(p).None? ==>
              r == Err("internal error: not handled periodicity " + p)
    ensures (ToSeconds(p).None? || ToSeconds(p).value == 0) && p != "jamais" && DailyAt(p).Some? ==>
              var (h, m) := DailyAt(p).value;
              && r.Ok? && now <= r.value
              && TimeOfDay(r.value, offset) == (h * Hour + m * Minute) % Day
              && (h * Hour + m * Minute < Day ==>
                    r.value < now + Day && forall t :: now <= t < r.value ==> TimeOfDay(t, offset) != h * Hour + m * Minute)
  {
    var seconds := ToSeconds(p);
    if seconds.Some? && seconds.value != 0 {
      return Ok(AddSeconds(now, seconds.value));
    } else if p == "jamais" {
      JamaisIsNotAnInterval();
      return Ok(Never);
    }
    r := DailyOrRefused(p, now, offset);
  }

  /** `jamais` is neither an interval nor a daily time. */
  lemma JamaisIsNotAnInterval()
    ensures ToSeconds("jamais").None? && DailyAt("jamais").None?
  {
    var p := "jamais";
    assert !(EveryPrefix <= p) by { assert p[0] != EveryPrefix[0]; }
    assert !(DailyAtPrefix <= p) by { assert p[0] != DailyAtPrefix[0]; }
  }

  /** The instant `s` seconds after the local midnight of `now`, moved one day on when it is before `now`. */
  lemma DailyIsNext(now: int, offset: int, s: nat, r: int)
    requires var at := DayStart(now + offset) + s - offset; r == if at < now then at + Day else at
    ensures now <= r && TimeOfDay(r, offset) == s % Day
    ensures s < Day ==> r < now + Day && forall t :: now <= t < r ==> TimeOfDay(t, offset) != s
  {
    var d := DayStart(now + offset);
    assert (r + offset) - d == (if d + s - offset < now then s + Day else s);
    assert TimeOfDay(r, offset) == s % Day by {
      var q := (r + offset) - d;
      assert d == (d / Day) * Day;
      ModShift(d / Day, q);
    }
    if s < Day {
      forall t | now <= t < r
        ensures TimeOfDay(t, offset) != s
      {
        var l := t + offset;
        if d + s - offset < now {
          // t lies between now and the same time tomorrow
          assert d + s < l < d + Day + s;
          DayOfInstant(l, d);
        } else {
          assert d <= l < d + s;
          DayOfInstant(l, d);
        }
      }
    }
  }

  lemma ModShift(k: int, q: int)
    ensures (k * Day + q) % Day == q % Day
  {
  }

  /** An instant within a day of the local midnight `d` reads its time of day from `d`. */
  lemma DayOfInstant(l: int, d: int)
    requires d % Day == 0 && d <= l < d + 2 * Day
    ensures l % Day == (if l < d + Day then l - d else l - d - Day)
  {
    assert d == (d / Day) * Day;
    ModShift(d / Day, l - d);
  }

  /** `toutes les <N> minutes` lasts N minutes. */
  lemma MinutesPeriodicity(d: string)
    requires |d| > 0 && AllDigits(d)
    ensures ToSeconds(EveryPrefix + d + " minutes") == Some(DigitsValue(d) * Minute)
  {
    var rest := d + " minutes";
    var p := EveryPrefix + rest;
    assert p == EveryPrefix + d + " minutes";
    assert p != "tous les jours" by { assert |p| > 14; }
    EveryCountOf(rest, "heures");
    MinutesAreNotHours(d);
    EveryCountOf(rest, "minutes");
    MinutesCount(d);
  }

  /** After the prefix, the count is read from the rest of the text. */
  lemma EveryCountOf(rest: string, unit: string)
    ensures EveryCount(EveryPrefix + rest, unit) == CountAfter(rest, unit)
  {
    SplitAt(EveryPrefix, rest);
  }

  lemma MinutesCount(d: string)
    requires |d| > 0 && AllDigits(d)
    ensures CountAfter(d + " minutes", "minutes") == Some(DigitsValue(d))
  {
    MinutesText(d);
    CountOf(d, "minutes", "");
  }

  lemma MinutesText(d: string)
    ensures d + " minutes" == d + " " + "minutes" + ""
  {
  }

  lemma MinutesAreNotHours(d: string)
    requires |d| > 0 && AllDigits(d)
    ensures CountAfter(d + " minutes", "heures").None?
  {
    var rest := d + " minutes";
    LeadingDigitsOf(d, " minutes");
    assert rest[|d|] == ' ';
    assert rest[|d| + 1..] == "minutes";
    assert !("heures" <= rest[|d| + 1..]) by { assert rest[|d| + 1] == 'm'; }
    assert !("heures" <= rest) by { assert IsDigit(rest[0]); }
  }

  /** `toutes les heures` lasts one hour. */
  lemma HourlyPeriodicity()
    ensures ToSeconds(EveryPrefix + "heures") == Some(Hour)
  {
    var p := EveryPrefix + "heures";
    assert |p| > 14;
    assert p[..|EveryPrefix|] == EveryPrefix;
    var rest := p[|EveryPrefix|..];
    assert rest == "heures";
    LeadingDigitsAt(rest, 0);
  }

  /** A daily time is not an interval. */
  lemma DailyAtIsNotAnInterval(h: string, m: string)
    ensures ToSeconds(DailyAtPrefix + h + "h" + m).None?
  {
    var p := DailyAtPrefix + h + "h" + m;
    assert |p| > 14;
    assert !(EveryPrefix <= p) by { assert p[3] == DailyAtPrefix[3] != EveryPrefix[3]; }
  }
}
