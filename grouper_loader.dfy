// The grouper-loader migration: periodicities read from Quartz cron
// expressions and interval lengths, the short names given to remote
// configurations, the most used value of a count, and the forced
// periodicities dropped where they repeat the remote's default.
module GrouperLoader {
  import opened Wrappers
  import opened JsString
  import opened MyTypes
  import opened Helpers
  import opened Periodicity

  // ------------------------------------------------ from_intervalSeconds

  /** `from_intervalSeconds`: the three interval lengths grouper-loader uses, in seconds. */
  function FromIntervalSeconds(s: string): (r: Result<string>)
    ensures r.Err? ==> r.msg == "from_intervalSeconds: not implemented " + s
  {
    if s == "600" then Ok("toutes les 10 minutes")
    else if s == "3600" then Ok("toutes les heures")
    else if s == "86400" then Ok("tous les jours")
    else Err("from_intervalSeconds: not implemented " + s)
  }

  /** The periodicity an interval becomes lasts exactly that many seconds. */
  lemma IntervalSecondsKept(s: string)
    requires FromIntervalSeconds(s).Ok?
    ensures AllDigits(s) && ToSeconds(FromIntervalSeconds(s).value) == Some(DigitsValue(s))
  {
    if s == "600" {
      TenMinutes();
    } else if s == "3600" {
      OneHour();
    } else {
      OneDay();
    }
  }

  lemma OneHour()
    ensures AllDigits("3600") && ToSeconds("toutes les heures") == Some(DigitsValue("3600"))
  {
    HourlyText();
    DigitsValueOf4("3600");
  }

  lemma OneDay()
    ensures AllDigits("86400") && ToSeconds("tous les jours") == Some(DigitsValue("86400"))
  {
    DigitsValueOf5("86400");
  }

  lemma TenMinutes()
    ensures AllDigits("600") && ToSeconds("toutes les 10 minutes") == Some(DigitsValue("600"))
  {
    TenMinutesSeconds();
    SixHundred();
  }

  lemma TenMinutesSeconds()
    ensures ToSeconds("toutes les 10 minutes") == Some(600)
  {
    TenMinutesText();
    MinutesPeriodicity("10");
    DigitsValueOf2("10");
  }

  lemma SixHundred()
    ensures AllDigits("600") && DigitsValue("600") == 600
  {
    DigitsValueOf3("600");
  }

  lemma TenMinutesText()
    ensures "toutes les 10 minutes" == EveryPrefix + "10" + " minutes"
  {
  }

  lemma DigitsValueOf2(s: string)
    requires |s| == 2 && AllDigits(s)
    ensures DigitsValue(s) == 10 * (s[0] as int - '0' as int) + (s[1] as int - '0' as int)
  {
    var p := s[..1];
    assert p[..0] == [] && p[0] == s[0];
    assert DigitsValue(p) == s[0] as int - '0' as int;
  }

  lemma DigitsValueOf3(s: string)
    requires |s| == 3 && AllDigits(s)
    ensures DigitsValue(s) == 100 * (s[0] as int - '0' as int) + 10 * (s[1] as int - '0' as int) + (s[2] as int - '0' as int)
  {
    DigitsValueOf2(s[..2]);
  }

  lemma DigitsValueOf4(s: string)
    requires |s| == 4 && AllDigits(s)
    ensures DigitsValue(s) == 1000 * (s[0] as int - '0' as int) + 100 * (s[1] as int - '0' as int)
                              + 10 * (s[2] as int - '0' as int) + (s[3] as int - '0' as int)
  {
    DigitsValueOf3(s[..3]);
  }

  lemma DigitsValueOf5(s: string)
    requires |s| == 5 && AllDigits(s)
    ensures DigitsValue(s) == 10000 * (s[0] as int - '0' as int) + 1000 * (s[1] as int - '0' as int)
                              + 100 * (s[2] as int - '0' as int) + 10 * (s[3] as int - '0' as int) + (s[4] as int - '0' as int)
  {
    DigitsValueOf4(s[..4]);
  }

  // ------------------------------------------------ from_quartzCron

  /**
   * `\d+` at the start of `s`: the digits and the text after them. Every
   * `\d+` of the cron patterns is followed by a space, so taking the whole
   * run of digits is the only way the pattern can match.
   */
  function Digits(s: string): (r: Option<(string, string)>)
    ensures r.None? <==> |s| == 0 || !IsDigit(s[0])
    ensures r.Some? ==> |r.value.0| > 0 && AllDigits(r.value.0) && r.value.0 + r.value.1 == s
    ensures r.Some? && |r.value.1| > 0 ==> !IsDigit(r.value.1[0])
  {
    var n := LeadingDigits(s);
    if n == 0 then None
    else
      SplitAt(s[..n], s[n..]);
      assert s[..n] + s[n..] == s;
      Some((s[..n], s[n..]))
  }

  lemma DigitsOf(d: string, tail: string)
    requires |d| > 0 && AllDigits(d) && (|tail| > 0 ==> !IsDigit(tail[0]))
    ensures Digits(d + tail) == Some((d, tail))
  {
    LeadingDigitsOf(d, tail);
    SplitAt(d, tail);
  }

  lemma StripPrefixOf(p: string, rest: string)
    ensures StripPrefix(p + rest, p) == Some(rest)
  {
    SplitAt(p, rest);
  }

  /** `^\d+ 0[/](\d+) [*] [*] [*] [?]`: the step of the minutes. */
  function MinutesCron(s: string): Option<string>
  {
    var (_, r1) :- Digits(s);
    var r2 :- StripPrefix(r1, " 0/");
    var (n, r3) :- Digits(r2);
    if " * * * ?" <= r3 then Some(n) else None
  }

  /** `^\d+ (\d+) [*] [*] [*] [?]`: the minute of every hour. */
  function HourlyCron(s: string): Option<string>
  {
    var (_, r1) :- Digits(s);
    var r2 :- StripPrefix(r1, " ");
    var (m, r3) :- Digits(r2);
    if " * * * ?" <= r3 then Some(m) else None
  }

  /** `^\d+ (\d+) (\d+) [*] [*] [?]`: the minute and the hour of every day. */
  function DailyCron(s: string): (r: Option<(string, string)>)
    ensures r.Some? ==> |r.value.0| > 0 && AllDigits(r.value.0) && |r.value.1| > 0 && AllDigits(r.value.1)
  {
    var (_, r1) :- Digits(s);
    var r2 :- StripPrefix(r1, " ");
    var (m, r3) :- Digits(r2);
    var r4 :- StripPrefix(r3, " ");
    var (h, r5) :- Digits(r4);
    if " * * ?" <= r5 then Some((m, h)) else None
  }

  /** `(30|31) 2 [?]$`: the 30th or 31st of February, which never comes. */
  predicate NeverCron(s: string)
  {
    EndsWith(s, "30 2 ?") || EndsWith(s, "31 2 ?")
  }

  /** `pad`: a lone digit gets a leading zero (`/^\d($|[/])/`). */
  function Pad(s: string): string
  {
    (if |s| > 0 && IsDigit(s[0]) && (|s| == 1 || s[1] == '/') then "0" else "") + s
  }

  /**
   * `from_quartzCron`: the patterns are tried in order; the hour of a daily
   * time is kept as written and its minute padded to two digits (the
   * `|| '00'` fallback never applies, the group always holding a digit).
   */
  function FromQuartzCron(s: string): Result<string>
  {
    match MinutesCron(s)
    case Some(n) => Ok(EveryPrefix + NatToString(DigitsValue(n)) + " minutes")
    case None =>
      if HourlyCron(s).Some? then Ok("toutes les heures")
      else match DailyCron(s)
        case Some((m, h)) => Ok(DailyAtPrefix + h + "h" + Pad(m))
        case None =>
          if NeverCron(s) then Ok("jamais")
          else Err("from_quartzCron: not implemented " + s)
  }

  /** The minutes pattern reads the step `n`. */
  lemma MinutesCronOf(sec: string, n: string, rest: string)
    requires |sec| > 0 && AllDigits(sec) && |n| > 0 && AllDigits(n)
    requires |rest| > 0 ==> !IsDigit(rest[0])
    ensures MinutesCron(sec + " 0/" + n + rest) == if " * * * ?" <= rest then Some(n) else None
  {
    RegroupMinutes(sec, n, rest);
    DigitsOf(sec, " 0/" + (n + rest));
    StripPrefixOf(" 0/", n + rest);
    DigitsOf(n, rest);
  }

  lemma RegroupMinutes(sec: string, n: string, rest: string)
    ensures sec + " 0/" + n + rest == sec + (" 0/" + (n + rest))
  {
  }

  /** A minute field that is not `0/...` does not read as a step. */
  lemma MinutesCronNone(sec: string, m: string, rest: string)
    requires |sec| > 0 && AllDigits(sec) && |m| > 0 && AllDigits(m)
    requires |rest| > 0 && rest[0] == ' '
    ensures MinutesCron(sec + " " + m + rest).None?
  {
    var r1 := " " + (m + rest);
    RegroupSpaced(sec, m, rest);
    DigitsOf(sec, r1);
    if |m| > 1 {
      assert r1[2] == m[1];
    } else {
      assert r1[2] == rest[0];
    }
    NotPrefixAt(" 0/", r1, 2);
  }

  lemma RegroupSpaced(sec: string, m: string, rest: string)
    ensures sec + " " + m + rest == sec + (" " + (m + rest))
  {
  }

  /** The hourly pattern reads the minute `m`. */
  lemma HourlyCronOf(sec: string, m: string, rest: string)
    requires |sec| > 0 && AllDigits(sec) && |m| > 0 && AllDigits(m)
    requires |rest| > 0 ==> !IsDigit(rest[0])
    ensures HourlyCron(sec + " " + m + rest) == if " * * * ?" <= rest then Some(m) else None
  {
    RegroupSpaced(sec, m, rest);
    DigitsOf(sec, " " + (m + rest));
    StripPrefixOf(" ", m + rest);
    DigitsOf(m, rest);
  }

  /** The daily pattern reads the minute `m` and the hour `h`. */
  lemma DailyCronOf(sec: string, m: string, h: string, rest: string)
    requires |sec| > 0 && AllDigits(sec) && |m| > 0 && AllDigits(m) && |h| > 0 && AllDigits(h)
    requires |rest| > 0 ==> !IsDigit(rest[0])
    ensures DailyCron(sec + " " + m + " " + h + rest) == if " * * ?" <= rest then Some((m, h)) else None
  {
    RegroupDailyCron(sec, m, h, rest);
    DigitsOf(sec, " " + (m + (" " + (h + rest))));
    StripPrefixOf(" ", m + (" " + (h + rest)));
    DigitsOf(m, " " + (h + rest));
    StripPrefixOf(" ", h + rest);
    DigitsOf(h, rest);
  }

  lemma RegroupDailyCron(sec: string, m: string, h: string, rest: string)
    ensures sec + " " + m + " " + h + rest == sec + (" " + (m + (" " + (h + rest))))
  {
  }

  /** With an hour after the minute, the hourly pattern does not match. */
  lemma HourlyCronNone(sec: string, m: string, h: string, rest: string)
    requires |sec| > 0 && AllDigits(sec) && |m| > 0 && AllDigits(m) && |h| > 0 && AllDigits(h)
    ensures HourlyCron(sec + " " + m + " " + h + rest).None?
  {
    RegroupHourly(sec, m, h, rest);
    var r := " " + (h + rest);
    assert r[1] == h[0];
    NotPrefixAt(" * * * ?", r, 1);
    HourlyCronOf(sec, m, r);
  }

  lemma RegroupHourly(sec: string, m: string, h: string, rest: string)
    ensures sec + " " + m + " " + h + rest == sec + " " + m + (" " + (h + rest))
  {
  }

  /** `S 0/N * * * ?` becomes `toutes les N minutes`, N without its leading zeros. */
  lemma CronMinutes(sec: string, n: string, tail: string)
    requires |sec| > 0 && AllDigits(sec) && |n| > 0 && AllDigits(n)
    ensures FromQuartzCron(sec + " 0/" + n + " * * * ?" + tail) == Ok(EveryPrefix + NatToString(DigitsValue(n)) + " minutes")
  {
    var rest := " * * * ?" + tail;
    Assoc(sec + " 0/" + n, " * * * ?", tail);
    PrefixOfConcat(" * * * ?", tail);
    MinutesCronOf(sec, n, rest);
    QuartzMinutes(sec + " 0/" + n + rest, n);
  }

  lemma QuartzMinutes(s: string, n: string)
    requires MinutesCron(s) == Some(n)
    ensures FromQuartzCron(s) == Ok(EveryPrefix + NatToString(DigitsValue(n)) + " minutes")
  {
  }

  lemma PrefixOfConcat(a: string, b: string)
    ensures a <= a + b
  {
    SplitAt(a, b);
  }

  /** `S M * * * ?` becomes `toutes les heures`. */
  lemma CronHourly(sec: string, m: string, tail: string)
    requires |sec| > 0 && AllDigits(sec) && |m| > 0 && AllDigits(m)
    ensures FromQuartzCron(sec + " " + m + " * * * ?" + tail) == Ok("toutes les heures")
  {
    var rest := " * * * ?" + tail;
    assert sec + " " + m + " * * * ?" + tail == sec + " " + m + rest;
    MinutesCronNone(sec, m, rest);
    PrefixOfConcat(" * * * ?", tail);
    HourlyCronOf(sec, m, rest);
  }

  /** `S M H * * ?` becomes `tous les jours à <H>h<M>`, a one-digit minute padded with a zero. */
  lemma CronDaily(sec: string, m: string, h: string, tail: string)
    requires |sec| > 0 && AllDigits(sec) && |m| > 0 && AllDigits(m) && |h| > 0 && AllDigits(h)
    ensures FromQuartzCron(sec + " " + m + " " + h + " * * ?" + tail) ==
              Ok(DailyAtPrefix + h + "h" + (if |m| == 1 then "0" + m else m))
  {
    var rest := " * * ?" + tail;
    var s := sec + " " + m + " " + h + rest;
    assert sec + " " + m + " " + h + " * * ?" + tail == s;
    FirstTwoNone(sec, m, h, rest);
    PrefixOfConcat(" * * ?", tail);
    DailyCronOf(sec, m, h, rest);
    PadDigits(m);
    QuartzDaily(s, m, h);
  }

  lemma QuartzDaily(s: string, m: string, h: string)
    requires MinutesCron(s).None? && HourlyCron(s).None? && DailyCron(s) == Some((m, h))
    ensures FromQuartzCron(s) == Ok(DailyAtPrefix + h + "h" + Pad(m))
  {
  }

  lemma PadDigits(m: string)
    requires |m| > 0 && AllDigits(m)
    ensures Pad(m) == if |m| == 1 then "0" + m else m
  {
  }

  /** A day of 30 or 31 in February becomes `jamais`. */
  lemma CronNever(sec: string, m: string, h: string, day: string)
    requires |sec| > 0 && AllDigits(sec) && |m| > 0 && AllDigits(m) && |h| > 0 && AllDigits(h)
    requires day == "30" || day == "31"
    ensures FromQuartzCron(sec + " " + m + " " + h + " " + day + " 2 ?") == Ok("jamais")
  {
    var rest := " " + day + " 2 ?";
    var s := sec + " " + m + " " + h + rest;
    NeverShape(sec, m, h, day, s);
    NoDailyMatch(sec, m, h, rest);
    QuartzNever(s);
  }

  lemma NeverShape(sec: string, m: string, h: string, day: string, s: string)
    requires day == "30" || day == "31"
    requires s == sec + " " + m + " " + h + (" " + day + " 2 ?")
    ensures s == sec + " " + m + " " + h + " " + day + " 2 ?"
    ensures NeverCron(s)
  {
    var x := sec + " " + m + " " + h;
    Assoc(x, " " + day, " 2 ?");
    Assoc(x, " ", day);
    Assoc(x + " ", day, " 2 ?");
    EndsWithConcat(x + " ", day + " 2 ?");
    if day == "30" {
      DayText30();
    } else {
      DayText31();
    }
  }

  lemma Assoc(a: string, b: string, c: string)
    ensures a + b + c == a + (b + c)
  {
  }

  lemma EndsWithConcat(a: string, b: string)
    ensures EndsWith(a + b, b)
  {
    SplitAt(a, b);
  }

  lemma DayText30()
    ensures "30" + " 2 ?" == "30 2 ?"
  {
  }

  lemma DayText31()
    ensures "31" + " 2 ?" == "31 2 ?"
  {
  }

  /** A minute and an hour followed by something other than ` * * ?` match none of the first three patterns. */
  lemma NoDailyMatch(sec: string, m: string, h: string, rest: string)
    requires |sec| > 0 && AllDigits(sec) && |m| > 0 && AllDigits(m) && |h| > 0 && AllDigits(h)
    requires |rest| > 1 && rest[0] == ' ' && rest[1] != '*'
    ensures var s := sec + " " + m + " " + h + rest;
            MinutesCron(s).None? && HourlyCron(s).None? && DailyCron(s).None?
  {
    NotPrefixAt(" * * ?", rest, 1);
    NotDigitAfter(sec, m, h, rest);
  }

  lemma NotDigitAfter(sec: string, m: string, h: string, rest: string)
    requires |sec| > 0 && AllDigits(sec) && |m| > 0 && AllDigits(m) && |h| > 0 && AllDigits(h)
    requires |rest| > 0 && rest[0] == ' ' && !(" * * ?" <= rest)
    ensures var s := sec + " " + m + " " + h + rest;
            MinutesCron(s).None? && HourlyCron(s).None? && DailyCron(s).None?
  {
    FirstTwoNone(sec, m, h, rest);
    DailyCronOf(sec, m, h, rest);
  }

  /** With a minute and an hour, neither the minutes nor the hourly pattern matches. */
  lemma FirstTwoNone(sec: string, m: string, h: string, rest: string)
    requires |sec| > 0 && AllDigits(sec) && |m| > 0 && AllDigits(m) && |h| > 0 && AllDigits(h)
    ensures var s := sec + " " + m + " " + h + rest;
            MinutesCron(s).None? && HourlyCron(s).None?
  {
    RegroupHourly(sec, m, h, rest);
    MinutesCronNone(sec, m, " " + (h + rest));
    HourlyCronNone(sec, m, h, rest);
  }

  lemma NotPrefixAt(p: string, s: string, i: nat)
    requires i < |p| && i < |s| && p[i] != s[i]
    ensures !(p <= s)
  {
  }

  lemma QuartzNever(s: string)
    requires MinutesCron(s).None? && HourlyCron(s).None? && DailyCron(s).None? && NeverCron(s)
    ensures FromQuartzCron(s) == Ok("jamais")
  {
  }

  /** The decimal text of a number reads back as that number. */
  lemma {:induction false} NatToStringValue(k: nat)
    ensures DigitsValue(NatToString(k)) == k
  {
    var s := NatToString(k);
    if k >= 10 {
      NatToStringValue(k / 10);
      assert s[..|s| - 1] == NatToString(k / 10);
    }
  }

  /** A one-digit minute padded with a zero keeps its value. */
  lemma PaddedValue(m: string)
    requires |m| > 0 && AllDigits(m)
    ensures AllDigits(Pad(m)) && DigitsValue(Pad(m)) == DigitsValue(m)
  {
    PadDigits(m);
    if |m| == 1 {
      var p := "0" + m;
      assert p[..1] == "0" && p[..1][..0] == [] && m[..0] == [];
    }
  }

  /**
   * What each converted cron means to the scheduler: a step of N minutes
   * lasts N minutes, hourly lasts an hour, and a daily time names its hour
   * and minute without being read as an interval.
   */
  lemma CronPeriodicityMeaning(s: string)
    requires FromQuartzCron(s).Ok?
    ensures var p := FromQuartzCron(s).value;
            && (MinutesCron(s).Some? ==> ToSeconds(p) == Some(DigitsValue(MinutesCron(s).value) * Minute))
            && (MinutesCron(s).None? && HourlyCron(s).Some? ==> ToSeconds(p) == Some(Hour))
            && (MinutesCron(s).None? && HourlyCron(s).None? && DailyCron(s).Some? ==>
                  var (m, h) := DailyCron(s).value;
                  ToSeconds(p).None? && DailyAt(p) == Some((DigitsValue(h), DigitsValue(m))))
            && (MinutesCron(s).None? && HourlyCron(s).None? && DailyCron(s).None? ==> p == "jamais")
  {
    match MinutesCron(s)
    case Some(n) =>
      MinutesText(DigitsValue(n));
    case None =>
      if HourlyCron(s).Some? {
        HourlyText();
      } else if DailyCron(s).Some? {
        var (m, h) := DailyCron(s).value;
        DailyText(m, h);
      }
  }

  /**
   * A step of zero minutes converts too: `S 0/0 * * * ?` becomes
   * `toutes les 0 minutes`, an interval of no time (and no daily time, see
   * `ZeroMinutesNotDaily`), which `next_elapse` refuses as a periodicity it
   * does not handle.
   */
  lemma ZeroMinutesCron(sec: string)
    requires |sec| > 0 && AllDigits(sec)
    ensures FromQuartzCron(sec + " 0/0 * * * ?") == Ok(EveryPrefix + "0" + " minutes")
    ensures ToSeconds(EveryPrefix + "0" + " minutes") == Some(0)
  {
    ZeroCronConverts(sec);
    ZeroText();
    ZeroMinutesSeconds();
  }

  lemma ZeroMinutesSeconds()
    ensures ToSeconds(EveryPrefix + "0" + " minutes") == Some(0)
  {
    MinutesText(0);
    ZeroText();
  }

  lemma ZeroCronConverts(sec: string)
    requires |sec| > 0 && AllDigits(sec)
    ensures FromQuartzCron(sec + " 0/0 * * * ?") == Ok(EveryPrefix + NatToString(DigitsValue("0")) + " minutes")
  {
    assert AllDigits("0");
    CronMinutes(sec, "0", "");
    ZeroCronText(sec);
  }

  lemma ZeroCronText(sec: string)
    ensures sec + " 0/" + "0" + " * * * ?" + "" == sec + " 0/0 * * * ?"
  {
    assert " 0/" + "0" + " * * * ?" + "" == " 0/0 * * * ?";
  }

  lemma ZeroText()
    ensures DigitsValue("0") == 0 && NatToString(0) == "0"
  {
    assert "0"[..0] == "";
  }

  lemma ZeroMinutesNotDaily()
    ensures DailyAt(EveryPrefix + "0" + " minutes").None?
  {
    var p := EveryPrefix + "0" + " minutes";
    assert p[2] == 'u' && DailyAtPrefix[2] == 'u';
    assert p[3] == 't' && DailyAtPrefix[3] == 's';
  }

  lemma MinutesText(k: nat)
    ensures ToSeconds(EveryPrefix + NatToString(k) + " minutes") == Some(k * Minute)
  {
    MinutesPeriodicity(NatToString(k));
    NatToStringValue(k);
  }

  lemma HourlyText()
    ensures ToSeconds("toutes les heures") == Some(Hour)
  {
    assert "toutes les heures" == EveryPrefix + "heures";
    HourlyPeriodicity();
  }

  lemma DailyText(m: string, h: string)
    requires |m| > 0 && AllDigits(m) && |h| > 0 && AllDigits(h)
    ensures var p := DailyAtPrefix + h + "h" + Pad(m);
            ToSeconds(p).None? && DailyAt(p) == Some((DigitsValue(h), DigitsValue(m)))
  {
    PaddedValue(m);
    DailyAtOf(h, Pad(m), "");
    assert DailyAtPrefix + h + "h" + Pad(m) + "" == DailyAtPrefix + h + "h" + Pad(m);
    DailyAtIsNotAnInterval(h, Pad(m));
  }

  // ------------------------------------------------ unique_name

  /** `migration_conf.remap_remote_cfg_name`: names forced per access type. */
  const RemapRemoteCfgName: map<string, map<string, string>> :=
    map["ldap" := map["apogee" := "ldap_apogee"], "db" := map["apogee" := "apogee"]]

  /** The short name asked for: the remapped one, else the name itself. */
  function ShortName(type_: string, name: string): string
    requires type_ in RemapRemoteCfgName
  {
    if name in RemapRemoteCfgName[type_] then RemapRemoteCfgName[type_][name] else name
  }

  /** The claims after `fullname` asks for `short`, and the name it gets. */
  function Claim(fullnames: map<string, string>, short: string, fullname: string): (r: (map<string, string>, string))
    ensures r.0.Keys == fullnames.Keys + {short}
    ensures forall k :: k in fullnames ==> r.0[k] == fullnames[k]
    ensures short !in fullnames ==> r.1 == short && r.0[short] == fullname
    ensures short in fullnames ==> r.1 == if fullnames[short] == fullname then short else fullname
  {
    var fullnames' := if short in fullnames then fullnames else fullnames[short := fullname];
    (fullnames', if fullnames'[short] == fullname then short else fullname)
  }

  /**
   * The first claimant of a short name keeps it; any other claimant gets
   * its full name, and the first one still gets the short name afterwards.
   */
  lemma FirstClaimWins(fullnames: map<string, string>, short: string, a: string, b: string)
    requires short !in fullnames && a != b
    ensures var (f1, n1) := Claim(fullnames, short, a);
            var (f2, n2) := Claim(f1, short, b);
            && n1 == short && n2 == b && f2 == f1
            && Claim(f2, short, a).1 == short
  {
  }

  /** The short names handed out for the remote configurations, by type and name. */
  class ShortNames {
    var fullnames: map<string, string>

    constructor ()
      ensures fullnames == map[]
    {
      fullnames := map[];
    }

    /** `unique_name`: the short name when this claimant owns it, else `<type>_<name>`. */
    method UniqueName(type_: string, name: string) returns (r: string)
      requires type_ in RemapRemoteCfgName
      modifies this
      ensures (fullnames, r) == Claim(old(fullnames), ShortName(type_, name), type_ + "_" + name)
    {
      var fullname := type_ + "_" + name;
      var name_ := ShortName(type_, name);
      if name_ !in fullnames {
        fullnames := fullnames[name_ := fullname];
      }
      r := if fullnames[name_] == fullname then name_ else fullname;
    }
  }

  // ------------------------------------------------ maxCount

  /** `maxBy(toPairs(counted), e => e[1])`: the first entry with the largest count. */
  function MaxBy<K>(counted: MyMap<K, nat>): (r: Option<(K, nat)>)
    ensures r.None? <==> |counted| == 0
    ensures r.Some? ==> exists i :: 0 <= i < |counted| && counted[i] == r.value &&
                                    forall j :: 0 <= j < i ==> counted[j].1 < r.value.1
    ensures r.Some? ==> forall j :: 0 <= j < |counted| ==> counted[j].1 <= r.value.1
  {
    if |counted| == 0 then None
    else
      var n := |counted| - 1;
      var prev := MaxBy(counted[..n]);
      assert forall j :: 0 <= j < n ==> counted[..n][j] == counted[j];
      if prev.None? || counted[n].1 > prev.value.1 then Some(counted[n]) else prev
  }

  /** `maxCount`: the key with the largest count, the first one on a tie; none for an empty count. */
  function MaxCount<K>(counted: MyMap<K, nat>): (r: Option<K>)
    ensures r.None? <==> |counted| == 0
    ensures r.Some? ==> exists i :: 0 <= i < |counted| && counted[i].0 == r.value &&
                                    (forall j :: 0 <= j < |counted| ==> counted[j].1 <= counted[i].1) &&
                                    (forall j :: 0 <= j < i ==> counted[j].1 < counted[i].1)
  {
    match MaxBy(counted)
    case None => None
    case Some((k, _)) => Some(k)
  }

  // ------------------------------------------------ remove_unneeded_forced_periodicites

  /** The query with another forced periodicity. */
  function WithForced(rq: RemoteQuery, forced: Option<string>): (r: RemoteQuery)
    ensures r.RemoteCfgName() == rq.RemoteCfgName() && r.ForcedPeriodicity() == forced
  {
    match rq
    case Sql(q) => Sql(q.(forced_periodicity := forced))
    case Ldap(q) => Ldap(q.(forced_periodicity := forced))
  }

  /** `periodicities[rq.remote_cfg_name]` */
  function DefaultPeriodicity(periodicities: map<string, string>, remote: string): Option<string>
  {
    if remote in periodicities then Some(periodicities[remote]) else None
  }

  /** One query after `remove_unneeded_forced_periodicites`: its forced periodicity goes when it is the default. */
  function DropUnneeded(rq: RemoteQuery, periodicities: map<string, string>): RemoteQuery
  {
    if rq.ForcedPeriodicity() == DefaultPeriodicity(periodicities, rq.RemoteCfgName()) then WithForced(rq, None) else rq
  }

  /** The periodicity a query runs at: its forced one, else its remote's. */
  function EffectivePeriodicity(rq: RemoteQuery, periodicities: map<string, string>): Option<string>
  {
    match rq.ForcedPeriodicity()
    case Some(p) => Some(p)
    case None => DefaultPeriodicity(periodicities, rq.RemoteCfgName())
  }

  /**
   * Dropping a forced periodicity never changes when a query runs, and a
   * forced periodicity is dropped exactly when it is the remote's default.
   */
  lemma DropUnneededKeepsPeriodicity(rq: RemoteQuery, periodicities: map<string, string>)
    ensures EffectivePeriodicity(DropUnneeded(rq, periodicities), periodicities) == EffectivePeriodicity(rq, periodicities)
    ensures DropUnneeded(rq, periodicities).ForcedPeriodicity().None? <==>
              rq.ForcedPeriodicity().None? || rq.ForcedPeriodicity() == DefaultPeriodicity(periodicities, rq.RemoteCfgName())
    ensures DropUnneeded(rq, periodicities) == WithForced(rq, DropUnneeded(rq, periodicities).ForcedPeriodicity())
  {
    if rq.ForcedPeriodicity() != DefaultPeriodicity(periodicities, rq.RemoteCfgName()) {
      assert WithForced(rq, rq.ForcedPeriodicity()) == rq by {
        match rq
        case Sql(q) => assert q.(forced_periodicity := q.forced_periodicity) == q;
        case Ldap(q) => assert q.(forced_periodicity := q.forced_periodicity) == q;
      }
    }
  }

  /** `remove_unneeded_forced_periodicites`: every query of the table is updated in place. */
  method RemoveUnneededForcedPeriodicities(remote_queries: array<(string, RemoteQuery)>, periodicities: map<string, string>)
    modifies remote_queries
    ensures forall i :: 0 <= i < remote_queries.Length ==>
              remote_queries[i] == (old(remote_queries[i]).0, DropUnneeded(old(remote_queries[i]).1, periodicities))
  {
    var i := 0;
    while i < remote_queries.Length
      invariant 0 <= i <= remote_queries.Length
      invariant forall j :: 0 <= j < i ==>
                  remote_queries[j] == (old(remote_queries[j]).0, DropUnneeded(old(remote_queries[j]).1, periodicities))
      invariant forall j :: i <= j < remote_queries.Length ==> remote_queries[j] == old(remote_queries[j])
    {
      var (id, rq) := remote_queries[i];
      if rq.ForcedPeriodicity() == DefaultPeriodicity(periodicities, rq.RemoteCfgName()) {
        remote_queries[i] := (id, WithForced(rq, None));
      }
      i := i + 1;
    }
  }
}
