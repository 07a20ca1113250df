/** The free functions of `warcraftlogs/api.py`: pulling a report code out of
    a report URL, and formatting a number of seconds. */
module Helpers {
  import opened Json
  import opened PyStr

  /** The path segment that precedes a report code in a report URL. */
  const ReportsMarker: string := "reports/"

  /** `get_id_from_url`: the text after the last `reports/`, cut at the first `#`. */
  function GetIdFromUrl(url: string): (r: Option<string>)
    ensures r.None? <==> |url| == 0 || !Occurs(url, ReportsMarker)
    ensures r.Some? ==> '#' !in r.value
  {
    if |url| == 0 || !Occurs(url, ReportsMarker) then None
    else
      var parts := Split(url, ReportsMarker);
      var code := Split(parts[|parts| - 1], "#")[0];
      SplitPiecesFree(parts[|parts| - 1], "#", 0);
      NoHashWhenNotOccurs(code);
      Some(code)
  }

  lemma NoHashWhenNotOccurs(s: string)
    requires !Occurs(s, "#")
    ensures '#' !in s
  {
    forall i | 0 <= i < |s| ensures s[i] != '#' {
      if s[i] == '#' {
        assert s[i..i + 1] == "#";
        assert OccursAt(s, "#", i);
      }
    }
  }

  /** `code` sits right after an occurrence of `reports/` ending at `k`, no
      `reports/` follows `k`, and `code` runs up to the next `#` or the end. */
  predicate CodeAfterLastMarker(url: string, k: nat, code: string) {
    |ReportsMarker| <= k <= |url| && url[k - |ReportsMarker|..k] == ReportsMarker &&
    !Occurs(url[k..], ReportsMarker) &&
    k + |code| <= |url| && url[k..k + |code|] == code &&
    (k + |code| == |url| || url[k + |code|] == '#')
  }

  /** Whatever `get_id_from_url` returns is the text after the last `reports/`
      up to the first `#`. */
  lemma GetIdFromUrlLocatesCode(url: string)
    requires GetIdFromUrl(url).Some?
    ensures exists k: nat :: CodeAfterLastMarker(url, k, GetIdFromUrl(url).value)
  {
    var parts := Split(url, ReportsMarker);
    var last := parts[|parts| - 1];
    var code := GetIdFromUrl(url).value;
    SplitLastPiece(url, ReportsMarker);
    SplitPiecesFree(url, ReportsMarker, |parts| - 1);
    SplitFirstPiece(last, "#");
    var k := |url| - |last|;
    assert url[k..] == last;
    assert url[k..k + |code|] == last[..|code|];
    if k + |code| < |url| {
      assert |code| < |last|;
      assert OccursAt(last, "#", |code|);
      assert last[|code|..|code| + 1] == "#";
      assert last[|code|] == '#';
      assert url[k + |code|] == last[|code|];
    }
    assert CodeAfterLastMarker(url, k, code);
  }

  /** No occurrence of `reports/` fits in a text that lacks one of its characters. */
  lemma NoMarkerIn(t: string, ch: char)
    requires ch in ReportsMarker && ch !in t
    ensures !Occurs(t, ReportsMarker)
  {
    var p :| 0 <= p < |ReportsMarker| && ReportsMarker[p] == ch;
    forall i: nat | i <= |t| ensures !OccursAt(t, ReportsMarker, i) {
      if i + |ReportsMarker| <= |t| {
        assert t[i..i + |ReportsMarker|][p] == t[i + p];
      }
    }
  }

  /** A text without `sep` has no slice equal to `sep`. */
  lemma NotOccursAt(t: string, sep: string, p: nat)
    requires !Occurs(t, sep) && p + |sep| <= |t|
    ensures t[p..p + |sep|] != sep
  {
    assert !OccursAt(t, sep, p);
  }

  /** The character at `p` of an occurrence of `reports/` starting at `j`. */
  lemma MarkerCharAt(s: string, j: nat, p: nat)
    requires OccursAt(s, ReportsMarker, j) && j <= p < j + |ReportsMarker|
    ensures s[p] == ReportsMarker[p - j]
  {
    assert s[j..j + |ReportsMarker|][p - j] == s[p];
  }

  /** `reports/` has no border (its only `/` is its last character), so two of
      its occurrences never overlap. */
  lemma MarkerNoOverlap(s: string, i: nat, j: nat)
    requires OccursAt(s, ReportsMarker, i) && OccursAt(s, ReportsMarker, j) && i < j
    ensures i + |ReportsMarker| <= j
  {
    MarkerCharAt(s, i, i + 7);
    if j <= i + 7 {
      MarkerCharAt(s, j, i + 7);
      assert false;
    }
  }

  /** In `site + "reports/" + rest` with no `reports/` in `rest`, the last
      `reports/` is the one right after `site`. */
  lemma LastMarkerAfterSite(site: string, rest: string, k: nat)
    requires !Occurs(rest, ReportsMarker)
    requires var url := site + ReportsMarker + rest;
      |ReportsMarker| <= k <= |url| && url[k - |ReportsMarker|..k] == ReportsMarker &&
      !Occurs(url[k..], ReportsMarker)
    ensures k == |site| + |ReportsMarker|
  {
    var url := site + ReportsMarker + rest;
    var k0 := |site| + |ReportsMarker|;
    assert url[|site|..k0] == ReportsMarker;
    assert url[k0..] == rest;
    assert OccursAt(url, ReportsMarker, |site|);
    assert OccursAt(url, ReportsMarker, k - |ReportsMarker|);
    if k < k0 {
      MarkerNoOverlap(url, k - |ReportsMarker|, |site|);
      assert url[k..][|site| - k..k0 - k] == url[|site|..k0];
      NotOccursAt(url[k..], ReportsMarker, |site| - k);
      assert false;
    }
    if k > k0 {
      MarkerNoOverlap(url, |site|, k - |ReportsMarker|);
      assert rest[k - |ReportsMarker| - k0..k - k0] == url[k - |ReportsMarker|..k];
      NotOccursAt(rest, ReportsMarker, k - |ReportsMarker| - k0);
      assert false;
    }
  }

  /** A `#`-free prefix of `code + "#" + fragment` that ends at a `#` or at
      the end is `code` itself, when `code` has no `#`. */
  lemma PrefixUpToHash(code: string, fragment: string, c: string)
    requires '#' !in code && '#' !in c
    requires var rest := code + "#" + fragment;
      |c| <= |rest| && rest[..|c|] == c && (|c| == |rest| || rest[|c|] == '#')
    ensures c == code
  {
    var rest := code + "#" + fragment;
    assert rest[|code|] == '#';
    assert forall i :: 0 <= i < |code| ==> rest[i] == code[i];
    assert forall i :: 0 <= i < |c| ==> rest[i] == c[i];
    if |c| < |code| {
      assert false;
    }
    if |c| > |code| {
      assert false;
    }
    assert c == rest[..|code|];
  }

  /** A report link `site + "reports/" + code + "#" + fragment` yields exactly
      `code`, whatever the site, as long as the code has no `#` and no
      `reports/` follows the marker. */
  lemma GetIdFromUrlOfLink(site: string, code: string, fragment: string)
    requires '#' !in code && !Occurs(code + "#" + fragment, ReportsMarker)
    ensures GetIdFromUrl(site + ReportsMarker + code + "#" + fragment) == Some(code)
  {
    var rest := code + "#" + fragment;
    var url := site + ReportsMarker + rest;
    assert url == site + ReportsMarker + code + "#" + fragment;
    var k0 := |site| + |ReportsMarker|;
    assert url[|site|..k0] == ReportsMarker;
    assert OccursAt(url, ReportsMarker, |site|);
    var c := GetIdFromUrl(url).value;
    GetIdFromUrlLocatesCode(url);
    var k: nat :| CodeAfterLastMarker(url, k, c);
    LastMarkerAfterSite(site, rest, k);
    assert url[k0..] == rest;
    assert rest[..|c|] == url[k0..k0 + |c|];
    PrefixUpToHash(code, fragment, c);
  }

  /** The examples of the report-link handler: a link with a fragment, a link
      that is not a report link, and the empty string. */
  lemma GetIdFromUrlExample()
    ensures GetIdFromUrl("https://vanilla.warcraftlogs.com/" + "reports/" + "ABC123" + "#" +
                         "boss=-2&wipes=2&view=rankings") == Some("ABC123")
    ensures GetIdFromUrl("https://x/fights/ABC123") == None
    ensures GetIdFromUrl("") == None
  {
    NoMarkerIn("ABC123" + "#" + "boss=-2&wipes=2&view=rankings", '/');
    GetIdFromUrlOfLink("https://vanilla.warcraftlogs.com/", "ABC123", "boss=-2&wipes=2&view=rankings");
    NoMarkerIn("https://x/fights/ABC123", 'r');
  }

  /** `sec_to_str`: `HhMm` above an hour, `MmSs` above a minute, `Ss` otherwise. */
  function SecToStr(sec: int): (s: string)
    ensures |s| >= 2
    ensures s[|s| - 1] == (if sec > 3600 then 'm' else 's')
    ensures IsDigit(s[0]) <==> sec >= 0
  {
    if sec > 3600 then IntToString(sec / 3600) + "h" + IntToString((sec % 3600) / 60) + "m"
    else if sec > 60 then IntToString(sec / 60) + "m" + IntToString(sec % 60) + "s"
    else IntToString(sec) + "s"
  }

  /** Reads back a number followed by the single letter `unit`. */
  function ParseUnit(t: string, unit: char): Option<nat> {
    var k := LeadingDigits(t);
    if 0 < k && k + 1 == |t| && t[k] == unit then Some(ParseNat(t[..k])) else None
  }

  /** The number of seconds a `HhMm`, `MmSs` or `Ss` string denotes. */
  function ParseDuration(t: string): Option<nat> {
    match ParseUnit(t, 's')
    case Some(s) => Some(s)
    case None =>
      var k := LeadingDigits(t);
      if k == 0 || k == |t| then None
      else
        var lead := ParseNat(t[..k]);
        if t[k] == 'm' then
          (match ParseUnit(t[k + 1..], 's') case Some(s) => Some(lead * 60 + s) case None => None)
        else if t[k] == 'h' then
          (match ParseUnit(t[k + 1..], 'm') case Some(m) => Some(lead * 3600 + m * 60) case None => None)
        else None
  }

  lemma ParseUnitOf(n: nat, unit: char)
    requires !IsDigit(unit)
    ensures ParseUnit(NatToString(n) + [unit], unit) == Some(n)
  {
    var t := NatToString(n) + [unit];
    LeadingDigitsOfDigits(NatToString(n), [unit]);
    assert t[..|NatToString(n)|] == NatToString(n);
    ParseNatToString(n);
  }

  /** Splits `t = d + [c] + rest` where `d` is the leading number. */
  lemma LeadOf(n: nat, c: char, rest: string)
    requires !IsDigit(c)
    ensures var t := NatToString(n) + [c] + rest;
      var k := |NatToString(n)|;
      LeadingDigits(t) == k && k < |t| && t[k] == c && t[..k] == NatToString(n) &&
      t[k + 1..] == rest && ParseNat(t[..k]) == n
  {
    var t := NatToString(n) + [c] + rest;
    assert t == NatToString(n) + ([c] + rest);
    LeadingDigitsOfDigits(NatToString(n), [c] + rest);
    ParseNatToString(n);
  }

  lemma ParseHoursMinutes(h: nat, m: nat)
    ensures ParseDuration(NatToString(h) + "h" + NatToString(m) + "m") == Some(h * 3600 + m * 60)
  {
    var t := NatToString(h) + "h" + NatToString(m) + "m";
    assert t == NatToString(h) + ['h'] + (NatToString(m) + "m");
    LeadOf(h, 'h', NatToString(m) + "m");
    ParseUnitOf(m, 'm');
    assert ParseUnit(t, 's') == None;
  }

  lemma HoursMinutesSeconds(sec: nat)
    ensures sec == (sec / 3600) * 3600 + ((sec % 3600) / 60) * 60 + sec % 60
  {
    var h, r := sec / 3600, sec % 3600;
    assert sec == h * 3600 + r;
    var m, q := r / 60, r % 60;
    assert r == m * 60 + q;
    assert sec == (h * 60 + m) * 60 + q;
    assert 0 <= q < 60;
  }

  lemma ReadBackHours(sec: nat)
    requires sec > 3600
    ensures ParseDuration(SecToStr(sec)) == Some(sec - sec % 60)
  {
    var h, m := sec / 3600, (sec % 3600) / 60;
    assert SecToStr(sec) == NatToString(h) + "h" + NatToString(m) + "m";
    ParseHoursMinutes(h, m);
    HoursMinutesSeconds(sec);
  }

  lemma ParseMinutesSeconds(m: nat, s: nat)
    ensures ParseDuration(NatToString(m) + "m" + NatToString(s) + "s") == Some(m * 60 + s)
  {
    var t := NatToString(m) + "m" + NatToString(s) + "s";
    assert t == NatToString(m) + ['m'] + (NatToString(s) + "s");
    LeadOf(m, 'm', NatToString(s) + "s");
    ParseUnitOf(s, 's');
    assert ParseUnit(t, 's') == None;
  }

  lemma ReadBackMinutes(sec: nat)
    requires 60 < sec <= 3600
    ensures ParseDuration(SecToStr(sec)) == Some(sec)
  {
    ParseMinutesSeconds(sec / 60, sec % 60);
  }

  /** Reading a formatted duration back gives the seconds, rounded down to the
      minute above one hour. */
  lemma SecToStrReadBack(sec: nat)
    ensures ParseDuration(SecToStr(sec)) == Some(if sec > 3600 then sec - sec % 60 else sec)
  {
    if sec > 3600 {
      ReadBackHours(sec);
    } else if sec > 60 {
      ReadBackMinutes(sec);
    } else {
      ParseUnitOf(sec, 's');
    }
  }

  /** The shape of a `sec_to_str` text: `Ss` up to a minute, `MmSs` with at
      least one minute and fewer than 60 seconds up to an hour, and `HhMm` with
      at least one hour and fewer than 60 minutes above. */
  lemma SecToStrForm(sec: nat)
    ensures sec <= 60 ==> SecToStr(sec) == NatToString(sec) + "s"
    ensures 60 < sec <= 3600 ==> exists m: nat, s: nat ::
      1 <= m && s < 60 && SecToStr(sec) == NatToString(m) + "m" + NatToString(s) + "s"
    ensures 3600 < sec ==> exists h: nat, m: nat ::
      1 <= h && m < 60 && SecToStr(sec) == NatToString(h) + "h" + NatToString(m) + "m"
  {
    if 3600 < sec {
      var h, m := sec / 3600, (sec % 3600) / 60;
      assert SecToStr(sec) == NatToString(h) + "h" + NatToString(m) + "m";
    } else if 60 < sec {
      var m, s := sec / 60, sec % 60;
      assert SecToStr(sec) == NatToString(m) + "m" + NatToString(s) + "s";
    }
  }

  /** Up to an hour, a `MmSs` text with fewer than 60 seconds that reads back
      as `sec` is the text of `sec`: the form and the value fix the string. */
  lemma MinutesFormUnique(sec: nat, m: nat, s: nat)
    requires 60 < sec <= 3600 && s < 60
    requires ParseDuration(NatToString(m) + "m" + NatToString(s) + "s") == Some(sec)
    ensures SecToStr(sec) == NatToString(m) + "m" + NatToString(s) + "s"
  {
    ParseMinutesSeconds(m, s);
    DivModUnique(sec, 60, m, s);
  }

  /** Above an hour, a `HhMm` text with fewer than 60 minutes that reads back
      as `sec` cut to the minute is the text of `sec`. */
  lemma HoursFormUnique(sec: nat, h: nat, m: nat)
    requires 3600 < sec && m < 60
    requires ParseDuration(NatToString(h) + "h" + NatToString(m) + "m") == Some(sec - sec % 60)
    ensures SecToStr(sec) == NatToString(h) + "h" + NatToString(m) + "m"
  {
    ParseHoursMinutes(h, m);
    var q := sec % 60;
    assert sec == (h * 60 + m) * 60 + q;
    DivModUnique(sec, 60, h * 60 + m, q);
    DivModUnique(sec / 60, 60, h, m);
    DivModUnique(sec, 3600, h, m * 60 + q);
    DivModUnique(sec % 3600, 60, m, q);
  }

  /** The examples of the duration formatter, including the one-hour boundary. */
  lemma SecToStrExamples()
    ensures SecToStr(45) == "45s"
    ensures SecToStr(60) == "60s"
    ensures SecToStr(125) == "2m5s"
    ensures SecToStr(3600) == "60m0s"
    ensures SecToStr(3725) == "1h2m"
  {
  }

  /** `timedelta.seconds` of a duration of `ms` milliseconds: the whole seconds
      left after taking out whole days (floor), so never negative. */
  function DaySeconds(ms: int): (s: nat)
    ensures s < 86400
  {
    (ms % 86_400_000) / 1000
  }

  /** Euclidean division by a positive constant has one quotient and one
      remainder. */
  lemma DivModUnique(a: int, m: int, x: int, y: int)
    requires m > 0 && a == x * m + y && 0 <= y < m
    ensures a / m == x && a % m == y
  {
    var d := a / m - x;
    assert d * m == y - a % m;
  }

  /** `timedelta` normal form: days (floored), seconds in a day, sub-second rest. */
  lemma DaySecondsNormalForm(ms: int)
    ensures ms == (ms / 86_400_000) * 86_400_000 + DaySeconds(ms) * 1000 + ms % 1000
  {
    var days, r := ms / 86_400_000, ms % 86_400_000;
    assert ms == days * 86_400_000 + r;
    var secs, sub := r / 1000, r % 1000;
    assert r == secs * 1000 + sub;
    assert ms == (days * 86_400 + secs) * 1000 + sub;
    DivModUnique(ms, 1000, days * 86_400 + secs, sub);
  }

  /** `duration_str` of Fight and Report: `sec_to_str(duration.seconds)`. */
  function DurationStr(ms: int): (s: string)
    ensures |s| >= 2 && IsDigit(s[0]) && s[|s| - 1] in {'m', 's'}
  {
    SecToStr(DaySeconds(ms))
  }

  /** A duration string always reads back as a count below one day, so a
      negative or multi-day duration never prints a minus sign. */
  lemma DurationStrReadBack(ms: int)
    ensures ParseDuration(DurationStr(ms)).Some?
    ensures ParseDuration(DurationStr(ms)).value < 86400
    ensures IsDigit(DurationStr(ms)[0])
  {
    SecToStrReadBack(DaySeconds(ms));
  }
}
