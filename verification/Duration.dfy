/** Durations such as 24h, 1h30min and 90min (src/convertions.cpp:159-197, src/domain.cpp:66-98). */
module Duration {
  import opened Tables
  import opened Decimal

  const MAX_INT32: nat := 0x7fff_ffff

  /** A matched number that lexical_cast refuses; a product the C++ type cannot hold. */
  datatype Decoded = Seconds(value: nat) | CannotCast | Overflow

  function LeadingDigits(s: string): (n: nat)
    ensures n <= |s| && AllDigits(s[..n])
    ensures n < |s| ==> !IsDigit(s[n])
  {
    if s == "" || !IsDigit(s[0]) then 0
    else
      var n := LeadingDigits(s[1..]);
      assert s[..n + 1] == [s[0]] + s[1..][..n];
      1 + n
  }

  /** The digits of "^([[:digit:]]+)h". */
  function Hours(s: string): (r: Option<string>)
    ensures r.Some? ==> AllDigits(r.value)
  {
    var n := LeadingDigits(s);
    if 0 < n < |s| && s[n] == 'h' then Some(s[..n]) else None
  }

  /** The start of the run of digits the text ends in. */
  function TrailingDigits(s: string): (i: nat)
    ensures i <= |s| && AllDigits(s[i..])
    ensures i > 0 ==> !IsDigit(s[i - 1])
  {
    if s == "" || !IsDigit(s[|s| - 1]) then |s|
    else
      var i := TrailingDigits(s[..|s| - 1]);
      assert s[i..] == s[..|s| - 1][i..] + [s[|s| - 1]];
      i
  }

  /** The digits of "([[:digit:]]+)min$"; the leftmost match takes the whole run. */
  function Minutes(s: string): (r: Option<string>)
    ensures r.Some? ==> AllDigits(r.value)
  {
    if |s| < 3 || s[|s| - 3..] != "min" then None
    else
      var before := s[..|s| - 3];
      var i := TrailingDigits(before);
      if i < |before| then Some(before[i..]) else None
  }

  function Part(digits: Option<string>, unit: nat, max: nat): Decoded
    requires digits.Some? ==> AllDigits(digits.value)
  {
    if digits.None? then Seconds(0)
    else if Read(digits.value) > max then CannotCast
    else if Read(digits.value) * unit > max then Overflow
    else Seconds(Read(digits.value) * unit)
  }

  /** A number too large for the type is refused as such, and one whose product is too large overflows. */
  lemma Refusals(digits: string, unit: nat, max: nat)
    requires AllDigits(digits)
    ensures Part(None, unit, max) == Seconds(0)
    ensures Part(Some(digits), unit, max) == CannotCast <==> Read(digits) > max
    ensures Part(Some(digits), unit, max) == Overflow <==> Read(digits) <= max && Read(digits) * unit > max
  {
  }

  /** Both parsers, on numbers up to max: 32 bits in the domain's constructor, 64 in the conversion. */
  function Decode(s: string, max: nat): Decoded {
    var h := Part(Hours(s), 3600, max);
    var m := Part(Minutes(s), 60, max);
    if !h.Seconds? then h else if !m.Seconds? then m else Seconds(h.value + m.value)
  }

  method BuildUnixTime(time: string, max: nat) returns (r: Decoded)
    ensures r == Decode(time, max)
  {
    var result := 0;
    var hour := Hours(time);
    if hour.Some? {
      var part := Part(hour, 3600, max);
      if !part.Seconds? {
        return part;
      }
      result := result + part.value;
    }
    var minute := Minutes(time);
    if minute.Some? {
      var part := Part(minute, 60, max);
      if !part.Seconds? {
        return part;
      }
      result := result + part.value;
    }
    r := Seconds(result);
  }

  /** The constructor refuses a zero duration; None stands for its exceptions and for overflow. */
  method PlanningDuration(dayDuration: string) returns (r: Option<nat>)
    ensures r.Some? <==> Decode(dayDuration, MAX_INT32).Seconds? && Decode(dayDuration, MAX_INT32).value > 0
    ensures r.Some? ==> Decode(dayDuration, MAX_INT32) == Seconds(r.value)
    ensures r.Some? ==> r.value >= 60 && r.value % 60 == 0
  {
    var d := BuildUnixTime(dayDuration, MAX_INT32);
    if d.Seconds? {
      WholeMinutes(dayDuration, MAX_INT32);
    }
    if d.Seconds? && d.value != 0 {
      return Some(d.value);
    }
    return None;
  }

  lemma PartIsMinutes(digits: Option<string>, unit: nat, max: nat)
    requires digits.Some? ==> AllDigits(digits.value)
    requires unit == 60 || unit == 3600
    ensures Part(digits, unit, max).Seconds? ==> Part(digits, unit, max).value % 60 == 0
  {
    if digits.Some? {
      WholeUnits(Read(digits.value), unit);
    }
  }

  lemma WholeUnits(n: nat, unit: nat)
    requires unit == 60 || unit == 3600
    ensures (n * unit) % 60 == 0
  {
    if unit == 60 {
      assert n * unit == 60 * n;
    } else {
      assert n * unit == 60 * (60 * n);
    }
  }

  /** Every duration decoded is a whole number of minutes. */
  lemma WholeMinutes(s: string, max: nat)
    requires Decode(s, max).Seconds?
    ensures Decode(s, max).value % 60 == 0
  {
    PartIsMinutes(Hours(s), 3600, max);
    PartIsMinutes(Minutes(s), 60, max);
    SumOfMinutes(Part(Hours(s), 3600, max).value, Part(Minutes(s), 60, max).value);
  }

  lemma SumOfMinutes(a: nat, b: nat)
    requires a % 60 == 0 && b % 60 == 0
    ensures (a + b) % 60 == 0
  {
  }

  /** What the narrower parser accepts the wider one reads the same. */
  lemma ParsersAgree(s: string, small: nat, large: nat)
    requires small <= large && Decode(s, small).Seconds?
    ensures Decode(s, large) == Decode(s, small)
  {
  }

  lemma {:induction false} LeadingRun(a: string, b: string)
    requires AllDigits(a) && (b == "" || !IsDigit(b[0]))
    ensures LeadingDigits(a + b) == |a|
  {
    if a == "" {
      assert a + b == b;
    } else {
      assert (a + b)[1..] == a[1..] + b;
      LeadingRun(a[1..], b);
    }
  }

  lemma {:induction false} TrailingRun(a: string, b: string)
    requires AllDigits(b) && (a == "" || !IsDigit(a[|a| - 1]))
    ensures TrailingDigits(a + b) == |a|
  {
    if b == "" {
      assert a + b == a;
    } else {
      assert (a + b)[..|a + b| - 1] == a + b[..|b| - 1];
      TrailingRun(a, b[..|b| - 1]);
    }
  }

  /** The hours are the digits the text begins with, when an 'h' follows them. */
  lemma HoursForm(s: string, d: string)
    ensures Hours(s) == Some(d) <==> d != "" && AllDigits(d) && d + "h" <= s
  {
    var n := LeadingDigits(s);
    if d != "" && AllDigits(d) && d + "h" <= s {
      var rest := s[|d|..];
      assert s[..|d|] == (d + "h")[..|d|] == d && s[|d|] == (d + "h")[|d|];
      assert s == d + rest && rest[0] == 'h';
      LeadingRun(d, rest);
    }
    if Hours(s) == Some(d) {
      assert s[..n + 1] == d + "h";
    }
  }

  /** The minutes are all the digits before a final "min". */
  lemma MinutesForm(s: string, before: string, d: string)
    requires s == before + d + "min" && AllDigits(d) && (before == "" || !IsDigit(before[|before| - 1]))
    ensures Minutes(s) == if d == "" then None else Some(d)
  {
    assert s[|s| - 3..] == "min" && s[..|s| - 3] == before + d;
    TrailingRun(before, d);
    assert (before + d)[|before|..] == d;
  }

  /** Leading zeros do not count. */
  lemma {:induction false} LeadingZero(s: string)
    requires AllDigits(s)
    ensures AllDigits("0" + s) && Read("0" + s) == Read(s)
  {
    if s != "" {
      var front := s[..|s| - 1];
      LeadingZero(front);
      assert ("0" + s)[..|s|] == "0" + front;
    } else {
      assert "0" + s == "0" && "0"[..0] == "";
    }
  }

  /** The three written forms. */
  function HoursMinutes(h: nat, m: nat): string {
    Print(h) + "h" + Print(m) + "min"
  }

  function OnlyHours(h: nat): string {
    Print(h) + "h"
  }

  function OnlyMinutes(m: nat): string {
    Print(m) + "min"
  }

  lemma HoursRead(h: nat, rest: string)
    ensures Hours(Print(h) + "h" + rest) == Some(Print(h))
  {
    var s := Print(h) + "h" + rest;
    assert s == Print(h) + ("h" + rest);
    LeadingRun(Print(h), "h" + rest);
    assert s[..|Print(h)|] == Print(h) && s[|Print(h)|] == 'h';
  }

  lemma MinutesRead(before: string, m: nat)
    requires before == "" || !IsDigit(before[|before| - 1])
    ensures Minutes(before + Print(m) + "min") == Some(Print(m))
  {
    var s := before + Print(m) + "min";
    assert s[|s| - 3..] == "min" && s[..|s| - 3] == before + Print(m);
    TrailingRun(before, Print(m));
    assert (before + Print(m))[|before|..] == Print(m);
  }

  lemma PartOfPrinted(n: nat, unit: nat, max: nat)
    requires unit == 60 || unit == 3600
    ensures var p := Part(Some(Print(n)), unit, max);
            (p.Seconds? <==> n * unit <= max) && (p.Seconds? ==> p.value == n * unit)
  {
    ReadPrint(n);
    assert unit == 60 ==> n * unit == 60 * n;
    assert unit == 3600 ==> n * unit == 3600 * n;
  }

  lemma HoursMinutesMatch(h: nat, m: nat)
    ensures Hours(HoursMinutes(h, m)) == Some(Print(h)) && Minutes(HoursMinutes(h, m)) == Some(Print(m))
  {
    assert HoursMinutes(h, m) == Print(h) + "h" + (Print(m) + "min");
    HoursRead(h, Print(m) + "min");
    MinutesRead(Print(h) + "h", m);
  }

  lemma OnlyHoursMatch(h: nat)
    ensures Hours(OnlyHours(h)) == Some(Print(h)) && Minutes(OnlyHours(h)) == None
  {
    var s := OnlyHours(h);
    assert s == Print(h) + "h" + "";
    HoursRead(h, "");
    if |s| >= 3 {
      assert s[|s| - 3..][2] == 'h';
    }
  }

  lemma OnlyMinutesMatch(m: nat)
    ensures Hours(OnlyMinutes(m)) == None && Minutes(OnlyMinutes(m)) == Some(Print(m))
  {
    var s := OnlyMinutes(m);
    LeadingRun(Print(m), "min");
    assert s[|Print(m)|] == 'm';
    MinutesRead("", m);
    assert "" + Print(m) + "min" == s;
  }

  function MaybePrint(n: Option<nat>): Option<string> {
    if n.Some? then Some(Print(n.value)) else None
  }

  /** A text whose matched parts are printed numbers decodes to their sum when the products fit,
      and to no number otherwise. */
  lemma DecodeParts(s: string, h: Option<nat>, m: Option<nat>, max: nat)
    requires Hours(s) == MaybePrint(h) && Minutes(s) == MaybePrint(m)
    ensures Decode(s, max).Seconds? <==> h.GetOr(0) * 3600 <= max && m.GetOr(0) * 60 <= max
    ensures Decode(s, max).Seconds? ==> Decode(s, max).value == 3600 * h.GetOr(0) + 60 * m.GetOr(0)
  {
    PartOfPrinted(h.GetOr(0), 3600, max);
    PartOfPrinted(m.GetOr(0), 60, max);
  }

  /** Each written form decodes to 3600 h + 60 m if its products fit the type, and not at all otherwise. */
  lemma WrittenForms(h: nat, m: nat, max: nat)
    ensures Decode(HoursMinutes(h, m), max).Seconds? <==> h * 3600 <= max && m * 60 <= max
    ensures Decode(HoursMinutes(h, m), max).Seconds? ==> Decode(HoursMinutes(h, m), max).value == 3600 * h + 60 * m
    ensures Decode(OnlyHours(h), max).Seconds? <==> h * 3600 <= max
    ensures Decode(OnlyHours(h), max).Seconds? ==> Decode(OnlyHours(h), max).value == 3600 * h
    ensures Decode(OnlyMinutes(m), max).Seconds? <==> m * 60 <= max
    ensures Decode(OnlyMinutes(m), max).Seconds? ==> Decode(OnlyMinutes(m), max).value == 60 * m
  {
    HoursMinutesMatch(h, m);
    OnlyHoursMatch(h);
    OnlyMinutesMatch(m);
    DecodeParts(HoursMinutes(h, m), Some(h), Some(m), max);
    DecodeParts(OnlyHours(h), Some(h), None, max);
    DecodeParts(OnlyMinutes(m), None, Some(m), max);
  }

  /** A day in hours, and the longest durations the domain accepts: 31 bits of seconds. */
  lemma LongestDays()
    ensures Decode(OnlyHours(24), MAX_INT32) == Seconds(86400)
    ensures Decode(OnlyHours(596523), MAX_INT32).Seconds? && !Decode(OnlyHours(596524), MAX_INT32).Seconds?
    ensures Decode(OnlyMinutes(35791394), MAX_INT32).Seconds? && !Decode(OnlyMinutes(35791395), MAX_INT32).Seconds?
  {
    WrittenForms(24, 0, MAX_INT32);
    WrittenForms(596523, 35791394, MAX_INT32);
    WrittenForms(596524, 35791395, MAX_INT32);
  }
}
