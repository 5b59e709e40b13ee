/** The daily window in which heartbeats may run (src/automation/heartbeatActiveHours.ts), in UTC. */
module HeartbeatActiveHours {
  import opened Wrappers
  import opened Arithmetic

  datatype ActiveHours = ActiveHours(start: string, end: string)

  predicate IsDigit(c: char) { '0' <= c <= '9' }

  function DigitValue(c: char): int
    requires IsDigit(c)
  {
    c as int - '0' as int
  }

  /** "HH:MM" as minutes of the day; "24:00" only where the caller allows it. */
  function ParseTime(allow24: bool, raw: string): (r: Option<int>)
    ensures r.Some? ==> 0 <= r.value < 1440 || (allow24 && r.value == 1440)
  {
    if |raw| != 5 || raw[2] != ':' then None
    else if !IsDigit(raw[0]) || !IsDigit(raw[1]) || !IsDigit(raw[3]) || !IsDigit(raw[4]) then None
    else if raw == "24:00" then if allow24 then Some(1440) else None
    else if DigitValue(raw[0]) > 2 || (DigitValue(raw[0]) == 2
        && DigitValue(raw[1]) > 3) || DigitValue(raw[3]) > 5 then None
    else Some((DigitValue(raw[0]) * 10 + DigitValue(raw[1])) * 60 + DigitValue(raw[3]) * 10 + DigitValue(raw[4]))
  }

  function MinutesUtc(nowMs: int): int { nowMs / 60_000 % 1440 }

  /** No window or an unreadable one is always active; equal ends never are; the window may wrap midnight. */
  predicate IsWithin(activeHours: Option<ActiveHours>, nowMs: int) {
    if activeHours.None? then true
    else
      var startMin := ParseTime(false, activeHours.value.start);
      var endMin := ParseTime(true, activeHours.value.end);
      if startMin.None? || endMin.None? then true
      else if startMin == endMin then false
      else
        var currentMin := MinutesUtc(nowMs);
        if endMin.value > startMin.value then startMin.value <= currentMin < endMin.value
        else currentMin >= startMin.value || currentMin < endMin.value
  }

  function Digit(d: int): char
    requires 0 <= d <= 9
  {
    '0' + d as char
  }

  function FormatTime(m: int): string
    requires 0 <= m < 1440
  {
    [Digit(m / 60 / 10), Digit(m / 60 % 10), ':', Digit(m % 60 / 10), Digit(m % 60 % 10)]
  }

  /** Every minute of the day has a text that parses back to it. */
  lemma TimeRoundTrip(allow24: bool, m: int)
    requires 0 <= m < 1440
    ensures ParseTime(allow24, FormatTime(m)) == Some(m)
    ensures ParseTime(true, "24:00") == Some(1440) && ParseTime(false, "24:00") == None
  {
    var s := FormatTime(m);
    assert DigitValue(s[0]) == m / 60 / 10 && DigitValue(s[1]) == m / 60 % 10;
    assert DigitValue(s[3]) == m % 60 / 10 && DigitValue(s[4]) == m % 60 % 10;
    assert s[0] == '2' ==> s[1] < '4';
  }

  lemma DigitOfValue(c: char)
    requires IsDigit(c)
    ensures 0 <= DigitValue(c) <= 9 && Digit(DigitValue(c)) == c
  {
  }

  /** Only those texts are read, and "24:00" where it is allowed. */
  lemma OnlyTimesAreRead(allow24: bool, raw: string, m: int)
    requires ParseTime(allow24, raw) == Some(m)
    ensures if m == 1440 then allow24 && raw == "24:00" else 0 <= m < 1440 && raw == FormatTime(m)
  {
    if m != 1440 {
      DigitOfValue(raw[0]);
      DigitOfValue(raw[1]);
      DigitOfValue(raw[3]);
      DigitOfValue(raw[4]);
      var hours, minutes := DigitValue(raw[0]) * 10 + DigitValue(raw[1]), DigitValue(raw[3]) * 10 + DigitValue(raw[4]);
      DivModUnique(m, hours, minutes, 60);
      assert raw == [raw[0], raw[1], raw[2], raw[3], raw[4]];
    }
  }

  // ----- when the window opens and closes -----

  predicate IsReadable(h: ActiveHours) { ParseTime(false, h.start).Some? && ParseTime(true, h.end).Some? }

  /** The minute of the day in UTC. */
  lemma MinuteOfDay(t: int)
    ensures MinutesUtc(t) == t % 86_400_000 / 60_000
  {
    var q, r := t / 86_400_000, t % 86_400_000;
    DivModUnique(t / 60_000, q, r / 60_000, 1440);
  }

  /** Without a readable window it is always active, and never with equal ends. */
  lemma WithoutWindow(h: Option<ActiveHours>, t: int)
    ensures h.None? || !IsReadable(h.value) ==> IsWithin(h, t)
    ensures h.Some? && IsReadable(h.value) && ParseTime(false, h.value.start) == ParseTime(true, h.value.end) ==>
      !IsWithin(h, t)
  {
  }

  lemma MinuteBefore(t: int)
    ensures MinutesUtc(t - 60_000) == if MinutesUtc(t) == 0 then 1439 else MinutesUtc(t) - 1
  {
    var q := t / 60_000;
    DivModUnique(t - 60_000, q - 1, t % 60_000, 60_000);
    if q % 1440 == 0 {
      DivModUnique(q - 1, q / 1440 - 1, 1439, 1440);
    } else {
      DivModUnique(q - 1, q / 1440, q % 1440 - 1, 1440);
    }
  }

  /** Otherwise it turns active at the start and inactive at the end, and at no other minute; 0 to 24 is the whole day. */
  lemma WindowTurns(h: ActiveHours, t: int)
    requires IsProper(h)
    ensures var start, end, minute := ParseTime(false, h.start).value, ParseTime(true, h.end).value, MinutesUtc(t);
      && (minute == start ==> IsWithin(Some(h), t))
      && (start == 0 && end == 1440 ==> IsWithin(Some(h), t))
      && (start != 0 || end != 1440 ==>
            && (minute == end % 1440 ==> !IsWithin(Some(h), t))
            && (minute != start && minute != end % 1440 ==> IsWithin(Some(h), t) == IsWithin(Some(h), t - 60_000)))
  {
    MinuteBefore(t);
  }

  // ----- the window as a stretch of the day -----

  predicate IsProper(h: ActiveHours) {
    var startMin := ParseTime(false, h.start);
    var endMin := ParseTime(true, h.end);
    startMin.Some? && endMin.Some? && startMin != endMin
  }

  function StartMs(h: ActiveHours): int
    requires IsProper(h)
  {
    ParseTime(false, h.start).value * 60_000
  }

  function LengthMs(h: ActiveHours): (r: int)
    requires IsProper(h)
    ensures 0 < r <= 86_400_000
  {
    var s, e := ParseTime(false, h.start).value, ParseTime(true, h.end).value;
    (if e > s then e - s else 1440 - s + e) * 60_000
  }

  /** How far into the daily window the time lies, counted from its start around the clock. */
  function OffsetMs(h: ActiveHours, t: int): (r: int)
    requires IsProper(h)
    ensures 0 <= r < 86_400_000
  {
    (t - StartMs(h)) % 86_400_000
  }

  lemma OffsetInMinutes(t: int, s: int)
    requires 0 <= s < 1440
    ensures (t - s * 60_000) % 86_400_000 / 60_000
            == if MinutesUtc(t) >= s then MinutesUtc(t) - s else MinutesUtc(t) - s + 1440
  {
    var q, r := t / 86_400_000, t % 86_400_000;
    assert t == 86_400_000 * q + r;
    assert t / 60_000 == q * 1440 + r / 60_000;
    DivModUnique(t / 60_000, q, r / 60_000, 1440);
    if r / 60_000 >= s {
      DivModUnique(t - s * 60_000, q, r - s * 60_000, 86_400_000);
    } else {
      DivModUnique(t - s * 60_000, q - 1, r - s * 60_000 + 86_400_000, 86_400_000);
    }
  }

  /** A proper window is active exactly on the first LengthMs of its day, wrapped or not. */
  lemma ActiveIsOffset(h: ActiveHours, t: int)
    requires IsProper(h)
    ensures IsWithin(Some(h), t) <==> OffsetMs(h, t) < LengthMs(h)
  {
    OffsetInMinutes(t, ParseTime(false, h.start).value);
  }
}
