/** components/SessionTimer.tsx: the ticking count, its format and when
    the widget and its save button show. */
module Timer {
  import opened Wrappers
  import opened Strs
  import opened Types
  import opened App

  /** `Math.floor((now - startTime) / 1000)`.  Dafny's `/` by a positive
      divisor rounds down, as `Math.floor` does. */
  function Elapsed(now: int, startTime: int): (r: int)
    ensures r * 1000 <= now - startTime < (r + 1) * 1000
  {
    (now - startTime) / 1000
  }

  /** The interval runs while the session is active with a truthy start. */
  predicate Ticking(s: SessionData) {
    s.isActive && s.startTime.Some? && s.startTime.value != 0
  }

  /** A resumed session keeps counting from where it was paused: `d`
      milliseconds later the count is the old count plus the whole seconds
      of `d`. */
  lemma ResumeContinues(s: AppState, now: int, d: int)
    requires !s.session.isActive && d >= 0
    ensures ToggleSession(s, now).session.startTime.Some?
    ensures Elapsed(now + d, ToggleSession(s, now).session.startTime.value) == s.session.elapsed + d / 1000
  {
    var e := s.session.elapsed;
    assert now + d - (now - e * 1000) == d + e * 1000;
    assert (d + e * 1000) / 1000 == d / 1000 + e;
  }

  /** JavaScript's `%`: the remainder takes the sign of the dividend. */
  function JsRem(a: int, b: int): int
    requires b > 0
  {
    if a >= 0 then a % b else -((-a) % b)
  }

  /** The hours, minutes and seconds `formatTime` computes. */
  function Hours(seconds: int): int { seconds / 3600 }
  function Minutes(seconds: int): int { JsRem(seconds, 3600) / 60 }
  function Secs(seconds: int): int { JsRem(seconds, 60) }

  /** `formatTime`: `h:` only when there are hours, then minutes and
      seconds padded to two places. */
  function FormatTime(seconds: int): string {
    var h := Hours(seconds);
    (if h > 0 then IntToString(h) + ":" else "") +
    PadStart2(IntToString(Minutes(seconds))) + ":" + PadStart2(IntToString(Secs(seconds)))
  }

  /** For a count that is not negative the parts add up to it, with
      minutes and seconds below sixty. */
  lemma FormatTimeParts(seconds: int)
    requires seconds >= 0
    ensures Hours(seconds) * 3600 + Minutes(seconds) * 60 + Secs(seconds) == seconds
    ensures 0 <= Minutes(seconds) < 60 && 0 <= Secs(seconds) < 60 && Hours(seconds) >= 0
  {
    var h := seconds / 3600;
    var r := seconds % 3600;
    assert Minutes(seconds) == r / 60;
    SplitMinutes(r);
    RemainderThrough(h * 60, r);
  }

  /** A remainder below an hour is whole minutes and seconds. */
  lemma SplitMinutes(r: int)
    requires 0 <= r < 3600
    ensures r / 60 * 60 + r % 60 == r && 0 <= r / 60 < 60
  {
  }

  /** Whole minutes do not change the seconds. */
  lemma RemainderThrough(k: int, r: int)
    requires k >= 0 && r >= 0
    ensures (k * 60 + r) % 60 == r % 60
  {
  }

  /** A number below 100 padded to two places is two digits that read back
      as the number. */
  lemma TwoDigits(n: nat)
    requires n < 100
    ensures |PadStart2(IntToString(n))| == 2
    ensures IsDigit(PadStart2(IntToString(n))[0]) && IsDigit(PadStart2(IntToString(n))[1])
    ensures DigitsValue(PadStart2(IntToString(n))) == n
  {
    NatToStringDigits(n);
    var p := PadStart2(IntToString(n));
    if n < 10 {
      assert p == "0" + [DigitChar(n)];
      assert p[..1] == "0";
    } else {
      NatToStringDigits(n / 10);
      assert NatToString(n / 10) == [DigitChar(n / 10)];
      assert p == [DigitChar(n / 10), DigitChar(n % 10)];
      assert p[..1] == [DigitChar(n / 10)];
    }
  }

  /** The formatted time reads back as the count: the last five characters
      are `MM:SS`, and any hours stand before another `:`. */
  lemma FormatTimeReadsBack(seconds: int)
    requires seconds >= 0
    ensures var r := FormatTime(seconds);
      |r| >= 5 && r[|r| - 3] == ':' &&
      DigitsValue(r[|r| - 5..|r| - 3]) == Minutes(seconds) && DigitsValue(r[|r| - 2..]) == Secs(seconds)
    ensures Hours(seconds) == 0 <==> |FormatTime(seconds)| == 5
    ensures Hours(seconds) > 0 ==> var r := FormatTime(seconds);
      r[|r| - 6] == ':' && DigitsValue(r[..|r| - 6]) == Hours(seconds)
  {
    FormatTimeParts(seconds);
    NatToStringDigits(Hours(seconds));
    TwoDigits(Minutes(seconds));
    TwoDigits(Secs(seconds));
    var head := if Hours(seconds) > 0 then IntToString(Hours(seconds)) + ":" else "";
    var mm := PadStart2(IntToString(Minutes(seconds)));
    var ss := PadStart2(IntToString(Secs(seconds)));
    assert FormatTime(seconds) == head + mm + ":" + ss;
    LayoutTail(head, mm, ss);
    if Hours(seconds) > 0 {
      LayoutHead(IntToString(Hours(seconds)), mm + ":" + ss);
      Regroup(IntToString(Hours(seconds)) + ":", mm, ":", ss);
    }
  }

  /** Where the two-digit fields stand in `head + mm + ":" + ss`. */
  lemma LayoutTail(head: string, mm: string, ss: string)
    requires |mm| == 2 && |ss| == 2
    ensures var r := head + mm + ":" + ss;
      |r| == |head| + 5 && r[|r| - 3] == ':' && r[|r| - 5..|r| - 3] == mm && r[|r| - 2..] == ss
  {
    var r := head + mm + ":" + ss;
    assert r[|r| - 5..|r| - 3] == mm;
    assert r[|r| - 2..] == ss;
  }

  lemma Regroup(a: string, b: string, c: string, d: string)
    ensures a + b + c + d == a + (b + c + d)
  {
  }

  /** Where the hours stand in `hh + ":" + tail`. */
  lemma LayoutHead(hh: string, tail: string)
    requires |tail| == 5
    ensures var r := hh + ":" + tail; r[|r| - 6] == ':' && r[..|r| - 6] == hh
  {
    var r := hh + ":" + tail;
    assert r[..|r| - 6] == hh;
  }

  /** The widget is hidden only when the session is stopped at zero. */
  predicate Visible(s: SessionData) {
    !(!s.isActive && s.elapsed == 0)
  }

  /** The save button shows only for a paused session with time on it. */
  predicate SaveVisible(s: SessionData) {
    s.elapsed > 0 && !s.isActive
  }

  /** The save button only appears on a visible widget, never while the
      session runs, and saving hides the widget. */
  lemma SaveButtonShown(s: AppState, id: string, dateLabel: string, now: int)
    ensures SaveVisible(s.session) ==> Visible(s.session) && !Ticking(s.session)
    ensures !Visible(StopAndSaveSession(s, id, dateLabel, now).session)
  {
  }
}
