/**
 * The active-session clock: elapsed whole seconds since the stored start
 * timestamp, and its display as `M:SS` or `H:MM:SS`.
 */
module Timer {
  import opened Rows
  import opened Text

  /**
   * `Math.floor((now - started) / 1000)`. Dafny's `/` with a positive
   * divisor rounds toward negative infinity, as `Math.floor` does.
   */
  function Elapsed(started: Timestamp, now: Timestamp): (e: int)
    ensures e * 1000 <= now - started < e * 1000 + 1000
  {
    (now - started) / 1000
  }

  /** The elapsed value is never negative once the clock reached the start, and stays below an hour within one. */
  lemma {:induction false} ElapsedBounds(started: Timestamp, now: Timestamp)
    ensures now >= started ==> Elapsed(started, now) >= 0
    ensures now - started < 1000 * 3600 ==> Elapsed(started, now) < 3600
  {
  }

  lemma {:induction false} ElapsedMonotonic(started: Timestamp, now1: Timestamp, now2: Timestamp)
    requires now1 <= now2
    ensures Elapsed(started, now1) <= Elapsed(started, now2)
  {
  }

  /**
   * The value left on screen after the timer fired at each of the times in
   * `ticks`, starting from `shown`: every firing overwrites it.
   */
  function AfterTicks(started: Timestamp, shown: int, ticks: seq<Timestamp>): int
    decreases |ticks|
  {
    if ticks == [] then shown else AfterTicks(started, Elapsed(started, ticks[0]), ticks[1..])
  }

  /**
   * The displayed time depends only on the start timestamp and the last
   * firing, not on how many firings there were or what was shown before
   * (so a remounted timer picks up where the old one was).
   */
  lemma {:induction false} AfterTicksDependsOnlyOnLast(started: Timestamp, shown: int, ticks: seq<Timestamp>)
    requires ticks != []
    ensures AfterTicks(started, shown, ticks) == Elapsed(started, ticks[|ticks| - 1])
    decreases |ticks|
  {
    if |ticks| > 1 {
      AfterTicksDependsOnlyOnLast(started, Elapsed(started, ticks[0]), ticks[1..]);
    }
  }

  /** JavaScript's `%`: the remainder takes the sign of the dividend. */
  function JsRem(a: int, b: int): (r: int)
    requires b > 0
    ensures a >= 0 ==> r == a % b
    ensures a < 0 ==> -b < r <= 0
    ensures (a - r) % b == 0
  {
    var r := if a >= 0 then a % b else -((-a) % b);
    JsRemDifference(a, b, r);
    r
  }

  lemma {:induction false} JsRemDifference(a: int, b: int, r: int)
    requires b > 0 && r == if a >= 0 then a % b else -((-a) % b)
    ensures (a - r) % b == 0
  {
    var n := if a >= 0 then a else -a;
    var q := n / b;
    assert n == q * b + n % b;
    if a >= 0 {
      RemUnique(a - r, q, 0, b);
    } else {
      assert a - r == (-q) * b;
      RemUnique(a - r, -q, 0, b);
    }
  }

  /** Euclidean division is unique: `q*b + r` with `0 <= r < b` leaves remainder `r`. */
  lemma {:induction false} RemUnique(x: int, q: int, r: int, b: int)
    requires b > 0 && x == q * b + r && 0 <= r < b
    ensures x % b == r
  {
    var q', r' := x / b, x % b;
    assert (q - q') * b == r' - r;
    if q > q' {
      AtLeastOneMultiple(q - q', b);
    } else if q < q' {
      AtLeastOneMultiple(q' - q, b);
    }
  }

  lemma {:induction false} AtLeastOneMultiple(k: int, b: int)
    requires k >= 1 && b > 0
    ensures k * b >= b
  {
    assert k * b == (k - 1) * b + b;
  }

  function Hours(seconds: int): int { seconds / 3600 }
  function MinutesField(seconds: int): int { JsRem(seconds, 3600) / 60 }
  function SecondsField(seconds: int): int { JsRem(seconds, 60) }

  /** `formatTime(seconds)` of the active-session view. */
  function FormatTime(seconds: int): string
  {
    var hrs := Hours(seconds);
    var mins := MinutesField(seconds);
    var secs := SecondsField(seconds);
    if hrs > 0 then
      IntToString(hrs) + ":" + PadStart2(IntToString(mins)) + ":" + PadStart2(IntToString(secs))
    else
      IntToString(mins) + ":" + PadStart2(IntToString(secs))
  }

  /** The three fields `formatTime` prints decompose a non-negative count exactly. */
  lemma {:induction false} ClockFieldsExact(seconds: nat)
    ensures Hours(seconds) * 3600 + MinutesField(seconds) * 60 + SecondsField(seconds) == seconds
    ensures 0 <= MinutesField(seconds) < 60 && 0 <= SecondsField(seconds) < 60
    ensures Hours(seconds) >= 0
    ensures Hours(seconds) > 0 <==> seconds >= 3600
  {
    var h, r := seconds / 3600, seconds % 3600;
    var m, s := r / 60, r % 60;
    assert r == m * 60 + s;
    Mod60Unique(seconds, h * 60 + m, s);
  }

  lemma {:induction false} Mod60Unique(x: int, q: int, r: int)
    requires x == q * 60 + r && 0 <= r < 60
    ensures x % 60 == r
  {
  }

  /** Reads a clock display back: `M:SS` or `H:MM:SS` with decimal fields. */
  function ParseClock(text: string): Option<int>
  {
    ClockValue(Split(text, ':'))
  }

  /** The seconds denoted by the fields of a clock display. */
  function ClockValue(f: seq<string>): Option<int>
  {
    if |f| == 2 && AllDigits(f[0]) && AllDigits(f[1]) then
      Some(DigitsValue(f[0]) * 60 + DigitsValue(f[1]))
    else if |f| == 3 && AllDigits(f[0]) && AllDigits(f[1]) && AllDigits(f[2]) then
      Some(DigitsValue(f[0]) * 3600 + DigitsValue(f[1]) * 60 + DigitsValue(f[2]))
    else None
  }

  lemma {:induction false} PaddedField(n: nat)
    requires n < 60
    ensures var p := PadStart2(NatToString(n));
      |p| == 2 && AllDigits(p) && DigitsValue(p) == n
  {
    var s := NatToString(n);
    DigitsValueOfNatToString(n);
    if n < 10 {
      var p := PadStart2(s);
      assert p == ['0', DigitChar(n)];
      assert p[..1] == ['0'];
    } else {
      assert |s| == 2 by { assert NatToString(n / 10) == [DigitChar(n / 10)]; }
    }
  }

  /** `a:b` with digit fields splits back into `[a, b]`. */
  lemma {:induction false} SplitClock2(a: string, b: string)
    requires AllDigits(a) && AllDigits(b)
    ensures Split(a + ":" + b, ':') == [a, b]
  {
    DigitsHaveNoColon(a);
    DigitsHaveNoColon(b);
    SplitWithoutSeparator(b, ':');
    SplitAtFirstSeparator(a, ':', b);
  }

  /** `a:b:c` with digit fields splits back into `[a, b, c]`. */
  lemma {:induction false} SplitClock3(a: string, b: string, c: string)
    requires AllDigits(a) && AllDigits(b) && AllDigits(c)
    ensures Split(a + ":" + b + ":" + c, ':') == [a, b, c]
  {
    DigitsHaveNoColon(a);
    SplitClock2(b, c);
    assert a + ":" + b + ":" + c == a + [':'] + (b + ":" + c);
    SplitAtFirstSeparator(a, ':', b + ":" + c);
  }

  /** The text `formatTime` builds for a non-negative count, field by field. */
  lemma {:induction false} FormatTimeFields(seconds: nat)
    ensures 0 <= MinutesField(seconds) < 60 && 0 <= SecondsField(seconds) < 60
    ensures Hours(seconds) >= 0 && (Hours(seconds) > 0 <==> seconds >= 3600)
    ensures var m := PadStart2(NatToString(MinutesField(seconds)));
      var s := PadStart2(NatToString(SecondsField(seconds)));
      && (seconds >= 3600 ==> FormatTime(seconds) == NatToString(Hours(seconds)) + ":" + m + ":" + s)
      && (seconds < 3600 ==> FormatTime(seconds) == NatToString(MinutesField(seconds)) + ":" + s)
  {
    ClockFieldsExact(seconds);
  }

  /**
   * The split of a formatted time into its fields: three fields when at
   * least an hour has elapsed, two otherwise; minutes and seconds are
   * always two zero-padded digits, the leading field is unpadded.
   */
  lemma {:induction false} FormatTimeShape(seconds: nat)
    ensures var f := Split(FormatTime(seconds), ':');
      && (seconds >= 3600 ==>
            |f| == 3 && Canonical(f[0]) && f[0][0] != '0'
            && |f[1]| == 2 && AllDigits(f[1]) && |f[2]| == 2 && AllDigits(f[2]))
      && (seconds < 3600 ==>
            |f| == 2 && Canonical(f[0]) && |f[1]| == 2 && AllDigits(f[1]))
  {
    FormatTimeFields(seconds);
    var hrs, mins, secs := Hours(seconds), MinutesField(seconds), SecondsField(seconds);
    PaddedField(mins);
    PaddedField(secs);
    var m, s := PadStart2(NatToString(mins)), PadStart2(NatToString(secs));
    if seconds >= 3600 {
      NatToStringCanonical(hrs);
      SplitClock3(NatToString(hrs), m, s);
    } else {
      NatToStringCanonical(mins);
      SplitClock2(NatToString(mins), s);
    }
  }

  lemma {:induction false} ParseClock2(a: string, b: string)
    requires AllDigits(a) && AllDigits(b)
    ensures ParseClock(a + ":" + b) == Some(DigitsValue(a) * 60 + DigitsValue(b))
  {
    calc {
      ParseClock(a + ":" + b);
      == { SplitClock2(a, b); }
      ClockValue([a, b]);
      == { ClockValue2(a, b); }
      Some(DigitsValue(a) * 60 + DigitsValue(b));
    }
  }

  lemma {:induction false} ClockValue2(a: string, b: string)
    requires AllDigits(a) && AllDigits(b)
    ensures ClockValue([a, b]) == Some(DigitsValue(a) * 60 + DigitsValue(b))
  {
  }

  lemma {:induction false} ParseClock3(a: string, b: string, c: string)
    requires AllDigits(a) && AllDigits(b) && AllDigits(c)
    ensures ParseClock(a + ":" + b + ":" + c) == Some(DigitsValue(a) * 3600 + DigitsValue(b) * 60 + DigitsValue(c))
  {
    calc {
      ParseClock(a + ":" + b + ":" + c);
      == { SplitClock3(a, b, c); }
      ClockValue([a, b, c]);
      == { ClockValue3(a, b, c); }
      Some(DigitsValue(a) * 3600 + DigitsValue(b) * 60 + DigitsValue(c));
    }
  }

  lemma {:induction false} ClockValue3(a: string, b: string, c: string)
    requires AllDigits(a) && AllDigits(b) && AllDigits(c)
    ensures ClockValue([a, b, c]) == Some(DigitsValue(a) * 3600 + DigitsValue(b) * 60 + DigitsValue(c))
  {
  }

  /** Reading the fields back from the display recovers the seconds. */
  lemma {:induction false} FormatTimeRoundTrip(seconds: nat)
    ensures ParseClock(FormatTime(seconds)) == Some(seconds)
  {
    if seconds >= 3600 {
      RoundTripWithHours(seconds);
    } else {
      RoundTripWithoutHours(seconds);
    }
  }

  /** The display built from given fields reads back as their value. */
  lemma {:induction false} ParseFormattedFields3(h: nat, m: nat, s: nat)
    requires m < 60 && s < 60
    ensures ParseClock(NatToString(h) + ":" + PadStart2(NatToString(m)) + ":" + PadStart2(NatToString(s)))
      == Some(h * 3600 + m * 60 + s)
  {
    PaddedField(m);
    PaddedField(s);
    DigitsValueOfNatToString(h);
    ParseClock3(NatToString(h), PadStart2(NatToString(m)), PadStart2(NatToString(s)));
  }

  lemma {:induction false} ParseFormattedFields2(m: nat, s: nat)
    requires s < 60
    ensures ParseClock(NatToString(m) + ":" + PadStart2(NatToString(s))) == Some(m * 60 + s)
  {
    PaddedField(s);
    DigitsValueOfNatToString(m);
    ParseClock2(NatToString(m), PadStart2(NatToString(s)));
  }

  lemma {:induction false} RoundTripWithHours(seconds: nat)
    requires seconds >= 3600
    ensures ParseClock(FormatTime(seconds)) == Some(seconds)
  {
    var h, m, s := Hours(seconds), MinutesField(seconds), SecondsField(seconds);
    var text := NatToString(h) + ":" + PadStart2(NatToString(m)) + ":" + PadStart2(NatToString(s));
    assert FormatTime(seconds) == text by { FormatTimeFields(seconds); }
    assert ParseClock(text) == Some(seconds) by {
      ClockFieldsExact(seconds);
      ParseFormattedFields3(h, m, s);
    }
  }

  lemma {:induction false} RoundTripWithoutHours(seconds: nat)
    requires seconds < 3600
    ensures ParseClock(FormatTime(seconds)) == Some(seconds)
  {
    var m, s := MinutesField(seconds), SecondsField(seconds);
    var text := NatToString(m) + ":" + PadStart2(NatToString(s));
    assert FormatTime(seconds) == text by { FormatTimeFields(seconds); }
    assert ParseClock(text) == Some(seconds) by {
      ClockFieldsExact(seconds);
      ParseFormattedFields2(m, s);
    }
  }
}
