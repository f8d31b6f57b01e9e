/** The expressions inside the timer page's handlers: the one-second tick
    updater, the duration commit rule and the two-digit display, with what
    they promise when applied once and when applied again and again. */
module Rules {
  import opened JsText

  /** `useState(15)` for both the duration and the count. */
  const DEFAULT_DURATION := 15
  /** The upper end of `Math.min(999, ...)` in the commit rule. */
  const MAX_DURATION := 999
  /** The longest buffer the editor accepts. */
  const MAX_INPUT_LENGTH := 3

  /** The range every reachable state keeps: the count is positive and never above the duration. */
  predicate InRange(seconds: int, duration: int) {
    1 <= seconds <= duration <= MAX_DURATION
  }

  // ---------------------------------------------------------------------------
  // The tick updater `prev => prev <= 1 ? (playBell(), duration) : prev - 1`

  /** The bell rings on the tick that finds the count at 1 (or below). */
  predicate Rings(prev: int) {
    prev <= 1
  }

  function BellCount(prev: int): nat {
    if Rings(prev) then 1 else 0
  }

  /** The count after one tick. */
  function NextSeconds(prev: int, duration: int): (r: int)
    ensures InRange(prev, duration) ==> InRange(r, duration)
  {
    if Rings(prev) then duration else prev - 1
  }

  /** The count and the number of bells after `k` uninterrupted ticks from `start`. */
  datatype TickResult = TickResult(seconds: int, bells: nat)

  function AfterTicks(start: int, duration: int, k: nat): (r: TickResult)
    ensures r.bells <= k
  {
    if k == 0 then TickResult(start, 0)
    else
      var before := AfterTicks(start, duration, k - 1);
      TickResult(NextSeconds(before.seconds, duration), before.bells + BellCount(before.seconds))
  }

  /** Ticking keeps the range, however many ticks there are. */
  lemma {:induction false} AfterTicksInRange(start: int, duration: int, k: nat)
    requires InRange(start, duration)
    ensures InRange(AfterTicks(start, duration, k).seconds, duration)
  {
    if k > 0 {
      AfterTicksInRange(start, duration, k - 1);
    }
  }

  /** Before the count reaches 1 every tick takes one off and no bell rings. */
  lemma {:induction false} CountdownPhase(start: int, duration: int, k: nat)
    requires InRange(start, duration)
    requires k < start
    ensures AfterTicks(start, duration, k) == TickResult(start - k, 0)
  {
    if k > 0 {
      CountdownPhase(start, duration, k - 1);
    }
  }

  /** The tick after the count reached 1 rings once and restarts the cycle at
      the full duration; from there on the run is that of a fresh cycle. */
  lemma {:induction false} AfterBoundary(start: int, duration: int, j: nat)
    requires InRange(start, duration)
    ensures AfterTicks(start, duration, start + j)
         == TickResult(AfterTicks(duration, duration, j).seconds, AfterTicks(duration, duration, j).bells + 1)
  {
    if j == 0 {
      CountdownPhase(start, duration, start - 1);
    } else {
      AfterBoundary(start, duration, j - 1);
    }
  }

  /** From a full count `D`: `D - 1` ticks reach 1 silently, the `D`-th rings
      exactly once and restores `D`. */
  lemma OneBellPerCycle(duration: int)
    requires InRange(duration, duration)
    ensures AfterTicks(duration, duration, duration - 1) == TickResult(1, 0)
    ensures AfterTicks(duration, duration, duration) == TickResult(duration, 1)
  {
    CountdownPhase(duration, duration, duration - 1);
    AfterBoundary(duration, duration, 0);
  }

  /** After `q` whole cycles and `r` more ticks exactly `q` bells have rung and
      the count shows `D - r`. */
  lemma {:induction false} BellsCountCycles(duration: int, q: nat, r: nat)
    requires InRange(duration, duration)
    requires r < duration
    ensures AfterTicks(duration, duration, q * duration + r) == TickResult(duration - r, q)
  {
    if q == 0 {
      CountdownPhase(duration, duration, r);
    } else {
      assert q * duration + r == duration + ((q - 1) * duration + r);
      AfterBoundary(duration, duration, (q - 1) * duration + r);
      BellsCountCycles(duration, q - 1, r);
    }
  }

  /** The default 15-second cycle: 14 ticks reach 1 with no bell, the 15th rings and shows 15. */
  lemma FifteenSecondCycle()
    ensures AfterTicks(15, 15, 14) == TickResult(1, 0)
    ensures AfterTicks(15, 15, 15) == TickResult(15, 1)
  {
    OneBellPerCycle(15);
  }

  // ---------------------------------------------------------------------------
  // The commit rule `Math.max(1, Math.min(999, parseInt(inputValue) || 15))`

  /** The new duration a commit of `buffer` sets; `NaN` and `0` are falsy, so both fall back to 15. */
  function CommitValue(buffer: string): (v: int)
    ensures 1 <= v <= MAX_DURATION
    ensures ParseInt(buffer).None? || ParseInt(buffer) == Some(0) ==> v == DEFAULT_DURATION
    ensures ParseInt(buffer).Some? && 1 <= ParseInt(buffer).value <= MAX_DURATION ==> v == ParseInt(buffer).value
    ensures ParseInt(buffer).Some? && ParseInt(buffer).value > MAX_DURATION ==> v == MAX_DURATION
    ensures ParseInt(buffer).Some? && ParseInt(buffer).value < 0 ==> v == 1
  {
    var parsed := ParseInt(buffer);
    var orDefault := if parsed.None? || parsed.value == 0 then DEFAULT_DURATION else parsed.value;
    var capped := if orDefault < MAX_DURATION then orDefault else MAX_DURATION;
    if capped > 1 then capped else 1
  }

  /** On the buffers the editor can hold (digits, at most three) the clamp never
      acts: the commit gives the number typed, or 15 for an empty or all-zero buffer. */
  lemma CommitOfBuffer(buffer: string)
    requires AllDigits(buffer) && |buffer| <= MAX_INPUT_LENGTH
    ensures CommitValue(buffer) == if DigitsValue(buffer) == 0 then DEFAULT_DURATION else DigitsValue(buffer)
  {
    ParseDigits(buffer);
    PowMonotone(|buffer|, MAX_INPUT_LENGTH);
    assert Pow10(MAX_INPUT_LENGTH) == 1000;
    var value := DigitsValue(buffer);
    assert value < 1000;
    assert ParseInt(buffer) == if buffer == [] then None else Some(value);
  }

  /** Committing the decimal text of an in-range count gives that count back. */
  lemma CommitToDecimal(n: int)
    requires 1 <= n <= MAX_DURATION
    ensures CommitValue(ToDecimal(n)) == n
  {
    ParseToDecimal(n);
  }

  /** Buffers that fall back to the default: empty, non-numeric, zero. */
  lemma CommitFallbackExamples()
    ensures CommitValue("") == 15
    ensures CommitValue("abc") == 15
    ensures CommitValue("0") == 15
    ensures CommitValue("000") == 15
  {
    ParseDigits("");
    assert LeadingDigits("abc") == [];
    ParseDigits("0");
    ParseDigits("000");
    assert "000"[..2] == "00" && "00"[..1] == "0";
  }

  /** A buffer above 999 is clamped to 999. */
  lemma CommitCeilingExample()
    ensures CommitValue("2000") == 999
  {
    assert "2000"[..3] == "200" && "200"[..2] == "20" && "20"[..1] == "2";
    assert DigitsValue("200") == 200;
    ParseDigits("2000");
    assert ParseInt("2000") == Some(2000);
  }

  /** A negative buffer is clamped to 1, an ordinary one is taken as typed. */
  lemma CommitClampExamples()
    ensures CommitValue("-5") == 1
    ensures CommitValue("42") == 42
  {
    assert "-5"[1..] == "5";
    assert SplitSign("-5") == ("5", true);
    assert LeadingDigits("5") == "5";
    assert DigitsValue("5") == 5;
    assert ParseInt("-5") == Some(-5);
    ParseDigits("42");
    assert "42"[..1] == "4";
  }

  // ---------------------------------------------------------------------------
  // The display `seconds.toString().padStart(2, "0")`

  function Display(seconds: nat): (text: string)
    ensures AllDigits(text)
    ensures |text| == if seconds < 10 then 2 else |ToDecimal(seconds)|
    ensures seconds < 10 ==> text == ['0', DigitChar(seconds)]
    ensures seconds >= 10 ==> text == ToDecimal(seconds)
  {
    PadStart(ToDecimal(seconds), 2, '0')
  }

  /** The display is a digit string that reads back as the count; an in-range
      count shows two or three characters. */
  lemma DisplayReadsBack(seconds: nat)
    ensures AllDigits(Display(seconds))
    ensures DigitsValue(Display(seconds)) == seconds
    ensures seconds <= MAX_DURATION ==> 2 <= |Display(seconds)| <= 3
  {
    var text := ToDecimal(seconds);
    var shown := Display(seconds);
    if |text| < 2 {
      assert shown == ['0'] + text;
      assert shown[..1] == ['0'];
    } else {
      assert shown == text;
    }
    if seconds <= MAX_DURATION {
      ToDecimalLength(seconds, 3);
    }
  }
}
