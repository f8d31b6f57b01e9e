/** The `Home` component of the timer page as an object: its five state cells
    are fields, each event handler is a method that runs to completion, and a
    ghost counter records how often the bell was asked to play. */
module Page {
  import opened JsText
  import opened Rules

  class Home {
    var duration: int
    var seconds: int
    var isRunning: bool
    var isEditing: bool
    var inputValue: string
    /** The number of calls to `playBell` so far. */
    ghost var bells: nat

    /** What every handler keeps: the count lies in [1, duration], the duration
        in [1, 999], and the editor buffer holds at most three digits. */
    ghost predicate Valid()
      reads this
    {
      InRange(seconds, duration) && AllDigits(inputValue) && |inputValue| <= MAX_INPUT_LENGTH
    }

    /** The state at mount: a stopped 15-second cycle, not editing, buffer "15". */
    constructor ()
      ensures Valid()
      ensures duration == 15 && seconds == 15
      ensures !isRunning && !isEditing && inputValue == "15"
      ensures bells == 0
    {
      duration, seconds := DEFAULT_DURATION, DEFAULT_DURATION;
      isRunning, isEditing := false, false;
      inputValue := "15";
      bells := 0;
    }

    /** The numerator `duration - seconds` of the progress bar. */
    function Elapsed(): (e: int)
      reads this
      requires Valid()
      ensures 0 <= e < duration
    {
      duration - seconds
    }

    /** The text the display shows while not editing. */
    function Shown(): (text: string)
      reads this
      requires Valid()
      ensures AllDigits(text) && 2 <= |text| <= 3
      ensures DigitsValue(text) == seconds
      ensures seconds < 10 ==> text == ['0', DigitChar(seconds)]
      ensures seconds >= 10 ==> text == ToDecimal(seconds)
    {
      DisplayReadsBack(seconds);
      Display(seconds)
    }

    /** `handlePlay`: starts the interval; a running timer is left as it is. */
    method Play()
      requires Valid()
      modifies this
      ensures Valid()
      ensures isRunning
      ensures duration == old(duration) && seconds == old(seconds)
      ensures isEditing == old(isEditing) && inputValue == old(inputValue) && bells == old(bells)
    {
      isRunning := true;
    }

    /** `handlePause`: stops the interval and keeps the count. */
    method Pause()
      requires Valid()
      modifies this
      ensures Valid()
      ensures !isRunning
      ensures duration == old(duration) && seconds == old(seconds)
      ensures isEditing == old(isEditing) && inputValue == old(inputValue) && bells == old(bells)
    {
      isRunning := false;
    }

    /** `handleReset`: stops and refills the count from the duration. */
    method Reset()
      requires Valid()
      modifies this
      ensures Valid()
      ensures !isRunning && seconds == duration
      ensures duration == old(duration)
      ensures isEditing == old(isEditing) && inputValue == old(inputValue) && bells == old(bells)
    {
      isRunning := false;
      seconds := duration;
    }

    /** One firing of the one-second interval, which exists only while running:
        at 1 the bell rings and the cycle restarts at the duration, otherwise
        the count drops by one. */
    method Tick()
      requires Valid()
      modifies this
      ensures Valid()
      ensures old(isRunning) ==> seconds == NextSeconds(old(seconds), duration)
      ensures old(isRunning) ==> bells == old(bells) + BellCount(old(seconds))
      ensures !old(isRunning) ==> seconds == old(seconds) && bells == old(bells)
      ensures duration == old(duration) && isRunning == old(isRunning)
      ensures isEditing == old(isEditing) && inputValue == old(inputValue)
    {
      if isRunning {
        if seconds <= 1 {
          bells := bells + 1;
          seconds := duration;
        } else {
          seconds := seconds - 1;
        }
      }
    }

    /** `k` firings of the interval with no other event in between. */
    method Elapse(k: nat)
      requires Valid() && isRunning
      modifies this
      ensures Valid()
      ensures seconds == AfterTicks(old(seconds), duration, k).seconds
      ensures bells == old(bells) + AfterTicks(old(seconds), duration, k).bells
      ensures duration == old(duration) && isRunning
      ensures isEditing == old(isEditing) && inputValue == old(inputValue)
    {
      var i := 0;
      while i < k
        invariant 0 <= i <= k
        invariant Valid() && isRunning
        invariant seconds == AfterTicks(old(seconds), duration, i).seconds
        invariant bells == old(bells) + AfterTicks(old(seconds), duration, i).bells
        invariant duration == old(duration)
        invariant isEditing == old(isEditing) && inputValue == old(inputValue)
      {
        Tick();
        i := i + 1;
      }
    }

    /** `handleNumberClick`: while stopped, opens the editor on the count shown;
        while running, does nothing. */
    method NumberClick()
      requires Valid()
      modifies this
      ensures Valid()
      ensures old(isRunning) ==> isEditing == old(isEditing) && inputValue == old(inputValue)
      ensures !old(isRunning) ==> isEditing && inputValue == ToDecimal(seconds)
      ensures duration == old(duration) && seconds == old(seconds)
      ensures isRunning == old(isRunning) && bells == old(bells)
    {
      if !isRunning {
        isEditing := true;
        ToDecimalLength(seconds, MAX_INPUT_LENGTH);
        inputValue := ToDecimal(seconds);
      }
    }

    /** `handleInputChange`: the typed text loses every non-digit and replaces
        the buffer only if at most three digits remain; otherwise the
        keystroke is dropped. */
    method InputChange(typed: string)
      requires Valid()
      modifies this
      ensures Valid()
      ensures |StripNonDigits(typed)| <= MAX_INPUT_LENGTH ==> inputValue == StripNonDigits(typed)
      ensures |StripNonDigits(typed)| > MAX_INPUT_LENGTH ==> inputValue == old(inputValue)
      ensures duration == old(duration) && seconds == old(seconds)
      ensures isRunning == old(isRunning) && isEditing == old(isEditing) && bells == old(bells)
    {
      var digits := StripNonDigits(typed);
      if |digits| <= MAX_INPUT_LENGTH {
        inputValue := digits;
      }
    }

    /** `handleInputSubmit` (Enter or leaving the field): the buffer becomes
        both the duration and the count and the editor closes; an empty or
        all-zero buffer gives 15. */
    method InputSubmit()
      requires Valid()
      modifies this
      ensures Valid()
      ensures duration == CommitValue(old(inputValue)) && seconds == duration
      ensures duration == if DigitsValue(old(inputValue)) == 0 then DEFAULT_DURATION else DigitsValue(old(inputValue))
      ensures !isEditing
      ensures isRunning == old(isRunning) && inputValue == old(inputValue) && bells == old(bells)
    {
      CommitOfBuffer(inputValue);
      var newDuration := CommitValue(inputValue);
      duration := newDuration;
      seconds := newDuration;
      isEditing := false;
    }

    /** `handleInputKeyDown`: Enter commits, Escape closes the editor with
        nothing else changed, any other key is left to the input. */
    method InputKeyDown(key: string)
      requires Valid()
      modifies this
      ensures Valid()
      ensures key == "Enter" ==> duration == CommitValue(old(inputValue)) && seconds == duration && !isEditing
      ensures key != "Enter" ==> duration == old(duration) && seconds == old(seconds)
      ensures key == "Escape" ==> !isEditing
      ensures key != "Enter" && key != "Escape" ==> isEditing == old(isEditing)
      ensures isRunning == old(isRunning) && inputValue == old(inputValue) && bells == old(bells)
    {
      if key == "Enter" {
        InputSubmit();
      } else if key == "Escape" {
        isEditing := false;
      }
    }
  }

  /** Pausing and playing again resumes from the same count. */
  method PauseThenPlay(home: Home)
    requires home.Valid()
    modifies home
    ensures home.Valid() && home.isRunning
    ensures home.seconds == old(home.seconds) && home.duration == old(home.duration)
  {
    home.Pause();
    home.Play();
  }

  /** Opening the editor on a stopped timer and committing straight away makes
      the count shown the new duration. */
  method EditThenCommit(home: Home)
    requires home.Valid() && !home.isRunning
    modifies home
    ensures home.Valid() && !home.isEditing
    ensures home.duration == old(home.seconds) && home.seconds == old(home.seconds)
  {
    home.NumberClick();
    CommitToDecimal(home.seconds);
    home.InputSubmit();
  }

  /** Opening the editor and pressing Escape leaves the timer as it was. */
  method EditThenCancel(home: Home)
    requires home.Valid() && !home.isRunning
    modifies home
    ensures home.Valid() && !home.isEditing && !home.isRunning
    ensures home.duration == old(home.duration) && home.seconds == old(home.seconds)
  {
    home.NumberClick();
    home.InputKeyDown("Escape");
  }

  /** A full cycle from a reset: `D` ticks ring the bell once and show `D` again. */
  method CycleFromReset(home: Home)
    requires home.Valid()
    modifies home
    ensures home.Valid() && home.isRunning
    ensures home.seconds == home.duration == old(home.duration)
    ensures home.bells == old(home.bells) + 1
  {
    home.Reset();
    home.Play();
    OneBellPerCycle(home.duration);
    home.Elapse(home.duration);
  }
}
