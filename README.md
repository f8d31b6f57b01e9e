# fifteen-seconds: the interval-bell timer, modelled in Dafny

The repository is a one-page countdown timer that rings a bell at the end of
every cycle and starts the next cycle straight away. All of its logic sits in
the `Home` component of `app/page.tsx`: five state cells (`duration`,
`seconds`, `isRunning`, `isEditing`, `inputValue`), a one-second interval that
runs only while the timer is running, the Play / Pause / Reset buttons, and a
small editor that lets the user type a new duration while the timer is
stopped.

The model has three modules:

- `JsText` (`js_text.dfy`): the JavaScript builtins the page uses, on Dafny
  strings: `replace(/\D/g, "")` (`StripNonDigits`), `parseInt`
  (`ParseInt`, with `None` for `NaN`), `Number.prototype.toString`
  (`ToDecimal`) and `padStart` (`PadStart`).
- `Rules` (`rules.dfy`): the pure expressions inside the handlers: the tick
  updater (`NextSeconds`, `BellCount`), its iteration over many ticks
  (`AfterTicks`), the commit rule `Math.max(1, Math.min(999, parseInt(v) || 15))`
  (`CommitValue`) and the two-digit display (`Display`), with the lemmas about
  them.
- `Page` (`page.dfy`): the component as a class `Home` whose fields are the
  five state cells plus a ghost counter `bells` (one per call of `playBell`);
  each handler is a method, and `Valid()` is the invariant all of them keep:
  `1 <= seconds <= duration <= 999` and a buffer of at most three digits.
  A few client methods at the end chain handlers to state properties of
  sequences of events (pause then play, edit then commit, edit then cancel,
  a full cycle after a reset).

Behaviours of the code one might not expect; the model follows the code:

- Committing `"0"` (or `"000"`) gives 15, not the lower bound 1: `parseInt("0")` is `0`, which
  is falsy, so `|| 15` takes over before the clamp (`Rules.CommitFallbackExamples`).
  The lower clamp only acts on a signed buffer such as `"-5"`, which the editor
  can never hold.
- A keystroke that would leave more than three digits is dropped and the buffer
  keeps its old value; nothing is truncated (`Page.Home.InputChange`).
- The count never shows 0: it ranges over `[1, duration]`, because the tick
  that finds 1 rings and refills the count in one step.
- Opening the editor copies the current count `seconds`, not `duration`, into
  the buffer, so opening and committing on a paused timer makes the paused
  count the new duration (`Page.EditThenCommit`).

## Model

| member | source | states |
|---|---|---|
| `JsText.StripNonDigits` | app/page.tsx:91 | the result has only digits, is no longer than the input, and a digit-only input is returned unchanged (so stripping is idempotent) |
| `JsText.StripConcat` | app/page.tsx:91 | stripping distributes over concatenation, so it acts character by character and keeps the order of the digits |
| `JsText.StripKeepsDigits` | app/page.tsx:91 | every digit is kept as many times as it occurs and every non-digit disappears |
| `JsText.DigitsValue` | app/page.tsx:98 | the decimal value of a digit string is below 10 to the power of its length |
| `JsText.LeadingDigits` | app/page.tsx:98 | `parseInt` reads the longest prefix made of digits: a digit prefix of the input followed by a non-digit or the end |
| `JsText.SplitSign` | app/page.tsx:98 | the optional sign `parseInt` reads: the rest is the input with its one leading `+` or `-` removed, or the whole input when there is no sign, and the number is negative exactly when that sign is `-` |
| `JsText.ParseInt` | app/page.tsx:98 | a parsed value has a magnitude below 10 to the length of the text, and is negative only when the text starts with `-` |
| `JsText.ParseDigits` | app/page.tsx:98 | a digit string parses to its full decimal value; the empty string parses to `NaN` |
| `JsText.ParseNaN` | app/page.tsx:98 | `parseInt` yields `NaN` exactly when no digit follows the optional sign |
| `JsText.ToDecimal` | app/page.tsx:86 | `toString` of a count gives digits with no leading zero whose decimal value is the count |
| `JsText.ToDecimalLength` | app/page.tsx:86 | a number below 10 to the k takes at most k digits, so a count up to 999 fits the three-digit buffer |
| `JsText.ParseToDecimal` | app/page.tsx:86 | `parseInt` of the `toString` of a count gives the count back |
| `JsText.PadStart` | app/page.tsx:133 | the result has length max(width, length of the input), ends with the input and is filled with the fill character in front |
| `Rules.NextSeconds` | app/page.tsx:56-62 | one tick keeps the count inside [1, duration] |
| `Rules.AfterTicks` | app/page.tsx:55-63 | k uninterrupted firings of the interval ring at most k bells |
| `Rules.AfterTicksInRange` | app/page.tsx:55-62 | any number of ticks keeps the count inside [1, duration] |
| `Rules.CountdownPhase` | app/page.tsx:57-61 | from a count s, each of the first s - 1 ticks takes one off and no bell rings |
| `Rules.AfterBoundary` | app/page.tsx:57-60 | the s-th tick from a count s rings exactly once and restarts a fresh cycle at the full duration |
| `Rules.OneBellPerCycle` | app/page.tsx:55-62 | from a full count D, D - 1 ticks reach 1 with no bell and D ticks ring once and show D again |
| `Rules.BellsCountCycles` | app/page.tsx:55-62 | from a full count D, q whole cycles plus r < D ticks ring exactly q bells and show D - r |
| `Rules.FifteenSecondCycle` | app/page.tsx:6-7 | the default cycle: 14 ticks reach 1 silently, the 15th rings once and shows 15 |
| `Rules.CommitValue` | app/page.tsx:98 | the committed duration lies in [1, 999]; `NaN` and 0 give 15; a parsed value above 999 gives 999, below 0 gives 1, otherwise the value itself |
| `Rules.CommitOfBuffer` | app/page.tsx:90-98 | on a buffer of at most three digits the clamp never acts: the commit is the typed number, or 15 when it is empty or zero |
| `Rules.CommitToDecimal` | app/page.tsx:86-98 | committing the text the editor was opened with gives back the count it was opened on |
| `Rules.CommitFallbackExamples` | app/page.tsx:98 | "", "abc", "0" and "000" all commit to 15 |
| `Rules.CommitCeilingExample` | app/page.tsx:98 | "2000" commits to 999 |
| `Rules.CommitClampExamples` | app/page.tsx:98 | "-5" commits to 1, "42" to 42 |
| `Rules.Display` | app/page.tsx:133 | the display is all digits: a one-digit count is shown as `0` followed by its digit, any other count as its plain decimal text |
| `Rules.DisplayReadsBack` | app/page.tsx:133 | the zero-padded display is a digit string reading back as the count, two or three characters long for counts up to 999 |
| `Page.Home.constructor` | app/page.tsx:6-10 | the mount state: duration and count 15, stopped, not editing, buffer "15", no bell, invariant holds |
| `Page.Home.Elapsed` | app/page.tsx:145 | the progress-bar numerator `duration - seconds` lies in [0, duration - 1] |
| `Page.Home.Shown` | app/page.tsx:133 | the display text is two or three digits that read back as the count: `0` and the digit below 10, the decimal text of the count otherwise |
| `Page.Home.Play` | app/page.tsx:71-74 | sets running and changes nothing else, so Play on a running timer changes nothing |
| `Page.Home.Pause` | app/page.tsx:76 | clears running and keeps count, duration and editor state |
| `Page.Home.Reset` | app/page.tsx:78-81 | whatever the prior state: stopped, count equal to the unchanged duration, invariant kept |
| `Page.Home.Tick` | app/page.tsx:54-62 | while running the count takes one tick step and a bell is added exactly when it found 1; while stopped nothing changes; duration and run state never change |
| `Page.Home.Elapse` | app/page.tsx:54-63 | k uninterrupted interval firings leave the count and the bells exactly as k steps of the tick updater say, and keep the invariant |
| `Page.Home.NumberClick` | app/page.tsx:83-88 | while running nothing changes; while stopped the editor opens with the decimal text of the count, which fits three digits |
| `Page.Home.InputChange` | app/page.tsx:90-95 | the buffer becomes the stripped text when it has at most three digits and keeps its old value otherwise, so it stays digit-only and at most three long |
| `Page.Home.InputSubmit` | app/page.tsx:97-102 | duration and count both become the commit value, the editor closes, and the value is the typed number or 15 for an empty or zero buffer |
| `Page.Home.InputKeyDown` | app/page.tsx:104-110 | Enter commits; Escape closes the editor and keeps duration and count; other keys change nothing |
| `Page.PauseThenPlay` | app/page.tsx:71-76 | pause followed by play resumes from the same count and duration |
| `Page.EditThenCommit` | app/page.tsx:83-102 | on a stopped timer, opening the editor and committing at once makes the count shown the new duration |
| `Page.EditThenCancel` | app/page.tsx:83-110 | on a stopped timer, opening the editor and pressing Escape leaves duration, count and run state as they were |
| `Page.CycleFromReset` | app/page.tsx:55-81 | reset, play and D ticks ring the bell exactly once and show the full duration D again |

## Left out

- Audio: the `Audio` element, its `loadedmetadata` listener, the muted play/pause unlock in `unlockAudio`, and `playBell`'s seek to two seconds before the end are browser I/O with promises and floating-point media time; `playBell` is modelled only as one step of the ghost counter `bells`, and Play does not model its call to `unlockAudio`.
- Scheduling: `setInterval`, `clearInterval` and the effect cleanup are not modelled; `Tick` is a step that does nothing unless the timer is running, and `Elapse` is a run of such steps with no other event between them. Wall-clock timing and drift cannot be stated.
- React: `useState`, `useRef`, `useCallback`, the re-running of the effect when `duration` changes, and batching of state updates; each handler is one atomic method.
- Focus: leaving the input calls the same handler as Enter, modelled once as `Page.Home.InputSubmit`; the order in which the browser fires blur and a button click is not modelled, so the model does not derive that the editor is closed whenever the timer runs.
- Rendering: the JSX, styles, the input width and the progress-bar percentage, which is floating-point division; only its integer numerator is modelled (`Page.Home.Elapsed`).
- JsText.ParseInt: leading white space and the `0x` hexadecimal prefix that `parseInt` also accepts are not modelled, because the buffer it is applied to always holds digits only.
- JsText.ParseInt / JsText.ToDecimal: JavaScript numbers are doubles, so `parseInt` rounds values above 2^53 (and gives `Infinity` past about 309 digits) and `toString` switches to exponent notation from 1e21; the model uses exact integers and agrees with JavaScript only below 2^53 and 1e21, which covers everything the page feeds them (buffers of at most three digits and counts up to 999).
- Strings: JavaScript strings are UTF-16 and `length` counts code units; the model counts characters, which agree on the ASCII digits the buffer holds.
