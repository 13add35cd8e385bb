# Distance locker — a Dafny model of the proximity hysteresis locker

`distance_locker` locks the desktop when a paired Bluetooth device moves away
and unlocks it when the device comes back. A sensor script prints one line per
reading. `bluetooth_distance_locker` reads these lines one at a time and keeps
two things:

- a window of at most five far readings, newest at the left
  (`deque(maxlen=5)`);
- a flag that records whether the device has been seen.

After each line it takes its state from the screensaver's own report. It
locks the screen only when the screensaver reports unlocked and the window is
full. It unlocks only when the screensaver reports locked and the window holds
fewer than four entries. Otherwise it runs no command (see
`DistanceLocker.Transition`).

This project models that core:

- `py_text.dfy` (module `PyText`) models the parts of Python's string handling
  that `parse_line` depends on:
  - `str.strip`, over the full `str.isspace` set;
  - `str.replace(prefix, '')`, which removes every occurrence from left to
    right and does not require the prefix to be there;
  - `int()` on text: an optional sign and ASCII digits with single
    underscores between them, with white space around them. `int()` skips the
    same white space `str.strip` does, except the four separators
    U+001C–U+001F, which it never skips, so a text holding one is refused;
  - the canonical decimal text of an integer, as `str(n)` writes it. The
    sensor script's output format is not part of this model. The sensor is
    assumed to print its readings in this form.
- `deque.dfy` (module `Deques`) models `collections.deque` with a `maxlen`, as
  a class over a `seq<int>`. It has the three operations the locker uses:
  `appendleft`, `pop` and `len`.
- `locker.dfy` (module `DistanceLocker`) holds the model itself:
  - the constants;
  - the line classifier (`Classify`);
  - value-level specifications of `parse_line` (`ParsedLine`),
    `check_screen_save_status` (`ScreenSaverStatus`), the transition rule
    (`Transition`), one loop pass (`ProcessedLine`) and a whole session
    (`Run`);
  - the class `Locker`, whose methods `ParseLine` and `ProcessLine` update the
    deque, the flag, the state and the command log in place, each proved
    against its specification;
  - the method `BluetoothDistanceLocker`, which runs the loop over a stream of
    lines and is proved equal to `Run`.
- `locker_properties.dfy` (module `LockerProperties`) proves what the locker
  promises about the model, line by line and over whole streams.

Each loop iteration is modelled as an `Iteration(line, statusOutput)`:

- the sensor line;
- the text the status command printed for that pass.

The lock and unlock commands become a log of `LockScreen` / `UnlockScreen`. A
line whose number `int()` refuses raises `ValueError` in the source, which ends
the program. The model reports such a line as `failedAt`, and no later line has
any effect.

A full window is overwritten. `appendleft` on the full `deque(maxlen=5)`
(lines 38 and 54 of `distance_locker/__init__.py`) silently drops the oldest
entry, and the model does the same: see `Deques.PushedLeft` and
`LockerProperties.FarReadingsSaturate`.

## Model

| member | source | states |
|---|---|---|
| PyText.Strip | distance_locker/__init__.py:44 | the stripped line is no longer than the raw one and neither starts nor ends with white space |
| PyText.StripKeepsInfix | distance_locker/__init__.py:44 | strip keeps one contiguous piece of the line, and everything it drops on either side is white space |
| PyText.StripPadded | distance_locker/__init__.py:44 | white space around a text that neither starts nor ends with white space is exactly what strip removes |
| PyText.RemoveAll | distance_locker/__init__.py:52 | removing every copy of the prefix never lengthens the line |
| PyText.RemoveAllKeepsChars | distance_locker/__init__.py:52 | replace(prefix, '') only deletes: every character it keeps is a character of the line |
| PyText.NoDigitNoNumber | distance_locker/__init__.py:52 | int() refuses every text without a digit, the empty text and white space alone included |
| PyText.RemoveAllAbsent | distance_locker/__init__.py:52 | a line that does not contain the prefix's first character is left unchanged by the replace |
| PyText.ParseInt | distance_locker/__init__.py:52 | int() on text; what it accepts and returns is stated in both directions by ParseIntNumeral (every padded, optionally signed numeral is accepted with its value) and AcceptedIsPaddedNumeral (nothing else is accepted, and the value is that numeral's), with ParsedTextIsNumeral, ParseIntDecimal, ParseIntSkipsPadding and NoDigitNoNumber |
| PyText.ParseIntSkipsPadding | distance_locker/__init__.py:52 | padding a text on either side with white space int() skips never changes what int() makes of it |
| PyText.ParseIntNumeral | distance_locker/__init__.py:52 | int() accepts every numeral (digits with single underscores between them), bare, after '+' or after '-', padded with white space it skips, and returns its value with that sign |
| PyText.AcceptedIsPaddedNumeral | distance_locker/__init__.py:52 | whatever int() accepts is a numeral, bare or after '+' or '-', padded with white space int() skips, and int() returns that numeral's value with that sign; so a doubled or trailing underscore is refused |
| PyText.ParseIntDecimal | distance_locker/__init__.py:52 | int() reads back every integer from its decimal text, negative ones included |
| PyText.ParsedTextIsNumeral | distance_locker/__init__.py:52 | when int() accepts a text, the text holds none of the separators U+001C–U+001F, and its stripped text is not empty, and is a numeral (digits with single underscores between them), bare or after one sign |
| Deques.PushedLeft | distance_locker/__init__.py:53-54 | appendleft on a bounded deque puts x at the left end, keeps the older items in order behind it, and drops the rightmost one exactly when the deque was full, so the length is min(old + 1, maxlen) |
| Deques.Deque.constructor | distance_locker/__init__.py:38 | a new deque is empty and has the given maxlen |
| Deques.Deque.AppendLeft | distance_locker/__init__.py:53-54 | the deque's new contents are exactly PushedLeft of the old ones, and the bound still holds |
| Deques.Deque.Pop | distance_locker/__init__.py:56-57 | pop returns the rightmost (oldest) item and leaves the others in order |
| DistanceLocker.AfterReading | distance_locker/__init__.py:53-58 | a far reading (< -1) becomes the newest entry and the oldest falls off a full queue; a near reading (>= -1) removes exactly the oldest entry, or does nothing on an empty queue, and the rest keep their order |
| DistanceLocker.Classify | distance_locker/__init__.py:44-52 | the branch parse_line takes on a line: noise, the disconnect notice, a reading of a number, or a number int() refuses; what each branch does is stated by ParsedLine and by NoiseLine, DisconnectLine, OtherLineActivates and NoDigitIsMalformed |
| DistanceLocker.ParsedLine | distance_locker/__init__.py:42-58 | parse_line never touches the lock state or the commands, never clears the device flag, and moves the queue length by at most one; it fails exactly on the lines the classifier calls malformed |
| DistanceLocker.ScreenSaverStatus | distance_locker/__init__.py:71-78 | the status is UNLOCK if and only if the output starts with the configured prefix, and LOCK otherwise |
| DistanceLocker.Transition | distance_locker/__init__.py:84-90 | the new state is LOCK if and only if the queue is full, or the screen is locked and the queue has at least 4 entries; a command is issued exactly when the state changes, and it is the one for the new state |
| DistanceLocker.ProcessedLine | distance_locker/__init__.py:81-90 | one pass of the loop only appends to the command log, and appends at most one command |
| DistanceLocker.Run | distance_locker/__init__.py:80-90 | a session issues at most one command per line and only appends to the log; a reported fatal line lies inside the stream |
| DistanceLocker.RunOneMore | distance_locker/__init__.py:80-90 | after lines that did not fail, the next line is processed on the session they left, or is reported fatal |
| DistanceLocker.RunStopsAtFailure | distance_locker/__init__.py:80-82 | once a line has raised, the lines after it change nothing |
| DistanceLocker.Locker.constructor | distance_locker/__init__.py:38-40 | a new locker has an empty queue of capacity 5, the device not yet seen, the state UNLOCK and no commands |
| DistanceLocker.Locker.ParseLine | distance_locker/__init__.py:42-58 | the in-place parse_line succeeds exactly when ParsedLine does and then leaves ParsedLine's session; when int() raises, the device has already been marked active and nothing else has changed |
| DistanceLocker.Locker.ProcessLine | distance_locker/__init__.py:82-90 | the in-place loop body leaves exactly the session ProcessedLine gives, or fails where it fails, with only the device flag set |
| DistanceLocker.BluetoothDistanceLocker | distance_locker/__init__.py:36-91 | the loop over the sensor's lines issues exactly the commands Run predicts and stops at the line Run reports fatal |
| LockerProperties.NotSpecialLine | distance_locker/__init__.py:16-21 | no noise message and not the disconnect notice starts with 'D', '-', '+' or a digit |
| LockerProperties.NoiseLine | distance_locker/__init__.py:44-46 | a line equal to a noise message after strip leaves the whole session unchanged |
| LockerProperties.DisconnectLine | distance_locker/__init__.py:47-50 | "Not connected." never changes the device flag; it leaves the queue alone while the flag is false, and otherwise puts -255 at the newest end |
| LockerProperties.OtherLineActivates | distance_locker/__init__.py:51-52 | any other line succeeds exactly when int() accepts it with the prefix removed, and then marks the device active |
| LockerProperties.ReadingTextIsReading | distance_locker/__init__.py:44-52 | the sensor's "Device connected. RSSI: n" line is read as the value n, negative values included |
| LockerProperties.ReadingLine | distance_locker/__init__.py:51-58 | the sensor's line for n marks the device active and moves the queue as AfterReading n says |
| LockerProperties.BareNumberIsReading | distance_locker/__init__.py:52 | the prefix is not required: a bare number is read as a reading too |
| LockerProperties.ReadingStep | distance_locker/__init__.py:81-90 | a reading line as a whole loop pass: the queue moves first, then the transition is applied to the new queue length |
| LockerProperties.PrefixRemoved | distance_locker/__init__.py:52 | replace removes a leading prefix and leaves the rest of the line when the rest has no 'D' to start another copy |
| LockerProperties.NoDigitIsMalformed | distance_locker/__init__.py:44-52 | a line with no digit anywhere that is neither a noise message nor the disconnect notice is one whose number int() refuses |
| LockerProperties.NonNumericReading | distance_locker/__init__.py:44-52 | a reading line whose value has no digit (an empty value, a word, a value with white space inside) is classified as refused by int() |
| LockerProperties.NonNumericReadingIsFatal | distance_locker/__init__.py:51-52 | any such line makes parse_line raise and the loop pass fail, whatever the session |
| LockerProperties.SeparatorInReadingIsMalformed | distance_locker/__init__.py:52 | a reading line whose number, whatever it is, follows a U+001C separator is refused: strip keeps the separator inside the line, and int() does not skip it |
| LockerProperties.FatalLineEndsSession | distance_locker/__init__.py:80-82 | a fatal line ends the session there: the reported line is that one, and no command is issued for it or after it |
| LockerProperties.NoiseLinesKeepWindow | distance_locker/__init__.py:44-46 | any number of noise lines keep the queue and the device flag as they were and never fail |
| LockerProperties.DisconnectsBeforeFirstReading | distance_locker/__init__.py:40-50 | before the device has been seen, disconnect and noise lines keep the queue empty and the flag false, and never lock the screen |
| LockerProperties.ActiveStaysActive | distance_locker/__init__.py:51 | once the device has been seen, it stays marked active for the rest of the session |
| LockerProperties.QueueHoldsOnlyFarReadings | distance_locker/__init__.py:47-58 | every entry the queue holds is below -1 (a far reading or the -255 sentinel), whatever line comes |
| LockerProperties.FarReadingsSaturate | distance_locker/__init__.py:53-55 | a run of far readings grows the queue by one per line up to 5 and no further, with the last reading at the newest end |
| LockerProperties.NearReadingsErode | distance_locker/__init__.py:56-58 | a run of near readings removes the oldest entries one per line, leaving the newest ones in order, and stops at empty |
| LockerProperties.LineDecision | distance_locker/__init__.py:84-90 | per line: UNLOCK with 5 entries locks with exactly one lock command, LOCK with fewer than 4 unlocks with exactly one unlock command, and otherwise the state becomes the screensaver's and no command is issued |
| LockerProperties.NoUnlockRightAfterLock | distance_locker/__init__.py:85-90 | the line after a lock cannot unlock: the queue was full, and one line takes it down to 4 at most |
| LockerProperties.FarReadingsFromFresh | distance_locker/__init__.py:81-87 | from a fresh session with the screensaver inactive, k <= 5 far readings leave k copies in the queue, and the screen is locked only when k is 5 |
| LockerProperties.FarReadingsLockOnFifth | distance_locker/__init__.py:85-87 | five far readings with the screensaver inactive issue no command for the first four lines and exactly one lock command on the fifth |
| LockerProperties.FiveFarReadingsLock | story.py:406-419 | five "Device connected. RSSI: n" lines with a far n lock the screen on the fifth line and not before |
| LockerProperties.NearReadingWhileLocked | distance_locker/__init__.py:88-90 | a near reading while the screensaver reports locked takes the oldest entry out and unlocks exactly when fewer than 4 entries remain |
| LockerProperties.NearReadingInDeadZone | distance_locker/__init__.py:88-90 | a locked screen with a full queue stays locked after one near reading, with 4 entries left |
| LockerProperties.TwoNearReadingsUnlock | distance_locker/__init__.py:88-90 | two near readings on a locked screen with a full queue unlock it on the second line with one unlock command, keeping the 3 newest entries |

## Left out

- `print_state` and the `PROGRESS` spinner (distance_locker/__init__.py:12, 60-69) are terminal rendering with no effect on decisions, so they are not modelled.
- The subprocess plumbing is modelled as inputs and outputs, not as calls:
  - the `Popen` of the sensor script and its `readline` loop (distance_locker/__init__.py:80-81) become the input sequence of lines;
  - the status command's `run` (72-75) becomes the per-iteration `statusOutput` string;
  - the lock and unlock `run`s (87, 90) become the `LockScreen` / `UnlockScreen` log.
  - Exit codes are never inspected by the source, and the model has none.
- The `os.getenv` configuration (distance_locker/__init__.py:22-33) is not modelled. The unlock-state prefix is a parameter, and the command strings are the opaque `LockScreen` / `UnlockScreen` values. The sensor script path and the device address are not modelled.
- The rebinding of `line` to its stripped copy inside `parse_line` only feeds the display, so it is not modelled.
- distance_locker/__main__.py (argument parsing), setup.py (packaging), story.py (a slide presentation) and details.py (a stubbed copy of the same function) are not part of this model. Only story.py's description of the rule is cited, for the five-readings scenario.
- PyText.RemoveAll: its own contract states only that the text gets no longer. What it keeps is stated by RemoveAllKeepsChars (only characters of the text) and by RemoveAllAbsent and LockerProperties.PrefixRemoved (exactly what it leaves, for the lines the locker reads). The exact result on arbitrary texts is not stated.
- PyText.ParseInt: accepts only ASCII digits. Python's `int()` also accepts other Unicode decimal digits. The model assumes the sensor script, whose text is not part of this model, prints only ASCII digits.
- PyText.ParseInt: does not model the limit on the length of a decimal text (`sys.int_max_str_digits`, 4300 digits by default). Python 3.11 and later, and the 3.7–3.10 security releases that added it, raise `ValueError` beyond it. The limit depends on the interpreter version and configuration. So, on those interpreters, ParseIntNumeral and ParseIntDecimal hold only for texts of at most 4300 digits, and the model reads a longer reading line as a reading where line 52 would raise.
- DistanceLocker.BluetoothDistanceLocker: a `ValueError` ends the Python program with a traceback. The model returns the index of the failing line instead, and models nothing after it.
