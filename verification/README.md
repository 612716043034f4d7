# Trebuchet calibration summer, in Dafny

A model of the day-1 (2023) "trebuchet" solution, `2023/1.trebuchet/main.c`. The program reads a text one character at a time. For each line it keeps how many digit characters it has seen (`seen_t`: `SeenZero`, `SeenOne`, `SeenTwo`) and a three-byte buffer `calibration`. The buffer holds the line's first digit, then (once the line has two or more digits) its latest digit, then a NUL terminator; slots not yet written on this line may still hold digits of an earlier line. At a `'\n'` or at EOF:
- a lone digit is copied into the second slot;
- `atoi` turns the two digits into `10 * first + last`;
- that value is added to an `int sum`, after a guard that fails when `tmp > INT_MAX - sum`.

Two modules:

- `Calibration` (`calibration.dfy`) states what the program computes, on whole values:
  - `Lines` splits the input at `'\n'`, and `Join` is its inverse;
  - `CalValue` is a line's value;
  - `Accumulate` adds the values in order, with the `INT_MAX` guard;
  - `Expected(input)` is the result of the program as written;
  - `Intended(input)` is the result with NUL read as an ordinary byte (see Findings).
- `Trebuchet` (`trebuchet.dfy`) is the loop itself:
  - `Scan` is an imperative method over the input bytes. It keeps the `calibration` array, `digitsSeen` and `sum`, and follows the C control flow (`break` at NUL and EOF, `continue` on a non-digit).
  - `EndLine` is the end-of-line block, and `RecordDigit` the digit update.
  - `Scan` is proved to return exactly `Expected(input)`.
  - The ghost function `Run` gives the loop's variables after `i` bytes, and `RunScanned` proves what they mean. The ended lines are summed in `sum`, `calibration[0]` is the line's first digit, and `calibration[1]` is its latest digit once the line has two or more digits. A digit left over from an earlier line (such as the `'2'` in the buffer `'3','2',NUL` after `12\n3`) is overwritten before `atoi` reads it, so the stale buffer is harmless.

Input is a `seq<byte>` with bytes 0..255. EOF (`-1`) is what `Fgetc` returns past the end. Overflow is the outcome `Overflow(sum, tmp)`, which carries the sum and the value that main.c:147 prints next to `INT_MAX` before `exit(EXIT_FAILURE)`. The `int` sum is unbounded in the model; the guard keeps it within `0..INT_MAX`, which is a loop invariant.

Three facts about the code that the model follows:
- A lone digit is written only to `calibration[0]` (main.c:159-163) and copied into `calibration[1]` at line end (main.c:135-139). `CalValueOneDigit` and `LineValue` prove the line is then worth `11 * d`.
- On overflow the code calls `exit` without `fclose` (main.c:147-148); stream handling is not modelled.
- A NUL byte ends the loop at main.c:127 (Findings).

## Model

| member | source | states |
|---|---|---|
| Trebuchet.Scan | 2023/1.trebuchet/main.c:120-173 | The loop as written returns `Expected(input)`. That is the in-order sum of the lines ended before the first NUL byte or EOF, or `Overflow(sum, tmp)` at the first line whose value fails the guard. |
| Trebuchet.ScanAll | 2023/1.trebuchet/main.c:127-171 | The same loop with only EOF ending it (NUL is a non-digit) returns `Intended(input)`. |
| Trebuchet.EndLine | 2023/1.trebuchet/main.c:133-152 | In `SeenOne`, `calibration[1]` receives `calibration[0]`; otherwise the buffer is unchanged. `tmp` is what `atoi` reads. `overflow` holds exactly when a digit was seen and `tmp > INT_MAX - sum`. |
| Trebuchet.RecordDigit | 2023/1.trebuchet/main.c:159-170 | A digit in `SeenZero` goes to `calibration[0]` and moves to `SeenOne`. A later digit overwrites `calibration[1]` and moves to `SeenTwo`. Nothing else in the buffer changes. |
| Trebuchet.ScannedByte | 2023/1.trebuchet/main.c:157-170 | A byte other than `'\n'` joins the current line. A non-digit changes nothing. The first digit is written once and never overwritten, `calibration[1]` holds the latest digit once the line has two or more digits, and ended lines and `sum` are untouched. |
| Trebuchet.LineValue | 2023/1.trebuchet/main.c:135-151 | At line end, what `atoi` reads is the line's calibration value, whatever stale digits of earlier lines the buffer held. |
| Trebuchet.AtoiTwoDigits | 2023/1.trebuchet/main.c:143 | `atoi` on the buffer `a`, `b`, NUL gives `10 * a + b`. |
| Trebuchet.LeadingDigits | 2023/1.trebuchet/main.c:143 | `atoi` reads the run of digit characters at the front of the buffer and stops at the first non-digit (the terminator). |
| Trebuchet.ScannedEnd | 2023/1.trebuchet/main.c:133-151 | At a terminator, a line in `SeenZero` is worth 0, and otherwise `atoi` reads its value. The guard passes exactly when adding that value to the ended lines does not overflow. |
| Trebuchet.ScannedBreak | 2023/1.trebuchet/main.c:153 | After `'\n'` the next line starts in `SeenZero`, with the sum of all ended lines. |
| Trebuchet.ScannedNewline | 2023/1.trebuchet/main.c:133-153 | A `'\n'` that passes the guard adds the line's value and resets the state. |
| Trebuchet.ScannedStart | 2023/1.trebuchet/main.c:120-124 | The zeroed buffer, `SeenZero` and `sum == 0` describe the empty text. |
| Trebuchet.Seen | 2023/1.trebuchet/main.c:52-57 | The three values of `seen_t`; `LineState` ties each to the line's digit count, capped at two. |
| Trebuchet.Fgetc | 2023/1.trebuchet/main.c:127 | `fgetc` returns EOF exactly past the end of the input, and otherwise the byte there, in 0..255, so EOF is never confused with a byte. |
| Trebuchet.Atoi | 2023/1.trebuchet/main.c:143 | Defines `atoi` on the buffer as the decimal value of its leading digits; `LeadingDigits` and `AtoiTwoDigits` state what it reads. |
| Trebuchet.BufferValue | 2023/1.trebuchet/main.c:135-143 | Defines what the end-of-line block adds: 0 in `SeenZero`, otherwise `atoi` of the buffer after a lone digit is copied into `calibration[1]`; `LineValue` proves it is the line's value. |
| Trebuchet.Step | 2023/1.trebuchet/main.c:151 | The sum never decreases, and only a `'\n'` changes it. |
| Trebuchet.StepScanned | 2023/1.trebuchet/main.c:127-171 | One pass of the loop body keeps the correspondence between the loop's variables and the text read, while the sum stays within `INT_MAX`. |
| Trebuchet.RunScanned | 2023/1.trebuchet/main.c:127-171 | After any number of bytes, with no overflow so far, the loop's variables describe the text read. |
| Trebuchet.RunNul | 2023/1.trebuchet/main.c:127 | Leaving the loop at a NUL yields the sum of the lines ended before it. |
| Trebuchet.RunEof | 2023/1.trebuchet/main.c:133-156 | At EOF the last line is still counted, and the result is the guard's verdict on adding it. |
| Trebuchet.RunNewlineOverflow | 2023/1.trebuchet/main.c:145-148 | A line ended by `'\n'` whose value fails the guard makes the whole result that overflow; nothing after it counts. |
| Trebuchet.RunEofAll | 2023/1.trebuchet/main.c:133-156 | `RunEof` for the intended reading. |
| Trebuchet.RunNewlineOverflowAll | 2023/1.trebuchet/main.c:145-148 | `RunNewlineOverflow` for the intended reading. |
| Calibration.CalValue | 2023/1.trebuchet/main.c:140-151 | Every line value lies in 0..99. |
| Calibration.CalValueFirstLast | 2023/1.trebuchet/main.c:140-151 | A line with first digit at `i` and last at `j` is worth `10 * first + last`. |
| Calibration.CalValueOneDigit | 2023/1.trebuchet/main.c:135-139 | A line with exactly one digit `d` is worth `11 * d`. |
| Calibration.CalValueNoDigit | 2023/1.trebuchet/main.c:140-153 | A line without digits, the empty line included, is worth 0. |
| Calibration.DigitsSnoc | 2023/1.trebuchet/main.c:157-158 | A trailing non-digit leaves a line's digits unchanged; a digit is appended. |
| Calibration.NoDigits | 2023/1.trebuchet/main.c:157-158 | A line has no digits exactly when none of its bytes is a digit. |
| Calibration.IsDigit | 2023/1.trebuchet/main.c:157 | Defines `isdigit(c)` as `'0'..'9'` only; `NoDigits` and `DigitsSnoc` state how it selects a line's digits. |
| Calibration.Lines | 2023/1.trebuchet/main.c:133 | The input split at every `'\n'`: always at least one line, possibly empty, the last being the line EOF ends. |
| Calibration.Accumulate | 2023/1.trebuchet/main.c:145-151 | Defines the guarded addition: each value is added in order unless `value > INT_MAX - sum`, which stops with `Overflow(sum, value)`; `AccumulateBounds`, `AccumulateOk` and `AccumulateOverflow` state its properties. |
| Calibration.Expected | 2023/1.trebuchet/main.c:127-173 | Defines the loop's result: the guarded sum of the values of the lines before the first NUL, the line that NUL interrupts left out; `Scan` is proved to return it. |
| Calibration.Intended | 2023/1.trebuchet/main.c:127-171 | Defines the result when only EOF ends the loop: the guarded sum over every line of the input; `ScanAll` is proved to return it. |
| Calibration.LinesHaveNoNewline | 2023/1.trebuchet/main.c:133 | No line contains `'\n'`. |
| Calibration.JoinLines | 2023/1.trebuchet/main.c:133 | Joining the lines with `'\n'` gives the input back. |
| Calibration.LinesJoin | 2023/1.trebuchet/main.c:133 | Splitting newline-free lines joined with `'\n'` gives the same lines back. |
| Calibration.LinesPrefix | 2023/1.trebuchet/main.c:133 | Reading more input never changes the lines already ended. |
| Calibration.AccumulateBounds | 2023/1.trebuchet/main.c:145-151 | A reported overflow has `value > INT_MAX - sum`, and a successful sum stays within `INT_MAX`. |
| Calibration.AccumulateAppend | 2023/1.trebuchet/main.c:145-151 | Summing two runs of values in turn equals summing them together; an overflow in the first run is final. |
| Calibration.AccumulateOk | 2023/1.trebuchet/main.c:145-151 | The sum succeeds exactly when every running total stays at or below `INT_MAX`, so reaching `INT_MAX` exactly is accepted. It is then the in-order sum. |
| Calibration.AccumulateOverflow | 2023/1.trebuchet/main.c:145-148 | The first running total above `INT_MAX` yields `Overflow(total before it, value)`. |
| Calibration.AddLine | 2023/1.trebuchet/main.c:145-151 | Adding one more line either overflows with that line's value or adds it. |
| Calibration.OverflowPersists | 2023/1.trebuchet/main.c:145-148 | An overflow within the first lines is the result for all of them. |
| Calibration.NulIndex | 2023/1.trebuchet/main.c:127 | The stopping position lies within the input and holds a NUL when it is not the end. |
| Calibration.NulFirst | 2023/1.trebuchet/main.c:127 | No NUL comes before the stopping position. |
| Calibration.ExpectedWithoutNul | 2023/1.trebuchet/main.c:127 | On input without NUL bytes, the program's result is the intended one. |
| Calibration.ExpectedAtNul | 2023/1.trebuchet/main.c:127-173 | On `a` NUL `b`, the line the NUL interrupts is not added and `b` is ignored. |
| Calibration.EmptyInput | 2023/1.trebuchet/main.c:133-156 | Empty input yields `Ok(0)`. |
| Calibration.TrailingNewline | 2023/1.trebuchet/main.c:133-153 | A trailing `'\n'` changes nothing: the empty last line adds 0 (intended reading; on NUL-free input it equals the program's result by `ExpectedWithoutNul`). |
| Calibration.IntendedSum | 2023/1.trebuchet/main.c:151-173 | A successful result is the plain sum of the line values, between 0 and `99 *` the number of lines (intended reading; on NUL-free input it equals the program's result by `ExpectedWithoutNul`). |
| Calibration.ExpectedOverflowIff | 2023/1.trebuchet/main.c:145-173 | The program overflows exactly when some running total of the counted line values exceeds `INT_MAX`; otherwise it returns their sum. |
| Calibration.IntendedPrefix | 2023/1.trebuchet/main.c:133 | The lines ended before a `'\n'` are the first lines of the whole input. |
| Calibration.CountedPrefix | 2023/1.trebuchet/main.c:127-133 | The same for the lines the program counts, when no NUL came first. |
| Calibration.LinesNoDigits | 2023/1.trebuchet/main.c:157-158 | Digit-free text splits into lines without digits. |
| Calibration.AccumulateZeros | 2023/1.trebuchet/main.c:145-151 | Values that are all 0 leave the sum as it is. |
| Calibration.NoDigitInput | 2023/1.trebuchet/main.c:140-153 | Input without digit characters (such as `abc`) yields `Ok(0)`. |
| Calibration.OneDigitInput | 2023/1.trebuchet/main.c:135-139 | The input consisting of one digit `d` (such as `5`) yields `Ok(11 * d)`. |
| Calibration.NulCutsLine | 2023/1.trebuchet/main.c:127 | As written, digit, NUL, digit yields `Ok(0)`. |
| Calibration.NulInLine | 2023/1.trebuchet/main.c:127-171 | As intended, digit `x`, NUL, digit `y` yields `Ok(10 * x + y)`. |

## Left out

- Command-line handling, `Argv0` and `usage()`: process plumbing around the loop.
- Stream selection, `fopen`, the stdin prompt and the "Unable to open file" message: file I/O. The input is a finite byte sequence with EOF past its end, and `fclose` is not modelled.
- Read errors: `fgetc` also returns EOF on a read error. The model only ends the input at its end.
- `printf`/`fprintf` text and `exit(EXIT_FAILURE)`: they become the `Outcome` datatype. `Overflow(sum, tmp)` carries the numbers printed.
- The debug-only `assert` calls. Line 130 is always true. Line 131 (`sum >= 0`) is a loop invariant. Line 144 (`tmp >= 0`) holds because `Atoi` returns a `nat`.
- Locale behaviour of `isdigit`: digits are exactly `'0'..'9'`.
- `Atoi`: leading whitespace, signs and overflow inside `atoi` are not modelled. The buffer only ever holds digits followed by a NUL when `atoi` reads it.
- Scan: the second `atoi(calibration)` at line 151 is modelled by adding `tmp`. It reads the same unchanged buffer, so it gives the same value.
- Scan: the end-of-line block and the digit update are separate methods (`EndLine`, `RecordDigit`) called from the loop, rather than inline code.
- The puzzle's published example (the lines `1abc2`, `pqr3stu8vwx`, `a1b2c3d4e5f` and `treb7uchet`, sum 142) is not stated as a literal input. Each of its lines follows from `CalValueFirstLast` and `CalValueOneDigit`, and the sum from `IntendedSum`.
- Running the scan twice on the same input gives the same result. Nothing states this, because `Scan` is a method over an immutable sequence and its result is fixed by its postcondition.

## Findings

| source | as written | input that shows it | evidently intended | confidence | as-written member | corrected member |
|---|---|---|---|---|---|---|
| 2023/1.trebuchet/main.c:127 | `while ((c = fgetc(f)))` is also false for a NUL byte (value 0). The loop then ends before the interrupted line is added, and the rest of the input is ignored. | the bytes `'1'`, NUL, `'2'`: result `Ok(0)` (`Calibration.NulCutsLine`) | Only EOF ends the loop, and NUL is one more non-digit: result `Ok(12)` (`Calibration.NulInLine`) | not executed | Trebuchet.Scan | Trebuchet.ScanAll |
