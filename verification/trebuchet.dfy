/** The character-scanning loop of `main` in the day-1 solution
    (2023/1.trebuchet/main.c), proved to compute `Calibration.Expected`. */
module Trebuchet {
  import opened Calibration

  /** `seen_t`: how many digits the current line has shown, capped at two. */
  datatype Seen = SeenZero | SeenOne | SeenTwo

  /** The `int` that `fgetc` returns at end of file. */
  const EOF: int := -1

  /** `fgetc` at position `i` of the input: the byte there, or EOF past the end. */
  function Fgetc(input: seq<byte>, i: nat): (c: int)
    ensures c == EOF <==> i >= |input|
    ensures c != EOF ==> 0 <= c <= 255 && c == input[i] as int
  {
    if i < |input| then input[i] as int else EOF
  }

  // ---------------------------------------------------------------------
  // atoi on the calibration buffer

  /** The run of digit characters at the front of `s`. */
  function LeadingDigits(s: seq<byte>): (ds: seq<byte>)
    ensures |ds| <= |s| && ds == s[..|ds|]
    ensures forall k :: 0 <= k < |ds| ==> IsDigit(ds[k] as int)
    ensures |ds| < |s| ==> !IsDigit(s[|ds|] as int)
  {
    if s == [] || !IsDigit(s[0] as int) then [] else [s[0]] + LeadingDigits(s[1..])
  }

  /** The number a string of decimal digits spells. */
  function DecimalValue(ds: seq<byte>): nat
    requires forall k :: 0 <= k < |ds| ==> IsDigit(ds[k] as int)
  {
    if ds == [] then 0
    else 10 * DecimalValue(ds[..|ds| - 1]) + DigitValue(ds[|ds| - 1] as int)
  }

  /** `atoi` on a buffer of digit characters: the value of its leading digits
      (it stops at the NUL terminator). */
  function Atoi(s: seq<byte>): nat {
    DecimalValue(LeadingDigits(s))
  }

  /** The buffer "ab" followed by NUL converts to `10 * a + b`. */
  lemma AtoiTwoDigits(a: byte, b: byte)
    requires IsDigit(a as int) && IsDigit(b as int)
    ensures Atoi([a, b, NUL]) == 10 * DigitValue(a as int) + DigitValue(b as int)
  {
    var s := [a, b, NUL];
    assert LeadingDigits([NUL]) == [];
    assert s[1..] == [b, NUL] && [b, NUL][1..] == [NUL];
    assert LeadingDigits([b, NUL]) == [b];
    assert LeadingDigits(s) == [a, b];
    assert [a, b][..1] == [a] && [a][..0] == [];
    assert DecimalValue([a]) == DigitValue(a as int);
  }

  // ---------------------------------------------------------------------
  // Per-line state

  /** The state the loop keeps after the characters `line` of the current
      line: `seen` counts its digits up to two, `cal[0]` holds its first digit
      once there is one, `cal[1]` its latest once there are two, and `cal[2]`
      stays the terminator. The slots not yet written on this line may still
      hold digits of an earlier line: the buffer is never cleared. */
  ghost predicate LineState(line: seq<byte>, seen: Seen, cal: seq<byte>) {
    var d := Digits(line);
    |cal| == 3 && cal[2] == NUL &&
    seen == (if |d| == 0 then SeenZero else if |d| == 1 then SeenOne else SeenTwo) &&
    (|d| >= 1 ==> cal[0] == d[0]) &&
    (|d| >= 2 ==> cal[1] == d[|d| - 1])
  }

  /** What `atoi` reads at the end of a line with digits is that line's
      calibration value, whatever stale digits the buffer held before: in
      `SeenOne` the copy of the first digit into `cal[1]` replaces them. */
  lemma LineValue(line: seq<byte>, seen: Seen, cal: seq<byte>)
    requires LineState(line, seen, cal) && seen != SeenZero
    ensures Atoi(if seen == SeenOne then cal[1 := cal[0]] else cal) == CalValue(line)
  {
    var buf := if seen == SeenOne then cal[1 := cal[0]] else cal;
    assert buf == [buf[0], buf[1], NUL];
    AtoiTwoDigits(buf[0], buf[1]);
  }

  /** The loop's view of the text read so far: the lines already ended were
      summed without overflow into `sum`, and the line in progress is
      described by `seen` and `cal`. */
  ghost predicate Scanned(text: seq<byte>, sum: int, seen: Seen, cal: seq<byte>) {
    var ls := Lines(text);
    Accumulate(CalValues(ls[..|ls| - 1]), 0) == Ok(sum) &&
    LineState(ls[|ls| - 1], seen, cal)
  }

  /** At a line terminator: the value `atoi` reads (after a lone digit is
      copied into `cal[1]`) is the line's calibration value, a line without
      digits is worth 0, and adding it passes the guard exactly when the line
      can be added to the ended ones without overflow. */
  lemma ScannedEnd(text: seq<byte>, sum: int, seen: Seen, cal: seq<byte>)
    requires Scanned(text, sum, seen, cal)
    ensures var ls := Lines(text);
      var v := CalValue(ls[|ls| - 1]);
      (seen == SeenZero ==> v == 0) &&
      (seen != SeenZero ==> Atoi(if seen == SeenOne then cal[1 := cal[0]] else cal) == v) &&
      Accumulate(CalValues(ls), 0) ==
        if v > INT_MAX - sum then Overflow(sum, v) else Ok(sum + v)
  {
    var ls := Lines(text);
    var cur := ls[|ls| - 1];
    if seen != SeenZero {
      LineValue(cur, seen, cal);
    }
    AddLine(ls[..|ls| - 1], cur, sum);
    assert ls[..|ls| - 1] + [cur] == ls;
  }

  /** One byte that is not '\n' joins the current line. Only a digit changes
      the state: in `SeenZero` it becomes the first digit in `cal[0]`, which
      nothing later overwrites; otherwise it goes to `cal[1]` and the state
      moves on to `SeenTwo`. Ended lines and the sum are untouched. */
  lemma ScannedByte(input: seq<byte>, i: nat, sum: int, seen: Seen, cal: seq<byte>,
                    seen': Seen, cal': seq<byte>)
    requires i < |input| && input[i] != NL
    requires Scanned(input[..i], sum, seen, cal)
    requires var c := input[i];
      if !IsDigit(c as int) then seen' == seen && cal' == cal
      else if seen == SeenZero then seen' == SeenOne && cal' == cal[0 := c]
      else seen' == SeenTwo && cal' == cal[1 := c]
    ensures Scanned(input[..i + 1], sum, seen', cal')
  {
    assert input[..i + 1][..i] == input[..i];
    var ls := Lines(input[..i]);
    var cur := ls[|ls| - 1];
    var ls' := Lines(input[..i + 1]);
    assert ls' == ls[..|ls| - 1] + [cur + [input[i]]];
    assert ls'[..|ls'| - 1] == ls[..|ls| - 1];
    DigitsSnoc(cur, input[i]);
    var d, d' := Digits(cur), Digits(cur + [input[i]]);
    if IsDigit(input[i] as int) {
      assert d' == d + [input[i]];
      assert |d'| >= 1 ==> d'[0] == (if |d| == 0 then input[i] else d[0]);
      assert LineState(cur + [input[i]], seen', cal');
    } else {
      assert d' == d;
    }
  }

  /** A '\n' after the ended lines summed into `sum` opens an empty line in
      `SeenZero`; the buffer keeps its stale digits. */
  lemma ScannedBreak(input: seq<byte>, i: nat, sum: int, cal: seq<byte>)
    requires i < |input| && input[i] == NL
    requires Accumulate(CalValues(Lines(input[..i])), 0) == Ok(sum)
    requires |cal| == 3 && cal[2] == NUL
    ensures Scanned(input[..i + 1], sum, SeenZero, cal)
  {
    assert input[..i + 1][..i] == input[..i];
    var ls' := Lines(input[..i + 1]);
    assert ls'[..|ls'| - 1] == Lines(input[..i]);
  }

  // ---------------------------------------------------------------------
  // The loop's state, byte by byte

  /** The three-byte buffer `calibration`. */
  type Buffer = s: seq<byte> | |s| == 3 witness [NUL, NUL, NUL]

  /** The loop's variables `sum`, `digitsSeen` and `calibration`. */
  datatype State = State(sum: nat, seen: Seen, cal: Buffer)

  /** What the program adds for a line ended in state `seen` with buffer
      `cal`: nothing in `SeenZero`, otherwise what `atoi` reads once a lone
      digit has been copied into `cal[1]`. */
  function BufferValue(seen: Seen, cal: seq<byte>): nat
    requires |cal| == 3
  {
    if seen == SeenZero then 0
    else Atoi(if seen == SeenOne then cal[1 := cal[0]] else cal)
  }

  /** One pass of the loop body of `Scan` (with `EndLine` and `RecordDigit`)
      on the byte `c`, leaving aside the guard
      against overflow: a '\n' adds the line's value and resets the count of
      digits, a digit is recorded, anything else changes nothing. */
  function Step(st: State, c: byte): (st': State)
    ensures st'.sum >= st.sum
    ensures c != NL ==> st'.sum == st.sum
  {
    if c == NL then
      State(st.sum + BufferValue(st.seen, st.cal), SeenZero,
            if st.seen == SeenOne then st.cal[1 := st.cal[0]] else st.cal)
    else if !IsDigit(c as int) then st
    else if st.seen == SeenZero then State(st.sum, SeenOne, st.cal[0 := c])
    else State(st.sum, SeenTwo, st.cal[1 := c])
  }

  /** The loop's variables once the first `i` bytes of `input` are read. */
  ghost function Run(input: seq<byte>, i: nat): State
    requires i <= |input|
  {
    if i == 0 then State(0, SeenZero, [NUL, NUL, NUL])
    else Step(Run(input, i - 1), input[i - 1])
  }

  /** A '\n' that keeps the sum within INT_MAX ends the line in progress:
      its value joins the sum and the next line starts empty. */
  lemma ScannedNewline(input: seq<byte>, i: nat, st: State)
    requires i < |input| && input[i] == NL && Step(st, NL).sum <= INT_MAX
    requires Scanned(input[..i], st.sum, st.seen, st.cal)
    ensures var st' := Step(st, NL); Scanned(input[..i + 1], st'.sum, st'.seen, st'.cal)
  {
    var st' := Step(st, NL);
    ScannedEnd(input[..i], st.sum, st.seen, st.cal);
    ScannedBreak(input, i, st'.sum, st'.cal);
  }

  /** Before the first byte: no line has ended, the sum is 0 and the
      zero-filled buffer describes an empty line. */
  lemma ScannedStart()
    ensures Scanned([], 0, SeenZero, [NUL, NUL, NUL])
  {
    assert Digits([]) == [];
  }

  /** One pass of the loop body keeps the view of the text read so far, as
      long as the sum stays within INT_MAX. */
  lemma StepScanned(input: seq<byte>, i: nat, st: State)
    requires i < |input| && Step(st, input[i]).sum <= INT_MAX
    requires Scanned(input[..i], st.sum, st.seen, st.cal)
    ensures var st' := Step(st, input[i]); Scanned(input[..i + 1], st'.sum, st'.seen, st'.cal)
  {
    var st' := Step(st, input[i]);
    if input[i] == NL {
      ScannedNewline(input, i, st);
    } else {
      ScannedByte(input, i, st.sum, st.seen, st.cal, st'.seen, st'.cal);
    }
  }

  /** While no running total has passed INT_MAX, the loop's variables
      describe the text read so far: the lines already ended are summed in
      `sum`, and `digitsSeen` and `calibration` hold the digits of the line in
      progress. */
  lemma {:induction false} RunScanned(input: seq<byte>, i: nat)
    requires i <= |input| && Run(input, i).sum <= INT_MAX
    ensures var st := Run(input, i); Scanned(input[..i], st.sum, st.seen, st.cal)
  {
    if i == 0 {
      assert input[..0] == [];
      ScannedStart();
    } else {
      var st := Run(input, i - 1);
      assert Run(input, i) == Step(st, input[i - 1]);
      RunScanned(input, i - 1);
      StepScanned(input, i - 1, st);
    }
  }

  // ---------------------------------------------------------------------
  // Leaving the loop

  /** Stopping at a NUL at `i`: the result is what the ended lines sum to. */
  lemma RunNul(input: seq<byte>, i: nat)
    requires i < |input| && input[i] == NUL && i <= NulIndex(input)
    requires Run(input, i).sum <= INT_MAX
    ensures Expected(input) == Ok(Run(input, i).sum)
  {
    RunScanned(input, i);
    NulFirst(input, i);
    assert CountedLines(input) == Lines(input[..i])[..|Lines(input[..i])| - 1];
  }

  /** Ending the last line at EOF (at `n`), with no NUL in the input: the result is
      the guard's verdict on adding that line's value. */
  lemma RunEof(input: seq<byte>, n: nat)
    requires n == |input| && NulIndex(input) == n && Run(input, n).sum <= INT_MAX
    ensures var st := Run(input, n);
      var v := BufferValue(st.seen, st.cal);
      Expected(input) == if v > INT_MAX - st.sum then Overflow(st.sum, v) else Ok(st.sum + v)
  {
    var st := Run(input, n);
    RunScanned(input, n);
    assert input[..n] == input;
    ScannedEnd(input, st.sum, st.seen, st.cal);
  }

  /** A line ended by the '\n' at `i` whose value overflows the sum of the
      ended lines: that overflow is the result. */
  lemma RunNewlineOverflow(input: seq<byte>, i: nat)
    requires i < |input| && input[i] == NL && i <= NulIndex(input)
    requires var st := Run(input, i);
      st.sum <= INT_MAX && BufferValue(st.seen, st.cal) > INT_MAX - st.sum
    ensures var st := Run(input, i);
      Expected(input) == Overflow(st.sum, BufferValue(st.seen, st.cal))
  {
    var st := Run(input, i);
    RunScanned(input, i);
    ScannedEnd(input[..i], st.sum, st.seen, st.cal);
    CountedPrefix(input, i);
    OverflowPersists(CountedLines(input), |Lines(input[..i])|);
  }

  /** `RunEof` for the intended reading, where a NUL is an ordinary byte. */
  lemma RunEofAll(input: seq<byte>, n: nat)
    requires n == |input| && Run(input, n).sum <= INT_MAX
    ensures var st := Run(input, n);
      var v := BufferValue(st.seen, st.cal);
      Intended(input) == if v > INT_MAX - st.sum then Overflow(st.sum, v) else Ok(st.sum + v)
  {
    var st := Run(input, n);
    RunScanned(input, n);
    assert input[..n] == input;
    ScannedEnd(input, st.sum, st.seen, st.cal);
  }

  /** `RunNewlineOverflow` for the intended reading, where every line counts. */
  lemma RunNewlineOverflowAll(input: seq<byte>, i: nat)
    requires i < |input| && input[i] == NL
    requires var st := Run(input, i);
      st.sum <= INT_MAX && BufferValue(st.seen, st.cal) > INT_MAX - st.sum
    ensures var st := Run(input, i);
      Intended(input) == Overflow(st.sum, BufferValue(st.seen, st.cal))
  {
    var st := Run(input, i);
    RunScanned(input, i);
    ScannedEnd(input[..i], st.sum, st.seen, st.cal);
    IntendedPrefix(input, i);
    OverflowPersists(Lines(input), |Lines(input[..i])|);
  }

  // ---------------------------------------------------------------------
  // The scanning loop

  /** The end-of-line block of the loop: a lone digit is copied into the
      second slot, and with any digit seen `atoi` reads the buffer and the
      guard compares it with the room left below INT_MAX. */
  method EndLine(calibration: array<byte>, digitsSeen: Seen, sum: int) returns (overflow: bool, tmp: int)
    requires calibration.Length == 3
    modifies calibration
    ensures calibration[..] ==
      if digitsSeen == SeenOne then old(calibration[..])[1 := old(calibration[0])] else old(calibration[..])
    ensures tmp == BufferValue(digitsSeen, old(calibration[..]))
    ensures overflow <==> digitsSeen != SeenZero && tmp > INT_MAX - sum
  {
    overflow, tmp := false, 0;
    var seen := digitsSeen;
    if seen == SeenOne {
      calibration[1] := calibration[0];
      seen := SeenTwo;
      assert calibration[..] == old(calibration[..])[1 := old(calibration[0])];
    }
    if seen == SeenTwo {
      tmp := Atoi(calibration[..]);
      overflow := tmp > INT_MAX - sum;
    }
  }

  /** A digit `c` on the current line: the first goes to `calibration[0]`
      and moves to `SeenOne`; any later one overwrites `calibration[1]` and
      moves to `SeenTwo`. */
  method RecordDigit(calibration: array<byte>, digitsSeen: Seen, c: byte) returns (seen: Seen)
    requires calibration.Length == 3
    modifies calibration
    ensures if digitsSeen == SeenZero then seen == SeenOne && calibration[..] == old(calibration[..])[0 := c]
            else seen == SeenTwo && calibration[..] == old(calibration[..])[1 := c]
  {
    if digitsSeen == SeenZero {
      seen := SeenOne;
      calibration[0] := c;
    } else {
      seen := SeenTwo;
      calibration[1] := c;
    }
  }

  /** The loop of `main` as written: `while ((c = fgetc(f)))` also stops at a
      NUL byte, without adding the line that byte interrupts. */
  method Scan(input: seq<byte>) returns (r: Outcome)
    ensures r == Expected(input)
  {
    var calibration := new byte[3](_ => NUL);
    var digitsSeen := SeenZero;
    var sum := 0;
    var i := 0;
    while true
      invariant i <= |input| && i <= NulIndex(input)
      invariant 0 <= sum <= INT_MAX
      invariant Run(input, i) == State(sum, digitsSeen, calibration[..])
      decreases |input| - i
    {
      var c := Fgetc(input, i);
      if c == NUL as int {
        RunNul(input, i);
        break;
      }
      if c == NL as int || c == EOF {
        var overflow, tmp := EndLine(calibration, digitsSeen, sum);
        if overflow {
          if c == EOF {
            RunEof(input, i);
          } else {
            RunNewlineOverflow(input, i);
          }
          return Overflow(sum, tmp);
        }
        sum := sum + tmp;
        digitsSeen := SeenZero;
        if c == EOF {
          RunEof(input, i);
          break;
        }
      }
      assert i < |input| && c == input[i] as int;
      assert i + 1 <= NulIndex(input);
      i := i + 1;
      if !IsDigit(c) {
        continue;
      }
      digitsSeen := RecordDigit(calibration, digitsSeen, c as byte);
    }
    r := Ok(sum);
  }

  /** The loop as evidently intended: the only exit is EOF, and a NUL byte is
      one more non-digit character. */
  method ScanAll(input: seq<byte>) returns (r: Outcome)
    ensures r == Intended(input)
  {
    var calibration := new byte[3](_ => NUL);
    var digitsSeen := SeenZero;
    var sum := 0;
    var i := 0;
    while true
      invariant i <= |input|
      invariant 0 <= sum <= INT_MAX
      invariant Run(input, i) == State(sum, digitsSeen, calibration[..])
      decreases |input| - i
    {
      var c := Fgetc(input, i);
      if c == NL as int || c == EOF {
        var overflow, tmp := EndLine(calibration, digitsSeen, sum);
        if overflow {
          if c == EOF {
            RunEofAll(input, i);
          } else {
            RunNewlineOverflowAll(input, i);
          }
          return Overflow(sum, tmp);
        }
        sum := sum + tmp;
        digitsSeen := SeenZero;
        if c == EOF {
          RunEofAll(input, i);
          break;
        }
      }
      assert i < |input| && c == input[i] as int;
      i := i + 1;
      if !IsDigit(c) {
        continue;
      }
      digitsSeen := RecordDigit(calibration, digitsSeen, c as byte);
    }
    r := Ok(sum);
  }
}
