/** What the day-1 "trebuchet" summer computes, stated on whole values:
    the input is split into lines at '\n', each line's calibration value is
    built from its first and last digit characters, and the values are added
    in order into a 32-bit signed sum that may not go past INT_MAX. */
module Calibration {

  /** A character as `fgetc` returns it: an unsigned byte (EOF is not a byte). */
  newtype byte = x: int | 0 <= x < 256

  /** `INT_MAX` of the 32-bit `int` that holds the running sum. */
  const INT_MAX: int := 2147483647

  /** The line terminator '\n'. */
  const NL: byte := 10

  /** The NUL byte, which ends the scanning loop early. */
  const NUL: byte := 0

  /** Result of a scan: the final sum, or the running sum and the value whose
      addition would have overflowed it. */
  datatype Outcome = Ok(sum: int) | Overflow(sum: int, value: int)

  /** A decimal digit character, '0' to '9' and nothing else. */
  predicate IsDigit(c: int) {
    '0' as int <= c <= '9' as int
  }

  function DigitValue(c: int): (v: int)
    requires IsDigit(c)
    ensures 0 <= v <= 9
  {
    c - '0' as int
  }

  // ---------------------------------------------------------------------
  // Digits of a line

  /** The digit characters of `s`, in the order they occur. */
  function Digits(s: seq<byte>): (d: seq<byte>)
    ensures |d| <= |s|
    ensures forall k :: 0 <= k < |d| ==> IsDigit(d[k] as int)
  {
    if s == [] then []
    else (if IsDigit(s[0] as int) then [s[0]] else []) + Digits(s[1..])
  }

  lemma {:induction false} DigitsAppend(a: seq<byte>, b: seq<byte>)
    ensures Digits(a + b) == Digits(a) + Digits(b)
  {
    if a == [] {
      assert a + b == b;
    } else {
      assert (a + b)[1..] == a[1..] + b;
      DigitsAppend(a[1..], b);
    }
  }

  /** Appending one character adds it to the digits exactly when it is a digit:
      a non-digit leaves them unchanged. */
  lemma DigitsSnoc(s: seq<byte>, c: byte)
    ensures Digits(s + [c]) == Digits(s) + (if IsDigit(c as int) then [c] else [])
  {
    DigitsAppend(s, [c]);
    assert Digits([c]) == (if IsDigit(c as int) then [c] else []) + Digits([]);
  }

  lemma {:induction false} NoDigits(s: seq<byte>)
    ensures Digits(s) == [] <==> forall k :: 0 <= k < |s| ==> !IsDigit(s[k] as int)
  {
    if s != [] {
      NoDigits(s[1..]);
      assert forall k :: 1 <= k < |s| ==> s[k] == s[1..][k - 1];
    }
  }

  // ---------------------------------------------------------------------
  // Calibration value of one line

  /** `10 * first + last` over the line's first and last digit, 0 without digits. */
  function CalValue(line: seq<byte>): (v: int)
    ensures 0 <= v <= 99
  {
    var d := Digits(line);
    if |d| == 0 then 0 else 10 * DigitValue(d[0] as int) + DigitValue(d[|d| - 1] as int)
  }

  /** The value is made of the first digit met scanning left to right and the
      last one: given the positions `i` and `j` of those two characters. */
  lemma CalValueFirstLast(line: seq<byte>, i: nat, j: nat)
    requires i <= j < |line|
    requires IsDigit(line[i] as int) && IsDigit(line[j] as int)
    requires forall k :: 0 <= k < i ==> !IsDigit(line[k] as int)
    requires forall k :: j < k < |line| ==> !IsDigit(line[k] as int)
    ensures CalValue(line) == 10 * DigitValue(line[i] as int) + DigitValue(line[j] as int)
  {
    var before, mid, after := line[..i], line[i..j + 1], line[j + 1..];
    assert line == before + mid + after;
    NoDigits(before);
    NoDigits(after);
    DigitsAppend(before + mid, after);
    DigitsAppend(before, mid);
    assert Digits(line) == Digits(mid);
    assert Digits(mid) == [line[i]] + Digits(mid[1..]);
    if i < j {
      var inner := mid[1..];
      assert inner == inner[..|inner| - 1] + [line[j]];
      DigitsSnoc(inner[..|inner| - 1], line[j]);
    } else {
      assert mid[1..] == [];
    }
  }

  /** A line whose only digit is at `i` has value `11 * digit`. */
  lemma CalValueOneDigit(line: seq<byte>, i: nat)
    requires i < |line| && IsDigit(line[i] as int)
    requires forall k :: 0 <= k < |line| && k != i ==> !IsDigit(line[k] as int)
    ensures CalValue(line) == 11 * DigitValue(line[i] as int)
  {
    CalValueFirstLast(line, i, i);
  }

  /** A line without digit characters (the empty line included) is worth 0. */
  lemma CalValueNoDigit(line: seq<byte>)
    requires forall k :: 0 <= k < |line| ==> !IsDigit(line[k] as int)
    ensures CalValue(line) == 0
  {
    NoDigits(line);
  }

  // ---------------------------------------------------------------------
  // Lines of the input

  /** The input split at every '\n': always at least one line (possibly empty),
      and a trailing '\n' leaves an empty last line. */
  function Lines(s: seq<byte>): (ls: seq<seq<byte>>)
    ensures |ls| >= 1
  {
    if s == [] then [[]]
    else
      var prev := Lines(s[..|s| - 1]);
      if s[|s| - 1] == NL then prev + [[]]
      else prev[..|prev| - 1] + [prev[|prev| - 1] + [s[|s| - 1]]]
  }

  /** No line holds a '\n'. */
  lemma {:induction false} LinesHaveNoNewline(s: seq<byte>)
    ensures forall k :: 0 <= k < |Lines(s)| ==> NL !in Lines(s)[k]
  {
    if s != [] {
      LinesHaveNoNewline(s[..|s| - 1]);
    }
  }

  /** The lines glued back together with '\n' between them. */
  function Join(ls: seq<seq<byte>>): (s: seq<byte>)
    requires |ls| >= 1
    decreases |ls|
  {
    if |ls| == 1 then ls[0] else Join(ls[..|ls| - 1]) + [NL] + ls[|ls| - 1]
  }

  /** Joining after an empty last line is joining the rest and adding '\n'. */
  lemma JoinBreak(ls: seq<seq<byte>>)
    requires |ls| >= 1
    ensures Join(ls + [[]]) == Join(ls) + [NL]
  {
    assert (ls + [[]])[..|ls|] == ls;
  }

  /** A byte added to the last line is added at the end of the join. */
  lemma JoinSnoc(init: seq<seq<byte>>, line: seq<byte>, x: byte)
    ensures Join(init + [line + [x]]) == Join(init + [line]) + [x]
  {
    var a, b := init + [line], init + [line + [x]];
    if init == [] {
      assert a == [line] && b == [line + [x]];
    } else {
      assert a[..|a| - 1] == init && b[..|b| - 1] == init;
    }
  }

  /** Splitting loses nothing: joining the lines gives the input back. */
  lemma {:induction false} JoinLines(s: seq<byte>)
    ensures Join(Lines(s)) == s
  {
    if s != [] {
      var t, x := s[..|s| - 1], s[|s| - 1];
      var prev := Lines(t);
      JoinLines(t);
      assert s == t + [x];
      if x == NL {
        assert Lines(s) == prev + [[]];
        JoinBreak(prev);
      } else {
        var init, line := prev[..|prev| - 1], prev[|prev| - 1];
        assert prev == init + [line];
        assert Lines(s) == init + [line + [x]];
        JoinSnoc(init, line, x);
      }
    }
  }

  /** Splitting text that ends in '\n' adds an empty line to its lines. */
  lemma LinesJoinBreak(init: seq<seq<byte>>)
    requires |init| >= 1 && Lines(Join(init)) == init
    ensures Lines(Join(init + [[]])) == init + [[]]
  {
    var ls := init + [[]];
    assert ls[..|ls| - 1] == init;
    var s := Join(ls);
    assert s == Join(init) + [NL];
    assert s[..|s| - 1] == Join(init);
  }

  /** A byte other than '\n' at the end goes to the last line. */
  lemma LinesJoinByte(init: seq<seq<byte>>, line: seq<byte>, x: byte)
    requires x != NL && Lines(Join(init + [line])) == init + [line]
    ensures Lines(Join(init + [line + [x]])) == init + [line + [x]]
  {
    var ls, ls' := init + [line], init + [line + [x]];
    assert ls[..|ls| - 1] == init && ls'[..|ls'| - 1] == init;
    if init == [] {
      assert Join(ls') == Join(ls) + [x];
    } else {
      assert Join(ls') == Join(ls) + [x];
    }
    var s := Join(ls');
    assert s[..|s| - 1] == Join(ls);
  }

  /** Joining newline-free lines and splitting again gives the same lines. */
  lemma {:induction false} LinesJoin(ls: seq<seq<byte>>)
    requires |ls| >= 1
    requires forall k :: 0 <= k < |ls| ==> NL !in ls[k]
    ensures Lines(Join(ls)) == ls
    decreases |ls|, |ls[|ls| - 1]|, 1
  {
    if ls[|ls| - 1] == [] {
      if |ls| > 1 {
        LinesJoinEmptyLast(ls);
      }
    } else {
      LinesJoinLongerLast(ls);
    }
  }

  lemma {:induction false} LinesJoinEmptyLast(ls: seq<seq<byte>>)
    requires |ls| > 1 && ls[|ls| - 1] == []
    requires forall k :: 0 <= k < |ls| ==> NL !in ls[k]
    ensures Lines(Join(ls)) == ls
    decreases |ls|, |ls[|ls| - 1]|, 0
  {
    var init := ls[..|ls| - 1];
    LinesJoin(init);
    LinesJoinBreak(init);
    assert init + [[]] == ls;
  }

  lemma {:induction false} LinesJoinLongerLast(ls: seq<seq<byte>>)
    requires |ls| >= 1 && ls[|ls| - 1] != []
    requires forall k :: 0 <= k < |ls| ==> NL !in ls[k]
    ensures Lines(Join(ls)) == ls
    decreases |ls|, |ls[|ls| - 1]|, 0
  {
    var init, last := ls[..|ls| - 1], ls[|ls| - 1];
    var line, x := last[..|last| - 1], last[|last| - 1];
    assert last == line + [x];
    assert ls == init + [last];
    assert x in last;
    NoNewlineShorter(ls, line, init + [line]);
    LinesJoin(init + [line]);
    LinesJoinByte(init, line, x);
  }

  /** Dropping the final byte keeps the lines free of '\n'. */
  lemma NoNewlineShorter(ls: seq<seq<byte>>, line: seq<byte>, shorter: seq<seq<byte>>)
    requires |ls| >= 1 && ls[|ls| - 1] != [] && line == ls[|ls| - 1][..|ls[|ls| - 1]| - 1]
    requires shorter == ls[..|ls| - 1] + [line]
    requires forall k :: 0 <= k < |ls| ==> NL !in ls[k]
    ensures forall k :: 0 <= k < |shorter| ==> NL !in shorter[k]
  {
    var last := ls[|ls| - 1];
    assert forall k :: 0 <= k < |last| - 1 ==> line[k] == last[k];
  }

  /** Reading more input only extends the current line or opens new ones: the
      lines already ended by a '\n' stay as they are. */
  lemma {:induction false} LinesPrefix(s: seq<byte>, t: seq<byte>)
    ensures |Lines(s + t)| >= |Lines(s)|
    ensures Lines(s + t)[..|Lines(s)| - 1] == Lines(s)[..|Lines(s)| - 1]
    decreases |t|
  {
    if t != [] {
      var t' := t[..|t| - 1];
      LinesPrefix(s, t');
      assert (s + t)[..|s + t| - 1] == s + t';
    } else {
      assert s + t == s;
    }
  }

  // ---------------------------------------------------------------------
  // Summing with the overflow guard

  /** The calibration value of every line, in order. */
  function CalValues(ls: seq<seq<byte>>): (vs: seq<int>)
  {
    if ls == [] then [] else [CalValue(ls[0])] + CalValues(ls[1..])
  }

  lemma {:induction false} CalValuesAt(ls: seq<seq<byte>>)
    ensures |CalValues(ls)| == |ls|
    ensures forall k :: 0 <= k < |ls| ==> CalValues(ls)[k] == CalValue(ls[k])
  {
    if ls != [] {
      CalValuesAt(ls[1..]);
      assert forall k :: 1 <= k < |ls| ==> ls[1..][k - 1] == ls[k];
    }
  }

  lemma {:induction false} CalValuesAppend(a: seq<seq<byte>>, b: seq<seq<byte>>)
    ensures CalValues(a + b) == CalValues(a) + CalValues(b)
  {
    if a == [] {
      assert a + b == b;
    } else {
      assert (a + b)[1..] == a[1..] + b;
      CalValuesAppend(a[1..], b);
    }
  }

  function Sum(vs: seq<int>): int {
    if vs == [] then 0 else vs[0] + Sum(vs[1..])
  }

  /** Adds `vs` to `sum` one by one, first checking `v > INT_MAX - sum`;
      the first value that fails the check stops the addition. */
  function Accumulate(vs: seq<int>, sum: int): (r: Outcome)
  {
    if vs == [] then Ok(sum)
    else if vs[0] > INT_MAX - sum then Overflow(sum, vs[0])
    else Accumulate(vs[1..], sum + vs[0])
  }

  /** An overflow is reported only for a value that fails the guard, and a
      sum that starts within range stays within range. */
  lemma {:induction false} AccumulateBounds(vs: seq<int>, sum: int)
    ensures var r := Accumulate(vs, sum);
      (r.Overflow? ==> r.value > INT_MAX - r.sum) &&
      (r.Ok? && sum <= INT_MAX ==> r.sum <= INT_MAX)
  {
    if vs != [] && vs[0] <= INT_MAX - sum {
      AccumulateBounds(vs[1..], sum + vs[0]);
    }
  }

  lemma {:induction false} AccumulateAppend(a: seq<int>, b: seq<int>, sum: int)
    ensures Accumulate(a + b, sum) ==
      if Accumulate(a, sum).Ok? then Accumulate(b, Accumulate(a, sum).sum) else Accumulate(a, sum)
  {
    if a == [] {
      assert a + b == b;
    } else {
      assert (a + b)[1..] == a[1..] + b;
      if a[0] <= INT_MAX - sum {
        AccumulateAppend(a[1..], b, sum + a[0]);
      }
    }
  }

  /** Reference reading of the guard: the addition succeeds exactly when no
      running total goes above INT_MAX, and then it yields the plain sum. */
  lemma {:induction false} AccumulateOk(vs: seq<int>, sum: int)
    ensures Accumulate(vs, sum).Ok? <==>
      forall k :: 0 < k <= |vs| ==> sum + Sum(vs[..k]) <= INT_MAX
    ensures Accumulate(vs, sum).Ok? ==> Accumulate(vs, sum).sum == sum + Sum(vs)
  {
    if vs != [] {
      var rest := vs[1..];
      AccumulateOk(rest, sum + vs[0]);
      forall k | 0 < k <= |vs|
        ensures Sum(vs[..k]) == vs[0] + Sum(rest[..k - 1])
      {
        assert vs[..k][1..] == rest[..k - 1];
      }
      assert vs[..1][1..] == [];
      if Accumulate(vs, sum).Ok? {
        forall k | 0 < k <= |vs| ensures sum + Sum(vs[..k]) <= INT_MAX {
          if k > 1 {
            assert 0 < k - 1 <= |rest|;
          }
        }
      } else if forall k :: 0 < k <= |vs| ==> sum + Sum(vs[..k]) <= INT_MAX {
        assert sum + Sum(vs[..1]) <= INT_MAX;
        forall k | 0 < k <= |rest| ensures sum + vs[0] + Sum(rest[..k]) <= INT_MAX {
          assert sum + Sum(vs[..k + 1]) <= INT_MAX;
        }
      }
    }
  }

  /** Reference reading of the failure: when `vs[k]` is the first value that
      would carry the running total past INT_MAX, the overflow is reported
      there, with the running total before it. */
  lemma {:induction false} AccumulateOverflow(vs: seq<int>, sum: int, k: nat)
    requires k < |vs|
    requires forall j :: 0 < j <= k ==> sum + Sum(vs[..j]) <= INT_MAX
    requires sum + Sum(vs[..k + 1]) > INT_MAX
    ensures Accumulate(vs, sum) == Overflow(sum + Sum(vs[..k]), vs[k])
  {
    var rest := vs[1..];
    assert vs[..1][1..] == [] && vs[..0] == [];
    if k > 0 {
      forall j | 0 < j <= k + 1 ensures Sum(vs[..j]) == vs[0] + Sum(rest[..j - 1]) {
        assert vs[..j][1..] == rest[..j - 1];
      }
      assert sum + Sum(vs[..1]) <= INT_MAX;
      forall j | 0 < j <= k - 1 ensures sum + vs[0] + Sum(rest[..j]) <= INT_MAX {
        assert sum + Sum(vs[..j + 1]) <= INT_MAX;
      }
      AccumulateOverflow(rest, sum + vs[0], k - 1);
    }
  }

  lemma {:induction false} SumBound(vs: seq<int>, bound: int)
    requires forall k :: 0 <= k < |vs| ==> 0 <= vs[k] <= bound
    ensures 0 <= Sum(vs) <= bound * |vs|
  {
    if vs != [] {
      SumBound(vs[1..], bound);
    }
  }

  /** Adding one more line to lines summed without overflow: the guard either
      lets its value through or reports it with the running sum. */
  lemma AddLine(ls: seq<seq<byte>>, line: seq<byte>, sum: int)
    requires Accumulate(CalValues(ls), 0) == Ok(sum)
    ensures Accumulate(CalValues(ls + [line]), 0) ==
      if CalValue(line) > INT_MAX - sum then Overflow(sum, CalValue(line)) else Ok(sum + CalValue(line))
  {
    CalValuesAppend(ls, [line]);
    assert CalValues([line]) == [CalValue(line)];
    AccumulateAppend(CalValues(ls), [CalValue(line)], 0);
  }

  /** An overflow among the first `m` lines is the overflow of all of them. */
  lemma OverflowPersists(ls: seq<seq<byte>>, m: nat)
    requires m <= |ls|
    requires Accumulate(CalValues(ls[..m]), 0).Overflow?
    ensures Accumulate(CalValues(ls), 0) == Accumulate(CalValues(ls[..m]), 0)
  {
    assert ls == ls[..m] + ls[m..];
    CalValuesAppend(ls[..m], ls[m..]);
    AccumulateAppend(CalValues(ls[..m]), CalValues(ls[m..]), 0);
  }

  // ---------------------------------------------------------------------
  // The whole input

  /** Position of the first NUL byte, or `|s|` when there is none. */
  function NulIndex(s: seq<byte>): (n: nat)
    ensures n <= |s|
    ensures n < |s| ==> s[n] == NUL
  {
    if s == [] || s[0] == NUL then 0 else 1 + NulIndex(s[1..])
  }

  /** `NulIndex(s)` is the first NUL: no NUL byte at `k` comes before it. */
  lemma {:induction false} NulFirst(s: seq<byte>, k: nat)
    requires k < |s| && s[k] == NUL
    ensures NulIndex(s) <= k
  {
    if s[0] != NUL {
      NulFirst(s[1..], k - 1);
    }
  }

  /** The lines whose value the program adds: those of the input before the
      first NUL, without the line the NUL interrupts. */
  function CountedLines(input: seq<byte>): seq<seq<byte>> {
    var n := NulIndex(input);
    var ls := Lines(input[..n]);
    if n < |input| then ls[..|ls| - 1] else ls
  }

  /** What the program computes, NUL stop included. */
  function Expected(input: seq<byte>): Outcome {
    Accumulate(CalValues(CountedLines(input)), 0)
  }

  /** What the program is evidently meant to compute: every line of the whole
      input, a NUL byte being one more non-digit character. */
  function Intended(input: seq<byte>): Outcome {
    Accumulate(CalValues(Lines(input)), 0)
  }

  /** On input without NUL bytes the program computes what it is meant to. */
  lemma ExpectedWithoutNul(input: seq<byte>)
    requires forall k :: 0 <= k < |input| ==> input[k] != NUL
    ensures Expected(input) == Intended(input)
  {
    assert input[..NulIndex(input)] == input;
  }

  /** A NUL byte ends the scan: the line it interrupts is not added and
      nothing after it is read. */
  lemma ExpectedAtNul(a: seq<byte>, b: seq<byte>)
    requires forall k :: 0 <= k < |a| ==> a[k] != NUL
    ensures Expected(a + [NUL] + b) == Accumulate(CalValues(Lines(a)[..|Lines(a)| - 1]), 0)
  {
    var s := a + [NUL] + b;
    assert s[|a|] == NUL;
    NulFirst(s, |a|);
    assert NulIndex(s) == |a|;
    assert s[..|a|] == a;
  }

  /** Empty input is one empty line: the sum is 0. */
  lemma EmptyInput()
    ensures Expected([]) == Ok(0) && Intended([]) == Ok(0)
  {
    assert CalValues([[]]) == [0];
  }

  /** A trailing '\n' opens an empty last line, which adds nothing. */
  lemma TrailingNewline(s: seq<byte>)
    ensures Intended(s + [NL]) == Intended(s)
  {
    assert (s + [NL])[..|s|] == s;
    var ls := Lines(s);
    assert Lines(s + [NL]) == ls + [[]];
    CalValuesAppend(ls, [[]]);
    assert CalValues([[]]) == [0];
    AccumulateBounds(CalValues(ls), 0);
    AccumulateAppend(CalValues(ls), [0], 0);
  }

  /** On success the result is the plain in-order sum of the line values,
      so it lies between 0 and `99` times the number of lines. */
  lemma IntendedSum(input: seq<byte>)
    requires Intended(input).Ok?
    ensures Intended(input).sum == Sum(CalValues(Lines(input)))
    ensures 0 <= Intended(input).sum <= 99 * |Lines(input)|
  {
    var vs := CalValues(Lines(input));
    CalValuesAt(Lines(input));
    AccumulateOk(vs, 0);
    SumBound(vs, 99);
  }

  /** The program fails exactly when some running total of the counted line
      values would exceed INT_MAX; otherwise it yields their sum. */
  lemma ExpectedOverflowIff(input: seq<byte>)
    ensures Expected(input).Overflow? <==>
      exists k :: 0 < k <= |CalValues(CountedLines(input))| &&
        Sum(CalValues(CountedLines(input))[..k]) > INT_MAX
    ensures Expected(input).Ok? ==> Expected(input).sum == Sum(CalValues(CountedLines(input)))
  {
    var vs := CalValues(CountedLines(input));
    AccumulateOk(vs, 0);
  }

  /** Once a '\n' at `i` has been read, the lines before it are among the
      lines of the whole input, in the same places. */
  lemma IntendedPrefix(input: seq<byte>, i: nat)
    requires i < |input| && input[i] == NL
    ensures var ls := Lines(input[..i]);
      |Lines(input)| > |ls| && Lines(input)[..|ls|] == ls
  {
    var s := input[..i + 1];
    assert s[..i] == input[..i];
    assert s + input[i + 1..] == input;
    LinesPrefix(s, input[i + 1..]);
  }

  /** The same for the lines the program counts, when no NUL came before. */
  lemma CountedPrefix(input: seq<byte>, i: nat)
    requires i < |input| && input[i] == NL
    requires i <= NulIndex(input)
    ensures var ls := Lines(input[..i]);
      |CountedLines(input)| >= |ls| && CountedLines(input)[..|ls|] == ls
  {
    var n := NulIndex(input);
    assert n > i by {
      assert input[i] != NUL;
    }
    var u := input[..n];
    assert u[..i] == input[..i];
    IntendedPrefix(u, i);
    var ls, all := Lines(input[..i]), Lines(u);
    if n < |input| {
      assert CountedLines(input) == all[..|all| - 1];
    } else {
      assert CountedLines(input) == all;
    }
  }

  /** A NUL byte between two digits, as the program reads it: the scan
      stops at the NUL, so the line "x\0y" is never added (for "1\02" the
      result is 0). */
  lemma NulCutsLine(x: byte, y: byte)
    requires IsDigit(x as int) && IsDigit(y as int)
    ensures Expected([x, NUL, y]) == Ok(0)
  {
    var s := [x, NUL, y];
    assert s == [x] + [NUL] + [y];
    ExpectedAtNul([x], [y]);
    LinesJoin([[x]]);
    assert Join([[x]]) == [x];
    assert Lines([x])[..0] == [];
  }

  /** The same line read as intended: the NUL is one more non-digit, and
      the line's value is built from both digits (for "1\02" it is 12). */
  lemma NulInLine(x: byte, y: byte)
    requires IsDigit(x as int) && IsDigit(y as int)
    ensures Intended([x, NUL, y]) == Ok(10 * DigitValue(x as int) + DigitValue(y as int))
  {
    var s := [x, NUL, y];
    LinesJoin([s]);
    assert Lines(s) == [s];
    CalValueFirstLast(s, 0, 2);
    var v := CalValue(s);
    assert CalValues([s]) == [v] + CalValues([]);
    assert [v][1..] == [];
    assert Accumulate([v], 0) == Accumulate([], v);
  }

  // ---------------------------------------------------------------------
  // Small inputs

  /** Text without digit characters splits into lines worth 0 each. */
  lemma {:induction false} LinesNoDigits(s: seq<byte>)
    requires forall k :: 0 <= k < |s| ==> !IsDigit(s[k] as int)
    ensures forall k :: 0 <= k < |Lines(s)| ==> Digits(Lines(s)[k]) == []
  {
    if s != [] {
      var t := s[..|s| - 1];
      LinesNoDigits(t);
      var prev := Lines(t);
      if s[|s| - 1] != NL {
        DigitsSnoc(prev[|prev| - 1], s[|s| - 1]);
      }
    }
  }

  /** Values that are all 0 add nothing and cannot overflow. */
  lemma {:induction false} AccumulateZeros(vs: seq<int>, sum: int)
    requires sum <= INT_MAX
    requires forall k :: 0 <= k < |vs| ==> vs[k] == 0
    ensures Accumulate(vs, sum) == Ok(sum)
  {
    if vs != [] {
      AccumulateZeros(vs[1..], sum);
    }
  }

  /** Input without any digit character (such as "abc") sums to 0. */
  lemma NoDigitInput(input: seq<byte>)
    requires forall k :: 0 <= k < |input| ==> !IsDigit(input[k] as int)
    ensures Expected(input) == Ok(0) && Intended(input) == Ok(0)
  {
    var n := NulIndex(input);
    var u := input[..n];
    assert forall k :: 0 <= k < |u| ==> u[k] == input[k];
    LinesNoDigits(input);
    LinesNoDigits(u);
    var counted := CountedLines(input);
    assert forall k :: 0 <= k < |counted| ==> counted[k] == Lines(u)[k];
    CalValuesAt(Lines(input));
    CalValuesAt(counted);
    AccumulateZeros(CalValues(Lines(input)), 0);
    AccumulateZeros(CalValues(counted), 0);
  }

  /** Input made of one digit `d` and nothing else (such as "5") yields `11 * d`. */
  lemma OneDigitInput(d: byte)
    requires IsDigit(d as int)
    ensures Intended([d]) == Ok(11 * DigitValue(d as int))
    ensures Expected([d]) == Intended([d])
  {
    var s := [d];
    LinesJoin([s]);
    assert Lines(s) == [s];
    CalValueOneDigit(s, 0);
    var v := CalValue(s);
    assert CalValues([s]) == [v] + CalValues([]);
    assert [v][1..] == [];
    assert Accumulate([v], 0) == Accumulate([], v);
    ExpectedWithoutNul(s);
  }
}
