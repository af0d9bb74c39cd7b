/** Utilities/src/main/java/phd/research/ProgressBar.java: the text `printProgress` writes
    to standard output. The method builds it step by step as the source does; the
    function `ProgressLine` says what it is. A thrown exception (nothing is printed)
    is an `Err`. */
module ProgressBars {
  import opened Wrappers
  import opened JavaInt
  import opened JStrings

  const BAR_SIZE: int := 50
  const DONE: char := '#'
  const TODO: char := '-'
  const DONE_MESSAGE: string := " DONE "
  const PREFIX: string := "Progress : ["

  function Repeat(c: char, n: nat): (r: string)
    ensures |r| == n && forall i | 0 <= i < n :: r[i] == c
  {
    if n == 0 then [] else Repeat(c, n - 1) + [c]
  }

  /** The number of '#' in an unfinished bar. The source computes it in float as
      `(int) ((float) current / total * 100 * BAR_SIZE) / 100`; with exact arithmetic
      that is the truncated quotient below. */
  function DoneLength(current: int, total: int): int
    requires total != 0
  {
    JavaDiv(current * BAR_SIZE, total)
  }

  /** The bar between the brackets, or the exception `Stream.limit` throws for a negative size. */
  function Bar(current: int, total: int): Result<string> {
    if current == total then
      var half := (BAR_SIZE - |DONE_MESSAGE|) / 2;
      Ok(Repeat(DONE, half) + DONE_MESSAGE + Repeat(DONE, half))
    else if total == 0 then
      // float division by zero gives an infinity, which the int cast turns into
      // Integer.MAX_VALUE or MIN_VALUE: one of the two limits is then negative
      Err(IllegalArgument)
    else
      var done := DoneLength(current, total);
      if 0 <= done <= BAR_SIZE then Ok(Repeat(DONE, done) + Repeat(TODO, BAR_SIZE - done))
      else Err(IllegalArgument)
  }

  /** The whole text printed, including the trailing carriage return. */
  function ProgressLine(current: int, total: int): Result<string> {
    match Bar(current, total)
    case Err(e) => Err(e)
    case Ok(bar) => Ok(PREFIX + bar + Counts(current, total))
  }

  /** What follows the bar: the closing bracket, both counts and the carriage return. */
  function Counts(current: int, total: int): string {
    Numbers(current, total) + "\r"
  }

  /** `.append("] ").append(current).append(" / ").append(total)`. */
  function Numbers(current: int, total: int): string {
    "] " + IntToString(current) + " / " + IntToString(total)
  }

  /** No line feed and no carriage return. */
  predicate NoBreak(s: string) {
    forall i | 0 <= i < |s| :: s[i] != '\n' && s[i] != '\r'
  }

  lemma NoBreakJoin(a: string, b: string)
    requires NoBreak(a) && NoBreak(b)
    ensures NoBreak(a + b)
  {
    assert forall i | |a| <= i < |a + b| :: (a + b)[i] == b[i - |a|];
  }

  lemma NumberNoBreak(n: int)
    ensures NoBreak(IntToString(n))
  {
  }

  /** The counts end in their only carriage return. */
  lemma CountsShape(current: int, total: int)
    ensures var t := Counts(current, total);
      |t| > 0 && t[|t| - 1] == '\r' && NoBreak(t[..|t| - 1])
  {
    var c, d := IntToString(current), IntToString(total);
    NumberNoBreak(current);
    NumberNoBreak(total);
    NoBreakJoin("] ", c);
    NoBreakJoin("] " + c, " / ");
    NoBreakJoin("] " + c + " / ", d);
    var t := Counts(current, total);
    assert t[..|t| - 1] == Numbers(current, total);
  }

  lemma ProgressLineOk(current: int, total: int)
    requires Bar(current, total).Ok?
    ensures ProgressLine(current, total) == Ok(PREFIX + Bar(current, total).value + Counts(current, total))
  {
  }

  /** `Stream.generate(() -> c).limit(n).forEach(builder::append)`. */
  method AppendRepeated(builder: string, c: char, n: int) returns (r: Result<string>)
    ensures n < 0 ==> r == Err(IllegalArgument)
    ensures n >= 0 ==> r == Ok(builder + Repeat(c, n))
  {
    if n < 0 {
      return Err(IllegalArgument);
    }
    var b := builder;
    var i := 0;
    while i < n
      invariant 0 <= i <= n
      invariant b == builder + Repeat(c, i)
    {
      b := b + [c];
      i := i + 1;
    }
    return Ok(b);
  }

  /** The part of `printProgress` that appends the bar to the builder. */
  method AppendBar(builder: string, current: int, total: int) returns (r: Result<string>)
    ensures Bar(current, total).Err? ==> r == Bar(current, total)
    ensures Bar(current, total).Ok? ==> r == Ok(builder + Bar(current, total).value)
  {
    if current == total {
      var doneLength := (BAR_SIZE - |DONE_MESSAGE|) / 2;
      var step := AppendRepeated(builder, DONE, doneLength);
      var b := step.value + DONE_MESSAGE;
      step := AppendRepeated(b, DONE, doneLength);
      assert step.value == builder + Bar(current, total).value;
      return step;
    }
    if total == 0 {
      return Err(IllegalArgument);
    }
    var doneLength := DoneLength(current, total);
    var step := AppendRepeated(builder, DONE, doneLength);
    if step.Err? {
      return step;
    }
    step := AppendRepeated(step.value, TODO, BAR_SIZE - doneLength);
    if step.Err? {
      return step;
    }
    assert step.value == builder + Bar(current, total).value;
    return step;
  }

  /** `printProgress(current, total)`: the text printed, or the exception thrown. */
  method PrintProgress(current: int, total: int) returns (r: Result<string>)
    ensures r == ProgressLine(current, total)
  {
    var step := AppendBar(PREFIX, current, total);
    if step.Err? {
      return step;
    }
    var builder := step.value + Numbers(current, total);
    assert builder + "\r" == step.value + Counts(current, total);
    ProgressLineOk(current, total);
    return Ok(builder + "\r");
  }

  /** A completed run prints 22 '#', " DONE ", 22 '#'. */
  lemma CompletedBar(n: int)
    ensures Bar(n, n) == Ok(Repeat('#', 22) + " DONE " + Repeat('#', 22))
  {
  }

  /** Every bar is 50 characters of '#', '-' and the DONE message. */
  lemma {:induction false} BarShape(current: int, total: int)
    requires Bar(current, total).Ok?
    ensures var bar := Bar(current, total).value;
      |bar| == BAR_SIZE && forall i | 0 <= i < |bar| :: bar[i] == DONE || bar[i] == TODO || bar[i] in DONE_MESSAGE
  {
    if current == total {
      var h := Repeat(DONE, 22);
      assert Bar(current, total).value == h + DONE_MESSAGE + h;
    }
  }

  /** Whenever a line is printed, exactly 50 bar characters stand between its brackets. */
  lemma {:induction false} BarIsFiftyWide(current: int, total: int)
    requires ProgressLine(current, total).Ok?
    ensures var line := ProgressLine(current, total).value;
      |line| > 63 && line[..12] == PREFIX && line[11] == '[' && line[62] == ']'
      && line[12..62] == Bar(current, total).value
  {
    BarShape(current, total);
    var bar := Bar(current, total).value;
    var line := ProgressLine(current, total).value;
    var rest := Counts(current, total);
    assert line == PREFIX + bar + rest;
    assert (PREFIX + bar + rest)[12..62] == bar;
  }

  /** A current value between 0 and a positive total always draws a bar. */
  lemma {:induction false} InRangeAlwaysPrints(current: int, total: int)
    requires 0 <= current <= total && total > 0
    ensures ProgressLine(current, total).Ok?
  {
    if current != total {
      assert current * BAR_SIZE <= total * BAR_SIZE;
      assert DoneLength(current, total) == current * BAR_SIZE / total;
      DivBelow(current * BAR_SIZE, total, BAR_SIZE);
    }
  }

  lemma DivBelow(a: nat, b: nat, c: nat)
    requires b > 0 && a <= b * c
    ensures a / b <= c
  {
  }

  /** The printed text holds no line feed and ends in its only carriage return, so a
      line reader sees exactly one line. */
  lemma {:induction false} ProgressIsOneLine(current: int, total: int)
    requires ProgressLine(current, total).Ok?
    ensures var line := ProgressLine(current, total).value;
      line[|line| - 1] == '\r'
      && forall i | 0 <= i < |line| - 1 :: line[i] != '\n' && line[i] != '\r'
  {
    var bar := Bar(current, total).value;
    var tail := Counts(current, total);
    var line := ProgressLine(current, total).value;
    BarShape(current, total);
    assert NoBreak(bar);
    assert NoBreak(PREFIX);
    CountsShape(current, total);
    var front := PREFIX + bar + tail[..|tail| - 1];
    NoBreakJoin(PREFIX, bar);
    NoBreakJoin(PREFIX + bar, tail[..|tail| - 1]);
    assert line == front + [tail[|tail| - 1]];
    assert line[..|line| - 1] == front;
  }

  /** The test case 54 / 69: 39 '#' and 11 '-'. */
  lemma FiftyFourOfSixtyNine()
    ensures DoneLength(54, 69) == 39
    ensures Bar(54, 69) == Ok(Repeat('#', 39) + Repeat('-', 11))
  {
  }
}
