/** The line executor of autoscript: what it runs, and the status it returns. */
module ScriptLines {
  import opened Text

  /** What run_command returns for the last of the commands that were run so far. */
  type Outcome = seq<string> -> int

  predicate Fails(outcome: Outcome, log: seq<string>) { outcome(log) < 0 }

  // ----- the lines of a text -----

  function LineLength(text: string): (n: nat)
    ensures n <= |text| && '\n' !in text[..n]
    ensures n < |text| ==> text[n] == '\n'
  {
    if text == "" || text[0] == '\n' then 0 else 1 + LineLength(text[1..])
  }

  /** The lines that a newline ends. */
  function Ended(text: string): seq<string>
    decreases |text|
  {
    var n := LineLength(text);
    if n == |text| then [] else [text[..n]] + Ended(text[n + 1..])
  }

  /** What stands behind the last newline. */
  function Remainder(text: string): (r: string)
    ensures '\n' !in r
    decreases |text|
  {
    var n := LineLength(text);
    if n == |text| then text else Remainder(text[n + 1..])
  }

  function Joined(lines: seq<string>): string {
    if lines == [] then "" else lines[0] + "\n" + Joined(lines[1..])
  }

  lemma FirstLine(text: string, n: nat)
    requires n < |text| && text[n] == '\n'
    ensures text == (text[..n] + "\n") + text[n + 1..]
  {
  }

  lemma JoinAssoc(a: string, b: string, c: string)
    ensures (a + b) + c == a + (b + c)
  {
  }

  /** The lines and the remainder make up the text. */
  lemma {:induction false} LinesJoin(text: string)
    ensures text == Joined(Ended(text)) + Remainder(text)
    decreases |text|
  {
    var n := LineLength(text);
    if n < |text| {
      var rest := text[n + 1..];
      LinesJoin(rest);
      FirstLine(text, n);
      JoinAssoc(text[..n] + "\n", Joined(Ended(rest)), Remainder(rest));
      assert Ended(text)[1..] == Ended(rest);
    }
  }

  lemma {:induction false} LinesHoldNoNewline(text: string)
    ensures forall i | 0 <= i < |Ended(text)| :: '\n' !in Ended(text)[i]
    decreases |text|
  {
    if LineLength(text) < |text| {
      LinesHoldNoNewline(text[LineLength(text) + 1..]);
    }
  }

  // ----- execution -----

  datatype Run = Run(log: seq<string>, failed: bool)

  /** Runs the lines that are not empty, up to the first that fails. */
  function RunLines(outcome: Outcome, lines: seq<string>, log: seq<string>): Run {
    if lines == [] then Run(log, false)
    else if lines[0] == "" then RunLines(outcome, lines[1..], log)
    else if Fails(outcome, log + [lines[0]]) then Run(log + [lines[0]], true)
    else RunLines(outcome, lines[1..], log + [lines[0]])
  }

  datatype Result = Result(log: seq<string>, rcode: nat)

  /** The executor; the status of an unterminated last line is inverted. */
  function Execute(outcome: Outcome, text: string, log: seq<string>): Result {
    var run := RunLines(outcome, Ended(text), log);
    var last := run.log + [Remainder(text)];
    if run.failed then Result(run.log, 1)
    else if Remainder(text) == "" then Result(run.log, 0)
    else Result(last, if Fails(outcome, last) then 0 else 1)
  }

  /** The commands of some lines. */
  function Commands(lines: seq<string>): seq<string> {
    if lines == [] then []
    else if lines[0] == "" then Commands(lines[1..])
    else [lines[0]] + Commands(lines[1..])
  }

  /** They are exactly the lines that are not empty, in their order. */
  lemma {:induction false} CommandsAre(a: seq<string>, line: string, b: seq<string>)
    ensures Commands(a + [line] + b) == Commands(a) + (if line == "" then [] else [line]) + Commands(b)
    ensures Commands([]) == []
    decreases |a|
  {
    var all := a + [line] + b;
    if a == [] {
      assert all[0] == line && all[1..] == b;
    } else {
      assert all[0] == a[0] && all[1..] == a[1..] + [line] + b;
      CommandsAre(a[1..], line, b);
    }
  }

  lemma {:induction false} OnlyCommandsCount(outcome: Outcome, lines: seq<string>, log: seq<string>)
    ensures RunLines(outcome, lines, log) == RunLines(outcome, Commands(lines), log)
    decreases |lines|
  {
    if lines != [] {
      var log1 := if lines[0] == "" then log else log + [lines[0]];
      OnlyCommandsCount(outcome, lines[1..], log1);
    }
  }

  /** `k` commands are run: the ones before the `k`th pass, and it is the first to fail or the last. */
  ghost predicate StopsAt(outcome: Outcome, commands: seq<string>, log: seq<string>, k: nat, failed: bool) {
    && k <= |commands|
    && (forall j | 0 < j < k :: outcome(log + commands[..j]) >= 0)
    && (if failed then k > 0 && outcome(log + commands[..k]) < 0
        else k == |commands| && (k > 0 ==> outcome(log + commands[..k]) >= 0))
  }

  /** What runs is a prefix of the commands, in order, up to the first that fails. */
  lemma {:induction false} RunsUpToFailure(outcome: Outcome, commands: seq<string>, log: seq<string>) returns (k: nat)
    requires forall i | 0 <= i < |commands| :: commands[i] != ""
    ensures
      var run := RunLines(outcome, commands, log);
      StopsAt(outcome, commands, log, k, run.failed) && run.log == log + commands[..k]
    decreases |commands|
  {
    k := 0;
    if commands == [] {
      assert log + commands[..0] == log;
    } else {
      var log1, rest := log + [commands[0]], commands[1..];
      assert log + commands[..1] == log1;
      if Fails(outcome, log1) {
        k := 1;
      } else {
        var i := RunsUpToFailure(outcome, rest, log1);
        k := i + 1;
        forall j | 0 <= j <= |rest| ensures log + commands[..j + 1] == log1 + rest[..j] {
        }
        forall j | 0 < j < k ensures outcome(log + commands[..j]) >= 0 {
          assert log + commands[..j] == log1 + rest[..j - 1];
        }
        assert log + commands[..k] == log1 + rest[..i];
      }
    }
  }

  lemma {:induction false} CommandsAreNotEmpty(lines: seq<string>)
    ensures forall i | 0 <= i < |Commands(lines)| :: Commands(lines)[i] != "" && Commands(lines)[i] in lines
    decreases |lines|
  {
    if lines != [] {
      CommandsAreNotEmpty(lines[1..]);
    }
  }

  /** Some command fails when all that come before it pass. */
  ghost predicate SomeFails(outcome: Outcome, commands: seq<string>, log: seq<string>) {
    exists k: nat :: StopsAt(outcome, commands, log, k, true)
  }

  lemma StopsOnce(outcome: Outcome, commands: seq<string>, log: seq<string>, k: nat, failed: bool)
    requires StopsAt(outcome, commands, log, k, failed)
    ensures SomeFails(outcome, commands, log) <==> failed
  {
    if SomeFails(outcome, commands, log) {
      var j: nat :| StopsAt(outcome, commands, log, j, true);
      assert j <= k;
    }
  }

  /** The commands of a text: its lines and what stands behind the last newline, unless empty. */
  function TextCommands(text: string): seq<string> { Commands(Ended(text) + [Remainder(text)]) }

  lemma {:induction false} CommandsAppend(lines: seq<string>, last: string)
    ensures Commands(lines + [last]) == Commands(lines) + if last == "" then [] else [last]
    decreases |lines|
  {
    if lines != [] {
      assert (lines + [last])[1..] == lines[1..] + [last];
      CommandsAppend(lines[1..], last);
    }
  }

  /** Running one more line. */
  lemma {:induction false} RunAppend(outcome: Outcome, lines: seq<string>, last: string, log: seq<string>)
    ensures
      var run := RunLines(outcome, lines, log);
      RunLines(outcome, lines + [last], log) ==
        if run.failed || last == "" then run else Run(run.log + [last], Fails(outcome, run.log + [last]))
    decreases |lines|
  {
    if lines != [] {
      assert (lines + [last])[1..] == lines[1..] + [last];
      RunAppend(outcome, lines[1..], last, if lines[0] == "" then log else log + [lines[0]]);
    }
  }

  /** The commands that run are a prefix that ends where `StopsAt` says. */
  lemma LinesStop(outcome: Outcome, lines: seq<string>, log: seq<string>) returns (k: nat)
    ensures
      var run := RunLines(outcome, lines, log);
      StopsAt(outcome, Commands(lines), log, k, run.failed) && run.log == log + Commands(lines)[..k]
  {
    OnlyCommandsCount(outcome, lines, log);
    CommandsAreNotEmpty(lines);
    k := RunsUpToFailure(outcome, Commands(lines), log);
  }

  /** The unterminated line of the text is run: everything before it passed. */
  predicate RunsRemainder(text: string, k: nat) { Remainder(text) != "" && k == |TextCommands(text)| }

  /** For every text the commands run in order up to the first that fails. The status is 1 exactly
      when one fails, unless the unterminated line was run: then it is 1 exactly when none fails. */
  lemma TextRuns(outcome: Outcome, text: string, log: seq<string>) returns (k: nat, failed: bool)
    ensures
      var commands := TextCommands(text);
      var r := Execute(outcome, text, log);
      && StopsAt(outcome, commands, log, k, failed) && r.log == log + commands[..k]
      && (failed <==> SomeFails(outcome, commands, log))
      && r.rcode == if failed != RunsRemainder(text, k) then 1 else 0
  {
    var lines, last := Ended(text), Remainder(text);
    CommandsAppend(lines, last);
    RunAppend(outcome, lines, last, log);
    var i := LinesStop(outcome, lines, log);
    k := LinesStop(outcome, lines + [last], log);
    failed := RunLines(outcome, lines + [last], log).failed;
    StopsOnce(outcome, TextCommands(text), log, k, failed);
  }

  /** When the text ends with a newline, or is empty, the status is 1 exactly when a command fails. */
  lemma TerminatedText(outcome: Outcome, text: string, log: seq<string>)
    requires Remainder(text) == ""
    ensures Execute(outcome, text, log).rcode == 1 <==> SomeFails(outcome, TextCommands(text), log)
    ensures Execute(outcome, text, log).rcode in {0, 1}
  {
    var k, failed := TextRuns(outcome, text, log);
  }

  /** The last command that ran failed. */
  predicate LastFailed(outcome: Outcome, log: seq<string>, r: Result) {
    |r.log| > |log| && outcome(r.log) < 0
  }

  lemma {:induction false} FailedLast(outcome: Outcome, lines: seq<string>, log: seq<string>)
    ensures var run := RunLines(outcome, lines, log);
            log <= run.log && (run.failed <==> |run.log| > |log| && Fails(outcome, run.log))
    decreases |lines|
  {
    if lines != [] {
      var log1 := if lines[0] == "" then log else log + [lines[0]];
      FailedLast(outcome, lines[1..], log1);
      var rest := RunLines(outcome, lines[1..], log1).log;
      assert rest == log1 + rest[|log1|..];
      if |rest| == |log1| { assert rest == log1; }
    }
  }

  /** The status says whether the script failed exactly when no unterminated line was run: that line
      reports failure when it succeeds, and success when it fails. */
  lemma StatusIff(outcome: Outcome, text: string, log: seq<string>)
    ensures
      var r := Execute(outcome, text, log);
      (r.rcode == 1 <==> LastFailed(outcome, log, r)) <==>
        Remainder(text) == "" || RunLines(outcome, Ended(text), log).failed
  {
    FailedLast(outcome, Ended(text), log);
  }

  lemma {:induction false} LineLengthIs(text: string, n: nat)
    requires n <= |text| && '\n' !in text[..n] && (n == |text| || text[n] == '\n')
    ensures LineLength(text) == n
  {
    if n > 0 {
      assert text[0] in text[..n] && text[1..][..n - 1] == text[..n][1..];
      LineLengthIs(text[1..], n - 1);
    }
  }

  /** A script of one unterminated line returns 1 when it succeeds and 0 when it fails. */
  lemma UnterminatedLineInverted(outcome: Outcome, text: string, log: seq<string>)
    requires text != "" && '\n' !in text
    ensures Execute(outcome, text, log) == Result(log + [text], if outcome(log + [text]) < 0 then 0 else 1)
  {
    assert text[..|text|] == text;
    LineLengthIs(text, |text|);
  }

  // ----- implementation -----

  /** The shell that the commands are given to: it remembers them, and what it returns may depend on
      all of them. */
  class Shell {
    const outcome: Outcome
    var log: seq<string>

    constructor (outcome: Outcome)
      ensures this.outcome == outcome && log == []
    {
      this.outcome, log := outcome, [];
    }

    method RunCommand(line: string) returns (r: int)
      modifies this
      ensures log == old(log) + [line] && r == outcome(log)
    {
      log := log + [line];
      r := outcome(log);
    }
  }

  /** Executing a text whose first `n` characters are a line. */
  lemma ExecuteStep(outcome: Outcome, text: string, log: seq<string>, n: nat)
    requires n < |text| && '\n' !in text[..n] && text[n] == '\n'
    ensures
      var log1 := if n == 0 then log else log + [text[..n]];
      Execute(outcome, text, log) ==
        if n > 0 && Fails(outcome, log1) then Result(log1, 1) else Execute(outcome, text[n + 1..], log1)
  {
    LineLengthIs(text, n);
    assert Ended(text)[0] == text[..n] && Ended(text)[1..] == Ended(text[n + 1..]);
  }

  lemma ExecuteEnd(outcome: Outcome, text: string, log: seq<string>)
    requires '\n' !in text
    ensures Execute(outcome, text, log) ==
              if text == "" then Result(log, 0)
              else Result(log + [text], if Fails(outcome, log + [text]) then 0 else 1)
  {
    if text != "" { UnterminatedLineInverted(outcome, text, log); }
  }

  /** The command between two places of the buffer, the second of which holds a NUL. */
  lemma CommandAt(now: seq<char>, text: string, line: nat, next: nat)
    requires line <= next < |now| && next <= |text| && now[next] == '\0' && '\0' !in text
    requires forall k | line <= k < next :: now[k] == text[k]
    ensures StringAt(now, line) == text[line..next]
  {
    var command := text[line..next];
    forall k | 0 <= k < |command| ensures now[line + k] == command[k] != '\0' {
      assert command[k] == text[line + k] && text[line + k] in text;
    }
    StringAtIs(now, line, command);
  }

  /** What the loop keeps: the open line starts at `line` and has no newline up to `next`, the buffer
      still holds the text from `line` on, and executing that text leads to the goal. */
  ghost predicate Executing(outcome: Outcome, text: string, now: seq<char>, line: nat, next: nat, log: seq<string>, goal: Result) {
    && line <= next <= |text| < |now| && '\0' !in text && now[|text|] == '\0'
    && (forall k | line <= k < |text| :: now[k] == text[k])
    && (forall k | line <= k < next :: text[k] != '\n')
    && Execute(outcome, text[line..], log) == goal
  }

  /** At a newline the open line is run, unless it is empty. */
  lemma AtNewline(outcome: Outcome, text: string, now: seq<char>, line: nat, next: nat, log: seq<string>, goal: Result)
    requires Executing(outcome, text, now, line, next, log, goal) && now[next] == '\n'
    ensures
      var command := StringAt(now[next := '\0'], line);
      var log1 := if command == "" then log else log + [command];
      && (command == "" <==> now[next := '\0'][line] == '\0')
      && if command != "" && Fails(outcome, log1) then goal == Result(log1, 1)
         else Executing(outcome, text, now[next := '\0'], next + 1, next + 1, log1, goal)
  {
    assert next < |text| && text[next] == '\n';
    CommandAt(now[next := '\0'], text, line, next);
    var rest := text[line..];
    assert rest[..next - line] == text[line..next] && rest[next - line + 1..] == text[next + 1..];
    assert forall c | c in text[line..next] :: c != '\n';
    ExecuteStep(outcome, rest, log, next - line);
    if line < next { assert text[line] in text; }
  }

  lemma AtOther(outcome: Outcome, text: string, now: seq<char>, line: nat, next: nat, log: seq<string>, goal: Result)
    requires Executing(outcome, text, now, line, next, log, goal) && now[next] != '\n' && now[next] != '\0'
    ensures Executing(outcome, text, now, line, next + 1, log, goal)
  {
    assert next < |text| && text[next] == now[next];
  }

  /** At the end the open line is run, with its status inverted, unless it is empty. */
  lemma AtEnd(outcome: Outcome, text: string, now: seq<char>, line: nat, next: nat, log: seq<string>, goal: Result)
    requires Executing(outcome, text, now, line, next, log, goal) && now[next] == '\0'
    ensures
      var command := StringAt(now, line);
      && (command == "" <==> now[line] == '\0')
      && goal == if command == "" then Result(log, 0)
                 else Result(log + [command], if Fails(outcome, log + [command]) then 0 else 1)
  {
    assert next == |text|;
    CommandAt(now, text, line, next);
    assert text[line..] == text[line..next];
    assert forall c | c in text[line..] :: c != '\n';
    ExecuteEnd(outcome, text[line..], log);
    if line < next { assert text[line] in text; }
  }

  lemma StartsExecuting(outcome: Outcome, was: seq<char>, log: seq<string>)
    requires '\0' in was
    ensures Executing(outcome, CStr(was), was, 0, 0, log, Execute(outcome, CStr(was), log))
  {
    assert CStr(was)[0..] == CStr(was);
    assert |CStr(was)| == |was| ==> CStr(was) == was;
  }

  /** The newline becomes a NUL, and the line before it is run if it is not empty. */
  method EndLine(cmd: array<char>, shell: Shell, line: nat, next: nat, ghost text: string, ghost goal: Result) returns (failed: bool)
    requires Executing(shell.outcome, text, cmd[..], line, next, shell.log, goal) && cmd[next] == '\n'
    modifies cmd, shell
    ensures if failed then goal == Result(shell.log, 1)
            else Executing(shell.outcome, text, cmd[..], next + 1, next + 1, shell.log, goal)
  {
    ghost var now := cmd[..];
    AtNewline(shell.outcome, text, now, line, next, shell.log, goal);
    cmd[next] := '\0';
    assert cmd[..] == now[next := '\0'];
    if cmd[line] != '\0' {
      var r := shell.RunCommand(StringAt(cmd[..], line));
      return r < 0;
    }
    return false;
  }

  /** Behind the last newline a line is run if it is not empty, and its status is inverted. */
  method EndText(cmd: array<char>, shell: Shell, line: nat, next: nat, ghost text: string, ghost goal: Result) returns (rcode: nat)
    requires Executing(shell.outcome, text, cmd[..], line, next, shell.log, goal) && cmd[next] == '\0'
    modifies shell
    ensures goal == Result(shell.log, rcode)
  {
    AtEnd(shell.outcome, text, cmd[..], line, next, shell.log, goal);
    rcode := 0;
    if cmd[line] != '\0' {
      var r := shell.RunCommand(StringAt(cmd[..], line));
      rcode := if r >= 0 then 1 else 0;
    }
  }

  /** The loop of autoscript; the newlines that it passes become NULs. */
  method ExecuteLines(cmd: array<char>, shell: Shell) returns (rcode: nat)
    requires '\0' in cmd[..]
    modifies cmd, shell
    ensures Result(shell.log, rcode) == Execute(shell.outcome, CStr(old(cmd[..])), old(shell.log))
  {
    ghost var text := CStr(cmd[..]);
    ghost var goal := Execute(shell.outcome, text, shell.log);
    StartsExecuting(shell.outcome, cmd[..], shell.log);
    rcode := 0;
    var line, next := 0, 0;
    while cmd[next] != '\0'
      invariant rcode == 0
      invariant Executing(shell.outcome, text, cmd[..], line, next, shell.log, goal)
      decreases |text| - next
    {
      if cmd[next] == '\n' {
        var failed := EndLine(cmd, shell, line, next, text, goal);
        if failed {
          rcode := 1;
          break;
        }
        line := next + 1;
      } else {
        AtOther(shell.outcome, text, cmd[..], line, next, shell.log, goal);
      }
      next := next + 1;
    }
    if rcode == 0 {
      rcode := EndText(cmd, shell, line, next, text, goal);
    }
  }
}
