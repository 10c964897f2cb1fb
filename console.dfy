/** The console's command parser and mode. A line of input is copied into a buffer,
    lowercased in place and cut at its line feed; its first space- or tab-separated
    token names the command and the next tokens are its arguments. Also the memory
    range the memory command dumps, and the console mode with its step counter. */
module Console {
  import opened Words
  import opened MachineState
  import opened Memory

  const NUL: char := '\0'

  /** Characters of a file name that fit in the 100-byte field with its terminator. */
  const FILENAME_MAX := 99

  /** How many words the memory command shows after its start address by default. */
  const DUMP_SPAN := 20

  datatype ExecutionMode = ModeNormal | ModeDebugger

  datatype Command =
    | CmdRun | CmdDebug | CmdStep | CmdContinue | CmdRegisters | CmdMemory
    | CmdDisk | CmdHelp | CmdExit | CmdUnknown | CmdLoad

  datatype ParsedCommand = ParsedCommand(cmd: Command, filename: string, mode: ExecutionMode, param1: int, param2: int)

  datatype Option<T> = None | Some(value: T)

  // ---------------------------------------------------------------------------------
  // The line the tokenizer sees

  /** tolower in the C locale: only 'A'..'Z' change. */
  function ToLower(c: char): char {
    if 'A' <= c <= 'Z' then (c as int + 32) as char else c
  }

  function Lower(s: string): string {
    seq(|s|, i requires 0 <= i < |s| => ToLower(s[i]))
  }

  predicate IsUpper(c: char) {
    'A' <= c <= 'Z'
  }

  /** The text before the first line feed or terminator. */
  function LineOf(s: string): (r: string)
    ensures |r| <= |s|
  {
    if s == [] || s[0] == NUL || s[0] == '\n' then [] else [s[0]] + LineOf(s[1..])
  }

  /** What parse_command tokenizes: the input up to its line feed, lowercased. */
  function Normalize(input: string): string {
    Lower(LineOf(input))
  }

  /** The C string a buffer holds: everything before its first terminator. */
  function CString(s: seq<char>): (r: string)
    ensures |r| <= |s|
  {
    if s == [] || s[0] == NUL then [] else [s[0]] + CString(s[1..])
  }

  /** What one pass of the lowering loop leaves in a buffer cell. */
  function Lowered(c: char): char {
    if ToLower(c) == '\n' then NUL else ToLower(c)
  }

  /** The lowering loop's buffer holds the normalised line: cells before the first
      terminator of the input are lowered (a line feed becoming a terminator), and the
      cell where the loop stopped is one. */
  lemma {:induction false} LoweredBuffer(input: string, b: seq<char>, m: nat)
    requires |b| == |input| && m <= |input|
    requires forall k :: 0 <= k < m ==> b[k] == Lowered(input[k]) && input[k] != NUL
    requires m < |input| ==> input[m] == NUL && b[m] == NUL
    ensures CString(b) == Normalize(input)
  {
    if input != [] && m > 0 && input[0] != '\n' {
      assert b[0] == ToLower(input[0]) && b[0] != NUL;
      LoweredBuffer(input[1..], b[1..], m - 1);
      assert Lower(LineOf(input)) == [ToLower(input[0])] + Lower(LineOf(input[1..]));
    }
  }

  /** Lowercasing before the cut gives the same line: case never matters. */
  lemma {:induction false} NormalizeLower(s: string)
    ensures Normalize(Lower(s)) == Normalize(s)
  {
    if s != [] && s[0] != NUL && s[0] != '\n' {
      var t := Lower(s);
      assert t[0] == ToLower(s[0]) && t[0] != NUL && t[0] != '\n';
      assert t[1..] == Lower(s[1..]);
      NormalizeLower(s[1..]);
      assert LineOf(t) == [t[0]] + LineOf(t[1..]);
      assert Lower(LineOf(t)) == [ToLower(t[0])] + Lower(LineOf(t[1..]));
      assert Lower(LineOf(s)) == [ToLower(s[0])] + Lower(LineOf(s[1..]));
    }
  }

  /** The normalised line has no capital letters, no line feed and no terminator. */
  lemma {:induction false} NormalizeClean(s: string)
    ensures forall i :: 0 <= i < |Normalize(s)| ==>
      !IsUpper(Normalize(s)[i]) && Normalize(s)[i] != '\n' && Normalize(s)[i] != NUL
  {
    if s != [] && s[0] != NUL && s[0] != '\n' {
      NormalizeClean(s[1..]);
      assert Normalize(s) == [ToLower(s[0])] + Normalize(s[1..]);
    }
  }

  // ---------------------------------------------------------------------------------
  // Tokens

  predicate IsDelimiter(c: char) {
    c == ' ' || c == '\t'
  }

  /** The length of the run of non-delimiters that starts the string. */
  function RunLength(s: string): (k: nat)
    ensures k <= |s| && (k < |s| ==> IsDelimiter(s[k]))
  {
    if s == [] || IsDelimiter(s[0]) then 0 else 1 + RunLength(s[1..])
  }

  /** The tokens of a line: its maximal runs of characters other than space and tab,
      in order. */
  function Tokens(s: string): seq<string>
    decreases |s|
  {
    if s == [] then []
    else if IsDelimiter(s[0]) then Tokens(s[1..])
    else
      var k := RunLength(s);
      [s[..k]] + Tokens(s[k..])
  }

  function SkipDelimiters(s: string, i: nat): (j: nat)
    requires i <= |s|
    ensures i <= j <= |s| && (j < |s| ==> !IsDelimiter(s[j]))
    decreases |s| - i
  {
    if i < |s| && IsDelimiter(s[i]) then SkipDelimiters(s, i + 1) else i
  }

  function TokenEnd(s: string, i: nat): (j: nat)
    requires i <= |s|
    ensures i <= j <= |s| && (j < |s| ==> IsDelimiter(s[j]))
    decreases |s| - i
  {
    if i < |s| && !IsDelimiter(s[i]) then TokenEnd(s, i + 1) else i
  }

  datatype Token = Token(text: string, next: nat)

  /** strtok(…, " \t") resumed at `pos`: skip delimiters, take the run up to the next
      one and resume after the delimiter it overwrites; none when only delimiters are
      left. */
  function NextToken(s: string, pos: nat): (t: Option<Token>)
    requires pos <= |s|
    ensures t.Some? ==> t.value.next <= |s|
  {
    var start := SkipDelimiters(s, pos);
    if start == |s| then None
    else
      var end := TokenEnd(s, start);
      Some(Token(s[start..end], if end < |s| then end + 1 else end))
  }

  lemma {:induction false} SkipKeepsTokens(s: string, i: nat)
    requires i <= |s|
    ensures Tokens(s[i..]) == Tokens(s[SkipDelimiters(s, i)..])
    decreases |s| - i
  {
    if i < |s| && IsDelimiter(s[i]) {
      assert s[i..][1..] == s[i + 1..];
      SkipKeepsTokens(s, i + 1);
    }
  }

  lemma {:induction false} RunLengthIsTokenEnd(s: string, i: nat)
    requires i <= |s|
    ensures RunLength(s[i..]) == TokenEnd(s, i) - i
    decreases |s| - i
  {
    if i < |s| && !IsDelimiter(s[i]) {
      assert s[i..][1..] == s[i + 1..];
      RunLengthIsTokenEnd(s, i + 1);
    }
  }

  /** Each strtok call takes the next token of the reference tokenisation, and none is
      left exactly when strtok returns NULL. */
  lemma TokenWalk(s: string, pos: nat)
    requires pos <= |s|
    ensures NextToken(s, pos).None? <==> Tokens(s[pos..]) == []
    ensures NextToken(s, pos).Some? ==>
      Tokens(s[pos..]) == [NextToken(s, pos).value.text] + Tokens(s[NextToken(s, pos).value.next..])
  {
    var start := SkipDelimiters(s, pos);
    SkipKeepsTokens(s, pos);
    if start < |s| {
      var end := TokenEnd(s, start);
      RunLengthIsTokenEnd(s, start);
      var r := s[start..];
      assert r[..end - start] == s[start..end];
      assert r[end - start..] == s[end..];
      assert Tokens(r) == [s[start..end]] + Tokens(s[end..]);
      if end < |s| {
        assert s[end..][1..] == s[end + 1..];
      }
    }
  }

  /** Tokens are non-empty, hold no delimiter, and every character of one comes from
      the line. */
  lemma {:induction false} TokensWellFormed(s: string)
    ensures forall k :: 0 <= k < |Tokens(s)| ==> |Tokens(s)[k]| > 0
    ensures forall k, j :: 0 <= k < |Tokens(s)| && 0 <= j < |Tokens(s)[k]| ==>
      !IsDelimiter(Tokens(s)[k][j]) && Tokens(s)[k][j] in s
    decreases |s|
  {
    if s != [] {
      if IsDelimiter(s[0]) {
        TokensWellFormed(s[1..]);
      } else {
        var k := RunLength(s);
        RunLengthRun(s);
        TokensWellFormed(s[k..]);
        forall q, j | 0 <= q < |Tokens(s[k..])| && 0 <= j < |Tokens(s[k..])[q]|
          ensures Tokens(s[k..])[q][j] in s
        {
          var c := Tokens(s[k..])[q][j];
          var p :| 0 <= p < |s[k..]| && s[k..][p] == c;
          assert s[k + p] == c;
        }
      }
    }
  }

  lemma {:induction false} RunLengthRun(s: string)
    ensures forall i :: 0 <= i < RunLength(s) ==> !IsDelimiter(s[i])
  {
    if s != [] && !IsDelimiter(s[0]) {
      RunLengthRun(s[1..]);
    }
  }

  /** A line of spaces and tabs has no tokens. */
  lemma {:induction false} BlankHasNoTokens(s: string)
    requires forall i :: 0 <= i < |s| ==> IsDelimiter(s[i])
    ensures Tokens(s) == []
  {
    if s != [] {
      BlankHasNoTokens(s[1..]);
    }
  }

  // ---------------------------------------------------------------------------------
  // Commands

  /** The command each first token names, aliases included; any other word is unknown. */
  function CommandOf(word: string): Command {
    if word == "run" then CmdRun
    else if word == "debug" then CmdDebug
    else if word == "step" || word == "s" then CmdStep
    else if word == "continue" || word == "c" then CmdContinue
    else if word == "registers" || word == "reg" || word == "r" then CmdRegisters
    else if word == "memory" || word == "mem" || word == "m" then CmdMemory
    else if word == "disk" || word == "d" then CmdDisk
    else if word == "load" then CmdLoad
    else if word == "help" || word == "?" || word == "h" then CmdHelp
    else if word == "exit" || word == "quit" || word == "q" then CmdExit
    else CmdUnknown
  }

  /** The names each command answers to. */
  function Names(c: Command): set<string> {
    match c
    case CmdRun => {"run"}
    case CmdDebug => {"debug"}
    case CmdStep => {"step", "s"}
    case CmdContinue => {"continue", "c"}
    case CmdRegisters => {"registers", "reg", "r"}
    case CmdMemory => {"memory", "mem", "m"}
    case CmdDisk => {"disk", "d"}
    case CmdLoad => {"load"}
    case CmdHelp => {"help", "?", "h"}
    case CmdExit => {"exit", "quit", "q"}
    case CmdUnknown => {}
  }

  /** A word names a command exactly when it is one of that command's names. */
  lemma CommandNames(word: string, c: Command)
    requires c != CmdUnknown
    ensures CommandOf(word) == c <==> word in Names(c)
  {
    if word in Names(c) {
      match c
      case CmdRun =>
      case CmdDebug =>
      case CmdStep =>
      case CmdContinue =>
      case CmdRegisters =>
      case CmdMemory =>
      case CmdDisk =>
      case CmdLoad =>
      case CmdHelp =>
      case CmdExit =>
    }
  }

  /** No name is shared by two commands, and a word outside every table is unknown. */
  lemma NamesDisjoint(word: string, c: Command, d: Command)
    requires word in Names(c) && word in Names(d)
    ensures c == d
  {
  }

  /** strncpy into the 100-byte field, terminator forced: at most 99 characters. */
  function Truncate(name: string): (r: string)
    ensures |r| <= FILENAME_MAX && r <= name
    ensures |name| <= FILENAME_MAX ==> r == name
  {
    if |name| <= FILENAME_MAX then name else name[..FILENAME_MAX]
  }

  /** The record before any token is looked at. */
  function Blank(current: ExecutionMode): ParsedCommand {
    ParsedCommand(CmdUnknown, "", current, -1, -1)
  }

  /** The record a line's tokens describe: the command the first names; run, debug and
      load take the second as file name (run and debug then switch mode); memory takes
      the second and third through atoi; a missing argument leaves its field at the
      blank record's value. */
  function ParseTokens(tokens: seq<string>, current: ExecutionMode): ParsedCommand {
    if tokens == [] then Blank(current)
    else
      var c := CommandOf(tokens[0]);
      var hasArg := |tokens| > 1;
      ParsedCommand(
        c,
        if hasArg && (c == CmdRun || c == CmdDebug || c == CmdLoad) then Truncate(tokens[1]) else "",
        if hasArg && c == CmdRun then ModeNormal else if hasArg && c == CmdDebug then ModeDebugger else current,
        if hasArg && c == CmdMemory then Atoi(tokens[1]) else -1,
        if |tokens| > 2 && c == CmdMemory then Atoi(tokens[2]) else -1)
  }

  /** parse_command as a function of the input line and the console mode. */
  function Parse(input: string, current: ExecutionMode): ParsedCommand {
    ParseTokens(Tokens(Normalize(input)), current)
  }

  /** An empty line, or one of spaces and tabs, parses to the blank record. */
  lemma BlankLine(input: string, current: ExecutionMode)
    requires forall i :: 0 <= i < |input| ==> IsDelimiter(input[i]) || input[i] == '\n'
    ensures Parse(input, current) == Blank(current)
  {
    BlankBeforeLineFeed(input);
    BlankHasNoTokens(Normalize(input));
  }

  lemma {:induction false} BlankBeforeLineFeed(input: string)
    requires forall i :: 0 <= i < |input| ==> IsDelimiter(input[i]) || input[i] == '\n'
    ensures forall i :: 0 <= i < |Normalize(input)| ==> IsDelimiter(Normalize(input)[i])
  {
    if input != [] && input[0] != '\n' {
      BlankBeforeLineFeed(input[1..]);
      assert Normalize(input) == [ToLower(input[0])] + Normalize(input[1..]);
    }
  }

  /** Matching ignores case: a line parses as its lowercase version does. */
  lemma CaseInsensitive(input: string, current: ExecutionMode)
    ensures Parse(Lower(input), current) == Parse(input, current)
  {
    NormalizeLower(input);
  }

  /** A first token that names no command gives the blank record, whatever follows. */
  lemma UnknownWord(input: string, current: ExecutionMode)
    requires Tokens(Normalize(input)) != [] && CommandOf(Tokens(Normalize(input))[0]) == CmdUnknown
    ensures Parse(input, current) == Blank(current)
  {
  }

  /** A recorded file name is the argument token cut to 99 characters, in lower case;
      it is empty unless the command is run, debug or load with an argument. */
  lemma FileNameRecorded(input: string, current: ExecutionMode)
    ensures var p := Parse(input, current); var toks := Tokens(Normalize(input));
      && |p.filename| <= FILENAME_MAX
      && (forall i :: 0 <= i < |p.filename| ==> !IsUpper(p.filename[i]) && !IsDelimiter(p.filename[i]))
      && (p.filename != "" ==> |toks| > 1 && p.filename <= toks[1] && p.cmd in {CmdRun, CmdDebug, CmdLoad})
  {
    var line := Normalize(input);
    var toks := Tokens(line);
    TokensWellFormed(line);
    NormalizeClean(input);
    var p := Parse(input, current);
    forall i | 0 <= i < |p.filename|
      ensures !IsUpper(p.filename[i]) && !IsDelimiter(p.filename[i])
    {
      assert p.filename[i] == toks[1][i];
      var j :| 0 <= j < |line| && line[j] == toks[1][i];
    }
  }

  /** run and debug with a file name switch the mode; without one the mode stays. */
  lemma RunAndDebugMode(input: string, current: ExecutionMode)
    requires var toks := Tokens(Normalize(input)); toks != [] && CommandOf(toks[0]) in {CmdRun, CmdDebug}
    ensures var p := Parse(input, current); var toks := Tokens(Normalize(input));
      p.mode == (if |toks| == 1 then current else if p.cmd == CmdRun then ModeNormal else ModeDebugger)
  {
  }

  /** The memory command reads its bounds with atoi; a missing bound stays -1. */
  lemma MemoryArguments(input: string, current: ExecutionMode)
    requires var toks := Tokens(Normalize(input)); toks != [] && CommandOf(toks[0]) == CmdMemory
    ensures var p := Parse(input, current); var toks := Tokens(Normalize(input));
      && p.param1 == (if |toks| > 1 then Atoi(toks[1]) else -1)
      && p.param2 == (if |toks| > 2 then Atoi(toks[2]) else -1)
      && p.filename == "" && p.mode == current
  {
  }

  // ---------------------------------------------------------------------------------
  // The memory command

  /** The range the memory case of execute_command passes to dump_memory: the 21 words
      from the start of the user area with no argument, 21 words from the first
      argument with one, and the two arguments as given with two. -1 doubles as
      "absent". */
  function MemoryRange(cmd: ParsedCommand): (int, int) {
    if cmd.param1 == -1 then (OS_RESERVED, OS_RESERVED + DUMP_SPAN)
    else if cmd.param2 == -1 then (cmd.param1, cmd.param1 + DUMP_SPAN)
    else (cmd.param1, cmd.param2)
  }

  /** The memory command without arguments shows words 300 to 320. */
  lemma MemoryWithoutArguments(s: State, input: string, current: ExecutionMode)
    requires var toks := Tokens(Normalize(input)); |toks| == 1 && CommandOf(toks[0]) == CmdMemory
    ensures var r := MemoryRange(Parse(input, current)); var lines := DumpMemory(s, r.0, r.1);
      |lines| == DUMP_SPAN + 1 && forall k :: 0 <= k < |lines| ==> lines[k] == (OS_RESERVED + k, s.memory[OS_RESERVED + k])
  {
  }

  /** With one argument a in 0..1979 the command shows the 21 words from a. */
  lemma MemoryFromAddress(s: State, input: string, current: ExecutionMode)
    requires var toks := Tokens(Normalize(input)); |toks| == 2 && CommandOf(toks[0]) == CmdMemory
    requires 0 <= Atoi(Tokens(Normalize(input))[1]) < MEMORY_SIZE - DUMP_SPAN
    ensures var a := Atoi(Tokens(Normalize(input))[1]);
      var r := MemoryRange(Parse(input, current)); var lines := DumpMemory(s, r.0, r.1);
      |lines| == DUMP_SPAN + 1 && forall k :: 0 <= k < |lines| ==> lines[k] == (a + k, s.memory[a + k])
  {
    var toks := Tokens(Normalize(input));
    var p := Parse(input, current);
    assert p.param1 == Atoi(toks[1]) && p.param2 == -1;
  }

  /** A first argument that reads as -1 is taken for a missing one: the command then
      shows the default range whatever the second argument says. */
  lemma MinusOneMeansDefault(input: string, current: ExecutionMode)
    requires var toks := Tokens(Normalize(input)); |toks| >= 2 && CommandOf(toks[0]) == CmdMemory
    requires Atoi(Tokens(Normalize(input))[1]) == -1
    ensures MemoryRange(Parse(input, current)) == (OS_RESERVED, OS_RESERVED + DUMP_SPAN)
  {
  }

  // ---------------------------------------------------------------------------------
  // What execute_command does to the console's own state

  /** The console's static variables as a value: the mode and the step counter. */
  datatype ConsoleState = ConsoleState(mode: ExecutionMode, steps: int)

  /** The console-state part of execute_command: run leaves the debugger; debug enters it
      and restarts the count; step counts one step, but only in the debugger and while
      the CPU (whose state when the command starts is `cpuRunning`) runs; continue leaves
      the debugger, and only from it. Every other command leaves both alone. */
  function CommandEffect(c: ConsoleState, cmd: Command, cpuRunning: bool): ConsoleState {
    match cmd
    case CmdRun => c.(mode := ModeNormal)
    case CmdDebug => ConsoleState(ModeDebugger, 0)
    case CmdStep => if c.mode == ModeDebugger && cpuRunning then c.(steps := c.steps + 1) else c
    case CmdContinue => if c.mode == ModeDebugger then c.(mode := ModeNormal) else c
    case _ => c
  }

  /** Only run, debug and continue change the mode; only debug and a step in the
      debugger with the CPU running change the count; and no command leaves the
      debugger mode the commands that enter it did not ask for. */
  lemma CommandEffectFrame(c: ConsoleState, cmd: Command, cpuRunning: bool)
    ensures CommandEffect(c, cmd, cpuRunning).mode != c.mode ==> cmd in {CmdRun, CmdDebug, CmdContinue}
    ensures CommandEffect(c, cmd, cpuRunning).mode == ModeDebugger ==>
      cmd == CmdDebug || (c.mode == ModeDebugger && cmd !in {CmdRun, CmdContinue})
    ensures CommandEffect(c, cmd, cpuRunning).steps != c.steps ==>
      cmd == CmdDebug || (cmd == CmdStep && c.mode == ModeDebugger && cpuRunning)
    ensures cmd !in {CmdRun, CmdDebug, CmdStep, CmdContinue} ==> CommandEffect(c, cmd, cpuRunning) == c
  {
  }

  /** The console state after a run of commands, the CPU running throughout. */
  function Replay(c: ConsoleState, cmds: seq<Command>, cpuRunning: bool): ConsoleState
    decreases |cmds|
  {
    if cmds == [] then c else Replay(CommandEffect(c, cmds[0], cpuRunning), cmds[1..], cpuRunning)
  }

  /** In the debugger with the CPU running, k steps add k to the count. */
  lemma {:induction false} StepsAdd(n: int, k: nat)
    ensures Replay(ConsoleState(ModeDebugger, n), seq(k, _ => CmdStep), true) == ConsoleState(ModeDebugger, n + k)
    decreases k
  {
    if k > 0 {
      assert seq(k, _ => CmdStep)[1..] == seq(k - 1, _ => CmdStep);
      StepsAdd(n + 1, k - 1);
    }
  }

  /** debug followed by k steps, the CPU running: debugger mode with the count at k,
      whatever the console state before. */
  lemma DebugThenSteps(c: ConsoleState, k: nat)
    ensures Replay(c, [CmdDebug] + seq(k, _ => CmdStep), true) == ConsoleState(ModeDebugger, k)
  {
    assert ([CmdDebug] + seq(k, _ => CmdStep))[1..] == seq(k, _ => CmdStep);
    StepsAdd(0, k);
  }

  /** Steps outside the debugger, or with the CPU stopped, count nothing. */
  lemma {:induction false} IdleStepsCountNothing(c: ConsoleState, k: nat, cpuRunning: bool)
    requires c.mode == ModeNormal || !cpuRunning
    ensures Replay(c, seq(k, _ => CmdStep), cpuRunning) == c
  {
    if k > 0 {
      assert seq(k, _ => CmdStep)[1..] == seq(k - 1, _ => CmdStep);
      IdleStepsCountNothing(c, k - 1, cpuRunning);
    }
  }

  // ---------------------------------------------------------------------------------
  // The parser's two passes

  /** The first pass of parse_command: strcpy into a buffer, then the loop that
      lowercases each character in place and overwrites a line feed with a
      terminator. The result is the C string left in the buffer. */
  method LowerLine(input: string) returns (line: string)
    ensures line == Normalize(input)
  {
    var buffer := new char[|input|](i requires 0 <= i < |input| => input[i]);
    var i := 0;
    while i < buffer.Length && buffer[i] != NUL
      invariant 0 <= i <= buffer.Length
      invariant forall k :: 0 <= k < i ==> buffer[k] == Lowered(input[k]) && input[k] != NUL
      invariant forall k :: i <= k < buffer.Length ==> buffer[k] == input[k]
    {
      buffer[i] := ToLower(buffer[i]);
      if buffer[i] == '\n' {
        buffer[i] := NUL;
      }
      i := i + 1;
    }
    LoweredBuffer(input, buffer[..], i);
    line := CString(buffer[..]);
  }

  /** The second pass: strtok takes the command word, the record starts blank and
      is filled field by field from the following tokens. */
  method ParseLine(line: string, current: ExecutionMode) returns (cmd: ParsedCommand)
    ensures cmd == ParseTokens(Tokens(line), current)
  {
    cmd := Blank(current);
    assert line[0..] == line;
    TokenWalk(line, 0);
    var token := NextToken(line, 0);
    if token.None? {
      return;
    }
    var c := CommandOf(token.value.text);
    cmd := cmd.(cmd := c);
    var pos := token.value.next;
    TokenWalk(line, pos);
    var second := NextToken(line, pos);
    if c == CmdRun || c == CmdDebug || c == CmdLoad {
      if second.Some? {
        cmd := cmd.(filename := Truncate(second.value.text));
        if c == CmdRun {
          cmd := cmd.(mode := ModeNormal);
        } else if c == CmdDebug {
          cmd := cmd.(mode := ModeDebugger);
        }
      }
    } else if c == CmdMemory {
      if second.Some? {
        cmd := cmd.(param1 := Atoi(second.value.text));
        pos := second.value.next;
        TokenWalk(line, pos);
        var third := NextToken(line, pos);
        if third.Some? {
          cmd := cmd.(param2 := Atoi(third.value.text));
        }
      }
    }
  }

  // ---------------------------------------------------------------------------------
  // The console

  /** The console's static state: the mode and the debugger's step counter. */
  class Console {
    var currentMode: ExecutionMode
    var debugStepCount: int

    constructor ()
      ensures currentMode == ModeNormal && debugStepCount == 0
    {
      currentMode := ModeNormal;
      debugStepCount := 0;
    }

    /** get_current_mode */
    method GetCurrentMode() returns (mode: ExecutionMode)
      ensures mode == currentMode
    {
      mode := currentMode;
    }

    /** set_current_mode: entering the debugger restarts the step count. */
    method SetCurrentMode(mode: ExecutionMode)
      modifies this
      ensures currentMode == mode
      ensures debugStepCount == if mode == ModeDebugger then 0 else old(debugStepCount)
    {
      currentMode := mode;
      if mode == ModeDebugger {
        debugStepCount := 0;
      }
    }

    /** The console-state part of execute_command for the parsed command; its calls
        into the machine are not part of this method. */
    method ApplyCommand(cmd: ParsedCommand, cpuRunning: bool)
      modifies this
      ensures ConsoleState(currentMode, debugStepCount) ==
        CommandEffect(ConsoleState(old(currentMode), old(debugStepCount)), cmd.cmd, cpuRunning)
    {
      match cmd.cmd {
        case CmdRun =>
          currentMode := ModeNormal;
        case CmdDebug =>
          currentMode := ModeDebugger;
          debugStepCount := 0;
        case CmdStep =>
          if currentMode == ModeDebugger && cpuRunning {
            debugStepCount := debugStepCount + 1;
          }
        case CmdContinue =>
          if currentMode == ModeDebugger {
            currentMode := ModeNormal;
          }
        case _ =>
      }
    }

    /** parse_command: copy the line into a buffer, lowercase it in place cutting it
        at the line feed, then walk its tokens with strtok. */
    method ParseCommand(input: string) returns (cmd: ParsedCommand)
      ensures cmd == Parse(input, currentMode)
    {
      var line := LowerLine(input);
      cmd := ParseLine(line, currentMode);
    }
  }
}
