/**
 * The console command front end of the Basic Computer (`CLI.java`): how one
 * line, already split into tokens, is recognised and turned into a command with
 * its arguments, or into the error message the console would print.
 */
module Cli {
  import opened Options
  import Text
  import Hex

  // ---------------------------------------------------------------------------
  // Register columns

  /** `CPU.Regs`: the registers the console prints. */
  datatype Reg = Accum | Buf | Data | Addr | Ip | Instr | State | Key | Mip | MInstr

  /** `getRegWidth`: how many hex digits the console prints for a register. */
  function RegWidth(r: Reg): (w: nat)
    ensures 2 <= w <= 5
  {
    match r
    case Accum => 4
    case Buf => 5
    case Data => 4
    case Addr => 3
    case Ip => 3
    case Instr => 4
    case State => 4
    case Key => 4
    case Mip => 2
    case MInstr => 4
  }

  /**
   * One more than the largest value a register holds, from its width in bits:
   * 16 bits for most, 20 for the buffer, 12 for the address registers and 8 for
   * the micro-instruction pointer.
   */
  function Capacity(r: Reg): (c: nat)
  {
    match r
    case Accum => 0x1_0000
    case Buf => 0x10_0000
    case Data => 0x1_0000
    case Addr => 0x1000
    case Ip => 0x1000
    case Instr => 0x1_0000
    case State => 0x1_0000
    case Key => 0x1_0000
    case Mip => 0x100
    case MInstr => 0x1_0000
  }

  /**
   * `getReg`: a register value in its column, at least as wide as the
   * register's width and never cut short.
   */
  function RegText(r: Reg, v: int): (t: string)
    requires Hex.IsInt(v)
    ensures |t| >= RegWidth(r)
    ensures Hex.AllHex(t) && Hex.ValueOf(t) == Hex.Unsigned(v)
  {
    Hex.FormattedShape(v, RegWidth(r));
    Hex.Formatted(v, RegWidth(r))
  }

  /**
   * The column width is exactly the number of hex digits of the register's
   * capacity: every value the register can hold prints in exactly that many
   * digits, with no truncation and no overflow into the next column.
   */
  lemma RegTextExactWidth(r: Reg, v: int)
    requires 0 <= v < Capacity(r)
    ensures Capacity(r) == Hex.Pow16(RegWidth(r))
    ensures |RegText(r, v)| == RegWidth(r)
    ensures Hex.ParseInt(RegText(r, v)) == Some(v)
  {
    CapacityDigits(r);
    Hex.ToHexLength(v, RegWidth(r));
    Hex.FormattedShape(v, RegWidth(r));
    Hex.FormattedRoundTrip(v, RegWidth(r));
  }

  /** Each register's capacity is 16 to the power of its column width. */
  lemma CapacityDigits(r: Reg)
    ensures Capacity(r) == Hex.Pow16(RegWidth(r))
  {
    assert Hex.Pow16(2) == 0x100;
    assert Hex.Pow16(3) == 0x1000;
    assert Hex.Pow16(4) == 0x1_0000;
    assert Hex.Pow16(5) == 0x10_0000;
  }

  // ---------------------------------------------------------------------------
  // Recognising a command word

  /**
   * `checkCmd`: the first token equals, ignoring case, the command name cut to
   * the token's length.
   */
  function CheckCmd(tok: string, name: string): (b: bool)
    ensures b ==> |tok| <= |name|
  {
    Text.EqualsIgnoreCase(tok, name[..if |name| < |tok| then |name| else |tok|])
  }

  /** `tok` is a case-insensitive abbreviation of `name`. */
  predicate Abbreviates(tok: string, name: string)
  {
    |tok| <= |name| && forall i :: 0 <= i < |tok| ==> Text.ToUpper(tok[i]) == Text.ToUpper(name[i])
  }

  /**
   * A token matches a command name exactly when it abbreviates it; in
   * particular a token longer than the name never matches.
   */
  lemma CheckCmdIsAbbreviation(tok: string, name: string)
    ensures CheckCmd(tok, name) <==> Abbreviates(tok, name)
  {
    var cut := name[..if |name| < |tok| then |name| else |tok|];
    Text.EqualsIgnoreCaseCharwise(tok, cut);
    forall i | 0 <= i < |tok| && i < |cut|
      ensures Text.SameIgnoringCase(tok[i], cut[i]) <==> Text.ToUpper(tok[i]) == Text.ToUpper(name[i])
    {
      Text.SameIgnoringCaseIsUpperEquality(tok[i], cut[i]);
    }
  }

  /** A token longer than a name never matches it, and a non-empty one matches only a prefix. */
  lemma MatchOnlyByPrefix(tok: string, name: string)
    ensures |tok| > |name| ==> !CheckCmd(tok, name)
    ensures CheckCmd(tok, name) && tok != "" ==> Text.ToUpper(tok[0]) == Text.ToUpper(name[0])
    ensures Abbreviates(tok, name) ==> CheckCmd(tok, name)
  {
    CheckCmdIsAbbreviation(tok, name);
  }

  /** The command families, one per branch of the dispatch chain. */
  datatype Verb =
    | Help | Address | Write | Read | Start | Continue | Clock | Run
    | MAddress | MWrite | MRead | Io | Flag | Asm | Arguments

  /** Every spelling the console recognises, in the order the chain tries them. */
  const Spellings: seq<(string, Verb)> := [
    ("?", Help), ("help", Help),
    ("address", Address), ("write", Write), ("read", Read), ("start", Start),
    ("continue", Continue), ("clock", Clock), ("run", Run),
    ("maddress", MAddress), ("mwrite", MWrite), ("mread", MRead),
    ("io", Io), ("flag", Flag),
    ("asm", Asm), ("assembler", Asm), ("arguments", Arguments)
  ]

  /** The verb of the first spelling in `table` that `tok` matches. */
  function FirstMatch(tok: string, table: seq<(string, Verb)>): (r: Option<Verb>)
    decreases |table|
  {
    if |table| == 0 then None
    else if CheckCmd(tok, table[0].0) then Some(table[0].1)
    else FirstMatch(tok, table[1..])
  }

  /**
   * The lookup finds nothing exactly when no spelling matches, and otherwise
   * answers with a matching spelling that no earlier one shadows.
   */
  lemma {:induction false} FirstMatchIsFirst(tok: string, table: seq<(string, Verb)>)
    ensures FirstMatch(tok, table).None? <==> forall i :: 0 <= i < |table| ==> !CheckCmd(tok, table[i].0)
    ensures FirstMatch(tok, table).Some? ==>
              exists i :: 0 <= i < |table| && CheckCmd(tok, table[i].0) && table[i].1 == FirstMatch(tok, table).value
                          && forall j :: 0 <= j < i ==> !CheckCmd(tok, table[j].0)
    decreases |table|
  {
    if |table| > 0 && !CheckCmd(tok, table[0].0) {
      var rest := FirstMatch(tok, table[1..]);
      FirstMatchIsFirst(tok, table[1..]);
      assert forall i :: 1 <= i < |table| ==> table[i] == table[1..][i - 1];
      if rest.Some? {
        var i :| 0 <= i < |table[1..]| && CheckCmd(tok, table[1..][i].0) && table[1..][i].1 == rest.value
                 && forall j :: 0 <= j < i ==> !CheckCmd(tok, table[1..][j].0);
        assert CheckCmd(tok, table[i + 1].0) && table[i + 1].1 == rest.value;
        assert forall j :: 0 <= j < i + 1 ==> !CheckCmd(tok, table[j].0);
      }
    }
  }

  // ---------------------------------------------------------------------------
  // Arguments

  /** The messages of the exceptions the console catches and prints. */
  datatype Error =
    | ValueRequired                   // "Value required"
    | OnlyOneValueRequired            // "Only one value required"
    | NotANumber(token: string)       // NumberFormatException from parseInt
    | UndefinedLabel(name: string)    // the assembler has no such label
    | NoSuchDevice(index: int)        // ArrayIndexOutOfBoundsException from `ioctrls`

  /** `getReqValue(cmd, index)`: token `index` read as hex, or the error. */
  function GetReqValue(cmd: seq<string>, index: nat): (r: Result<int, Error>)
    ensures index >= |cmd| <==> r == Err(ValueRequired)
    ensures r.Ok? <==> index < |cmd| && Hex.ParseInt(cmd[index]).Some?
    ensures r.Ok? ==> Some(r.value) == Hex.ParseInt(cmd[index])
    ensures r.Err? && index < |cmd| ==> r.error == NotANumber(cmd[index])
  {
    if index >= |cmd| then Err(ValueRequired)
    else
      match Hex.ParseInt(cmd[index])
      case Some(v) => Ok(v)
      case None => Err(NotANumber(cmd[index]))
  }

  /** `getCountFromCmd`: the optional count after the command word, 1 when absent. */
  function GetCount(cmd: seq<string>): (r: Result<int, Error>)
    ensures |cmd| < 2 ==> r == Ok(1)
    ensures |cmd| >= 2 ==> r == GetReqValue(cmd, 1)
  {
    if |cmd| >= 2 then GetReqValue(cmd, 1) else Ok(1)
  }

  /**
   * `parseAddress`: a hex number, or else the address of the label named by the
   * upper-cased token in the assembler's table.
   */
  function ParseAddress(s: string, labels: map<string, int>): (r: Result<int, Error>)
    ensures Hex.ParseInt(s).Some? ==> r == Ok(Hex.ParseInt(s).value)
    ensures Hex.ParseInt(s).None? ==>
              (r.Ok? <==> Text.UpperCase(s) in labels) &&
              (r.Ok? ==> r.value == labels[Text.UpperCase(s)]) &&
              (r.Err? ==> r.error == UndefinedLabel(Text.UpperCase(s)))
  {
    match Hex.ParseInt(s)
    case Some(v) => Ok(v)
    case None =>
      var name := Text.UpperCase(s);
      if name in labels then Ok(labels[name]) else Err(UndefinedLabel(name))
  }

  /** Values read from consecutive tokens, and the error that cut the run short, if any. */
  datatype Values = Values(values: seq<int>, stop: Option<Error>)

  /**
   * The loops of `write` and `mwrite`: read tokens `from`, `from + 1`, ... in
   * order, each value taking effect before the next token is read; the first
   * token that is not a number ends the run.
   */
  function ReqValues(cmd: seq<string>, from: nat): (r: Values)
    requires from <= |cmd|
    ensures |r.values| <= |cmd| - from
    ensures forall k :: 0 <= k < |r.values| ==> GetReqValue(cmd, from + k) == Ok(r.values[k])
    ensures r.stop.None? ==> |r.values| == |cmd| - from
    ensures r.stop.Some? ==> from + |r.values| < |cmd| &&
                             GetReqValue(cmd, from + |r.values|) == Err(r.stop.value)
    decreases |cmd| - from
  {
    if from == |cmd| then Values([], None)
    else
      match GetReqValue(cmd, from)
      case Err(e) => Values([], Some(e))
      case Ok(v) =>
        var rest := ReqValues(cmd, from + 1);
        Values([v] + rest.values, rest.stop)
  }

  // ---------------------------------------------------------------------------
  // Dispatch

  /** A recognised command with its arguments, as the chain would carry it out. */
  datatype Command =
    | ShowHelp
    | SetAddress(addr: int)
    | WriteValues(values: seq<int>)
    | ReadCells(count: int)
    | StartProgram
    | ContinueRun(count: int)
    | ToggleClock
    | ToggleRun
    | JumpMicro(addr: int)
    | WriteMicro(values: seq<int>)
    | ReadMicro(count: int)
    | ShowAllDevices
    | ShowDevice(device: int)
    | SetDeviceData(device: int, value: int)
    | SetDeviceFlag(device: int)
    | EnterProgram
    | EnterArguments

  function VerbOf(c: Command): (v: Verb)
  {
    match c
    case ShowHelp => Help
    case SetAddress(_) => Address
    case WriteValues(_) => Write
    case ReadCells(_) => Read
    case StartProgram => Start
    case ContinueRun(_) => Continue
    case ToggleClock => Clock
    case ToggleRun => Run
    case JumpMicro(_) => MAddress
    case WriteMicro(_) => MWrite
    case ReadMicro(_) => MRead
    case ShowAllDevices => Io
    case ShowDevice(_) => Io
    case SetDeviceData(_, _) => Io
    case SetDeviceFlag(_) => Flag
    case EnterProgram => Asm
    case EnterArguments => Arguments
  }

  /** What the console does with one line. */
  datatype Outcome =
    | Skipped                                  // blank line or comment
    | Unknown                                  // "Unknown command"
    | Ran(cmd: Command)
    | Failed(verb: Verb, error: Error)         // error before any effect
    | Interrupted(cmd: Command, error: Error)  // the values in cmd were written, then error

  /** The verb an outcome belongs to, if the line was recognised at all. */
  function OutcomeVerb(o: Outcome): (v: Option<Verb>)
  {
    match o
    case Skipped => None
    case Unknown => None
    case Ran(c) => Some(VerbOf(c))
    case Failed(v, _) => Some(v)
    case Interrupted(c, _) => Some(VerbOf(c))
  }

  /** A line the loop ignores: no tokens, an empty first token, or a comment. */
  predicate IsBlankOrComment(cmd: seq<string>)
  {
    |cmd| == 0 || cmd[0] == "" || cmd[0][0] == '#'
  }

  /**
   * What the console consults besides the line itself: the assembler's label
   * table and the number of I/O controllers in `ioctrls`.
   */
  datatype Env = Env(labels: map<string, int>, devices: nat)

  /** A device number that indexes `ioctrls` without an exception. */
  predicate IsDevice(d: int, env: Env)
  {
    0 <= d < env.devices
  }

  /** A device command on device `d`, or the index error of `ioctrls[d]`. */
  function OnDevice(verb: Verb, d: int, env: Env, c: Command): (r: Outcome)
    ensures r.Ran? <==> IsDevice(d, env)
    ensures r.Ran? ==> r.cmd == c
    ensures !r.Ran? ==> r == Failed(verb, NoSuchDevice(d))
  {
    if IsDevice(d, env) then Ran(c) else Failed(verb, NoSuchDevice(d))
  }

  /** A command built from one argument, or the error reading it. */
  function WithArgument(verb: Verb, arg: Result<int, Error>, make: int -> Command): (r: Outcome)
    ensures arg.Ok? ==> r == Ran(make(arg.value))
    ensures arg.Err? ==> r == Failed(verb, arg.error)
  {
    match arg
    case Ok(n) => Ran(make(n))
    case Err(e) => Failed(verb, e)
  }

  /** A command built from the values read so far, interrupted if a token failed. */
  function WithValues(vs: Values, make: seq<int> -> Command): (r: Outcome)
    ensures vs.stop.None? ==> r == Ran(make(vs.values))
    ensures vs.stop.Some? ==> r == Interrupted(make(vs.values), vs.stop.value)
  {
    match vs.stop
    case None => Ran(make(vs.values))
    case Some(e) => Interrupted(make(vs.values), e)
  }

  /** The verbs whose only argument is the optional count of `getCountFromCmd`. */
  predicate IsCounted(verb: Verb)
  {
    verb == Read || verb == Continue || verb == MRead
  }

  /** The verbs that take exactly one required value, `getReqValue(cmd)`. */
  predicate TakesOneValue(verb: Verb)
  {
    verb == MAddress || verb == Flag
  }

  /** The verbs that take no argument from the line and cannot fail while parsing it. */
  predicate TakesNoArguments(verb: Verb)
  {
    verb == Help || verb == Start || verb == Clock || verb == Run || verb == Asm || verb == Arguments
  }

  /** The `io` branch: show devices 0 to 3, show one device, or write a value to one. */
  function RunIo(cmd: seq<string>, env: Env): (r: Outcome)
    requires |cmd| >= 1
    ensures OutcomeVerb(r) == Some(Io)
  {
    if |cmd| == 1 then
      // devices 0 to 3 are shown in turn
      if env.devices >= 4 then Ran(ShowAllDevices) else Failed(Io, NoSuchDevice(env.devices))
    else
      match GetReqValue(cmd, 1) {
        case Err(e) => Failed(Io, e)
        case Ok(device) =>
          if |cmd| == 3 then
            match GetReqValue(cmd, 2) {
              case Err(e) => Failed(Io, e)
              case Ok(v) => OnDevice(Io, device, env, SetDeviceData(device, v))
            }
          else OnDevice(Io, device, env, ShowDevice(device))
      }
  }

  /**
   * The branch of the `cli()` loop that `verb` selects: parse its arguments
   * and describe what it does, or the error it reports.
   */
  function RunVerb(verb: Verb, cmd: seq<string>, env: Env): (r: Outcome)
    requires |cmd| >= 1
    ensures OutcomeVerb(r) == Some(verb)
  {
    match verb
    case Help => Ran(ShowHelp)
    case Address =>
      if |cmd| != 2 then Failed(Address, OnlyOneValueRequired)
      else WithArgument(Address, ParseAddress(cmd[1], env.labels), a => SetAddress(a))
    case Write => WithValues(ReqValues(cmd, 1), vs => WriteValues(vs))
    case Read => WithArgument(Read, GetCount(cmd), n => ReadCells(n))
    case Start => Ran(StartProgram)
    case Continue => WithArgument(Continue, GetCount(cmd), n => ContinueRun(n))
    case Clock => Ran(ToggleClock)
    case Run => Ran(ToggleRun)
    case MAddress => WithArgument(MAddress, GetReqValue(cmd, 1), a => JumpMicro(a))
    case MWrite => WithValues(ReqValues(cmd, 1), vs => WriteMicro(vs))
    case MRead => WithArgument(MRead, GetCount(cmd), n => ReadMicro(n))
    case Io => RunIo(cmd, env)
    case Flag =>
      match GetReqValue(cmd, 1) {
        case Err(e) => Failed(Flag, e)
        case Ok(d) => OnDevice(Flag, d, env, SetDeviceFlag(d))
      }
    case Asm => Ran(EnterProgram)
    case Arguments => Ran(EnterArguments)
  }

  /** Commands without arguments ignore the rest of the line and cannot fail. */
  lemma NoArgumentCommands(verb: Verb, cmd: seq<string>, env: Env)
    requires |cmd| >= 1 && TakesNoArguments(verb)
    ensures RunVerb(verb, cmd, env).Ran?
    ensures RunVerb(verb, cmd, env) == RunVerb(verb, cmd[..1], env)
  {
  }

  /** `read`, `continue` and `mread` take the count of `getCountFromCmd`, 1 by default, or fail with its error. */
  lemma CountedCommands(verb: Verb, cmd: seq<string>, env: Env)
    requires |cmd| >= 1 && IsCounted(verb)
    ensures var r := RunVerb(verb, cmd, env);
            && (r.Ran? <==> GetCount(cmd).Ok?)
            && (r.Ran? ==> r.cmd.count == GetCount(cmd).value)
            && (!r.Ran? ==> r == Failed(verb, GetCount(cmd).error))
    ensures |cmd| == 1 ==> RunVerb(verb, cmd, env).Ran? && RunVerb(verb, cmd, env).cmd.count == 1
  {
  }

  /**
   * `maddress` and `flag` need the value after the command word: "Value
   * required" without it. `flag` also needs a device that `ioctrls` has.
   */
  lemma OneValueCommands(verb: Verb, cmd: seq<string>, env: Env)
    requires |cmd| >= 1 && TakesOneValue(verb)
    ensures var r, a := RunVerb(verb, cmd, env), GetReqValue(cmd, 1);
            && (r.Ran? <==> a.Ok? && (verb == Flag ==> IsDevice(a.value, env)))
            && (r.Ran? && verb == MAddress ==> r.cmd == JumpMicro(a.value))
            && (r.Ran? && verb == Flag ==> r.cmd == SetDeviceFlag(a.value))
            && (a.Err? ==> r == Failed(verb, a.error))
            && (verb == Flag && a.Ok? && !IsDevice(a.value, env) ==> r == Failed(Flag, NoSuchDevice(a.value)))
    ensures |cmd| == 1 ==> RunVerb(verb, cmd, env) == Failed(verb, ValueRequired)
  {
  }

  /** `write` and `mwrite` carry the values read before the first token that is not a number. */
  lemma ValueListCommands(verb: Verb, cmd: seq<string>, env: Env)
    requires |cmd| >= 1 && (verb == Write || verb == MWrite)
    ensures var r := RunVerb(verb, cmd, env);
            && (r.Ran? || r.Interrupted?)
            && r.cmd.values == ReqValues(cmd, 1).values
            && (r.Interrupted? <==> ReqValues(cmd, 1).stop.Some?)
            && (r.Interrupted? ==> r.error == ReqValues(cmd, 1).stop.value)
  {
  }

  /**
   * `io` has three shapes: alone it shows devices 0 to 3; with a device number
   * and a value it writes the value to that device; with any other number of
   * tokens it shows the device named by the first one. The tokens are parsed
   * before the device is looked up, and a device `ioctrls` lacks is an error.
   */
  lemma IoShapes(cmd: seq<string>, env: Env)
    requires |cmd| >= 1
    ensures |cmd| == 1 && env.devices >= 4 ==> RunVerb(Io, cmd, env) == Ran(ShowAllDevices)
    ensures |cmd| == 1 && env.devices < 4 ==> RunVerb(Io, cmd, env) == Failed(Io, NoSuchDevice(env.devices))
    ensures |cmd| >= 2 && GetReqValue(cmd, 1).Err? ==>
              RunVerb(Io, cmd, env) == Failed(Io, GetReqValue(cmd, 1).error)
    ensures |cmd| >= 2 && |cmd| != 3 && GetReqValue(cmd, 1).Ok? ==>
              RunVerb(Io, cmd, env) == OnDevice(Io, GetReqValue(cmd, 1).value, env, ShowDevice(GetReqValue(cmd, 1).value))
    ensures |cmd| == 3 && GetReqValue(cmd, 1).Ok? && GetReqValue(cmd, 2).Err? ==>
              RunVerb(Io, cmd, env) == Failed(Io, GetReqValue(cmd, 2).error)
    ensures |cmd| == 3 && GetReqValue(cmd, 1).Ok? && GetReqValue(cmd, 2).Ok? ==>
              RunVerb(Io, cmd, env) ==
                OnDevice(Io, GetReqValue(cmd, 1).value, env,
                         SetDeviceData(GetReqValue(cmd, 1).value, GetReqValue(cmd, 2).value))
  {
  }

  /** The verb the dispatch chain picks for a first token: its `checkCmd` tests in source order. */
  function ChainVerb(tok: string): (r: Option<Verb>)
    ensures |tok| > 9 ==> r.None?
  {
    if CheckCmd(tok, "?") || CheckCmd(tok, "help") then Some(Help)
    else if CheckCmd(tok, "address") then Some(Address)
    else if CheckCmd(tok, "write") then Some(Write)
    else if CheckCmd(tok, "read") then Some(Read)
    else if CheckCmd(tok, "start") then Some(Start)
    else if CheckCmd(tok, "continue") then Some(Continue)
    else if CheckCmd(tok, "clock") then Some(Clock)
    else if CheckCmd(tok, "run") then Some(Run)
    else if CheckCmd(tok, "maddress") then Some(MAddress)
    else if CheckCmd(tok, "mwrite") then Some(MWrite)
    else if CheckCmd(tok, "mread") then Some(MRead)
    else if CheckCmd(tok, "io") then Some(Io)
    else if CheckCmd(tok, "flag") then Some(Flag)
    else if CheckCmd(tok, "asm") || CheckCmd(tok, "assembler") then Some(Asm)
    else if CheckCmd(tok, "arguments") then Some(Arguments)
    else None
  }

  /**
   * The body of the `cli()` loop for one line: skip blanks and comments, run the
   * branch of the first command name that matches, or report an unknown command.
   */
  function Dispatch(cmd: seq<string>, env: Env): (r: Outcome)
    ensures r.Skipped? <==> IsBlankOrComment(cmd)
    ensures !IsBlankOrComment(cmd) ==> OutcomeVerb(r) == ChainVerb(cmd[0])
  {
    if |cmd| == 0 || cmd[0] == "" then Skipped
    else if cmd[0][0] == '#' then Skipped
    else
      match ChainVerb(cmd[0])
      case None => Unknown
      case Some(verb) => RunVerb(verb, cmd, env)
  }

  /** One step of the lookup: try entry `k`, else the entries after it. */
  lemma FirstMatchStep(tok: string, table: seq<(string, Verb)>, k: nat)
    requires k < |table|
    ensures FirstMatch(tok, table[k..]) ==
              if CheckCmd(tok, table[k].0) then Some(table[k].1) else FirstMatch(tok, table[k + 1..])
  {
    assert table[k..][0] == table[k];
    assert table[k..][1..] == table[k + 1..];
  }

  lemma LookupFrom14(tok: string)
    ensures FirstMatch(tok, Spellings[14..]) ==
              if CheckCmd(tok, "asm") || CheckCmd(tok, "assembler") then Some(Asm)
              else if CheckCmd(tok, "arguments") then Some(Arguments)
              else None
  {
    assert Spellings[17..] == [];
    FirstMatchStep(tok, Spellings, 16);
    FirstMatchStep(tok, Spellings, 15);
    FirstMatchStep(tok, Spellings, 14);
  }

  lemma LookupFrom11(tok: string)
    ensures FirstMatch(tok, Spellings[11..]) ==
              if CheckCmd(tok, "mread") then Some(MRead)
              else if CheckCmd(tok, "io") then Some(Io)
              else if CheckCmd(tok, "flag") then Some(Flag)
              else FirstMatch(tok, Spellings[14..])
  {
    FirstMatchStep(tok, Spellings, 13);
    FirstMatchStep(tok, Spellings, 12);
    FirstMatchStep(tok, Spellings, 11);
  }

  lemma LookupFrom8(tok: string)
    ensures FirstMatch(tok, Spellings[8..]) ==
              if CheckCmd(tok, "run") then Some(Run)
              else if CheckCmd(tok, "maddress") then Some(MAddress)
              else if CheckCmd(tok, "mwrite") then Some(MWrite)
              else FirstMatch(tok, Spellings[11..])
  {
    FirstMatchStep(tok, Spellings, 10);
    FirstMatchStep(tok, Spellings, 9);
    FirstMatchStep(tok, Spellings, 8);
  }

  lemma LookupFrom5(tok: string)
    ensures FirstMatch(tok, Spellings[5..]) ==
              if CheckCmd(tok, "start") then Some(Start)
              else if CheckCmd(tok, "continue") then Some(Continue)
              else if CheckCmd(tok, "clock") then Some(Clock)
              else FirstMatch(tok, Spellings[8..])
  {
    FirstMatchStep(tok, Spellings, 7);
    FirstMatchStep(tok, Spellings, 6);
    FirstMatchStep(tok, Spellings, 5);
  }

  lemma LookupFrom2(tok: string)
    ensures FirstMatch(tok, Spellings[2..]) ==
              if CheckCmd(tok, "address") then Some(Address)
              else if CheckCmd(tok, "write") then Some(Write)
              else if CheckCmd(tok, "read") then Some(Read)
              else FirstMatch(tok, Spellings[5..])
  {
    FirstMatchStep(tok, Spellings, 4);
    FirstMatchStep(tok, Spellings, 3);
    FirstMatchStep(tok, Spellings, 2);
  }

  /** The branch order of the chain is the order of `Spellings`. */
  lemma ChainIsFirstMatch(tok: string)
    ensures ChainVerb(tok) == FirstMatch(tok, Spellings)
  {
    FirstMatchStep(tok, Spellings, 1);
    FirstMatchStep(tok, Spellings, 0);
    assert Spellings[0..] == Spellings;
    LookupFrom2(tok);
    LookupFrom5(tok);
    LookupFrom8(tok);
    LookupFrom11(tok);
    LookupFrom14(tok);
  }

  /**
   * The chain is a first-match lookup in `Spellings`: a line is reported as an
   * unknown command exactly when no spelling matches, and otherwise it is
   * handled by the verb of the first spelling that does.
   */
  lemma DispatchFollowsSpellings(cmd: seq<string>, env: Env)
    requires !IsBlankOrComment(cmd)
    ensures OutcomeVerb(Dispatch(cmd, env)) == FirstMatch(cmd[0], Spellings)
    ensures Dispatch(cmd, env) == Unknown <==> FirstMatch(cmd[0], Spellings).None?
  {
    ChainIsFirstMatch(cmd[0]);
  }

  /** The first letter of every command name. */
  lemma FirstLetters()
    ensures "help"[..1] == "h" && "address"[..1] == "a" && "write"[..1] == "w"
    ensures "read"[..1] == "r" && "start"[..1] == "s" && "continue"[..1] == "c"
    ensures "clock"[..1] == "c" && "run"[..1] == "r" && "maddress"[..1] == "m"
    ensures "mwrite"[..1] == "m" && "mread"[..1] == "m" && "io"[..1] == "i"
    ensures "flag"[..1] == "f" && "asm"[..1] == "a" && "assembler"[..1] == "a"
    ensures "arguments"[..1] == "a"
  {
  }

  /** The first two letters of every command name. */
  lemma FirstTwoLetters()
    ensures "help"[..2] == "he" && "address"[..2] == "ad" && "write"[..2] == "wr"
    ensures "read"[..2] == "re" && "start"[..2] == "st" && "continue"[..2] == "co"
    ensures "clock"[..2] == "cl" && "run"[..2] == "ru" && "maddress"[..2] == "ma"
    ensures "mwrite"[..2] == "mw" && "mread"[..2] == "mr" && "io"[..2] == "io"
    ensures "flag"[..2] == "fl" && "asm"[..2] == "as" && "assembler"[..2] == "as"
    ensures "arguments"[..2] == "ar"
  {
  }

  /** One-letter tokens that several names start with: the earliest branch wins. */
  lemma SharedFirstLetters()
    ensures ChainVerb("a") == Some(Address)
    ensures ChainVerb("A") == Some(Address)
    ensures ChainVerb("r") == Some(Read)
    ensures ChainVerb("c") == Some(Continue)
    ensures ChainVerb("m") == Some(MAddress)
  {
    FirstLetters();
  }

  /** One-letter tokens that start a single name early in the chain. */
  lemma UniqueFirstLetters()
    ensures ChainVerb("?") == Some(Help)
    ensures ChainVerb("h") == Some(Help)
    ensures ChainVerb("w") == Some(Write)
    ensures ChainVerb("s") == Some(Start)
  {
    FirstLetters();
  }

  /** One-letter tokens that start a single name late in the chain, and one that starts none. */
  lemma LateFirstLetters()
    ensures ChainVerb("i") == Some(Io)
    ensures ChainVerb("f") == Some(Flag)
  {
    FirstLetters();
  }

  /** No command name starts with `x`. */
  lemma UnknownFirstLetter()
    ensures ChainVerb("x") == None
  {
    FirstLetters();
  }

  /** Two letters reach the commands that a single letter hands to an earlier branch. */
  lemma TwoLetterSpellings()
    ensures ChainVerb("as") == Some(Asm)
  {
    FirstTwoLetters();
  }

  /** Two letters reach the last command, `arguments`, past `address` and `asm`. */
  lemma TwoLetterArgumentsSpelling()
    ensures ChainVerb("ar") == Some(Arguments)
  {
    FirstTwoLetters();
  }

  /** Two letters reach the micro-program commands past `maddress`. */
  lemma TwoLetterMicroSpellings()
    ensures ChainVerb("mw") == Some(MWrite)
    ensures ChainVerb("mr") == Some(MRead)
  {
    FirstTwoLetters();
  }

  /** Two letters reach the clock and the Run/Stop switch past `continue` and `read`. */
  lemma TwoLetterSwitchSpellings()
    ensures ChainVerb("cl") == Some(Clock)
    ensures ChainVerb("ru") == Some(Run)
  {
    FirstTwoLetters();
  }

  /** `address` takes exactly one value: any other count is refused before anything runs. */
  lemma AddressNeedsOneValue(cmd: seq<string>, env: Env)
    requires !IsBlankOrComment(cmd) && ChainVerb(cmd[0]) == Some(Address)
    ensures |cmd| != 2 <==> Dispatch(cmd, env) == Failed(Address, OnlyOneValueRequired)
    ensures |cmd| == 2 && ParseAddress(cmd[1], env.labels).Ok? ==>
              Dispatch(cmd, env) == Ran(SetAddress(ParseAddress(cmd[1], env.labels).value))
    ensures |cmd| == 2 && ParseAddress(cmd[1], env.labels).Err? ==>
              Dispatch(cmd, env) == Failed(Address, ParseAddress(cmd[1], env.labels).error)
  {
  }

  /**
   * `write` stores one value per token after the command word, in order; a token
   * that is not a number stops it after the values before it were stored.
   */
  lemma WriteOnePerToken(cmd: seq<string>, env: Env)
    requires !IsBlankOrComment(cmd) && ChainVerb(cmd[0]) == Some(Write)
    ensures Dispatch(cmd, env).Ran? <==>
              forall k :: 1 <= k < |cmd| ==> Hex.ParseInt(cmd[k]).Some?
    ensures Dispatch(cmd, env).Ran? ==>
              Dispatch(cmd, env).cmd.WriteValues? &&
              |Dispatch(cmd, env).cmd.values| == |cmd| - 1 &&
              forall k :: 1 <= k < |cmd| ==>
                Some(Dispatch(cmd, env).cmd.values[k - 1]) == Hex.ParseInt(cmd[k])
    ensures Dispatch(cmd, env).Interrupted? ==>
              var n := |Dispatch(cmd, env).cmd.values|;
              && n + 1 < |cmd|
              && Dispatch(cmd, env).error == NotANumber(cmd[n + 1])
              && Hex.ParseInt(cmd[n + 1]).None?
              && forall k :: 1 <= k <= n ==> Some(Dispatch(cmd, env).cmd.values[k - 1]) == Hex.ParseInt(cmd[k])
  {
    var vs := ReqValues(cmd, 1);
    forall k | 1 <= k < |cmd| && k - 1 < |vs.values|
      ensures Some(vs.values[k - 1]) == Hex.ParseInt(cmd[k])
    {
      assert GetReqValue(cmd, 1 + (k - 1)) == Ok(vs.values[k - 1]);
    }
    if vs.stop.Some? {
      assert GetReqValue(cmd, 1 + |vs.values|).Err?;
    }
  }

  /** Any register value the console prints is read back unchanged as an argument. */
  lemma PrintedRegisterReadsBack(cmd: seq<string>, index: nat, r: Reg, v: int)
    requires index < |cmd| && 0 <= v < Capacity(r) && cmd[index] == RegText(r, v)
    ensures GetReqValue(cmd, index) == Ok(v)
  {
    RegTextExactWidth(r, v);
  }
}
