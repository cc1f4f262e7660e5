# Basic Computer emulator: run-state scheduler and console front end

This project models two pieces of sequential logic from the Basic Computer
("БЭВМ") teaching-machine emulator and proves properties about them in Dafny 4.11.

* **`Machine`** (`machine.dfy`, from `source/Machine/Machine.java`) covers the
  scheduler that runs the emulated computer. It has three run states
  (`STOPPED`, `RUNNING`, `STOPPING`). The worker's inner loop is written as a
  recursive function over a trace of micro-steps. Each entry in the trace holds
  three things: the word left in the micro-command register after the step,
  whether the console asked for a stop while the step ran, and the tact switch
  as read after the step. The loop exits after a step in three cases: tact
  mode is on at that moment, a stop was requested, or the word is a halt
  marker. A halt marker has control field `01` in bits 15..14 and bit 3
  set. The module also covers the console keys Start, Address, Read and Write.
  Each one either jumps to a fixed micro-entry and resumes, or, in micro-work
  mode, directly patches MIP and the microcode store. The Run/Stop switch is
  modelled too.
* **`Cli`** (`cli.dfy`, from `src/ru/ifmo/cs/bcomp/ui/CLI.java`) covers the
  console's command parser. It models abbreviation matching (`checkCmd`), the
  first-match chain of command names, argument extraction (`getReqValue`,
  `getCountFromCmd`, `parseAddress` against an abstract label table), the
  register column widths, and hex formatting.
* **`Hex`** (`hex.dfy`) models Java's `Integer.parseInt(s, 16)` and
  `String.format("%0Nx", v).toUpperCase()` over 32-bit `int`.
* **`Text`** (`text.dfy`) models `toUpperCase` and `equalsIgnoreCase` on ASCII.
* **`Options`** (`options.dfy`) holds `Option` and `Result`.

A stop request is observed only after a micro-step, when the loop tests
whether to exit (`Machine.java:66-71`). So a request made after the worker
has entered `RUNNING` (`Machine.java:65`) but before the first step still lets
that step run, and ends the pass right after it. A request made while the
state is still `STOPPED` is ignored (`Machine.java:113-114`): it is not
recorded, and the next pass runs to its own end. `RequestStop` and
`AtLeastOneStep` state this.

External inputs are parameters:
* the micro-command words produced by `timeStep`, and the moments stop requests
  arrive, form the `Tick` trace;
* `ctrl.getTact()` is read after every step and is part of each `Tick`;
* `ctrl.microWork()` is a boolean;
* the assembler's label table (a `map<string, int>`) and the number of I/O
  controllers in `ioctrls` form the console's `Env`;
* the MIP that the worker leaves when it stops is an argument of `StopAndWait`.

## Model

| member | source | states |
|---|---|---|
| `Machine.IsHaltMarker` | source/Machine/Machine.java:75 | The halt test after a run-mode step, written as the source's own mask expression over Java's bitwise `&`. `HaltMarkerFields` gives its meaning. |
| `Machine.HaltMarkerFields` | source/Machine/Machine.java:73-76 | The mask test `(w & 0xC000) == 0x4000 && (w & 0x8) == 0x8` holds exactly when the control field (bits 15..14) is `01` and bit 3 is 1, for every 16-bit word. |
| `Machine.ControlMask` | source/Machine/Machine.java:75 | `w & 0xC000` is the control field kept in place: 0x4000 times bits 15..14. |
| `Machine.HaltBitMask` | source/Machine/Machine.java:75 | `w & 0x8` is 8 times bit 3 of `w`. |
| `Machine.AndShifted` | source/Machine/Machine.java:75 | Java's `&` with a mask shifted left by k sees only the bits of the other operand at or above k. |
| `Machine.RequestStop` | source/Machine/Machine.java:111-119 | The stop request never yields `RUNNING`, and it yields `STOPPED` exactly when the state was `STOPPED`. |
| `Machine.RequestStopIdempotent` | source/Machine/Machine.java:113-118 | `RUNNING` becomes `STOPPING`, `STOPPING` stays `STOPPING`, and repeating the request changes nothing. |
| `Machine.Breaks` | source/Machine/Machine.java:70-76 | The exit test after a step: tact on, a stop request, or a halt marker. `InnerLoop`, `AtLeastOneStep` and `RunsToFirstHaltMarker` state what the loop does with it. |
| `Machine.InnerLoop` | source/Machine/Machine.java:65-81 | The loop exits exactly when some step meets a stop condition: tact on, a stop request, or a halt marker. It exits after the first such step, which is at least step 1, and no earlier step met a condition. The exit state is never `STOPPED`, and it is `STOPPING` exactly when a stop was requested during the last step. |
| `Machine.WorkerPass` | source/Machine/Machine.java:56-90 | A completed pass ends in `STOPPED` and has the inner loop's step count. It signals the waiting console exactly when the last step saw a stop request. |
| `Machine.AtLeastOneStep` | source/Machine/Machine.java:65-71 | A stop requested during the first step ends the pass after exactly that step, in `STOPPING`. A pass whose first step meets no stop condition goes on to a second step. |
| `Machine.TactRunsOneStep` | source/Machine/Machine.java:70-71 | The tact switch is read after every step. When it is found on after step k+1, the pass ends no later than that step, and exactly then if no earlier step ended it. A pass that starts in tact mode performs exactly one step. |
| `Machine.RunsToFirstHaltMarker` | source/Machine/Machine.java:66-76 | With tact off and no stop request at every step, the loop exits after step k exactly when step k leaves the first halt marker. It never exits while there is no halt marker. |
| `Machine.SignalOnlyOnStopRequest` | source/Machine/Machine.java:83-89 | The worker notifies the console only when its inner loop left in `STOPPING`. |
| `Machine.Resume` | source/Machine/Machine.java:96-106 | Resume moves `STOPPED` to `RUNNING` and leaves everything else alone. In any other state it changes nothing. |
| `Machine.ResumeIdempotent` | source/Machine/Machine.java:96-99 | Resuming twice is the same as resuming once. MIP and the microcode store are never touched. |
| `Machine.StopAndWait` | source/Machine/Machine.java:111-126 | When the stop call returns, the machine is `STOPPED`. A machine that was already stopped is unchanged. Otherwise the worker may finish one more micro-step first, so MIP is the one that step left (`mipAfter`), and the microcode store and inputs are unchanged. |
| `Machine.StartFrom` | source/Machine/Machine.java:131-136 | `startfrom(a)` leaves MIP equal to `a` and the machine `RUNNING`. Nothing else changes. |
| `Machine.StartFromForgetsStopPoint` | source/Machine/Machine.java:131-136 | `startfrom` gives the same machine whatever MIP the worker stopped at, because it overwrites MIP before resuming. |
| `Machine.ConsoleAction` | source/Machine/Machine.java:141-177 | Start and Read always start their routine. Address and Write start theirs except in micro-work mode. In micro-work mode, Address sets MIP to the key register. Write stores the key register at MIP, advances MIP by one, and leaves other cells alone. Neither fast path touches the run state. |
| `Machine.ConsoleEntries` | source/Machine/Machine.java:141-176 | The entries are Start 0xA8, Address 0x99, Read 0x9C and Write 0xA1. Starting a routine leaves the machine `RUNNING` with the microcode store unchanged. |
| `Machine.EntriesDistinct` | source/Machine/Machine.java:143-176 | The four keys enter four different micro-addresses. |
| `Machine.MicroWritesFillCells` | source/Machine/Machine.java:169-174 | Successive micro-work writes fill consecutive cells from the starting MIP, in order. They leave MIP just past the last cell and leave other cells and the run state unchanged. |
| `Machine.AddressThenWrite` | source/Machine/Machine.java:149-174 | In micro-work mode, Address with key `a` followed by Write with key `v` stores `v` at `a` and leaves MIP at `a + 1`. |
| `Machine.WorkStop` | source/Machine/Machine.java:182-194 | The toggle sets the flag to 1 exactly when it was 0, and otherwise to 0. It always refreshes the state counter once and changes nothing else. |
| `Machine.WorkStopTwice` | source/Machine/Machine.java:184-192 | Toggling twice restores the flag exactly when it held 0 or 1. |
| `Text.UpperCase` | src/ru/ifmo/cs/bcomp/ui/CLI.java:225 | On ASCII, in a locale without special casing, `toUpperCase` keeps the length and maps every character to its upper-case form, position by position. |
| `Text.EqualsIgnoreCase` | src/ru/ifmo/cs/bcomp/ui/CLI.java:176 | Strings that are case-blind equal have equal lengths, and every string is case-blind equal to itself. |
| `Text.EqualsIgnoreCaseCharwise` | src/ru/ifmo/cs/bcomp/ui/CLI.java:176 | `equalsIgnoreCase` holds exactly when the lengths agree and every position matches ignoring case. |
| `Text.SameIgnoringCaseIsUpperEquality` | src/ru/ifmo/cs/bcomp/ui/CLI.java:176 | The per-character case-blind test is equality of upper-case forms. |
| `Cli.CheckCmd` | src/ru/ifmo/cs/bcomp/ui/CLI.java:175-177 | A token matches a name only if it is no longer than the name. |
| `Cli.CheckCmdIsAbbreviation` | src/ru/ifmo/cs/bcomp/ui/CLI.java:175-177 | `checkCmd(tok, name)` holds exactly when `tok` is no longer than `name` and matches its first characters, ignoring case. |
| `Cli.MatchOnlyByPrefix` | src/ru/ifmo/cs/bcomp/ui/CLI.java:175-177 | A token longer than the name never matches. A matching non-empty token starts with the name's first letter, and every case-blind prefix matches. |
| `Cli.FirstMatchIsFirst` | src/ru/ifmo/cs/bcomp/ui/CLI.java:256-416 | The table lookup finds nothing exactly when no spelling matches. Otherwise it returns the verb of a matching spelling, and no earlier spelling matches. |
| `Cli.ChainIsFirstMatch` | src/ru/ifmo/cs/bcomp/ui/CLI.java:256-416 | The `checkCmd` chain in source order picks the same verb as the first-match lookup in the ordered spelling table. |
| `Cli.ChainVerb` | src/ru/ifmo/cs/bcomp/ui/CLI.java:256-416 | A token longer than every command name (nine letters) selects no command. |
| `Cli.IsBlankOrComment` | src/ru/ifmo/cs/bcomp/ui/CLI.java:250-254 | The lines the loop skips: no tokens, an empty first token, or a first token starting with `#`. `Dispatch` states that exactly these are skipped. |
| `Cli.Dispatch` | src/ru/ifmo/cs/bcomp/ui/CLI.java:248-422 | A line is skipped exactly when it has no tokens, an empty first token, or a first token starting with `#`. Otherwise it is handled under the verb the chain picks. |
| `Cli.RunVerb` | src/ru/ifmo/cs/bcomp/ui/CLI.java:262-416 | Each branch's outcome, whether success, error or interruption, belongs to the branch's own verb. The argument handling of each branch is stated by the five lemmas below. |
| `Cli.NoArgumentCommands` | src/ru/ifmo/cs/bcomp/ui/CLI.java:256-416 | help, start, clock, run, asm and arguments always run, and ignore every token after the command word. |
| `Cli.CountedCommands` | src/ru/ifmo/cs/bcomp/ui/CLI.java:281-348 | read, continue and mread run exactly when `getCountFromCmd` succeeds, and carry its count, which is 1 on a line with no argument. Otherwise they fail with its error. |
| `Cli.OneValueCommands` | src/ru/ifmo/cs/bcomp/ui/CLI.java:317-375 | maddress runs exactly when the token after the command word parses, and carries its value. flag runs exactly when that token parses to a device `ioctrls` has, and carries the device. An unparsable token fails with its error, which is "Value required" when the line has no second token. A flag on a device `ioctrls` lacks fails with an index error naming the device. |
| `Cli.ValueListCommands` | src/ru/ifmo/cs/bcomp/ui/CLI.java:272-336 | write and mwrite carry the values read before the first token that is not a number. They are interrupted with that token's error exactly when there is one. |
| `Cli.OnDevice` | src/ru/ifmo/cs/bcomp/ui/CLI.java:362-373 | A device command runs exactly when its device indexes `ioctrls`. Otherwise it fails with an index error naming the device. |
| `Cli.RunIo` | src/ru/ifmo/cs/bcomp/ui/CLI.java:350-368 | Every outcome of the `io` branch, whether success or error, is reported under `io`. |
| `Cli.IoShapes` | src/ru/ifmo/cs/bcomp/ui/CLI.java:350-368 | io alone shows devices 0 to 3, and fails on the first of them that `ioctrls` lacks. With three tokens it writes the second value to the device named by the first. With any other count it shows that one device. An unparsable device number or value is reported as that token's error. Both tokens are parsed before the device is looked up, and a device `ioctrls` lacks is an index error naming it. |
| `Cli.DispatchFollowsSpellings` | src/ru/ifmo/cs/bcomp/ui/CLI.java:256-422 | A line reports "Unknown command" exactly when no spelling matches. Otherwise it is handled by the first matching spelling's verb. |
| `Cli.SharedFirstLetters` | src/ru/ifmo/cs/bcomp/ui/CLI.java:262-338 | `a` and `A` give address, `r` gives read, `c` gives continue and `m` gives maddress, because the earlier branch wins. |
| `Cli.UniqueFirstLetters` | src/ru/ifmo/cs/bcomp/ui/CLI.java:256-297 | `?` and `h` give help, `w` gives write and `s` gives start. |
| `Cli.LateFirstLetters` | src/ru/ifmo/cs/bcomp/ui/CLI.java:350-375 | `i` gives io and `f` gives flag. |
| `Cli.UnknownFirstLetter` | src/ru/ifmo/cs/bcomp/ui/CLI.java:256-422 | `x` matches no command. |
| `Cli.TwoLetterSpellings` | src/ru/ifmo/cs/bcomp/ui/CLI.java:377-378 | `as` gives asm, past address. |
| `Cli.TwoLetterArgumentsSpelling` | src/ru/ifmo/cs/bcomp/ui/CLI.java:377-416 | `ar` gives arguments, past address and asm. |
| `Cli.TwoLetterMicroSpellings` | src/ru/ifmo/cs/bcomp/ui/CLI.java:317-348 | `mw` gives mwrite and `mr` gives mread, past maddress. |
| `Cli.TwoLetterSwitchSpellings` | src/ru/ifmo/cs/bcomp/ui/CLI.java:299-315 | `cl` gives clock, past continue, and `ru` gives run, past read. |
| `Cli.GetReqValue` | src/ru/ifmo/cs/bcomp/ui/CLI.java:179-184 | "Value required" exactly when the index is past the last token. Otherwise the result is the token's base-16 value, or a number-format error naming the token. |
| `Cli.GetCount` | src/ru/ifmo/cs/bcomp/ui/CLI.java:190-195 | The count is 1 when there is no second token. Otherwise it is the hex value of the second token, or that token's error. |
| `Cli.ParseAddress` | src/ru/ifmo/cs/bcomp/ui/CLI.java:221-227 | A token that parses as hex is that number, even if a label has the same name. Otherwise the result is the upper-cased token's label address, or an undefined-label error. |
| `Cli.ReqValues` | src/ru/ifmo/cs/bcomp/ui/CLI.java:273-277 | Tokens are read in order, and each value read is the value of its token. The run covers every token unless it stops at the first token that is not a number. |
| `Cli.AddressNeedsOneValue` | src/ru/ifmo/cs/bcomp/ui/CLI.java:262-270 | `address` fails with "Only one value required" exactly when the line does not have two tokens. Otherwise it sets the address that `parseAddress` gives, or fails with `parseAddress`'s error. |
| `Cli.WriteOnePerToken` | src/ru/ifmo/cs/bcomp/ui/CLI.java:272-279 | `write` completes exactly when every value token parses, with one value per token in order. Otherwise it stops at the first bad token, after storing the values before it. |
| `Cli.RegWidth` | src/ru/ifmo/cs/bcomp/ui/CLI.java:42-76 | Every register has a column of two to five hex digits. |
| `Cli.RegText` | src/ru/ifmo/cs/bcomp/ui/CLI.java:82-84 | A register's text is at least its column width and holds hex digits whose value is the register's 32-bit pattern. |
| `Cli.RegTextExactWidth` | src/ru/ifmo/cs/bcomp/ui/CLI.java:42-84 | Each register's column width is the number of hex digits of its capacity. Every value the register can hold prints in exactly that width and parses back to itself. |
| `Cli.PrintedRegisterReadsBack` | src/ru/ifmo/cs/bcomp/ui/CLI.java:179-184 | A register value printed by the console and given back as an argument reads as the same value. |
| `Hex.ToHex` | src/ru/ifmo/cs/bcomp/ui/CLI.java:79 | `%x` digits are lower-case hex with no leading zero, and their value is the number. |
| `Hex.Formatted` | src/ru/ifmo/cs/bcomp/ui/CLI.java:78-80 | `getFormatted`: zero-padded `%x` of the value, upper-cased. `FormattedShape`, `FormattedRoundTrip` and `FormattedNegativeUnreadable` state its meaning. |
| `Hex.FormattedShape` | src/ru/ifmo/cs/bcomp/ui/CLI.java:78-80 | The output is upper-case hex of the 32-bit pattern, left-padded with zeros to at least the width. The full digit string ends the output, so nothing is truncated, and the value is preserved. |
| `Hex.ValueOfZeroPadded` | src/ru/ifmo/cs/bcomp/ui/CLI.java:79 | Zero padding does not change the value of a hex string. |
| `Hex.ValueOfUpperCase` | src/ru/ifmo/cs/bcomp/ui/CLI.java:79 | `toUpperCase` does not change the value of a hex string. |
| `Hex.ToHexLength` | src/ru/ifmo/cs/bcomp/ui/CLI.java:78-80 | A value below 16^n prints in at most n digits. |
| `Hex.ParseInt` | src/ru/ifmo/cs/bcomp/ui/CLI.java:183 | A successful parse always yields a value in the 32-bit `int` range. |
| `Hex.ParseNegative` | src/ru/ifmo/cs/bcomp/ui/CLI.java:183 | `-` followed by hex digits parses to the negated value exactly when the magnitude is at most 0x80000000. A lone `-`, or one followed by anything but digits, is rejected. |
| `Hex.ParsePositive` | src/ru/ifmo/cs/bcomp/ui/CLI.java:183 | `+` followed by hex digits parses to the value exactly when it is at most 0x7FFFFFFF. A lone `+`, or one followed by anything but digits, is rejected. |
| `Hex.ParseDigits` | src/ru/ifmo/cs/bcomp/ui/CLI.java:183 | An unsigned digit string parses exactly when its value fits an `int`, and it parses to that value. |
| `Hex.ParseRejectsForeign` | src/ru/ifmo/cs/bcomp/ui/CLI.java:183 | A token with any character that is neither a sign nor a hex digit is a number-format error. |
| `Hex.FormattedRoundTrip` | src/ru/ifmo/cs/bcomp/ui/CLI.java:78-80 | Parsing the formatted text of a non-negative `int` gives the same value back. |
| `Hex.FormattedNegativeUnreadable` | src/ru/ifmo/cs/bcomp/ui/CLI.java:78-80 | The formatted text of a negative `int` is its 32-bit pattern, which `parseInt` rejects. |

## Left out

- Threads and synchronisation are not modelled: the worker thread, `wait`/`notifyAll`, `synchronized`, `volatile` and the 10 ms pacing sleep. The model is sequential. Stop requests arrive only between a micro-step and the exit test that follows it.
- `StopAndWait` assumes the worker has reached `STOPPED` again before the console goes on. The extra micro-step the worker may take before it sees the request shows up only as `mipAfter`. Its effects on the registers and memories outside `Console` are not modelled. Thread orderings in which `continuebasepc` still sees `STOPPING`, or in which a notification is missed, are not represented.
- `timeStep`, the register bank, the memories, the ALU, the channels and the flags are not part of this model. Their effect on the worker is the `Tick` trace. `ctrl.repaint()` has no functional content and is left out.
- ConsoleAction: register masking is not modelled. The register factory is not part of this model, so MIP + 1 is not wrapped to 8 bits, and the microcode store is a map keyed by the unmasked MIP.
- WorkStop: `refreshStateCounter` is not part of this model. The model only counts how many times it is called.
- InnerLoop: the trace is finite, and each step's tact reading is an input. A run that never meets a stop condition within the trace is reported as `Unfinished`, not as divergence.
- The console's line reading and the regular-expression split of a line into tokens are not modelled. `Dispatch` starts from the token sequence.
- The effects of each command on the live CPU, the I/O controllers and the assembler are not modelled. This covers `cont`, `jump`, `setRegKey`, `setMicroMemory`, device data and flags, the written-address list, the compiling of programs, and the reading of argument lines. The model stops at the recognised command, its arguments and, for `io` and `flag`, the device lookup in `ioctrls`.
- Printed messages, help text and register tables are left out.
- Text.UpperCase: ASCII only. Java's `toUpperCase()` uses the default locale, so under a Turkish or Azeri locale `i` becomes `İ` and `parseAddress("init")` looks up `İNİT`, not `INIT`. Full Unicode mappings that change the length, such as `ß` to `SS`, are not modelled either.
- Cli.OneValueCommands: the address given to `maddress` is not range-checked against the microcode store. The CPU that would reject it is not part of this model.
- Text.EqualsIgnoreCaseCharwise: case folding is ASCII only. Java's Unicode upper/lower-case mappings are not modelled.
- Hex.ParseInt: only ASCII digits and the letters `a`-`f` and `A`-`F` are accepted. Java's `Character.digit` also accepts other Unicode decimal digits and the fullwidth Latin letters U+FF21-FF26 and U+FF41-FF46.
- Hex.FormattedShape: requires a positive width. Every caller passes 2 to 5, and a zero or missing width is a format error in Java.
- Cli.RegTextExactWidth: the register bit widths behind `Capacity` (16, 20, 12 and 8 bits) come from the emulator's data model, not from this file. The register factory that applies them is not part of this model.
- The concrete-spelling lemmas (`SharedFirstLetters` and the others) state the chain's choice through `ChainVerb`. `ChainIsFirstMatch` carries those choices over to the spelling table.
