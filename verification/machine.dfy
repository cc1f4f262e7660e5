/**
 * The run-state scheduler and console actions of the Basic Computer emulator
 * (`Machine.java`), written sequentially: the worker thread's inner loop is a
 * function over the micro-command words its steps leave behind, and each
 * console action is a function from machine state to machine state.
 */
module Machine {
  import opened Options

  /** A 16-bit word as held by the micro-command register. */
  type Word = w: int | 0 <= w < 0x1_0000

  /** `RUNSTATES`: the scheduler's three states. */
  datatype RunState = Stopped | Running | Stopping

  // ---------------------------------------------------------------------------
  // Decoding the halt marker

  function Pow2(k: nat): (p: nat)
    ensures p >= 1
  {
    if k == 0 then 1 else 2 * Pow2(k - 1)
  }

  /** Java's bitwise `&` on non-negative `int`s, one bit at a time from the bottom. */
  function And(a: nat, b: nat): (c: nat)
    decreases a
  {
    if a == 0 || b == 0 then 0
    else 2 * And(a / 2, b / 2) + (if a % 2 == 1 && b % 2 == 1 then 1 else 0)
  }

  /**
   * The test after each step in run mode: control field `01` in bits 15..14 and
   * bit 3 set mark the end of a micro-routine.
   */
  predicate IsHaltMarker(w: Word)
  {
    And(w, 0xC000) == 0x4000 && And(w, 0x8) == 0x8
  }

  /** The control-transfer field: the two most significant bits of the word. */
  function ControlField(w: Word): (f: nat)
    ensures f < 4
  {
    w / 0x4000
  }

  /** Bit `k` of `w`, counting from the least significant bit. */
  function Bit(w: nat, k: nat): (b: nat)
    ensures b < 2
  {
    (w / Pow2(k)) % 2
  }

  lemma AndDouble(a: nat, b: nat)
    ensures And(a, 2 * b) == 2 * And(a / 2, b)
  {
    var b2 := 2 * b;
    assert b2 / 2 == b && b2 % 2 == 0;
    if a != 0 && b != 0 {
      assert And(a, b2) == 2 * And(a / 2, b2 / 2);
    }
  }

  lemma AndOne(a: nat)
    ensures And(a, 1) == a % 2
  {
  }

  lemma AndThree(a: nat)
    ensures And(a, 3) == a % 4
  {
    if a != 0 {
      var h := a / 2;
      AndOne(h);
      assert And(a, 3) == 2 * (h % 2) + a % 2;
      assert a == 4 * (h / 2) + 2 * (h % 2) + a % 2;
    }
  }

  /** Doubling one factor doubles the product. */
  lemma DoubleTimes(p: int, x: int)
    ensures (2 * p) * x == 2 * (p * x)
  {
  }

  /** Halving `2^k * q + r` with `r < 2^k` halves the power and the remainder. */
  lemma HalveSplit(q: nat, r: nat, b: nat, k: nat)
    requires k > 0 && r < Pow2(k)
    ensures Pow2(k) * q + r == 2 * (Pow2(k - 1) * q) + r
    ensures (Pow2(k) * q + r) / 2 == Pow2(k - 1) * q + r / 2
    ensures r / 2 < Pow2(k - 1)
    ensures b * Pow2(k) == 2 * (b * Pow2(k - 1))
  {
  }

  /**
   * Masking with `b` shifted left by `k` sees only the part of `a` above bit `k`:
   * for `a == 2^k * q + r` with `r < 2^k`, the result is `2^k * (q & b)`.
   */
  lemma {:induction false} AndShifted(q: nat, r: nat, b: nat, k: nat)
    requires r < Pow2(k)
    ensures And(Pow2(k) * q + r, b * Pow2(k)) == Pow2(k) * And(q, b)
    decreases k
  {
    if k > 0 {
      var p := Pow2(k - 1);
      var a := Pow2(k) * q + r;
      var bp := b * p;
      HalveSplit(q, r, b, k);
      AndDouble(a, bp);
      assert And(a, b * Pow2(k)) == 2 * And(p * q + r / 2, bp);
      AndShifted(q, r / 2, b, k - 1);
      assert And(p * q + r / 2, bp) == p * And(q, b);
      var x := And(q, b);
      DoubleTimes(p, x);
      assert Pow2(k) == 2 * p;
      assert Pow2(k) * x == 2 * (p * x);
    } else {
      assert Pow2(k) == 1 && r == 0;
      assert Pow2(k) * q + r == q;
      assert b * Pow2(k) == b;
    }
  }

  /** The mask test of the worker loop is exactly "control field 01 and bit 3 set". */
  lemma HaltMarkerFields(w: Word)
    ensures IsHaltMarker(w) <==> ControlField(w) == 1 && Bit(w, 3) == 1
  {
    ControlMask(w);
    HaltBitMask(w);
  }

  /** `w & 0xC000` keeps exactly the control field, in place. */
  lemma ControlMask(w: Word)
    ensures And(w, 0xC000) == 0x4000 * ControlField(w)
  {
    var q, r := w / 0x4000, w % 0x4000;
    assert Pow2(14) == 0x4000;
    assert w == Pow2(14) * q + r && 0xC000 == 3 * Pow2(14);
    AndShifted(q, r, 3, 14);
    AndThree(q);
  }

  /** `w & 0x8` keeps exactly bit 3, in place. */
  lemma HaltBitMask(w: Word)
    ensures And(w, 0x8) == 8 * Bit(w, 3)
  {
    var q, r := w / 8, w % 8;
    assert Pow2(3) == 8;
    assert w == Pow2(3) * q + r && 8 == 1 * Pow2(3);
    AndShifted(q, r, 1, 3);
    AndOne(q);
  }

  // ---------------------------------------------------------------------------
  // The worker loop

  /**
   * What the worker sees after one micro-step: the word then in the
   * micro-command register, whether the console asked for a stop while the
   * step ran, and the tact switch as `ctrl.getTact()` reads it after the step.
   */
  datatype Tick = Tick(word: Word, stopRequested: bool, tact: bool)

  /** `stopbasepc`'s guarded transition: only a running machine is told to stop. */
  function RequestStop(s: RunState): (r: RunState)
    ensures r != Running
    ensures r == Stopped <==> s == Stopped
  {
    if s == Stopped then s
    else if s == Running then Stopping
    else s
  }

  /** The loop's exit test after a step, read as "any of" its three conditions. */
  predicate Breaks(t: Tick)
  {
    t.tact || t.stopRequested || IsHaltMarker(t.word)
  }

  /** How the inner loop ends: after `steps` micro-steps in state `state`, or not within the trace. */
  datatype LoopExit = Exit(steps: nat, state: RunState) | Unfinished

  /**
   * The inner `for (;;)` of the worker: step, then break in tact mode, on a
   * pending stop request, or on a halt marker. The state at the top of every
   * iteration is `Running`, the value the worker stored before entering.
   */
  function InnerLoop(trace: seq<Tick>): (r: LoopExit)
    ensures r.Exit? <==> exists i :: 0 <= i < |trace| && Breaks(trace[i])
    ensures r.Exit? ==> 1 <= r.steps <= |trace|
    ensures r.Exit? ==> Breaks(trace[r.steps - 1])
    ensures r.Exit? ==> forall j :: 0 <= j < r.steps - 1 ==> !Breaks(trace[j])
    ensures r.Exit? ==> r.state != Stopped
    ensures r.Exit? ==> (r.state == Stopping <==> trace[r.steps - 1].stopRequested)
    decreases |trace|
  {
    if |trace| == 0 then Unfinished
    else
      var state := if trace[0].stopRequested then RequestStop(Running) else Running;
      if trace[0].tact || state != Running then Exit(1, state)
      else if IsHaltMarker(trace[0].word) then Exit(1, state)
      else
        match InnerLoop(trace[1..])
        case Unfinished =>
          assert forall i :: 1 <= i < |trace| ==> trace[i] == trace[1..][i - 1];
          Unfinished
        case Exit(n, s) =>
          assert forall i :: 1 <= i < |trace| ==> trace[i] == trace[1..][i - 1];
          Exit(n + 1, s)
  }

  /** One pass of the worker's outer loop once it has been woken. */
  datatype Pass = Pass(steps: nat, signalled: bool, state: RunState)

  /**
   * From the wake-up to the next wait: enter `Running`, run the inner loop,
   * signal the waiting console only when the loop left in `Stopping`, then
   * return to `Stopped`.
   */
  function WorkerPass(trace: seq<Tick>): (r: Option<Pass>)
    ensures r.Some? <==> InnerLoop(trace).Exit?
    ensures r.Some? ==> r.value.state == Stopped
    ensures r.Some? ==> r.value.steps == InnerLoop(trace).steps
    ensures r.Some? ==> (r.value.signalled <==> trace[r.value.steps - 1].stopRequested)
  {
    match InnerLoop(trace)
    case Unfinished => None
    case Exit(n, s) => Some(Pass(n, s == Stopping, Stopped))
  }

  /**
   * The exit test comes after the step: a stop requested once the pass has
   * entered `Running` still lets the first step run, and ends the pass right
   * after it; a first step that meets no stop condition is followed by another.
   */
  lemma AtLeastOneStep(trace: seq<Tick>)
    requires |trace| > 0
    ensures trace[0].stopRequested ==> InnerLoop(trace) == Exit(1, Stopping)
    ensures !Breaks(trace[0]) && InnerLoop(trace).Exit? ==> InnerLoop(trace).steps >= 2
  {
  }

  /**
   * The tact switch is read after every step: whenever it is found on, the
   * pass ends after that step unless an earlier step already ended it. In
   * particular a pass that starts in tact mode performs exactly one step.
   */
  lemma TactRunsOneStep(trace: seq<Tick>, k: nat)
    requires k < |trace| && trace[k].tact
    ensures InnerLoop(trace).Exit? && InnerLoop(trace).steps <= k + 1
    ensures (forall j :: 0 <= j < k ==> !Breaks(trace[j])) ==> InnerLoop(trace).steps == k + 1
    ensures k == 0 ==> InnerLoop(trace).steps == 1
  {
    assert Breaks(trace[k]);
  }

  /**
   * Run mode without a stop request (the tact switch off at every step): the
   * loop stops right after the first step that leaves a halt marker, and runs
   * on while there is none.
   */
  lemma RunsToFirstHaltMarker(trace: seq<Tick>, k: nat)
    requires forall i :: 0 <= i < |trace| ==> !trace[i].stopRequested && !trace[i].tact
    ensures InnerLoop(trace) == Exit(k, Running) <==>
              && 1 <= k <= |trace|
              && IsHaltMarker(trace[k - 1].word)
              && forall j :: 0 <= j < k - 1 ==> !IsHaltMarker(trace[j].word)
    ensures InnerLoop(trace) == Unfinished <==>
              forall i :: 0 <= i < |trace| ==> !IsHaltMarker(trace[i].word)
  {
    var r := InnerLoop(trace);
    if 1 <= k <= |trace| && IsHaltMarker(trace[k - 1].word)
       && (forall j :: 0 <= j < k - 1 ==> !IsHaltMarker(trace[j].word)) {
      assert Breaks(trace[k - 1]);
      assert IsHaltMarker(trace[r.steps - 1].word);
    }
  }

  /** The console is signalled exactly when the pass was ended by a stop request. */
  lemma SignalOnlyOnStopRequest(trace: seq<Tick>)
    requires WorkerPass(trace).Some?
    ensures WorkerPass(trace).value.signalled <==> InnerLoop(trace).state == Stopping
  {
  }

  // ---------------------------------------------------------------------------
  // Console actions

  /**
   * The part of the emulated computer the console actions touch. `mip` is the
   * micro-instruction pointer, `microMem` the microcode store, `input` the
   * console key register, `tumbler` the Run/Stop switch flag and `refreshes`
   * the number of times the state counter was refreshed.
   */
  datatype Console = Console(
    state: RunState,
    mip: int,
    microMem: map<int, int>,
    input: int,
    tumbler: int,
    refreshes: nat)

  /** `continuebasepc`: wake the worker, which enters `Running`; ignored unless stopped. */
  function Resume(m: Console): (r: Console)
    ensures m.state == Stopped ==> r == m.(state := Running)
    ensures m.state != Stopped ==> r == m
  {
    if m.state != Stopped then m else m.(state := Running)
  }

  /**
   * `stopbasepc` once it returns: a stopped machine is left alone; otherwise the
   * request moves the state to `Stopping` and the caller waits until the worker
   * has seen it, signalled, and gone back to `Stopped` (see `WorkerPass`).
   * The worker may take one more micro-step before it sees the request, so the
   * MIP it leaves behind, `mipAfter`, is an input.
   */
  function StopAndWait(m: Console, mipAfter: int): (r: Console)
    ensures r.state == Stopped
    ensures m.state == Stopped ==> r == m
    ensures m.state != Stopped ==> r == m.(state := Stopped, mip := mipAfter)
  {
    if RequestStop(m.state) == Stopped then m
    else m.(state := Stopped, mip := mipAfter)
  }

  /**
   * `startfrom(addr)`: stop, set MIP to `addr`, resume. The MIP the stopped
   * worker leaves behind is overwritten at once, so it is taken to be `addr`.
   */
  function StartFrom(m: Console, addr: int): (r: Console)
    ensures r.state == Running && r.mip == addr
    ensures r.(state := m.state, mip := m.mip) == m
  {
    Resume(StopAndWait(m, addr).(mip := addr))
  }

  /** Whatever MIP the worker stops at, `startfrom` ends in the same machine. */
  lemma StartFromForgetsStopPoint(m: Console, addr: int, mipAfter: int)
    ensures Resume(StopAndWait(m, mipAfter).(mip := addr)) == StartFrom(m, addr)
  {
  }

  /** The console keys that start a micro-routine. */
  datatype Action = Start | Address | Read | Write

  /** The micro-entry address each console key jumps to outside micro-work mode. */
  function Entry(a: Action): (addr: int)
    ensures 0 <= addr < 0x100
  {
    match a
    case Start => 0xA8
    case Address => 0x99
    case Read => 0x9C
    case Write => 0xA1
  }

  /** Only Address and Write have a micro-work fast path. */
  predicate HasMicroWorkPath(a: Action) { a == Address || a == Write }

  /**
   * `start`, `adress`, `read` and `record`. In micro-work mode Address loads
   * MIP from the key register and Write stores the key register into the
   * microcode store at MIP and advances MIP; every other case starts the
   * action's micro-routine.
   */
  function ConsoleAction(m: Console, a: Action, microWork: bool): (r: Console)
    ensures !(microWork && HasMicroWorkPath(a)) ==> r == StartFrom(m, Entry(a))
    ensures microWork && HasMicroWorkPath(a) ==>
              r.state == m.state && r.input == m.input && r.tumbler == m.tumbler
    ensures microWork && a == Address ==> r == m.(mip := m.input)
    ensures microWork && a == Write ==>
              && r.mip == m.mip + 1
              && r.microMem.Keys == m.microMem.Keys + {m.mip}
              && r.microMem[m.mip] == m.input
              && forall k :: k in m.microMem && k != m.mip ==> r.microMem[k] == m.microMem[k]
  {
    match a
    case Start => StartFrom(m, 0xA8)
    case Address => if microWork then m.(mip := m.input) else StartFrom(m, 0x99)
    case Read => StartFrom(m, 0x9C)
    case Write =>
      if microWork then m.(microMem := m.microMem[m.mip := m.input], mip := m.mip + 1)
      else StartFrom(m, 0xA1)
  }

  /**
   * Outside micro-work mode the four keys start their routines at 0xA8, 0x99,
   * 0x9C and 0xA1; Start and Read do so in micro-work mode too.
   */
  lemma ConsoleEntries(m: Console, microWork: bool)
    ensures ConsoleAction(m, Start, microWork).mip == 0xA8
    ensures ConsoleAction(m, Read, microWork).mip == 0x9C
    ensures !microWork ==> ConsoleAction(m, Address, microWork).mip == 0x99
    ensures !microWork ==> ConsoleAction(m, Write, microWork).mip == 0xA1
    ensures !(microWork && HasMicroWorkPath(Start)) && !(microWork && HasMicroWorkPath(Read))
    ensures forall a :: !(microWork && HasMicroWorkPath(a)) ==>
              ConsoleAction(m, a, microWork).state == Running &&
              ConsoleAction(m, a, microWork).microMem == m.microMem
  {
  }

  /** The four routines start at four different micro-addresses. */
  lemma EntriesDistinct(a: Action, b: Action)
    ensures Entry(a) == Entry(b) <==> a == b
  {
  }

  /** Resuming twice is resuming once. */
  lemma ResumeIdempotent(m: Console)
    ensures Resume(Resume(m)) == Resume(m)
    ensures Resume(m).mip == m.mip && Resume(m).microMem == m.microMem
  {
  }

  /** A stop request is idempotent and never reaches `Running`. */
  lemma RequestStopIdempotent(s: RunState)
    ensures RequestStop(RequestStop(s)) == RequestStop(s)
    ensures s == Running ==> RequestStop(s) == Stopping
    ensures s == Stopping ==> RequestStop(s) == Stopping
  {
  }

  /** Micro-work writes of `values`, one after another, each through the key register. */
  function MicroWrites(m: Console, values: seq<int>): (r: Console)
    decreases |values|
  {
    if |values| == 0 then m
    else MicroWrites(ConsoleAction(m.(input := values[0]), Write, true), values[1..])
  }

  /**
   * Successive micro-work writes fill consecutive microcode cells from the
   * current MIP and leave MIP just past them; other cells and the run state
   * are untouched.
   */
  lemma {:induction false} MicroWritesFillCells(m: Console, values: seq<int>)
    ensures MicroWrites(m, values).mip == m.mip + |values|
    ensures MicroWrites(m, values).state == m.state
    ensures forall k :: m.mip <= k < m.mip + |values| ==>
              k in MicroWrites(m, values).microMem &&
              MicroWrites(m, values).microMem[k] == values[k - m.mip]
    ensures forall k :: k in m.microMem && !(m.mip <= k < m.mip + |values|) ==>
              k in MicroWrites(m, values).microMem &&
              MicroWrites(m, values).microMem[k] == m.microMem[k]
    decreases |values|
  {
    if |values| > 0 {
      var m' := ConsoleAction(m.(input := values[0]), Write, true);
      MicroWritesFillCells(m', values[1..]);
      var r := MicroWrites(m, values);
      assert r == MicroWrites(m', values[1..]);
      assert m'.mip == m.mip + 1 && m'.state == m.state;
      forall k | m.mip <= k < m.mip + |values|
        ensures k in MicroWrites(m, values).microMem
        ensures MicroWrites(m, values).microMem[k] == values[k - m.mip]
      {
        if k > m.mip {
          assert values[1..][k - m'.mip] == values[k - m.mip];
        } else {
          assert m.mip in m'.microMem && m.mip < m'.mip;
        }
      }
    }
  }

  /** In micro-work mode, Address then Write patches the cell the key register named. */
  lemma AddressThenWrite(m: Console, addr: int, value: int)
    ensures
      var r := ConsoleAction(ConsoleAction(m.(input := addr), Address, true).(input := value), Write, true);
      addr in r.microMem && r.microMem[addr] == value && r.mip == addr + 1 && r.state == m.state
  {
  }

  // ---------------------------------------------------------------------------
  // The Run/Stop switch

  /** `workStop`: flip the Run/Stop flag (0 becomes 1, anything else 0) and refresh the state counter. */
  function WorkStop(m: Console): (r: Console)
    ensures r.tumbler == 0 || r.tumbler == 1
    ensures r.tumbler == 1 <==> m.tumbler == 0
    ensures r.refreshes == m.refreshes + 1
    ensures r.(tumbler := m.tumbler, refreshes := m.refreshes) == m
  {
    var flag := if m.tumbler == 0 then 1 else 0;
    m.(tumbler := flag, refreshes := m.refreshes + 1)
  }

  /** Toggling twice restores the flag exactly when it held 0 or 1. */
  lemma WorkStopTwice(m: Console)
    ensures WorkStop(WorkStop(m)).tumbler == m.tumbler <==> m.tumbler == 0 || m.tumbler == 1
    ensures WorkStop(WorkStop(m)).refreshes == m.refreshes + 2
  {
  }
}
