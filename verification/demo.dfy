/** Concrete runs of the simulator, computed by the verifier. */
module Demo {
  import opened Wrappers
  import opened Operands
  import opened State
  import opened Arithmetic
  import opened Issue
  import opened Dispatch
  import opened WriteBack
  import opened Broadcast
  import opened Run

  const DriverRegisters: Registers :=
    map["R1" := 10, "R2" := 20, "R3" := 30, "R4" := 40, "R5" := 50, "R6" := 60]

  const DriverProgram: seq<Instruction> :=
    [Instruction("ADD", "R1", "R2"), Instruction("MUL", "R3", "R4"), Instruction("SUB", "R5", "R6")]

  /** The driver at the bottom of `main.py`: three stations, two units,
      registers R1..R6 and three independent instructions. */
  function DriverCpu(): (c: Cpu)
    ensures c == NewCpu(3, 2).(registers := DriverRegisters, instructions := DriverProgram)
  {
    Cpu([FreshStation, FreshStation, FreshStation], [IdleUnit, IdleUnit], DriverRegisters, DriverProgram)
  }

  /** A station holding `op` on two register operands with values `a`, `b`. */
  function Waiting(op: string, a: int, b: int): ReservationStation
  {
    ReservationStation(true, Some(op), Some(a), Some(b), QValue(a), QValue(b), None)
  }

  lemma RegisterOperand(regs: Registers, name: string)
    requires name in regs && |name| > 0 && !IsDigit(name[0])
    ensures GetValue(regs, name) == Some(regs[name])
    ensures GetRsOrRegister(regs, name) == QValue(regs[name])
  {
  }

  /** Issuing into the first free station `i`. */
  lemma IssueInto(c: Cpu, instr: Instruction, i: nat, rs: ReservationStation)
    requires i < |c.stations| && !c.stations[i].busy
    requires forall j :: 0 <= j < i ==> c.stations[j].busy
    requires rs == Occupy(c.stations[i], c.registers, instr)
    ensures Issue.Issue(c, instr) == (c.(stations := c.stations[i := rs]), Some(i))
  {
    assert FirstFree(c.stations) == Some(i);
  }

  /** A state with no ready station and no busy unit is a fixed point of
      `execute` followed by `write_result`. */
  lemma QuietCycle(c: Cpu)
    requires Settled(c) && AllUnitsIdle(c)
    requires forall i :: 0 <= i < |c.stations| ==> !ReadyToExecute(c.stations[i])
    ensures WriteResult(Execute(c)) == Success(c)
  {
    var e := Execute(c);
    assert e.stations == c.stations;
    assert e.units == c.units;
    assert e == c;
    NothingCompletingIsNoOp(c, 0);
  }

  function DriverAfter(n: nat): Cpu
    requires n <= 3
  {
    var add := Waiting("ADD", 10, 20);
    var mul := Waiting("MUL", 30, 40);
    var sub := Waiting("SUB", 50, 60);
    DriverCpu().(stations :=
      if n == 0 then [FreshStation, FreshStation, FreshStation]
      else if n == 1 then [add, FreshStation, FreshStation]
      else if n == 2 then [add, mul, FreshStation]
      else [add, mul, sub])
  }

  /** Iteration `n` of the driver issues instruction `n` into station `n` and
      does nothing else. */
  lemma DriverCycle(n: nat)
    requires n < 3
    ensures Cycle(DriverAfter(n), n) == Success(DriverAfter(n + 1))
  {
    var c := DriverAfter(n);
    var instr := DriverProgram[n];
    var regs := DriverRegisters;
    RegisterOperand(regs, instr.src1);
    RegisterOperand(regs, instr.src2);
    var rs := Waiting(instr.op, regs[instr.src1], regs[instr.src2]);
    assert rs == [Waiting("ADD", 10, 20), Waiting("MUL", 30, 40), Waiting("SUB", 50, 60)][n];
    IssueInto(c, instr, n, rs);
    assert c.stations[n := rs] == DriverAfter(n + 1).stations;
    QuietCycle(DriverAfter(n + 1));
  }

  /** One unfolding of the loop. */
  lemma RunFromStep(c: Cpu, idx: nat, done: nat, c': Cpu)
    requires Settled(c) && idx <= |c.instructions|
    requires Cycle(c, idx) == Success(c')
    ensures RunFrom(c, idx, done) ==
              if NextIndex(c, idx) >= |c.instructions| && AllUnitsIdle(c') then Success(Outcome(c', done + 1))
              else RunFrom(c', NextIndex(c, idx), done + 1)
  {
  }

  /** Every operand of the driver names a register, so every `Q` holds that
      register's value, no station is ever ready and nothing executes: the
      loop runs three times and stops with all three stations still busy. */
  lemma DriverRun()
    ensures Run.Run(DriverCpu()) == Success(Outcome(
              DriverCpu().(stations := [Waiting("ADD", 10, 20), Waiting("MUL", 30, 40), Waiting("SUB", 50, 60)]),
              3))
  {
    assert DriverAfter(0) == DriverCpu();
    assert DriverAfter(3).stations == [Waiting("ADD", 10, 20), Waiting("MUL", 30, 40), Waiting("SUB", 50, 60)];
    DriverCycle(0);
    DriverCycle(1);
    DriverCycle(2);
    var outcome := Success(Outcome(DriverAfter(3), 3));
    assert AllUnitsIdle(DriverAfter(3));
    RunFromStep(DriverAfter(2), 2, 2, DriverAfter(3));
    assert RunFrom(DriverAfter(2), 2, 2) == outcome;
    RunFromStep(DriverAfter(1), 1, 1, DriverAfter(2));
    assert RunFrom(DriverAfter(1), 1, 1) == outcome;
    RunFromStep(DriverAfter(0), 0, 0, DriverAfter(1));
    assert RunFrom(DriverAfter(0), 0, 0) == outcome;
  }

  lemma SingleDigit(regs: Registers, s: string, d: nat)
    requires |s| == 1 && IsDigit(s[0]) && DigitValue(s[0]) == d
    ensures GetValue(regs, s) == Some(d) && GetRsOrRegister(regs, s) == QNone
  {
    assert s[..0] == [];
  }

  lemma UnknownName(regs: Registers, name: string)
    requires name !in regs && |name| > 0 && !IsDigit(name[0])
    ensures GetValue(regs, name) == None && GetRsOrRegister(regs, name) == QName(name)
  {
  }

  /** A consumer issued before its producer, under the producer's operation
      name: `MUL ADD 3` waits on the name "ADD", and `ADD 1 2` wakes it. */
  const WakeupProgram: seq<Instruction> := [Instruction("MUL", "ADD", "3"), Instruction("ADD", "1", "2")]

  function WakeupCpu(): (c: Cpu)
    ensures c == NewCpu(2, 1).(instructions := WakeupProgram)
  {
    Cpu([FreshStation, FreshStation], [IdleUnit], map[], WakeupProgram)
  }

  const MulWaiting := ReservationStation(true, Some("MUL"), None, Some(3), QName("ADD"), QNone, None)
  const MulWoken := ReservationStation(true, Some("MUL"), Some(3), Some(3), QNone, QNone, None)
  const AddIssued := ReservationStation(true, Some("ADD"), Some(1), Some(2), QNone, QNone, None)
  const AddDispatched := ReservationStation(false, Some("ADD"), Some(1), Some(2), QNone, QNone, None)
  const AddDone := ReservationStation(false, Some("ADD"), Some(1), Some(2), QNone, QNone, Some(3))

  lemma WakeupFirstCycle()
    ensures Cycle(WakeupCpu(), 0) == Success(WakeupCpu().(stations := [MulWaiting, FreshStation]))
  {
    var c := WakeupCpu();
    UnknownName(map[], "ADD");
    SingleDigit(map[], "3", 3);
    IssueInto(c, WakeupProgram[0], 0, MulWaiting);
    assert c.stations[0 := MulWaiting] == [MulWaiting, FreshStation];
    QuietCycle(c.(stations := [MulWaiting, FreshStation]));
  }

  const AddRunning := FunctionalUnit(true, 1, Some(1))

  /** The second dispatch: the `ADD` is ready, the `MUL` still waits. */
  lemma WakeupDispatch()
    ensures Execute(WakeupCpu().(stations := [MulWaiting, AddIssued]))
              == WakeupCpu().(stations := [MulWaiting, AddDispatched], units := [AddRunning])
  {
    var c1 := WakeupCpu().(stations := [MulWaiting, AddIssued]);
    var c2 := c1.(stations := [MulWaiting, AddDispatched], units := [AddRunning]);
    assert FirstAvailable(c1.units) == Some(0);
    assert c1.stations[1 := Dispatched(c1.stations[1])] == c2.stations;
    assert DispatchFrom(c2.stations, c2.units, 2) == (c2.stations, c2.units);
    assert Running(1, Some("ADD")) == AddRunning;
    assert ReadyToExecute(c1.stations[1]);
    assert c1.units[0 := AddRunning] == c2.units;
    assert DispatchFrom(c1.stations, c1.units, 1) == (c2.stations, c2.units);
    assert !ReadyToExecute(c1.stations[0]);
    assert DispatchFrom(c1.stations, c1.units, 0) == (c2.stations, c2.units);
  }

  /** The second write-back: the `ADD` latches 3 and its broadcast under the
      name "ADD" wakes the `MUL`. */
  lemma WakeupWriteBack()
    ensures WriteResult(WakeupCpu().(stations := [MulWaiting, AddDispatched], units := [AddRunning]))
              == Success(WakeupCpu().(stations := [MulWoken, AddDone]))
  {
    var c2 := WakeupCpu().(stations := [MulWaiting, AddDispatched], units := [AddRunning]);
    var latched := [MulWaiting, AddDone];
    assert c2.stations[1 := c2.stations[1].(result := Some(3))] == latched;
    var woken := Wakeup(latched, Some("ADD"), Some(3));
    assert woken[0] == MulWoken && woken[1] == AddDone;
    assert woken == [MulWoken, AddDone];
    var c3 := c2.(stations := [MulWoken, AddDone], units := [IdleUnit]);
    assert StationOf(c2, 0) == 1;
    assert Evaluate(c2, 1) == Value(Some(3));
    assert c2.units[0 := IdleUnit] == c3.units;
    assert Complete(c2, 0) == Success(c3);
    NothingCompletingIsNoOp(c3, 1);
  }

  lemma WakeupSecondCycle()
    ensures Cycle(WakeupCpu().(stations := [MulWaiting, FreshStation]), 1)
              == Success(WakeupCpu().(stations := [MulWoken, AddDone]))
  {
    var c := WakeupCpu().(stations := [MulWaiting, FreshStation]);
    SingleDigit(map[], "1", 1);
    SingleDigit(map[], "2", 2);
    IssueInto(c, WakeupProgram[1], 1, AddIssued);
    assert c.stations[1 := AddIssued] == [MulWaiting, AddIssued];
    WakeupDispatch();
    WakeupWriteBack();
  }

  /** `run` stops as soon as every instruction has been offered and no unit is
      busy. Here the `MUL` has been woken and is ready, but the loop ends
      before it is ever dispatched: two iterations, and its result is never
      computed. */
  lemma RunEndsWithReadyStation()
    ensures Run.Run(WakeupCpu()) == Success(Outcome(WakeupCpu().(stations := [MulWoken, AddDone]), 2))
    ensures ReadyToExecute(MulWoken)
  {
    var c0 := WakeupCpu();
    var c1 := c0.(stations := [MulWaiting, FreshStation]);
    var c2 := c0.(stations := [MulWoken, AddDone]);
    WakeupFirstCycle();
    WakeupSecondCycle();
    var outcome := Success(Outcome(c2, 2));
    assert AllUnitsIdle(c2);
    RunFromStep(c1, 1, 1, c2);
    assert RunFrom(c1, 1, 1) == outcome;
    RunFromStep(c0, 0, 0, c1);
  }

  /** An instruction that finds every station busy is dropped for good. The
      single station holds `ADD R1 R1`, which waits on the value of `R1`
      forever; the `SUB` offered next never enters the machine. */
  const DropProgram: seq<Instruction> := [Instruction("ADD", "R1", "R1"), Instruction("SUB", "1", "2")]

  function DropCpu(): (c: Cpu)
    ensures c == NewCpu(1, 1).(registers := map["R1" := 1], instructions := DropProgram)
  {
    Cpu([FreshStation], [IdleUnit], map["R1" := 1], DropProgram)
  }

  lemma FullStationsDropInstruction()
    ensures Run.Run(DropCpu()) == Success(Outcome(DropCpu().(stations := [Waiting("ADD", 1, 1)]), 2))
  {
    var c0 := DropCpu();
    var c1 := c0.(stations := [Waiting("ADD", 1, 1)]);
    RegisterOperand(c0.registers, "R1");
    IssueInto(c0, DropProgram[0], 0, Waiting("ADD", 1, 1));
    assert c0.stations[0 := Waiting("ADD", 1, 1)] == c1.stations;
    QuietCycle(c1);
    assert Cycle(c0, 0) == Success(c1);
    assert Issue.Issue(c1, DropProgram[1]) == (c1, None);
    assert Cycle(c1, 1) == Success(c1);
    var outcome := Success(Outcome(c1, 2));
    RunFromStep(c1, 1, 1, c1);
    assert RunFrom(c1, 1, 1) == outcome;
    RunFromStep(c0, 0, 0, c1);
  }
}
