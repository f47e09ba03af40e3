/** `run`: the cycle loop. Each iteration issues the next instruction (if any
    is left), then executes, then writes results, and stops once every
    instruction has been offered and no unit is busy. */
module Run {
  import opened Wrappers
  import opened State
  import opened Arithmetic
  import opened Issue
  import opened Dispatch
  import opened WriteBack

  /** What `run` leaves behind: the final state and how many times the loop
      body ran (Python's final `cycle` plus one). */
  datatype Outcome = Outcome(cpu: Cpu, iterations: nat)

  /** The next value of `instruction_index`: it advances whenever an
      instruction was left, whether or not a station took it. */
  function NextIndex(c: Cpu, idx: nat): nat
  {
    if idx < |c.instructions| then idx + 1 else idx
  }

  /** The state after the issue stage of an iteration. */
  function Issued(c: Cpu, idx: nat): (r: Cpu)
    requires idx <= |c.instructions|
    ensures r.units == c.units && r.registers == c.registers && r.instructions == c.instructions
    ensures |r.stations| == |c.stations|
  {
    if idx < |c.instructions| then Issue.Issue(c, c.instructions[idx]).0 else c
  }

  predicate AllArithmetic(instructions: seq<Instruction>) {
    forall k :: 0 <= k < |instructions| ==> IsArithmetic(Some(instructions[k].op))
  }

  /** Issuing an arithmetic instruction keeps every busy station's resolved
      operands present: only a literal leaves `Q` empty, and it sets `V`. */
  lemma IssueKeepsOperandsPresent(c: Cpu, instr: Instruction)
    requires OperandsPresent(c) && IsArithmetic(Some(instr.op))
    ensures OperandsPresent(Issue.Issue(c, instr).0)
  {
    var r := Issue.Issue(c, instr);
    if r.1.Some? {
      Operands.ResolutionAgrees(c.registers, instr.src1);
      Operands.ResolutionAgrees(c.registers, instr.src2);
    }
  }

  /** After `execute` from a state with no unit busy, the units that will
      complete are exactly the ones it just loaded, so they carry the shape
      `write_result` relies on. */
  lemma ExecuteFromIdleLoadsResolved(c: Cpu)
    requires Settled(c) && AllUnitsIdle(c) && OperandsPresent(c)
    ensures var e := Execute(c);
            && WellFormed(e)
            && InFlightResolved(e, 0) && InFlightDistinct(e, 0) && InFlightArithmetic(e, 0)
            && OperandsPresent(e)
  {
    LoadedUnitsRunDispatchedStations(c);
    LoadedStationsAreDistinct(c);
    DispatchSparesBusyStations(c);
  }

  /** From a state with no unit busy, no two units `execute` loads run the
      same station. */
  lemma LoadedStationsAreDistinct(c: Cpu)
    requires Settled(c) && AllUnitsIdle(c)
    ensures WellFormed(Execute(c)) && InFlightDistinct(Execute(c), 0)
  {
    var e := Execute(c);
    LoadedUnitsRunDispatchedStations(c);
    forall k1, k2 | 0 <= k1 < k2 < |e.units| && Completing(e.units[k1]) && Completing(e.units[k2])
      ensures StationOf(e, k1) != StationOf(e, k2)
    {
      assert e.units[k1] != c.units[k1] && e.units[k2] != c.units[k2];
    }
  }

  /** A station still busy after `execute` was not dispatched, so its
      operands are as they were. */
  lemma DispatchSparesBusyStations(c: Cpu)
    requires Settled(c) && OperandsPresent(c)
    ensures OperandsPresent(Execute(c))
  {
    var e := Execute(c);
    forall i | 0 <= i < |e.stations| && e.stations[i].busy
      ensures e.stations[i] == c.stations[i]
    {
    }
  }

  /** From a state with no unit busy, each unit `execute` leaves completing
      was just loaded with a ready station, which is now dispatched. */
  lemma LoadedUnitsRunDispatchedStations(c: Cpu)
    requires Settled(c) && AllUnitsIdle(c)
    ensures var e := Execute(c);
            && WellFormed(e)
            && forall k :: 0 <= k < |e.units| && Completing(e.units[k]) ==>
                 && e.units[k] != c.units[k]
                 && ReadyToExecute(c.stations[StationOf(e, k)])
                 && e.stations[StationOf(e, k)] == Dispatched(c.stations[StationOf(e, k)])
  {
    var e := Execute(c);
    forall k | 0 <= k < |e.units| && Completing(e.units[k])
      ensures e.units[k] != c.units[k]
      ensures ReadyToExecute(c.stations[StationOf(e, k)])
      ensures e.stations[StationOf(e, k)] == Dispatched(c.stations[StationOf(e, k)])
    {
      assert !c.units[k].busy;
      var i := StationOf(e, k);
      assert !e.stations[i].busy && c.stations[i].busy;
    }
  }

  /** After `execute` from a state with no unit busy, the units that will
      complete run distinct stations, each waiting on nothing and naming its
      operation, whatever that operation is. */
  lemma ExecuteLoadsNamedStations(c: Cpu)
    requires Settled(c) && AllUnitsIdle(c) && BusyNamed(c)
    ensures var e := Execute(c);
            WellFormed(e) && InFlightResolved(e, 0) && InFlightDistinct(e, 0) && BusyNamed(e)
  {
    LoadedUnitsRunDispatchedStations(c);
    LoadedStationsAreDistinct(c);
  }

  /** One iteration from a state with no unit busy, for any operation names:
      it raises exactly when `execute_operation` raises for one of the
      stations `execute` just handed to a unit, and otherwise latches into
      each of them what `execute_operation` computes from its operands:
      `Vj + Vk`, `Vj - Vk`, `Vj * Vk`, or `None` for an unknown operation. */
  lemma CycleLatchesResults(c: Cpu, idx: nat)
    requires Settled(c) && idx <= |c.instructions| && AllUnitsIdle(c) && BusyNamed(c)
    ensures var e := Execute(Issued(c, idx));
            && WellFormed(e) && InFlightResolved(e, 0) && InFlightDistinct(e, 0)
            && (Cycle(c, idx).Success? <==>
                  forall k :: 0 <= k < |e.units| && Completing(e.units[k]) ==> Evaluate(e, StationOf(e, k)).Value?)
            && (Cycle(c, idx).Success? ==>
                  forall k :: 0 <= k < |e.units| && Completing(e.units[k]) ==>
                    Cycle(c, idx).value.stations[StationOf(e, k)].result == Evaluate(e, StationOf(e, k)).result)
  {
    var issued := Issued(c, idx);
    assert BusyNamed(issued);
    ExecuteLoadsNamedStations(issued);
    WriteResultLatchesResults(Execute(issued));
  }

  /** Issue names the operation of the station it fills, dispatch only frees
      stations and write-back keeps busy flags and operations, so every busy
      station keeps naming an operation. */
  lemma StagesKeepBusyNamed(c: Cpu, idx: nat)
    requires Settled(c) && idx <= |c.instructions|
    ensures BusyNamed(c) && WriteResult(Execute(Issued(c, idx))).Success? ==>
              BusyNamed(WriteResult(Execute(Issued(c, idx))).value)
  {
    if !BusyNamed(c) {
      return;
    }
    var issued := Issued(c, idx);
    assert BusyNamed(issued);
    var e := Execute(issued);
    assert BusyNamed(e);
    var w := WriteFrom(e, 0);
    if w.Success? {
      assert forall i :: 0 <= i < |w.value.stations| ==>
               w.value.stations[i].busy == e.stations[i].busy &&
               w.value.stations[i].operation == e.stations[i].operation;
    }
  }

  /** The three stages of one iteration on arithmetic instructions, from a
      state with no unit busy, never raise, and keep the operands of busy
      stations present. */
  lemma StagesNeverRaise(c: Cpu, idx: nat)
    requires Settled(c) && idx <= |c.instructions|
    ensures AllUnitsIdle(c) && AllArithmetic(c.instructions) && OperandsPresent(c) ==>
              && WriteResult(Execute(Issued(c, idx))).Success?
              && OperandsPresent(WriteResult(Execute(Issued(c, idx))).value)
  {
    if AllUnitsIdle(c) && AllArithmetic(c.instructions) && OperandsPresent(c) {
      if idx < |c.instructions| {
        IssueKeepsOperandsPresent(c, c.instructions[idx]);
      }
      var issued := Issued(c, idx);
      ExecuteFromIdleLoadsResolved(issued);
      WriteFromNeverRaises(Execute(issued), 0);
    }
  }

  /** One iteration of the loop body, up to the exit test. On arithmetic
      instructions from a state with no unit busy it never raises. */
  function Cycle(c: Cpu, idx: nat): (r: Result<Cpu, Fault>)
    requires Settled(c) && idx <= |c.instructions|
    ensures r.Success? ==>
              && AllUnitsIdle(r.value) && Settled(r.value)
              && r.value.registers == c.registers && r.value.instructions == c.instructions
              && |r.value.stations| == |c.stations| && |r.value.units| == |c.units|
    ensures AllUnitsIdle(c) && AllArithmetic(c.instructions) && OperandsPresent(c) ==>
              r.Success? && OperandsPresent(r.value)
    ensures r.Success? && BusyNamed(c) ==> BusyNamed(r.value)
  {
    StagesNeverRaise(c, idx);
    StagesKeepBusyNamed(c, idx);
    WriteResult(Execute(Issued(c, idx)))
  }

  /** The loop from `instruction_index == idx`, after `done` iterations. */
  function RunFrom(c: Cpu, idx: nat, done: nat): (r: Result<Outcome, Fault>)
    requires Settled(c) && idx <= |c.instructions|
    ensures r.Success? ==>
              && r.value.iterations == done + (if idx < |c.instructions| then |c.instructions| - idx else 1)
              && AllUnitsIdle(r.value.cpu)
              && r.value.cpu.registers == c.registers && r.value.cpu.instructions == c.instructions
              && |r.value.cpu.stations| == |c.stations| && |r.value.cpu.units| == |c.units|
    ensures AllUnitsIdle(c) && AllArithmetic(c.instructions) && OperandsPresent(c) ==>
              r.Success? && OperandsPresent(r.value.cpu)
    ensures r.Success? && BusyNamed(c) ==> BusyNamed(r.value.cpu)
    decreases |c.instructions| - idx
  {
    match Cycle(c, idx)
    case Failure(f) => Failure(f)
    case Success(c') =>
      var idx' := NextIndex(c, idx);
      if idx' >= |c.instructions| && AllUnitsIdle(c') then Success(Outcome(c', done + 1))
      else RunFrom(c', idx', done + 1)
  }

  /** `run`. Unless an operation raises, the loop runs exactly once per
      instruction (once when there are none), every unit is idle at the end,
      and the register file is exactly what it was. When every instruction is
      ADD, SUB or MUL and the machine starts with no unit busy and no busy
      station missing a resolved operand, `execute_operation` never sees a
      `None` operand: `run` does not raise, and every busy station's resolved
      operands are integers at the end. */
  function Run(c: Cpu): (r: Result<Outcome, Fault>)
    requires Settled(c)
    ensures r.Success? ==>
              && r.value.iterations == (if |c.instructions| == 0 then 1 else |c.instructions|)
              && AllUnitsIdle(r.value.cpu)
              && r.value.cpu.registers == c.registers && r.value.cpu.instructions == c.instructions
              && |r.value.cpu.stations| == |c.stations| && |r.value.cpu.units| == |c.units|
    ensures AllUnitsIdle(c) && AllArithmetic(c.instructions) && OperandsPresent(c) ==>
              r.Success? && OperandsPresent(r.value.cpu)
    ensures r.Success? && BusyNamed(c) ==> BusyNamed(r.value.cpu)
  {
    RunFrom(c, 0, 0)
  }
}
