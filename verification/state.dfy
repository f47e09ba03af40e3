/** The simulator's state: `ReservationStation`, `FunctionalUnit` and the
    fields of `TomasuloCPU`. */
module State {
  import opened Wrappers
  import opened Operands

  /** One entry of the instruction list: `{"op": .., "src1": .., "src2": ..}`. */
  datatype Instruction = Instruction(op: string, src1: string, src2: string)

  /** A reservation station. `operation` is `None` until the station is first
      issued into; `result` is what the last completion latched into it. */
  datatype ReservationStation = ReservationStation(
    busy: bool,
    operation: Option<string>,
    vj: Option<int>,
    vk: Option<int>,
    qj: Q,
    qk: Q,
    result: Option<int>)

  /** A functional unit. `instruction` is the index of the station it is
      executing: Python holds a reference to the station object, and station
      objects are never replaced in the list, so the index names the same
      object for the whole run. */
  datatype FunctionalUnit = FunctionalUnit(
    busy: bool,
    remainingCycles: nat,
    instruction: Option<nat>)

  datatype Cpu = Cpu(
    stations: seq<ReservationStation>,
    units: seq<FunctionalUnit>,
    registers: Registers,
    instructions: seq<Instruction>)

  const FreshStation := ReservationStation(false, None, None, None, QNone, QNone, None)
  const IdleUnit := FunctionalUnit(false, 0, None)

  /** The dispatch test of `execute`: busy with both producers `None`. */
  predicate ReadyToExecute(rs: ReservationStation) {
    rs.busy && rs.qj.QNone? && rs.qk.QNone?
  }

  /** The unit test of `execute`: not busy and no cycles left. */
  predicate Available(fu: FunctionalUnit) {
    !fu.busy && fu.remainingCycles == 0
  }

  /** The unit test of `write_result`: busy with exactly one cycle left. */
  predicate Completing(fu: FunctionalUnit) {
    fu.busy && fu.remainingCycles == 1
  }

  /** The loop-exit test of `run`: no unit is busy. */
  predicate AllUnitsIdle(c: Cpu) {
    forall j :: 0 <= j < |c.units| ==> !c.units[j].busy
  }

  /** Every busy unit refers to a station that exists. A Python unit holds a
      station object, so this is what "the reference is valid" means here. */
  predicate WellFormed(c: Cpu) {
    forall j :: 0 <= j < |c.units| && c.units[j].busy ==>
      c.units[j].instruction.Some? && c.units[j].instruction.value < |c.stations|
  }

  /** The shape every cycle of `run` starts from: each busy unit refers to a
      station and will complete in this cycle. */
  predicate Settled(c: Cpu) {
    && WellFormed(c)
    && forall j :: 0 <= j < |c.units| && c.units[j].busy ==> c.units[j].remainingCycles == 1
  }

  /** Every busy station has been issued into, so it names an operation. */
  predicate BusyNamed(c: Cpu) {
    forall i :: 0 <= i < |c.stations| && c.stations[i].busy ==> c.stations[i].operation.Some?
  }

  /** `TomasuloCPU(num_rs, num_fu)`: fresh stations and units, an empty
      register file and no instructions. `range` of a negative count is empty. */
  function NewCpu(numRs: int, numFu: int): (c: Cpu)
    ensures |c.stations| == (if numRs < 0 then 0 else numRs)
    ensures |c.units| == (if numFu < 0 then 0 else numFu)
    ensures forall i :: 0 <= i < |c.stations| ==> c.stations[i] == FreshStation
    ensures forall j :: 0 <= j < |c.units| ==> c.units[j] == IdleUnit
    ensures c.registers == map[] && c.instructions == []
    ensures Settled(c) && AllUnitsIdle(c) && BusyNamed(c)
  {
    var n := if numRs < 0 then 0 else numRs;
    var m := if numFu < 0 then 0 else numFu;
    Cpu(seq(n, _ => FreshStation), seq(m, _ => IdleUnit), map[], [])
  }
}
