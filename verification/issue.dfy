/** `issue`: place one instruction into the lowest-numbered free station. */
module Issue {
  import opened Wrappers
  import opened Operands
  import opened State
  import Scan

  predicate IsFree(rs: ReservationStation) {
    !rs.busy
  }

  /** The station the `for ... break` loop of `issue` stops at, if any. */
  function FirstFree(stations: seq<ReservationStation>): (slot: Option<nat>)
    ensures slot.Some? ==> slot.value < |stations| && !stations[slot.value].busy
    ensures slot.Some? ==> forall j :: 0 <= j < slot.value ==> stations[j].busy
    ensures slot.None? <==> forall j :: 0 <= j < |stations| ==> stations[j].busy
  {
    Scan.First(stations, IsFree, 0)
  }

  /** The fields `issue` writes into the chosen station. The `result` latched
      by an earlier completion is left as it was. */
  function Occupy(rs: ReservationStation, regs: Registers, instr: Instruction): ReservationStation
  {
    rs.(busy := true,
        operation := Some(instr.op),
        vj := GetValue(regs, instr.src1),
        vk := GetValue(regs, instr.src2),
        qj := GetRsOrRegister(regs, instr.src1),
        qk := GetRsOrRegister(regs, instr.src2))
  }

  /** `issue`. An instruction that finds every station busy is dropped: the
      state is returned unchanged. The chosen slot (what Python records as
      `instruction["rs_index"]`) is returned beside the new state. */
  function Issue(c: Cpu, instr: Instruction): (r: (Cpu, Option<nat>))
    ensures r.0.units == c.units && r.0.registers == c.registers
    ensures r.0.instructions == c.instructions
    ensures |r.0.stations| == |c.stations|
    ensures r.1.None? <==> forall j :: 0 <= j < |c.stations| ==> c.stations[j].busy
    ensures r.1.None? ==> r.0 == c
    ensures r.1.Some? ==>
              var i := r.1.value;
              && i < |c.stations| && !c.stations[i].busy
              && (forall j :: 0 <= j < i ==> c.stations[j].busy)
              && r.0.stations[i].busy
              && r.0.stations[i].operation == Some(instr.op)
              && r.0.stations[i].vj == GetValue(c.registers, instr.src1)
              && r.0.stations[i].vk == GetValue(c.registers, instr.src2)
              && r.0.stations[i].qj == GetRsOrRegister(c.registers, instr.src1)
              && r.0.stations[i].qk == GetRsOrRegister(c.registers, instr.src2)
              && r.0.stations[i].result == c.stations[i].result
              && forall j :: 0 <= j < |c.stations| && j != i ==> r.0.stations[j] == c.stations[j]
  {
    match FirstFree(c.stations)
    case None => (c, None)
    case Some(i) =>
      (c.(stations := c.stations[i := Occupy(c.stations[i], c.registers, instr)]), Some(i))
  }

  /** Issuing fills exactly one free station when there is one: the number of
      busy stations grows by one, or stays put when all were busy. */
  lemma {:induction false} IssueOccupiesOneStation(c: Cpu, instr: Instruction)
    ensures var r := Issue(c, instr);
            if r.1.Some? then BusyCount(r.0.stations) == BusyCount(c.stations) + 1
            else BusyCount(r.0.stations) == BusyCount(c.stations) == |c.stations|
  {
    var r := Issue(c, instr);
    if r.1.Some? {
      BusyCountUpdate(c.stations, r.1.value, r.0.stations[r.1.value]);
      assert r.0.stations == c.stations[r.1.value := r.0.stations[r.1.value]];
    } else {
      AllBusyCount(c.stations);
    }
  }

  function BusyCount(s: seq<ReservationStation>): (n: nat)
    ensures n <= |s|
  {
    if s == [] then 0 else (if s[0].busy then 1 else 0) + BusyCount(s[1..])
  }

  lemma {:induction false} BusyCountUpdate(s: seq<ReservationStation>, i: nat, x: ReservationStation)
    requires i < |s|
    ensures BusyCount(s[i := x]) ==
              BusyCount(s) - (if s[i].busy then 1 else 0) + (if x.busy then 1 else 0)
  {
    if i > 0 {
      assert s[i := x][1..] == s[1..][i - 1 := x];
      BusyCountUpdate(s[1..], i - 1, x);
    } else {
      assert s[i := x][1..] == s[1..];
    }
  }

  lemma {:induction false} AllBusyCount(s: seq<ReservationStation>)
    requires forall j :: 0 <= j < |s| ==> s[j].busy
    ensures BusyCount(s) == |s|
  {
    if s != [] {
      AllBusyCount(s[1..]);
    }
  }
}
