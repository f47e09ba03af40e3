/** `execute`: hand every ready station, in station order, to the lowest-numbered
    available functional unit. */
module Dispatch {
  import opened Wrappers
  import opened State
  import opened Arithmetic
  import Scan

  /** The unit the inner `for ... break` loop of `execute` stops at, if any. */
  function FirstAvailable(units: seq<FunctionalUnit>): (j: Option<nat>)
    ensures j.Some? ==> j.value < |units| && Available(units[j.value])
    ensures j.Some? ==> forall k :: 0 <= k < j.value ==> !Available(units[k])
    ensures j.None? <==> forall k :: 0 <= k < |units| ==> !Available(units[k])
  {
    Scan.First(units, Available, 0)
  }

  /** The ready stations at or after `from`, in the order `execute` visits them. */
  function ReadyFrom(stations: seq<ReservationStation>, from: nat): seq<nat>
    requires from <= |stations|
  {
    Scan.Where(stations, ReadyToExecute, from)
  }

  /** The available units, in the order the inner loop tries them. */
  function AvailableUnits(units: seq<FunctionalUnit>): seq<nat>
  {
    Scan.Where(units, Available, 0)
  }

  /** A station after dispatch: `result` cleared and no longer busy. */
  function Dispatched(rs: ReservationStation): ReservationStation
  {
    rs.(result := None, busy := false)
  }

  /** A unit after accepting station `i`. */
  function Running(i: nat, op: Option<string>): FunctionalUnit
  {
    FunctionalUnit(true, ExecutionTime(op), Some(i))
  }

  function Min(a: nat, b: nat): nat {
    if a < b then a else b
  }

  /** `stations'`/`units'` pair the `t`-th station listed in `rdy` with the
      `t`-th unit listed in `avl`, for as many pairs as both lists supply, and
      leave every other station and unit as it was. */
  ghost predicate Pairs(
    stations: seq<ReservationStation>, units: seq<FunctionalUnit>, rdy: seq<nat>, avl: seq<nat>,
    stations': seq<ReservationStation>, units': seq<FunctionalUnit>)
  {
    var m := Min(|rdy|, |avl|);
    && |stations'| == |stations| && |units'| == |units|
    && (forall t :: 0 <= t < m ==> rdy[t] < |stations| && avl[t] < |units|)
    && (forall t :: 0 <= t < m ==> stations'[rdy[t]] == Dispatched(stations[rdy[t]]))
    && (forall t :: 0 <= t < m ==> units'[avl[t]] == Running(rdy[t], stations[rdy[t]].operation))
    && (forall k :: 0 <= k < |stations| && k !in rdy[..m] ==> stations'[k] == stations[k])
    && (forall j :: 0 <= j < |units| && j !in avl[..m] ==> units'[j] == units[j])
  }

  /** What dispatch from station `i` on does: the ready stations from `i` on
      are paired with the available units. */
  ghost predicate PairsReadyWithAvailable(
    stations: seq<ReservationStation>, units: seq<FunctionalUnit>, from: nat,
    stations': seq<ReservationStation>, units': seq<FunctionalUnit>)
    requires from <= |stations|
  {
    Pairs(stations, units, ReadyFrom(stations, from), AvailableUnits(units), stations', units')
  }

  /** Prepending one pair: if the rest pair up against the state in which
      station `i` already went to unit `j`, everything pairs up against the
      state before. */
  lemma PairsCons(
    stations: seq<ReservationStation>, units: seq<FunctionalUnit>, i: nat, j: nat,
    rdy1: seq<nat>, avl1: seq<nat>,
    stations': seq<ReservationStation>, units': seq<FunctionalUnit>)
    requires i < |stations| && j < |units|
    requires forall t :: 0 <= t < |rdy1| ==> i < rdy1[t]
    requires forall t :: 0 <= t < |avl1| ==> j < avl1[t]
    requires Pairs(stations[i := Dispatched(stations[i])],
                   units[j := Running(i, stations[i].operation)], rdy1, avl1, stations', units')
    ensures Pairs(stations, units, [i] + rdy1, [j] + avl1, stations', units')
  {
    var s1 := stations[i := Dispatched(stations[i])];
    var u1 := units[j := Running(i, stations[i].operation)];
    var rdy := [i] + rdy1;
    var avl := [j] + avl1;
    var m1 := Min(|rdy1|, |avl1|);
    var m := m1 + 1;
    assert Min(|rdy|, |avl|) == m;
    assert rdy[..m] == [i] + rdy1[..m1];
    assert avl[..m] == [j] + avl1[..m1];
    PairedHead(rdy1, m1, i);
    PairedHead(avl1, m1, j);
    forall t | 0 <= t < m
      ensures stations'[rdy[t]] == Dispatched(stations[rdy[t]])
    {
      if t > 0 {
        assert rdy[t] == rdy1[t - 1];
      }
    }
    forall t | 0 <= t < m
      ensures units'[avl[t]] == Running(rdy[t], stations[rdy[t]].operation)
    {
      if t > 0 {
        assert rdy[t] == rdy1[t - 1] && avl[t] == avl1[t - 1];
        assert s1[rdy[t]] == stations[rdy[t]];
      }
    }
  }

  /** An index below every entry of a list is not among its first `m` entries. */
  lemma PairedHead(xs: seq<nat>, m: nat, x: nat)
    requires m <= |xs|
    requires forall t :: 0 <= t < |xs| ==> x < xs[t]
    ensures x !in xs[..m]
  {
  }

  /** One step of the pairing: when station `i` is ready and unit `j` is the
      first available one, pairing the rest against the updated state is
      pairing everything against the original. */
  lemma DispatchStepPairs(
    stations: seq<ReservationStation>, units: seq<FunctionalUnit>, i: nat, j: nat,
    stations': seq<ReservationStation>, units': seq<FunctionalUnit>)
    requires i < |stations| && ReadyToExecute(stations[i])
    requires FirstAvailable(units) == Some(j)
    requires PairsReadyWithAvailable(
               stations[i := Dispatched(stations[i])],
               units[j := Running(i, stations[i].operation)], i + 1, stations', units')
    ensures PairsReadyWithAvailable(stations, units, i, stations', units')
  {
    var s1 := stations[i := Dispatched(stations[i])];
    var u1 := units[j := Running(i, stations[i].operation)];
    Scan.WhereFrame(stations, s1, ReadyToExecute, i + 1);
    Scan.WhereAfterTakingFirst(units, Available, 0, j, Running(i, stations[i].operation));
    var rdy1 := ReadyFrom(s1, i + 1);
    var avl1 := AvailableUnits(u1);
    assert ReadyFrom(stations, i) == [i] + rdy1;
    assert AvailableUnits(units) == [j] + avl1;
    PairsCons(stations, units, i, j, rdy1, avl1, stations', units');
  }

  /** The outer loop of `execute` from station `i` on, with the units as
      modified by the stations before `i`: it pairs the ready stations from
      `i` on with the available units, in order. */
  function DispatchFrom(stations: seq<ReservationStation>, units: seq<FunctionalUnit>, i: nat)
    : (r: (seq<ReservationStation>, seq<FunctionalUnit>))
    requires i <= |stations|
    ensures PairsReadyWithAvailable(stations, units, i, r.0, r.1)
    decreases |stations| - i
  {
    if i == |stations| then (stations, units)
    else if ReadyToExecute(stations[i]) then
      match FirstAvailable(units)
      case None =>
        Scan.FirstIsHeadOfWhere(units, Available, 0);
        DispatchFrom(stations, units, i + 1)
      case Some(j) =>
        var r := DispatchFrom(stations[i := Dispatched(stations[i])],
                              units[j := Running(i, stations[i].operation)], i + 1);
        DispatchStepPairs(stations, units, i, j, r.0, r.1);
        r
    else DispatchFrom(stations, units, i + 1)
  }

  /** A station that dispatch changed was ready and is now dispatched. */
  lemma {:induction false} ChangedStationWasReady(
    stations: seq<ReservationStation>, units: seq<FunctionalUnit>,
    stations': seq<ReservationStation>, units': seq<FunctionalUnit>, k: nat)
    requires PairsReadyWithAvailable(stations, units, 0, stations', units')
    requires k < |stations| && stations'[k] != stations[k]
    ensures ReadyToExecute(stations[k]) && stations'[k] == Dispatched(stations[k])
  {
    var rdy := ReadyFrom(stations, 0);
    var m := Min(|rdy|, |AvailableUnits(units)|);
    assert k in rdy[..m];
    var t :| 0 <= t < m && rdy[..m][t] == k;
    assert rdy[t] == k;
  }

  /** A unit that dispatch changed was available and now runs a station that
      was ready and is now dispatched, for one cycle: it is the `t`-th pair. */
  lemma {:induction false} ChangedUnitRunsReadyStation(
    stations: seq<ReservationStation>, units: seq<FunctionalUnit>,
    stations': seq<ReservationStation>, units': seq<FunctionalUnit>, j: nat)
    returns (t: nat)
    requires PairsReadyWithAvailable(stations, units, 0, stations', units')
    requires j < |units| && units'[j] != units[j]
    ensures Available(units[j])
    ensures t < Min(|ReadyFrom(stations, 0)|, |AvailableUnits(units)|)
    ensures AvailableUnits(units)[t] == j
    ensures units'[j] == Running(ReadyFrom(stations, 0)[t], stations[ReadyFrom(stations, 0)[t]].operation)
  {
    var avl := AvailableUnits(units);
    var m := Min(|ReadyFrom(stations, 0)|, |avl|);
    assert j in avl[..m];
    t :| 0 <= t < m && avl[..m][t] == j;
    assert avl[t] == j;
  }

  /** The unit of the `t`-th pair runs the station of the `t`-th pair. */
  lemma PairedUnitAt(
    stations: seq<ReservationStation>, units: seq<FunctionalUnit>,
    stations': seq<ReservationStation>, units': seq<FunctionalUnit>, t: nat)
    requires PairsReadyWithAvailable(stations, units, 0, stations', units')
    requires t < Min(|ReadyFrom(stations, 0)|, |AvailableUnits(units)|)
    ensures AvailableUnits(units)[t] < |units'|
    ensures units'[AvailableUnits(units)[t]] ==
              Running(ReadyFrom(stations, 0)[t], stations[ReadyFrom(stations, 0)[t]].operation)
  {
  }

  /** The position of an entry in a list. */
  lemma PositionOf(xs: seq<nat>, x: nat) returns (t: nat)
    requires x in xs
    ensures t < |xs| && xs[t] == x
  {
    t :| 0 <= t < |xs| && xs[t] == x;
  }

  /** No unit receives two stations and no station goes to two units. */
  lemma {:induction false} DispatchIsOneToOne(
    stations: seq<ReservationStation>, units: seq<FunctionalUnit>,
    stations': seq<ReservationStation>, units': seq<FunctionalUnit>, j1: nat, j2: nat)
    requires PairsReadyWithAvailable(stations, units, 0, stations', units')
    requires j1 < |units| && units'[j1] != units[j1]
    requires j2 < |units| && units'[j2] != units[j2]
    requires units'[j1].instruction == units'[j2].instruction
    ensures j1 == j2
  {
    var rdy := ReadyFrom(stations, 0);
    var t1 := ChangedUnitRunsReadyStation(stations, units, stations', units', j1);
    var t2 := ChangedUnitRunsReadyStation(stations, units, stations', units', j2);
    assert rdy[t1] == rdy[t2];
    AscendingDistinct(rdy, t1, t2);
  }

  /** A strictly ascending list holds each entry at one position only. */
  lemma AscendingDistinct(xs: seq<nat>, a: nat, b: nat)
    requires forall t, t' :: 0 <= t < t' < |xs| ==> xs[t] < xs[t']
    requires a < |xs| && b < |xs| && xs[a] == xs[b]
    ensures a == b
  {
  }

  /** In a strictly ascending list, a smaller entry sits at a smaller position. */
  lemma AscendingOrder(xs: seq<nat>, a: nat, b: nat)
    requires forall t, t' :: 0 <= t < t' < |xs| ==> xs[t] < xs[t']
    requires a < |xs| && b < |xs| && xs[a] < xs[b]
    ensures a < b
  {
  }

  /** First fit, seen from a dispatched station `k` that went to unit `j`:
      every available unit below `j` went to a station before `k`. */
  lemma {:induction false} DispatchIsFirstFit(
    stations: seq<ReservationStation>, units: seq<FunctionalUnit>,
    stations': seq<ReservationStation>, units': seq<FunctionalUnit>, j: nat, j': nat)
    requires PairsReadyWithAvailable(stations, units, 0, stations', units')
    requires j < |units| && units'[j] != units[j]
    requires j' < j && Available(units[j'])
    ensures units'[j'].busy && units'[j'].instruction.Some?
    ensures units'[j'].instruction.value < units'[j].instruction.value
  {
    var rdy := ReadyFrom(stations, 0);
    var avl := AvailableUnits(units);
    var t := ChangedUnitRunsReadyStation(stations, units, stations', units', j);
    var t' := PositionOf(avl, j');
    AscendingOrder(avl, t', t);
    PairedUnitAt(stations, units, stations', units', t');
    assert rdy[t'] < rdy[t];
  }

  /** A ready station that stays busy found no unit: every available unit went
      to a station before it. */
  lemma {:induction false} LeftBehindMeansUnitsExhausted(
    stations: seq<ReservationStation>, units: seq<FunctionalUnit>,
    stations': seq<ReservationStation>, units': seq<FunctionalUnit>, k: nat, j: nat)
    requires PairsReadyWithAvailable(stations, units, 0, stations', units')
    requires k < |stations| && ReadyToExecute(stations[k]) && stations'[k].busy
    requires j < |units| && Available(units[j])
    ensures units'[j].busy && units'[j].instruction.Some? && units'[j].instruction.value < k
  {
    var rdy := ReadyFrom(stations, 0);
    var avl := AvailableUnits(units);
    var m := Min(|rdy|, |avl|);
    assert k in rdy;
    var t :| 0 <= t < |rdy| && rdy[t] == k;
    assert t >= m;
    assert j in avl;
    var t' :| 0 <= t' < |avl| && avl[t'] == j;
    assert avl[..m][t'] == j;
    assert rdy[t'] < rdy[t];
  }

  /** The properties of one `execute` pass, gathered from the pairing. */
  lemma ScheduleProperties(
    stations: seq<ReservationStation>, units: seq<FunctionalUnit>,
    stations': seq<ReservationStation>, units': seq<FunctionalUnit>)
    requires PairsReadyWithAvailable(stations, units, 0, stations', units')
    ensures forall k :: 0 <= k < |stations| && stations'[k] != stations[k] ==>
              ReadyToExecute(stations[k]) && stations'[k] == Dispatched(stations[k])
    ensures forall j :: 0 <= j < |units| && units'[j] != units[j] ==>
              && Available(units[j])
              && units'[j].busy && units'[j].remainingCycles == 1
              && units'[j].instruction.Some? && units'[j].instruction.value < |stations|
              && ReadyToExecute(stations[units'[j].instruction.value])
              && stations'[units'[j].instruction.value] == Dispatched(stations[units'[j].instruction.value])
    ensures forall j1, j2 ::
              (0 <= j1 < |units| && 0 <= j2 < |units| &&
               units'[j1] != units[j1] && units'[j2] != units[j2] &&
               units'[j1].instruction == units'[j2].instruction) ==> j1 == j2
    ensures forall j, j' :: 0 <= j' < j < |units| && units'[j] != units[j] && Available(units[j']) ==>
              units'[j'].busy && units'[j'].instruction.Some? &&
              units'[j'].instruction.value < units'[j].instruction.value
    ensures forall k, j ::
              (0 <= k < |stations| && ReadyToExecute(stations[k]) && stations'[k].busy &&
               0 <= j < |units| && Available(units[j])) ==>
              units'[j].busy && units'[j].instruction.Some? && units'[j].instruction.value < k
  {
    forall k | 0 <= k < |stations| && stations'[k] != stations[k]
      ensures ReadyToExecute(stations[k]) && stations'[k] == Dispatched(stations[k])
    {
      ChangedStationWasReady(stations, units, stations', units', k);
    }
    forall j | 0 <= j < |units| && units'[j] != units[j]
      ensures && Available(units[j])
              && units'[j].busy && units'[j].remainingCycles == 1
              && units'[j].instruction.Some? && units'[j].instruction.value < |stations|
              && ReadyToExecute(stations[units'[j].instruction.value])
              && stations'[units'[j].instruction.value] == Dispatched(stations[units'[j].instruction.value])
    {
      var _ := ChangedUnitRunsReadyStation(stations, units, stations', units', j);
    }
    forall j1, j2 | 0 <= j1 < |units| && 0 <= j2 < |units| &&
              units'[j1] != units[j1] && units'[j2] != units[j2] &&
              units'[j1].instruction == units'[j2].instruction
      ensures j1 == j2
    {
      DispatchIsOneToOne(stations, units, stations', units', j1, j2);
    }
    forall j, j' | 0 <= j' < j < |units| && units'[j] != units[j] && Available(units[j'])
      ensures units'[j'].busy && units'[j'].instruction.Some? &&
              units'[j'].instruction.value < units'[j].instruction.value
    {
      DispatchIsFirstFit(stations, units, stations', units', j, j');
    }
    forall k, j | 0 <= k < |stations| && ReadyToExecute(stations[k]) && stations'[k].busy &&
              0 <= j < |units| && Available(units[j])
      ensures units'[j].busy && units'[j].instruction.Some? && units'[j].instruction.value < k
    {
      LeftBehindMeansUnitsExhausted(stations, units, stations', units', k, j);
    }
  }

  /** `execute`: one pass over the stations in index order; each ready station
      takes the lowest-numbered available unit, if any is left. */
  function Execute(c: Cpu): (r: Cpu)
    ensures r.registers == c.registers && r.instructions == c.instructions
    ensures |r.stations| == |c.stations| && |r.units| == |c.units|
    ensures PairsReadyWithAvailable(c.stations, c.units, 0, r.stations, r.units)
    ensures forall k :: 0 <= k < |c.stations| && r.stations[k] != c.stations[k] ==>
              ReadyToExecute(c.stations[k]) && r.stations[k] == Dispatched(c.stations[k])
    ensures forall j :: 0 <= j < |c.units| && r.units[j] != c.units[j] ==>
              && Available(c.units[j])
              && r.units[j].busy && r.units[j].remainingCycles == 1
              && r.units[j].instruction.Some? && r.units[j].instruction.value < |c.stations|
              && ReadyToExecute(c.stations[r.units[j].instruction.value])
              && !r.stations[r.units[j].instruction.value].busy
    ensures forall j1, j2 ::
              (0 <= j1 < |c.units| && 0 <= j2 < |c.units| &&
               r.units[j1] != c.units[j1] && r.units[j2] != c.units[j2] &&
               r.units[j1].instruction == r.units[j2].instruction) ==> j1 == j2
    ensures forall j, j' :: 0 <= j' < j < |c.units| && r.units[j] != c.units[j] && Available(c.units[j']) ==>
              r.units[j'].busy && r.units[j'].instruction.Some? &&
              r.units[j'].instruction.value < r.units[j].instruction.value
    ensures forall k, j ::
              (0 <= k < |c.stations| && ReadyToExecute(c.stations[k]) && r.stations[k].busy &&
               0 <= j < |c.units| && Available(c.units[j])) ==>
              r.units[j].busy && r.units[j].instruction.Some? && r.units[j].instruction.value < k
    ensures Settled(c) ==> Settled(r)
  {
    var d := DispatchFrom(c.stations, c.units, 0);
    ScheduleProperties(c.stations, c.units, d.0, d.1);
    c.(stations := d.0, units := d.1)
  }
}
