/** `update_registers`: the wakeup broadcast that follows every completion. */
module Broadcast {
  import opened Wrappers
  import opened Operands
  import opened State

  /** Python's `station.Qj == rs.operation`. The operation is a string once the
      station has been issued into, `None` before; `None == None` holds, and an
      integer never equals a string. */
  predicate Matches(q: Q, op: Option<string>) {
    match q
    case QNone => op.None?
    case QValue(_) => false
    case QName(n) => op == Some(n)
  }

  function WakeStation(rs: ReservationStation, op: Option<string>, result: Option<int>): ReservationStation
  {
    var rs1 := if Matches(rs.qj, op) then rs.(vj := result, qj := QNone) else rs;
    if Matches(rs1.qk, op) then rs1.(vk := result, qk := QNone) else rs1
  }

  /** Broadcast operation `op` with `result` to every station, busy or not.
      The match is on the operation NAME, and only the `j` and `k` operand
      fields of a matching side are written. */
  function Wakeup(stations: seq<ReservationStation>, op: Option<string>, result: Option<int>)
    : (r: seq<ReservationStation>)
    ensures |r| == |stations|
    ensures forall i :: 0 <= i < |r| ==>
              && r[i].busy == stations[i].busy
              && r[i].operation == stations[i].operation
              && r[i].result == stations[i].result
    ensures forall i :: 0 <= i < |r| ==>
              if Matches(stations[i].qj, op) then r[i].qj == QNone && r[i].vj == result
              else r[i].qj == stations[i].qj && r[i].vj == stations[i].vj
    ensures forall i :: 0 <= i < |r| ==>
              if Matches(stations[i].qk, op) then r[i].qk == QNone && r[i].vk == result
              else r[i].qk == stations[i].qk && r[i].vk == stations[i].vk
  {
    seq(|stations|, i requires 0 <= i < |stations| => WakeStation(stations[i], op, result))
  }

  /** A named broadcast leaves no station waiting on that name. */
  lemma WakeupResolvesName(stations: seq<ReservationStation>, name: string, result: Option<int>)
    ensures forall i :: 0 <= i < |stations| ==>
              Wakeup(stations, Some(name), result)[i].qj != QName(name) &&
              Wakeup(stations, Some(name), result)[i].qk != QName(name)
  {
  }

  /** The first broadcast of a name wins: a second broadcast of the same name,
      whatever its result, changes nothing, because the first one cleared every
      `Q` that matched. */
  lemma {:induction false} FirstBroadcastWins(stations: seq<ReservationStation>, name: string, r1: Option<int>, r2: Option<int>)
    ensures Wakeup(Wakeup(stations, Some(name), r1), Some(name), r2) == Wakeup(stations, Some(name), r1)
  {
    var w1 := Wakeup(stations, Some(name), r1);
    var w2 := Wakeup(w1, Some(name), r2);
    forall i | 0 <= i < |w1|
      ensures w2[i] == w1[i]
    {
      assert !Matches(w1[i].qj, Some(name)) && !Matches(w1[i].qk, Some(name));
    }
  }

  /** A `Q` holding a register's value is never matched, so it is never
      cleared: a station issued with a register operand keeps waiting. */
  lemma RegisterValueNeverWakes(stations: seq<ReservationStation>, op: Option<string>, result: Option<int>, i: nat)
    requires i < |stations| && stations[i].qj.QValue?
    ensures Wakeup(stations, op, result)[i].qj == stations[i].qj
    ensures !ReadyToExecute(Wakeup(stations, op, result)[i])
  {
  }

  /** A broadcast under a name leaves every station that is waiting on nothing
      untouched. */
  lemma {:induction false} WakeupSparesResolved(stations: seq<ReservationStation>, name: string, result: Option<int>, i: nat)
    requires i < |stations| && stations[i].qj.QNone? && stations[i].qk.QNone?
    ensures Wakeup(stations, Some(name), result)[i] == stations[i]
  {
    var r := Wakeup(stations, Some(name), result);
    assert r[i].qj == stations[i].qj && r[i].vj == stations[i].vj;
    assert r[i].qk == stations[i].qk && r[i].vk == stations[i].vk;
  }
}
