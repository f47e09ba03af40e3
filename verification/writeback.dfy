/** `write_result`: every unit that finishes this cycle computes its station's
    result, latches it into the station, frees itself and broadcasts. */
module WriteBack {
  import opened Wrappers
  import opened Operands
  import opened State
  import opened Arithmetic
  import opened Broadcast

  /** The station unit `j` is executing. */
  function StationOf(c: Cpu, j: nat): nat
    requires WellFormed(c) && j < |c.units| && c.units[j].busy
  {
    c.units[j].instruction.value
  }

  /** What `execute_operation` gives for station `i` as it stands in `c`. */
  function Evaluate(c: Cpu, i: nat): Evaluation
    requires i < |c.stations|
  {
    ExecuteOperation(c.stations[i].operation, c.stations[i].vj, c.stations[i].vk)
  }

  /** Some unit at or after `j` completes on station `i`. */
  ghost predicate Targets(c: Cpu, j: nat, i: nat) {
    exists k :: j <= k < |c.units| && Completing(c.units[k]) && c.units[k].instruction == Some(i)
  }

  /** The body of the loop in `write_result` for one completing unit `j`:
      it raises exactly when `execute_operation` does; otherwise the unit is
      freed, its station holds the value computed, and every `Q` in any
      station, the producer's own included, that equals the producer's
      operation takes that value. Nothing else changes. */
  function Complete(c: Cpu, j: nat): (r: Result<Cpu, Fault>)
    requires WellFormed(c) && j < |c.units| && Completing(c.units[j])
    ensures r.Failure? <==> Evaluate(c, StationOf(c, j)).Raised?
    ensures r.Success? ==>
              && r.value.registers == c.registers && r.value.instructions == c.instructions
              && |r.value.units| == |c.units| && r.value.units[j] == IdleUnit
              && forall k :: 0 <= k < |c.units| && k != j ==> r.value.units[k] == c.units[k]
    ensures r.Success? ==>
              && |r.value.stations| == |c.stations|
              && r.value.stations[StationOf(c, j)].result == Evaluate(c, StationOf(c, j)).result
              && forall k :: 0 <= k < |c.stations| ==>
                   && r.value.stations[k].busy == c.stations[k].busy
                   && r.value.stations[k].operation == c.stations[k].operation
                   && (k != StationOf(c, j) ==> r.value.stations[k].result == c.stations[k].result)
    ensures r.Success? ==>
              forall k :: 0 <= k < |c.stations| ==>
                if Matches(c.stations[k].qj, c.stations[StationOf(c, j)].operation)
                then r.value.stations[k].qj == QNone && r.value.stations[k].vj == Evaluate(c, StationOf(c, j)).result
                else r.value.stations[k].qj == c.stations[k].qj && r.value.stations[k].vj == c.stations[k].vj
    ensures r.Success? ==>
              forall k :: 0 <= k < |c.stations| ==>
                if Matches(c.stations[k].qk, c.stations[StationOf(c, j)].operation)
                then r.value.stations[k].qk == QNone && r.value.stations[k].vk == Evaluate(c, StationOf(c, j)).result
                else r.value.stations[k].qk == c.stations[k].qk && r.value.stations[k].vk == c.stations[k].vk
  {
    var i := StationOf(c, j);
    var rs := c.stations[i];
    match ExecuteOperation(rs.operation, rs.vj, rs.vk)
    case Raised(f) => Failure(f)
    case Value(v) =>
      var latched := c.stations[i := rs.(result := v)];
      Success(c.(stations := Wakeup(latched, rs.operation, v), units := c.units[j := IdleUnit]))
  }

  /** The loop of `write_result` from unit `j` on. A raised fault ends it, as
      the exception ends Python's `run`. */
  function WriteFrom(c: Cpu, j: nat): (r: Result<Cpu, Fault>)
    requires WellFormed(c) && j <= |c.units|
    ensures r.Success? ==>
              var c' := r.value;
              && c'.registers == c.registers && c'.instructions == c.instructions
              && |c'.stations| == |c.stations| && |c'.units| == |c.units|
              && WellFormed(c')
              && (forall k :: 0 <= k < j ==> c'.units[k] == c.units[k])
              && (forall k :: j <= k < |c.units| ==>
                    c'.units[k] == if Completing(c.units[k]) then IdleUnit else c.units[k])
              && (forall i :: 0 <= i < |c.stations| ==>
                    && c'.stations[i].busy == c.stations[i].busy
                    && c'.stations[i].operation == c.stations[i].operation
                    && (c'.stations[i].qj == c.stations[i].qj || c'.stations[i].qj == QNone)
                    && (c'.stations[i].qk == c.stations[i].qk || c'.stations[i].qk == QNone))
              && (forall i :: 0 <= i < |c.stations| && !Targets(c, j, i) ==>
                    c'.stations[i].result == c.stations[i].result)
    decreases |c.units| - j
  {
    if j == |c.units| then Success(c)
    else if Completing(c.units[j]) then
      match Complete(c, j)
      case Failure(f) => Failure(f)
      case Success(c1) =>
        var r := WriteFrom(c1, j + 1);
        assert forall i :: 0 <= i < |c.stations| && !Targets(c, j, i) ==> !Targets(c1, j + 1, i) by {
          forall i | 0 <= i < |c.stations| && Targets(c1, j + 1, i)
            ensures Targets(c, j, i)
          {
            var k :| j + 1 <= k < |c1.units| && Completing(c1.units[k]) && c1.units[k].instruction == Some(i);
            assert c.units[k] == c1.units[k];
          }
        }
        r
    else
      var r := WriteFrom(c, j + 1);
      assert forall i :: 0 <= i < |c.stations| && !Targets(c, j, i) ==> !Targets(c, j + 1, i);
      r
  }

  /** `write_result`. */
  function WriteResult(c: Cpu): (r: Result<Cpu, Fault>)
    requires WellFormed(c)
    ensures r.Success? ==>
              && r.value.registers == c.registers && r.value.instructions == c.instructions
              && |r.value.stations| == |c.stations|
              && WellFormed(r.value)
              && |r.value.units| == |c.units|
              && (forall j :: 0 <= j < |c.units| ==>
                    r.value.units[j] == if Completing(c.units[j]) then IdleUnit else c.units[j])
    ensures r.Success? && Settled(c) ==> AllUnitsIdle(r.value)
  {
    WriteFrom(c, 0)
  }

  /** Every unit completing at or after `j` runs an issued station that waits
      on nothing: the shape `execute` leaves behind. */
  ghost predicate InFlightResolved(c: Cpu, j: nat)
    requires WellFormed(c)
  {
    forall k :: j <= k < |c.units| && Completing(c.units[k]) ==>
      && c.stations[StationOf(c, k)].qj.QNone?
      && c.stations[StationOf(c, k)].qk.QNone?
      && c.stations[StationOf(c, k)].operation.Some?
  }

  /** No two units completing at or after `j` run the same station. */
  ghost predicate InFlightDistinct(c: Cpu, j: nat)
    requires WellFormed(c)
  {
    forall k1, k2 :: j <= k1 < k2 < |c.units| && Completing(c.units[k1]) && Completing(c.units[k2]) ==>
      StationOf(c, k1) != StationOf(c, k2)
  }

  /** Completing unit `j` leaves every other in-flight station as it was: the
      latch writes only station `j` runs, and the broadcast is under a name,
      which a station waiting on nothing never matches. */
  lemma CompleteSparesOthers(c: Cpu, j: nat, i: nat)
    requires WellFormed(c) && j < |c.units| && Completing(c.units[j])
    requires c.stations[StationOf(c, j)].operation.Some?
    requires Complete(c, j).Success?
    requires i < |c.stations| && i != StationOf(c, j)
    requires c.stations[i].qj.QNone? && c.stations[i].qk.QNone?
    ensures Complete(c, j).value.stations[i] == c.stations[i]
  {
    var n := StationOf(c, j);
    var latched := c.stations[n := c.stations[n].(result := Evaluate(c, n).result)];
    WakeupSparesResolved(latched, c.stations[n].operation.value, Evaluate(c, n).result, i);
  }

  /** After completing unit `j`, the later in-flight units and their stations
      are exactly as before, so the in-flight shape carries over. */
  lemma CompleteKeepsInFlight(c: Cpu, j: nat)
    requires WellFormed(c) && j < |c.units| && Completing(c.units[j])
    requires InFlightResolved(c, j) && InFlightDistinct(c, j)
    requires Complete(c, j).Success?
    ensures WellFormed(Complete(c, j).value)
    ensures forall k :: j + 1 <= k < |c.units| && Completing(c.units[k]) ==>
              && Complete(c, j).value.units[k] == c.units[k]
              && Complete(c, j).value.stations[StationOf(c, k)] == c.stations[StationOf(c, k)]
    ensures InFlightResolved(Complete(c, j).value, j + 1)
    ensures InFlightDistinct(Complete(c, j).value, j + 1)
  {
    var c1 := Complete(c, j).value;
    forall k | j + 1 <= k < |c.units| && Completing(c.units[k])
      ensures c1.units[k] == c.units[k]
      ensures c1.stations[StationOf(c, k)] == c.stations[StationOf(c, k)]
    {
      CompleteSparesOthers(c, j, StationOf(c, k));
    }
  }

  /** In the shape `execute` leaves behind, the loop of `write_result` from
      unit `j` on succeeds exactly when none of the in-flight computations
      raises, each taken on its station's operands before the pass starts. */
  lemma {:induction false} WriteFromSucceedsExactly(c: Cpu, j: nat)
    requires WellFormed(c) && j <= |c.units|
    requires InFlightResolved(c, j) && InFlightDistinct(c, j)
    ensures WriteFrom(c, j).Success? <==>
              forall k :: j <= k < |c.units| && Completing(c.units[k]) ==> Evaluate(c, StationOf(c, k)).Value?
    decreases |c.units| - j
  {
    if j == |c.units| {
      return;
    }
    if !Completing(c.units[j]) {
      WriteFromSucceedsExactly(c, j + 1);
      return;
    }
    if Evaluate(c, StationOf(c, j)).Raised? {
      return;
    }
    CompleteKeepsInFlight(c, j);
    var c1 := Complete(c, j).value;
    WriteFromSucceedsExactly(c1, j + 1);
    assert WriteFrom(c, j) == WriteFrom(c1, j + 1);
    assert forall k :: j + 1 <= k < |c.units| && Completing(c.units[k]) ==>
             StationOf(c1, k) == StationOf(c, k) && Evaluate(c1, StationOf(c1, k)) == Evaluate(c, StationOf(c, k));
  }

  /** In the same shape, a successful loop from unit `j` on latches into each
      in-flight station exactly what `execute_operation` computes from that
      station's operands before the pass starts. */
  lemma {:induction false} WriteFromLatches(c: Cpu, j: nat)
    requires WellFormed(c) && j <= |c.units|
    requires InFlightResolved(c, j) && InFlightDistinct(c, j)
    ensures WriteFrom(c, j).Success? ==>
              forall k :: j <= k < |c.units| && Completing(c.units[k]) ==>
                && Evaluate(c, StationOf(c, k)).Value?
                && WriteFrom(c, j).value.stations[StationOf(c, k)].result == Evaluate(c, StationOf(c, k)).result
    decreases |c.units| - j
  {
    if j == |c.units| {
      return;
    }
    if !Completing(c.units[j]) {
      WriteFromLatches(c, j + 1);
      return;
    }
    var n := StationOf(c, j);
    if Evaluate(c, n).Raised? {
      return;
    }
    CompleteKeepsInFlight(c, j);
    var c1 := Complete(c, j).value;
    WriteFromLatches(c1, j + 1);
    var r := WriteFrom(c1, j + 1);
    assert WriteFrom(c, j) == r;
    if r.Success? {
      forall k | j + 1 <= k < |c.units| && Completing(c.units[k])
        ensures Evaluate(c, StationOf(c, k)).Value?
        ensures r.value.stations[StationOf(c, k)].result == Evaluate(c, StationOf(c, k)).result
      {
        assert StationOf(c1, k) == StationOf(c, k);
        assert Evaluate(c1, StationOf(c, k)) == Evaluate(c, StationOf(c, k));
      }
      assert !Targets(c1, j + 1, n);
      assert c1.stations[n].result == Evaluate(c, n).result;
    }
  }

  /** In the shape `execute` leaves behind, the full pass of `write_result`
      latches into every completing unit's station what `execute_operation`
      computes from its operands, and raises exactly when one of those
      computations raises. */
  lemma WriteResultLatchesResults(c: Cpu)
    requires WellFormed(c) && InFlightResolved(c, 0) && InFlightDistinct(c, 0)
    ensures WriteResult(c).Success? <==>
              forall k :: 0 <= k < |c.units| && Completing(c.units[k]) ==> Evaluate(c, StationOf(c, k)).Value?
    ensures WriteResult(c).Success? ==>
              forall k :: 0 <= k < |c.units| && Completing(c.units[k]) ==>
                WriteResult(c).value.stations[StationOf(c, k)].result == Evaluate(c, StationOf(c, k)).result
  {
    WriteFromSucceedsExactly(c, 0);
    WriteFromLatches(c, 0);
  }

  /** Every busy station runs an arithmetic operation, and each of its
      operands that waits on nothing holds a value. */
  ghost predicate OperandsPresent(c: Cpu) {
    forall i :: 0 <= i < |c.stations| && c.stations[i].busy ==>
      && IsArithmetic(c.stations[i].operation)
      && (c.stations[i].qj.QNone? ==> c.stations[i].vj.Some?)
      && (c.stations[i].qk.QNone? ==> c.stations[i].vk.Some?)
  }

  /** Every unit completing at or after `j` runs an arithmetic operation on two
      present operands. */
  ghost predicate InFlightArithmetic(c: Cpu, j: nat)
    requires WellFormed(c)
  {
    forall k :: j <= k < |c.units| && Completing(c.units[k]) ==>
      && IsArithmetic(c.stations[StationOf(c, k)].operation)
      && c.stations[StationOf(c, k)].vj.Some?
      && c.stations[StationOf(c, k)].vk.Some?
  }

  /** One completion of an arithmetic operation on present operands broadcasts
      a present result, so no station is woken into holding `None`. */
  lemma CompleteKeepsOperandsPresent(c: Cpu, j: nat)
    requires WellFormed(c) && j < |c.units| && Completing(c.units[j])
    requires InFlightArithmetic(c, j) && OperandsPresent(c)
    ensures Complete(c, j).Success?
    ensures OperandsPresent(Complete(c, j).value)
  {
    var n := StationOf(c, j);
    var rs := c.stations[n];
    ArithmeticOnValuesIsTotal(rs.operation, rs.vj.value, rs.vk.value);
    var c1 := Complete(c, j).value;
    forall i | 0 <= i < |c1.stations| && c1.stations[i].busy
      ensures IsArithmetic(c1.stations[i].operation)
      ensures c1.stations[i].qj.QNone? ==> c1.stations[i].vj.Some?
      ensures c1.stations[i].qk.QNone? ==> c1.stations[i].vk.Some?
    {
      assert c.stations[i].busy;
    }
  }

  /** Starting from the shape `execute` leaves behind, with only arithmetic
      operations on present operands in flight, `write_result` never raises
      and keeps every waiting-on-nothing operand of a busy station present. */
  lemma {:induction false} WriteFromNeverRaises(c: Cpu, j: nat)
    requires WellFormed(c) && j <= |c.units|
    requires InFlightResolved(c, j) && InFlightDistinct(c, j) && InFlightArithmetic(c, j)
    requires OperandsPresent(c)
    ensures WriteFrom(c, j).Success?
    ensures OperandsPresent(WriteFrom(c, j).value)
    decreases |c.units| - j
  {
    if j == |c.units| {
      return;
    }
    if !Completing(c.units[j]) {
      WriteFromNeverRaises(c, j + 1);
      return;
    }
    CompleteKeepsOperandsPresent(c, j);
    CompleteKeepsInFlight(c, j);
    var c1 := Complete(c, j).value;
    assert InFlightArithmetic(c1, j + 1);
    WriteFromNeverRaises(c1, j + 1);
  }

  /** With no unit finishing, `write_result` changes nothing. */
  lemma {:induction false} NothingCompletingIsNoOp(c: Cpu, j: nat)
    requires WellFormed(c) && j <= |c.units|
    requires forall k :: j <= k < |c.units| ==> !Completing(c.units[k])
    ensures WriteFrom(c, j) == Success(c)
    decreases |c.units| - j
  {
    if j < |c.units| {
      NothingCompletingIsNoOp(c, j + 1);
    }
  }
}
