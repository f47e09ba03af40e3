# Tomasulo scheduling engine — a Dafny model

This project models the scheduling engine of `main.py`: the `TomasuloCPU`
class with its `ReservationStation` and `FunctionalUnit` records. The CPU is
one sequential, deterministic state machine over a list of reservation
stations, a list of functional units and a register file. Each iteration of
`run` issues the next instruction, then runs `execute` (dispatch), then
`write_result` (completion and wakeup broadcast).

The model follows the code as written, which is simpler than the textbook
algorithm:

- There is no destination register and no register-status table. Results
  are latched into the producing station and broadcast to every station,
  the producer included (its own `Q`s are already `None`, so it is
  unaffected), but never committed to the register file. The register file is
  read-only: every step returns it unchanged.
- A station's `Qj`/`Qk` is whatever `get_rs_or_register` returned. That is
  `None` for a decimal literal, the register's value for a known register,
  and the operand string itself for any other name. Wakeup compares `Q`
  with the completing station's operation name (`"ADD"`, ...), not with a
  station tag. A register operand therefore leaves `Q` holding an integer
  that no broadcast ever matches, and the station never becomes ready.
- `remaining_cycles` is set to 1 at dispatch and never decremented. A unit
  dispatched in `execute` completes in the `write_result` of the same
  cycle, so every unit is idle at the end of every iteration.
- An instruction that finds every station busy is dropped. The instruction
  index advances anyway.
- `run` stops once every instruction has been offered and no unit is busy.
  It does not wait for busy or ready stations: `Demo.RunEndsWithReadyStation`
  exhibits a station that becomes ready in the last iteration and is never
  executed. A fuller design would stall issue, tag producers with station
  identities and commit results to registers; the code does none of this,
  and the model follows the code.

Layout, one module per file:

- `wrappers.dfy` (`Wrappers`): `Option` (Python's `None`) and `Result`
  (a raised exception).
- `operands.dfy` (`Operands`): the register file, the three-way `Q`,
  `isdigit`/`int()` on ASCII decimal strings, `get_value` and
  `get_rs_or_register`.
- `arithmetic.dfy` (`Arithmetic`): `execute_operation` and
  `get_execution_time`.
- `scan.dfy` (`Scan`): first-match and all-matches index scans, the two loop
  shapes the CPU is built from.
- `state.dfy` (`State`): the records, the CPU state and the constructor.
- `broadcast.dfy` (`Broadcast`): `update_registers`.
- `issue.dfy` (`Issue`), `dispatch.dfy` (`Dispatch`), `writeback.dfy`
  (`WriteBack`), `run.dfy` (`Run`): the three stages and the loop.
- `demo.dfy` (`Demo`): concrete runs, including the driver at the bottom of
  `main.py`.

A functional unit's reference to its station is modelled as the station's
index. Station objects are created once and never replaced in the list, so
an index names the same object for the whole run. `WellFormed` states that
every busy unit holds a valid index. `Settled` adds that every busy unit has
one cycle left, which is the state every iteration of `run` starts from.
A fresh CPU satisfies both.

## Model

| member | source | states |
|---|---|---|
| Operands.DecimalValue | main.py:61-62 | `int()` of an n-digit decimal string is below 10^n |
| Operands.DecimalRoundTrip | main.py:61-62 | reading back the canonical decimal spelling of n gives n |
| Operands.LeadingZeroIgnored | main.py:61-62 | a leading zero does not change the value `int()` reads |
| Operands.GetValue | main.py:60-66 | a literal gives its decimal value, then a known register gives its value, else `None`; `None` exactly for an unknown non-literal |
| Operands.GetRsOrRegister | main.py:68-74 | `Q` is `None` exactly for a literal, the register's value for a known register, and the operand itself for any other name |
| Operands.ResolutionAgrees | main.py:60-74 | `V` is missing exactly when `Q` is a name; a register puts its value in both fields; an empty `Q` comes with a present `V` |
| Operands.LiteralIgnoresRegisters | main.py:60-74 | a digit string resolves the same under every register file, even one with a register of that spelling |
| Operands.LiteralResolvesToItsValue | main.py:60-74 | the decimal spelling of any n resolves to `V` = n and `Q` = `None` |
| Arithmetic.ExecuteOperation | main.py:85-93 | raises exactly for ADD/SUB/MUL/DIV with a missing operand, or for DIV; returns `None` exactly for an operation outside that chain; otherwise the sum, difference or product |
| Arithmetic.ArithmeticOnValuesIsTotal | main.py:85-91 | ADD, SUB and MUL on two present operands never raise and give a present result |
| Scan.First | main.py:27-28 | the first-match loop returns the lowest index passing the test, or none when no index passes |
| Scan.Where | main.py:39-40 | the all-matches loop lists exactly the passing indices, strictly ascending |
| State.NewCpu | main.py:19-24 | the constructor makes max(n, 0) fresh stations and max(m, 0) idle units, an empty register file and no instructions; the state is settled, no unit is busy and no busy station lacks an operation |
| Broadcast.Wakeup | main.py:76-83 | every station, busy or not, whose `Qj` equals the operation gets `Vj` = result and `Qj` = `None`, likewise for `k`; every other field and station is unchanged |
| Broadcast.WakeupResolvesName | main.py:76-83 | after a broadcast under a name no station waits on that name |
| Broadcast.FirstBroadcastWins | main.py:76-83 | a second broadcast under the same name changes nothing, whatever its result |
| Broadcast.RegisterValueNeverWakes | main.py:68-83 | a `Q` holding a register's value survives every broadcast, so its station is never ready |
| Broadcast.WakeupSparesResolved | main.py:76-83 | a broadcast under a name leaves a station waiting on nothing exactly as it was |
| Issue.FirstFree | main.py:27-28 | the chosen station is the lowest-index non-busy one; none exactly when all are busy |
| Issue.Issue | main.py:26-36 | the lowest-index free station becomes busy with the operation and the resolved `V`/`Q` of both operands, its old result kept; every other station, the units and the registers are unchanged; with all stations busy the state is unchanged |
| Issue.IssueOccupiesOneStation | main.py:26-36 | issuing raises the busy-station count by exactly one, or leaves it at the total when all were busy |
| Dispatch.FirstAvailable | main.py:41-42 | the chosen unit is the lowest-index one that is not busy with no cycles left |
| Dispatch.DispatchFrom | main.py:39-48 | the station-order loop pairs the t-th ready station with the t-th available unit, for as many pairs as both lists supply, and changes no other station or unit |
| Dispatch.Execute | main.py:38-48 | only ready stations are dispatched, each becoming not busy with `result` cleared; a loaded unit was available and now runs a ready station for one cycle; no two units get the same station; every available unit below a loaded unit went to an earlier station; a ready station left busy found every available unit taken by an earlier station; registers unchanged and the state stays settled |
| WriteBack.Complete | main.py:52-58 | a completing unit raises exactly when `execute_operation` raises on its station; otherwise that unit becomes idle and the others are unchanged, the station holds the computed value as `result`, and in every station, the producer included, each `Qj`/`Qk` equal to the producer's operation becomes `None` with `Vj`/`Vk` set to the value; busy flags, operations, other results and every other operand stay as they were |
| WriteBack.WriteFrom | main.py:51-58 | the unit loop frees exactly the completing units, keeps registers, busy flags and operations, only ever clears a `Q`, and touches results only of stations some completing unit runs |
| WriteBack.WriteResult | main.py:50-58 | `write_result` frees exactly the completing units and keeps the registers; from a settled state every unit ends idle |
| WriteBack.CompleteSparesOthers | main.py:52-58 | one completion leaves every other station that waits on nothing exactly as it was |
| WriteBack.CompleteKeepsInFlight | main.py:52-58 | after one completion the later in-flight units and their stations are unchanged |
| WriteBack.WriteFromSucceedsExactly | main.py:51-58 | in the shape dispatch leaves, the loop from a given unit on succeeds exactly when no in-flight `execute_operation` call raises, each taken on its station's operands before the pass |
| WriteBack.WriteFromLatches | main.py:51-58 | in the same shape, a successful loop latches into each in-flight station what `execute_operation` computes from that station's operands |
| WriteBack.WriteResultLatchesResults | main.py:50-58 | the same for the whole of `write_result` |
| WriteBack.CompleteKeepsOperandsPresent | main.py:52-58 | a completion of ADD/SUB/MUL on present operands succeeds and never wakes a busy station into holding `None` |
| WriteBack.WriteFromNeverRaises | main.py:50-58 | with only ADD/SUB/MUL on present operands in flight, the loop never raises and keeps busy stations' resolved operands present |
| WriteBack.NothingCompletingIsNoOp | main.py:50-58 | with no unit completing, `write_result` changes nothing |
| Run.Cycle | main.py:102-107 | one iteration ends with every unit idle, registers and instructions unchanged, and every busy station still naming an operation; on ADD/SUB/MUL instructions from idle units it never raises and keeps busy stations' resolved operands present |
| Run.RunFrom | main.py:98-112 | from instruction index i the loop runs n - i more iterations, or one when none is left; every busy station keeps naming an operation; on ADD/SUB/MUL instructions it never raises |
| Run.Run | main.py:98-112 | `run` runs exactly max(n, 1) iterations for n instructions, ends with every unit idle and the register file unchanged, and every busy station still names an operation; with only ADD/SUB/MUL instructions, `execute_operation` never sees a `None` operand, so `run` does not raise and busy stations' resolved operands stay integers |
| Run.IssueKeepsOperandsPresent | main.py:26-36 | issuing ADD/SUB/MUL keeps every busy station's resolved operands present |
| Run.ExecuteFromIdleLoadsResolved | main.py:38-48 | from idle units, dispatch loads distinct stations waiting on nothing, running ADD/SUB/MUL on present operands |
| Run.ExecuteLoadsNamedStations | main.py:38-48 | from idle units and for any operation names, dispatch loads distinct stations that wait on nothing and name their operation, and busy stations keep naming one |
| Run.CycleLatchesResults | main.py:101-107 | for any operation names, an iteration from idle units raises exactly when `execute_operation` raises for a station just handed to a unit, and otherwise latches into each such station what `execute_operation` computes from its operands: the sum, difference or product, or `None` for an unknown operation |
| Demo.DriverRun | main.py:115-122 | the driver runs three iterations and stops with all three stations busy, each `Q` holding a register value |
| Demo.RunEndsWithReadyStation | main.py:98-112 | a consumer issued under the name `ADD` is woken by a later ADD, but `run` stops after two iterations with it ready and never executed |
| Demo.FullStationsDropInstruction | main.py:26-36 | with one stuck station the next instruction is dropped for good, and `run` stops after two iterations |

## Left out

- `DIV`: Python's `/` is true division and yields a float. `ExecuteOperation`
  returns the fault `DivisionNotModelled` for DIV on present operands
  instead of a value.
- `str.isdigit` accepts every Unicode digit; the model accepts ASCII `0`-`9`
  only, and `int()` is a decimal fold over them.
- Register values are integers; Python would store any object.
- A missing `"op"`, `"src1"` or `"src2"` key (a `KeyError`) is not modelled:
  instructions are records with all three fields.
- A busy unit holding no station cannot arise from the code and is excluded
  by `WellFormed` rather than modelled as an `AttributeError`.
- The unused `cycle` parameters of `issue`, `execute` and `write_result`.
- The `instruction["rs_index"] = i` write: `Issue.Issue` returns the chosen
  slot, and `run` discards it, since nothing reads it.
- When an operation raises, Python has already mutated earlier stations and
  units; the model returns only the fault, not the partial state.
- The module-level driver (`main.py:115-122`) is not part of the model; it
  appears only as the concrete run `Demo.DriverRun`.
