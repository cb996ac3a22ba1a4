# rrtl: the scalar simulator, its checks and its generators

rrtl is a small register-transfer language with a checker, a scalar simulator
and generators for ready/valid buffering hardware. The scalar simulator is the
oracle the other backends are compared with, so this project models that
simulator, the checks its settling loop relies on, and the hardware the
generators emit, and proves what they promise. A second, smaller part models
the systolic multiply-accumulate array and its reference matrix product.

How the modules build on one another:

- **Words and expressions** (`words`, `rtl`, `semantics`, `agreement`,
  `readings`, `typedruns`). Machine words are numbers below 2^128 with wrap-around
  written out. `Eval` is the simulator's raw, unmasked evaluation; `Meaning` is the
  same expression on exactly its own width. `Agreement` says when the two coincide,
  `Readings` which integers they stand for, `TypedRuns` what the type checks buy.
- **Dependencies and cycles** (`paths`, `depends`, `cyclecheck`, `portdeps`,
  `flatten`). The depth-first searches decide reachability of a cycle; the
  port-by-port check of every module decides acyclicity of the flattened design.
- **Settling** (`simulation`, `settling`, `bound`, `convergence`, `fixpoint`,
  `ranking`, `stale`). The bounded loop of `eval_combinational` over a hierarchy:
  when its bound is enough, what the settled state depends on, and a design for
  which the bound is too small.
- **The simulator object** (`simulator`). A class whose methods update values,
  memories and child simulators in place, each proved to compute the function of
  `Simulation` it stands for.
- **Runs** (`range`, `runs`, `clocks`, `levels`, `memwrites`, `holds`). Sequences of `set` and clock-edge calls
  from construction, observed at any instance of the hierarchy.
- **Flattened simulation** (`flatdesign`, `flateval`, `flatsane`, `flatwrites`,
  `flatsim`). One module with all signals, assignments, connections and memory
  writes of the tree, run in step with the tree.
- **Ready/valid stages** (`streams`, `ring`, `readyvalid`, `gates`,
  `fifocontrol`, `fifo`, `memfifo`, `skid`, `bundles`, `emission`, `builder`,
  `emitted`, `stages`, `equivalence`, `fields`, `pipeline`, `modules`, `series`,
  `assembly`). The builder emits netlists as expression data; the simulator running
  them is an abstract queue, alone and chained.
- **State registers** (`statemachine`), **the systolic array** (`systolic`) and
  **validation and compilation** (`typecheck`, `designs`, `distinct`, `compile`).

Three kinds of statement recur. `Settleable(t)` is the condition under which the
settling bound suffices: every level well formed, ranked within its bound, and
asynchronous resets only at the top and only from input ports; for a flat module
it follows from the checks plus that restriction on resets
(`Ranking.FlatSettleable`), for a hierarchy from acyclicity with each instance
taken as one node (`Ranking.CoarseSettles`, `Designs.CheckedSettles`), and for a
module holding one generated stage, or a chain of such modules, it is proved
outright (`StageModules`, `Assembly`).
`Disciplined(m, e)` says that every operand whose whole word is looked at is
canonical: its word is known to have no bits above its width. `Unheld(t)`
excludes hold-muxes, assignments of the form `d = mux(c, v, d)`.

## Findings

Behaviour of the code that differs from what its checks or its language suggest.
Each has its input and its exact condition.

- **Stale settling.** `validate_comb_cycles` accepts a design that
  `eval_combinational` does not settle. A child passes two lanes straight
  through; the parent, with no assignments and this one instance, feeds its input
  x into lane 0, lane 0's output w into lane 1, and lane 1's output into y. Port by port
  nothing is cyclic (`StaleSettle.Accepted`), but the loop bound
  `assignments + instances` is one round and a value needs two
  (`StaleSettle.NotLevelled`). After `set(x, v)` on a settled state, y still
  shows the previous x, and the design is settled exactly when v equals it
  (`StaleSettle.StaleOutput`). From construction: setting x to any nonzero value
  leaves y at 0 (`StaleSettle.StaleFromStart`, any width; width 1 and v = 1 is the
  smallest case).
- **Complement in a mux condition.** The simulator complements all 128 bits, so
  `mux(!c, t, f)` takes t for every c of width below 128. It is right exactly
  when c is 0 or both branches mean the same (`Agreement.MuxOfNot`; input a = 1 in
  `Agreement.MuxOfNotWitness`).
- **Complement compared.** `eq(!l, r)` at widths below 128 is always 0; right
  exactly when the two sides differ (`Agreement.EqualToNot`; input a = 0 of
  `eq(!a, 1)` in `Agreement.EqualToNotWitness`).
- **Complement widened.** `zext(!e, width)` fills the new bits with ones; right
  exactly when nothing is widened (`Agreement.WidenedNot`; input a = 0 of
  `zext(!a, 2)` in `Agreement.WidenedNotWitness`).

- **Complement as a write enable.** A memory write is made whenever the whole enable
  word is nonzero, so `mem_write(.., !c, ..)` writes at every edge; right exactly
  when c is 0 (`MemoryWrites.EnabledByNot`; input high in
  `MemoryWrites.EnabledByNotWitness`).

The last four share a cause, an unmasked word looked at beyond its width. Sums,
differences and products that overflow, and the other places that look at a
whole word (lower parts of a `concat`, memory addresses), share it too.
`Agreement.EvalAgrees` says where nothing of the kind can happen, for every
expression of at most 128 bits, and `Emitted` that the generators stay there.

## Model

| member | source | states |
|---|---|---|
| `Words.MaskIsLow` | crates/rrtl-core/src/lib.rs:5820-5826 | bitwise `and` with `mask(w)` keeps exactly the low w bits of a machine word, at every width, 128 and above included |
| `Words.SignedRoundTrip` | crates/rrtl-core/src/lib.rs:5803-5846 | a value that fits a signed type is read back by `signed_value` from its encoding, at every width from 1 to 128 |
| `Words.SextPreserves` | crates/rrtl-core/src/lib.rs:6440-6446 | sign extension keeps the signed value |
| `Words.CeilLog2Tight` | crates/rrtl-core/src/lib.rs:916-918 | `ceil_log2_usize(n)` is the least width whose power of two reaches n, so FIFO counters neither wrap nor waste a bit |
| `Agreement.EvalAgrees` | crates/rrtl-core/src/lib.rs:6401-6469 | for every well-typed expression whose width-observing operands are canonical, over values in range, the simulator's word cut to the width is the width-exact meaning, and a canonical expression needs no cut |
| `Agreement.MuxOfNot` | crates/rrtl-core/src/lib.rs:6405-6435 | a mux on a complement takes the first branch always, and is right if and only if the complemented value is 0 or the branches mean the same |
| `Agreement.MuxOfNotWitness` | crates/rrtl-core/src/lib.rs:6425-6435 | a well-typed one-bit expression and an in-range input for which the simulator answers 1 and the meaning is 0 |
| `Agreement.EqualToNot` | crates/rrtl-core/src/lib.rs:6405-6412 | equality with a complement below 128 bits answers 0 always, and is right if and only if the two sides differ |
| `Agreement.EqualToNotWitness` | crates/rrtl-core/src/lib.rs:6412 | a well-typed one-bit equality and an input at 0 for which the simulator answers 0 and the meaning is 1 |
| `Agreement.WidenedNot` | crates/rrtl-core/src/lib.rs:6437-6439 | zero extension of a complement is right if and only if it does not widen |
| `Agreement.WidenedNotWitness` | crates/rrtl-core/src/lib.rs:6437-6439 | a one-bit complement widened to two bits and an input at 0 for which the simulator answers 3 and the meaning is 1 |
| `Readings.FitsRead` | crates/rrtl-core/src/lib.rs:5803-5818 | below 128 bits a value fits a type exactly when some word of the type, read by its signedness, is that value |
| `Readings.MeaningBound` | crates/rrtl-core/src/lib.rs:5424-5612 | every well-typed expression means a number of the width the checker gives it |
| `Readings.SumReads` | crates/rrtl-core/src/lib.rs:6409 | a sum reads as the integer sum of its operands brought into their common type; if that fits the type it is the sum |
| `Readings.DifferenceReads` | crates/rrtl-core/src/lib.rs:6410 | the same for differences |
| `Readings.ProductReads` | crates/rrtl-core/src/lib.rs:6411 | the same for products, signed or unsigned |
| `Readings.WrapsOneWay` | crates/rrtl-core/src/lib.rs:6409-6411 | there is one way to bring an integer into a type, and an integer of the type stays |
| `Readings.TimesLaws` | crates/rrtl-core/src/lib.rs:6411 | multiplying by literal 0 gives 0 and by literal 1 the operand, and the product distributes over `+`, on widths and on raw words |
| `Readings.BitsRead` | crates/rrtl-core/src/lib.rs:6406-6408 | xor plus twice and, and or plus and, are the sum of the operands, on widths and on raw words |
| `Readings.NotReads` | crates/rrtl-core/src/lib.rs:6405 | a complement reads as -1 - v when signed and counts down from the top of the type when unsigned |
| `Readings.CompareReads` | crates/rrtl-core/src/lib.rs:6412-6424 | comparisons compare the integers the operands read as, in either signedness |
| `Readings.MuxReads` | crates/rrtl-core/src/lib.rs:6425-6435 | a mux condition reads 0 or 1 and chooses the integer of one branch |
| `Readings.LitReads` | crates/rrtl-core/src/lib.rs:6403 | a well-typed literal below 128 bits reads as its value |
| `Readings.ZextReads` | crates/rrtl-core/src/lib.rs:6437-6439 | a well-typed zero extension keeps the word's number, which fits the new width |
| `Readings.SextReads` | crates/rrtl-core/src/lib.rs:6440-6446 | a well-typed sign extension reads as the operand's signed number |
| `Readings.TruncReads` | crates/rrtl-core/src/lib.rs:6437-6439 | a well-typed truncation keeps the integer modulo the new width and brings it into the operand's signedness |
| `Readings.CastReads` | crates/rrtl-core/src/lib.rs:6447-6450 | a cast keeps the integer modulo the width and brings it into the new signedness |
| `Readings.PlainReads` | crates/rrtl-core/src/lib.rs:5424-5612 | slices, concatenations, comparisons and zero extensions are unsigned |
| `Readings.PartsRead` | crates/rrtl-core/src/lib.rs:6436-6460 | a slice is the number divided by 2^lsb modulo 2^width; a concatenation puts its first part above the rest |
| `Readings.AddressReads` | crates/rrtl-core/src/lib.rs:6461-6467 | the address of a well-typed memory read lies in the address space, and the read is the integer of the word there, 0 past the end |
| `TypedRuns.RunsWhole` | crates/rrtl-core/src/lib.rs:4565-4639 | on every run of a validated settleable design, at every instance, each assignment with a disciplined expression holds: the destination has exactly what the expression means, with no truncation, and reads as the same integer |
| `TypedRuns.TicksWhole` | crates/rrtl-core/src/lib.rs:4951-5024 | after one more edge a register reads as its reset value, as what its next value means, or as before, by the level of its reset and its clock |
| `TypedRuns.WriteWhole` | crates/rrtl-core/src/lib.rs:4641-4726 | an accepted memory write fires exactly when its enable means 1, at the address its address means, inside the address space, and stores the integer its data means |
| `TypedRuns.ConnectedWhole` | crates/rrtl-core/src/lib.rs:5026-5213 | in a settled state both ends of every connection of a validated design have one type and read as the same integer |
| `TypedRuns.CheckIsBit` | crates/rrtl-core/src/lib.rs:4829-4950 | the condition and enable of an accepted assertion or cover point mean 0 or 1, and its clock is a bit of the module |
| `TypedRuns.ControlIsBit` | crates/rrtl-core/src/lib.rs:4951-5024 | the clock and reset of an accepted register are signals of its module that hold 0 or 1 |
| `CycleCheck.CycleSearch.HasCycle` | crates/rrtl-core/src/lib.rs:5398-5418 | the depth-first search answers true exactly when the node reaches a cycle, stops, and leaves the finished nodes in a topological order that only grows |
| `CycleCheck.CheckAcyclic` | crates/rrtl-core/src/lib.rs:5232-5265 | the whole search answers no cycle exactly when the graph is acyclic, and then has a topological order of all its nodes |
| `CycleCheck.CheckHierarchy` | crates/rrtl-core/src/lib.rs:3646-3681 | the hierarchy search flags exactly the modules that reach an instantiation cycle |
| `PortDeps.BuildGraph` | crates/rrtl-core/src/lib.rs:5215-5231 | the graph built for a module maps a signal to another exactly when an assignment or, through its port dependencies, an instance makes the first depend on the second, hold-mux self-reads left out |
| `PortDeps.ModulePortDeps` | crates/rrtl-core/src/lib.rs:5303-5374 | the work-list analysis maps each output to exactly the inputs it reaches combinationally, through all levels below |
| `PortDeps.ValidateCombCycles` | crates/rrtl-core/src/lib.rs:5215-5266 | the module check passes if and only if the module's dependency graph is acyclic |
| `Flatten.PortDepIsFlatPath` | crates/rrtl-core/src/lib.rs:5303-5374 | an output depends on an input port-wise if and only if a path joins them in the fully flattened dependency graph |
| `Flatten.CheckIsCompositional` | crates/rrtl-core/src/lib.rs:5215-5374 | all per-module graphs of a tree are acyclic if and only if the fully flattened graph is |
| `Flatten.ValidateLevels` | crates/rrtl-core/src/lib.rs:5215-5266 | running the check on every level decides acyclicity of the flattened graph |
| `SimulatorObject.Simulator.New` | crates/rrtl-core/src/lib.rs:5938-6013 | a new simulator tree holds the initial values and memories of every level, settled |
| `ResetLevels.StartReads` | crates/rrtl-core/src/lib.rs:5938-5957 | in a new simulator a register of any instance without asynchronous reset reads the encoding of the first initial value given for it, 0 without one |
| `ResetLevels.AsyncStartReads` | crates/rrtl-core/src/lib.rs:5938-5957 | a top register with an asynchronous reset reads that, or its reset value while the level of the reset acts |
| `ResetLevels.StartHoldsWords` | crates/rrtl-core/src/lib.rs:5958-5973 | every in-range word of every memory is the encoding of the last initial value given for its address, 0 without one |
| `SimulatorObject.Simulator.Set` | crates/rrtl-core/src/lib.rs:6016-6020 | `set` stores the masked value and settles: the new state of the whole tree is the function `SetSignal` of the old one |
| `SimulatorObject.Simulator.ApplyAsyncResets` | crates/rrtl-core/src/lib.rs:6316-6337 | collect-then-write gives every asserted asynchronous register its reset encoding, touches nothing else, and reports a change exactly when a value changed |
| `SimulatorObject.Simulator.EvalCombinational` | crates/rrtl-core/src/lib.rs:6286-6399 | the in-place loop with its early exit, driving and settling children, computes `Settle` of the tree's state and leaves memories alone |
| `SimulatorObject.Simulator.CaptureTick` | crates/rrtl-core/src/lib.rs:6147-6243 | the captured edge holds, at every level, exactly the register values and memory writes of one settled state, before anything is written |
| `SimulatorObject.Simulator.ApplyTick` | crates/rrtl-core/src/lib.rs:6270-6284 | applying a captured edge advances every level at once |
| `SimulatorObject.Simulator.Tick` | crates/rrtl-core/src/lib.rs:6036-6065 | the whole two-phase edge, for all clocks or a set of active clocks, computes `Simulation.Tick` on the tree's state |
| `ResetLevels.TickSettlesFirst` | crates/rrtl-core/src/lib.rs:6036-6065 | in a settleable design a tick from any state is a tick from the settled one |
| `ResetLevels.PrepareRefreshes` | crates/rrtl-core/src/lib.rs:6147-6152 | before capturing, each child is settled with its inputs at its parent's values, even if the parent is not settled |
| `ResetLevels.SettledByLevel` | crates/rrtl-core/src/lib.rs:6316-6344 | settling loads an asynchronous register while its reset signal is 0 (active low) or nonzero (active high), and leaves it alone otherwise |
| `ResetLevels.AnyResetsByLevel` | crates/rrtl-core/src/lib.rs:6286-6337 | in any design, whatever drives its resets and even if the loop ends unsettled, a register whose asynchronous reset acts holds its reset value after the loop, as long as no such register is the reset of another |
| `ResetLevels.SetReads` | crates/rrtl-core/src/lib.rs:6016-6020 | `set` stores the value cut to the signal's width, the whole word under a foreign handle, and changes nothing else that is not driven |
| `ResetLevels.EdgeByLevel` | crates/rrtl-core/src/lib.rs:6153-6166 | an edge of its clock, or any edge without one, loads a register's reset value at the acting level and its masked next value otherwise; other edges leave it |
| `ResetLevels.TickByLevel` | crates/rrtl-core/src/lib.rs:6036-6065 | the same of a whole tick, for synchronous resets at any instance of a settled design |
| `ResetLevels.AsyncTickByLevel` | crates/rrtl-core/src/lib.rs:6036-6065 | the same for asynchronous resets at the top, which hold their value at the acting level whichever clocks rise |
| `MemoryWrites.EdgeWrites` | crates/rrtl-core/src/lib.rs:6167-6284 | after an edge every memory word is the masked data of the last enabled write to its address, evaluated before the edge, or what it was |
| `MemoryWrites.OutsideChangesNothing` | crates/rrtl-core/src/lib.rs:6276-6282 | a write to an address outside the memory changes no word |
| `MemoryWrites.ReadsBackWritten` | crates/rrtl-core/src/lib.rs:6461-6467 | a memory read gives the word at its address, 0 past the end or without such a memory |
| `MemoryWrites.EnabledByNot` | crates/rrtl-core/src/lib.rs:6167-6180 | a write enabled by a complement always happens, which is right if and only if the complemented value is 0 |
| `MemoryWrites.EnabledByNotWitness` | crates/rrtl-core/src/lib.rs:6167-6180 | a one-bit input at 1, complemented as enable, and a memory that is written all the same |
| `Bound.SettleSettles` | crates/rrtl-core/src/lib.rs:6286-6314 | for a settleable design and any starting state, the bounded loop ends with every assignment, connection and asserted reset satisfied at every level |
| `Convergence.Determined` | crates/rrtl-core/src/lib.rs:6286-6314 | two settled states of a design without hold-muxes and with the same stored values agree on a signal as soon as they agree on the inputs it depends on port by port |
| `Fixpoint.SettledFixed` | crates/rrtl-core/src/lib.rs:6286-6314 | a settled state is a fixpoint: one more round changes and reports nothing |
| `Fixpoint.SettledUnique` | crates/rrtl-core/src/lib.rs:6286-6314 | given stored values and inputs, at most one settled state exists, at every level |
| `Fixpoint.SettleStoresResets` | crates/rrtl-core/src/lib.rs:6286-6337 | settling leaves inputs and memories alone and each register at its reset encoding if its asynchronous reset is asserted by an input, at its old value otherwise |
| `Fixpoint.SettleForgetsWires` | crates/rrtl-core/src/lib.rs:6286-6314 | the settled state does not depend on earlier wire and output values |
| `Fixpoint.SetsCommute` | crates/rrtl-core/src/lib.rs:6016-6020 | from a state whose asserted resets hold, two `set` calls on different inputs commute, asynchronous resets driven by those inputs included |
| `Fixpoint.OrderIrrelevant` | crates/rrtl-core/src/lib.rs:6293-6303 | reordering a module's assignments does not change what it settles to |
| `Ranking.FlatSettleable` | crates/rrtl-core/src/lib.rs:5215-5266 | a flat single-driver module the cycle check accepts, with asynchronous resets only from inputs, is settleable: its assignment count is a large enough bound |
| `Ranking.FlatSettles` | crates/rrtl-core/src/lib.rs:6286-6314 | such a module always settles; without hold-muxes the result depends only on stored values and inputs, whatever the assignment order and earlier wire values |
| `HoldMuxes.HoldsPass` | crates/rrtl-core/src/lib.rs:5743-5757 | a flat module passes the cycle check exactly when it is acyclic apart from assignments `d = mux(c, v, d)`, told by their shape with any condition, and then it settles from every state |
| `HoldMuxes.OneHold` | crates/rrtl-core/src/lib.rs:5743-5757 | a single hold-mux over inputs passes and settles |
| `HoldMuxes.HoldShows` | crates/rrtl-core/src/lib.rs:6293-6302 | in a settled state a hold-mux whose condition is nonzero shows its masked new value |
| `HoldMuxes.DepsAre` | crates/rrtl-core/src/lib.rs:5737-5797 | the dependencies of an expression are exactly the signals it mentions, the contents of memories left out |
| `Ranking.CoarseSettles` | crates/rrtl-core/src/lib.rs:6286-6375 | a hierarchy acyclic with each instance taken as one node settles at every level within `assignments + instances` rounds |
| `StaleSettle.Accepted` | crates/rrtl-core/src/lib.rs:5215-5266 | the pass-through design is well formed and acyclic at both levels, so the check accepts it |
| `StaleSettle.NotLevelled` | crates/rrtl-core/src/lib.rs:6287-6292 | its dependency chain is longer than the loop bound |
| `StaleSettle.StaleOutput` | crates/rrtl-core/src/lib.rs:6016-6020 | after `set(x, v)` on a settled state y shows the previous x, and the design is settled if and only if v is that value |
| `StaleSettle.StaleFromStart` | crates/rrtl-core/src/lib.rs:5886-6020 | a new simulator of the design, at any width, given a nonzero x, shows y = 0 and is not settled |
| `Range.RunRange` | crates/rrtl-core/src/lib.rs:5938-6065 | from construction through any sequence of `set`, tick and clocked tick, every signal and memory word at every level fits its declared width |
| `Clocks.EveryClockIsTick` | crates/rrtl-core/src/lib.rs:6046-6065 | a clocked tick whose active set holds every register and write clock equals a plain tick |
| `Clocks.Projection` | crates/rrtl-core/src/lib.rs:6192-6243 | in a flat module the checks accept, hold-muxes and asynchronous resets from inputs included, a domain that reads only its own state and inputs ends every schedule as if run alone over just the edges of its own clock, although the settling loop may stop after different numbers of rounds |
| `FlatSane.FlatIsLevelled` | crates/rrtl-core/src/lib.rs:5215-5374 | the flattened module of an accepted tree is ranked within its own bound, so it settles |
| `FlatSim.RunsInStep` | crates/rrtl-core/src/lib.rs:6147-6399 | from a settled state, after any sequence of input settings and ticks, every signal and memory of every instance of the tree equals its copy in the simulated flattened module |
| `Streams.Conservation` | crates/rrtl-core/src/lib.rs:1907-1966 | on a reset-free trace of a stage, accepted items are the delivered items followed by the contents, which never exceed the capacity |
| `Streams.OfferStable` | crates/rrtl-core/src/lib.rs:1883-1905 | a buffering stage repeats an offer that was not taken, unchanged, in the next cycle |
| `Streams.ChainConservation` | crates/rrtl-core/src/lib.rs:1134-1241 | for any chain of stages, items accepted by the first are those delivered by the last followed by all contents from last to first, bounded by the summed capacities |
| `Ring.SlotIsMod` | crates/rrtl-core/src/lib.rs:920-926 | stepping a pointer with wrap at depth - 1 is addition modulo the depth, power of two or not |
| `Ring.Step` | crates/rrtl-core/src/lib.rs:1907-1966 | one cycle of a ring of slots with read and write pointers and a count is one step of the queue it holds, put and get together included |
| `FifoControl.ControlStep` | crates/rrtl-core/src/lib.rs:1907-1966 | an edge clears count and pointers under reset and otherwise moves them by exactly the put and the get of that cycle, with no wrap in their registers |
| `RegisterFifo.FifoShows` | crates/rrtl-core/src/lib.rs:1593-1618 | the settled `rv_fifo` netlist is ready exactly when not full, valid exactly when not empty, and offers the head of its queue |
| `RegisterFifo.FifoStep` | crates/rrtl-core/src/lib.rs:1593-1618 | an edge of the `rv_fifo` netlist is one step of its abstract queue, any depth of at least 2, resets included |
| `MemoryFifo.MemFifoShows` | crates/rrtl-core/src/lib.rs:1780-1865 | the same for `rv_mem_fifo`, whose head is read from memory and unpacked |
| `MemoryFifo.MemFifoStep` | crates/rrtl-core/src/lib.rs:1780-1865 | an edge of the `rv_mem_fifo` netlist is one step of the same queue, although reset neither clears the memory nor gates its write |
| `SkidBuffer.SkidShows` | crates/rrtl-core/src/lib.rs:1432-1446 | the settled skid buffer is ready when empty or drained, valid when it holds or is offered an item, and passes or offers the held item |
| `SkidBuffer.SkidStep` | crates/rrtl-core/src/lib.rs:1883-1905 | an edge of the skid buffer is one step of a bypassing queue of capacity 1 |
| `Bundles.PackField` | crates/rrtl-core/src/lib.rs:942-961 | each field of a packed word is the value packed there, for any field list |
| `Bundles.BundleRoundTrip` | crates/rrtl-core/src/lib.rs:942-961 | unpacking field k of a word written from `concat` of the field signals gives back that signal's word, signed fields included, for any total width up to 128 |
| `Emitted.ControlExact` | crates/rrtl-core/src/lib.rs:1907-1966 | every control expression the FIFO generators emit is well typed at its register's type and within the fragment where evaluation is exact |
| `Emitted.FifoExact` | crates/rrtl-core/src/lib.rs:1593-1618 | the same for the entry writes and the entry mux of `rv_fifo` |
| `Emitted.MemFifoExact` | crates/rrtl-core/src/lib.rs:1780-1865 | the same for the packed write data, the memory read and the unpacked fields of `rv_mem_fifo` |
| `Emitted.SkidExact` | crates/rrtl-core/src/lib.rs:1883-1905 | the same for every expression of the skid buffer |
| `Emitted.ExactMeans` | crates/rrtl-core/src/lib.rs:6293-6302 | what the settling loop stores for such an expression, masked to the destination, is its width-exact meaning |
| `Builder.ModuleBuilder.AddChannel` | crates/rrtl-core/src/lib.rs:1112-1132 | a declared channel appends exactly valid, ready and payload ports with directions by role |
| `Builder.ModuleBuilder.RvFifo` | crates/rrtl-core/src/lib.rs:1509-1691 | accepted exactly for an accepting and an offering interface with agreeing payloads and a depth of at least 2; a refused call changes no module and reports; an accepted one appends exactly the FIFO's signals and assignments, pairs every output field with the input field of the same path, and on known ports the module then holds that FIFO |
| `Builder.ModuleBuilder.RvMemFifo` | crates/rrtl-core/src/lib.rs:1693-1865 | the same for the memory FIFO, its memory and its write port |
| `Builder.ModuleBuilder.RvSkidBuffer` | crates/rrtl-core/src/lib.rs:1366-1507 | the same for the skid buffer |
| `Builder.ModuleBuilder.RvConnect` | crates/rrtl-core/src/lib.rs:1134-1241 | the same for a plain connection, which adds no signal |
| `Builder.AcceptedExactly` | crates/rrtl-core/src/lib.rs:593-668 | the payload check accepts exactly equal scalars, and bundles with the same set of paths and equal types path by path |
| `Builder.MatchedPairs` | crates/rrtl-core/src/lib.rs:640-668 | each output field is fed by the input signal of the same path and type, in whatever order the bundles list them |
| `Stages.NetShows` | crates/rrtl-core/src/lib.rs:1134-1966 | whichever stage is emitted, a settled module shows the outputs of its abstract queue |
| `Stages.NetStep` | crates/rrtl-core/src/lib.rs:1134-1966 | whichever stage is emitted, an edge of its clock is one step of its abstract queue |
| `Runs.StageRun` | crates/rrtl-core/src/lib.rs:1134-1966 | on every run from construction of a settleable design, at any instance of the hierarchy and under resets and inactive clocks, the emitted stage shows and steps exactly its abstract queue |
| `StageModules.FifoModule` | crates/rrtl-core/src/lib.rs:1509-1691 | a module with two channels and one `rv_fifo` is settleable and all its runs refine the queue of that depth, with nothing assumed about the design |
| `StageModules.MemFifoModule` | crates/rrtl-core/src/lib.rs:1693-1865 | the same for `rv_mem_fifo` with any payload of at most 128 bits |
| `StageModules.SkidModule` | crates/rrtl-core/src/lib.rs:1366-1507 | the same for `rv_skid_buffer` |
| `StageModules.WiresModule` | crates/rrtl-core/src/lib.rs:1134-1241 | the same for `rv_connect`, the stage of capacity 0 |
| `StageModules.FlowsAcross` | crates/rrtl-core/src/lib.rs:5303-5374 | port by port, a stage module's data outputs depend on nothing but its data inputs and its incoming readiness on nothing but the outgoing one |
| `Equivalence.Indistinguishable` | crates/rrtl-core/src/lib.rs:1593-1794 | stages of one kind and depth fed the same resets, offers and demands, whatever the input carries while nothing is offered, answer alike in every cycle, and with the same item while valid: `rv_fifo` and `rv_mem_fifo` cannot be told apart |
| `Equivalence.StageConserves` | crates/rrtl-core/src/lib.rs:1883-1966 | on reset-free runs, what a stage accepted is what it delivered followed by what its registers or memory hold, within its capacity |
| `Equivalence.StageBounded` | crates/rrtl-core/src/lib.rs:1907-1966 | on any run, resets included, a stage holds at most its capacity |
| `Equivalence.StageOffersStable` | crates/rrtl-core/src/lib.rs:1883-1905 | on any run, a buffering stage shows an offer not taken outside reset again, with the same item, in the next cycle |
| `Fields.FieldsConserved` | crates/rrtl-core/src/lib.rs:593-668 | on every reset-free run of a stage between two bundle interfaces, the words that entered on the input field of a name are those that left on the output field of that name, followed by the ones still inside |
| `Pipeline.PipelineConserves` | crates/rrtl-core/src/lib.rs:1134-1241 | in any settleable design, for any list of stages among its instances wired output to input, on reset-free runs the accepted stream is the delivered stream followed by the contents from last stage to first, bounded by the summed capacities |
| `Series.SeriesSettleable` | crates/rrtl-core/src/lib.rs:6286-6375 | a parent that only wires stage modules in series is settleable, although each link is a cycle of instances: one round per stage carries data down and readiness up |
| `Assembly.SeriesSane` | crates/rrtl-core/src/lib.rs:5026-5213 | the parent written out for any list of stage modules over one payload is well formed: every port connected once, widths and directions right, one driver per signal |
| `Assembly.SeriesConserves` | crates/rrtl-core/src/lib.rs:1134-1241 | for any list of modules the generators emit, register and memory FIFOs, skid buffers and connections, wired in series by that parent: the parent is settleable, and every run that never raises reset conserves and orders the stream as above, with nothing assumed of the design |
| `Assembly.OwnPayload` | crates/rrtl-core/src/lib.rs:1134-1241 | the payload checks accept every payload without repeated field names against itself, so a FIFO module of the chain is refused only for its depth and the others never |
| `StateMachines.MakeStateReg` | crates/rrtl-core/src/lib.rs:1980-2106 | a known reset variant declares a register of the state type reset to that variant's value; an unknown one is reported |
| `StateMachines.StateNext` | crates/rrtl-core/src/lib.rs:2108-2149 | known variants set the next-state chain with its default; an unknown one reports and leaves the register as it was |
| `StateMachines.StateNextHold` | crates/rrtl-core/src/lib.rs:2151-2178 | the same with the register itself as default |
| `StateMachines.ChainPicksFirst` | crates/rrtl-core/src/lib.rs:2108-2178 | the chain evaluates to the code of the first transition whose condition is true |
| `StateMachines.ChainDefaults` | crates/rrtl-core/src/lib.rs:2108-2178 | with no true condition the chain evaluates to the default |
| `StateMachines.AlwaysDeclared` | crates/rrtl-core/src/lib.rs:1980-2178 | once a call has applied the reset, a clock edge at its acting level or, when it is asynchronous, a call that leaves it there, the register holds the encoding of a declared variant after every later call |
| `StateMachines.CodesDiffer` | crates/rrtl-core/src/lib.rs:3809-3875 | variants with different values that passed the range check have different codes, at every width up to 128 |
| `Systolic.BuildSystolicMac` | python/rrtl_pyrtl/bench.py:21-68 | bad sizes and a too narrow accumulator are refused, exactly those; otherwise every cell has its three registers with the next-state equations of the array |
| `Systolic.Simulate` | python/rrtl_pyrtl/bench.py:36-68 | stepping the block cycle by cycle produces its run from all-zero registers |
| `Systolic.ActForm` | python/rrtl_pyrtl/bench.py:52-57 | the activation register of (row, col) is the row's input delayed by col + 1 cycles, for every size and cycle |
| `Systolic.WeightForm` | python/rrtl_pyrtl/bench.py:52-57 | the weight register of (row, col) is the column's input delayed by row + 1 cycles |
| `Systolic.PsumForm` | python/rrtl_pyrtl/bench.py:59-62 | the accumulator is the sum of the signed products so far, modulo 2^acc_width |
| `Systolic.HoldsGemm` | python/rrtl_surrogate/train_gemm.py:82-96 | with row r fed r cycles late and column c fed c cycles late, every accumulator equals `gemm` modulo 2^acc_width from `latency_cycles` on |
| `Systolic.SignedGemm` | python/rrtl_surrogate/train_gemm.py:82-92 | when the product fits the signed accumulator, the accumulator read as signed is the product |
| `Systolic.LatencyTight` | python/rrtl_surrogate/train_gemm.py:95-96 | one cycle earlier the array holds the product if and only if the last product of the last cell is zero, so the latency cannot be lowered |
| `TypeCheck.ExprType` | crates/rrtl-core/src/lib.rs:5424-5612 | the checker returns the type of the expression and reports a diagnostic exactly when the expression is not well typed |
| `TypeCheck.ValidateAssignments` | crates/rrtl-core/src/lib.rs:4565-4639 | reports exactly when a destination is not drivable, a type does not match, or a signal has two drivers |
| `TypeCheck.ValidateMemoryWrites` | crates/rrtl-core/src/lib.rs:4641-4726 | reports exactly when a memory write is ill formed |
| `TypeCheck.ValidateRegisters` | crates/rrtl-core/src/lib.rs:4951-5024 | reports exactly when a register lacks a next value or its clock, reset or next type is wrong |
| `Compile.ValidateChecks` | crates/rrtl-core/src/lib.rs:4829-4950 | reports exactly when an assertion or cover point is ill formed |
| `Compile.ValidateInstances` | crates/rrtl-core/src/lib.rs:5026-5213 | reports exactly when an instance names no module, a connection no port or signal, a width or direction is wrong, a port is connected twice or not at all, or an output lands on a driven signal |
| `Compile.ValidateHierarchy` | crates/rrtl-core/src/lib.rs:3625-3659 | reports exactly when a module reaches itself through instances |
| `Compile.ValidateDesign` | crates/rrtl-core/src/lib.rs:3417-3430 | reports nothing exactly when every modelled check of every module holds |
| `Compile.CompileModule` | crates/rrtl-core/src/lib.rs:3432-3542 | compilation of a module succeeds exactly when every expression types, and if every lookup succeeds keeps every assignment, register, memory write, assertion, cover point, instance and connection with its type |
| `Compile.CompileIr` | crates/rrtl-core/src/lib.rs:1057-1067 | compilation succeeds exactly for the designs that pass the modelled checks, and then no module loses anything, although its lookups drop silently |
| `Compile.ValidIsFine` | crates/rrtl-core/src/lib.rs:3417-3430 | a design that passes validation meets the hypotheses of the elaboration theorems below |
| `Compile.NamesResolve` | crates/rrtl-core/src/lib.rs:3604-3623 | in a validated design every module and port is the one its name finds, no name is empty, and no two instances of a module share one |
| `Designs.ElaboratedSane` | crates/rrtl-core/src/lib.rs:5026-5213 | the tree elaborated from a validated design is well formed at every level: single drivers, every connection between existing ports of the right direction |
| `Designs.ElaboratedClosed` | crates/rrtl-core/src/lib.rs:5424-5612 | no expression of the elaborated tree reads a signal or memory its module does not own |
| `Designs.CheckedElaborates` | crates/rrtl-core/src/lib.rs:3625-3659 | every module of a design without instantiation cycles elaborates to such a tree |
| `Designs.CheckedSettles` | crates/rrtl-core/src/lib.rs:3417-3430 | a validated design that is acyclic with instances as nodes and resets asynchronously only from top inputs is settleable, and flattenable if it has no asynchronous reset or hold-mux |

## Left out

- FlatSim.RunsInStep: covers `set` and ticks of every clock; a clocked tick with some clocks inactive is not in it, because children tick on every clock whatever the active set (crates/rrtl-core/src/lib.rs:6224-6241, documented there as a limit).
- Clocks.Projection: flat modules, as the documentation of `tick_clocked` scopes it, with asynchronous resets only from input ports.
- SimulatorObject.Simulator.Tick: without the assertion checks and the cover sampling before the capture, so neither a refused tick nor what those two settle in an unsettled design is in it.
- StateMachines.MakeStateReg: the module's lists of state types and state signals, which only the code writers read, are not kept.
- Ranking.CoarseSettles: gives a sufficient condition for a hierarchy; designs that are acyclic only port by port may or may not settle (see Findings), and no condition equivalent to settling is proved for those.
- Fixpoint.SetsCommute: starts from a state whose asserted asynchronous resets already hold, as every state after construction, `set` or tick of a settleable design does.
- StateMachines.AlwaysDeclared: an asynchronous reset is followed where settling is covered at all, at the top level and driven by an input port.
- Assembly.SeriesConserves: payloads with repeated field names, which the bundle checks refuse, are outside it; the parent's builder calls are not followed, its module and connections are written out.
- Words.SignedValue: is the mathematical value at every width; at width 127 the source's intermediate `1i128 << 127` wraps, and a build with overflow checks stops there instead.
- Compile.ValidateDesign: models the checks of names, assignments, memory writes, registers, assertions, cover points, instances and the hierarchy; the checks of signal widths, initial values, state, bundle and interface types and external modules are not part of it, and combinational cycles are decided by `PortDeps.ValidateCombCycles` instead. Each of those can only refuse more designs.
- Compile.CompileIr: succeeds exactly for the designs that pass the checks of `Compile.ValidateDesign`; the further checks named there come before it in the source.
- TypedRuns.TicksWhole: registers below 128 bits, where a reset value is an integer of its type; at 128 bits every value is accepted and wraps. Asynchronous registers are in `ResetLevels.AsyncTickByLevel`.
- ResetLevels.AnyResetsByLevel: excludes registers that are themselves the asynchronous reset of others, where one pass of resets may assert another.
- Asynchronous resets inside child instances, or driven by wires or registers: intermediate rounds can change stored state there, so no settling theorem covers them. Uniqueness also excludes hold-muxes, whose value depends on what the wire held before.
- Assertions and cover points while ticking: `tick_checked` samples them before it captures. They are kept through compilation but not evaluated.
- `SimulationInit` overrides of initial register and memory values.
- The cache of port dependencies: the analysis is modelled on the elaborated tree and recomputes a child's ports at each instance.
- Signals, modules and ports are looked up by name when a design is elaborated and compiled; everywhere else they are known by handle.
- Inout ports and external modules, which the simulator refuses.
- `rv_register_slice`: its next value ignores `ready`, so it does not conserve items under back pressure and is not among the stages.
- Widths above 128 bits in the simulator, and addresses above 64 bits.
- Text and order of diagnostics; name sanitising; VCD, JSON and Verilog output; the other backends; the rest of the Python, with PyRTL registers and `signed_mult` taken as ideal.
