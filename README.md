# addFi: fault-injection signal insertion, modelled in Dafny

`addFi` is a Yosys pass that prepares a netlist for fault injection. It
runs in four stages:

- **Options.** It reads its options: `-no-ff`, `-no-comb`, `-no-add-input`
  and `-type <gate>`.
- **Injection.** It walks the selected cells of every selected module. For
  each primitive flip-flop or combinational cell it:
  - picks the cell's output port: `Q`, else `Y`, else it skips the cell;
  - adds a fault-control wire `fi_<ff|comb>[_<module>]_<n>` as wide as that
    output;
  - splices a two-input gate (`$xor`, `$and` or `$or`) between the cell and
    the net that output used to drive.
- **Aggregation and forwarding.** The fault wires of one module are
  gathered into one bus per category, which becomes the wire `fi_ff` or
  `fi_comb`. A wire of a module below the top becomes an input port and is
  queued. A work queue then forwards the queued inputs up the hierarchy,
  one generation at a time:
  - every instance of a queued module gets a fresh wire
    `fi_<cell>_<i>_<port>` bound to that port;
  - the fresh wires of one containing module are concatenated into a bus
    `fi_forward_<j>`;
  - that bus is queued again below the top, or collected at the top.
- **Generator.** Finally a module `figenerator` is synthesised with one
  output `fi_<n>` per collected signal, plus an optional input
  `fi_combined` that drives all of them. Its instance `u_figenerator` is
  placed in the top module.

The Dafny project models all of this on an abstract netlist (`netlist.dfy`):
- A design is a sequence of modules. Its order stands for the order in
  which Yosys' hash dictionaries enumerate modules and cells (see
  "## Left out").
- A module has a name, a `top` attribute, wires, cells and connections.
- A cell has a name, a type and a map from port names to signals.
- A signal (`SigSpec`) is a sequence of wire chunks with widths.

The design is a class, `Design`, whose methods are the netlist operations
the pass calls (`addWire`, `addCell`, `connect`, `setPort`, `addModule` and
`NEW_ID`). Every stage of the pass is a method that changes the design in
place. Each such method is proved to compute a pure function of the old
design, and the properties of the pass are proved as lemmas about those
functions.

Files:
- `ids.dfy`: the generated names and the injectivity of decimal counters.
- `netlist.dfy`: the netlist and the `Design` class.
- `options.dfy`: the option loop.
- `inject.dfy`: `insertFi`, `storeFaultSignal`, `appendFiCell`,
  `addModuleFiInut` and the per-module loop.
- `propagate.dfy`: the work-queue propagation as functions.
- `forward.dfy`: the work-queue propagation as methods.
- `generator.dfy`: the `figenerator` synthesis.
- `pass.dfy`: `execute` as a whole.

Three details of the code worth knowing:
- **Unknown `-type` values.** The help text (yosys/addFi.cc:30-31) lists
  `xor`, `and` and `or` as the values of `-type`. The code accepts any
  string and, for an
  unknown one, splices the two internal wires but adds no gate
  (`Inject.GateCellType`, `Inject.InsertFiGate`).
- **Fault index and skipped cells.** The index `i` is incremented for
  every classified cell (yosys/addFi.cc:297, yosys/addFi.cc:300), even when
  `insertFi` returns early because the cell has neither `Q` nor `Y`
  (yosys/addFi.cc:233-234). Fault indices can therefore have gaps
  (`Inject.InjectCells`, `Inject.Attempts`).
- **Category in the fault-wire name.** The `ff`/`comb` part of a fault
  wire's name comes from the port chosen (`Q` or `Y`), not from the
  flip-flop classification of the cell (`Inject.SigType`).

## Model

| member | source | states |
|---|---|---|
| `Options.ParseOptions` | yosys/addFi.cc:247-284 | The option loop with its `argidx` counter. It returns exactly `Parse(args)`: either the options and the index of the first argument it did not consume, or the `-type` error. |
| `Options.WithDefaultType` | yosys/addFi.cc:281-284 | After the loop the gate type is never empty. An empty type becomes `xor`, a given one is kept, and nothing else changes. |
| `Options.ParseFrom` | yosys/addFi.cc:254-276 | The option loop from a given index only moves forward, never past the end of the arguments, and on success stops either at the end or at an argument that is not an option. |
| `Options.ParseStops` | yosys/addFi.cc:254-276 | Parsing stops at the first argument that is not an option. Every non-option before that point was the value of a `-type`. |
| `Options.ParseErrorIsDanglingType` | yosys/addFi.cc:269-271 | The only error is a `-type` in the last position. |
| `Options.ParseTrailingType` | yosys/addFi.cc:269-271 | Conversely, a `-type` appended to a fully consumed argument list is the error `TypeNeedsArgument`. |
| `Options.FlagClearsOnlyItself` | yosys/addFi.cc:257-268 | Putting `-no-ff`, `-no-comb` or `-no-add-input` first gives the parse without it, with just that flag cleared and the index moved on by one. |
| `Options.DefaultTypeIsXor` | yosys/addFi.cc:281-284 | Without any `-type`, parsing succeeds with gate type `xor`. |
| `Options.TypeSelects` | yosys/addFi.cc:269-273 | `-type t`, given once, selects `t`. |
| `Ids.NatToStringInjective` | yosys/addFi.cc:169-173 | The `%d` rendering of counters is injective. |
| `Ids.AutoNameFresh` | yosys/addFi.cc:206-222 | `NEW_ID` names are equal exactly when their counters are. No such name starts with a backslash, so none collides with a public name. |
| `Ids.FaultWireName` | yosys/addFi.cc:167-174 | Every fault-wire name, `fi_<type>_<n>` in a top module and `fi_<type>_<module>_<n>` elsewhere, starts with `fi_`. |
| `Ids.FaultWireNameInjective` | yosys/addFi.cc:167-174 | Two fault wires of one module have the same name only if they have the same category (`ff`/`comb`) and the same fault index. |
| `Ids.InstanceWireName` | yosys/addFi.cc:64 | The instance wire `fi_<cell>_<i>_<port>` starts with `fi_` and ends with the port name. |
| `Ids.InstanceWireNameInjective` | yosys/addFi.cc:64 | For one port, two instance wires have the same name only for the same cell name and the same instance number `i`. |
| `Ids.ForwardNameInjective` | yosys/addFi.cc:73 | `fi_forward_<j>` names are equal exactly when their counters are. |
| `Ids.GeneratorOutputNameInjective` | yosys/addFi.cc:128 | `fi_<n>` names are equal exactly when their counters are. |
| `Ids.GeneratorOutputNotCombined` | yosys/addFi.cc:128-136 | No generator output is named `fi_combined`. |
| `Netlist.SigWidthAppend` | yosys/addFi.cc:176 | `SigSpec::append` adds the widths. |
| `Netlist.Design.NewId` | yosys/addFi.cc:206 | `NEW_ID` returns the name for the current counter and increments the counter. |
| `Netlist.Design.AddWire` | yosys/addFi.cc:175 | `addWire` appends one wire to one module and changes nothing else. |
| `Netlist.Design.AddCell` | yosys/addFi.cc:143 | `addCell` adds one cell to one module, at the end of the model's cell order, and changes nothing else. |
| `Netlist.Design.Connect` | yosys/addFi.cc:186 | `connect` appends one connection to one module and changes nothing else. |
| `Netlist.Design.SetPort` | yosys/addFi.cc:68 | `setPort` rebinds one port of one cell and changes nothing else. |
| `Netlist.Design.AddModule` | yosys/addFi.cc:115 | `addModule` adds the module at the end of the model's module order and returns its index. |
| `Inject.OutputPort` | yosys/addFi.cc:228-235 | The output is `Q` exactly when the cell has `Q`, and `Y` exactly when it has `Y` but not `Q`. It is none exactly when the cell has neither. |
| `Inject.GateCellType` | yosys/addFi.cc:217-223 | A gate is added exactly for `xor`, `and` and `or`, and it is one of `$xor`, `$and` and `$or`. |
| `Inject.RebindOutputKeepsInterface` | yosys/addFi.cc:209-210 | Rebinding the output port to a signal of the same width keeps the cell's name, type, output port and output width. |
| `Inject.SpliceGate` | yosys/addFi.cc:204-224 | `appendFiCell` on a module value. It adds two fresh wires, each as wide as the output, and moves the cell's output port to the first. The old output net is connected to the second. For a known type it adds a gate with `A` = fault wire, `B` = first wire and `Y` = second wire. Every other cell is unchanged, and the name counter advances by 2 or 3. |
| `Inject.InsertFiSpec` | yosys/addFi.cc:226-243 | `insertFi` on a module value. A cell without `Q` or `Y` leaves the module and the bus unchanged. Otherwise the bus is extended by exactly the cell's fault wire (`FaultChunk`), which is as wide as the output, and the other cells are unchanged. The old wires stay first, and new cells have gate types only. |
| `Inject.InsertFiSplices` | yosys/addFi.cc:226-243 | An injected cell gets exactly three new wires. The first is the fault wire `FaultWire(...)`, named from the port category, the module and the fault index, and as wide as the output. The other two are internal wires of the same width, named by the next two fresh `NEW_ID` names. The bus is extended by the fault wire, the output is rebound to the second wire, and the old output net is driven by the third. |
| `Inject.InsertFiGate` | yosys/addFi.cc:217-243 | The combining cell exists exactly when the gate type is known. It joins the fault wire (`A`) and the moved output (`B`) into the old output net (`Y`). |
| `Inject.StoreFaultSignal` | yosys/addFi.cc:159-178 | Adds the fault wire, named and sized as above, to the module and returns the bus extended by that wire. |
| `Inject.AppendFiCell` | yosys/addFi.cc:204-224 | The method computes exactly `SpliceGate` on the design. |
| `Inject.InsertFi` | yosys/addFi.cc:226-243 | The method computes exactly `InsertFiSpec` on the design. |
| `Inject.Classify` | yosys/addFi.cc:295-300 | A public cell type is never injected. A cell feeds the `ff` bus exactly when its type is a flip-flop type and `-no-ff` is absent. It feeds the `comb` bus exactly when its type is not a flip-flop type and `-no-comb` is absent. |
| `Inject.InjectStep` | yosys/addFi.cc:294-302 | One iteration of the cell loop. A skipped cell changes nothing. A classified cell takes the next fault index, grows exactly its category's bus by its output width, and leaves every other cell unchanged. |
| `Inject.InjectStepBuses` | yosys/addFi.cc:294-302 | One step appends the cell's fault wire to the bus of its category, `fi_ff` for a flip-flop cell and `fi_comb` otherwise, and leaves the other bus as it was. |
| `Inject.CategoryBus` | yosys/addFi.cc:176 | The reference bus of one category, built from the fault wires of the selected cells of that category in selection order, is as wide as `CategoryWidth`. |
| `Inject.InjectCellsBuses` | yosys/addFi.cc:289-303 | The cell loop's `fi_ff` and `fi_comb` buses are exactly the reference buses: each holds the fault wires of its category's cells, in selection order, each numbered by the fault index its cell took. |
| `Inject.InjectCells` | yosys/addFi.cc:289-303 | The cell loop of one module. The shared index `i` equals the number of classified cells. The `ff` bus width is the total output width of the flip-flop cells, and the `comb` bus width that of the others. Old cells keep their interface, new cells are gates, and the old wires stay first. |
| `Inject.InjectCellsLeavesOthers` | yosys/addFi.cc:292-302 | A cell that is not selected, or that the loop skips (every cell of a public type among them), is left exactly as it was. |
| `Inject.InjectCellsFresh` | yosys/addFi.cc:289-303 | The wires the cell loop adds to a module have pairwise distinct names. Each is a fault wire with an index below the final `i`, or a `NEW_ID` name from the counters the loop consumed. |
| `Inject.InjectCellsNothing` | yosys/addFi.cc:289-303 | When no selected cell is both classified and has `Q` or `Y`, the cell loop leaves the module and the name counter as they were and both buses empty. Only `i` still counts the classified cells. |
| `Inject.InjectedOnce` | yosys/addFi.cc:292-302 | Each cell is injected at most once. After a cell's own step, the steps for other selected cells leave it exactly as that step left it. |
| `Inject.AddModuleFiInputSpec` | yosys/addFi.cc:180-202 | `addModuleFiInut` on a module value. An empty bus changes nothing. Otherwise it adds one wire as wide as the bus, which is an input port exactly when the module is not top, and connects the bus to it, so that the new wire drives the bus of fault wires. That wire is appended to exactly one list: `toplevelSigs` for a top module, the work queue otherwise. |
| `Inject.AddModuleFiInput` | yosys/addFi.cc:180-202 | The method computes exactly `AddModuleFiInputSpec` on the design. |
| `Inject.InjectCell` | yosys/addFi.cc:294-302 | The two category tests of the loop body compute exactly `InjectStep`. |
| `Inject.InjectSelectedCells` | yosys/addFi.cc:289-303 | The cell loop, with its index and two buses, computes exactly `InjectCells`. |
| `Inject.InjectModuleSpec` | yosys/addFi.cc:286-307 | One module body changes only the selected module, never lowers the name counter, and only appends to the work queue and to `toplevelSigs`. |
| `Inject.InjectModule` | yosys/addFi.cc:286-307 | The per-module body computes exactly `InjectModuleSpec`: the cell loop, then `fi_ff`, then `fi_comb`. |
| `Propagate.RepeatIsProduct` | yosys/addFi.cc:63-73 | `k` instance wires of width `w` make a bus of width `k·w`. |
| `Propagate.RepeatPositive` | yosys/addFi.cc:71 | The bus has a bit exactly when there are instances and the port has a bit. |
| `Propagate.ScanCells` | yosys/addFi.cc:57-70 | The cell loop for one queue entry. It adds one wire per instance, and the counter `i` moves on by the number of instances. The bus width is that number times the entry's width. |
| `Propagate.ScanCellsNumbered` | yosys/addFi.cc:57-70 | The instance wires the cell loop adds are, in order, `fi_<cell>_<i0>_<port>`, `fi_<cell>_<i0 + 1>_<port>`, ..., one per instance. |
| `Propagate.ScanCellsNamesDistinct` | yosys/addFi.cc:57-70 | The instance wires the cell loop adds to one module have pairwise distinct names. |
| `Propagate.ScanCellsBus` | yosys/addFi.cc:57-70 | `fi_cells` is the instance wires concatenated in the order the loop adds them: its `t`-th chunk is the `t`-th new wire, by name and width. |
| `Propagate.ScanCellsExtends` | yosys/addFi.cc:57-70 | The cell loop keeps the module's name, `top` attribute, cell types and old wires. |
| `Propagate.ScanCellsFrame` | yosys/addFi.cc:57-70 | The cell loop adds no connection and leaves cells it has not reached alone. |
| `Propagate.ScanCellsBinds` | yosys/addFi.cc:57-70 | Each instance has exactly the entry's port rebound to its own wire `fi_<cell>_<i>_<port>`, numbered by the instances before it, and that wire is in the module. Other cells are unchanged. |
| `Propagate.ForwardModule` | yosys/addFi.cc:55-91 | One module for one entry. It adds a bus `fi_forward_<j>` exactly when there are instances and the port has a bit. The bus is as wide as the instances together and is an input port exactly when the module is not top. |
| `Propagate.ForwardModuleConnects` | yosys/addFi.cc:71-80 | When a bus `fi_forward_<j>` is added, the one connection the step adds connects `fi_cells` to it, so that `fi_forward_<j>` drives the instance wires. |
| `Propagate.ForwardModuleExtends` | yosys/addFi.cc:55-91 | Forwarding only extends the module, and without a bus it adds no connection. |
| `Propagate.BusesBeforeGrows` | yosys/addFi.cc:73 | The counter `j` strictly increases across modules that get a bus. |
| `Propagate.BusNamesDistinct` | yosys/addFi.cc:73 | No two buses of a sweep share a name. |
| `Propagate.SweepListsNumbers` | yosys/addFi.cc:73 | Every bus of a sweep is numbered by a counter value the sweep consumes. |
| `Propagate.SweepBusListNumbered` | yosys/addFi.cc:71-73 | The buses of one sweep are `fi_forward_<j0>`, `fi_forward_<j0 + 1>`, ... in module order, one per module that gets a bus. |
| `Propagate.NewEntriesAre` | yosys/addFi.cc:74-90 | The entries a sweep adds to a list are exactly the buses of the modules of that list's kind (top or not) that have a bus. |
| `Propagate.NewEntriesOrdered` | yosys/addFi.cc:53-90 | Those entries come in module order. |
| `Propagate.Sweep` | yosys/addFi.cc:53-92 | The module loop for one entry keeps the number of modules. What it does to each module is stated by `SweepExtends`, `SweepBinds` and `SweepBuses` below. |
| `Propagate.SweepExtends` | yosys/addFi.cc:53-92 | A sweep of the design only extends modules. |
| `Propagate.SweepShapes` | yosys/addFi.cc:53-92 | A sweep keeps every module's name, `top` attribute and cell types. |
| `Propagate.SweepBinds` | yosys/addFi.cc:57-69 | Every cell of the searched type, anywhere in the design, gets the entry's port bound to a new wire of its module, exactly as wide as the entry's wire. Every other cell is unchanged. |
| `Propagate.SweepBuses` | yosys/addFi.cc:71-80 | A module with `k` instances gets the bus `BusOf`, of width `k·w`, which is an input port exactly when the module is not top. A module without one gets no connection. |
| `Propagate.SweepKeepsWell` | yosys/addFi.cc:74-90 | Each bus a sweep queues is an input port of a module below the top. Each bus it collects is a wire of a top module. |
| `Propagate.ListsFrom` | yosys/addFi.cc:48-93 | The lists over a snapshot: entries stay owned by modules of the design and the counter `j` never decreases. |
| `Propagate.GenerationFromInvariant` | yosys/addFi.cc:45-93 | Processing a snapshot keeps all shapes. Its lists are those computed on the shapes alone. |
| `Propagate.GenerationStep` | yosys/addFi.cc:48-53 | Each snapshot entry sweeps for the module it names, in the design as the entries before it left it. |
| `Propagate.Generation` | yosys/addFi.cc:45-47 | One generation: the queue is copied to a snapshot and cleared, and only the snapshot is processed. Entries created during the generation wait for the next one. |
| `Propagate.GenerationShapes` | yosys/addFi.cc:45-93 | A generation keeps every module's shape. |
| `Propagate.PropagationStep` | yosys/addFi.cc:43-47 | While the queue is not empty, the propagation is one generation followed by the rest of it. |
| `Propagate.Propagation` | yosys/addFi.cc:43-94 | The `while` loop keeps the number of modules, and with an empty queue it changes nothing. |
| `Propagate.BusesFromNumbered` | yosys/addFi.cc:45-93 | The buses of one generation are numbered consecutively from the counter's value at its start, and the counter ends just past the last one. |
| `Propagate.BusesPropagationNumbered` | yosys/addFi.cc:42-94 | Over the whole `while` loop the buses are `fi_forward_<0>`, `fi_forward_<1>`, ... in creation order, and `j` ends just past the last. |
| `Propagate.ForwardBusesDistinct` | yosys/addFi.cc:42-94 | No two `fi_forward_<j>` buses of the whole propagation share a name, even across generations. |
| `Propagate.PropagationWell` | yosys/addFi.cc:43-94 | Throughout the propagation, everything queued is an input port below the top and everything collected is a wire of a top module. |
| `Propagate.PropagationTerminates` | yosys/addFi.cc:43 | With an acyclic hierarchy, as many generations as there are modules leave the queue empty. |
| `Forward.BindInstance` | yosys/addFi.cc:64-68 | Adds the instance wire and binds the port to it. |
| `Forward.ScanInstances` | yosys/addFi.cc:57-70 | The cell loop computes exactly `ScanCells`. |
| `Forward.ForwardInstances` | yosys/addFi.cc:55-80 | One module for one entry computes exactly `ForwardModule`. |
| `Forward.ForwardModuleEntry` | yosys/addFi.cc:71-91 | The bus, if any, is queued below the top and collected at the top, and `j` increases by one. |
| `Forward.SweepModuleStep` | yosys/addFi.cc:53-92 | One iteration of the module loop keeps the sweep invariant. |
| `Forward.SweepDesign` | yosys/addFi.cc:53-92 | The module loop computes exactly `Sweep`. |
| `Forward.RunGeneration` | yosys/addFi.cc:45-93 | One iteration of the `while` loop computes exactly `Generation`. |
| `Forward.PropagateRound` | yosys/addFi.cc:43-94 | One round keeps the loop invariant with one round fewer to go. |
| `Forward.PropagateInputs` | yosys/addFi.cc:41-94 | The `while` loop computes exactly `Propagation` over as many generations as there are modules, and ends with an empty queue. |
| `Generator.LastTop` | yosys/addFi.cc:102-108 | The module found is top and no later module is top. None is found exactly when no module is top. |
| `Generator.LastTopAsWritten` | yosys/addFi.cc:102-112 | The loop as written: with no top module the uninitialised start value survives. Otherwise the result is the last top module. |
| `Generator.UninitialisedTopPassesCheck` | yosys/addFi.cc:102-112 | A design whose one module is not top gets that module as `top_module` from a non-null start value. |
| `Pass.TopLookupAgrees` | yosys/addFi.cc:96-112 | Since `toplevelSigs` only receives wires of top modules (lines 89 and 195), in `execute`, whenever the generator's search runs past the early return, the design has a top module and the loop as written finds the same module as `LastTop`, whatever the start value. |
| `Generator.FindTopModule` | yosys/addFi.cc:102-108 | The search loop computes exactly `LastTop`. |
| `Generator.OutputWires` | yosys/addFi.cc:124-132 | Output `n` is the wire `fi_<n>` for the `n`-th collected signal. |
| `Generator.Passing` | yosys/addFi.cc:117-132 | `passing_signal` is the outputs concatenated in list order. Its width is `total_width`, the sum of the entry widths. |
| `Generator.OutputNamesDistinct` | yosys/addFi.cc:128 | `fi_<k>` differs from every earlier output name. |
| `Generator.InstancePorts` | yosys/addFi.cc:146-150 | The `setPort` loop binds output `fi_<n>` to the `n`-th collected signal. |
| `Generator.InstancePortsOnly` | yosys/addFi.cc:146-150 | The `setPort` loop binds no other port. |
| `Generator.GenerateChangesIff` | yosys/addFi.cc:96-112 | The design changes exactly when some signal was collected and the design has a top module. |
| `Generator.GenerateShape` | yosys/addFi.cc:115-156 | When it runs, the generator goes last and the instance goes into the last top module. Every other module is unchanged. |
| `Generator.GeneratorPorts` | yosys/addFi.cc:115-141 | The generator has outputs `fi_<n>`, each as wide as its signal and in list order. With `addInput`, and only then, it has an input `fi_combined` of the total width driving their concatenation. It has no cells. |
| `Generator.InstanceMatchesGenerator` | yosys/addFi.cc:143-156 | `u_figenerator` is of type `figenerator`. Every generator port is bound to a signal of its own width, and nothing else is bound. Output `fi_<n>` carries the `n`-th collected signal. |
| `Generator.CreateOutputs` | yosys/addFi.cc:123-132 | The output loop builds the outputs, `passing_signal`, `total_width` and `fi_port_list`. |
| `Generator.BuildGenerator` | yosys/addFi.cc:115-141 | Adds exactly `GeneratorModule` as the last module. |
| `Generator.BindOutputs` | yosys/addFi.cc:145-150 | The `setPort` loop binds exactly `InstancePorts`. |
| `Generator.Instantiate` | yosys/addFi.cc:143-156 | Adds the instance and, with `addInput`, the top-level `fi_combined` input of the total width, bound to the generator's input. |
| `Generator.GenerateSpec` | yosys/addFi.cc:96-156 | Without collected signals or without a top module the design is unchanged. Otherwise exactly one module, `GeneratorModule`, is added, last. |
| `Generator.AddGenerator` | yosys/addFi.cc:96-156 | The synthesis computes exactly `GenerateSpec`. |
| `Pass.InjectAll` | yosys/addFi.cc:286-307 | The module loop keeps the number of modules, and no module loses cells. |
| `Pass.InjectModulePreserved` | yosys/addFi.cc:286-307 | One module body changes only the selected module. It keeps the name, the `top` attribute, the old wires and the old cell types, and adds only gates. |
| `Pass.AggregateListed` | yosys/addFi.cc:187-201 | The wire of `addModuleFiInut` is listed correctly: in the queue as an input of a module below the top, or among the top signals for a top module. |
| `Pass.InjectModuleListed` | yosys/addFi.cc:304-306 | One module body keeps both lists well formed. |
| `Pass.InjectAllWell` | yosys/addFi.cc:286-307 | Over the whole module loop the design is only extended, and both lists are well formed. |
| `Pass.RankedPreserved` | yosys/addFi.cc:217-223 | The injected gates are primitive cells, so an acyclic hierarchy stays acyclic. |
| `Pass.Execute` | yosys/addFi.cc:245-310 | The command returns `Parse(args)`. The `-type` error leaves the design untouched. Otherwise the design becomes `RunSpec`: injection, then propagation with `j` starting at 0, then the generator. |
| `Pass.InjectSelected` | yosys/addFi.cc:286-307 | The module loop computes exactly `InjectAll`. |
| `Pass.NothingSelected` | yosys/addFi.cc:286-310 | With nothing selected the command changes nothing. |
| `Pass.PassDrainsToTop` | yosys/addFi.cc:308-309 | When the work queue loop ends nothing is left in it, and every signal handed to the generator is a wire of a top module. |
| `Pass.TopsHaveTop` | yosys/addFi.cc:102-110 | A `toplevelSigs` that is not empty and holds only wires of top modules (lines 89 and 195) implies that the search for a top module finds one. |
| `Pass.PropagatedWell` | yosys/addFi.cc:286-309 | After injection and propagation, every collected signal is a wire of a top module. |
| `Pass.RunSpec` | yosys/addFi.cc:279-309 | The pass removes no module and adds at most one, the generator. |
| `Pass.PassAddsGeneratorIff` | yosys/addFi.cc:96-112 | The generator is added exactly when some signal reached the top. A collected signal always comes with a top module, so nothing else is needed. |
| `Pass.InjectModuleNothing` | yosys/addFi.cc:286-307 | A selected module with no cell to inject is left as it was, with no fault index used or signal listed. |
| `Pass.InjectAllNothing` | yosys/addFi.cc:286-307 | When no selected module has a cell to inject, the module loop changes nothing and lists nothing. |
| `Pass.NoInjectableCell` | yosys/addFi.cc:279-310 | When no selected module has a cell to inject, the whole pass leaves the design and the name counter unchanged and adds no generator. |

## Left out

- `help()` and every `log`/`log_debug` call: they only produce output.
- The selection mechanics (`extra_args`, `selected_modules`, `selected_cells`): the model takes the selection as an input, a sequence of modules each with a sequence of cell indices.
- `IdString::isPublic` and `RTLIL::builtin_ff_cell_types()`: they are predicate parameters of the model.
- Inject.SpliceGate: the `SigMap` canonicalisation and `SigSpec::replace` in `appendFiCell` are not modelled. The model rebinds the whole output port to the first fresh wire. That is what Yosys does only when `sigmap(outputSig) == outputSig`. Otherwise `replace` leaves some bits alone, the cell still drives them, and the gate's input `B` stays partly undriven.
- `fixup_ports` is not modelled, because port renumbering does not change anything the model records.
- `NEW_ID` is modelled as `$auto$<n>` with a counter in the design. The real name also carries the source file and line.
- Ids.LogId: models `log_id` only as dropping a leading backslash, not Yosys' other unescaping rules.
- The electrical meaning of the `$xor`/`$and`/`$or` gates and of connections: nothing is simulated.
- Netlist.Design.AddWire, Netlist.Design.AddModule: the duplicate-name assertions of `addWire`, `addCell` and `addModule` are not modelled. On a design that already holds the names, for example on a second run of the pass, Yosys aborts: `addModule("\\figenerator")` and `addWire` of `fi_ff`/`fi_comb` fail their assertions. The model adds a second object with the same name instead.
- Iteration order: Yosys enumerates modules and cells from hash dictionaries, not in creation order. The model's sequence order stands for that enumeration order. It decides the instance counter `i`, the bus counter `j`, the output number `n` and which top module receives the generator. Adding new modules and cells at the end is a modelling choice. It has no visible effect here: no injected gate has a queued type (see `Pass.Execute` below), and the generator is added after every loop has finished.
- `size_t`/`int` widths and counters are unbounded integers. Wrap-around at 2^32 or 2^64 is not modelled.
- Forward.PropagateInputs: the `while` loop has no termination argument in the source. The model requires a ranking witness (`Ranked`) that the hierarchy is acyclic.
- Pass.Execute: requires that no module is named `$xor`, `$and` or `$or` (`NoGateNames`). With such a module, the injected gates would look like its instances, and the propagation would treat them as instances.
- Inject.InjectedOnce: proved for a cell that does not recur in the selection after its own step. That cells do not recur is the job of Yosys' `selected_cells`, which yields each cell once.
- Generator.Instantiate: with several top modules the cell goes into the last one. Signals collected from other top modules are bound to it as they are, as in the source.
- Pass.InjectAll: its own contract states only the module count and cell growth. What the loop keeps is stated by `Pass.InjectAllWell`.

## Findings

| source | as written | input that shows it | evidently intended | confidence | as-written member | corrected member |
|---|---|---|---|---|---|---|
| yosys/addFi.cc:102-112 | `top_module` is declared without an initialiser. The loop only assigns it for a module with the `top` attribute, so the `nullptr` check reads an indeterminate pointer when no module is top. The defect is latent: `execute` never reaches it. `toplevelSigs` only holds wires of top modules (yosys/addFi.cc:89, yosys/addFi.cc:195), and an empty list returns early (yosys/addFi.cc:97-99) | a call of `add_toplevel_fi_module` with a non-empty `toplevelSigs` on a design whose only module `\m` is not top, with a non-null start value: the check passes and the generator is instantiated in a module without the `top` attribute | `top_module` starts as `nullptr`, so the function stops when no module is top | not executed | `Generator.LastTopAsWritten` (with `Generator.UninitialisedTopPassesCheck`; `Pass.TopLookupAgrees` shows that `execute` never tells the two apart) | `Generator.LastTop` |
