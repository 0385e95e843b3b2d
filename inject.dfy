/** Fault injection inside one module (`insertFi`, `storeFaultSignal`,
    `appendFiCell`, `addModuleFiInut` and the per-module loop of
    `execute`). For each selected cell the pass picks the cell's output port,
    adds a fault-control wire of the same width to an accumulator bus, and
    splices a two-input gate between the cell and the net it drove; the
    accumulated buses then become one wire per module. */
module Inject {
  import opened Wrappers
  import opened Ids
  import opened Netlist
  import opened Options

  const PortQ: string := "\\Q"
  const PortY: string := "\\Y"

  /** The port `insertFi` splices into: `Q` if the cell has one, else `Y`,
      else none (the cell is skipped). */
  function OutputPort(c: Cell): (r: Option<string>)
    ensures r == Some(PortQ) <==> PortQ in c.ports
    ensures r == Some(PortY) <==> PortQ !in c.ports && PortY in c.ports
    ensures r == None <==> PortQ !in c.ports && PortY !in c.ports
  {
    if PortQ in c.ports then Some(PortQ) else if PortY in c.ports then Some(PortY) else None
  }

  /** The width of the output `insertFi` would use (0 when there is none). */
  function OutputWidth(c: Cell): nat
  {
    match OutputPort(c)
    case None => 0
    case Some(p) => SigWidth(c.ports[p])
  }

  /** The signal category in a fault wire's name follows the port chosen:
      `ff` for `Q`, `comb` for `Y`. */
  function SigType(output: string): string
  {
    if output == PortQ then "ff" else if output == PortY then "comb" else ""
  }

  /** The combining cell for a `-type` value; an unknown value adds none. */
  function GateCellType(fiType: string): (r: Option<string>)
    ensures r.Some? <==> fiType in {"xor", "and", "or"}
    ensures r.Some? ==> r.value in GateTypes
  {
    if fiType == "xor" then Some("$xor")
    else if fiType == "and" then Some("$and")
    else if fiType == "or" then Some("$or")
    else None
  }

  const GateTypes: set<string> := {"$xor", "$and", "$or"}

  /** The wire `storeFaultSignal` creates. */
  function FaultWire(M: Module, output: string, faultNum: nat, width: nat): Wire
  {
    Wire(FaultWireName(SigType(output), M.isTop, LogId(M.name), faultNum), width, false, false)
  }

  /** What `insertFi` appends to the bus for a cell of module `M`: the
      cell's fault wire, or nothing when the cell has neither `Q` nor `Y`. */
  function FaultChunk(M: Module, cell: Cell, faultNum: nat): SigSpec
  {
    match OutputPort(cell)
    case None => []
    case Some(out) => WireSig(FaultWire(M, out, faultNum, OutputWidth(cell)))
  }

  /** Rebinding the output port to a signal of the same width keeps the
      cell's interface. */
  lemma RebindOutputKeepsInterface(cell: Cell, sig: SigSpec)
    requires OutputPort(cell).Some? && SigWidth(sig) == OutputWidth(cell)
    ensures SameInterface(cell.WithPort(OutputPort(cell).value, sig), cell)
  {
    var out := OutputPort(cell).value;
    assert cell.WithPort(out, sig).ports.Keys == cell.ports.Keys;
  }

  datatype Spliced = Spliced(mod: Module, autoIdx: nat)

  /** `appendFiCell`: a fresh wire takes over the cell's output port, a
      second fresh wire drives the net the output used to drive, and (for a
      known gate type) a gate with inputs `A` = the fault wire `s`, `B` = the
      first fresh wire and output `Y` = the second joins them. */
  function SpliceGate(fiType: string, M: Module, c: nat, output: string, outputSig: SigSpec, s: Wire, autoIdx: nat): (r: Spliced)
    requires c < |M.cells|
    ensures r.mod.name == M.name && r.mod.isTop == M.isTop
    ensures |r.mod.wires| == |M.wires| + 2 && r.mod.wires[..|M.wires|] == M.wires
    ensures r.mod.wires[|M.wires|] == Wire(AutoName(autoIdx), SigWidth(outputSig), false, false)
    ensures r.mod.wires[|M.wires| + 1] == Wire(AutoName(autoIdx + 1), SigWidth(outputSig), false, false)
    ensures r.mod.connections == M.connections + [Connection(outputSig, WireSig(r.mod.wires[|M.wires| + 1]))]
    ensures |r.mod.cells| == |M.cells| + (if GateCellType(fiType).Some? then 1 else 0)
    ensures r.mod.cells[c] == M.cells[c].WithPort(output, WireSig(r.mod.wires[|M.wires|]))
    ensures forall x :: 0 <= x < |M.cells| && x != c ==> r.mod.cells[x] == M.cells[x]
    ensures GateCellType(fiType).Some? ==>
      r.mod.cells[|M.cells|] == Cell(AutoName(autoIdx + 2), GateCellType(fiType).value,
        map["\\A" := WireSig(s), "\\B" := WireSig(r.mod.wires[|M.wires|]), "\\Y" := WireSig(r.mod.wires[|M.wires| + 1])])
    ensures r.autoIdx == autoIdx + (if GateCellType(fiType).Some? then 3 else 2)
  {
    var w := SigWidth(outputSig);
    var xorInput := Wire(AutoName(autoIdx), w, false, false);
    var M1 := M.WithWire(xorInput).WithCellPort(c, output, WireSig(xorInput));
    var newOutput := Wire(AutoName(autoIdx + 1), w, false, false);
    var M2 := M1.WithWire(newOutput).WithConnection(outputSig, WireSig(newOutput));
    match GateCellType(fiType)
    case None => Spliced(M2, autoIdx + 2)
    case Some(g) =>
      var gate := Cell(AutoName(autoIdx + 2), g, map["\\A" := WireSig(s), "\\B" := WireSig(xorInput), "\\Y" := WireSig(newOutput)]);
      Spliced(M2.WithCell(gate), autoIdx + 3)
  }

  datatype Injected = Injected(mod: Module, autoIdx: nat, bus: SigSpec)

  /** `insertFi` on a module value. */
  function InsertFiSpec(fiType: string, M: Module, c: nat, faultNum: nat, autoIdx: nat, bus: SigSpec): (r: Injected)
    requires c < |M.cells|
    // a cell with neither output is skipped and nothing changes
    ensures OutputPort(M.cells[c]).None? ==> r == Injected(M, autoIdx, bus)
    // the bus grows by exactly the cell's fault wire, as wide as the output
    ensures r.bus == bus + FaultChunk(M, M.cells[c], faultNum)
    ensures SigWidth(r.bus) == SigWidth(bus) + OutputWidth(M.cells[c])
    ensures r.mod.name == M.name && r.mod.isTop == M.isTop
    ensures |M.cells| <= |r.mod.cells| && |M.wires| <= |r.mod.wires| && r.mod.wires[..|M.wires|] == M.wires
    ensures forall x :: 0 <= x < |M.cells| && x != c ==> r.mod.cells[x] == M.cells[x]
    ensures SameInterface(r.mod.cells[c], M.cells[c])
    ensures forall x :: |M.cells| <= x < |r.mod.cells| ==> r.mod.cells[x].cellType in GateTypes
    ensures autoIdx <= r.autoIdx
  {
    match OutputPort(M.cells[c])
    case None => Injected(M, autoIdx, bus)
    case Some(out) => SpliceFault(fiType, M, c, out, faultNum, autoIdx, bus)
  }

  /** `insertFi` for a cell whose output port is `out`: the fault wire of
      `storeFaultSignal`, then `appendFiCell`. */
  function SpliceFault(fiType: string, M: Module, c: nat, out: string, faultNum: nat, autoIdx: nat, bus: SigSpec): (r: Injected)
    requires c < |M.cells| && OutputPort(M.cells[c]) == Some(out)
    ensures r.bus == bus + FaultChunk(M, M.cells[c], faultNum)
    ensures SigWidth(r.bus) == SigWidth(bus) + OutputWidth(M.cells[c])
    ensures r.mod.name == M.name && r.mod.isTop == M.isTop
    ensures |M.cells| <= |r.mod.cells| && |M.wires| <= |r.mod.wires| && r.mod.wires[..|M.wires|] == M.wires
    ensures forall x :: 0 <= x < |M.cells| && x != c ==> r.mod.cells[x] == M.cells[x]
    ensures SameInterface(r.mod.cells[c], M.cells[c])
    ensures forall x :: |M.cells| <= x < |r.mod.cells| ==> r.mod.cells[x].cellType in GateTypes
    ensures autoIdx <= r.autoIdx
  {
    var outputSig := M.cells[c].ports[out];
    var s := FaultWire(M, out, faultNum, SigWidth(outputSig));
    var sp := SpliceGate(fiType, M.WithWire(s), c, out, outputSig, s, autoIdx);
    SigWidthAppend(bus, WireSig(s));
    assert sp.mod.wires[..|M.wires|] == M.wires by {
      assert sp.mod.wires[..|M.wires| + 1] == M.wires + [s];
    }
    RebindOutputKeepsInterface(M.cells[c], WireSig(sp.mod.wires[|M.wires| + 1]));
    Injected(sp.mod, sp.autoIdx, bus + WireSig(s))
  }

  /** An injected cell: one fault wire as wide as the output, named from
      the category of the port, the module and the fault index; two internal
      wires of the same width with the next two fresh names; the output port moved to the first of them,
      the old output net driven by the second; and the bus extended by the
      fault wire. */
  lemma InsertFiSplices(fiType: string, M: Module, c: nat, faultNum: nat, autoIdx: nat, bus: SigSpec)
    requires c < |M.cells| && OutputPort(M.cells[c]).Some?
    ensures var r := InsertFiSpec(fiType, M, c, faultNum, autoIdx, bus);
      var out := OutputPort(M.cells[c]).value;
      var width := SigWidth(M.cells[c].ports[out]);
      && |r.mod.wires| == |M.wires| + 3
      && r.mod.wires[|M.wires|] == FaultWire(M, out, faultNum, width)
      && r.mod.wires[|M.wires| + 1] == Wire(AutoName(autoIdx), width, false, false)
      && r.mod.wires[|M.wires| + 2] == Wire(AutoName(autoIdx + 1), width, false, false)
      && r.bus == bus + WireSig(r.mod.wires[|M.wires|])
      && r.mod.cells[c] == M.cells[c].WithPort(out, WireSig(r.mod.wires[|M.wires| + 1]))
      && r.mod.connections == M.connections + [Connection(M.cells[c].ports[out], WireSig(r.mod.wires[|M.wires| + 2]))]
  {
  }

  /** The combining cell: it exists exactly when the gate type is known,
      and then joins the fault wire (`A`) and the cell's moved output (`B`)
      into the old output net (`Y`). */
  lemma InsertFiGate(fiType: string, M: Module, c: nat, faultNum: nat, autoIdx: nat, bus: SigSpec)
    requires c < |M.cells| && OutputPort(M.cells[c]).Some?
    ensures var r := InsertFiSpec(fiType, M, c, faultNum, autoIdx, bus);
      && |r.mod.cells| == |M.cells| + (if GateCellType(fiType).Some? then 1 else 0)
      && r.autoIdx == autoIdx + (if GateCellType(fiType).Some? then 3 else 2)
      && (GateCellType(fiType).Some? ==>
            r.mod.cells[|M.cells|] == Cell(AutoName(autoIdx + 2), GateCellType(fiType).value,
              map["\\A" := WireSig(r.mod.wires[|M.wires|]),
                  "\\B" := WireSig(r.mod.wires[|M.wires| + 1]),
                  "\\Y" := WireSig(r.mod.wires[|M.wires| + 2])]))
  {
  }

  /** `storeFaultSignal`. */
  method StoreFaultSignal(design: Design, m: nat, c: nat, output: string, faultNum: nat, bus: SigSpec) returns (s: Wire, bus': SigSpec)
    requires m < |design.modules| && c < |design.modules[m].cells|
    requires output in design.modules[m].cells[c].ports
    modifies design
    ensures s == FaultWire(old(design.modules[m]), output, faultNum, SigWidth(old(design.modules[m]).cells[c].ports[output]))
    ensures design.modules == old(design.modules)[m := old(design.modules[m]).WithWire(s)]
    ensures design.autoIdx == old(design.autoIdx)
    ensures bus' == bus + WireSig(s)
  {
    var md := design.modules[m];
    var sigType := "";
    if output == PortQ {
      sigType := "ff";
    } else if output == PortY {
      sigType := "comb";
    }
    var faultSigName;
    if md.isTop {
      faultSigName := "\\fi_" + sigType + "_" + NatToString(faultNum);
    } else {
      faultSigName := "\\fi_" + sigType + "_" + LogId(md.name) + "_" + NatToString(faultNum);
    }
    s := Wire(faultSigName, SigWidth(md.cells[c].ports[output]), false, false);
    design.AddWire(m, s);
    bus' := bus + WireSig(s);
  }

  /** `appendFiCell`. */
  method AppendFiCell(design: Design, fiType: string, m: nat, c: nat, output: string, outputSig: SigSpec, s: Wire)
    requires m < |design.modules| && c < |design.modules[m].cells|
    requires output in design.modules[m].cells[c].ports
    requires SigWidth(design.modules[m].cells[c].ports[output]) == SigWidth(outputSig)
    modifies design
    ensures var sp := SpliceGate(fiType, old(design.modules[m]), c, output, outputSig, s, old(design.autoIdx));
      design.modules == old(design.modules)[m := sp.mod] && design.autoIdx == sp.autoIdx
  {
    var width := SigWidth(design.modules[m].cells[c].ports[output]);
    var xorInputName := design.NewId();
    var xorInput := Wire(xorInputName, width, false, false);
    design.AddWire(m, xorInput);
    design.SetPort(m, c, output, WireSig(xorInput));
    var newOutputName := design.NewId();
    var newOutput := Wire(newOutputName, SigWidth(design.modules[m].cells[c].ports[output]), false, false);
    design.AddWire(m, newOutput);
    design.Connect(m, outputSig, WireSig(newOutput));
    var gate := GateCellType(fiType);
    if gate.Some? {
      var gateName := design.NewId();
      design.AddCell(m, Cell(gateName, gate.value, map["\\A" := WireSig(s), "\\B" := WireSig(xorInput), "\\Y" := WireSig(newOutput)]));
    }
  }

  /** `insertFi`. */
  method InsertFi(design: Design, fiType: string, m: nat, c: nat, faultNum: nat, bus: SigSpec) returns (bus': SigSpec)
    requires m < |design.modules| && c < |design.modules[m].cells|
    modifies design
    ensures var r := InsertFiSpec(fiType, old(design.modules[m]), c, faultNum, old(design.autoIdx), bus);
      design.modules == old(design.modules)[m := r.mod] && design.autoIdx == r.autoIdx && bus' == r.bus
  {
    var cell := design.modules[m].cells[c];
    var output;
    if PortQ in cell.ports {
      output := PortQ;
    } else if PortY in cell.ports {
      output := PortY;
    } else {
      return bus;
    }
    var sigOutput := cell.ports[output];
    var s;
    s, bus' := StoreFaultSignal(design, m, c, output, faultNum, bus);
    AppendFiCell(design, fiType, m, c, output, sigOutput, s);
  }

  /** How the per-module loop treats a selected cell: cells of a public
      (user module) type are never touched; other cells feed the `ff` bus
      when their type is a flip-flop type and `-no-ff` was not given, and the
      `comb` bus when it is not and `-no-comb` was not given. */
  datatype Category = FfCell | CombCell | Skip

  function Classify(t: string, o: Options, isPublic: string -> bool, isFf: string -> bool): (r: Category)
    ensures isPublic(t) ==> r == Skip
    ensures r == FfCell <==> !isPublic(t) && o.injectFf && isFf(t)
    ensures r == CombCell <==> !isPublic(t) && o.injectComb && !isFf(t)
  {
    if isPublic(t) then Skip
    else if o.injectFf && isFf(t) then FfCell
    else if o.injectComb && !isFf(t) then CombCell
    else Skip
  }

  /** A cell that keeps its name, type and output port and width. */
  predicate SameInterface(a: Cell, b: Cell)
  {
    a.name == b.name && a.cellType == b.cellType && OutputPort(a) == OutputPort(b) && OutputWidth(a) == OutputWidth(b)
  }

  ghost predicate ValidCells(M: Module, sel: seq<nat>)
  {
    forall x :: 0 <= x < |sel| ==> sel[x] < |M.cells|
  }

  /** The number of fault indices the first k selected cells take. */
  function Attempts(o: Options, isPublic: string -> bool, isFf: string -> bool, M: Module, sel: seq<nat>, k: nat): (n: nat)
    requires k <= |sel| && ValidCells(M, sel)
    ensures n <= k
  {
    if k == 0 then 0
    else Attempts(o, isPublic, isFf, M, sel, k - 1) + (if Classify(M.cells[sel[k - 1]].cellType, o, isPublic, isFf) == Skip then 0 else 1)
  }

  /** The total output width of the first k selected cells of a category. */
  function CategoryWidth(o: Options, isPublic: string -> bool, isFf: string -> bool, M: Module, sel: seq<nat>, k: nat, cat: Category): nat
    requires k <= |sel| && ValidCells(M, sel)
  {
    if k == 0 then 0
    else
      var c := M.cells[sel[k - 1]];
      CategoryWidth(o, isPublic, isFf, M, sel, k - 1, cat) + (if Classify(c.cellType, o, isPublic, isFf) == cat then OutputWidth(c) else 0)
  }

  /** The bus of category `cat` built from the first k selected cells, as
      an independent reference: each selected cell of that category
      contributes its fault wire, numbered by the fault indices the cells
      before it took, in selection order. */
  function CategoryBus(o: Options, isPublic: string -> bool, isFf: string -> bool, M: Module, sel: seq<nat>, k: nat, cat: Category): (b: SigSpec)
    requires k <= |sel| && ValidCells(M, sel)
    ensures SigWidth(b) == CategoryWidth(o, isPublic, isFf, M, sel, k, cat)
  {
    if k == 0 then []
    else
      var c := M.cells[sel[k - 1]];
      var prev := CategoryBus(o, isPublic, isFf, M, sel, k - 1, cat);
      var chunk := if Classify(c.cellType, o, isPublic, isFf) == cat then FaultChunk(M, c, Attempts(o, isPublic, isFf, M, sel, k - 1)) else [];
      SigWidthAppend(prev, chunk);
      prev + chunk
  }

  datatype InjectState = InjectState(mod: Module, autoIdx: nat, i: nat, ff: SigSpec, comb: SigSpec)

  /** One iteration of the per-module loop, for cell `c` of category
      `cat`: a classified cell takes the next fault index and feeds the bus
      of its category. */
  function InjectStep(fiType: string, cat: Category, p: InjectState, c: nat): (r: InjectState)
    requires c < |p.mod.cells|
    ensures cat == Skip ==> r == p
    ensures r.mod.name == p.mod.name && r.mod.isTop == p.mod.isTop
    ensures |p.mod.cells| <= |r.mod.cells| && |p.mod.wires| <= |r.mod.wires| && r.mod.wires[..|p.mod.wires|] == p.mod.wires
    ensures forall x :: 0 <= x < |p.mod.cells| && x != c ==> r.mod.cells[x] == p.mod.cells[x]
    ensures SameInterface(r.mod.cells[c], p.mod.cells[c])
    ensures forall x :: |p.mod.cells| <= x < |r.mod.cells| ==> r.mod.cells[x].cellType in GateTypes
    ensures r.i == p.i + (if cat == Skip then 0 else 1)
    ensures SigWidth(r.ff) == SigWidth(p.ff) + (if cat == FfCell then OutputWidth(p.mod.cells[c]) else 0)
    ensures SigWidth(r.comb) == SigWidth(p.comb) + (if cat == CombCell then OutputWidth(p.mod.cells[c]) else 0)
    ensures p.autoIdx <= r.autoIdx
  {
    match cat
    case Skip => p
    case FfCell =>
      var r := InsertFiSpec(fiType, p.mod, c, p.i, p.autoIdx, p.ff);
      InjectState(r.mod, r.autoIdx, p.i + 1, r.bus, p.comb)
    case CombCell =>
      var r := InsertFiSpec(fiType, p.mod, c, p.i, p.autoIdx, p.comb);
      InjectState(r.mod, r.autoIdx, p.i + 1, p.ff, r.bus)
  }

  /** What one step appends to the buses: the cell's fault wire goes on
      the bus of its category, and the other bus is left alone. */
  lemma InjectStepBuses(fiType: string, cat: Category, p: InjectState, c: nat)
    requires c < |p.mod.cells|
    ensures var r := InjectStep(fiType, cat, p, c);
      && r.ff == p.ff + (if cat == FfCell then FaultChunk(p.mod, p.mod.cells[c], p.i) else [])
      && r.comb == p.comb + (if cat == CombCell then FaultChunk(p.mod, p.mod.cells[c], p.i) else [])
  {
  }

  /** The per-module loop over the first k selected cells. */
  function InjectCells(o: Options, isPublic: string -> bool, isFf: string -> bool, M: Module, sel: seq<nat>, autoIdx: nat, k: nat): (r: InjectState)
    requires k <= |sel| && ValidCells(M, sel)
    ensures r.mod.name == M.name && r.mod.isTop == M.isTop
    ensures |M.cells| <= |r.mod.cells|
    ensures |M.wires| <= |r.mod.wires| && r.mod.wires[..|M.wires|] == M.wires
    ensures forall c :: 0 <= c < |M.cells| ==> SameInterface(r.mod.cells[c], M.cells[c])
    ensures forall c :: |M.cells| <= c < |r.mod.cells| ==> r.mod.cells[c].cellType in GateTypes
    // one fault index per classified cell; flip-flops feed `ff`, the others `comb`
    ensures r.i == Attempts(o, isPublic, isFf, M, sel, k)
    ensures SigWidth(r.ff) == CategoryWidth(o, isPublic, isFf, M, sel, k, FfCell)
    ensures SigWidth(r.comb) == CategoryWidth(o, isPublic, isFf, M, sel, k, CombCell)
    ensures autoIdx <= r.autoIdx
    decreases k
  {
    if k == 0 then InjectState(M, autoIdx, 0, [], [])
    else
      var p := InjectCells(o, isPublic, isFf, M, sel, autoIdx, k - 1);
      var c := sel[k - 1];
      var r := InjectStep(o.fiType, Classify(M.cells[c].cellType, o, isPublic, isFf), p, c);
      assert SameInterface(p.mod.cells[c], M.cells[c]);
      WiresPrefixTransitive(M.wires, p.mod.wires, r.mod.wires);
      r
  }

  /** A cell's fault chunk depends only on the module's name and `top`
      attribute and on the cell's interface. */
  lemma FaultChunkSame(M1: Module, M2: Module, c1: Cell, c2: Cell, n: nat)
    requires M1.name == M2.name && M1.isTop == M2.isTop && SameInterface(c1, c2)
    ensures FaultChunk(M1, c1, n) == FaultChunk(M2, c2, n)
  {
  }

  /** The `fi_ff` and `fi_comb` buses of the cell loop are exactly the
      reference buses: the fault wires of the cells of each category, in
      selection order. */
  lemma {:induction false} InjectCellsBuses(o: Options, isPublic: string -> bool, isFf: string -> bool, M: Module,
                                            sel: seq<nat>, autoIdx: nat, k: nat)
    requires k <= |sel| && ValidCells(M, sel)
    ensures var r := InjectCells(o, isPublic, isFf, M, sel, autoIdx, k);
      r.ff == CategoryBus(o, isPublic, isFf, M, sel, k, FfCell) && r.comb == CategoryBus(o, isPublic, isFf, M, sel, k, CombCell)
    decreases k
  {
    if k > 0 {
      var j := k - 1;
      InjectCellsBuses(o, isPublic, isFf, M, sel, autoIdx, j);
      var p := InjectCells(o, isPublic, isFf, M, sel, autoIdx, j);
      var c := sel[j];
      InjectCellsNext(o, isPublic, isFf, M, sel, autoIdx, j);
      InjectStepBuses(o.fiType, Classify(M.cells[c].cellType, o, isPublic, isFf), p, c);
      FaultChunkSame(p.mod, M, p.mod.cells[c], M.cells[c], p.i);
    }
  }

  lemma WiresPrefixTransitive(a: seq<Wire>, b: seq<Wire>, c: seq<Wire>)
    requires |a| <= |b| <= |c| && b[..|a|] == a && c[..|b|] == b
    ensures c[..|a|] == a
  {
    assert c[..|a|] == c[..|b|][..|a|];
  }

  /** One more selected cell is one more `InjectStep`. */
  lemma InjectCellsNext(o: Options, isPublic: string -> bool, isFf: string -> bool, M: Module, sel: seq<nat>, autoIdx: nat, k: nat)
    requires k < |sel| && ValidCells(M, sel)
    ensures var p := InjectCells(o, isPublic, isFf, M, sel, autoIdx, k);
      sel[k] < |p.mod.cells| && SameInterface(p.mod.cells[sel[k]], M.cells[sel[k]])
      && InjectCells(o, isPublic, isFf, M, sel, autoIdx, k + 1)
         == InjectStep(o.fiType, Classify(M.cells[sel[k]].cellType, o, isPublic, isFf), p, sel[k])
  {
  }

  /** Cells that are not selected, and cells the loop skips (among them
      every cell of a public type), are left exactly as they were. */
  lemma {:induction false} InjectCellsLeavesOthers(o: Options, isPublic: string -> bool, isFf: string -> bool, M: Module,
                                                   sel: seq<nat>, autoIdx: nat, k: nat, c: nat)
    requires k <= |sel| && ValidCells(M, sel) && c < |M.cells|
    requires c !in sel[..k] || Classify(M.cells[c].cellType, o, isPublic, isFf) == Skip
    ensures InjectCells(o, isPublic, isFf, M, sel, autoIdx, k).mod.cells[c] == M.cells[c]
    decreases k
  {
    if k > 0 {
      assert sel[..k] == sel[..k - 1] + [sel[k - 1]];
      InjectCellsLeavesOthers(o, isPublic, isFf, M, sel, autoIdx, k - 1, c);
    }
  }

  /** A selected cell is injected once: the selected cells after it, as
      long as they are other cells, leave it as its own step left it
      (`injected`). */
  lemma {:induction false} InjectedOnce(o: Options, isPublic: string -> bool, isFf: string -> bool, M: Module,
                                        sel: seq<nat>, autoIdx: nat, k1: nat, k: nat, x: nat, injected: Cell)
    requires k1 < k <= |sel| && ValidCells(M, sel) && x == sel[k1]
    requires injected == InjectCells(o, isPublic, isFf, M, sel, autoIdx, k1 + 1).mod.cells[x]
    requires x !in sel[k1 + 1..k]
    ensures InjectCells(o, isPublic, isFf, M, sel, autoIdx, k).mod.cells[x] == injected
    decreases k
  {
    if k > k1 + 1 {
      var j := k - 1;
      NotInSliceSplit(sel, k1 + 1, k, x);
      InjectedOnce(o, isPublic, isFf, M, sel, autoIdx, k1, j, x, injected);
      InjectCellsOther(o, isPublic, isFf, M, sel, autoIdx, k, x);
    }
  }

  /** What is not in a slice is neither in its front nor its last element. */
  lemma NotInSliceSplit(s: seq<nat>, a: nat, b: nat, x: nat)
    requires a < b <= |s| && x !in s[a..b]
    ensures x !in s[a..b - 1] && x != s[b - 1]
  {
    assert s[a..b] == s[a..b - 1] + [s[b - 1]];
  }

  /** The step for another selected cell leaves cell `x` alone. */
  lemma InjectCellsOther(o: Options, isPublic: string -> bool, isFf: string -> bool, M: Module, sel: seq<nat>, autoIdx: nat, k: nat, x: nat)
    requires 0 < k <= |sel| && ValidCells(M, sel) && x < |M.cells| && x != sel[k - 1]
    ensures InjectCells(o, isPublic, isFf, M, sel, autoIdx, k).mod.cells[x] == InjectCells(o, isPublic, isFf, M, sel, autoIdx, k - 1).mod.cells[x]
  {
    InjectCellsNext(o, isPublic, isFf, M, sel, autoIdx, k - 1);
  }

  // ---------------------------------------------------------------------
  // Names of the wires the cell loop adds

  /** A name the cell loop may give a new wire of a module: a fault wire
      with an index below `i`, or a fresh name handed out from `a0` on and
      below `a`. */
  ghost predicate LoopName(s: string, isTop: bool, moduleId: string, i: nat, a0: nat, a: nat)
  {
    || (exists n: nat :: n < i && s == FaultWireName("ff", isTop, moduleId, n))
    || (exists n: nat :: n < i && s == FaultWireName("comb", isTop, moduleId, n))
    || (exists n: nat :: a0 <= n < a && s == AutoName(n))
  }

  /** The wires from position `from` on have pairwise distinct names, each
      a `LoopName`. */
  ghost predicate FreshFrom(ws: seq<Wire>, from: nat, isTop: bool, moduleId: string, i: nat, a0: nat, a: nat)
  {
    && from <= |ws|
    && (forall p :: from <= p < |ws| ==> LoopName(ws[p].name, isTop, moduleId, i, a0, a))
    && (forall p, q :: from <= p < q < |ws| ==> ws[p].name != ws[q].name)
  }

  lemma FreshFromGrows(ws: seq<Wire>, from: nat, isTop: bool, moduleId: string, i: nat, a0: nat, a: nat, i': nat, a': nat)
    requires FreshFrom(ws, from, isTop, moduleId, i, a0, a) && i <= i' && a <= a'
    ensures FreshFrom(ws, from, isTop, moduleId, i', a0, a')
  {
    forall p | from <= p < |ws|
      ensures LoopName(ws[p].name, isTop, moduleId, i', a0, a')
    {
      assert LoopName(ws[p].name, isTop, moduleId, i, a0, a);
    }
  }

  /** A new `LoopName` differs from the fault wire with index `i` and from
      the fresh names `a` and `a + 1`. */
  lemma LoopNameBelow(s: string, isTop: bool, moduleId: string, i: nat, a0: nat, a: nat, t: string)
    requires LoopName(s, isTop, moduleId, i, a0, a) && t in {"ff", "comb"}
    ensures s != FaultWireName(t, isTop, moduleId, i) && s != AutoName(a) && s != AutoName(a + 1)
  {
    if n: nat :| n < i && s == FaultWireName("ff", isTop, moduleId, n) {
      OlderFaultWireDiffers("ff", t, isTop, moduleId, n, i, a);
    } else if n: nat :| n < i && s == FaultWireName("comb", isTop, moduleId, n) {
      OlderFaultWireDiffers("comb", t, isTop, moduleId, n, i, a);
    } else {
      var n: nat :| a0 <= n < a && s == AutoName(n);
      AutoNameFresh(n, a);
      AutoNameFresh(n, a + 1);
      FaultWireNotAuto(t, isTop, moduleId, i, n);
    }
  }

  /** A fault wire with an earlier index differs from the one with index
      `i` and from every fresh name. */
  lemma OlderFaultWireDiffers(u: string, t: string, isTop: bool, moduleId: string, n: nat, i: nat, a: nat)
    requires u in {"ff", "comb"} && t in {"ff", "comb"} && n < i
    ensures FaultWireName(u, isTop, moduleId, n) != FaultWireName(t, isTop, moduleId, i)
    ensures FaultWireName(u, isTop, moduleId, n) != AutoName(a) && FaultWireName(u, isTop, moduleId, n) != AutoName(a + 1)
  {
    if FaultWireName(u, isTop, moduleId, n) == FaultWireName(t, isTop, moduleId, i) {
      FaultWireNameInjective(u, t, isTop, moduleId, n, i);
    }
    FaultWireNotAuto(u, isTop, moduleId, n, a);
    FaultWireNotAuto(u, isTop, moduleId, n, a + 1);
  }

  /** A fault wire name starts with a backslash, a fresh name with `$`. */
  lemma FaultWireNotAuto(t: string, isTop: bool, moduleId: string, i: nat, a: nat)
    ensures FaultWireName(t, isTop, moduleId, i) != AutoName(a)
  {
    var f := FaultWireName(t, isTop, moduleId, i);
    assert f[0] == f[..4][0];
    AutoNameFresh(a, a);
  }

  /** Appending the three wires of one injected cell keeps the names fresh. */
  lemma FreshAppend(ws: seq<Wire>, from: nat, isTop: bool, moduleId: string, i: nat, a0: nat, a: nat,
                    t: string, f: Wire, x: Wire, y: Wire)
    requires FreshFrom(ws, from, isTop, moduleId, i, a0, a) && a0 <= a && t in {"ff", "comb"}
    requires f.name == FaultWireName(t, isTop, moduleId, i) && x.name == AutoName(a) && y.name == AutoName(a + 1)
    ensures FreshFrom(ws + [f, x, y], from, isTop, moduleId, i + 1, a0, a + 2)
  {
    var ws' := ws + [f, x, y];
    AutoNameFresh(a, a + 1);
    FaultWireNotAuto(t, isTop, moduleId, i, a);
    FaultWireNotAuto(t, isTop, moduleId, i, a + 1);
    forall p | from <= p < |ws'|
      ensures LoopName(ws'[p].name, isTop, moduleId, i + 1, a0, a + 2)
    {
      if p < |ws| {
        assert ws'[p] == ws[p];
        assert LoopName(ws[p].name, isTop, moduleId, i, a0, a);
      } else if p == |ws| {
        assert ws'[p].name == FaultWireName(t, isTop, moduleId, i);
      } else if p == |ws| + 1 {
        assert ws'[p].name == AutoName(a);
      } else {
        assert ws'[p].name == AutoName(a + 1);
      }
    }
    forall p, q | from <= p < q < |ws'|
      ensures ws'[p].name != ws'[q].name
    {
      if q < |ws| {
        assert ws'[p] == ws[p] && ws'[q] == ws[q];
      } else if p < |ws| {
        assert ws'[p] == ws[p];
        LoopNameBelow(ws[p].name, isTop, moduleId, i, a0, a, t);
      }
    }
  }

  /** `insertFi` only appends wires: those of the module come first. */
  lemma InsertFiKeepsWires(fiType: string, M: Module, c: nat, faultNum: nat, autoIdx: nat, bus: SigSpec)
    requires c < |M.cells| && OutputPort(M.cells[c]).Some?
    ensures var r := InsertFiSpec(fiType, M, c, faultNum, autoIdx, bus);
      |M.wires| <= |r.mod.wires| && r.mod.wires[..|M.wires|] == M.wires
  {
  }

  /** A sequence made of `pre` and three more elements. */
  lemma ThreeMore<T>(ws: seq<T>, pre: seq<T>)
    requires |ws| == |pre| + 3 && ws[..|pre|] == pre
    ensures ws == pre + [ws[|pre|], ws[|pre| + 1], ws[|pre| + 2]]
  {
    assert ws == ws[..|pre|] + ws[|pre|..];
  }

  /** `insertFi` keeps the new wires of the module fresh, and uses up the
      fault index it is given. */
  lemma InsertFiFresh(fiType: string, M: Module, c: nat, faultNum: nat, autoIdx: nat, bus: SigSpec, from: nat, a0: nat)
    requires c < |M.cells| && a0 <= autoIdx
    requires FreshFrom(M.wires, from, M.isTop, LogId(M.name), faultNum, a0, autoIdx)
    ensures var r := InsertFiSpec(fiType, M, c, faultNum, autoIdx, bus);
      FreshFrom(r.mod.wires, from, M.isTop, LogId(M.name), faultNum + 1, a0, r.autoIdx)
  {
    var r := InsertFiSpec(fiType, M, c, faultNum, autoIdx, bus);
    match OutputPort(M.cells[c])
    case None =>
      FreshFromGrows(M.wires, from, M.isTop, LogId(M.name), faultNum, a0, autoIdx, faultNum + 1, autoIdx);
    case Some(out) =>
      InsertFiSplices(fiType, M, c, faultNum, autoIdx, bus);
      InsertFiGate(fiType, M, c, faultNum, autoIdx, bus);
      var n := |M.wires|;
      var ws := r.mod.wires;
      InsertFiKeepsWires(fiType, M, c, faultNum, autoIdx, bus);
      ThreeMore(ws, M.wires);
      FreshAppend(M.wires, from, M.isTop, LogId(M.name), faultNum, a0, autoIdx, SigType(out), ws[n], ws[n + 1], ws[n + 2]);
      FreshFromGrows(ws, from, M.isTop, LogId(M.name), faultNum + 1, a0, autoIdx + 2, faultNum + 1, r.autoIdx);
  }

  /** One step of the cell loop keeps the new wires of the module fresh. */
  lemma InjectStepFresh(fiType: string, cat: Category, p: InjectState, c: nat, from: nat, a0: nat)
    requires c < |p.mod.cells| && a0 <= p.autoIdx
    requires FreshFrom(p.mod.wires, from, p.mod.isTop, LogId(p.mod.name), p.i, a0, p.autoIdx)
    ensures var r := InjectStep(fiType, cat, p, c);
      FreshFrom(r.mod.wires, from, p.mod.isTop, LogId(p.mod.name), r.i, a0, r.autoIdx)
  {
    match cat
    case Skip =>
    case FfCell => InsertFiFresh(fiType, p.mod, c, p.i, p.autoIdx, p.ff, from, a0);
    case CombCell => InsertFiFresh(fiType, p.mod, c, p.i, p.autoIdx, p.comb, from, a0);
  }

  /** The wires the cell loop adds to a module have pairwise distinct
      names: fault wires `fi_<ff|comb>[_<module>]_<i>` with distinct
      indices, and fresh `NEW_ID` names. */
  lemma {:induction false} InjectCellsFresh(o: Options, isPublic: string -> bool, isFf: string -> bool, M: Module,
                                            sel: seq<nat>, autoIdx: nat, k: nat)
    requires k <= |sel| && ValidCells(M, sel)
    ensures var r := InjectCells(o, isPublic, isFf, M, sel, autoIdx, k);
      FreshFrom(r.mod.wires, |M.wires|, M.isTop, LogId(M.name), r.i, autoIdx, r.autoIdx)
    decreases k
  {
    if k > 0 {
      var j := k - 1;
      InjectCellsFresh(o, isPublic, isFf, M, sel, autoIdx, j);
      InjectCellsNext(o, isPublic, isFf, M, sel, autoIdx, j);
      var p := InjectCells(o, isPublic, isFf, M, sel, autoIdx, j);
      InjectStepFresh(o.fiType, Classify(M.cells[sel[j]].cellType, o, isPublic, isFf), p, sel[j], |M.wires|, autoIdx);
    }
  }

  /** Every selected cell is one the loop leaves alone: it is skipped, or
      it has neither `Q` nor `Y`. */
  ghost predicate NothingToInject(o: Options, isPublic: string -> bool, isFf: string -> bool, M: Module, sel: seq<nat>)
  {
    forall y :: 0 <= y < |sel| && sel[y] < |M.cells| ==>
      Classify(M.cells[sel[y]].cellType, o, isPublic, isFf) == Skip || OutputPort(M.cells[sel[y]]).None?
  }

  /** Without a cell to inject, the cell loop changes nothing, hands out no
      fresh name and leaves both buses empty. */
  lemma {:induction false} InjectCellsNothing(o: Options, isPublic: string -> bool, isFf: string -> bool, M: Module,
                                              sel: seq<nat>, autoIdx: nat, k: nat)
    requires k <= |sel| && ValidCells(M, sel) && NothingToInject(o, isPublic, isFf, M, sel)
    ensures InjectCells(o, isPublic, isFf, M, sel, autoIdx, k) == InjectState(M, autoIdx, Attempts(o, isPublic, isFf, M, sel, k), [], [])
    decreases k
  {
    if k > 0 {
      var c := sel[k - 1];
      InjectCellsNothing(o, isPublic, isFf, M, sel, autoIdx, k - 1);
      var p := InjectState(M, autoIdx, Attempts(o, isPublic, isFf, M, sel, k - 1), [], []);
      var cat := Classify(M.cells[c].cellType, o, isPublic, isFf);
      assert cat == Skip || OutputPort(M.cells[c]).None?;
      InjectStepNothing(o.fiType, cat, p, c);
    }
  }

  /** A step for a skipped cell, or for one with neither output, changes
      nothing but possibly the fault index. */
  lemma InjectStepNothing(fiType: string, cat: Category, p: InjectState, c: nat)
    requires c < |p.mod.cells| && (cat == Skip || OutputPort(p.mod.cells[c]).None?)
    ensures var r := InjectStep(fiType, cat, p, c);
      r.mod == p.mod && r.autoIdx == p.autoIdx && r.ff == p.ff && r.comb == p.comb
  {
  }

  datatype Aggregated = Aggregated(mod: Module, added: seq<Entry>, tops: seq<Entry>)

  /** `addModuleFiInut` on a module value. */
  function AddModuleFiInputSpec(M: Module, m: nat, bus: SigSpec, name: string, added: seq<Entry>, tops: seq<Entry>): (r: Aggregated)
    // an empty bus changes nothing
    ensures SigWidth(bus) == 0 ==> r == Aggregated(M, added, tops)
    // otherwise one wire as wide as the bus, which drives the bus, an input port exactly when the module is not top
    ensures SigWidth(bus) > 0 ==>
      && |r.mod.wires| == |M.wires| + 1
      && r.mod.wires[..|M.wires|] == M.wires
      && r.mod.wires[|M.wires|] == Wire(name, SigWidth(bus), !M.isTop, false)
      && r.mod.cells == M.cells
      && r.mod.connections == M.connections + [Connection(bus, WireSig(r.mod.wires[|M.wires|]))]
    // and exactly one list gains exactly that wire: the top list for a top module, the work queue otherwise
    ensures SigWidth(bus) > 0 && M.isTop ==> r.added == added && r.tops == tops + [Entry(m, r.mod.wires[|M.wires|])]
    ensures SigWidth(bus) > 0 && !M.isTop ==> r.added == added + [Entry(m, r.mod.wires[|M.wires|])] && r.tops == tops
    ensures r.mod.name == M.name && r.mod.isTop == M.isTop && r.mod.cells == M.cells
    ensures |M.wires| <= |r.mod.wires| && r.mod.wires[..|M.wires|] == M.wires
  {
    if SigWidth(bus) == 0 then Aggregated(M, added, tops)
    else
      var input := Wire(name, SigWidth(bus), !M.isTop, false);
      var M' := M.WithWire(input).WithConnection(bus, WireSig(input));
      if M.isTop then Aggregated(M', added, tops + [Entry(m, input)])
      else Aggregated(M', added + [Entry(m, input)], tops)
  }

  /** `addModuleFiInut`. */
  method AddModuleFiInput(design: Design, m: nat, bus: SigSpec, name: string, added: seq<Entry>, tops: seq<Entry>)
    returns (added': seq<Entry>, tops': seq<Entry>)
    requires m < |design.modules|
    modifies design
    ensures var r := AddModuleFiInputSpec(old(design.modules[m]), m, bus, name, added, tops);
      design.modules == old(design.modules)[m := r.mod] && added' == r.added && tops' == r.tops
    ensures design.autoIdx == old(design.autoIdx)
  {
    added', tops' := added, tops;
    if SigWidth(bus) == 0 {
      return;
    }
    var isTop := design.modules[m].isTop;
    var input := Wire(name, SigWidth(bus), !isTop, false);
    design.AddWire(m, input);
    design.Connect(m, bus, WireSig(input));
    if isTop {
      tops' := tops + [Entry(m, input)];
    } else {
      added' := added + [Entry(m, input)];
    }
  }

  /** The selection of one module: the module and its selected cells. */
  datatype ModuleSelection = ModuleSelection(index: nat, cells: seq<nat>)

  datatype ModuleInjected = ModuleInjected(mods: seq<Module>, autoIdx: nat, added: seq<Entry>, tops: seq<Entry>)

  /** The body of the per-module loop of `execute`: inject the selected
      cells, then turn the `ff` bus and the `comb` bus into `fi_ff` and
      `fi_comb`. */
  function InjectModuleSpec(o: Options, isPublic: string -> bool, isFf: string -> bool, mods: seq<Module>, autoIdx: nat,
                            s: ModuleSelection, added: seq<Entry>, tops: seq<Entry>): (r: ModuleInjected)
    requires s.index < |mods| && ValidCells(mods[s.index], s.cells)
    // only the selected module changes
    ensures |r.mods| == |mods| && forall x :: 0 <= x < |mods| && x != s.index ==> r.mods[x] == mods[x]
    // the name counter never goes back, and both lists are only extended
    ensures autoIdx <= r.autoIdx
    ensures added <= r.added && tops <= r.tops
  {
    var st := InjectCells(o, isPublic, isFf, mods[s.index], s.cells, autoIdx, |s.cells|);
    var a1 := AddModuleFiInputSpec(st.mod, s.index, st.ff, "\\fi_ff", added, tops);
    var a2 := AddModuleFiInputSpec(a1.mod, s.index, st.comb, "\\fi_comb", a1.added, a1.tops);
    ModuleInjected(mods[s.index := a2.mod], st.autoIdx, a2.added, a2.tops)
  }

  /** One iteration of the inner loop of `execute`: the two category tests
      on the cell's type. */
  method InjectCell(design: Design, o: Options, isPublic: string -> bool, isFf: string -> bool, m: nat, c: nat,
                    i: nat, fiFf: SigSpec, fiComb: SigSpec) returns (i': nat, fiFf': SigSpec, fiComb': SigSpec)
    requires m < |design.modules| && c < |design.modules[m].cells|
    modifies design
    ensures var cat := Classify(old(design.modules[m]).cells[c].cellType, o, isPublic, isFf);
      var r := InjectStep(o.fiType, cat, InjectState(old(design.modules[m]), old(design.autoIdx), i, fiFf, fiComb), c);
      design.modules == old(design.modules)[m := r.mod] && design.autoIdx == r.autoIdx
      && i' == r.i && fiFf' == r.ff && fiComb' == r.comb
  {
    i', fiFf', fiComb' := i, fiFf, fiComb;
    var cellType := design.modules[m].cells[c].cellType;
    if !isPublic(cellType) {
      if o.injectFf && isFf(cellType) {
        fiFf' := InsertFi(design, o.fiType, m, c, i', fiFf');
        i' := i' + 1;
      }
      if o.injectComb && !isFf(cellType) {
        fiComb' := InsertFi(design, o.fiType, m, c, i', fiComb');
        i' := i' + 1;
      }
    }
  }

  /** The loop over the selected cells of one module (the inner loop of
      `execute`), with the shared fault index `i` and the two buses. */
  method InjectSelectedCells(design: Design, o: Options, isPublic: string -> bool, isFf: string -> bool, m: nat, cells: seq<nat>)
    returns (fiFf: SigSpec, fiComb: SigSpec)
    requires m < |design.modules| && ValidCells(design.modules[m], cells)
    modifies design
    ensures var st := InjectCells(o, isPublic, isFf, old(design.modules[m]), cells, old(design.autoIdx), |cells|);
      design.modules == old(design.modules)[m := st.mod] && design.autoIdx == st.autoIdx && fiFf == st.ff && fiComb == st.comb
  {
    ghost var mods0, M0, auto0 := design.modules, design.modules[m], design.autoIdx;
    var i: nat := 0;
    fiFf, fiComb := [], [];
    ghost var st := InjectState(M0, auto0, 0, [], []);
    for k := 0 to |cells|
      invariant st == InjectCells(o, isPublic, isFf, M0, cells, auto0, k)
      invariant design.modules == mods0[m := st.mod] && design.autoIdx == st.autoIdx
      invariant i == st.i && fiFf == st.ff && fiComb == st.comb
    {
      var c := cells[k];
      InjectCellsNext(o, isPublic, isFf, M0, cells, auto0, k);
      i, fiFf, fiComb := InjectCell(design, o, isPublic, isFf, m, c, i, fiFf, fiComb);
      ghost var prev := st;
      st := InjectStep(o.fiType, Classify(M0.cells[c].cellType, o, isPublic, isFf), st, c);
      ReplaceTwice(mods0, m, prev.mod, st.mod);
    }
  }

  /** The body of the per-module loop of `execute` for one selected module. */
  method InjectModule(design: Design, o: Options, isPublic: string -> bool, isFf: string -> bool, s: ModuleSelection,
                      added: seq<Entry>, tops: seq<Entry>) returns (added': seq<Entry>, tops': seq<Entry>)
    requires s.index < |design.modules| && ValidCells(design.modules[s.index], s.cells)
    modifies design
    ensures var r := InjectModuleSpec(o, isPublic, isFf, old(design.modules), old(design.autoIdx), s, added, tops);
      design.modules == r.mods && design.autoIdx == r.autoIdx && added' == r.added && tops' == r.tops
  {
    var m := s.index;
    var fiFf, fiComb := InjectSelectedCells(design, o, isPublic, isFf, m, s.cells);
    added', tops' := AddModuleFiInput(design, m, fiFf, "\\fi_ff", added, tops);
    added', tops' := AddModuleFiInput(design, m, fiComb, "\\fi_comb", added', tops');
  }
}
