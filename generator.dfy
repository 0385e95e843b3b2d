/** The end of `add_toplevel_fi_module`: the signals collected at the top
    are driven by a new module `figenerator`, with one output port per
    signal and optionally one input `fi_combined` that drives all the
    outputs at once; an instance `u_figenerator` of it is placed in the top
    module and bound to the collected signals. */
module Generator {
  import opened Wrappers
  import opened Ids
  import opened Netlist

  const GeneratorName: string := "\\figenerator"
  const InstanceName: string := "\\u_figenerator"
  const CombinedName: string := "\\fi_combined"

  // ---------------------------------------------------------------------
  // The top module

  /** The last module among the first `k` that has the `top` attribute. */
  function LastTop(mods: seq<Module>, k: nat): (r: Option<nat>)
    requires k <= |mods|
    ensures r.Some? ==> r.value < k && mods[r.value].isTop && forall x :: r.value < x < k ==> !mods[x].isTop
    ensures r.None? ==> forall x :: 0 <= x < k ==> !mods[x].isTop
  {
    if k == 0 then None
    else if mods[k - 1].isTop then Some(k - 1)
    else LastTop(mods, k - 1)
  }

  /** The same loop as written, where `top_module` starts out uninitialised:
      `init` stands for whatever value the pointer happens to hold. With no
      top module that value survives the loop. */
  function LastTopAsWritten(mods: seq<Module>, k: nat, init: Option<nat>): (r: Option<nat>)
    requires k <= |mods|
    ensures (forall x :: 0 <= x < k ==> !mods[x].isTop) ==> r == init
    ensures (exists x :: 0 <= x < k && mods[x].isTop) ==> r == LastTop(mods, k)
  {
    if k == 0 then init
    else if mods[k - 1].isTop then Some(k - 1)
    else LastTopAsWritten(mods, k - 1, init)
  }

  /** Without a top module the null check does not stop the pass when the
      pointer happens not to be null: here it picks a module without the
      `top` attribute, where `LastTop` reports that there is none. */
  lemma UninitialisedTopPassesCheck()
    ensures var mods := [Module("\\m", false, [], [], [])];
      LastTopAsWritten(mods, 1, Some(0)) == Some(0) && !mods[0].isTop && LastTop(mods, 1) == None
  {
  }

  /** The loop that looks for the top module: every module with the `top`
      attribute overwrites the previous choice, so the last one wins. */
  method FindTopModule(design: Design) returns (top: Option<nat>)
    ensures top == LastTop(design.modules, |design.modules|)
  {
    top := None;
    for k := 0 to |design.modules|
      invariant top == LastTop(design.modules, k)
    {
      if design.modules[k].isTop {
        top := Some(k);
      }
    }
  }

  // ---------------------------------------------------------------------
  // The generator module

  /** Output port `n` of the generator, for the collected signal `t`:
      `addWire(name, other)` copies the width and the port flags of `t`'s
      wire, the name is `fi_<n>`, and the wire is then made an output. */
  function OutputWire(t: Entry, n: nat): Wire
  {
    Wire(GeneratorOutputName(n), t.wire.width, t.wire.portInput, true)
  }

  /** The output ports for the first `k` collected signals, numbered in
      list order. */
  function OutputWires(tops: seq<Entry>, k: nat): (r: seq<Wire>)
    requires k <= |tops|
    ensures |r| == k
    ensures forall n :: 0 <= n < k ==> r[n] == OutputWire(tops[n], n)
  {
    if k == 0 then [] else OutputWires(tops, k - 1) + [OutputWire(tops[k - 1], k - 1)]
  }

  /** `total_width`: the widths of the first `k` collected signals added. */
  function TotalWidth(tops: seq<Entry>, k: nat): nat
    requires k <= |tops|
  {
    if k == 0 then 0 else TotalWidth(tops, k - 1) + tops[k - 1].wire.width
  }

  /** `passing_signal`: the first `k` outputs concatenated; it is exactly
      as wide as the signals it stands for. */
  function Passing(tops: seq<Entry>, k: nat): (r: SigSpec)
    requires k <= |tops|
    ensures |r| == k
    ensures forall n :: 0 <= n < k ==> r[n] == SigChunk(GeneratorOutputName(n), tops[n].wire.width)
    ensures SigWidth(r) == TotalWidth(tops, k)
  {
    if k == 0 then []
    else
      var p := Passing(tops, k - 1);
      var r := p + WireSig(OutputWire(tops[k - 1], k - 1));
      assert r[..|r| - 1] == p;
      r
  }

  /** The combined input, of the total width; the top module gets a wire
      of the same name and width. */
  function CombinedWire(tops: seq<Entry>): Wire
  {
    Wire(CombinedName, TotalWidth(tops, |tops|), true, false)
  }

  /** The module `figenerator`: its outputs, and with `addInput` the
      combined input driving their concatenation. */
  function GeneratorModule(tops: seq<Entry>, addInput: bool): Module
  {
    var outs := Module(GeneratorName, false, OutputWires(tops, |tops|), [], []);
    if addInput then outs.WithWire(CombinedWire(tops)).WithConnection(Passing(tops, |tops|), WireSig(CombinedWire(tops)))
    else outs
  }

  // ---------------------------------------------------------------------
  // The instance

  lemma OutputNamesDistinct(k: nat)
    ensures forall n :: 0 <= n < k ==> GeneratorOutputName(n) != GeneratorOutputName(k)
  {
    forall n | 0 <= n < k
      ensures GeneratorOutputName(n) != GeneratorOutputName(k)
    {
      GeneratorOutputNameInjective(n, k);
    }
  }

  /** The port bindings the `setPort` loop makes for the first `k`
      outputs: output `fi_<n>` is bound to the `n`-th collected signal, and
      no other port is bound. */
  function InstancePorts(tops: seq<Entry>, k: nat): (r: map<string, SigSpec>)
    requires k <= |tops|
    ensures forall n :: 0 <= n < k ==> GeneratorOutputName(n) in r && r[GeneratorOutputName(n)] == WireSig(tops[n].wire)
  {
    if k == 0 then map[]
    else
      OutputNamesDistinct(k - 1);
      InstancePorts(tops, k - 1)[GeneratorOutputName(k - 1) := WireSig(tops[k - 1].wire)]
  }

  /** The loop binds no port other than the outputs. */
  lemma {:induction false} InstancePortsOnly(tops: seq<Entry>, k: nat, p: string)
    requires k <= |tops| && p in InstancePorts(tops, k)
    ensures exists n :: 0 <= n < k && p == GeneratorOutputName(n)
    decreases k
  {
    if p != GeneratorOutputName(k - 1) {
      InstancePortsOnly(tops, k - 1, p);
    }
  }

  /** The cell `u_figenerator` once all its ports are bound. */
  function InstanceCell(tops: seq<Entry>, addInput: bool): Cell
  {
    var c := Cell(InstanceName, GeneratorName, InstancePorts(tops, |tops|));
    if addInput then c.WithPort(CombinedName, WireSig(CombinedWire(tops))) else c
  }

  /** The top module after the instance (and with `addInput` the top-level
      `fi_combined` input) is added. */
  function WithInstance(M: Module, tops: seq<Entry>, addInput: bool): Module
  {
    var M' := M.WithCell(InstanceCell(tops, addInput));
    if addInput then M'.WithWire(CombinedWire(tops)) else M'
  }

  /** The generator synthesis on the design's modules: nothing happens
      without collected signals or without a top module; otherwise the
      generator is added last and instantiated in the top module. */
  function GenerateSpec(mods: seq<Module>, tops: seq<Entry>, addInput: bool): (r: seq<Module>)
    // nothing collected or no top module: the design is left alone
    ensures tops == [] || LastTop(mods, |mods|).None? ==> r == mods
    // otherwise the generator is added as the one new module, last
    ensures tops != [] && LastTop(mods, |mods|).Some? ==> |r| == |mods| + 1 && r[|mods|] == GeneratorModule(tops, addInput)
  {
    if tops == [] then mods
    else match LastTop(mods, |mods|)
      case None => mods
      case Some(t) => (mods + [GeneratorModule(tops, addInput)])[t := WithInstance(mods[t], tops, addInput)]
  }

  // ---------------------------------------------------------------------
  // Properties

  /** The design changes exactly when there is a signal to connect and a
      top module to put the generator in. */
  lemma GenerateChangesIff(mods: seq<Module>, tops: seq<Entry>, addInput: bool)
    ensures GenerateSpec(mods, tops, addInput) != mods <==> tops != [] && LastTop(mods, |mods|).Some?
  {
    if tops != [] && LastTop(mods, |mods|).Some? {
      assert |GenerateSpec(mods, tops, addInput)| == |mods| + 1;
    }
  }

  /** When it runs, the generator goes last, the instance goes into the
      last top module, and every other module is left as it was. */
  lemma GenerateShape(mods: seq<Module>, tops: seq<Entry>, addInput: bool)
    requires tops != [] && LastTop(mods, |mods|).Some?
    ensures var r := GenerateSpec(mods, tops, addInput);
      var t := LastTop(mods, |mods|).value;
      && |r| == |mods| + 1
      && r[|mods|] == GeneratorModule(tops, addInput)
      && r[t] == WithInstance(mods[t], tops, addInput)
      && forall x :: 0 <= x < |mods| && x != t ==> r[x] == mods[x]
  {
  }

  /** The generator's ports: output `fi_<n>` for the `n`-th collected
      signal, as wide as it, in list order; then, exactly when `addInput`
      holds, the input `fi_combined`, as wide as all outputs together and
      driving their concatenation. The generator has no cells. */
  lemma GeneratorPorts(tops: seq<Entry>, addInput: bool)
    ensures var G := GeneratorModule(tops, addInput);
      && G.name == GeneratorName && !G.isTop && G.cells == []
      && |G.wires| == |tops| + (if addInput then 1 else 0)
      && (forall n :: 0 <= n < |tops| ==>
            G.wires[n].name == GeneratorOutputName(n) && G.wires[n].width == tops[n].wire.width && G.wires[n].portOutput)
      && (addInput <==> exists w :: w in G.wires && w.name == CombinedName)
      && (addInput ==>
            && G.wires[|tops|] == Wire(CombinedName, SigWidth(Passing(tops, |tops|)), true, false)
            && G.connections == [Connection(Passing(tops, |tops|), WireSig(G.wires[|tops|]))])
      && (!addInput ==> G.connections == [])
  {
    var G := GeneratorModule(tops, addInput);
    forall w | w in G.wires && w.name == CombinedName
      ensures addInput
    {
      var x :| 0 <= x < |G.wires| && G.wires[x] == w;
      if x < |tops| {
        GeneratorOutputNotCombined(x);
      }
    }
    if addInput {
      assert G.wires[|tops|] in G.wires;
    }
  }

  /** The instance is bound to the generator port by port: every port of
      `figenerator` is bound, to a signal of its own width, and nothing
      else is bound; output `fi_<n>` carries the `n`-th collected signal. */
  lemma InstanceMatchesGenerator(tops: seq<Entry>, addInput: bool)
    ensures var G, C := GeneratorModule(tops, addInput), InstanceCell(tops, addInput);
      && C.name == InstanceName && C.cellType == G.name
      && (forall w :: w in G.wires ==> w.name in C.ports && SigWidth(C.ports[w.name]) == w.width)
      && (forall p :: p in C.ports ==> exists w :: w in G.wires && w.name == p)
      && (forall n :: 0 <= n < |tops| ==> C.ports[GeneratorOutputName(n)] == WireSig(tops[n].wire))
  {
    var G, C := GeneratorModule(tops, addInput), InstanceCell(tops, addInput);
    var P := InstancePorts(tops, |tops|);
    forall n | 0 <= n < |tops|
      ensures C.ports[GeneratorOutputName(n)] == WireSig(tops[n].wire)
    {
      GeneratorOutputNotCombined(n);
    }
    forall w | w in G.wires
      ensures w.name in C.ports && SigWidth(C.ports[w.name]) == w.width
    {
      var x :| 0 <= x < |G.wires| && G.wires[x] == w;
      if x < |tops| {
        GeneratorOutputNotCombined(x);
      }
    }
    forall p | p in C.ports
      ensures exists w :: w in G.wires && w.name == p
    {
      if p in P && !(addInput && p == CombinedName) {
        InstancePortsOnly(tops, |tops|, p);
        var n :| 0 <= n < |tops| && p == GeneratorOutputName(n);
        assert G.wires[n] in G.wires;
      } else {
        assert G.wires[|tops|] in G.wires;
      }
    }
  }

  // ---------------------------------------------------------------------
  // The synthesis, on the design

  lemma ReplaceLast(mods: seq<Module>, M: Module, M': Module)
    ensures (mods + [M])[|mods| := M'] == mods + [M']
  {
  }

  /** Binding port `p` of the last cell of a module. */
  lemma SetLastPort(M: Module, c: Cell, p: string, s: SigSpec)
    ensures M.WithCell(c).WithCellPort(|M.cells|, p, s) == M.WithCell(c.WithPort(p, s))
  {
    assert (M.cells + [c])[|M.cells| := c.WithPort(p, s)] == M.cells + [c.WithPort(p, s)];
  }

  /** The generator while its outputs are being created. */
  function OutputsModule(tops: seq<Entry>, k: nat): Module
    requires k <= |tops|
  {
    Module(GeneratorName, false, OutputWires(tops, k), [], [])
  }

  lemma OutputsModuleNext(tops: seq<Entry>, k: nat)
    requires k < |tops|
    ensures OutputsModule(tops, k).WithWire(OutputWire(tops[k], k)) == OutputsModule(tops, k + 1)
  {
  }

  /** `fi_port_list`: each output with the collected wire it is for. */
  ghost predicate PortList(portList: seq<(Wire, Wire)>, tops: seq<Entry>, k: nat)
    requires k <= |tops|
  {
    |portList| == k && forall x :: 0 <= x < k ==> portList[x] == (OutputWire(tops[x], x), tops[x].wire)
  }

  lemma PortListNext(portList: seq<(Wire, Wire)>, tops: seq<Entry>, k: nat)
    requires k < |tops| && PortList(portList, tops, k)
    ensures PortList(portList + [(OutputWire(tops[k], k), tops[k].wire)], tops, k + 1)
  {
  }

  /** The loop that creates the output ports. */
  method CreateOutputs(design: Design, figen: nat, tops: seq<Entry>)
    returns (passing: SigSpec, total: nat, portList: seq<(Wire, Wire)>)
    requires figen < |design.modules| && design.modules[figen] == OutputsModule(tops, 0)
    modifies design
    ensures design.modules == old(design.modules)[figen := OutputsModule(tops, |tops|)]
    ensures design.autoIdx == old(design.autoIdx)
    ensures passing == Passing(tops, |tops|) && total == TotalWidth(tops, |tops|)
    ensures PortList(portList, tops, |tops|)
  {
    ghost var mods0 := design.modules;
    passing, total, portList := [], 0, [];
    var n: nat := 0;
    for k := 0 to |tops|
      invariant design.modules == mods0[figen := OutputsModule(tops, k)]
      invariant design.autoIdx == old(design.autoIdx)
      invariant n == k && passing == Passing(tops, k) && total == TotalWidth(tops, k)
      invariant PortList(portList, tops, k)
    {
      var t := tops[k];
      total := total + t.wire.width;
      var fiO := Wire(GeneratorOutputName(n), t.wire.width, t.wire.portInput, true);
      n := n + 1;
      design.AddWire(figen, fiO);
      OutputsModuleNext(tops, k);
      ReplaceTwice(mods0, figen, OutputsModule(tops, k), OutputsModule(tops, k + 1));
      passing := passing + WireSig(fiO);
      PortListNext(portList, tops, k);
      portList := portList + [(fiO, t.wire)];
    }
  }

  /** The generator module, in full: the outputs, then with `addInput` the
      combined input and the connection from it. */
  method BuildGenerator(design: Design, tops: seq<Entry>, addInput: bool) returns (total: nat, portList: seq<(Wire, Wire)>)
    modifies design
    ensures design.modules == old(design.modules) + [GeneratorModule(tops, addInput)]
    ensures design.autoIdx == old(design.autoIdx)
    ensures total == TotalWidth(tops, |tops|) && PortList(portList, tops, |tops|)
  {
    ghost var mods0 := design.modules;
    var figen := design.AddModule(Module(GeneratorName, false, [], [], []));
    var passing;
    passing, total, portList := CreateOutputs(design, figen, tops);
    ReplaceLast(mods0, OutputsModule(tops, 0), OutputsModule(tops, |tops|));
    if addInput {
      var combined := Wire(CombinedName, total, true, false);
      design.AddWire(figen, combined);
      ReplaceLast(mods0, OutputsModule(tops, |tops|), OutputsModule(tops, |tops|).WithWire(combined));
      design.Connect(figen, passing, WireSig(combined));
      ReplaceLast(mods0, OutputsModule(tops, |tops|).WithWire(combined), GeneratorModule(tops, addInput));
    }
  }

  /** The loop that binds the instance's outputs, one `setPort` each. */
  method BindOutputs(design: Design, top: nat, tops: seq<Entry>, portList: seq<(Wire, Wire)>, ghost M: Module)
    requires top < |design.modules| && design.modules[top] == M.WithCell(Cell(InstanceName, GeneratorName, map[]))
    requires PortList(portList, tops, |tops|)
    modifies design
    ensures design.modules == old(design.modules)[top := M.WithCell(Cell(InstanceName, GeneratorName, InstancePorts(tops, |tops|)))]
    ensures design.autoIdx == old(design.autoIdx)
  {
    ghost var mods0 := design.modules;
    var cell := |design.modules[top].cells| - 1;
    for k := 0 to |portList|
      invariant design.modules == mods0[top := M.WithCell(Cell(InstanceName, GeneratorName, InstancePorts(tops, k)))]
      invariant design.autoIdx == old(design.autoIdx)
    {
      var l := portList[k];
      assert l.0.name == GeneratorOutputName(k) && l.1 == tops[k].wire;
      ghost var c := Cell(InstanceName, GeneratorName, InstancePorts(tops, k));
      design.SetPort(top, cell, l.0.name, WireSig(l.1));
      SetLastPort(M, c, l.0.name, WireSig(l.1));
      assert c.WithPort(l.0.name, WireSig(l.1)) == Cell(InstanceName, GeneratorName, InstancePorts(tops, k + 1));
      ReplaceTwice(mods0, top, M.WithCell(c), M.WithCell(c.WithPort(l.0.name, WireSig(l.1))));
    }
  }

  /** Binding a port of the last cell after a wire was added. */
  lemma SetLastPortAfterWire(M: Module, c: Cell, w: Wire, p: string, s: SigSpec)
    ensures M.WithCell(c).WithWire(w).WithCellPort(|M.cells|, p, s) == M.WithCell(c.WithPort(p, s)).WithWire(w)
  {
    assert (M.cells + [c])[|M.cells| := c.WithPort(p, s)] == M.cells + [c.WithPort(p, s)];
  }

  /** The instance in the top module `t`: the cell, its outputs, and with
      `addInput` the top-level `fi_combined` input bound to the generator's
      combined input. */
  method Instantiate(design: Design, t: nat, tops: seq<Entry>, addInput: bool, total: nat, portList: seq<(Wire, Wire)>)
    requires t < |design.modules| && total == TotalWidth(tops, |tops|) && PortList(portList, tops, |tops|)
    modifies design
    ensures design.modules == old(design.modules)[t := WithInstance(old(design.modules)[t], tops, addInput)]
    ensures design.autoIdx == old(design.autoIdx)
  {
    ghost var mods0, M := design.modules, design.modules[t];
    design.AddCell(t, Cell(InstanceName, GeneratorName, map[]));
    BindOutputs(design, t, tops, portList, M);
    ReplaceTwice(mods0, t, M.WithCell(Cell(InstanceName, GeneratorName, map[])),
                 M.WithCell(Cell(InstanceName, GeneratorName, InstancePorts(tops, |tops|))));
    if addInput {
      ghost var c := Cell(InstanceName, GeneratorName, InstancePorts(tops, |tops|));
      var topInput := Wire(CombinedName, total, true, false);
      design.AddWire(t, topInput);
      ReplaceTwice(mods0, t, M.WithCell(c), M.WithCell(c).WithWire(topInput));
      var cell := |design.modules[t].cells| - 1;
      design.SetPort(t, cell, CombinedName, WireSig(topInput));
      SetLastPortAfterWire(M, c, topInput, CombinedName, WireSig(topInput));
      ReplaceTwice(mods0, t, M.WithCell(c).WithWire(topInput), WithInstance(M, tops, addInput));
    }
  }

  /** The generator synthesis of `add_toplevel_fi_module`. */
  method AddGenerator(design: Design, tops: seq<Entry>, addInput: bool)
    modifies design
    ensures design.modules == GenerateSpec(old(design.modules), tops, addInput)
    ensures design.autoIdx == old(design.autoIdx)
  {
    if tops == [] {
      return;
    }
    var top := FindTopModule(design);
    if top.None? {
      return;
    }
    var t := top.value;
    var total, portList := BuildGenerator(design, tops, addInput);
    Instantiate(design, t, tops, addInput, total, portList);
  }
}
