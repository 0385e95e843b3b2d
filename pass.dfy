/** The `addFi` command as a whole (`execute`): parse the options, inject
    faults into the selected cells module by module, forward the new
    inputs up the hierarchy, and drive what reaches the top from a
    generator module. */
module Pass {
  import opened Wrappers
  import opened Netlist
  import opened Options
  import opened Inject
  import opened Propagate
  import opened Forward
  import opened Generator

  /** Every selection names a module of the design and cells of it. */
  ghost predicate ValidSelections(mods: seq<Module>, sels: seq<ModuleSelection>)
  {
    forall x :: 0 <= x < |sels| ==> sels[x].index < |mods| && ValidCells(mods[sels[x].index], sels[x].cells)
  }

  /** The per-module loop of `execute` over the first `k` selections. */
  function InjectAll(o: Options, isPublic: string -> bool, isFf: string -> bool, mods: seq<Module>, autoIdx: nat,
                     sels: seq<ModuleSelection>, k: nat): (r: ModuleInjected)
    requires k <= |sels| && ValidSelections(mods, sels)
    ensures |r.mods| == |mods|
    ensures forall a :: 0 <= a < |mods| ==> |mods[a].cells| <= |r.mods[a].cells|
    decreases k
  {
    if k == 0 then ModuleInjected(mods, autoIdx, [], [])
    else
      var p := InjectAll(o, isPublic, isFf, mods, autoIdx, sels, k - 1);
      InjectModuleSpec(o, isPublic, isFf, p.mods, p.autoIdx, sels[k - 1], p.added, p.tops)
  }

  // ---------------------------------------------------------------------
  // What injection keeps

  /** `M'` is `M` after injection: same name and `top` attribute, the old
      wires first, the old cells with their types, and new cells only of
      the gate types. */
  ghost predicate ModulePreserved(M: Module, M': Module)
  {
    && M'.name == M.name && M'.isTop == M.isTop
    && |M.wires| <= |M'.wires| && M'.wires[..|M.wires|] == M.wires
    && |M.cells| <= |M'.cells|
    && (forall c :: 0 <= c < |M.cells| ==> M'.cells[c].cellType == M.cells[c].cellType)
    && (forall c :: |M.cells| <= c < |M'.cells| ==> M'.cells[c].cellType in GateTypes)
  }

  ghost predicate Preserved(mods: seq<Module>, mods': seq<Module>)
  {
    |mods'| == |mods| && forall a :: 0 <= a < |mods| ==> ModulePreserved(mods[a], mods'[a])
  }

  lemma ModulePreservedTransitive(A: Module, B: Module, C: Module)
    requires ModulePreserved(A, B) && ModulePreserved(B, C)
    ensures ModulePreserved(A, C)
  {
    assert C.wires[..|A.wires|] == C.wires[..|B.wires|][..|A.wires|];
  }

  /** The body of the per-module loop changes only the selected module,
      and that one as injection may. */
  lemma InjectModulePreserved(o: Options, isPublic: string -> bool, isFf: string -> bool, mods: seq<Module>, autoIdx: nat,
                              s: ModuleSelection, added: seq<Entry>, tops: seq<Entry>)
    requires s.index < |mods| && ValidCells(mods[s.index], s.cells)
    ensures Preserved(mods, InjectModuleSpec(o, isPublic, isFf, mods, autoIdx, s, added, tops).mods)
  {
    var M := mods[s.index];
    var st := InjectCells(o, isPublic, isFf, M, s.cells, autoIdx, |s.cells|);
    var a1 := AddModuleFiInputSpec(st.mod, s.index, st.ff, "\\fi_ff", added, tops);
    var a2 := AddModuleFiInputSpec(a1.mod, s.index, st.comb, "\\fi_comb", a1.added, a1.tops);
    assert ModulePreserved(M, st.mod);
    assert ModulePreserved(st.mod, a1.mod);
    assert ModulePreserved(a1.mod, a2.mod);
    ModulePreservedTransitive(M, st.mod, a1.mod);
    ModulePreservedTransitive(M, a1.mod, a2.mod);
    assert mods[s.index := a2.mod][s.index] == a2.mod;
  }

  /** A wire of a module is still a wire of it after injection. */
  lemma WireKept(M: Module, M': Module, w: Wire)
    requires ModulePreserved(M, M') && w in M.wires
    ensures w in M'.wires
  {
    var k :| 0 <= k < |M.wires| && M.wires[k] == w;
    assert M'.wires[k] == M.wires[k];
  }

  lemma ListsKept(mods: seq<Module>, mods': seq<Module>, added: seq<Entry>, tops: seq<Entry>)
    requires Preserved(mods, mods') && QueuedWell(mods, added) && TopsWell(mods, tops)
    ensures QueuedWell(mods', added) && TopsWell(mods', tops)
  {
    forall n | 0 <= n < |added|
      ensures added[n].wire in mods'[added[n].owner].wires
    {
      WireKept(mods[added[n].owner], mods'[added[n].owner], added[n].wire);
    }
    forall n | 0 <= n < |tops|
      ensures tops[n].wire in mods'[tops[n].owner].wires
    {
      WireKept(mods[tops[n].owner], mods'[tops[n].owner], tops[n].wire);
    }
  }

  /** `addModuleFiInut` lists its wire correctly: in the work queue as an
      input port of a module below the top, or with the top signals for a
      top module. */
  lemma AggregateListed(M: Module, m: nat, mods: seq<Module>, bus: SigSpec, name: string, added: seq<Entry>, tops: seq<Entry>,
                        M': Module)
    requires m < |mods| && mods[m] == M && QueuedWell(mods, added) && TopsWell(mods, tops)
    requires M' == AddModuleFiInputSpec(M, m, bus, name, added, tops).mod
    ensures var r := AddModuleFiInputSpec(M, m, bus, name, added, tops);
      QueuedWell(mods[m := M'], r.added) && TopsWell(mods[m := M'], r.tops)
  {
    var r := AddModuleFiInputSpec(M, m, bus, name, added, tops);
    assert ModulePreserved(M, M');
    forall a | 0 <= a < |mods|
      ensures ModulePreserved(mods[a], mods[m := M'][a])
    {
    }
    ListsKept(mods, mods[m := M'], added, tops);
    if SigWidth(bus) > 0 {
      assert M'.wires[|M.wires|] in M'.wires;
    }
  }

  /** The body of the per-module loop keeps both lists well formed. */
  lemma InjectModuleListed(o: Options, isPublic: string -> bool, isFf: string -> bool, mods: seq<Module>, autoIdx: nat,
                           s: ModuleSelection, added: seq<Entry>, tops: seq<Entry>)
    requires s.index < |mods| && ValidCells(mods[s.index], s.cells)
    requires QueuedWell(mods, added) && TopsWell(mods, tops)
    ensures var r := InjectModuleSpec(o, isPublic, isFf, mods, autoIdx, s, added, tops);
      QueuedWell(r.mods, r.added) && TopsWell(r.mods, r.tops)
  {
    var m := s.index;
    var st := InjectCells(o, isPublic, isFf, mods[m], s.cells, autoIdx, |s.cells|);
    var mods1 := mods[m := st.mod];
    assert ModulePreserved(mods[m], st.mod);
    forall a | 0 <= a < |mods|
      ensures ModulePreserved(mods[a], mods1[a])
    {
    }
    ListsKept(mods, mods1, added, tops);
    var a1 := AddModuleFiInputSpec(st.mod, m, st.ff, "\\fi_ff", added, tops);
    AggregateListed(st.mod, m, mods1, st.ff, "\\fi_ff", added, tops, a1.mod);
    var mods2 := mods1[m := a1.mod];
    var a2 := AddModuleFiInputSpec(a1.mod, m, st.comb, "\\fi_comb", a1.added, a1.tops);
    AggregateListed(a1.mod, m, mods2, st.comb, "\\fi_comb", a1.added, a1.tops, a2.mod);
    ReplaceTwice(mods1, m, a1.mod, a2.mod);
    ReplaceTwice(mods, m, st.mod, a2.mod);
  }

  /** Over the whole per-module loop: the design is only extended as
      injection may, every work-queue entry is an input port of a module
      below the top, and every collected signal a wire of a top module. */
  lemma {:induction false} InjectAllWell(o: Options, isPublic: string -> bool, isFf: string -> bool, mods: seq<Module>, autoIdx: nat,
                                         sels: seq<ModuleSelection>, k: nat)
    requires k <= |sels| && ValidSelections(mods, sels)
    ensures var r := InjectAll(o, isPublic, isFf, mods, autoIdx, sels, k);
      Preserved(mods, r.mods) && QueuedWell(r.mods, r.added) && TopsWell(r.mods, r.tops)
    decreases k
  {
    if k > 0 {
      var j := k - 1;
      InjectAllWell(o, isPublic, isFf, mods, autoIdx, sels, j);
      InjectAllNext(o, isPublic, isFf, mods, autoIdx, sels, j);
      var p := InjectAll(o, isPublic, isFf, mods, autoIdx, sels, j);
      InjectModulePreserved(o, isPublic, isFf, p.mods, p.autoIdx, sels[j], p.added, p.tops);
      InjectModuleListed(o, isPublic, isFf, p.mods, p.autoIdx, sels[j], p.added, p.tops);
      PreservedTransitive(mods, p.mods, InjectAll(o, isPublic, isFf, mods, autoIdx, sels, k).mods);
    }
  }

  lemma PreservedTransitive(a: seq<Module>, b: seq<Module>, c: seq<Module>)
    requires Preserved(a, b) && Preserved(b, c)
    ensures Preserved(a, c)
  {
    forall x | 0 <= x < |a|
      ensures ModulePreserved(a[x], c[x])
    {
      ModulePreservedTransitive(a[x], b[x], c[x]);
    }
  }

  // ---------------------------------------------------------------------
  // Termination survives injection

  /** No module is named like one of the gate cell types. */
  ghost predicate NoGateNames(mods: seq<Module>)
  {
    forall a :: 0 <= a < |mods| ==> mods[a].name !in GateTypes
  }

  /** A type among the shape's types is the type of one of the cells. */
  lemma TypeOfSomeCell(cells: seq<Cell>, t: string) returns (c: nat)
    requires t in TypesUpTo(cells, |cells|)
    ensures c < |cells| && cells[c].cellType == t
  {
    var ts := TypesUpTo(cells, |cells|);
    var x :| 0 <= x < |ts| && ts[x] == t;
    TypesAt(cells, |cells|, x);
    c := x;
  }

  /** The injected gates instantiate no module, so a ranking of the
      instantiation graph before injection ranks it after. */
  lemma RankedPreserved(mods: seq<Module>, mods': seq<Module>, rank: seq<nat>)
    requires Ranked(Shapes(mods), rank) && Preserved(mods, mods') && NoGateNames(mods)
    ensures Ranked(Shapes(mods'), rank)
  {
    var sh, sh' := Shapes(mods), Shapes(mods');
    forall a, b | 0 <= a < |sh'| && 0 <= b < |sh'| && sh'[b].name in sh'[a].types
      ensures rank[a] < rank[b]
    {
      ShapesAt(mods', a, |mods'|);
      ShapesAt(mods', b, |mods'|);
      ShapesAt(mods, a, |mods|);
      ShapesAt(mods, b, |mods|);
      var c := TypeOfSomeCell(mods'[a].cells, mods[b].name);
      assert ModulePreserved(mods[a], mods'[a]);
      if c < |mods[a].cells| {
        TypesAt(mods[a].cells, |mods[a].cells|, c);
        assert mods[b].name in sh[a].types;
      } else {
        assert false;
      }
    }
  }

  // ---------------------------------------------------------------------
  // The command

  /** What the command does to the design once the options are read. */
  datatype Outcome = Outcome(mods: seq<Module>, autoIdx: nat, tops: seq<Entry>)

  /** Injection, then the propagation with the forward counter starting at
      0, then the generator for the signals collected at the top. */
  function RunSpec(o: Options, isPublic: string -> bool, isFf: string -> bool, mods: seq<Module>, autoIdx: nat,
                   sels: seq<ModuleSelection>): (r: Outcome)
    requires ValidSelections(mods, sels)
    // no module is removed, and at most the generator is added
    ensures |mods| <= |r.mods| <= |mods| + 1
  {
    var inj := InjectAll(o, isPublic, isFf, mods, autoIdx, sels, |sels|);
    InjectAllWell(o, isPublic, isFf, mods, autoIdx, sels, |sels|);
    var w := Propagation(Wiring(inj.mods, Lists(0, inj.added, inj.tops)), |inj.mods|);
    Outcome(GenerateSpec(w.mods, w.lists.tops, o.addInput), inj.autoIdx, w.lists.tops)
  }

  /** `execute`. Where the source takes the selection from the remaining
      arguments, the model takes it as `sels`; the ranking `rank` is the
      witness that the module hierarchy has no cycle, without which the
      work-queue loop would not end. */
  method Execute(design: Design, args: seq<string>, isPublic: string -> bool, isFf: string -> bool,
                 sels: seq<ModuleSelection>, ghost rank: seq<nat>) returns (r: Result<Parsed, ParseError>)
    requires ValidSelections(design.modules, sels)
    requires Ranked(Shapes(design.modules), rank) && NoGateNames(design.modules)
    modifies design
    ensures r == Parse(args)
    // `-type` without a value is a command error and the design is untouched
    ensures r.Err? ==> design.modules == old(design.modules) && design.autoIdx == old(design.autoIdx)
    ensures r.Ok? ==>
      var out := RunSpec(r.value.opts, isPublic, isFf, old(design.modules), old(design.autoIdx), sels);
      design.modules == out.mods && design.autoIdx == out.autoIdx
  {
    r := ParseOptions(args);
    if r.Err? {
      return;
    }
    var o := r.value.opts;
    ghost var mods0, auto0 := design.modules, design.autoIdx;
    var added, tops := InjectSelected(design, o, isPublic, isFf, sels);
    InjectAllWell(o, isPublic, isFf, mods0, auto0, sels, |sels|);
    RankedPreserved(mods0, design.modules, rank);
    ghost var w := Wiring(design.modules, Lists(0, added, tops));
    var l := PropagateInputs(design, Lists(0, added, tops), rank);
    assert Wiring(design.modules, l) == Propagation(w, |w.mods|);
    AddGenerator(design, l.tops, o.addInput);
  }

  /** The selected module loop of `execute`. */
  method InjectSelected(design: Design, o: Options, isPublic: string -> bool, isFf: string -> bool, sels: seq<ModuleSelection>)
    returns (added: seq<Entry>, tops: seq<Entry>)
    requires ValidSelections(design.modules, sels)
    modifies design
    ensures var inj := InjectAll(o, isPublic, isFf, old(design.modules), old(design.autoIdx), sels, |sels|);
      design.modules == inj.mods && design.autoIdx == inj.autoIdx && added == inj.added && tops == inj.tops
  {
    ghost var mods0, auto0 := design.modules, design.autoIdx;
    added, tops := [], [];
    for k := 0 to |sels|
      invariant var inj := InjectAll(o, isPublic, isFf, mods0, auto0, sels, k);
        design.modules == inj.mods && design.autoIdx == inj.autoIdx && added == inj.added && tops == inj.tops
    {
      InjectAllNext(o, isPublic, isFf, mods0, auto0, sels, k);
      added, tops := InjectModule(design, o, isPublic, isFf, sels[k], added, tops);
    }
  }

  /** One more selection is one more iteration of the loop body. */
  lemma InjectAllNext(o: Options, isPublic: string -> bool, isFf: string -> bool, mods: seq<Module>, autoIdx: nat,
                      sels: seq<ModuleSelection>, k: nat)
    requires k < |sels| && ValidSelections(mods, sels)
    ensures var p := InjectAll(o, isPublic, isFf, mods, autoIdx, sels, k);
      && sels[k].index < |p.mods| && ValidCells(p.mods[sels[k].index], sels[k].cells)
      && InjectAll(o, isPublic, isFf, mods, autoIdx, sels, k + 1)
         == InjectModuleSpec(o, isPublic, isFf, p.mods, p.autoIdx, sels[k], p.added, p.tops)
  {
  }

  // ---------------------------------------------------------------------
  // Properties of the command

  /** With nothing selected the command changes nothing. */
  lemma NothingSelected(o: Options, isPublic: string -> bool, isFf: string -> bool, mods: seq<Module>, autoIdx: nat)
    ensures RunSpec(o, isPublic, isFf, mods, autoIdx, []) == Outcome(mods, autoIdx, [])
  {
    assert Propagation(Wiring(mods, Lists(0, [], [])), |mods|) == Wiring(mods, Lists(0, [], []));
  }

  /** The propagated design before the generator is added. */
  function Propagated(o: Options, isPublic: string -> bool, isFf: string -> bool, mods: seq<Module>, autoIdx: nat,
                      sels: seq<ModuleSelection>): Wiring
    requires ValidSelections(mods, sels)
  {
    var inj := InjectAll(o, isPublic, isFf, mods, autoIdx, sels, |sels|);
    InjectAllWell(o, isPublic, isFf, mods, autoIdx, sels, |sels|);
    Propagation(Wiring(inj.mods, Lists(0, inj.added, inj.tops)), |inj.mods|)
  }

  /** When the work queue loop ends nothing is left in it, and every signal
      that reaches the generator is a wire of a top module. */
  lemma PassDrainsToTop(o: Options, isPublic: string -> bool, isFf: string -> bool, mods: seq<Module>, autoIdx: nat,
                        sels: seq<ModuleSelection>, rank: seq<nat>)
    requires ValidSelections(mods, sels) && Ranked(Shapes(mods), rank) && NoGateNames(mods)
    ensures var w := Propagated(o, isPublic, isFf, mods, autoIdx, sels);
      w.lists.queued == [] && TopsWell(w.mods, w.lists.tops)
      && RunSpec(o, isPublic, isFf, mods, autoIdx, sels).tops == w.lists.tops
  {
    var inj := InjectAll(o, isPublic, isFf, mods, autoIdx, sels, |sels|);
    InjectAllWell(o, isPublic, isFf, mods, autoIdx, sels, |sels|);
    var w0 := Wiring(inj.mods, Lists(0, inj.added, inj.tops));
    RankedPreserved(mods, inj.mods, rank);
    PropagationTerminates(w0, rank);
    PropagationWell(w0, |inj.mods|);
  }

  /** Every collected signal is a wire of a top module, so collected
      signals mean that the design has a top module. */
  lemma TopsHaveTop(mods: seq<Module>, tops: seq<Entry>)
    requires TopsWell(mods, tops) && tops != []
    ensures LastTop(mods, |mods|).Some?
  {
    assert mods[tops[0].owner].isTop;
  }

  /** The propagated design lists its collected signals well. */
  lemma PropagatedWell(o: Options, isPublic: string -> bool, isFf: string -> bool, mods: seq<Module>, autoIdx: nat,
                       sels: seq<ModuleSelection>)
    requires ValidSelections(mods, sels)
    ensures var w := Propagated(o, isPublic, isFf, mods, autoIdx, sels);
      TopsWell(w.mods, w.lists.tops)
  {
    var inj := InjectAll(o, isPublic, isFf, mods, autoIdx, sels, |sels|);
    InjectAllWell(o, isPublic, isFf, mods, autoIdx, sels, |sels|);
    PropagationWell(Wiring(inj.mods, Lists(0, inj.added, inj.tops)), |inj.mods|);
  }

  /** The top-module lookup as written reads `top_module` uninitialised
      only when no module is top; but on every design the command reaches
      it with, some signal was collected and so some module is top, and the
      lookup as written agrees with the `nullptr`-initialised one whatever
      the pointer held. */
  lemma TopLookupAgrees(o: Options, isPublic: string -> bool, isFf: string -> bool, mods: seq<Module>, autoIdx: nat,
                        sels: seq<ModuleSelection>, init: Option<nat>)
    requires ValidSelections(mods, sels)
    ensures var w := Propagated(o, isPublic, isFf, mods, autoIdx, sels);
      w.lists.tops != [] ==>
        LastTop(w.mods, |w.mods|).Some? && LastTopAsWritten(w.mods, |w.mods|, init) == LastTop(w.mods, |w.mods|)
  {
    var w := Propagated(o, isPublic, isFf, mods, autoIdx, sels);
    PropagatedWell(o, isPublic, isFf, mods, autoIdx, sels);
    if w.lists.tops != [] {
      TopsHaveTop(w.mods, w.lists.tops);
      var t := LastTop(w.mods, |w.mods|).value;
      assert w.mods[t].isTop;
    }
  }

  /** The generator is added exactly when some signal reached the top: a
      collected signal always comes with a top module to put it in. */
  lemma PassAddsGeneratorIff(o: Options, isPublic: string -> bool, isFf: string -> bool, mods: seq<Module>, autoIdx: nat,
                             sels: seq<ModuleSelection>)
    requires ValidSelections(mods, sels)
    ensures var w := Propagated(o, isPublic, isFf, mods, autoIdx, sels);
      var out := RunSpec(o, isPublic, isFf, mods, autoIdx, sels);
      (out.mods != w.mods <==> out.tops != [])
  {
    var w := Propagated(o, isPublic, isFf, mods, autoIdx, sels);
    GenerateChangesIff(w.mods, w.lists.tops, o.addInput);
    PropagatedWell(o, isPublic, isFf, mods, autoIdx, sels);
    if w.lists.tops != [] {
      TopsHaveTop(w.mods, w.lists.tops);
    }
  }

  // ---------------------------------------------------------------------
  // Nothing to inject

  /** No selected module has a selected cell to inject. */
  ghost predicate NothingInjectable(o: Options, isPublic: string -> bool, isFf: string -> bool, mods: seq<Module>,
                                    sels: seq<ModuleSelection>)
  {
    forall x :: 0 <= x < |sels| && sels[x].index < |mods| ==>
      NothingToInject(o, isPublic, isFf, mods[sels[x].index], sels[x].cells)
  }

  lemma {:induction false} InjectAllNothing(o: Options, isPublic: string -> bool, isFf: string -> bool, mods: seq<Module>,
                                            autoIdx: nat, sels: seq<ModuleSelection>, k: nat)
    requires k <= |sels| && ValidSelections(mods, sels) && NothingInjectable(o, isPublic, isFf, mods, sels)
    ensures InjectAll(o, isPublic, isFf, mods, autoIdx, sels, k) == ModuleInjected(mods, autoIdx, [], [])
    decreases k
  {
    if k > 0 {
      var j := k - 1;
      InjectAllNothing(o, isPublic, isFf, mods, autoIdx, sels, j);
      InjectAllNext(o, isPublic, isFf, mods, autoIdx, sels, j);
      InjectModuleNothing(o, isPublic, isFf, mods, autoIdx, sels[j]);
    }
  }

  /** One selected module without a cell to inject is left as it was. */
  lemma InjectModuleNothing(o: Options, isPublic: string -> bool, isFf: string -> bool, mods: seq<Module>, autoIdx: nat,
                            s: ModuleSelection)
    requires s.index < |mods| && ValidCells(mods[s.index], s.cells) && NothingToInject(o, isPublic, isFf, mods[s.index], s.cells)
    ensures InjectModuleSpec(o, isPublic, isFf, mods, autoIdx, s, [], []) == ModuleInjected(mods, autoIdx, [], [])
  {
    InjectCellsNothing(o, isPublic, isFf, mods[s.index], s.cells, autoIdx, |s.cells|);
    assert mods[s.index := mods[s.index]] == mods;
  }

  /** Selected modules without a cell to inject: the command changes
      nothing, not even the fresh-name counter, and collects no signal. */
  lemma NoInjectableCell(o: Options, isPublic: string -> bool, isFf: string -> bool, mods: seq<Module>, autoIdx: nat,
                         sels: seq<ModuleSelection>)
    requires ValidSelections(mods, sels) && NothingInjectable(o, isPublic, isFf, mods, sels)
    ensures RunSpec(o, isPublic, isFf, mods, autoIdx, sels) == Outcome(mods, autoIdx, [])
  {
    InjectAllNothing(o, isPublic, isFf, mods, autoIdx, sels, |sels|);
    assert Propagation(Wiring(mods, Lists(0, [], [])), |mods|) == Wiring(mods, Lists(0, [], []));
  }
}
