/** The work-queue propagation of `add_toplevel_fi_module`: every module
    that gained a fault-control input is searched for as a cell type in
    all modules; each instance gets a fresh wire bound to that input, the
    fresh wires of one containing module are concatenated into a
    forwarding bus `fi_forward_<j>`, and the bus becomes an input of the
    containing module in turn, until only top-level signals remain.

    The bookkeeping of the two lists and of the counter `j` depends on the
    design only through the names, `top` attributes and cell types of its
    modules (their shapes), which the propagation never changes; it is
    defined on shapes (`SweepLists`, `ListsFrom`, `ListsPropagation`) and
    tied to the propagation over the design by `GenerationFromLists`, the
    contract of `Generation` and the definition of `Propagation`. */
module Propagate {
  import opened Wrappers
  import opened Ids
  import opened Netlist

  // ---------------------------------------------------------------------
  // Instances of a cell type

  /** The number of cells of type `typeName` among the first `k`. */
  function CountType(cells: seq<Cell>, typeName: string, k: nat): nat
    requires k <= |cells|
  {
    if k == 0 then 0
    else CountType(cells, typeName, k - 1) + (if cells[k - 1].cellType == typeName then 1 else 0)
  }

  /** The number of instances of `typeName` in a module. */
  function Instances(M: Module, typeName: string): nat
  {
    CountType(M.cells, typeName, |M.cells|)
  }

  // ---------------------------------------------------------------------
  // Shapes

  /** What the instantiation graph sees of a module: its name, its `top`
      attribute and the types of its cells, in order. */
  datatype Shape = Shape(name: string, isTop: bool, types: seq<string>)

  /** The types of the first `k` cells. */
  function TypesUpTo(cells: seq<Cell>, k: nat): (r: seq<string>)
    requires k <= |cells|
    ensures |r| == k
  {
    if k == 0 then [] else TypesUpTo(cells, k - 1) + [cells[k - 1].cellType]
  }

  lemma TypesAt(cells: seq<Cell>, k: nat, x: nat)
    requires x < k <= |cells|
    ensures TypesUpTo(cells, k)[x] == cells[x].cellType
    decreases k
  {
    if x < k - 1 {
      TypesAt(cells, k - 1, x);
    }
  }

  function ShapeOf(M: Module): Shape
  {
    Shape(M.name, M.isTop, TypesUpTo(M.cells, |M.cells|))
  }

  /** The shapes of the first `a` modules. */
  function ShapesUpTo(mods: seq<Module>, a: nat): (r: seq<Shape>)
    requires a <= |mods|
    ensures |r| == a
  {
    if a == 0 then [] else ShapesUpTo(mods, a - 1) + [ShapeOf(mods[a - 1])]
  }

  function Shapes(mods: seq<Module>): (r: seq<Shape>)
    ensures |r| == |mods|
  {
    ShapesUpTo(mods, |mods|)
  }

  lemma ShapesAt(mods: seq<Module>, a: nat, k: nat)
    requires a < k <= |mods|
    ensures ShapesUpTo(mods, k)[a] == ShapeOf(mods[a])
    decreases k
  {
    if a < k - 1 {
      ShapesAt(mods, a, k - 1);
    }
  }

  /** The occurrences of `typeName` among the first `k` types. */
  function Count(types: seq<string>, typeName: string, k: nat): nat
    requires k <= |types|
  {
    if k == 0 then 0 else Count(types, typeName, k - 1) + (if types[k - 1] == typeName then 1 else 0)
  }

  /** The instances of `typeName` a shape records. */
  function ShapeInstances(s: Shape, typeName: string): nat
  {
    Count(s.types, typeName, |s.types|)
  }

  /** A counted type occurs. */
  lemma CountIn(types: seq<string>, typeName: string, k: nat)
    requires k <= |types| && Count(types, typeName, k) > 0
    ensures typeName in types
    decreases k
  {
    if types[k - 1] != typeName {
      CountIn(types, typeName, k - 1);
    }
  }

  lemma CountTypeShape(cells: seq<Cell>, typeName: string, k: nat)
    requires k <= |cells|
    ensures CountType(cells, typeName, k) == Count(TypesUpTo(cells, |cells|), typeName, k)
    decreases k
  {
    if k > 0 {
      CountTypeShape(cells, typeName, k - 1);
      TypesAt(cells, |cells|, k - 1);
    }
  }

  /** A module and its shape count the same instances. */
  lemma InstancesOfShape(M: Module, typeName: string)
    ensures Instances(M, typeName) == ShapeInstances(ShapeOf(M), typeName)
  {
    CountTypeShape(M.cells, typeName, |M.cells|);
  }

  /** Rebinding a port of one cell keeps the cell types. */
  lemma TypesUpdate(cells: seq<Cell>, x: nat, c: Cell, k: nat)
    requires x < |cells| && k <= |cells| && c.cellType == cells[x].cellType
    ensures TypesUpTo(cells[x := c], k) == TypesUpTo(cells, k)
    decreases k
  {
    if k > 0 {
      TypesUpdate(cells, x, c, k - 1);
    }
  }

  /** `M'` is `M` with wires, connections and port bindings added: the
      shape is kept and the old wires come first. */
  ghost predicate Extends(M: Module, M': Module)
  {
    ShapeOf(M') == ShapeOf(M) && M.wires <= M'.wires
  }

  ghost predicate ExtendsAll(mods: seq<Module>, mods': seq<Module>)
  {
    |mods'| == |mods| && forall a :: 0 <= a < |mods| ==> Extends(mods[a], mods'[a])
  }

  lemma ExtendsTransitive(A: Module, B: Module, C: Module)
    requires Extends(A, B) && Extends(B, C)
    ensures Extends(A, C)
  {
  }

  /** Extending modules keeps their shapes. */
  lemma ShapesExtends(mods: seq<Module>, mods': seq<Module>, a: nat)
    requires ExtendsAll(mods, mods') && a <= |mods|
    ensures ShapesUpTo(mods', a) == ShapesUpTo(mods, a)
    decreases a
  {
    if a > 0 {
      ShapesExtends(mods, mods', a - 1);
    }
  }

  // ---------------------------------------------------------------------
  // Widths

  /** The width of `n` concatenated `w`-bit signals. */
  function Repeat(n: nat, w: nat): nat
  {
    if n == 0 then 0 else Repeat(n - 1, w) + w
  }

  lemma RepeatIsProduct(n: nat, w: nat)
    ensures Repeat(n, w) == n * w
  {
    if n > 0 {
      RepeatIsProduct(n - 1, w);
      assert n * w == (n - 1) * w + w;
    }
  }

  /** `n` signals of `w` bits have some bit exactly when both are positive. */
  lemma RepeatPositive(n: nat, w: nat)
    ensures Repeat(n, w) > 0 <==> n > 0 && w > 0
  {
    if n > 0 && w > 0 {
      assert Repeat(n, w) == Repeat(n - 1, w) + w;
    } else if n > 0 {
      RepeatZero(n);
    }
  }

  lemma RepeatZero(n: nat)
    ensures Repeat(n, 0) == 0
  {
    if n > 0 {
      RepeatZero(n - 1);
    }
  }

  // ---------------------------------------------------------------------
  // One module, one queue entry

  /** Adding a wire and binding a port of one cell extends a module. */
  lemma BindExtends(M: Module, x: nat, s: Wire, port: string)
    requires x < |M.cells|
    ensures Extends(M, M.WithWire(s).WithCellPort(x, port, WireSig(s)))
  {
    TypesUpdate(M.cells, x, M.cells[x].WithPort(port, WireSig(s)), |M.cells|);
  }

  /** The wire created for one instance: `fi_<cell>_<i>_<port>`, as wide as
      the port it is bound to. */
  function InstanceWire(c: Cell, i: nat, port: Wire): Wire
  {
    Wire(InstanceWireName(LogId(c.name), i, LogId(port.name)), port.width, false, false)
  }

  datatype Scan = Scan(mod: Module, fi: SigSpec, i: nat)

  /** The cell loop of one module for one queue entry, over the first `k`
      cells: each cell of type `typeName` gets a fresh wire, numbered from
      `i0`, bound to the port named like the entry's wire, and the fresh wires
      are concatenated into `fi`. */
  function ScanCells(M: Module, typeName: string, port: Wire, i0: nat, k: nat): (r: Scan)
    requires k <= |M.cells|
    ensures |r.mod.cells| == |M.cells|
    ensures |r.mod.wires| == |M.wires| + CountType(M.cells, typeName, k)
    ensures r.i == i0 + CountType(M.cells, typeName, k)
    ensures SigWidth(r.fi) == Repeat(CountType(M.cells, typeName, k), port.width)
    decreases k
  {
    if k == 0 then Scan(M, [], i0)
    else
      var p := ScanCells(M, typeName, port, i0, k - 1);
      var c := M.cells[k - 1];
      if c.cellType == typeName then
        var s := InstanceWire(c, p.i, port);
        SigWidthAppend(p.fi, WireSig(s));
        Scan(p.mod.WithWire(s).WithCellPort(k - 1, port.name, WireSig(s)), p.fi + WireSig(s), p.i + 1)
      else p
  }

  /** The cell loop only extends the module. */
  lemma ScanCellsExtends(M: Module, typeName: string, port: Wire, i0: nat, k: nat)
    requires k <= |M.cells|
    ensures Extends(M, ScanCells(M, typeName, port, i0, k).mod)
    decreases k
  {
    if k > 0 {
      ScanCellsExtends(M, typeName, port, i0, k - 1);
      var p := ScanCells(M, typeName, port, i0, k - 1);
      var c := M.cells[k - 1];
      if c.cellType == typeName {
        var s := InstanceWire(c, p.i, port);
        BindExtends(p.mod, k - 1, s, port.name);
        ExtendsTransitive(M, p.mod, p.mod.WithWire(s).WithCellPort(k - 1, port.name, WireSig(s)));
      }
    }
  }

  /** The cell loop adds no connection and leaves the cells it has not
      reached alone. */
  lemma ScanCellsFrame(M: Module, typeName: string, port: Wire, i0: nat, k: nat)
    requires k <= |M.cells|
    ensures ScanCells(M, typeName, port, i0, k).mod.connections == M.connections
    ensures forall x :: k <= x < |M.cells| ==> ScanCells(M, typeName, port, i0, k).mod.cells[x] == M.cells[x]
    decreases k
  {
    if k > 0 {
      ScanCellsFrame(M, typeName, port, i0, k - 1);
    }
  }

  /** Each instance of the searched type has exactly the entry's port
      rebound to its own wire, numbered by the instances before it; every
      other cell is unchanged. */
  lemma {:induction false} ScanCellsBinds(M: Module, typeName: string, port: Wire, i0: nat, k: nat, x: nat)
    requires x < k <= |M.cells|
    ensures var r := ScanCells(M, typeName, port, i0, k);
      r.mod.cells[x] == if M.cells[x].cellType == typeName
                        then M.cells[x].WithPort(port.name, WireSig(InstanceWire(M.cells[x], i0 + CountType(M.cells, typeName, x), port)))
                        else M.cells[x]
    ensures M.cells[x].cellType == typeName ==>
      InstanceWire(M.cells[x], i0 + CountType(M.cells, typeName, x), port) in ScanCells(M, typeName, port, i0, k).mod.wires
    decreases k
  {
    if x + 1 < k {
      var j := k - 1;
      ScanCellsBinds(M, typeName, port, i0, j, x);
      ScanCellsLater(M, typeName, port, i0, j, x);
    } else {
      ScanCellsBindsAt(M, typeName, port, i0, x);
    }
  }

  /** A later cell leaves an earlier one, and the wires so far, alone. */
  lemma ScanCellsLater(M: Module, typeName: string, port: Wire, i0: nat, k: nat, x: nat)
    requires x < k < |M.cells|
    ensures ScanCells(M, typeName, port, i0, k + 1).mod.cells[x] == ScanCells(M, typeName, port, i0, k).mod.cells[x]
    ensures ScanCells(M, typeName, port, i0, k).mod.wires <= ScanCells(M, typeName, port, i0, k + 1).mod.wires
  {
  }

  /** Cell `x` as the loop leaves it. */
  lemma ScanCellsBindsAt(M: Module, typeName: string, port: Wire, i0: nat, x: nat)
    requires x < |M.cells|
    ensures var r := ScanCells(M, typeName, port, i0, x + 1);
      r.mod.cells[x] == if M.cells[x].cellType == typeName
                        then M.cells[x].WithPort(port.name, WireSig(InstanceWire(M.cells[x], i0 + CountType(M.cells, typeName, x), port)))
                        else M.cells[x]
    ensures M.cells[x].cellType == typeName ==>
      InstanceWire(M.cells[x], i0 + CountType(M.cells, typeName, x), port) in ScanCells(M, typeName, port, i0, x + 1).mod.wires
  {
    ScanCellsFrame(M, typeName, port, i0, x);
  }

  /** `s` is the name of an instance wire numbered `i` for the port `portId`. */
  ghost predicate IsInstanceName(s: string, i: nat, portId: string)
  {
    exists cellId :: s == InstanceWireName(cellId, i, portId)
  }

  /** The wires from position `from` on are instance wires for the port
      `portId`, numbered in order from `i0`. */
  ghost predicate NumberedFrom(ws: seq<Wire>, from: nat, i0: nat, portId: string)
  {
    forall t :: from <= t < |ws| ==> IsInstanceName(ws[t].name, i0 + (t - from), portId)
  }

  lemma NumberedAppend(ws: seq<Wire>, from: nat, i0: nat, portId: string, w: Wire, cellId: string)
    requires from <= |ws| && NumberedFrom(ws, from, i0, portId)
    requires w.name == InstanceWireName(cellId, i0 + (|ws| - from), portId)
    ensures NumberedFrom(ws + [w], from, i0, portId)
  {
    var ws' := ws + [w];
    forall t | from <= t < |ws'|
      ensures IsInstanceName(ws'[t].name, i0 + (t - from), portId)
    {
      if t < |ws| {
        assert ws'[t] == ws[t];
      }
    }
  }

  /** The cell loop adds its instance wires in order, numbered from `i0`. */
  lemma {:induction false} ScanCellsNumbered(M: Module, typeName: string, port: Wire, i0: nat, k: nat)
    requires k <= |M.cells|
    ensures NumberedFrom(ScanCells(M, typeName, port, i0, k).mod.wires, |M.wires|, i0, LogId(port.name))
    decreases k
  {
    if k > 0 {
      var j := k - 1;
      ScanCellsNumbered(M, typeName, port, i0, j);
      var p := ScanCells(M, typeName, port, i0, j);
      ScanCellsWires(M, typeName, port, i0, j, p);
      var c := M.cells[j];
      if c.cellType == typeName {
        NumberedAppend(p.mod.wires, |M.wires|, i0, LogId(port.name), InstanceWire(c, p.i, port), LogId(c.name));
      }
    }
  }

  /** One more cell: an instance adds its wire, numbered by the wires the
      loop has added so far; any other cell adds none. */
  lemma ScanCellsWires(M: Module, typeName: string, port: Wire, i0: nat, j: nat, p: Scan)
    requires j < |M.cells| && p == ScanCells(M, typeName, port, i0, j)
    ensures |M.wires| <= |p.mod.wires| && p.i == i0 + (|p.mod.wires| - |M.wires|)
    ensures ScanCells(M, typeName, port, i0, j + 1).mod.wires
      == if M.cells[j].cellType == typeName then p.mod.wires + [InstanceWire(M.cells[j], p.i, port)] else p.mod.wires
  {
  }

  /** `fi_cells` is the concatenation of the instance wires, in the order
      the loop adds them: its `t`-th chunk is the `t`-th new wire. */
  lemma {:induction false} ScanCellsBus(M: Module, typeName: string, port: Wire, i0: nat, k: nat)
    requires k <= |M.cells|
    ensures var r := ScanCells(M, typeName, port, i0, k);
      && |M.wires| + |r.fi| == |r.mod.wires|
      && forall t :: 0 <= t < |r.fi| ==> r.fi[t] == SigChunk(r.mod.wires[|M.wires| + t].name, r.mod.wires[|M.wires| + t].width)
    decreases k
  {
    if k > 0 {
      var j := k - 1;
      ScanCellsBus(M, typeName, port, i0, j);
      ScanCellsWires(M, typeName, port, i0, j, ScanCells(M, typeName, port, i0, j));
    }
  }

  /** The instance wires the cell loop adds to a module have pairwise
      distinct names. */
  lemma ScanCellsNamesDistinct(M: Module, typeName: string, port: Wire, i0: nat, k: nat)
    requires k <= |M.cells|
    ensures var ws := ScanCells(M, typeName, port, i0, k).mod.wires;
      forall t1, t2 :: |M.wires| <= t1 < t2 < |ws| ==> ws[t1].name != ws[t2].name
  {
    ScanCellsNumbered(M, typeName, port, i0, k);
    NumberedDistinct(ScanCells(M, typeName, port, i0, k).mod.wires, |M.wires|, i0, LogId(port.name));
  }

  /** Instance wires numbered in order for one port have pairwise distinct
      names. */
  lemma NumberedDistinct(ws: seq<Wire>, from: nat, i0: nat, portId: string)
    requires NumberedFrom(ws, from, i0, portId)
    ensures forall t1, t2 :: from <= t1 < t2 < |ws| ==> ws[t1].name != ws[t2].name
  {
    forall t1, t2 | from <= t1 < t2 < |ws|
      ensures ws[t1].name != ws[t2].name
    {
      var n1, n2 := i0 + (t1 - from), i0 + (t2 - from);
      assert IsInstanceName(ws[t1].name, n1, portId);
      assert IsInstanceName(ws[t2].name, n2, portId);
      var c1 :| ws[t1].name == InstanceWireName(c1, n1, portId);
      var c2 :| ws[t2].name == InstanceWireName(c2, n2, portId);
      if ws[t1].name == ws[t2].name {
        InstanceWireNameInjective(c1, n1, c2, n2, portId);
      }
    }
  }

  /** The forwarding bus of a module that is not the top is an input port. */
  function ForwardWire(j: nat, width: nat, isTop: bool): Wire
  {
    Wire(ForwardName(j), width, !isTop, false)
  }

  datatype Forwarded = Forwarded(mod: Module, i: nat, fw: Option<Wire>)

  /** One module for one entry: the cell loop, followed by the forwarding
      bus `fi_forward_<j>` when the collected signal is not empty. */
  function ForwardModule(M: Module, typeName: string, port: Wire, i: nat, j: nat): (r: Forwarded)
    ensures r.i == i + Instances(M, typeName)
    // a bus exactly when there are instances and the port has bits
    ensures r.fw.Some? <==> Instances(M, typeName) > 0 && port.width > 0
    ensures r.fw.Some? ==>
      && r.fw.value == ForwardWire(j, Repeat(Instances(M, typeName), port.width), M.isTop)
      && |r.mod.wires| > 0 && r.mod.wires[|r.mod.wires| - 1] == r.fw.value
  {
    var sc := ScanCells(M, typeName, port, i, |M.cells|);
    var n := Instances(M, typeName);
    RepeatPositive(n, port.width);
    if SigWidth(sc.fi) > 0 then
      var fw := ForwardWire(j, SigWidth(sc.fi), M.isTop);
      var M' := sc.mod.WithWire(fw).WithConnection(sc.fi, WireSig(fw));
      assert M'.wires[|M'.wires| - 1] == fw;
      Forwarded(M', sc.i, Some(fw))
    else Forwarded(sc.mod, sc.i, None)
  }

  /** Forwarding only extends the module; without a bus it adds no
      connection. */
  lemma ForwardModuleExtends(M: Module, typeName: string, port: Wire, i: nat, j: nat)
    ensures Extends(M, ForwardModule(M, typeName, port, i, j).mod)
    ensures ForwardModule(M, typeName, port, i, j).fw.None? ==> ForwardModule(M, typeName, port, i, j).mod.connections == M.connections
  {
    ScanCellsExtends(M, typeName, port, i, |M.cells|);
    ScanCellsFrame(M, typeName, port, i, |M.cells|);
  }

  /** The one connection the step adds joins `fi_cells`, the instance
      wires of the module concatenated in cell order, to the forwarding bus,
      which drives them. */
  lemma ForwardModuleConnects(M: Module, typeName: string, port: Wire, i: nat, j: nat)
    ensures var r := ForwardModule(M, typeName, port, i, j);
      var sc := ScanCells(M, typeName, port, i, |M.cells|);
      r.fw.Some? ==> r.mod.connections == M.connections + [Connection(sc.fi, WireSig(r.fw.value))]
  {
    ScanCellsFrame(M, typeName, port, i, |M.cells|);
  }

  // ---------------------------------------------------------------------
  // The lists of one sweep, on shapes

  /** A module gets a forwarding bus for an entry when it instantiates the
      entry's module and the entry's wire has at least one bit. */
  predicate HasBus(s: Shape, typeName: string, port: Wire)
  {
    ShapeInstances(s, typeName) > 0 && port.width > 0
  }

  /** The buses created in the modules before module `a`: the bus counter
      `j` runs on across sweeps. */
  function BusesBefore(sh: seq<Shape>, typeName: string, port: Wire, a: nat): nat
    requires a <= |sh|
  {
    if a == 0 then 0 else BusesBefore(sh, typeName, port, a - 1) + (if HasBus(sh[a - 1], typeName, port) then 1 else 0)
  }

  /** The bus module `a` gets in a sweep that starts with counter `j0`. */
  function BusOf(sh: seq<Shape>, typeName: string, port: Wire, j0: nat, a: nat): Wire
    requires a < |sh|
  {
    ForwardWire(j0 + BusesBefore(sh, typeName, port, a), Repeat(ShapeInstances(sh[a], typeName), port.width), sh[a].isTop)
  }

  /** The entries a sweep adds, in module order: those of modules whose `top`
      attribute is `top`. */
  function NewEntries(sh: seq<Shape>, typeName: string, port: Wire, j0: nat, a: nat, top: bool): seq<Entry>
    requires a <= |sh|
  {
    if a == 0 then []
    else
      NewEntries(sh, typeName, port, j0, a - 1, top)
      + (if HasBus(sh[a - 1], typeName, port) && sh[a - 1].isTop == top then [Entry(a - 1, BusOf(sh, typeName, port, j0, a - 1))] else [])
  }

  /** The bookkeeping of the propagation: the bus counter `j`, the work
      queue `addedInputs` and the collected `toplevelSigs`. */
  datatype Lists = Lists(j: nat, queued: seq<Entry>, tops: seq<Entry>)

  /** What one sweep does to the lists: buses below the top are queued,
      buses at the top are collected. */
  function SweepLists(sh: seq<Shape>, l: Lists, typeName: string, port: Wire): Lists
  {
    Lists(l.j + BusesBefore(sh, typeName, port, |sh|),
          l.queued + NewEntries(sh, typeName, port, l.j, |sh|, false),
          l.tops + NewEntries(sh, typeName, port, l.j, |sh|, true))
  }

  /** Every entry of `es` names a module below `bound` of the wanted kind
      that has a bus, and carries exactly that module's bus. */
  ghost predicate EntriesOfSweep(sh: seq<Shape>, typeName: string, port: Wire, j0: nat, top: bool, es: seq<Entry>, bound: nat)
  {
    forall n :: 0 <= n < |es| ==>
      && es[n].owner < bound && es[n].owner < |sh|
      && sh[es[n].owner].isTop == top && HasBus(sh[es[n].owner], typeName, port)
      && es[n].wire == BusOf(sh, typeName, port, j0, es[n].owner)
  }

  /** Entries come in strictly increasing module order. */
  ghost predicate Increasing(es: seq<Entry>)
  {
    forall n1, n2 :: 0 <= n1 < n2 < |es| ==> es[n1].owner < es[n2].owner
  }

  /** The entries of a sweep are the buses of the modules of the wanted
      kind that have a bus. */
  lemma NewEntriesAre(sh: seq<Shape>, typeName: string, port: Wire, j0: nat, a: nat, top: bool)
    requires a <= |sh|
    ensures EntriesOfSweep(sh, typeName, port, j0, top, NewEntries(sh, typeName, port, j0, a, top), a)
    decreases a
  {
    if a > 0 {
      NewEntriesAre(sh, typeName, port, j0, a - 1, top);
      var prev := NewEntries(sh, typeName, port, j0, a - 1, top);
      var es := NewEntries(sh, typeName, port, j0, a, top);
      if HasBus(sh[a - 1], typeName, port) && sh[a - 1].isTop == top {
        assert es == prev + [Entry(a - 1, BusOf(sh, typeName, port, j0, a - 1))];
      } else {
        assert es == prev;
      }
    }
  }

  /** The entries of a sweep come in module order. */
  lemma NewEntriesOrdered(sh: seq<Shape>, typeName: string, port: Wire, j0: nat, a: nat, top: bool)
    requires a <= |sh|
    ensures Increasing(NewEntries(sh, typeName, port, j0, a, top))
    decreases a
  {
    if a > 0 {
      NewEntriesOrdered(sh, typeName, port, j0, a - 1, top);
      NewEntriesAre(sh, typeName, port, j0, a - 1, top);
      var prev := NewEntries(sh, typeName, port, j0, a - 1, top);
      var es := NewEntries(sh, typeName, port, j0, a, top);
      if HasBus(sh[a - 1], typeName, port) && sh[a - 1].isTop == top {
        assert es == prev + [Entry(a - 1, BusOf(sh, typeName, port, j0, a - 1))];
      } else {
        assert es == prev;
      }
    }
  }

  /** A module with a bus counts for every later module. */
  lemma BusesBeforeGrows(sh: seq<Shape>, typeName: string, port: Wire, a: nat, b: nat)
    requires a < b <= |sh| && HasBus(sh[a], typeName, port)
    ensures BusesBefore(sh, typeName, port, a) < BusesBefore(sh, typeName, port, b)
    decreases b
  {
    if a < b - 1 {
      BusesBeforeGrows(sh, typeName, port, a, b - 1);
    }
  }

  /** Distinct modules get distinctly numbered buses: no two buses of a
      sweep share a name. */
  lemma BusNamesDistinct(sh: seq<Shape>, typeName: string, port: Wire, j0: nat, a: nat, b: nat)
    requires a < b < |sh| && HasBus(sh[a], typeName, port)
    ensures BusOf(sh, typeName, port, j0, a).name != BusOf(sh, typeName, port, j0, b).name
  {
    BusesBeforeGrows(sh, typeName, port, a, b);
    ForwardNameInjective(j0 + BusesBefore(sh, typeName, port, a), j0 + BusesBefore(sh, typeName, port, b));
  }

  /** The bus counter only grows, and every bus of a sweep is numbered in
      the range the sweep consumes. */
  lemma SweepListsNumbers(sh: seq<Shape>, l: Lists, typeName: string, port: Wire, a: nat)
    requires a < |sh| && HasBus(sh[a], typeName, port)
    ensures exists n :: l.j <= n < SweepLists(sh, l, typeName, port).j && BusOf(sh, typeName, port, l.j, a).name == ForwardName(n)
  {
    BusesBeforeGrows(sh, typeName, port, a, |sh|);
    assert BusOf(sh, typeName, port, l.j, a).name == ForwardName(l.j + BusesBefore(sh, typeName, port, a));
  }

  /** The buses of one sweep in creation order: one for every module that
      has one, top or not. */
  function SweepBusList(sh: seq<Shape>, typeName: string, port: Wire, j0: nat, a: nat): seq<Wire>
    requires a <= |sh|
  {
    if a == 0 then []
    else SweepBusList(sh, typeName, port, j0, a - 1)
         + (if HasBus(sh[a - 1], typeName, port) then [BusOf(sh, typeName, port, j0, a - 1)] else [])
  }

  /** The `n`-th bus of `bs` is `fi_forward_<j0 + n>`. */
  ghost predicate NumberedBuses(bs: seq<Wire>, j0: nat)
  {
    forall n :: 0 <= n < |bs| ==> bs[n].name == ForwardName(j0 + n)
  }

  /** Two numbered runs, the second starting where the first ends. */
  lemma NumberedChain(a: seq<Wire>, b: seq<Wire>, j0: nat, jm: nat, je: nat)
    requires j0 + |a| == jm && NumberedBuses(a, j0)
    requires jm + |b| == je && NumberedBuses(b, jm)
    ensures j0 + |a + b| == je && NumberedBuses(a + b, j0)
  {
    NumberedConcat(a, b, j0);
  }

  lemma NumberedConcat(a: seq<Wire>, b: seq<Wire>, j0: nat)
    requires NumberedBuses(a, j0) && NumberedBuses(b, j0 + |a|)
    ensures NumberedBuses(a + b, j0)
  {
    forall n | 0 <= n < |a + b|
      ensures (a + b)[n].name == ForwardName(j0 + n)
    {
      if n >= |a| {
        assert (a + b)[n] == b[n - |a|];
      }
    }
  }

  /** A sweep creates the buses `fi_forward_<j0>`, `fi_forward_<j0 + 1>`, ...
      in module order, one per counter value it consumes. */
  lemma {:induction false} SweepBusListNumbered(sh: seq<Shape>, typeName: string, port: Wire, j0: nat, a: nat)
    requires a <= |sh|
    ensures |SweepBusList(sh, typeName, port, j0, a)| == BusesBefore(sh, typeName, port, a)
    ensures NumberedBuses(SweepBusList(sh, typeName, port, j0, a), j0)
    decreases a
  {
    if a > 0 {
      SweepBusListNumbered(sh, typeName, port, j0, a - 1);
      var prev := SweepBusList(sh, typeName, port, j0, a - 1);
      if HasBus(sh[a - 1], typeName, port) {
        NumberedConcat(prev, [BusOf(sh, typeName, port, j0, a - 1)], j0);
      } else {
        assert SweepBusList(sh, typeName, port, j0, a) == prev;
      }
    }
  }

  // ---------------------------------------------------------------------
  // One sweep of the design

  /** The instances in the modules before module `a`: the instance counter
      `i` runs on across the modules of one sweep. */
  function InstancesBefore(mods: seq<Module>, typeName: string, a: nat): nat
    requires a <= |mods|
  {
    if a == 0 then 0 else InstancesBefore(mods, typeName, a - 1) + Instances(mods[a - 1], typeName)
  }

  /** Module `a` after the sweep. */
  function SweptModule(mods: seq<Module>, typeName: string, port: Wire, j0: nat, a: nat): Forwarded
    requires a < |mods|
  {
    ForwardModule(mods[a], typeName, port, InstancesBefore(mods, typeName, a), j0 + BusesBefore(Shapes(mods), typeName, port, a))
  }

  /** The first `a` modules after the sweep. */
  function SweptMods(mods: seq<Module>, typeName: string, port: Wire, j0: nat, a: nat): (r: seq<Module>)
    requires a <= |mods|
    ensures |r| == a
  {
    if a == 0 then [] else SweptMods(mods, typeName, port, j0, a - 1) + [SweptModule(mods, typeName, port, j0, a - 1).mod]
  }

  lemma SweptModsAt(mods: seq<Module>, typeName: string, port: Wire, j0: nat, a: nat, b: nat)
    requires b < a <= |mods|
    ensures SweptMods(mods, typeName, port, j0, a)[b] == SweptModule(mods, typeName, port, j0, b).mod
    decreases a
  {
    if b < a - 1 {
      SweptModsAt(mods, typeName, port, j0, a - 1, b);
    }
  }

  /** Module `a`, forwarded with the counters the sweep has reached, is
      the next module of the sweep; it gets a bus exactly when its shape
      says so, and then the bus `BusOf`; the instance counter runs on past
      its instances. */
  lemma SweptModuleBus(mods: seq<Module>, typeName: string, port: Wire, j0: nat, a: nat, i: nat, j: nat)
    requires a < |mods| && i == InstancesBefore(mods, typeName, a) && j == j0 + BusesBefore(Shapes(mods), typeName, port, a)
    ensures var f, sh := ForwardModule(mods[a], typeName, port, i, j), Shapes(mods);
      && (f.fw.Some? <==> HasBus(sh[a], typeName, port))
      && (f.fw.Some? ==> f.fw.value == BusOf(sh, typeName, port, j0, a))
      && f.i == InstancesBefore(mods, typeName, a + 1)
      && sh[a].isTop == mods[a].isTop
    ensures SweptMods(mods, typeName, port, j0, a + 1) == SweptMods(mods, typeName, port, j0, a) + [ForwardModule(mods[a], typeName, port, i, j).mod]
  {
    ShapesAt(mods, a, |mods|);
    InstancesOfShape(mods[a], typeName);
    SweptModuleIs(mods, typeName, port, j0, a, i, j);
  }

  /** The state of the propagation: the design and the lists. */
  datatype Wiring = Wiring(mods: seq<Module>, lists: Lists)

  /** The sweep of the whole design for one queue entry (the loop over
      `design->modules()`): every module is scanned for instances of
      `typeName`, and the buses are queued below the top and collected at the
      top. */
  function Sweep(w: Wiring, typeName: string, port: Wire): (r: Wiring)
    ensures |r.mods| == |w.mods|
  {
    Wiring(SweptMods(w.mods, typeName, port, w.lists.j, |w.mods|), SweepLists(Shapes(w.mods), w.lists, typeName, port))
  }

  /** A sweep only extends modules. */
  lemma SweepExtends(w: Wiring, typeName: string, port: Wire)
    ensures ExtendsAll(w.mods, Sweep(w, typeName, port).mods)
  {
    var r := Sweep(w, typeName, port);
    forall a | 0 <= a < |w.mods|
      ensures Extends(w.mods[a], r.mods[a])
    {
      var i, j := InstancesBefore(w.mods, typeName, a), w.lists.j + BusesBefore(Shapes(w.mods), typeName, port, a);
      SweepAt(w, typeName, port, a);
      SweptModuleIs(w.mods, typeName, port, w.lists.j, a, i, j);
      ForwardModuleExtends(w.mods[a], typeName, port, i, j);
    }
  }

  /** A sweep keeps the shapes of all modules. */
  lemma SweepShapes(w: Wiring, typeName: string, port: Wire)
    ensures Shapes(Sweep(w, typeName, port).mods) == Shapes(w.mods)
  {
    SweepExtends(w, typeName, port);
    ShapesExtends(w.mods, Sweep(w, typeName, port).mods, |w.mods|);
  }

  /** One sweep, cell by cell: every cell of the searched type, in any
      module, has the port named like the entry's wire bound to a new wire
      of that module exactly as wide as the entry's wire; every other cell
      is left as it was. */
  lemma SweepBinds(w: Wiring, typeName: string, port: Wire, a: nat, x: nat)
    requires a < |w.mods| && x < |w.mods[a].cells|
    ensures var M, M' := w.mods[a], Sweep(w, typeName, port).mods[a];
      var s := InstanceWire(M.cells[x], InstancesBefore(w.mods, typeName, a) + CountType(M.cells, typeName, x), port);
      && x < |M'.cells|
      && (M.cells[x].cellType == typeName ==>
            M'.cells[x] == M.cells[x].WithPort(port.name, WireSig(s)) && s in M'.wires && s.width == port.width)
      && (M.cells[x].cellType != typeName ==> M'.cells[x] == M.cells[x])
  {
    SweepAt(w, typeName, port, a);
    SweptModuleBinds(w.mods, typeName, port, w.lists.j, a, x);
  }

  /** Module `a` of a sweep rebinds its instances as the cell loop does. */
  lemma SweptModuleBinds(mods: seq<Module>, typeName: string, port: Wire, j0: nat, a: nat, x: nat)
    requires a < |mods| && x < |mods[a].cells|
    ensures var M, M' := mods[a], SweptModule(mods, typeName, port, j0, a).mod;
      var s := InstanceWire(M.cells[x], InstancesBefore(mods, typeName, a) + CountType(M.cells, typeName, x), port);
      && x < |M'.cells|
      && (M.cells[x].cellType == typeName ==>
            M'.cells[x] == M.cells[x].WithPort(port.name, WireSig(s)) && s in M'.wires && s.width == port.width)
      && (M.cells[x].cellType != typeName ==> M'.cells[x] == M.cells[x])
  {
    var i, j := InstancesBefore(mods, typeName, a), j0 + BusesBefore(Shapes(mods), typeName, port, a);
    SweptModuleIs(mods, typeName, port, j0, a, i, j);
    ForwardModuleBinds(mods[a], typeName, port, i, j, x, SweptModule(mods, typeName, port, j0, a).mod);
  }

  /** `SweptModule` is the forwarding of module `a` with the counters the
      sweep has reached. */
  lemma SweptModuleIs(mods: seq<Module>, typeName: string, port: Wire, j0: nat, a: nat, i: nat, j: nat)
    requires a < |mods| && i == InstancesBefore(mods, typeName, a) && j == j0 + BusesBefore(Shapes(mods), typeName, port, a)
    ensures SweptModule(mods, typeName, port, j0, a) == ForwardModule(mods[a], typeName, port, i, j)
  {
  }

  /** Module `a` after a sweep is module `a` forwarded with the counters
      the sweep has reached. */
  lemma SweepAt(w: Wiring, typeName: string, port: Wire, a: nat)
    requires a < |w.mods|
    ensures Sweep(w, typeName, port).mods[a] == SweptModule(w.mods, typeName, port, w.lists.j, a).mod
  {
    SweptModsAt(w.mods, typeName, port, w.lists.j, |w.mods|, a);
  }

  /** Forwarding one module rebinds its instances as the cell loop does. */
  lemma ForwardModuleBinds(M: Module, typeName: string, port: Wire, i: nat, j: nat, x: nat, M': Module)
    requires x < |M.cells| && M' == ForwardModule(M, typeName, port, i, j).mod
    ensures var s := InstanceWire(M.cells[x], i + CountType(M.cells, typeName, x), port);
      && x < |M'.cells|
      && (M.cells[x].cellType == typeName ==>
            M'.cells[x] == M.cells[x].WithPort(port.name, WireSig(s)) && s in M'.wires && s.width == port.width)
      && (M.cells[x].cellType != typeName ==> M'.cells[x] == M.cells[x])
  {
    ScanCellsBinds(M, typeName, port, i, |M.cells|, x);
  }

  /** One sweep, module by module: a module with a bus gets exactly the
      bus `BusOf`, as wide as its instances times the entry's width, an
      input port exactly when the module is not the top; a module without
      one gets no connection. */
  lemma SweepBuses(w: Wiring, typeName: string, port: Wire, a: nat)
    requires a < |w.mods|
    ensures var r, bus := Sweep(w, typeName, port), BusOf(Shapes(w.mods), typeName, port, w.lists.j, a);
      HasBus(Shapes(w.mods)[a], typeName, port) ==>
        && bus in r.mods[a].wires
        && bus.width == Instances(w.mods[a], typeName) * port.width
        && bus.portInput == !w.mods[a].isTop
    ensures !HasBus(Shapes(w.mods)[a], typeName, port) ==> Sweep(w, typeName, port).mods[a].connections == w.mods[a].connections
  {
    var M := w.mods[a];
    var i, j := InstancesBefore(w.mods, typeName, a), w.lists.j + BusesBefore(Shapes(w.mods), typeName, port, a);
    SweepAt(w, typeName, port, a);
    SweptModuleIs(w.mods, typeName, port, w.lists.j, a, i, j);
    ShapesAt(w.mods, a, |w.mods|);
    InstancesOfShape(M, typeName);
    RepeatIsProduct(Instances(M, typeName), port.width);
    ForwardModuleExtends(M, typeName, port, i, j);
  }

  // ---------------------------------------------------------------------
  // Well-formed lists

  /** Every entry names one of the first `n` modules. */
  ghost predicate OwnersIn(n: nat, es: seq<Entry>)
  {
    forall k :: 0 <= k < |es| ==> es[k].owner < n
  }

  lemma NewEntriesOwned(sh: seq<Shape>, typeName: string, port: Wire, j0: nat, a: nat, top: bool)
    requires a <= |sh|
    ensures OwnersIn(|sh|, NewEntries(sh, typeName, port, j0, a, top))
  {
    NewEntriesAre(sh, typeName, port, j0, a, top);
  }

  /** The entries of the work queue: each is an input port, below the top,
      of the module it names. */
  ghost predicate QueuedWell(mods: seq<Module>, es: seq<Entry>)
  {
    forall n :: 0 <= n < |es| ==>
      es[n].owner < |mods| && !mods[es[n].owner].isTop && es[n].wire.portInput && es[n].wire in mods[es[n].owner].wires
  }

  /** The collected top-level signals: each is a wire of a top module. */
  ghost predicate TopsWell(mods: seq<Module>, es: seq<Entry>)
  {
    forall n :: 0 <= n < |es| ==>
      es[n].owner < |mods| && mods[es[n].owner].isTop && es[n].wire in mods[es[n].owner].wires
  }

  /** Both lists of a state are well formed. */
  ghost predicate WellListed(w: Wiring)
  {
    QueuedWell(w.mods, w.lists.queued) && TopsWell(w.mods, w.lists.tops)
  }

  /** A wire of a prefix is a wire of the whole. */
  lemma PrefixKeeps(w: Wire, ws: seq<Wire>, ws': seq<Wire>)
    requires w in ws && ws <= ws'
    ensures w in ws'
  {
    var k :| 0 <= k < |ws| && ws[k] == w;
    assert ws'[k] == w;
  }

  lemma QueuedWellExtends(mods: seq<Module>, mods': seq<Module>, es: seq<Entry>)
    requires ExtendsAll(mods, mods') && QueuedWell(mods, es)
    ensures QueuedWell(mods', es)
  {
    forall n | 0 <= n < |es|
      ensures es[n].wire in mods'[es[n].owner].wires
    {
      PrefixKeeps(es[n].wire, mods[es[n].owner].wires, mods'[es[n].owner].wires);
    }
  }

  lemma TopsWellExtends(mods: seq<Module>, mods': seq<Module>, es: seq<Entry>)
    requires ExtendsAll(mods, mods') && TopsWell(mods, es)
    ensures TopsWell(mods', es)
  {
    forall n | 0 <= n < |es|
      ensures es[n].wire in mods'[es[n].owner].wires
    {
      PrefixKeeps(es[n].wire, mods[es[n].owner].wires, mods'[es[n].owner].wires);
    }
  }

  /** A sweep keeps both lists well formed: every bus it queues is an input
      port of a module below the top, and every bus it collects is a wire
      of a top module. */
  lemma SweepKeepsWell(w: Wiring, typeName: string, port: Wire)
    requires WellListed(w)
    ensures WellListed(Sweep(w, typeName, port))
  {
    var r := Sweep(w, typeName, port);
    var sh := Shapes(w.mods);
    SweepExtends(w, typeName, port);
    QueuedWellExtends(w.mods, r.mods, w.lists.queued);
    TopsWellExtends(w.mods, r.mods, w.lists.tops);
    var q := NewEntries(sh, typeName, port, w.lists.j, |sh|, false);
    var t := NewEntries(sh, typeName, port, w.lists.j, |sh|, true);
    NewEntriesAre(sh, typeName, port, w.lists.j, |sh|, false);
    NewEntriesAre(sh, typeName, port, w.lists.j, |sh|, true);
    forall n | 0 <= n < |q|
      ensures !r.mods[q[n].owner].isTop && q[n].wire.portInput && q[n].wire in r.mods[q[n].owner].wires
    {
      SweepBuses(w, typeName, port, q[n].owner);
      ShapesAt(w.mods, q[n].owner, |w.mods|);
    }
    forall n | 0 <= n < |t|
      ensures r.mods[t[n].owner].isTop && t[n].wire in r.mods[t[n].owner].wires
    {
      SweepBuses(w, typeName, port, t[n].owner);
      ShapesAt(w.mods, t[n].owner, |w.mods|);
    }
    assert r.lists.queued == w.lists.queued + q && r.lists.tops == w.lists.tops + t;
  }

  // ---------------------------------------------------------------------
  // Generations

  /** The lists after the first `k` entries of the snapshot `snap`: each
      entry, in order, sweeps the design for the module it names; new
      entries go to the live queue, not to the snapshot. */
  function ListsFrom(sh: seq<Shape>, l: Lists, snap: seq<Entry>, k: nat): (r: Lists)
    requires k <= |snap| && OwnersIn(|sh|, snap)
    ensures OwnersIn(|sh|, l.queued) ==> OwnersIn(|sh|, r.queued)
    ensures l.j <= r.j
    decreases k
  {
    if k == 0 then l
    else
      var p := ListsFrom(sh, l, snap, k - 1);
      var e := snap[k - 1];
      NewEntriesOwned(sh, sh[e.owner].name, e.wire, p.j, |sh|, false);
      SweepLists(sh, p, sh[e.owner].name, e.wire)
  }

  /** The state after the first `k` entries of the snapshot `snap`: each
      entry, in order, sweeps the design as the entries before it left it,
      for the module the entry names; new entries go to the live queue, not
      to the snapshot. */
  function GenerationFrom(w: Wiring, snap: seq<Entry>, k: nat): (r: Wiring)
    requires k <= |snap| && OwnersIn(|w.mods|, snap)
    ensures |r.mods| == |w.mods|
    decreases k
  {
    if k == 0 then w
    else
      var p := GenerationFrom(w, snap, k - 1);
      var sh, e := Shapes(w.mods), snap[k - 1];
      Sweep(p, sh[e.owner].name, e.wire)
  }

  /** A generation keeps the shapes of all modules, and its lists are
      those computed on the shapes alone. */
  lemma GenerationFromInvariant(w: Wiring, snap: seq<Entry>, k: nat)
    requires k <= |snap| && OwnersIn(|w.mods|, snap)
    ensures Shapes(GenerationFrom(w, snap, k).mods) == Shapes(w.mods)
    ensures GenerationFrom(w, snap, k).lists == ListsFrom(Shapes(w.mods), w.lists, snap, k)
    decreases k
  {
    if k > 0 {
      GenerationFromInvariant(w, snap, k - 1);
      GenerationFromInvariantStep(w, snap, k);
    }
  }

  lemma GenerationFromShapes(w: Wiring, snap: seq<Entry>, k: nat)
    requires k <= |snap| && OwnersIn(|w.mods|, snap)
    ensures Shapes(GenerationFrom(w, snap, k).mods) == Shapes(w.mods)
  {
    GenerationFromInvariant(w, snap, k);
  }

  lemma GenerationFromLists(w: Wiring, snap: seq<Entry>, k: nat)
    requires k <= |snap| && OwnersIn(|w.mods|, snap)
    ensures GenerationFrom(w, snap, k).lists == ListsFrom(Shapes(w.mods), w.lists, snap, k)
  {
    GenerationFromInvariant(w, snap, k);
  }

  lemma GenerationFromInvariantStep(w: Wiring, snap: seq<Entry>, k: nat)
    requires 0 < k <= |snap| && OwnersIn(|w.mods|, snap)
    requires Shapes(GenerationFrom(w, snap, k - 1).mods) == Shapes(w.mods)
    requires GenerationFrom(w, snap, k - 1).lists == ListsFrom(Shapes(w.mods), w.lists, snap, k - 1)
    ensures Shapes(GenerationFrom(w, snap, k).mods) == Shapes(w.mods)
    ensures GenerationFrom(w, snap, k).lists == ListsFrom(Shapes(w.mods), w.lists, snap, k)
  {
    var sh, e := Shapes(w.mods), snap[k - 1];
    SweepShapes(GenerationFrom(w, snap, k - 1), sh[e.owner].name, e.wire);
  }

  /** Each entry sweeps for the module it names in the design as the
      entries before it left it. */
  lemma GenerationStep(w: Wiring, snap: seq<Entry>, k: nat)
    requires k < |snap| && OwnersIn(|w.mods|, snap)
    ensures var p, e := GenerationFrom(w, snap, k), snap[k];
      && e.owner < |p.mods|
      && GenerationFrom(w, snap, k + 1) == Sweep(p, p.mods[e.owner].name, e.wire)
  {
    GenerationFromShapes(w, snap, k);
    SweepNamesOwner(w, snap, k);
  }

  lemma SweepNamesOwner(w: Wiring, snap: seq<Entry>, k: nat)
    requires k < |snap| && OwnersIn(|w.mods|, snap)
    requires Shapes(GenerationFrom(w, snap, k).mods) == Shapes(w.mods)
    ensures var p, e := GenerationFrom(w, snap, k), snap[k];
      && e.owner < |p.mods|
      && GenerationFrom(w, snap, k + 1) == Sweep(p, p.mods[e.owner].name, e.wire)
  {
    var p := GenerationFrom(w, snap, k);
    var e := snap[k];
    ShapesAt(p.mods, e.owner, |p.mods|);
    ShapesAt(w.mods, e.owner, |w.mods|);
  }

  /** One iteration of the `while` loop: the queue is copied to a snapshot
      and cleared, then the snapshot is processed. */
  function Generation(w: Wiring): (r: Wiring)
    requires OwnersIn(|w.mods|, w.lists.queued)
    ensures |r.mods| == |w.mods|
    ensures r.lists == ListsGeneration(Shapes(w.mods), w.lists)
  {
    GenerationFromLists(w.(lists := w.lists.(queued := [])), w.lists.queued, |w.lists.queued|);
    GenerationFrom(w.(lists := w.lists.(queued := [])), w.lists.queued, |w.lists.queued|)
  }

  lemma GenerationShapes(w: Wiring)
    requires OwnersIn(|w.mods|, w.lists.queued)
    ensures Shapes(Generation(w).mods) == Shapes(w.mods)
  {
    GenerationFromShapes(w.(lists := w.lists.(queued := [])), w.lists.queued, |w.lists.queued|);
  }

  function ListsGeneration(sh: seq<Shape>, l: Lists): (r: Lists)
    requires OwnersIn(|sh|, l.queued)
    ensures OwnersIn(|sh|, r.queued)
  {
    ListsFrom(sh, l.(queued := []), l.queued, |l.queued|)
  }

  /** The lists after at most `n` generations, on shapes. */
  function ListsPropagation(sh: seq<Shape>, l: Lists, n: nat): Lists
    requires OwnersIn(|sh|, l.queued)
    decreases n
  {
    if n == 0 || l.queued == [] then l else ListsPropagation(sh, ListsGeneration(sh, l), n - 1)
  }

  /** The modules after at most `n` generations. */
  function ModsPropagation(mods: seq<Module>, l: Lists, n: nat): (r: seq<Module>)
    requires OwnersIn(|mods|, l.queued)
    ensures |r| == |mods|
    decreases n
  {
    if n == 0 || l.queued == [] then mods
    else ModsPropagation(Generation(Wiring(mods, l)).mods, ListsGeneration(Shapes(mods), l), n - 1)
  }

  /** At most `n` iterations of the `while` loop, which runs until the work
      queue is empty. */
  function Propagation(w: Wiring, n: nat): (r: Wiring)
    requires OwnersIn(|w.mods|, w.lists.queued)
    ensures |r.mods| == |w.mods|
    // the loop does nothing once the queue is empty
    ensures w.lists.queued == [] ==> r == w
  {
    Wiring(ModsPropagation(w.mods, w.lists, n), ListsPropagation(Shapes(w.mods), w.lists, n))
  }

  /** `Propagation` is the `while` loop: while the queue is not empty, one
      more generation. */
  lemma PropagationStep(w: Wiring, g: Wiring, n: nat)
    requires OwnersIn(|w.mods|, w.lists.queued) && n > 0 && w.lists.queued != [] && g == Generation(w)
    ensures OwnersIn(|g.mods|, g.lists.queued)
    ensures Propagation(w, n) == Propagation(g, n - 1)
  {
    GenerationShapes(w);
  }

  /** The processed part of a generation keeps both lists well formed. */
  lemma GenerationFromWell(w: Wiring, snap: seq<Entry>, k: nat)
    requires k <= |snap| && OwnersIn(|w.mods|, snap) && WellListed(w)
    ensures WellListed(GenerationFrom(w, snap, k))
    decreases k
  {
    if k > 0 {
      GenerationFromWell(w, snap, k - 1);
      var sh, e := Shapes(w.mods), snap[k - 1];
      SweepKeepsWell(GenerationFrom(w, snap, k - 1), sh[e.owner].name, e.wire);
    }
  }

  /** The whole propagation keeps both lists well formed: what is queued
      is an input port below the top, what is collected is a wire of a top
      module. */
  lemma {:induction false} PropagationWell(w: Wiring, n: nat)
    requires OwnersIn(|w.mods|, w.lists.queued) && WellListed(w)
    ensures WellListed(Propagation(w, n))
    decreases n
  {
    if n > 0 && w.lists.queued != [] {
      var g := GenerationWell(w);
      PropagationWell(g, n - 1);
      WellFromNext(w, g, n);
    } else {
      PropagationDone(w, n);
    }
  }

  /** With no round left or an empty queue, the loop does nothing. */
  lemma PropagationDone(w: Wiring, n: nat)
    requires OwnersIn(|w.mods|, w.lists.queued) && (n == 0 || w.lists.queued == [])
    ensures Propagation(w, n) == w
  {
  }

  /** One generation keeps both lists well formed. */
  lemma GenerationWell(w: Wiring) returns (g: Wiring)
    requires OwnersIn(|w.mods|, w.lists.queued) && WellListed(w)
    ensures g == Generation(w) && OwnersIn(|g.mods|, g.lists.queued) && WellListed(g)
  {
    g := Generation(w);
    GenerationFromWell(w.(lists := w.lists.(queued := [])), w.lists.queued, |w.lists.queued|);
    GenerationShapes(w);
  }

  /** Well-formed lists after the rest of the loop are well-formed lists
      after the whole loop. */
  lemma WellFromNext(w: Wiring, g: Wiring, n: nat)
    requires OwnersIn(|w.mods|, w.lists.queued) && n > 0 && w.lists.queued != [] && g == Generation(w)
    requires OwnersIn(|g.mods|, g.lists.queued) && WellListed(Propagation(g, n - 1))
    ensures WellListed(Propagation(w, n))
  {
    PropagationStep(w, g, n);
  }

  // ---------------------------------------------------------------------
  // Bus numbers over the whole propagation

  /** The buses created over the first `k` entries of a snapshot, in
      creation order. */
  function BusesFrom(sh: seq<Shape>, l: Lists, snap: seq<Entry>, k: nat): seq<Wire>
    requires k <= |snap| && OwnersIn(|sh|, snap)
    decreases k
  {
    if k == 0 then []
    else
      var e := snap[k - 1];
      BusesFrom(sh, l, snap, k - 1) + SweepBusList(sh, sh[e.owner].name, e.wire, ListsFrom(sh, l, snap, k - 1).j, |sh|)
  }

  lemma {:induction false} BusesFromNumbered(sh: seq<Shape>, l: Lists, snap: seq<Entry>, k: nat)
    requires k <= |snap| && OwnersIn(|sh|, snap)
    ensures l.j + |BusesFrom(sh, l, snap, k)| == ListsFrom(sh, l, snap, k).j
    ensures NumberedBuses(BusesFrom(sh, l, snap, k), l.j)
    decreases k
  {
    if k > 0 {
      BusesFromNumbered(sh, l, snap, k - 1);
      var e := snap[k - 1];
      var p := ListsFrom(sh, l, snap, k - 1);
      SweepBusListNumbered(sh, sh[e.owner].name, e.wire, p.j, |sh|);
      NumberedConcat(BusesFrom(sh, l, snap, k - 1), SweepBusList(sh, sh[e.owner].name, e.wire, p.j, |sh|), l.j);
    }
  }

  /** The buses created over at most `n` generations, in creation order. */
  function BusesPropagation(sh: seq<Shape>, l: Lists, n: nat): seq<Wire>
    requires OwnersIn(|sh|, l.queued)
    decreases n
  {
    if n == 0 || l.queued == [] then []
    else BusesFrom(sh, l.(queued := []), l.queued, |l.queued|) + BusesPropagation(sh, ListsGeneration(sh, l), n - 1)
  }

  /** Over the whole propagation the `k`-th bus created is
      `fi_forward_<j0 + k>`, where `j0` is the counter's start: the numbers
      strictly increase in creation order, and the counter ends just past
      the last one. */
  lemma {:induction false} BusesPropagationNumbered(sh: seq<Shape>, l: Lists, n: nat)
    requires OwnersIn(|sh|, l.queued)
    ensures l.j + |BusesPropagation(sh, l, n)| == ListsPropagation(sh, l, n).j
    ensures NumberedBuses(BusesPropagation(sh, l, n), l.j)
    decreases n
  {
    if n > 0 && l.queued != [] {
      var l' := ListsGeneration(sh, l);
      GenerationBusesNumbered(sh, l);
      BusesPropagationNumbered(sh, l', n - 1);
      NumberedFromNext(sh, l, n, BusesFrom(sh, l.(queued := []), l.queued, |l.queued|), l');
    }
  }

  /** The buses of the first generation, then those of the rest, are
      numbered on from the counter's start. */
  lemma NumberedFromNext(sh: seq<Shape>, l: Lists, n: nat, a: seq<Wire>, l': Lists)
    requires OwnersIn(|sh|, l.queued) && l.queued != [] && n > 0
    requires a == BusesFrom(sh, l.(queued := []), l.queued, |l.queued|) && l' == ListsGeneration(sh, l)
    requires l.j + |a| == l'.j && NumberedBuses(a, l.j)
    requires l'.j + |BusesPropagation(sh, l', n - 1)| == ListsPropagation(sh, l', n - 1).j
    requires NumberedBuses(BusesPropagation(sh, l', n - 1), l'.j)
    ensures l.j + |BusesPropagation(sh, l, n)| == ListsPropagation(sh, l, n).j
    ensures NumberedBuses(BusesPropagation(sh, l, n), l.j)
  {
    BusesPropagationStep(sh, l, n);
    ListsPropagationStep(sh, l, n);
    NumberedChain(a, BusesPropagation(sh, l', n - 1), l.j, l'.j, ListsPropagation(sh, l, n).j);
  }

  /** The buses of one generation are numbered from the counter on, and
      the counter ends just past them. */
  lemma GenerationBusesNumbered(sh: seq<Shape>, l: Lists)
    requires OwnersIn(|sh|, l.queued)
    ensures l.j + |BusesFrom(sh, l.(queued := []), l.queued, |l.queued|)| == ListsGeneration(sh, l).j
    ensures NumberedBuses(BusesFrom(sh, l.(queued := []), l.queued, |l.queued|), l.j)
  {
    BusesFromNumbered(sh, l.(queued := []), l.queued, |l.queued|);
  }

  /** One more generation: its buses, then those of the rest. */
  lemma BusesPropagationStep(sh: seq<Shape>, l: Lists, n: nat)
    requires OwnersIn(|sh|, l.queued) && l.queued != [] && n > 0
    ensures BusesPropagation(sh, l, n) == BusesFrom(sh, l.(queued := []), l.queued, |l.queued|) + BusesPropagation(sh, ListsGeneration(sh, l), n - 1)
  {
  }

  /** One more generation of the lists, then the rest. */
  lemma ListsPropagationStep(sh: seq<Shape>, l: Lists, n: nat)
    requires OwnersIn(|sh|, l.queued) && l.queued != [] && n > 0
    ensures ListsPropagation(sh, l, n) == ListsPropagation(sh, ListsGeneration(sh, l), n - 1)
  {
  }

  /** No two buses of the whole propagation share a name. */
  lemma ForwardBusesDistinct(sh: seq<Shape>, l: Lists, n: nat)
    requires OwnersIn(|sh|, l.queued)
    ensures var bs := BusesPropagation(sh, l, n);
      forall x, y :: 0 <= x < y < |bs| ==> bs[x].name != bs[y].name
  {
    var bs := BusesPropagation(sh, l, n);
    BusesPropagationNumbered(sh, l, n);
    forall x, y | 0 <= x < y < |bs|
      ensures bs[x].name != bs[y].name
    {
      ForwardNameInjective(l.j + x, l.j + y);
    }
  }

  // ---------------------------------------------------------------------
  // Termination

  /** A witness that the instantiation graph has no cycle: a module's rank
      is below the rank of every module it instantiates. */
  ghost predicate Ranked(sh: seq<Shape>, rank: seq<nat>)
  {
    && |rank| == |sh|
    && (forall a :: 0 <= a < |sh| ==> rank[a] < |sh|)
    && (forall a, b :: 0 <= a < |sh| && 0 <= b < |sh| && sh[b].name in sh[a].types ==> rank[a] < rank[b])
  }

  /** Every entry names a module whose rank is below `bound`. */
  ghost predicate Below(rank: seq<nat>, es: seq<Entry>, bound: nat)
  {
    forall n :: 0 <= n < |es| ==> es[n].owner < |rank| && rank[es[n].owner] < bound
  }

  lemma BelowAppend(rank: seq<nat>, a: seq<Entry>, b: seq<Entry>, bound: nat, bound': nat)
    requires Below(rank, a, bound) && Below(rank, b, bound') && bound' <= bound
    ensures Below(rank, a + b, bound)
  {
  }

  /** The buses queued for module `b` belong to modules instantiating it,
      so of lower rank. */
  lemma SweepBelow(sh: seq<Shape>, b: nat, port: Wire, j0: nat, rank: seq<nat>)
    requires Ranked(sh, rank) && b < |sh|
    ensures Below(rank, NewEntries(sh, sh[b].name, port, j0, |sh|, false), rank[b])
  {
    var q := NewEntries(sh, sh[b].name, port, j0, |sh|, false);
    NewEntriesAre(sh, sh[b].name, port, j0, |sh|, false);
    forall n | 0 <= n < |q|
      ensures rank[q[n].owner] < rank[b]
    {
      var a := q[n].owner;
      CountIn(sh[a].types, sh[b].name, |sh[a].types|);
    }
  }

  /** Over a generation whose snapshot is below `bound + 1`, every entry
      queued is below `bound`. */
  lemma ListsFromBelow(sh: seq<Shape>, l: Lists, snap: seq<Entry>, k: nat, rank: seq<nat>, bound: nat)
    requires k <= |snap| && OwnersIn(|sh|, snap) && Ranked(sh, rank)
    requires Below(rank, snap, bound + 1) && Below(rank, l.queued, bound)
    ensures Below(rank, ListsFrom(sh, l, snap, k).queued, bound)
    decreases k
  {
    if k > 0 {
      ListsFromBelow(sh, l, snap, k - 1, rank, bound);
      var p := ListsFrom(sh, l, snap, k - 1);
      var e := snap[k - 1];
      SweepBelow(sh, e.owner, e.wire, p.j, rank);
      BelowAppend(rank, p.queued, NewEntries(sh, sh[e.owner].name, e.wire, p.j, |sh|, false), bound, rank[e.owner]);
    }
  }

  /** With a ranking, the work queue drains: after `bound` generations
      nothing is left when every queued module ranks below `bound`. */
  lemma ListsDrain(sh: seq<Shape>, l: Lists, rank: seq<nat>, bound: nat)
    requires OwnersIn(|sh|, l.queued) && Ranked(sh, rank) && Below(rank, l.queued, bound)
    ensures ListsPropagation(sh, l, bound).queued == []
    decreases bound
  {
    if l.queued != [] {
      assert rank[l.queued[0].owner] < bound;
      ListsFromBelow(sh, l.(queued := []), l.queued, |l.queued|, rank, bound - 1);
      ListsDrain(sh, ListsGeneration(sh, l), rank, bound - 1);
    }
  }

  /** As many generations as there are modules always suffice: at the end
      of the propagation the work queue is empty. */
  lemma PropagationTerminates(w: Wiring, rank: seq<nat>)
    requires OwnersIn(|w.mods|, w.lists.queued) && Ranked(Shapes(w.mods), rank)
    ensures Propagation(w, |w.mods|).lists.queued == []
  {
    ListsDrain(Shapes(w.mods), w.lists, rank, |w.mods|);
  }

}
