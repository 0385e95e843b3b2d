/** The loops of `add_toplevel_fi_module` that forward the fault-control
    inputs to the top, as methods on the design; each is proved to compute
    the corresponding function of `Propagate`. */
module Forward {
  import opened Wrappers
  import opened Netlist
  import opened Propagate

  /** One instance: a fresh wire `s` is added to module `a` and bound to
      `port` of cell `x`. */
  method BindInstance(design: Design, a: nat, x: nat, port: string, s: Wire)
    requires a < |design.modules| && x < |design.modules[a].cells|
    modifies design
    ensures design.modules == old(design.modules)[a := old(design.modules)[a].WithWire(s).WithCellPort(x, port, WireSig(s))]
    ensures design.autoIdx == old(design.autoIdx)
  {
    design.AddWire(a, s);
    design.SetPort(a, x, port, WireSig(s));
  }

  /** The cell loop of module `a` for one queue entry. */
  method ScanInstances(design: Design, a: nat, typeName: string, port: Wire, i0: nat) returns (fi: SigSpec, i: nat)
    requires a < |design.modules|
    modifies design
    ensures var sc := ScanCells(old(design.modules)[a], typeName, port, i0, |old(design.modules)[a].cells|);
      design.modules == old(design.modules)[a := sc.mod] && fi == sc.fi && i == sc.i
    ensures design.autoIdx == old(design.autoIdx)
  {
    ghost var M := design.modules[a];
    ghost var cur := M;
    fi, i := [], i0;
    var k := 0;
    var n := |design.modules[a].cells|;
    while k < n
      invariant k <= n == |M.cells| == |cur.cells|
      invariant design.modules == old(design.modules)[a := cur]
      invariant ScanCells(M, typeName, port, i0, k) == Scan(cur, fi, i)
      invariant design.autoIdx == old(design.autoIdx)
    {
      ScanCellsFrame(M, typeName, port, i0, k);
      var c := design.modules[a].cells[k];
      if c.cellType == typeName {
        var s := InstanceWire(c, i, port);
        BindInstance(design, a, k, port.name, s);
        cur := cur.WithWire(s).WithCellPort(k, port.name, WireSig(s));
        fi := fi + WireSig(s);
        i := i + 1;
      }
      k := k + 1;
    }
  }

  /** Module `a` for one queue entry: the cell loop, then the bus
      `fi_forward_<j>` when the collected signal has a bit. */
  method ForwardInstances(design: Design, a: nat, typeName: string, port: Wire, i0: nat, j: nat) returns (i: nat, fw: Option<Wire>)
    requires a < |design.modules|
    modifies design
    ensures var f := ForwardModule(old(design.modules)[a], typeName, port, i0, j);
      design.modules == old(design.modules)[a := f.mod] && i == f.i && fw == f.fw
    ensures design.autoIdx == old(design.autoIdx)
  {
    var isTop := design.modules[a].isTop;
    var fi;
    fi, i := ScanInstances(design, a, typeName, port, i0);
    if SigWidth(fi) > 0 {
      var bus := ForwardWire(j, SigWidth(fi), isTop);
      design.AddWire(a, bus);
      design.Connect(a, fi, WireSig(bus));
      fw := Some(bus);
    } else {
      fw := None;
    }
  }

  /** The body of the module loop: module `a` is forwarded and its bus, if
      any, is queued below the top or collected at the top. */
  method ForwardModuleEntry(design: Design, a: nat, typeName: string, port: Wire, i0: nat, l: Lists)
    returns (i: nat, fw: Option<Wire>, l': Lists)
    requires a < |design.modules|
    modifies design
    ensures var f := ForwardModule(old(design.modules)[a], typeName, port, i0, l.j);
      design.modules == old(design.modules)[a := f.mod] && i == f.i && fw == f.fw
    ensures l' == if fw.None? then l
                  else if !old(design.modules)[a].isTop then l.(queued := l.queued + [Entry(a, fw.value)], j := l.j + 1)
                  else l.(tops := l.tops + [Entry(a, fw.value)], j := l.j + 1)
    ensures design.autoIdx == old(design.autoIdx)
  {
    var isTop := design.modules[a].isTop;
    i, fw := ForwardInstances(design, a, typeName, port, i0, l.j);
    l' := l;
    if fw.Some? {
      if !isTop {
        l' := l'.(queued := l'.queued + [Entry(a, fw.value)]);
      } else {
        l' := l'.(tops := l'.tops + [Entry(a, fw.value)]);
      }
      l' := l'.(j := l'.j + 1);
    }
  }

  /** Replacing the first element after a prefix. */
  lemma UpdateAfter<T>(done: seq<T>, rest: seq<T>, x: T)
    requires |rest| > 0
    ensures (done + rest)[|done| := x] == (done + [x]) + rest[1..]
  {
    assert forall n :: 0 <= n < |done| + |rest| ==> (done + rest)[|done| := x][n] == ((done + [x]) + rest[1..])[n];
  }

  /** The lists after module `a` of a sweep: its bus, if any, is queued
      or collected and the counter moves on. */
  lemma ListsStep(sh: seq<Shape>, typeName: string, port: Wire, l: Lists, a: nat, fw: Option<Wire>, isTop: bool, cur: Lists, next: Lists)
    requires a < |sh| && isTop == sh[a].isTop
    requires cur == Lists(l.j + BusesBefore(sh, typeName, port, a),
                          l.queued + NewEntries(sh, typeName, port, l.j, a, false),
                          l.tops + NewEntries(sh, typeName, port, l.j, a, true))
    requires fw.Some? <==> HasBus(sh[a], typeName, port)
    requires fw.Some? ==> fw.value == BusOf(sh, typeName, port, l.j, a)
    requires next == if fw.None? then cur
                     else if !isTop then cur.(queued := cur.queued + [Entry(a, fw.value)], j := cur.j + 1)
                     else cur.(tops := cur.tops + [Entry(a, fw.value)], j := cur.j + 1)
    ensures next == Lists(l.j + BusesBefore(sh, typeName, port, a + 1),
                          l.queued + NewEntries(sh, typeName, port, l.j, a + 1, false),
                          l.tops + NewEntries(sh, typeName, port, l.j, a + 1, true))
  {
    if fw.Some? {
      var e := Entry(a, fw.value);
      assert (l.queued + NewEntries(sh, typeName, port, l.j, a, false)) + [e] == l.queued + (NewEntries(sh, typeName, port, l.j, a, false) + [e]);
      assert (l.tops + NewEntries(sh, typeName, port, l.j, a, true)) + [e] == l.tops + (NewEntries(sh, typeName, port, l.j, a, true) + [e]);
    }
  }

  /** The sweep state after the first `a` modules: those are swept, the
      rest untouched, and the counters and lists are those of the sweep so
      far. */
  ghost predicate SweptSoFar(mods: seq<Module>, M0: seq<Module>, done: seq<Module>, typeName: string, port: Wire,
                             l: Lists, a: nat, i: nat, cur: Lists)
  {
    && a <= |M0| && |done| == a
    && mods == done + M0[a..]
    && done == SweptMods(M0, typeName, port, l.j, a)
    && i == InstancesBefore(M0, typeName, a)
    && cur == Lists(l.j + BusesBefore(Shapes(M0), typeName, port, a),
                    l.queued + NewEntries(Shapes(M0), typeName, port, l.j, a, false),
                    l.tops + NewEntries(Shapes(M0), typeName, port, l.j, a, true))
  }

  /** One iteration of the module loop, module `a` of the sweep. */
  method SweepModuleStep(design: Design, typeName: string, port: Wire, l: Lists, ghost M0: seq<Module>, ghost done: seq<Module>,
                         a: nat, i: nat, cur: Lists)
    returns (ghost done': seq<Module>, i': nat, cur': Lists)
    requires a < |M0| && SweptSoFar(design.modules, M0, done, typeName, port, l, a, i, cur)
    modifies design
    ensures SweptSoFar(design.modules, M0, done', typeName, port, l, a + 1, i', cur')
    ensures design.autoIdx == old(design.autoIdx)
  {
    assert design.modules[a] == M0[a];
    SweptModuleBus(M0, typeName, port, l.j, a, i, cur.j);
    var fw;
    i', fw, cur' := ForwardModuleEntry(design, a, typeName, port, i, cur);
    ListsStep(Shapes(M0), typeName, port, l, a, fw, M0[a].isTop, cur, cur');
    UpdateAfter(done, M0[a..], design.modules[a]);
    assert M0[a..][1..] == M0[a + 1..];
    done' := done + [design.modules[a]];
  }

  /** The module loop for one queue entry: buses of modules below the top
      are queued, buses of the top are collected. */
  method SweepDesign(design: Design, typeName: string, port: Wire, l: Lists) returns (l': Lists)
    modifies design
    ensures var r := Sweep(Wiring(old(design.modules), l), typeName, port);
      design.modules == r.mods && l' == r.lists
    ensures design.autoIdx == old(design.autoIdx)
  {
    ghost var M0 := design.modules;
    ghost var done: seq<Module> := [];
    var i := 0;
    l' := l;
    var a := 0;
    while a < |design.modules|
      invariant |design.modules| == |M0|
      invariant SweptSoFar(design.modules, M0, done, typeName, port, l, a, i, l')
      invariant design.autoIdx == old(design.autoIdx)
    {
      done, i, l' := SweepModuleStep(design, typeName, port, l, M0, done, a, i, l');
      a := a + 1;
    }
  }

  /** One iteration of the `while` loop: the queue is copied to a snapshot
      and cleared, and each entry of the snapshot sweeps for the module it
      names. */
  method RunGeneration(design: Design, l: Lists) returns (l': Lists)
    requires OwnersIn(|design.modules|, l.queued)
    modifies design
    ensures Wiring(design.modules, l') == Generation(Wiring(old(design.modules), l))
    ensures design.autoIdx == old(design.autoIdx)
  {
    var snap := l.queued;
    l' := l.(queued := []);
    ghost var w0 := Wiring(design.modules, l');
    var k := 0;
    while k < |snap|
      invariant k <= |snap|
      invariant Wiring(design.modules, l') == GenerationFrom(w0, snap, k)
      invariant design.autoIdx == old(design.autoIdx)
    {
      GenerationStep(w0, snap, k);
      var e := snap[k];
      l' := SweepDesign(design, design.modules[e.owner].name, e.wire, l');
      k := k + 1;
    }
  }

  /** The state of the `while` loop: `b` more generations reach the end
      of the propagation, and every queued entry ranks below `b`. */
  ghost predicate Remaining(w: Wiring, b: nat, rank: seq<nat>, sh: seq<Shape>, target: Wiring)
  {
    && Shapes(w.mods) == sh
    && OwnersIn(|w.mods|, w.lists.queued) && Below(rank, w.lists.queued, b)
    && Propagation(w, b) == target
  }

  /** One generation keeps the state of the loop, with one generation
      fewer to go. */
  lemma RoundKeeps(w: Wiring, g: Wiring, b: nat, rank: seq<nat>, sh: seq<Shape>, target: Wiring) returns (b': nat)
    requires Ranked(sh, rank) && w.lists.queued != [] && Remaining(w, b, rank, sh, target)
    requires g == Generation(w)
    ensures b' < b && Remaining(g, b', rank, sh, target)
  {
    b' := b - 1;
    assert rank[w.lists.queued[0].owner] < b;
    ListsFromBelow(sh, w.lists.(queued := []), w.lists.queued, |w.lists.queued|, rank, b - 1);
    GenerationShapes(w);
    PropagationStep(w, g, b);
  }

  /** One iteration of the `while` loop. */
  method PropagateRound(design: Design, l: Lists, ghost b: nat, ghost rank: seq<nat>, ghost sh: seq<Shape>, ghost target: Wiring)
    returns (l': Lists, ghost b': nat)
    requires Ranked(sh, rank) && l.queued != [] && Remaining(Wiring(design.modules, l), b, rank, sh, target)
    modifies design
    ensures Remaining(Wiring(design.modules, l'), b', rank, sh, target) && b' < b
    ensures design.autoIdx == old(design.autoIdx)
  {
    ghost var w := Wiring(design.modules, l);
    l' := RunGeneration(design, l);
    b' := RoundKeeps(w, Wiring(design.modules, l'), b, rank, sh, target);
  }

  /** The `while` loop: generations run until no entry is left. It ends
      because the instantiation graph has a ranking. */
  method PropagateInputs(design: Design, l: Lists, ghost rank: seq<nat>) returns (l': Lists)
    requires OwnersIn(|design.modules|, l.queued) && Ranked(Shapes(design.modules), rank)
    modifies design
    ensures Wiring(design.modules, l') == Propagation(Wiring(old(design.modules), l), |old(design.modules)|)
    ensures l'.queued == []
    ensures design.autoIdx == old(design.autoIdx)
  {
    ghost var w0 := Wiring(design.modules, l);
    ghost var target := Propagation(w0, |w0.mods|);
    ghost var b: nat := |design.modules|;
    l' := l;
    while l'.queued != []
      invariant Remaining(Wiring(design.modules, l'), b, rank, Shapes(w0.mods), target)
      invariant design.autoIdx == old(design.autoIdx)
      decreases b
    {
      l', b := PropagateRound(design, l', b, rank, Shapes(w0.mods), target);
    }
  }
}
