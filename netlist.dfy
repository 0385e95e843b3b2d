/** The abstract netlist the pass works on, standing in for Yosys' RTLIL:
    a design is a sequence of modules; a module has a name, a `top`
    attribute, wires, cells and connections; a cell has a name, a type and
    a binding from port names to signals. A signal (`SigSpec`) is a
    concatenation of chunks, each naming a wire and giving its width; bit
    slices and constants are not distinguished.

    The design is the one mutable object of the pass. Its methods are the
    netlist operations the pass calls (`addWire`, `addCell`, `connect`,
    `setPort`, `addModule`, `NEW_ID`); each one changes exactly one thing,
    described by a pure function on module values. */
module Netlist {
  import opened Ids

  datatype SigChunk = SigChunk(wire: string, width: nat)

  type SigSpec = seq<SigChunk>

  /** `SigSpec::size()`: the number of bits of a signal. */
  function SigWidth(s: SigSpec): nat
  {
    if s == [] then 0 else SigWidth(s[..|s| - 1]) + s[|s| - 1].width
  }

  /** The width of a concatenation is the sum of the widths. */
  lemma {:induction false} SigWidthAppend(a: SigSpec, b: SigSpec)
    ensures SigWidth(a + b) == SigWidth(a) + SigWidth(b)
    decreases |b|
  {
    if b != [] {
      var b' := b[..|b| - 1];
      assert (a + b)[..|a + b| - 1] == a + b';
      SigWidthAppend(a, b');
    } else {
      assert a + b == a;
    }
  }

  datatype Wire = Wire(name: string, width: nat, portInput: bool, portOutput: bool)

  /** The signal that is the whole of one wire. */
  function WireSig(w: Wire): (s: SigSpec)
    ensures SigWidth(s) == w.width
  {
    [SigChunk(w.name, w.width)]
  }

  datatype Cell = Cell(name: string, cellType: string, ports: map<string, SigSpec>)
  {
    /** `setPort`: (re)bind one port. */
    function WithPort(port: string, sig: SigSpec): Cell
    {
      this.(ports := ports[port := sig])
    }
  }

  /** `connect(lhs, rhs)`: `lhs` is driven by `rhs`. */
  datatype Connection = Connection(lhs: SigSpec, rhs: SigSpec)

  datatype Module = Module(name: string, isTop: bool, wires: seq<Wire>, cells: seq<Cell>, connections: seq<Connection>)
  {
    function WithWire(w: Wire): Module
    {
      this.(wires := wires + [w])
    }

    function WithCell(c: Cell): Module
    {
      this.(cells := cells + [c])
    }

    function WithConnection(lhs: SigSpec, rhs: SigSpec): Module
    {
      this.(connections := connections + [Connection(lhs, rhs)])
    }

    function WithCellPort(c: nat, port: string, sig: SigSpec): Module
      requires c < |cells|
    {
      this.(cells := cells[c := cells[c].WithPort(port, sig)])
    }
  }

  /** Replacing a module twice keeps the second replacement. */
  lemma ReplaceTwice(mods: seq<Module>, m: nat, a: Module, b: Module)
    requires m < |mods|
    ensures mods[m := a][m := b] == mods[m := b]
  {
  }

  /** An element of the pass's association lists: a wire together with the
      module (by its position in the design) that owns it. */
  datatype Entry = Entry(owner: nat, wire: Wire)

  /** The netlist being transformed. `autoIdx` is the counter behind
      `NEW_ID`. */
  class Design {
    var modules: seq<Module>
    var autoIdx: nat

    constructor (modules: seq<Module>)
      ensures this.modules == modules && autoIdx == 0
    {
      this.modules := modules;
      autoIdx := 0;
    }

    /** `NEW_ID`: a name no other call returns. */
    method NewId() returns (id: string)
      modifies this
      ensures id == AutoName(old(autoIdx)) && autoIdx == old(autoIdx) + 1
      ensures modules == old(modules)
    {
      id := AutoName(autoIdx);
      autoIdx := autoIdx + 1;
    }

    /** `addWire`. */
    method AddWire(m: nat, w: Wire)
      requires m < |modules|
      modifies this
      ensures modules == old(modules)[m := old(modules)[m].WithWire(w)]
      ensures autoIdx == old(autoIdx)
    {
      modules := modules[m := modules[m].WithWire(w)];
    }

    /** `addCell`. */
    method AddCell(m: nat, c: Cell)
      requires m < |modules|
      modifies this
      ensures modules == old(modules)[m := old(modules)[m].WithCell(c)]
      ensures autoIdx == old(autoIdx)
    {
      modules := modules[m := modules[m].WithCell(c)];
    }

    /** `connect`. */
    method Connect(m: nat, lhs: SigSpec, rhs: SigSpec)
      requires m < |modules|
      modifies this
      ensures modules == old(modules)[m := old(modules)[m].WithConnection(lhs, rhs)]
      ensures autoIdx == old(autoIdx)
    {
      modules := modules[m := modules[m].WithConnection(lhs, rhs)];
    }

    /** `Cell::setPort`. */
    method SetPort(m: nat, c: nat, port: string, sig: SigSpec)
      requires m < |modules| && c < |modules[m].cells|
      modifies this
      ensures modules == old(modules)[m := old(modules)[m].WithCellPort(c, port, sig)]
      ensures autoIdx == old(autoIdx)
    {
      modules := modules[m := modules[m].WithCellPort(c, port, sig)];
    }

    /** `addModule`: the new module goes last. */
    method AddModule(mod: Module) returns (m: nat)
      modifies this
      ensures modules == old(modules) + [mod] && m == |old(modules)|
      ensures autoIdx == old(autoIdx)
    {
      m := |modules|;
      modules := modules + [mod];
    }
  }
}
