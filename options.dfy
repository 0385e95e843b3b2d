/** The option loop of the `addFi` command (`execute`): flags are consumed
    from position 1 (position 0 is the command name) until the first
    argument that is not one of them; what remains is handed to the
    selection parser. */
module Options {
  import opened Wrappers

  datatype Options = Options(addInput: bool, injectFf: bool, injectComb: bool, fiType: string)

  /** The configuration before any flag is read; the gate type is empty
      until `-type` sets it. */
  const Initial: Options := Options(true, true, true, "")

  /** The options and the index of the first argument not consumed. */
  datatype Parsed = Parsed(opts: Options, argidx: nat)

  /** The one command error: `-type` as the last argument. */
  datatype ParseError = TypeNeedsArgument

  predicate IsOption(arg: string)
  {
    arg == "-no-ff" || arg == "-no-comb" || arg == "-no-add-input" || arg == "-type"
  }

  /** The effect of the three argument-less flags. */
  function ClearFlag(o: Options, flag: string): Options
  {
    if flag == "-no-ff" then o.(injectFf := false)
    else if flag == "-no-comb" then o.(injectComb := false)
    else if flag == "-no-add-input" then o.(addInput := false)
    else o
  }

  /** The loop from position `argidx` on, starting from options `o`. It
      only moves forward, never past the end of the arguments, and stops
      on an argument that is not an option. */
  function ParseFrom(args: seq<string>, argidx: nat, o: Options): (r: Result<Parsed, ParseError>)
    ensures r.Ok? ==> argidx <= r.value.argidx && (argidx <= |args| ==> r.value.argidx <= |args|)
    ensures r.Ok? && r.value.argidx < |args| ==> !IsOption(args[r.value.argidx])
    decreases |args| - argidx
  {
    if argidx >= |args| then Ok(Parsed(o, argidx))
    else if args[argidx] == "-no-ff" || args[argidx] == "-no-comb" || args[argidx] == "-no-add-input" then
      ParseFrom(args, argidx + 1, ClearFlag(o, args[argidx]))
    else if args[argidx] == "-type" then
      if argidx + 1 >= |args| then Err(TypeNeedsArgument)
      else ParseFrom(args, argidx + 2, o.(fiType := args[argidx + 1]))
    else Ok(Parsed(o, argidx))
  }

  /** After the loop an empty gate type becomes `xor`. */
  function WithDefaultType(p: Parsed): (p': Parsed)
    ensures p.opts.fiType == "" ==> p'.opts.fiType == "xor"
    ensures p'.opts.fiType != ""
    ensures p'.argidx == p.argidx
    ensures p'.opts == p.opts.(fiType := p'.opts.fiType)
    ensures p.opts.fiType != "" ==> p' == p
  {
    if p.opts.fiType == "" then p.(opts := p.opts.(fiType := "xor")) else p
  }

  function Parse(args: seq<string>): Result<Parsed, ParseError>
  {
    match ParseFrom(args, 1, Initial)
    case Err(e) => Err(e)
    case Ok(p) => Ok(WithDefaultType(p))
  }

  /** The option loop of `execute`, with its `argidx` counter. */
  method ParseOptions(args: seq<string>) returns (r: Result<Parsed, ParseError>)
    ensures r == Parse(args)
  {
    var addInput, injectFf, injectComb := true, true, true;
    var fiType := "";
    var argidx: nat := 1;
    while argidx < |args|
      invariant 1 <= argidx
      invariant ParseFrom(args, argidx, Options(addInput, injectFf, injectComb, fiType)) == ParseFrom(args, 1, Initial)
      decreases |args| - argidx
    {
      var arg := args[argidx];
      if arg == "-no-ff" {
        injectFf := false;
        argidx := argidx + 1;
        continue;
      }
      if arg == "-no-comb" {
        injectComb := false;
        argidx := argidx + 1;
        continue;
      }
      if arg == "-no-add-input" {
        addInput := false;
        argidx := argidx + 1;
        continue;
      }
      if arg == "-type" {
        argidx := argidx + 1;
        if argidx >= |args| {
          return Err(TypeNeedsArgument);
        }
        fiType := args[argidx];
        argidx := argidx + 1;
        continue;
      }
      break;
    }
    if fiType == "" {
      fiType := "xor";
    }
    r := Ok(Parsed(Options(addInput, injectFf, injectComb, fiType), argidx));
  }

  /** Parsing stops at the first argument that is not an option: the
      remaining arguments start with a non-option, and every non-option
      before them was the value of a `-type`. */
  lemma {:induction false} ParseFromStops(args: seq<string>, i: nat, o: Options)
    requires ParseFrom(args, i, o).Ok?
    ensures var p := ParseFrom(args, i, o).value;
      && i <= p.argidx
      && (p.argidx < |args| ==> !IsOption(args[p.argidx]))
      && (forall q :: i <= q < p.argidx && q < |args| && !IsOption(args[q]) ==> i < q && args[q - 1] == "-type")
    decreases |args| - i
  {
    if i < |args| {
      if args[i] == "-no-ff" || args[i] == "-no-comb" || args[i] == "-no-add-input" {
        ParseFromStops(args, i + 1, ClearFlag(o, args[i]));
      } else if args[i] == "-type" {
        ParseFromStops(args, i + 2, o.(fiType := args[i + 1]));
      }
    }
  }

  lemma ParseStops(args: seq<string>)
    requires Parse(args).Ok?
    ensures var p := Parse(args).value;
      && 1 <= p.argidx
      && (p.argidx < |args| ==> !IsOption(args[p.argidx]))
      && (forall q :: 1 <= q < p.argidx && q < |args| && !IsOption(args[q]) ==> 1 < q && args[q - 1] == "-type")
  {
    ParseFromStops(args, 1, Initial);
  }

  /** The only error is a `-type` in the last position. */
  lemma {:induction false} ParseFromErrorIsDanglingType(args: seq<string>, i: nat, o: Options)
    requires ParseFrom(args, i, o).Err?
    ensures i < |args| && args[|args| - 1] == "-type"
    decreases |args| - i
  {
    if args[i] == "-no-ff" || args[i] == "-no-comb" || args[i] == "-no-add-input" {
      ParseFromErrorIsDanglingType(args, i + 1, ClearFlag(o, args[i]));
    } else if i + 1 < |args| {
      ParseFromErrorIsDanglingType(args, i + 2, o.(fiType := args[i + 1]));
    }
  }

  lemma ParseErrorIsDanglingType(args: seq<string>)
    requires Parse(args).Err?
    ensures 2 <= |args| && args[|args| - 1] == "-type"
  {
    ParseFromErrorIsDanglingType(args, 1, Initial);
  }

  /** Conversely, a `-type` appended to a fully consumed argument list has
      no value and is an error. */
  lemma {:induction false} ParseFromTrailingType(args: seq<string>, i: nat, o: Options)
    requires ParseFrom(args, i, o).Ok? && ParseFrom(args, i, o).value.argidx == |args|
    ensures ParseFrom(args + ["-type"], i, o) == Err(TypeNeedsArgument)
    decreases |args| - i
  {
    var args' := args + ["-type"];
    if i < |args| {
      assert args'[i] == args[i];
      if args[i] == "-no-ff" || args[i] == "-no-comb" || args[i] == "-no-add-input" {
        ParseFromTrailingType(args, i + 1, ClearFlag(o, args[i]));
      } else {
        assert args'[i + 1] == args[i + 1];
        ParseFromTrailingType(args, i + 2, o.(fiType := args[i + 1]));
      }
    }
  }

  lemma ParseTrailingType(args: seq<string>)
    requires 1 <= |args| && Parse(args).Ok? && Parse(args).value.argidx == |args|
    ensures Parse(args + ["-type"]) == Err(TypeNeedsArgument)
  {
    ParseFromTrailingType(args, 1, Initial);
  }

  /** `args` with `extra` inserted right after the command name. */
  function Insert(args: seq<string>, extra: seq<string>): (r: seq<string>)
    requires 1 <= |args|
    ensures |r| == |args| + |extra| && r[0] == args[0]
    ensures forall k :: 0 <= k < |extra| ==> r[1 + k] == extra[k]
    ensures forall k :: 1 <= k < |args| ==> r[k + |extra|] == args[k]
  {
    args[..1] + extra + args[1..]
  }

  function Shift(r: Result<Parsed, ParseError>, d: nat): Result<Parsed, ParseError>
  {
    match r
    case Err(e) => Err(e)
    case Ok(p) => Ok(p.(argidx := p.argidx + d))
  }

  /** Inserted arguments only move the rest of the parse along. */
  lemma {:induction false} ParseFromShift(args: seq<string>, extra: seq<string>, i: nat, o: Options)
    requires 1 <= i && 1 <= |args|
    ensures ParseFrom(Insert(args, extra), i + |extra|, o) == Shift(ParseFrom(args, i, o), |extra|)
    decreases |args| - i
  {
    var args' := Insert(args, extra);
    if i < |args| {
      assert args'[i + |extra|] == args[i];
      if args[i] == "-no-ff" || args[i] == "-no-comb" || args[i] == "-no-add-input" {
        ParseFromShift(args, extra, i + 1, ClearFlag(o, args[i]));
      } else if args[i] == "-type" && i + 1 < |args| {
        assert args'[i + 1 + |extra|] == args[i + 1];
        ParseFromShift(args, extra, i + 2, o.(fiType := args[i + 1]));
      }
    }
  }

  function MapOpts(r: Result<Parsed, ParseError>, flag: string): Result<Parsed, ParseError>
  {
    match r
    case Err(e) => Err(e)
    case Ok(p) => Ok(p.(opts := ClearFlag(p.opts, flag)))
  }

  /** Clearing a flag commutes with the rest of the loop, because no option
      ever sets a flag again. */
  lemma {:induction false} ParseFromClearCommutes(args: seq<string>, i: nat, o: Options, flag: string)
    ensures ParseFrom(args, i, ClearFlag(o, flag)) == MapOpts(ParseFrom(args, i, o), flag)
    decreases |args| - i
  {
    if i < |args| {
      if args[i] == "-no-ff" || args[i] == "-no-comb" || args[i] == "-no-add-input" {
        assert ClearFlag(ClearFlag(o, flag), args[i]) == ClearFlag(ClearFlag(o, args[i]), flag);
        ParseFromClearCommutes(args, i + 1, ClearFlag(o, args[i]), flag);
      } else if args[i] == "-type" && i + 1 < |args| {
        assert ClearFlag(o, flag).(fiType := args[i + 1]) == ClearFlag(o.(fiType := args[i + 1]), flag);
        ParseFromClearCommutes(args, i + 2, o.(fiType := args[i + 1]), flag);
      }
    }
  }

  /** `-no-ff`, `-no-comb` and `-no-add-input` each clear their own flag and
      change nothing else: giving one of them first gives the result
      without it, with that one flag cleared. */
  lemma FlagClearsOnlyItself(args: seq<string>, flag: string)
    requires 1 <= |args|
    requires flag == "-no-ff" || flag == "-no-comb" || flag == "-no-add-input"
    ensures Parse(Insert(args, [flag])) == Shift(MapOpts(Parse(args), flag), 1)
  {
    var args' := Insert(args, [flag]);
    assert args'[1] == flag;
    assert ParseFrom(args', 1, Initial) == ParseFrom(args', 2, ClearFlag(Initial, flag));
    ParseFromShift(args, [flag], 1, ClearFlag(Initial, flag));
    ParseFromClearCommutes(args, 1, Initial, flag);
  }

  /** Without a `-type` the loop cannot fail and keeps the gate type. */
  lemma {:induction false} ParseFromNoType(args: seq<string>, i: nat, o: Options)
    requires forall k :: i <= k < |args| ==> args[k] != "-type"
    ensures ParseFrom(args, i, o).Ok? && ParseFrom(args, i, o).value.opts.fiType == o.fiType
    decreases |args| - i
  {
    if i < |args| && (args[i] == "-no-ff" || args[i] == "-no-comb" || args[i] == "-no-add-input") {
      ParseFromNoType(args, i + 1, ClearFlag(o, args[i]));
    }
  }

  /** The gate type is `xor` when no `-type` was given. */
  lemma DefaultTypeIsXor(args: seq<string>)
    requires forall k :: 1 <= k < |args| ==> args[k] != "-type"
    ensures Parse(args).Ok? && Parse(args).value.opts.fiType == "xor"
  {
    ParseFromNoType(args, 1, Initial);
  }

  /** `-type t`, given once, selects `t`. */
  lemma TypeSelects(args: seq<string>, t: string)
    requires 1 <= |args| && t != ""
    requires forall k :: 1 <= k < |args| ==> args[k] != "-type"
    ensures Parse(Insert(args, ["-type", t])).Ok?
    ensures Parse(Insert(args, ["-type", t])).value.opts.fiType == t
  {
    var args' := Insert(args, ["-type", t]);
    assert args'[1] == "-type" && args'[2] == t;
    assert ParseFrom(args', 1, Initial) == ParseFrom(args', 3, Initial.(fiType := t));
    ParseFromShift(args, ["-type", t], 1, Initial.(fiType := t));
    ParseFromNoType(args, 1, Initial.(fiType := t));
  }
}
