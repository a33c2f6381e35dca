/** `InputHandler`: splits the command line into `-key value` pairs and
    `!mode` modifiers, and folds the modifiers into a run-mode bit set. */
module InputHandling {
  import opened Wrappers
  import opened Text

  // The `Mode` flags.
  const Validate: bv32 := 0x1
  const Strict: bv32 := 0x2
  const Dump: bv32 := 0x4
  const Combine: bv32 := 0x8
  const Search: bv32 := 0x10
  const Convert: bv32 := 0x20

  /** `GetModeSet`: the mode named by the first of `validate`, `strict`,
      `convert`, `dump`, `search` that occurs in the argument, or 0. */
  function GetModeSet(arg: string): (r: bv32)
    ensures r in {0, Validate, Strict, Convert, Dump, Search}
    ensures r == 0 <==> !Contains(arg, "validate") && !Contains(arg, "strict") && !Contains(arg, "convert")
                        && !Contains(arg, "dump") && !Contains(arg, "search")
    ensures r == Validate <==> Contains(arg, "validate")
    ensures r == Strict <==> !Contains(arg, "validate") && Contains(arg, "strict")
    ensures r == Convert <==> !Contains(arg, "validate") && !Contains(arg, "strict") && Contains(arg, "convert")
    ensures r == Dump <==> !Contains(arg, "validate") && !Contains(arg, "strict") && !Contains(arg, "convert")
                           && Contains(arg, "dump")
  {
    if Contains(arg, "validate") then Validate
    else if Contains(arg, "strict") then Strict
    else if Contains(arg, "convert") then Convert
    else if Contains(arg, "dump") then Dump
    else if Contains(arg, "search") then Search
    else 0
  }

  /** No modifier selects `combine`. */
  lemma GetModeSetNeverCombine(arg: string)
    ensures GetModeSet(arg) & Combine == 0
  {
  }

  /** The union of the modes of a list of modifiers. */
  function ModeOf(modifiers: seq<string>): bv32
    decreases |modifiers|
  {
    if |modifiers| == 0 then 0 else GetModeSet(modifiers[0]) | ModeOf(modifiers[1..])
  }

  /** A union of modes never holds `combine` or an undefined bit. */
  lemma {:induction false} ModeOfKnownBits(modifiers: seq<string>)
    ensures ModeOf(modifiers) & (Combine | 0xFFFF_FFC0) == 0
    decreases |modifiers|
  {
    if |modifiers| != 0 {
      ModeOfKnownBits(modifiers[1..]);
      var m := GetModeSet(modifiers[0]);
      assert m & (Combine | 0xFFFF_FFC0) == 0;
      OrKeepsZeroMask(m, ModeOf(modifiers[1..]), Combine | 0xFFFF_FFC0);
    }
  }

  lemma OrKeepsZeroMask(a: bv32, b: bv32, mask: bv32)
    requires a & mask == 0 && b & mask == 0
    ensures (a | b) & mask == 0
  {
  }

  lemma {:induction false} ModeOfAppend(a: seq<string>, b: seq<string>)
    ensures ModeOf(a + b) == ModeOf(a) | ModeOf(b)
    decreases |a|
  {
    if |a| == 0 {
      assert a + b == b;
      OrZero(ModeOf(b));
    } else {
      assert (a + b)[1..] == a[1..] + b;
      ModeOfAppend(a[1..], b);
      OrAssociative(GetModeSet(a[0]), ModeOf(a[1..]), ModeOf(b));
    }
  }

  lemma OrZero(x: bv32)
    ensures 0 | x == x
  {
  }

  lemma OrAssociative(x: bv32, y: bv32, z: bv32)
    ensures x | (y | z) == (x | y) | z
  {
  }

  /** What the constructor collects. */
  datatype Parsed = Parsed(commandParams: seq<(string, string)>, modifiers: seq<string>)

  /** An argument index past the end of the argument list. */
  datatype ArgumentError = MissingParameter

  /** The constructor's loop from the current argument on: a `-` argument
      takes the next argument as its value, a `!` argument is a modifier,
      anything else is skipped. */
  function ScanArgs(args: seq<string>): (r: Result<Parsed, ArgumentError>)
    ensures r.Success? ==> forall kv :: kv in r.value.commandParams ==> StartsWith(kv.0, "-")
    ensures r.Success? ==> forall m :: m in r.value.modifiers ==> StartsWith(m, "!") && m in args
    decreases |args|
  {
    if |args| == 0 then Success(Parsed([], []))
    else if StartsWith(args[0], "-") then
      if |args| < 2 then Failure(MissingParameter)
      else
        match ScanArgs(args[2..])
        case Failure(e) => Failure(e)
        case Success(rest) =>
          assert forall m :: m in args[2..] ==> m in args;
          Success(rest.(commandParams := [(args[0], args[1])] + rest.commandParams))
    else if StartsWith(args[0], "!") then
      match ScanArgs(args[1..])
      case Failure(e) => Failure(e)
      case Success(rest) =>
        assert forall m :: m in args[1..] ==> m in args;
        Success(rest.(modifiers := [args[0]] + rest.modifiers))
    else
      var r := ScanArgs(args[1..]);
      assert forall m :: m in args[1..] ==> m in args;
      r
  }

  /** Arguments that start with neither `-` nor `!` are skipped: placed in
      front of a command line, they change nothing that is read from it. */
  lemma {:induction false} ScanArgsSkipsStray(strays: seq<string>, args: seq<string>)
    requires forall a :: a in strays ==> !StartsWith(a, "-") && !StartsWith(a, "!")
    ensures ScanArgs(strays + args) == ScanArgs(args)
    decreases |strays|
  {
    if |strays| != 0 {
      var line := strays + args;
      assert strays[0] in strays;
      assert line[0] == strays[0];
      assert line[1..] == strays[1..] + args;
      assert ScanArgs(line) == ScanArgs(line[1..]);
      ScanArgsSkipsStray(strays[1..], args);
    } else {
      assert strays + args == args;
    }
  }

  datatype InputHandler = InputHandler(
    args: seq<string>,
    runMode: bv32,
    commandParams: seq<(string, string)>,
    modifiers: seq<string>)

  /** The `InputHandler` constructor: keeps the arguments as given, pairs
      and modifiers in argument order, and the run mode as the union of the
      modifiers' modes; a `-` argument without a value is an error. */
  function NewInputHandler(input: seq<string>): (r: Result<InputHandler, ArgumentError>)
    ensures r.Success? <==> ScanArgs(input).Success?
    ensures r.Success? ==> r.value.args == input
    ensures r.Success? ==> r.value.commandParams == ScanArgs(input).value.commandParams
    ensures r.Success? ==> r.value.modifiers == ScanArgs(input).value.modifiers
    ensures r.Failure? ==> r.error == ScanArgs(input).error
    ensures r.Success? ==> r.value.runMode == ModeOf(r.value.modifiers)
    ensures r.Success? ==> r.value.runMode & Combine == 0
  {
    match ScanArgs(input)
    case Failure(e) => Failure(e)
    case Success(p) =>
      ModeOfKnownBits(p.modifiers);
      Success(InputHandler(input, ModeOf(p.modifiers), p.commandParams, p.modifiers))
  }

  /** Arguments split where the scan is between items are scanned
      independently: pairs and modifiers of the two parts are concatenated. */
  lemma {:induction false} ScanArgsAppend(a: seq<string>, b: seq<string>)
    requires ScanArgs(a).Success?
    ensures ScanArgs(a + b).Success? <==> ScanArgs(b).Success?
    ensures ScanArgs(a + b).Success? ==>
      ScanArgs(a + b).value == Parsed(ScanArgs(a).value.commandParams + ScanArgs(b).value.commandParams,
                                      ScanArgs(a).value.modifiers + ScanArgs(b).value.modifiers)
    decreases |a|
  {
    if |a| == 0 {
      assert a + b == b;
    } else if StartsWith(a[0], "-") {
      assert (a + b)[0] == a[0] && (a + b)[1] == a[1];
      assert (a + b)[2..] == a[2..] + b;
      ScanArgsAppend(a[2..], b);
    } else {
      assert (a + b)[0] == a[0];
      assert (a + b)[1..] == a[1..] + b;
      ScanArgsAppend(a[1..], b);
    }
  }

  /** A `-key` as the last argument, after a complete command line, has no
      value and is an error. */
  lemma TrailingKeyFails(a: seq<string>, key: string)
    requires ScanArgs(a).Success?
    requires StartsWith(key, "-")
    ensures NewInputHandler(a + [key]).Failure?
  {
    ScanArgsAppend(a, [key]);
  }

  /** The run mode of two command lines given one after the other is the
      union of their run modes. */
  lemma RunModeAppend(a: seq<string>, b: seq<string>)
    requires NewInputHandler(a).Success? && NewInputHandler(b).Success?
    ensures NewInputHandler(a + b).Success?
    ensures NewInputHandler(a + b).value.runMode == NewInputHandler(a).value.runMode | NewInputHandler(b).value.runMode
  {
    ScanArgsAppend(a, b);
    ModeOfAppend(ScanArgs(a).value.modifiers, ScanArgs(b).value.modifiers);
  }

  /** The command line for the given pairs followed by the given
      modifiers. */
  function RenderArgs(commandParams: seq<(string, string)>, modifiers: seq<string>): seq<string>
    decreases |commandParams|
  {
    if |commandParams| == 0 then modifiers
    else [commandParams[0].0, commandParams[0].1] + RenderArgs(commandParams[1..], modifiers)
  }

  /** Pairs whose keys start with `-` and modifiers that start with `!` are
      read back from their command line, whatever the values are. */
  lemma {:induction false} ScanArgsRoundTrip(commandParams: seq<(string, string)>, modifiers: seq<string>)
    requires forall kv :: kv in commandParams ==> StartsWith(kv.0, "-")
    requires forall m :: m in modifiers ==> StartsWith(m, "!")
    ensures ScanArgs(RenderArgs(commandParams, modifiers)) == Success(Parsed(commandParams, modifiers))
    decreases |commandParams| + |modifiers|
  {
    var args := RenderArgs(commandParams, modifiers);
    if |commandParams| != 0 {
      assert commandParams[0] in commandParams;
      assert args[2..] == RenderArgs(commandParams[1..], modifiers);
      ScanArgsRoundTrip(commandParams[1..], modifiers);
      assert [commandParams[0]] + commandParams[1..] == commandParams;
    } else if |modifiers| != 0 {
      assert modifiers[0] in modifiers;
      assert !StartsWith(modifiers[0], "-") by { assert modifiers[0][0] == '!'; }
      assert RenderArgs([], modifiers[1..]) == modifiers[1..];
      ScanArgsRoundTrip([], modifiers[1..]);
      assert [modifiers[0]] + modifiers[1..] == modifiers;
    }
  }
}
