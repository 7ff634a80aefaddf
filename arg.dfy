/**
 * The command line parser of src/common/arg.c. The argument vector is a
 * sequence of C strings (no NUL inside); the table of known options is the
 * `named` array, whose entries the parser marks as found and fills with
 * parameters. A `multi_params` array is modelled as a field of its entry.
 */
module Args {
  import opened Wrappers
  import Str

  /** What an option expects after it (the param_needs enumeration). */
  datatype ParamNeeds = ParamNone | ParamOptional | ParamRequired | ParamMulti

  /**
   * struct gramina_argument_info: `isLong` and `isFlag` are the
   * GRAMINA_ARG_LONG and GRAMINA_ARG_FLAG bits of its type.
   */
  datatype ArgInfo = ArgInfo(
    isLong: bool, isFlag: bool, needs: ParamNeeds, flag: char, name: seq<char>,
    found: bool, param: Option<seq<char>>, multiParams: seq<seq<char>>)

  /** The fields of struct gramina_arguments. */
  datatype ArgsState = ArgsState(
    exec: seq<char>, positional: seq<seq<char>>, named: seq<ArgInfo>,
    suffixArgs: seq<seq<char>>, error: seq<char>)

  /** True when the C string starts with a dash. */
  predicate DashFirst(s: seq<char>) { |s| > 0 && s[0] == '-' }

  /** find_named: the first entry with the LONG bit whose name is the wanted one. */
  function FindNamedIn(named: seq<ArgInfo>, wanted: seq<char>): (r: Option<nat>)
    ensures r.Some? ==> r.value < |named| && named[r.value].isLong && named[r.value].name == wanted
    ensures r.Some? ==> forall m :: 0 <= m < r.value ==> !(named[m].isLong && named[m].name == wanted)
    ensures r.None? ==> forall m :: 0 <= m < |named| ==> !(named[m].isLong && named[m].name == wanted)
  {
    if |named| == 0 then None
    else if named[0].isLong && named[0].name == wanted then Some(0)
    else match FindNamedIn(named[1..], wanted)
      case None => None
      case Some(j) => Some(j + 1)
  }

  /** find_flag: the first entry with the FLAG bit whose flag is the wanted character. */
  function FindFlagIn(named: seq<ArgInfo>, wanted: char): (r: Option<nat>)
    ensures r.Some? ==> r.value < |named| && named[r.value].isFlag && named[r.value].flag == wanted
    ensures r.Some? ==> forall m :: 0 <= m < r.value ==> !(named[m].isFlag && named[m].flag == wanted)
    ensures r.None? ==> forall m :: 0 <= m < |named| ==> !(named[m].isFlag && named[m].flag == wanted)
  {
    if |named| == 0 then None
    else if named[0].isFlag && named[0].flag == wanted then Some(0)
    else match FindFlagIn(named[1..], wanted)
      case None => None
      case Some(j) => Some(j + 1)
  }

  /** How far a parse has got: still going at index i, stopped with an error, or finished early at "--". */
  datatype Kind = Going | Failed | Finished
  datatype Progress = Progress(kind: Kind, st: ArgsState, i: nat)

  /** The name an error message gives an option: its long name, or else its flag character. */
  function DisplayName(info: ArgInfo): seq<char>
  {
    if info.isLong then info.name else [info.flag]
  }

  function RequiresParameter(info: ArgInfo): seq<char>
  {
    "Argument '" + DisplayName(info) + "' requires a parameter"
  }

  /**
   * populate_arg for the entry k, met at index i: the next argument is its
   * parameter unless there is none, the entry takes none, or the next one
   * starts with a dash; a REQUIRED (or, before a dash, MULTI) entry without
   * a parameter is an error.
   */
  function PopulateArg(st: ArgsState, argv: seq<seq<char>>, i: nat, k: nat): (p: Progress)
    requires i < |argv| && k < |st.named|
    ensures p.kind != Finished && (p.kind == Going ==> p.i == i || (p.i == i + 1 && p.i < |argv|))
    ensures p.kind == Failed <==> (st.named[k].needs == ParamRequired && (i + 1 >= |argv| || DashFirst(argv[i + 1])))
                                  || (st.named[k].needs == ParamMulti && i + 1 < |argv| && DashFirst(argv[i + 1]))
    ensures p.kind == Failed ==> p.st == st.(error := RequiresParameter(st.named[k]))
    ensures p.kind == Going && p.i == i ==> p.st == st
    ensures |p.st.named| == |st.named|
    ensures p.kind == Going && p.i == i + 1 ==>
      st.named[k].needs != ParamNone && !DashFirst(argv[i + 1]) &&
      p.st.named[k].param == (if st.named[k].needs == ParamMulti then st.named[k].param else Some(argv[i + 1])) &&
      p.st.named[k].multiParams == st.named[k].multiParams + (if st.named[k].needs == ParamMulti then [argv[i + 1]] else [])
  {
    var info := st.named[k];
    if info.needs == ParamNone || i + 1 >= |argv| then
      if info.needs == ParamRequired then Progress(Failed, st.(error := RequiresParameter(info)), i)
      else Progress(Going, st, i)
    else if !DashFirst(argv[i + 1]) then
      var info' := if info.needs != ParamMulti then info.(param := Some(argv[i + 1]))
                   else info.(multiParams := info.multiParams + [argv[i + 1]]);
      Progress(Going, st.(named := st.named[k := info']), i + 1)
    else if info.needs == ParamRequired || info.needs == ParamMulti then
      Progress(Failed, st.(error := RequiresParameter(info)), i)
    else Progress(Going, st, i)
  }

  /** Marks entry k as found. */
  function MarkFound(st: ArgsState, k: nat): ArgsState
    requires k < |st.named|
  {
    st.(named := st.named[k := st.named[k].(found := true)])
  }

  /**
   * The flags of one "-abc" argument from position j on: each must be known
   * and is marked found; only the last may take a parameter.
   */
  function Flags(st: ArgsState, argv: seq<seq<char>>, i: nat, flags: seq<char>, j: nat): (p: Progress)
    requires i < |argv| && j < |flags|
    ensures p.kind != Finished && (p.kind == Going ==> p.i == i || (p.i == i + 1 && p.i < |argv|))
    ensures |p.st.named| == |st.named|
    decreases |flags| - j
  {
    match FindFlagIn(st.named, flags[j])
    case None => Progress(Failed, st.(error := "Unknown flag '" + [flags[j]] + "'"), i)
    case Some(k) =>
      var st1 := MarkFound(st, k);
      if j + 1 == |flags| then PopulateArg(st1, argv, i, k)
      else Flags(st1, argv, i, flags, j + 1)
  }

  /** One pass of the loop body of args_parse, on the argument at index i. */
  function Step(st: ArgsState, argv: seq<seq<char>>, i: nat): (p: Progress)
    requires i < |argv|
    ensures p.kind == Going ==> p.i == i || (p.i == i + 1 && p.i < |argv|)
    ensures |p.st.named| == |st.named|
  {
    var cur := argv[i];
    if cur == "--" then
      Progress(Finished, st.(suffixArgs := st.suffixArgs + argv[i + 1..]), i)
    else if |cur| >= 2 && cur[0] == '-' && cur[1] == '-' then
      var longArg := cur[2..];
      match FindNamedIn(st.named, longArg)
      case None => Progress(Failed, st.(error := "Unknown argument '" + longArg + "'"), i)
      case Some(k) => PopulateArg(MarkFound(st, k), argv, i, k)
    else if DashFirst(cur) then
      if |cur| == 1 then Progress(Failed, st.(error := "Trailing '-'"), i)
      else Flags(st, argv, i, cur[1..], 0)
    else
      Progress(Going, st.(positional := st.positional + [cur]), i)
  }

  /** The loop of args_parse from index i on: whether an error occurred, and the final state. */
  function ParseFrom(st: ArgsState, argv: seq<seq<char>>, i: nat): (bool, ArgsState)
    decreases |argv| - i
  {
    if i >= |argv| then (false, st)
    else
      var p := Step(st, argv, i);
      match p.kind
      case Failed => (true, p.st)
      case Finished => (false, p.st)
      case Going => ParseFrom(p.st, argv, p.i + 1)
  }

  /** args_parse: an empty vector is an error with no message; argv[0] is the program. */
  function Parse(st: ArgsState, argv: seq<seq<char>>): (bool, ArgsState)
  {
    if |argv| == 0 then (true, st) else ParseFrom(st.(exec := argv[0]), argv, 1)
  }

  /** struct gramina_arguments as the parser updates it in place. */
  class Arguments {
    var exec: seq<char>
    var positional: seq<seq<char>>
    var named: seq<ArgInfo>
    var suffixArgs: seq<seq<char>>
    var error: seq<char>

    function State(): ArgsState
      reads this
    {
      ArgsState(exec, positional, named, suffixArgs, error)
    }

    /** Arguments with a table of known options and nothing parsed yet. */
    constructor (named: seq<ArgInfo>)
      ensures State() == ArgsState([], [], named, [], [])
    {
      exec := [];
      positional := [];
      this.named := named;
      suffixArgs := [];
      error := [];
    }

    method SetState(s: ArgsState)
      modifies this
      ensures State() == s
    {
      exec, positional, named, suffixArgs, error := s.exec, s.positional, s.named, s.suffixArgs, s.error;
    }

    /** find_named, as the scan over the table. */
    method FindNamed(wanted: seq<char>) returns (r: Option<nat>)
      ensures r == FindNamedIn(named, wanted)
    {
      var k := 0;
      while k < |named|
        invariant 0 <= k <= |named|
        invariant forall m :: 0 <= m < k ==> !(named[m].isLong && named[m].name == wanted)
      {
        if named[k].isLong {
          var c := Str.SvCmp(wanted, named[k].name);
          if c == 0 {
            FirstNamed(named, wanted, k);
            return Some(k);
          }
        }
        k := k + 1;
      }
      NoNamed(named, wanted);
      return None;
    }

    /** find_flag, as the scan over the table. */
    method FindFlag(wanted: char) returns (r: Option<nat>)
      ensures r == FindFlagIn(named, wanted)
    {
      var k := 0;
      while k < |named|
        invariant 0 <= k <= |named|
        invariant forall m :: 0 <= m < k ==> !(named[m].isFlag && named[m].flag == wanted)
      {
        if named[k].isFlag && named[k].flag == wanted {
          FirstFlag(named, wanted, k);
          return Some(k);
        }
        k := k + 1;
      }
      NoFlag(named, wanted);
      return None;
    }

    /** populate_arg, updating the entry and the error in place. */
    method PopulateArgument(argv: seq<seq<char>>, i: nat, k: nat) returns (failed: bool, next: nat)
      requires i < |argv| && k < |named|
      modifies this
      ensures var p := PopulateArg(old(State()), argv, i, k);
              (failed <==> p.kind == Failed) && State() == p.st && (!failed ==> next == p.i)
    {
      var info := named[k];
      if info.needs == ParamNone || i + 1 >= |argv| {
        if info.needs == ParamRequired {
          error := RequiresParameter(info);
          return true, i;
        }
        return false, i;
      }
      var potential := argv[i + 1];
      if !DashFirst(potential) {
        if info.needs != ParamMulti {
          named := named[k := info.(param := Some(potential))];
        } else {
          named := named[k := info.(multiParams := info.multiParams + [potential])];
        }
        return false, i + 1;
      } else if info.needs == ParamRequired || info.needs == ParamMulti {
        error := RequiresParameter(info);
        return true, i;
      }
      return false, i;
    }

    /** The flag loop of args_parse over one "-abc" argument. */
    method ParseFlags(argv: seq<seq<char>>, i: nat, flags: seq<char>) returns (failed: bool, next: nat)
      requires i < |argv| && |flags| > 0
      modifies this
      ensures var p := Flags(old(State()), argv, i, flags, 0);
              (failed <==> p.kind == Failed) && State() == p.st && (!failed ==> next == p.i)
    {
      var j := 0;
      while j < |flags|
        invariant 0 <= j < |flags|
        invariant Flags(State(), argv, i, flags, j) == Flags(old(State()), argv, i, flags, 0)
        decreases |flags| - j
      {
        var k := FindFlag(flags[j]);
        if k.None? {
          error := "Unknown flag '" + [flags[j]] + "'";
          return true, i;
        }
        named := named[k.value := named[k.value].(found := true)];
        if j + 1 == |flags| {
          failed, next := PopulateArgument(argv, i, k.value);
          return;
        }
        j := j + 1;
      }
      assert false;
    }

    /** One pass of the loop body of args_parse. */
    method ParseOne(argv: seq<seq<char>>, i: nat) returns (p: Progress)
      requires i < |argv|
      modifies this
      ensures p.kind == Step(old(State()), argv, i).kind && State() == Step(old(State()), argv, i).st
      ensures p.kind == Going ==> p.i == Step(old(State()), argv, i).i
      ensures p.st == State()
    {
      var current := argv[i];
      if current == "--" {
        suffixArgs := suffixArgs + argv[i + 1..];
        return Progress(Finished, State(), i);
      }
      if |current| >= 2 && current[0] == '-' && current[1] == '-' {
        var longArg := current[2..];
        var k := FindNamed(longArg);
        if k.None? {
          error := "Unknown argument '" + longArg + "'";
          return Progress(Failed, State(), i);
        }
        named := named[k.value := named[k.value].(found := true)];
        var failed, next := PopulateArgument(argv, i, k.value);
        return Progress(if failed then Failed else Going, State(), next);
      }
      if DashFirst(current) {
        if |current| == 1 {
          error := "Trailing '-'";
          return Progress(Failed, State(), i);
        }
        var failed, next := ParseFlags(argv, i, current[1..]);
        return Progress(if failed then Failed else Going, State(), next);
      }
      positional := positional + [current];
      return Progress(Going, State(), i);
    }

    /** args_parse: returns whether an error occurred. */
    method ParseArgs(argv: seq<seq<char>>) returns (failed: bool)
      modifies this
      ensures (failed, State()) == Parse(old(State()), argv)
    {
      if |argv| == 0 {
        return true;
      }
      exec := argv[0];
      var i := 1;
      while i < |argv|
        invariant 1 <= i
        invariant ParseFrom(State(), argv, i) == Parse(old(State()), argv)
        decreases |argv| - i
      {
        var p := ParseOne(argv, i);
        if p.kind == Failed {
          return true;
        }
        if p.kind == Finished {
          return false;
        }
        i := p.i + 1;
      }
      return false;
    }

    /** args_free: the three arrays and the error are released. */
    method Free()
      modifies this
      ensures named == [] && positional == [] && suffixArgs == [] && error == [] && exec == old(exec)
    {
      named := [];
      positional := [];
      suffixArgs := [];
      error := [];
    }
  }

  lemma FirstNamed(named: seq<ArgInfo>, wanted: seq<char>, k: nat)
    requires k < |named| && named[k].isLong && named[k].name == wanted
    requires forall m :: 0 <= m < k ==> !(named[m].isLong && named[m].name == wanted)
    ensures FindNamedIn(named, wanted) == Some(k)
  {
  }

  lemma NoNamed(named: seq<ArgInfo>, wanted: seq<char>)
    requires forall m :: 0 <= m < |named| ==> !(named[m].isLong && named[m].name == wanted)
    ensures FindNamedIn(named, wanted) == None
  {
  }

  lemma FirstFlag(named: seq<ArgInfo>, wanted: char, k: nat)
    requires k < |named| && named[k].isFlag && named[k].flag == wanted
    requires forall m :: 0 <= m < k ==> !(named[m].isFlag && named[m].flag == wanted)
    ensures FindFlagIn(named, wanted) == Some(k)
  {
  }

  lemma NoFlag(named: seq<ArgInfo>, wanted: char)
    requires forall m :: 0 <= m < |named| ==> !(named[m].isFlag && named[m].flag == wanted)
    ensures FindFlagIn(named, wanted) == None
  {
  }

  // ----- properties of the parse -----

  /** Arguments that do not start with a dash are positional, kept in order, and never an error. */
  lemma {:induction false} PlainArgumentsArePositional(st: ArgsState, argv: seq<seq<char>>, i: nat)
    requires i <= |argv|
    requires forall k :: i <= k < |argv| ==> !DashFirst(argv[k])
    ensures ParseFrom(st, argv, i) == (false, st.(positional := st.positional + argv[i..]))
    decreases |argv| - i
  {
    if i >= |argv| {
      assert argv[i..] == [];
      assert st.(positional := st.positional + []) == st;
    } else {
      var cur := argv[i];
      assert cur != "--";
      PlainArgumentsArePositional(st.(positional := st.positional + [cur]), argv, i + 1);
      assert argv[i..] == [cur] + argv[i + 1..];
      assert st.positional + [cur] + argv[i + 1..] == st.positional + argv[i..];
    }
  }

  /** "--" ends option parsing: everything after it becomes a suffix argument, verbatim. */
  lemma DoubleDashEndsOptions(st: ArgsState, argv: seq<seq<char>>, i: nat)
    requires i < |argv| && argv[i] == "--"
    ensures ParseFrom(st, argv, i) == (false, st.(suffixArgs := st.suffixArgs + argv[i + 1..]))
  {
  }

  /** A parse that reaches an error always leaves a message, and never loses or adds table entries. */
  lemma {:induction false} FailureLeavesMessage(st: ArgsState, argv: seq<seq<char>>, i: nat)
    ensures |ParseFrom(st, argv, i).1.named| == |st.named|
    ensures ParseFrom(st, argv, i).0 ==> |ParseFrom(st, argv, i).1.error| > 0
    decreases |argv| - i
  {
    if i < |argv| {
      var p := Step(st, argv, i);
      if p.kind == Going {
        FailureLeavesMessage(p.st, argv, p.i + 1);
      } else if p.kind == Failed {
        StepFailureHasMessage(st, argv, i);
      }
    }
  }

  lemma StepFailureHasMessage(st: ArgsState, argv: seq<seq<char>>, i: nat)
    requires i < |argv| && Step(st, argv, i).kind == Failed
    ensures |Step(st, argv, i).st.error| > 0
  {
    var cur := argv[i];
    if !(cur == "--") && !(|cur| >= 2 && cur[0] == '-' && cur[1] == '-') && DashFirst(cur) && |cur| > 1 {
      FlagsFailureHasMessage(st, argv, i, cur[1..], 0);
    }
  }

  lemma {:induction false} FlagsFailureHasMessage(st: ArgsState, argv: seq<seq<char>>, i: nat, flags: seq<char>, j: nat)
    requires i < |argv| && j < |flags| && Flags(st, argv, i, flags, j).kind == Failed
    ensures |Flags(st, argv, i, flags, j).st.error| > 0
    decreases |flags| - j
  {
    match FindFlagIn(st.named, flags[j])
    case None =>
    case Some(k) =>
      if j + 1 < |flags| {
        FlagsFailureHasMessage(MarkFound(st, k), argv, i, flags, j + 1);
      }
  }

  /** A long option that requires a parameter and comes last is reported by its name. */
  lemma MissingParameterIsReported(st: ArgsState, prog: seq<char>, name: seq<char>)
    requires name != []
    requires |st.named| == 1 && st.named[0].isLong && st.named[0].name == name && st.named[0].needs == ParamRequired
    ensures Parse(st, [prog, "--" + name]) ==
      (true, st.(exec := prog, named := [st.named[0].(found := true)],
                 error := "Argument '" + name + "' requires a parameter"))
  {
    var argv: seq<seq<char>> := [prog, "--" + name];
    assert argv[1][2..] == name;
    assert argv[1] != "--";
    var st1 := st.(exec := prog);
    assert FindNamedIn(st1.named, name) == Some(0);
    assert st1.named[0 := st1.named[0].(found := true)] == [st.named[0].(found := true)];
  }
}
