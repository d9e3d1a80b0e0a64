/** The arguments forwarded to a child linker: dispatch tokens dropped, response files expanded for
    the linkers that share their grammar, then the linker's own flags stripped. */
module Forwarding {
  import opened Wrappers
  import opened CommandLine
  import opened ResponseFiles
  import opened StripFlags

  datatype Format = Elf | MinGw | Coff | MachO

  datatype Engine = Engine(native: bool, format: Format)
  {
    /** Its response files have the grammar this linker expands. */
    predicate Expands() {
      !native && (format == Elf || format == MinGw)
    }
  }

  const ENGINE_FLAG_PREFIX := "--engine="

  predicate IsEngineFlag(arg: OsString) {
    arg.Text? && StartsWith(arg.text, ENGINE_FLAG_PREFIX)
  }

  predicate IsMinGwNoise(arg: OsString) {
    arg == Text("--allow-shlib-undefined")
  }

  /** `argv` without the program and a leading `-flavor` pair. */
  function AfterFlavor(argv: seq<OsString>): seq<OsString> {
    if |argv| <= 1 then []
    else if argv[1] != Text("-flavor") then argv[1..]
    else if |argv| == 2 then []
    else argv[3..]
  }

  function Dispatched(argv: seq<OsString>): seq<OsString> {
    Filter(arg => !IsEngineFlag(arg), AfterFlavor(argv))
  }

  /** `Vec::retain`. */
  method Retain(keep: OsString -> bool, args: seq<OsString>) returns (r: seq<OsString>)
    ensures r == Filter(keep, args)
  {
    r := [];
    assert args[..0] == [];
    for i := 0 to |args|
      invariant r == Filter(keep, args[..i])
    {
      assert args[..i + 1] == args[..i] + [args[i]];
      FilterAppend(keep, args[..i], [args[i]]);
      FilterOne(keep, args[i]);
      if keep(args[i]) {
        r := r + [args[i]];
      }
    }
    assert args[..|args|] == args;
  }

  lemma {:induction false} FilterOne(keep: OsString -> bool, arg: OsString)
    ensures Filter(keep, [arg]) == if keep(arg) then [arg] else []
  {
  }

  /** `drop_reld_dispatch_tokens`. */
  method DropReldDispatchTokens(argv: seq<OsString>) returns (rest: seq<OsString>)
    ensures rest == Dispatched(argv)
  {
    rest := if argv == [] then [] else argv[1..];
    if rest != [] && rest[0] == Text("-flavor") {
      var drop := if |rest| < 2 then |rest| else 2;
      rest := rest[drop..];
    }
    assert rest == AfterFlavor(argv);
    rest := Retain(arg => !IsEngineFlag(arg), rest);
  }

  /** The list that `strip_reld_only_flags` is given. */
  function BeforeStripping(files: FileMap, argv: seq<OsString>, engine: Engine): Result<seq<OsString>, ExpandError> {
    if !engine.Expands() then Ok(Dispatched(argv))
    else
      match Expanded(files, Dispatched(argv), 0)
      case Err(e) => Err(e)
      case Ok(list) => Ok(if engine.format == MinGw then Filter(arg => !IsMinGwNoise(arg), list) else list)
  }

  datatype Forwarded = Forwarded(args: seq<OsString>, dropped: seq<string>)

  /** `forwarded_args_for_engine`. */
  method ForwardedArgsForEngine(files: FileMap, argv: seq<OsString>, engine: Engine)
    returns (r: Result<Forwarded, ExpandError>)
    ensures r == Outcome(files, argv, engine)
  {
    var tokens := DropReldDispatchTokens(argv);
    if engine.Expands() {
      var expanded := ExpandAndStripDriverLto(files, tokens, 0);
      if expanded.Err? {
        return Err(expanded.error);
      }
      var list := expanded.value;
      if engine.format == MinGw {
        list := Retain(arg => !IsMinGwNoise(arg), list);
      }
      var out, dropped := StripReldOnlyFlags(list);
      return Ok(Forwarded(out, dropped));
    }
    var out, dropped := StripReldOnlyFlags(tokens);
    return Ok(Forwarded(out, dropped));
  }

  function Outcome(files: FileMap, argv: seq<OsString>, engine: Engine): Result<Forwarded, ExpandError> {
    match BeforeStripping(files, argv, engine)
    case Err(e) => Err(e)
    case Ok(list) => Ok(Forwarded(Kept(Division(list)), Dropped(Division(list))))
  }

  /** How much goes from the head of the process arguments: the program, and with it a `-flavor` right
      behind and whatever follows that. */
  lemma {:induction false} HeadIsDropped(argv: seq<OsString>)
    ensures |argv| <= 1 ==> AfterFlavor(argv) == []
    ensures |argv| > 1 && argv[1] != Text("-flavor") ==> argv == [argv[0]] + AfterFlavor(argv)
    ensures |argv| == 2 && argv[1] == Text("-flavor") ==> AfterFlavor(argv) == []
    ensures |argv| > 2 && argv[1] == Text("-flavor") ==> argv == [argv[0], argv[1], argv[2]] + AfterFlavor(argv)
  {
  }

  lemma {:induction false} EngineFlagMeans(arg: OsString)
    ensures IsEngineFlag(arg) <==> exists name: string :: arg == Text("--engine=" + name)
  {
    if arg.Text? {
      StartsWithMeans(arg.text, "--engine=");
    }
  }

  /** The overrides go, the other tokens stay in order. */
  lemma {:induction false} OnlyOverridesAreDropped(argv: seq<OsString>, engineFlag: OsString -> bool)
    requires forall arg :: engineFlag(arg) <==> exists name: string :: arg == Text("--engine=" + name)
    ensures Dispatched(argv) == Filter(arg => !engineFlag(arg), AfterFlavor(argv))
  {
    forall arg ensures IsEngineFlag(arg) == engineFlag(arg) {
      EngineFlagMeans(arg);
    }
    FilterSame(arg => !IsEngineFlag(arg), arg => !engineFlag(arg), AfterFlavor(argv));
  }

  lemma {:induction false} FilterSame(f: OsString -> bool, g: OsString -> bool, xs: seq<OsString>)
    requires forall x :: f(x) == g(x)
    ensures Filter(f, xs) == Filter(g, xs)
  {
    if xs != [] {
      FilterSame(f, g, xs[1..]);
    }
  }

  /** Which linkers have response files expanded, and what else happens to the list of each: nothing for
      the native one, COFF and Mach-O; for MinGW one option is taken out, and no other. */
  lemma {:induction false} ListByLinker(files: FileMap, argv: seq<OsString>, native: bool, format: Format)
    ensures var list := BeforeStripping(files, argv, Engine(native, format));
            if native || format == Coff || format == MachO then list == Ok(Dispatched(argv))
            else if format == Elf then list == Expanded(files, Dispatched(argv), 0)
            else
              match Expanded(files, Dispatched(argv), 0)
              case Err(e) => list == Err(e)
              case Ok(full) => list == Ok(Filter(arg => arg != Text("--allow-shlib-undefined"), full))
    ensures var list := BeforeStripping(files, argv, Engine(native, format));
            match Outcome(files, argv, Engine(native, format))
            case Err(e) => list == Err(e)
            case Ok(forwarded) =>
              list.Ok? && forwarded == Forwarded(Kept(Division(list.value)), Dropped(Division(list.value)))
  {
    var expanded := Expanded(files, Dispatched(argv), 0);
    if expanded.Ok? {
      FilterSame(arg => !IsMinGwNoise(arg), arg => arg != Text("--allow-shlib-undefined"), expanded.value);
    }
  }

  /** What a child linker is never given, and for those whose response files are expanded, no
      response file and no driver LTO flag either. */
  lemma {:induction false} ForwardedIsClean(files: FileMap, argv: seq<OsString>, engine: Engine)
    requires Outcome(files, argv, engine).Ok?
    ensures forall arg :: arg in Outcome(files, argv, engine).value.args ==>
              && !IsReldFlag(arg)
              && (engine.Expands() ==> ResponsePath(arg) == None && !IsDriverLto(arg))
              && (engine == Engine(false, MinGw) ==> arg != Text("--allow-shlib-undefined"))
  {
    var list := BeforeStripping(files, argv, engine).value;
    KeptHasNoReldFlag(list);
    forall arg | arg in Kept(Division(list))
      ensures engine.Expands() ==> ResponsePath(arg) == None && !IsDriverLto(arg)
    {
      if engine.Expands() {
        ForwardsExactlyTheReachable(files, Dispatched(argv), arg, 0);
      }
    }
  }

  /** Linkers whose response files stay closed never see an engine override. */
  lemma {:induction false} OverrideNeverReachesOthers(files: FileMap, argv: seq<OsString>, engine: Engine)
    requires !engine.Expands()
    ensures Outcome(files, argv, engine).Ok?
    ensures forall arg :: arg in Outcome(files, argv, engine).value.args ==> !IsEngineFlag(arg)
  {
    KeptHasNoReldFlag(Dispatched(argv));
  }

  /** For the others: an engine override reaches the child exactly when it stands in some response
      file a walk from the command line reaches, at a place where it is not the value of the flag
      before it. */
  lemma {:induction false} OverrideLeaksExactly(files: FileMap, argv: seq<OsString>, engine: Engine, token: OsString)
    requires engine.Expands() && IsEngineFlag(token) && Outcome(files, argv, engine).Ok?
    ensures var list := BeforeStripping(files, argv, engine).value;
            && (token in Outcome(files, argv, engine).value.args
                <==> exists i :: 0 <= i < |list| && list[i] == token && !IsValue(list, i))
            && (token in list <==> exists chain :: ReachedBy(files, Dispatched(argv), chain, token))
  {
    hide IsEngineFlag, IsDriverLto, ResponsePath, ReachedBy, IsReldFlag, TakesNext, Dispatched, Expanded;
    var list := BeforeStripping(files, argv, engine).value;
    EngineFlagIsOrdinary(token);
    NoOverrideDispatched(argv);
    ForwardsExactlyTheReachable(files, Dispatched(argv), token, 0);
    KeptAreSurvivors(list, 0);
    assert list[0..] == list;
    SurvivorPosition(list, 0, token);
  }

  lemma {:induction false} NoOverrideDispatched(argv: seq<OsString>)
    ensures forall arg :: arg in Dispatched(argv) ==> !IsEngineFlag(arg)
  {
  }

  lemma {:induction false} EngineFlagIsOrdinary(token: OsString)
    requires IsEngineFlag(token)
    ensures ResponsePath(token) == None && !IsDriverLto(token) && !IsReldFlag(token) && !IsMinGwNoise(token)
    ensures StartsWith(token.text, "-")
  {
    hide NameOf;
    var s := token.text;
    assert s[..9] == "--engine=" && s == s[..9] + s[9..];
    assert s[2] == 'e' && s[0] == '-';
    NameBeforeEquals("engine", s[9..]);
    assert s[2..] == "engine" + "=" + s[9..];
    assert StripPrefix(s, "--") == Some(s[2..]);
    EngineIsNotStripped();
    hide *;
    NotLto(s);
    NotPath(s);
    NotNoise(s);
    IsReldFlagMeans(s);
  }

  lemma {:induction false} EngineIsNotStripped()
    ensures "engine" !in STRIPPED_FLAGS
  {
  }

  lemma {:induction false} NotLto(s: string)
    requires |s| > 2 && s[2] == 'e'
    ensures !IsDriverLto(Text(s))
  {
    assert |s| > 6 ==> s[..6][2] == 'e';
    assert |s| > 7 ==> s[..7][2] == 'e';
  }

  lemma {:induction false} NotPath(s: string)
    requires |s| > 2 && s[0] == '-'
    ensures ResponsePath(Text(s)) == None && StartsWith(s, "-")
  {
    assert s[..1][0] == '-';
  }

  lemma {:induction false} NotNoise(s: string)
    requires |s| > 2 && s[2] == 'e'
    ensures !IsMinGwNoise(Text(s))
  {
  }

  lemma {:induction false} IsReldFlagMeans(s: string)
    ensures IsReldFlag(Text(s)) <==> StripPrefix(s, "--").Some? && NameOf(StripPrefix(s, "--").value) in STRIPPED_FLAGS
  {
    hide NameOf, StripPrefix, STRIPPED_FLAGS;
  }

  lemma {:induction false} NameBeforeEquals(name: string, value: string)
    requires '=' !in name
    ensures NameOf(name + "=" + value) == name
  {
    if name != [] {
      assert (name + "=" + value)[1..] == name[1..] + "=" + value;
      NameBeforeEquals(name[1..], value);
      assert name == [name[0]] + name[1..];
    } else {
      assert name + "=" + value == "=" + value;
    }
  }

  /** Only a bare flag with a required value takes an override as its value; without one before it,
      every override in a reachable response file is forwarded. */
  lemma {:induction false} OverrideIsForwarded(files: FileMap, argv: seq<OsString>, engine: Engine, token: OsString)
    requires engine.Expands() && IsEngineFlag(token) && Outcome(files, argv, engine).Ok?
    requires forall flag :: flag in BeforeStripping(files, argv, engine).value ==> FlagKind(flag) != Some(Required)
    ensures token in Outcome(files, argv, engine).value.args
            <==> exists chain :: ReachedBy(files, Dispatched(argv), chain, token)
  {
    hide BeforeStripping, ReachedBy, Dispatched, FlagKind, IsValue, StartsWith;
    var list := BeforeStripping(files, argv, engine).value;
    OverrideLeaksExactly(files, argv, engine, token);
    EngineFlagIsOrdinary(token);
    forall i | 0 <= i < |list| && list[i] == token ensures !IsValue(list, i) {
      DashIsNoOptionalValue(list, i);
    }
  }

  lemma {:induction false} DashIsNoOptionalValue(list: seq<OsString>, i: nat)
    requires i < |list| && list[i].Text? && StartsWith(list[i].text, "-")
    requires forall flag :: flag in list ==> FlagKind(flag) != Some(Required)
    ensures !IsValue(list, i)
  {
    hide StartsWith, FlagKind;
    if i > 0 {
      assert list[i - 1] in list;
    }
  }

  /** A response file is enough to pass an engine override on to the child. */
  lemma {:induction false} OverrideLeaks()
    ensures var files := map["r" := ["--engine=lld"]];
            Outcome(files, [Text("reld"), Text("@r")], Engine(false, Elf))
            == Ok(Forwarded([Text("--engine=lld")], []))
  {
    var files := map["r" := ["--engine=lld"]];
    var token := Text("--engine=lld");
    hide Dispatched, Expanded, ResponsePath, IsDriverLto, IsReldFlag, Division, Kept, StripFlags.Dropped;
    assert IsEngineFlag(token);
    EngineFlagIsOrdinary(token);
    DispatchedFile();
    ExpandedFile(files, "r", token);
    assert "@" + "r" == "@r";
    assert BeforeStripping(files, [Text("reld"), Text("@r")], Engine(false, Elf)) == Ok([token]);
    NothingToStrip([token]);
  }

  lemma {:induction false} DispatchedFile()
    ensures Dispatched([Text("reld"), Text("@r")]) == [Text("@r")]
  {
    var argv := [Text("reld"), Text("@r")];
    assert AfterFlavor(argv) == [Text("@r")];
    assert !IsEngineFlag(Text("@r"));
    FilterOne(arg => !IsEngineFlag(arg), Text("@r"));
  }

  lemma {:induction false} ExpandedFile(files: FileMap, path: string, token: OsString)
    requires path in files && Texts(files[path]) == [token] && ResponsePath(token) == None && !IsDriverLto(token)
    ensures Expanded(files, [Text("@" + path)], 0) == Ok([token])
  {
    PathOfToken(path);
    ExpandedSingle(files, token, 1);
    ExpandedSingle(files, Text("@" + path), 0);
  }

  lemma {:induction false} ExpandedSingle(files: FileMap, arg: OsString, depth: nat)
    requires depth <= MAX_DEPTH && ExpandedOne(files, arg, depth).Ok?
    ensures Expanded(files, [arg], depth) == ExpandedOne(files, arg, depth)
  {
    assert Expanded(files, [arg][1..], depth) == Ok([]);
    assert ExpandedOne(files, arg, depth).value + [] == ExpandedOne(files, arg, depth).value;
  }
}
