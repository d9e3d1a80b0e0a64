/** Expansion of `@file` arguments before they are forwarded to a child linker, and by the target
    probe. A path maps to the tokens of a readable response file; other paths cannot be read. */
module ResponseFiles {
  import opened Wrappers
  import opened CommandLine
  import opened Sequences

  type FileMap = map<string, seq<string>>

  datatype ExpandError = TooDeep(path: string) | Unreadable(path: string)

  const MAX_DEPTH: nat := 16

  predicate IsDriverLtoFlag(s: string) {
    s == "-flto" || s == "--flto" || StartsWith(s, "-flto=") || StartsWith(s, "--flto=")
  }

  /** The response file a token names. */
  function ResponsePath(arg: OsString): (r: Option<string>)
    ensures r.Some? ==> arg == Text("@" + r.value)
  {
    match arg
    case Text(s) => StripPrefix(s, "@")
    case Raw(_) => None
  }

  predicate IsDriverLto(arg: OsString) {
    arg.Text? && IsDriverLtoFlag(arg.text)
  }

  function WithoutLto(args: seq<OsString>): seq<OsString> {
    Filter(arg => !IsDriverLto(arg), args)
  }

  /** What the strict expander forwards, or the error of the first token in order that fails. */
  function Expanded(files: FileMap, args: seq<OsString>, depth: nat): Result<seq<OsString>, ExpandError>
    requires depth <= MAX_DEPTH
    decreases MAX_DEPTH - depth, 1, |args|
  {
    if args == [] then Ok([])
    else
      match ExpandedOne(files, args[0], depth)
      case Err(e) => Err(e)
      case Ok(first) =>
        match Expanded(files, args[1..], depth)
        case Err(e) => Err(e)
        case Ok(rest) => Ok(first + rest)
  }

  function ExpandedOne(files: FileMap, arg: OsString, depth: nat): Result<seq<OsString>, ExpandError>
    requires depth <= MAX_DEPTH
    decreases MAX_DEPTH - depth, 0, 0
  {
    if IsDriverLto(arg) then Ok([])
    else
      match ResponsePath(arg)
      case None => Ok([arg])
      case Some(path) =>
        if depth >= MAX_DEPTH then Err(TooDeep(path))
        else if path !in files then Err(Unreadable(path))
        else Expanded(files, Texts(files[path]), depth + 1)
  }

  lemma {:induction false} ExpandedStep(files: FileMap, args: seq<OsString>, i: nat, depth: nat)
    requires depth <= MAX_DEPTH && i < |args|
    ensures Expanded(files, args[i..], depth)
            == match ExpandedOne(files, args[i], depth)
               case Err(e) => Err(e)
               case Ok(first) =>
                 match Expanded(files, args[i + 1..], depth)
                 case Err(e) => Err(e)
                 case Ok(rest) => Ok(first + rest)
  {
    assert args[i..][1..] == args[i + 1..];
  }

  /** What remains to be decided once `done` has been forwarded. */
  function Continue(done: seq<OsString>, rest: Result<seq<OsString>, ExpandError>): Result<seq<OsString>, ExpandError> {
    match rest
    case Err(e) => Err(e)
    case Ok(more) => Ok(done + more)
  }

  lemma {:induction false} ContinueMore(done: seq<OsString>, first: seq<OsString>, rest: Result<seq<OsString>,
    ExpandError>)
    ensures Continue(done, Continue(first, rest)) == Continue(done + first, rest)
    ensures Continue([], rest) == rest
  {
    if rest.Ok? {
      assert done + (first + rest.value) == done + first + rest.value;
      assert [] + rest.value == rest.value;
    }
  }

  /** `expand_and_strip_driver_lto`. */
  method ExpandAndStripDriverLto(files: FileMap, args: seq<OsString>, depth: nat)
    returns (r: Result<seq<OsString>, ExpandError>)
    requires depth <= MAX_DEPTH
    ensures r == Expanded(files, args, depth)
    decreases MAX_DEPTH - depth
  {
    var forwarded: seq<OsString> := [];
    assert args[0..] == args;
    ContinueMore([], [], Expanded(files, args, depth));
    for i := 0 to |args|
      invariant Expanded(files, args, depth) == Continue(forwarded, Expanded(files, args[i..], depth))
    {
      var arg := args[i];
      ExpandedStep(files, args, i, depth);
      ghost var one := ExpandedOne(files, arg, depth);
      if one.Ok? {
        ContinueMore(forwarded, one.value, Expanded(files, args[i + 1..], depth));
      }
      if arg.Text? {
        if IsDriverLtoFlag(arg.text) {
          assert forwarded + [] == forwarded;
          continue;
        }
        var path := StripPrefix(arg.text, "@");
        if path.Some? {
          if depth >= MAX_DEPTH {
            return Err(TooDeep(path.value));
          }
          if path.value !in files {
            return Err(Unreadable(path.value));
          }
          var nested := ExpandAndStripDriverLto(files, Texts(files[path.value]), depth + 1);
          if nested.Err? {
            return nested;
          }
          forwarded := forwarded + nested.value;
          continue;
        }
      }
      forwarded := forwarded + [arg];
    }
    assert args[|args|..] == [];
    assert forwarded + [] == forwarded;
    return Ok(forwarded);
  }

  /******* Recursive substitution *******/

  /** Replacing every response-file token by the contents of its file, all the way down: `out` is
      what `args` stand for. Holds of nothing when some file is unreadable or contains itself. */
  least predicate Substitutes(files: FileMap, args: seq<OsString>, out: seq<OsString>) {
    if args == [] then out == []
    else
      match ResponsePath(args[0])
      case None => out != [] && out[0] == args[0] && Substitutes(files, args[1..], out[1..])
      case Some(path) =>
        path in files &&
        exists k: nat ::
          && k <= |out|
          && Substitutes(files, Texts(files[path]), out[..k])
          && Substitutes(files, args[1..], out[k..])
  }

  /** A command line stands for at most one list. */
  least lemma {:induction false} SubstitutionIsUnique(files: FileMap, args: seq<OsString>, out: seq<OsString>,
    other: seq<OsString>)
    requires Substitutes(files, args, out)
    requires Substitutes(files, args, other)
    ensures out == other
  {
    if args != [] {
      match ResponsePath(args[0])
      case None =>
        SubstitutionIsUnique(files, args[1..], out[1..], other[1..]);
        assert out == [out[0]] + out[1..] && other == [other[0]] + other[1..];
      case Some(path) =>
        var k: nat :| k <= |out|
          && Substitutes#[_k - 1](files, Texts(files[path]), out[..k])
          && Substitutes#[_k - 1](files, args[1..], out[k..]);
        var m: nat :| m <= |other|
          && Substitutes(files, Texts(files[path]), other[..m])
          && Substitutes(files, args[1..], other[m..]);
        SubstitutionIsUnique(files, Texts(files[path]), out[..k], other[..m]);
        SubstitutionIsUnique(files, args[1..], out[k..], other[m..]);
        assert out == out[..k] + out[k..] && other == other[..m] + other[m..];
    }
  }

  lemma {:induction false} NoPathWithoutLto(args: seq<OsString>)
    requires args != []
    ensures WithoutLto(args) == (if IsDriverLto(args[0]) then [] else [args[0]]) + WithoutLto(args[1..])
  {
  }

  lemma {:induction false} WithoutLtoAppend(xs: seq<OsString>, ys: seq<OsString>)
    ensures WithoutLto(xs + ys) == WithoutLto(xs) + WithoutLto(ys)
  {
    FilterAppend(arg => !IsDriverLto(arg), xs, ys);
  }

  /** A successful strict expansion is what the arguments stand for, without driver LTO flags and
      without any response-file token. */
  lemma {:induction false} StrictIsSubstitution(files: FileMap, args: seq<OsString>, depth: nat)
    returns (full: seq<OsString>)
    requires depth <= MAX_DEPTH && Expanded(files, args, depth).Ok?
    ensures Substitutes(files, args, full)
    ensures Expanded(files, args, depth).value == WithoutLto(full)
    ensures forall arg :: arg in full ==> ResponsePath(arg) == None
    decreases MAX_DEPTH - depth, |args|
  {
    if args == [] {
      full := [];
    } else {
      var rest := StrictIsSubstitution(files, args[1..], depth);
      match ResponsePath(args[0]) {
        case None =>
          full := [args[0]] + rest;
          assert full[1..] == rest;
          WithoutLtoAppend([args[0]], rest);
          NoPathWithoutLto([args[0]]);
        case Some(path) =>
          PathOfToken(path);
          var nested := StrictIsSubstitution(files, Texts(files[path]), depth + 1);
          full := nested + rest;
          assert full[..|nested|] == nested && full[|nested|..] == rest;
          WithoutLtoAppend(nested, rest);
      }
    }
  }

  /******* Failure *******/

  /** A walk into nested files: the first path is named by `args`, each later one by the file before. */
  ghost predicate Chain(files: FileMap, args: seq<OsString>, chain: seq<string>)
    decreases |chain|
  {
    chain != [] ==>
    && Text("@" + chain[0]) in args
    && (|chain| > 1 ==> chain[0] in files && Chain(files, Texts(files[chain[0]]), chain[1..]))
  }

  /** A walk the expander does not survive: to a file that cannot be read, or one file too deep. */
  ghost predicate Fatal(files: FileMap, args: seq<OsString>, chain: seq<string>, depth: nat) {
    && chain != []
    && Chain(files, args, chain)
    && depth + |chain| <= MAX_DEPTH + 1
    && (depth + |chain| == MAX_DEPTH + 1 || chain[|chain| - 1] !in files)
  }

  lemma {:induction false} OneFails(files: FileMap, args: seq<OsString>, i: nat, depth: nat)
    requires depth <= MAX_DEPTH && i < |args| && ExpandedOne(files, args[i], depth).Err?
    ensures Expanded(files, args, depth).Err?
    decreases |args|
  {
    if i > 0 {
      OneFails(files, args[1..], i - 1, depth);
    }
  }

  lemma {:induction false} FatalChainFails(files: FileMap, args: seq<OsString>, chain: seq<string>, depth: nat)
    requires depth <= MAX_DEPTH && Fatal(files, args, chain, depth)
    ensures Expanded(files, args, depth).Err?
    decreases |chain|
  {
    var token := Text("@" + chain[0]);
    var i :| 0 <= i < |args| && args[i] == token;
    PathOfToken(chain[0]);
    if |chain| > 1 {
      assert chain[1..][|chain| - 2] == chain[|chain| - 1];
      FatalChainFails(files, Texts(files[chain[0]]), chain[1..], depth + 1);
    }
    OneFails(files, args, i, depth);
  }

  lemma {:induction false} LtoNamesNoFile(arg: OsString)
    requires IsDriverLto(arg)
    ensures ResponsePath(arg) == None
  {
    var s := arg.text;
    assert StartsWith(s, "-flto=") ==> s[..6][0] == '-';
    assert StartsWith(s, "--flto=") ==> s[..7][0] == '-';
    assert s[..1][0] == '-';
  }

  lemma {:induction false} PathOfToken(path: string)
    ensures ResponsePath(Text("@" + path)) == Some(path) && !IsDriverLto(Text("@" + path))
  {
    assert ("@" + path)[..1] == "@" && ("@" + path)[1..] == path;
    if IsDriverLto(Text("@" + path)) {
      LtoNamesNoFile(Text("@" + path));
    }
  }

  lemma {:induction false} FailureHasChain(files: FileMap, args: seq<OsString>, depth: nat) returns (chain: seq<string>)
    requires depth <= MAX_DEPTH && Expanded(files, args, depth).Err?
    ensures Fatal(files, args, chain, depth)
    ensures Expanded(files, args, depth).error
            == if depth + |chain| == MAX_DEPTH + 1 then TooDeep(chain[|chain| - 1]) else Unreadable(chain[|chain| - 1])
    decreases MAX_DEPTH - depth, |args|
  {
    match ExpandedOne(files, args[0], depth)
    case Ok(_) =>
      chain := FailureHasChain(files, args[1..], depth);
    case Err(_) =>
      var path := ResponsePath(args[0]).value;
      if depth < MAX_DEPTH && path in files {
        var inner := FailureHasChain(files, Texts(files[path]), depth + 1);
        chain := [path] + inner;
        assert chain[1..] == inner;
      } else {
        chain := [path];
      }
  }

  /** A walk of at most 16 files to one that cannot be read, or of 17 files. */
  ghost predicate Defeats(files: FileMap, args: seq<OsString>, chain: seq<string>) {
    && Chain(files, args, chain)
    && ((1 <= |chain| <= 16 && chain[|chain| - 1] !in files) || |chain| == 17)
  }

  /** The strict expander fails exactly when some walk of at most 16 files ends at an unreadable one
      or some walk reaches 17 files. */
  lemma {:induction false} StrictFailsExactly(files: FileMap, args: seq<OsString>)
    ensures Expanded(files, args, 0).Err? <==> exists chain :: Defeats(files, args, chain)
  {
    if Expanded(files, args, 0).Err? {
      var chain := FailureHasChain(files, args, 0);
      assert Defeats(files, args, chain);
    }
    if chain :| Defeats(files, args, chain) {
      FatalChainFails(files, args, chain, 0);
    }
  }

  /** The error names the file at the end of such a walk and which of the two it was. */
  lemma {:induction false} ErrorNamesTheEnd(files: FileMap, args: seq<OsString>) returns (chain: seq<string>)
    requires Expanded(files, args, 0).Err?
    ensures Defeats(files, args, chain)
    ensures Expanded(files, args, 0).error
            == if |chain| == 17 then TooDeep(chain[16]) else Unreadable(chain[|chain| - 1])
  {
    chain := FailureHasChain(files, args, 0);
  }

  /** The driver's own flags: `-flto` and `--flto`, alone or with `=` and a value. */
  lemma {:induction false} LtoFlagsExactly(s: string)
    ensures IsDriverLtoFlag(s) <==>
            s == "-flto" || s == "--flto" || exists value: string :: s == "-flto=" + value || s == "--flto=" + value
  {
    StartsWithMeans(s, "-flto=");
    StartsWithMeans(s, "--flto=");
  }

  /** A walk that comes back to a file it has been through, for ever: no strict expansion. */
  lemma {:induction false} CyclesFail(files: FileMap, args: seq<OsString>, chain: seq<string>, back: nat)
    requires |chain| > 1 && Chain(files, args, chain)
    requires back < |chain| - 1 && chain[back] == chain[|chain| - 1]
    ensures Expanded(files, args, 0).Err?
  {
    var long := Unrolled(chain, back, MAX_DEPTH + 1);
    ChainPairs(files, args, chain);
    forall i | 0 <= i < MAX_DEPTH
      ensures long[i] in files && Text("@" + long[i + 1]) in Texts(files[long[i]])
    {
      var j := Unroll(|chain|, back, i);
      assert Linked(files, chain, j);
    }
    PairsMakeChain(files, args, long);
    FatalChainFails(files, args, long, 0);
  }

  /** Position `i` of the endless walk, as a position of the finite one that loops. */
  function Unroll(n: nat, back: nat, i: nat): (j: nat)
    requires back < n - 1
    ensures j < n - 1
  {
    if i == 0 then 0
    else
      var j := Unroll(n, back, i - 1);
      if j + 1 == n - 1 then back else j + 1
  }

  function Unrolled(chain: seq<string>, back: nat, length: nat): (r: seq<string>)
    requires back < |chain| - 1
    ensures |r| == length && forall i :: 0 <= i < length ==> r[i] == chain[Unroll(|chain|, back, i)]
  {
    seq(length, i requires 0 <= i < length => chain[Unroll(|chain|, back, i)])
  }

  ghost predicate Linked(files: FileMap, chain: seq<string>, i: nat)
    requires i + 1 < |chain|
  {
    chain[i] in files && Text("@" + chain[i + 1]) in Texts(files[chain[i]])
  }

  lemma {:induction false} ChainPairs(files: FileMap, args: seq<OsString>, chain: seq<string>)
    requires chain != [] && Chain(files, args, chain)
    ensures Text("@" + chain[0]) in args
    ensures forall i :: 0 <= i < |chain| - 1 ==> Linked(files, chain, i)
    decreases |chain|
  {
    if |chain| > 1 {
      ChainPairs(files, Texts(files[chain[0]]), chain[1..]);
      forall i | 0 <= i < |chain| - 1 ensures Linked(files, chain, i) {
        if i > 0 {
          assert Linked(files, chain[1..], i - 1);
        }
      }
    }
  }

  lemma {:induction false} PairsMakeChain(files: FileMap, args: seq<OsString>, chain: seq<string>)
    requires chain != [] && Text("@" + chain[0]) in args
    requires forall i :: 0 <= i < |chain| - 1 ==> Linked(files, chain, i)
    ensures Chain(files, args, chain)
    decreases |chain|
  {
    if |chain| > 1 {
      assert Linked(files, chain, 0);
      forall i | 0 <= i < |chain| - 2 ensures Linked(files, chain[1..], i) {
        assert Linked(files, chain, i + 1);
      }
      PairsMakeChain(files, Texts(files[chain[0]]), chain[1..]);
    }
  }

  /******* The probe *******/

  /** What the tolerant expander returns: a file that is too deep or unreadable counts as empty. */
  function Probed(files: FileMap, args: seq<string>, depth: nat): seq<string>
    requires depth <= MAX_DEPTH
    decreases MAX_DEPTH - depth, 1, |args|
  {
    if args == [] then [] else ProbedOne(files, args[0], depth) + Probed(files, args[1..], depth)
  }

  function ProbedOne(files: FileMap, arg: string, depth: nat): seq<string>
    requires depth <= MAX_DEPTH
    decreases MAX_DEPTH - depth, 0, 0
  {
    match StripPrefix(arg, "@")
    case None => [arg]
    case Some(path) =>
      if depth < MAX_DEPTH && path in files then Probed(files, files[path], depth + 1) else []
  }

  lemma {:induction false} ProbedStep(files: FileMap, args: seq<string>, i: nat, depth: nat)
    requires depth <= MAX_DEPTH && i < |args|
    ensures Probed(files, args[i..], depth) == ProbedOne(files, args[i], depth) + Probed(files, args[i + 1..], depth)
  {
    assert args[i..][1..] == args[i + 1..];
  }

  /** `expand_probe_response_files`. */
  method ExpandProbeResponseFiles(files: FileMap, args: seq<string>, depth: nat) returns (expanded: seq<string>)
    requires depth <= MAX_DEPTH
    ensures expanded == Probed(files, args, depth)
    decreases MAX_DEPTH - depth
  {
    hide Probed;
    expanded := [];
    assert args[0..] == args;
    for i := 0 to |args|
      invariant Probed(files, args, depth) == expanded + Probed(files, args[i..], depth)
    {
      ProbedStep(files, args, i, depth);
      Regroup(expanded, ProbedOne(files, args[i], depth), Probed(files, args[i + 1..], depth));
      var path := StripPrefix(args[i], "@");
      if path.Some? {
        if depth < MAX_DEPTH && path.value in files {
          var tokens := ExpandProbeResponseFiles(files, files[path.value], depth + 1);
          expanded := expanded + tokens;
        }
        continue;
      }
      expanded := expanded + [args[i]];
    }
    assert args[|args|..] == [];
    ProbedEmpty(files, depth);
  }

  lemma {:induction false} ProbedEmpty(files: FileMap, depth: nat)
    requires depth <= MAX_DEPTH
    ensures Probed(files, [], depth) == []
  {
  }

  lemma {:induction false} TextsAppend(xs: seq<string>, ys: seq<string>)
    ensures Texts(xs + ys) == Texts(xs) + Texts(ys)
  {
  }

  /** Over the same files, whenever the strict expander succeeds the probe saw the same list apart
      from driver LTO flags. */
  lemma {:induction false} ProbeAgreesWithStrict(files: FileMap, args: seq<string>, depth: nat)
    requires depth <= MAX_DEPTH && Expanded(files, Texts(args), depth).Ok?
    ensures WithoutLto(Texts(Probed(files, args, depth))) == Expanded(files, Texts(args), depth).value
    decreases MAX_DEPTH - depth, |args|
  {
    if args != [] {
      assert Texts(args)[1..] == Texts(args[1..]);
      ProbeAgreesWithStrict(files, args[1..], depth);
      var first := ProbedOne(files, args[0], depth);
      TextsAppend(first, Probed(files, args[1..], depth));
      WithoutLtoAppend(Texts(first), Texts(Probed(files, args[1..], depth)));
      match StripPrefix(args[0], "@") {
        case None =>
          NoPathWithoutLto(Texts([args[0]]));
        case Some(path) =>
          PathOfToken(path);
          ProbeAgreesWithStrict(files, files[path], depth + 1);
      }
    }
  }

  /******* Where forwarded tokens come from *******/

  /** The token stands in `args` or in a file some walk reaches. */
  ghost predicate Reachable(files: FileMap, args: seq<OsString>, token: OsString) {
    token in args || exists chain :: ReachedBy(files, args, chain, token)
  }

  ghost predicate ReachedBy(files: FileMap, args: seq<OsString>, chain: seq<string>, token: OsString) {
    && chain != []
    && Chain(files, args, chain)
    && chain[|chain| - 1] in files
    && token in Texts(files[chain[|chain| - 1]])
  }

  /** A successful expansion holds exactly the reachable tokens that are neither response files nor
      driver LTO flags. */
  lemma {:induction false} ForwardsExactlyTheReachable(files: FileMap, args: seq<OsString>, token: OsString, depth: nat)
    requires depth <= MAX_DEPTH && Expanded(files, args, depth).Ok?
    ensures token in Expanded(files, args, depth).value
            <==> Reachable(files, args, token) && ResponsePath(token) == None && !IsDriverLto(token)
  {
    if token in Expanded(files, args, depth).value {
      ForwardedIsReachable(files, args, token, depth);
    }
    if ResponsePath(token) == None && !IsDriverLto(token) {
      if token in args {
        var i :| 0 <= i < |args| && args[i] == token;
        OneIsForwarded(files, args, i, depth);
      } else if chain :| ReachedBy(files, args, chain, token) {
        ReachedIsForwarded(files, args, chain, token, depth);
      }
    }
  }

  lemma {:induction false} OneIsForwarded(files: FileMap, args: seq<OsString>, i: nat, depth: nat)
    requires depth <= MAX_DEPTH && i < |args| && Expanded(files, args, depth).Ok?
    ensures ExpandedOne(files, args[i], depth).Ok?
    ensures forall t :: t in ExpandedOne(files, args[i], depth).value ==> t in Expanded(files, args, depth).value
    decreases |args|
  {
    if i > 0 {
      OneIsForwarded(files, args[1..], i - 1, depth);
    }
  }

  lemma {:induction false} ReachedIsForwarded(files: FileMap, args: seq<OsString>, chain: seq<string>,
    token: OsString, depth: nat)
    requires depth <= MAX_DEPTH && Expanded(files, args, depth).Ok?
    requires ReachedBy(files, args, chain, token) && ResponsePath(token) == None && !IsDriverLto(token)
    ensures token in Expanded(files, args, depth).value
    decreases |chain|
  {
    var path := chain[0];
    var i :| 0 <= i < |args| && args[i] == Text("@" + path);
    PathOfToken(path);
    OneIsForwarded(files, args, i, depth);
    var inner := Texts(files[path]);
    if |chain| == 1 {
      var j :| 0 <= j < |inner| && inner[j] == token;
      OneIsForwarded(files, inner, j, depth + 1);
    } else {
      assert chain[1..][|chain| - 2] == chain[|chain| - 1];
      ReachedIsForwarded(files, inner, chain[1..], token, depth + 1);
    }
  }

  lemma {:induction false} ForwardedIsReachable(files: FileMap, args: seq<OsString>, token: OsString, depth: nat)
    requires depth <= MAX_DEPTH && Expanded(files, args, depth).Ok?
    requires token in Expanded(files, args, depth).value
    ensures Reachable(files, args, token) && ResponsePath(token) == None && !IsDriverLto(token)
    decreases MAX_DEPTH - depth, |args|
  {
    if token in ExpandedOne(files, args[0], depth).value {
      if ResponsePath(args[0]).Some? {
        var path := ResponsePath(args[0]).value;
        PathOfToken(path);
        var inner := Texts(files[path]);
        ForwardedIsReachable(files, inner, token, depth + 1);
        if token in inner {
          assert ReachedBy(files, args, [path], token);
        } else {
          var chain :| ReachedBy(files, inner, chain, token);
          var longer := [path] + chain;
          assert longer[1..] == chain && longer[|longer| - 1] == chain[|chain| - 1];
          assert ReachedBy(files, args, longer, token);
        }
      }
    } else {
      ForwardedIsReachable(files, args[1..], token, depth);
      if token !in args {
        var chain :| ReachedBy(files, args[1..], chain, token);
        assert ReachedBy(files, args, chain, token);
      }
    }
  }

  /******* What the probe sees *******/

  /** The walk stays within 16 files, all readable, and the last holds the token. */
  ghost predicate SeenThrough(files: FileMap, args: seq<string>, chain: seq<string>, token: string, depth: nat) {
    && chain != [] && depth + |chain| <= MAX_DEPTH
    && Chain(files, Texts(args), chain)
    && chain[|chain| - 1] in files
    && token in files[chain[|chain| - 1]]
  }

  predicate NamesFile(token: string) {
    token != "" && token[0] == '@'
  }

  lemma {:induction false} NamesFileIs(token: string)
    ensures NamesFile(token) <==> StripPrefix(token, "@").Some?
    ensures NamesFile(token) ==> token == "@" + token[1..]
  {
    assert NamesFile(token) ==> token[..1] == "@";
    assert StartsWith(token, "@") ==> token[..1][0] == '@';
  }

  /** The probe sees exactly the tokens that name no file and stand on the command line or in a file at
      the end of a readable walk of at most 16 files. */
  lemma {:induction false} ProbeSeesExactly(files: FileMap, args: seq<string>, token: string)
    ensures token in Probed(files, args, 0) <==>
            !NamesFile(token) && (token in args || exists chain :: SeenThrough(files, args, chain, token, 0))
    ensures forall chain :: SeenThrough(files, args, chain, token, 0) ==> 1 <= |chain| <= 16
  {
    if token in Probed(files, args, 0) {
      ProbedIsSeen(files, args, token, 0);
    }
    if !NamesFile(token) {
      NamesFileIs(token);
      if token in args {
        var i :| 0 <= i < |args| && args[i] == token;
        OneIsProbed(files, args, i, 0);
      } else if chain :| SeenThrough(files, args, chain, token, 0) {
        SeenIsProbed(files, args, chain, token, 0);
      }
    }
  }

  lemma {:induction false} OneIsProbed(files: FileMap, args: seq<string>, i: nat, depth: nat)
    requires depth <= MAX_DEPTH && i < |args|
    ensures forall t :: t in ProbedOne(files, args[i], depth) ==> t in Probed(files, args, depth)
    decreases |args|
  {
    if i > 0 {
      OneIsProbed(files, args[1..], i - 1, depth);
    }
  }

  lemma {:induction false} SeenIsProbed(
    files: FileMap, args: seq<string>, chain: seq<string>, token: string, depth: nat)
    requires depth <= MAX_DEPTH && SeenThrough(files, args, chain, token, depth) && StripPrefix(token, "@") == None
    ensures token in Probed(files, args, depth)
    decreases |chain|
  {
    var path := chain[0];
    var i :| 0 <= i < |args| && args[i] == "@" + path;
    PathOfToken(path);
    OneIsProbed(files, args, i, depth);
    assert ProbedOne(files, args[i], depth) == Probed(files, files[path], depth + 1);
    if |chain| == 1 {
      assert ProbedOne(files, token, depth + 1) == [token];
      var j :| 0 <= j < |files[path]| && files[path][j] == token;
      OneIsProbed(files, files[path], j, depth + 1);
    } else {
      assert chain[1..][|chain| - 2] == chain[|chain| - 1];
      SeenIsProbed(files, files[path], chain[1..], token, depth + 1);
    }
  }

  lemma {:induction false} ProbedIsSeen(files: FileMap, args: seq<string>, token: string, depth: nat)
    requires depth <= MAX_DEPTH && token in Probed(files, args, depth)
    ensures !NamesFile(token) && (token in args || exists chain :: SeenThrough(files, args, chain, token, depth))
    decreases MAX_DEPTH - depth, |args|
  {
    NamesFileIs(args[0]);
    if token in ProbedOne(files, args[0], depth) {
      if NamesFile(args[0]) {
        var path := args[0][1..];
        assert args[0] == "@" + path;
        PathOfToken(path);
        ProbedIsSeen(files, files[path], token, depth + 1);
        assert Texts(args)[0] == Text("@" + path);
        if token in files[path] {
          assert SeenThrough(files, args, [path], token, depth);
        } else {
          var chain :| SeenThrough(files, files[path], chain, token, depth + 1);
          var longer := [path] + chain;
          assert longer[1..] == chain && longer[|longer| - 1] == chain[|chain| - 1];
          assert SeenThrough(files, args, longer, token, depth);
        }
      }
    } else {
      ProbedIsSeen(files, args[1..], token, depth);
      if token !in args {
        var chain :| SeenThrough(files, args[1..], chain, token, depth);
        assert Text("@" + chain[0]) in Texts(args[1..]);
        TextsKeep(args, "@" + chain[0]);
        assert SeenThrough(files, args, chain, token, depth);
      }
    }
  }

  lemma {:induction false} TextsKeep(args: seq<string>, token: string)
    requires args != [] && Text(token) in Texts(args[1..])
    ensures Text(token) in Texts(args)
  {
    var i :| 0 <= i < |args| - 1 && Texts(args[1..])[i] == Text(token);
    assert Texts(args)[i + 1] == Text(token);
  }
}
