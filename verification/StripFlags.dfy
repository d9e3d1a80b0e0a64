/** Dropping the linker's own options before arguments are forwarded to a child linker. */
module StripFlags {
  import opened Wrappers
  import opened CommandLine
  import opened Sequences

  datatype ValueKind = NoValue | Optional | Required

  const STRIPPED_FLAGS: map<string, ValueKind> := map[
    "update-in-place" := NoValue,
    "no-update-in-place" := NoValue,
    "time" := Optional,
    "mmap-output-file" := NoValue,
    "no-mmap-output-file" := NoValue,
    "fallocate-output-file" := NoValue,
    "no-fallocate-output-file" := NoValue,
    "madvise-huge-pages" := NoValue,
    "no-madvise-huge-pages" := NoValue,
    "threads" := Optional,
    "no-threads" := NoValue,
    "thread-count" := Required,
    "fork" := NoValue,
    "no-fork" := NoValue,
    "prepopulate-maps" := NoValue,
    "debug-fuel" := Required,
    "reld-experiments" := Required,
    "gc-stats-ignore" := Required,
    "nix-rpath" := Required,
    "no-identity-comment" := NoValue,
    "no-string-merge" := NoValue]

  /** The part before the first `=`. */
  function NameOf(bare: string): string {
    if bare == [] || bare[0] == '=' then [] else [bare[0]] + NameOf(bare[1..])
  }

  lemma {:induction false} NameEndsAtEquals(bare: string)
    ensures var name := NameOf(bare);
            && '=' !in name
            && name <= bare
            && (if '=' in bare then |name| < |bare| && bare[|name|] == '=' else name == bare)
  {
    if bare != [] && bare[0] != '=' {
      NameEndsAtEquals(bare[1..]);
      assert bare == [bare[0]] + bare[1..];
    }
  }

  /** The kind of a token that names one of the stripped flags. */
  function FlagKind(arg: OsString): Option<ValueKind> {
    match arg
    case Raw(_) => None
    case Text(s) =>
      match StripPrefix(s, "--")
      case None => None
      case Some(bare) =>
        if NameOf(bare) in STRIPPED_FLAGS then Some(STRIPPED_FLAGS[NameOf(bare)]) else None
  }

  predicate IsReldFlag(arg: OsString) {
    FlagKind(arg).Some?
  }

  /** Whether the token after a flag is its value. */
  predicate TakesNext(flag: OsString, next: Option<OsString>) {
    && IsReldFlag(flag)
    && '=' !in flag.text[2..]
    && next.Some?
    && match FlagKind(flag).value
       case NoValue => false
       case Required => true
       case Optional => !(next.value.Text? && StartsWith(next.value.text, "-"))
  }

  function Head(args: seq<OsString>): Option<OsString> {
    if args == [] then None else Some(args[0])
  }

  /** A piece of the command line: forwarded, or dropped alone, or dropped with its value. */
  datatype Segment = Keep(arg: OsString) | Drop(flag: OsString) | DropPair(flag: OsString, value: OsString)
  {
    function Tokens(): (r: seq<OsString>)
      ensures 1 <= |r| <= 2
    {
      match this
      case Keep(a) => [a]
      case Drop(f) => [f]
      case DropPair(f, v) => [f, v]
    }

    /** The flag as spelled, a separate value joined by one space. */
    function Spelling(): seq<string> {
      match this
      case Keep(_) => []
      case Drop(f) => [f.ToStringLossy()]
      case DropPair(f, v) => [f.ToStringLossy() + " " + v.ToStringLossy()]
    }

    /** Right for this piece when `next` is the token after it. */
    ghost predicate Fits(next: Option<OsString>) {
      match this
      case Keep(a) => !IsReldFlag(a)
      case Drop(f) => IsReldFlag(f) && !TakesNext(f, next)
      case DropPair(f, v) => TakesNext(f, Some(v))
    }
  }

  function Tokens(segments: seq<Segment>): seq<OsString> {
    if segments == [] then [] else segments[0].Tokens() + Tokens(segments[1..])
  }

  /** What is forwarded. */
  function Kept(segments: seq<Segment>): seq<OsString> {
    if segments == [] then []
    else (if segments[0].Keep? then [segments[0].arg] else []) + Kept(segments[1..])
  }

  /** What is reported as dropped. */
  function Dropped(segments: seq<Segment>): seq<string> {
    if segments == [] then [] else segments[0].Spelling() + Dropped(segments[1..])
  }

  /** The pieces make up the command line, in order, and each fits where it stands. */
  ghost predicate Divides(segments: seq<Segment>, args: seq<OsString>) {
    if segments == [] then args == []
    else
      var tokens := segments[0].Tokens();
      && tokens <= args
      && segments[0].Fits(Head(args[|tokens|..]))
      && Divides(segments[1..], args[|tokens|..])
  }

  function FirstSegment(args: seq<OsString>): Segment
    requires args != []
  {
    if !IsReldFlag(args[0]) then Keep(args[0])
    else if TakesNext(args[0], Head(args[1..])) then DropPair(args[0], args[1])
    else Drop(args[0])
  }

  function Division(args: seq<OsString>): seq<Segment> {
    if args == [] then []
    else [FirstSegment(args)] + Division(args[|FirstSegment(args).Tokens()|..])
  }

  /** Every command line divides. */
  lemma {:induction false} DivisionDivides(args: seq<OsString>)
    ensures Divides(Division(args), args)
  {
    if args != [] {
      DivisionDivides(args[|FirstSegment(args).Tokens()|..]);
    }
  }

  /** It divides in no other way, and the pieces put together are the command line: nothing is lost,
      repeated or reordered. */
  lemma {:induction false} DivisionIsUnique(segments: seq<Segment>, args: seq<OsString>)
    requires Divides(segments, args)
    ensures segments == Division(args) && Tokens(segments) == args
    decreases |segments|
  {
    if segments == [] {
      assert args == [];
    } else {
      hide *;
      var rest := DividesUnfolds(segments, args);
      FitIsFirst(segments[0], args);
      DivisionIsUnique(segments[1..], rest);
      assert segments == [segments[0]] + segments[1..];
    }
  }

  lemma {:induction false} DividesUnfolds(segments: seq<Segment>, args: seq<OsString>) returns (rest: seq<OsString>)
    requires segments != [] && Divides(segments, args)
    ensures segments[0].Tokens() <= args && segments[0].Fits(Head(rest)) && Divides(segments[1..], rest)
    ensures rest == args[|segments[0].Tokens()|..] && args == segments[0].Tokens() + rest
    ensures segments[0] == FirstSegment(args) ==> Division(args) == [segments[0]] + Division(rest)
    ensures Tokens(segments) == segments[0].Tokens() + Tokens(segments[1..])
  {
    hide IsReldFlag, TakesNext, FirstSegment, Segment.Fits, Head;
    rest := args[|segments[0].Tokens()|..];
  }

  lemma {:induction false} FitIsFirst(segment: Segment, args: seq<OsString>)
    requires segment.Tokens() <= args && segment.Fits(Head(args[|segment.Tokens()|..]))
    ensures segment == FirstSegment(args)
  {
  }

  /** `strip_reld_only_flags`. */
  method StripReldOnlyFlags(args: seq<OsString>) returns (out: seq<OsString>, dropped: seq<string>)
    ensures out == Kept(Division(args))
    ensures dropped == Dropped(Division(args))
  {
    hide Kept, Dropped, Division, IsReldFlag, TakesNext, FirstSegment, Head;
    out, dropped := [], [];
    var i := 0;
    assert args[0..] == args;
    while i < |args|
      invariant i <= |args|
      invariant Kept(Division(args)) == out + Kept(Division(args[i..]))
      invariant Dropped(Division(args)) == dropped + Dropped(Division(args[i..]))
    {
      var arg := args[i];
      DivisionStep(args, i);
      FirstIs(args, i);
      ghost var first := FirstSegment(args[i..]);
      Regroup(out, if first.Keep? then [first.arg] else [], Kept(Division(args[i + |first.Tokens()|..])));
      Regroup(dropped, first.Spelling(), Dropped(Division(args[i + |first.Tokens()|..])));
      i := i + 1;
      if !IsReldFlag(arg) {
        out := out + [arg];
        continue;
      }
      FlagIsText(arg);
      var spelling := arg.text;
      if TakesNext(arg, Head(args[i..])) {
        spelling := spelling + " " + args[i].ToStringLossy();
        i := i + 1;
      }
      dropped := dropped + [spelling];
    }
    assert args[|args|..] == [];
    NothingLeft();
  }

  lemma {:induction false} NothingLeft()
    ensures Kept(Division([])) == [] && Dropped(Division([])) == []
  {
  }

  lemma {:induction false} FlagIsText(arg: OsString)
    requires IsReldFlag(arg)
    ensures arg.Text?
  {
  }

  lemma {:induction false} FirstIs(args: seq<OsString>, i: nat)
    requires i < |args|
    ensures FirstSegment(args[i..])
            == if !IsReldFlag(args[i]) then Keep(args[i])
               else if TakesNext(args[i], Head(args[i + 1..])) then DropPair(args[i], args[i + 1])
               else Drop(args[i])
  {
    assert args[i..][1..] == args[i + 1..];
  }

  lemma {:induction false} DivisionStep(args: seq<OsString>, i: nat)
    requires i < |args|
    ensures var first := FirstSegment(args[i..]);
            var next := i + |first.Tokens()|;
            && next <= |args|
            && Kept(Division(args[i..])) == (if first.Keep? then [first.arg] else []) + Kept(Division(args[next..]))
            && Dropped(Division(args[i..])) == first.Spelling() + Dropped(Division(args[next..]))
  {
    var first := FirstSegment(args[i..]);
    assert args[i..][|first.Tokens()|..] == args[i + |first.Tokens()|..];
  }

  lemma {:induction false} KeptHasNoReldFlag(args: seq<OsString>)
    ensures forall arg :: arg in Kept(Division(args)) ==> !IsReldFlag(arg) && arg in args
  {
    if args != [] {
      KeptHasNoReldFlag(args[|FirstSegment(args).Tokens()|..]);
    }
  }

  lemma {:induction false} NothingToStrip(args: seq<OsString>)
    requires forall arg :: arg in args ==> !IsReldFlag(arg)
    ensures Kept(Division(args)) == args && Dropped(Division(args)) == []
  {
    if args != [] {
      NothingToStrip(args[1..]);
    }
  }

  /** Stripping what was stripped changes nothing and drops nothing. */
  lemma {:induction false} StrippingIsIdempotent(args: seq<OsString>)
    ensures var out := Kept(Division(args));
            Kept(Division(out)) == out && Dropped(Division(out)) == []
  {
    KeptHasNoReldFlag(args);
    NothingToStrip(Kept(Division(args)));
  }

  /******* By position *******/

  /** Token `i` is the value of the flag before it, looking back only. */
  predicate IsValue(args: seq<OsString>, i: nat)
    requires i < |args|
  {
    i > 0 && !IsValue(args, i - 1) && TakesNext(args[i - 1], Some(args[i]))
  }

  predicate Survives(args: seq<OsString>, i: nat)
    requires i < |args|
  {
    !IsValue(args, i) && !IsReldFlag(args[i])
  }

  /** The surviving tokens from position `i` on. */
  function Survivors(args: seq<OsString>, i: nat): seq<OsString>
    requires i <= |args|
    decreases |args| - i
  {
    if i == |args| then [] else (if Survives(args, i) then [args[i]] else []) + Survivors(args, i + 1)
  }

  /** The lookahead loop forwards exactly the tokens that are neither a stripped flag nor, looking
      back, the value of one. */
  lemma {:induction false} KeptAreSurvivors(args: seq<OsString>, i: nat)
    requires i <= |args| && (i < |args| ==> !IsValue(args, i))
    ensures Kept(Division(args[i..])) == Survivors(args, i)
    decreases |args| - i
  {
    if i < |args| {
      hide IsReldFlag, TakesNext, FirstSegment, Kept, Dropped, Division;
      DivisionStep(args, i);
      FirstIs(args, i);
      FlagTakes(args[i], Head(args[i + 1..]));
      var first := FirstSegment(args[i..]);
      KeptAreSurvivors(args, i + |first.Tokens()|);
      if first.DropPair? {
        assert IsValue(args, i + 1);
      }
    } else {
      NothingLeft();
      assert args[i..] == [];
    }
  }

  lemma {:induction false} FlagTakes(arg: OsString, next: Option<OsString>)
    ensures TakesNext(arg, next) ==> IsReldFlag(arg) && next.Some?
  {
  }

  lemma {:induction false} SurvivorsStep(args: seq<OsString>, i: nat)
    requires i <= |args|
    ensures Survivors(args, i)
            == if i == |args| then [] else (if Survives(args, i) then [args[i]] else []) + Survivors(args, i + 1)
  {
    hide Survives;
  }

  lemma {:induction false} SurvivorPosition(args: seq<OsString>, i: nat, token: OsString)
    requires i <= |args|
    ensures token in Survivors(args, i) <==> exists k :: i <= k < |args| && args[k] == token && Survives(args, k)
    decreases |args| - i
  {
    hide Survives, Survivors;
    SurvivorsStep(args, i);
    if i < |args| {
      SurvivorPosition(args, i + 1, token);
    }
  }
}
