/** What stripping does to a command line, flag name by flag name. */
module StripByName {
  import opened CommandLine
  import opened StripFlags
  import opened Wrappers

  predicate NeverTakesValue(name: string) {
    || name in {"update-in-place", "no-update-in-place", "mmap-output-file", "no-mmap-output-file"}
    || name in {"fallocate-output-file", "no-fallocate-output-file", "madvise-huge-pages", "no-madvise-huge-pages"}
    || name in {"no-threads", "fork", "no-fork", "prepopulate-maps", "no-identity-comment", "no-string-merge"}
  }

  predicate MayTakeValue(name: string) {
    name == "time" || name == "threads"
  }

  predicate AlwaysTakesValue(name: string) {
    name in {"thread-count", "debug-fuel", "reld-experiments", "gc-stats-ignore", "nix-rpath"}
  }

  predicate IsStripped(name: string) {
    NeverTakesValue(name) || MayTakeValue(name) || AlwaysTakesValue(name)
  }

  /** A token that stands for nothing else: written `--name`. */
  function Bare(name: string): OsString {
    Text("--" + name)
  }

  /** Written `--name=value`. */
  function Joined(name: string, value: string): OsString {
    Text("--" + name + "=" + value)
  }

  predicate IsOption(arg: OsString) {
    arg.Text? && arg.text != "" && arg.text[0] == '-'
  }

  lemma {:induction false} TableByName(name: string)
    ensures name in STRIPPED_FLAGS <==> IsStripped(name)
    ensures NeverTakesValue(name) ==> STRIPPED_FLAGS[name] == NoValue
    ensures MayTakeValue(name) ==> STRIPPED_FLAGS[name] == Optional
    ensures AlwaysTakesValue(name) ==> STRIPPED_FLAGS[name] == Required
  {
  }

  lemma {:induction false} NameOfBare(name: string, value: string)
    requires '=' !in name
    ensures NameOf(name) == name && NameOf(name + "=" + value) == name
  {
    if name != [] {
      assert (name + "=" + value)[1..] == name[1..] + "=" + value;
      NameOfBare(name[1..], value);
      assert name == [name[0]] + name[1..];
    } else {
      assert name + "=" + value == "=" + value;
    }
  }

  lemma {:induction false} AfterDashes(s: string)
    ensures StripPrefix("--" + s, "--") == Some(s) && ("--" + s)[2..] == s
  {
    assert ("--" + s)[..2] == "--";
  }

  /** Both spellings of a name have its kind; what the table does not name has none. */
  lemma {:induction false} KindByName(name: string, value: string)
    requires '=' !in name
    ensures FlagKind(Bare(name)) == FlagKind(Joined(name, value))
    ensures FlagKind(Bare(name))
            == if AlwaysTakesValue(name) then Some(Required)
               else if MayTakeValue(name) then Some(Optional)
               else if NeverTakesValue(name) then Some(NoValue)
               else None
  {
    hide NameOf, StripPrefix, AlwaysTakesValue, MayTakeValue, NeverTakesValue;
    NameOfBare(name, value);
    TableByName(name);
    hide STRIPPED_FLAGS;
    AfterDashes(name);
    AfterDashes(name + "=" + value);
    assert "--" + name + "=" + value == "--" + (name + "=" + value);
  }

  lemma {:induction false} DashIsOption(arg: OsString)
    requires arg.Text?
    ensures StartsWith(arg.text, "-") <==> IsOption(arg)
  {
    assert IsOption(arg) ==> arg.text[..1] == "-";
    assert StartsWith(arg.text, "-") ==> arg.text[..1][0] == '-';
  }

  /** Whether a bare flag takes the next token as its value: by its name, and for the optional ones by
      whether that token begins with a dash. */
  predicate TakesAsValue(name: string, next: OsString) {
    AlwaysTakesValue(name) || (MayTakeValue(name) && !IsOption(next))
  }

  lemma {:induction false} BareTakes(name: string, rest: seq<OsString>)
    requires '=' !in name && IsStripped(name)
    ensures IsReldFlag(Bare(name))
    ensures TakesNext(Bare(name), Head(rest)) <==> rest != [] && TakesAsValue(name, rest[0])
  {
    hide AlwaysTakesValue, MayTakeValue, NeverTakesValue, FlagKind, StartsWith;
    KindByName(name, "");
    AfterDashes(name);
    TakesOneWay(name);
    if rest != [] && rest[0].Text? {
      DashIsOption(rest[0]);
    }
  }

  lemma {:induction false} TakesOneWay(name: string)
    ensures AlwaysTakesValue(name) ==> !MayTakeValue(name) && !NeverTakesValue(name)
    ensures MayTakeValue(name) ==> !NeverTakesValue(name)
  {
  }

  lemma {:induction false} JoinedTakesNothing(name: string, value: string, next: Option<OsString>)
    requires '=' !in name && IsStripped(name)
    ensures IsReldFlag(Joined(name, value)) && !TakesNext(Joined(name, value), next)
  {
    hide AlwaysTakesValue, MayTakeValue, NeverTakesValue, FlagKind;
    KindByName(name, value);
    AfterDashes(name + "=" + value);
    assert "--" + name + "=" + value == "--" + (name + "=" + value);
    assert (name + "=" + value)[|name|] == '=';
  }

  lemma {:induction false} Unfold(arg: OsString, rest: seq<OsString>)
    ensures var first := FirstSegment([arg] + rest);
            && |first.Tokens()| <= 1 + |rest|
            && Division([arg] + rest) == [first] + Division(([arg] + rest)[|first.Tokens()|..])
    ensures FirstSegment([arg] + rest)
            == if !IsReldFlag(arg) then Keep(arg)
               else if TakesNext(arg, Head(rest)) then DropPair(arg, rest[0])
               else Drop(arg)
  {
    assert ([arg] + rest)[1..] == rest;
    hide IsReldFlag, TakesNext;
    FlagTakes(arg, Head(rest));
  }

  lemma {:induction false} KeptAndDropped(segments: seq<Segment>)
    requires segments != []
    ensures Kept(segments) == (if segments[0].Keep? then [segments[0].arg] else []) + Kept(segments[1..])
    ensures Dropped(segments) == segments[0].Spelling() + Dropped(segments[1..])
  {
  }

  /** A stripped flag written with `=` is dropped alone, and what follows it is judged for itself. */
  lemma {:induction false} JoinedIsDroppedAlone(name: string, value: string, rest: seq<OsString>)
    requires '=' !in name && IsStripped(name)
    ensures var args := [Joined(name, value)] + rest;
            && Kept(Division(args)) == Kept(Division(rest))
            && Dropped(Division(args)) == ["--" + name + "=" + value] + Dropped(Division(rest))
  {
    hide Division, IsReldFlag, TakesNext, IsStripped, Kept, Dropped;
    var arg := Joined(name, value);
    JoinedTakesNothing(name, value, Head(rest));
    Unfold(arg, rest);
    assert ([arg] + rest)[1..] == rest;
    KeptAndDropped(Division([arg] + rest));
  }

  /** A bare stripped flag is dropped with the next token when it takes one, reported with a space
      between them, and alone otherwise. */
  lemma {:induction false} BareIsDropped(name: string, rest: seq<OsString>)
    requires '=' !in name && IsStripped(name)
    ensures var args := [Bare(name)] + rest;
            if rest != [] && TakesAsValue(name, rest[0]) then
              && Kept(Division(args)) == Kept(Division(rest[1..]))
              && Dropped(Division(args)) == ["--" + name + " " + rest[0].ToStringLossy()] + Dropped(Division(rest[1..]))
            else
              && Kept(Division(args)) == Kept(Division(rest))
              && Dropped(Division(args)) == ["--" + name] + Dropped(Division(rest))
  {
    hide Division, IsReldFlag, TakesNext, IsStripped, TakesAsValue, Kept, Dropped;
    var arg := Bare(name);
    BareTakes(name, rest);
    Unfold(arg, rest);
    assert ([arg] + rest)[1..] == rest;
    if rest != [] {
      assert ([arg] + rest)[2..] == rest[1..];
    }
    KeptAndDropped(Division([arg] + rest));
  }

  /** Written like a stripped flag: two dashes, a name of the table, and nothing or `=` and a value. */
  ghost predicate WrittenAsStripped(arg: OsString) {
    exists name: string :: WrittenAs(arg, name) && IsStripped(name)
  }

  ghost predicate WrittenAs(arg: OsString, name: string) {
    '=' !in name && (arg == Bare(name) || exists value :: arg == Joined(name, value))
  }

  lemma {:induction false} FlagIsWritten(arg: OsString)
    ensures IsReldFlag(arg) <==> WrittenAsStripped(arg)
  {
    if name: string :| WrittenAs(arg, name) && IsStripped(name) {
      hide IsStripped, FlagKind;
      BareTakes(name, []);
      if arg != Bare(name) {
        var value :| arg == Joined(name, value);
        JoinedTakesNothing(name, value, None);
      }
    }
    if IsReldFlag(arg) {
      FlagNames(arg);
    }
  }

  lemma {:induction false} FlagNames(arg: OsString)
    requires IsReldFlag(arg)
    ensures WrittenAsStripped(arg)
  {
    hide STRIPPED_FLAGS, IsStripped, NameOf;
    var bare := arg.text[2..];
    var name := NameOf(bare);
    assert arg.text == "--" + bare;
    NameEndsAtEquals(bare);
    TableByName(name);
    if '=' in bare {
      var value := bare[|name| + 1..];
      assert bare == name + "=" + value;
      assert "--" + bare == "--" + name + "=" + value;
      assert arg == Joined(name, value);
    } else {
      assert arg == Bare(name);
    }
    assert WrittenAs(arg, name);
  }

  /** Every other token is forwarded. */
  lemma {:induction false} OthersAreKept(arg: OsString, rest: seq<OsString>)
    requires !WrittenAsStripped(arg)
    ensures Kept(Division([arg] + rest)) == [arg] + Kept(Division(rest))
    ensures Dropped(Division([arg] + rest)) == Dropped(Division(rest))
  {
    hide Division, IsReldFlag, TakesNext, WrittenAsStripped, Kept, Dropped;
    FlagIsWritten(arg);
    Unfold(arg, rest);
    assert ([arg] + rest)[1..] == rest;
    KeptAndDropped(Division([arg] + rest));
    assert [] + Dropped(Division(rest)) == Dropped(Division(rest));
  }

  /** An object file behind a flag that has its value already stays. */
  lemma {:induction false} ObjectBehindJoinedStays()
    ensures Kept(Division([Text("--threads=4"), Text("a.o")])) == [Text("a.o")]
  {
    var rest := [Text("a.o")];
    assert "--" + "threads" + "=" + "4" == "--threads=4";
    JoinedIsDroppedAlone("threads", "4", rest);
    assert !WrittenAsStripped(Text("a.o")) by { NotWithoutDashes("a.o"); }
    OthersAreKept(Text("a.o"), []);
    assert rest == [Text("a.o")] + [];
    assert [Text("--threads=4"), Text("a.o")] == [Joined("threads", "4")] + rest;
    NothingLeft();
  }

  lemma {:induction false} NotWithoutDashes(s: string)
    requires s != "" && s[0] != '-'
    ensures !WrittenAsStripped(Text(s))
  {
    forall name: string ensures Text(s) != Bare(name) {
      assert ("--" + name)[0] == '-';
    }
    forall name: string, value: string ensures Text(s) != Joined(name, value) {
      assert ("--" + name + "=" + value)[0] == '-';
    }
  }
}
