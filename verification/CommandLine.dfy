/** Command-line tokens and the prefix tests made on them. */
module CommandLine {
  import opened Wrappers

  /** One argument: valid UTF-8, or bytes known here only by their lossy rendering. */
  datatype OsString = Text(text: string) | Raw(lossy: string)
  {
    function ToStringLossy(): string {
      match this
      case Text(s) => s
      case Raw(s) => s
    }
  }

  predicate StartsWith(s: string, prefix: string) {
    |prefix| <= |s| && s[..|prefix|] == prefix
  }

  function StripPrefix(s: string, prefix: string): (r: Option<string>)
    ensures r.Some? <==> StartsWith(s, prefix)
    ensures r.Some? ==> s == prefix + r.value
  {
    if StartsWith(s, prefix) then Some(s[|prefix|..]) else None
  }

  lemma {:induction false} StartsWithMeans(s: string, prefix: string)
    ensures StartsWith(s, prefix) <==> exists rest: string :: s == prefix + rest
    ensures forall rest: string :: StripPrefix(s, prefix) == Some(rest) <==> s == prefix + rest
  {
    if StartsWith(s, prefix) {
      assert s == prefix + s[|prefix|..];
    }
    forall rest: string | s == prefix + rest ensures StripPrefix(s, prefix) == Some(rest) {
      assert s[..|prefix|] == prefix && s[|prefix|..] == rest;
    }
  }

  function Texts(tokens: seq<string>): (r: seq<OsString>)
    ensures |r| == |tokens| && forall i :: 0 <= i < |r| ==> r[i] == Text(tokens[i])
  {
    seq(|tokens|, i requires 0 <= i < |tokens| => Text(tokens[i]))
  }

  /** Those elements that pass the test, in order. */
  function Filter<T(!new)>(keep: T -> bool, xs: seq<T>): (r: seq<T>)
    ensures forall x :: x in r <==> x in xs && keep(x)
  {
    if xs == [] then [] else (if keep(xs[0]) then [xs[0]] else []) + Filter(keep, xs[1..])
  }

  lemma {:induction false} FilterAppend<T(!new)>(keep: T -> bool, xs: seq<T>, ys: seq<T>)
    ensures Filter(keep, xs + ys) == Filter(keep, xs) + Filter(keep, ys)
  {
    if xs == [] {
      assert xs + ys == ys;
    } else {
      assert (xs + ys)[1..] == xs[1..] + ys;
      FilterAppend(keep, xs[1..], ys);
    }
  }
}
