/** How a version-script pattern is classified, and what an exact one stands for. */
module Glob {
  import opened Arithmetic

  const BACKSLASH: byte := 92
  const STAR: byte := 42
  const QUESTION: byte := 63
  const OPEN: byte := 91
  const CLOSE: byte := 93

  datatype PatternType = Exact | EscapedExact | Star | NonStar

  predicate IsWild(b: byte) {
    b == OPEN || b == CLOSE || b == QUESTION
  }

  predicate IsSpecial(b: byte) {
    b == STAR || b == BACKSLASH || IsWild(b)
  }

  /** The byte is the ASCII code of the character. */
  predicate Is(b: byte, c: char) {
    b as char == c
  }

  /** Position `i` is taken literally because of the backslash before it. */
  predicate Escaped(pattern: seq<byte>, i: nat)
    requires i < |pattern|
  {
    i > 0 && Is(pattern[i - 1], '\\') && !Escaped(pattern, i - 1)
  }

  ghost predicate HasStar(pattern: seq<byte>) {
    exists i :: 0 <= i < |pattern| && Is(pattern[i], '*') && !Escaped(pattern, i)
  }

  ghost predicate HasWild(pattern: seq<byte>) {
    exists i :: 0 <= i < |pattern| && !Escaped(pattern, i)
                && (Is(pattern[i], '[') || Is(pattern[i], ']') || Is(pattern[i], '?'))
  }

  ghost predicate HasBackslash(pattern: seq<byte>) {
    exists i :: 0 <= i < |pattern| && Is(pattern[i], '\\')
  }

  /** `analyze_glob_pattern`: a pattern without special bytes is answered at once, and its loop would
      have answered the same. */
  method AnalyzeGlobPattern(pattern: seq<byte>) returns (t: PatternType)
    ensures t == Star <==> HasStar(pattern)
    ensures t == NonStar <==> !HasStar(pattern) && HasWild(pattern)
    ensures t == EscapedExact <==> !HasStar(pattern) && !HasWild(pattern) && HasBackslash(pattern)
  {
    if !(exists i :: 0 <= i < |pattern| && IsSpecial(pattern[i])) {
      return Exact;
    }
    t := ScanPattern(pattern);
  }

  /** The loop alone. */
  method ScanPattern(pattern: seq<byte>) returns (t: PatternType)
    ensures t == Star <==> HasStar(pattern)
    ensures t == NonStar <==> !HasStar(pattern) && HasWild(pattern)
    ensures t == EscapedExact <==> !HasStar(pattern) && !HasWild(pattern) && HasBackslash(pattern)
  {
    t := Exact;
    var i := 0;
    while i < |pattern|
      invariant i <= |pattern| + 1
      invariant i < |pattern| ==> !Escaped(pattern, i)
      invariant t != Star
      invariant forall k :: 0 <= k < i && k < |pattern| && pattern[k] == STAR ==> Escaped(pattern, k)
      invariant t == NonStar <==> exists k :: 0 <= k < i && k < |pattern| && IsWild(pattern[k]) && !Escaped(pattern, k)
      invariant t == Exact ==> forall k :: 0 <= k < i && k < |pattern| ==> pattern[k] != BACKSLASH
      invariant t == EscapedExact ==> HasBackslash(pattern)
    {
      var c := pattern[i];
      if c == BACKSLASH {
        if t == Exact {
          t := EscapedExact;
        }
        assert i + 1 < |pattern| ==> Escaped(pattern, i + 1);
        i := i + 2;
      } else if c == STAR {
        return Star;
      } else {
        if IsWild(c) {
          t := NonStar;
        }
        i := i + 1;
      }
    }
  }

  /** The bytes of a pattern with its escapes resolved; a last lone backslash stays. */
  function Unescaped(pattern: seq<byte>): seq<byte> {
    if pattern == [] then []
    else if pattern[0] == BACKSLASH && |pattern| > 1 then [pattern[1]] + Unescaped(pattern[2..])
    else [pattern[0]] + Unescaped(pattern[1..])
  }

  /** `unescape_pattern`. */
  method UnescapePattern(pattern: seq<byte>) returns (result: seq<byte>)
    ensures result == Unescaped(pattern)
  {
    hide Unescaped;
    result := [];
    var i := 0;
    assert pattern[0..] == pattern;
    while i < |pattern|
      invariant i <= |pattern|
      invariant Unescaped(pattern) == result + Unescaped(pattern[i..])
    {
      UnescapedStep(pattern, i);
      var c := pattern[i];
      i := i + 1;
      if c == BACKSLASH {
        if i < |pattern| {
          result := result + [pattern[i]];
          i := i + 1;
        } else {
          result := result + [c];
        }
      } else {
        result := result + [c];
      }
    }
    assert pattern[|pattern|..] == [];
    UnescapedNothing();
  }

  lemma {:induction false} UnescapedNothing()
    ensures Unescaped([]) == []
  {
  }

  lemma {:induction false} UnescapedStep(pattern: seq<byte>, i: nat)
    requires i < |pattern|
    ensures Unescaped(pattern[i..])
            == if pattern[i] == BACKSLASH && i + 1 < |pattern| then [pattern[i + 1]] + Unescaped(pattern[i + 2..])
               else [pattern[i]] + Unescaped(pattern[i + 1..])
  {
    assert pattern[i..][1..] == pattern[i + 1..];
    if i + 1 < |pattern| {
      assert pattern[i..][2..] == pattern[i + 2..];
    }
  }

  /******* Matching *******/

  /** Whether a bracket expression's body admits a byte: `!` negates, `a-b` is a range. */
  function Admits(body: seq<byte>, b: byte): bool {
    if body != [] && Is(body[0], '!') then !OneOf(body[1..], b) else OneOf(body, b)
  }

  function OneOf(body: seq<byte>, b: byte): bool {
    if body == [] then false
    else if |body| >= 3 && Is(body[1], '-') then body[0] <= b <= body[2] || OneOf(body[3..], b)
    else body[0] == b || OneOf(body[1..], b)
  }

  /** Where the bracket expression that starts the pattern closes. */
  function Closing(pattern: seq<byte>, from: nat): (r: nat)
    requires from <= |pattern|
    ensures from <= r <= |pattern|
    decreases |pattern| - from
  {
    if from == |pattern| || Is(pattern[from], ']') then from else Closing(pattern, from + 1)
  }

  /** Shell-style matching with backslash escapes: `*` is any run, `?` any byte, `[…]` one of a set; a
      bracket that does not close or open matches nothing. */
  ghost predicate Matches(pattern: seq<byte>, s: seq<byte>)
    decreases |pattern|
  {
    if pattern == [] then s == []
    else if Is(pattern[0], '*') then exists k: nat :: k <= |s| && Matches(pattern[1..], s[k..])
    else if s == [] then false
    else if Is(pattern[0], '?') then Matches(pattern[1..], s[1..])
    else if Is(pattern[0], ']') then false
    else if Is(pattern[0], '[') then
      var end := Closing(pattern, 1);
      end < |pattern| && Admits(pattern[1..end], s[0]) && Matches(pattern[end + 1..], s[1..])
    else if Is(pattern[0], '\\') && |pattern| > 1 then pattern[1] == s[0] && Matches(pattern[2..], s[1..])
    else pattern[0] == s[0] && Matches(pattern[1..], s[1..])
  }

  /** Looking back from a position that starts a token, escapes are those of the rest alone. */
  lemma {:induction false} EscapedTail(pattern: seq<byte>, from: nat, i: nat)
    requires from <= |pattern| && i < |pattern| - from && (from < |pattern| ==> !Escaped(pattern, from))
    ensures Escaped(pattern[from..], i) == Escaped(pattern, from + i)
  {
    if i > 0 {
      EscapedTail(pattern, from, i - 1);
    }
  }

  lemma {:induction false} TailIsPlain(pattern: seq<byte>, from: nat)
    requires from <= |pattern| && (from < |pattern| ==> !Escaped(pattern, from))
    requires !HasStar(pattern) && !HasWild(pattern)
    ensures !HasStar(pattern[from..]) && !HasWild(pattern[from..])
  {
    var tail := pattern[from..];
    forall i | 0 <= i < |tail| ensures !Escaped(tail, i) ==> tail[i] != STAR && !IsWild(tail[i]) {
      EscapedTail(pattern, from, i);
    }
  }

  /** A pattern that is neither `Star` nor `NonStar` matches exactly its unescaped form. */
  lemma {:induction false} ExactMatchesUnescaped(pattern: seq<byte>, s: seq<byte>)
    requires !HasStar(pattern) && !HasWild(pattern)
    ensures Matches(pattern, s) <==> s == Unescaped(pattern)
    decreases |pattern|
  {
    if pattern != [] {
      assert !Escaped(pattern, 0);
      assert pattern[0] != STAR && !IsWild(pattern[0]);
      var n := if pattern[0] == BACKSLASH && |pattern| > 1 then 2 else 1;
      TailIsPlain(pattern, n);
      if s != [] {
        ExactMatchesUnescaped(pattern[n..], s[1..]);
        assert s == [s[0]] + s[1..];
      }
    }
  }

  /** Without special bytes there is nothing to resolve. */
  lemma {:induction false} ExactIsItself(pattern: seq<byte>)
    requires !HasBackslash(pattern)
    ensures Unescaped(pattern) == pattern
  {
    if pattern != [] {
      ExactIsItself(pattern[1..]);
    }
  }

  /** A backslash before every special byte. */
  function Escape(s: seq<byte>): seq<byte> {
    if s == [] then [] else (if IsSpecial(s[0]) then [BACKSLASH, s[0]] else [s[0]]) + Escape(s[1..])
  }

  lemma {:induction false} UnescapeEscape(s: seq<byte>)
    ensures Unescaped(Escape(s)) == s
  {
    if s != [] {
      hide Unescaped, IsSpecial;
      UnescapeEscape(s[1..]);
      if IsSpecial(s[0]) {
        UnescapePair(s[0], Escape(s[1..]));
      } else {
        UnescapeLiteral(s[0], Escape(s[1..]));
      }
      assert s == [s[0]] + s[1..];
    }
  }

  lemma {:induction false} UnescapePair(b: byte, rest: seq<byte>)
    ensures Unescaped([BACKSLASH, b] + rest) == [b] + Unescaped(rest)
  {
    assert ([BACKSLASH, b] + rest)[2..] == rest;
  }

  lemma {:induction false} UnescapeLiteral(b: byte, rest: seq<byte>)
    requires !IsSpecial(b)
    ensures Unescaped([b] + rest) == [b] + Unescaped(rest)
  {
    assert ([b] + rest)[1..] == rest;
  }

  lemma {:induction false} EscapeIsPlain(s: seq<byte>)
    ensures !HasStar(Escape(s)) && !HasWild(Escape(s))
  {
    if s != [] {
      var e := Escape(s);
      var n := if IsSpecial(s[0]) then 2 else 1;
      EscapeIsPlain(s[1..]);
      assert e[n..] == Escape(s[1..]);
      if n == 2 {
        assert e[0] == BACKSLASH && !Escaped(e, 0);
        assert Escaped(e, 1);
      }
      assert n < |e| ==> !Escaped(e, n);
      forall i | 0 <= i < |e| ensures !Escaped(e, i) ==> e[i] != STAR && !IsWild(e[i]) {
        if i >= n {
          EscapedTail(e, n, i - n);
          assert e[i] == Escape(s[1..])[i - n];
        }
      }
    }
  }

  /** An escaped string is an exact pattern, and the only thing it matches is the string. */
  lemma {:induction false} EscapedMatchesItself(s: seq<byte>, t: seq<byte>)
    ensures Matches(Escape(s), t) <==> t == s
  {
    EscapeIsPlain(s);
    ExactMatchesUnescaped(Escape(s), t);
    UnescapeEscape(s);
  }
}
