/** Joining texts with a separator and splitting them again on separator characters. */
module TextTokens {
  /** The maximal runs of non-separator characters, given the run already under way. */
  function TokensFrom(isSep: char -> bool, s: string, run: string): seq<string>
    decreases |s|
  {
    if s == [] then Run(run)
    else if isSep(s[0]) then Run(run) + TokensFrom(isSep, s[1..], [])
    else TokensFrom(isSep, s[1..], run + [s[0]])
  }

  function Run(run: string): seq<string> {
    if run == [] then [] else [run]
  }

  function Tokens(isSep: char -> bool, s: string): seq<string> {
    TokensFrom(isSep, s, [])
  }

  function Join(sep: string, ss: seq<string>): string {
    if ss == [] then [] else if |ss| == 1 then ss[0] else ss[0] + sep + Join(sep, ss[1..])
  }

  predicate AllSep(isSep: char -> bool, s: string) {
    forall c :: c in s ==> isSep(c)
  }

  /** A non-empty text with no separator in it. */
  predicate Solid(isSep: char -> bool, s: string) {
    s != [] && forall c :: c in s ==> !isSep(c)
  }

  lemma {:induction false} TokensSplit(isSep: char -> bool, a: string, c: char, b: string, run: string)
    requires isSep(c)
    ensures TokensFrom(isSep, a + [c] + b, run) == TokensFrom(isSep, a, run) + Tokens(isSep, b)
    decreases |a|
  {
    if a == [] {
      assert a + [c] + b == [c] + b;
    } else {
      assert (a + [c] + b)[1..] == a[1..] + [c] + b;
      TokensSplit(isSep, a[1..], c, b, if isSep(a[0]) then [] else run + [a[0]]);
    }
  }

  lemma {:induction false} TokensDropSeps(isSep: char -> bool, sep: string, b: string)
    requires AllSep(isSep, sep)
    ensures Tokens(isSep, sep + b) == Tokens(isSep, b)
    decreases |sep|
  {
    if sep == [] {
      assert sep + b == b;
    } else {
      assert isSep(sep[0]);
      assert (sep + b)[1..] == sep[1..] + b;
      TokensDropSeps(isSep, sep[1..], b);
    }
  }

  /** A separator run splits the tokens around it, whatever the run is. */
  lemma TokensAroundSeps(isSep: char -> bool, a: string, sep: string, b: string)
    requires sep != [] && AllSep(isSep, sep)
    ensures Tokens(isSep, a + sep + b) == Tokens(isSep, a) + Tokens(isSep, b)
  {
    assert a + sep + b == a + [sep[0]] + (sep[1..] + b);
    assert isSep(sep[0]);
    TokensSplit(isSep, a, sep[0], sep[1..] + b, []);
    TokensDropSeps(isSep, sep[1..], b);
  }

  lemma {:induction false} SolidRun(isSep: char -> bool, s: string, run: string)
    requires forall c :: c in s ==> !isSep(c)
    ensures TokensFrom(isSep, s, run) == Run(run + s)
    decreases |s|
  {
    if s == [] {
      assert run + s == run;
    } else {
      assert !isSep(s[0]);
      assert run + s == (run + [s[0]]) + s[1..];
      SolidRun(isSep, s[1..], run + [s[0]]);
    }
  }

  /** The tokens of each text in turn. */
  function TokensOfAll(isSep: char -> bool, ss: seq<string>): seq<string> {
    if ss == [] then [] else Tokens(isSep, ss[0]) + TokensOfAll(isSep, ss[1..])
  }

  lemma {:induction false} TokensOfJoin(isSep: char -> bool, sep: string, ss: seq<string>)
    requires sep != [] && AllSep(isSep, sep)
    ensures Tokens(isSep, Join(sep, ss)) == TokensOfAll(isSep, ss)
  {
    if |ss| == 1 {
      assert ss[1..] == [];
      assert TokensOfAll(isSep, ss[1..]) == [];
    } else if |ss| > 1 {
      TokensAroundSeps(isSep, ss[0], sep, Join(sep, ss[1..]));
      TokensOfJoin(isSep, sep, ss[1..]);
    }
  }

  lemma {:induction false} TokensOfSolids(isSep: char -> bool, ss: seq<string>)
    requires forall s :: s in ss ==> Solid(isSep, s)
    ensures TokensOfAll(isSep, ss) == ss
  {
    if ss != [] {
      assert Solid(isSep, ss[0]);
      SolidRun(isSep, ss[0], []);
      assert [] + ss[0] == ss[0];
      TokensOfSolids(isSep, ss[1..]);
    }
  }

  /** Every token is a non-empty run free of separators. */
  lemma {:induction false} TokensAreSolid(isSep: char -> bool, s: string, run: string)
    requires forall c :: c in run ==> !isSep(c)
    ensures forall t :: t in TokensFrom(isSep, s, run) ==> Solid(isSep, t)
    decreases |s|
  {
    if s != [] {
      TokensAreSolid(isSep, s[1..], if isSep(s[0]) then [] else run + [s[0]]);
    }
  }

  /** Joining separator-free texts and splitting the result gives them back. */
  lemma JoinRoundTrip(isSep: char -> bool, sep: string, ss: seq<string>)
    requires sep != [] && AllSep(isSep, sep)
    requires forall s :: s in ss ==> Solid(isSep, s)
    ensures Tokens(isSep, Join(sep, ss)) == ss
  {
    TokensOfJoin(isSep, sep, ss);
    TokensOfSolids(isSep, ss);
  }
}
