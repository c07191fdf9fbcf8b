/** The combo table behind the bag (app/connectors/fingerprint.py `_all_combos`, `_PROFILES`). */
module FingerprintCombos {
  import opened Sequences
  import opened Fingerprints

  datatype Version = Major(number: int) | Dotted(text: string)

  datatype Profile = Profile(family: string, osTokens: seq<string>, versions: seq<Version>)

  datatype Combo = Combo(family: string, osToken: string, version: Version, language: string)

  function OfVersion(family: string, osToken: string, languages: seq<string>, v: Version): seq<Combo> {
    FlatMap((l: string) => [Combo(family, osToken, v, l)], languages)
  }

  function OfOs(family: string, versions: seq<Version>, languages: seq<string>, osToken: string): seq<Combo> {
    FlatMap((v: Version) => OfVersion(family, osToken, languages, v), versions)
  }

  function OfProfile(languages: seq<string>, p: Profile): seq<Combo> {
    FlatMap((o: string) => OfOs(p.family, p.versions, languages, o), p.osTokens)
  }

  /** `_all_combos`. */
  function AllCombos(profiles: seq<Profile>, languages: seq<string>): seq<Combo> {
    FlatMap((p: Profile) => OfProfile(languages, p), profiles)
  }

  // ---------------------------------------------------------------- no duplicates

  lemma {:induction false} FlatMapMembers<A, B>(f: A -> seq<B>, xs: seq<A>, y: B)
    ensures y in FlatMap(f, xs) <==> exists x :: x in xs && y in f(x)
  {
    if xs != [] {
      FlatMapMembers(f, xs[1..], y);
      assert forall x :: x in xs <==> x == xs[0] || x in xs[1..];
    }
  }

  lemma {:induction false} FlatMapDistinct<A, B>(f: A -> seq<B>, xs: seq<A>)
    requires Distinct(xs)
    requires forall x :: x in xs ==> Distinct(f(x))
    requires forall x, x', y :: x in xs && x' in xs && y in f(x) && y in f(x') ==> x == x'
    ensures Distinct(FlatMap(f, xs))
  {
    if xs != [] {
      var rest := FlatMap(f, xs[1..]);
      FlatMapDistinct(f, xs[1..]);
      forall i, j | 0 <= i < |f(xs[0])| && 0 <= j < |rest|
        ensures f(xs[0])[i] != rest[j]
      {
        FlatMapMembers(f, xs[1..], rest[j]);
        var x :| x in xs[1..] && rest[j] in f(x);
        assert x in xs && x != xs[0];
      }
    }
  }

  lemma {:induction false} FlatMapLength<A, B>(f: A -> seq<B>, xs: seq<A>, n: nat)
    requires forall x :: x in xs ==> |f(x)| == n
    ensures |FlatMap(f, xs)| == |xs| * n
  {
    if xs != [] {
      assert xs[0] in xs;
      FlatMapLength(f, xs[1..], n);
      assert |xs| * n == n + (|xs| - 1) * n;
    }
  }

  ghost predicate WellFormed(profiles: seq<Profile>, languages: seq<string>) {
    && Distinct(languages)
    && (forall i, j :: 0 <= i < j < |profiles| ==> profiles[i].family != profiles[j].family)
    && (forall p :: p in profiles ==> Distinct(p.osTokens) && Distinct(p.versions))
  }

  lemma OfVersionShape(family: string, osToken: string, languages: seq<string>, v: Version)
    requires Distinct(languages)
    ensures Distinct(OfVersion(family, osToken, languages, v))
    ensures |OfVersion(family, osToken, languages, v)| == |languages|
    ensures forall c :: c in OfVersion(family, osToken, languages, v) <==>
              c.family == family && c.osToken == osToken && c.version == v && c.language in languages
  {
    var f := (l: string) => [Combo(family, osToken, v, l)];
    FlatMapDistinct(f, languages);
    FlatMapLength(f, languages, 1);
    forall c
      ensures c in OfVersion(family, osToken, languages, v) <==>
                c.family == family && c.osToken == osToken && c.version == v && c.language in languages
    {
      FlatMapMembers(f, languages, c);
      assert c in f(c.language) <==> c == Combo(family, osToken, v, c.language);
    }
  }

  lemma OfOsShape(family: string, versions: seq<Version>, languages: seq<string>, osToken: string)
    requires Distinct(languages) && Distinct(versions)
    ensures Distinct(OfOs(family, versions, languages, osToken))
    ensures |OfOs(family, versions, languages, osToken)| == |versions| * |languages|
    ensures forall c :: c in OfOs(family, versions, languages, osToken) <==>
              c.family == family && c.osToken == osToken && c.version in versions && c.language in languages
  {
    var f := (v: Version) => OfVersion(family, osToken, languages, v);
    forall v: Version
      ensures Distinct(f(v)) && |f(v)| == |languages|
      ensures forall c :: c in f(v) <==> c.family == family && c.osToken == osToken && c.version == v && c.language in languages
    {
      OfVersionShape(family, osToken, languages, v);
    }
    FlatMapDistinct(f, versions);
    FlatMapLength(f, versions, |languages|);
    forall c
      ensures c in OfOs(family, versions, languages, osToken) <==>
                c.family == family && c.osToken == osToken && c.version in versions && c.language in languages
    {
      FlatMapMembers(f, versions, c);
      assert c in f(c.version) <==> c.family == family && c.osToken == osToken && c.language in languages;
    }
  }

  lemma OfProfileShape(languages: seq<string>, p: Profile)
    requires Distinct(languages) && Distinct(p.versions) && Distinct(p.osTokens)
    ensures Distinct(OfProfile(languages, p))
    ensures |OfProfile(languages, p)| == |p.osTokens| * (|p.versions| * |languages|)
    ensures forall c :: c in OfProfile(languages, p) <==>
              c.family == p.family && c.osToken in p.osTokens && c.version in p.versions && c.language in languages
  {
    var f := (o: string) => OfOs(p.family, p.versions, languages, o);
    forall o: string
      ensures Distinct(f(o)) && |f(o)| == |p.versions| * |languages|
      ensures forall c :: c in f(o) <==> c.family == p.family && c.osToken == o && c.version in p.versions && c.language in languages
    {
      OfOsShape(p.family, p.versions, languages, o);
    }
    FlatMapDistinct(f, p.osTokens);
    FlatMapLength(f, p.osTokens, |p.versions| * |languages|);
    forall c
      ensures c in OfProfile(languages, p) <==>
                c.family == p.family && c.osToken in p.osTokens && c.version in p.versions && c.language in languages
    {
      FlatMapMembers(f, p.osTokens, c);
      assert c in f(c.osToken) <==> c.family == p.family && c.version in p.versions && c.language in languages;
    }
  }

  function TotalCombos(profiles: seq<Profile>, languages: seq<string>): nat {
    if profiles == [] then 0
    else |profiles[0].osTokens| * (|profiles[0].versions| * |languages|) + TotalCombos(profiles[1..], languages)
  }

  lemma {:induction false} AllCombosLength(profiles: seq<Profile>, languages: seq<string>)
    requires WellFormed(profiles, languages)
    ensures |AllCombos(profiles, languages)| == TotalCombos(profiles, languages)
  {
    if profiles != [] {
      assert profiles[0] in profiles;
      assert forall p :: p in profiles[1..] ==> p in profiles;
      OfProfileShape(languages, profiles[0]);
      AllCombosLength(profiles[1..], languages);
    }
  }

  /** The nested product has no duplicates, and holds exactly the internally consistent combos:
      an OS, version and language listed for the combo's own browser family. */
  lemma AllCombosDistinct(profiles: seq<Profile>, languages: seq<string>)
    requires WellFormed(profiles, languages)
    ensures Distinct(AllCombos(profiles, languages))
    ensures forall c :: c in AllCombos(profiles, languages) <==>
              exists p :: p in profiles && c.family == p.family && c.osToken in p.osTokens
                          && c.version in p.versions && c.language in languages
  {
    var f := (p: Profile) => OfProfile(languages, p);
    forall p | p in profiles
      ensures Distinct(f(p))
      ensures forall c :: c in f(p) <==>
                c.family == p.family && c.osToken in p.osTokens && c.version in p.versions && c.language in languages
    {
      OfProfileShape(languages, p);
    }
    FlatMapDistinct(f, profiles);
    forall c
      ensures c in AllCombos(profiles, languages) <==>
                exists p :: p in profiles && c.family == p.family && c.osToken in p.osTokens
                            && c.version in p.versions && c.language in languages
    {
      FlatMapMembers(f, profiles, c);
    }
  }

  // ---------------------------------------------------------------- the shipped table

  const WINDOWS := ["Windows NT 10.0; Win64; x64", "Windows NT 11.0; Win64; x64"]
  const MACOS := ["Macintosh; Intel Mac OS X 10_15_7", "Macintosh; Intel Mac OS X 13_6", "Macintosh; Intel Mac OS X 14_5"]
  const LINUX := ["X11; Linux x86_64", "X11; Ubuntu; Linux x86_64"]

  const LANGUAGES := [
    "en-US,en;q=0.9", "en-GB,en;q=0.9", "en-US,en;q=0.8,de;q=0.6",
    "en-CA,en;q=0.9,fr;q=0.6", "en-US,en;q=0.9,es;q=0.5", "en-US,en;q=0.5"]

  function Majors(from: int, to: int): seq<Version>
    requires from <= to
  {
    seq(to - from, i => Major(from + i))
  }

  const PROFILES := [
    Profile("chrome", WINDOWS + MACOS + LINUX, Majors(118, 128)),
    Profile("edge", WINDOWS + MACOS, Majors(118, 128)),
    Profile("firefox", WINDOWS + MACOS + LINUX, Majors(115, 129)),
    Profile("safari", MACOS, [Dotted("16.4"), Dotted("16.6"), Dotted("17.0"), Dotted("17.4"), Dotted("17.5")])]

  lemma AppendDistinct<T>(a: seq<T>, b: seq<T>)
    requires Distinct(a) && Distinct(b)
    requires forall i, j :: 0 <= i < |a| && 0 <= j < |b| ==> a[i] != b[j]
    ensures Distinct(a + b)
  {
  }

  lemma WindowsDistinct()
    ensures Distinct(WINDOWS) && forall i :: 0 <= i < |WINDOWS| ==> |WINDOWS[i]| == 27
  {
    assert WINDOWS[0][12] != WINDOWS[1][12];
  }

  lemma MacosDistinct()
    ensures Distinct(MACOS) && forall i :: 0 <= i < |MACOS| ==> 30 <= |MACOS[i]| <= 33
  {
    assert |MACOS[0]| == 33 && |MACOS[1]| == 30 && |MACOS[2]| == 30;
    assert MACOS[1][27] != MACOS[2][27];
  }

  lemma LinuxDistinct()
    ensures Distinct(LINUX) && forall i :: 0 <= i < |LINUX| ==> |LINUX[i]| <= 25
  {
    assert |LINUX[0]| == 17 && |LINUX[1]| == 25;
  }

  /** Lists of strings of different lengths never share one. */
  lemma AppendByLength(a: seq<string>, b: seq<string>, cut: nat)
    requires Distinct(a) && Distinct(b)
    requires (forall i :: 0 <= i < |a| ==> |a[i]| <= cut) && (forall j :: 0 <= j < |b| ==> |b[j]| > cut)
    ensures Distinct(a + b) && Distinct(b + a)
  {
    forall i, j | 0 <= i < |a| && 0 <= j < |b|
      ensures a[i] != b[j]
    {
      assert |a[i]| <= cut < |b[j]|;
    }
    AppendDistinct(a, b);
    AppendDistinct(b, a);
  }

  lemma OsTokensDistinct()
    ensures Distinct(WINDOWS + MACOS + LINUX) && Distinct(WINDOWS + MACOS) && Distinct(MACOS)
  {
    WindowsDistinct();
    MacosDistinct();
    LinuxDistinct();
    AppendByLength(WINDOWS, MACOS, 27);
    var desktop := WINDOWS + MACOS;
    assert forall i :: 0 <= i < |desktop| ==> |desktop[i]| > 25;
    AppendByLength(LINUX, desktop, 25);
  }

  lemma LanguagesDistinct()
    ensures Distinct(LANGUAGES)
  {
    var l := LANGUAGES;
    assert |l[0]| == 14 && |l[1]| == 14 && |l[2]| == 23 && |l[3]| == 23 && |l[4]| == 23 && |l[5]| == 14;
    assert l[0][3] == 'U' && l[1][3] == 'G' && l[0][13] == '9' && l[5][13] == '5' && l[5][3] == 'U';
    assert l[2][3] == 'U' && l[3][3] == 'C' && l[4][3] == 'U' && l[2][13] == '8' && l[4][13] == '9';
  }

  lemma VersionsDistinct()
    ensures Distinct(Majors(118, 128)) && Distinct(Majors(115, 129))
    ensures Distinct([Dotted("16.4"), Dotted("16.6"), Dotted("17.0"), Dotted("17.4"), Dotted("17.5")])
  {
    var s := ["16.4", "16.6", "17.0", "17.4", "17.5"];
    assert s[0][1] == s[1][1] == '6' && s[2][1] == s[3][1] == s[4][1] == '7';
    assert s[0][3] == '4' && s[1][3] == '6' && s[2][3] == '0' && s[3][3] == '4' && s[4][3] == '5';
  }

  /** The shipped table is well formed and multiplies out to 1398 combos. */
  lemma ShippedTable()
    ensures WellFormed(PROFILES, LANGUAGES)
    ensures |AllCombos(PROFILES, LANGUAGES)| == 1398
  {
    OsTokensDistinct();
    LanguagesDistinct();
    VersionsDistinct();
    assert |PROFILES[0].family| == 6 && |PROFILES[1].family| == 4 && |PROFILES[2].family| == 7 && |PROFILES[3].family| == 6;
    assert PROFILES[0].family[0] == 'c' && PROFILES[3].family[0] == 's';
    AllCombosLength(PROFILES, LANGUAGES);
    TotalOfFour(PROFILES, LANGUAGES);
  }

  lemma TotalOfFour(ps: seq<Profile>, languages: seq<string>)
    requires |ps| == 4
    ensures TotalCombos(ps, languages)
         == |ps[0].osTokens| * (|ps[0].versions| * |languages|) + |ps[1].osTokens| * (|ps[1].versions| * |languages|)
          + |ps[2].osTokens| * (|ps[2].versions| * |languages|) + |ps[3].osTokens| * (|ps[3].versions| * |languages|)
  {
    assert ps[1..][1..] == ps[2..] && ps[2..][1..] == ps[3..];
    assert ps[3..][1..] == [];
    assert TotalCombos(ps[3..], languages) == |ps[3].osTokens| * (|ps[3].versions| * |languages|);
    assert TotalCombos(ps[2..], languages)
        == |ps[2].osTokens| * (|ps[2].versions| * |languages|) + TotalCombos(ps[3..], languages);
  }

  /** So with the shipped table no two consecutive requests carry the same fingerprint, and any
      2795 consecutive ones go through all of them. */
  lemma ShippedDraws(shuffles: seq<seq<Combo>>, from: nat)
    requires ValidShuffles(AllCombos(PROFILES, LANGUAGES), shuffles)
    ensures NoRepeat(After(shuffles).drawn)
    ensures |After(shuffles).drawn| == |shuffles|
    ensures from + 2795 <= |shuffles| ==>
              forall c :: c in AllCombos(PROFILES, LANGUAGES) ==> c in After(shuffles).drawn[from..from + 2795]
  {
    ShippedTable();
    AllCombosDistinct(PROFILES, LANGUAGES);
    DrawsOf(AllCombos(PROFILES, LANGUAGES), 1398, shuffles, from);
  }
}
