/** A release version (major.minor.patch, a stability tier and a pre-release counter),
    its canonical text, and the rule engine that computes the legal next releases. */
module Versions {
  import Decimal

  /** Stability tiers, from least to most mature; the source stores them as 0..3. */
  datatype Stability = Alpha | Beta | Rc | Stable

  function Index(s: Stability): (i: nat)
    ensures i < 4
  {
    match s
    case Alpha => 0
    case Beta => 1
    case Rc => 2
    case Stable => 3
  }

  /** The tier stored under an index: the inverse of Index. */
  function TierAt(i: nat): (s: Stability)
    requires i < 4
    ensures Index(s) == i
  {
    if i == 0 then Alpha else if i == 1 then Beta else if i == 2 then Rc else Stable
  }

  /** ASCII upper-casing, as `strtoupper` does it. */
  function UpperChar(c: char): char {
    if 'a' <= c <= 'z' then (c as int - 32) as char else c
  }

  function Upper(s: string): (r: string)
    ensures |r| == |s| && forall i :: 0 <= i < |s| ==> r[i] == UpperChar(s[i])
  {
    if s == [] then [] else [UpperChar(s[0])] + Upper(s[1..])
  }

  /** The name of a tier, as the keys of the tier table and the increase kinds spell it. */
  function StabilityNamed(name: string): Option<Stability> {
    if name == "alpha" then Some(Alpha)
    else if name == "beta" then Some(Beta)
    else if name == "rc" then Some(Rc)
    else if name == "stable" then Some(Stable)
    else None
  }

  /** The upper-cased tier name used in canonical text. */
  function UpperName(s: Stability): string {
    match s
    case Alpha => "ALPHA"
    case Beta => "BETA"
    case Rc => "RC"
    case Stable => "STABLE"
  }

  /** The tier table has exactly the four lower-case names, and the name a version's text
      shows is the upper-cased table key of its tier. */
  lemma TierTable(name: string)
    ensures StabilityNamed(name).Some? <==> name == "alpha" || name == "beta" || name == "rc" || name == "stable"
    ensures StabilityNamed(name).Some? ==> Upper(name) == UpperName(StabilityNamed(name).value)
  {
  }

  datatype Option<T> = None | Some(value: T)

  datatype Error =
    | StableWithMetaver            // a stable version was given a non-zero pre-release counter
    | UnknownIncrease(kind: string)  // an increase kind outside the accepted eight

  datatype Result<T> = Ok(value: T) | Err(error: Error)

  /** A version. `full` is the canonical text derived at construction; it is the only
      thing equality looks at. */
  datatype Version = Version(major: nat, minor: nat, patch: nat, stability: Stability, metaver: nat, full: string)

  /** Whether the canonical text carries the tier and counter: only for an unstable
      version past 0.x. */
  predicate ShowsStability(major: nat, stability: Stability) {
    major > 0 && stability != Stable
  }

  function Suffix(major: nat, stability: Stability, metaver: nat): string {
    if ShowsStability(major, stability) then "-" + UpperName(stability) + Decimal.Format(metaver) else ""
  }

  /** The canonical text: `M.m.p-TIERn` for an unstable version past 0.x, `M.m.p` otherwise. */
  function Render(major: nat, minor: nat, patch: nat, stability: Stability, metaver: nat): string {
    Decimal.Format(major) + "." + Decimal.Format(minor) + "." + Decimal.Format(patch) + Suffix(major, stability, metaver)
  }

  /** The tier actually stored: 0.x versions are always Alpha. */
  function Normalise(major: nat, stability: Stability): Stability {
    if major == 0 then Alpha else stability
  }

  /** The construction succeeds unless the stored tier is Stable with a counter. */
  predicate Accepted(major: nat, stability: Stability, metaver: nat) {
    Normalise(major, stability) != Stable || metaver == 0
  }

  /** What every constructed version satisfies. */
  predicate WellFormed(v: Version) {
    && (v.major == 0 ==> v.stability == Alpha)
    && (v.stability == Stable ==> v.metaver == 0)
    && v.full == Render(v.major, v.minor, v.patch, v.stability, v.metaver)
  }

  /** The constructor, for callers that never pass a stable version with a counter. */
  function Make(major: nat, minor: nat, patch: nat, stability: Stability, metaver: nat := 0): (v: Version)
    requires Accepted(major, stability, metaver)
    ensures WellFormed(v)
    ensures v.major == major && v.minor == minor && v.patch == patch && v.metaver == metaver
    ensures v.stability == Normalise(major, stability)
  {
    var s := Normalise(major, stability);
    Version(major, minor, patch, s, metaver, Render(major, minor, patch, s, metaver))
  }

  /** The constructor with its failure: a stable version past 0.x with a counter is refused. */
  function Create(major: nat, minor: nat, patch: nat, stability: Stability, metaver: nat := 0): (r: Result<Version>)
    ensures r.Err? <==> major > 0 && stability == Stable && metaver > 0
    ensures r.Err? ==> r.error == StableWithMetaver
    ensures r.Ok? ==> WellFormed(r.value) && r.value.major == major && r.value.minor == minor
                      && r.value.patch == patch && r.value.metaver == metaver
                      && r.value.stability == (if major == 0 then Alpha else stability)
  {
    if Accepted(major, stability, metaver) then Ok(Make(major, minor, patch, stability, metaver))
    else Err(StableWithMetaver)
  }

  // ---------------------------------------------------------------------------------------
  // Canonical form, equality and order

  /** The canonical text as a tuple: the tier and counter count only when shown; a version
      whose text has no suffix ranks as a release (tier 3, counter 0). */
  datatype Canonical = Canonical(major: nat, minor: nat, patch: nat, tier: nat, meta: nat)

  function CanonicalOf(major: nat, minor: nat, patch: nat, stability: Stability, metaver: nat): Canonical {
    if ShowsStability(major, stability) then Canonical(major, minor, patch, Index(stability), metaver)
    else Canonical(major, minor, patch, 3, 0)
  }

  function CanonicalForm(v: Version): Canonical {
    CanonicalOf(v.major, v.minor, v.patch, v.stability, v.metaver)
  }

  /** Equality of versions compares canonical texts only. */
  function EqualTo(a: Version, b: Version): (r: bool)
    ensures WellFormed(a) && WellFormed(b) ==> (r <==> CanonicalForm(a) == CanonicalForm(b))
  {
    RenderInjective(a.major, a.minor, a.patch, a.stability, a.metaver, b.major, b.minor, b.patch, b.stability, b.metaver);
    a.full == b.full
  }

  /** Lexicographic order on canonical tuples. */
  predicate Less(x: Canonical, y: Canonical) {
    || x.major < y.major
    || (x.major == y.major && x.minor < y.minor)
    || (x.major == y.major && x.minor == y.minor && x.patch < y.patch)
    || (x.major == y.major && x.minor == y.minor && x.patch == y.patch && x.tier < y.tier)
    || (x.major == y.major && x.minor == y.minor && x.patch == y.patch && x.tier == y.tier && x.meta < y.meta)
  }

  /** `a` is an older release than `b`: the comparison of their canonical texts. */
  predicate Precedes(a: Version, b: Version) {
    Less(CanonicalForm(a), CanonicalForm(b))
  }

  // ---------------------------------------------------------------------------------------
  // The canonical text determines the canonical tuple

  lemma UpperNameFirst(s: Stability)
    ensures |UpperName(s)| > 0
    ensures UpperName(s)[0] == (match s case Alpha => 'A' case Beta => 'B' case Rc => 'R' case Stable => 'S')
  {
  }

  /** The suffix is empty or a dash, the tier name and the counter; only it holds a dash. */
  lemma SuffixShape(major: nat, s: Stability, n: nat)
    ensures ShowsStability(major, s) ==> Suffix(major, s, n) == ['-'] + (UpperName(s) + Decimal.Format(n))
    ensures !ShowsStability(major, s) ==> Suffix(major, s, n) == []
  {
  }

  /** A dash occurs in `patch digits + suffix` exactly when the suffix is shown. */
  lemma DashMarksSuffix(p: nat, major: nat, s: Stability, n: nat)
    ensures ('-' in Decimal.Format(p) + Suffix(major, s, n)) == ShowsStability(major, s)
  {
    var f := Decimal.Format(p);
    Decimal.NonDigitNotInFormat(p, '-');
    SuffixShape(major, s, n);
    if ShowsStability(major, s) {
      assert (f + Suffix(major, s, n))[|f|] == '-';
    } else {
      assert f + Suffix(major, s, n) == f;
    }
  }

  /** The tier name followed by the counter determines both. */
  lemma {:induction false} NamedCounterDetermines(s1: Stability, n1: nat, s2: Stability, n2: nat)
    requires UpperName(s1) + Decimal.Format(n1) == UpperName(s2) + Decimal.Format(n2)
    ensures s1 == s2 && n1 == n2
  {
    var w1, w2 := UpperName(s1) + Decimal.Format(n1), UpperName(s2) + Decimal.Format(n2);
    UpperNameFirst(s1);
    UpperNameFirst(s2);
    assert w1[0] == UpperName(s1)[0] && w2[0] == UpperName(s2)[0];
    assert s1 == s2;
    assert w1[|UpperName(s1)|..] == Decimal.Format(n1);
    assert w2[|UpperName(s2)|..] == Decimal.Format(n2);
    Decimal.FormatInjective(n1, n2);
  }

  /** The patch digits, a dash, the tier name and the counter determine all three. */
  lemma ShownTailDetermines(p1: nat, s1: Stability, n1: nat, p2: nat, s2: Stability, n2: nat)
    requires Decimal.Format(p1) + ['-'] + (UpperName(s1) + Decimal.Format(n1))
             == Decimal.Format(p2) + ['-'] + (UpperName(s2) + Decimal.Format(n2))
    ensures p1 == p2 && s1 == s2 && n1 == n2
  {
    var w1, w2 := UpperName(s1) + Decimal.Format(n1), UpperName(s2) + Decimal.Format(n2);
    Decimal.SplitAfterDigits(Decimal.Format(p1), '-', w1, Decimal.Format(p2), '-', w2);
    Decimal.FormatInjective(p1, p2);
    NamedCounterDetermines(s1, n1, s2, n2);
  }

  /** The text after `M.m.`: the patch digits, then the suffix. */
  lemma {:induction false} TailDetermines(p1: nat, s1: Stability, n1: nat, p2: nat, s2: Stability, n2: nat, major: nat)
    requires Decimal.Format(p1) + Suffix(major, s1, n1) == Decimal.Format(p2) + Suffix(major, s2, n2)
    ensures CanonicalOf(major, 0, p1, s1, n1) == CanonicalOf(major, 0, p2, s2, n2)
  {
    var f1, f2 := Decimal.Format(p1), Decimal.Format(p2);
    var x1, x2 := Suffix(major, s1, n1), Suffix(major, s2, n2);
    assert ShowsStability(major, s1) == ShowsStability(major, s2) by {
      DashMarksSuffix(p1, major, s1, n1);
      DashMarksSuffix(p2, major, s2, n2);
    }
    if ShowsStability(major, s1) {
      var w1, w2 := UpperName(s1) + Decimal.Format(n1), UpperName(s2) + Decimal.Format(n2);
      assert f1 + ['-'] + w1 == f2 + ['-'] + w2 by {
        SuffixShape(major, s1, n1);
        SuffixShape(major, s2, n2);
        assert f1 + (['-'] + w1) == f1 + ['-'] + w1;
        assert f2 + (['-'] + w2) == f2 + ['-'] + w2;
      }
      ShownTailDetermines(p1, s1, n1, p2, s2, n2);
    } else {
      assert f1 == f2 by {
        SuffixShape(major, s1, n1);
        SuffixShape(major, s2, n2);
        assert f1 + x1 == f1 && f2 + x2 == f2;
      }
      Decimal.FormatInjective(p1, p2);
    }
  }

  /** The canonical text as three dot-separated parts. */
  lemma RenderShape(M: nat, m: nat, p: nat, s: Stability, n: nat)
    ensures Render(M, m, p, s, n)
            == Decimal.Format(M) + ['.'] + (Decimal.Format(m) + ['.'] + (Decimal.Format(p) + Suffix(M, s, n)))
  {
    var a, b, c, x := Decimal.Format(M), Decimal.Format(m), Decimal.Format(p), Suffix(M, s, n);
    calc {
      Render(M, m, p, s, n);
      a + "." + b + "." + c + x;
      { assert a + "." + b + "." + c + x == a + ['.'] + (b + ['.'] + (c + x)); }
      a + ['.'] + (b + ['.'] + (c + x));
    }
  }

  lemma RenderDetermines(M1: nat, m1: nat, p1: nat, s1: Stability, n1: nat, M2: nat, m2: nat, p2: nat, s2: Stability, n2: nat)
    requires Render(M1, m1, p1, s1, n1) == Render(M2, m2, p2, s2, n2)
    ensures CanonicalOf(M1, m1, p1, s1, n1) == CanonicalOf(M2, m2, p2, s2, n2)
  {
    var a1, b1 := Decimal.Format(M1), Decimal.Format(M2);
    var c1, c2 := Decimal.Format(m1), Decimal.Format(m2);
    var t1, t2 := Decimal.Format(p1) + Suffix(M1, s1, n1), Decimal.Format(p2) + Suffix(M2, s2, n2);
    RenderShape(M1, m1, p1, s1, n1);
    RenderShape(M2, m2, p2, s2, n2);
    Decimal.SplitAfterDigits(a1, '.', c1 + ['.'] + t1, b1, '.', c2 + ['.'] + t2);
    Decimal.SplitAfterDigits(c1, '.', t1, c2, '.', t2);
    Decimal.FormatInjective(M1, M2);
    Decimal.FormatInjective(m1, m2);
    TailDetermines(p1, s1, n1, p2, s2, n2, M1);
  }

  /** The canonical text holds a dash, which introduces the tier and counter, exactly when
      the version is unstable past 0.x. */
  lemma RenderSuffix(M: nat, m: nat, p: nat, s: Stability, n: nat)
    ensures ('-' in Render(M, m, p, s, n)) <==> ShowsStability(M, s)
  {
    var a, b, t := Decimal.Format(M), Decimal.Format(m), Decimal.Format(p) + Suffix(M, s, n);
    RenderShape(M, m, p, s, n);
    Decimal.NonDigitNotInFormat(M, '-');
    Decimal.NonDigitNotInFormat(m, '-');
    DashMarksSuffix(p, M, s, n);
    var u := b + ['.'] + t;
    assert '-' !in a + ['.'];
    assert ('-' in a + ['.'] + u) == ('-' in u);
    assert '-' !in b + ['.'];
    assert ('-' in u) == ('-' in t);
  }

  /** The release order is a strict total order up to canonical text: irreflexive,
      asymmetric, transitive, and any two versions with different canonical texts are
      ordered one way or the other. */
  lemma PrecedesStrictOrder(a: Version, b: Version, c: Version)
    ensures !Precedes(a, a)
    ensures Precedes(a, b) ==> !Precedes(b, a)
    ensures Precedes(a, b) && Precedes(b, c) ==> Precedes(a, c)
    ensures Precedes(a, b) || Precedes(b, a) || CanonicalForm(a) == CanonicalForm(b)
  {
  }

  /** Two canonical texts are equal exactly when the canonical tuples are. */
  lemma RenderInjective(M1: nat, m1: nat, p1: nat, s1: Stability, n1: nat, M2: nat, m2: nat, p2: nat, s2: Stability, n2: nat)
    ensures Render(M1, m1, p1, s1, n1) == Render(M2, m2, p2, s2, n2)
            <==> CanonicalOf(M1, m1, p1, s1, n1) == CanonicalOf(M2, m2, p2, s2, n2)
  {
    if Render(M1, m1, p1, s1, n1) == Render(M2, m2, p2, s2, n2) {
      RenderDetermines(M1, m1, p1, s1, n1, M2, m2, p2, s2, n2);
    }
    if CanonicalOf(M1, m1, p1, s1, n1) == CanonicalOf(M2, m2, p2, s2, n2) && ShowsStability(M1, s1) {
      assert Index(s1) == Index(s2) && ShowsStability(M2, s2);
    }
  }

  // ---------------------------------------------------------------------------------------
  // The rule engine

  /** The increase kinds the engine accepts. */
  const IncreaseKinds: set<string> := {"alpha", "beta", "rc", "stable", "major", "next", "minor", "patch"}

  /** The next counter on an unstable line past 0.x, otherwise the next minor release. */
  function GetIncreaseOfNextPossibleMinorOrMeta(v: Version): (r: Version)
    ensures WellFormed(r) && r.major == v.major && Precedes(v, r)
    ensures ShowsStability(v.major, v.stability) ==>
      r.minor == v.minor && r.patch == v.patch && r.stability == v.stability && r.metaver == v.metaver + 1
    ensures !ShowsStability(v.major, v.stability) ==>
      r.minor == v.minor + 1 && r.patch == 0 && r.stability == Normalise(v.major, Stable)
  {
    if v.major > 0 && v.stability != Stable then Make(v.major, v.minor, v.patch, v.stability, v.metaver + 1)
    else Make(v.major, v.minor + 1, 0, Stable)
  }

  /** A major increase: an unstable version is stabilised at its own major (at least 1),
      a stable one moves to the next major. */
  function GetIncreaseByMajor(v: Version): (r: Version)
    ensures WellFormed(r) && r.stability == Stable && r.minor == 0 && r.patch == 0 && r.major > 0
    ensures r.major == (if v.stability == Stable then v.major + 1 else if v.major == 0 then 1 else v.major)
  {
    if v.stability != Stable then Make(if v.major > 1 then v.major else 1, 0, 0, Stable)
    else Make(v.major + 1, 0, 0, Stable)
  }

  /** An increase to a named pre-release tier. */
  function GetIncreaseOfMetaver(v: Version, name: string): (r: Version)
    requires name == "alpha" || name == "beta" || name == "rc"
    ensures WellFormed(r) && r.major == v.major && r.patch == 0 && r.metaver > 0
    ensures v.major > 0 ==> r.stability == StabilityNamed(name).value
    ensures r.minor == (if Index(StabilityNamed(name).value) < Index(v.stability) then v.minor + 1 else v.minor)
    ensures r.metaver == (if v.stability == StabilityNamed(name).value then v.metaver + 1 else 1)
  {
    var tier := StabilityNamed(name).value;
    if v.stability == tier then Make(v.major, v.minor, 0, v.stability, v.metaver + 1)
    else if Index(tier) > Index(v.stability) then Make(v.major, v.minor, 0, tier, 1)
    else Make(v.major, v.minor + 1, 0, tier, 1)
  }

  /** A stable increase: a stable version opens the next minor, a 0.x version becomes 1.0.0,
      any other unstable version is released on its own line. */
  function GetIncreaseOfStable(v: Version): (r: Version)
    ensures WellFormed(r) && !ShowsStability(r.major, r.stability) && r.patch == 0
    ensures v.stability == Stable ==> r.major == v.major && r.minor == v.minor + 1
    ensures v.stability != Stable ==> r.major == (if v.major == 0 then 1 else v.major)
    ensures v.stability != Stable ==> r.minor == (if v.major == 0 then 0 else v.minor)
  {
    if v.stability == Stable then Make(v.major, v.minor + 1, 0, Stable)
    else if v.major == 0 then Make(1, 0, 0, Stable)
    else Make(v.major, v.minor, 0, Stable)
  }

  /** The version that an increase of the given kind produces. */
  function GetNextIncreaseOf(v: Version, kind: string): (r: Result<Version>)
    ensures r.Ok? <==> kind in IncreaseKinds
    ensures r.Err? ==> r.error == UnknownIncrease(kind)
    ensures r.Ok? ==> WellFormed(r.value)
    ensures kind == "minor" ==> CanonicalForm(r.value) == Canonical(v.major, v.minor + 1, 0, 3, 0)
    ensures kind == "patch" && !(v.major > 0 && v.metaver > 0) ==>
              CanonicalForm(r.value) == Canonical(v.major, v.minor, v.patch + 1, 3, 0)
    ensures kind == "patch" && v.major > 0 && v.metaver > 0 ==> r.value == GetIncreaseOfNextPossibleMinorOrMeta(v)
    ensures kind == "next" ==> r.value == GetIncreaseOfNextPossibleMinorOrMeta(v)
    ensures kind == "major" ==> r.value == GetIncreaseByMajor(v)
    ensures kind == "alpha" || kind == "beta" || kind == "rc" ==> r.value == GetIncreaseOfMetaver(v, kind)
    ensures kind == "stable" ==> r.value == GetIncreaseOfStable(v)
  {
    if kind == "patch" then
      if v.major > 0 && v.metaver > 0 then Ok(GetIncreaseOfNextPossibleMinorOrMeta(v))
      else Ok(Make(v.major, v.minor, v.patch + 1, Stable))
    else if kind == "minor" then Ok(Make(v.major, v.minor + 1, 0, Stable))
    else if kind == "major" then Ok(GetIncreaseByMajor(v))
    else if kind == "alpha" || kind == "beta" || kind == "rc" then Ok(GetIncreaseOfMetaver(v, kind))
    else if kind == "stable" then Ok(GetIncreaseOfStable(v))
    else if kind == "next" then Ok(GetIncreaseOfNextPossibleMinorOrMeta(v))
    else Err(UnknownIncrease(kind))
  }

  /** The first pre-release of each tier with index in [from, to), on line `major.minor`,
      in tier order. */
  function PreReleases(major: nat, minor: nat, from: nat, to: nat): (r: seq<Version>)
    requires from <= to <= 3
    ensures |r| == to - from
    ensures forall k :: 0 <= k < |r| ==>
              && WellFormed(r[k]) && r[k].major == major && r[k].minor == minor && r[k].patch == 0
              && r[k].stability == Normalise(major, TierAt(from + k)) && r[k].metaver == 1
  {
    if to == from then [] else PreReleases(major, minor, from, to - 1) + [Make(major, minor, 0, TierAt(to - 1), 1)]
  }

  /** The ordered list of legal next releases. */
  function NextCandidates(v: Version): (r: seq<Version>)
    ensures forall c :: c in r ==> WellFormed(c)
  {
    if v.major == 0 then
      // before 1.0: the next patch or minor, or the start of 1.0 (beta or stable)
      [GetNextIncreaseOf(v, "patch").value, GetNextIncreaseOf(v, "minor").value,
       Make(1, 0, 0, Beta, 1), Make(1, 0, 0, Stable)]
    else if v.stability != Stable then
      // an open pre-release line: the next counter, a higher pre-release tier, or the release
      [Make(v.major, v.minor, 0, v.stability, v.metaver + 1)]
      + PreReleases(v.major, v.minor, Index(v.stability) + 1, 3)
      + [Make(v.major, v.minor, 0, Stable)]
    else
      // released: a patch, a new minor (beta or stable), or a new major (alpha, beta or stable)
      [GetNextIncreaseOf(v, "patch").value, GetNextIncreaseOf(v, "beta").value, GetNextIncreaseOf(v, "minor").value,
       Make(v.major + 1, 0, 0, Alpha, 1), Make(v.major + 1, 0, 0, Beta, 1), Make(v.major + 1, 0, 0, Stable)]
  }

  /** The candidate list built by successive appends, one pre-release tier per turn of the loop;
      each of the three lines of release is built by its own method below. */
  method GetNextVersionCandidates(v: Version) returns (candidates: seq<Version>)
    ensures candidates == NextCandidates(v)
  {
    if v.major == 0 {
      candidates := ZeroLineCandidates(v);
      return;
    }
    if Index(v.stability) < Index(Stable) {
      candidates := PreReleaseLineCandidates(v);
      return;
    }
    candidates := ReleasedCandidates(v);
  }

  /** Before 1.0: the next patch, the next minor, then 1.0.0-BETA1 and 1.0.0. */
  method ZeroLineCandidates(v: Version) returns (candidates: seq<Version>)
    requires v.major == 0
    ensures candidates == NextCandidates(v)
  {
    var patch, minor := GetNextIncreaseOf(v, "patch").value, GetNextIncreaseOf(v, "minor").value;
    candidates := [];
    candidates := candidates + [patch];
    candidates := candidates + [minor];
    candidates := candidates + [Make(1, 0, 0, Beta, 1)];
    candidates := candidates + [Make(1, 0, 0, Stable)];
    FourAppends(patch, minor, Make(1, 0, 0, Beta, 1), Make(1, 0, 0, Stable));
  }

  /** An open pre-release line: the next counter, the first pre-release of each higher tier,
      then the release of the line. */
  method PreReleaseLineCandidates(v: Version) returns (candidates: seq<Version>)
    requires v.major > 0 && v.stability != Stable
    ensures candidates == NextCandidates(v)
  {
    candidates := [];
    candidates := candidates + [Make(v.major, v.minor, 0, v.stability, v.metaver + 1)];
    candidates := AppendPreReleases(candidates, v.major, v.minor, Index(v.stability) + 1);
    candidates := candidates + [Make(v.major, v.minor, 0, Stable)];
  }

  /** Appends the first pre-release of each tier from `from` up to rc, one tier per turn. */
  method AppendPreReleases(prefix: seq<Version>, major: nat, minor: nat, from: nat) returns (candidates: seq<Version>)
    requires from <= 3
    ensures candidates == prefix + PreReleases(major, minor, from, 3)
  {
    candidates := prefix;
    for s := from to 3
      invariant candidates == prefix + PreReleases(major, minor, from, s)
    {
      candidates := candidates + [Make(major, minor, 0, TierAt(s), 1)];
    }
  }

  /** A release: the next patch, the next minor as beta and as release, then the next major
      as alpha, beta and release. */
  method ReleasedCandidates(v: Version) returns (candidates: seq<Version>)
    requires v.major > 0 && v.stability == Stable
    ensures candidates == NextCandidates(v)
  {
    var patch, beta, minor := GetNextIncreaseOf(v, "patch").value, GetNextIncreaseOf(v, "beta").value, GetNextIncreaseOf(v, "minor").value;
    candidates := [];
    candidates := candidates + [patch];
    candidates := candidates + [beta];
    candidates := candidates + [minor];
    candidates := candidates + [Make(v.major + 1, 0, 0, Alpha, 1)];
    candidates := candidates + [Make(v.major + 1, 0, 0, Beta, 1)];
    candidates := candidates + [Make(v.major + 1, 0, 0, Stable)];
    SixAppends(patch, beta, minor, Make(v.major + 1, 0, 0, Alpha, 1), Make(v.major + 1, 0, 0, Beta, 1), Make(v.major + 1, 0, 0, Stable));
  }

  /** Successive single appends to the empty list give the list display; stated for any
      element type, so the solver meets it without the facts about versions in scope. */
  lemma FourAppends<T>(c0: T, c1: T, c2: T, c3: T)
    ensures [] + [c0] + [c1] + [c2] + [c3] == [c0, c1, c2, c3]
  { }

  lemma SixAppends<T>(c0: T, c1: T, c2: T, c3: T, c4: T, c5: T)
    ensures [] + [c0] + [c1] + [c2] + [c3] + [c4] + [c5] == [c0, c1, c2, c3, c4, c5]
  { }
}
