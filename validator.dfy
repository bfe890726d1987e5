/** The continuity validator: given the releases made so far, which versions may come next,
    and is a proposed version one of them. */
module Validator {
  import opened Versions

  /** Greatest known version per release line: major -> minor -> version. */
  type Resolved = map<nat, map<nat, Version>>

  /** The four releases offered when there is no history yet: 0.1.0, 1.0.0-ALPHA1,
      1.0.0-BETA1 and 1.0.0. */
  function Bootstrap(): (r: seq<Version>)
    ensures |r| == 4 && forall v :: v in r ==> WellFormed(v)
    ensures CanonicalForm(r[0]) == Canonical(0, 1, 0, 3, 0)
    ensures CanonicalForm(r[1]) == Canonical(1, 0, 0, Index(Alpha), 1)
    ensures CanonicalForm(r[2]) == Canonical(1, 0, 0, Index(Beta), 1)
    ensures CanonicalForm(r[3]) == Canonical(1, 0, 0, 3, 0)
  {
    [Make(0, 1, 0, Stable), Make(1, 0, 0, Alpha, 1), Make(1, 0, 0, Beta, 1), Make(1, 0, 0, Stable)]
  }

  // ---------------------------------------------------------------------------------------
  // Sorting the history

  /** Ascending in the release order; versions with equal canonical text may come in any order. */
  predicate Sorted(s: seq<Version>) {
    forall i, j :: 0 <= i < j < |s| ==> !Precedes(s[j], s[i])
  }

  /** "Not older than" is transitive. */
  lemma NotOlderTransitive(a: Version, b: Version, c: Version)
    requires !Precedes(b, a) && !Precedes(c, b)
    ensures !Precedes(c, a)
  {
  }

  /** Inserting `x` behind every element that is not newer than it keeps a list sorted. */
  lemma InsertKeepsSorted(t: seq<Version>, j: nat, x: Version)
    requires Sorted(t) && j <= |t|
    requires j > 0 ==> !Precedes(x, t[j - 1])
    requires forall k :: j <= k < |t| ==> Precedes(x, t[k])
    ensures Sorted(t[..j] + [x] + t[j..])
  {
    var u := t[..j] + [x] + t[j..];
    forall p, q | 0 <= p < q < |u|
      ensures !Precedes(u[q], u[p])
    {
      if q < j {
        assert u[p] == t[p] && u[q] == t[q];
      } else if q == j {
        assert u[p] == t[p] && u[q] == x;
        NotOlderTransitive(t[p], t[j - 1], x);
      } else if p == j {
        assert u[q] == t[q - 1] && u[p] == x;
      } else if p < j {
        assert u[q] == t[q - 1] && u[p] == t[p];
      } else {
        assert u[q] == t[q - 1] && u[p] == t[p - 1];
      }
    }
  }

  /** The sort of the history by the release order. The comparison never reports two
      versions as equal, so the order among versions with equal canonical text is left open. */
  method SortAscending(s: seq<Version>) returns (t: seq<Version>)
    ensures Sorted(t) && multiset(t) == multiset(s)
  {
    t := [];
    for i := 0 to |s|
      invariant Sorted(t) && multiset(t) == multiset(s[..i])
    {
      var x := s[i];
      var j := |t|;
      while j > 0 && Precedes(x, t[j - 1])
        invariant 0 <= j <= |t|
        invariant forall k :: j <= k < |t| ==> Precedes(x, t[k])
      {
        j := j - 1;
      }
      InsertKeepsSorted(t, j, x);
      assert t == t[..j] + t[j..];
      assert s[..i + 1] == s[..i] + [x];
      t := t[..j] + [x] + t[j..];
    }
    assert s[..|s|] == s;
  }

  // ---------------------------------------------------------------------------------------
  // Arranging the history by release line

  /** Record `v` as the version of its line, replacing what was there. */
  function Put(r: Resolved, v: Version): (r': Resolved)
    ensures r'.Keys == r.Keys + {v.major}
    ensures r'[v.major].Keys == (if v.major in r then r[v.major].Keys else {}) + {v.minor}
    ensures r'[v.major][v.minor] == v
    ensures forall M :: M in r && M != v.major ==> r'[M] == r[M]
    ensures forall m :: v.major in r && m in r[v.major] && m != v.minor ==> r'[v.major][m] == r[v.major][m]
  {
    r[v.major := (if v.major in r then r[v.major] else map[])[v.minor := v]]
  }

  /** The map the source fills from the sorted history: the last version of each line wins. */
  function Resolve(s: seq<Version>): Resolved {
    if s == [] then map[] else Put(Resolve(s[..|s| - 1]), s[|s| - 1])
  }

  /** The last version of the history on a line is the one the filled map holds for it. */
  lemma {:induction false} ResolveLastWins(s: seq<Version>, i: nat)
    requires i < |s|
    requires forall j :: i < j < |s| ==> s[j].major != s[i].major || s[j].minor != s[i].minor
    ensures s[i].major in Resolve(s) && s[i].minor in Resolve(s)[s[i].major]
    ensures Resolve(s)[s[i].major][s[i].minor] == s[i]
  {
    var prefix := s[..|s| - 1];
    if i < |s| - 1 {
      assert prefix[i] == s[i];
      forall j | i < j < |prefix|
        ensures prefix[j].major != s[i].major || prefix[j].minor != s[i].minor
      {
        assert prefix[j] == s[j];
      }
      ResolveLastWins(prefix, i);
    }
  }

  /** `v` belongs to history `h` and no version of `h` on the same line is newer. */
  ghost predicate GreatestOfLine(h: seq<Version>, v: Version) {
    v in h && forall x :: x in h && x.major == v.major && x.minor == v.minor ==> !Precedes(v, x)
  }

  /** Every version of `h` has its line in `r`. */
  ghost predicate Covers(h: seq<Version>, r: Resolved) {
    forall x :: x in h ==> x.major in r && x.minor in r[x.major]
  }

  /** Every line of `r` holds a greatest version of that line of `h`. */
  ghost predicate HoldsGreatest(h: seq<Version>, r: Resolved) {
    && (forall M :: M in r ==> r[M] != map[])
    && (forall M, m :: M in r && m in r[M] ==> r[M][m].major == M && r[M][m].minor == m && GreatestOfLine(h, r[M][m]))
  }

  /** `r` arranges history `h`: its lines are exactly those of `h`, and each holds a version
      of `h` from that line that no other version of the line is newer than. */
  ghost predicate Arranged(h: seq<Version>, r: Resolved) {
    Covers(h, r) && HoldsGreatest(h, r)
  }

  /** Recording a version that no earlier version of its line is newer than keeps the
      arrangement. */
  lemma PutArranged(h: seq<Version>, r: Resolved, v: Version)
    requires Arranged(h, r)
    requires forall x :: x in h && x.major == v.major && x.minor == v.minor ==> !Precedes(v, x)
    ensures Arranged(h + [v], Put(r, v))
  {
    var h': seq<Version>, r': Resolved := h + [v], Put(r, v);
    assert forall x :: x in h' <==> x in h || x == v;
    forall x | x in h'
      ensures x.major in r' && x.minor in r'[x.major]
    {
    }
    forall M, m | M in r' && m in r'[M]
      ensures r'[M][m].major == M && r'[M][m].minor == m && GreatestOfLine(h', r'[M][m])
    {
      if M == v.major && m == v.minor {
        assert r'[M][m] == v;
      } else {
        assert r'[M][m] == r[M][m];
        assert GreatestOfLine(h, r[M][m]);
      }
    }
  }

  /** Skipping a version that is older than the one its line already holds keeps the
      arrangement. */
  lemma SkipArranged(h: seq<Version>, r: Resolved, v: Version)
    requires Arranged(h, r)
    requires v.major in r && v.minor in r[v.major] && Precedes(v, r[v.major][v.minor])
    ensures Arranged(h + [v], r)
  {
    var h' := h + [v];
    assert forall x :: x in h' <==> x in h || x == v;
    forall M, m | M in r && m in r[M]
      ensures GreatestOfLine(h', r[M][m])
    {
      assert GreatestOfLine(h, r[M][m]);
    }
  }

  /** The reference arrangement: keep the greatest version of each line, whatever the order
      of the history; among equals the later one. */
  function KeepGreatest(h: seq<Version>): Resolved {
    if h == [] then map[]
    else
      var r := KeepGreatest(h[..|h| - 1]);
      var v := h[|h| - 1];
      if v.major in r && v.minor in r[v.major] && Precedes(v, r[v.major][v.minor]) then r else Put(r, v)
  }

  /** Keeping the greatest version of each line arranges the history. */
  lemma {:induction false} KeepGreatestArranged(h: seq<Version>)
    ensures Arranged(h, KeepGreatest(h))
  {
    if h != [] {
      var init, v := h[..|h| - 1], h[|h| - 1];
      assert h == init + [v];
      KeepGreatestArranged(init);
      var r := KeepGreatest(init);
      if v.major in r && v.minor in r[v.major] && Precedes(v, r[v.major][v.minor]) {
        SkipArranged(init, r, v);
      } else {
        forall x | x in init && x.major == v.major && x.minor == v.minor
          ensures !Precedes(v, x)
        {
          assert GreatestOfLine(init, r[v.major][v.minor]);
          NotOlderTransitive(x, r[v.major][v.minor], v);
        }
        PutArranged(init, r, v);
      }
    }
  }

  /** Filling the map from a sorted history arranges it. */
  lemma {:induction false} ResolveSortedArranged(s: seq<Version>)
    requires Sorted(s)
    ensures Arranged(s, Resolve(s))
  {
    if s != [] {
      var init, v := s[..|s| - 1], s[|s| - 1];
      assert s == init + [v];
      assert Sorted(init);
      ResolveSortedArranged(init);
      forall x | x in init && x.major == v.major && x.minor == v.minor
        ensures !Precedes(v, x)
      {
        var i :| 0 <= i < |init| && init[i] == x;
        assert s[i] == x;
      }
      PutArranged(init, Resolve(init), v);
    }
  }

  // ---------------------------------------------------------------------------------------
  // Queries on the arranged map

  lemma {:induction false} MaxExists(s: set<nat>)
    requires s != {}
    ensures exists k :: k in s && forall j :: j in s ==> j <= k
  {
    var x :| x in s;
    if s != {x} {
      MaxExists(s - {x});
      var k :| k in s - {x} && forall j :: j in s - {x} ==> j <= k;
      var top := if x > k then x else k;
      forall j | j in s
        ensures j <= top
      {
        if j != x {
          assert j in s - {x};
        }
      }
    } else {
      assert forall j :: j in s ==> j == x;
    }
  }

  /** The last key of an array filled in ascending key order: its greatest key. */
  function GetLastArrayIndex<T>(m: map<nat, T>): (k: nat)
    requires m != map[]
    ensures k in m && forall j :: j in m ==> j <= k
  {
    MaxExists(m.Keys);
    var k :| k in m && forall j :: j in m ==> j <= k;
    k
  }

  /** Some line of the history has a greater major than `major`. */
  function HasNewerMajorVersionsAfter(r: Resolved, major: nat): (b: bool)
    requires r != map[]
    ensures b <==> exists M :: M in r && M > major
  {
    GetLastArrayIndex(r) > major
  }

  /** Some line under `major` has a greater minor than `minor`. */
  function HasNewerMinorVersionsAfter(r: Resolved, major: nat, minor: nat): (b: bool)
    requires major in r && r[major] != map[]
    ensures b <==> exists m :: m in r[major] && m > minor
  {
    GetLastArrayIndex(r[major]) > minor
  }

  /** A map in which every line holds a version. */
  ghost predicate Filled(r: Resolved) {
    r != map[] && forall M :: M in r ==> r[M] != map[]
  }

  /** The full candidate list of the newest line of the newest major. */
  function PossibleFromLastExisting(r: Resolved): seq<Version>
    requires Filled(r)
  {
    var major := GetLastArrayIndex(r);
    var minor := GetLastArrayIndex(r[major]);
    NextCandidates(r[major][minor])
  }

  /** The tiered restriction for the line `major.minor`: a newer minor of the same major
      allows a patch only; otherwise a newer major allows a patch or the next minor;
      otherwise every candidate. */
  function PossibleFromMinor(r: Resolved, major: nat, minor: nat): seq<Version>
    requires Filled(r) && major in r && minor in r[major]
  {
    var version := r[major][minor];
    if HasNewerMinorVersionsAfter(r, major, minor) then
      [GetNextIncreaseOf(version, "patch").value]
    else if HasNewerMajorVersionsAfter(r, major) then
      [GetNextIncreaseOf(version, "patch").value, GetNextIncreaseOf(version, "minor").value]
    else
      NextCandidates(version)
  }

  /** Which versions may follow, given the arranged history: an unknown major continues from
      the newest line overall; an unknown minor falls back to the newest line of its major. */
  function PossibleFromResolved(r: Resolved, candidate: Version): seq<Version>
    requires Filled(r)
  {
    if candidate.major !in r then PossibleFromLastExisting(r)
    else
      var minor := if candidate.minor in r[candidate.major] then candidate.minor else GetLastArrayIndex(r[candidate.major]);
      PossibleFromMinor(r, candidate.major, minor)
  }

  /** Which versions may follow history `h` when `new` is proposed. */
  function PossibleVersions(h: seq<Version>, candidate: Version): seq<Version> {
    if |h| == 0 then Bootstrap()
    else
      var r := KeepGreatest(h);
      KeepGreatestArranged(h);
      assert h[0] in h;
      PossibleFromResolved(r, candidate)
  }

  /** `new` continues history `h`: it equals, by canonical text, one of the possible versions. */
  predicate Continues(h: seq<Version>, candidate: Version) {
    exists c :: c in PossibleVersions(h, candidate) && EqualTo(c, candidate)
  }

  /** Scan a list for a version with the same canonical text as `candidate`. */
  method AnyEqualTo(possible: seq<Version>, candidate: Version) returns (r: bool)
    ensures r <==> exists c :: c in possible && EqualTo(c, candidate)
  {
    for i := 0 to |possible|
      invariant forall j :: 0 <= j < i ==> !EqualTo(possible[j], candidate)
    {
      if EqualTo(possible[i], candidate) {
        assert possible[i] in possible;
        return true;
      }
    }
    assert forall c :: c in possible ==> !EqualTo(c, candidate);
    return false;
  }

  // ---------------------------------------------------------------------------------------
  // The validator object

  class ContinuesVersionsValidator {
    /** The history; permuted in place by each check. */
    var versions: seq<Version>
    /** The versions the last check allowed. */
    var possibleVersions: seq<Version>
    /** The history arranged by line, rebuilt by each check of a non-empty history. */
    var resolveVersions: Resolved

    ghost predicate Valid()
      reads this
    {
      forall v :: v in versions ==> WellFormed(v)
    }

    constructor (versions: seq<Version>)
      requires forall v :: v in versions ==> WellFormed(v)
      ensures Valid()
      ensures this.versions == versions && possibleVersions == [] && resolveVersions == map[]
    {
      this.versions := versions;
      possibleVersions := [];
      resolveVersions := map[];
    }

    /** Whether `new` continues the history; records the versions that would. */
    method IsContinues(candidate: Version) returns (r: bool)
      requires Valid()
      modifies this
      ensures Valid()
      ensures multiset(versions) == multiset(old(versions))
      ensures possibleVersions == PossibleVersions(old(versions), candidate)
      ensures |old(versions)| > 0 ==> Sorted(versions) && resolveVersions == Resolve(versions)
      ensures |old(versions)| == 0 ==> versions == old(versions) && resolveVersions == old(resolveVersions)
      ensures r <==> Continues(old(versions), candidate)
    {
      if |versions| == 0 {
        possibleVersions := Bootstrap();
      } else {
        ComputePossibleVersions(candidate);
      }
      r := AnyEqualTo(possibleVersions, candidate);
    }

    /** The versions the last check allowed. */
    method GetPossibleVersions() returns (r: seq<Version>)
      ensures r == possibleVersions
    {
      r := possibleVersions;
    }

    method ComputePossibleVersions(candidate: Version)
      requires Valid() && |versions| > 0
      modifies this
      ensures Valid()
      ensures Sorted(versions) && multiset(versions) == multiset(old(versions))
      ensures resolveVersions == Resolve(versions)
      ensures possibleVersions == PossibleVersions(old(versions), candidate)
    {
      ArrangeExistingVersions();
      ResolveSortedArranged(versions);
      KeepGreatestArranged(old(versions));
      SameHistorySamePossible(versions, old(versions), resolveVersions, KeepGreatest(old(versions)), candidate);
      ghost var target := PossibleFromResolved(resolveVersions, candidate);
      assert PossibleVersions(old(versions), candidate) == target;

      var major := candidate.major;
      var minor := candidate.minor;
      if major !in resolveVersions {
        ComputePossibleVersionsFromLastExisting();
        return;
      }
      if minor !in resolveVersions[major] {
        minor := GetLastArrayIndex(resolveVersions[major]);
      }
      ComputePossibleVersionsFromMinor(major, minor);
    }

    /** Sorts the history ascending and fills the line map from it, last write winning. */
    method ArrangeExistingVersions()
      requires Valid()
      modifies this`versions, this`resolveVersions
      ensures Valid()
      ensures Sorted(versions) && multiset(versions) == multiset(old(versions))
      ensures resolveVersions == Resolve(versions)
    {
      versions := SortAscending(versions);
      assert forall v :: v in versions ==> v in multiset(old(versions));
      var resolvedVersions: Resolved := map[];
      for i := 0 to |versions|
        invariant resolvedVersions == Resolve(versions[..i])
      {
        var version := versions[i];
        var line := if version.major in resolvedVersions then resolvedVersions[version.major] else map[];
        assert versions[..i + 1][..i] == versions[..i];
        resolvedVersions := resolvedVersions[version.major := line[version.minor := version]];
      }
      assert versions[..|versions|] == versions;
      resolveVersions := resolvedVersions;
    }

    method ComputePossibleVersionsFromLastExisting()
      requires Filled(resolveVersions)
      modifies this`possibleVersions
      ensures possibleVersions == PossibleFromLastExisting(resolveVersions)
    {
      var major := GetLastArrayIndex(resolveVersions);
      var minor := GetLastArrayIndex(resolveVersions[major]);
      var version := resolveVersions[major][minor];
      possibleVersions := GetNextVersionCandidates(version);
    }

    method ComputePossibleVersionsFromMinor(major: nat, minor: nat)
      requires Filled(resolveVersions) && major in resolveVersions && minor in resolveVersions[major]
      modifies this`possibleVersions
      ensures possibleVersions == PossibleFromMinor(resolveVersions, major, minor)
    {
      var version := resolveVersions[major][minor];
      if HasNewerMinorVersionsAfter(resolveVersions, major, minor) {
        possibleVersions := [GetNextIncreaseOf(version, "patch").value];
        return;
      }
      if HasNewerMajorVersionsAfter(resolveVersions, major) {
        possibleVersions := [GetNextIncreaseOf(version, "patch").value, GetNextIncreaseOf(version, "minor").value];
        return;
      }
      var versionCandidates := GetNextVersionCandidates(version);
      possibleVersions := versionCandidates;
    }
  }

  // ---------------------------------------------------------------------------------------
  // The result does not depend on how the history is arranged

  /** Two versions with the same canonical text have the same successors. */
  lemma SameCanonicalSameSuccessors(a: Version, b: Version)
    requires WellFormed(a) && WellFormed(b) && CanonicalForm(a) == CanonicalForm(b)
    ensures NextCandidates(a) == NextCandidates(b)
    ensures GetNextIncreaseOf(a, "patch") == GetNextIncreaseOf(b, "patch")
    ensures GetNextIncreaseOf(a, "minor") == GetNextIncreaseOf(b, "minor")
  {
    if a.major > 0 {
      if ShowsStability(a.major, a.stability) {
        assert Index(a.stability) == Index(b.stability);
      }
      assert a == b;
    }
  }

  /** Two maps agree: the same lines, and on each line versions with the same canonical text. */
  ghost predicate Agree(r1: Resolved, r2: Resolved) {
    && r1.Keys == r2.Keys
    && (forall M :: M in r1 ==> r1[M].Keys == r2[M].Keys)
    && (forall M, m :: M in r1 && m in r1[M] ==> CanonicalForm(r1[M][m]) == CanonicalForm(r2[M][m]))
  }

  /** Every version held by a map is well-formed. */
  ghost predicate EntriesWellFormed(r: Resolved) {
    forall M, m :: M in r && m in r[M] ==> WellFormed(r[M][m])
  }

  /** A line held by an arrangement of `h1` is a line of any arrangement of a history that
      contains `h1`. */
  lemma LinesIncluded(h1: seq<Version>, h2: seq<Version>, r1: Resolved, r2: Resolved)
    requires forall x :: x in h1 ==> x in h2
    requires HoldsGreatest(h1, r1) && Covers(h2, r2)
    ensures forall M :: M in r1 ==> M in r2 && r1[M].Keys <= r2[M].Keys
  {
    forall M | M in r1
      ensures M in r2 && r1[M].Keys <= r2[M].Keys
    {
      forall m | m in r1[M]
        ensures M in r2 && m in r2[M]
      {
        assert GreatestOfLine(h1, r1[M][m]);
      }
      var m :| m in r1[M];
    }
  }

  /** Lines included both ways are the same lines. */
  lemma MutualInclusion(r1: Resolved, r2: Resolved)
    requires forall M :: M in r1 ==> M in r2 && r1[M].Keys <= r2[M].Keys
    requires forall M :: M in r2 ==> M in r1 && r2[M].Keys <= r1[M].Keys
    ensures r1.Keys == r2.Keys
    ensures forall M :: M in r1 ==> r1[M].Keys == r2[M].Keys
  {
  }

  /** The greatest versions of one line of the same history have the same canonical text. */
  lemma GreatestAgree(h1: seq<Version>, h2: seq<Version>, v1: Version, v2: Version)
    requires forall x :: x in h1 <==> x in h2
    requires GreatestOfLine(h1, v1) && GreatestOfLine(h2, v2)
    requires v1.major == v2.major && v1.minor == v2.minor
    ensures CanonicalForm(v1) == CanonicalForm(v2)
  {
    assert v1 in h2 && v2 in h1;
    assert !Precedes(v1, v2) && !Precedes(v2, v1);
  }

  /** Two arrangements of the same history agree on every line up to canonical text. */
  lemma ArrangementsAgree(h1: seq<Version>, h2: seq<Version>, r1: Resolved, r2: Resolved)
    requires forall x :: x in h1 <==> x in h2
    requires Arranged(h1, r1) && Arranged(h2, r2)
    ensures Agree(r1, r2)
  {
    LinesIncluded(h1, h2, r1, r2);
    LinesIncluded(h2, h1, r2, r1);
    MutualInclusion(r1, r2);
    forall M, m | M in r1 && m in r1[M]
      ensures CanonicalForm(r1[M][m]) == CanonicalForm(r2[M][m])
    {
      GreatestAgree(h1, h2, r1[M][m], r2[M][m]);
    }
  }

  /** The greatest key depends on the keys only. */
  lemma SameKeysSameLast<T, U>(a: map<nat, T>, b: map<nat, U>)
    requires a != map[] && a.Keys == b.Keys
    ensures b != map[] && GetLastArrayIndex(a) == GetLastArrayIndex(b)
  {
    var k :| k in a;
    assert k in b;
  }

  /** Maps that agree allow the same versions. */
  lemma AgreeSamePossible(r1: Resolved, r2: Resolved, candidate: Version)
    requires Filled(r1) && Filled(r2) && Agree(r1, r2)
    requires EntriesWellFormed(r1) && EntriesWellFormed(r2)
    ensures PossibleFromResolved(r1, candidate) == PossibleFromResolved(r2, candidate)
  {
    if candidate.major !in r1 {
      SameKeysSameLast(r1, r2);
      var M := GetLastArrayIndex(r1);
      SameKeysSameLast(r1[M], r2[M]);
      var m := GetLastArrayIndex(r1[M]);
      SameCanonicalSameSuccessors(r1[M][m], r2[M][m]);
    } else {
      var major := candidate.major;
      SameKeysSameLast(r1[major], r2[major]);
      var minor := if candidate.minor in r1[major] then candidate.minor else GetLastArrayIndex(r1[major]);
      SameCanonicalSameSuccessors(r1[major][minor], r2[major][minor]);
      assert HasNewerMinorVersionsAfter(r1, major, minor) == HasNewerMinorVersionsAfter(r2, major, minor);
      assert HasNewerMajorVersionsAfter(r1, major) == HasNewerMajorVersionsAfter(r2, major);
    }
  }

  /** An arrangement of a non-empty well-formed history is filled with well-formed versions. */
  lemma ArrangedFilled(h: seq<Version>, r: Resolved)
    requires |h| > 0 && forall x :: x in h ==> WellFormed(x)
    requires Arranged(h, r)
    ensures Filled(r) && EntriesWellFormed(r)
  {
    assert h[0] in h;
    forall M, m | M in r && m in r[M]
      ensures WellFormed(r[M][m])
    {
      assert GreatestOfLine(h, r[M][m]);
    }
  }

  /** Two arrangements of the same well-formed history, in whatever order, allow the same
      versions. */
  lemma SameHistorySamePossible(h1: seq<Version>, h2: seq<Version>, r1: Resolved, r2: Resolved, candidate: Version)
    requires |h1| > 0 && forall x :: x in h1 ==> WellFormed(x)
    requires multiset(h1) == multiset(h2)
    requires Arranged(h1, r1) && Arranged(h2, r2)
    ensures Filled(r1) && Filled(r2)
    ensures PossibleFromResolved(r1, candidate) == PossibleFromResolved(r2, candidate)
  {
    assert forall x :: x in h1 <==> x in h2 by {
      forall x
        ensures x in h1 <==> x in h2
      {
        assert x in h1 <==> x in multiset(h1);
        assert x in h2 <==> x in multiset(h2);
      }
    }
    assert |h2| > 0 by {
      assert h1[0] in h2;
    }
    ArrangedFilled(h1, r1);
    ArrangedFilled(h2, r2);
    ArrangementsAgree(h1, h2, r1, r2);
    AgreeSamePossible(r1, r2, candidate);
  }
}
