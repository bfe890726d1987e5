/** What the rule engine promises: the exact shape of the candidate lists, their order,
    and when an increase moves forward in the release order. */
module VersionProperties {
  import opened Versions

  /** Before 1.0: the next patch, the next minor, 1.0.0-BETA1 and 1.0.0, in that order. */
  lemma PreStableCandidates(v: Version)
    requires v.major == 0
    ensures var r := NextCandidates(v);
      && |r| == 4
      && CanonicalForm(r[0]) == Canonical(0, v.minor, v.patch + 1, 3, 0)
      && CanonicalForm(r[1]) == Canonical(0, v.minor + 1, 0, 3, 0)
      && CanonicalForm(r[2]) == Canonical(1, 0, 0, Index(Beta), 1)
      && CanonicalForm(r[3]) == Canonical(1, 0, 0, 3, 0)
  {
  }

  /** An open pre-release line past 0.x: every candidate stays on `M.m.0`; first the next
      counter of the same tier, then counter 1 of each tier strictly between the current
      one and Stable, then the release. */
  lemma UnstableCandidates(v: Version)
    requires v.major > 0 && v.stability != Stable
    ensures var r := NextCandidates(v);
      && |r| == 4 - Index(v.stability)
      && (forall c :: c in r ==> c.major == v.major && c.minor == v.minor && c.patch == 0)
      && r[0].stability == v.stability && r[0].metaver == v.metaver + 1
      && (forall k :: 0 < k < |r| - 1 ==> r[k].stability == TierAt(Index(v.stability) + k) && r[k].metaver == 1)
      && r[|r| - 1].stability == Stable && r[|r| - 1].metaver == 0
  {
    var r := NextCandidates(v);
    var pre := PreReleases(v.major, v.minor, Index(v.stability) + 1, 3);
    assert r == [r[0]] + pre + [r[|r| - 1]];
    forall k | 0 < k < |r| - 1
      ensures r[k].stability == TierAt(Index(v.stability) + k) && r[k].metaver == 1
    {
      assert r[k] == pre[k - 1];
    }
  }

  /** A release past 0.x: exactly six candidates (next patch; next minor as BETA1 and as a
      release; next major as ALPHA1, BETA1 and a release), none of them a release candidate. */
  lemma StableCandidates(v: Version)
    requires WellFormed(v) && v.major > 0 && v.stability == Stable
    ensures var r := NextCandidates(v);
      && |r| == 6
      && CanonicalForm(r[0]) == Canonical(v.major, v.minor, v.patch + 1, 3, 0)
      && CanonicalForm(r[1]) == Canonical(v.major, v.minor + 1, 0, Index(Beta), 1)
      && CanonicalForm(r[2]) == Canonical(v.major, v.minor + 1, 0, 3, 0)
      && CanonicalForm(r[3]) == Canonical(v.major + 1, 0, 0, Index(Alpha), 1)
      && CanonicalForm(r[4]) == Canonical(v.major + 1, 0, 0, Index(Beta), 1)
      && CanonicalForm(r[5]) == Canonical(v.major + 1, 0, 0, 3, 0)
      && (forall c :: c in r ==> c.stability != Rc)
  {
  }

  /** On an open pre-release line the k-th candidate sits at tier `Index(v.stability) + k`
      of `M.m.0`; the last one is the release. */
  lemma UnstableTiers(v: Version)
    requires v.major > 0 && v.stability != Stable
    ensures var r := NextCandidates(v);
      forall k :: 0 <= k < |r| ==>
        && CanonicalForm(r[k]).major == v.major && CanonicalForm(r[k]).minor == v.minor
        && CanonicalForm(r[k]).patch == 0 && CanonicalForm(r[k]).tier == Index(v.stability) + k
  {
    var r := NextCandidates(v);
    UnstableCandidates(v);
    forall k | 0 <= k < |r|
      ensures CanonicalForm(r[k]).tier == Index(v.stability) + k
    {
      if 0 < k < |r| - 1 {
        assert Index(r[k].stability) == Index(v.stability) + k;
      }
    }
  }

  /** The candidates come out strictly ascending in the release order, so they are distinct. */
  lemma CandidatesAscending(v: Version)
    requires WellFormed(v)
    ensures var r := NextCandidates(v);
      forall i, j :: 0 <= i < j < |r| ==> Precedes(r[i], r[j])
  {
    if v.major > 0 && v.stability != Stable {
      UnstableTiers(v);
    } else if v.major == 0 {
      PreStableCandidates(v);
    } else {
      StableCandidates(v);
    }
  }

  /** Every candidate is newer than the version itself exactly when the version is not an
      unstable one with a non-zero patch (the engine assumes pre-releases sit on `M.m.0`). */
  lemma CandidatesNewerIff(v: Version)
    requires WellFormed(v)
    ensures (forall c :: c in NextCandidates(v) ==> Precedes(v, c))
            <==> (v.major == 0 || v.stability == Stable || v.patch == 0)
  {
    var r := NextCandidates(v);
    CandidatesAscending(v);
    if v.major > 0 && v.stability != Stable {
      UnstableCandidates(v);
    } else if v.major == 0 {
      PreStableCandidates(v);
    } else {
      StableCandidates(v);
    }
    assert Precedes(v, r[0]) <==> (v.major == 0 || v.stability == Stable || v.patch == 0);
    if Precedes(v, r[0]) {
      forall c | c in r
        ensures Precedes(v, c)
      {
        var j :| 0 <= j < |r| && r[j] == c;
        assert j == 0 || Precedes(r[0], r[j]);
      }
    }
  }

  /** When an increase moves forward in the release order. `patch`, `minor` and `next`
      always do; `major` fails only on an unstable version off `M.0.0`; a pre-release tier
      never moves a 0.x version forward, and past 0.x fails only when it reuses the line of
      a version with a non-zero patch; `stable` fails only on an unstable version with a
      non-zero patch past 0.x. */
  lemma IncreaseNewerIff(v: Version, kind: string)
    requires WellFormed(v) && kind in IncreaseKinds
    ensures Precedes(v, GetNextIncreaseOf(v, kind).value) <==>
      if kind == "patch" || kind == "minor" || kind == "next" then true
      else if kind == "major" then !(v.major > 0 && v.stability != Stable && (v.minor > 0 || v.patch > 0))
      else if kind == "stable" then v.major == 0 || v.stability == Stable || v.patch == 0
      else v.major > 0 && (Index(StabilityNamed(kind).value) < Index(v.stability) || v.patch == 0)
  {
  }
}
