/** Worked examples: every row of the increase table, the candidate table and the validator
    tables that the repository's test suites check, derived from the model. A row whose
    text the test writes in a short or lower-case form (`1.0-BETA1`, `v3.5-beta1`) is built
    here from its numbers. */
module Scenarios {
  import opened Versions
  import opened Validator
  import opened ValidatorProperties

  // ---------------------------------------------------------------------------------------
  // Increases

  /** The `patch` rows: a version past 0.x with a non-zero counter takes its next counter,
      any other version the next patch. */
  lemma PatchIncreaseExamples()
    ensures GetNextIncreaseOf(Make(0, 1, 0, Stable), "patch").value == Make(0, 1, 1, Stable)
    ensures GetNextIncreaseOf(Make(0, 1, 1, Stable), "patch").value == Make(0, 1, 2, Stable)
    ensures GetNextIncreaseOf(Make(1, 0, 0, Stable), "patch").value == Make(1, 0, 1, Stable)
    ensures GetNextIncreaseOf(Make(1, 0, 0, Alpha, 1), "patch").value == Make(1, 0, 0, Alpha, 2)
    ensures GetNextIncreaseOf(Make(1, 0, 0, Beta, 1), "patch").value == Make(1, 0, 0, Beta, 2)
    ensures GetNextIncreaseOf(Make(1, 0, 0, Rc, 1), "patch").value == Make(1, 0, 0, Rc, 2)
  {
  }

  /** The `minor` and `major` rows: the numbers below the increased one are reset, and a
      pre-release past 0.x is released on its own major. */
  lemma MinorMajorIncreaseExamples()
    ensures GetNextIncreaseOf(Make(0, 1, 0, Stable), "minor").value == Make(0, 2, 0, Stable)
    ensures GetNextIncreaseOf(Make(0, 1, 1, Stable), "minor").value == Make(0, 2, 0, Stable)
    ensures GetNextIncreaseOf(Make(0, 1, 0, Stable), "major").value == Make(1, 0, 0, Stable)
    ensures GetNextIncreaseOf(Make(0, 1, 1, Stable), "major").value == Make(1, 0, 0, Stable)
    ensures GetNextIncreaseOf(Make(1, 0, 0, Beta, 1), "major").value == Make(1, 0, 0, Stable)
    ensures GetNextIncreaseOf(Make(1, 0, 0, Stable), "major").value == Make(2, 0, 0, Stable)
    ensures GetNextIncreaseOf(Make(2, 0, 0, Beta, 1), "major").value == Make(2, 0, 0, Stable)
  {
  }

  /** The `next` rows: the next minor, or the next counter of an open pre-release line. */
  lemma NextIncreaseExamples()
    ensures GetNextIncreaseOf(Make(0, 1, 0, Stable), "next").value == Make(0, 2, 0, Stable)
    ensures GetNextIncreaseOf(Make(0, 1, 1, Stable), "next").value == Make(0, 2, 0, Stable)
    ensures GetNextIncreaseOf(Make(1, 0, 0, Alpha, 6), "next").value == Make(1, 0, 0, Alpha, 7)
    ensures GetNextIncreaseOf(Make(1, 0, 0, Beta, 1), "next").value == Make(1, 0, 0, Beta, 2)
    ensures GetNextIncreaseOf(Make(1, 0, 0, Stable), "next").value == Make(1, 1, 0, Stable)
  {
  }

  /** The `alpha`, `beta` and `rc` rows: the same tier takes its next counter, a higher tier
      starts at counter 1 on the same line, and a release opens the next minor. */
  lemma TierIncreaseExamples()
    ensures GetNextIncreaseOf(Make(1, 0, 0, Alpha, 1), "alpha").value == Make(1, 0, 0, Alpha, 2)
    ensures GetNextIncreaseOf(Make(1, 0, 0, Stable), "alpha").value == Make(1, 1, 0, Alpha, 1)
    ensures GetNextIncreaseOf(Make(1, 0, 0, Beta, 1), "beta").value == Make(1, 0, 0, Beta, 2)
    ensures GetNextIncreaseOf(Make(1, 0, 0, Stable), "beta").value == Make(1, 1, 0, Beta, 1)
    ensures GetNextIncreaseOf(Make(1, 0, 0, Alpha, 1), "beta").value == Make(1, 0, 0, Beta, 1)
    ensures GetNextIncreaseOf(Make(1, 0, 0, Rc, 1), "rc").value == Make(1, 0, 0, Rc, 2)
    ensures GetNextIncreaseOf(Make(1, 0, 0, Stable), "rc").value == Make(1, 1, 0, Rc, 1)
    ensures GetNextIncreaseOf(Make(1, 0, 0, Alpha, 1), "rc").value == Make(1, 0, 0, Rc, 1)
    ensures GetNextIncreaseOf(Make(1, 0, 0, Beta, 1), "rc").value == Make(1, 0, 0, Rc, 1)
  {
  }

  /** The `stable` rows. */
  lemma StableIncreaseExamples()
    ensures GetNextIncreaseOf(Make(0, 1, 0, Stable), "stable").value == Make(1, 0, 0, Stable)
    ensures GetNextIncreaseOf(Make(1, 0, 0, Alpha, 6), "stable").value == Make(1, 0, 0, Stable)
    ensures GetNextIncreaseOf(Make(1, 0, 0, Beta, 1), "stable").value == Make(1, 0, 0, Stable)
    ensures GetNextIncreaseOf(Make(1, 0, 0, Stable), "stable").value == Make(1, 1, 0, Stable)
  {
  }

  /** An increase kind outside the accepted eight is refused. */
  lemma UnknownKindExample()
    ensures GetNextIncreaseOf(Make(1, 0, 0, Beta, 1), "next-stable") == Err(UnknownIncrease("next-stable"))
  {
  }

  /** A release past 0.x with a counter is refused; before 1.0 the tier is alpha anyway. */
  lemma StableCounterExample()
    ensures Create(1, 0, 0, Stable, 5) == Err(StableWithMetaver)
    ensures Create(0, 1, 0, Stable, 5).Ok?
  {
  }

  /** Equality looks at the canonical text only. A 0.x version shows neither tier nor
      counter, so two 0.x versions built with different tiers and counters are equal. */
  lemma EqualToExamples()
    ensures EqualTo(Make(1, 0, 0, Beta, 5), Make(1, 0, 0, Beta, 5))
    ensures !EqualTo(Make(1, 0, 0, Beta, 5), Make(1, 0, 0, Beta, 6))
    ensures EqualTo(Make(0, 1, 0, Beta, 3), Make(0, 1, 0, Stable))
  {
  }

  // ---------------------------------------------------------------------------------------
  // Candidate lists

  /** The candidate rows of a 0.x version and of the first open pre-release line. */
  lemma UnstableCandidateExamples()
    ensures NextCandidates(Make(0, 1, 0, Stable)) ==
      [Make(0, 1, 1, Stable), Make(0, 2, 0, Stable), Make(1, 0, 0, Beta, 1), Make(1, 0, 0, Stable)]
    ensures NextCandidates(Make(1, 0, 0, Beta, 5)) ==
      [Make(1, 0, 0, Beta, 6), Make(1, 0, 0, Rc, 1), Make(1, 0, 0, Stable)]
  {
  }

  /** The remaining pre-release rows of the candidate table. */
  lemma PreReleaseCandidateExamples()
    ensures NextCandidates(Make(2, 0, 0, Beta, 5)) ==
      [Make(2, 0, 0, Beta, 6), Make(2, 0, 0, Rc, 1), Make(2, 0, 0, Stable)]
    ensures NextCandidates(Make(3, 5, 0, Beta, 1)) ==
      [Make(3, 5, 0, Beta, 2), Make(3, 5, 0, Rc, 1), Make(3, 5, 0, Stable)]
    ensures NextCandidates(Make(1, 0, 0, Rc, 5)) == [Make(1, 0, 0, Rc, 6), Make(1, 0, 0, Stable)]
  {
  }

  /** The candidate rows of releases past 0.x on `M.m.0`. */
  lemma StableCandidateExamples()
    ensures NextCandidates(Make(1, 0, 0, Stable)) ==
      [Make(1, 0, 1, Stable), Make(1, 1, 0, Beta, 1), Make(1, 1, 0, Stable),
       Make(2, 0, 0, Alpha, 1), Make(2, 0, 0, Beta, 1), Make(2, 0, 0, Stable)]
    ensures NextCandidates(Make(2, 0, 0, Stable)) ==
      [Make(2, 0, 1, Stable), Make(2, 1, 0, Beta, 1), Make(2, 1, 0, Stable),
       Make(3, 0, 0, Alpha, 1), Make(3, 0, 0, Beta, 1), Make(3, 0, 0, Stable)]
    ensures NextCandidates(Make(1, 1, 0, Stable)) ==
      [Make(1, 1, 1, Stable), Make(1, 2, 0, Beta, 1), Make(1, 2, 0, Stable),
       Make(2, 0, 0, Alpha, 1), Make(2, 0, 0, Beta, 1), Make(2, 0, 0, Stable)]
  {
  }

  /** The candidate rows of releases with a patch. */
  lemma PatchedCandidateExamples()
    ensures NextCandidates(Make(1, 1, 1, Stable)) ==
      [Make(1, 1, 2, Stable), Make(1, 2, 0, Beta, 1), Make(1, 2, 0, Stable),
       Make(2, 0, 0, Alpha, 1), Make(2, 0, 0, Beta, 1), Make(2, 0, 0, Stable)]
    ensures NextCandidates(Make(1, 0, 1, Stable)) ==
      [Make(1, 0, 2, Stable), Make(1, 1, 0, Beta, 1), Make(1, 1, 0, Stable),
       Make(2, 0, 0, Alpha, 1), Make(2, 0, 0, Beta, 1), Make(2, 0, 0, Stable)]
  {
  }

  // ---------------------------------------------------------------------------------------
  // The validator without history

  /** Without history, 0.1.0, 1.0.0-ALPHA1, 1.0.0-BETA1 and 1.0.0 continue. */
  lemma NoHistoryExamples()
    ensures Continues([], Make(0, 1, 0, Stable))
    ensures Continues([], Make(1, 0, 0, Alpha, 1))
    ensures Continues([], Make(1, 0, 0, Beta, 1))
    ensures Continues([], Make(1, 0, 0, Stable))
  {
    EmptyHistory(Make(0, 1, 0, Stable));
    EmptyHistory(Make(1, 0, 0, Alpha, 1));
    EmptyHistory(Make(1, 0, 0, Beta, 1));
    EmptyHistory(Make(1, 0, 0, Stable));
  }

  /** Without history, 0.2.0, 2.0.0-ALPHA1, 2.0.0-BETA1, 1.1.0 and 2.0.0 do not continue. */
  lemma NoHistoryRefusedExamples()
    ensures !Continues([], Make(0, 2, 0, Stable))
    ensures !Continues([], Make(2, 0, 0, Alpha, 1))
    ensures !Continues([], Make(2, 0, 0, Beta, 1))
    ensures !Continues([], Make(1, 1, 0, Stable))
    ensures !Continues([], Make(2, 0, 0, Stable))
  {
    EmptyHistory(Make(0, 2, 0, Stable));
    EmptyHistory(Make(2, 0, 0, Alpha, 1));
    EmptyHistory(Make(2, 0, 0, Beta, 1));
    EmptyHistory(Make(1, 1, 0, Stable));
    EmptyHistory(Make(2, 0, 0, Stable));
  }

  // ---------------------------------------------------------------------------------------
  // The validator after 0.2.0 and 0.1.0

  /** The history of the `unstable` rows. */
  function ZeroHistory(): seq<Version> {
    [Make(0, 2, 0, Stable), Make(0, 1, 0, Stable)]
  }

  /** The successors of 0.2.0, offered to every proposal of the `unstable` rows except
      those on line 0.1. */
  function ZeroSuccessors(): seq<Version> {
    [Make(0, 2, 1, Stable), Make(0, 3, 0, Stable), Make(1, 0, 0, Beta, 1), Make(1, 0, 0, Stable)]
  }

  /** A new minor of major 0 falls back to 0.2.0: 0.3.0 continues, 0.5.0 does not. */
  lemma ZeroNewMinorExample()
    ensures PossibleVersions(ZeroHistory(), Make(0, 3, 0, Stable)) == ZeroSuccessors()
    ensures PossibleVersions(ZeroHistory(), Make(0, 5, 0, Stable)) == ZeroSuccessors()
    ensures Continues(ZeroHistory(), Make(0, 3, 0, Stable))
    ensures !Continues(ZeroHistory(), Make(0, 5, 0, Stable))
  {
    var h := ZeroHistory();
    assert NewestOfMajor(h, 0, h[0]);
    assert !HasNewerMajor(h, 0);
    UnknownMinor(h, Make(0, 3, 0, Stable), h[0]);
    UnknownMinor(h, Make(0, 5, 0, Stable), h[0]);
    assert EqualTo(ZeroSuccessors()[1], Make(0, 3, 0, Stable));
  }

  /** The newest line 0.2 takes every successor: 0.2.1 continues, 0.2.4 does not. */
  lemma ZeroNewestLineExample()
    ensures PossibleVersions(ZeroHistory(), Make(0, 2, 1, Stable)) == ZeroSuccessors()
    ensures PossibleVersions(ZeroHistory(), Make(0, 2, 4, Stable)) == ZeroSuccessors()
    ensures Continues(ZeroHistory(), Make(0, 2, 1, Stable))
    ensures !Continues(ZeroHistory(), Make(0, 2, 4, Stable))
  {
    var h := ZeroHistory();
    assert GreatestOfLine(h, h[0]);
    assert !HasNewerMinor(h, 0, 2);
    assert !HasNewerMajor(h, 0);
    KnownLine(h, Make(0, 2, 1, Stable), h[0]);
    KnownLine(h, Make(0, 2, 4, Stable), h[0]);
    assert EqualTo(ZeroSuccessors()[0], Make(0, 2, 1, Stable));
  }

  /** A 0.x line with a newer minor may take a patch only: 0.1.1 continues, 0.1.5 does not. */
  lemma OlderMinorExample()
    ensures PossibleVersions(ZeroHistory(), Make(0, 1, 1, Stable)) == [Make(0, 1, 1, Stable)]
    ensures PossibleVersions(ZeroHistory(), Make(0, 1, 5, Stable)) == [Make(0, 1, 1, Stable)]
    ensures Continues(ZeroHistory(), Make(0, 1, 1, Stable))
    ensures !Continues(ZeroHistory(), Make(0, 1, 5, Stable))
  {
    var h := ZeroHistory();
    assert GreatestOfLine(h, h[1]);
    assert h[0] in h;
    KnownLine(h, Make(0, 1, 1, Stable), h[1]);
    KnownLine(h, Make(0, 1, 5, Stable), h[1]);
    assert EqualTo(PossibleVersions(h, Make(0, 1, 1, Stable))[0], Make(0, 1, 1, Stable));
  }

  /** Any major above 0 is one the history has not reached: it gets the successors of
      0.2.0. */
  lemma ZeroUnknownMajor(candidate: Version)
    requires candidate.major > 0
    ensures PossibleVersions(ZeroHistory(), candidate) == ZeroSuccessors()
  {
    var h := ZeroHistory();
    assert Newest(h, h[0]);
    UnknownMajor(h, candidate, h[0]);
  }

  /** 1.0.0 and 1.0.0-BETA1 continue 0.2.0 and 0.1.0. */
  lemma NewMajorExample()
    ensures Continues(ZeroHistory(), Make(1, 0, 0, Stable))
    ensures Continues(ZeroHistory(), Make(1, 0, 0, Beta, 1))
  {
    ZeroUnknownMajor(Make(1, 0, 0, Stable));
    ZeroUnknownMajor(Make(1, 0, 0, Beta, 1));
    assert EqualTo(ZeroSuccessors()[3], Make(1, 0, 0, Stable));
    assert EqualTo(ZeroSuccessors()[2], Make(1, 0, 0, Beta, 1));
  }

  /** No version of `possible` has the canonical text of `candidate`. */
  predicate NoneEqual(possible: seq<Version>, candidate: Version) {
    forall c :: c in possible ==> CanonicalForm(c) != CanonicalForm(candidate)
  }

  /** A proposal whose canonical tuple differs from those of every allowed version does not
      continue the history. */
  lemma Refused(h: seq<Version>, candidate: Version)
    requires WellFormed(candidate) && NoneEqual(PossibleVersions(h, candidate), candidate)
    requires forall c :: c in PossibleVersions(h, candidate) ==> WellFormed(c)
    ensures !Continues(h, candidate)
  {
  }

  /** A proposal on a major above 0 that is none of 0.2.0's successors does not continue. */
  lemma ZeroMajorRefused(candidate: Version)
    requires WellFormed(candidate) && candidate.major > 0 && NoneEqual(ZeroSuccessors(), candidate)
    ensures !Continues(ZeroHistory(), candidate)
  {
    ZeroUnknownMajor(candidate);
    Refused(ZeroHistory(), candidate);
  }

  /** 2.0.0, 1.0.0-BETA2 and 1.0.0-ALPHA1 do not continue 0.2.0 and 0.1.0. */
  lemma NewMajorRefusedExample()
    ensures !Continues(ZeroHistory(), Make(2, 0, 0, Stable))
    ensures !Continues(ZeroHistory(), Make(1, 0, 0, Beta, 2))
    ensures !Continues(ZeroHistory(), Make(1, 0, 0, Alpha, 1))
  {
    ZeroMajorRefused(Make(2, 0, 0, Stable));
    ZeroMajorRefused(Make(1, 0, 0, Beta, 2));
    ZeroMajorRefused(Make(1, 0, 0, Alpha, 1));
  }

  // ---------------------------------------------------------------------------------------
  // The validator after releases past 0.x

  /** The history of the `stable #1` rows. */
  function OneHistory(): seq<Version> {
    [Make(1, 0, 0, Stable), Make(1, 1, 0, Stable)]
  }

  /** After 1.0.0 and 1.1.0, any new minor of major 1 falls back to the successors of
      1.1.0. */
  lemma OneNewMinor(candidate: Version)
    requires candidate.major == 1 && candidate.minor > 1
    ensures PossibleVersions(OneHistory(), candidate) ==
      [Make(1, 1, 1, Stable), Make(1, 2, 0, Beta, 1), Make(1, 2, 0, Stable),
       Make(2, 0, 0, Alpha, 1), Make(2, 0, 0, Beta, 1), Make(2, 0, 0, Stable)]
  {
    var h := OneHistory();
    assert NewestOfMajor(h, 1, h[1]);
    assert !HasNewerMajor(h, 1);
    UnknownMinor(h, candidate, h[1]);
  }

  /** After 1.0.0 and 1.1.0, 1.2.0 continues and 1.3.0 does not. */
  lemma NewMinorExample()
    ensures Continues(OneHistory(), Make(1, 2, 0, Stable))
    ensures !Continues(OneHistory(), Make(1, 3, 0, Stable))
  {
    OneNewMinor(Make(1, 2, 0, Stable));
    OneNewMinor(Make(1, 3, 0, Stable));
    Refused(OneHistory(), Make(1, 3, 0, Stable));
    assert EqualTo(PossibleVersions(OneHistory(), Make(1, 2, 0, Stable))[2], Make(1, 2, 0, Stable));
  }

  /** A maintenance line under a newer major may take a patch or the next minor only. */
  lemma MaintenanceExample()
    ensures var h := [Make(1, 1, 0, Stable), Make(2, 0, 0, Stable)];
      && PossibleVersions(h, Make(1, 1, 1, Stable)) == [Make(1, 1, 1, Stable), Make(1, 2, 0, Stable)]
      && Continues(h, Make(1, 1, 1, Stable))
  {
    var h := [Make(1, 1, 0, Stable), Make(2, 0, 0, Stable)];
    assert GreatestOfLine(h, h[0]);
    assert !HasNewerMinor(h, 1, 1);
    assert h[1] in h;
    KnownLine(h, Make(1, 1, 1, Stable), h[0]);
    assert EqualTo(PossibleVersions(h, Make(1, 1, 1, Stable))[0], Make(1, 1, 1, Stable));
  }

  /** A new minor of a known major falls back to the newest line of that major: after 3.4.0
      and 3.7.0, 3.6.0 is refused. */
  lemma FallbackExample()
    ensures var h := [Make(3, 4, 0, Stable), Make(3, 7, 0, Stable)];
      && PossibleVersions(h, Make(3, 6, 0, Stable)) ==
         [Make(3, 7, 1, Stable), Make(3, 8, 0, Beta, 1), Make(3, 8, 0, Stable),
          Make(4, 0, 0, Alpha, 1), Make(4, 0, 0, Beta, 1), Make(4, 0, 0, Stable)]
      && !Continues(h, Make(3, 6, 0, Stable))
  {
    var h := [Make(3, 4, 0, Stable), Make(3, 7, 0, Stable)];
    assert NewestOfMajor(h, 3, h[1]);
    assert !HasLine(h, 3, 6);
    assert !HasNewerMajor(h, 3);
    UnknownMinor(h, Make(3, 6, 0, Stable), h[1]);
  }

  /** An open pre-release line continues only on its own line: after 3.5.0-BETA1, 3.6.0 is
      refused. */
  lemma PreReleaseLineExample()
    ensures var h := [Make(3, 5, 0, Beta, 1)];
      && PossibleVersions(h, Make(3, 6, 0, Stable)) ==
         [Make(3, 5, 0, Beta, 2), Make(3, 5, 0, Rc, 1), Make(3, 5, 0, Stable)]
      && !Continues(h, Make(3, 6, 0, Stable))
  {
    var h := [Make(3, 5, 0, Beta, 1)];
    assert NewestOfMajor(h, 3, h[0]);
    assert !HasLine(h, 3, 6);
    assert !HasNewerMajor(h, 3);
    UnknownMinor(h, Make(3, 6, 0, Stable), h[0]);
  }
}
