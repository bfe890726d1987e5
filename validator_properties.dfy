/** What the validator promises, stated on the history itself rather than on the map it
    builds: which versions may follow in each case, and that the order of the history
    does not matter. */
module ValidatorProperties {
  import opened Versions
  import opened Validator

  /** Every version of the history is a constructed one. */
  ghost predicate WellFormedHistory(h: seq<Version>) {
    forall x :: x in h ==> WellFormed(x)
  }

  /** `top` is a newest version of `h`. */
  ghost predicate Newest(h: seq<Version>, top: Version) {
    top in h && forall x :: x in h ==> !Precedes(top, x)
  }

  /** `v` is a newest version of `h` among those with major `major`. */
  ghost predicate NewestOfMajor(h: seq<Version>, major: nat, v: Version) {
    v in h && v.major == major && forall x :: x in h && x.major == major ==> !Precedes(v, x)
  }

  /** Some version of `h` has major `major`. */
  ghost predicate HasMajor(h: seq<Version>, major: nat) {
    exists x :: x in h && x.major == major
  }

  /** Some version of `h` lies on the line `major.minor`. */
  ghost predicate HasLine(h: seq<Version>, major: nat, minor: nat) {
    exists x :: x in h && x.major == major && x.minor == minor
  }

  /** Some version of `h` has a greater major than `major`. */
  ghost predicate HasNewerMajor(h: seq<Version>, major: nat) {
    exists x :: x in h && x.major > major
  }

  /** Some version of `h` has major `major` and a greater minor than `minor`. */
  ghost predicate HasNewerMinor(h: seq<Version>, major: nat, minor: nat) {
    exists x :: x in h && x.major == major && x.minor > minor
  }

  // ---------------------------------------------------------------------------------------
  // The arranged map read back as facts about the history

  /** The lines of an arrangement are exactly the lines of the history. */
  lemma ArrangedLines(h: seq<Version>, r: Resolved)
    requires Arranged(h, r)
    ensures forall M :: M in r <==> HasMajor(h, M)
    ensures forall M, m :: M in r && m in r[M] <==> HasLine(h, M, m)
  {
    forall M | M in r
      ensures HasMajor(h, M)
    {
      var m :| m in r[M];
      assert GreatestOfLine(h, r[M][m]);
    }
    forall M, m | M in r && m in r[M]
      ensures HasLine(h, M, m)
    {
      assert GreatestOfLine(h, r[M][m]);
    }
  }

  /** Two versions neither of which precedes the other have the same canonical text. */
  lemma Unordered(a: Version, b: Version)
    requires !Precedes(a, b) && !Precedes(b, a)
    ensures CanonicalForm(a) == CanonicalForm(b)
  {
  }

  /** The line of a greatest version holds a version with the same canonical text. */
  lemma LineEntry(h: seq<Version>, r: Resolved, v: Version)
    requires Arranged(h, r) && GreatestOfLine(h, v)
    ensures v.major in r && v.minor in r[v.major]
    ensures CanonicalForm(r[v.major][v.minor]) == CanonicalForm(v)
  {
    var e := r[v.major][v.minor];
    assert GreatestOfLine(h, e);
    Unordered(e, v);
  }

  /** The greatest major of an arrangement is that of a newest version of the history. */
  lemma LastMajor(h: seq<Version>, r: Resolved, top: Version)
    requires Arranged(h, r) && r != map[] && Newest(h, top)
    ensures GetLastArrayIndex(r) == top.major
  {
    ArrangedLines(h, r);
    var M := GetLastArrayIndex(r);
    assert top.major <= M;
    assert HasMajor(h, M);
    var x :| x in h && x.major == M;
    assert !Precedes(top, x);
  }

  /** The greatest minor of a major of an arrangement is that of a newest version of the
      history with that major. */
  lemma LastMinor(h: seq<Version>, r: Resolved, major: nat, v: Version)
    requires Arranged(h, r) && NewestOfMajor(h, major, v)
    ensures major in r && r[major] != map[] && GetLastArrayIndex(r[major]) == v.minor
  {
    ArrangedLines(h, r);
    assert HasLine(h, major, v.minor);
    var m := GetLastArrayIndex(r[major]);
    assert v.minor <= m;
    assert HasLine(h, major, m);
    var y :| y in h && y.major == major && y.minor == m;
    assert !Precedes(v, y);
  }

  // ---------------------------------------------------------------------------------------
  // The last key of the arranged map

  /** The keys of an array in the order it first receives them: writing a key again keeps
      its place. */
  function FirstSeen(keys: seq<nat>): (r: seq<nat>)
    ensures forall k :: k in r <==> k in keys
  {
    if keys == [] then []
    else
      var init, k := keys[..|keys| - 1], keys[|keys| - 1];
      assert keys == init + [k];
      var r := FirstSeen(init);
      if k in r then r else r + [k]
  }

  /** Keys written in non-decreasing order are first received in strictly increasing order. */
  lemma {:induction false} FirstSeenAscending(keys: seq<nat>)
    requires forall i, j :: 0 <= i < j < |keys| ==> keys[i] <= keys[j]
    ensures forall i, j :: 0 <= i < j < |FirstSeen(keys)| ==> FirstSeen(keys)[i] < FirstSeen(keys)[j]
  {
    if keys != [] {
      var init, k := keys[..|keys| - 1], keys[|keys| - 1];
      FirstSeenAscending(init);
      var r := FirstSeen(init);
      if k !in r {
        forall x | x in r
          ensures x < k
        {
          var i :| 0 <= i < |init| && init[i] == x;
          assert keys[i] == x;
        }
        var r' := r + [k];
        assert FirstSeen(keys) == r';
        forall i, j | 0 <= i < j < |r'|
          ensures r'[i] < r'[j]
        {
          if j == |r| {
            assert r'[i] == r[i] && r[i] in r;
          }
        }
      }
    }
  }

  /** The major of each version, in history order. */
  function Majors(s: seq<Version>): (r: seq<nat>)
    ensures |r| == |s| && forall i :: 0 <= i < |s| ==> r[i] == s[i].major
  {
    if s == [] then [] else Majors(s[..|s| - 1]) + [s[|s| - 1].major]
  }

  /** The minor of each version with major `major`, in history order. */
  function MinorsOf(s: seq<Version>, major: nat): (r: seq<nat>)
    ensures forall m :: m in r <==> HasLine(s, major, m)
  {
    if s == [] then []
    else
      var init, v := s[..|s| - 1], s[|s| - 1];
      assert s == init + [v];
      assert forall x :: x in s <==> x in init || x == v;
      MinorsOf(init, major) + if v.major == major then [v.minor] else []
  }

  /** The minors of one major come in non-decreasing order in a sorted history. */
  lemma {:induction false} MinorsOfSorted(s: seq<Version>, major: nat)
    requires Sorted(s)
    ensures forall i, j :: 0 <= i < j < |MinorsOf(s, major)| ==> MinorsOf(s, major)[i] <= MinorsOf(s, major)[j]
  {
    if s != [] {
      var init, v := s[..|s| - 1], s[|s| - 1];
      assert Sorted(init);
      MinorsOfSorted(init, major);
      if v.major == major {
        var q := MinorsOf(init, major);
        forall m | m in q
          ensures m <= v.minor
        {
          var x :| x in init && x.major == major && x.minor == m;
          var i :| 0 <= i < |init| && init[i] == x;
          assert s[i] == x && !Precedes(v, x);
        }
        var q' := q + [v.minor];
        assert MinorsOf(s, major) == q';
        forall i, j | 0 <= i < j < |q'|
          ensures q'[i] <= q'[j]
        {
          if j == |q| {
            assert q'[i] == q[i] && q[i] in q;
          }
        }
      } else {
        assert MinorsOf(s, major) == MinorsOf(init, major);
      }
    }
  }

  /** The majors come in non-decreasing order in a sorted history. */
  lemma MajorsSorted(s: seq<Version>)
    requires Sorted(s)
    ensures forall i, j :: 0 <= i < j < |Majors(s)| ==> Majors(s)[i] <= Majors(s)[j]
  {
    forall i, j | 0 <= i < j < |s|
      ensures s[i].major <= s[j].major
    {
      assert !Precedes(s[j], s[i]);
    }
  }

  /** The key an array received last. */
  function Last(keys: seq<nat>): nat
    requires keys != []
  {
    keys[|keys| - 1]
  }

  /** The last element of a strictly increasing sequence is its greatest. */
  lemma LastIsGreatest(r: seq<nat>)
    requires |r| > 0 && forall i, j :: 0 <= i < j < |r| ==> r[i] < r[j]
    ensures forall x :: x in r ==> x <= r[|r| - 1]
  {
  }

  /** The lines of the filled map are the lines of the history. */
  lemma {:induction false} ResolveLines(s: seq<Version>)
    ensures forall M :: M in Resolve(s) <==> M in Majors(s)
    ensures forall M, m :: M in Resolve(s) && m in Resolve(s)[M] <==> m in MinorsOf(s, M)
  {
    if s != [] {
      var init, v := s[..|s| - 1], s[|s| - 1];
      ResolveLines(init);
      assert Majors(s) == Majors(init) + [v.major];
      forall M, m
        ensures M in Resolve(s) && m in Resolve(s)[M] <==> m in MinorsOf(s, M)
      {
        assert MinorsOf(s, M) == MinorsOf(init, M) + if v.major == M then [v.minor] else [];
      }
    }
  }

  /** An array whose keys were written in non-decreasing order received its greatest key
      last. */
  lemma EndKeyOf<T>(keys: seq<nat>, r: map<nat, T>)
    requires keys != [] && forall i, j :: 0 <= i < j < |keys| ==> keys[i] <= keys[j]
    requires forall k :: k in r <==> k in keys
    ensures r != map[] && FirstSeen(keys) != []
    ensures Last(FirstSeen(keys)) == GetLastArrayIndex(r)
  {
    var order := FirstSeen(keys);
    assert keys[0] in order;
    var last := Last(order);
    assert forall x :: x in order ==> x <= last by {
      FirstSeenAscending(keys);
      LastIsGreatest(order);
    }
    assert last in keys by {
      assert last in order;
    }
    var k := GetLastArrayIndex(r);
    assert k <= last;
  }

  /** After the ascending sort, the major the array received last is the greatest one:
      what `end` and `key` return on the arranged map. */
  lemma EndMajorIsGreatest(s: seq<Version>)
    requires Sorted(s) && |s| > 0
    ensures Resolve(s) != map[] && FirstSeen(Majors(s)) != []
    ensures Last(FirstSeen(Majors(s))) == GetLastArrayIndex(Resolve(s))
  {
    MajorsSorted(s);
    ResolveLines(s);
    EndKeyOf(Majors(s), Resolve(s));
  }

  /** After the ascending sort, the minor the array of a major received last is the greatest
      one of that major. */
  lemma EndMinorIsGreatest(s: seq<Version>, major: nat)
    requires Sorted(s) && major in Resolve(s)
    ensures Resolve(s)[major] != map[] && FirstSeen(MinorsOf(s, major)) != []
    ensures Last(FirstSeen(MinorsOf(s, major))) == GetLastArrayIndex(Resolve(s)[major])
  {
    ResolveLines(s);
    assert MinorsOf(s, major) != [] by {
      var i :| 0 <= i < |s| && Majors(s)[i] == major;
      assert HasLine(s, major, s[i].minor) by { assert s[i] in s; }
    }
    MinorsOfSorted(s, major);
    EndKeyOf(MinorsOf(s, major), Resolve(s)[major]);
  }

  // ---------------------------------------------------------------------------------------
  // Which versions may follow

  /** With no history, exactly 0.1.0, 1.0.0-ALPHA1, 1.0.0-BETA1 and 1.0.0 continue. */
  lemma EmptyHistory(candidate: Version)
    requires WellFormed(candidate)
    ensures PossibleVersions([], candidate) == Bootstrap()
    ensures Continues([], candidate) <==>
      CanonicalForm(candidate) in {Canonical(0, 1, 0, 3, 0), Canonical(1, 0, 0, Index(Alpha), 1),
                                   Canonical(1, 0, 0, Index(Beta), 1), Canonical(1, 0, 0, 3, 0)}
  {
    var b := Bootstrap();
    assert forall c :: c in b <==> c == b[0] || c == b[1] || c == b[2] || c == b[3];
    assert Continues([], candidate) <==>
      EqualTo(b[0], candidate) || EqualTo(b[1], candidate) || EqualTo(b[2], candidate) || EqualTo(b[3], candidate);
  }

  /** A major the history has never seen continues from the newest version overall: all of
      its successors are allowed. */
  lemma UnknownMajor(h: seq<Version>, candidate: Version, top: Version)
    requires WellFormedHistory(h) && Newest(h, top)
    requires !HasMajor(h, candidate.major)
    ensures PossibleVersions(h, candidate) == NextCandidates(top)
  {
    var r := KeepGreatest(h);
    KeepGreatestArranged(h);
    ArrangedFilled(h, r);
    ArrangedLines(h, r);
    LastMajor(h, r, top);
    assert NewestOfMajor(h, top.major, top);
    LastMinor(h, r, top.major, top);
    assert GreatestOfLine(h, top);
    LineEntry(h, r, top);
    SameCanonicalSameSuccessors(r[top.major][top.minor], top);
  }

  /** A proposal on a line the history has: a newer minor of the same major allows only the
      next patch of the line's newest version; otherwise a newer major allows the next patch
      or the next minor; otherwise every successor is allowed. */
  lemma KnownLine(h: seq<Version>, candidate: Version, v: Version)
    requires WellFormedHistory(h) && GreatestOfLine(h, v)
    requires v.major == candidate.major && v.minor == candidate.minor
    ensures PossibleVersions(h, candidate) ==
      if HasNewerMinor(h, v.major, v.minor) then [GetNextIncreaseOf(v, "patch").value]
      else if HasNewerMajor(h, v.major) then [GetNextIncreaseOf(v, "patch").value, GetNextIncreaseOf(v, "minor").value]
      else NextCandidates(v)
  {
    var r := KeepGreatest(h);
    KeepGreatestArranged(h);
    ArrangedFilled(h, r);
    ArrangedLines(h, r);
    LineEntry(h, r, v);
    SameCanonicalSameSuccessors(r[v.major][v.minor], v);
    assert HasNewerMinorVersionsAfter(r, v.major, v.minor) == HasNewerMinor(h, v.major, v.minor);
    assert HasNewerMajorVersionsAfter(r, v.major) == HasNewerMajor(h, v.major);
  }

  /** A proposal on a new minor of a known major falls back to the newest version of that
      major: a newer major allows its next patch or next minor; otherwise every successor. */
  lemma UnknownMinor(h: seq<Version>, candidate: Version, v: Version)
    requires WellFormedHistory(h) && NewestOfMajor(h, candidate.major, v)
    requires !HasLine(h, candidate.major, candidate.minor)
    ensures PossibleVersions(h, candidate) ==
      if HasNewerMajor(h, v.major) then [GetNextIncreaseOf(v, "patch").value, GetNextIncreaseOf(v, "minor").value]
      else NextCandidates(v)
  {
    var r := KeepGreatest(h);
    KeepGreatestArranged(h);
    ArrangedFilled(h, r);
    ArrangedLines(h, r);
    var major := candidate.major;
    LastMinor(h, r, major, v);
    assert GreatestOfLine(h, v);
    LineEntry(h, r, v);
    SameCanonicalSameSuccessors(r[major][v.minor], v);
    assert !HasNewerMinorVersionsAfter(r, major, v.minor);
    assert HasNewerMajorVersionsAfter(r, major) == HasNewerMajor(h, major);
  }

  /** The validator's answer depends on the history as a multiset: sorting it in place, or
      passing it in another order, changes nothing. */
  lemma OrderFree(h1: seq<Version>, h2: seq<Version>, candidate: Version)
    requires WellFormedHistory(h1) && multiset(h1) == multiset(h2)
    ensures PossibleVersions(h1, candidate) == PossibleVersions(h2, candidate)
    ensures Continues(h1, candidate) <==> Continues(h2, candidate)
  {
    if |h1| > 0 {
      KeepGreatestArranged(h1);
      KeepGreatestArranged(h2);
      SameHistorySamePossible(h1, h2, KeepGreatest(h1), KeepGreatest(h2), candidate);
    } else {
      assert |h2| == |multiset(h2)| == 0;
    }
  }

  /** Once a newer minor or a newer major exists, a proposal on a known line may only move
      that line forward, within its major. */
  lemma MaintenanceMovesForward(h: seq<Version>, candidate: Version, v: Version)
    requires WellFormedHistory(h) && GreatestOfLine(h, v)
    requires v.major == candidate.major && v.minor == candidate.minor
    requires HasNewerMinor(h, v.major, v.minor) || HasNewerMajor(h, v.major)
    ensures forall c :: c in PossibleVersions(h, candidate) ==> c.major == v.major && Precedes(v, c)
  {
    KnownLine(h, candidate, v);
    assert WellFormed(v);
  }
}
