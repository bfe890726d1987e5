# rollerworks/version — a verified model

This project models the two core classes of the rollerworks/version PHP library in Dafny:

- **`Version`** (`version.dfy`, module `Versions`) is an immutable release version. It has
  - the fields `major.minor.patch`;
  - a stability tier (alpha < beta < rc < stable, stored as 0..3);
  - a pre-release counter (`metaver`);
  - the canonical text `full`, derived at construction: `M.m.p-TIERn` for an unstable
    version past 0.x, `M.m.p` otherwise.

  The constructor stores a 0.x version as alpha. It refuses a stable version with a
  counter. Two versions are equal when their canonical texts are. The rule engine has two
  parts:
  - `getNextIncreaseOf` computes the version that one of eight increase kinds produces;
  - `getNextVersionCandidates` lists the legal next releases.
- **`ContinuesVersionsValidator`** (`validator.dfy`, module `Validator`) is a class holding a
  release history.
  - `isContinues` sorts the history in place. It arranges the history as
    major → minor → version, with the last write winning.
  - It then computes the versions that may come next: all successors of the newest line;
    only a patch when the line has a newer minor; a patch or the next minor when the line
    is under a newer major.
  - It answers whether the proposed version is one of them, and records the list.

Text is modelled as real strings: `%d` is `Decimal.Format`. The order that
`version_compare` puts on canonical texts is modelled as a lexicographic order on the
tuple (major, minor, patch, tier, counter). A version without a suffix ranks as tier 3,
counter 0.

What is proved:

- **Canonical text and equality.** The text is injective on that tuple, so `equalTo`
  compares exactly the canonical tuple.
- **Rule engine.** It fails exactly on the unknown increase kinds. The candidate lists
  have an exact shape in each of the three cases, and they are strictly ascending.
  Two lemmas characterise exactly when the candidates (`CandidatesNewerIff`) and the
  increases (`IncreaseNewerIff`) are newer than the input.
- **Sorting method.** It sorts and permutes the history.
- **Arrangement.** Filling the map from the sorted history keeps, on every line, a
  version that no other version of that line is newer than.
- **`end`/`key` on the arranged array.** They return its greatest key, because keys are
  first written in ascending order.
- **Order independence.** The validator's answer depends on the history only as a
  multiset (`OrderFree`).
- **Exact characterisations.** `PossibleVersions` is characterised exactly in each case:
  empty history, unknown major, known line, unknown minor. These are stated on the
  history, not on the internal map.
- **Test tables.** Every row of the increase, candidate and validator tables in the
  repository's test suites is derived in `scenarios.dfy`. Rows the tests write in a short
  or lower-case form (`1.0-BETA1`, `v3.5-beta1`) are built from their numbers.

The restriction on an older line is tiered (`src/ContinuesVersionsValidator.php:134-147`,
checked by `tests/ContinuesVersionsValidatorTest.php:66`): a line whose major has a newer
minor may take only the next patch, and a line under a newer major the next patch or the
next minor.

Where a comment and the code disagree, the model follows the code:

- The doc comment at `src/Version.php:121-126` lists four candidates for a release and
  different ones for pre-releases. The code and `tests/VersionTest.php:122-135` give six
  candidates for a release; the model follows them.

## Model

| member | source | states |
|---|---|---|
| Versions.TierTable | src/Version.php:55-60 | the tier table has exactly the keys alpha, beta, rc and stable, and upper-casing a key gives the name the canonical text shows for its tier |
| Versions.TierAt | src/Version.php:18-21 | decodes the integer tiers 0..3 (the constants, as the candidate loop at src/Version.php:154-155 counts them) one-to-one onto the four tiers, inverting `Index` |
| Versions.Make | src/Version.php:62-90 | a constructed version keeps the given numbers, stores a 0.x version as alpha, and carries its canonical text (`WellFormed`) |
| Versions.Create | src/Version.php:62-76 | construction fails, with `StableWithMetaver`, exactly when the stored tier is stable and the counter is non-zero (after 0.x is forced to alpha); otherwise it yields a well-formed version with the given numbers |
| Decimal.ValueOfFormat | src/Version.php:79-88 | reading back the digits `%d` prints gives the number |
| Decimal.FormatInjective | src/Version.php:79-88 | two numbers print the same exactly when they are equal |
| Decimal.SplitAfterDigits | src/Version.php:79-88 | a printed number followed by a separator splits the text uniquely |
| Versions.RenderSuffix | src/Version.php:78-89 | the canonical text `full` takes the `-TIERn` branch, the only one with a dash, exactly when the version is unstable past 0.x |
| Versions.PrecedesStrictOrder | src/ContinuesVersionsValidator.php:86-88 | the comparator's order (`version_compare(…, '<')` on canonical texts, modelled as the lexicographic order on canonical tuples) is irreflexive, asymmetric and transitive, and orders any two versions whose canonical texts differ |
| Versions.RenderInjective | src/Version.php:78-89 | two canonical texts are the same string exactly when the canonical tuples are equal |
| Versions.EqualTo | src/Version.php:176-179 | two constructed versions are equal exactly when their canonical tuples are |
| Versions.GetIncreaseOfNextPossibleMinorOrMeta | src/Version.php:232-239 | the result is strictly newer on the same major: the next counter of an open pre-release line past 0.x, otherwise the next minor release |
| Versions.GetIncreaseByMajor | src/Version.php:241-248 | the result is the release `M.0.0`, with M the major itself (at least 1) for an unstable version and major+1 for a release |
| Versions.GetIncreaseOfMetaver | src/Version.php:250-262 | patch 0; past 0.x the result is a pre-release of the named tier (a 0.x result is stored as alpha and shows no tier); on the next minor exactly when the named tier is below the current one; its counter is the current counter + 1 when the named tier is the current one, 1 otherwise |
| Versions.GetIncreaseOfStable | src/Version.php:264-275 | the result is a release with patch 0: the next minor of a release, 1.0.0 from 0.x, the own line otherwise |
| Versions.GetNextIncreaseOf | src/Version.php:194-230 | succeeds exactly for the eight accepted kinds, with a well-formed version; any other kind gives `UnknownIncrease(kind)`; `minor` gives the release `M.(m+1).0`; `patch` gives the release `M.m.(p+1)`, except past 0.x with a non-zero counter, where it is `next`; `major`, `alpha`/`beta`/`rc`, `stable` and `next` give their helpers' results |
| Versions.PreReleases | src/Version.php:154-156 | counter 1 of each tier in the given index range, in tier order, on `M.m.0` |
| Versions.GetNextVersionCandidates | src/Version.php:130-174 | the list built by successive appends equals the candidate specification `NextCandidates` |
| Versions.ZeroLineCandidates | src/Version.php:137-146 | for a 0.x version, the four appends give the candidate specification `NextCandidates` |
| Versions.PreReleaseLineCandidates | src/Version.php:151-161 | for an unstable version past 0.x, next counter, higher tiers and release appended in turn give `NextCandidates` |
| Versions.AppendPreReleases | src/Version.php:154-156 | the loop appends, after the given prefix, counter 1 of each tier from the given index up to rc, exactly `PreReleases` |
| Versions.ReleasedCandidates | src/Version.php:164-173 | for a release past 0.x, the six appends give the candidate specification `NextCandidates` |
| VersionProperties.PreStableCandidates | src/Version.php:137-147 | a 0.x version has exactly four candidates: next patch, next minor, 1.0.0-BETA1, 1.0.0 |
| VersionProperties.UnstableCandidates | src/Version.php:151-161 | an unstable version past 0.x gets the next counter, counter 1 of each higher pre-release tier and the release, all on `M.m.0` |
| VersionProperties.UnstableTiers | src/Version.php:151-161 | on an unstable line the k-th candidate sits at tier index + k |
| VersionProperties.StableCandidates | src/Version.php:163-173 | a release past 0.x has exactly six candidates (patch; next minor as beta and release; next major as alpha, beta, release), none a release candidate |
| VersionProperties.CandidatesAscending | src/Version.php:130-174 | the candidates are strictly ascending in the release order, hence distinct |
| VersionProperties.CandidatesNewerIff | src/Version.php:149-161 | every candidate is newer than the version exactly when it is 0.x, a release, or has patch 0 |
| VersionProperties.IncreaseNewerIff | src/Version.php:194-275 | for each increase kind, the exact condition under which the result is newer than the input |
| Validator.Bootstrap | src/ContinuesVersionsValidator.php:36-42 | the four versions offered without history: 0.1.0, 1.0.0-ALPHA1, 1.0.0-BETA1, 1.0.0 |
| Validator.SortAscending | src/ContinuesVersionsValidator.php:86-88 | the result is sorted (no later version is older than an earlier one) and a permutation of the input |
| Validator.Put | src/ContinuesVersionsValidator.php:92-94 | writing a version stores it at its line and changes no other line |
| Validator.ResolveLastWins | src/ContinuesVersionsValidator.php:90-94 | after the fill, each line of the map holds the last version of the history on that line |
| Validator.ResolveSortedArranged | src/ContinuesVersionsValidator.php:84-97 | filling the map from the sorted history, last write winning, keeps on each line a version no other version of the line is newer than |
| Validator.KeepGreatestArranged | src/ContinuesVersionsValidator.php:84-97 | the order-free reference arrangement (keep the greatest of each line) has the same property |
| Validator.GetLastArrayIndex | src/ContinuesVersionsValidator.php:112-117 | the key returned is a key of the array and no key is greater |
| Validator.HasNewerMajorVersionsAfter | src/ContinuesVersionsValidator.php:119-122 | true exactly when the map has a greater major |
| Validator.HasNewerMinorVersionsAfter | src/ContinuesVersionsValidator.php:124-127 | true exactly when the major has a greater minor |
| Validator.AnyEqualTo | src/ContinuesVersionsValidator.php:47-53 | the scan answers true exactly when some listed version is equal to the proposal |
| Validator.ContinuesVersionsValidator.constructor | src/ContinuesVersionsValidator.php:29-32 | the object holds the given history and nothing computed yet |
| Validator.ContinuesVersionsValidator.IsContinues | src/ContinuesVersionsValidator.php:34-54 | records `PossibleVersions` of the history and answers exactly `Continues`; a non-empty history is left sorted (a permutation of the old one) with the map rebuilt from it, an empty one leaves history and map untouched |
| Validator.ContinuesVersionsValidator.GetPossibleVersions | src/ContinuesVersionsValidator.php:59-62 | returns the recorded list |
| Validator.ContinuesVersionsValidator.ComputePossibleVersions | src/ContinuesVersionsValidator.php:64-82 | for a non-empty history, leaves it sorted and permuted with the map rebuilt from it, and records the possible versions of the history as given, whatever order the sort leaves among equal versions |
| Validator.ContinuesVersionsValidator.ArrangeExistingVersions | src/ContinuesVersionsValidator.php:84-97 | the history ends sorted and permuted, and the map is the last-write-wins fill of it |
| Validator.ContinuesVersionsValidator.ComputePossibleVersionsFromLastExisting | src/ContinuesVersionsValidator.php:99-107 | records the candidates of the newest line of the newest major |
| Validator.ContinuesVersionsValidator.ComputePossibleVersionsFromMinor | src/ContinuesVersionsValidator.php:129-148 | records the tiered restriction for the line |
| Validator.SameCanonicalSameSuccessors | src/Version.php:194-205 | versions with the same canonical text have the same candidates, next patch and next minor |
| Validator.ArrangementsAgree | src/ContinuesVersionsValidator.php:84-97 | any two arrangements of the same history have the same lines and canonically equal versions on them |
| Validator.SameHistorySamePossible | src/ContinuesVersionsValidator.php:64-82 | any two arrangements of the same history allow the same versions |
| ValidatorProperties.FirstSeenAscending | src/ContinuesVersionsValidator.php:92-94 | keys written in non-decreasing order are first received in strictly increasing order |
| ValidatorProperties.ResolveLines | src/ContinuesVersionsValidator.php:90-96 | the filled map has exactly the lines of the history |
| ValidatorProperties.EndKeyOf | src/ContinuesVersionsValidator.php:112-117 | an array whose keys were written in non-decreasing order received its greatest key last |
| ValidatorProperties.EndMajorIsGreatest | src/ContinuesVersionsValidator.php:119-122 | after the sort, the last major the map received is its greatest |
| ValidatorProperties.EndMinorIsGreatest | src/ContinuesVersionsValidator.php:124-127 | after the sort, the last minor each major received is its greatest |
| ValidatorProperties.ArrangedLines | src/ContinuesVersionsValidator.php:90-96 | the lines of an arrangement are exactly the lines of the history |
| ValidatorProperties.EmptyHistory | src/ContinuesVersionsValidator.php:36-42 | without history exactly 0.1.0, 1.0.0-ALPHA1, 1.0.0-BETA1 and 1.0.0 continue |
| ValidatorProperties.UnknownMajor | src/ContinuesVersionsValidator.php:71-75 | a major the history lacks gets every successor of the newest version of the history |
| ValidatorProperties.KnownLine | src/ContinuesVersionsValidator.php:129-148 | a known line gets only the next patch if its major has a newer minor, else the next patch or minor if a newer major exists, else every successor |
| ValidatorProperties.UnknownMinor | src/ContinuesVersionsValidator.php:77-81 | an unknown minor falls back to the newest version of its major: next patch or minor under a newer major, else every successor |
| ValidatorProperties.OrderFree | src/ContinuesVersionsValidator.php:84-88 | histories with the same versions in any order allow the same versions and give the same answer |
| ValidatorProperties.MaintenanceMovesForward | src/ContinuesVersionsValidator.php:134-144 | under a newer minor or major, every allowed version stays in the line's major and is newer than the line's newest version |
| Scenarios.PatchIncreaseExamples | tests/VersionTest.php:158-165 | the six `patch` rows: the next counter past 0.x with a non-zero counter, the next patch otherwise |
| Scenarios.MinorMajorIncreaseExamples | tests/VersionTest.php:168-177 | the `minor` and `major` rows |
| Scenarios.NextIncreaseExamples | tests/VersionTest.php:180-184 | the `next` rows |
| Scenarios.TierIncreaseExamples | tests/VersionTest.php:187-199 | the `alpha`, `beta` and `rc` rows, same-tier counters included |
| Scenarios.StableIncreaseExamples | tests/VersionTest.php:202-205 | the `stable` rows |
| Scenarios.UnknownKindExample | tests/VersionTest.php:219-225 | the kind "next-stable" is refused |
| Scenarios.StableCounterExample | tests/VersionTest.php:110-117 | 1.0.0 with counter 5 is refused; 0.1.0 with counter 5 is accepted |
| Scenarios.EqualToExamples | tests/VersionTest.php:91-99 | BETA5 equals BETA5 and not BETA6; two 0.x versions built with different tiers and counters are equal, since neither shows them |
| Scenarios.UnstableCandidateExamples | tests/VersionTest.php:125-126 | the candidate rows of 0.1.0 and 1.0.0-BETA5 |
| Scenarios.PreReleaseCandidateExamples | tests/VersionTest.php:127-129 | the candidate rows of 2.0.0-BETA5, 3.5.0-BETA1 and 1.0.0-RC5 |
| Scenarios.StableCandidateExamples | tests/VersionTest.php:130-132 | the candidate rows of 1.0.0, 2.0.0 and 1.1.0 |
| Scenarios.PatchedCandidateExamples | tests/VersionTest.php:133-134 | the candidate rows of 1.1.1 and 1.0.1 |
| Scenarios.NoHistoryExamples | tests/ContinuesVersionsValidatorTest.php:28-31 | without history 0.1.0, 1.0.0-ALPHA1, 1.0.0-BETA1 and 1.0.0 continue |
| Scenarios.NoHistoryRefusedExamples | tests/ContinuesVersionsValidatorTest.php:103-107 | without history 0.2.0, 2.0.0-ALPHA1, 2.0.0-BETA1, 1.1.0 and 2.0.0 are refused |
| Scenarios.ZeroNewMinorExample | tests/ContinuesVersionsValidatorTest.php:58 | after 0.2.0 and 0.1.0, a new minor gets the successors of 0.2.0: 0.3.0 continues, 0.5.0 does not |
| Scenarios.ZeroNewestLineExample | tests/ContinuesVersionsValidatorTest.php:59 | after 0.2.0 and 0.1.0, line 0.2 gets every successor: 0.2.1 continues, 0.2.4 does not |
| Scenarios.OlderMinorExample | tests/ContinuesVersionsValidatorTest.php:61 | after 0.2.0 and 0.1.0, line 0.1 allows 0.1.1 only; 0.1.5 is refused |
| Scenarios.ZeroUnknownMajor | tests/ContinuesVersionsValidatorTest.php:60 | after 0.2.0 and 0.1.0, every major above 0 gets the successors of 0.2.0 |
| Scenarios.NewMajorExample | tests/ContinuesVersionsValidatorTest.php:60-63 | after 0.2.0 and 0.1.0, 1.0.0 and 1.0.0-BETA1 continue |
| Scenarios.ZeroMajorRefused | tests/ContinuesVersionsValidatorTest.php:136-139 | after 0.2.0 and 0.1.0, a version on a major above 0 that is not one of 0.2.0's successors is refused |
| Scenarios.NewMajorRefusedExample | tests/ContinuesVersionsValidatorTest.php:136-139 | after 0.2.0 and 0.1.0, 2.0.0, 1.0.0-BETA2 and 1.0.0-ALPHA1 are refused |
| Scenarios.OneNewMinor | tests/ContinuesVersionsValidatorTest.php:65 | after 1.0.0 and 1.1.0, a new minor of major 1 gets the successors of 1.1.0 |
| Scenarios.NewMinorExample | tests/ContinuesVersionsValidatorTest.php:65 | after 1.0.0 and 1.1.0, 1.2.0 continues and 1.3.0 is refused |
| Scenarios.MaintenanceExample | tests/ContinuesVersionsValidatorTest.php:66 | after 1.1.0 and 2.0.0, line 1.1 allows 1.1.1 and 1.2.0, and 1.1.1 continues |
| Scenarios.FallbackExample | tests/ContinuesVersionsValidatorTest.php:143 | after 3.4.0 and 3.7.0, 3.6.0 falls back to 3.7.0's successors and is refused |
| Scenarios.PreReleaseLineExample | tests/ContinuesVersionsValidatorTest.php:142 | after 3.5.0-BETA1, 3.6.0 falls back to 3.5.0-BETA1's successors and is refused |

## Left out

- `fromString` and its regular expression are not modelled. Versions are built with
  `Make`/`Create` from their numbers, so the `v` prefix, case folding and separator
  variants are outside the model.
- `__toString` returns `full`; exception messages are not modelled, only which error occurs.
- PHP integers are 64-bit. The model uses unbounded naturals, so overflow of `+ 1` at
  `PHP_INT_MAX` is not modelled.
- `version_compare` is modelled as the lexicographic order on canonical tuples. This is
  exact only for canonical texts, and those are the only texts the source compares.
- `usort`'s comparator never returns 0, so the order among versions with equal canonical
  text is unspecified. `SortAscending` promises only "sorted and a permutation". The
  proofs show the result does not depend on that order.
- PHP array internal pointers are not modelled. `getLastArrayIndex` is modelled as the
  greatest key; `EndKeyOf` and its two companions show that, after the sort, the greatest
  key is the one the array received last.
- The public mutable fields of `Version` are not modelled as mutable: the source never
  assigns them after construction.
