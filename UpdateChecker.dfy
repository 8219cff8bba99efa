/**
 * The version comparison of the update checker: is the latest released version
 * newer than the running one?  Versions are dotted decimal strings, optionally
 * prefixed with 'v'; pre-release tags never count as an update, and any
 * component that cannot be parsed makes the answer "no".
 */
module UpdateChecker {
  import opened Optional
  import opened Text

  predicate IsDigit(c: char) { '0' <= c <= '9' }

  /** The value of a string of decimal digits. */
  function DecimalValue(s: string): (v: nat)
    requires forall i :: 0 <= i < |s| ==> IsDigit(s[i])
  {
    if s == [] then 0
    else
      var d := s[|s| - 1];
      assert IsDigit(d);
      10 * DecimalValue(s[..|s| - 1]) + (d as int - '0' as int)
  }

  /** `Integer.parseInt`: a non-empty run of decimal digits parses, anything else fails. */
  function ParseInt(s: string): (r: Option<nat>)
    ensures r.Some? <==> s != [] && forall i :: 0 <= i < |s| ==> IsDigit(s[i])
  {
    if s != [] && forall i :: 0 <= i < |s| ==> IsDigit(s[i]) then Some(DecimalValue(s)) else None
  }

  /** Drops one leading 'v'. */
  function StripV(version: string): (r: string)
    ensures StartsWith(version, "v") ==> version == "v" + r
    ensures !StartsWith(version, "v") ==> r == version
  {
    if StartsWith(version, "v") then version[1..] else version
  }

  /** Pre-release tags that are never offered as an update. */
  predicate IsPreRelease(latest: string)
  {
    EqualsIgnoreCase(latest, "beta") || EqualsIgnoreCase(latest, "alpha")
    || Contains(latest, "-rc") || Contains(latest, "-alpha") || Contains(latest, "-beta")
  }

  function Max(a: int, b: int): int { if a < b then b else a }

  /** Component i of a split version; a missing trailing component reads as 0. */
  function Component(parts: seq<string>, i: nat): Option<nat>
  {
    if i < |parts| then ParseInt(parts[i]) else Some(0)
  }

  /**
   * The comparison from component i on: the first component where the two differ
   * decides, an unparsable component reached before that answers false, and equal
   * versions answer false.
   */
  function NewerFrom(current: seq<string>, latest: seq<string>, i: nat): bool
    decreases Max(|current|, |latest|) - i
  {
    if i >= Max(|current|, |latest|) then false
    else
      match (Component(current, i), Component(latest, i))
      case (Some(c), Some(l)) => if l > c then true else if l < c then false else NewerFrom(current, latest, i + 1)
      case _ => false
  }

  /** Whether `latestVersion` is an update over `currentVersion`. */
  predicate IsNewVersion(currentVersion: string, latestVersion: string)
  {
    var current := StripV(currentVersion);
    var latest := StripV(latestVersion);
    !IsPreRelease(latest) && NewerFrom(SplitOnDot(current), SplitOnDot(latest), 0)
  }

  /** `isNewVersionAvailable`: strip the 'v's, refuse pre-releases, then compare component by component. */
  method IsNewVersionAvailable(currentVersion: string, latestVersion: string) returns (available: bool)
    ensures available == IsNewVersion(currentVersion, latestVersion)
  {
    var current := StripV(currentVersion);
    var latest := StripV(latestVersion);
    if IsPreRelease(latest) {
      return false;
    }
    available := CompareParts(SplitOnDot(current), SplitOnDot(latest));
  }

  /** The comparison loop over the split versions, with its early returns. */
  method CompareParts(currentParts: seq<string>, latestParts: seq<string>) returns (newer: bool)
    ensures newer == NewerFrom(currentParts, latestParts, 0)
  {
    var maxLength := Max(|currentParts|, |latestParts|);
    var i := 0;
    while i < maxLength
      invariant 0 <= i <= maxLength
      invariant NewerFrom(currentParts, latestParts, i) == NewerFrom(currentParts, latestParts, 0)
    {
      var currentPart := if i < |currentParts| then ParseInt(currentParts[i]) else Some(0);
      if currentPart.None? {
        return false;  // the parse exception is caught: no update
      }
      var latestPart := if i < |latestParts| then ParseInt(latestParts[i]) else Some(0);
      if latestPart.None? {
        return false;
      }
      if latestPart.value > currentPart.value {
        return true;
      } else if latestPart.value < currentPart.value {
        return false;
      }
      i := i + 1;
    }
    return false;
  }

  // ---------------------------------------------------------------------------
  // Properties of the comparison

  /** A pre-release latest version is never an update. */
  lemma PreReleaseIsNeverNew(currentVersion: string, latestVersion: string)
    requires IsPreRelease(StripV(latestVersion))
    ensures !IsNewVersion(currentVersion, latestVersion)
  {
  }

  lemma {:induction false} NewerFromIrreflexive(parts: seq<string>, i: nat)
    ensures !NewerFrom(parts, parts, i)
    decreases |parts| - i
  {
    if i < |parts| {
      NewerFromIrreflexive(parts, i + 1);
    }
  }

  /** No version is newer than itself. */
  lemma Irreflexive(version: string)
    ensures !IsNewVersion(version, version)
  {
    NewerFromIrreflexive(SplitOnDot(StripV(version)), 0);
  }

  lemma {:induction false} NewerFromAsymmetric(a: seq<string>, b: seq<string>, i: nat)
    requires NewerFrom(a, b, i)
    ensures !NewerFrom(b, a, i)
    decreases Max(|a|, |b|) - i
  {
    if i < Max(|a|, |b|) && Component(a, i) == Component(b, i) {
      NewerFromAsymmetric(a, b, i + 1);
    }
  }

  /** If b is an update over a, then a is not an update over b. */
  lemma Asymmetric(a: string, b: string)
    requires IsNewVersion(a, b)
    ensures !IsNewVersion(b, a)
  {
    NewerFromAsymmetric(SplitOnDot(StripV(a)), SplitOnDot(StripV(b)), 0);
  }

  /**
   * The first component where the two versions differ decides: when all earlier
   * components parse and agree and both parse at k, the answer is whether latest's
   * component k is the larger.
   */
  lemma {:induction false} FirstDifferenceDecides(current: seq<string>, latest: seq<string>, k: nat, i: nat)
    requires i <= k < Max(|current|, |latest|)
    requires forall j :: i <= j < k ==> Component(current, j).Some? && Component(current, j) == Component(latest, j)
    requires Component(current, k).Some? && Component(latest, k).Some?
    requires Component(current, k) != Component(latest, k)
    ensures NewerFrom(current, latest, i) == (Component(latest, k).value > Component(current, k).value)
    decreases k - i
  {
    if i < k {
      FirstDifferenceDecides(current, latest, k, i + 1);
    }
  }

  /** An unparsable component reached while all earlier ones agree gives false. */
  lemma {:induction false} UnparsableReachedIsFalse(current: seq<string>, latest: seq<string>, k: nat, i: nat)
    requires i <= k < Max(|current|, |latest|)
    requires forall j :: i <= j < k ==> Component(current, j).Some? && Component(current, j) == Component(latest, j)
    requires Component(current, k).None? || Component(latest, k).None?
    ensures !NewerFrom(current, latest, i)
    decreases k - i
  {
    if i < k {
      UnparsableReachedIsFalse(current, latest, k, i + 1);
    }
  }

  /** Missing trailing components count as 0: appending ".0" components changes nothing. */
  lemma {:induction false} TrailingZerosIgnored(parts: seq<string>, zeros: seq<string>, i: nat)
    requires forall j :: 0 <= j < |zeros| ==> zeros[j] == "0"
    ensures !NewerFrom(parts, parts + zeros, i)
    ensures !NewerFrom(parts + zeros, parts, i)
    decreases |parts| + |zeros| - i
  {
    if i < |parts| + |zeros| {
      assert Component(parts, i) == Component(parts + zeros, i) by {
        if i >= |parts| {
          assert (parts + zeros)[i] == "0";
          assert ParseInt("0") == Some(0);
        }
      }
      TrailingZerosIgnored(parts, zeros, i + 1);
    }
  }

  lemma SplitShortExample()
    ensures SplitOnDot("1.2") == ["1", "2"]
  {
    var two: string := "2";
    DotPiecesWithoutDot(two);
    var short := "1" + "." + two;
    DotPiecesOfJoin("1", two);
    assert short == "1.2" && short[1] == '.';
    assert DropTrailingEmpty(["1", "2"]) == ["1", "2"];
  }

  lemma TwoZeroPieces()
    ensures DotPieces("2.0") == ["2", "0"]
  {
    var two: string, zero: string := "2", "0";
    DotPiecesWithoutDot(zero);
    DotPiecesOfJoin(two, zero);
    assert two + "." + zero == "2.0";
  }

  lemma SplitPaddedExample()
    ensures SplitOnDot("1.2.0") == ["1", "2"] + ["0"]
  {
    var twoZero: string := "2.0";
    TwoZeroPieces();
    var long := "1" + "." + twoZero;
    DotPiecesOfJoin("1", twoZero);
    assert long == "1.2.0";
    assert DotPieces("1.2.0") == ["1", "2", "0"];
    assert '.' in "1.2.0" by { assert "1.2.0"[1] == '.'; }
    assert DropTrailingEmpty(["1", "2", "0"]) == ["1", "2", "0"];
  }

  lemma ExampleNotPreRelease()
    ensures !IsPreRelease("1.2") && !IsPreRelease("1.2.0")
  {
    NotContainsWithoutFirstChar("1.2", "-rc");
    NotContainsWithoutFirstChar("1.2", "-alpha");
    NotContainsWithoutFirstChar("1.2", "-beta");
    NotContainsWithoutFirstChar("1.2.0", "-rc");
    NotContainsWithoutFirstChar("1.2.0", "-alpha");
    NotContainsWithoutFirstChar("1.2.0", "-beta");
    assert LowerChar("1.2.0"[0]) != LowerChar("alpha"[0]);
  }

  lemma StripVExamples()
    ensures StripV("1.2") == "1.2" && StripV("1.2.0") == "1.2.0"
  {
    assert "1.2"[0] == '1' && "1.2.0"[0] == '1';
  }

  lemma PaddedPartsExample()
    ensures !NewerFrom(["1", "2"], ["1", "2"] + ["0"], 0) && !NewerFrom(["1", "2"] + ["0"], ["1", "2"], 0)
  {
    TrailingZerosIgnored(["1", "2"], ["0"], 0);
  }

  /** For example "1.2" and "1.2.0" are the same version, in either order. */
  lemma ShortVersionEqualsPadded()
    ensures !IsNewVersion("1.2", "1.2.0") && !IsNewVersion("1.2.0", "1.2")
  {
    StripVExamples();
    ExampleNotPreRelease();
    SplitShortExample();
    SplitPaddedExample();
    PaddedPartsExample();
  }
}
