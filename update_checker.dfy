/**
 * The Modrinth update check: the version scheme YYYY-MM-DD[a-z]*, its comparator, and the
 * selection of the newest published version. Fetching the version list over HTTP is not
 * modelled; the list arrives as a parameter, None standing for a failed or empty fetch.
 */
module UpdateChecker {
  import opened Wrappers
  import opened JavaStrings

  /** A version split into its date and its alphabetic suffix (record VersionParts). */
  datatype VersionParts = VersionParts(date: string, suffix: string)

  /** Four digits, '-', two digits, '-', two digits: the first group of the version pattern. */
  predicate IsDate(d: string) {
    && |d| == 10
    && AllDigits(d[..4]) && d[4] == '-'
    && AllDigits(d[5..7]) && d[7] == '-'
    && AllDigits(d[8..])
  }

  /** Only the lower-case ASCII letters a to z: the second group of the version pattern. */
  predicate IsSuffix(s: string) {
    forall i :: 0 <= i < |s| ==> 'a' <= s[i] <= 'z'
  }

  /** The whole string matches ^(\d{4}-\d{2}-\d{2})([a-z]*)$ (Java's \d is ASCII only). */
  predicate MatchesVersionPattern(v: string) {
    |v| >= 10 && IsDate(v[..10]) && IsSuffix(v[10..])
  }

  lemma LowerSuffixUnchanged(s: string)
    requires IsSuffix(s)
    ensures ToLowerAscii(s) == s
  {
    assert forall i :: 0 <= i < |s| ==> AsciiLower(s[i]) == s[i];
  }

  /** parseVersion: a matching version gives its date group and its lower-cased suffix group;
      any other string is all date, with no suffix. */
  function ParseVersion(version: string): VersionParts {
    if MatchesVersionPattern(version) then
      VersionParts(version[..10], ToLowerAscii(version[10..]))
    else
      VersionParts(version, "")
  }

  /** The two groups of a matching version are well formed and together give back the version. */
  lemma ParseVersionSplits(version: string)
    ensures MatchesVersionPattern(version) ==>
              && IsDate(ParseVersion(version).date) && IsSuffix(ParseVersion(version).suffix)
              && ParseVersion(version).date + ParseVersion(version).suffix == version
    ensures !MatchesVersionPattern(version) ==> ParseVersion(version) == VersionParts(version, "")
  {
    if MatchesVersionPattern(version) {
      LowerSuffixUnchanged(version[10..]);
      assert version[..10] + version[10..] == version;
    }
  }

  /** Parsing a well-formed date followed by a well-formed suffix gives back exactly those two. */
  lemma ParseVersionOfParts(date: string, suffix: string)
    requires IsDate(date) && IsSuffix(suffix)
    ensures ParseVersion(date + suffix) == VersionParts(date, suffix)
  {
    var v := date + suffix;
    assert v[..10] == date && v[10..] == suffix;
    LowerSuffixUnchanged(suffix);
  }

  /** Distinct strings never parse to the same parts. */
  lemma ParseVersionInjective(a: string, b: string)
    requires ParseVersion(a) == ParseVersion(b)
    ensures a == b
  {
    var p := ParseVersion(a);
    ParseVersionSplits(a);
    ParseVersionSplits(b);
    if MatchesVersionPattern(a) && !MatchesVersionPattern(b) {
      assert p.suffix == [];
      assert a == p.date + p.suffix == p.date;
    } else if !MatchesVersionPattern(a) && MatchesVersionPattern(b) {
      assert p.suffix == [];
      assert b == p.date + p.suffix == p.date;
    }
  }

  /** compareVersions: dates first, by String.compareTo; on equal dates no suffix is older
      than any suffix, and two suffixes compare by String.compareTo. */
  function CompareVersions(left: string, right: string): int {
    var l := ParseVersion(left);
    var r := ParseVersion(right);
    var dateCompare := CompareTo(l.date, r.date);
    if dateCompare != 0 then dateCompare
    else if l.suffix == [] && r.suffix == [] then 0
    else if l.suffix == [] then -1
    else if r.suffix == [] then 1
    else CompareTo(l.suffix, r.suffix)
  }

  /** The order compareVersions is meant to implement: lexicographic on (date, suffix). */
  predicate PartsBefore(p: VersionParts, q: VersionParts) {
    CompareTo(p.date, q.date) < 0 || (p.date == q.date && CompareTo(p.suffix, q.suffix) < 0)
  }

  lemma {:induction false} CompareToEmpty(s: string)
    ensures CompareTo([], s) == -|s|
  {
  }

  /** A negative result means exactly that the left parts come first, and zero means equal
      parts; so the comparator orders versions by (date, suffix). */
  lemma CompareVersionsOrder(left: string, right: string)
    ensures CompareVersions(left, right) < 0 <==> PartsBefore(ParseVersion(left), ParseVersion(right))
    ensures CompareVersions(left, right) == 0 <==> ParseVersion(left) == ParseVersion(right)
  {
    var l := ParseVersion(left);
    var r := ParseVersion(right);
    CompareToZero(l.date, r.date);
    CompareToZero(l.suffix, r.suffix);
    CompareToEmpty(l.suffix);
    CompareToEmpty(r.suffix);
    CompareToAntisymmetric(l.suffix, r.suffix);
  }

  lemma CompareVersionsReflexive(v: string)
    ensures CompareVersions(v, v) == 0
  {
    CompareVersionsOrder(v, v);
  }

  /** Comparing the other way round negates the result. */
  lemma CompareVersionsAntisymmetric(left: string, right: string)
    ensures CompareVersions(left, right) == -CompareVersions(right, left)
  {
    var l := ParseVersion(left);
    var r := ParseVersion(right);
    CompareToAntisymmetric(l.date, r.date);
    CompareToAntisymmetric(l.suffix, r.suffix);
  }

  /** Two versions compare equal exactly when they are the same string. */
  lemma CompareVersionsZero(left: string, right: string)
    ensures CompareVersions(left, right) == 0 <==> left == right
  {
    CompareVersionsOrder(left, right);
    if ParseVersion(left) == ParseVersion(right) {
      ParseVersionInjective(left, right);
    }
  }

  lemma CompareVersionsTransitive(a: string, b: string, c: string)
    requires CompareVersions(a, b) <= 0 && CompareVersions(b, c) <= 0
    ensures CompareVersions(a, c) <= 0
  {
    var pa, pb, pc := ParseVersion(a), ParseVersion(b), ParseVersion(c);
    CompareVersionsOrder(a, b);
    CompareVersionsOrder(b, c);
    CompareVersionsOrder(a, c);
    CompareToZero(pa.date, pb.date);
    CompareToZero(pb.date, pc.date);
    CompareToZero(pa.date, pc.date);
    if CompareTo(pa.date, pb.date) < 0 {
      CompareToStrictTransitive(pa.date, pb.date, pc.date);
    } else if CompareTo(pb.date, pc.date) < 0 {
      CompareToAntisymmetric(pb.date, pc.date);
      CompareToAntisymmetric(pa.date, pc.date);
    } else {
      CompareToZero(pa.suffix, pb.suffix);
      CompareToZero(pb.suffix, pc.suffix);
      CompareToTransitive(pa.suffix, pb.suffix, pc.suffix);
    }
  }

  /** When the dates differ the suffixes play no part: the date alone decides. */
  lemma DateDominates(date1: string, suffix1: string, date2: string, suffix2: string)
    requires IsDate(date1) && IsSuffix(suffix1) && IsDate(date2) && IsSuffix(suffix2)
    requires date1 != date2
    ensures CompareVersions(date1 + suffix1, date2 + suffix2) < 0 <==> CompareTo(date1, date2) < 0
    ensures CompareVersions(date1 + suffix1, date2 + suffix2) != 0
  {
    ParseVersionOfParts(date1, suffix1);
    ParseVersionOfParts(date2, suffix2);
    CompareToZero(date1, date2);
  }

  /** On one date, the release without a suffix is older than every suffixed one, and suffixed
      releases follow String.compareTo on their suffixes. */
  lemma SuffixOrder(date: string, suffix1: string, suffix2: string)
    requires IsDate(date) && IsSuffix(suffix1) && IsSuffix(suffix2)
    ensures suffix1 == [] && suffix2 != [] ==> CompareVersions(date + suffix1, date + suffix2) < 0
    ensures suffix1 != [] && suffix2 != [] ==>
              CompareVersions(date + suffix1, date + suffix2) == CompareTo(suffix1, suffix2)
  {
    ParseVersionOfParts(date, suffix1);
    ParseVersionOfParts(date, suffix2);
    CompareToZero(date, date);
  }

  /** A string that does not follow the scheme compares as if it were all date, no suffix. */
  lemma NonMatchingIsAllDate(left: string, right: string)
    requires !MatchesVersionPattern(left) && !MatchesVersionPattern(right)
    ensures CompareVersions(left, right) == CompareTo(left, right)
  {
    CompareToZero(left, right);
  }

  /** The version one list entry contributes: nothing for a missing entry, a missing version
      number or a blank one, and otherwise the trimmed version number. */
  function Candidate(entry: Option<string>): Option<string> {
    if entry.None? || IsBlank(entry.value) then None else Some(Trim(entry.value))
  }

  /** v is a candidate of one of the first n entries and no candidate among them is newer. */
  ghost predicate NewestAmong(entries: seq<Option<string>>, n: nat, v: string)
    requires n <= |entries|
  {
    && (exists k :: 0 <= k < n && Candidate(entries[k]) == Some(v))
    && (forall k :: 0 <= k < n && Candidate(entries[k]).Some? ==>
          CompareVersions(Candidate(entries[k]).value, v) <= 0)
  }

  /** There is only ever one newest candidate. */
  lemma NewestUnique(entries: seq<Option<string>>, n: nat, v: string, w: string)
    requires n <= |entries| && NewestAmong(entries, n, v) && NewestAmong(entries, n, w)
    ensures v == w
  {
    var i :| 0 <= i < n && Candidate(entries[i]) == Some(v);
    var j :| 0 <= j < n && Candidate(entries[j]) == Some(w);
    assert CompareVersions(v, w) <= 0 && CompareVersions(w, v) <= 0;
    CompareVersionsAntisymmetric(v, w);
    CompareVersionsZero(v, w);
  }

  /** latest is what a scan of the first n entries has kept: nothing when none of them has a
      candidate, and otherwise their newest candidate. */
  ghost predicate LatestOf(entries: seq<Option<string>>, n: nat, latest: Option<string>)
    requires n <= |entries|
  {
    && (latest.None? ==> forall k :: 0 <= k < n ==> Candidate(entries[k]).None?)
    && (latest.Some? ==> NewestAmong(entries, n, latest.value))
  }

  /** A step of the scan that replaces the kept version by a strictly newer candidate. */
  lemma LatestReplaced(entries: seq<Option<string>>, n: nat, latest: Option<string>, v: string)
    requires n < |entries| && LatestOf(entries, n, latest)
    requires Candidate(entries[n]) == Some(v)
    requires latest.None? || CompareVersions(v, latest.value) > 0
    ensures LatestOf(entries, n + 1, Some(v))
  {
    CompareVersionsReflexive(v);
    if latest.Some? {
      CompareVersionsAntisymmetric(v, latest.value);
    }
    forall k | 0 <= k < n + 1 && Candidate(entries[k]).Some?
      ensures CompareVersions(Candidate(entries[k]).value, v) <= 0
    {
      if k < n {
        CompareVersionsTransitive(Candidate(entries[k]).value, latest.value, v);
      }
    }
  }

  /** A step of the scan that keeps the version it had: the entry has no candidate, or one that
      is not newer. */
  lemma LatestKept(entries: seq<Option<string>>, n: nat, latest: Option<string>)
    requires n < |entries| && LatestOf(entries, n, latest)
    requires Candidate(entries[n]).Some? ==>
               latest.Some? && CompareVersions(Candidate(entries[n]).value, latest.value) <= 0
    ensures LatestOf(entries, n + 1, latest)
  {
    if latest.Some? {
      var v := latest.value;
      var j :| 0 <= j < n && Candidate(entries[j]) == Some(v);
      assert j < n + 1;
      forall k | 0 <= k < n + 1 && Candidate(entries[k]).Some?
        ensures CompareVersions(Candidate(entries[k]).value, v) <= 0
      {
        if k == n {
        }
      }
    } else {
      assert forall k :: 0 <= k < n + 1 ==> Candidate(entries[k]).None?;
    }
  }

  /** A kept version that is not newer than the running one leaves no candidate newer than it. */
  lemma NothingNewer(entries: seq<Option<string>>, latest: Option<string>, currentVersion: string)
    requires LatestOf(entries, |entries|, latest)
    requires latest.None? || CompareVersions(latest.value, currentVersion) <= 0
    ensures forall k :: 0 <= k < |entries| && Candidate(entries[k]).Some? ==>
              CompareVersions(Candidate(entries[k]).value, currentVersion) <= 0
  {
    if latest.Some? {
      forall k | 0 <= k < |entries| && Candidate(entries[k]).Some?
        ensures CompareVersions(Candidate(entries[k]).value, currentVersion) <= 0
      {
        CompareVersionsTransitive(Candidate(entries[k]).value, latest.value, currentVersion);
      }
    }
  }

  /** checkForUpdate: the newest usable version of the list when it is newer than the running
      one, and nothing otherwise (also when the list is missing or empty). */
  method CheckForUpdate(currentVersion: string, versions: Option<seq<Option<string>>>)
    returns (update: Option<string>)
    ensures versions.None? || versions.value == [] ==> update.None?
    ensures update.Some? ==>
              && versions.Some?
              && NewestAmong(versions.value, |versions.value|, update.value)
              && CompareVersions(update.value, currentVersion) > 0
    ensures update.None? && versions.Some? ==>
              forall k :: 0 <= k < |versions.value| && Candidate(versions.value[k]).Some? ==>
                CompareVersions(Candidate(versions.value[k]).value, currentVersion) <= 0
  {
    if versions.None? || |versions.value| == 0 {
      return None;
    }
    var entries := versions.value;
    var latest: Option<string> := None;
    var i := 0;
    while i < |entries|
      invariant 0 <= i <= |entries|
      invariant LatestOf(entries, i, latest)
    {
      var entry := entries[i];
      if entry.Some? && !IsBlank(entry.value) {
        var normalized := Trim(entry.value);
        if latest.None? || CompareVersions(normalized, latest.value) > 0 {
          LatestReplaced(entries, i, latest, normalized);
          latest := Some(normalized);
        } else {
          LatestKept(entries, i, latest);
        }
      } else {
        LatestKept(entries, i, latest);
      }
      i := i + 1;
    }
    if latest.Some? && CompareVersions(latest.value, currentVersion) > 0 {
      return latest;
    }
    NothingNewer(entries, latest, currentVersion);
    return None;
  }
}
