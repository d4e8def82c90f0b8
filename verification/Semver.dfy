/** Release versions: how the updater compares them, and what it decides from the comparison. */
module Semver {
  import opened Text
  import opened Decimal

  type Triple = (int, int, int)

  /** Atoi with its error ignored: zero for text, the nearest bound for a number out of range. */
  function Lenient(s: string): int {
    match Atoi(s) case Parsed(n) => n case SyntaxError => 0 case RangeError(n) => n
  }

  /** What is before the first hyphen. */
  function Core(v: string): string {
    v[..IndexOf(v, '-')]
  }

  function Component(parts: seq<string>, i: nat): int {
    if i < |parts| then Lenient(parts[i]) else 0
  }

  function Key(v: string): Triple {
    var parts := Split(Core(v), '.');
    (Component(parts, 0), Component(parts, 1), Component(parts, 2))
  }

  function Sign(a: int, b: int): int {
    if a < b then -1 else if a > b then 1 else 0
  }

  function CompareTriples(a: Triple, b: Triple): int {
    if a.0 != b.0 then Sign(a.0, b.0) else if a.1 != b.1 then Sign(a.1, b.1) else Sign(a.2, b.2)
  }

  /** The order of triples: the first component that differs decides. */
  lemma TriplesAreLexicographic(a: Triple, b: Triple)
    ensures CompareTriples(a, b) == -1 <==>
              a.0 < b.0 || (a.0 == b.0 && a.1 < b.1) || (a.0 == b.0 && a.1 == b.1 && a.2 < b.2)
    ensures CompareTriples(a, b) == 0 <==> a == b
    ensures CompareTriples(a, b) in {-1, 0, 1}
  {
  }

  function Compare(a: string, b: string): int {
    if a == "" || b == "" then (if a == b then 0 else if a == "" then -1 else 1)
    else CompareTriples(Key(a), Key(b))
  }

  method CompareSemver(a: string, b: string) returns (r: int)
    ensures r == Compare(a, b)
  {
    hide Lenient, Split, Core;
    if a == "" || b == "" {
      if a == b {
        return 0;
      }
      return if a == "" then -1 else 1;
    }
    var pa, pb := Split(Core(a), '.'), Split(Core(b), '.');
    for i := 0 to 3
      invariant forall j :: 0 <= j < i ==> Component(pa, j) == Component(pb, j)
    {
      var ai, bi := 0, 0;
      if i < |pa| {
        ai := Lenient(pa[i]);
      }
      if i < |pb| {
        bi := Lenient(pb[i]);
      }
      assert ai == Component(pa, i) && bi == Component(pb, i);
      if ai != bi {
        return if ai < bi then -1 else 1;
      }
    }
    assert Component(pa, 0) == Component(pb, 0) && Component(pa, 1) == Component(pb, 1)
        && Component(pa, 2) == Component(pb, 2);
    return 0;
  }

  /** A total preorder on all strings, with the empty one strictly below all others. */
  lemma CompareIsPreorder(a: string, b: string, c: string)
    ensures Compare(a, b) in {-1, 0, 1}
    ensures Compare(a, b) == -Compare(b, a)
    ensures Compare(a, b) <= 0 && Compare(b, c) <= 0 ==> Compare(a, c) <= 0
    ensures Compare(a, b) <= 0 && Compare(b, c) < 0 ==> Compare(a, c) < 0
    ensures Compare("", b) == if b == "" then 0 else -1
  {
    hide Key;
  }

  // ---- tagged releases ----------------------------------------------------

  const MARKERS: seq<string> := ["dev", "source", "ci", "snapshot", "local"]

  predicate IsNonReleaseMarker(suffix: string) {
    var s := ToLower(suffix);
    exists i :: 0 <= i < |MARKERS|
        && (s == MARKERS[i] || HasPrefix(s, MARKERS[i] + ".") || HasPrefix(s, MARKERS[i] + "-"))
  }

  predicate LooksLikeSemver(v: string) {
    && v != "" && !HasPrefix(v, "v")
    && |Split(Core(v), '.')| == 3
    && (forall i :: 0 <= i < 3 ==> Split(Core(v), '.')[i] != "" && AllDigits(Split(Core(v), '.')[i]))
    && (IndexOf(v, '-') < |v| ==> !IsNonReleaseMarker(v[IndexOf(v, '-') + 1..]))
  }

  /** MAJOR, MINOR and PATCH as numbers of any size. */
  function Numbers(v: string): (nat, nat, nat)
    requires LooksLikeSemver(v)
  {
    var parts := Split(Core(v), '.');
    (Value(parts[0]), Value(parts[1]), Value(parts[2]))
  }

  function Clamp(n: nat): nat { if n > MAX_INT then MAX_INT else n }

  lemma LenientDigits(s: string)
    requires s != "" && AllDigits(s)
    ensures Lenient(s) == Clamp(Value(s))
  {
    assert DigitPrefix(s) == s;
  }

  /**
   * On tagged releases the comparison is that of MAJOR.MINOR.PATCH as numbers,
   * exactly so when none exceeds the greatest integer, at which they are cut off.
   */
  lemma AgreesWithNumbers(a: string, b: string)
    requires LooksLikeSemver(a) && LooksLikeSemver(b)
    ensures var (x, y, z), (u, v, w) := Numbers(a), Numbers(b);
            && Compare(a, b) == CompareTriples((Clamp(x), Clamp(y), Clamp(z)), (Clamp(u), Clamp(v), Clamp(w)))
            && ((forall n :: n in [x, y, z, u, v, w] ==> n <= MAX_INT) ==>
                  Compare(a, b) == CompareTriples((x, y, z), (u, v, w)))
  {
    var pa, pb := Split(Core(a), '.'), Split(Core(b), '.');
    LenientDigits(pa[0]);
    LenientDigits(pa[1]);
    LenientDigits(pa[2]);
    LenientDigits(pb[0]);
    LenientDigits(pb[1]);
    LenientDigits(pb[2]);
    hide Lenient, Split, Core, AllDigits, Value;
    var (x, y, z) := Numbers(a);
    var (u, v, w) := Numbers(b);
    assert Key(a) == (Clamp(x), Clamp(y), Clamp(z)) && Key(b) == (Clamp(u), Clamp(v), Clamp(w));
    if forall n :: n in [x, y, z, u, v, w] ==> n <= MAX_INT {
      var all := [x, y, z, u, v, w];
      assert all[0] in all && all[1] in all && all[2] in all && all[3] in all && all[4] in all && all[5] in all;
    }
  }

  /** A pre-release counts as the release it precedes. */
  lemma PreReleaseIgnored(core: string, suffix: string, b: string)
    requires core != "" && '-' !in core
    ensures Compare(core + "-" + suffix, b) == Compare(core, b)
    ensures Compare(core + "-" + suffix, core) == 0
  {
    var v := core + "-" + suffix;
    CoreOf(core, suffix);
    assert Core(core) == core by {
      assert IndexOf(core, '-') == |core|;
      assert core[..|core|] == core;
    }
    hide Split, Core, Lenient;
    assert Key(v) == Key(core);
  }

  lemma CoreOf(core: string, suffix: string)
    requires '-' !in core
    ensures Core(core + "-" + suffix) == core
  {
    var v := core + "-" + suffix;
    assert v[|core|] == '-';
    assert forall j :: 0 <= j < |core| ==> v[j] == core[j];
    assert v[..|core|] == core;
  }

  // ---- the decision -------------------------------------------------------

  datatype Decision = Skipped | UpToDate | NoArch | TooOld | UpdateOk(warned: bool)

  function Decide(current: string, version: string, minUpgradeFrom: string, skip: bool, hasArch: bool): Decision {
    if skip then Skipped
    else if version == current then UpToDate
    else if !LooksLikeSemver(current) then (if hasArch then UpdateOk(true) else NoArch)
    else if Compare(current, minUpgradeFrom) < 0 then TooOld
    else if hasArch then UpdateOk(false)
    else NoArch
  }

  /**
   * A tagged release is refused as too old exactly when its numbers are below
   * those of a tagged floor; with no floor it never is.
   */
  lemma TooOldMeansBelowFloor(current: string, version: string, floor: string, hasArch: bool)
    requires version != current
    requires LooksLikeSemver(current) && LooksLikeSemver(floor)
    requires var (x, y, z), (u, v, w) := Numbers(current), Numbers(floor);
             forall n :: n in [x, y, z, u, v, w] ==> n <= MAX_INT
    ensures Decide(current, version, floor, false, hasArch).TooOld?
       <==> CompareTriples(Numbers(current), Numbers(floor)) < 0
    ensures !Decide(current, version, "", false, hasArch).TooOld?
  {
    AgreesWithNumbers(current, floor);
    hide LooksLikeSemver, Key;
  }

  /** What is decided of a tagged release, by its numbers and the floor's. */
  lemma ReleaseDecision(current: string, version: string, floor: string, skip: bool, hasArch: bool)
    requires LooksLikeSemver(current) && LooksLikeSemver(floor)
    requires var (x, y, z), (u, v, w) := Numbers(current), Numbers(floor);
             forall n :: n in [x, y, z, u, v, w] ==> n <= MAX_INT
    ensures var decision := Decide(current, version, floor, skip, hasArch);
            && (decision == Skipped <==> skip)
            && (decision == UpToDate <==> !skip && version == current)
            && (decision == UpdateOk(false) <==>
                  !skip && version != current && hasArch && CompareTriples(Numbers(current), Numbers(floor)) >= 0)
            && (decision == NoArch <==>
                  !skip && version != current && !hasArch && CompareTriples(Numbers(current), Numbers(floor)) >= 0)
            && decision != UpdateOk(true)
  {
    AgreesWithNumbers(current, floor);
    hide LooksLikeSemver, Key;
  }

  /** Three texts of digits with dots between are a tagged release with those numbers. */
  lemma DottedNumbers(a: string, b: string, c: string)
    requires a != "" && AllDigits(a) && b != "" && AllDigits(b) && c != "" && AllDigits(c)
    ensures var v := a + "." + b + "." + c;
            LooksLikeSemver(v) && Numbers(v) == (Value(a), Value(b), Value(c))
  {
    var v := a + "." + b + "." + c;
    DottedSplit(a, b, c);
    hide Split, Value;
    assert '-' !in v;
    assert IndexOf(v, '-') == |v| && v[..|v|] == v;
    assert v[0] == a[0] && 'v' != a[0];
    assert !HasPrefix(v, "v");
  }

  lemma DottedSplit(a: string, b: string, c: string)
    requires '.' !in a && '.' !in b && '.' !in c
    ensures Split(a + "." + b + "." + c, '.') == [a, b, c]
  {
    SplitOne(c, '.');
    SplitLine(b, c, '.');
    SplitLine(a, b + "." + c, '.');
    hide Split;
    assert a + "." + b + "." + c == a + ['.'] + (b + ['.'] + c);
    assert [a] + ([b] + [c]) == [a, b, c];
  }

  lemma UntaggedNeverTooOld(current: string, version: string, floor: string, skip: bool, hasArch: bool)
    requires !LooksLikeSemver(current)
    ensures !Decide(current, version, floor, skip, hasArch).TooOld?
    ensures Decide(current, version, floor, skip, hasArch).UpdateOk? <==> !skip && version != current && hasArch
  {
  }

  /**
   * A version whose suffix begins with a development marker, in any case and
   * alone or before a dot or hyphen, is never refused for its age, however low
   * its numbers: it is offered whatever other version its architecture has.
   */
  lemma DevelopmentBuildNeverTooOld(core: string, marker: string, tail: string, version: string, floor: string,
                                    hasArch: bool)
    requires '-' !in core && ToLower(marker) in MARKERS && (tail == "" || tail[0] in ".-")
    ensures var current := core + "-" + (marker + tail);
            && !Decide(current, version, floor, false, hasArch).TooOld?
            && (version != current && hasArch ==> Decide(current, version, floor, false, hasArch) == UpdateOk(true))
  {
    var suffix := marker + tail;
    var current := core + "-" + suffix;
    MarkerRecognised(marker, tail);
    CoreOf(core, suffix);
    hide IsNonReleaseMarker, Split, Core, Lenient, ToLower;
    assert IndexOf(current, '-') == |core| by {
      assert current[|core|] == '-';
      assert forall j :: 0 <= j < |core| ==> current[j] == core[j];
    }
    assert current[|core| + 1..] == suffix;
    assert !LooksLikeSemver(current);
    UntaggedNeverTooOld(current, version, floor, false, hasArch);
  }

  /** The suffixes that mark a development build: one of five words in any case, alone or before a dot or hyphen. */
  lemma MarkerIff(suffix: string)
    ensures IsNonReleaseMarker(suffix) <==>
              exists word, tail ::
                && suffix == word + tail && (tail == "" || tail[0] in ".-")
                && ToLower(word) in {"dev", "source", "ci", "snapshot", "local"}
  {
    if IsNonReleaseMarker(suffix) {
      var s := ToLower(suffix);
      var i :| 0 <= i < |MARKERS|
               && (s == MARKERS[i] || HasPrefix(s, MARKERS[i] + ".") || HasPrefix(s, MARKERS[i] + "-"));
      MarkerFound(suffix, MARKERS[i]);
      WordsAreMarkers(MARKERS[i]);
    }
    if word, tail :| suffix == word + tail && (tail == "" || tail[0] in ".-")
                     && ToLower(word) in {"dev", "source", "ci", "snapshot", "local"} {
      WordsAreMarkers(ToLower(word));
      MarkerRecognised(word, tail);
    }
  }

  lemma WordsAreMarkers(word: string)
    ensures word in MARKERS <==> word in {"dev", "source", "ci", "snapshot", "local"}
  {
  }

  lemma MarkerFound(suffix: string, marker: string)
    requires var s := ToLower(suffix); s == marker || HasPrefix(s, marker + ".") || HasPrefix(s, marker + "-")
    ensures var word, tail := suffix[..|marker|], suffix[|marker|..];
            |marker| <= |suffix| && suffix == word + tail && (tail == "" || tail[0] in ".-") && ToLower(word) == marker
  {
    var s := ToLower(suffix);
    assert |s| == |suffix| && |marker| <= |s|;
    var word, tail := suffix[..|marker|], suffix[|marker|..];
    assert s[..|marker|] == marker by {
      assert HasPrefix(s, marker + ".") ==> s[..|marker| + 1] == marker + ".";
      assert HasPrefix(s, marker + "-") ==> s[..|marker| + 1] == marker + "-";
    }
    assert ToLower(word) == s[..|marker|];
    if tail != "" {
      assert s[|marker|] in ".-" by {
        assert HasPrefix(s, marker + ".") ==> s[|marker|] == s[..|marker| + 1][|marker|] == '.';
        assert HasPrefix(s, marker + "-") ==> s[|marker|] == s[..|marker| + 1][|marker|] == '-';
      }
      assert FoldsTo(suffix[|marker|], s[|marker|]);
    }
  }

  lemma MarkerRecognised(marker: string, tail: string)
    requires ToLower(marker) in MARKERS && (tail == "" || tail[0] in ".-")
    ensures IsNonReleaseMarker(marker + tail)
  {
    var s, m := ToLower(marker + tail), ToLower(marker);
    var i :| 0 <= i < |MARKERS| && MARKERS[i] == m;
    assert s[..|m|] == m;
    if tail == "" {
      assert s == m;
    } else {
      assert s[|m|] == tail[0];
      assert s[..|m| + 1] == m + [tail[0]];
    }
  }
}
