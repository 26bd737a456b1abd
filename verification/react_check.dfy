/**
 * The React duplication check of `scripts/doctor.mjs`: every match of
 * `(?<!@types\/)react@[0-9]+\.[0-9]+\.[0-9]+` in `pnpm-lock.yaml`, deduplicated in the
 * order of first occurrence, must be exactly one version, `react@19.1.0`.
 */
module ReactCheck {
  import opened Wrappers
  import opened Text

  const ReactAt: string := "react@"
  const TypesScope: string := "@types/"
  const PinnedReact: string := "react@19.1.0"

  predicate IsDigit(c: char) {
    '0' <= c <= '9'
  }

  predicate VersionChar(c: char) {
    IsDigit(c) || c == '.'
  }

  /** The length of the run of digits `s` starts with. */
  function DigitRun(s: string): (n: nat)
    ensures n <= |s| && (n < |s| ==> !IsDigit(s[n]))
    ensures forall k | 0 <= k < n :: IsDigit(s[k])
  {
    if s != [] && IsDigit(s[0]) then 1 + DigitRun(s[1..]) else 0
  }

  /** The length of the match of `[0-9]+\.` at the start of `t`, or 0 when there is none. */
  function DottedRun(t: string): (n: nat)
    ensures n <= |t|
    ensures n > 0 ==> n >= 2 && t[n - 1] == '.'
    ensures forall k | 0 <= k < n :: VersionChar(t[k])
  {
    var a := DigitRun(t);
    if a == 0 || a == |t| || t[a] != '.' then 0 else a + 1
  }

  /** Three runs of version characters side by side, from 0, `p` and `r`, the last a maximal run of `c` digits. */
  lemma {:induction false} VersionJoin(t: string, p: nat, r: nat, c: nat)
    requires p <= r && r + c <= |t| && c > 0
    requires forall k | 0 <= k < p :: VersionChar(t[k])
    requires forall k | 0 <= k < r - p :: VersionChar(t[p..][k])
    requires forall k | 0 <= k < c :: IsDigit(t[r..][k])
    requires c < |t[r..]| ==> !IsDigit(t[r..][c])
    ensures forall k | 0 <= k < r + c :: VersionChar(t[k])
    ensures IsDigit(t[r + c - 1]) && (r + c < |t| ==> !IsDigit(t[r + c]))
  {
    assert t[r + c - 1] == t[r..][c - 1];
    assert r + c < |t| ==> t[r + c] == t[r..][c];
    forall k | 0 <= k < r + c
      ensures VersionChar(t[k])
    {
      if p <= k < r {
        assert t[k] == t[p..][k - p];
      } else if r <= k {
        assert t[k] == t[r..][k - r];
      }
    }
  }

  /**
   * The length of the match of `[0-9]+\.[0-9]+\.[0-9]+` at the start of `t`, or 0 when
   * there is none. Each `[0-9]+` is greedy, and a shorter run would leave a digit where
   * the pattern needs a dot or nothing more, so the runs are the maximal ones: a match
   * ends with a digit that no digit follows.
   */
  function VersionLength(t: string): (n: nat)
    ensures n <= |t|
    ensures forall k | 0 <= k < n :: VersionChar(t[k])
    ensures n > 0 ==> IsDigit(t[n - 1]) && (n < |t| ==> !IsDigit(t[n]))
  {
    var p := DottedRun(t);
    if p == 0 then 0
    else
      var q := DottedRun(t[p..]);
      if q == 0 then 0
      else
        var c := DigitRun(t[p + q..]);
        if c == 0 then 0
        else
          VersionJoin(t, p, p + q, c);
          p + q + c
  }

  /** The lookbehind fails at `i`: the seven characters before it are `@types/`. */
  predicate AfterTypesScope(s: string, i: nat)
    requires i <= |s|
  {
    i >= |TypesScope| && s[i - |TypesScope|..i] == TypesScope
  }

  /** The match starting at index `i`, if the pattern matches there. */
  function MatchAt(s: string, i: nat): (r: Option<string>)
    requires i <= |s|
    ensures r.Some? ==> |ReactAt| < |r.value| && i + |r.value| <= |s|
  {
    if StartsWith(s[i..], ReactAt) && !AfterTypesScope(s, i) then
      var n := VersionLength(s[i + |ReactAt|..]);
      if n == 0 then None else Some(s[i..i + |ReactAt| + n])
    else None
  }

  /**
   * The pattern matches at `i` iff `react@` starts there, `@types/` does not end there,
   * and a version follows; the match is that piece of `s`.
   */
  lemma {:induction false} MatchAtSpec(s: string, i: nat)
    requires i <= |s|
    ensures MatchAt(s, i).Some?
        <==> StartsWith(s[i..], ReactAt) && !AfterTypesScope(s, i) && VersionLength(s[i + |ReactAt|..]) > 0
    ensures MatchAt(s, i).Some? ==> MatchAt(s, i).value == s[i..i + |ReactAt| + VersionLength(s[i + |ReactAt|..])]
  {
  }

  /** `rawLock.match(pattern)` from index `i` on: after a match the search resumes at its end. */
  function MatchesFrom(s: string, i: nat): seq<string>
    requires i <= |s|
    decreases |s| - i
  {
    if i == |s| then []
    else match MatchAt(s, i)
      case Some(m) => [m] + MatchesFrom(s, i + |m|)
      case None => MatchesFrom(s, i + 1)
  }

  /** One step of the search. */
  lemma {:induction false} MatchesStep(s: string, i: nat)
    requires i < |s|
    ensures MatchAt(s, i).Some? ==> MatchesFrom(s, i) == [MatchAt(s, i).value] + MatchesFrom(s, i + |MatchAt(s, i).value|)
    ensures MatchAt(s, i).None? ==> MatchesFrom(s, i) == MatchesFrom(s, i + 1)
  {
  }

  /** `rawLock.match(pattern) || []` */
  function ReactVersions(lock: string): seq<string> {
    MatchesFrom(lock, 0)
  }

  /** A match starts with `r`, and none of its other characters is an `r`. */
  lemma {:induction false} MatchLetters(s: string, j: nat)
    requires j <= |s| && MatchAt(s, j).Some?
    ensures s[j] == 'r'
    ensures forall k | j < k < j + |MatchAt(s, j).value| :: s[k] != 'r'
  {
    MatchAtSpec(s, j);
    var m := MatchAt(s, j).value;
    var t := s[j + |ReactAt|..];
    assert VersionLength(t) == |m| - |ReactAt|;
    assert m[..|ReactAt|] == ReactAt;
    assert s[j] == m[0] == ReactAt[0];
    forall k | j < k < j + |m|
      ensures s[k] != 'r'
    {
      assert s[k] == m[k - j];
      if k < j + |ReactAt| {
        assert m[k - j] == m[..|ReactAt|][k - j] == ReactAt[k - j];
      } else {
        assert s[k] == t[k - j - |ReactAt|];
      }
    }
  }

  /** Inside a match no other match starts. */
  lemma {:induction false} NoMatchInside(s: string, j: nat, i: nat)
    requires j < i <= |s| && MatchAt(s, j).Some? && i < j + |MatchAt(s, j).value|
    ensures MatchAt(s, i).None?
  {
    MatchLetters(s, j);
    if MatchAt(s, i).Some? {
      MatchLetters(s, i);
      assert false;
    }
  }

  lemma {:induction false} InHead(x: string, xs: seq<string>)
    ensures x in [x] + xs
  {
    assert ([x] + xs)[0] == x;
  }

  lemma {:induction false} InTail(x: string, y: string, xs: seq<string>)
    requires x in xs
    ensures x in [y] + xs
  {
  }

  /** Where the search goes on after index `i`: past the match there, or one character on. */
  function NextStart(s: string, i: nat): (j: nat)
    requires i < |s|
    ensures i < j <= |s|
  {
    match MatchAt(s, i)
    case Some(m) => i + |m|
    case None => i + 1
  }

  /** A match at `k` after `i` is not skipped: the search from `i` resumes at or before `k`. */
  lemma {:induction false} NextStartNotPast(s: string, i: nat, k: nat)
    requires i < k < |s| && MatchAt(s, k).Some?
    ensures NextStart(s, i) <= k
  {
    if MatchAt(s, i).Some? && k < i + |MatchAt(s, i).value| {
      NoMatchInside(s, i, k);
    }
  }

  /** What the search collects from where it resumes, it collects from `i`. */
  lemma {:induction false} CollectedFromNext(s: string, i: nat, m: string)
    requires i < |s| && m in MatchesFrom(s, NextStart(s, i))
    ensures m in MatchesFrom(s, i)
  {
    MatchesStep(s, i);
    if MatchAt(s, i).Some? {
      InTail(m, MatchAt(s, i).value, MatchesFrom(s, NextStart(s, i)));
    }
  }

  /** The match at `i` is the first one collected from `i`. */
  lemma {:induction false} CollectedHere(s: string, i: nat)
    requires i < |s| && MatchAt(s, i).Some?
    ensures MatchAt(s, i).value in MatchesFrom(s, i)
  {
    MatchesStep(s, i);
    InHead(MatchAt(s, i).value, MatchesFrom(s, i + |MatchAt(s, i).value|));
  }

  /** A collected string that is not the match at `i` is collected from where the search resumes. */
  lemma {:induction false} CollectedLater(s: string, i: nat, m: string)
    requires i < |s| && m in MatchesFrom(s, i) && MatchAt(s, i) != Some(m)
    ensures m in MatchesFrom(s, NextStart(s, i))
  {
    MatchesStep(s, i);
  }

  /** Every collected string is the match at some index at or after `i`. */
  lemma {:induction false} CollectedAreMatches(s: string, i: nat, m: string) returns (k: nat)
    requires i <= |s| && m in MatchesFrom(s, i)
    ensures i <= k < |s| && MatchAt(s, k) == Some(m)
    decreases |s| - i
  {
    assert i < |s|;
    if MatchAt(s, i) == Some(m) {
      k := i;
    } else {
      CollectedLater(s, i, m);
      k := CollectedAreMatches(s, NextStart(s, i), m);
    }
  }

  /** Every match of the pattern at or after `i` is collected. */
  lemma {:induction false} MatchesAreCollected(s: string, i: nat, k: nat)
    requires i <= k < |s| && MatchAt(s, k).Some?
    ensures MatchAt(s, k).value in MatchesFrom(s, i)
    decreases k - i
  {
    if i == k {
      CollectedHere(s, k);
    } else {
      NextStartNotPast(s, i, k);
      MatchesAreCollected(s, NextStart(s, i), k);
      CollectedFromNext(s, i, MatchAt(s, k).value);
    }
  }

  /**
   * The versions found in the lockfile are exactly the texts `react@N.N.N` (maximal digit
   * runs) that occur in it without `@types/` right in front.
   */
  lemma {:induction false} ReactVersionsAreMatches(lock: string, m: string)
    ensures m in ReactVersions(lock) <==> exists k | 0 <= k < |lock| :: MatchAt(lock, k) == Some(m)
  {
    if m in ReactVersions(lock) {
      var k := CollectedAreMatches(lock, 0, m);
    }
    if exists k | 0 <= k < |lock| :: MatchAt(lock, k) == Some(m) {
      var k :| 0 <= k < |lock| && MatchAt(lock, k) == Some(m);
      MatchesAreCollected(lock, 0, k);
    }
  }

  /** `[...new Set(all)]`: each element once, in the order of its first occurrence. */
  function Dedupe(xs: seq<string>): (r: seq<string>)
    ensures forall x :: x in r <==> x in xs
    ensures forall i, j | 0 <= i < j < |r| :: r[i] != r[j]
    ensures xs != [] ==> r != [] && r[0] == xs[0]
  {
    if xs == [] then []
    else
      var r := Dedupe(xs[..|xs| - 1]);
      assert forall x :: x in xs <==> x in xs[..|xs| - 1] || x == xs[|xs| - 1] by {
        assert xs == xs[..|xs| - 1] + [xs[|xs| - 1]];
      }
      assert |xs| > 1 ==> xs[..|xs| - 1][0] == xs[0];
      if xs[|xs| - 1] in r then r else r + [xs[|xs| - 1]]
  }

  /** What the check concludes from the distinct versions. */
  datatype ReactVerdict =
    | NotInstalled              // a warning: no React in the lockfile yet
    | Pinned                    // the one version is react@19.1.0
    | Multiple(versions: seq<string>)
    | Drift(found: string)

  predicate Fails(v: ReactVerdict) {
    v.Multiple? || v.Drift?
  }

  /** Lines 170-185 on the deduplicated list. */
  function Classify(unique: seq<string>): (r: ReactVerdict)
    ensures r == NotInstalled <==> |unique| == 0
    ensures r.Multiple? <==> |unique| > 1
    ensures r == Pinned <==> unique == [PinnedReact]
    ensures r.Drift? <==> |unique| == 1 && unique[0] != PinnedReact
  {
    if |unique| == 0 then NotInstalled
    else if |unique| != 1 then Multiple(unique)
    else if unique[0] != PinnedReact then Drift(unique[0])
    else Pinned
  }

  /** A list whose deduplication has one element holds that element only. */
  lemma {:induction false} SingleDistinct(xs: seq<string>)
    ensures |Dedupe(xs)| == 1 <==> xs != [] && forall i | 0 <= i < |xs| :: xs[i] == xs[0]
  {
    var r := Dedupe(xs);
    if |r| == 1 {
      forall i | 0 <= i < |xs| ensures xs[i] == xs[0] {
        assert xs[i] in r;
      }
    }
    if xs != [] && forall i | 0 <= i < |xs| :: xs[i] == xs[0] {
      if |r| > 1 {
        assert r[1] in xs;
        assert r[0] == xs[0];
      }
    }
  }

  /**
   * The verdict on the versions found: no versions only warns; the check passes iff every
   * version found is react@19.1.0; two different versions fail as duplicates; one version
   * other than react@19.1.0 fails as drift.
   */
  lemma {:induction false} ClassifyFound(all: seq<string>)
    ensures Classify(Dedupe(all)) == NotInstalled <==> all == []
    ensures Classify(Dedupe(all)) == Pinned <==> all != [] && forall i | 0 <= i < |all| :: all[i] == PinnedReact
    ensures Classify(Dedupe(all)).Multiple? <==> exists i, j | 0 <= i < |all| && 0 <= j < |all| :: all[i] != all[j]
    ensures Classify(Dedupe(all)).Drift? <==> all != [] && all[0] != PinnedReact && forall i | 0 <= i < |all| :: all[i] == all[0]
  {
    SingleDistinct(all);
    var r := Dedupe(all);
    if |r| == 1 {
      assert r == [all[0]];
    }
    if exists i, j | 0 <= i < |all| && 0 <= j < |all| :: all[i] != all[j] {
      var i, j :| 0 <= i < |all| && 0 <= j < |all| && all[i] != all[j];
      assert all[i] != all[0] || all[j] != all[0];
    }
  }

  /** The check on the lockfile, when there is one. */
  function ReactGate(lock: Option<string>): (r: ReactVerdict)
    ensures lock.None? ==> r == NotInstalled
  {
    match lock
    case None => NotInstalled
    case Some(text) => Classify(Dedupe(ReactVersions(text)))
  }
}
