/**
 * `packages/utils/src/index.ts`: `slugify`, which trims, lower-cases, turns each run of
 * whitespace into `-` and drops everything outside `a`-`z`, `0`-`9` and `-`; and
 * `assertNever`, which always throws.
 */
module Utils {
  import opened Wrappers
  import opened Text

  /** The characters a slug may hold: `[a-z0-9\-]`. */
  predicate IsSlugChar(c: char) {
    ('a' <= c <= 'z') || ('0' <= c <= '9') || c == '-'
  }

  predicate AllSlugChars(s: string) {
    forall i | 0 <= i < |s| :: IsSlugChar(s[i])
  }

  /** `toLowerCase` on one character, for the ASCII letters. */
  function LowerChar(c: char): (r: char)
    ensures IsSlugChar(c) ==> r == c
  {
    if 'A' <= c <= 'Z' then (c as int + 32) as char else c
  }

  function Lower(s: string): (r: string)
    ensures |r| == |s| && forall i | 0 <= i < |s| :: r[i] == LowerChar(s[i])
  {
    if s == [] then [] else [LowerChar(s[0])] + Lower(s[1..])
  }

  /** `.replace(/\s+/g, "-")`: every maximal run of whitespace becomes one `-`. */
  function DashSpaces(s: string): (r: string)
    ensures NoSpace(r)
    decreases |s|
  {
    if s == [] then []
    else if IsSpace(s[0]) then "-" + DashSpaces(TrimStart(s))
    else [s[0]] + DashSpaces(s[1..])
  }

  /** `.replace(/[^a-z0-9\-]/g, "")`: the slug characters, in order. */
  function KeepSlugChars(s: string): (r: string)
    ensures AllSlugChars(r)
  {
    if s == [] then []
    else if IsSlugChar(s[0]) then [s[0]] + KeepSlugChars(s[1..])
    else KeepSlugChars(s[1..])
  }

  function Slugify(input: string): (r: string)
    ensures AllSlugChars(r)
  {
    KeepSlugChars(DashSpaces(Lower(Trim(input))))
  }

  /** A run of whitespace in front of a text that does not start with whitespace becomes one `-`. */
  lemma {:induction false} DashSpacesRun(ws: string, x: string)
    requires ws != [] && AllSpace(ws) && (x == [] || !IsSpace(x[0]))
    ensures DashSpaces(ws + x) == "-" + DashSpaces(x)
  {
    TrimStartAfterSpaces(ws, x);
    assert (ws + x)[0] == ws[0];
  }

  /** Slugifying does not see whitespace at either end of the input. */
  lemma {:induction false} SlugifyIgnoresOuterSpace(input: string)
    ensures Slugify(Trim(input)) == Slugify(input)
  {
    TrimOfTrimmed(Trim(input));
  }

  /** `b` holds the characters of `a` in order, possibly with others in between. */
  predicate IsSubsequence(a: string, b: string)
    decreases |b|
  {
    if b == [] then a == []
    else (a != [] && a[0] == b[0] && IsSubsequence(a[1..], b[1..])) || IsSubsequence(a, b[1..])
  }

  lemma {:induction false} SubsequenceTrans(a: string, b: string, c: string)
    requires IsSubsequence(a, b) && IsSubsequence(b, c)
    ensures IsSubsequence(a, c)
    decreases |c|
  {
    if c == [] {
    } else if b != [] && b[0] == c[0] && IsSubsequence(b[1..], c[1..]) {
      if a != [] && a[0] == b[0] && IsSubsequence(a[1..], b[1..]) {
        SubsequenceTrans(a[1..], b[1..], c[1..]);
      } else {
        SubsequenceTrans(a, b[1..], c[1..]);
      }
    } else {
      SubsequenceTrans(a, b, c[1..]);
    }
  }

  /** A character in front of both keeps the relation; one in front of the longer only, too. */
  lemma {:induction false} SubsequenceCons(c: char, a: string, b: string)
    requires IsSubsequence(a, b)
    ensures IsSubsequence([c] + a, [c] + b)
    ensures IsSubsequence(a, [c] + b)
  {
    assert ([c] + a)[1..] == a && ([c] + b)[1..] == b;
  }

  /** No whitespace character is a slug character. */
  lemma {:induction false} SpaceNotSlug(c: char)
    requires IsSpace(c)
    ensures !IsSlugChar(c)
  {
  }

  /** Whitespace is not a slug character, so trimming keeps the slug characters. */
  lemma {:induction false} KeepSlugAfterTrimStart(s: string)
    ensures KeepSlugChars(TrimStart(s)) == KeepSlugChars(s)
  {
    if s != [] && IsSpace(s[0]) {
      SpaceNotSlug(s[0]);
      assert KeepSlugChars(s) == KeepSlugChars(s[1..]);
      assert TrimStart(s) == TrimStart(s[1..]);
      KeepSlugAfterTrimStart(s[1..]);
    }
  }

  lemma {:induction false} KeepSlugAppend(a: string, b: string)
    ensures KeepSlugChars(a + b) == KeepSlugChars(a) + KeepSlugChars(b)
  {
    if a == [] {
      assert a + b == b;
    } else {
      assert (a + b)[0] == a[0] && (a + b)[1..] == a[1..] + b;
      KeepSlugAppend(a[1..], b);
    }
  }

  lemma {:induction false} KeepSlugAfterTrimEnd(s: string)
    ensures KeepSlugChars(TrimEnd(s)) == KeepSlugChars(s)
  {
    TrimEndStrips(s);
    var t := TrimEnd(s);
    var tail := s[|t|..];
    assert s == t + tail;
    KeepSlugAppend(t, tail);
    NoSlugInSpaces(tail);
  }

  lemma {:induction false} NoSlugInSpaces(s: string)
    requires AllSpace(s)
    ensures KeepSlugChars(s) == []
  {
    if s != [] {
      SpaceNotSlug(s[0]);
      NoSlugInSpaces(s[1..]);
    }
  }

  /** Lower-casing keeps every slug character where it is. */
  lemma {:induction false} LowerKeepsSlug(s: string)
    ensures IsSubsequence(KeepSlugChars(s), KeepSlugChars(Lower(s)))
  {
    if s == [] {
    } else {
      LowerKeepsSlug(s[1..]);
      assert Lower(s)[1..] == Lower(s[1..]);
      if IsSlugChar(s[0]) {
        SubsequenceCons(s[0], KeepSlugChars(s[1..]), KeepSlugChars(Lower(s[1..])));
      } else if IsSlugChar(LowerChar(s[0])) {
        SubsequenceCons(LowerChar(s[0]), KeepSlugChars(s[1..]), KeepSlugChars(Lower(s[1..])));
      }
    }
  }

  /** Turning whitespace runs into dashes keeps every slug character in order. */
  lemma {:induction false} DashSpacesKeepsSlug(s: string)
    ensures IsSubsequence(KeepSlugChars(s), KeepSlugChars(DashSpaces(s)))
    decreases |s|
  {
    if s == [] {
    } else if IsSpace(s[0]) {
      var t := TrimStart(s);
      DashSpacesKeepsSlug(t);
      KeepSlugAfterTrimStart(s);
      assert ("-" + DashSpaces(t))[0] == '-' && ("-" + DashSpaces(t))[1..] == DashSpaces(t);
      SubsequenceCons('-', KeepSlugChars(t), KeepSlugChars(DashSpaces(t)));
    } else {
      DashSpacesKeepsSlug(s[1..]);
      assert ([s[0]] + DashSpaces(s[1..]))[1..] == DashSpaces(s[1..]);
      if IsSlugChar(s[0]) {
        SubsequenceCons(s[0], KeepSlugChars(s[1..]), KeepSlugChars(DashSpaces(s[1..])));
      }
    }
  }

  /** Keeping the slug characters twice keeps the same ones. */
  lemma {:induction false} KeepSlugIdempotent(s: string)
    requires AllSlugChars(s)
    ensures KeepSlugChars(s) == s
  {
    if s != [] {
      KeepSlugIdempotent(s[1..]);
    }
  }

  /** The lower-case letters, digits and dashes of the input all reach the slug, in their order. */
  lemma {:induction false} SlugKeepsSlugChars(input: string)
    ensures IsSubsequence(KeepSlugChars(input), Slugify(input))
  {
    var t := Trim(input);
    KeepSlugAfterTrimStart(input);
    KeepSlugAfterTrimEnd(TrimStart(input));
    LowerKeepsSlug(t);
    DashSpacesKeepsSlug(Lower(t));
    SubsequenceTrans(KeepSlugChars(t), KeepSlugChars(Lower(t)), KeepSlugChars(DashSpaces(Lower(t))));
  }

  /** A text made of slug characters is a slug already, at every step. */
  lemma {:induction false} SlugCharsFixed(s: string)
    requires AllSlugChars(s)
    ensures Lower(s) == s && DashSpaces(s) == s && Trim(s) == s && KeepSlugChars(s) == s
  {
    assert forall i | 0 <= i < |s| :: !IsSpace(s[i]) by {
      forall i | 0 <= i < |s| ensures !IsSpace(s[i]) {
        assert IsSlugChar(s[i]);
      }
    }
    TrimOfTrimmed(s);
    DashSpacesNoSpace(s);
    KeepSlugIdempotent(s);
  }

  lemma {:induction false} DashSpacesNoSpace(s: string)
    requires NoSpace(s)
    ensures DashSpaces(s) == s
  {
    if s != [] {
      DashSpacesNoSpace(s[1..]);
    }
  }

  /** `slugify(slugify(x)) == slugify(x)` */
  lemma {:induction false} SlugifyIdempotent(input: string)
    ensures Slugify(Slugify(input)) == Slugify(input)
  {
    SlugCharsFixed(Slugify(input));
  }

  /** `assertNever(x)` throws `Error("Unexpected value: " + x)` for every `x`; it never returns a value. */
  function AssertNever(x: string): (r: Result<(), string>)
    ensures r.Failure? && r.error == "Unexpected value: " + x
  {
    Failure("Unexpected value: " + x)
  }
}
