/**
 * The string operations the scripts take from JavaScript: the `\s` character class,
 * `trim`, `includes`, `startsWith`, `endsWith`, `split(/\s+/)` and the anchored
 * pattern `/^\s*\{/` that locates the opening brace of a JSON document.
 */
module Text {
  import opened Wrappers

  /** JavaScript's `\s`; `String.prototype.trim` strips exactly the same characters. */
  predicate IsSpace(c: char) {
    || c == ' ' || c == '\t' || c == '\n' || c == '\r' || c == '\U{000B}' || c == '\U{000C}'
    || c == '\U{00A0}' || c == '\U{1680}' || ('\U{2000}' <= c <= '\U{200A}')
    || c == '\U{2028}' || c == '\U{2029}' || c == '\U{202F}' || c == '\U{205F}'
    || c == '\U{3000}' || c == '\U{FEFF}'
  }

  predicate AllSpace(s: string) {
    forall i :: 0 <= i < |s| ==> IsSpace(s[i])
  }

  predicate NoSpace(s: string) {
    forall i :: 0 <= i < |s| ==> !IsSpace(s[i])
  }

  predicate StartsWith(s: string, prefix: string) {
    |prefix| <= |s| && s[..|prefix|] == prefix
  }

  predicate EndsWith(s: string, suffix: string) {
    |suffix| <= |s| && s[|s| - |suffix|..] == suffix
  }

  /** `t` occurs in `s` starting at index `i`. */
  predicate OccursAt(s: string, t: string, i: int) {
    0 <= i && i + |t| <= |s| && s[i..i + |t|] == t
  }

  /** `s.includes(t)` */
  predicate Contains(s: string, t: string) {
    exists i | 0 <= i <= |s| - |t| :: OccursAt(s, t, i)
  }

  /** An occurrence inside a suffix is an occurrence in the whole string. */
  lemma ContainsSuffix(s: string, k: nat, t: string)
    requires k <= |s| && Contains(s[k..], t)
    ensures Contains(s, t)
  {
    var i :| 0 <= i <= |s[k..]| - |t| && OccursAt(s[k..], t, i);
    assert s[k + i..k + i + |t|] == s[k..][i..i + |t|];
    assert OccursAt(s, t, k + i);
  }

  /** An occurrence inside a prefix is an occurrence in the whole string. */
  lemma ContainsPrefix(s: string, k: nat, t: string)
    requires k <= |s| && Contains(s[..k], t)
    ensures Contains(s, t)
  {
    var i :| 0 <= i <= |s[..k]| - |t| && OccursAt(s[..k], t, i);
    assert s[i..i + |t|] == s[..k][i..i + |t|];
    assert OccursAt(s, t, i);
  }

  /** A suffix that starts with `t` gives an occurrence of `t`. */
  lemma {:induction false} ContainsAtSuffix(s: string, k: nat, t: string)
    requires k <= |s| && StartsWith(s[k..], t)
    ensures Contains(s, t)
  {
    assert s[k..k + |t|] == s[k..][..|t|];
    assert OccursAt(s, t, k);
  }

  /** An occurrence in the middle piece is an occurrence in the whole concatenation. */
  lemma ContainsInfix(a: string, b: string, c: string, t: string)
    requires Contains(b, t)
    ensures Contains(a + b + c, t)
  {
    var i :| 0 <= i <= |b| - |t| && OccursAt(b, t, i);
    assert (a + b + c)[|a| + i..|a| + i + |t|] == b[i..i + |t|];
    assert OccursAt(a + b + c, t, |a| + i);
  }

  /** The first piece of a three-piece concatenation, and the suffixes that start at its piece boundaries. */
  lemma {:induction false} DropPieces(a: string, b: string, c: string)
    ensures (a + b + c)[..|a|] == a
    ensures (a + b + c)[|a|..] == b + c
    ensures (a + b + c)[|a| + |b|..] == c
  {
  }

  /** Concatenation regrouped to the right. */
  lemma {:induction false} Regroup(a: string, b: string, c: string)
    ensures a + b + c == a + (b + c)
  {
  }

  /** A non-empty string is its first character followed by the rest. */
  lemma {:induction false} HeadTail(s: string)
    requires s != []
    ensures s == [s[0]] + s[1..]
  {
  }

  /** The suffix from `k` is its first character followed by the suffix from `k + 1`. */
  lemma {:induction false} SuffixCons(s: string, k: nat)
    requires k < |s|
    ensures s[k..] == [s[k]] + s[k + 1..]
  {
  }

  /** A character followed by a prefix of the rest is a prefix. */
  lemma {:induction false} StartsWithCons(s: string, c: char, t: string)
    requires s != [] && s[0] == c && StartsWith(s[1..], t)
    ensures StartsWith(s, [c] + t)
  {
    assert s[..|t| + 1] == [s[0]] + s[1..][..|t|];
  }

  /** The first `n` characters of `s` and the rest. */
  lemma {:induction false} PrefixThen(s: string, n: nat)
    requires n <= |s|
    ensures s == s[..n] + s[n..]
  {
  }

  /** A prefix of a suffix is a slice. */
  lemma {:induction false} SliceOfSuffix(s: string, k: nat, j: nat)
    requires k + j <= |s|
    ensures s[k..][..j] == s[k..k + j]
  {
  }

  /** Leading whitespace removed (the left half of `trim`). */
  function TrimStart(s: string): (r: string)
    ensures |r| <= |s| && r == s[|s| - |r|..]
    ensures r != [] ==> !IsSpace(r[0])
  {
    if s != [] && IsSpace(s[0]) then TrimStart(s[1..]) else s
  }

  /** What `TrimStart` removes is whitespace. */
  lemma {:induction false} TrimStartStrips(s: string)
    ensures AllSpace(s[..|s| - |TrimStart(s)|])
  {
    if s != [] && IsSpace(s[0]) {
      TrimStartStrips(s[1..]);
      var k := |s| - |TrimStart(s)|;
      assert forall i :: 1 <= i < k ==> s[..k][i] == s[1..][..k - 1][i - 1];
    }
  }

  /** The leading whitespace of `s` and the rest `TrimStart` leaves. */
  lemma {:induction false} SplitLeadingSpace(s: string) returns (ws: string)
    ensures AllSpace(ws) && s == ws + TrimStart(s)
  {
    TrimStartStrips(s);
    ws := s[..|s| - |TrimStart(s)|];
  }

  /** Whitespace in front of a text that does not start with whitespace is exactly what `TrimStart` removes. */
  lemma {:induction false} TrimStartAfterSpaces(ws: string, x: string)
    requires AllSpace(ws) && (x == [] || !IsSpace(x[0]))
    ensures TrimStart(ws + x) == x
  {
    if ws == [] {
      assert ws + x == x;
    } else {
      assert (ws + x)[1..] == ws[1..] + x;
      TrimStartAfterSpaces(ws[1..], x);
    }
  }

  /** `s.indexOf(c)`, as an option. */
  function IndexOfChar(s: string, c: char): (r: Option<nat>)
    ensures r.Some? ==> r.value < |s| && s[r.value] == c && c !in s[..r.value]
    ensures r.None? ==> c !in s
  {
    if s == [] then None
    else if s[0] == c then Some(0)
    else match IndexOfChar(s[1..], c)
      case None => None
      case Some(k) => assert s[..k + 1] == [s[0]] + s[1..][..k]; Some(k + 1)
  }


  /** The first occurrence of `c` is the one right after a piece without `c`. */
  lemma {:induction false} IndexOfCharAfter(body: string, c: char, rest: string)
    requires c !in body
    ensures IndexOfChar(body + [c] + rest, c) == Some(|body|)
  {
    var s := body + [c] + rest;
    var r := IndexOfChar(s, c);
    assert s[|body|] == c;
    assert s[..|body|] == body;
    assert c in s by { assert s[|body|] == c; }
    assert forall v :: |body| < v <= |s| ==> c in s[..v] by {
      forall v | |body| < v <= |s|
        ensures c in s[..v]
      {
        assert s[..v][|body|] == c;
      }
    }
    assert forall v :: 0 <= v < |body| ==> s[v] != c;
  }
  /** Trailing whitespace removed (the right half of `trim`). */
  function TrimEnd(s: string): (r: string)
    ensures |r| <= |s| && r == s[..|r|]
    ensures r != [] ==> !IsSpace(r[|r| - 1])
  {
    if s != [] && IsSpace(s[|s| - 1]) then TrimEnd(s[..|s| - 1]) else s
  }

  /** What `TrimEnd` removes is whitespace. */
  lemma {:induction false} TrimEndStrips(s: string)
    ensures AllSpace(s[|TrimEnd(s)|..])
  {
    if s != [] && IsSpace(s[|s| - 1]) {
      TrimEndStrips(s[..|s| - 1]);
      var k := |TrimEnd(s)|;
      assert s[k..] == s[..|s| - 1][k..] + [s[|s| - 1]];
    }
  }

  /** The rest `TrimEnd` leaves and the trailing whitespace of `s`. */
  lemma {:induction false} SplitTrailingSpace(s: string) returns (ws: string)
    ensures AllSpace(ws) && s == TrimEnd(s) + ws
  {
    TrimEndStrips(s);
    ws := s[|TrimEnd(s)|..];
  }

  /** `s.trim()`: whitespace stripped from both ends. */
  function Trim(s: string): (r: string)
    ensures r != [] ==> !IsSpace(r[0]) && !IsSpace(r[|r| - 1])
  {
    TrimEnd(TrimStart(s))
  }

  /** Trimming a string whose ends are not whitespace leaves it as it is. */
  lemma TrimOfTrimmed(s: string)
    requires s != [] ==> !IsSpace(s[0]) && !IsSpace(s[|s| - 1])
    ensures Trim(s) == s
  {
  }

  /** The leading run of non-whitespace characters of `s`. */
  function Word(s: string): (w: string)
    ensures |w| <= |s| && w == s[..|w|] && NoSpace(w)
    ensures |w| < |s| ==> IsSpace(s[|w|])
  {
    if s == [] || IsSpace(s[0]) then [] else [s[0]] + Word(s[1..])
  }

  /** A string is its first word followed by the rest. */
  lemma {:induction false} WordSplit(s: string)
    ensures s == Word(s) + s[|Word(s)|..]
  {
  }

  /**
   * `s.split(/\s+/)`: the pieces between maximal runs of whitespace. A run at either end
   * yields an empty piece there, and the empty string splits into one empty piece.
   */
  function SplitSpaces(s: string): (parts: seq<string>)
    ensures |parts| >= 1
    decreases |s|
  {
    if s == [] then [""]
    else if IsSpace(s[0]) then [""] + SplitSpaces(TrimStart(s))
    else
      var w := Word(s);
      if |w| == |s| then [w] else [w] + SplitSpaces(TrimStart(s[|w|..]))
  }

  /** `parts.join(sep)` */
  function Join(parts: seq<string>, sep: string): string {
    if |parts| == 0 then ""
    else if |parts| == 1 then parts[0]
    else parts[0] + sep + Join(parts[1..], sep)
  }

  /** The number of whitespace-separated words of `s`, counted at the character where each begins. */
  function WordCount(s: string): nat {
    WordStarts(s, true)
  }

  /** Characters that are not whitespace and follow whitespace (or the start, when `afterSpace`). */
  function WordStarts(s: string, afterSpace: bool): nat {
    if s == [] then 0
    else (if afterSpace && !IsSpace(s[0]) then 1 else 0) + WordStarts(s[1..], IsSpace(s[0]))
  }

  /** Position just past the `{` matched by `/^\s*\{/`, if that pattern matches `s`. */
  function LeadingBraceEnd(s: string): (r: Option<nat>)
    ensures r.Some? ==> 0 < r.value <= |s| && AllSpace(s[..r.value - 1]) && s[r.value - 1] == '{'
    ensures r.None? ==> forall k :: 0 <= k < |s| && AllSpace(s[..k]) ==> s[k] != '{'
  {
    var t := TrimStart(s);
    TrimStartStrips(s);
    if t != [] && t[0] == '{' then Some(|s| - |t| + 1)
    else
      None
  }

  /** Whitespace and a brace: the pattern matches up to and including the brace. */
  lemma {:induction false} LeadingBraceAfterSpaces(ws: string, x: string)
    requires AllSpace(ws)
    ensures LeadingBraceEnd(ws + ("{" + x)) == Some(|ws| + 1)
  {
    var y := "{" + x;
    assert y[0] == '{' && !IsSpace(y[0]);
    TrimStartAfterSpaces(ws, y);
    assert TrimStart(ws + y)[0] == '{';
  }

  /** `s.replace(/^\s*\{/, insert)` for a replacement text taken literally. */
  function ReplaceLeadingBrace(s: string, insert: string): (r: string)
  {
    match LeadingBraceEnd(s)
    case Some(e) => insert + s[e..]
    case None => s
  }
}
