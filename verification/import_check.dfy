/**
 * `containsForbiddenImport` in `scripts/doctor.mjs`: the pattern
 * `from\s+["']MOD["']|require\(\s*["']MOD["']\s*\)`, tested anywhere in a file's text.
 * The module names the doctor passes in hold no pattern metacharacters, so `MOD` stands
 * for itself.
 */
module ImportCheck {
  import opened Text

  predicate IsQuote(c: char) {
    c == '"' || c == '\''
  }

  /** `["']MOD["']` at the start of `t`; the two quotes need not agree. */
  predicate QuotedAtStart(t: string, mod: string) {
    |mod| + 2 <= |t| && IsQuote(t[0]) && t[1..|mod| + 1] == mod && IsQuote(t[|mod| + 1])
  }

  /**
   * The first alternative matches at the start of `s`. A quote is not whitespace, so the
   * whitespace run `\s+` can only end where the run of whitespace after `from` ends.
   */
  predicate FromAtStart(s: string, mod: string) {
    StartsWith(s, "from") &&
    var rest := s[4..];
    var t := TrimStart(rest);
    |t| < |rest| && QuotedAtStart(t, mod)
  }

  /** The second alternative matches at the start of `s`; `)` is not whitespace either. */
  predicate RequireAtStart(s: string, mod: string) {
    StartsWith(s, "require(") &&
    var t := TrimStart(s[8..]);
    QuotedAtStart(t, mod) &&
    var u := TrimStart(t[|mod| + 2..]);
    u != [] && u[0] == ')'
  }

  /** `pattern.test(raw)`: one of the alternatives matches at some position of `raw`. */
  function ContainsForbiddenImport(raw: string, mod: string): bool
    decreases |raw|
  {
    if FromAtStart(raw, mod) || RequireAtStart(raw, mod) then true
    else raw != [] && ContainsForbiddenImport(raw[1..], mod)
  }

  /** The texts the first alternative matches: `from`, whitespace, a quote, the name, a quote. */
  function FromText(ws: string, q1: char, mod: string, q2: char): string {
    "from" + ws + [q1] + mod + [q2]
  }

  /** The texts the second alternative matches. */
  function RequireText(ws1: string, q1: char, mod: string, q2: char, ws2: string): string {
    "require(" + ws1 + [q1] + mod + [q2] + ws2 + ")"
  }

  ghost predicate FromForm(u: string, mod: string) {
    exists ws, q1, q2 | ws != [] && AllSpace(ws) && IsQuote(q1) && IsQuote(q2) :: u == FromText(ws, q1, mod, q2)
  }

  ghost predicate RequireForm(u: string, mod: string) {
    exists ws1, q1, q2, ws2 | AllSpace(ws1) && IsQuote(q1) && IsQuote(q2) && AllSpace(ws2) ::
      u == RequireText(ws1, q1, mod, q2, ws2)
  }

  /** `q1 MOD q2` followed by anything: the quoted name at the start. */
  lemma {:induction false} QuotedPrefix(q1: char, mod: string, q2: char, x: string)
    requires IsQuote(q1) && IsQuote(q2)
    ensures QuotedAtStart([q1] + mod + [q2] + x, mod)
    ensures ([q1] + mod + [q2] + x)[|mod| + 2..] == x
  {
    var t := [q1] + mod + [q2] + x;
    assert t[1..|mod| + 1] == mod;
    assert t[|mod| + 1] == q2;
  }

  /** A quoted name at the start of `t` is `q1 MOD q2` followed by the rest. */
  lemma {:induction false} QuotedSplit(t: string, mod: string)
    requires QuotedAtStart(t, mod)
    ensures t == [t[0]] + mod + [t[|mod| + 1]] + t[|mod| + 2..]
  {
  }

  /** A match of the first alternative at the start of `s`, taken apart. */
  lemma {:induction false} FromDecompose(s: string, mod: string) returns (ws: string, q1: char, q2: char, z: string)
    requires FromAtStart(s, mod)
    ensures ws != [] && AllSpace(ws) && IsQuote(q1) && IsQuote(q2)
    ensures s == FromText(ws, q1, mod, q2) + z
  {
    var rest := s[4..];
    ws := SplitLeadingSpace(rest);
    q1, q2, z := QuotedThen(TrimStart(rest), mod);
    PrefixThen(s, 4);
    FromTextNested(ws, q1, mod, q2, z);
  }

  lemma {:induction false} FromAtStartHasForm(s: string, mod: string)
    requires FromAtStart(s, mod)
    ensures exists j | 0 <= j <= |s| :: FromForm(s[..j], mod)
  {
    var ws, q1, q2, z := FromDecompose(s, mod);
    var m := FromText(ws, q1, mod, q2);
    assert s[..|m|] == m;
    assert FromForm(s[..|m|], mod);
  }

  /** The `from` match text regrouped the way `FromAtStart` takes it apart. */
  lemma {:induction false} FromTextNested(ws: string, q1: char, mod: string, q2: char, z: string)
    ensures "from" + (ws + ([q1] + mod + [q2] + z)) == FromText(ws, q1, mod, q2) + z
  {
  }

  /** `from`, whitespace and the quoted name, followed by anything, is a match at the start. */
  lemma {:induction false} FromTextMatches(ws: string, q1: char, mod: string, q2: char, z: string)
    requires ws != [] && AllSpace(ws) && IsQuote(q1) && IsQuote(q2)
    ensures FromAtStart(FromText(ws, q1, mod, q2) + z, mod)
  {
    var x := [q1] + mod + [q2] + z;
    var s := "from" + (ws + x);
    FromTextNested(ws, q1, mod, q2, z);
    assert s[4..] == ws + x;
    TrimStartAfterSpaces(ws, x);
    QuotedPrefix(q1, mod, q2, z);
  }

  lemma {:induction false} FormGivesFromAtStart(s: string, mod: string, j: nat)
    requires j <= |s| && FromForm(s[..j], mod)
    ensures FromAtStart(s, mod)
  {
    var ws, q1, q2 :| ws != [] && AllSpace(ws) && IsQuote(q1) && IsQuote(q2) && s[..j] == FromText(ws, q1, mod, q2);
    PrefixThen(s, j);
    FromTextMatches(ws, q1, mod, q2, s[j..]);
  }

  /** The match text regrouped the way `RequireAtStart` takes it apart. */
  lemma {:induction false} RequireTextNested(ws1: string, q1: char, mod: string, q2: char, ws2: string, z: string)
    ensures "require(" + (ws1 + ([q1] + mod + [q2] + (ws2 + (")" + z)))) == RequireText(ws1, q1, mod, q2, ws2) + z
  {
  }

  /** A quoted name at the start of `t`, and what follows it. */
  lemma {:induction false} QuotedThen(t: string, mod: string) returns (q1: char, q2: char, after: string)
    requires QuotedAtStart(t, mod)
    ensures IsQuote(q1) && IsQuote(q2) && after == t[|mod| + 2..]
    ensures t == [q1] + mod + [q2] + after
  {
    QuotedSplit(t, mod);
    q1, q2, after := t[0], t[|mod| + 1], t[|mod| + 2..];
  }

  /** Optional whitespace and a `)` at the start of `after`. */
  lemma {:induction false} CloseThen(after: string) returns (ws: string, z: string)
    requires TrimStart(after) != [] && TrimStart(after)[0] == ')'
    ensures AllSpace(ws) && after == ws + (")" + z)
  {
    ws := SplitLeadingSpace(after);
    var u := TrimStart(after);
    z := u[1..];
    HeadTail(u);
  }

  /** A match of the second alternative at the start of `s`, taken apart. */
  lemma {:induction false} RequireDecompose(s: string, mod: string) returns (ws1: string, q1: char, q2: char, ws2: string, z: string)
    requires RequireAtStart(s, mod)
    ensures AllSpace(ws1) && IsQuote(q1) && IsQuote(q2) && AllSpace(ws2)
    ensures s == RequireText(ws1, q1, mod, q2, ws2) + z
  {
    var rest := s[8..];
    ws1 := SplitLeadingSpace(rest);
    var after;
    q1, q2, after := QuotedThen(TrimStart(rest), mod);
    ws2, z := CloseThen(after);
    PrefixThen(s, 8);
    assert s == "require(" + (ws1 + ([q1] + mod + [q2] + (ws2 + (")" + z))));
    RequireTextNested(ws1, q1, mod, q2, ws2, z);
  }

  lemma {:induction false} RequireAtStartHasForm(s: string, mod: string)
    requires RequireAtStart(s, mod)
    ensures exists j | 0 <= j <= |s| :: RequireForm(s[..j], mod)
  {
    var ws1, q1, q2, ws2, z := RequireDecompose(s, mod);
    var m := RequireText(ws1, q1, mod, q2, ws2);
    assert s[..|m|] == m;
    assert RequireForm(s[..|m|], mod);
  }

  /** The `require(...)` text, followed by anything, is a match at the start. */
  lemma {:induction false} RequireTextMatches(ws1: string, q1: char, mod: string, q2: char, ws2: string, z: string)
    requires AllSpace(ws1) && IsQuote(q1) && IsQuote(q2) && AllSpace(ws2)
    ensures RequireAtStart(RequireText(ws1, q1, mod, q2, ws2) + z, mod)
  {
    var y := ")" + z;
    var x := [q1] + mod + [q2] + (ws2 + y);
    var s := "require(" + (ws1 + x);
    RequireTextNested(ws1, q1, mod, q2, ws2, z);
    assert s[8..] == ws1 + x;
    TrimStartAfterSpaces(ws1, x);
    QuotedPrefix(q1, mod, q2, ws2 + y);
    TrimStartAfterSpaces(ws2, y);
  }

  lemma {:induction false} FormGivesRequireAtStart(s: string, mod: string, j: nat)
    requires j <= |s| && RequireForm(s[..j], mod)
    ensures RequireAtStart(s, mod)
  {
    var ws1, q1, q2, ws2 :| AllSpace(ws1) && IsQuote(q1) && IsQuote(q2) && AllSpace(ws2)
      && s[..j] == RequireText(ws1, q1, mod, q2, ws2);
    PrefixThen(s, j);
    RequireTextMatches(ws1, q1, mod, q2, ws2, s[j..]);
  }

  /** A match at the start of a suffix of `raw` is a match of the search. */
  lemma {:induction false} SearchFinds(raw: string, mod: string, k: nat)
    requires k <= |raw| && (FromAtStart(raw[k..], mod) || RequireAtStart(raw[k..], mod))
    ensures ContainsForbiddenImport(raw, mod)
    decreases k
  {
    if k > 0 && !(FromAtStart(raw, mod) || RequireAtStart(raw, mod)) {
      assert raw[1..][k - 1..] == raw[k..];
      SearchFinds(raw[1..], mod, k - 1);
    }
  }

  /** A successful search has found a match at the start of some suffix. */
  lemma {:induction false} SearchFound(raw: string, mod: string) returns (k: nat)
    requires ContainsForbiddenImport(raw, mod)
    ensures k <= |raw| && (FromAtStart(raw[k..], mod) || RequireAtStart(raw[k..], mod))
    decreases |raw|
  {
    if FromAtStart(raw, mod) || RequireAtStart(raw, mod) {
      k := 0;
    } else {
      var k' := SearchFound(raw[1..], mod);
      assert raw[1..][k'..] == raw[k' + 1..];
      k := k' + 1;
    }
  }

  /** A successful search has found one of the two forms in `raw`. */
  lemma {:induction false} SearchHasForm(raw: string, mod: string)
    requires ContainsForbiddenImport(raw, mod)
    ensures exists i, j | 0 <= i <= j <= |raw| :: FromForm(raw[i..j], mod) || RequireForm(raw[i..j], mod)
  {
    var k := SearchFound(raw, mod);
    var s := raw[k..];
    if FromAtStart(s, mod) {
      FromAtStartHasForm(s, mod);
      var j :| 0 <= j <= |s| && FromForm(s[..j], mod);
      SliceOfSuffix(raw, k, j);
      assert 0 <= k <= k + j <= |raw| && FromForm(raw[k..k + j], mod);
    } else {
      RequireAtStartHasForm(s, mod);
      var j :| 0 <= j <= |s| && RequireForm(s[..j], mod);
      SliceOfSuffix(raw, k, j);
      assert 0 <= k <= k + j <= |raw| && RequireForm(raw[k..k + j], mod);
    }
  }

  /** One of the two forms anywhere in `raw` makes the search succeed. */
  lemma {:induction false} FormFound(raw: string, mod: string, i: nat, j: nat)
    requires i <= j <= |raw| && (FromForm(raw[i..j], mod) || RequireForm(raw[i..j], mod))
    ensures ContainsForbiddenImport(raw, mod)
  {
    var s := raw[i..];
    assert s[..j - i] == raw[i..j];
    if FromForm(raw[i..j], mod) {
      FormGivesFromAtStart(s, mod, j - i);
    } else {
      FormGivesRequireAtStart(s, mod, j - i);
    }
    SearchFinds(raw, mod, i);
  }

  /**
   * `containsForbiddenImport(raw, mod)` holds iff some piece of `raw` is
   * `from` + whitespace + quote + `mod` + quote, or
   * `require(` + optional whitespace + quote + `mod` + quote + optional whitespace + `)`.
   */
  lemma {:induction false} ContainsForbiddenImportIff(raw: string, mod: string)
    ensures ContainsForbiddenImport(raw, mod)
        <==> exists i, j | 0 <= i <= j <= |raw| :: FromForm(raw[i..j], mod) || RequireForm(raw[i..j], mod)
  {
    if ContainsForbiddenImport(raw, mod) {
      SearchHasForm(raw, mod);
    }
    if exists i, j | 0 <= i <= j <= |raw| :: FromForm(raw[i..j], mod) || RequireForm(raw[i..j], mod) {
      var i, j :| 0 <= i <= j <= |raw| && (FromForm(raw[i..j], mod) || RequireForm(raw[i..j], mod));
      FormFound(raw, mod, i, j);
    }
  }

  /** What follows `n` leading characters and some whitespace holds the quoted name. */
  lemma {:induction false} QuotedAfter(s: string, mod: string, n: nat) returns (q1: char, q2: char)
    requires n <= |s| && QuotedAtStart(TrimStart(s[n..]), mod)
    ensures IsQuote(q1) && IsQuote(q2) && Contains(s, [q1] + mod + [q2])
  {
    var rest := s[n..];
    var ws := SplitLeadingSpace(rest);
    var t := TrimStart(rest);
    var after;
    q1, q2, after := QuotedThen(t, mod);
    var quoted := [q1] + mod + [q2];
    assert t[..|quoted|] == quoted;
    ContainsAtSuffix(t, 0, quoted);
    assert rest[|ws|..] == t;
    ContainsSuffix(rest, |ws|, quoted);
    ContainsSuffix(s, n, quoted);
  }

  /** Every match holds the name between two quotes, with nothing else between them. */
  lemma {:induction false} MatchQuotesName(raw: string, mod: string) returns (q1: char, q2: char)
    requires ContainsForbiddenImport(raw, mod)
    ensures IsQuote(q1) && IsQuote(q2) && Contains(raw, [q1] + mod + [q2])
  {
    var k := SearchFound(raw, mod);
    if FromAtStart(raw[k..], mod) {
      q1, q2 := QuotedAfter(raw[k..], mod, 4);
    } else {
      q1, q2 := QuotedAfter(raw[k..], mod, 8);
    }
    ContainsSuffix(raw, k, [q1] + mod + [q2]);
  }

  /** So a text that never holds the name between two quotes has no forbidden import of it. */
  lemma {:induction false} UnquotedNameNotMatched(raw: string, mod: string)
    requires forall q1, q2 | IsQuote(q1) && IsQuote(q2) :: !Contains(raw, [q1] + mod + [q2])
    ensures !ContainsForbiddenImport(raw, mod)
  {
    if ContainsForbiddenImport(raw, mod) {
      var q1, q2 := MatchQuotesName(raw, mod);
      assert false;
    }
  }

  /** A name that merely starts with `fs`, such as `fsx`, is not the module `fs`. */
  lemma {:induction false} LongerNameNotMatched()
    ensures !ContainsForbiddenImport("\"fsx\"", "fs")
  {
    var raw := "\"fsx\"";
    forall q1, q2 | IsQuote(q1) && IsQuote(q2)
      ensures !Contains(raw, [q1] + "fs" + [q2])
    {
      var p := [q1] + "fs" + [q2];
      assert p[3] == q2 && p[0] == q1;
      assert !OccursAt(raw, p, 0) by { assert raw[3] == 'x'; }
      assert !OccursAt(raw, p, 1) by { assert raw[1] == 'f'; }
    }
    UnquotedNameNotMatched(raw, "fs");
  }

  /** The two forms as they appear in source files. */
  lemma {:induction false} FromImportMatched()
    ensures ContainsForbiddenImport("from 'fs'", "fs")
  {
    var a := "from 'fs'";
    assert AllSpace(" ");
    assert a == FromText(" ", '\'', "fs", '\'');
    assert a[0..9] == a;
    FormFound(a, "fs", 0, 9);
  }
}
