/**
 * `scripts/create-worker.mjs`: scaffolds an HTTP-only Cloudflare Worker under
 * `apps/api/<name>`, then patches `tsconfig.json` (shared with the cron script),
 * strips cron `triggers` blocks from `wrangler.jsonc` and marks it, and writes the
 * `fetch()` entrypoint.
 */
module ApiWorker {
  import opened Wrappers
  import opened Text
  import opened Patching

  const TriggersKey: string := "\"triggers\""

  /** The text `/^\s*\{/` is replaced by: the opening brace followed by the marker entry. */
  const MarkerLine: string := "{\n  " + QuotedMarker + ","

  // The pattern `/,\s*"triggers"\s*:\s*\{[\s\S]*?\}\s*/`, read after its comma, as the
  // phases of a left-to-right scan. Each `\s*` is greedy; `[\s\S]*?` is lazy, and since the
  // rest of the pattern after `\}` always matches, the lazy run ends at the FIRST `}`.
  datatype Phase =
    | SpacesBeforeKey      // `\s*` after the comma
    | Key(k: nat)          // `"triggers"`, of which `k` characters are matched
    | SpacesBeforeColon    // `\s*:`
    | SpacesBeforeBrace    // `\s*\{`
    | Body                 // `[\s\S]*?\}`
    | SpacesAfter          // the final `\s*`

  /** Phases that move on without consuming input rank higher than the phase they move to. */
  function Rank(p: Phase): nat {
    match p
    case SpacesBeforeKey => 2
    case Key(_) => 1
    case _ => 0
  }

  function Plus(n: nat, o: Option<nat>): Option<nat> {
    match o
    case None => None
    case Some(m) => Some(n + m)
  }

  lemma {:induction false} PlusPlus(a: nat, b: nat, o: Option<nat>)
    ensures Plus(a, Plus(b, o)) == Plus(a + b, o)
  {
  }

  /** Number of characters of `s` the rest of the pattern, from phase `p` on, matches at its start. */
  function Scan(s: string, p: Phase): (r: Option<nat>)
    ensures r.Some? ==> r.value <= |s|
    decreases |s|, Rank(p)
  {
    match p
    case SpacesBeforeKey =>
      if s != [] && IsSpace(s[0]) then Plus(1, Scan(s[1..], p)) else Scan(s, Key(0))
    case Key(k) =>
      if k >= |TriggersKey| then Scan(s, SpacesBeforeColon)
      else if s != [] && s[0] == TriggersKey[k] then Plus(1, Scan(s[1..], Key(k + 1)))
      else None
    case SpacesBeforeColon =>
      if s != [] && IsSpace(s[0]) then Plus(1, Scan(s[1..], p))
      else if s != [] && s[0] == ':' then Plus(1, Scan(s[1..], SpacesBeforeBrace))
      else None
    case SpacesBeforeBrace =>
      if s != [] && IsSpace(s[0]) then Plus(1, Scan(s[1..], p))
      else if s != [] && s[0] == '{' then Plus(1, Scan(s[1..], Body))
      else None
    case Body =>
      if s == [] then None
      else if s[0] == '}' then Plus(1, Scan(s[1..], SpacesAfter))
      else Plus(1, Scan(s[1..], Body))
    case SpacesAfter =>
      if s != [] && IsSpace(s[0]) then Plus(1, Scan(s[1..], p)) else Some(0)
  }

  /** Length of the match of the whole pattern at the start of `t`, if it matches there. */
  function TriggersMatch(t: string): (r: Option<nat>)
    ensures r.Some? ==> 0 < r.value <= |t| && t[0] == ','
  {
    if t != [] && t[0] == ',' then Plus(1, Scan(t[1..], SpacesBeforeKey)) else None
  }

  /** In the key phase, a match starts with the next character of the key. */
  lemma {:induction false} KeyStep(s: string, k: nat)
    requires k < |TriggersKey| && Scan(s, Key(k)).Some?
    ensures s != [] && s[0] == TriggersKey[k] && Scan(s[1..], Key(k + 1)).Some?
  {
  }

  /** A match in the key phase has the rest of the key in front of it. */
  lemma {:induction false} KeyScanned(s: string, k: nat)
    requires k <= |TriggersKey| && Scan(s, Key(k)).Some?
    ensures StartsWith(s, TriggersKey[k..])
    decreases |TriggersKey| - k
  {
    if k < |TriggersKey| {
      KeyStep(s, k);
      KeyScanned(s[1..], k + 1);
      StartsWithCons(s, TriggersKey[k], TriggersKey[k + 1..]);
      SuffixCons(TriggersKey, k);
    }
  }

  /** Every match holds the `"triggers"` key. */
  lemma {:induction false} MatchHasKey(t: string)
    requires TriggersMatch(t).Some?
    ensures Contains(t, TriggersKey)
  {
    SpacesThenKey(t[1..]);
    ContainsSuffix(t, 1, TriggersKey);
  }

  lemma {:induction false} SpacesThenKey(s: string)
    requires Scan(s, SpacesBeforeKey).Some?
    ensures Contains(s, TriggersKey)
    decreases |s|
  {
    if s != [] && IsSpace(s[0]) {
      SpacesThenKey(s[1..]);
      ContainsSuffix(s, 1, TriggersKey);
    } else {
      KeyScanned(s, 0);
      assert TriggersKey[0..] == TriggersKey;
      ContainsAtSuffix(s, 0, TriggersKey);
    }
  }

  /** A whitespace phase takes all the whitespace in front of it. */
  lemma {:induction false} ScanSpaces(ws: string, x: string, p: Phase)
    requires p == SpacesBeforeKey || p == SpacesBeforeColon || p == SpacesBeforeBrace || p == SpacesAfter
    requires AllSpace(ws)
    ensures Scan(ws + x, p) == Plus(|ws|, Scan(x, p))
    decreases |ws|
  {
    if ws == [] {
      assert ws + x == x;
      assert Plus(0, Scan(x, p)) == Scan(x, p);
    } else {
      assert (ws + x)[0] == ws[0];
      assert (ws + x)[1..] == ws[1..] + x;
      ScanSpaces(ws[1..], x, p);
    }
  }

  /** The key phase takes the rest of the key. */
  lemma {:induction false} ScanKey(k: nat, x: string)
    requires k <= |TriggersKey|
    ensures Scan(TriggersKey[k..] + x, Key(k)) == Plus(|TriggersKey| - k, Scan(x, SpacesBeforeColon))
    decreases |TriggersKey| - k
  {
    if k == |TriggersKey| {
      assert TriggersKey[k..] + x == x;
    } else {
      var s := TriggersKey[k..] + x;
      assert s[0] == TriggersKey[k];
      assert s[1..] == TriggersKey[k + 1..] + x;
      assert Scan(s, Key(k)) == Plus(1, Scan(s[1..], Key(k + 1)));
      ScanKey(k + 1, x);
      PlusPlus(1, |TriggersKey| - k - 1, Scan(x, SpacesBeforeColon));
    }
  }

  /** The body phase runs to the first closing brace. */
  lemma {:induction false} ScanBody(body: string, x: string)
    requires '}' !in body
    ensures Scan(body + "}" + x, Body) == Plus(|body| + 1, Scan(x, SpacesAfter))
    decreases |body|
  {
    if body == [] {
      assert body + "}" + x == "}" + x;
      assert ("}" + x)[1..] == x;
    } else {
      var s := body + "}" + x;
      assert s[0] == body[0];
      assert s[1..] == body[1..] + "}" + x;
      ScanBody(body[1..], x);
    }
  }

  /** The layout of a triggers block, grouped the way the scan reads it. */
  lemma {:induction false} BlockShape(ws1: string, ws2: string, ws3: string, body: string, ws4: string, post: string)
    ensures "," + ws1 + TriggersKey + ws2 + ":" + ws3 + "{" + body + "}" + ws4 + post
         == "," + (ws1 + (TriggersKey + (ws2 + (":" + (ws3 + ("{" + (body + "}" + (ws4 + post))))))))
  {
  }

  /** The final `\s*` matches nothing in front of a character that is not whitespace. */
  lemma {:induction false} ScanAfterEnd(post: string)
    requires post == [] || !IsSpace(post[0])
    ensures Scan(post, SpacesAfter) == Some(0)
  {
  }

  lemma {:induction false} ScanBrace(inner: string)
    ensures Scan("{" + inner, SpacesBeforeBrace) == Plus(1, Scan(inner, Body))
  {
    assert ("{" + inner)[1..] == inner;
  }

  lemma {:induction false} ScanColon(rest: string)
    ensures Scan(":" + rest, SpacesBeforeColon) == Plus(1, Scan(rest, SpacesBeforeBrace))
  {
    assert (":" + rest)[1..] == rest;
  }

  /** From the whitespace before the colon on, a block in the expected layout is matched up to `post`. */
  lemma {:induction false} AfterKeyMatches(ws2: string, ws3: string, body: string, ws4: string, post: string)
    requires AllSpace(ws2) && AllSpace(ws3) && AllSpace(ws4)
    requires '}' !in body
    requires post == [] || !IsSpace(post[0])
    ensures Scan(ws2 + (":" + (ws3 + ("{" + (body + "}" + (ws4 + post))))), SpacesBeforeColon)
         == Some(|ws2| + 1 + |ws3| + 1 + |body| + 1 + |ws4|)
  {
    var after := ws4 + post;
    ScanAfterEnd(post);
    ScanSpaces(ws4, post, SpacesAfter);
    var inner := body + "}" + after;
    ScanBody(body, after);
    var brace := "{" + inner;
    ScanBrace(inner);
    ScanSpaces(ws3, brace, SpacesBeforeBrace);
    var colon := ":" + (ws3 + brace);
    ScanColon(ws3 + brace);
    ScanSpaces(ws2, colon, SpacesBeforeColon);
  }

  /** A triggers block in the layout the pattern expects is matched completely. */
  lemma {:induction false} BlockMatches(ws1: string, ws2: string, ws3: string, body: string, ws4: string, post: string)
    requires AllSpace(ws1) && AllSpace(ws2) && AllSpace(ws3) && AllSpace(ws4)
    requires '}' !in body
    requires post == [] || !IsSpace(post[0])
    ensures var block := "," + ws1 + TriggersKey + ws2 + ":" + ws3 + "{" + body + "}" + ws4;
      TriggersMatch(block + post) == Some(|block|)
  {
    var colon := ws2 + (":" + (ws3 + ("{" + (body + "}" + (ws4 + post)))));
    AfterKeyMatches(ws2, ws3, body, ws4, post);
    var key := TriggersKey + colon;
    assert Scan(key, Key(0)) == Plus(|TriggersKey|, Scan(colon, SpacesBeforeColon)) by {
      ScanKey(0, colon);
      assert TriggersKey[0..] == TriggersKey;
    }
    assert Scan(key, SpacesBeforeKey) == Scan(key, Key(0)) by {
      assert key[0] == TriggersKey[0];
    }
    ScanSpaces(ws1, key, SpacesBeforeKey);
    var t := "," + (ws1 + key);
    assert t[1..] == ws1 + key;
    BlockShape(ws1, ws2, ws3, body, ws4, post);
  }

  // `raw.replace(/,\s*"triggers"\s*:\s*\{[\s\S]*?\}\s*/g, "")`: scanning from the left,
  // each match is dropped and scanning resumes after it; other characters are kept.
  function RemoveTriggers(t: string): (r: string)
    ensures |r| <= |t|
    decreases |t|
  {
    if t == [] then []
    else
      match TriggersMatch(t)
      case Some(n) => RemoveTriggers(t[n..])
      case None => [t[0]] + RemoveTriggers(t[1..])
  }

  /** A text without the `"triggers"` key is left as it is. */
  lemma {:induction false} NoTriggersUnchanged(t: string)
    requires !Contains(t, TriggersKey)
    ensures RemoveTriggers(t) == t
    decreases |t|
  {
    if t != [] {
      if TriggersMatch(t).Some? {
        MatchHasKey(t);
      }
      if Contains(t[1..], TriggersKey) {
        ContainsSuffix(t, 1, TriggersKey);
      }
      NoTriggersUnchanged(t[1..]);
      assert t == [t[0]] + t[1..];
    }
  }

  /** A character other than a comma cannot start a match, so it is kept. */
  lemma {:induction false} KeptBeforeComma(q: string)
    requires q != [] && q[0] != ','
    ensures RemoveTriggers(q) == [q[0]] + RemoveTriggers(q[1..])
  {
    assert TriggersMatch(q).None?;
  }

  /** Text before the first comma is never part of a match. */
  lemma {:induction false} CommaFreePrefixKept(p: string, rest: string)
    requires ',' !in p
    ensures RemoveTriggers(p + rest) == p + RemoveTriggers(rest)
    decreases |p|
  {
    if p == [] {
      assert p + rest == rest;
    } else {
      var q := p + rest;
      assert q[0] == p[0];
      KeptBeforeComma(q);
      assert q[1..] == p[1..] + rest;
      CommaFreePrefixKept(p[1..], rest);
      var r := RemoveTriggers(rest);
      assert [p[0]] + (p[1..] + r) == p + r by {
        assert p == [p[0]] + p[1..];
      }
    }
  }

  /** A match of the whitespace phase is whitespace followed by the whole key. */
  lemma {:induction false} KeyAfterSpaces(s: string) returns (j: nat)
    requires Scan(s, SpacesBeforeKey).Some?
    ensures j <= |s| && AllSpace(s[..j]) && StartsWith(s[j..], TriggersKey)
    decreases |s|
  {
    if s != [] && IsSpace(s[0]) {
      var i := KeyAfterSpaces(s[1..]);
      j := i + 1;
      assert s[j..] == s[1..][i..];
      forall k | 0 <= k < j
        ensures IsSpace(s[..j][k])
      {
        if k > 0 {
          assert s[..j][k] == s[1..][..i][k - 1];
        }
      }
    } else {
      j := 0;
      KeyScanned(s, 0);
      assert TriggersKey[0..] == TriggersKey;
    }
  }

  /**
   * No match starts inside text without the key when a comma follows that text: the key
   * holds no comma, so it would have to lie inside the text.
   */
  lemma {:induction false} NoMatchBeforeComma(p: string, rest: string)
    requires p != [] && !Contains(p, TriggersKey)
    requires rest != [] && rest[0] == ','
    ensures TriggersMatch(p + rest).None?
  {
    var t := p + rest;
    if TriggersMatch(t).Some? {
      var s := t[1..];
      assert s == p[1..] + rest;
      var j := KeyAfterSpaces(s);
      var m := |p| - 1;
      var n := |TriggersKey|;
      assert s[m] == rest[0];
      KeyBeforeComma(s, j, m);
      assert s[j..j + n] == s[j..][..n];
      assert p[1..][j..j + n] == s[j..j + n];
      assert OccursAt(p[1..], TriggersKey, j);
      ContainsSuffix(p, 1, TriggersKey);
    }
  }

  /** The key and the whitespace before it hold no comma, so a later comma lies beyond the key. */
  lemma {:induction false} KeyBeforeComma(s: string, j: nat, m: nat)
    requires m < |s| && s[m] == ','
    requires j <= |s| && AllSpace(s[..j]) && StartsWith(s[j..], TriggersKey)
    ensures j + |TriggersKey| <= m
  {
    forall k | 0 <= k < j
      ensures s[k] != ','
    {
      assert s[..j][k] == s[k];
    }
    assert ',' !in TriggersKey;
    forall k | j <= k < j + |TriggersKey|
      ensures s[k] != ','
    {
      assert s[k] == s[j..][..|TriggersKey|][k - j];
      assert TriggersKey[k - j] in TriggersKey;
    }
  }

  /** Text without the key, followed by a comma, survives the removal. */
  lemma {:induction false} KeyFreePrefixKept(p: string, rest: string)
    requires !Contains(p, TriggersKey)
    requires rest != [] && rest[0] == ','
    ensures RemoveTriggers(p + rest) == p + RemoveTriggers(rest)
    decreases |p|
  {
    if p == [] {
      assert p + rest == rest;
    } else {
      var q := p + rest;
      NoMatchBeforeComma(p, rest);
      assert q[1..] == p[1..] + rest;
      if Contains(p[1..], TriggersKey) {
        ContainsSuffix(p, 1, TriggersKey);
      }
      KeyFreePrefixKept(p[1..], rest);
      var r := RemoveTriggers(rest);
      assert [p[0]] + (p[1..] + r) == p + r by {
        assert p == [p[0]] + p[1..];
      }
    }
  }

  /**
   * The first triggers block is dropped, together with the whitespace after it: whatever
   * keys come before it stay, and the removal goes on after it.
   */
  lemma {:induction false} BlockRemoved(pre: string, ws1: string, ws2: string, ws3: string, body: string, ws4: string, post: string)
    requires !Contains(pre, TriggersKey)
    requires AllSpace(ws1) && AllSpace(ws2) && AllSpace(ws3) && AllSpace(ws4)
    requires '}' !in body
    requires post == [] || !IsSpace(post[0])
    ensures var block := "," + ws1 + TriggersKey + ws2 + ":" + ws3 + "{" + body + "}" + ws4;
      RemoveTriggers(pre + block + post) == pre + RemoveTriggers(post)
  {
    var block := "," + ws1 + TriggersKey + ws2 + ":" + ws3 + "{" + body + "}" + ws4;
    BlockMatches(ws1, ws2, ws3, body, ws4, post);
    KeyFreePrefixKept(pre, block + post);
    assert pre + block + post == pre + (block + post);
    assert (block + post)[|block|..] == post;
  }

  /**
   * A `"triggers"` key that comes first in its object has no comma in front of it, so the
   * pattern never matches it: the block survives the removal.
   */
  lemma {:induction false} LeadingTriggersKept(t: string)
    requires ',' !in t
    ensures RemoveTriggers(t) == t
  {
    CommaFreePrefixKept(t, []);
    assert t + [] == t;
  }

  /** `raw.replace(/^\s*\{/, MarkerLine)`; the replacement holds no `$`, so it is inserted literally. */
  function InsertMarker(t: string): (r: string)
    ensures LeadingBraceEnd(t).Some? ==> r == MarkerLine + t[LeadingBraceEnd(t).value..] && Contains(r, QuotedMarker)
    ensures LeadingBraceEnd(t).None? ==> r == t
  {
    var r := ReplaceLeadingBrace(t, MarkerLine);
    if LeadingBraceEnd(t).Some? then
      assert OccursAt(QuotedMarker, QuotedMarker, 0);
      ContainsInfix("{\n  ", QuotedMarker, "," + t[LeadingBraceEnd(t).value..], QuotedMarker);
      assert r == "{\n  " + QuotedMarker + ("," + t[LeadingBraceEnd(t).value..]);
      r
    else r
  }

  /** The opening brace and the whitespace before it contain no comma. */
  lemma {:induction false} LeadingBraceCommaFree(t: string)
    requires LeadingBraceEnd(t).Some?
    ensures var e := LeadingBraceEnd(t).value;
      ',' !in t[..e] && t[..e] == t[..e - 1] + "{"
  {
    var e := LeadingBraceEnd(t).value;
    assert t[..e] == t[..e - 1] + "{";
    forall k | 0 <= k < e
      ensures t[..e][k] != ','
    {
      if k < e - 1 {
        assert t[..e - 1][k] == t[..e][k];
      }
    }
  }

  /** The opening brace and the whitespace before it contain no comma, so the removal keeps them. */
  lemma {:induction false} RemovalKeepsLeadingBrace(t: string)
    requires LeadingBraceEnd(t).Some?
    ensures var e := LeadingBraceEnd(t).value;
      RemoveTriggers(t) == t[..e] + RemoveTriggers(t[e..]) && LeadingBraceEnd(RemoveTriggers(t)) == Some(e)
  {
    var e := LeadingBraceEnd(t).value;
    LeadingBraceCommaFree(t);
    PrefixThen(t, e);
    CommaFreePrefixKept(t[..e], t[e..]);
    var rest := RemoveTriggers(t[e..]);
    Regroup(t[..e - 1], "{", rest);
    LeadingBraceAfterSpaces(t[..e - 1], rest);
  }

  /**
   * Lines 116-157 on the text of `wrangler.jsonc`: a missing file only warns; a file with
   * the marker is skipped; otherwise every triggers block the pattern matches is removed and
   * the marker entry put after the opening brace, and the result is written back — also
   * when there was no opening brace to put it after.
   */
  function WranglerPatch(raw: Option<string>): (r: Outcome<string>)
    ensures r == Warn <==> raw.None?
    ensures r == Unchanged <==> raw.Some? && Contains(raw.value, QuotedMarker)
    ensures r.Write? <==> raw.Some? && !Contains(raw.value, QuotedMarker)
    ensures r.Write? ==> r.content == InsertMarker(RemoveTriggers(raw.value))
    ensures r.Write? && LeadingBraceEnd(raw.value).Some? ==> Contains(r.content, QuotedMarker)
    ensures r.Write? && !Contains(raw.value, TriggersKey) && LeadingBraceEnd(raw.value).None? ==> r.content == raw.value
  {
    match raw
    case None => Warn
    case Some(text) =>
      if Contains(text, QuotedMarker) then Unchanged
      else if Contains(text, TriggersKey) then
        var cleaned := RemoveTriggers(text);
        if LeadingBraceEnd(text).Some? then
          RemovalKeepsLeadingBrace(text);
          Write(InsertMarker(cleaned))
        else
          Write(InsertMarker(cleaned))
      else
        NoTriggersUnchanged(text);
        Write(InsertMarker(text))
  }

  /** Once the marker went in, the next run skips the file. */
  lemma {:induction false} WranglerPatchSecondRunSkips(raw: Option<string>)
    requires raw.Some? && LeadingBraceEnd(raw.value).Some?
    ensures WranglerPatch(raw).Write? ==> WranglerPatch(Some(WranglerPatch(raw).content)) == Unchanged
  {
  }

  /** The product name the entrypoint carries; a later run recognises its own entrypoint by it. */
  const ApiTitle: string := "StudioVault API Worker"

  const EntryHead: string := "import { slugify } from \"@studiovault/utils\";\nimport type { ApiResponse } from \"@studiovault/types\";\n\nexport default {\n  async fetch(): Promise<Response> {\n    const value = slugify(\""
  const EntryTail: string := "\");\n\n    const body: ApiResponse<string> = {\n      success: true,\n      data: value\n    };\n\n    return Response.json(body);\n  }\n};\n"

  /** The `fetch()` entrypoint for worker `name` (lines 176-194). */
  function ApiEntry(name: string): string {
    EntryHead + ApiTitle + ": " + name + EntryTail
  }

  /** The entrypoint carries the product name, whatever the worker is called. */
  lemma {:induction false} ApiEntryHasTitle(name: string)
    ensures Contains(ApiEntry(name), ApiTitle)
  {
    assert OccursAt(ApiTitle, ApiTitle, 0);
    assert ApiEntry(name) == EntryHead + ApiTitle + (": " + name + EntryTail);
    ContainsInfix(EntryHead, ApiTitle, ": " + name + EntryTail, ApiTitle);
  }

  /** The wrangler.jsonc step (lines 116-157): the patch, applied when the file exists. */
  function WranglerStep(files: map<string, string>): (r: map<string, string>)
    ensures r.Keys == files.Keys
    ensures forall p :: p in files && p != WranglerPath ==> r[p] == files[p]
    ensures WranglerPath in files ==> var raw := files[WranglerPath];
      && (Contains(raw, QuotedMarker) ==> r[WranglerPath] == raw)
      && (!Contains(raw, QuotedMarker) ==> r[WranglerPath] == InsertMarker(RemoveTriggers(raw)))
  {
    ApplyOutcome(files, WranglerPath, WranglerPatch(Lookup(files, WranglerPath)))
  }

  /** A wrangler.jsonc that opens with a brace, or already carries the marker, carries it after the step. */
  lemma {:induction false} WranglerStepMarks(files: map<string, string>)
    requires WranglerPath in files
    requires LeadingBraceEnd(files[WranglerPath]).Some? || Contains(files[WranglerPath], QuotedMarker)
    ensures Contains(WranglerStep(files)[WranglerPath], QuotedMarker)
  {
    var raw := files[WranglerPath];
    if !Contains(raw, QuotedMarker) {
      RemovalKeepsLeadingBrace(raw);
    }
  }

  /** A directory whose wrangler.jsonc, if any, carries the marker is left alone by the step. */
  lemma {:induction false} WranglerStepSettled(files: map<string, string>)
    requires WranglerPath in files ==> Contains(files[WranglerPath], QuotedMarker)
    ensures WranglerStep(files) == files
  {
    assert WranglerPatch(Lookup(files, WranglerPath)) == Unchanged || WranglerPatch(Lookup(files, WranglerPath)) == Warn;
  }

  /**
   * Lines 90-194 once the name is accepted, with the entrypoint text as a parameter:
   * tsconfig.json is patched, wrangler.jsonc is patched when present, and the entrypoint
   * is written whether or not one existed (lines 166-174 only log).
   */
  function ApiFiles(entry: string, files: map<string, string>): (r: map<string, string>)
    ensures r.Keys == files.Keys + {TsconfigPath, EntryPath}
    ensures Contains(r[TsconfigPath], QuotedMarker)
    ensures r[EntryPath] == entry
    ensures forall p :: p in files && p !in {TsconfigPath, WranglerPath, EntryPath} ==> r[p] == files[p]
    ensures WranglerPath in files ==> var raw := files[WranglerPath];
      && (Contains(raw, QuotedMarker) ==> r[WranglerPath] == raw)
      && (!Contains(raw, QuotedMarker) ==> r[WranglerPath] == InsertMarker(RemoveTriggers(raw)))
  {
    var t := TsconfigStep(files);
    assert WranglerPath in files ==> t[WranglerPath] == files[WranglerPath];
    WranglerStep(t)[EntryPath := entry]
  }

  /** After a run, wrangler.jsonc carries the marker when it opened with a brace or already carried it. */
  lemma {:induction false} ApiFilesMarkWrangler(entry: string, files: map<string, string>)
    requires WranglerPath in files ==> LeadingBraceEnd(files[WranglerPath]).Some? || Contains(files[WranglerPath], QuotedMarker)
    ensures WranglerPath in ApiFiles(entry, files) ==> Contains(ApiFiles(entry, files)[WranglerPath], QuotedMarker)
  {
    var t := TsconfigStep(files);
    if WranglerPath in files {
      assert t[WranglerPath] == files[WranglerPath];
      WranglerStepMarks(t);
    }
  }

  /** A directory holding the marked files and this entrypoint is left alone by a run. */
  lemma {:induction false} ApiFilesSettled(entry: string, g: map<string, string>)
    requires TsconfigPath in g && Contains(g[TsconfigPath], QuotedMarker)
    requires WranglerPath in g ==> Contains(g[WranglerPath], QuotedMarker)
    requires EntryPath in g && g[EntryPath] == entry
    ensures ApiFiles(entry, g) == g
  {
    TsconfigStepSettled(g);
    WranglerStepSettled(g);
    assert g[EntryPath := entry] == g;
  }

  /** A second run leaves the directory as the first left it, when wrangler.jsonc is absent or opens with a brace. */
  lemma {:induction false} ApiFilesIdempotent(entry: string, files: map<string, string>)
    requires WranglerPath in files ==> LeadingBraceEnd(files[WranglerPath]).Some? || Contains(files[WranglerPath], QuotedMarker)
    ensures ApiFiles(entry, ApiFiles(entry, files)) == ApiFiles(entry, files)
  {
    ApiFilesMarkWrangler(entry, files);
    ApiFilesSettled(entry, ApiFiles(entry, files));
  }

  /** The whole script (lines 25-31 and 90-194): without a name nothing is touched and the exit code is 1. */
  function ApiGenerate(args: seq<string>, files: map<string, string>): (r: Run)
    ensures r.exit == 0 <==> NameArg(args).Some?
    ensures r.exit != 0 ==> r == Run(1, files)
  {
    match NameArg(args)
    case None => Run(1, files)
    case Some(name) => Run(0, ApiFiles(ApiEntry(name), files))
  }

  /** A successful run leaves an entrypoint a later run recognises as its own. */
  lemma {:induction false} ApiGenerateWritesEntry(args: seq<string>, files: map<string, string>)
    requires NameArg(args).Some?
    ensures var r := ApiGenerate(args, files);
      EntryPath in r.files && Contains(r.files[EntryPath], ApiTitle)
  {
    ApiEntryHasTitle(args[0]);
  }

  /** The script step by step: each `writeFileSync` is a write to the workspace. */
  method CreateApiWorker(ws: Workspace, args: seq<string>) returns (exit: int)
    modifies ws
    ensures Run(exit, ws.files) == ApiGenerate(args, old(ws.files))
  {
    var name := NameArg(args);
    if name.None? {
      return 1;
    }
    var tsconfig := TsconfigPatch(ws.Read(TsconfigPath));
    ws.Apply(TsconfigPath, tsconfig);
    var wrangler := WranglerPatch(ws.Read(WranglerPath));
    ws.Apply(WranglerPath, wrangler);
    ws.Write(EntryPath, ApiEntry(name.value));
    return 0;
  }
}
