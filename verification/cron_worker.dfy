/**
 * The cron worker generator (`create-cron-worker`): argument checks, the tsconfig.json
 * baseline, the wrangler.jsonc patch that inserts the marker and the cron trigger after
 * the opening brace (with its format-drift check), and the scheduled entrypoint.
 */
module CronWorker {
  import opened Wrappers
  import opened Text
  import opened Patching

  const CronFlag: string := "--cron"

  /** Why the script stops before creating anything. */
  datatype ArgError = MissingName | MissingCron | InvalidCron(expr: string)

  /** A worker name and a cron expression that passed the checks. */
  datatype Job = Job(name: string, cron: string)

  /** `args.indexOf(x)`: the first position holding `x`. */
  function IndexOf(args: seq<string>, x: string): (r: Option<nat>)
    ensures r.Some? ==> r.value < |args| && args[r.value] == x && x !in args[..r.value]
    ensures r.None? ==> x !in args
  {
    if args == [] then None
    else if args[0] == x then Some(0)
    else match IndexOf(args[1..], x)
      case Some(i) =>
        assert args[..i + 1] == [args[0]] + args[1..][..i];
        Some(i + 1)
      case None => None
  }

  /** The argument right after the first `--cron`, when there is one and it is not empty. */
  function CronArg(args: seq<string>): (r: Option<string>)
    ensures r.Some? <==> exists i | 0 <= i < |args| - 1 :: args[i] == CronFlag && CronFlag !in args[..i] && args[i + 1] != ""
    ensures r.Some? ==> exists i | 0 <= i < |args| - 1 :: args[i] == CronFlag && CronFlag !in args[..i] && args[i + 1] == r.value
  {
    match IndexOf(args, CronFlag)
    case None => None
    case Some(i) =>
      if i + 1 < |args| && args[i + 1] != "" then Some(args[i + 1]) else None
  }

  /** `cronExpr.trim().split(/\s+/).length !== 5` rejects the expression. */
  predicate ValidCron(expr: string) {
    |SplitSpaces(Trim(expr))| == 5
  }

  /** Leading whitespace does not change the word count, nor does it start a word. */
  lemma {:induction false} WordStartsAfterSpaces(sp: string, r: string, b: bool)
    requires AllSpace(sp)
    ensures WordStarts(sp + r, b) == WordStarts(r, if sp == [] then b else true)
  {
    if sp != [] {
      assert (sp + r)[0] == sp[0] && IsSpace(sp[0]);
      assert (sp + r)[1..] == sp[1..] + r;
      WordStartsAfterSpaces(sp[1..], r, true);
    } else {
      assert sp + r == r;
    }
  }

  /** A string of whitespace has no words. */
  lemma {:induction false} WordStartsOfSpaces(sp: string, b: bool)
    requires AllSpace(sp)
    ensures WordStarts(sp, b) == 0
  {
    if sp != [] {
      WordStartsOfSpaces(sp[1..], true);
    }
  }

  /** Trailing whitespace adds no words. */
  lemma {:induction false} WordStartsBeforeSpaces(r: string, sp: string, b: bool)
    requires AllSpace(sp)
    ensures WordStarts(r + sp, b) == WordStarts(r, b)
  {
    if r == [] {
      assert r + sp == sp;
      WordStartsOfSpaces(sp, b);
    } else {
      assert (r + sp)[1..] == r[1..] + sp;
      WordStartsBeforeSpaces(r[1..], sp, IsSpace(r[0]));
    }
  }

  /** A non-empty run of non-whitespace characters is exactly one word. */
  lemma {:induction false} WordStartsOfWord(w: string, r: string, b: bool)
    requires w != [] && NoSpace(w)
    ensures WordStarts(w + r, b) == (if b then 1 else 0) + WordStarts(r, false)
  {
    assert (w + r)[1..] == w[1..] + r;
    if |w| > 1 {
      WordStartsOfWord(w[1..], r, false);
    }
  }

  /** Trimming does not change the word count. */
  lemma {:induction false} WordCountOfTrim(e: string)
    ensures WordCount(Trim(e)) == WordCount(e)
  {
    var lead := SplitLeadingSpace(e);
    var trail := SplitTrailingSpace(TrimStart(e));
    WordStartsAfterSpaces(lead, TrimStart(e), true);
    WordStartsBeforeSpaces(Trim(e), trail, true);
  }

  /** A text that starts with whitespace and ends without it keeps a non-empty rest after trimming its start. */
  lemma {:induction false} TrimStartOfGap(rest: string) returns (sp: string)
    requires rest != [] && IsSpace(rest[0]) && !IsSpace(rest[|rest| - 1])
    ensures sp != [] && AllSpace(sp) && rest == sp + TrimStart(rest)
    ensures TrimStart(rest) != [] && !IsSpace(TrimStart(rest)[|TrimStart(rest)| - 1])
  {
    sp := SplitLeadingSpace(rest);
    var u := TrimStart(rest);
    assert u == rest[|rest| - |u|..];
    assert u[|u| - 1] == rest[|rest| - 1];
  }

  /** The text after the first word of a trimmed string: it starts with whitespace and ends without it. */
  lemma {:induction false} RestAfterWord(t: string)
    requires t != [] && !IsSpace(t[|t| - 1]) && |Word(t)| < |t|
    ensures var rest := t[|Word(t)|..];
      rest != [] && IsSpace(rest[0]) && !IsSpace(rest[|rest| - 1])
  {
    var rest := t[|Word(t)|..];
    assert rest[|rest| - 1] == t[|t| - 1];
    assert rest[0] == t[|Word(t)|];
  }

  /**
   * A trimmed string that holds more than its first word continues, after the whitespace
   * that ends that word, with a trimmed string holding one word fewer.
   */
  lemma {:induction false} AfterFirstWord(t: string)
    requires t != [] && !IsSpace(t[0]) && !IsSpace(t[|t| - 1]) && |Word(t)| < |t|
    ensures var u := TrimStart(t[|Word(t)|..]);
      && u != [] && !IsSpace(u[0]) && !IsSpace(u[|u| - 1])
      && WordStarts(t, true) == 1 + WordStarts(u, true)
  {
    var rest := t[|Word(t)|..];
    RestAfterWord(t);
    var sp := TrimStartOfGap(rest);
    WordSplit(t);
    WordStartsOfWord(Word(t), rest, true);
    WordStartsAfterSpaces(sp, TrimStart(rest), false);
  }

  /** One step of the split on a text that starts with a word: the word, then the split of the rest. */
  lemma {:induction false} SplitStep(t: string)
    requires t != [] && !IsSpace(t[0])
    ensures |Word(t)| == |t| ==> |SplitSpaces(t)| == 1
    ensures |Word(t)| < |t| ==> |SplitSpaces(t)| == 1 + |SplitSpaces(TrimStart(t[|Word(t)|..]))|
  {
  }

  /** A single word counts once. */
  lemma {:induction false} WordCountOfWord(t: string)
    requires t != [] && |Word(t)| == |t|
    ensures WordStarts(t, true) == 1
  {
    WordSplit(t);
    assert t[|Word(t)|..] == [];
    WordStartsOfWord(Word(t), [], true);
  }

  /** On a trimmed string, `split(/\s+/)` yields one piece per word, or one empty piece. */
  lemma {:induction false} SplitCountsWords(t: string)
    requires t != [] ==> !IsSpace(t[0]) && !IsSpace(t[|t| - 1])
    ensures |SplitSpaces(t)| == if WordCount(t) == 0 then 1 else WordCount(t)
    decreases |t|
  {
    if t != [] {
      SplitStep(t);
      if |Word(t)| == |t| {
        WordCountOfWord(t);
      } else {
        AfterFirstWord(t);
        SplitCountsWords(TrimStart(t[|Word(t)|..]));
      }
    }
  }

  /** A cron expression passes the check exactly when it has five whitespace-separated words. */
  lemma {:induction false} ValidCronIffFiveWords(expr: string)
    ensures ValidCron(expr) <==> WordCount(expr) == 5
  {
    var t := Trim(expr);
    SplitCountsWords(t);
    WordCountOfTrim(expr);
  }

  /**
   * Lines 26-52: the worker name is `args[0]`, the cron expression the argument after the
   * first `--cron`; either one missing or empty, or a cron expression without exactly five
   * fields, stops the script.
   */
  function ParseArgs(args: seq<string>): (r: Result<Job, ArgError>)
    ensures (|args| == 0 || args[0] == "") <==> r == Failure(MissingName)
    ensures r == Failure(MissingCron) <==> NameArg(args).Some? && CronArg(args).None?
    ensures r.Failure? && r.error.InvalidCron?
        <==> NameArg(args).Some? && CronArg(args).Some? && WordCount(CronArg(args).value) != 5
    ensures r.Failure? && r.error.InvalidCron? ==> r.error.expr == CronArg(args).value
    ensures r.Success? <==> NameArg(args).Some? && CronArg(args).Some? && WordCount(CronArg(args).value) == 5
    ensures r.Success? ==> r.value == Job(args[0], CronArg(args).value)
  {
    match NameArg(args)
    case None => Failure(MissingName)
    case Some(name) =>
      match CronArg(args)
      case None => Failure(MissingCron)
      case Some(cron) =>
        ValidCronIffFiveWords(cron);
        if !ValidCron(cron) then Failure(InvalidCron(cron)) else Success(Job(name, cron))
  }

  /** The text that replaces the leading `{` of wrangler.jsonc, before and after the cron expression. */
  const InsertionHead: string := "{\n  " + QuotedMarker + ",\n  \"triggers\": {\n    " + CronsKey
  const CronsKey: string := "\"crons\": [\""
  const InsertionTail: string := "\"]\n  },"

  /** `{`, the marker field and a `triggers` field holding the one cron expression. */
  function Insertion(cron: string): string {
    InsertionHead + cron + InsertionTail
  }

  /** The insertion carries the marker, whatever follows it. */
  lemma {:induction false} InsertionHasMarker(cron: string, rest: string)
    ensures Contains(Insertion(cron) + rest, Marker)
  {
    QuotedMarkerHasMarker();
    ContainsInfix("{\n  ", QuotedMarker, ",\n  \"triggers\": {\n    " + CronsKey, Marker);
    assert InsertionHead == "{\n  " + QuotedMarker + (",\n  \"triggers\": {\n    " + CronsKey);
    assert Insertion(cron) + rest == InsertionHead + (cron + InsertionTail + rest);
    ContainsPrefix(Insertion(cron) + rest, |InsertionHead|, Marker);
  }

  /**
   * Lines 135-164 with the cron expression inserted literally: a missing file is fatal; a
   * file mentioning the marker is left alone; otherwise the whitespace and `{` at the start
   * are replaced by the insertion, and when no such `{` exists nothing is written.
   */
  function WranglerPatch(raw: Option<string>, cron: string): (r: Outcome<string>)
    ensures raw.None? <==> r == Fatal
    ensures raw.Some? && Contains(raw.value, Marker) <==> r == Unchanged
    ensures r == Warn <==> raw.Some? && !Contains(raw.value, Marker) && LeadingBraceEnd(raw.value).None?
    ensures r.Write? ==> LeadingBraceEnd(raw.value).Some? && Contains(r.content, Marker)
    ensures r.Write? ==> r.content == Insertion(cron) + raw.value[LeadingBraceEnd(raw.value).value..]
  {
    match raw
    case None => Fatal
    case Some(text) =>
      if Contains(text, Marker) then Unchanged
      else
        var patched := ReplaceLeadingBrace(text, Insertion(cron));
        if LeadingBraceEnd(text).Some? then
          InsertionHasMarker(cron, text[LeadingBraceEnd(text).value..]);
          assert patched != text;
          Write(patched)
        else
          Warn
  }

  /** After the wrangler patch has written the file, running it again leaves the file alone. */
  lemma {:induction false} WranglerPatchSecondRunSkips(raw: Option<string>, cron: string)
    requires WranglerPatch(raw, cron).Write?
    ensures WranglerPatch(Some(WranglerPatch(raw, cron).content), cron) == Unchanged
  {
  }

  /**
   * The replacement-string expansion of `String.prototype.replace` for a pattern without
   * capture groups: `$$`, `$&`, `` $` `` and `$'` stand for a dollar sign, the matched
   * text, the text before the match and the text after it; any other `$` is literal.
   */
  function Substitute(rep: string, matched: string, before: string, after: string): string {
    if rep == [] then []
    else if rep[0] == '$' && |rep| >= 2 && rep[1] == '$' then "$" + Substitute(rep[2..], matched, before, after)
    else if rep[0] == '$' && |rep| >= 2 && rep[1] == '&' then matched + Substitute(rep[2..], matched, before, after)
    else if rep[0] == '$' && |rep| >= 2 && rep[1] == '`' then before + Substitute(rep[2..], matched, before, after)
    else if rep[0] == '$' && |rep| >= 2 && rep[1] == '\'' then after + Substitute(rep[2..], matched, before, after)
    else [rep[0]] + Substitute(rep[1..], matched, before, after)
  }

  /** A leading piece without `$` passes through the expansion unchanged. */
  lemma {:induction false} SubstituteLiteralHead(p: string, q: string, matched: string, before: string, after: string)
    requires '$' !in p
    ensures Substitute(p + q, matched, before, after) == p + Substitute(q, matched, before, after)
  {
    if p != [] {
      assert p[0] != '$' && p[0] in p;
      assert (p + q)[0] == p[0] && (p + q)[1..] == p[1..] + q;
      SubstituteLiteralHead(p[1..], q, matched, before, after);
      assert p == [p[0]] + p[1..];
    } else {
      assert p + q == q;
    }
  }

  /** `s.replace(/^\s*\{/, rep)` as JavaScript performs it, with `rep` expanded. */
  function ReplaceLeadingBraceAsWritten(s: string, rep: string): string {
    match LeadingBraceEnd(s)
    case Some(e) => Substitute(rep, s[..e], "", s[e..]) + s[e..]
    case None => s
  }

  /** Lines 135-164 exactly as written: the cron expression is part of the replacement string. */
  function WranglerPatchAsWritten(raw: Option<string>, cron: string): Outcome<string> {
    match raw
    case None => Fatal
    case Some(text) =>
      if Contains(text, Marker) then Unchanged
      else
        var patched := ReplaceLeadingBraceAsWritten(text, Insertion(cron));
        if patched == text then Warn else Write(patched)
  }

  /** A replacement text without `$` is inserted as it is. */
  lemma {:induction false} SubstituteLiteral(p: string, matched: string, before: string, after: string)
    requires '$' !in p
    ensures Substitute(p, matched, before, after) == p
  {
    SubstituteLiteralHead(p, [], matched, before, after);
    assert p + [] == p;
  }

  /** The insertion holds a `$` only where the cron expression does. */
  lemma {:induction false} InsertionWithoutDollar(cron: string)
    requires '$' !in cron
    ensures '$' !in Insertion(cron)
  {
    InsertionPiecesHaveNoDollar();
  }

  /** For every cron expression without `$`, the script as written and the literal insertion agree. */
  lemma {:induction false} AsWrittenAgreesWithoutDollar(raw: Option<string>, cron: string)
    requires '$' !in cron
    ensures WranglerPatchAsWritten(raw, cron) == WranglerPatch(raw, cron)
  {
    if raw.Some? && LeadingBraceEnd(raw.value).Some? {
      var e := LeadingBraceEnd(raw.value).value;
      InsertionWithoutDollar(cron);
      SubstituteLiteral(Insertion(cron), raw.value[..e], "", raw.value[e..]);
    }
  }

  /** A space followed by a word adds one word. */
  lemma {:induction false} SpaceThenWord(w: string, r: string)
    requires w != [] && NoSpace(w)
    ensures WordStarts(" " + w + r, false) == 1 + WordStarts(r, false)
  {
    assert " " + w + r == " " + (w + r);
    WordStartsAfterSpaces(" ", w + r, false);
    WordStartsOfWord(w, r, true);
  }

  /** Five words joined by single spaces make a five-field cron expression. */
  lemma {:induction false} FiveFields(a: string, b: string, c: string, d: string, e: string)
    requires a != [] && NoSpace(a) && b != [] && NoSpace(b) && c != [] && NoSpace(c)
    requires d != [] && NoSpace(d) && e != [] && NoSpace(e)
    ensures WordCount(a + " " + b + " " + c + " " + d + " " + e) == 5
  {
    var re := " " + e;
    var rd := " " + d + re;
    var rc := " " + c + rd;
    var rb := " " + b + rc;
    assert WordStarts([], false) == 0;
    SpaceThenWord(e, []);
    assert " " + e + [] == re;
    SpaceThenWord(d, re);
    SpaceThenWord(c, rd);
    SpaceThenWord(b, rc);
    WordStartsOfWord(a, rb, true);
    assert a + rb == a + " " + b + " " + c + " " + d + " " + e;
  }

  /** The cron expression `$' * * * *` has five fields, so the argument check accepts it. */
  lemma {:induction false} DollarQuoteAccepted()
    ensures ParseArgs(["cleanup", CronFlag, "$' * * * *"]) == Success(Job("cleanup", "$' * * * *"))
  {
    var args := ["cleanup", CronFlag, "$' * * * *"];
    assert IndexOf(args, CronFlag) == Some(1);
    assert CronArg(args) == Some("$' * * * *");
    FiveFields("$'", "*", "*", "*", "*");
    assert "$' * * * *" == "$'" + " " + "*" + " " + "*" + " " + "*" + " " + "*";
  }

  /** Neither fixed piece of the insertion contains `$`. */
  lemma {:induction false} InsertionPiecesHaveNoDollar()
    ensures '$' !in InsertionHead && '$' !in InsertionTail
  {
    assert '$' !in MarkerKey && '$' !in Marker && '$' !in "\"";
    assert '$' !in QuotedMarker;
    assert '$' !in "{\n  " && '$' !in ",\n  \"triggers\": {\n    " && '$' !in CronsKey;
  }

  /** The file `{}` starts with its brace and does not mention the marker. */
  lemma {:induction false} EmptyObjectUnpatched()
    ensures LeadingBraceEnd("{}") == Some(1) && !Contains("{}", Marker)
  {
    assert TrimStart("{}") == "{}";
    assert |Marker| > 2;
  }

  /** `$'` stands for the text after the match. */
  lemma {:induction false} SubstituteDollarQuote(q: string, matched: string, before: string, after: string)
    ensures Substitute("$'" + q, matched, before, after) == after + Substitute(q, matched, before, after)
  {
    var p := "$'" + q;
    assert p[0] == '$' && p[1] == '\'' && p[2..] == q;
  }

  /** The expression without its leading `$'`. */
  lemma {:induction false} DollarQuoteSplit()
    ensures "$' * * * *" == "$'" + " * * * *"
  {
  }

  /** What follows `$'` in the insertion holds no `$`. */
  lemma {:induction false} TailWithoutDollar()
    ensures '$' !in " * * * *" + InsertionTail
  {
    InsertionPiecesHaveNoDollar();
  }

  /** Expanding the insertion for `$' * * * *` puts the text after the match where `$'` stood. */
  lemma {:induction false} DollarQuoteExpansion(after: string)
    ensures Substitute(Insertion("$' * * * *"), "{", "", after)
         == InsertionHead + (after + (" * * * *" + InsertionTail))
  {
    var tail := " * * * *" + InsertionTail;
    TailWithoutDollar();
    DollarQuoteSplit();
    Regroup(InsertionHead, "$' * * * *", InsertionTail);
    Regroup("$'", " * * * *", InsertionTail);
    SubstituteLiteralHead(InsertionHead, "$'" + tail, "{", "", after);
    SubstituteDollarQuote(tail, "{", "", after);
    SubstituteLiteral(tail, "{", "", after);
  }

  /**
   * On that expression the script as written puts the rest of the file (`}`), not `$'`,
   * into the `crons` array.
   */
  lemma {:induction false} DollarQuoteCounterexample()
    ensures WranglerPatchAsWritten(Some("{}"), "$' * * * *")
         == Write(InsertionHead + ("}" + (" * * * *" + InsertionTail)) + "}")
  {
    EmptyObjectUnpatched();
    DollarQuoteExpansion("}");
    assert "{}"[..1] == "{" && "{}"[1..] == "}";
  }

  /** The literal insertion keeps the expression as given. */
  lemma {:induction false} DollarQuoteCorrected()
    ensures WranglerPatch(Some("{}"), "$' * * * *")
         == Write(InsertionHead + "$' * * * *" + InsertionTail + "}")
  {
    EmptyObjectUnpatched();
    assert "{}"[1..] == "}";
  }

  /** The written file holds the `crons` array with exactly the one expression. */
  lemma {:induction false} InsertionHasCrons(cron: string, rest: string)
    ensures Contains(Insertion(cron) + rest, CronsKey + cron + "\"]")
  {
    var entry := CronsKey + cron + "\"]";
    var head := "{\n  " + QuotedMarker + ",\n  \"triggers\": {\n    ";
    assert OccursAt(entry, entry, 0);
    assert Insertion(cron) + rest == head + entry + ("\n  }," + rest);
    ContainsInfix(head, entry, "\n  }," + rest, entry);
  }

  /** The scheduled entrypoint, with the schedule in its doc comment and the slugified name. */
  const EntryHead: string := "import { slugify } from \"@studiovault/utils\";\n\nexport default {\n  /**\n   * StudioVault Cron Worker\n   * Schedule: "
  const EntryMiddle: string := "\n   */\n  " + ScheduledHandler + "\n    const name = slugify(\""
  const EntryTail: string := "\");\n    console.log(\"\U{23F1}\U{FE0F} Cron tick from:\", name);\n\n    // TODO: Implement scheduled job here\n  }\n};\n"

  function CronEntry(name: string, cron: string): string {
    EntryHead + cron + EntryMiddle + name + EntryTail
  }

  const ScheduledHandler: string := "async scheduled(): Promise<void> {"

  /** The entrypoint exports a `scheduled` handler. */
  lemma {:induction false} CronEntryIsScheduled(name: string, cron: string)
    ensures Contains(CronEntry(name, cron), ScheduledHandler)
  {
    assert OccursAt(ScheduledHandler, ScheduledHandler, 0);
    var before := "import { slugify } from \"@studiovault/utils\";\n\nexport default {\n  /**\n   * StudioVault Cron Worker\n   * Schedule: "
      + cron + "\n   */\n  ";
    var after := "\n    const name = slugify(\"" + name
      + "\");\n    console.log(\"\U{23F1}\U{FE0F} Cron tick from:\", name);\n\n    // TODO: Implement scheduled job here\n  }\n};\n";
    assert CronEntry(name, cron) == before + ScheduledHandler + after;
    ContainsInfix(before, ScheduledHandler, after, ScheduledHandler);
  }

  /**
   * Lines 135-164 on the directory: a missing wrangler.jsonc stops the script (exit code 1),
   * any other outcome lets it go on; only wrangler.jsonc can change, and only by gaining
   * the marker.
   */
  function WranglerStep(cron: string, files: map<string, string>): (r: Run)
    ensures r.exit == 0 <==> WranglerPath in files
    ensures r.exit != 0 ==> r == Run(1, files)
    ensures r.exit == 0 ==> r.files.Keys == files.Keys
    ensures r.exit == 0 ==> forall p :: p in files && p != WranglerPath ==> r.files[p] == files[p]
    ensures r.exit == 0 ==> var raw := files[WranglerPath];
      r.files[WranglerPath] == raw || (!Contains(raw, Marker) && Contains(r.files[WranglerPath], Marker))
  {
    var w := WranglerPatch(Lookup(files, WranglerPath), cron);
    if w == Fatal then Run(1, files) else Run(0, ApplyOutcome(files, WranglerPath, w))
  }

  /** A second wrangler.jsonc step on its own result changes nothing. */
  lemma {:induction false} WranglerStepIdempotent(cron: string, files: map<string, string>)
    ensures var r := WranglerStep(cron, files);
      WranglerStep(cron, r.files) == r
  {
    var w := WranglerPatch(Lookup(files, WranglerPath), cron);
    if w.Write? {
      WranglerPatchSecondRunSkips(Lookup(files, WranglerPath), cron);
    }
  }

  /**
   * Lines 97-190 once the arguments are accepted, with the entrypoint text as a parameter:
   * tsconfig.json is patched, then a missing wrangler.jsonc stops the script with the
   * tsconfig already written, and otherwise wrangler.jsonc is patched and the entrypoint
   * written.
   */
  function JobRun(cron: string, entry: string, files: map<string, string>): (r: Run)
    ensures r.exit == 0 <==> WranglerPath in files
    ensures r.exit != 0 ==> r.exit == 1 && r.files == TsconfigStep(files)
    ensures TsconfigPath in r.files && Contains(r.files[TsconfigPath], QuotedMarker)
    ensures r.exit == 0 ==> EntryPath in r.files && r.files[EntryPath] == entry
  {
    var r := WranglerStep(cron, TsconfigStep(files));
    if r.exit != 0 then r else Run(0, r.files[EntryPath := entry])
  }

  /** The whole script (lines 26-52 and 97-190): rejected arguments leave the directory untouched. */
  function CronGenerate(args: seq<string>, files: map<string, string>): (r: Run)
    ensures ParseArgs(args).Failure? ==> r == Run(1, files)
    ensures r.exit == 0 <==> ParseArgs(args).Success? && WranglerPath in files
    ensures r.exit != 0 ==> r.exit == 1
    ensures ParseArgs(args).Success? ==> TsconfigPath in r.files && Contains(r.files[TsconfigPath], QuotedMarker)
  {
    match ParseArgs(args)
    case Failure(_) => Run(1, files)
    case Success(job) => JobRun(job.cron, CronEntry(job.name, job.cron), files)
  }

  /** The wrangler.jsonc step of lines 135-164 exactly as written, with `$` patterns expanded. */
  function WranglerStepAsWritten(cron: string, files: map<string, string>): (r: Run)
    ensures r.exit == 0 <==> WranglerPath in files
    ensures r.exit != 0 ==> r == Run(1, files)
    ensures r.exit == 0 ==> r.files.Keys == files.Keys
    ensures r.exit == 0 ==> forall p :: p in files && p != WranglerPath ==> r.files[p] == files[p]
  {
    var w := WranglerPatchAsWritten(Lookup(files, WranglerPath), cron);
    if w == Fatal then Run(1, files) else Run(0, ApplyOutcome(files, WranglerPath, w))
  }

  /**
   * The whole script exactly as written (lines 26-190): the steps of CronGenerate, with the
   * wrangler.jsonc step of lines 149-152 expanding `$` patterns in the cron expression.
   */
  function CronGenerateAsWritten(args: seq<string>, files: map<string, string>): (r: Run)
    ensures ParseArgs(args).Failure? ==> r == Run(1, files)
    ensures r.exit == 0 <==> ParseArgs(args).Success? && WranglerPath in files
  {
    match ParseArgs(args)
    case Failure(_) => Run(1, files)
    case Success(job) =>
      var r := WranglerStepAsWritten(job.cron, TsconfigStep(files));
      if r.exit != 0 then r else Run(0, r.files[EntryPath := CronEntry(job.name, job.cron)])
  }

  /** For every accepted cron expression without `$`, the script as written and CronGenerate agree. */
  lemma {:induction false} CronGenerateAgreesWithoutDollar(args: seq<string>, files: map<string, string>)
    requires ParseArgs(args).Success? ==> '$' !in ParseArgs(args).value.cron
    ensures CronGenerateAsWritten(args, files) == CronGenerate(args, files)
  {
    if ParseArgs(args).Success? {
      AsWrittenAgreesWithoutDollar(Lookup(TsconfigStep(files), WranglerPath), ParseArgs(args).value.cron);
    }
  }

  /** The text the script writes for `$' * * * *` differs from the intended one where the expression starts. */
  lemma {:induction false} DollarQuoteTextsDiffer()
    ensures InsertionHead + ("}" + (" * * * *" + InsertionTail)) + "}"
         != InsertionHead + "$' * * * *" + InsertionTail + "}"
  {
    var k := |InsertionHead|;
    assert (InsertionHead + ("}" + (" * * * *" + InsertionTail)) + "}")[k] == '}';
    assert (InsertionHead + "$' * * * *" + InsertionTail + "}")[k] == '$';
  }

  /** On the file `{}` and the expression `$' * * * *`, the wrangler step as written and the intended one differ. */
  lemma {:induction false} WranglerStepDollarQuoteDiffers(f: map<string, string>)
    requires WranglerPath in f && f[WranglerPath] == "{}"
    ensures WranglerStepAsWritten("$' * * * *", f).files[WranglerPath]
         != WranglerStep("$' * * * *", f).files[WranglerPath]
  {
    assert Lookup(f, WranglerPath) == Some("{}");
    DollarQuoteCounterexample();
    DollarQuoteCorrected();
    DollarQuoteTextsDiffer();
  }

  /** On success wrangler.jsonc is either as it was or, when it lacked the marker, carries it. */
  lemma {:induction false} JobRunWrangler(cron: string, entry: string, files: map<string, string>)
    requires JobRun(cron, entry, files).exit == 0
    ensures var r := JobRun(cron, entry, files);
      && WranglerPath in r.files
      && var raw := files[WranglerPath];
         r.files[WranglerPath] == raw || (!Contains(raw, Marker) && Contains(r.files[WranglerPath], Marker))
  {
    var f1 := TsconfigStep(files);
    assert f1[WranglerPath] == files[WranglerPath];
  }

  /** Writing the entrypoint does not disturb a tsconfig.json that carries the marker. */
  lemma {:induction false} TsconfigStepAfterEntry(f: map<string, string>, entry: string)
    requires TsconfigPath in f && Contains(f[TsconfigPath], QuotedMarker)
    ensures TsconfigStep(f[EntryPath := entry]) == f[EntryPath := entry]
  {
    assert Lookup(f[EntryPath := entry], TsconfigPath) == Some(f[TsconfigPath]);
  }

  /** Writing the entrypoint does not disturb a wrangler.jsonc the wrangler step leaves alone. */
  lemma {:induction false} WranglerStepAfterEntry(cron: string, f: map<string, string>, entry: string)
    requires WranglerStep(cron, f) == Run(0, f)
    ensures WranglerStep(cron, f[EntryPath := entry]) == Run(0, f[EntryPath := entry])
  {
    assert Lookup(f[EntryPath := entry], WranglerPath) == Lookup(f, WranglerPath);
  }

  /** A directory both steps leave alone, holding this entrypoint, is left alone by a run. */
  lemma {:induction false} JobRunSettled(cron: string, entry: string, g: map<string, string>)
    requires TsconfigStep(g) == g && WranglerStep(cron, g) == Run(0, g)
    requires EntryPath in g && g[EntryPath] == entry
    ensures JobRun(cron, entry, g) == Run(0, g)
  {
    assert g[EntryPath := entry] == g;
  }

  /** A second run of the accepted job on its own result changes nothing and ends the same way. */
  lemma {:induction false} JobRunIdempotent(cron: string, entry: string, files: map<string, string>)
    ensures JobRun(cron, entry, JobRun(cron, entry, files).files) == JobRun(cron, entry, files)
  {
    var f1 := TsconfigStep(files);
    var r := WranglerStep(cron, f1);
    WranglerStepIdempotent(cron, f1);
    if r.exit == 0 {
      TsconfigStepAfterEntry(r.files, entry);
      WranglerStepAfterEntry(cron, r.files, entry);
      JobRunSettled(cron, entry, r.files[EntryPath := entry]);
    } else {
      TsconfigStepIdempotent(files);
    }
  }

  /**
   * A successful run leaves the entrypoint with its scheduled handler, and wrangler.jsonc
   * either as it was or, when it lacked the marker, carrying it.
   */
  lemma {:induction false} CronGenerateWrites(args: seq<string>, files: map<string, string>)
    requires CronGenerate(args, files).exit == 0
    ensures var r := CronGenerate(args, files);
      && EntryPath in r.files && Contains(r.files[EntryPath], ScheduledHandler)
      && WranglerPath in r.files
      && var raw := files[WranglerPath];
         r.files[WranglerPath] == raw || (!Contains(raw, Marker) && Contains(r.files[WranglerPath], Marker))
  {
    var job := ParseArgs(args).value;
    var entry := CronEntry(job.name, job.cron);
    CronEntryIsScheduled(job.name, job.cron);
    JobRunWrangler(job.cron, entry, files);
  }

  /** Running the generator a second time on its own result changes nothing and ends the same way. */
  lemma {:induction false} CronGenerateIdempotent(args: seq<string>, files: map<string, string>)
    ensures CronGenerate(args, CronGenerate(args, files).files) == CronGenerate(args, files)
  {
    if ParseArgs(args).Success? {
      var job := ParseArgs(args).value;
      JobRunIdempotent(job.cron, CronEntry(job.name, job.cron), files);
    }
  }

  /** A wrangler.jsonc without the marker but with its opening brace gains the `crons` array. */
  lemma {:induction false} JobRunCrons(cron: string, entry: string, files: map<string, string>)
    requires WranglerPath in files && LeadingBraceEnd(files[WranglerPath]).Some?
    requires !Contains(files[WranglerPath], Marker)
    ensures var r := JobRun(cron, entry, files);
      r.exit == 0 && Contains(r.files[WranglerPath], CronsKey + cron + "\"]")
  {
    var f1 := TsconfigStep(files);
    var raw := files[WranglerPath];
    assert f1[WranglerPath] == raw;
    assert Lookup(f1, WranglerPath) == Some(raw);
    InsertionHasCrons(cron, raw[LeadingBraceEnd(raw).value..]);
  }

  // `cleanup --cron "0 */5 * * *"` is accepted.
  lemma {:induction false} CleanupArgsAccepted()
    ensures ParseArgs(["cleanup", CronFlag, "0 */5 * * *"]) == Success(Job("cleanup", "0 */5 * * *"))
  {
    var args := ["cleanup", CronFlag, "0 */5 * * *"];
    assert IndexOf(args, CronFlag) == Some(1);
    assert CronArg(args) == Some("0 */5 * * *");
    FiveFields("0", "*/5", "*", "*", "*");
    assert "0 */5 * * *" == "0" + " " + "*/5" + " " + "*" + " " + "*" + " " + "*";
  }

  // End-to-end scenario: once `cleanup --cron "0 */5 * * *"` is accepted (CleanupArgsAccepted),
  // a directory whose unmarked wrangler.jsonc starts with its brace ends with the marked
  // tsconfig.json and the cron array.
  lemma {:induction false} CleanupScenario(entry: string, files: map<string, string>)
    requires WranglerPath in files && LeadingBraceEnd(files[WranglerPath]).Some?
    requires !Contains(files[WranglerPath], Marker)
    ensures var r := JobRun("0 */5 * * *", entry, files);
      && r.exit == 0
      && Contains(r.files[TsconfigPath], QuotedMarker)
      && Contains(r.files[WranglerPath], CronsKey + "0 */5 * * *" + "\"]")
  {
    JobRunCrons("0 */5 * * *", entry, files);
  }

  /** The script step by step: each `writeFileSync` is a write to the workspace. */
  method CreateCronWorker(ws: Workspace, args: seq<string>) returns (exit: int)
    modifies ws
    ensures Run(exit, ws.files) == CronGenerate(args, old(ws.files))
  {
    var parsed := ParseArgs(args);
    if parsed.Failure? {
      return 1;
    }
    var job := parsed.value;
    var tsconfig := TsconfigPatch(ws.Read(TsconfigPath));
    ws.Apply(TsconfigPath, tsconfig);
    var wrangler := WranglerPatch(ws.Read(WranglerPath), job.cron);
    if wrangler == Fatal {
      return 1;
    }
    ws.Apply(WranglerPath, wrangler);
    ws.Write(EntryPath, CronEntry(job.name, job.cron));
    return 0;
  }
}
