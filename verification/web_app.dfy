/**
 * `scripts/create-web.mjs`: scaffolds a Next.js app under `apps/web/<name>`, then
 * replaces `next.config.ts` with a fixed configuration that transpiles the shared
 * workspace packages, unless the file carries the quoted marker.
 */
module WebApp {
  import opened Wrappers
  import opened Text
  import opened Patching

  const NextConfigPath: string := "next.config.ts"

  /** The workspace packages Next.js must transpile, in the order the configuration lists them. */
  const TranspilePackages: seq<string> := ["@studiovault/ui", "@studiovault/utils", "@studiovault/types"]

  /** The comment line that marks the written configuration. */
  const CommentMarker: string := "// " + Marker

  // The body of lines 84-100, in pieces. A piece is split into short literals only so that
  // the `*LacksUnderscore` lemmas below can check one short literal at a time.
  const BodyHead: string := "import type { NextConfig }" + " from \"next\";\n\n"
  const DocOpen: string := "\nconst nextConfig" + ": NextConfig = {\n"
  const DocComment: string := "  /**\n   * StudioVault" + " Monorepo Fix:\n"
  const DocReason: string := "   * Workspace packages" + " must be transpiled" + " explicitly.\n"
  const DocClose: string := "   */\n"
  const ListOpen: string := "  transpilePackages: [\n"
  const ListClose: string := "  ],"
  const BodyTail: string := "\n};\n\nexport default nextConfig;\n"

  /** One array element: the package name in quotes, indented by four spaces. */
  function Item(p: string): string {
    "    \"" + p + "\""
  }

  /** One array element per line, separated by commas. */
  function PackageLines(packages: seq<string>): (r: string)
    ensures packages == [] ==> r == ""
    ensures packages != [] ==> StartsWith(r, Item(packages[0])) && EndsWith(r, "\n")
  {
    if packages == [] then ""
    else if |packages| == 1 then Item(packages[0]) + "\n"
    else Item(packages[0]) + ",\n" + PackageLines(packages[1..])
  }

  /** Everything in front of the `transpilePackages` array: the import, the marker comment and the doc comment. */
  function Prologue(): string {
    BodyHead + CommentMarker + (DocOpen + DocComment + DocReason + DocClose)
  }

  /** The `transpilePackages` property with its array literal. */
  function PackageList(): string {
    ListOpen + PackageLines(TranspilePackages) + ListClose
  }

  /** The `next.config.ts` the script writes (lines 84-100); it does not depend on the old file. */
  function NextConfigBody(): string {
    Prologue() + PackageList() + BodyTail
  }

  /** The array literal names ui, utils and types, in that order, one per line. */
  lemma {:induction false} PackageLinesInOrder()
    ensures PackageLines(TranspilePackages)
         == Item("@studiovault/ui") + ",\n" + (Item("@studiovault/utils") + ",\n" + (Item("@studiovault/types") + "\n"))
  {
    var ps := TranspilePackages;
    assert ps[0] == "@studiovault/ui" && ps[1..][0] == "@studiovault/utils";
    assert ps[1..][1..] == ["@studiovault/types"];
  }

  /** The body holds the `transpilePackages` property with that array. */
  lemma {:induction false} BodyListsPackages()
    ensures Contains(NextConfigBody(), PackageList())
  {
    assert OccursAt(PackageList(), PackageList(), 0);
    ContainsInfix(Prologue(), PackageList(), BodyTail, PackageList());
  }

  /** The body carries the marker as a comment. */
  lemma {:induction false} BodyHasCommentMarker()
    ensures Contains(NextConfigBody(), CommentMarker)
  {
    assert OccursAt(CommentMarker, CommentMarker, 0);
    ContainsInfix(BodyHead, CommentMarker, DocOpen + DocComment + DocReason + DocClose, CommentMarker);
    Regroup(Prologue(), PackageList(), BodyTail);
    ContainsPrefix(NextConfigBody(), |Prologue()|, CommentMarker);
  }

  /** A text without an underscore cannot hold the quoted marker, whose key starts with one. */
  lemma {:induction false} NoUnderscoreNoQuotedMarker(s: string)
    requires '_' !in s
    ensures !Contains(s, QuotedMarker)
  {
    assert |QuotedMarker| > 1 && QuotedMarker[1] == '_';
    forall i | 0 <= i <= |s| - |QuotedMarker|
      ensures !OccursAt(s, QuotedMarker, i)
    {
      assert s[i..i + |QuotedMarker|][1] == s[i + 1];
      assert s[i + 1] in s;
    }
  }

  lemma {:induction false} HeadLacksUnderscore()
    ensures '_' !in BodyHead + CommentMarker
  {
    assert '_' !in "import type { NextConfig }";
    assert '_' !in " from \"next\";\n\n";
    assert '_' !in "// ";
    assert '_' !in Marker;
  }

  lemma {:induction false} DocLacksUnderscore()
    ensures '_' !in DocOpen + DocComment
  {
    assert '_' !in "\nconst nextConfig";
    assert '_' !in ": NextConfig = {\n";
    assert '_' !in "  /**\n   * StudioVault";
    assert '_' !in " Monorepo Fix:\n";
  }

  lemma {:induction false} ReasonLacksUnderscore()
    ensures '_' !in DocReason + DocClose
  {
    assert '_' !in "   * Workspace packages";
    assert '_' !in " must be transpiled";
    assert '_' !in " explicitly.\n";
    assert '_' !in DocClose;
  }

  lemma {:induction false} PrologueLacksUnderscore()
    ensures '_' !in Prologue()
  {
    HeadLacksUnderscore();
    DocLacksUnderscore();
    ReasonLacksUnderscore();
    assert Prologue() == (BodyHead + CommentMarker) + ((DocOpen + DocComment) + (DocReason + DocClose));
  }

  lemma {:induction false} NamesLackUnderscore()
    ensures '_' !in "@studiovault/ui" && '_' !in "@studiovault/utils" && '_' !in "@studiovault/types"
  {
  }

  lemma {:induction false} ItemLacksUnderscore(p: string)
    requires '_' !in p
    ensures '_' !in Item(p)
  {
  }

  lemma {:induction false} BracketsLackUnderscore()
    ensures '_' !in ListOpen && '_' !in ListClose
  {
  }

  lemma {:induction false} PackageListLacksUnderscore()
    ensures '_' !in PackageList()
  {
    PackageLinesInOrder();
    NamesLackUnderscore();
    ItemLacksUnderscore("@studiovault/ui");
    ItemLacksUnderscore("@studiovault/utils");
    ItemLacksUnderscore("@studiovault/types");
    BracketsLackUnderscore();
  }

  /** The body never mentions the quoted marker the check looks for. */
  lemma {:induction false} BodyLacksQuotedMarker()
    ensures !Contains(NextConfigBody(), QuotedMarker)
  {
    PrologueLacksUnderscore();
    PackageListLacksUnderscore();
    assert '_' !in BodyTail;
    NoUnderscoreNoQuotedMarker(NextConfigBody());
  }

  /**
   * Lines 67-109 on the text of `next.config.ts`: a missing file only warns (and ends the
   * script), a file with the quoted marker is left alone, any other becomes the body.
   */
  function NextConfigPatch(raw: Option<string>): (r: Outcome<string>)
    ensures r == Warn <==> raw.None?
    ensures r == Unchanged <==> raw.Some? && Contains(raw.value, QuotedMarker)
    ensures r.Write? ==> r.content == NextConfigBody()
  {
    match raw
    case None => Warn
    case Some(text) => if Contains(text, QuotedMarker) then Unchanged else Write(NextConfigBody())
  }

  /**
   * Since the body lacks the quoted marker, a second run does not skip the file: it writes
   * it again, with the same text, so the file settles after the first run.
   */
  lemma {:induction false} RerunRewritesSameBody(raw: Option<string>)
    requires NextConfigPatch(raw).Write?
    ensures NextConfigPatch(Some(NextConfigPatch(raw).content)) == NextConfigPatch(raw)
  {
    BodyLacksQuotedMarker();
  }

  /**
   * The whole script (lines 14-20 and 65-109): without a name the exit code is 1; a missing
   * `next.config.ts` ends the script with exit code 0; otherwise the patch is applied.
   */
  function WebGenerate(args: seq<string>, files: map<string, string>): (r: Run)
    ensures r.exit == 1 <==> NameArg(args).None?
    ensures r.exit != 1 ==> r.exit == 0
    ensures NameArg(args).None? || NextConfigPath !in files ==> r.files == files
    ensures r.files.Keys == files.Keys
    ensures forall p :: p in files && p != NextConfigPath ==> r.files[p] == files[p]
  {
    if NameArg(args).None? then Run(1, files)
    else Run(0, ApplyOutcome(files, NextConfigPath, NextConfigPatch(Lookup(files, NextConfigPath))))
  }

  /** The directory a successful run leaves behind is a fixed point of the script. */
  lemma {:induction false} WebGenerateIdempotent(args: seq<string>, files: map<string, string>)
    ensures WebGenerate(args, WebGenerate(args, files).files) == WebGenerate(args, files)
  {
    if NameArg(args).Some? && NextConfigPath in files {
      var raw := Lookup(files, NextConfigPath);
      if NextConfigPatch(raw).Write? {
        RerunRewritesSameBody(raw);
        var f := WebGenerate(args, files).files;
        assert Lookup(f, NextConfigPath) == Some(NextConfigBody());
        assert f[NextConfigPath := NextConfigBody()] == f;
      }
    }
  }

  /** The script step by step: the one `writeFileSync` is a write to the workspace. */
  method CreateWebApp(ws: Workspace, args: seq<string>) returns (exit: int)
    modifies ws
    ensures Run(exit, ws.files) == WebGenerate(args, old(ws.files))
  {
    if NameArg(args).None? {
      return 1;
    }
    var raw := ws.Read(NextConfigPath);
    if raw.None? {
      return 0;
    }
    ws.Apply(NextConfigPath, NextConfigPatch(raw));
    return 0;
  }
}
