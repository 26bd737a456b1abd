/**
 * What every generator script shares: the outcome of patching one file, the
 * "already patched" markers, the tsconfig.json baseline written by both Cloudflare
 * worker generators, and the worker directory the scripts write into.
 */
module Patching {
  import opened Wrappers
  import opened Text

  /**
   * What a patcher decides about one file: leave it alone, write `content`, stop the
   * whole script with exit code 1, or print a warning and write nothing.
   */
  datatype Outcome<T> = Unchanged | Write(content: T) | Fatal | Warn

  /** The marker text searched for by the cron worker's wrangler.jsonc check. */
  const Marker: string := "StudioVault Monorepo Fix"

  /** The marker as the JSON key-value pair the patched files carry. */
  const QuotedMarker: string := MarkerKey + Marker + "\""

  /** The key of the marker entry, with its quotes, the colon and the value's opening quote. */
  const MarkerKey: string := "\"_studiovault\": \""

  /** The tsconfig.json both worker generators write, byte for byte. */
  const DesiredTsconfig: string :=
    "{\n  " + QuotedMarker + TsconfigRest

  /** The rest of the baseline, after the marker entry. */
  const TsconfigRest: string :=
    ",\n  \"extends\": \"@studiovault/typescript-config/base.json\",\n\n  \"compilerOptions\": {\n    \"types\": [\"./worker-configuration.d.ts\"]\n  },\n\n  \"include\": [\"worker-configuration.d.ts\", \"src/**/*.ts\"],\n  \"exclude\": [\"test\"]\n}\n"

  const TsconfigPath: string := "tsconfig.json"
  const WranglerPath: string := "wrangler.jsonc"
  const EntryPath: string := "src/index.ts"

  /** The quoted marker is part of the key-value pair itself. */
  lemma {:induction false} QuotedMarkerHasMarker()
    ensures Contains(QuotedMarker, Marker)
  {
    assert OccursAt(Marker, Marker, 0);
    ContainsInfix(MarkerKey, Marker, "\"", Marker);
  }

  /** The baseline carries the quoted marker on its second line. */
  lemma {:induction false} DesiredTsconfigHasMarker()
    ensures Contains(DesiredTsconfig, QuotedMarker)
  {
    assert OccursAt(QuotedMarker, QuotedMarker, 0);
    ContainsInfix("{\n  ", QuotedMarker, TsconfigRest, QuotedMarker);
  }

  /**
   * The tsconfig.json decision of both worker generators: a file that carries the
   * quoted marker is left alone; any other file, and a missing one, becomes the baseline.
   */
  function TsconfigPatch(raw: Option<string>): (r: Outcome<string>)
    ensures raw.Some? && Contains(raw.value, QuotedMarker) <==> r == Unchanged
    ensures r != Unchanged ==> r == Write(DesiredTsconfig)
  {
    match raw
    case None => Write(DesiredTsconfig)
    case Some(text) => if Contains(text, QuotedMarker) then Unchanged else Write(DesiredTsconfig)
  }

  /** Whatever the first run of the tsconfig patch writes, a second run leaves alone. */
  lemma {:induction false} TsconfigPatchSecondRunSkips(raw: Option<string>)
    ensures TsconfigPatch(raw).Write? ==> TsconfigPatch(Some(TsconfigPatch(raw).content)) == Unchanged
  {
    DesiredTsconfigHasMarker();
  }

  /** The file state after an outcome: only a `Write` changes it. */
  function ApplyOutcome(files: map<string, string>, path: string, o: Outcome<string>): (r: map<string, string>)
    ensures r.Keys == if o.Write? then files.Keys + {path} else files.Keys
    ensures forall p :: p in files ==> p in r
    ensures forall p :: p in r && p != path ==> r[p] == files[p]
    ensures path in r ==> r[path] == if o.Write? then o.content else files[path]
  {
    if o.Write? then files[path := o.content] else files
  }

  /**
   * The tsconfig.json step of both worker generators: afterwards the file exists and
   * carries the marker, and no other file has changed.
   */
  function TsconfigStep(files: map<string, string>): (r: map<string, string>)
    ensures TsconfigPath in r && Contains(r[TsconfigPath], QuotedMarker)
    ensures r.Keys == files.Keys + {TsconfigPath}
    ensures forall p :: p in files && p != TsconfigPath ==> r[p] == files[p]
  {
    DesiredTsconfigHasMarker();
    ApplyOutcome(files, TsconfigPath, TsconfigPatch(Lookup(files, TsconfigPath)))
  }

  /** A second tsconfig.json step changes nothing. */
  lemma {:induction false} TsconfigStepIdempotent(files: map<string, string>)
    ensures TsconfigStep(TsconfigStep(files)) == TsconfigStep(files)
  {
    var r := TsconfigStep(files);
    assert TsconfigPatch(Lookup(r, TsconfigPath)) == Unchanged;
  }

  /** A directory whose tsconfig.json carries the marker is left alone by the step. */
  lemma {:induction false} TsconfigStepSettled(files: map<string, string>)
    requires TsconfigPath in files && Contains(files[TsconfigPath], QuotedMarker)
    ensures TsconfigStep(files) == files
  {
    assert TsconfigPatch(Lookup(files, TsconfigPath)) == Unchanged;
  }

  /** The file at `path`, if the directory holds one. */
  function Lookup(files: map<string, string>, path: string): (r: Option<string>)
    ensures r.Some? <==> path in files
    ensures r.Some? ==> r.value == files[path]
  {
    if path in files then Some(files[path]) else None
  }

  /**
   * The first command-line argument, when it is given and not empty: every generator
   * stops with "Missing ... name" when `args[0]` is falsy.
   */
  function NameArg(args: seq<string>): (r: Option<string>)
    ensures r.Some? <==> |args| > 0 && args[0] != ""
    ensures r.Some? ==> r.value == args[0]
  {
    if |args| > 0 && args[0] != "" then Some(args[0]) else None
  }

  /** What a generator run ends with: its exit code and the directory contents. */
  datatype Run = Run(exit: int, files: map<string, string>)

  /**
   * The directory a generator works in once the external scaffolder has created it,
   * as a map from relative path to file text; `writeFileSync` replaces one entry.
   */
  class Workspace {
    var files: map<string, string>

    constructor (initial: map<string, string>)
      ensures files == initial
    {
      files := initial;
    }

    /** `existsSync` followed by `readFileSync`. */
    function Read(path: string): (r: Option<string>)
      reads this
      ensures r.Some? <==> path in files
      ensures r.Some? ==> r.value == files[path]
    {
      Lookup(files, path)
    }

    /** `writeFileSync(path, text)` */
    method Write(path: string, text: string)
      modifies this
      ensures files == old(files)[path := text]
    {
      files := files[path := text];
    }

    /** Carries out a patcher's decision about one file. */
    method Apply(path: string, o: Outcome<string>)
      modifies this
      ensures files == ApplyOutcome(old(files), path, o)
    {
      if o.Write? {
        Write(path, o.content);
      }
    }
  }
}
