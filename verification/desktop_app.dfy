/**
 * `scripts/create-desktop.mjs`: scaffolds an Electron app under `apps/desktop/<name>`,
 * then parses `tsconfig.app.json`, sets its `extends` to the shared React configuration
 * when that property is missing or falsy, and writes the object back.
 */
module DesktopApp {
  import opened Wrappers
  import opened Json
  import opened Patching

  const AppTsconfigPath: string := "tsconfig.app.json"
  const ExtendsKey: string := "extends"
  const ReactConfig: string := "@studiovault/typescript-config/react.json"

  /**
   * The merge of lines 66-69 on the properties of the parsed object: a truthy `extends`
   * is kept and nothing changes; otherwise `extends` becomes the React configuration.
   */
  function WithExtends(fields: map<string, Json>): (r: map<string, Json>)
    ensures r.Keys == fields.Keys + {ExtendsKey}
    ensures HasTruthy(r, ExtendsKey)
    ensures HasTruthy(fields, ExtendsKey) ==> r == fields
    ensures !HasTruthy(fields, ExtendsKey) ==> r[ExtendsKey] == JString(ReactConfig)
    ensures forall k :: k in fields && k != ExtendsKey ==> r[k] == fields[k]
  {
    if HasTruthy(fields, ExtendsKey) then fields else fields[ExtendsKey := JString(ReactConfig)]
  }

  /** Merging twice gives the object merging once gives. */
  lemma {:induction false} WithExtendsIdempotent(fields: map<string, Json>)
    ensures WithExtends(WithExtends(fields)) == WithExtends(fields)
  {
  }

  /** The parsed object that the script changes in place. */
  class ParsedObject {
    var fields: map<string, Json>

    constructor (initial: map<string, Json>)
      ensures fields == initial
    {
      fields := initial;
    }

    /** `if (!parsed.extends) parsed.extends = "…/react.json"` */
    method AddMissingExtends()
      modifies this
      ensures fields == WithExtends(old(fields))
    {
      if !HasTruthy(fields, ExtendsKey) {
        fields := fields[ExtendsKey := JString(ReactConfig)];
      }
    }
  }

  /**
   * Lines 62-74 on the file's state: `None` when it is missing, otherwise what
   * `JSON.parse` made of it. A missing file only warns. Text that is not JSON, and a
   * top level that is `null`, a boolean, a number or a string, make the script throw (the
   * script is an ES module, so assigning a property to a primitive throws too). An array
   * has no truthy `extends`; the property set on it is dropped by `JSON.stringify`, so the
   * array is written back as it is. An object is merged and written back.
   */
  function DesktopPatch(parsed: Option<Result<Json, string>>): (r: Outcome<Json>)
    ensures r == Warn <==> parsed.None?
    ensures r != Unchanged
    ensures r == Fatal <==> parsed.Some? && (parsed.value.Failure? || !(parsed.value.value.JObject? || parsed.value.value.JArray?))
    ensures r.Write? && parsed.value.value.JObject? ==> r.content == JObject(WithExtends(parsed.value.value.fields))
    ensures r.Write? && parsed.value.value.JArray? ==> r.content == parsed.value.value
  {
    match parsed
    case None => Warn
    case Some(Failure(_)) => Fatal
    case Some(Success(doc)) =>
      match doc
      case JObject(fields) => Write(JObject(WithExtends(fields)))
      case JArray(_) => Write(doc)
      case _ => Fatal
  }

  /** Running the patch on what it wrote writes the same document again. */
  lemma {:induction false} DesktopPatchStable(parsed: Option<Result<Json, string>>)
    requires DesktopPatch(parsed).Write?
    ensures DesktopPatch(Some(Success(DesktopPatch(parsed).content))) == DesktopPatch(parsed)
  {
    if parsed.value.value.JObject? {
      WithExtendsIdempotent(parsed.value.value.fields);
    }
  }

  /** The outcome of a run: the exit code, and the document written to `tsconfig.app.json`, if any. */
  datatype DesktopRun = DesktopRun(exit: int, written: Option<Json>)

  /**
   * The whole script (lines 7-14 and 60-74): no name gives exit code 1 and no write; a
   * throw gives exit code 1 and no write; otherwise the exit code is 0 and the merged
   * document is written, when the file exists.
   */
  function DesktopGenerate(args: seq<string>, parsed: Option<Result<Json, string>>): (r: DesktopRun)
    ensures r.exit == 0 || r.exit == 1
    ensures r.exit == 1 <==> NameArg(args).None? || DesktopPatch(parsed) == Fatal
    ensures r.written.Some? <==> r.exit == 0 && parsed.Some?
    ensures r.written.Some? ==> Write(r.written.value) == DesktopPatch(parsed)
  {
    if NameArg(args).None? then DesktopRun(1, None)
    else match DesktopPatch(parsed)
      case Write(doc) => DesktopRun(0, Some(doc))
      case Fatal => DesktopRun(1, None)
      case _ => DesktopRun(0, None)
  }

  /** After a successful run on an object, the written object has a truthy `extends` and keeps every other property. */
  lemma {:induction false} DesktopGenerateMerges(args: seq<string>, fields: map<string, Json>)
    requires NameArg(args).Some?
    ensures DesktopGenerate(args, Some(Success(JObject(fields)))).written.Some?
    ensures var w := DesktopGenerate(args, Some(Success(JObject(fields)))).written.value;
      && w.JObject? && HasTruthy(w.fields, ExtendsKey)
      && (forall k :: k in fields && (k != ExtendsKey || HasTruthy(fields, ExtendsKey)) ==> k in w.fields && w.fields[k] == fields[k])
  {
  }

  /** The script step by step: the parsed object is changed in place, then written back. */
  method CreateDesktopApp(args: seq<string>, parsed: Option<Result<Json, string>>) returns (exit: int, written: Option<Json>)
    ensures DesktopRun(exit, written) == DesktopGenerate(args, parsed)
  {
    if NameArg(args).None? {
      return 1, None;
    }
    if parsed.None? {
      return 0, None;
    }
    if parsed.value.Failure? {
      return 1, None;
    }
    var doc := parsed.value.value;
    if doc.JObject? {
      var obj := new ParsedObject(doc.fields);
      obj.AddMissingExtends();
      return 0, Some(JObject(obj.fields));
    } else if doc.JArray? {
      return 0, Some(doc);
    }
    return 1, None;
  }
}
