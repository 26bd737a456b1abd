/**
 * `scripts/doctor.mjs` as a whole: the toolchain gates, the purity scan, the React
 * duplication check and the UI manifest gate, in that order; the first failure ends the
 * run with exit code 1. What the script reads from the machine is given as an `Env`.
 */
module Doctor {
  import opened Wrappers
  import opened Text
  import opened Json
  import opened SourceScan
  import opened PurityScan
  import opened ReactCheck

  const NodePrefix: string := "v20."
  const PinnedPnpm: string := "9.15.4"
  const DependenciesKey: string := "dependencies"
  const ReactKey: string := "react"

  /**
   * What the run depends on: `process.version`; the output of `pnpm -v` (`None` when the
   * command throws); the directories under `packages/` (`None` when there is no such
   * directory); the text of `pnpm-lock.yaml`, if present; and `packages/ui/package.json`
   * (`None` when it is missing, `Failure` when it is not JSON).
   */
  datatype Env = Env(
    nodeVersion: string,
    pnpmOutput: Option<string>,
    packages: Option<seq<Package>>,
    lockfile: Option<string>,
    uiManifest: Option<Result<Json, string>>)

  /** Why the run failed: the `fail` calls of the script, and an exception it does not catch. */
  datatype Failure =
    | WrongNode(nodeFound: string)
    | PnpmMissing
    | WrongPnpm(pnpmFound: string)
    | NoPackagesDir
    | ForbiddenImport(violation: Violation)
    | DuplicateReact(versions: seq<string>)
    | ReactDrift(reactFound: string)
    | UiBundlesReact
    | Crashed

  /** The end of a run; a passing run may carry the warning that no React was found. */
  datatype Verdict = Failed(failure: Failure) | Passed(noReactWarning: bool)

  function ExitCode(v: Verdict): int {
    if v.Failed? then 1 else 0
  }

  /** Lines 69-72: the Node gate. */
  predicate NodeOk(version: string) {
    StartsWith(version, NodePrefix)
  }

  /** Lines 75-85: the pnpm gate on the trimmed output of `pnpm -v`. */
  function PnpmGate(output: Option<string>): (r: Option<Failure>)
    ensures r.None? <==> output.Some? && Trim(output.value) == PinnedPnpm
    ensures output.None? ==> r == Some(PnpmMissing)
  {
    match output
    case None => Some(PnpmMissing)
    case Some(o) => if Trim(o) != PinnedPnpm then Some(WrongPnpm(Trim(o))) else None
  }

  /** `uiPkg.dependencies?.react` is truthy; only an object `dependencies` has properties to read. */
  predicate ListsReact(manifest: Json) {
    && manifest.JObject?
    && DependenciesKey in manifest.fields
    && manifest.fields[DependenciesKey].JObject?
    && HasTruthy(manifest.fields[DependenciesKey].fields, ReactKey)
  }

  /**
   * Lines 190-196: a missing or malformed manifest makes `readFileSync` or `JSON.parse`
   * throw, and so does a manifest that is `null`; a truthy `dependencies.react` fails.
   */
  function UiGate(manifest: Option<Result<Json, string>>): (r: Option<Failure>)
    ensures r == Some(UiBundlesReact) <==> manifest.Some? && manifest.value.Success? && ListsReact(manifest.value.value)
    ensures r.None? <==> manifest.Some? && manifest.value.Success? && manifest.value.value != JNull && !ListsReact(manifest.value.value)
  {
    match manifest
    case None => Some(Crashed)
    case Some(Failure(_)) => Some(Crashed)
    case Some(Success(doc)) =>
      if doc == JNull then Some(Crashed)
      else if ListsReact(doc) then Some(UiBundlesReact)
      else None
  }

  /** Lines 154-186 as a gate: the verdict of `ReactGate`, with the failures it reports. */
  function ReactFailure(v: ReactVerdict): (r: Option<Failure>)
    ensures r.Some? <==> Fails(v)
  {
    match v
    case Multiple(versions) => Some(DuplicateReact(versions))
    case Drift(found) => Some(ReactDrift(found))
    case _ => None
  }

  /** The whole run: each gate in the script's order, the first failure ending it. */
  function Doctor(env: Env): (r: Verdict)
  {
    if !NodeOk(env.nodeVersion) then Failed(WrongNode(env.nodeVersion))
    else if PnpmGate(env.pnpmOutput).Some? then Failed(PnpmGate(env.pnpmOutput).value)
    else if env.packages.None? then Failed(NoPackagesDir)
    else if FirstViolation(ScannedFiles(env.packages.value), ForbiddenImports).Some? then
      Failed(ForbiddenImport(FirstViolation(ScannedFiles(env.packages.value), ForbiddenImports).value))
    else if ReactFailure(ReactGate(env.lockfile)).Some? then Failed(ReactFailure(ReactGate(env.lockfile)).value)
    else if UiGate(env.uiManifest).Some? then Failed(UiGate(env.uiManifest).value)
    else Passed(ReactGate(env.lockfile) == NotInstalled)
  }

  /** The React check lets the run go on iff every version in the lockfile is react@19.1.0. */
  lemma {:induction false} ReactGatePasses(lock: Option<string>)
    ensures ReactFailure(ReactGate(lock)).None? <==>
      (lock.Some? ==> forall i | 0 <= i < |ReactVersions(lock.value)| :: ReactVersions(lock.value)[i] == PinnedReact)
  {
    if lock.Some? {
      ClassifyFound(ReactVersions(lock.value));
    }
  }

  /** The scan finds nothing iff every scanned file is clean. */
  lemma {:induction false} ScanPasses(files: seq<SourceFile>, mods: seq<string>)
    ensures FirstViolation(files, mods).None? <==> forall f | f in files :: Clean(f, mods)
  {
    if forall i | 0 <= i < |files| :: Clean(files[i], mods) {
      forall f | f in files ensures Clean(f, mods) {
        var i :| 0 <= i < |files| && files[i] == f;
      }
    }
  }

  /**
   * The run passes iff Node is 20.x, `pnpm -v` prints 9.15.4, `packages/` exists and no
   * scanned file imports a forbidden module, the lockfile (if any) has no React other
   * than a single react@19.1.0, and the UI manifest does not list React as a dependency.
   */
  lemma {:induction false} DoctorPassesIff(env: Env)
    ensures Doctor(env).Passed? <==>
      && StartsWith(env.nodeVersion, NodePrefix)
      && env.pnpmOutput.Some? && Trim(env.pnpmOutput.value) == PinnedPnpm
      && env.packages.Some?
      && (forall f | f in ScannedFiles(env.packages.value) :: Clean(f, ForbiddenImports))
      && (env.lockfile.Some? ==>
            forall i | 0 <= i < |ReactVersions(env.lockfile.value)| :: ReactVersions(env.lockfile.value)[i] == PinnedReact)
      && env.uiManifest.Some? && env.uiManifest.value.Success?
      && env.uiManifest.value.value != JNull && !ListsReact(env.uiManifest.value.value)
  {
    if env.packages.Some? {
      ScanPasses(ScannedFiles(env.packages.value), ForbiddenImports);
    }
    ReactGatePasses(env.lockfile);
  }

  /** A wrong Node version is reported whatever else is wrong. */
  lemma {:induction false} NodeCheckedFirst(env: Env)
    requires !StartsWith(env.nodeVersion, NodePrefix)
    ensures Doctor(env) == Failed(WrongNode(env.nodeVersion)) && ExitCode(Doctor(env)) == 1
  {
  }

  /** The run step by step; the purity scan runs its loops. */
  method RunDoctor(env: Env) returns (exit: int, verdict: Verdict)
    ensures verdict == Doctor(env) && exit == ExitCode(verdict)
  {
    if !NodeOk(env.nodeVersion) {
      return 1, Failed(WrongNode(env.nodeVersion));
    }
    var pnpm := PnpmGate(env.pnpmOutput);
    if pnpm.Some? {
      return 1, Failed(pnpm.value);
    }
    if env.packages.None? {
      return 1, Failed(NoPackagesDir);
    }
    var violation := ScanPackages(env.packages.value);
    if violation.Some? {
      return 1, Failed(ForbiddenImport(violation.value));
    }
    var react := ReactGate(env.lockfile);
    if ReactFailure(react).Some? {
      return 1, Failed(ReactFailure(react).value);
    }
    var ui := UiGate(env.uiManifest);
    if ui.Some? {
      return 1, Failed(ui.value);
    }
    return 0, Passed(react == NotInstalled);
  }
}
