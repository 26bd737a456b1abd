/**
 * The shared-package purity scan of `scripts/doctor.mjs`: for every package under
 * `packages/` that has a `src` directory, for every source file the walk collects, for
 * every forbidden module in list order, the first import found fails the run.
 */
module PurityScan {
  import opened Wrappers
  import opened SourceScan
  import opened ImportCheck

  /** The runtime modules shared packages must not import, in the order they are tried. */
  const ForbiddenImports: seq<string> := ["fs", "path", "node:fs", "node:path", "child_process", "node:child_process"]

  /** A directory under `packages/`: its name and its `src` directory, if it has one. */
  datatype Package = Package(name: string, src: Option<seq<Entry>>)

  /** The first forbidden import the scan reports: the module and the file path. */
  datatype Violation = Violation(forbidden: string, path: string)

  const PackagesDir: string := "packages"

  /** `path.join(packagesDir, pkg, "src")` */
  function SrcDir(name: string): string {
    PathJoin(PathJoin(PackagesDir, name), "src")
  }

  /** The files the scan reads for one package; a package without `src` is skipped. */
  function PackageFiles(p: Package): seq<SourceFile> {
    match p.src
    case None => []
    case Some(entries) => Collect(SrcDir(p.name), entries)
  }

  /** The files the scan reads, package after package. */
  function ScannedFiles(packages: seq<Package>): seq<SourceFile> {
    if packages == [] then [] else PackageFiles(packages[0]) + ScannedFiles(packages[1..])
  }

  /** The index of the first module in `mods` that `text` imports. */
  function FirstImported(text: string, mods: seq<string>): (r: Option<nat>)
    ensures r.Some? ==> r.value < |mods| && ContainsForbiddenImport(text, mods[r.value])
    ensures r.Some? ==> forall j | 0 <= j < r.value :: !ContainsForbiddenImport(text, mods[j])
    ensures r.None? ==> forall j | 0 <= j < |mods| :: !ContainsForbiddenImport(text, mods[j])
  {
    if mods == [] then None
    else if ContainsForbiddenImport(text, mods[0]) then Some(0)
    else match FirstImported(text, mods[1..])
      case None => None
      case Some(k) => Some(k + 1)
  }

  /** A file the scan lets through: it imports none of the forbidden modules. */
  predicate Clean(f: SourceFile, mods: seq<string>) {
    forall j | 0 <= j < |mods| :: !ContainsForbiddenImport(f.text, mods[j])
  }

  /** The failure reported for a file that is not clean: its first forbidden module and its path. */
  function Report(f: SourceFile, mods: seq<string>): Violation
    requires !Clean(f, mods)
  {
    Violation(mods[FirstImported(f.text, mods).value], f.path)
  }

  /** What the scan reports for the files in order. */
  function FirstViolation(files: seq<SourceFile>, mods: seq<string>): (r: Option<Violation>)
    ensures r.None? <==> forall i | 0 <= i < |files| :: Clean(files[i], mods)
  {
    if files == [] then None
    else if Clean(files[0], mods) then FirstViolation(files[1..], mods)
    else Some(Report(files[0], mods))
  }

  /** A file that is not clean after clean ones is the one the scan reports. */
  lemma {:induction false} FirstViolationAt(files: seq<SourceFile>, i: nat, mods: seq<string>)
    requires i < |files| && !Clean(files[i], mods)
    requires forall k | 0 <= k < i :: Clean(files[k], mods)
    ensures FirstViolation(files, mods) == Some(Report(files[i], mods))
  {
    var before, after := files[..i], files[i..];
    assert files == before + after;
    assert forall k | 0 <= k < |before| :: before[k] == files[k];
    FirstViolationAppend(before, after, mods);
    assert after[0] == files[i];
  }

  /** The first element of `xs` that fails `ok`, when one does. */
  lemma {:induction false} FirstFailing<T>(xs: seq<T>, ok: T -> bool, n: nat) returns (i: nat)
    requires n < |xs| && !ok(xs[n])
    ensures i <= n && !ok(xs[i])
    ensures forall k | 0 <= k < i :: ok(xs[k])
  {
    for j := 0 to n
      invariant forall k | 0 <= k < j :: ok(xs[k])
    {
      if !ok(xs[j]) {
        return j;
      }
    }
    return n;
  }

  /** The first file that is not clean, when there is one. */
  lemma {:induction false} FirstUnclean(files: seq<SourceFile>, mods: seq<string>) returns (i: nat)
    requires FirstViolation(files, mods).Some?
    ensures i < |files| && !Clean(files[i], mods)
    ensures forall k | 0 <= k < i :: Clean(files[k], mods)
  {
    var n :| 0 <= n < |files| && !Clean(files[n], mods);
    i := FirstFailing(files, f => Clean(f, mods), n);
  }

  /**
   * A reported violation is the report of the first file that is not clean. (With the
   * contract of `FirstImported`, that report names the file's first forbidden module.)
   */
  lemma {:induction false} ViolationIsFirst(files: seq<SourceFile>, mods: seq<string>)
    requires FirstViolation(files, mods).Some?
    ensures exists i | 0 <= i < |files| ::
      && (forall k | 0 <= k < i :: Clean(files[k], mods))
      && !Clean(files[i], mods)
      && FirstViolation(files, mods).value == Report(files[i], mods)
  {
    var i := FirstUnclean(files, mods);
    FirstViolationAt(files, i, mods);
  }

  /** The scan of a concatenation reports from the first part, or else from the second. */
  lemma {:induction false} FirstViolationAppend(a: seq<SourceFile>, b: seq<SourceFile>, mods: seq<string>)
    ensures FirstViolation(a + b, mods) == if FirstViolation(a, mods).Some? then FirstViolation(a, mods) else FirstViolation(b, mods)
  {
    if a == [] {
      assert a + b == b;
    } else {
      assert (a + b)[0] == a[0] && (a + b)[1..] == a[1..] + b;
      FirstViolationAppend(a[1..], b, mods);
    }
  }

  lemma {:induction false} ScannedFilesAppend(a: seq<Package>, b: seq<Package>)
    ensures ScannedFiles(a + b) == ScannedFiles(a) + ScannedFiles(b)
  {
    if a == [] {
      assert a + b == b;
    } else {
      assert (a + b)[0] == a[0] && (a + b)[1..] == a[1..] + b;
      ScannedFilesAppend(a[1..], b);
    }
  }

  /** The innermost loop: the forbidden modules tried in order against one file. */
  method FindImport(text: string, mods: seq<string>) returns (r: Option<nat>)
    ensures r == FirstImported(text, mods)
  {
    for j := 0 to |mods|
      invariant forall k | 0 <= k < j :: !ContainsForbiddenImport(text, mods[k])
    {
      if ContainsForbiddenImport(text, mods[j]) {
        return Some(j);
      }
    }
    return None;
  }

  /** The middle loop: the files of one package in order, stopping at the first violation. */
  method ScanFiles(files: seq<SourceFile>, mods: seq<string>) returns (v: Option<Violation>)
    ensures v == FirstViolation(files, mods)
  {
    for k := 0 to |files|
      invariant forall i | 0 <= i < k :: Clean(files[i], mods)
    {
      var bad := FindImport(files[k].text, mods);
      if bad.Some? {
        FirstViolationAt(files, k, mods);
        return Some(Violation(mods[bad.value], files[k].path));
      }
    }
    return None;
  }

  /** The packages up to `i`, then package `i`, then the rest. */
  lemma {:induction false} ScannedAround(packages: seq<Package>, i: nat)
    requires i < |packages|
    ensures ScannedFiles(packages) == ScannedFiles(packages[..i]) + (PackageFiles(packages[i]) + ScannedFiles(packages[i + 1..]))
  {
    var rest := [packages[i]] + packages[i + 1..];
    assert packages == packages[..i] + rest;
    ScannedFilesAppend(packages[..i], rest);
    assert rest[0] == packages[i] && rest[1..] == packages[i + 1..];
  }

  /** The packages up to and including `i`. */
  lemma {:induction false} ScannedPrefix(packages: seq<Package>, i: nat)
    requires i < |packages|
    ensures ScannedFiles(packages[..i + 1]) == ScannedFiles(packages[..i]) + PackageFiles(packages[i])
  {
    assert packages[..i + 1] == packages[..i] + [packages[i]];
    ScannedFilesAppend(packages[..i], [packages[i]]);
    assert [packages[i]][1..] == [];
    assert PackageFiles(packages[i]) + [] == PackageFiles(packages[i]);
  }

  /** Once the earlier packages are clean, the run reports this package's violation, or else a later one. */
  lemma {:induction false} ScanReachesPackage(packages: seq<Package>, i: nat, mods: seq<string>)
    requires i < |packages| && FirstViolation(ScannedFiles(packages[..i]), mods) == None
    ensures FirstViolation(ScannedFiles(packages), mods) ==
      if FirstViolation(PackageFiles(packages[i]), mods).Some? then FirstViolation(PackageFiles(packages[i]), mods)
      else FirstViolation(ScannedFiles(packages[i + 1..]), mods)
    ensures FirstViolation(PackageFiles(packages[i]), mods).None? ==> FirstViolation(ScannedFiles(packages[..i + 1]), mods) == None
  {
    ScannedAround(packages, i);
    FirstViolationAppend(ScannedFiles(packages[..i]), PackageFiles(packages[i]) + ScannedFiles(packages[i + 1..]), mods);
    FirstViolationAppend(PackageFiles(packages[i]), ScannedFiles(packages[i + 1..]), mods);
    ScannedPrefix(packages, i);
    FirstViolationAppend(ScannedFiles(packages[..i]), PackageFiles(packages[i]), mods);
  }

  /**
   * The scan as the script runs it: packages, then files, then modules, returning at the
   * first import found (where the script calls `fail`).
   */
  method ScanPackages(packages: seq<Package>) returns (v: Option<Violation>)
    ensures v == FirstViolation(ScannedFiles(packages), ForbiddenImports)
  {
    for i := 0 to |packages|
      invariant FirstViolation(ScannedFiles(packages[..i]), ForbiddenImports) == None
    {
      var pkg := packages[i];
      if pkg.src.None? {
        ScanReachesPackage(packages, i, ForbiddenImports);
        continue;
      }
      var files := SourceFilesRecursive(SrcDir(pkg.name), pkg.src.value);
      v := ScanFiles(files, ForbiddenImports);
      ScanReachesPackage(packages, i, ForbiddenImports);
      if v.Some? {
        return;
      }
    }
    assert packages[..|packages|] == packages;
    return None;
  }
}
