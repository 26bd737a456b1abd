/**
 * The doctor's walk over a package's `src` directory (`getSourceFilesRecursive` in
 * `scripts/doctor.mjs`). A directory is a sequence of entries in the order `readdirSync`
 * lists them; a file entry carries the text `readFileSync` would return for it.
 */
module SourceScan {
  import opened Text

  datatype Entry =
    | File(name: string, text: string)
    | Dir(name: string, children: seq<Entry>)

  /** A collected file: its path and its text. */
  datatype SourceFile = SourceFile(path: string, text: string)

  /** `path.join(dir, name)` for a plain entry name (no normalisation of `.` or `..`). */
  function PathJoin(dir: string, name: string): (r: string)
    ensures StartsWith(r, dir) && EndsWith(r, name)
  {
    dir + "/" + name
  }

  /** `fullPath.endsWith(".ts") || fullPath.endsWith(".tsx")` */
  predicate IsSourcePath(path: string) {
    EndsWith(path, ".ts") || EndsWith(path, ".tsx")
  }

  /** The files the walk collects under `dir`, in entry order, directories expanded in place. */
  function Collect(dir: string, entries: seq<Entry>): seq<SourceFile>
    decreases entries
  {
    if entries == [] then [] else CollectEntry(dir, entries[0]) + Collect(dir, entries[1..])
  }

  function CollectEntry(dir: string, e: Entry): seq<SourceFile>
    decreases e
  {
    match e
    case File(name, text) =>
      var path := PathJoin(dir, name);
      if IsSourcePath(path) then [SourceFile(path, text)] else []
    case Dir(name, children) => Collect(PathJoin(dir, name), children)
  }

  /** Every file under `dir`, whatever its name, in the same order: the reference the walk is compared to. */
  function AllFiles(dir: string, entries: seq<Entry>): seq<SourceFile>
    decreases entries
  {
    if entries == [] then [] else AllFilesOf(dir, entries[0]) + AllFiles(dir, entries[1..])
  }

  function AllFilesOf(dir: string, e: Entry): seq<SourceFile>
    decreases e
  {
    match e
    case File(name, text) => [SourceFile(PathJoin(dir, name), text)]
    case Dir(name, children) => AllFiles(PathJoin(dir, name), children)
  }

  /** The files of `fs` whose path is a source path, in order. */
  function SourceOnly(fs: seq<SourceFile>): (r: seq<SourceFile>)
    ensures |r| <= |fs|
  {
    if fs == [] then []
    else (if IsSourcePath(fs[0].path) then [fs[0]] else []) + SourceOnly(fs[1..])
  }

  /** Filtering distributes over concatenation. */
  lemma {:induction false} SourceOnlyAppend(a: seq<SourceFile>, b: seq<SourceFile>)
    ensures SourceOnly(a + b) == SourceOnly(a) + SourceOnly(b)
  {
    if a == [] {
      assert a + b == b;
    } else {
      var h := if IsSourcePath(a[0].path) then [a[0]] else [];
      assert (a + b)[0] == a[0] && (a + b)[1..] == a[1..] + b;
      assert SourceOnly(a + b) == h + SourceOnly(a[1..] + b);
      SourceOnlyAppend(a[1..], b);
      assert SourceOnly(a) == h + SourceOnly(a[1..]);
    }
  }

  /** A file is kept by the filter iff it is in the list and has a source path. */
  lemma {:induction false} SourceOnlyMembers(fs: seq<SourceFile>, f: SourceFile)
    ensures f in SourceOnly(fs) <==> f in fs && IsSourcePath(f.path)
  {
    if fs != [] {
      SourceOnlyMembers(fs[1..], f);
      assert fs == [fs[0]] + fs[1..];
    }
  }

  /**
   * The walk collects exactly the files of the tree whose path ends with `.ts` or `.tsx`,
   * in entry order.
   */
  lemma {:induction false} CollectIsFilteredWalk(dir: string, entries: seq<Entry>)
    ensures Collect(dir, entries) == SourceOnly(AllFiles(dir, entries))
    decreases entries
  {
    if entries != [] {
      CollectEntryIsFilteredWalk(dir, entries[0]);
      CollectIsFilteredWalk(dir, entries[1..]);
      SourceOnlyAppend(AllFilesOf(dir, entries[0]), AllFiles(dir, entries[1..]));
    }
  }

  lemma {:induction false} CollectEntryIsFilteredWalk(dir: string, e: Entry)
    ensures CollectEntry(dir, e) == SourceOnly(AllFilesOf(dir, e))
    decreases e
  {
    match e
    case File(name, text) =>
      assert SourceOnly([SourceFile(PathJoin(dir, name), text)])
          == (if IsSourcePath(PathJoin(dir, name)) then [SourceFile(PathJoin(dir, name), text)] else []) + SourceOnly([]);
    case Dir(name, children) => CollectIsFilteredWalk(PathJoin(dir, name), children);
  }

  /** So a file of the tree is collected iff its path ends with `.ts` or `.tsx`. */
  lemma {:induction false} CollectedIffSource(dir: string, entries: seq<Entry>, f: SourceFile)
    ensures f in Collect(dir, entries) <==> f in AllFiles(dir, entries) && IsSourcePath(f.path)
  {
    CollectIsFilteredWalk(dir, entries);
    SourceOnlyMembers(AllFiles(dir, entries), f);
  }

  /** The walk over a concatenation of entry lists is the concatenation of the walks. */
  lemma {:induction false} CollectAppend(dir: string, a: seq<Entry>, b: seq<Entry>)
    ensures Collect(dir, a + b) == Collect(dir, a) + Collect(dir, b)
  {
    if a == [] {
      assert a + b == b;
    } else {
      assert (a + b)[0] == a[0] && (a + b)[1..] == a[1..] + b;
      CollectAppend(dir, a[1..], b);
    }
  }

  /** `getSourceFilesRecursive(dir)`: a loop over the entries that pushes onto `results`. */
  method SourceFilesRecursive(dir: string, entries: seq<Entry>) returns (results: seq<SourceFile>)
    ensures results == Collect(dir, entries)
    decreases entries
  {
    results := [];
    for i := 0 to |entries|
      invariant results == Collect(dir, entries[..i])
    {
      var entry := entries[i];
      var fullPath := PathJoin(dir, entry.name);
      if entry.Dir? {
        var sub := SourceFilesRecursive(fullPath, entry.children);
        results := results + sub;
      } else if IsSourcePath(fullPath) {
        results := results + [SourceFile(fullPath, entry.text)];
      }
      assert entries[..i + 1] == entries[..i] + [entry];
      CollectAppend(dir, entries[..i], [entry]);
    }
    assert entries[..|entries|] == entries;
  }
}
