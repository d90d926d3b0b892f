/**
 The import-closure check of the published package
 (scripts/openclaw-npm-postpublish-verify.ts): `resolveInstalledDistRelativeImport`
 and `collectInstalledPluginSdkZodArtifactErrors`, over an abstract disk.
 */
module ImportClosure {
  import opened Common

  const MAX_INSTALLED_ROOT_DIST_JS_BYTES: nat := 6 * 1024 * 1024

  /** The import specifiers of a source, or why it could not be parsed. */
  datatype Parsed = Specifiers(names: seq<string>) | Unparsable(why: string)

  datatype Artifact = Artifact(isFile: bool, size: nat, parsed: Parsed)

  /** What exists, by path. */
  type Disk = map<string, Artifact>

  /** The path operations the check uses: the base path a specifier names from an
      importer, a child of a directory, and whether a path lies inside dist. */
  datatype Layout = Layout(base: (string, string) -> string, child: (string, string) -> string, inside: string -> bool)

  datatype Problem =
    | MissingEntry
    | InvalidFile(path: string)
    | UnparsableFile(path: string, why: string)
    | ImportsZod(path: string, specifier: string)

  // ----------------------------------------------------------------------- resolution

  predicate StartsWith(s: string, prefix: string) {
    prefix <= s
  }

  function Candidates(l: Layout, importer: string, specifier: string): seq<string> {
    var b := l.base(importer, specifier);
    [b, b + ".js", b + ".mjs", b + ".cjs", l.child(b, "index.js"), l.child(b, "index.mjs"), l.child(b, "index.cjs")]
  }

  predicate Usable(l: Layout, disk: Disk, p: string) {
    l.inside(p) && p in disk
  }

  /** The first candidate inside dist that exists. */
  ghost predicate ResolvesTo(l: Layout, disk: Disk, importer: string, specifier: string, target: string) {
    && StartsWith(specifier, ".")
    && var cs := Candidates(l, importer, specifier);
       exists i :: 0 <= i < |cs| && cs[i] == target && Usable(l, disk, target) && forall j :: 0 <= j < i ==> !Usable(l, disk, cs[j])
  }

  method ResolveInstalledDistRelativeImport(l: Layout, disk: Disk, importer: string, specifier: string) returns (r: Option<string>)
    ensures r.Some? ==> ResolvesTo(l, disk, importer, specifier, r.value)
    ensures forall t :: ResolvesTo(l, disk, importer, specifier, t) ==> r == Some(t)
  {
    if !StartsWith(specifier, ".") {
      return None;
    }
    var candidatePaths := Candidates(l, importer, specifier);
    for i := 0 to |candidatePaths|
      invariant forall j :: 0 <= j < i ==> !Usable(l, disk, candidatePaths[j])
    {
      if !l.inside(candidatePaths[i]) || candidatePaths[i] !in disk {
        continue;
      }
      return Some(candidatePaths[i]);
    }
    return None;
  }

  /** The path as it is named comes before the three endings, and these before the three
      index files of a directory of that name. */
  lemma {:induction false} ResolutionOrder(l: Layout, disk: Disk, importer: string, specifier: string, target: string)
    ensures ResolvesTo(l, disk, importer, specifier, target) <==>
            && specifier != "" && specifier[0] == '.'
            && Usable(l, disk, target)
            && var base := l.base(importer, specifier);
               if Usable(l, disk, base) then target == base
               else if Usable(l, disk, base + ".js") then target == base + ".js"
               else if Usable(l, disk, base + ".mjs") then target == base + ".mjs"
               else if Usable(l, disk, base + ".cjs") then target == base + ".cjs"
               else if Usable(l, disk, l.child(base, "index.js")) then target == l.child(base, "index.js")
               else if Usable(l, disk, l.child(base, "index.mjs")) then target == l.child(base, "index.mjs")
               else target == l.child(base, "index.cjs")
  {
    var cs := Candidates(l, importer, specifier);
    var k := if Usable(l, disk, cs[0]) then 0 else if Usable(l, disk, cs[1]) then 1
             else if Usable(l, disk, cs[2]) then 2 else if Usable(l, disk, cs[3]) then 3
             else if Usable(l, disk, cs[4]) then 4 else if Usable(l, disk, cs[5]) then 5 else 6;
    FirstUsable(l, disk, importer, specifier, k, target);
  }

  lemma {:induction false} FirstUsable(l: Layout, disk: Disk, importer: string, specifier: string, k: nat, target: string)
    requires k < 7 && forall j :: 0 <= j < k ==> !Usable(l, disk, Candidates(l, importer, specifier)[j])
    requires k < 6 ==> Usable(l, disk, Candidates(l, importer, specifier)[k])
    ensures ResolvesTo(l, disk, importer, specifier, target) <==>
            && StartsWith(specifier, ".") && target == Candidates(l, importer, specifier)[k]
            && Usable(l, disk, target)
  {
  }

  // --------------------------------------------------------------------- reachability

  /** f imports g through a relative specifier that resolves. */
  ghost predicate Imports(l: Layout, disk: Disk, f: string, g: string) {
    && f in disk && disk[f].parsed.Specifiers? && g != ""
    && exists i :: 0 <= i < |disk[f].parsed.names| && ResolvesTo(l, disk, f, disk[f].parsed.names[i], g)
  }

  ghost predicate ReachedIn(l: Layout, disk: Disk, entry: string, n: nat, f: string) {
    if n == 0 then f == entry
    else exists g :: ReachedIn(l, disk, entry, n - 1, g) && Imports(l, disk, g, f)
  }

  /** A chain of imports leads from the entry to f. */
  ghost predicate Reachable(l: Layout, disk: Disk, entry: string, f: string) {
    exists n: nat :: ReachedIn(l, disk, entry, n, f)
  }

  predicate IsZod(specifier: string) {
    specifier == "zod" || StartsWith(specifier, "zod/")
  }

  /** The file exists, is a regular file within the limit, parses, and imports no zod. */
  predicate Clean(disk: Disk, f: string) {
    && f in disk && disk[f].isFile && disk[f].size <= MAX_INSTALLED_ROOT_DIST_JS_BYTES
    && disk[f].parsed.Specifiers?
    && forall i :: 0 <= i < |disk[f].parsed.names| ==> !IsZod(disk[f].parsed.names[i])
  }

  /** The problem is one that f has. */
  predicate Has(disk: Disk, entry: string, f: string, p: Problem) {
    match p
    case MissingEntry => f == entry && f !in disk
    case InvalidFile(path) =>
      path == f && f in disk && (!disk[f].isFile || disk[f].size > MAX_INSTALLED_ROOT_DIST_JS_BYTES)
    case UnparsableFile(path, why) => path == f && f in disk && disk[f].parsed == Unparsable(why)
    case ImportsZod(path, s) =>
      path == f && f in disk && disk[f].parsed.Specifiers? && s in disk[f].parsed.names && IsZod(s)
  }

  /** A set that holds the entry and all imports of its members holds everything
      reachable. */
  lemma {:induction false} ClosedHoldsReachable(l: Layout, disk: Disk, entry: string, visited: set<string>, n: nat, f: string)
    requires entry in visited && forall g, h :: g in visited && Imports(l, disk, g, h) ==> h in visited
    requires ReachedIn(l, disk, entry, n, f)
    ensures f in visited
    decreases n
  {
    if n == 0 {
    } else {
      var g :| ReachedIn(l, disk, entry, n - 1, g) && Imports(l, disk, g, f);
      ClosedHoldsReachable(l, disk, entry, visited, n - 1, g);
    }
  }

  lemma {:induction false} ImportIsReachable(l: Layout, disk: Disk, entry: string, f: string, g: string)
    requires Reachable(l, disk, entry, f) && Imports(l, disk, f, g)
    ensures Reachable(l, disk, entry, g)
  {
    var n: nat :| ReachedIn(l, disk, entry, n, f);
    assert ReachedIn(l, disk, entry, n + 1, g);
  }

  // ------------------------------------------------------------------------- the check

  /** Where the worklist stands: all reachable, the visited ones clean, and every
      import of a visited file visited or pending. */
  ghost predicate Searching(l: Layout, disk: Disk, entry: string, pending: seq<string>, visited: set<string>) {
    && (forall f :: f in pending ==> f != "" && Reachable(l, disk, entry, f) && (f == entry || f in disk))
    && (forall f :: f in visited ==> f in disk && Clean(disk, f))
    && (forall f, g :: f in visited && Imports(l, disk, f, g) ==> g in visited || g in pending)
    && (entry in visited || entry in pending)
  }

  lemma {:induction false} SkipKeeps(l: Layout, disk: Disk, entry: string, rest: seq<string>, f: string, visited: set<string>)
    requires Searching(l, disk, entry, rest + [f], visited) && (f == "" || f in visited)
    ensures Searching(l, disk, entry, rest, visited)
  {
    assert f in rest + [f];
    assert forall g :: g in rest + [f] <==> g in rest || g == f;
  }

  lemma {:induction false} VisitKeeps(l: Layout, disk: Disk, entry: string, rest: seq<string>, f: string, visited: set<string>,
                                      pending: seq<string>)
    requires Searching(l, disk, entry, rest + [f], visited) && f in disk && Clean(disk, f)
    requires forall g :: g in pending <==> g in rest || Imports(l, disk, f, g)
    requires forall g :: Imports(l, disk, f, g) ==> g in disk
    ensures Searching(l, disk, entry, pending, visited + {f})
  {
    assert forall g :: g in rest + [f] <==> g in rest || g == f;
    assert f in rest + [f];
    forall g | Imports(l, disk, f, g)
      ensures Reachable(l, disk, entry, g)
    {
      ImportIsReachable(l, disk, entry, f, g);
    }
  }

  /** One file: what is wrong with it, if anything. */
  method CheckFile(disk: Disk, entry: string, f: string) returns (problem: Option<Problem>)
    requires f == entry || f in disk
    ensures problem.Some? ==> Has(disk, entry, f, problem.value)
    ensures problem.None? <==> Clean(disk, f)
  {
    if f !in disk {
      return Some(MissingEntry);
    }
    if !disk[f].isFile || disk[f].size > MAX_INSTALLED_ROOT_DIST_JS_BYTES {
      return Some(InvalidFile(f));
    }
    if disk[f].parsed.Unparsable? {
      return Some(UnparsableFile(f, disk[f].parsed.why));
    }
    var names := disk[f].parsed.names;
    for i := 0 to |names|
      invariant forall j :: 0 <= j < i ==> !IsZod(names[j])
    {
      if IsZod(names[i]) {
        return Some(ImportsZod(f, names[i]));
      }
    }
    return None;
  }

  /** The relative imports of a file, pushed on the worklist. */
  method PushImports(l: Layout, disk: Disk, f: string, pending: seq<string>) returns (pending': seq<string>)
    requires f in disk && disk[f].parsed.Specifiers?
    ensures forall g :: g in pending' <==> g in pending || Imports(l, disk, f, g)
    ensures forall g :: Imports(l, disk, f, g) ==> g in disk
  {
    pending' := pending;
    var names := disk[f].parsed.names;
    for i := 0 to |names|
      invariant forall g :: g in pending' ==> g in pending || Imports(l, disk, f, g)
      invariant forall g :: g in pending ==> g in pending'
      invariant forall g, j :: 0 <= j < i && g != "" && ResolvesTo(l, disk, f, names[j], g) ==> g in pending'
    {
      var resolvedPath := ResolveInstalledDistRelativeImport(l, disk, f, names[i]);
      if resolvedPath.Some? && resolvedPath.value != "" {
        assert Imports(l, disk, f, resolvedPath.value);
        pending' := pending' + [resolvedPath.value];
      }
    }
  }

  /** `collectInstalledPluginSdkZodArtifactErrors`: no error if and only if every
      file reachable from the entry is clean; an error names a reachable file and a
      problem it has. The search ends on every import graph, cyclic ones included. */
  method CollectZodArtifactErrors(l: Layout, disk: Disk, entry: string) returns (errors: seq<Problem>)
    requires entry != ""
    ensures errors == [] <==> forall f :: Reachable(l, disk, entry, f) ==> Clean(disk, f)
    ensures errors != [] ==> |errors| == 1 && exists f :: Reachable(l, disk, entry, f) && Has(disk, entry, f, errors[0])
  {
    var pending := [entry];
    var visited: set<string> := {};
    assert ReachedIn(l, disk, entry, 0, entry);
    while |pending| > 0
      invariant Searching(l, disk, entry, pending, visited)
      decreases disk.Keys - visited, |pending|
    {
      var f := pending[|pending| - 1];
      var rest := pending[..|pending| - 1];
      assert pending == rest + [f] && f in pending;
      if f == "" || f in visited {
        SkipKeeps(l, disk, entry, rest, f, visited);
        pending := rest;
        continue;
      }
      var problem := CheckFile(disk, entry, f);
      if problem.Some? {
        assert Reachable(l, disk, entry, f) && !Clean(disk, f);
        return [problem.value];
      }
      pending := PushImports(l, disk, f, rest);
      VisitKeeps(l, disk, entry, rest, f, visited, pending);
      visited := visited + {f};
    }
    forall f | Reachable(l, disk, entry, f)
      ensures Clean(disk, f)
    {
      var n: nat :| ReachedIn(l, disk, entry, n, f);
      ClosedHoldsReachable(l, disk, entry, visited, n, f);
    }
    errors := [];
  }
}
