/**
 * The data grid's component-info provider for the API docs builder: the
 * component record built from a file name, the rule that skips internal
 * components, and the import lines derived from a component's GitHub path.
 *
 * `extractPackageFile`, `getMuiName`, `kebabCase`, `parseFile` and
 * `toGitHubPath` belong to other packages: their results are parameters.
 */
module ComponentDocs {
  import opened Wrappers
  import Text

  // ---------------------------------------------------------------------------
  // getComponentInfo

  datatype Demo = Demo(demoPathname: string, demoPageTitle: string)

  /** `getDemos()`: the three grid demos, one per plan. */
  const GridDemos: seq<Demo> := [
    Demo("/x/react-data-grid/#mit-version", "DataGrid"),
    Demo("/x/react-data-grid/#commercial-version", "DataGridPro"),
    Demo("/x/react-data-grid/#premium-version", "DataGridPremium")
  ]

  /** The part of `ComponentInfo` the provider computes itself. */
  datatype ComponentInfo = ComponentInfo(
    filename: string,
    name: string,
    slotInterfaceName: string,
    muiName: string,
    apiPathname: string,
    demos: seq<Demo>)

  /** `` `${name.replace('DataGrid', 'Grid')}SlotsComponent` ``. */
  function SlotInterfaceName(name: string): string
  {
    Text.ReplaceFirst(name, "DataGrid", "Grid") + "SlotsComponent"
  }

  /** A name that starts with `DataGrid` loses its `Data`. */
  lemma SlotInterfaceOfDataGrid(suffix: string)
    ensures SlotInterfaceName("DataGrid" + suffix) == "Grid" + suffix + "SlotsComponent"
  {
    var name := "DataGrid" + suffix;
    assert Text.StartsAt(name, 0, "DataGrid");
    var r := Text.ReplaceFirst(name, "DataGrid", "Grid");
    var i: nat :| Text.StartsAt(name, i, "DataGrid")
                  && (forall j: nat :: j < i ==> !Text.StartsAt(name, j, "DataGrid"))
                  && r == name[..i] + "Grid" + name[i + 8..];
    assert i == 0;
    assert name[8..] == suffix;
  }

  /** A name without `DataGrid` is only suffixed. */
  lemma SlotInterfaceOfOther(name: string)
    requires !Text.Occurs(name, "DataGrid")
    ensures SlotInterfaceName(name) == name + "SlotsComponent"
  {
  }

  function MissingNameMessage(filename: string): string
  {
    "Could not find the component name from: " + filename
  }

  /**
   * `getComponentInfo`. `extractedName` is `extractPackageFile(filename).name`;
   * `muiName` and `kebabName` are `getMuiName(name)` and `kebabCase(name)`.
   * A missing or empty name is the thrown error.
   */
  function GetComponentInfo(filename: string, extractedName: Option<string>, muiName: string, kebabName: string)
    : (r: Result<ComponentInfo, string>)
    ensures r.Failure? <==> extractedName.None? || extractedName.value == ""
    ensures r.Failure? ==> r.error == MissingNameMessage(filename)
    ensures r.Success? ==>
      && r.value.filename == filename
      && r.value.name == extractedName.value
      && r.value.slotInterfaceName == SlotInterfaceName(extractedName.value)
      && r.value.muiName == muiName
      && r.value.apiPathname == "/x/api/data-grid/" + kebabName
      && r.value.demos == GridDemos
  {
    if extractedName.None? || extractedName.value == "" then Failure(MissingNameMessage(filename))
    else
      var name := extractedName.value;
      Success(ComponentInfo(filename, name, SlotInterfaceName(name), muiName, "/x/api/data-grid/" + kebabName, GridDemos))
  }

  /** `readFile`'s `shouldSkip`: an internal file, or a source tagged as an internal component or hook. */
  function ShouldSkip(filename: string, src: string): (r: bool)
    ensures r <==> Text.Occurs(filename, "internal")
                   || Text.Occurs(src, "@ignore - internal component.")
                   || Text.Occurs(src, "@ignore - internal hook.")
  {
    Text.IndexOf(filename, "internal") != -1
    || Text.IndexOf(src, "@ignore - internal component.") != -1
    || Text.IndexOf(src, "@ignore - internal hook.") != -1
  }

  /** `{ ...srcInfo, shouldSkip }`, with the parsed source reduced to its text. */
  datatype SourceInfo = SourceInfo(src: string, shouldSkip: bool)

  /** `readFile`, given the text `parseFile(filename)` reads. */
  function ReadFile(filename: string, src: string): (r: SourceInfo)
    ensures r.src == src
    ensures r.shouldSkip <==> ShouldSkip(filename, src)
  {
    SourceInfo(src, ShouldSkip(filename, src))
  }

  /** Nothing is skipped unless the file name or the source says `internal`. */
  lemma SkippedOnlyWhenInternal(filename: string, src: string)
    requires ShouldSkip(filename, src)
    ensures Text.Occurs(filename, "internal") || Text.Occurs(src, "@ignore - internal")
  {
    if !Text.Occurs(filename, "internal") {
      var pat := if Text.Occurs(src, "@ignore - internal component.") then "@ignore - internal component."
                 else "@ignore - internal hook.";
      var i: nat :| Text.StartsAt(src, i, pat);
      assert src[i..i + 18] == pat[..18];
      assert Text.StartsAt(src, i, "@ignore - internal");
    }
  }

  // ---------------------------------------------------------------------------
  // The import-path regular expressions
  //
  //   root:          /\/packages\/(grid\/|)(.+?)?\/src\/.*/
  //   subdirectory:  /\/packages\/(grid\/|)(.+?)?\/src\/([^\\/]+)\/.*/
  //
  // `String.prototype.replace` with a non-global regular expression replaces
  // the leftmost match only; the functions below follow the backtracking
  // order of the ECMAScript matcher.

  /** The characters `.` does not match. */
  predicate IsLineTerminator(c: char)
  {
    c == '\n' || c == '\r' || c == '\U{2028}' || c == '\U{2029}'
  }

  predicate NoLineTerminator(s: string)
  {
    forall k :: 0 <= k < |s| ==> !IsLineTerminator(s[k])
  }

  datatype Pattern = Root | Subdirectory

  /** The number of characters from `r` on that `[^\\/]` matches. */
  function RunLength(s: string, r: nat): (n: nat)
    requires r <= |s|
    decreases |s| - r
    ensures r + n <= |s|
    ensures forall k :: r <= k < r + n ==> s[k] != '/' && s[k] != '\\'
    ensures r + n < |s| ==> s[r + n] == '/' || s[r + n] == '\\'
  {
    if r >= |s| || s[r] == '/' || s[r] == '\\' then 0 else 1 + RunLength(s, r + 1)
  }

  /**
   * `([^\\/]+)\/` at `r`. The class excludes `/`, so of the lengths the greedy
   * quantifier tries only the longest can be followed by `/`.
   */
  function DirectoryAt(s: string, r: nat): (d: Option<string>)
    requires r <= |s|
    ensures d.Some? ==> |d.value| >= 1 && r + |d.value| < |s| && s[r..r + |d.value|] == d.value
                        && s[r + |d.value|] == '/'
  {
    var n := RunLength(s, r);
    if n >= 1 && r + n < |s| && s[r + n] == '/' then Some(s[r..r + n]) else None
  }

  /** What matched after the package group: the directory capture and where the final `.*` starts. */
  datatype Tail = Tail(directory: Option<string>, rest: nat)

  /** `\/src\/.*` (root) or `\/src\/([^\\/]+)\/.*` (subdirectory) at `j`. */
  function TailAt(s: string, j: nat, pattern: Pattern): (t: Option<Tail>)
    ensures t.Some? ==> Text.StartsAt(s, j, "/src/") && t.value.rest <= |s|
  {
    if !Text.StartsAt(s, j, "/src/") then None
    else match pattern
      case Root => Some(Tail(None, j + 5))
      case Subdirectory =>
        var d := DirectoryAt(s, j + 5);
        if d.None? then None else Some(Tail(d, j + 5 + |d.value| + 1))
  }

  /**
   * `(.+?)`, trying the capture that ends at `e` and then longer ones: the first
   * end the tail accepts. Each extension must match `.`.
   */
  function LazyGroup(s: string, e: nat, pattern: Pattern): (r: Option<(nat, Tail)>)
    requires e >= 1
    decreases |s| + 1 - e
    ensures r.Some? ==> e <= r.value.0 <= |s|
  {
    if e > |s| then None
    else if IsLineTerminator(s[e - 1]) then None
    else match TailAt(s, e, pattern)
      case Some(t) => Some((e, t))
      case None => LazyGroup(s, e + 1, pattern)
  }

  datatype Captures = Captures(pkg: Option<string>, tail: Tail)

  /** `(.+?)?` and the tail from `q`: the group is tried first, then skipped (leaving `pkg` undefined). */
  function AfterAlternative(s: string, q: nat, pattern: Pattern): Option<Captures>
  {
    match LazyGroup(s, q + 1, pattern)
    case Some((e, t)) => Some(Captures(Some(s[q..e]), t))
    case None =>
      match TailAt(s, q, pattern)
      case Some(t) => Some(Captures(None, t))
      case None => None
  }

  /** The match starting at `i`, if any: `grid/` is tried before the empty alternative. */
  function MatchAt(s: string, i: nat, pattern: Pattern): (m: Option<Captures>)
    ensures m.Some? ==> Text.StartsAt(s, i, "/packages/")
  {
    if !Text.StartsAt(s, i, "/packages/") then None
    else
      var p := i + 10;
      if Text.StartsAt(s, p, "grid/") && AfterAlternative(s, p + 5, pattern).Some? then AfterAlternative(s, p + 5, pattern)
      else AfterAlternative(s, p, pattern)
  }

  /** The leftmost match starting at or after `i`. */
  function FirstMatch(s: string, i: nat, pattern: Pattern): (r: Option<(nat, Captures)>)
    decreases |s| + 1 - i
    ensures r.None? ==> forall k: nat :: i <= k ==> MatchAt(s, k, pattern).None?
    ensures r.Some? ==> i <= r.value.0 && MatchAt(s, r.value.0, pattern) == Some(r.value.1)
                        && forall k: nat :: i <= k < r.value.0 ==> MatchAt(s, k, pattern).None?
  {
    if i > |s| then
      assert forall k: nat :: i <= k ==> !Text.StartsAt(s, k, "/packages/");
      None
    else match MatchAt(s, i, pattern)
      case Some(c) => Some((i, c))
      case None => FirstMatch(s, i + 1, pattern)
  }

  /** Where `.*` starting at `k` stops: the next line terminator, or the end. */
  function LineEnd(s: string, k: nat): (e: nat)
    decreases |s| - k
    ensures k <= |s| ==> k <= e <= |s|
    ensures k <= |s| && NoLineTerminator(s[k..]) ==> e == |s|
  {
    if k >= |s| || IsLineTerminator(s[k]) then
      if k < |s| then assert s[k..][0] == s[k]; k else k
    else
      assert NoLineTerminator(s[k..]) ==> NoLineTerminator(s[k + 1..]) by {
        if NoLineTerminator(s[k..]) {
          assert s[k + 1..] == s[k..][1..];
        }
      }
      LineEnd(s, k + 1)
  }

  /** A template literal shows an undefined capture as `undefined`. */
  function Shown(capture: Option<string>): string
  {
    capture.GetOr("undefined")
  }

  /** The replacer: `@mui/${pkg}` or `@mui/${pkg}/${directory}`. */
  function Replacement(c: Captures, pattern: Pattern): string
  {
    match pattern
    case Root => "@mui/" + Shown(c.pkg)
    case Subdirectory => "@mui/" + Shown(c.pkg) + "/" + Shown(c.tail.directory)
  }

  /** `githubPath.replace(regex, replacer)`. */
  function ReplaceImportPath(s: string, pattern: Pattern): string
  {
    match FirstMatch(s, 0, pattern)
    case None => s
    case Some((i, c)) =>
      if i <= |s| && c.tail.rest <= |s| then s[..i] + Replacement(c, pattern) + s[LineEnd(s, c.tail.rest)..]
      else s
  }

  function RootImportPath(githubPath: string): string
  {
    ReplaceImportPath(githubPath, Root)
  }

  function SubdirectoryImportPath(githubPath: string): string
  {
    ReplaceImportPath(githubPath, Subdirectory)
  }

  /** When the leftmost match runs to the end of a one-line path, the path becomes what precedes the match followed by the replacement. */
  lemma ReplaceToEnd(s: string, pattern: Pattern, i: nat, c: Captures)
    requires FirstMatch(s, 0, pattern) == Some((i, c))
    requires i <= |s| && c.tail.rest <= |s| && NoLineTerminator(s[c.tail.rest..])
    ensures ReplaceImportPath(s, pattern) == s[..i] + Replacement(c, pattern)
  {
    assert s[LineEnd(s, c.tail.rest)..] == [];
  }

  /** A path outside `/packages/` is left as it is. */
  lemma OutsidePackagesUnchanged(githubPath: string, pattern: Pattern)
    requires !Text.Occurs(githubPath, "/packages/")
    ensures ReplaceImportPath(githubPath, pattern) == githubPath
  {
  }

  /** A package directory name: non-empty, with no `/` and no line terminator. */
  predicate PackageDirName(p: string)
  {
    p != [] && forall k :: 0 <= k < |p| ==> p[k] != '/' && !IsLineTerminator(p[k])
  }

  /** A source sub-directory name: non-empty, with no `/` and no `\`. */
  predicate SourceDirName(d: string)
  {
    d != [] && forall k :: 0 <= k < |d| ==> d[k] != '/' && d[k] != '\\'
  }

  /** The lazy group stops at the first length whose tail matches. */
  lemma {:induction false} LazyGroupStops(s: string, e: nat, target: nat, pattern: Pattern, t: Tail)
    requires 1 <= e <= target <= |s|
    requires forall k :: e - 1 <= k < target ==> !IsLineTerminator(s[k])
    requires forall k: nat :: e <= k < target ==> TailAt(s, k, pattern).None?
    requires TailAt(s, target, pattern) == Some(t)
    ensures LazyGroup(s, e, pattern) == Some((target, t))
    decreases target - e
  {
    if e < target {
      LazyGroupStops(s, e + 1, target, pattern, t);
    }
  }

  /** With a package directory name at `q`, the group captures exactly that name. */
  lemma PackageCaptured(s: string, q: nat, p: string, pattern: Pattern, t: Tail)
    requires PackageDirName(p)
    requires q + |p| <= |s| && s[q..q + |p|] == p
    requires TailAt(s, q + |p|, pattern) == Some(t)
    ensures AfterAlternative(s, q, pattern) == Some(Captures(Some(p), t))
  {
    forall k | q <= k < q + |p| ensures !IsLineTerminator(s[k]) && s[k] != '/' {
      assert s[k] == s[q..q + |p|][k - q];
    }
    forall k: nat | q + 1 <= k < q + |p| ensures TailAt(s, k, pattern).None? {
      assert s[k] != '/';
    }
    LazyGroupStops(s, q + 1, q + |p|, pattern, t);
  }

  /** A package directory name other than `grid`, followed by `/`, does not start with `grid/`. */
  lemma NotGridLayout(s: string, q: nat, p: string)
    requires PackageDirName(p) && p != "grid"
    requires Text.StartsAt(s, q, p) && Text.StartsAt(s, q + |p|, "/src/")
    ensures !Text.StartsAt(s, q, "grid/")
  {
    assert s[q + |p|] == s[q + |p|..q + |p| + 5][0] == '/';
    if |p| > 4 {
      assert s[q + 4] == s[q..q + |p|][4] == p[4];
      assert s[q + 4] != '/';
    } else if |p| < 4 {
      assert "grid/"[|p|] != '/';
    } else if q + 5 <= |s| {
      assert s[q..q + 4] == p;
      assert s[q..q + 5][..4] == s[q..q + 4];
    }
  }

  /** The leftmost match is the first place a match starts. */
  lemma LeftmostMatch(s: string, i: nat, pattern: Pattern, c: Captures)
    requires forall k: nat :: k < i ==> !Text.StartsAt(s, k, "/packages/")
    requires MatchAt(s, i, pattern) == Some(c)
    ensures FirstMatch(s, 0, pattern) == Some((i, c))
  {
  }

  /** Where the package directory starts, after `/packages/` and, in the `grid/` layout, `grid/`. */
  function PackageStart(i: nat, grid: bool): nat
  {
    i + 10 + (if grid then 5 else 0)
  }

  /**
   * The layout `…/packages/[grid/]<p>/src/…` of a source file of package `p`,
   * with `/packages/` at `i` and nowhere before it.
   */
  predicate SourceLayout(s: string, i: nat, grid: bool, p: string)
  {
    && Text.StartsAt(s, i, "/packages/")
    && (grid ==> Text.StartsAt(s, i + 10, "grid/"))
    && Text.StartsAt(s, PackageStart(i, grid), p)
    && Text.StartsAt(s, PackageStart(i, grid) + |p|, "/src/")
    && PackageDirName(p) && (grid || p != "grid")
    && forall k: nat :: k < i ==> !Text.StartsAt(s, k, "/packages/")
  }

  /** The match of either pattern on a source layout starts at `i` and captures the package. */
  lemma LayoutMatch(s: string, i: nat, grid: bool, p: string, pattern: Pattern, t: Tail)
    requires SourceLayout(s, i, grid, p)
    requires TailAt(s, PackageStart(i, grid) + |p|, pattern) == Some(t)
    ensures FirstMatch(s, 0, pattern) == Some((i, Captures(Some(p), t)))
  {
    var q := PackageStart(i, grid);
    PackageCaptured(s, q, p, pattern, t);
    if !grid {
      NotGridLayout(s, q, p);
    }
    LeftmostMatch(s, i, pattern, Captures(Some(p), t));
  }

  /** `…/packages/[grid/]<p>/src/…` on one line imports from `@mui/<p>`, after what precedes `/packages/`. */
  lemma RootImportOfSource(s: string, i: nat, grid: bool, p: string)
    requires SourceLayout(s, i, grid, p)
    requires NoLineTerminator(s[PackageStart(i, grid) + |p| + 5..])
    ensures RootImportPath(s) == s[..i] + "@mui/" + p
  {
    var j := PackageStart(i, grid) + |p|;
    LayoutMatch(s, i, grid, p, Root, Tail(None, j + 5));
  }

  /** `…/packages/[grid/]<p>/src/<d>/…` on one line imports from `@mui/<p>/<d>`. */
  lemma SubdirectoryImportOfSource(s: string, i: nat, grid: bool, p: string, d: string)
    requires SourceLayout(s, i, grid, p)
    requires SourceDirName(d) && Text.StartsAt(s, PackageStart(i, grid) + |p| + 5, d + "/")
    requires NoLineTerminator(s[PackageStart(i, grid) + |p| + 5 + |d| + 1..])
    ensures SubdirectoryImportPath(s) == s[..i] + "@mui/" + p + "/" + d
  {
    var j := PackageStart(i, grid) + |p|;
    SubdirectoryTailAt(s, j, d);
    LayoutReplaced(s, i, grid, p, Subdirectory, Tail(Some(d), j + 5 + |d| + 1));
    Reassociate(s[..i], "@mui/", p, "/", d);
  }

  lemma Reassociate(a: string, b: string, c: string, d: string, e: string)
    ensures a + (b + c + d + e) == a + b + c + d + e
  {
  }

  /** On a source layout whose tail runs to the end of the line, the match is replaced up to the end of the path. */
  lemma LayoutReplaced(s: string, i: nat, grid: bool, p: string, pattern: Pattern, t: Tail)
    requires SourceLayout(s, i, grid, p)
    requires TailAt(s, PackageStart(i, grid) + |p|, pattern) == Some(t)
    requires NoLineTerminator(s[t.rest..])
    ensures ReplaceImportPath(s, pattern) == s[..i] + Replacement(Captures(Some(p), t), pattern)
  {
    LayoutMatch(s, i, grid, p, pattern, t);
    ReplaceToEnd(s, pattern, i, Captures(Some(p), t));
  }

  /** `\/src\/([^\\/]+)\/` at `j` captures the directory name `d` that follows `/src/`. */
  lemma SubdirectoryTailAt(s: string, j: nat, d: string)
    requires Text.StartsAt(s, j, "/src/") && SourceDirName(d) && Text.StartsAt(s, j + 5, d + "/")
    ensures TailAt(s, j, Subdirectory) == Some(Tail(Some(d), j + 5 + |d| + 1))
  {
    var r := j + 5;
    assert s[r..r + |d|] == s[r..r + |d| + 1][..|d|] == d;
    assert s[r + |d|] == s[r..r + |d| + 1][|d|] == '/';
    RunLengthOfName(s, r, d);
    assert DirectoryAt(s, r) == Some(d);
  }

  lemma {:induction false} RunLengthOfName(s: string, r: nat, d: string)
    requires r + |d| < |s| && s[r..r + |d|] == d && s[r + |d|] == '/'
    requires forall k :: 0 <= k < |d| ==> d[k] != '/' && d[k] != '\\'
    ensures RunLength(s, r) == |d|
    decreases |d|
  {
    if d != [] {
      assert s[r] == d[0];
      assert s[r + 1..r + 1 + |d[1..]|] == d[1..];
      RunLengthOfName(s, r + 1, d[1..]);
    }
  }

  // ---------------------------------------------------------------------------
  // getComponentImports

  /** The grid packages, each re-exporting everything of the ones before it. */
  const GridPackages: seq<string> := ["@mui/x-data-grid", "@mui/x-data-grid-pro", "@mui/x-data-grid-premium"]

  /** Each grid package is the `@mui/` scope followed by its directory under `packages/grid/`. */
  lemma GridPackagesUnderMui()
    ensures GridPackages[0] == "@mui/" + "x-data-grid"
    ensures GridPackages[1] == "@mui/" + "x-data-grid-pro"
    ensures GridPackages[2] == "@mui/" + "x-data-grid-premium"
  {
  }

  /** The packages a component of `root` can be imported from: its own and every grid package above it. */
  function ReExporters(root: string): seq<string>
  {
    if root == GridPackages[0] then GridPackages
    else if root == GridPackages[1] then GridPackages[1..]
    else [root]
  }

  /** The list starts with the root; a grid package is followed by the grid packages above it, in order. */
  lemma ReExportersOrder(root: string)
    ensures |ReExporters(root)| >= 1 && ReExporters(root)[0] == root
    ensures root !in GridPackages ==> ReExporters(root) == [root]
    ensures forall k :: 0 <= k < |GridPackages| && GridPackages[k] == root ==> ReExporters(root) == GridPackages[k..]
  {
  }

  /** The `reExportPackage` array, built by pushes. */
  method ComputeReExportPackages(rootImportPath: string) returns (reExportPackage: seq<string>)
    ensures reExportPackage == ReExporters(rootImportPath)
  {
    reExportPackage := [rootImportPath];
    if rootImportPath == "@mui/x-data-grid" {
      reExportPackage := reExportPackage + ["@mui/x-data-grid-pro"];
      reExportPackage := reExportPackage + ["@mui/x-data-grid-premium"];
    }
    if rootImportPath == "@mui/x-data-grid-pro" {
      reExportPackage := reExportPackage + ["@mui/x-data-grid-premium"];
    }
  }

  function ImportLine(name: string, importPath: string): string
  {
    "import { " + name + " } from '" + importPath + "';"
  }

  /** `getComponentImports(name, filename)`, given `toGitHubPath(filename)`. */
  method ComponentImports(name: string, githubPath: string) returns (imports: seq<string>)
    ensures |imports| == 1 + |ReExporters(RootImportPath(githubPath))|
    ensures imports[0] == ImportLine(name, SubdirectoryImportPath(githubPath))
    ensures forall k :: 1 <= k < |imports| ==>
      imports[k] == ImportLine(name, ReExporters(RootImportPath(githubPath))[k - 1])
  {
    var rootImportPath := RootImportPath(githubPath);
    var subdirectoryImportPath := SubdirectoryImportPath(githubPath);
    var reExportPackage := ComputeReExportPackages(rootImportPath);
    imports := [ImportLine(name, subdirectoryImportPath)]
      + seq(|reExportPackage|, k requires 0 <= k < |reExportPackage| => ImportLine(name, reExportPackage[k]));
  }

  /** `/packages/grid/x-data-grid/src/<d>/<after>` is a source layout of `x-data-grid` under `grid/`. */
  lemma CoreGridLayout(s: string, d: string, after: string)
    requires s == "/packages/grid/x-data-grid/src/" + d + "/" + after
    requires SourceDirName(d) && NoLineTerminator(d + "/" + after)
    ensures SourceLayout(s, 0, true, "x-data-grid")
    ensures Text.StartsAt(s, 31, d + "/")
    ensures NoLineTerminator(s[31..]) && NoLineTerminator(s[31 + |d| + 1..])
  {
    var rest := d + "/" + after;
    assert s == "/packages/grid/x-data-grid/src/" + rest;
    CoreGridPrefix(s, rest);
    assert s[31..31 + |d| + 1] == d + "/";
    assert s[31 + |d| + 1..] == after;
    forall k | 0 <= k < |after| ensures !IsLineTerminator(after[k]) {
      assert after[k] == rest[|d| + 1 + k];
    }
  }

  lemma CoreGridPrefix(s: string, rest: string)
    requires s == "/packages/grid/x-data-grid/src/" + rest
    ensures SourceLayout(s, 0, true, "x-data-grid") && s[31..] == rest
  {
    var packages, grid, pkg, src := "/packages/", "grid/", "x-data-grid", "/src/";
    assert s == packages + grid + pkg + src + rest;
    assert s[..10] == packages;
    assert s[10..15] == grid;
    assert s[15..26] == pkg;
    assert s[26..31] == src;
    GridPackageDirName();
  }

  lemma GridPackageDirName()
    ensures PackageDirName("x-data-grid")
  {
  }

  /** A component in a sub-directory of the MIT grid's sources is importable from all three grid packages. */
  lemma CoreGridImportPaths(s: string, d: string, after: string)
    requires s == "/packages/grid/x-data-grid/src/" + d + "/" + after
    requires SourceDirName(d) && NoLineTerminator(d + "/" + after)
    ensures SubdirectoryImportPath(s) == "@mui/x-data-grid/" + d
    ensures ReExporters(RootImportPath(s)) == GridPackages
  {
    CoreGridLayout(s, d, after);
    CoreGridRootImport(s);
    CoreGridSubdirectoryImport(s, d);
  }

  lemma CoreGridRootImport(s: string)
    requires SourceLayout(s, 0, true, "x-data-grid") && NoLineTerminator(s[31..])
    ensures RootImportPath(s) == GridPackages[0]
  {
    RootImportOfSource(s, 0, true, "x-data-grid");
    assert s[..0] == [];
    assert s[..0] + "@mui/" + "x-data-grid" == "@mui/" + "x-data-grid";
    GridPackagesUnderMui();
  }

  lemma CoreGridSubdirectoryImport(s: string, d: string)
    requires SourceLayout(s, 0, true, "x-data-grid")
    requires SourceDirName(d) && Text.StartsAt(s, 31, d + "/") && NoLineTerminator(s[31 + |d| + 1..])
    ensures SubdirectoryImportPath(s) == "@mui/x-data-grid/" + d
  {
    SubdirectoryImportOfSource(s, 0, true, "x-data-grid", d);
    GridSubdirectoryPrefix(s[..0], d);
  }

  lemma GridSubdirectoryPrefix(e: string, d: string)
    requires e == []
    ensures e + "@mui/" + "x-data-grid" + "/" + d == "@mui/x-data-grid/" + d
  {
    assert "@mui/" + "x-data-grid" + "/" == "@mui/x-data-grid/";
  }
}
