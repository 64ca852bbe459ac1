/**
 * The Next.js App Router map: which files are route pages, the URL each
 * one serves, the local modules each page imports, and the Markdown page
 * that lists them.
 */
module TsMap {
  import opened Wrappers
  import opened Strings
  import opened Seqs
  import opened Ordering

  // ---------------------------------------------------------------------------
  // Route files and their URLs
  // ---------------------------------------------------------------------------

  /** The suffixes `is_app_route_file` accepts, in its order. */
  const PageSuffixes: seq<string> := ["/page.tsx", "/page.jsx", "/page.ts", "/page.js"]

  /**
   * `is_app_route_file`: under `app/` and named `page` with a TS/JS
   * extension, or exactly `app/page.tsx`.
   */
  predicate IsAppRouteFile(relPath: string)
  {
    var rel := NormSlashes(relPath);
    (StartsWith(rel, "app/") && EndsWithAny(rel, PageSuffixes)) || rel == "app/page.tsx"
  }

  /**
   * The extra `app/page.tsx` case never changes the verdict: that path
   * already starts with `app/` and ends with `/page.tsx`.
   */
  lemma AppPageDisjunctSubsumed(relPath: string)
    ensures IsAppRouteFile(relPath) <==>
            StartsWith(NormSlashes(relPath), "app/") &&
            exists i :: 0 <= i < |PageSuffixes| && EndsWith(NormSlashes(relPath), PageSuffixes[i])
  {
    var rel := NormSlashes(relPath);
    if rel == "app/page.tsx" {
      assert rel[..4] == "app/";
      assert rel[|rel| - 9..] == "/page.tsx";
      assert EndsWith(rel, PageSuffixes[0]);
    }
  }

  /**
   * `route_from_app_page`: drop the `app/` prefix, delete the page file
   * names (`/page.tsx`, `/page.ts`, `/page.jsx`, `/page.js`, in that order)
   * and put a `/` in front; the root page is `/`.
   */
  function RouteFromAppPage(relPath: string): (route: string)
    ensures StartsWith(route, "/")
  {
    var rel := NormSlashes(relPath);
    var tail := if |rel| >= 4 then rel[4..] else [];
    var stripped := StripPageNames(tail);
    if stripped in ["page.tsx", "page.ts", "page.jsx", "page.js", ""] then "/" else "/" + stripped
  }

  /** A pattern character missing from `s` rules out every occurrence. */
  lemma NoOccurrenceWithout(s: string, pat: string, k: nat)
    requires k < |pat| && pat[k] !in s
    ensures forall p: nat :: !OccursAt(s, pat, p)
  {
    forall p: nat ensures !OccursAt(s, pat, p) {
      if p + |pat| <= |s| {
        assert s[p..p + |pat|][k] == s[p + k];
      }
    }
  }

  /** One mismatching character rules out an occurrence at `p`. */
  lemma MismatchAt(s: string, pat: string, p: nat, k: nat)
    requires k < |pat| && p + k < |s| && s[p + k] != pat[k]
    ensures !OccursAt(s, pat, p)
  {
    if p + |pat| <= |s| {
      assert s[p..p + |pat|][k] == s[p + k];
    }
  }

  /**
   * In `dir + suffix` with a dot-free `dir`, the one dot is the suffix's, so
   * any page suffix can only occur right after `dir`.
   */
  lemma PageSuffixAnchored(dir: string, suffix: string, pat: string)
    requires '.' !in dir && suffix in PageSuffixes && pat in PageSuffixes
    ensures forall p: nat :: OccursAt(dir + suffix, pat, p) ==> p == |dir|
  {
    var s := dir + suffix;
    forall m | 0 <= m < |s| && m != |dir| + 5 ensures s[m] != '.' {
      if m < |dir| {
        assert s[m] == dir[m];
      } else {
        assert s[m] == suffix[m - |dir|];
      }
    }
    forall p: nat | OccursAt(s, pat, p) ensures p == |dir| {
      OccursAtChar(s, pat, p, 5);
    }
  }

  /** The deletion chain `route_from_app_page` applies. */
  function StripPageNames(s: string): string
  {
    Replace(Replace(Replace(Replace(s, "/page.tsx", ""), "/page.ts", ""), "/page.jsx", ""), "/page.js", "")
  }

  /** A dot-free string has no page file name to delete. */
  lemma StripPageNamesDotFree(dir: string)
    requires '.' !in dir
    ensures Replace(dir, "/page.ts", "") == dir
    ensures Replace(dir, "/page.jsx", "") == dir
    ensures Replace(dir, "/page.js", "") == dir
  {
    NoOccurrenceWithout(dir, "/page.ts", 5);
    ReplaceNoOccurrence(dir, "/page.ts", "");
    NoOccurrenceWithout(dir, "/page.jsx", 5);
    ReplaceNoOccurrence(dir, "/page.jsx", "");
    NoOccurrenceWithout(dir, "/page.js", 5);
    ReplaceNoOccurrence(dir, "/page.js", "");
  }

  lemma StripTsx(dir: string)
    requires '.' !in dir
    ensures StripPageNames(dir + "/page.tsx") == dir
  {
    PageSuffixAnchored(dir, "/page.tsx", "/page.tsx");
    ReplaceOnlyAtEnd(dir, "/page.tsx", "");
    assert dir + "" == dir;
    StripPageNamesDotFree(dir);
  }

  lemma StripTs(dir: string)
    requires '.' !in dir
    ensures StripPageNames(dir + "/page.ts") == dir
  {
    var s := dir + "/page.ts";
    PageSuffixAnchored(dir, "/page.ts", "/page.tsx");
    ReplaceNoOccurrence(s, "/page.tsx", "");
    PageSuffixAnchored(dir, "/page.ts", "/page.ts");
    ReplaceOnlyAtEnd(dir, "/page.ts", "");
    assert dir + "" == dir;
    StripPageNamesDotFree(dir);
  }

  lemma StripJsx(dir: string)
    requires '.' !in dir
    ensures StripPageNames(dir + "/page.jsx") == dir
  {
    var s := dir + "/page.jsx";
    var n := |dir|;
    assert s[n + 6] == 'j';
    PageSuffixAnchored(dir, "/page.jsx", "/page.tsx");
    MismatchAt(s, "/page.tsx", n, 6);
    ReplaceNoOccurrence(s, "/page.tsx", "");
    PageSuffixAnchored(dir, "/page.jsx", "/page.ts");
    MismatchAt(s, "/page.ts", n, 6);
    ReplaceNoOccurrence(s, "/page.ts", "");
    PageSuffixAnchored(dir, "/page.jsx", "/page.jsx");
    ReplaceOnlyAtEnd(dir, "/page.jsx", "");
    assert dir + "" == dir;
    StripPageNamesDotFree(dir);
  }

  lemma StripJs(dir: string)
    requires '.' !in dir
    ensures StripPageNames(dir + "/page.js") == dir
  {
    var s := dir + "/page.js";
    var n := |dir|;
    assert s[n + 6] == 'j';
    PageSuffixAnchored(dir, "/page.js", "/page.tsx");
    MismatchAt(s, "/page.tsx", n, 6);
    ReplaceNoOccurrence(s, "/page.tsx", "");
    PageSuffixAnchored(dir, "/page.js", "/page.ts");
    MismatchAt(s, "/page.ts", n, 6);
    ReplaceNoOccurrence(s, "/page.ts", "");
    PageSuffixAnchored(dir, "/page.js", "/page.jsx");
    ReplaceNoOccurrence(s, "/page.jsx", "");
    PageSuffixAnchored(dir, "/page.js", "/page.js");
    ReplaceOnlyAtEnd(dir, "/page.js", "");
  }

  /** Deleting the page file names from `dir + suffix` leaves `dir`. */
  lemma StripPageName(dir: string, suffix: string)
    requires '.' !in dir && suffix in PageSuffixes
    ensures StripPageNames(dir + suffix) == dir
  {
    if suffix == "/page.tsx" {
      StripTsx(dir);
    } else if suffix == "/page.jsx" {
      StripJsx(dir);
    } else if suffix == "/page.ts" {
      StripTs(dir);
    } else {
      StripJs(dir);
    }
  }

  /**
   * Every page below `app/` is a route file, and it serves the URL of its
   * directory: `app/<dir>/page.<ext>` maps to `/<dir>` for any directory
   * path without dots or backslashes (an empty one giving `/`).
   */
  lemma RouteOfPage(dir: string, suffix: string)
    requires '.' !in dir && '\\' !in dir && suffix in PageSuffixes
    ensures IsAppRouteFile("app/" + dir + suffix)
    ensures RouteFromAppPage("app/" + dir + suffix) == "/" + dir
  {
    PagePathShape(dir, suffix);
    var k :| 0 <= k < |PageSuffixes| && PageSuffixes[k] == suffix;
    assert EndsWith("app/" + dir + suffix, PageSuffixes[k]);
    StripPageName(dir, suffix);
    assert dir !in ["page.tsx", "page.ts", "page.jsx", "page.js"] by {
      assert forall w :: w in ["page.tsx", "page.ts", "page.jsx", "page.js"] ==> w[4] == '.';
    }
  }

  /** `app/<dir><suffix>` has forward slashes only, starts with `app/`, ends with the suffix. */
  lemma PagePathShape(dir: string, suffix: string)
    requires '\\' !in dir && suffix in PageSuffixes
    ensures var path := "app/" + dir + suffix;
      NormSlashes(path) == path && StartsWith(path, "app/") && EndsWith(path, suffix) && path[4..] == dir + suffix
  {
    var path := "app/" + dir + suffix;
    assert '\\' !in suffix;
    assert '\\' !in path;
    assert path[..4] == "app/";
    assert path[|path| - |suffix|..] == suffix;
    assert path[4..] == dir + suffix;
  }

  /** Without a slash there is no page file name to delete. */
  lemma StripPageNamesNoSlash(s: string)
    requires '/' !in s
    ensures StripPageNames(s) == s
  {
    NoOccurrenceWithout(s, "/page.tsx", 0);
    ReplaceNoOccurrence(s, "/page.tsx", "");
    NoOccurrenceWithout(s, "/page.ts", 0);
    ReplaceNoOccurrence(s, "/page.ts", "");
    NoOccurrenceWithout(s, "/page.jsx", 0);
    ReplaceNoOccurrence(s, "/page.jsx", "");
    NoOccurrenceWithout(s, "/page.js", 0);
    ReplaceNoOccurrence(s, "/page.js", "");
  }

  /** The root page is `/`, whichever of the four extensions it has. */
  lemma RootRoute(name: string)
    requires name in ["page.tsx", "page.ts", "page.jsx", "page.js"]
    ensures RouteFromAppPage("app/" + name) == "/"
  {
    var root := "app/" + name;
    assert '\\' !in root;
    assert root[4..] == name;
    assert '/' !in name;
    StripPageNamesNoSlash(name);
  }

  // ---------------------------------------------------------------------------
  // Resolving a page's imports
  // ---------------------------------------------------------------------------

  /**
   * `resolve_relative_import`: only imports starting with `.` are resolved;
   * `joinNorm(from, imp)` stands for `normpath(join(dirname(from), imp))`.
   */
  function ResolveRelativeImport(fromFileRel: string, importPath: string,
                                 joinNorm: (string, string) -> string): (r: string)
    ensures !StartsWith(importPath, ".") ==> r == ""
    ensures '\\' !in r
  {
    if !StartsWith(importPath, ".") then ""
    else NormSlashes(joinNorm(NormSlashes(fromFileRel), importPath))
  }

  const Extensions: seq<string> := [".ts", ".tsx", ".js", ".jsx"]

  /** The paths `guess_ts_file` probes, in order: `rel + ext`, then `rel/index + ext`. */
  function Candidates(relNoExt: string): (cs: seq<string>)
    ensures |cs| == 8
  {
    [relNoExt + ".ts", relNoExt + ".tsx", relNoExt + ".js", relNoExt + ".jsx",
     relNoExt + "/index.ts", relNoExt + "/index.tsx", relNoExt + "/index.js", relNoExt + "/index.jsx"]
  }

  /** The probes are `rel` with each extension, then `rel/index` with each, in the order of `Extensions`. */
  lemma CandidatesOrder(relNoExt: string)
    ensures |Candidates(relNoExt)| == 2 * |Extensions|
    ensures forall i :: 0 <= i < |Extensions| ==>
      Candidates(relNoExt)[i] == relNoExt + Extensions[i] &&
      Candidates(relNoExt)[|Extensions| + i] == relNoExt + "/index" + Extensions[i]
  {
  }

  /** The first of `cands` that is in `present`. */
  function FirstPresent(cands: seq<string>, present: set<string>): (r: Option<string>)
    ensures r.None? <==> forall i :: 0 <= i < |cands| ==> cands[i] !in present
    ensures r.Some? ==> exists i :: 0 <= i < |cands| && cands[i] == r.value && r.value in present &&
                                    forall j :: 0 <= j < i ==> cands[j] !in present
  {
    if cands == [] then None
    else if cands[0] in present then Some(cands[0])
    else
      var r := FirstPresent(cands[1..], present);
      assert forall i :: 1 <= i < |cands| ==> cands[i] == cands[1..][i - 1];
      r
  }

  /** The first present candidate is found wherever it sits. */
  lemma {:induction false} FirstPresentAt(cands: seq<string>, present: set<string>, i: nat)
    requires i < |cands| && cands[i] in present
    requires forall j :: 0 <= j < i ==> cands[j] !in present
    ensures FirstPresent(cands, present) == Some(cands[i])
  {
    if i > 0 {
      FirstPresentAt(cands[1..], present, i - 1);
    }
  }

  /** The value `guess_ts_file` returns: the first candidate on disk, else `""`. */
  function GuessedFile(relNoExt: string, onDisk: set<string>): string
  {
    match FirstPresent(Candidates(relNoExt), onDisk)
    case Some(c) => c
    case None => ""
  }

  /**
   * `guess_ts_file`: the two probing loops with their early returns;
   * `onDisk` stands for `os.path.exists` below the repository root.
   */
  method GuessTsFile(relNoExt: string, onDisk: set<string>) returns (r: string)
    ensures r == GuessedFile(relNoExt, onDisk)
    ensures r == "" <==> forall c :: c in Candidates(relNoExt) ==> c !in onDisk
    ensures r != "" ==> r in onDisk && r in Candidates(relNoExt)
  {
    var cs := Candidates(relNoExt);
    for e := 0 to |Extensions|
      invariant forall j :: 0 <= j < e ==> cs[j] !in onDisk
    {
      var candidate := relNoExt + Extensions[e];
      assert candidate == cs[e];
      if candidate in onDisk {
        FirstPresentAt(cs, onDisk, e);
        return candidate;
      }
    }
    for e := 0 to |Extensions|
      invariant forall j :: 0 <= j < 4 + e ==> cs[j] !in onDisk
    {
      var candidate := relNoExt + "/index" + Extensions[e];
      assert candidate == cs[4 + e];
      if candidate in onDisk {
        FirstPresentAt(cs, onDisk, 4 + e);
        return candidate;
      }
    }
    return "";
  }

  /** The outside world one page's imports are resolved against. */
  datatype Repo = Repo(
    onDisk: set<string>,                     // `os.path.exists` below the root
    importsOf: string -> seq<string>,        // `parse_imports(read_text(file))`
    joinNorm: (string, string) -> string)    // `normpath(join(dirname(from), imp))`

  /**
   * `resolved_local` for the page `rel`: each relative import that resolves
   * to a probed file which is also one of the collected TS files.
   */
  function LocalImports(rel: string, imports: seq<string>, repo: Repo, existing: set<string>): (r: seq<string>)
    ensures |r| <= |imports|
    ensures forall x :: x in r ==> x in existing && x in repo.onDisk
  {
    if imports == [] then []
    else
      var r := LocalImports(rel, imports[..|imports| - 1], repo, existing);
      var relNoExt := ResolveRelativeImport(rel, imports[|imports| - 1], repo.joinNorm);
      if relNoExt == "" then r
      else
        var guess := GuessedFile(relNoExt, repo.onDisk);
        if guess != "" && guess in existing then r + [guess] else r
  }

  /** The import loop of `build_route_component_map` for one page. */
  method ResolveLocal(rel: string, imports: seq<string>, repo: Repo, existing: set<string>)
    returns (resolved: seq<string>)
    ensures resolved == LocalImports(rel, imports, repo, existing)
  {
    resolved := [];
    for i := 0 to |imports|
      invariant resolved == LocalImports(rel, imports[..i], repo, existing)
    {
      assert imports[..i + 1][..i] == imports[..i];
      var relNoExt := ResolveRelativeImport(rel, imports[i], repo.joinNorm);
      if relNoExt == "" {
        continue;
      }
      var guess := GuessTsFile(relNoExt, repo.onDisk);
      if guess != "" && guess in existing {
        resolved := resolved + [guess];
      }
    }
    assert imports[..|imports|] == imports;
  }

  // ---------------------------------------------------------------------------
  // The route map
  // ---------------------------------------------------------------------------

  /** `{"route_file": ..., "imports": [...]}`. */
  datatype RouteInfo = RouteInfo(routeFile: string, imports: seq<string>)

  /** The route dict, as its entries in insertion order. */
  type Routes = seq<(string, RouteInfo)>

  /** `existing_rel`: the collected TS files with forward slashes. */
  function ExistingRel(tsFiles: seq<string>): (s: set<string>)
    ensures forall p :: p in tsFiles ==> NormSlashes(p) in s
    ensures forall x :: x in s ==> exists p :: p in tsFiles && x == NormSlashes(p)
  {
    set p | p in tsFiles :: NormSlashes(p)
  }

  /** The entry one page file contributes: its route, the file, its de-duplicated local imports. */
  function PageEntry(rel: string, repo: Repo, existing: set<string>): RouteInfo
  {
    RouteInfo(rel, Distinct(LocalImports(rel, repo.importsOf(rel), repo, existing)))
  }

  /** The route dict after the loop has seen `files`. */
  function RoutesOf(files: seq<string>, repo: Repo, existing: set<string>): Routes
  {
    if files == [] then []
    else
      var r := RoutesOf(files[..|files| - 1], repo, existing);
      var rel := NormSlashes(files[|files| - 1]);
      if IsAppRouteFile(rel) then Put(r, RouteFromAppPage(rel), PageEntry(rel, repo, existing)) else r
  }

  /**
   * `build_route_component_map` over the collected TS files `tsFiles`
   * (relative paths): every route page, with its local imports
   * de-duplicated in first-occurrence order.
   */
  method BuildRouteComponentMap(tsFiles: seq<string>, repo: Repo) returns (routes: Routes)
    ensures routes == RoutesOf(tsFiles, repo, ExistingRel(tsFiles))
  {
    routes := [];
    var existing := ExistingRel(tsFiles);
    for k := 0 to |tsFiles|
      invariant routes == RoutesOf(tsFiles[..k], repo, existing)
    {
      assert tsFiles[..k + 1][..k] == tsFiles[..k];
      var relPath := NormSlashes(tsFiles[k]);
      if !IsAppRouteFile(relPath) {
        continue;
      }
      var route := RouteFromAppPage(relPath);
      var imports := repo.importsOf(relPath);
      var resolved := ResolveLocal(relPath, imports, repo, existing);
      var uniq := Dedupe(resolved);
      routes := Put(routes, route, RouteInfo(relPath, uniq));
    }
    assert tsFiles[..|tsFiles|] == tsFiles;
  }

  /** What every entry of the route map satisfies. */
  predicate GoodEntry(e: (string, RouteInfo), repo: Repo, existing: set<string>)
  {
    && IsAppRouteFile(e.1.routeFile)
    && e.0 == RouteFromAppPage(e.1.routeFile)
    && NoDup(e.1.imports)
    && (forall x :: x in e.1.imports ==> x in existing && x in repo.onDisk)
  }

  /**
   * The route map has one entry per route; each entry is keyed by the route
   * of its page file, and lists only collected files, each once.
   */
  lemma {:induction false} RoutesWellFormed(files: seq<string>, repo: Repo, existing: set<string>)
    ensures NoDup(Keys(RoutesOf(files, repo, existing)))
    ensures forall i :: 0 <= i < |RoutesOf(files, repo, existing)| ==>
              GoodEntry(RoutesOf(files, repo, existing)[i], repo, existing)
  {
    if files != [] {
      var init := files[..|files| - 1];
      RoutesWellFormed(init, repo, existing);
      var rel := NormSlashes(files[|files| - 1]);
      if IsAppRouteFile(rel) {
        PutPageKeepsGood(RoutesOf(init, repo, existing), rel, repo, existing);
      }
    }
  }

  /** Entering one route page keeps the keys unique and every entry good. */
  lemma PutPageKeepsGood(r: Routes, rel: string, repo: Repo, existing: set<string>)
    requires IsAppRouteFile(rel) && NormSlashes(rel) == rel
    requires NoDup(Keys(r)) && forall i :: 0 <= i < |r| ==> GoodEntry(r[i], repo, existing)
    ensures var r' := Put(r, RouteFromAppPage(rel), PageEntry(rel, repo, existing));
      NoDup(Keys(r')) && forall i :: 0 <= i < |r'| ==> GoodEntry(r'[i], repo, existing)
  {
    var e := PageEntry(rel, repo, existing);
    PutSpec(r, RouteFromAppPage(rel), e);
    PageEntryGood(rel, repo, existing);
    PutKeeps(r, RouteFromAppPage(rel), e, x => GoodEntry(x, repo, existing));
  }

  /** The entry of a route page satisfies `GoodEntry`. */
  lemma PageEntryGood(rel: string, repo: Repo, existing: set<string>)
    requires IsAppRouteFile(rel) && NormSlashes(rel) == rel
    ensures GoodEntry((RouteFromAppPage(rel), PageEntry(rel, repo, existing)), repo, existing)
  {
    DistinctSpec(LocalImports(rel, repo.importsOf(rel), repo, existing));
  }

  /**
   * A later page with the same route replaces the earlier entry: after the
   * page `f`, its route maps to `f` and its imports.
   */
  lemma LaterPageWins(files: seq<string>, f: string, repo: Repo, existing: set<string>)
    requires IsAppRouteFile(NormSlashes(f))
    ensures Get(RoutesOf(files + [f], repo, existing), RouteFromAppPage(NormSlashes(f))) ==
            Some(PageEntry(NormSlashes(f), repo, existing))
  {
    var all := files + [f];
    assert all[..|all| - 1] == files;
    RoutesWellFormed(files, repo, existing);
    PutSpec(RoutesOf(files, repo, existing), RouteFromAppPage(NormSlashes(f)), PageEntry(NormSlashes(f), repo, existing));
  }

  /** Files that are not route pages leave the map as it is. */
  lemma OtherFilesIgnored(files: seq<string>, f: string, repo: Repo, existing: set<string>)
    requires !IsAppRouteFile(NormSlashes(f))
    ensures RoutesOf(files + [f], repo, existing) == RoutesOf(files, repo, existing)
  {
    var all := files + [f];
    assert all[..|all| - 1] == files;
  }

  // ---------------------------------------------------------------------------
  // Rendering
  // ---------------------------------------------------------------------------

  const RoutesHeader: string := "# Routes + Component Map (Next.js App Router)\n"
  const NoRoutesLine: string := "No App Router `app/**/page.*` routes detected.\n"

  function ImportLines(imports: seq<string>): (ls: seq<string>)
    ensures |ls| == |imports|
    ensures forall i :: 0 <= i < |imports| ==> ls[i] == "  - `" + imports[i] + "`"
  {
    if imports == [] then []
    else ImportLines(imports[..|imports| - 1]) + ["  - `" + imports[|imports| - 1] + "`"]
  }

  /** The lines of one route's section, ending with the blank separator line. */
  function Section(route: string, info: RouteInfo): seq<string>
  {
    var head := ["## Route: `" + route + "`", "- Route file: `" + info.routeFile + "`"];
    if info.imports != [] then
      head + ["- Local imports used by this route:"] + ImportLines(info.imports) + [""]
    else
      head + ["- Local imports used by this route: (none detected)", ""]
  }

  /**
   * A section opens with the route heading and the route file, lists one
   * line per import (or says none were detected) and ends with a blank line.
   */
  lemma SectionShape(route: string, info: RouteInfo)
    ensures var ls := Section(route, info);
            |ls| >= 4 && ls[0] == "## Route: `" + route + "`" &&
            ls[1] == "- Route file: `" + info.routeFile + "`" && ls[|ls| - 1] == ""
    ensures info.imports == [] ==>
              Section(route, info)[2] == "- Local imports used by this route: (none detected)" && |Section(route, info)| == 4
    ensures info.imports != [] ==>
              |Section(route, info)| == 4 + |info.imports| &&
              forall i :: 0 <= i < |info.imports| ==> Section(route, info)[3 + i] == "  - `" + info.imports[i] + "`"
  {
  }

  /** The routes of the dict in `sorted()` order. */
  function SortedRoutes(routes: Routes): seq<string>
  {
    SortBy(Keys(routes), StrLe)
  }

  /** The sections of `keys`, each looked up in `routes`. */
  function SectionsOf(routes: Routes, keys: seq<string>): seq<string>
    requires forall k :: k in keys ==> k in Keys(routes)
  {
    if keys == [] then []
    else
      var k := keys[|keys| - 1];
      SectionsOf(routes, keys[..|keys| - 1]) + Section(k, Get(routes, k).value)
  }

  /** The lines `render_routes_md` joins. */
  function RoutesMdLines(routes: Routes): seq<string>
  {
    if routes == [] then [RoutesHeader, NoRoutesLine]
    else
      SortByElements(Keys(routes), StrLe);
      [RoutesHeader] + SectionsOf(routes, SortedRoutes(routes))
  }

  /** The body of the rendering loop for one route. */
  method RenderSection(route: string, info: RouteInfo) returns (section: seq<string>)
    ensures section == Section(route, info)
  {
    section := ["## Route: `" + route + "`", "- Route file: `" + info.routeFile + "`"];
    if info.imports != [] {
      section := section + ["- Local imports used by this route:"];
      ghost var head := section;
      for j := 0 to |info.imports|
        invariant section == head + ImportLines(info.imports[..j])
      {
        assert info.imports[..j + 1][..j] == info.imports[..j];
        section := section + ["  - `" + info.imports[j] + "`"];
      }
      assert info.imports[..|info.imports|] == info.imports;
    } else {
      section := section + ["- Local imports used by this route: (none detected)"];
    }
    section := section + [""];
  }

  /** One turn of the rendering loop: the section of `keys[k]` after the earlier ones. */
  method AppendSection(routes: Routes, keys: seq<string>, k: nat, lines: seq<string>) returns (lines': seq<string>)
    requires k < |keys| && forall x :: x in keys ==> x in Keys(routes)
    requires lines == SectionsOf(routes, keys[..k])
    ensures lines' == SectionsOf(routes, keys[..k + 1])
  {
    var route := keys[k];
    TakeSnoc(keys, k);
    SectionsSnoc(routes, keys[..k], route);
    var info := Get(routes, route).value;
    var section := RenderSection(route, info);
    lines' := lines + section;
  }

  /** The rendering loop over the sorted routes. */
  method RenderSections(routes: Routes, keys: seq<string>) returns (lines: seq<string>)
    requires forall x :: x in keys ==> x in Keys(routes)
    ensures lines == SectionsOf(routes, keys)
  {
    lines := [];
    for k := 0 to |keys|
      invariant lines == SectionsOf(routes, keys[..k])
    {
      lines := AppendSection(routes, keys, k, lines);
    }
    assert keys[..|keys|] == keys;
  }

  /** `render_routes_md`: the header, then one section per route in sorted order. */
  method RenderRoutesMd(routes: Routes) returns (md: string)
    ensures md == Join("\n", RoutesMdLines(routes))
  {
    var lines := [RoutesHeader];
    if routes == [] {
      lines := lines + [NoRoutesLine];
      assert lines == [RoutesHeader, NoRoutesLine];
      return Join("\n", lines);
    }
    SortByElements(Keys(routes), StrLe);
    var sections := RenderSections(routes, SortedRoutes(routes));
    lines := lines + sections;
    md := Join("\n", lines);
  }

  /** Without routes the page is the header and the "none detected" line. */
  lemma EmptyRoutesMd()
    ensures Join("\n", RoutesMdLines([])) == RoutesHeader + "\n" + NoRoutesLine
  {
    assert [RoutesHeader, NoRoutesLine][..1] == [RoutesHeader];
  }

  /**
   * The sections follow the routes in ascending string order, each route
   * of the dict exactly once.
   */
  lemma SortedRoutesSpec(routes: Routes)
    requires NoDup(Keys(routes))
    ensures SortedBy(SortedRoutes(routes), StrLe)
    ensures multiset(SortedRoutes(routes)) == multiset(Keys(routes))
    ensures forall k :: k in SortedRoutes(routes) <==> k in Keys(routes)
  {
    StrLeIsTotalOrder();
    SortBySorted(Keys(routes), StrLe);
    SortByElements(Keys(routes), StrLe);
  }

  /** One more route in the loop adds its section after the ones before. */
  lemma SectionsSnoc(routes: Routes, keys: seq<string>, k: string)
    requires forall x :: x in keys ==> x in Keys(routes)
    requires k in Keys(routes)
    ensures SectionsOf(routes, keys + [k]) == SectionsOf(routes, keys) + Section(k, Get(routes, k).value)
  {
    assert (keys + [k])[..|keys|] == keys;
  }
}
