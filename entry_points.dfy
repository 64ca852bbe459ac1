/**
 * Entry-point detection: which framework a repository looks like, which of
 * a fixed list of entry files it has, and which npm scripts it can run.
 *
 * The file system is the set `onDisk` of paths relative to the repository
 * root (directories included), so `exists(repo_root, p)` is `p in onDisk`.
 * `package.json` is `None` when it is missing or does not parse; its
 * `scripts` object is a dict of script names to their command text.
 */
module EntryPoints {
  import opened Wrappers
  import opened Seqs

  /** The parts of `package.json` the detectors read. */
  datatype PackageJson = PackageJson(scripts: Option<seq<(string, string)>>)

  /** The `framework` field. */
  datatype Framework = NextJs | PythonGeneric | Unknown

  function FrameworkName(f: Framework): string
  {
    match f
    case NextJs => "Next.js"
    case PythonGeneric => "Python (generic)"
    case Unknown => "Unknown"
  }

  /** The fixed notes the detectors can emit; `NoteText` gives their wording. */
  datatype Note = AppRouterNote | PagesRouterNote | NextConfigNote | PythonEntryNote | NoPythonEntryNote | UnknownNote

  function NoteText(n: Note): string
  {
    match n
    case AppRouterNote =>
      "Detected Next.js App Router (`app/` directory). Root route is `app/page.*` and root layout is `app/layout.*`."
    case PagesRouterNote =>
      "Detected Next.js Pages Router (`pages/` directory). Root route is `pages/index.*` and app wrapper is `pages/_app.*`."
    case NextConfigNote =>
      "Found `next.config.*` but no clear `app/` or `pages/` router entry files were detected."
    case PythonEntryNote => "Detected common Python entrypoint filenames."
    case NoPythonEntryNote =>
      "No common Python entrypoint filenames found. Entry may be inside a package or configured via pyproject/cli."
    case UnknownNote =>
      "Could not detect framework reliably. Next upgrade: add more detectors (React/Vite, Spring, Django, etc.)."
  }

  /** The dict every detector returns. */
  datatype Detection = Detection(framework: Framework, entryFiles: seq<string>, runCommands: seq<string>, notes: seq<Note>)

  // ---------------------------------------------------------------------------
  // Keeping the candidates that exist
  // ---------------------------------------------------------------------------

  /** `for p in cands: if exists(repo_root, p): acc.append(p)`. */
  method AppendExisting(acc: seq<string>, cands: seq<string>, onDisk: set<string>) returns (r: seq<string>)
    ensures r == acc + KeepPresent(cands, onDisk)
  {
    r := acc;
    for i := 0 to |cands|
      invariant r == acc + KeepPresent(cands[..i], onDisk)
    {
      assert cands[..i + 1][..i] == cands[..i];
      if cands[i] in onDisk {
        r := r + [cands[i]];
      }
    }
    assert cands[..|cands|] == cands;
  }

  /** The existing candidates of a list the detector only walks when `gate` holds. */
  function Gated<T>(gate: bool, cands: seq<T>, present: set<T>): seq<T>
  {
    if gate then KeepPresent(cands, present) else []
  }

  /** Nothing is kept exactly when no candidate is present. */
  lemma KeepPresentEmpty<T>(cands: seq<T>, present: set<T>)
    ensures KeepPresent(cands, present) == [] <==> forall x :: x in cands ==> x !in present
  {
    var r := KeepPresent(cands, present);
    if r != [] {
      assert r[0] in cands && r[0] in present;
    }
    if exists x :: x in cands && x in present {
      var x :| x in cands && x in present;
      var i :| 0 <= i < |cands| && cands[i] == x;
      assert x in r;
    }
  }

  /** Two gated candidate lists with no common element: what they list, each once. */
  lemma GatedPairSpec<T>(ga: bool, a: seq<T>, gb: bool, b: seq<T>, present: set<T>)
    requires NoDup(a) && NoDup(b) && forall x :: x in a ==> x !in b
    ensures forall x :: x in Gated(ga, a, present) + Gated(gb, b, present) <==>
              x in present && ((ga && x in a) || (gb && x in b))
    ensures NoDup(Gated(ga, a, present) + Gated(gb, b, present))
  {
    KeepPresentOrder(a, present);
    KeepPresentOrder(b, present);
    var ka, kb := Gated(ga, a, present), Gated(gb, b, present);
    forall x | x in present && ((ga && x in a) || (gb && x in b)) ensures x in ka + kb {
      if ga && x in a {
        var i :| 0 <= i < |a| && a[i] == x;
      } else {
        var i :| 0 <= i < |b| && b[i] == x;
      }
    }
    var r := ka + kb;
    forall i, j | 0 <= i < j < |r| ensures r[i] != r[j] {
      if j < |ka| {
        assert r[i] == ka[i] && r[j] == ka[j];
      } else if i >= |ka| {
        assert r[i] == kb[i - |ka|] && r[j] == kb[j - |ka|];
      } else {
        assert r[i] == ka[i] && r[i] in a;
        assert r[j] == kb[j - |ka|] && r[j] in b;
      }
    }
  }

  /** Keeping from a three-element list tests each element in turn. */
  lemma KeepPresentThree<T>(x: T, y: T, z: T, present: set<T>)
    ensures KeepPresent([x, y, z], present)
              == (if x in present then [x] else []) + (if y in present then [y] else []) + (if z in present then [z] else [])
  {
    var one, two := if x in present then [x] else [], if y in present then [y] else [];
    assert [x][..0] == [];
    assert KeepPresent([x], present) == one;
    assert [x, y][..1] == [x];
    assert KeepPresent([x, y], present) == one + two;
    assert [x, y, z][..2] == [x, y];
  }

  /** Mapping over an optional element. */
  lemma MapOptional<T, U>(keep: bool, x: T, f: T -> U)
    ensures Map(if keep then [x] else [], f) == if keep then [f(x)] else []
  {
    if keep {
      assert [x][..0] == [];
    }
  }

  /** Keeping from a three-element list and mapping tests each element in turn. */
  lemma MapKeepPresentThree<T, U>(x: T, y: T, z: T, present: set<T>, f: T -> U)
    ensures Map(KeepPresent([x, y, z], present), f)
              == (if x in present then [f(x)] else []) + (if y in present then [f(y)] else [])
                 + (if z in present then [f(z)] else [])
  {
    var one, two, three := if x in present then [x] else [], if y in present then [y] else [],
                           if z in present then [z] else [];
    KeepPresentThree(x, y, z, present);
    MapAppend(one + two, three, f);
    MapAppend(one, two, f);
    MapOptional(x in present, x, f);
    MapOptional(y in present, y, f);
    MapOptional(z in present, z, f);
  }

  // ---------------------------------------------------------------------------
  // Next.js
  // ---------------------------------------------------------------------------

  const AppCandidates: seq<string> := ["app/layout.tsx", "app/layout.jsx", "app/page.tsx", "app/page.jsx"]

  const PagesCandidates: seq<string> := ["pages/_app.tsx", "pages/_app.jsx", "pages/index.tsx", "pages/index.jsx"]

  predicate AppRouter(onDisk: set<string>)
  {
    "app/layout.tsx" in onDisk || "app/layout.jsx" in onDisk
  }

  predicate PagesRouter(onDisk: set<string>)
  {
    "pages/index.tsx" in onDisk || "pages/index.jsx" in onDisk || "pages/_app.tsx" in onDisk
  }

  /** The scripts `detect_nextjs_entrypoints` turns into commands, in order. */
  const ScriptOrder: seq<string> := ["dev", "build", "start"]

  /** The scripts of a parsed `package.json` with a `scripts` key, or none. */
  function Scripts(pkg: Option<PackageJson>): seq<(string, string)>
  {
    if pkg.Some? && pkg.value.scripts.Some? then pkg.value.scripts.value else []
  }

  /** `npm run <name> (runs: <command>)`; the `dev` line has two spaces before the parenthesis. */
  function ScriptCommand(name: string, body: string): string
  {
    "npm run " + name + (if name == "dev" then "  " else " ") + "(runs: " + body + ")"
  }

  /** The command for a script the `scripts` dict holds. */
  function CommandFor(scripts: seq<(string, string)>, name: string): string
  {
    match Get(scripts, name)
    case Some(body) => ScriptCommand(name, body)
    case None => ""
  }

  /** `run_cmds` after the three `if "<name>" in scripts` appends. */
  function RunCommands(scripts: seq<(string, string)>): seq<string>
  {
    (if "dev" in Keys(scripts) then [CommandFor(scripts, "dev")] else [])
    + (if "build" in Keys(scripts) then [CommandFor(scripts, "build")] else [])
    + (if "start" in Keys(scripts) then [CommandFor(scripts, "start")] else [])
  }

  /** The entry files `detect_nextjs_entrypoints` lists. */
  function NextEntryFiles(onDisk: set<string>): seq<string>
  {
    Gated(AppRouter(onDisk), AppCandidates, onDisk) + Gated(PagesRouter(onDisk), PagesCandidates, onDisk)
  }

  /** The notes `detect_nextjs_entrypoints` emits. */
  function NextNotes(onDisk: set<string>): seq<Note>
  {
    (if AppRouter(onDisk) then [AppRouterNote] else [])
    + (if PagesRouter(onDisk) then [PagesRouterNote] else [])
    + (if NextEntryFiles(onDisk) == [] && "next.config.ts" in onDisk then [NextConfigNote] else [])
  }

  function NextDetection(onDisk: set<string>, pkg: Option<PackageJson>): Detection
  {
    Detection(NextJs, NextEntryFiles(onDisk), RunCommands(Scripts(pkg)), NextNotes(onDisk))
  }

  /** The three `if "<name>" in scripts` appends of `detect_nextjs_entrypoints`. */
  method CollectRunCommands(pkg: Option<PackageJson>) returns (runCmds: seq<string>)
    ensures runCmds == RunCommands(Scripts(pkg))
  {
    runCmds := [];
    if pkg.Some? && pkg.value.scripts.Some? {
      var scripts := pkg.value.scripts.value;
      if "dev" in Keys(scripts) {
        runCmds := runCmds + [ScriptCommand("dev", Get(scripts, "dev").value)];
      }
      if "build" in Keys(scripts) {
        runCmds := runCmds + [ScriptCommand("build", Get(scripts, "build").value)];
      }
      if "start" in Keys(scripts) {
        runCmds := runCmds + [ScriptCommand("start", Get(scripts, "start").value)];
      }
    }
  }

  /** `detect_nextjs_entrypoints`. */
  method DetectNextjsEntrypoints(onDisk: set<string>, pkg: Option<PackageJson>) returns (d: Detection)
    ensures d == NextDetection(onDisk, pkg)
  {
    var appRouter := "app/layout.tsx" in onDisk || "app/layout.jsx" in onDisk;
    var pagesRouter := "pages/index.tsx" in onDisk || "pages/index.jsx" in onDisk || "pages/_app.tsx" in onDisk;
    var entryFiles: seq<string> := [];
    var notes: seq<Note> := [];
    var runCmds := CollectRunCommands(pkg);
    ghost var appFiles := Gated(appRouter, AppCandidates, onDisk);
    ghost var pagesFiles := Gated(pagesRouter, PagesCandidates, onDisk);
    if appRouter {
      notes := notes + [AppRouterNote];
      entryFiles := AppendExisting(entryFiles, AppCandidates, onDisk);
      assert entryFiles == appFiles;
    }
    if pagesRouter {
      notes := notes + [PagesRouterNote];
      entryFiles := AppendExisting(entryFiles, PagesCandidates, onDisk);
    }
    assert entryFiles == appFiles + pagesFiles == NextEntryFiles(onDisk);
    ghost var routerNotes := (if AppRouter(onDisk) then [AppRouterNote] else []) + (if PagesRouter(onDisk) then [PagesRouterNote] else []);
    assert notes == routerNotes;
    if entryFiles == [] && "next.config.ts" in onDisk {
      notes := notes + [NextConfigNote];
    }
    assert notes == NextNotes(onDisk);
    d := Detection(NextJs, entryFiles, runCmds, notes);
  }

  /** The present script names among `dev`, `build`, `start`, in that order. */
  function PresentScripts(scripts: seq<(string, string)>): seq<string>
  {
    KeepPresent(ScriptOrder, set k | k in Keys(scripts))
  }

  /**
   * One command per present script among `dev`, `build` and `start`, in that
   * order; none without a parsed `package.json` holding `scripts`.
   */
  lemma RunCommandsSpec(pkg: Option<PackageJson>)
    ensures (pkg.None? || pkg.value.scripts.None?) ==> RunCommands(Scripts(pkg)) == []
    ensures RunCommands(Scripts(pkg)) == Map(PresentScripts(Scripts(pkg)), name => CommandFor(Scripts(pkg), name))
  {
    var scripts := Scripts(pkg);
    var keys := set k | k in Keys(scripts);
    MapKeepPresentThree("dev", "build", "start", keys, name => CommandFor(scripts, name));
  }

  /** The command of a present script runs that script's own command text. */
  lemma CommandForSpec(scripts: seq<(string, string)>, name: string)
    requires name in Keys(scripts)
    ensures exists body :: (name, body) in scripts && CommandFor(scripts, name) == ScriptCommand(name, body)
  {
    var body := Get(scripts, name).value;
    assert (name, body) in scripts;
  }

  /** The entry files are existing candidates of a recognised router, at most once each. */
  lemma NextEntryFilesSpec(onDisk: set<string>)
    ensures forall f :: f in NextEntryFiles(onDisk) <==>
              f in onDisk && ((AppRouter(onDisk) && f in AppCandidates) || (PagesRouter(onDisk) && f in PagesCandidates))
    ensures NoDup(NextEntryFiles(onDisk))
  {
    assert NoDup(AppCandidates) && NoDup(PagesCandidates);
    assert forall x :: x in AppCandidates ==> x !in PagesCandidates;
    GatedPairSpec(AppRouter(onDisk), AppCandidates, PagesRouter(onDisk), PagesCandidates, onDisk);
  }

  /** Inside each router the candidates keep their fixed order, the App Router's first. */
  lemma NextEntryFilesOrder(onDisk: set<string>)
    ensures AppRouter(onDisk) && PagesRouter(onDisk) ==>
              NextEntryFiles(onDisk) == KeepPresent(AppCandidates, onDisk) + KeepPresent(PagesCandidates, onDisk)
    ensures forall i, j :: 0 <= i < j < |KeepPresent(AppCandidates, onDisk)| ==>
              FirstIndex(AppCandidates, KeepPresent(AppCandidates, onDisk)[i])
              < FirstIndex(AppCandidates, KeepPresent(AppCandidates, onDisk)[j])
    ensures forall i, j :: 0 <= i < j < |KeepPresent(PagesCandidates, onDisk)| ==>
              FirstIndex(PagesCandidates, KeepPresent(PagesCandidates, onDisk)[i])
              < FirstIndex(PagesCandidates, KeepPresent(PagesCandidates, onDisk)[j])
  {
    KeepPresentOrder(AppCandidates, onDisk);
    KeepPresentOrder(PagesCandidates, onDisk);
  }

  /**
   * The routers are recognised by their root files only: a page without a
   * root layout, or `pages/_app.jsx` without an index or `pages/_app.tsx`,
   * is not listed.
   */
  lemma RouterGates(onDisk: set<string>)
    ensures !AppRouter(onDisk) ==> forall f :: f in NextEntryFiles(onDisk) ==> f in PagesCandidates
    ensures !PagesRouter(onDisk) ==> forall f :: f in NextEntryFiles(onDisk) ==> f in AppCandidates
    ensures !AppRouter(onDisk) && !PagesRouter(onDisk) ==> NextEntryFiles(onDisk) == []
  {
    NextEntryFilesSpec(onDisk);
  }

  /**
   * The "no router files" note is emitted exactly when no entry file was
   * found and `next.config.ts` exists; a `next.config.js` alone never
   * triggers it.
   */
  lemma NextConfigNoteSpec(onDisk: set<string>)
    ensures NextConfigNote in NextNotes(onDisk) <==> NextEntryFiles(onDisk) == [] && "next.config.ts" in onDisk
    ensures AppRouterNote in NextNotes(onDisk) <==> AppRouter(onDisk)
    ensures PagesRouterNote in NextNotes(onDisk) <==> PagesRouter(onDisk)
    ensures (AppRouter(onDisk) || PagesRouter(onDisk)) ==> NextConfigNote !in NextNotes(onDisk)
  {
    if AppRouter(onDisk) {
      assert AppCandidates[0] in onDisk || AppCandidates[1] in onDisk;
      KeepPresentEmpty(AppCandidates, onDisk);
    }
    if PagesRouter(onDisk) {
      assert PagesCandidates[0] in onDisk || PagesCandidates[2] in onDisk || PagesCandidates[3] in onDisk;
      KeepPresentEmpty(PagesCandidates, onDisk);
    }
  }

  // ---------------------------------------------------------------------------
  // Python
  // ---------------------------------------------------------------------------

  const PythonCandidates: seq<string> := ["main.py", "app.py", "server.py", "run.py", "wsgi.py", "asgi.py"]

  function PythonDetection(onDisk: set<string>): Detection
  {
    var found := KeepPresent(PythonCandidates, onDisk);
    Detection(PythonGeneric, found, [], [if found != [] then PythonEntryNote else NoPythonEntryNote])
  }

  /** `detect_python_entrypoints`. */
  method DetectPythonEntrypoints(onDisk: set<string>) returns (d: Detection)
    ensures d == PythonDetection(onDisk)
  {
    var candidates := AppendExisting([], PythonCandidates, onDisk);
    var notes: seq<Note> := [];
    if candidates != [] {
      notes := notes + [PythonEntryNote];
    } else {
      notes := notes + [NoPythonEntryNote];
    }
    d := Detection(PythonGeneric, candidates, [], notes);
  }

  /**
   * The Python entry files are exactly the existing candidates, in the
   * candidates' order and once each; there is one note and no command.
   */
  lemma PythonDetectionSpec(onDisk: set<string>)
    ensures forall f :: f in PythonDetection(onDisk).entryFiles <==> f in PythonCandidates && f in onDisk
    ensures NoDup(PythonDetection(onDisk).entryFiles)
    ensures forall i, j :: 0 <= i < j < |PythonDetection(onDisk).entryFiles| ==>
              FirstIndex(PythonCandidates, PythonDetection(onDisk).entryFiles[i])
              < FirstIndex(PythonCandidates, PythonDetection(onDisk).entryFiles[j])
    ensures PythonDetection(onDisk).runCommands == [] && |PythonDetection(onDisk).notes| == 1
    ensures PythonDetection(onDisk).notes[0] == NoPythonEntryNote <==> forall f :: f in PythonCandidates ==> f !in onDisk
  {
    KeepPresentOrder(PythonCandidates, onDisk);
    KeepPresentEmpty(PythonCandidates, onDisk);
    var found := KeepPresent(PythonCandidates, onDisk);
    forall f | f in PythonCandidates && f in onDisk ensures f in found {
      var i :| 0 <= i < |PythonCandidates| && PythonCandidates[i] == f;
    }
  }

  // ---------------------------------------------------------------------------
  // The decision chain
  // ---------------------------------------------------------------------------

  predicate LooksLikeNext(onDisk: set<string>)
  {
    "package.json" in onDisk && ("next.config.js" in onDisk || "next.config.ts" in onDisk || "app" in onDisk)
  }

  predicate HasPythonManifest(onDisk: set<string>)
  {
    "requirements.txt" in onDisk || "pyproject.toml" in onDisk || "setup.py" in onDisk
  }

  const UnknownDetection := Detection(Unknown, [], [], [UnknownNote])

  /** What `detect_entrypoints` returns. */
  function Detect(onDisk: set<string>, pkg: Option<PackageJson>): Detection
  {
    if "package.json" in onDisk && ("next.config.js" in onDisk || "next.config.ts" in onDisk) then NextDetection(onDisk, pkg)
    else if "package.json" in onDisk && "app" in onDisk then NextDetection(onDisk, pkg)
    else if HasPythonManifest(onDisk) then PythonDetection(onDisk)
    else UnknownDetection
  }

  /** `detect_entrypoints`. */
  method DetectEntrypoints(onDisk: set<string>, pkg: Option<PackageJson>) returns (d: Detection)
    ensures d == Detect(onDisk, pkg)
  {
    if "package.json" in onDisk && ("next.config.js" in onDisk || "next.config.ts" in onDisk) {
      d := DetectNextjsEntrypoints(onDisk, pkg);
      return;
    }
    if "package.json" in onDisk && "app" in onDisk {
      d := DetectNextjsEntrypoints(onDisk, pkg);
      return;
    }
    if "requirements.txt" in onDisk || "pyproject.toml" in onDisk || "setup.py" in onDisk {
      d := DetectPythonEntrypoints(onDisk);
      return;
    }
    d := UnknownDetection;
  }

  /**
   * Next.js wins whenever `package.json` sits beside a Next config or an
   * `app` directory, even when Python manifests are present; Python comes
   * next; otherwise the result is Unknown with no files, no commands and
   * the one fallback note. Only the Next.js detector looks at `package.json`.
   */
  lemma DetectSpec(onDisk: set<string>, pkg: Option<PackageJson>)
    ensures Detect(onDisk, pkg).framework == NextJs <==> LooksLikeNext(onDisk)
    ensures Detect(onDisk, pkg).framework == PythonGeneric <==> !LooksLikeNext(onDisk) && HasPythonManifest(onDisk)
    ensures Detect(onDisk, pkg).framework == Unknown <==> !LooksLikeNext(onDisk) && !HasPythonManifest(onDisk)
    ensures Detect(onDisk, pkg).framework == Unknown ==>
              Detect(onDisk, pkg).entryFiles == [] && Detect(onDisk, pkg).runCommands == []
              && Detect(onDisk, pkg).notes == [UnknownNote]
    ensures Detect(onDisk, pkg).framework != NextJs ==> Detect(onDisk, pkg).runCommands == []
    ensures !LooksLikeNext(onDisk) ==> forall other :: Detect(onDisk, other) == Detect(onDisk, pkg)
  {
  }
}
