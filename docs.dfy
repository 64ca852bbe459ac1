/**
 * The decision logic of the generated documents: the markdown rendering of
 * the nested file tree, the search for notebooks in it, the classification
 * of a repository as Python, Node or unknown and as a notebook/ML project,
 * the choice of onboarding template, and the command lists the templates
 * number or bullet.
 *
 * The file tree is Python's nested dict: a folder maps to a dict, a file to
 * a non-dict value; entries keep insertion order. Existence of a file at the
 * repository root is membership of its relative path in `onDisk`.
 */
module Docs {
  import opened Wrappers
  import opened Strings
  import opened Seqs

  /** A value of the tree dict: a nested dict (folder) or anything else (file). */
  datatype Node = Dir(entries: seq<(string, Node)>) | File

  /** A tree dict: names and values in insertion order. */
  type Tree = seq<(string, Node)>

  /** The number of entries at every depth. */
  function TreeSize(entries: Tree): nat
    decreases entries
  {
    if entries == [] then 0
    else TreeSize(entries[..|entries| - 1]) + EntrySize(entries[|entries| - 1])
  }

  function EntrySize(e: (string, Node)): nat
    decreases e
  {
    match e.1
    case Dir(children) => 1 + TreeSize(children)
    case File => 1
  }

  /** A folder's contents are a strictly smaller tree than the tree holding it. */
  lemma {:induction false} ChildSmaller(entries: Tree, i: nat)
    requires i < |entries| && entries[i].1.Dir?
    ensures TreeSize(entries[i].1.entries) < TreeSize(entries)
  {
    if i < |entries| - 1 {
      ChildSmaller(entries[..|entries| - 1], i);
      assert entries[..|entries| - 1][i] == entries[i];
    }
  }

  // ---------------------------------------------------------------------------
  // Files overview
  // ---------------------------------------------------------------------------

  function Indent(depth: nat): string
  {
    Repeat("  ", depth)
  }

  function FolderLine(depth: nat, name: string): string
  {
    Indent(depth) + "- **" + name + "/**"
  }

  function FileLine(depth: nat, name: string): string
  {
    Indent(depth) + "- " + name
  }

  /** The lines `render(node, indent)` produces. */
  function TreeLines(entries: Tree, depth: nat): seq<string>
    decreases entries
  {
    if entries == [] then []
    else TreeLines(entries[..|entries| - 1], depth) + EntryLines(entries[|entries| - 1], depth)
  }

  function EntryLines(e: (string, Node), depth: nat): seq<string>
    decreases e
  {
    match e.1
    case Dir(children) => [FolderLine(depth, e.0)] + TreeLines(children, depth + 1)
    case File => [FileLine(depth, e.0)]
  }

  lemma TreeLinesSnoc(entries: Tree, depth: nat, i: nat)
    requires i < |entries|
    ensures TreeLines(entries[..i + 1], depth) == TreeLines(entries[..i], depth) + EntryLines(entries[i], depth)
  {
    assert entries[..i + 1][..i] == entries[..i];
  }

  /** `render`: a line per entry, each folder followed by its contents one level deeper. */
  method Render(node: Tree, depth: nat) returns (lines: seq<string>)
    ensures lines == TreeLines(node, depth)
    decreases TreeSize(node)
  {
    lines := [];
    for i := 0 to |node|
      invariant lines == TreeLines(node[..i], depth)
    {
      var (k, v) := node[i];
      TreeLinesSnoc(node, depth, i);
      match v {
        case Dir(children) =>
          ghost var before := lines;
          lines := lines + [FolderLine(depth, k)];
          ChildSmaller(node, i);
          var sub := Render(children, depth + 1);
          lines := lines + sub;
          ConcatAssoc(before, [FolderLine(depth, k)], sub);
        case File =>
          lines := lines + [FileLine(depth, k)];
      }
    }
    assert node[..|node|] == node;
  }

  const OverviewHeader := "# Files Overview\n\n"

  /** The text `generate_files_overview` returns. */
  function FilesOverview(tree: Tree): string
  {
    OverviewHeader + Join("\n", TreeLines(tree, 0)) + "\n"
  }

  /** `generate_files_overview`. */
  method GenerateFilesOverview(tree: Tree) returns (md: string)
    ensures md == FilesOverview(tree)
  {
    var lines := Render(tree, 0);
    md := OverviewHeader + Join("\n", lines) + "\n";
  }

  /** One line per entry of the tree, at every depth. */
  lemma {:induction false} TreeLinesCount(entries: Tree, depth: nat)
    ensures |TreeLines(entries, depth)| == TreeSize(entries)
    decreases entries
  {
    if entries != [] {
      TreeLinesCount(entries[..|entries| - 1], depth);
      EntryLinesCount(entries[|entries| - 1], depth);
    }
  }

  lemma {:induction false} EntryLinesCount(e: (string, Node), depth: nat)
    ensures |EntryLines(e, depth)| == EntrySize(e)
    decreases e
  {
    match e.1 {
      case Dir(children) => TreeLinesCount(children, depth + 1);
      case File =>
    }
  }

  lemma IndentDeeper(depth: nat)
    ensures StartsWith(Indent(depth + 1), Indent(depth))
  {
    RepeatSnoc("  ", depth);
  }

  lemma StartsWithTrans(s: string, t: string, u: string)
    requires StartsWith(s, t) && StartsWith(t, u)
    ensures StartsWith(s, u)
  {
    assert s[..|u|] == s[..|t|][..|u|];
  }

  /** No line of a tree rendered at some depth is indented less than that depth. */
  lemma {:induction false} TreeLinesIndented(entries: Tree, depth: nat)
    ensures forall i :: 0 <= i < |TreeLines(entries, depth)| ==> StartsWith(TreeLines(entries, depth)[i], Indent(depth))
    decreases entries
  {
    if entries != [] {
      var init, last := entries[..|entries| - 1], entries[|entries| - 1];
      TreeLinesIndented(init, depth);
      EntryLinesIndented(last, depth);
    }
  }

  lemma {:induction false} EntryLinesIndented(e: (string, Node), depth: nat)
    ensures forall i :: 0 <= i < |EntryLines(e, depth)| ==> StartsWith(EntryLines(e, depth)[i], Indent(depth))
    decreases e
  {
    match e.1 {
      case Dir(children) =>
        TreeLinesIndented(children, depth + 1);
        IndentDeeper(depth);
        var sub := TreeLines(children, depth + 1);
        forall i | 0 <= i < |sub| ensures StartsWith(sub[i], Indent(depth)) {
          StartsWithTrans(sub[i], Indent(depth + 1), Indent(depth));
        }
        assert StartsWith(FolderLine(depth, e.0), Indent(depth));
      case File =>
        assert StartsWith(FileLine(depth, e.0), Indent(depth));
    }
  }

  // ---------------------------------------------------------------------------
  // Notebooks
  // ---------------------------------------------------------------------------

  /** `f"{prefix}/{k}" if prefix else k`. */
  function JoinPath(prefix: string, name: string): string
  {
    if prefix != "" then prefix + "/" + name else name
  }

  /** The paths `_find_notebooks_in_tree` collects, depth-first. */
  function Notebooks(entries: Tree, prefix: string): seq<string>
    decreases entries
  {
    if entries == [] then []
    else Notebooks(entries[..|entries| - 1], prefix) + EntryNotebooks(entries[|entries| - 1], prefix)
  }

  function EntryNotebooks(e: (string, Node), prefix: string): seq<string>
    decreases e
  {
    match e.1
    case Dir(children) => Notebooks(children, JoinPath(prefix, e.0))
    case File => if EndsWith(e.0, ".ipynb") then [JoinPath(prefix, e.0)] else []
  }

  /** Every file of the tree as (path, name), depth-first. */
  function Leaves(entries: Tree, prefix: string): seq<(string, string)>
    decreases entries
  {
    if entries == [] then []
    else Leaves(entries[..|entries| - 1], prefix) + EntryLeaves(entries[|entries| - 1], prefix)
  }

  function EntryLeaves(e: (string, Node), prefix: string): seq<(string, string)>
    decreases e
  {
    match e.1
    case Dir(children) => Leaves(children, JoinPath(prefix, e.0))
    case File => [(JoinPath(prefix, e.0), e.0)]
  }

  lemma NotebooksSnoc(entries: Tree, prefix: string, i: nat)
    requires i < |entries|
    ensures Notebooks(entries[..i + 1], prefix) == Notebooks(entries[..i], prefix) + EntryNotebooks(entries[i], prefix)
  {
    assert entries[..i + 1][..i] == entries[..i];
  }

  /** `_find_notebooks_in_tree`. */
  method FindNotebooksInTree(tree: Tree, prefix: string) returns (notebooks: seq<string>)
    ensures notebooks == Notebooks(tree, prefix)
    decreases TreeSize(tree)
  {
    notebooks := [];
    for i := 0 to |tree|
      invariant notebooks == Notebooks(tree[..i], prefix)
    {
      var (k, v) := tree[i];
      NotebooksSnoc(tree, prefix, i);
      var path := if prefix != "" then prefix + "/" + k else k;
      match v {
        case Dir(children) =>
          ChildSmaller(tree, i);
          var sub := FindNotebooksInTree(children, path);
          notebooks := notebooks + sub;
        case File =>
          if EndsWith(k, ".ipynb") {
            notebooks := notebooks + [path];
          }
      }
    }
    assert tree[..|tree|] == tree;
  }

  /**
   * The notebooks are exactly the paths of files whose own name ends in
   * `.ipynb`; a folder with such a name is searched, never listed.
   */
  lemma {:induction false} NotebooksAreIpynbFiles(entries: Tree, prefix: string)
    ensures forall p :: p in Notebooks(entries, prefix) <==>
              exists n :: (p, n) in Leaves(entries, prefix) && EndsWith(n, ".ipynb")
    decreases entries
  {
    if entries != [] {
      NotebooksAreIpynbFiles(entries[..|entries| - 1], prefix);
      EntryNotebooksAreIpynbFiles(entries[|entries| - 1], prefix);
    }
  }

  lemma {:induction false} EntryNotebooksAreIpynbFiles(e: (string, Node), prefix: string)
    ensures forall p :: p in EntryNotebooks(e, prefix) <==>
              exists n :: (p, n) in EntryLeaves(e, prefix) && EndsWith(n, ".ipynb")
    decreases e
  {
    match e.1 {
      case Dir(children) => NotebooksAreIpynbFiles(children, JoinPath(prefix, e.0));
      case File =>
    }
  }

  /** A folder named like a notebook is not a notebook: `x.ipynb/` holding nothing yields none. */
  lemma NotebookFolderNotListed()
    ensures Notebooks([("x.ipynb", Dir([]))], "") == []
  {
    assert [("x.ipynb", Dir([]))][..0] == [];
  }

  // ---------------------------------------------------------------------------
  // Root-level folders
  // ---------------------------------------------------------------------------

  /** `name in tree and isinstance(tree[name], dict)`. */
  predicate IsFolderAt(tree: Tree, name: string)
  {
    Get(tree, name).Some? && Get(tree, name).value.Dir?
  }

  /** `_has_folder_in_tree`. */
  method HasFolderInTree(tree: Tree, folderNames: seq<string>) returns (r: bool)
    ensures r <==> exists i :: 0 <= i < |folderNames| && IsFolderAt(tree, folderNames[i])
  {
    for i := 0 to |folderNames|
      invariant forall j :: 0 <= j < i ==> !IsFolderAt(tree, folderNames[j])
    {
      var name := folderNames[i];
      if name in Keys(tree) && Get(tree, name).value.Dir? {
        return true;
      }
    }
    return false;
  }

  // ---------------------------------------------------------------------------
  // Project type and onboarding template
  // ---------------------------------------------------------------------------

  /** The strings `"python"`, `"node"` and `"unknown"` of `_detect_project_type`. */
  datatype ProjectType = PythonProject | NodeProject | UnknownProject

  predicate HasPythonManifest(onDisk: set<string>)
  {
    "requirements.txt" in onDisk || "pyproject.toml" in onDisk || "setup.py" in onDisk
  }

  /** `_detect_project_type`; an empty `root` is Python's falsy path. */
  function DetectProjectType(root: string, onDisk: set<string>): ProjectType
  {
    if root == "" then UnknownProject
    else if HasPythonManifest(onDisk) then PythonProject
    else if "package.json" in onDisk then NodeProject
    else UnknownProject
  }

  /**
   * Python wins over Node: a repository is Node only when it has a
   * `package.json` and none of the three Python manifests.
   */
  lemma ProjectTypeSpec(root: string, onDisk: set<string>)
    ensures DetectProjectType(root, onDisk) == PythonProject <==> root != "" && HasPythonManifest(onDisk)
    ensures DetectProjectType(root, onDisk) == NodeProject <==>
              root != "" && !HasPythonManifest(onDisk) && "package.json" in onDisk
    ensures DetectProjectType(root, onDisk) == UnknownProject <==>
              root == "" || (!HasPythonManifest(onDisk) && "package.json" !in onDisk)
  {
  }

  /** The four onboarding templates. */
  datatype Guide = NextJsGuide | PythonGuide | NodeGuide | GenericGuide

  /** `generate_onboarding_md`: the App Router template when `app/layout.tsx` exists. */
  function OnboardingGuide(root: string, onDisk: set<string>): (g: Guide)
    ensures g == NextJsGuide <==> root != "" && "app/layout.tsx" in onDisk
  {
    if root != "" && "app/layout.tsx" in onDisk then NextJsGuide
    else match DetectProjectType(root, onDisk)
      case PythonProject => PythonGuide
      case NodeProject => NodeGuide
      case UnknownProject => GenericGuide
  }

  /** Outside the App Router case, the generic template follows the project type. */
  lemma GenericGuideFollowsType(root: string, onDisk: set<string>)
    requires !(root != "" && "app/layout.tsx" in onDisk)
    ensures OnboardingGuide(root, onDisk) == PythonGuide <==> DetectProjectType(root, onDisk) == PythonProject
    ensures OnboardingGuide(root, onDisk) == NodeGuide <==> DetectProjectType(root, onDisk) == NodeProject
    ensures OnboardingGuide(root, onDisk) == GenericGuide <==> DetectProjectType(root, onDisk) == UnknownProject
  {
  }

  // ---------------------------------------------------------------------------
  // Notebook / ML repositories
  // ---------------------------------------------------------------------------

  const NotebookFolders: seq<string> := ["notebooks", "nbs", "notebook", "experiments", "jupyter"]

  const MlIndicators: seq<string> := [
    "torch", "tensorflow", "keras", "scikit-learn", "sklearn", "pandas", "numpy", "jupyter", "notebook"
  ]

  /** How many of `libs` occur in `content`. */
  function CountPresent(libs: seq<string>, content: string): (n: nat)
    ensures n <= |libs|
  {
    if libs == [] then 0
    else CountPresent(libs[..|libs| - 1], content) + (if Contains(content, libs[|libs| - 1]) then 1 else 0)
  }

  /** `sum(1 for lib in libs if lib in content)`. */
  method CountIndicators(libs: seq<string>, content: string) returns (n: nat)
    ensures n == CountPresent(libs, content)
  {
    n := 0;
    for j := 0 to |libs|
      invariant n == CountPresent(libs[..j], content)
    {
      assert libs[..j + 1][..j] == libs[..j];
      if Contains(content, libs[j]) {
        n := n + 1;
      }
    }
    assert libs[..|libs|] == libs;
  }

  /**
   * The verdict of `is_notebook_ml_repo`; `requirements` is the text of
   * `requirements.txt` when that file exists and reads.
   */
  function IsNotebookMl(root: string, tree: Tree, requirements: Option<string>): bool
  {
    if tree == [] then false
    else if exists i :: 0 <= i < |NotebookFolders| && IsFolderAt(tree, NotebookFolders[i]) then true
    else if |Notebooks(tree, "")| > 0 then true
    else root != "" && requirements.Some? && CountPresent(MlIndicators, Lower(requirements.value)) >= 3
  }

  /** `is_notebook_ml_repo`. */
  method IsNotebookMlRepo(root: string, tree: Tree, requirements: Option<string>) returns (r: bool)
    ensures r == IsNotebookMl(root, tree, requirements)
  {
    if tree == [] {
      return false;
    }
    var hasFolder := HasFolderInTree(tree, NotebookFolders);
    if hasFolder {
      return true;
    }
    var notebooks := FindNotebooksInTree(tree, "");
    if |notebooks| > 0 {
      return true;
    }
    if root != "" && requirements.Some? {
      var content := Lower(requirements.value);
      var mlCount := CountIndicators(MlIndicators, content);
      if mlCount >= 3 {
        return true;
      }
    }
    return false;
  }

  /**
   * An empty tree is never a notebook repository; a root-level notebook
   * folder or any `.ipynb` file makes it one; otherwise it takes three ML
   * libraries named in `requirements.txt`.
   */
  lemma IsNotebookMlSpec(root: string, tree: Tree, requirements: Option<string>)
    ensures tree == [] ==> !IsNotebookMl(root, tree, requirements)
    ensures (tree != [] && exists i :: 0 <= i < |NotebookFolders| && IsFolderAt(tree, NotebookFolders[i]))
              ==> IsNotebookMl(root, tree, requirements)
    ensures (tree != [] && exists p, n :: (p, n) in Leaves(tree, "") && EndsWith(n, ".ipynb"))
              ==> IsNotebookMl(root, tree, requirements)
    ensures (tree != []
               && (forall i :: 0 <= i < |NotebookFolders| ==> !IsFolderAt(tree, NotebookFolders[i]))
               && (forall p, n :: (p, n) in Leaves(tree, "") ==> !EndsWith(n, ".ipynb")))
              ==> (IsNotebookMl(root, tree, requirements) <==>
                     root != "" && requirements.Some? && CountPresent(MlIndicators, Lower(requirements.value)) >= 3)
  {
    NotebooksAreIpynbFiles(tree, "");
    var nbs := Notebooks(tree, "");
    if |nbs| > 0 {
      assert nbs[0] in nbs;
    }
    if exists p, n :: (p, n) in Leaves(tree, "") && EndsWith(n, ".ipynb") {
      var p, n :| (p, n) in Leaves(tree, "") && EndsWith(n, ".ipynb");
      assert p in nbs;
    }
  }

  // ---------------------------------------------------------------------------
  // Command lists in the templates
  // ---------------------------------------------------------------------------

  /** `"\n".join([render(x) for x in items]) if items else fallback`. */
  function ListOrFallback(items: seq<string>, render: string -> string, fallback: string): string
  {
    if items == [] then fallback else Join("\n", Map(items, render))
  }

  /** A non-empty list gives one line per item, when no rendered item holds a newline. */
  lemma ListOrFallbackLines(items: seq<string>, render: string -> string, fallback: string)
    requires items != []
    requires forall i :: 0 <= i < |items| ==> '\n' !in render(items[i])
    ensures Split(ListOrFallback(items, render, fallback), '\n') == Map(items, render)
  {
    SplitJoin(Map(items, render), '\n');
  }

  function ExplainerLine(cmd: string): string
  {
    "- " + cmd
  }

  /** The `Run Commands:` block of `generate_repo_explainer_prompt`. */
  function ExplainerCommands(runCmds: seq<string>): string
  {
    ListOrFallback(runCmds, ExplainerLine, "- (not found)")
  }

  /** A bullet per command, or the `- (not found)` placeholder for none. */
  lemma ExplainerCommandsSpec(runCmds: seq<string>)
    requires forall i :: 0 <= i < |runCmds| ==> '\n' !in runCmds[i]
    ensures runCmds == [] ==> ExplainerCommands(runCmds) == "- (not found)"
    ensures runCmds != [] ==> Split(ExplainerCommands(runCmds), '\n') == Map(runCmds, ExplainerLine)
  {
    if runCmds != [] {
      forall i | 0 <= i < |runCmds| ensures '\n' !in ExplainerLine(runCmds[i]) {
        assert ExplainerLine(runCmds[i]) == "- " + runCmds[i];
      }
      ListOrFallbackLines(runCmds, ExplainerLine, "- (not found)");
    }
  }

  /** The placeholder cannot be told from a single command spelled `(not found)`. */
  lemma ExplainerPlaceholderAmbiguous()
    ensures ExplainerCommands([]) == ExplainerCommands(["(not found)"])
  {
    var lines := Map(["(not found)"], ExplainerLine);
    assert lines[0] == ExplainerLine("(not found)") == "- (not found)";
    assert lines == ["- (not found)"];
  }

  function PythonRunLine(cmd: string): string
  {
    "4. `" + cmd + "`"
  }

  /** The run step of the Python onboarding template: every command is numbered 4. */
  function PythonRunSection(runCommands: seq<string>): string
  {
    ListOrFallback(runCommands, PythonRunLine, "4. Run the project (check README / entry points)")
  }

  function NodeRunLine(cmd: string): string
  {
    "- `" + cmd + "`"
  }

  /** The run step of the Node onboarding template. */
  function NodeRunSection(runCommands: seq<string>): string
  {
    ListOrFallback(runCommands, NodeRunLine, "- Check `package.json` scripts")
  }

  /** Every line of the Python run step carries the same number, 4. */
  lemma PythonRunSectionNumbering(runCommands: seq<string>)
    requires runCommands != []
    requires forall i :: 0 <= i < |runCommands| ==> '\n' !in runCommands[i]
    ensures |Split(PythonRunSection(runCommands), '\n')| == |runCommands|
    ensures forall i :: 0 <= i < |runCommands| ==> StartsWith(Split(PythonRunSection(runCommands), '\n')[i], "4. ")
  {
    forall i | 0 <= i < |runCommands| ensures '\n' !in PythonRunLine(runCommands[i]) {
      assert PythonRunLine(runCommands[i]) == "4. `" + runCommands[i] + "`";
    }
    ListOrFallbackLines(runCommands, PythonRunLine, "4. Run the project (check README / entry points)");
  }

  /** The run step of the Node template: a bullet per command, or the hint to check `package.json` for none. */
  lemma NodeRunSectionSpec(runCommands: seq<string>)
    requires forall i :: 0 <= i < |runCommands| ==> '\n' !in runCommands[i]
    ensures runCommands == [] ==> NodeRunSection(runCommands) == "- Check `package.json` scripts"
    ensures runCommands != [] ==> Split(NodeRunSection(runCommands), '\n') == Map(runCommands, NodeRunLine)
  {
    if runCommands != [] {
      forall i | 0 <= i < |runCommands| ensures '\n' !in NodeRunLine(runCommands[i]) {
        assert NodeRunLine(runCommands[i]) == "- `" + runCommands[i] + "`";
      }
      ListOrFallbackLines(runCommands, NodeRunLine, "- Check `package.json` scripts");
    }
  }

  // ---------------------------------------------------------------------------
  // Next.js quick start numbering
  // ---------------------------------------------------------------------------

  const DefaultNextRunCommands: seq<string> := ["npm install", "npm run dev"]

  /** `run_commands or ["npm install", "npm run dev"]`. */
  function NextRunCommands(runCommands: seq<string>): (cmds: seq<string>)
    ensures cmds != []
  {
    if runCommands == [] then DefaultNextRunCommands else runCommands
  }

  /** `f"{k}. {text}"`. */
  function NumberedStep(k: nat, text: string): string
  {
    NatToString(k) + ". " + text
  }

  function CommandStep(cmds: seq<string>, i: nat): string
    requires i < |cmds|
  {
    NumberedStep(i + 1, "`" + cmds[i] + "`")
  }

  const BrowserStepText := "Open [http://localhost:3000](http://localhost:3000) in your browser"

  /** The Quick Start block of the Next.js template, as its lines. */
  function NextQuickStartLines(runCommands: seq<string>): seq<string>
  {
    var cmds := NextRunCommands(runCommands);
    seq(|cmds|, i requires 0 <= i < |cmds| => CommandStep(cmds, i))
    + [NumberedStep(|cmds| + 1, BrowserStepText)]
  }

  /** The Quick Start block as the template writes it: the commands, a newline, the browser step. */
  function NextQuickStart(runCommands: seq<string>): string
  {
    var cmds := NextRunCommands(runCommands);
    Join("\n", seq(|cmds|, i requires 0 <= i < |cmds| => CommandStep(cmds, i)))
    + "\n" + NumberedStep(|cmds| + 1, BrowserStepText)
  }

  /** A numbered step starts with its number and `. `. */
  lemma NumberedStepPrefix(k: nat, text: string)
    ensures StartsWith(NumberedStep(k, text), NatToString(k) + ". ")
  {
    var p := NatToString(k) + ". ";
    assert NumberedStep(k, text) == p + text;
    assert (p + text)[..|p|] == p;
  }

  /**
   * The steps are numbered 1, 2, ... in order: one per command (the two
   * defaults when none are given) and the browser step last.
   */
  lemma NextQuickStartNumbering(runCommands: seq<string>)
    ensures NextQuickStart(runCommands) == Join("\n", NextQuickStartLines(runCommands))
    ensures |NextQuickStartLines(runCommands)| == |NextRunCommands(runCommands)| + 1
    ensures runCommands == [] ==> |NextQuickStartLines(runCommands)| == 3
    ensures forall i :: 0 <= i < |NextQuickStartLines(runCommands)| ==>
              StartsWith(NextQuickStartLines(runCommands)[i], NatToString(i + 1) + ". ")
  {
    var cmds := NextRunCommands(runCommands);
    var steps := seq(|cmds|, i requires 0 <= i < |cmds| => CommandStep(cmds, i));
    var last := NumberedStep(|cmds| + 1, BrowserStepText);
    JoinSnoc("\n", steps, last);
    var lines := NextQuickStartLines(runCommands);
    assert lines == steps + [last];
    forall i | 0 <= i < |lines| ensures StartsWith(lines[i], NatToString(i + 1) + ". ") {
      if i < |cmds| {
        assert lines[i] == CommandStep(cmds, i);
        NumberedStepPrefix(i + 1, "`" + cmds[i] + "`");
      } else {
        assert lines[i] == last;
        NumberedStepPrefix(i + 1, BrowserStepText);
      }
    }
  }
}
