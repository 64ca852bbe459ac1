/**
 * The deny rule every directory walk of the repository applies to file and
 * folder names alike: an exact folder-name match, or a case-insensitive
 * extension match.
 */
module FileFilter {
  import opened Strings

  const IgnoreExtensions: seq<string> := [
    ".png", ".jpg", ".jpeg", ".gif", ".webp", ".svg", ".ico",
    ".exe", ".dll", ".so", ".bin",
    ".zip", ".tar", ".gz", ".7z",
    ".pdf", ".lock"
  ]

  const IgnoreFolders: seq<string> := [
    ".git", "node_modules", "dist", "build", ".venv", "__pycache__",
    ".idea", ".vscode", ".next", "out", "public"
  ]

  /**
   * True exactly for a name equal to an ignored folder, or whose lower-cased
   * form ends with an ignored extension.
   */
  function ShouldIgnore(name: string): (r: bool)
    ensures r <==> name in IgnoreFolders
                   || exists i :: 0 <= i < |IgnoreExtensions| && EndsWith(Lower(name), IgnoreExtensions[i])
  {
    if name in IgnoreFolders then true
    else EndsWithAny(Lower(name), IgnoreExtensions)
  }

  /** The extension test depends on the letters only, not on their case. */
  lemma ExtensionVerdictIgnoresCase(a: string, b: string)
    requires Lower(a) == Lower(b)
    requires a !in IgnoreFolders && b !in IgnoreFolders
    ensures ShouldIgnore(a) == ShouldIgnore(b)
  {
  }

  /** A name whose lower-cased last character ends no ignored extension matches none of them. */
  lemma NoExtensionByLastChar(name: string)
    requires name != [] && Lower(name)[|name| - 1] !in "gfpoelnrzk"
    ensures !exists i :: 0 <= i < |IgnoreExtensions| && EndsWith(Lower(name), IgnoreExtensions[i])
  {
    forall i | 0 <= i < |IgnoreExtensions| ensures !EndsWith(Lower(name), IgnoreExtensions[i]) {
      var e := IgnoreExtensions[i];
      assert e[|e| - 1] in "gfpoelnrzk";
      EndsWithLastChar(Lower(name), e);
    }
  }

  /** Folder names match exactly: a differently-cased folder is kept. */
  lemma FolderMatchIsCaseSensitive()
    ensures ShouldIgnore("node_modules") && !ShouldIgnore("Node_Modules")
  {
    var n := "Node_Modules";
    assert n[0] == 'N';
    assert n !in IgnoreFolders;
    assert Lower(n)[|n| - 1] == 's';
    NoExtensionByLastChar(n);
  }

  /** Extensions match whatever their case; ordinary source files are kept. */
  lemma ExtensionExamples()
    ensures ShouldIgnore("LOGO.PNG") && ShouldIgnore("yarn.lock")
    ensures !ShouldIgnore("main.py") && !ShouldIgnore("README.md")
  {
    var logo := "LOGO.PNG";
    assert Lower(logo)[4..] == ".png";
    assert EndsWith(Lower(logo), IgnoreExtensions[0]);
    assert EndsWith(Lower("yarn.lock"), IgnoreExtensions[16]);
    var m := "main.py";
    assert |m| == 7 && m !in IgnoreFolders;
    assert Lower(m)[6] == 'y';
    NoExtensionByLastChar(m);
    var r := "README.md";
    assert |r| == 9 && r !in IgnoreFolders;
    assert Lower(r)[8] == 'd';
    NoExtensionByLastChar(r);
  }

  /** One rule serves both walks: a file called `dist` is skipped, a folder called `x.zip` is pruned. */
  lemma OneRuleForFilesAndFolders()
    ensures ShouldIgnore("dist") && ShouldIgnore("x.zip") && ShouldIgnore(".git")
  {
    assert EndsWith(Lower("x.zip"), IgnoreExtensions[11]);
  }
}
