/** The run's configuration and the two name-only classifications: junk
    (hidden from the tree and the contents) and assets (listed in the tree,
    contents never read). */
module Classify {
  import opened Text

  /** Folding thresholds of the tree renderer. */
  const MaxDisplayFiles: nat := 24
  const KeepHeadFiles: nat := 8
  const KeepTailFiles: nat := 8

  /** The settings the core reads. The source keeps them in one global that
      main adjusts (OutputFile, NoFold) before the walk; here they are an
      immutable value handed to every component. */
  datatype Config = Config(
    outputFile: string,
    ignoredDirs: set<string>,
    ignoredExts: set<string>,
    ignoredFiles: set<string>,
    maxFileSize: int,
    textExts: set<string>,
    noFold: bool)

  /** The defaults the program starts from. */
  const Default := Config(
    "project_context.md",
    {".git", ".idea", ".vscode", "node_modules", "__pycache__", "dist", "build",
     "vendor", "bin", "obj", "target", ".next", "coverage"},
    {".png", ".jpg", ".jpeg", ".gif", ".ico", ".svg", ".mp4", ".mp3", ".wav", ".webp",
     ".zip", ".tar", ".gz", ".7z", ".rar",
     ".exe", ".dll", ".so", ".dylib", ".class", ".pyc", ".o",
     ".ttf", ".woff", ".woff2", ".eot",
     ".lock", ".pdf", ".ds_store"},
    {"dir2txt.go", "dir2txt", "dir2txt.exe"},
    1024 * 1024,
    {".md", ".txt", ".log", ".go", ".java", ".py", ".js", ".ts", ".c", ".cpp", ".h", ".hpp",
     ".html", ".css", ".xml", ".yaml", ".yml", ".json", ".sql", ".properties", ".ini",
     ".sh", ".bat", ".conf", ".toml"},
    false)

  /** The names that are never junk although they start with '.'. */
  predicate IsExempt(name: string) {
    name == "." || name == ".env" || name == ".gitignore"
  }

  /** isJunk: an entry that appears nowhere in the output. */
  predicate IsJunk(cfg: Config, name: string)
    ensures IsExempt(name) ==> !IsJunk(cfg, name)
    ensures !IsExempt(name) && HasPrefix(name, ".") ==> IsJunk(cfg, name)
    ensures !HasPrefix(name, ".") ==>
              (IsJunk(cfg, name) <==> name in cfg.ignoredFiles || name in cfg.ignoredDirs)
  {
    if name == "." then false
    else if name == ".env" || name == ".gitignore" then false
    else if name in cfg.ignoredFiles then true
    else if HasPrefix(name, ".") then true
    else if name in cfg.ignoredDirs then true
    else false
  }

  /** The extension that decides the asset and forced-text lists: the
      lower-cased filepath.Ext. */
  function LowerExt(name: string): string {
    ToLower(Ext(name))
  }

  /** isAsset: listed in the tree, but its content is never read. */
  predicate IsAsset(cfg: Config, name: string) {
    LowerExt(name) in cfg.ignoredExts
  }

  /** Lower-casing commutes with taking the extension. */
  lemma {:induction false} ExtOfLower(p: string)
    ensures Ext(ToLower(p)) == ToLower(Ext(p))
    decreases |p|
  {
    if p != [] {
      LowerLast(p);
      if p[|p| - 1] != '/' && p[|p| - 1] != '.' {
        ExtOfLower(p[..|p| - 1]);
        ExtOfLowerStep(p);
      }
    }
  }

  lemma ExtOfLowerStep(p: string)
    requires p != [] && p[|p| - 1] != '.' && p[|p| - 1] != '/'
    requires Ext(ToLower(p[..|p| - 1])) == ToLower(Ext(p[..|p| - 1]))
    ensures Ext(ToLower(p)) == ToLower(Ext(p))
  {
    var q, c := p[..|p| - 1], p[|p| - 1];
    LowerLast(p);
    ExtStep(p);
    ExtStep(ToLower(p));
    if Ext(q) != [] {
      LowerSnoc(Ext(q), c);
    }
  }

  lemma LowerSnoc(s: string, c: char)
    ensures ToLower(s + [c]) == ToLower(s) + [LowerChar(c)]
  {
  }

  lemma LowerLast(p: string)
    requires p != []
    ensures ToLower(p)[..|p| - 1] == ToLower(p[..|p| - 1])
    ensures ToLower(p)[|p| - 1] == LowerChar(p[|p| - 1])
  {
  }

  /** One step of filepath.Ext when the last character is an ordinary one. */
  lemma ExtStep(p: string)
    requires p != [] && p[|p| - 1] != '/' && p[|p| - 1] != '.'
    ensures Ext(p) == (if Ext(p[..|p| - 1]) == [] then [] else Ext(p[..|p| - 1]) + [p[|p| - 1]])
  {
  }

  /** The asset test ignores the case of the name. */
  lemma AssetIgnoresCase(cfg: Config, name: string)
    ensures IsAsset(cfg, name) <==> IsAsset(cfg, ToLower(name))
  {
    ExtOfLower(name);
    LowerIdempotent(Ext(name));
  }

  lemma LowerIdempotent(s: string)
    ensures ToLower(ToLower(s)) == ToLower(s)
  {
  }

  /** With the defaults, an asset always has an extension, so its name has a '.'. */
  lemma DefaultAssetHasDot(name: string)
    requires IsAsset(Default, name)
    ensures '.' in name
  {
    var e := Ext(name);
    assert e != [] && e[0] == '.';
    assert name[|name| - |e|] == e[0];
  }

  /** With the defaults, no extension is both an asset and forced text. */
  lemma DefaultListsDisjoint()
    ensures Default.ignoredExts !! Default.textExts
  {
  }
}
