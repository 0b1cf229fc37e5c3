/**
 * The file-layout step of the `init` command
 * (packages/cli/src/commands/init/writeFiles.ts): make sure the directory of
 * every resolved path exists, then write the tailwind config, the CSS file
 * (only when the base colour is known) and the `cn` utils file.
 */
module InitWriteFiles {
  import opened Wrappers
  import opened Paths
  import opened Environment
  import opened ProjectConfig

  datatype BaseColor = BaseColor(cssVarsTemplate: string, inlineColorsTemplate: string)

  /** The constants of the templates module that this step writes. */
  datatype Template = TailwindConfigTs | TailwindConfigTsWithVariables | Utils

  /** Collaborators whose code is not part of this model. */
  datatype Resources = Resources(
    text: Template -> string,                      // the template constants
    render: (string, string) -> string,            // template(text)({ prefix })
    applyPrefixesCss: (string, string) -> string,  // applyPrefixesCss(css, prefix)
    baseColorOf: string -> Option<BaseColor>)      // getRegistryBaseColor(name)

  /** `Object.entries(config.resolvedPaths)`, in declaration order. */
  function Entries(rp: ResolvedPaths): seq<(string, string)> {
    [("tailwindConfig", rp.tailwindConfig), ("tailwindCss", rp.tailwindCss),
     ("utils", rp.utils), ("components", rp.components)]
  }

  // ---------------------------------------------------------------------------
  // ensureResolvedPathsExist

  /** The directory derived from one resolved path. */
  function DerivedDir(key: string, resolvedPath: string): string {
    var dirname := if HasExtension(resolvedPath) then Dirname(resolvedPath) else resolvedPath;
    if key == "utils" && EndsWith(resolvedPath, "/utils") then ReplaceSuffix(dirname, "/utils", "") else dirname
  }

  /** A path ending in `/utils` has `utils` as its last segment, so it has no extension. */
  lemma UtilsPathHasNoExtension(p: string)
    requires EndsWith(p, "/utils")
    ensures Basename(p) == "utils" && !HasExtension(p)
  {
    var k := LastSlash(p);
    assert p[|p| - 6..] == "/utils";
    assert p[|p| - 6] == '/';
    assert forall j :: |p| - 6 < j < |p| ==> p[j] == "/utils"[j - (|p| - 6)];
    assert k == |p| - 6;
  }

  /** A path with an extension names a file: its derived directory is its parent, whatever its key. */
  lemma DerivedDirOfFile(key: string, p: string)
    requires HasExtension(p) && LastSlash(p) > 0
    ensures Join(DerivedDir(key, p), Basename(p)) == p
    ensures '/' !in Basename(p)
  {
    if EndsWith(p, "/utils") {
      UtilsPathHasNoExtension(p);
    }
    DirnameJoinsBasename(p);
  }

  /** A path without an extension names a directory and is used as it is, unless it is the `utils` alias ending in `/utils`. */
  lemma DerivedDirOfDirectory(key: string, p: string)
    requires !HasExtension(p)
    requires key != "utils" || !EndsWith(p, "/utils")
    ensures DerivedDir(key, p) == p
  {
  }

  /** For the `utils` key exactly one trailing `/utils` is removed; for any other key such a path is used as it is. */
  lemma UtilsSuffixRemovedOnce(key: string, p: string)
    requires EndsWith(p, "/utils")
    ensures key == "utils" ==> DerivedDir(key, p) + "/utils" == p
    ensures key != "utils" ==> DerivedDir(key, p) == p
  {
    UtilsPathHasNoExtension(p);
  }

  /** The loop of ensureResolvedPathsExist, entry by entry. */
  function DirsEnsured(w: World, entries: seq<(string, string)>): World
    decreases |entries|
  {
    if entries == [] then w
    else DirsEnsured(EnsureDir(w, DerivedDir(entries[0].0, entries[0].1)), entries[1..])
  }

  /** The loop changes no file, starts nothing, asks nothing and removes no directory. */
  lemma {:induction false} DirsEnsuredFrame(w: World, entries: seq<(string, string)>)
    ensures var r := DirsEnsured(w, entries);
      r.files == w.files && r.log == w.log && r.asked == w.asked && w.dirs <= r.dirs
    decreases |entries|
  {
    if entries != [] {
      DirsEnsuredFrame(EnsureDir(w, DerivedDir(entries[0].0, entries[0].1)), entries[1..]);
    }
  }

  /** Every derived directory exists after the loop, including those ensured early on. */
  lemma {:induction false} DirsEnsuredExist(w: World, entries: seq<(string, string)>)
    ensures forall k :: 0 <= k < |entries| ==>
      Exists(DirsEnsured(w, entries), DerivedDir(entries[k].0, entries[k].1))
    decreases |entries|
  {
    if entries != [] {
      var w' := EnsureDir(w, DerivedDir(entries[0].0, entries[0].1));
      var r := DirsEnsured(w, entries);
      assert r == DirsEnsured(w', entries[1..]);
      DirsEnsuredFrame(w', entries[1..]);
      DirsEnsuredExist(w', entries[1..]);
      forall k | 0 <= k < |entries|
        ensures Exists(r, DerivedDir(entries[k].0, entries[k].1))
      {
        if k > 0 {
          assert entries[1..][k - 1] == entries[k];
        }
      }
    }
  }

  /** Every directory the loop creates is a derived directory or one of its ancestors. */
  lemma {:induction false} DirsEnsuredBound(w: World, entries: seq<(string, string)>)
    ensures forall d :: d in DirsEnsured(w, entries).dirs && d !in w.dirs ==>
      exists k :: 0 <= k < |entries| && d in Ancestry(DerivedDir(entries[k].0, entries[k].1))
    decreases |entries|
  {
    if entries != [] {
      var w' := EnsureDir(w, DerivedDir(entries[0].0, entries[0].1));
      var r := DirsEnsured(w, entries);
      assert r == DirsEnsured(w', entries[1..]);
      DirsEnsuredBound(w', entries[1..]);
      forall d | d in r.dirs && d !in w.dirs
        ensures exists k :: 0 <= k < |entries| && d in Ancestry(DerivedDir(entries[k].0, entries[k].1))
      {
        if d in w'.dirs {
          assert d in Ancestry(DerivedDir(entries[0].0, entries[0].1));
        } else {
          var k :| 0 <= k < |entries[1..]| && d in Ancestry(DerivedDir(entries[1..][k].0, entries[1..][k].1));
          assert entries[1..][k] == entries[k + 1];
        }
      }
    }
  }

  /**
   * Afterwards every derived directory exists, no file changed, every
   * directory that existed is still there, and every new directory is a
   * derived directory or one of its ancestors.
   */
  lemma DirsEnsuredEffect(w: World, entries: seq<(string, string)>)
    ensures var r := DirsEnsured(w, entries);
      r.files == w.files && r.log == w.log && r.asked == w.asked && w.dirs <= r.dirs
    ensures forall k :: 0 <= k < |entries| ==>
      Exists(DirsEnsured(w, entries), DerivedDir(entries[k].0, entries[k].1))
    ensures forall d :: d in DirsEnsured(w, entries).dirs && d !in w.dirs ==>
      exists k :: 0 <= k < |entries| && d in Ancestry(DerivedDir(entries[k].0, entries[k].1))
  {
    DirsEnsuredFrame(w, entries);
    DirsEnsuredExist(w, entries);
    DirsEnsuredBound(w, entries);
  }

  method EnsureResolvedPathsExist(host: Host, config: Config)
    modifies host
    ensures host.State() == DirsEnsured(old(host.State()), Entries(config.resolvedPaths))
  {
    var entries := Entries(config.resolvedPaths);
    for i := 0 to |entries|
      invariant DirsEnsured(host.State(), entries[i..]) == DirsEnsured(old(host.State()), entries)
    {
      var (key, resolvedPath) := entries[i];
      var dirname := if HasExtension(resolvedPath) then Dirname(resolvedPath) else resolvedPath;
      if key == "utils" && EndsWith(resolvedPath, "/utils") {
        dirname := ReplaceSuffix(dirname, "/utils", "");
      }
      assert entries[i..][1..] == entries[i + 1..];
      if !Exists(host.State(), dirname) {
        host.Mkdir(dirname);
      }
    }
  }

  // ---------------------------------------------------------------------------
  // writeFiles

  /** The tailwind config template: the variant with CSS variables exactly when `cssVariables` is on. */
  function TailwindConfigTemplate(cssVariables: bool): (t: Template)
    ensures t == TailwindConfigTsWithVariables <==> cssVariables
    ensures t != TailwindConfigTsWithVariables ==> t == TailwindConfigTs
  {
    if cssVariables then TailwindConfigTsWithVariables else TailwindConfigTs
  }

  /** The CSS file's content for a known base colour. */
  function CssContent(tailwind: Tailwind, baseColor: BaseColor, applyPrefixesCss: (string, string) -> string): (css: string)
    ensures !tailwind.cssVariables ==> css == baseColor.inlineColorsTemplate
    ensures tailwind.cssVariables && tailwind.prefix == "" ==> css == baseColor.cssVarsTemplate
    ensures tailwind.cssVariables && tailwind.prefix != "" ==>
      css == applyPrefixesCss(baseColor.cssVarsTemplate, tailwind.prefix)
  {
    if tailwind.cssVariables then
      if tailwind.prefix != "" then applyPrefixesCss(baseColor.cssVarsTemplate, tailwind.prefix)
      else baseColor.cssVarsTemplate
    else baseColor.inlineColorsTemplate
  }

  /** Where the utils file goes: always `<utils>.ts`, whether or not the project uses TypeScript. */
  function UtilsFile(rp: ResolvedPaths): string {
    rp.utils + ".ts"
  }

  function TailwindConfigContent(tailwind: Tailwind, res: Resources): string {
    res.render(res.text(TailwindConfigTemplate(tailwind.cssVariables)), tailwind.prefix)
  }

  /** The tailwind config write, on top of the ensured directories. */
  function ConfigWritten(w1: World, config: Config, res: Resources): World {
    WithFile(w1, config.resolvedPaths.tailwindConfig, TailwindConfigContent(config.tailwind, res))
  }

  /** The CSS write, which happens only when the base colour is known. */
  function CssWritten(w2: World, config: Config, res: Resources): World {
    match res.baseColorOf(config.tailwind.baseColor)
    case None => w2
    case Some(bc) => WithFile(w2, config.resolvedPaths.tailwindCss, CssContent(config.tailwind, bc, res.applyPrefixesCss))
  }

  /** The whole of writeFiles: directories, then tailwind config, CSS file and utils file, in that order. */
  function InitFilesResult(w: World, config: Config, res: Resources): World {
    var w1 := DirsEnsured(w, Entries(config.resolvedPaths));
    WithFile(CssWritten(ConfigWritten(w1, config, res), config, res), UtilsFile(config.resolvedPaths), res.text(Utils))
  }

  method WriteFiles(host: Host, config: Config, res: Resources)
    modifies host
    ensures host.State() == InitFilesResult(old(host.State()), config, res)
  {
    EnsureResolvedPathsExist(host, config);
    var tailwindConfigTemplate :=
      if config.tailwind.cssVariables then res.text(TailwindConfigTsWithVariables) else res.text(TailwindConfigTs);
    host.WriteFile(config.resolvedPaths.tailwindConfig, res.render(tailwindConfigTemplate, config.tailwind.prefix));
    var baseColor := res.baseColorOf(config.tailwind.baseColor);
    if baseColor.Some? {
      var css :=
        if config.tailwind.cssVariables then
          if config.tailwind.prefix != "" then res.applyPrefixesCss(baseColor.value.cssVarsTemplate, config.tailwind.prefix)
          else baseColor.value.cssVarsTemplate
        else baseColor.value.inlineColorsTemplate;
      host.WriteFile(config.resolvedPaths.tailwindCss, css);
    }
    host.WriteFile(UtilsFile(config.resolvedPaths), res.text(Utils));
  }

  // ---------------------------------------------------------------------------
  // What writeFiles leaves behind

  /**
   * The utils file always holds the UTILS template; the tailwind config holds
   * the rendered template unless a later write goes to the same path; with a
   * known base colour the CSS file holds the content chosen by `CssContent`.
   */
  lemma InitFilesContents(w: World, config: Config, res: Resources)
    ensures var r := InitFilesResult(w, config, res);
      UtilsFile(config.resolvedPaths) in r.files && r.files[UtilsFile(config.resolvedPaths)] == res.text(Utils)
    ensures var r := InitFilesResult(w, config, res);
      var rp := config.resolvedPaths;
      rp.tailwindConfig != UtilsFile(rp)
      && (res.baseColorOf(config.tailwind.baseColor).None? || rp.tailwindConfig != rp.tailwindCss) ==>
        rp.tailwindConfig in r.files && r.files[rp.tailwindConfig] == TailwindConfigContent(config.tailwind, res)
    ensures var r := InitFilesResult(w, config, res);
      var rp := config.resolvedPaths;
      res.baseColorOf(config.tailwind.baseColor).Some? && rp.tailwindCss != UtilsFile(rp) ==>
        rp.tailwindCss in r.files
        && r.files[rp.tailwindCss]
           == CssContent(config.tailwind, res.baseColorOf(config.tailwind.baseColor).value, res.applyPrefixesCss)
  {
    var rp := config.resolvedPaths;
    var w2 := ConfigWritten(DirsEnsured(w, Entries(rp)), config, res);
    var w3 := CssWritten(w2, config, res);
    assert InitFilesResult(w, config, res) == WithFile(w3, UtilsFile(rp), res.text(Utils));
    assert rp.tailwindConfig in w2.files && w2.files[rp.tailwindConfig] == TailwindConfigContent(config.tailwind, res);
  }

  /** Without a base colour the CSS path is not written; the tailwind config and the utils file still are. */
  lemma InitFilesWithoutBaseColor(w: World, config: Config, res: Resources)
    requires res.baseColorOf(config.tailwind.baseColor).None?
    ensures var r := InitFilesResult(w, config, res);
      var rp := config.resolvedPaths;
      rp.tailwindCss != rp.tailwindConfig && rp.tailwindCss != UtilsFile(rp) ==> SameAt(r.files, w.files, rp.tailwindCss)
    ensures var r := InitFilesResult(w, config, res);
      var rp := config.resolvedPaths;
      rp.tailwindConfig in r.files && UtilsFile(rp) in r.files
  {
    var w1 := DirsEnsured(w, Entries(config.resolvedPaths));
    DirsEnsuredEffect(w, Entries(config.resolvedPaths));
    assert CssWritten(ConfigWritten(w1, config, res), config, res) == ConfigWritten(w1, config, res);
  }

  /** The three writes touch no directory, install nothing and ask nothing: those parts are what the directory loop leaves. */
  lemma InitFilesSteps(w: World, config: Config, res: Resources)
    ensures var r := InitFilesResult(w, config, res);
      var w1 := DirsEnsured(w, Entries(config.resolvedPaths));
      r.dirs == w1.dirs && r.log == w.log && r.asked == w.asked
  {
    var w1 := DirsEnsured(w, Entries(config.resolvedPaths));
    DirsEnsuredEffect(w, Entries(config.resolvedPaths));
    var w3 := CssWritten(ConfigWritten(w1, config, res), config, res);
    assert w3.dirs == w1.dirs && w3.log == w1.log && w3.asked == w1.asked;
  }

  /** No path but the three target files changes. */
  lemma InitFilesFrame(w: World, config: Config, res: Resources)
    ensures var r := InitFilesResult(w, config, res);
      var rp := config.resolvedPaths;
      forall p :: p != rp.tailwindConfig && p != rp.tailwindCss && p != UtilsFile(rp) ==> SameAt(r.files, w.files, p)
  {
    var w1 := DirsEnsured(w, Entries(config.resolvedPaths));
    DirsEnsuredEffect(w, Entries(config.resolvedPaths));
    assert w1.files == w.files;
  }

  /**
   * Afterwards every derived directory exists, existing directories stay,
   * and every new directory is a derived one or one of its ancestors.
   */
  lemma InitFilesDirs(w: World, config: Config, res: Resources)
    ensures var r := InitFilesResult(w, config, res);
      var es := Entries(config.resolvedPaths);
      w.dirs <= r.dirs && forall k :: 0 <= k < |es| ==> Exists(r, DerivedDir(es[k].0, es[k].1))
    ensures var r := InitFilesResult(w, config, res);
      var es := Entries(config.resolvedPaths);
      forall d :: d in r.dirs && d !in w.dirs ==> exists k :: 0 <= k < |es| && d in Ancestry(DerivedDir(es[k].0, es[k].1))
  {
    var es := Entries(config.resolvedPaths);
    var w1 := DirsEnsured(w, es);
    var r := InitFilesResult(w, config, res);
    InitFilesSteps(w, config, res);
    DirsEnsuredEffect(w, es);
    forall k | 0 <= k < |es|
      ensures Exists(r, DerivedDir(es[k].0, es[k].1))
    {
      assert Exists(w1, DerivedDir(es[k].0, es[k].1));
    }
  }
}
