/**
 * The `add` command (packages/cli/src/commands/add/index.ts): choose the
 * components, fetch their payload, and materialise every payload item into
 * the project: create its directory, apply the skip-or-overwrite rule, write
 * its transformed files, and install its npm dependencies.
 *
 * `ItemResult`, `PayloadResult` and `ActionResult` say what one item, the
 * whole loop and the whole action do to the `World`; the methods `AddItem`,
 * `WriteItemFiles` and `Run` do it to a `Host` step by step and are proved to
 * agree with them. The lemmas state the command's rules about those results.
 */
module AddCommand {
  import opened Wrappers
  import opened Paths
  import opened Environment
  import opened ProjectConfig

  datatype FileRef = FileRef(name: string, content: string)

  /** One element of the fetched payload; absent dependency lists are empty. */
  datatype Item = Item(
    name: string,
    files: seq<FileRef>,
    dependencies: seq<string>,
    devDependencies: seq<string>)

  /** The parsed command-line options; `path == ""` is an absent `--path`. */
  datatype AddOptions = AddOptions(
    components: seq<string>,
    yes: bool,
    overwrite: bool,
    cwd: string,
    all: bool,
    path: string)

  /** The user's answers to the multiselect, to "Proceed?" and to "overwrite <component>?". */
  datatype Answers = Answers(picked: seq<string>, proceed: bool, overwrite: string -> bool)

  /** The registry and transformer collaborators, whose code is not part of this model. */
  datatype Registry = Registry(
    index: seq<string>,                                    // names of getRegistryIndex(), in index order
    fetch: seq<string> -> seq<Item>,                       // fetchTree(config.style, resolveTree(index, names))
    targetPath: (Item, Option<string>) -> Option<string>,  // getItemTargetPath(config, item, override)
    transform: FileRef -> string)                          // transform({ filename, raw, config, baseColor })

  /** How the action ends; all but `Done` are an early `process.exit(0)`. */
  datatype Outcome = NoSelection | NotFound | Cancelled | Done

  /** What stays fixed while the payload is materialised. */
  datatype Session = Session(
    selected: seq<string>,
    opts: AddOptions,
    tsx: bool,
    packageManager: string,
    registry: Registry,
    answers: Answers)

  // ---------------------------------------------------------------------------
  // Selection

  /** The multiselect is shown only when no component is named and `--all` is off. */
  predicate AsksForComponents(opts: AddOptions) {
    |opts.components| == 0 && !opts.all
  }

  /** `selectedComponents` once the multiselect, if any, has been answered. */
  function Selection(opts: AddOptions, index: seq<string>, picked: seq<string>): (selected: seq<string>)
    ensures opts.all ==> selected == index
    ensures !opts.all && |opts.components| > 0 ==> selected == opts.components
    ensures AsksForComponents(opts) ==> selected == picked
  {
    var initial := if opts.all then index else opts.components;
    if AsksForComponents(opts) then picked else initial
  }

  /** The override handed to the target-path resolver: `--path` resolved against `cwd`. */
  function OverridePath(opts: AddOptions): Option<string> {
    if opts.path == "" then None else Some(Join(opts.cwd, opts.path))
  }

  /** The item's target directory; like the `!targetDir` test, an empty path counts as none. */
  function Target(item: Item, s: Session): (t: Option<string>)
    ensures t.Some? ==> t.value != "" && s.registry.targetPath(item, OverridePath(s.opts)) == t
    ensures t.None? <==> s.registry.targetPath(item, OverridePath(s.opts)) in {None, Some("")}
  {
    var target := s.registry.targetPath(item, OverridePath(s.opts));
    if target == Some("") then None else target
  }

  // ---------------------------------------------------------------------------
  // One item

  /** Where a file of the payload is written: the joined path, renamed to `.jsx`/`.js` when the project is not TypeScript. */
  function Destination(dir: string, name: string, tsx: bool): (p: string)
    ensures p == Join(dir, if tsx then name else ToJsExtension(name))
  {
    var p := Join(dir, name);
    ToJsExtensionJoin(dir, name);
    if tsx then p else ToJsExtension(p)
  }

  /** `item.files.filter((file) => existsSync(path.resolve(targetDir, file.name)))`: the conflict test uses the name before renaming. */
  function ExistingFiles(w: World, dir: string, files: seq<FileRef>): (existing: seq<FileRef>)
    ensures forall f :: f in existing <==> f in files && Exists(w, Join(dir, f.name))
    ensures |existing| <= |files|
  {
    if files == [] then []
    else
      var rest := ExistingFiles(w, dir, files[1..]);
      if Exists(w, Join(dir, files[0].name)) then [files[0]] + rest else rest
  }

  predicate HasConflict(w: World, dir: string, files: seq<FileRef>) {
    |ExistingFiles(w, dir, files)| > 0
  }

  /** The inner loop: each file's transformed content is written to its destination, in `files` order. */
  function FilesWritten(w: World, dir: string, files: seq<FileRef>, s: Session): World
    decreases |files|
  {
    if files == [] then w
    else
      var w' := WithFile(w, Destination(dir, files[0].name, s.tsx), s.registry.transform(files[0]));
      FilesWritten(w', dir, files[1..], s)
  }

  /** The install invocations of a written item: dependencies first, then devDependencies, none for an empty list. */
  function Installs(item: Item, s: Session): seq<Invocation> {
    var pm := s.packageManager;
    var verb := InstallVerb(pm);
    (if |item.dependencies| > 0 then [Invocation(pm, [verb] + item.dependencies, s.opts.cwd)] else [])
    + (if |item.devDependencies| > 0 then [Invocation(pm, [verb, "-D"] + item.devDependencies, s.opts.cwd)] else [])
  }

  function Materialized(w: World, dir: string, item: Item, s: Session): World {
    var written := FilesWritten(w, dir, item.files, s);
    written.(log := written.log + Installs(item, s))
  }

  /** One iteration of the loop over the payload. */
  function ItemResult(w: World, item: Item, s: Session): World {
    match Target(item, s)
    case None => w
    case Some(dir) =>
      var w1 := EnsureDir(w, dir);
      if HasConflict(w1, dir, item.files) && !s.opts.overwrite then
        if item.name in s.selected then
          var w2 := WithPrompt(w1, Overwrite(item.name));
          if s.answers.overwrite(item.name) then Materialized(w2, dir, item, s) else w2
        else
          w1
      else
        Materialized(w1, dir, item, s)
  }

  /** The loop over the payload, in payload order. */
  function PayloadResult(w: World, payload: seq<Item>, s: Session): World
    decreases |payload|
  {
    if payload == [] then w else PayloadResult(ItemResult(w, payload[0], s), payload[1..], s)
  }

  /** The whole `.action` body: the outcome and the final state. */
  function ActionResult(
    w: World, opts: AddOptions, config: Config, packageManager: string, registry: Registry, answers: Answers
  ): (Outcome, World)
  {
    var w1 := if AsksForComponents(opts) then WithPrompt(w, PickComponents) else w;
    var selected := Selection(opts, registry.index, answers.picked);
    if |selected| == 0 then (NoSelection, w1)
    else
      var payload := registry.fetch(selected);
      if |payload| == 0 then (NotFound, w1)
      else
        var w2 := if opts.yes then w1 else WithPrompt(w1, Proceed);
        if !opts.yes && !answers.proceed then (Cancelled, w2)
        else (Done, PayloadResult(w2, payload, Session(selected, opts, config.tsx, packageManager, registry, answers)))
  }

  // ---------------------------------------------------------------------------
  // The command, step by step

  method WriteItemFiles(host: Host, dir: string, files: seq<FileRef>, s: Session)
    modifies host
    ensures host.State() == FilesWritten(old(host.State()), dir, files, s)
  {
    for j := 0 to |files|
      invariant FilesWritten(host.State(), dir, files[j..], s) == FilesWritten(old(host.State()), dir, files, s)
    {
      var file := files[j];
      var filePath := Join(dir, file.name);
      var content := s.registry.transform(file);
      if !s.tsx {
        filePath := ReplaceSuffix(filePath, ".tsx", ".jsx");
        filePath := ReplaceSuffix(filePath, ".ts", ".js");
      }
      assert files[j..][1..] == files[j + 1..];
      host.WriteFile(filePath, content);
    }
  }

  method AddItem(host: Host, item: Item, s: Session)
    modifies host
    ensures host.State() == ItemResult(old(host.State()), item, s)
  {
    var target := s.registry.targetPath(item, OverridePath(s.opts));
    if target.None? || target.value == "" {
      return;
    }
    var targetDir := target.value;
    if !Exists(host.State(), targetDir) {
      host.Mkdir(targetDir);
    }
    ghost var w1 := host.State();
    assert w1 == EnsureDir(old(host.State()), targetDir);
    var existingComponent := ExistingFiles(host.State(), targetDir, item.files);
    if |existingComponent| > 0 && !s.opts.overwrite {
      if item.name in s.selected {
        host.Ask(Overwrite(item.name));
        if !s.answers.overwrite(item.name) {
          return;
        }
      } else {
        return;
      }
    }
    ghost var before := host.State();
    assert ItemResult(old(host.State()), item, s) == Materialized(before, targetDir, item, s);
    MaterializeItem(host, targetDir, item, s);
  }

  /** Lines 144-192 for an item that is not skipped: write its files, then install its dependencies. */
  method MaterializeItem(host: Host, targetDir: string, item: Item, s: Session)
    modifies host
    ensures host.State() == Materialized(old(host.State()), targetDir, item, s)
  {
    WriteItemFiles(host, targetDir, item.files, s);
    ghost var written := host.State();
    var packageManager := s.packageManager;
    if |item.dependencies| > 0 {
      host.Exec(packageManager, [InstallVerb(packageManager)] + item.dependencies, s.opts.cwd);
    }
    if |item.devDependencies| > 0 {
      host.Exec(packageManager, [InstallVerb(packageManager), "-D"] + item.devDependencies, s.opts.cwd);
    }
    assert host.State().log == written.log + Installs(item, s);
  }

  method Run(host: Host, opts: AddOptions, config: Config, packageManager: string, registry: Registry, answers: Answers)
    returns (outcome: Outcome)
    modifies host
    ensures (outcome, host.State()) == ActionResult(old(host.State()), opts, config, packageManager, registry, answers)
  {
    var selectedComponents := if opts.all then registry.index else opts.components;
    if |opts.components| == 0 && !opts.all {
      host.Ask(PickComponents);
      selectedComponents := answers.picked;
    }
    if |selectedComponents| == 0 {
      return NoSelection;
    }
    var payload := registry.fetch(selectedComponents);
    if |payload| == 0 {
      return NotFound;
    }
    if !opts.yes {
      host.Ask(Proceed);
      if !answers.proceed {
        return Cancelled;
      }
    }
    var s := Session(selectedComponents, opts, config.tsx, packageManager, registry, answers);
    ghost var start := host.State();
    for i := 0 to |payload|
      invariant PayloadResult(host.State(), payload[i..], s) == PayloadResult(start, payload, s)
    {
      assert payload[i..][1..] == payload[i + 1..];
      AddItem(host, payload[i], s);
    }
    return Done;
  }
}
