/**
 * What the `add` command promises, stated about the results defined in
 * `AddCommand`: which items are skipped, what a written item leaves behind,
 * which prompts are shown, and that a re-run with `--overwrite` converges.
 */
module AddProperties {
  import opened Wrappers
  import opened Paths
  import opened Environment
  import opened ProjectConfig
  import opened AddCommand

  /** No file of `files` is written to `p`. */
  predicate Untouched(dir: string, files: seq<FileRef>, tsx: bool, p: string) {
    forall j :: 0 <= j < |files| ==> Destination(dir, files[j].name, tsx) != p
  }

  /** No later file of `files` is written to the same destination as `files[i]`. */
  predicate LastWriter(dir: string, files: seq<FileRef>, i: int, tsx: bool)
    requires 0 <= i < |files|
  {
    forall j :: i < j < |files| ==> Destination(dir, files[j].name, tsx) != Destination(dir, files[i].name, tsx)
  }

  // ---------------------------------------------------------------------------
  // Writing the files of one item

  /** A sequence of writes as one table: each path holds the content of the last write to it. */
  function Overlay(ws: seq<(string, string)>): map<string, string>
    decreases |ws|
  {
    if ws == [] then map[] else map[ws[0].0 := ws[0].1] + Overlay(ws[1..])
  }

  /** A path no write goes to is not in the table. */
  lemma {:induction false} OverlayMissing(ws: seq<(string, string)>, p: string)
    requires forall j :: 0 <= j < |ws| ==> ws[j].0 != p
    ensures p !in Overlay(ws)
    decreases |ws|
  {
    if ws != [] {
      assert forall j :: 0 <= j < |ws[1..]| ==> ws[1..][j] == ws[j + 1];
      OverlayMissing(ws[1..], p);
    }
  }

  /** A path no later write goes to holds the content of that write. */
  lemma {:induction false} OverlayLast(ws: seq<(string, string)>, i: int)
    requires 0 <= i < |ws| && forall j :: i < j < |ws| ==> ws[j].0 != ws[i].0
    ensures ws[i].0 in Overlay(ws) && Overlay(ws)[ws[i].0] == ws[i].1
    decreases |ws|
  {
    var rest := ws[1..];
    assert forall j :: 0 <= j < |rest| ==> rest[j] == ws[j + 1];
    if i == 0 {
      OverlayMissing(rest, ws[0].0);
    } else {
      OverlayLast(rest, i - 1);
    }
  }

  /** The inner loop's writes, in `files` order: each file's destination with its transformed content. */
  function Writes(dir: string, files: seq<FileRef>, s: Session): (ws: seq<(string, string)>)
    ensures |ws| == |files|
  {
    seq(|files|, j requires 0 <= j < |files| => (Destination(dir, files[j].name, s.tsx), s.registry.transform(files[j])))
  }

  /** The contents the inner loop lays over the file table: later writes win. */
  function WrittenMap(dir: string, files: seq<FileRef>, s: Session): map<string, string> {
    Overlay(Writes(dir, files, s))
  }

  /** Peeling the first file off the overlay. */
  lemma WrittenMapCons(dir: string, files: seq<FileRef>, s: Session)
    requires files != []
    ensures WrittenMap(dir, files, s)
      == map[Destination(dir, files[0].name, s.tsx) := s.registry.transform(files[0])] + WrittenMap(dir, files[1..], s)
  {
    var ws, rest := Writes(dir, files, s), Writes(dir, files[1..], s);
    forall j | 0 <= j < |rest|
      ensures ws[1..][j] == rest[j]
    {
      assert files[1..][j] == files[j + 1];
    }
    assert ws[1..] == rest;
  }

  lemma UpdateThenOverlay(m: map<string, string>, k: string, v: string, rest: map<string, string>)
    ensures m[k := v] + rest == m + (map[k := v] + rest)
  {
  }

  /** The inner loop's effect on the file table does not depend on that table: it is a fixed overlay. */
  lemma {:induction false} FilesWrittenIsOverlay(w: World, dir: string, files: seq<FileRef>, s: Session)
    ensures FilesWritten(w, dir, files, s).files == w.files + WrittenMap(dir, files, s)
    ensures var r := FilesWritten(w, dir, files, s);
      r.dirs == w.dirs && r.log == w.log && r.asked == w.asked
    decreases |files|
  {
    if files != [] {
      var d0 := Destination(dir, files[0].name, s.tsx);
      var c0 := s.registry.transform(files[0]);
      var w' := WithFile(w, d0, c0);
      var rest := WrittenMap(dir, files[1..], s);
      assert FilesWritten(w, dir, files, s) == FilesWritten(w', dir, files[1..], s);
      WrittenMapCons(dir, files, s);
      FilesWrittenIsOverlay(w', dir, files[1..], s);
      UpdateThenOverlay(w.files, d0, c0, rest);
    }
  }

  /** A path no file is written to is not in the overlay. */
  lemma WrittenMapUntouched(dir: string, files: seq<FileRef>, s: Session, p: string)
    requires Untouched(dir, files, s.tsx, p)
    ensures p !in WrittenMap(dir, files, s)
  {
    var ws := Writes(dir, files, s);
    OverlayMissing(ws, p);
  }

  /** A destination no later file is written to holds the content of that file. */
  lemma WrittenMapLastWriter(dir: string, files: seq<FileRef>, s: Session, i: int)
    requires 0 <= i < |files| && LastWriter(dir, files, i, s.tsx)
    ensures Destination(dir, files[i].name, s.tsx) in WrittenMap(dir, files, s)
    ensures WrittenMap(dir, files, s)[Destination(dir, files[i].name, s.tsx)] == s.registry.transform(files[i])
  {
    var ws := Writes(dir, files, s);
    OverlayLast(ws, i);
  }

  /**
   * The inner loop changes only file contents; each destination holds the
   * transformed content of the last file written there, and every other path
   * is as it was.
   */
  lemma FilesWrittenEffect(w: World, dir: string, files: seq<FileRef>, s: Session)
    ensures var r := FilesWritten(w, dir, files, s);
      r.dirs == w.dirs && r.log == w.log && r.asked == w.asked && w.files.Keys <= r.files.Keys
    ensures var r := FilesWritten(w, dir, files, s);
      forall p :: Untouched(dir, files, s.tsx, p) ==> SameAt(r.files, w.files, p)
    ensures var r := FilesWritten(w, dir, files, s);
      forall i :: 0 <= i < |files| && LastWriter(dir, files, i, s.tsx) ==>
        Destination(dir, files[i].name, s.tsx) in r.files
        && r.files[Destination(dir, files[i].name, s.tsx)] == s.registry.transform(files[i])
  {
    FilesWrittenIsOverlay(w, dir, files, s);
    var r := FilesWritten(w, dir, files, s);
    forall p | Untouched(dir, files, s.tsx, p)
      ensures SameAt(r.files, w.files, p)
    {
      WrittenMapUntouched(dir, files, s, p);
    }
    forall i | 0 <= i < |files| && LastWriter(dir, files, i, s.tsx)
      ensures Destination(dir, files[i].name, s.tsx) in r.files
      ensures r.files[Destination(dir, files[i].name, s.tsx)] == s.registry.transform(files[i])
    {
      WrittenMapLastWriter(dir, files, s, i);
    }
  }

  // ---------------------------------------------------------------------------
  // One item of the payload

  /** Creating the target directory never creates or hides a file below it, so the conflict test sees the same files. */
  lemma {:induction false} ExistingFilesAfterMkdir(w: World, dir: string, files: seq<FileRef>)
    ensures ExistingFiles(EnsureDir(w, dir), dir, files) == ExistingFiles(w, dir, files)
  {
    if files != [] {
      EnsureDirKeepsPathsBelow(w, dir, files[0].name);
      ExistingFilesAfterMkdir(w, dir, files[1..]);
    }
  }

  /** An item whose target directory resolves to none is skipped entirely. */
  lemma UntargetedItemIsSkipped(w: World, item: Item, s: Session)
    requires Target(item, s).None?
    ensures ItemResult(w, item, s) == w
  {
  }

  /**
   * An item pulled in only as a dependency, with an existing file and no
   * `--overwrite`, is skipped without a prompt: its directory is ensured and
   * nothing else changes.
   */
  lemma ConflictingDependencyIsSkipped(w: World, item: Item, s: Session, dir: string)
    requires Target(item, s) == Some(dir)
    requires HasConflict(w, dir, item.files) && !s.opts.overwrite && item.name !in s.selected
    ensures ItemResult(w, item, s) == EnsureDir(w, dir)
    ensures var r := ItemResult(w, item, s);
      r.files == w.files && r.log == w.log && r.asked == w.asked
  {
    ExistingFilesAfterMkdir(w, dir, item.files);
  }

  /** A selected item with an existing file whose overwrite the user declines: no file and no install changes; the question was asked. */
  lemma DeclinedOverwriteIsSkipped(w: World, item: Item, s: Session, dir: string)
    requires Target(item, s) == Some(dir)
    requires HasConflict(w, dir, item.files) && !s.opts.overwrite
    requires item.name in s.selected && !s.answers.overwrite(item.name)
    ensures var r := ItemResult(w, item, s);
      r.files == w.files && r.log == w.log && r.asked == w.asked + [Overwrite(item.name)]
      && r.dirs == EnsureDir(w, dir).dirs
  {
    ExistingFilesAfterMkdir(w, dir, item.files);
  }

  /**
   * An item that is written: its directory exists, each destination holds the
   * transformed content of the last file written there, no other path
   * changes, and exactly its install invocations are appended.
   */
  lemma WrittenItem(w: World, item: Item, s: Session, dir: string)
    requires Target(item, s) == Some(dir)
    requires !HasConflict(w, dir, item.files) || s.opts.overwrite
             || (item.name in s.selected && s.answers.overwrite(item.name))
    ensures var r := ItemResult(w, item, s);
      Exists(r, dir) && r.log == w.log + Installs(item, s) && r.dirs == EnsureDir(w, dir).dirs
    ensures var r := ItemResult(w, item, s);
      forall p :: Untouched(dir, item.files, s.tsx, p) ==> SameAt(r.files, w.files, p)
    ensures var r := ItemResult(w, item, s);
      forall i :: 0 <= i < |item.files| && LastWriter(dir, item.files, i, s.tsx) ==>
        Destination(dir, item.files[i].name, s.tsx) in r.files
        && r.files[Destination(dir, item.files[i].name, s.tsx)] == s.registry.transform(item.files[i])
  {
    ExistingFilesAfterMkdir(w, dir, item.files);
    var w1 := EnsureDir(w, dir);
    var w2 := if HasConflict(w1, dir, item.files) && !s.opts.overwrite then WithPrompt(w1, Overwrite(item.name)) else w1;
    assert ItemResult(w, item, s) == Materialized(w2, dir, item, s);
    FilesWrittenEffect(w2, dir, item.files, s);
  }

  /** The overwrite question is asked exactly for a selected item with an existing file when `--overwrite` is off. */
  lemma OverwritePromptRule(w: World, item: Item, s: Session)
    ensures ItemResult(w, item, s).asked == w.asked +
      (if Target(item, s).Some? && HasConflict(w, Target(item, s).value, item.files)
          && !s.opts.overwrite && item.name in s.selected
       then [Overwrite(item.name)] else [])
  {
    match Target(item, s)
    case None =>
    case Some(dir) =>
      ExistingFilesAfterMkdir(w, dir, item.files);
      var w1 := EnsureDir(w, dir);
      if HasConflict(w1, dir, item.files) && !s.opts.overwrite {
        if item.name in s.selected {
          FilesWrittenEffect(WithPrompt(w1, Overwrite(item.name)), dir, item.files, s);
        }
      } else {
        FilesWrittenEffect(w1, dir, item.files, s);
      }
  }

  /** In a JavaScript project `button.tsx` is renamed to `button.jsx`. */
  lemma ButtonRenamed()
    ensures ToJsExtension("button.tsx") == "button.jsx"
  {
    var renamed := "button.jsx";
    assert "button.tsx"[|"button.tsx"| - 4..] == ".tsx";
    assert "button.tsx"[..|"button.tsx"| - 4] + ".jsx" == renamed;
    assert ReplaceSuffix("button.tsx", ".tsx", ".jsx") == renamed;
    assert renamed[|renamed| - 3..] != ".ts" by { assert renamed[|renamed| - 1] == 'x'; }
  }

  /** The two paths of the example below: the one the conflict test looks at, and the one written. */
  lemma ButtonPaths(dir: string)
    ensures Destination(dir, "button.tsx", false) == Join(dir, "button.jsx")
    ensures Join(dir, "button.tsx") != Join(dir, "button.jsx")
  {
    ButtonRenamed();
    assert Join(dir, "button.tsx")[|dir| + 8] == 't';
    assert Join(dir, "button.jsx")[|dir| + 8] == 'j';
  }

  /**
   * In a JavaScript project the conflict test looks for `button.tsx` while the
   * file is written as `button.jsx`: an existing `button.jsx` with local edits
   * is overwritten without a prompt, even with `--overwrite` off.
   */
  lemma RenamedDestinationIsNotChecked(w: World, s: Session, dir: string, raw: string)
    requires !s.tsx && !s.opts.overwrite
    requires Target(Item("button", [FileRef("button.tsx", raw)], [], []), s) == Some(dir)
    requires w.files == map[Join(dir, "button.jsx") := "local edits"] && w.dirs == {dir}
    ensures var r := ItemResult(w, Item("button", [FileRef("button.tsx", raw)], [], []), s);
      r.files == map[Join(dir, "button.jsx") := s.registry.transform(FileRef("button.tsx", raw))]
      && r.asked == w.asked
  {
    var item := Item("button", [FileRef("button.tsx", raw)], [], []);
    var content := s.registry.transform(FileRef("button.tsx", raw));
    ButtonHasNoConflict(w, dir, raw);
    var r := Materialized(w, dir, item, s);
    assert ItemResult(w, item, s) == r;
    MaterializedGrows(w, dir, item, s);
    FilesWrittenIsOverlay(w, dir, item.files, s);
    assert r.files == w.files + WrittenMap(dir, item.files, s);
    ButtonWrites(s, dir, raw);
    assert w.files + map[Join(dir, "button.jsx") := content] == map[Join(dir, "button.jsx") := content];
  }

  /** In the example's project the conflict test finds nothing and the target directory already exists. */
  lemma ButtonHasNoConflict(w: World, dir: string, raw: string)
    requires w.files == map[Join(dir, "button.jsx") := "local edits"] && w.dirs == {dir}
    ensures !HasConflict(w, dir, [FileRef("button.tsx", raw)]) && EnsureDir(w, dir) == w
  {
    var files := [FileRef("button.tsx", raw)];
    ButtonPaths(dir);
    assert |Join(dir, files[0].name)| > |dir|;
    assert !Exists(w, Join(dir, files[0].name));
    assert files[1..] == [];
    assert ExistingFiles(w, dir, files) == ExistingFiles(w, dir, []);
  }

  /** The example's only file is written to `button.jsx` in the target directory. */
  lemma ButtonWrites(s: Session, dir: string, raw: string)
    requires !s.tsx
    ensures WrittenMap(dir, [FileRef("button.tsx", raw)], s)
      == map[Join(dir, "button.jsx") := s.registry.transform(FileRef("button.tsx", raw))]
  {
    var files := [FileRef("button.tsx", raw)];
    ButtonPaths(dir);
    assert files[1..] == [];
    WrittenMapCons(dir, files, s);
    assert WrittenMap(dir, files[1..], s) == map[];
  }

  /** Writing an item's files and installing its packages keeps every file and directory and asks nothing. */
  lemma MaterializedGrows(w: World, dir: string, item: Item, s: Session)
    ensures var r := Materialized(w, dir, item, s);
      r.dirs == w.dirs && w.files.Keys <= r.files.Keys && r.log == w.log + Installs(item, s) && r.asked == w.asked
  {
    FilesWrittenIsOverlay(w, dir, item.files, s);
  }

  /** One item never removes a file and only appends to the install log. */
  lemma ItemResultKeepsFiles(w: World, item: Item, s: Session)
    ensures var r := ItemResult(w, item, s);
      w.files.Keys <= r.files.Keys && w.log <= r.log
  {
    match Target(item, s)
    case None =>
    case Some(dir) =>
      var w1 := EnsureDir(w, dir);
      if HasConflict(w1, dir, item.files) && !s.opts.overwrite {
        if item.name in s.selected {
          MaterializedGrows(WithPrompt(w1, Overwrite(item.name)), dir, item, s);
        }
      } else {
        MaterializedGrows(w1, dir, item, s);
      }
  }

  /** One item never removes a file or a directory, only appends to the logs, asks nothing but "overwrite?", and leaves its target directory existing. */
  lemma ItemResultGrows(w: World, item: Item, s: Session)
    ensures var r := ItemResult(w, item, s);
      w.files.Keys <= r.files.Keys && w.dirs <= r.dirs && w.log <= r.log && w.asked <= r.asked
    ensures var r := ItemResult(w, item, s);
      forall k :: |w.asked| <= k < |r.asked| ==> r.asked[k].Overwrite?
    ensures Target(item, s).Some? ==> Exists(ItemResult(w, item, s), Target(item, s).value)
  {
    var r := ItemResult(w, item, s);
    ItemResultKeepsFiles(w, item, s);
    ItemResultDirs(w, item, s);
    OverwritePromptRule(w, item, s);
    if Target(item, s).Some? {
      var w1 := EnsureDir(w, Target(item, s).value);
      assert r.dirs == w1.dirs && w1.files == w.files;
    }
  }

  /**
   * The only directories one item creates are those of `mkdir -p` on its
   * target, whether it is written or skipped; an item without a target
   * creates none.
   */
  lemma ItemResultDirs(w: World, item: Item, s: Session)
    ensures ItemResult(w, item, s).dirs
      == (match Target(item, s) case None => w.dirs case Some(dir) => EnsureDir(w, dir).dirs)
  {
    match Target(item, s)
    case None =>
    case Some(dir) =>
      var w1 := EnsureDir(w, dir);
      if HasConflict(w1, dir, item.files) && !s.opts.overwrite {
        if item.name in s.selected {
          MaterializedGrows(WithPrompt(w1, Overwrite(item.name)), dir, item, s);
        }
      } else {
        MaterializedGrows(w1, dir, item, s);
      }
  }

  /** A falsy target path, `null` or empty, skips the item like no target at all. */
  lemma EmptyTargetIsSkipped(w: World, item: Item, s: Session)
    requires s.registry.targetPath(item, OverridePath(s.opts)) == Some("")
    ensures ItemResult(w, item, s) == w
  {
    assert Target(item, s).None?;
  }

  /** One item changes only paths its own files are written to. */
  lemma ItemResultFrame(w: World, item: Item, s: Session, p: string)
    requires Target(item, s).Some? ==> Untouched(Target(item, s).value, item.files, s.tsx, p)
    ensures SameAt(ItemResult(w, item, s).files, w.files, p)
  {
    match Target(item, s)
    case None =>
    case Some(dir) =>
      var w1 := EnsureDir(w, dir);
      if HasConflict(w1, dir, item.files) && !s.opts.overwrite {
        if item.name in s.selected {
          var w2 := WithPrompt(w1, Overwrite(item.name));
          FilesWrittenEffect(w2, dir, item.files, s);
        }
      } else {
        FilesWrittenEffect(w1, dir, item.files, s);
        assert ItemResult(w, item, s) == Materialized(w1, dir, item, s);
      }
  }

  /** With `--overwrite` an item's effect on the file table is a fixed overlay. */
  lemma ItemResultWithOverwrite(w: World, item: Item, s: Session)
    requires s.opts.overwrite
    ensures ItemResult(w, item, s).files == w.files + ItemWrites(item, s)
  {
    match Target(item, s)
    case None =>
      assert w.files + map[] == w.files;
    case Some(dir) =>
      var w1 := EnsureDir(w, dir);
      assert ItemResult(w, item, s) == Materialized(w1, dir, item, s);
      FilesWrittenIsOverlay(w1, dir, item.files, s);
  }

  // ---------------------------------------------------------------------------
  // The whole payload

  /** The loop never removes a file or a directory, only appends to the logs, and asks no question but "overwrite?". */
  lemma {:induction false} PayloadResultGrows(w: World, payload: seq<Item>, s: Session)
    ensures var r := PayloadResult(w, payload, s);
      w.files.Keys <= r.files.Keys && w.dirs <= r.dirs && w.log <= r.log && w.asked <= r.asked
    ensures var r := PayloadResult(w, payload, s);
      forall k :: |w.asked| <= k < |r.asked| ==> r.asked[k].Overwrite?
    decreases |payload|
  {
    if payload != [] {
      var w' := ItemResult(w, payload[0], s);
      ItemResultGrows(w, payload[0], s);
      PayloadResultGrows(w', payload[1..], s);
      var r := PayloadResult(w, payload, s);
      forall k | |w.asked| <= k < |r.asked|
        ensures r.asked[k].Overwrite?
      {
        if k < |w'.asked| {
          assert r.asked[k] == w'.asked[k];
        }
      }
    }
  }

  /** After the loop the target directory of every payload item exists, written or skipped. */
  lemma {:induction false} PayloadTargetsExist(w: World, payload: seq<Item>, s: Session)
    ensures forall k :: 0 <= k < |payload| && Target(payload[k], s).Some? ==>
      Exists(PayloadResult(w, payload, s), Target(payload[k], s).value)
    decreases |payload|
  {
    if payload != [] {
      var w' := ItemResult(w, payload[0], s);
      var r := PayloadResult(w, payload, s);
      assert r == PayloadResult(w', payload[1..], s);
      ItemResultGrows(w, payload[0], s);
      PayloadResultGrows(w', payload[1..], s);
      PayloadTargetsExist(w', payload[1..], s);
      forall k | 0 <= k < |payload| && Target(payload[k], s).Some?
        ensures Exists(r, Target(payload[k], s).value)
      {
        if k == 0 {
          assert Exists(w', Target(payload[0], s).value);
        } else {
          assert payload[1..][k - 1] == payload[k];
        }
      }
    }
  }

  /** Only paths some payload file is written to can change. */
  lemma {:induction false} PayloadResultFrame(w: World, payload: seq<Item>, s: Session, p: string)
    requires forall k :: 0 <= k < |payload| && Target(payload[k], s).Some? ==>
      Untouched(Target(payload[k], s).value, payload[k].files, s.tsx, p)
    ensures SameAt(PayloadResult(w, payload, s).files, w.files, p)
    decreases |payload|
  {
    if payload != [] {
      var item := payload[0];
      var w' := ItemResult(w, item, s);
      ItemResultFrame(w, item, s, p);
      forall k | 0 <= k < |payload[1..]| && Target(payload[1..][k], s).Some?
        ensures Untouched(Target(payload[1..][k], s).value, payload[1..][k].files, s.tsx, p)
      {
        assert payload[1..][k] == payload[k + 1];
      }
      PayloadResultFrame(w', payload[1..], s, p);
    }
  }

  // ---------------------------------------------------------------------------
  // Re-running with --overwrite

  /** The overlay the whole loop lays over the file table when `--overwrite` is set. */
  function PayloadWrites(payload: seq<Item>, s: Session): map<string, string>
    decreases |payload|
  {
    if payload == [] then map[] else ItemWrites(payload[0], s) + PayloadWrites(payload[1..], s)
  }

  /** The overlay one item lays over the file table when it is written. */
  function ItemWrites(item: Item, s: Session): map<string, string> {
    match Target(item, s)
    case None => map[]
    case Some(dir) => WrittenMap(dir, item.files, s)
  }

  lemma MapUnionAssociates(a: map<string, string>, b: map<string, string>, c: map<string, string>)
    ensures (a + b) + c == a + (b + c)
  {
  }

  /** With `--overwrite` every targeted item is written, whatever is on disk: the file table ends as a fixed overlay of the old one. */
  lemma {:induction false} OverwriteRunIsOverlay(w: World, payload: seq<Item>, s: Session)
    requires s.opts.overwrite
    ensures PayloadResult(w, payload, s).files == w.files + PayloadWrites(payload, s)
    decreases |payload|
  {
    if payload != [] {
      var item := payload[0];
      var w' := ItemResult(w, item, s);
      OverwriteRunIsOverlay(w', payload[1..], s);
      ItemResultWithOverwrite(w, item, s);
      MapUnionAssociates(w.files, ItemWrites(item, s), PayloadWrites(payload[1..], s));
    }
  }

  /**
   * Installs of a written item: one invocation per non-empty list, run with
   * the package manager in `cwd`; dependencies as `[verb] + deps`,
   * devDependencies as `[verb, "-D"] + devDeps`, and `verb` is `install`
   * exactly for npm.
   */
  lemma InstallsRule(item: Item, s: Session)
    ensures var invs := Installs(item, s);
      |invs| == (if |item.dependencies| > 0 then 1 else 0) + (if |item.devDependencies| > 0 then 1 else 0)
    ensures var invs := Installs(item, s);
      forall k :: 0 <= k < |invs| ==>
        invs[k].command == s.packageManager && invs[k].cwd == s.opts.cwd
        && |invs[k].args| > 0 && (invs[k].args[0] == "install" <==> s.packageManager == "npm")
    ensures var invs := Installs(item, s);
      |item.dependencies| > 0 ==> invs[0].args == [InstallVerb(s.packageManager)] + item.dependencies
    ensures var invs := Installs(item, s);
      |item.devDependencies| > 0 ==>
        invs[|invs| - 1].args == [InstallVerb(s.packageManager), "-D"] + item.devDependencies
  {
  }

  /** The invocations a written item records; an item without a target records none. */
  function ItemInstalls(item: Item, s: Session): seq<Invocation> {
    match Target(item, s)
    case None => []
    case Some(_) => Installs(item, s)
  }

  /** The invocations of a whole overwrite run, item by item in payload order. */
  function PayloadInstalls(payload: seq<Item>, s: Session): seq<Invocation>
    decreases |payload|
  {
    if payload == [] then [] else ItemInstalls(payload[0], s) + PayloadInstalls(payload[1..], s)
  }

  lemma ItemLogWithOverwrite(w: World, item: Item, s: Session)
    requires s.opts.overwrite
    ensures ItemResult(w, item, s).log == w.log + ItemInstalls(item, s)
  {
    match Target(item, s)
    case None =>
    case Some(dir) =>
      FilesWrittenIsOverlay(EnsureDir(w, dir), dir, item.files, s);
  }

  /** With `--overwrite` every targeted item installs, and the log grows by the items' invocations in payload order. */
  lemma {:induction false} OverwriteRunLog(w: World, payload: seq<Item>, s: Session)
    requires s.opts.overwrite
    ensures PayloadResult(w, payload, s).log == w.log + PayloadInstalls(payload, s)
    decreases |payload|
  {
    if payload != [] {
      var w1 := ItemResult(w, payload[0], s);
      var first, rest := ItemInstalls(payload[0], s), PayloadInstalls(payload[1..], s);
      assert PayloadResult(w, payload, s) == PayloadResult(w1, payload[1..], s);
      assert PayloadInstalls(payload, s) == first + rest;
      ItemLogWithOverwrite(w, payload[0], s);
      OverwriteRunLog(w1, payload[1..], s);
      assert w.log + first + rest == w.log + (first + rest);
    }
  }

  /** When every target directory already exists the loop creates no directory. */
  lemma {:induction false} PayloadDirsStable(v: World, payload: seq<Item>, s: Session)
    requires forall k :: 0 <= k < |payload| && Target(payload[k], s).Some? ==> Exists(v, Target(payload[k], s).value)
    ensures PayloadResult(v, payload, s).dirs == v.dirs
    decreases |payload|
  {
    if payload != [] {
      var item := payload[0];
      var v' := ItemResult(v, item, s);
      assert v'.dirs == v.dirs by {
        if Target(item, s).Some? {
          var dir := Target(item, s).value;
          FilesWrittenEffect(v, dir, item.files, s);
          FilesWrittenEffect(WithPrompt(v, Overwrite(item.name)), dir, item.files, s);
        }
      }
      ItemResultGrows(v, item, s);
      forall k | 0 <= k < |payload[1..]| && Target(payload[1..][k], s).Some?
        ensures Exists(v', Target(payload[1..][k], s).value)
      {
        assert payload[1..][k] == payload[k + 1];
      }
      PayloadDirsStable(v', payload[1..], s);
    }
  }

  /** Running the loop again with `--overwrite` on its own result changes no file and no directory. */
  lemma RerunPayloadWithOverwrite(w: World, v: World, payload: seq<Item>, s: Session)
    requires s.opts.overwrite
    requires v.files == PayloadResult(w, payload, s).files && v.dirs == PayloadResult(w, payload, s).dirs
    ensures PayloadResult(v, payload, s).files == v.files
    ensures PayloadResult(v, payload, s).dirs == v.dirs
    decreases |payload|
  {
    var first := PayloadResult(w, payload, s);
    OverwriteRunIsOverlay(w, payload, s);
    OverwriteRunIsOverlay(v, payload, s);
    var writes := PayloadWrites(payload, s);
    assert (w.files + writes) + writes == w.files + writes;
    PayloadTargetsExist(w, payload, s);
    PayloadDirsStable(v, payload, s);
  }

  // ---------------------------------------------------------------------------
  // The whole action

  /**
   * The action reaches the loop exactly when the selection and the payload
   * are non-empty and the user did not decline to proceed; every early exit
   * leaves files, directories and installs untouched.
   */
  lemma EarlyExitChangesNothing(
    w: World, opts: AddOptions, config: Config, packageManager: string, registry: Registry, answers: Answers)
    ensures var selected := Selection(opts, registry.index, answers.picked);
      ActionResult(w, opts, config, packageManager, registry, answers).0 == Done <==>
        |selected| > 0 && |registry.fetch(selected)| > 0 && (opts.yes || answers.proceed)
    ensures var r := ActionResult(w, opts, config, packageManager, registry, answers);
      r.0 != Done ==> r.1.files == w.files && r.1.dirs == w.dirs && r.1.log == w.log
  {
  }

  /** The multiselect is shown exactly when no component is named and `--all` is off. */
  lemma SelectionPromptRule(
    w: World, opts: AddOptions, config: Config, packageManager: string, registry: Registry, answers: Answers)
    ensures var r := ActionResult(w, opts, config, packageManager, registry, answers).1;
      |w.asked| < |r.asked| && r.asked[|w.asked|] == PickComponents <==> AsksForComponents(opts)
  {
    var r := ActionResult(w, opts, config, packageManager, registry, answers);
    var w1 := if AsksForComponents(opts) then WithPrompt(w, PickComponents) else w;
    var selected := Selection(opts, registry.index, answers.picked);
    if |selected| > 0 && |registry.fetch(selected)| > 0 && (opts.yes || answers.proceed) {
      var w2 := if opts.yes then w1 else WithPrompt(w1, Proceed);
      PayloadResultGrows(w2, registry.fetch(selected), Session(selected, opts, config.tsx, packageManager, registry, answers));
      assert w2.asked <= r.1.asked;
    }
  }

  /** Running `add --overwrite` twice with the same inputs leaves the same files and directories as running it once. */
  lemma RerunWithOverwriteIsIdempotent(
    w: World, opts: AddOptions, config: Config, packageManager: string, registry: Registry, answers: Answers)
    requires opts.overwrite
    ensures var first := ActionResult(w, opts, config, packageManager, registry, answers).1;
      var second := ActionResult(first, opts, config, packageManager, registry, answers).1;
      second.files == first.files && second.dirs == first.dirs
  {
    var first := ActionResult(w, opts, config, packageManager, registry, answers);
    if first.0 == Done {
      var selected := Selection(opts, registry.index, answers.picked);
      var payload := registry.fetch(selected);
      var s := Session(selected, opts, config.tsx, packageManager, registry, answers);
      var w1 := if AsksForComponents(opts) then WithPrompt(w, PickComponents) else w;
      var w2 := if opts.yes then w1 else WithPrompt(w1, Proceed);
      var v1 := if AsksForComponents(opts) then WithPrompt(first.1, PickComponents) else first.1;
      var v2 := if opts.yes then v1 else WithPrompt(v1, Proceed);
      RerunPayloadWithOverwrite(w2, v2, payload, s);
    }
  }
}
