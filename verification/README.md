# shadcn CLI `add` and `init`, modelled in Dafny

This project models the two commands of the component CLI that change a
consumer project:

- `add` (packages/cli/src/commands/add/index.ts):
  - chooses the components: all of the registry index, the named ones, or
    whatever the multiselect returns;
  - exits early when nothing is selected, nothing is fetched, or the user does
    not confirm;
  - then materialises every payload item in order:
    - resolves its target directory and creates it;
    - applies the skip-or-overwrite rule for files that already exist;
    - writes each transformed file, renamed to `.jsx`/`.js` in a JavaScript
      project;
    - installs the item's dependencies and devDependencies.
- `init`, file layout (packages/cli/src/commands/init/writeFiles.ts):
  - derives a directory from each resolved path and creates the missing ones;
  - writes the tailwind config, the CSS file (only when the base colour is
    known) and the `cn` utils file.
- `init`, dependencies (packages/cli/src/commands/init/installDependencies.ts):
  installs four fixed packages plus the icon library of the chosen style, with
  `npm install` or `<pm> add`.

The state the commands observe and change is an `Environment.World`:

- a file table (path to content);
- a set of directories;
- the log of package-manager invocations;
- the log of prompts shown.

`Environment.Host` is the object the commands change in place, one method per
`fs.mkdir`, `fs.writeFile`, `execa` or `prompts` call. Each command is written
twice:

- as a method on `Host` that follows the source statement by statement;
- as a function on `World` that gives its result.

Each method's postcondition states that it produces exactly that function's
result. The lemmas then state the commands' rules about those functions.

Files:

- `wrappers.dfy`: `Option`.
- `paths.dfy`: paths, dirname, basename, extension and the `.tsx` to `.jsx`
  rename.
- `environment.dfy`: `World`, `Host`, `mkdir -p` and the install verb.
- `project_config.dfy`: the resolved project configuration.
- `add_command.dfy`: the `add` action, as functions and as methods.
- `add_properties.dfy`: the rules of the `add` action.
- `init_write_files.dfy`: `ensureResolvedPathsExist` and `writeFiles`.
- `init_install_dependencies.dfy`: `installDependencies`.

## Model

| member | source | states |
|---|---|---|
| Paths.DirnameJoinsBasename | packages/cli/src/commands/init/writeFiles.ts:53-55 | for a path with a '/' after its first character, `dirname` and `basename` split it at its last '/': joining them gives the path back, and the basename holds no '/' |
| Paths.ToJsExtensionRule | packages/cli/src/commands/add/index.ts:155-158 | a trailing `.tsx` becomes `.jsx`, a trailing `.ts` becomes `.js`, and any other path is unchanged; exactly one rename applies |
| Paths.ToJsExtensionJoin | packages/cli/src/commands/add/index.ts:145-158 | renaming the joined path renames only the file name and never touches the directory part |
| Environment.EnsureDir | packages/cli/src/commands/add/index.ts:111-113 | afterwards the directory exists; no file, invocation or prompt changes; old directories stay; every new directory is the target or one of its ancestors; an existing path is left alone |
| Environment.EnsureDirKeepsPathsBelow | packages/cli/src/commands/add/index.ts:111-117 | creating the target directory never makes a path below it exist or disappear |
| Environment.InstallVerb | packages/cli/src/commands/add/index.ts:170 | the verb is `install` exactly for npm, and `add` for every other package manager |
| Environment.Host.Mkdir | packages/cli/src/commands/add/index.ts:112 | the directory and its ancestors are added; nothing else changes |
| Environment.Host.WriteFile | packages/cli/src/commands/add/index.ts:160 | the path now maps to the content; nothing else changes |
| Environment.Host.Exec | packages/cli/src/commands/add/index.ts:167-176 | exactly one invocation is appended to the log; nothing else changes |
| Environment.Host.Ask | packages/cli/src/commands/add/index.ts:122-127 | exactly one prompt is appended to the prompt log; nothing else changes |
| AddCommand.Selection | packages/cli/src/commands/add/index.ts:50-69 | with `--all`, the selection is the registry index in index order; otherwise the named components if any were given; with neither, the multiselect answer |
| AddCommand.Target | packages/cli/src/commands/add/index.ts:101-109 | an item has a target exactly when the resolver returns a non-empty path; `null` and `""` both fail the `!targetDir` test and mean none |
| AddCommand.Destination | packages/cli/src/commands/add/index.ts:145-158 | a file is written to `targetDir/name`, renamed to `.jsx`/`.js` only when the project is not TypeScript |
| AddCommand.ExistingFiles | packages/cli/src/commands/add/index.ts:115-117 | a file is reported as existing exactly when it belongs to the item and `targetDir/file.name` exists, using the name before renaming |
| AddCommand.WriteItemFiles | packages/cli/src/commands/add/index.ts:144-161 | the inner loop writes each file's transformed content to its destination, in `item.files` order |
| AddCommand.MaterializeItem | packages/cli/src/commands/add/index.ts:144-192 | a written item's files are written, then its dependencies and devDependencies are installed |
| AddCommand.AddItem | packages/cli/src/commands/add/index.ts:100-192 | one loop iteration does exactly what `ItemResult` gives: skip without a target, mkdir, conflict rule, write, install |
| AddCommand.Run | packages/cli/src/commands/add/index.ts:50-193 | the whole action returns the outcome and final state `ActionResult` gives, with early exits for empty selection, empty payload and declined confirmation |
| AddProperties.FilesWrittenIsOverlay | packages/cli/src/commands/add/index.ts:144-161 | the inner loop replaces the file table by the table overlaid with a map that does not depend on it; directories and logs are untouched |
| AddProperties.WrittenMapUntouched | packages/cli/src/commands/add/index.ts:144-161 | a path that is no file's destination is not in that overlay |
| AddProperties.WrittenMapLastWriter | packages/cli/src/commands/add/index.ts:144-161 | a destination holds the transformed content of the last file written to it |
| AddProperties.FilesWrittenEffect | packages/cli/src/commands/add/index.ts:144-161 | after the inner loop each destination maps to `transform(file)` of its last writer, every other path is as before, and no file disappears |
| AddProperties.ExistingFilesAfterMkdir | packages/cli/src/commands/add/index.ts:111-117 | the conflict test sees the same files whether it runs before or after the directory is created |
| AddProperties.UntargetedItemIsSkipped | packages/cli/src/commands/add/index.ts:101-109 | an item whose target directory resolves to none leaves the world exactly as it was: no directory, file, install or prompt |
| AddProperties.EmptyTargetIsSkipped | packages/cli/src/commands/add/index.ts:107-109 | an empty target path is skipped the same way: the world is left exactly as it was |
| AddProperties.ConflictingDependencyIsSkipped | packages/cli/src/commands/add/index.ts:115-141 | an existing file, `--overwrite` off and an item not selected by the user: only its directory is ensured; no file, install or prompt |
| AddProperties.DeclinedOverwriteIsSkipped | packages/cli/src/commands/add/index.ts:119-136 | a selected item with existing files whose overwrite prompt is declined: one prompt is recorded; no file or install changes |
| AddProperties.WrittenItem | packages/cli/src/commands/add/index.ts:111-192 | a written item: its target directory exists; the only new directories are those `mkdir -p` creates for it; the log grows by exactly its installs; each destination holds `transform(file)` of its last writer; no other path changes |
| AddProperties.OverwritePromptRule | packages/cli/src/commands/add/index.ts:119-127 | the overwrite prompt is shown exactly when the item has a target, some file exists, `--overwrite` is off and the item was selected |
| AddProperties.ButtonRenamed | packages/cli/src/commands/add/index.ts:155-158 | in a JavaScript project `button.tsx` is renamed to `button.jsx` |
| AddProperties.ButtonPaths | packages/cli/src/commands/add/index.ts:115-158 | for `button.tsx` in a JavaScript project, the conflict test looks at `dir/button.tsx` while the file is written to the different path `dir/button.jsx` |
| AddProperties.ButtonHasNoConflict | packages/cli/src/commands/add/index.ts:111-119 | in a project holding only `dir/button.jsx`, the conflict test for `button.tsx` finds nothing and the target directory already exists |
| AddProperties.ButtonWrites | packages/cli/src/commands/add/index.ts:144-161 | the item's only file is written to `dir/button.jsx` with its transformed content |
| AddProperties.RenamedDestinationIsNotChecked | packages/cli/src/commands/add/index.ts:115-158 | because the conflict test uses the name before renaming, an existing `dir/button.jsx` is overwritten without a prompt even with `--overwrite` off |
| AddProperties.MaterializedGrows | packages/cli/src/commands/add/index.ts:144-192 | writing and installing an item keeps all directories and files, asks nothing, and appends exactly its installs |
| AddProperties.ItemResultGrows | packages/cli/src/commands/add/index.ts:99-193 | one iteration never removes a file or directory, only appends to the logs, asks nothing but "overwrite?", and leaves the item's target directory existing |
| AddProperties.ItemResultKeepsFiles | packages/cli/src/commands/add/index.ts:99-193 | one iteration never removes a file and only appends to the install log |
| AddProperties.ItemResultDirs | packages/cli/src/commands/add/index.ts:101-113 | one iteration's directories are exactly those after `mkdir -p` on its target, whether the item is written or skipped, and unchanged without a target |
| AddProperties.ItemResultFrame | packages/cli/src/commands/add/index.ts:99-193 | one iteration changes only paths its own files are written to |
| AddProperties.ItemResultWithOverwrite | packages/cli/src/commands/add/index.ts:119-161 | with `--overwrite`, every targeted item is written: the file table is overlaid with the item's writes |
| AddProperties.InstallsRule | packages/cli/src/commands/add/index.ts:163-192 | one invocation per non-empty list, run with the package manager in `cwd`: `[verb] + dependencies`, then `[verb, "-D"] + devDependencies`; the verb is `install` exactly for npm; empty lists record nothing |
| AddProperties.ItemLogWithOverwrite | packages/cli/src/commands/add/index.ts:163-192 | with `--overwrite`, one iteration appends exactly the item's installs, or nothing when the item has no target |
| AddProperties.OverwriteRunLog | packages/cli/src/commands/add/index.ts:99-193 | with `--overwrite`, the loop's log is the items' installs concatenated in payload order |
| AddProperties.PayloadResultGrows | packages/cli/src/commands/add/index.ts:99-193 | the loop never removes a file or directory, only appends to the logs, and asks nothing but "overwrite?" |
| AddProperties.PayloadTargetsExist | packages/cli/src/commands/add/index.ts:99-113 | after the loop the target directory of every targeted payload item exists, whether written or skipped |
| AddProperties.PayloadResultFrame | packages/cli/src/commands/add/index.ts:99-193 | a path no payload file is written to keeps its content, or stays absent |
| AddProperties.OverwriteRunIsOverlay | packages/cli/src/commands/add/index.ts:99-193 | with `--overwrite`, the loop's effect on the file table is a fixed overlay of every targeted item's writes, in payload order |
| AddProperties.PayloadDirsStable | packages/cli/src/commands/add/index.ts:111-113 | when every target directory already exists, the loop creates no directory |
| AddProperties.RerunPayloadWithOverwrite | packages/cli/src/commands/add/index.ts:99-193 | with `--overwrite`, running the loop again over its own result changes no file and no directory |
| AddProperties.EarlyExitChangesNothing | packages/cli/src/commands/add/index.ts:71-96 | the action reaches the loop exactly when the selection and the payload are non-empty and the run is confirmed (`--yes` or "Proceed?"); otherwise no file, directory or install changes |
| AddProperties.SelectionPromptRule | packages/cli/src/commands/add/index.ts:53-67 | the first new prompt is the component multiselect exactly when no component was named and `--all` is off |
| AddProperties.RerunWithOverwriteIsIdempotent | packages/cli/src/commands/add/index.ts:41-198 | with `--overwrite`, running `add` again on the resulting project leaves the same files and directories |
| InitWriteFiles.UtilsPathHasNoExtension | packages/cli/src/commands/init/writeFiles.ts:53-63 | a path ending in `/utils` has `utils` as its last segment and so no extension |
| InitWriteFiles.DerivedDirOfFile | packages/cli/src/commands/init/writeFiles.ts:53-55 | a resolved path with an extension maps to its parent directory, whatever its key |
| InitWriteFiles.DerivedDirOfDirectory | packages/cli/src/commands/init/writeFiles.ts:53-63 | a resolved path without an extension maps to itself, unless it is the `utils` alias ending in `/utils` |
| InitWriteFiles.UtilsSuffixRemovedOnce | packages/cli/src/commands/init/writeFiles.ts:60-63 | for the `utils` key exactly one trailing `/utils` is removed; for any other key such a path is used unchanged |
| InitWriteFiles.DirsEnsuredFrame | packages/cli/src/commands/init/writeFiles.ts:50-68 | the directory loop changes no file, starts nothing, asks nothing and removes no directory |
| InitWriteFiles.DirsEnsuredExist | packages/cli/src/commands/init/writeFiles.ts:50-68 | after the loop every derived directory exists, including those ensured early on |
| InitWriteFiles.DirsEnsuredBound | packages/cli/src/commands/init/writeFiles.ts:50-68 | every directory the loop creates is a derived directory or one of its ancestors |
| InitWriteFiles.DirsEnsuredEffect | packages/cli/src/commands/init/writeFiles.ts:50-68 | afterwards every derived directory exists; existing directories stay; files, installs and prompts are unchanged; every new directory is a derived one or an ancestor of one |
| InitWriteFiles.EnsureResolvedPathsExist | packages/cli/src/commands/init/writeFiles.ts:48-69 | the loop over the four resolved paths ensures each derived directory in turn |
| InitWriteFiles.TailwindConfigTemplate | packages/cli/src/commands/init/writeFiles.ts:13-15 | the tailwind config template is the "with variables" variant exactly when `cssVariables` is on |
| InitWriteFiles.CssContent | packages/cli/src/commands/init/writeFiles.ts:31-35 | without CSS variables the CSS is the inline-colours template whatever the prefix; with them it is the CSS-variables template, passed through `applyPrefixesCss` exactly when a prefix is set |
| InitWriteFiles.WriteFiles | packages/cli/src/commands/init/writeFiles.ts:10-46 | directories first, then the tailwind config, the CSS file (only with a known base colour) and the utils file, in that order |
| InitWriteFiles.InitFilesContents | packages/cli/src/commands/init/writeFiles.ts:18-45 | the utils file `<utils>.ts` always holds the UTILS template, whatever `tsx` is; the tailwind config holds the rendered template; a known base colour puts the chosen CSS content in the CSS file |
| InitWriteFiles.InitFilesWithoutBaseColor | packages/cli/src/commands/init/writeFiles.ts:27-45 | without a base colour the CSS path is not written, but the tailwind config and utils file still are |
| InitWriteFiles.InitFilesSteps | packages/cli/src/commands/init/writeFiles.ts:10-46 | the three writes touch no directory, install nothing and ask nothing: the directories are exactly those the directory loop leaves |
| InitWriteFiles.InitFilesFrame | packages/cli/src/commands/init/writeFiles.ts:10-46 | no path but the three target files changes |
| InitWriteFiles.InitFilesDirs | packages/cli/src/commands/init/writeFiles.ts:10-69 | every derived directory exists; existing directories stay; every new directory is a derived one or one of its ancestors |
| InitDependencies.IconLibrary | packages/cli/src/commands/init/installDependencies.ts:19 | style `new-york` gets `@radix-ui/react-icons`; every other style gets `lucide-react` |
| InitDependencies.Dependencies | packages/cli/src/commands/init/installDependencies.ts:6-20 | the list starts with the four fixed packages in their declared order, ends with exactly one icon library, has length 5 and no duplicates |
| InitDependencies.InstallInvocation | packages/cli/src/commands/init/installDependencies.ts:22-28 | the package manager is run in `cwd` with `[verb] + deps`, and the verb is `install` exactly for npm |
| InitDependencies.InstallDependencies | packages/cli/src/commands/init/installDependencies.ts:13-29 | exactly one invocation is appended to the log, and nothing else changes |

## Left out

- Prompts, spinners and colours (`prompts`, `ora`, `chalk`) are not modelled. A prompt is recorded in `World.asked`, and its answer comes from the `Answers` oracle. The overwrite answer is a function of the component name.
- `process.exit(0)` becomes an `Outcome` other than `Done`. `handleError` and exceptions from writes, fetches or transforms are not modelled.
- The real filesystem and child processes (`fs.writeFile`, `fs.mkdir`, `existsSync`, `execa`) become `World` and `Host`. Awaiting, concurrency and failures are not modelled.
- `resolveTree`, `fetchTree`, `getItemTargetPath`, `transform`, `getRegistryIndex`, `getRegistryBaseColor`, `applyPrefixesCss`, `lodash.template` and the template constants become function-valued parameters (`Registry`, `Resources`). Their own code is not part of this model.
- `getPackageManager(cwd)` is a fixed parameter. The source calls it once for each item that is written, after the skip tests of lines 107-142 of add/index.ts. The model assumes every call returns the same answer.
- The base colour that the `add` command fetches is passed to `transform`, so it lives inside the `transform` parameter.
- Path semantics are simplified:
  - `path.resolve(dir, name)` is `dir + "/" + name`, with no normalisation of `..`, `.`, repeated or trailing slashes;
  - `path.extname` is "the last segment holds a '.' after its first character";
  - `path.dirname` is the prefix before the last '/', and trailing slashes are not stripped.
- `Object.entries(config.resolvedPaths)` is taken in the declared order tailwindConfig, tailwindCss, utils, components. Any other config keys are not modelled.
- An unset tailwind prefix is the empty string. An unset `--path` is the empty string. Absent dependency lists are empty lists.
- The multiselect's pre-selected choices (lines 60-66 of add/index.ts) do not affect the result, so they are not modelled.
- packages/cli/src/commands/init/promptForConfig.ts, packages/cli/src/commands/add/parseOptions.ts, packages/cli/src/commands/init/getConfig.ts, packages/cli/src/commands/init/initOptionsSchema.ts and packages/cli/src/commands/init/index.ts are not part of this model. They hold option parsing, schema validation, prompt-driven config assembly and orchestration.
- The `commander` command registration and the unused `@babel/core` import of add/index.ts are not modelled.
- AddProperties.OverwriteRunLog, AddProperties.OverwriteRunIsOverlay and AddProperties.RerunWithOverwriteIsIdempotent cover only `--overwrite` runs. Without the flag, the per-item lemmas describe each branch, and the log order follows from `PayloadResult`.
