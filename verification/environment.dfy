/**
 * The machine the CLI runs on, reduced to what the `add` and `init` commands
 * observe and change: the files and directories of the project, the child
 * processes started (package-manager invocations), and the questions put to
 * the user.
 *
 * `World` is the value of that state; `Host` is the object the commands
 * update in place, one call per `fs.mkdir`, `fs.writeFile`, `execa` or
 * `prompts`.
 */
module Environment {
  import opened Paths

  /** A child process: program, argument vector, working directory. */
  datatype Invocation = Invocation(command: string, args: seq<string>, cwd: string)

  /** A question put to the user on the terminal. */
  datatype Prompt = PickComponents | Proceed | Overwrite(component: string)

  datatype World = World(
    files: map<string, string>,  // path to content
    dirs: set<string>,           // paths that are directories
    log: seq<Invocation>,        // child processes started, oldest first
    asked: seq<Prompt>)          // prompts shown, oldest first

  /** `existsSync(p)`: a file or a directory is there. */
  predicate Exists(w: World, p: string) {
    p in w.files || p in w.dirs
  }

  /** Agreement of two file tables at one path: both lack it, or both hold the same content. */
  predicate SameAt(m: map<string, string>, m': map<string, string>, p: string) {
    (p in m <==> p in m') && (p in m ==> m[p] == m'[p])
  }

  /** The directories `mkdir -p d` creates: `d` and every prefix of `d` that ends just before a '/'. */
  function Ancestry(d: string): (r: set<string>)
    ensures d in r
    ensures forall a :: a in r ==> |a| <= |d| && a == d[..|a|]
  {
    {d} + set i | 0 < i < |d| && d[i] == '/' :: d[..i]
  }

  function WithDirectory(w: World, d: string): World {
    w.(dirs := w.dirs + Ancestry(d))
  }

  function WithFile(w: World, path: string, content: string): World {
    w.(files := w.files[path := content])
  }

  function WithInvocation(w: World, inv: Invocation): World {
    w.(log := w.log + [inv])
  }

  function WithPrompt(w: World, q: Prompt): World {
    w.(asked := w.asked + [q])
  }

  /**
   * `if (!existsSync(d)) await fs.mkdir(d, { recursive: true })`, as both
   * commands write it: afterwards `d` exists, no file changed, and every new
   * directory is `d` or one of its ancestors.
   */
  function EnsureDir(w: World, d: string): (r: World)
    ensures Exists(r, d)
    ensures r.files == w.files && r.log == w.log && r.asked == w.asked
    ensures w.dirs <= r.dirs
    ensures forall a :: a in r.dirs && a !in w.dirs ==> a in Ancestry(d)
    ensures Exists(w, d) ==> r == w
  {
    if Exists(w, d) then w else WithDirectory(w, d)
  }

  /** A path strictly below `d` is never one of the directories `mkdir -p d` creates. */
  lemma EnsureDirKeepsPathsBelow(w: World, d: string, name: string)
    ensures Exists(EnsureDir(w, d), Join(d, name)) <==> Exists(w, Join(d, name))
  {
    assert Join(d, name) !in Ancestry(d);
  }

  /** The first argument of every install: `packageManager === "npm" ? "install" : "add"`. */
  function InstallVerb(packageManager: string): (verb: string)
    ensures verb == "install" <==> packageManager == "npm"
    ensures verb != "install" ==> verb == "add"
  {
    if packageManager == "npm" then "install" else "add"
  }

  class Host {
    var files: map<string, string>
    var dirs: set<string>
    var log: seq<Invocation>
    var asked: seq<Prompt>

    function State(): World
      reads this
    {
      World(files, dirs, log, asked)
    }

    constructor (files0: map<string, string>, dirs0: set<string>)
      ensures State() == World(files0, dirs0, [], [])
    {
      files, dirs, log, asked := files0, dirs0, [], [];
    }

    /** `fs.mkdir(d, { recursive: true })` */
    method Mkdir(d: string)
      modifies this
      ensures State() == WithDirectory(old(State()), d)
    {
      dirs := dirs + Ancestry(d);
    }

    /** `fs.writeFile(path, content)` */
    method WriteFile(path: string, content: string)
      modifies this
      ensures State() == WithFile(old(State()), path, content)
    {
      files := files[path := content];
    }

    /** `execa(command, args, { cwd })`, awaited */
    method Exec(command: string, args: seq<string>, cwd: string)
      modifies this
      ensures State() == WithInvocation(old(State()), Invocation(command, args, cwd))
    {
      log := log + [Invocation(command, args, cwd)];
    }

    /** `prompts(...)`: the question is shown; its answer comes from the caller's oracle. */
    method Ask(q: Prompt)
      modifies this
      ensures State() == WithPrompt(old(State()), q)
    {
      asked := asked + [q];
    }
  }
}
