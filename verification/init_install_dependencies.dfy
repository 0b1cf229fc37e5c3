/**
 * The dependency step of the `init` command
 * (packages/cli/src/commands/init/installDependencies.ts): install the fixed
 * runtime packages plus the icon library of the chosen style, in one
 * package-manager invocation.
 */
module InitDependencies {
  import opened Environment
  import opened ProjectConfig

  const ProjectDependencies: seq<string> :=
    ["class-variance-authority", "clsx", "tailwind-merge", "tailwindcss-animate"]

  /** The icon library of a style. */
  function IconLibrary(style: string): (library: string)
    ensures library == "@radix-ui/react-icons" <==> style == "new-york"
    ensures style != "new-york" ==> library == "lucide-react"
  {
    if style == "new-york" then "@radix-ui/react-icons" else "lucide-react"
  }

  /** The packages to install: the four fixed ones in order, then exactly one icon library, with no package named twice. */
  function Dependencies(config: Config): (deps: seq<string>)
    ensures |deps| == 5
    ensures deps[..4] == ProjectDependencies
    ensures deps[4] == IconLibrary(config.style)
    ensures forall i, j :: 0 <= i < j < |deps| ==> deps[i] != deps[j]
  {
    ProjectDependencies + [IconLibrary(config.style)]
  }

  /** The single invocation: `<pm> install|add <deps...>` in `cwd`. */
  function InstallInvocation(cwd: string, config: Config, packageManager: string): (inv: Invocation)
    ensures inv.command == packageManager && inv.cwd == cwd
    ensures inv.args == [InstallVerb(packageManager)] + Dependencies(config)
    ensures inv.args[0] == "install" <==> packageManager == "npm"
    ensures |inv.args| == 6
  {
    Invocation(packageManager, [InstallVerb(packageManager)] + Dependencies(config), cwd)
  }

  method InstallDependencies(host: Host, cwd: string, config: Config, packageManager: string)
    modifies host
    ensures host.State() == WithInvocation(old(host.State()), InstallInvocation(cwd, config, packageManager))
  {
    var deps := ProjectDependencies + [if config.style == "new-york" then "@radix-ui/react-icons" else "lucide-react"];
    host.Exec(packageManager, [if packageManager == "npm" then "install" else "add"] + deps, cwd);
  }
}
