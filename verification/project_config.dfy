/**
 * The consumer project's configuration (`components.json` after path
 * resolution), limited to the fields the `add` and `init` commands read.
 */
module ProjectConfig {

  /** The alias directories and files, already resolved to filesystem paths. */
  datatype ResolvedPaths = ResolvedPaths(
    tailwindConfig: string,
    tailwindCss: string,
    utils: string,
    components: string)

  /** `prefix == ""` stands for an unset prefix, which the source tests for falsiness. */
  datatype Tailwind = Tailwind(baseColor: string, cssVariables: bool, prefix: string)

  datatype Config = Config(
    style: string,
    tsx: bool,
    tailwind: Tailwind,
    resolvedPaths: ResolvedPaths)
}
