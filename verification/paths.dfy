/**
 * String and path helpers shared by the `add` and `init` commands.
 *
 * Paths are plain strings whose segments are separated by '/'. Joining a
 * directory and a relative file name puts one '/' between them and does not
 * normalise anything else.
 */
module Paths {

  /** `s.endsWith(suffix)` */
  predicate EndsWith(s: string, suffix: string) {
    |suffix| <= |s| && s[|s| - |suffix|..] == suffix
  }

  /** `s.replace(/<suffix>$/, replacement)`: a trailing `suffix` becomes `replacement`; any other string is returned as it is. */
  function ReplaceSuffix(s: string, suffix: string, replacement: string): string {
    if EndsWith(s, suffix) then s[..|s| - |suffix|] + replacement else s
  }

  /** `path.resolve(dir, name)` for a relative `name`. */
  function Join(dir: string, name: string): string {
    dir + "/" + name
  }

  /** The index of the last '/' of `s`, or -1 when there is none. */
  function LastSlash(s: string): (k: int)
    ensures -1 <= k < |s|
    ensures k >= 0 ==> s[k] == '/'
    ensures forall j :: k < j < |s| ==> s[j] != '/'
  {
    if |s| == 0 then -1
    else if s[|s| - 1] == '/' then |s| - 1
    else LastSlash(s[..|s| - 1])
  }

  /** The last segment of `s`. */
  function Basename(s: string): string {
    s[LastSlash(s) + 1..]
  }

  /** `path.extname(s) != ""`: the last segment holds a '.' after its first character. */
  predicate HasExtension(s: string) {
    var b := Basename(s);
    exists i :: 0 < i < |b| && b[i] == '.'
  }

  /** `path.dirname(s)`: everything before the last '/'; "." without one, "/" when it is the first character. */
  function Dirname(s: string): string {
    var k := LastSlash(s);
    if k < 0 then "." else if k == 0 then "/" else s[..k]
  }

  /** Dirname and Basename split a path at its last '/' and joining them restores it. */
  lemma DirnameJoinsBasename(s: string)
    requires LastSlash(s) > 0
    ensures Join(Dirname(s), Basename(s)) == s
    ensures '/' !in Basename(s)
  {
    var k := LastSlash(s);
    var b := s[k + 1..];
    assert s[k..k + 1] == "/";
    assert s == s[..k] + s[k..k + 1] + b;
    forall i | 0 <= i < |b|
      ensures b[i] != '/'
    {
      assert b[i] == s[k + 1 + i];
    }
  }

  /** The renaming of lines 155-158 of add/index.ts: a trailing `.tsx` becomes `.jsx`, then a trailing `.ts` becomes `.js`. */
  function ToJsExtension(p: string): string {
    ReplaceSuffix(ReplaceSuffix(p, ".tsx", ".jsx"), ".ts", ".js")
  }

  /** Exactly one of the two renamings applies, and only to a path with that extension. */
  lemma ToJsExtensionRule(p: string)
    ensures EndsWith(p, ".tsx") ==> ToJsExtension(p) == p[..|p| - 4] + ".jsx"
    ensures EndsWith(p, ".ts") ==> ToJsExtension(p) == p[..|p| - 3] + ".js"
    ensures !EndsWith(p, ".tsx") && !EndsWith(p, ".ts") ==> ToJsExtension(p) == p
  {
    if EndsWith(p, ".tsx") {
      var q := p[..|p| - 4] + ".jsx";
      assert q[|q| - 1] == 'x';
      assert !EndsWith(q, ".ts");
      assert p[|p| - 1] == 'x';
    }
  }

  /** A suffix without '/' is a suffix of `Join(dir, name)` exactly when it is one of `name`. */
  lemma EndsWithJoin(dir: string, name: string, suffix: string)
    requires '/' !in suffix
    ensures EndsWith(Join(dir, name), suffix) <==> EndsWith(name, suffix)
  {
    var j := Join(dir, name);
    if |suffix| <= |name| {
      assert j[|j| - |suffix|..] == name[|name| - |suffix|..];
    } else if |suffix| <= |j| {
      var tail := j[|j| - |suffix|..];
      assert tail[|dir| - (|j| - |suffix|)] == '/';
    }
  }

  lemma {:induction false} ReplaceSuffixJoin(dir: string, name: string, suffix: string, replacement: string)
    requires '/' !in suffix
    ensures ReplaceSuffix(Join(dir, name), suffix, replacement) == Join(dir, ReplaceSuffix(name, suffix, replacement))
  {
    EndsWithJoin(dir, name, suffix);
    if EndsWith(name, suffix) {
      var j := Join(dir, name);
      assert j[..|j| - |suffix|] == dir + "/" + name[..|name| - |suffix|];
    }
  }

  /** Renaming the joined path renames only the file name: the directory part is never touched. */
  lemma ToJsExtensionJoin(dir: string, name: string)
    ensures ToJsExtension(Join(dir, name)) == Join(dir, ToJsExtension(name))
  {
    ReplaceSuffixJoin(dir, name, ".tsx", ".jsx");
    ReplaceSuffixJoin(dir, ReplaceSuffix(name, ".tsx", ".jsx"), ".ts", ".js");
  }
}
