/**
 * `filepath.Join` for two elements, as the repository and the card command
 * use it: empty elements are dropped and the rest are joined with a slash.
 */
module Paths {

  const Separator: char := '/'

  /**
   * Join two path elements. Go's Join also cleans the result (removing
   * `.`, `..` and doubled separators); the model joins elements that are
   * already clean.
   */
  function Join(dir: string, name: string): (p: string)
    ensures dir == "" ==> p == name
    ensures name == "" ==> p == dir
    ensures dir != "" && name != "" ==> |p| == |dir| + 1 + |name| && p[..|dir|] == dir && p[|dir|] == Separator && p[|dir| + 1..] == name
  {
    if dir == "" then name
    else if name == "" then dir
    else dir + [Separator] + name
  }

  /** Joining to a fixed directory never maps two names to one path. */
  lemma JoinInjective(dir: string, a: string, b: string)
    requires Join(dir, a) == Join(dir, b)
    ensures a == b
  {
    if dir != "" && a != "" && b != "" {
      assert a == Join(dir, a)[|dir| + 1..];
    }
  }
}
