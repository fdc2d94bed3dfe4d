/** The search for the workspace root: up from a directory to the first that holds the marker. */
module Workspace {
  import opened Common

  /** An absolute path as its segments; the empty list is the root directory. */
  type Path = seq<string>

  function Dirname(dir: Path): Path {
    if dir == [] then dir else dir[..|dir| - 1]
  }

  /** `dir` is `start` or one of its ancestors. */
  predicate IsAncestorOrSelf(dir: Path, start: Path) {
    dir <= start
  }

  /** Returns the deepest ancestor-or-self that holds the marker, and fails exactly when none
      does. `marked` are the directories in which the marker exists. */
  method ResolveWorkspaceRoot(marked: set<Path>, start: Path) returns (r: Result<Path, string>)
    ensures r.Ok? <==> exists d :: d in marked && IsAncestorOrSelf(d, start)
    ensures r.Ok? ==> r.value in marked && IsAncestorOrSelf(r.value, start)
    ensures r.Ok? ==> forall d :: d in marked && IsAncestorOrSelf(d, start) ==> IsAncestorOrSelf(d, r.value)
  {
    var dir := start;
    while true
      invariant IsAncestorOrSelf(dir, start)
      invariant forall d :: d in marked && IsAncestorOrSelf(d, start) ==> IsAncestorOrSelf(d, dir)
      decreases |dir|
    {
      if dir in marked {
        return Ok(dir);
      }
      var parent := Dirname(dir);
      if parent == dir {
        return Err("Could not locate workspace root (pnpm-workspace.yaml)");
      }
      forall d | d in marked && IsAncestorOrSelf(d, start) ensures IsAncestorOrSelf(d, parent) {
        assert d <= dir && d != dir;
      }
      dir := parent;
    }
  }
}
