/** The file system as one step of the daemon sees it: a finite snapshot. */
module FileSystem {
  import opened Common

  datatype Node =
    | Regular(mtime: int, content: seq<byte>)
    | Directory(mtime: int, entries: seq<Path>)
    | Special(mtime: int)

  /** `maxPath` bounds the length of every path the system can name. */
  datatype Snapshot = Snapshot(nodes: map<Path, Node>, maxPath: nat) {

    /** Descending into a directory makes the path longer, and paths are bounded. */
    ghost predicate Finite() {
      forall p :: p in nodes && nodes[p].Directory? ==> Below(p, nodes[p].entries)
    }

    ghost predicate Below(p: Path, entries: seq<Path>) {
      forall i :: 0 <= i < |entries| ==> |p| < |entries[i]| <= maxPath
    }

    predicate Exists(p: Path) {
      p in nodes
    }

    predicate IsDirectory(p: Path) {
      p in nodes && nodes[p].Directory?
    }

    predicate IsRegular(p: Path) {
      p in nodes && nodes[p].Regular?
    }

    /** Whole-second modification time, or -1 when the file cannot be examined. */
    function Mtime(p: Path): int {
      if p in nodes then nodes[p].mtime else -1
    }

    /** The bytes a read of `p` yields; only regular files yield any. */
    function Content(p: Path): seq<byte> {
      if IsRegular(p) then nodes[p].content else []
    }

    function Entries(p: Path): seq<Path> {
      if IsDirectory(p) then nodes[p].entries else []
    }

    /** How much deeper than `p` paths can get: the measure of every recursive traversal. */
    function Depth(p: Path): nat {
      if |p| <= maxPath then maxPath - |p| + 1 else 0
    }

    /** No two directory entries name the same path. */
    ghost predicate IsTree() {
      && (forall p :: p in nodes ==> Distinct(Entries(p)))
      && (forall p, q, e :: p in nodes && q in nodes && e in Entries(p) && e in Entries(q) ==> p == q)
    }
  }

  type FS = s: Snapshot | s.Finite() witness Snapshot(map[], 0)

  /** The extension of the file name is ".swp": a name that is nothing but ".swp" has no extension. */
  predicate IsSwap(p: Path) {
    |p| > 4 && p[|p| - 4..] == ".swp" && p[|p| - 5] != '/'
  }
}
