/**
 The subject's directory as a run changes it, one step at a time. Every step either does what it says or
 changes nothing; a caller's `lets` says whether the machine lets this one through.
 */
module FileTree {
  import opened Basics
  import opened Text

  /** Components below the subject's root, which is `[]`. */
  type Path = seq<string>

  datatype Node = File(content: string) | Dir

  type Tree = map<Path, Node>

  function Look(t: Tree, p: Path): Option<Node> {
    if p in t then Some(t[p]) else None
  }

  predicate Under(dir: Path, p: Path) {
    dir <= p
  }

  predicate IsDir(t: Tree, p: Path) {
    p == [] || (p in t && t[p].Dir?)
  }

  predicate IsFile(t: Tree, p: Path) {
    p in t && t[p].File?
  }

  /** Every entry sits in a directory. */
  ghost predicate Proper(t: Tree) {
    forall p <- t :: p != [] && IsDir(t, p[..|p| - 1])
  }

  lemma {:induction false} NothingUnderNothing(t: Tree, dir: Path, p: Path)
    requires Proper(t) && dir != [] && dir !in t && Under(dir, p)
    ensures p !in t
    decreases |p|
  {
    if p != dir {
      NothingUnderNothing(t, dir, p[..|p| - 1]);
    }
  }

  predicate CanWrite(t: Tree, p: Path) {
    p != [] && IsDir(t, p[..|p| - 1]) && (p in t ==> t[p].File?)
  }

  /** A directory that holds nothing. */
  ghost predicate Empty(t: Tree, dir: Path) {
    forall p <- t :: Under(dir, p) ==> p == dir
  }

  function Without(t: Tree, dir: Path): Tree {
    map p | p in t && !Under(dir, p) :: t[p]
  }

  function Read(t: Tree, p: Path, lets: bool): Option<string> {
    if lets && IsFile(t, p) then Some(t[p].content) else None
  }

  const MARKER := "// Generated by provreq — do not edit;"

  /** Whether a file already at the harness path is provreq's own, and so may be overwritten. */
  predicate Reclaimable(existing: string) {
    StartsWith(existing, MARKER)
  }

  /** A file provreq did not write stands where the harness goes; one it cannot read counts as that. */
  predicate Blocked(t: Tree, harness: Path, lets: bool) {
    harness in t && !(match Read(t, harness, lets) case None => Reclaimable("") case Some(s) => Reclaimable(s))
  }

  /** A readable file whose text starts with the line every generated harness starts with. */
  predicate IsGenerated(t: Tree, p: Path, readable: bool) {
    readable && p in t && t[p].File? && "// Generated by provreq — do not edit;" <= t[p].content
  }

  lemma BlockedExactly(t: Tree, p: Path, lets: bool)
    ensures Blocked(t, p, lets) <==> p in t && !IsGenerated(t, p, lets)
  {
  }

  function LowerAscii(c: char): char {
    if 'A' <= c <= 'Z' then c - 'A' + 'a' else c
  }

  predicate IsAsciiAlphanumeric(c: char) {
    'a' <= c <= 'z' || 'A' <= c <= 'Z' || '0' <= c <= '9'
  }

  /** The name every harness goes by: an identifier, and so one component of a path. */
  function HarnessName(id: string): (name: string)
    ensures StartsWith(name, "provreq_") && |name| == |"provreq_"| + |id|
    ensures forall c <- name :: 'a' <= c <= 'z' || '0' <= c <= '9' || c == '_'
    ensures forall i :: 0 <= i < |id| ==>
              name[|"provreq_"| + i] == if 'A' <= id[i] <= 'Z' then id[i] - 'A' + 'a'
                                        else if 'a' <= id[i] <= 'z' || '0' <= id[i] <= '9' then id[i] else '_'
  {
    "provreq_" + Map(id, (c: char) => if IsAsciiAlphanumeric(c) then LowerAscii(c) else '_')
  }

  class Subject {
    var tree: Tree

    method Write(p: Path, content: string, lets: bool) returns (ok: bool)
      modifies this
      ensures ok == (lets && CanWrite(old(tree), p))
      ensures tree == if ok then old(tree)[p := File(content)] else old(tree)
    {
      ok := lets && CanWrite(tree, p);
      if ok {
        tree := tree[p := File(content)];
      }
    }

    method MakeDir(p: Path, lets: bool) returns (ok: bool)
      requires p != []
      modifies this
      ensures ok == (IsDir(old(tree), p) || (lets && p !in old(tree) && IsDir(old(tree), p[..|p| - 1])))
      ensures tree == if ok && p !in old(tree) then old(tree)[p := Dir] else old(tree)
    {
      ok := IsDir(tree, p) || (lets && p !in tree && IsDir(tree, p[..|p| - 1]));
      if ok && p !in tree {
        tree := tree[p := Dir];
      }
    }

    method RemoveFile(p: Path, lets: bool)
      modifies this
      ensures tree == if lets && IsFile(old(tree), p) then old(tree) - {p} else old(tree)
    {
      if lets && IsFile(tree, p) {
        tree := tree - {p};
      }
    }

    /** Refuses a directory that is not empty. */
    method RemoveDir(p: Path, lets: bool)
      modifies this
      ensures tree == if lets && p in old(tree) && old(tree)[p].Dir? && Empty(old(tree), p)
                      then old(tree) - {p} else old(tree)
    {
      if lets && p in tree && tree[p].Dir? && forall q <- tree :: Under(p, q) ==> q == p {
        tree := tree - {p};
      }
    }

    method RemoveDirAll(p: Path, lets: bool)
      modifies this
      ensures tree == if lets && p in old(tree) && old(tree)[p].Dir? then Without(old(tree), p) else old(tree)
    {
      if lets && p in tree && tree[p].Dir? {
        tree := Without(tree, p);
      }
    }

    /** The tool's turn: it leaves whatever tree it likes. */
    method Execute(tool: Tool) returns (output: Option<string>)
      modifies this
      ensures (tree, output) == tool(old(tree))
    {
      var (next, said) := tool(tree);
      tree, output := next, said;
    }
  }

  /** What an external tool does to the tree it is started in, and what it prints if it starts at all. */
  type Tool = Tree -> (Tree, Option<string>)
}
