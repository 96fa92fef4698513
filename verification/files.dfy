/** The receiver's file system: cleaned paths to files and directories, changed
    only by the receiver, with operations that may fail. */
module Files {
  import opened Bytes
  import opened Paths

  datatype Node = File(data: bytes, mode: nat) | Dir

  type Tree = map<string, Node>

  /** The regular files of a tree. */
  function FilesOf(t: Tree): map<string, Node> {
    map p | p in t && t[p].File? :: t[p]
  }

  function DirsOf(t: Tree): set<string> {
    set p | p in t && t[p].Dir?
  }

  /** The directory that the first k components of a path lead to. */
  function Above(path: string, k: nat): string
    requires k <= |CleanParts(path).comps|
  {
    Render(Cleaned(CleanParts(path).abs, CleanParts(path).comps[..k]))
  }

  /** The directories that have to exist for a file at the given path. */
  function Parents(path: string): set<string> {
    set k | 1 <= k < |CleanParts(path).comps| :: Above(path, k)
  }

  /** The root, the working directory, and what only ".." leads to: places that are
      directories whatever is stored. */
  predicate Standing(path: string) {
    var comps := CleanParts(path).comps;
    forall i | 0 <= i < |comps| :: comps[i] == DOTDOT
  }

  lemma NewFile(t: Tree, p: string, data: bytes, mode: nat)
    requires p !in DirsOf(t)
    ensures FilesOf(t[p := File(data, mode)]) == FilesOf(t)[p := File(data, mode)]
    ensures DirsOf(t[p := File(data, mode)]) == DirsOf(t)
  {}

  /** What leads to a place and is not the place itself: exactly these paths have to
      be directories for a file to be there. */
  lemma ParentsAre(path: string, d: string)
    ensures d in Parents(path) <==>
      var p, q := CleanParts(path), CleanParts(d);
      d == Clean(d) && q.abs == p.abs && q.comps <= p.comps && 0 < |q.comps| < |p.comps|
  {
    hide CleanParts, Render;
    var p, q := CleanParts(path), CleanParts(d);
    CleanIsNormal(path);
    if d in Parents(path) {
      var k :| 1 <= k < |p.comps| && d == Above(path, k);
      PrefixNormal(p, k);
      RenderCleans(Cleaned(p.abs, p.comps[..k]));
    }
    if d == Clean(d) && q.abs == p.abs && q.comps <= p.comps && 0 < |q.comps| < |p.comps| {
      assert p.comps[..|q.comps|] == q.comps && q == Cleaned(p.abs, q.comps);
      assert d == Above(path, |q.comps|);
    }
  }

  /** A path stands by itself exactly when nothing in it has a name. */
  lemma StandingExactlyWhen(path: string)
    ensures Standing(path) <==> forall i | 0 <= i < |CleanParts(path).comps| :: !Ordinary(CleanParts(path).comps[i])
  {
    hide CleanParts;
    CleanIsNormal(path);
    var c := CleanParts(path);
    var n: nat :| Ups(c, n);
  }

  class FileSystem {
    var nodes: Tree
    /** The files the program has open. */
    var handles: set<string>
    /** Whether some operation has failed for reasons of the system's own. */
    ghost var failed: bool

    constructor (nodes: Tree)
      ensures this.nodes == nodes && handles == {} && !failed
    {
      this.nodes, handles, failed := nodes, {}, false;
    }

    /** os.Stat succeeded. */
    function Exists(path: string): bool
      reads this
    {
      path in nodes || Standing(path)
    }

    /** os.MkdirAll of the directory holding dest: only directories above it are
        ever added, and nothing else changes. On success all of them exist; it
        never succeeds when a file is in the place of one. */
    method MakeParents(dest: string) returns (ok: bool)
      modifies this`nodes, this`failed
      ensures FilesOf(nodes) == FilesOf(old(nodes))
      ensures DirsOf(old(nodes)) <= DirsOf(nodes) <= DirsOf(old(nodes)) + Parents(dest)
      ensures ok ==> Parents(dest) <= DirsOf(nodes) && Parents(dest) !! FilesOf(nodes).Keys
      ensures !ok && Parents(dest) !! FilesOf(nodes).Keys ==> failed
      ensures ok ==> failed == old(failed)
      ensures old(failed) ==> failed
    {
      hide Above;
      var comps := CleanParts(dest).comps;
      var k := 1;
      ok := true;
      while k < |comps|
        invariant 1 <= k && ok && FilesOf(nodes) == FilesOf(old(nodes)) && failed == old(failed)
        invariant DirsOf(old(nodes)) <= DirsOf(nodes) <= DirsOf(old(nodes)) + Parents(dest)
        invariant forall j | 1 <= j < k && j < |comps| :: Above(dest, j) in DirsOf(nodes)
      {
        var dir := Above(dest, k);
        assert dir in Parents(dest);
        if dir in nodes && nodes[dir].File? {
          assert dir in FilesOf(nodes);
          return false;
        }
        if dir !in nodes {
          var fails: bool := *;
          if fails {
            failed := true;
            return false;
          }
          nodes := nodes[dir := Dir];
        }
        k := k + 1;
      }
    }

    /** os.CreateTemp: an empty file under a name not in use. The name is never
        that of the destination. */
    method CreateTemp(dest: string) returns (ok: bool, name: string)
      modifies this
      ensures !ok ==> nodes == old(nodes) && handles == old(handles) && failed
      ensures ok ==> name !in old(nodes) && name != dest && nodes == old(nodes)[name := File([], 0x180)] && failed == old(failed)
      ensures ok ==> name !in old(handles) && handles == old(handles) + {name}
    {
      name := *;
      ok := name !in nodes && name !in handles && name != dest;
      if ok { nodes, handles := nodes[name := File([], 0x180)], handles + {name}; } else { failed := true; }
    }

    /** A write to an open file appends, possibly only in part. */
    method Write(name: string, chunk: bytes) returns (ok: bool)
      requires name in nodes && nodes[name].File? && name in handles
      modifies this`nodes, this`failed
      ensures exists k :: (
        && 0 <= k <= |chunk| && (ok ==> k == |chunk|)
        && nodes == old(nodes)[name := File(old(nodes)[name].data + chunk[..k], old(nodes)[name].mode)])
      ensures if ok then failed == old(failed) else failed
    {
      ok := *;
      if !ok { failed := true; }
      var k: int := *;
      if ok || !(0 <= k <= |chunk|) { k := |chunk|; }
      nodes := nodes[name := File(nodes[name].data + chunk[..k], nodes[name].mode)];
    }

    method Chmod(name: string, mode: nat) returns (ok: bool)
      requires name in nodes && nodes[name].File? && name in handles
      modifies this`nodes, this`failed
      ensures nodes == if ok then old(nodes)[name := File(old(nodes)[name].data, mode)] else old(nodes)
      ensures if ok then failed == old(failed) else failed
    {
      ok := *;
      if ok { nodes := nodes[name := File(nodes[name].data, mode)]; } else { failed := true; }
    }

    /** Closing an open file, which is not open after that even on failure. Closing it
        again does nothing. */
    method CloseFile(name: string) returns (ok: bool)
      modifies this`handles, this`failed
      ensures handles == old(handles) - {name} && (ok ==> name in old(handles))
      ensures failed == (old(failed) || (!ok && name in old(handles)))
    {
      ok := *;
      if name !in handles { return false; }
      handles := handles - {name};
      if !ok { failed := true; }
    }

    /** os.Rename replaces a file at the destination, never a directory. */
    method Rename(name: string, dest: string) returns (ok: bool)
      requires name in nodes && nodes[name].File? && name != dest
      modifies this`nodes, this`failed
      ensures ok ==> dest !in DirsOf(old(nodes)) && !Standing(dest) && nodes == (old(nodes) - {name})[dest := old(nodes)[name]]
      ensures !ok ==> nodes == old(nodes) && (failed || dest in DirsOf(nodes) || Standing(dest))
      ensures ok ==> failed == old(failed)
      ensures old(failed) ==> failed
    {
      if (dest in nodes && nodes[dest].Dir?) || Standing(dest) { return false; }
      ok := *;
      if ok { nodes := (nodes - {name})[dest := nodes[name]]; } else { failed := true; }
    }

    /** os.Remove of a temporary file; nothing to do if it is gone. */
    method Remove(name: string)
      modifies this`nodes
      ensures nodes == old(nodes) - {name}
    {
      nodes := nodes - {name};
    }
  }
}
