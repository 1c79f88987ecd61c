/** Day 7 of 2022, "No Space Left On Device": a file system held in an
    arena tree. Nodes are files with a size or directories; `cwd` is the
    index of the current directory. Links only point forward (a child's
    index is above its parent's), which is what lets `size` recurse. */
module Fs {
  import opened Wrappers
  import opened Tree

  datatype FSError = DirectoryNotFound | AlreadyAtRoot

  /** `FSNode`; `name` is the shared field that `FSNode::name` returns. */
  datatype FSNode = File(name: string, size: nat) | Directory(name: string)

  type Arena = seq<Node<FSNode>>

  /** Children come after their parent in the arena. */
  ghost predicate Ordered(arena: Arena) {
    (forall i, k :: 0 <= i < |arena| && 0 <= k < |arena[i].children| ==> i < arena[i].children[k] < |arena|)
    && (forall i :: 0 <= i < |arena| && arena[i].parent.Some? ==> arena[i].parent.value < i)
  }

  /** `size`: a file's own size; a directory's is its children's sizes summed. */
  function Size(arena: Arena, idx: nat): nat
    requires Ordered(arena) && idx < |arena|
    decreases |arena| - idx, |arena[idx].children| + 1
  {
    match arena[idx].value
    case File(_, size) => size
    case Directory(_) => SumSizes(arena, idx, arena[idx].children)
  }

  function SumSizes(arena: Arena, parent: nat, cs: seq<nat>): nat
    requires Ordered(arena) && parent < |arena|
    requires forall k :: 0 <= k < |cs| ==> parent < cs[k] < |arena|
    decreases |arena| - parent, |cs|
  {
    if |cs| == 0 then 0 else Size(arena, cs[0]) + SumSizes(arena, parent, cs[1..])
  }

  /** The first of `cs`, in list order, whose node is named `name`. */
  function FindChild(arena: Arena, cs: seq<nat>, name: string): (r: Option<nat>)
    requires forall k :: 0 <= k < |cs| ==> cs[k] < |arena|
    ensures r.None? <==> forall k :: 0 <= k < |cs| ==> arena[cs[k]].value.name != name
    ensures r.Some? ==> exists k :: (0 <= k < |cs| && cs[k] == r.value && arena[r.value].value.name == name
      && forall j :: 0 <= j < k ==> arena[cs[j]].value.name != name)
  {
    if |cs| == 0 then None
    else if arena[cs[0]].value.name == name then Some(cs[0])
    else
      var r := FindChild(arena, cs[1..], name);
      if r.Some? then
        ghost var k :| 0 <= k < |cs[1..]| && cs[1..][k] == r.value && arena[r.value].value.name == name
          && forall j :: 0 <= j < k ==> arena[cs[1..][j]].value.name != name;
        assert cs[k + 1] == r.value;
        r
      else r
  }

  /** Where `cd(name)` leads from `cwd`: ".." goes to the parent, any
      other name to the first child so named, file or directory. */
  function CdTarget(arena: Arena, cwd: nat, name: string): (r: Result<nat, FSError>)
    requires WellFormed(arena) && cwd < |arena|
    ensures r.Ok? ==> r.value < |arena|
    ensures r == Err(AlreadyAtRoot) <==> name == ".." && arena[cwd].parent.None?
    ensures r == Err(DirectoryNotFound) <==>
      name != ".." && forall k :: 0 <= k < |arena[cwd].children| ==> arena[arena[cwd].children[k]].value.name != name
    ensures r.Ok? && name == ".." ==> arena[cwd].parent == Some(r.value)
    ensures r.Ok? && name != ".." ==> r.value in arena[cwd].children && arena[r.value].value.name == name
  {
    if name == ".." then
      match arena[cwd].parent
      case None => Err(AlreadyAtRoot)
      case Some(p) => Ok(p)
    else
      match FindChild(arena, arena[cwd].children, name)
      case None => Err(DirectoryNotFound)
      case Some(c) => Ok(c)
  }

  /** `rget_all_dir_sizes`: the sizes of the directories among the first
      `n` nodes, in index order. */
  function DirSizes(arena: Arena, n: nat): seq<nat>
    requires Ordered(arena) && n <= |arena|
  {
    if n == 0 then []
    else DirSizes(arena, n - 1) + if arena[n - 1].value.Directory? then [Size(arena, n - 1)] else []
  }

  /** The sizes listed are exactly the sizes of directories. */
  lemma {:induction false} DirSizesAreDirectories(arena: Arena, n: nat)
    requires Ordered(arena) && n <= |arena|
    ensures forall x :: x in DirSizes(arena, n) <==>
      exists i :: 0 <= i < n && arena[i].value.Directory? && Size(arena, i) == x
  {
    if n > 0 {
      DirSizesAreDirectories(arena, n - 1);
    }
  }

  /** There is one entry per directory. */
  lemma {:induction false} DirSizesCount(arena: Arena, n: nat)
    requires Ordered(arena) && n <= |arena|
    ensures |DirSizes(arena, n)| == |set i | 0 <= i < n && arena[i].value.Directory?|
  {
    if n > 0 {
      DirSizesCount(arena, n - 1);
      var dirs := set i | 0 <= i < n - 1 && arena[i].value.Directory?;
      if arena[n - 1].value.Directory? {
        assert (set i | 0 <= i < n && arena[i].value.Directory?) == dirs + {n - 1};
      } else {
        assert (set i | 0 <= i < n && arena[i].value.Directory?) == dirs;
      }
    }
  }

  /** The arena of a file system: the root directory "/" first, links
      consistent and pointing forward. */
  ghost predicate ValidArena(arena: Arena) {
    WellFormed(arena) && Consistent(arena) && Ordered(arena)
    && |arena| >= 1 && arena[0].value == Directory("/") && arena[0].parent == None
  }

  /** Adding a child keeps the arena a file system's. */
  lemma AddedChildValid(arena: Arena, parent: nat, value: FSNode)
    requires ValidArena(arena) && parent < |arena|
    ensures ValidArena(AddedChild(arena, parent, value))
  {
    AddedChildShape(arena, parent, value);
    AddedChildConsistent(arena, parent, value);
  }

  /** Adding a child under `parent` changes no size but those of `parent`
      and its ancestors; here, the nodes after `parent` keep theirs. */
  lemma {:induction false} SizeAfterAdd(arena: Arena, parent: nat, value: FSNode, d: nat)
    requires ValidArena(arena) && parent < d < |arena|
    ensures ValidArena(AddedChild(arena, parent, value))
    ensures Size(AddedChild(arena, parent, value), d) == Size(arena, d)
    decreases |arena| - d, |arena[d].children| + 1
  {
    AddedChildValid(arena, parent, value);
    AddedChildShape(arena, parent, value);
    if arena[d].value.Directory? {
      SumSizesAfterAdd(arena, parent, value, d, arena[d].children);
    }
  }

  lemma {:induction false} SumSizesAfterAdd(arena: Arena, parent: nat, value: FSNode, d: nat, cs: seq<nat>)
    requires ValidArena(arena) && parent <= d < |arena|
    requires forall k :: 0 <= k < |cs| ==> d < cs[k] < |arena|
    ensures ValidArena(AddedChild(arena, parent, value))
    ensures SumSizes(AddedChild(arena, parent, value), d, cs) == SumSizes(arena, d, cs)
    decreases |arena| - d, |cs|
  {
    AddedChildValid(arena, parent, value);
    if |cs| > 0 {
      SizeAfterAdd(arena, parent, value, cs[0]);
      SumSizesAfterAdd(arena, parent, value, d, cs[1..]);
    }
  }

  /** Sizes of a list of children, the list split in two. */
  lemma {:induction false} SumSizesAppend(arena: Arena, parent: nat, cs: seq<nat>, c: nat)
    requires Ordered(arena) && parent < c < |arena|
    requires forall k :: 0 <= k < |cs| ==> parent < cs[k] < |arena|
    ensures SumSizes(arena, parent, cs + [c]) == SumSizes(arena, parent, cs) + Size(arena, c)
    decreases |cs|
  {
    if |cs| > 0 {
      assert (cs + [c])[1..] == cs[1..] + [c];
      SumSizesAppend(arena, parent, cs[1..], c);
    }
  }

  /** `mkdir` leaves the size of the current directory as it was; `touch`
      adds the new file's size to it (unless the current node is a file). */
  lemma AddedChildSize(arena: Arena, parent: nat, value: FSNode)
    requires ValidArena(arena) && parent < |arena|
    ensures ValidArena(AddedChild(arena, parent, value))
    ensures Size(AddedChild(arena, parent, value), parent)
      == Size(arena, parent) + if arena[parent].value.Directory? && value.File? then value.size else 0
  {
    var a := AddedChild(arena, parent, value);
    AddedChildValid(arena, parent, value);
    AddedChildShape(arena, parent, value);
    if arena[parent].value.Directory? {
      var cs := arena[parent].children;
      assert a[parent].children == cs + [|arena|];
      SumSizesAfterAdd(arena, parent, value, parent, cs);
      SumSizesAppend(a, parent, cs, |arena|);
      assert Size(a, parent) == SumSizes(a, parent, cs) + Size(a, |arena|);
      assert a[|arena|].children == [];
    }
  }

  class FileSystem {
    const tree: ArenaTree<FSNode>
    var cwd: nat

    ghost predicate Valid()
      reads this, tree
    {
      ValidArena(tree.arena) && cwd < |tree.arena|
    }

    /** `FileSystem::new`: only the root directory "/", which is current. */
    constructor ()
      ensures Valid() && fresh(tree)
      ensures tree.arena == [Node(0, Directory("/"), None, [])] && cwd == 0
    {
      var t := new ArenaTree<FSNode>();
      var root := t.AddNode(Directory("/"));
      tree := t;
      cwd := 0;
    }

    /** `exists`: some child of the current directory has this name. */
    method Exists(name: string) returns (b: bool)
      requires Valid()
      ensures b <==> FindChild(tree.arena, tree.arena[cwd].children, name).Some?
    {
      var node := tree.GetNode(cwd);
      var children := node.value.children;
      for k := 0 to |children|
        invariant forall j :: 0 <= j < k ==> tree.arena[children[j]].value.name != name
      {
        var child := tree.GetNode(children[k]);
        if child.value.value.name == name {
          return true;
        }
      }
      return false;
    }

    /** `cd_root`. */
    method CdRoot()
      requires Valid()
      modifies this
      ensures Valid() && cwd == 0
    {
      cwd := 0;
    }

    /** `duh`: the size of the current directory. */
    function Duh(): nat
      reads this, tree
      requires Valid()
    {
      Size(tree.arena, cwd)
    }

    /** `mkdir`: a new directory under the current one. */
    method Mkdir(name: string)
      requires Valid()
      modifies tree
      ensures Valid() && cwd == old(cwd)
      ensures tree.arena == AddedChild(old(tree.arena), cwd, Directory(name))
    {
      AddedChildValid(tree.arena, cwd, Directory(name));
      var r := tree.AddChildNode(cwd, Directory(name));
    }

    /** `touch`: a new file under the current directory. */
    method Touch(name: string, size: nat)
      requires Valid()
      modifies tree
      ensures Valid() && cwd == old(cwd)
      ensures tree.arena == AddedChild(old(tree.arena), cwd, File(name, size))
    {
      AddedChildValid(tree.arena, cwd, File(name, size));
      var r := tree.AddChildNode(cwd, File(name, size));
    }

    /** `cd`: to the parent on "..", otherwise to the first child so named. */
    method Cd(name: string) returns (r: Outcome<FSError>)
      requires Valid()
      modifies this
      ensures Valid()
      ensures var t := CdTarget(tree.arena, old(cwd), name);
        (r.Pass? <==> t.Ok?) && (t.Ok? ==> cwd == t.value)
        && (t.Err? ==> r == Fail(t.error) && cwd == old(cwd))
    {
      if name == ".." {
        var node := tree.GetNode(cwd);
        match node.value.parent {
          case None => return Fail(AlreadyAtRoot);
          case Some(parent) =>
            cwd := parent;
            return Pass;
        }
      }
      var found := FindChildNode(name);
      match found {
        case None => return Fail(DirectoryNotFound);
        case Some(c) =>
          cwd := c;
          return Pass;
      }
    }

    /** The loop of `cd` over the current directory's children. */
    method FindChildNode(name: string) returns (found: Option<nat>)
      requires Valid()
      ensures found == FindChild(tree.arena, tree.arena[cwd].children, name)
    {
      var node := tree.GetNode(cwd);
      var children := node.value.children;
      for k := 0 to |children|
        invariant FindChild(tree.arena, children, name) == FindChild(tree.arena, children[k..], name)
      {
        var child := tree.GetNode(children[k]);
        if child.value.value.name == name {
          return Some(child.value.idx);
        }
        assert children[k..][1..] == children[k + 1..];
      }
      return None;
    }

    /** `rget_all_dir_sizes`. */
    method RgetAllDirSizes() returns (res: seq<nat>)
      requires Valid()
      ensures res == DirSizes(tree.arena, |tree.arena|)
    {
      res := [];
      for idx := 0 to tree.Len()
        invariant res == DirSizes(tree.arena, idx)
      {
        var node := tree.GetNode(idx);
        match node.value.value {
          case File(_, _) =>
          case Directory(_) => res := res + [Size(tree.arena, idx)];
        }
      }
    }
  }

  /** The file system of the source's own example, as it grows: /a/d
      holds test.md (600) and e, which holds test.txt (500); /b is empty. */
  const Root: Arena := [Node(0, Directory("/"), None, [])]
  /** The bare root is a file system's arena. */
  lemma RootValid()
    ensures ValidArena(Root) && |Root| == 1
  {
  }

  const WithA: Arena := [Node(0, Directory("/"), None, [1]), Node(1, Directory("a"), Some(0), [])]
  const WithB: Arena := [
    Node(0, Directory("/"), None, [1, 2]), Node(1, Directory("a"), Some(0), []),
    Node(2, Directory("b"), Some(0), [])]
  const WithD: Arena := [
    Node(0, Directory("/"), None, [1, 2]),
    Node(1, Directory("a"), Some(0), [3]),
    Node(2, Directory("b"), Some(0), []),
    Node(3, Directory("d"), Some(1), [])]
  const WithMd: Arena := [
    Node(0, Directory("/"), None, [1, 2]),
    Node(1, Directory("a"), Some(0), [3]),
    Node(2, Directory("b"), Some(0), []),
    Node(3, Directory("d"), Some(1), [4]),
    Node(4, File("test.md", 600), Some(3), [])]
  const WithE: Arena := [
    Node(0, Directory("/"), None, [1, 2]),
    Node(1, Directory("a"), Some(0), [3]),
    Node(2, Directory("b"), Some(0), []),
    Node(3, Directory("d"), Some(1), [4, 5]),
    Node(4, File("test.md", 600), Some(3), []),
    Node(5, Directory("e"), Some(3), [])]
  const ExampleArena: Arena := [
    Node(0, Directory("/"), None, [1, 2]),
    Node(1, Directory("a"), Some(0), [3]),
    Node(2, Directory("b"), Some(0), []),
    Node(3, Directory("d"), Some(1), [4, 5]),
    Node(4, File("test.md", 600), Some(3), []),
    Node(5, Directory("e"), Some(3), [6]),
    Node(6, File("test.txt", 500), Some(5), [])]

  /** Adding a child gives the arena that differs in the two nodes
      `AddedChildShape` names. */
  lemma AddedChildIs(arena: Arena, parent: nat, value: FSNode, expected: Arena)
    requires ValidArena(arena) && parent < |arena| && |expected| == |arena| + 1
    requires forall i :: 0 <= i < |arena| && i != parent ==> expected[i] == arena[i]
    requires expected[parent] == arena[parent].(children := arena[parent].children + [|arena|])
    requires expected[|arena|] == Node(|arena|, value, Some(parent), [])
    ensures AddedChild(arena, parent, value) == expected && ValidArena(expected)
  {
    AddedChildShape(arena, parent, value);
    AddedChildValid(arena, parent, value);
  }

  lemma BuiltWithA(a: Arena)
    requires a == Root && ValidArena(a)
    ensures AddedChild(a, 0, Directory("a")) == WithA
  {
    AddedChildIs(a, 0, Directory("a"), WithA);
  }

  lemma BuiltWithB(a: Arena)
    requires a == WithA && ValidArena(a)
    ensures AddedChild(a, 0, Directory("b")) == WithB
  {
    AddedChildIs(a, 0, Directory("b"), WithB);
  }

  lemma BuiltWithD(a: Arena)
    requires a == WithB && ValidArena(a)
    ensures AddedChild(a, 1, Directory("d")) == WithD
  {
    AddedChildIs(a, 1, Directory("d"), WithD);
  }

  lemma BuiltWithMd(a: Arena)
    requires a == WithD && ValidArena(a)
    ensures AddedChild(a, 3, File("test.md", 600)) == WithMd
  {
    AddedChildIs(a, 3, File("test.md", 600), WithMd);
  }

  lemma BuiltWithE(a: Arena)
    requires a == WithMd && ValidArena(a)
    ensures AddedChild(a, 3, Directory("e")) == WithE
  {
    AddedChildIs(a, 3, Directory("e"), WithE);
  }

  lemma BuiltExample(a: Arena)
    requires a == WithE && ValidArena(a)
    ensures AddedChild(a, 5, File("test.txt", 500)) == ExampleArena
  {
    AddedChildIs(a, 5, File("test.txt", 500), ExampleArena);
  }

  /** `cd` finds "a" under the root, "d" under /a and "e" under /a/d. */
  lemma CdFindsA(a: Arena)
    requires a == WithB && ValidArena(a)
    ensures CdTarget(a, 0, "a") == Ok(1)
  {
  }

  lemma CdFindsD(a: Arena)
    requires a == WithD && ValidArena(a)
    ensures CdTarget(a, 1, "d") == Ok(3)
  {
  }

  lemma CdFindsE(a: Arena)
    requires a == WithE && ValidArena(a)
    ensures CdTarget(a, 3, "e") == Ok(5)
  {
  }

  lemma ExampleSizes()
    requires Ordered(ExampleArena)
    ensures Size(ExampleArena, 5) == 500 && Size(ExampleArena, 0) == 1100
    ensures DirSizes(ExampleArena, 7) == [1100, 1100, 0, 1100, 500]
  {
    var e := ExampleArena;
    assert Size(e, 5) == 500;
    assert Size(e, 3) == 1100;
    assert Size(e, 1) == 1100;
    assert Size(e, 2) == 0;
  }

  /** The first three steps of the source's own test: /a and /b, then
      into /a, which `cd` finds. */
  method ExampleMakeAB(fs: FileSystem)
    requires fs.Valid() && fs.tree.arena == Root && fs.cwd == 0
    modifies fs, fs.tree
    ensures fs.Valid() && fs.tree.arena == WithB && fs.cwd == 1
  {
    BuiltWithA(fs.tree.arena);
    fs.Mkdir("a");
    BuiltWithB(fs.tree.arena);
    fs.Mkdir("b");
    CdFindsA(fs.tree.arena);
    var r := fs.Cd("a");
  }

  /** The next three: /a/d, into it, and test.md there. */
  method ExampleMakeD(fs: FileSystem)
    requires fs.Valid() && fs.tree.arena == WithB && fs.cwd == 1
    modifies fs, fs.tree
    ensures fs.Valid() && fs.tree.arena == WithMd && fs.cwd == 3
  {
    BuiltWithD(fs.tree.arena);
    fs.Mkdir("d");
    CdFindsD(fs.tree.arena);
    var r := fs.Cd("d");
    BuiltWithMd(fs.tree.arena);
    fs.Touch("test.md", 600);
  }

  /** Then /a/d/e and into it. */
  method ExampleMakeE(fs: FileSystem)
    requires fs.Valid() && fs.tree.arena == WithMd && fs.cwd == 3
    modifies fs, fs.tree
    ensures fs.Valid() && fs.tree.arena == WithE && fs.cwd == 5
  {
    BuiltWithE(fs.tree.arena);
    fs.Mkdir("e");
    CdFindsE(fs.tree.arena);
    var r := fs.Cd("e");
  }

  /** And last test.txt in /a/d/e. */
  method ExampleTouchTxt(fs: FileSystem)
    requires fs.Valid() && fs.tree.arena == WithE && fs.cwd == 5
    modifies fs, fs.tree
    ensures fs.Valid() && fs.tree.arena == ExampleArena && fs.cwd == 5
  {
    BuiltExample(fs.tree.arena);
    fs.Touch("test.txt", 500);
  }

  /** The queries of the source's own test on the finished tree: `duh`
      is 500 in /a/d/e and 1100 at the root, and the directory sizes
      come in index order. */
  method ExampleQueries(fs: FileSystem) returns (inE: nat, atRoot: nat, sizes: seq<nat>)
    requires fs.Valid() && fs.tree.arena == ExampleArena && fs.cwd == 5
    modifies fs
    ensures inE == 500 && atRoot == 1100 && sizes == [1100, 1100, 0, 1100, 500]
  {
    ExampleSizes();
    inE := fs.Duh();
    fs.CdRoot();
    atRoot := fs.Duh();
    sizes := fs.RgetAllDirSizes();
  }

  /** The source's own test, from the empty file system on. */
  method FileSystemExample()
  {
    var fs := new FileSystem();
    ExampleMakeAB(fs);
    ExampleMakeD(fs);
    ExampleMakeE(fs);
    ExampleTouchTxt(fs);
    var inE, atRoot, sizes := ExampleQueries(fs);
    assert inE == 500 && atRoot == 1100;
  }
}
