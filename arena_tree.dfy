/** The `tree` module of the shared library: an append-only arena of nodes
    whose parent and child links are indices into the arena. */
module Tree {
  import opened Wrappers

  /** The only error of the tree: an index at or past the arena's length. */
  datatype NodeDoesNotExist = NodeDoesNotExist

  /** A stored node; `idx`, `parent` and `children` are the accessors. */
  datatype Node<T> = Node(idx: nat, value: T, parent: Option<nat>, children: seq<nat>)

  /** Every node knows its own index, every link points into the arena,
      and no child is listed twice under one parent. */
  ghost predicate WellFormed<T>(arena: seq<Node<T>>)
  {
    (forall i :: 0 <= i < |arena| ==> arena[i].idx == i)
    && (forall i :: 0 <= i < |arena| && arena[i].parent.Some? ==> arena[i].parent.value < |arena|)
    && (forall i, k :: 0 <= i < |arena| && 0 <= k < |arena[i].children| ==> arena[i].children[k] < |arena|)
    && (forall i, k, m :: 0 <= i < |arena| && 0 <= k < m < |arena[i].children| ==>
          arena[i].children[k] != arena[i].children[m])
  }

  /** Parent and child links agree in both directions. */
  ghost predicate Consistent<T>(arena: seq<Node<T>>)
    requires WellFormed(arena)
  {
    (forall i :: 0 <= i < |arena| && arena[i].parent.Some? ==> i in arena[arena[i].parent.value].children)
    && (forall p, k :: 0 <= p < |arena| && 0 <= k < |arena[p].children| ==>
          arena[arena[p].children[k]].parent == Some(p))
  }

  /** The arena after `add_node(value)`. */
  function Pushed<T>(arena: seq<Node<T>>, value: T): (a: seq<Node<T>>)
    ensures |a| == |arena| + 1 && a[..|arena|] == arena
    ensures a[|arena|] == Node(|arena|, value, None, [])
  {
    arena + [Node(|arena|, value, None, [])]
  }

  /** The arena after a successful `register_parent_node(child, parent)`:
      the child's parent is overwritten and the child is appended to the
      parent's list unless already there. A previous parent keeps the child. */
  function Registered<T>(arena: seq<Node<T>>, child: nat, parent: nat): (a: seq<Node<T>>)
    requires child < |arena| && parent < |arena|
    ensures |a| == |arena|
    ensures forall i :: 0 <= i < |a| ==> a[i].idx == arena[i].idx && a[i].value == arena[i].value
    ensures a[child].parent == Some(parent) && child in a[parent].children
    ensures forall i :: 0 <= i < |a| && i != child ==> a[i].parent == arena[i].parent
    ensures forall i :: 0 <= i < |a| && i != parent ==> a[i].children == arena[i].children
    ensures a[parent].children == arena[parent].children
         || a[parent].children == arena[parent].children + [child]
  {
    var a1 := arena[child := arena[child].(parent := Some(parent))];
    if child in a1[parent].children then a1
    else a1[parent := a1[parent].(children := a1[parent].children + [child])]
  }

  /** The arena after a successful `add_child_node(parent, value)`. */
  function AddedChild<T>(arena: seq<Node<T>>, parent: nat, value: T): (a: seq<Node<T>>)
    requires parent < |arena|
    ensures |a| == |arena| + 1
  {
    Registered(Pushed(arena, value), |arena|, parent)
  }

  lemma {:induction false} PushedWellFormed<T>(arena: seq<Node<T>>, value: T)
    requires WellFormed(arena)
    ensures WellFormed(Pushed(arena, value))
    ensures Consistent(arena) ==> Consistent(Pushed(arena, value))
  {
    var a := Pushed(arena, value);
    assert forall i :: 0 <= i < |arena| ==> a[i] == arena[i];
  }

  lemma {:induction false} RegisteredWellFormed<T>(arena: seq<Node<T>>, child: nat, parent: nat)
    requires WellFormed(arena) && child < |arena| && parent < |arena|
    ensures WellFormed(Registered(arena, child, parent))
  {
    var a := Registered(arena, child, parent);
    forall i, k, m | 0 <= i < |a| && 0 <= k < m < |a[i].children|
      ensures a[i].children[k] != a[i].children[m]
    {
      if i == parent && a[i].children != arena[i].children {
        assert child !in arena[parent].children;
      }
    }
  }

  /** Registering a child that has no parent yet, or registering it again
      under the parent it already has, keeps the links consistent. */
  lemma {:induction false} RegisteredConsistent<T>(arena: seq<Node<T>>, child: nat, parent: nat)
    requires WellFormed(arena) && Consistent(arena)
    requires child < |arena| && parent < |arena|
    requires arena[child].parent == None || arena[child].parent == Some(parent)
    ensures WellFormed(Registered(arena, child, parent)) && Consistent(Registered(arena, child, parent))
  {
    var a := Registered(arena, child, parent);
    RegisteredWellFormed(arena, child, parent);
    forall p, k | 0 <= p < |a| && 0 <= k < |a[p].children|
      ensures a[a[p].children[k]].parent == Some(p)
    {
      var c := a[p].children[k];
      if p == parent && k == |arena[p].children| {
        assert c == child;
      } else {
        assert c == arena[p].children[k];
        if c == child {
          assert arena[child].parent == Some(p);
        }
      }
    }
  }

  /** `add_child_node` keeps the links consistent. */
  lemma {:induction false} AddedChildConsistent<T>(arena: seq<Node<T>>, parent: nat, value: T)
    requires WellFormed(arena) && Consistent(arena) && parent < |arena|
    ensures WellFormed(AddedChild(arena, parent, value)) && Consistent(AddedChild(arena, parent, value))
    ensures AddedChild(arena, parent, value)[|arena|].parent == Some(parent)
    ensures var cs := AddedChild(arena, parent, value)[parent].children; |cs| > 0 && cs[|cs| - 1] == |arena|
  {
    PushedWellFormed(arena, value);
    var b := Pushed(arena, value);
    assert |arena| !in b[parent].children;
    RegisteredConsistent(b, |arena|, parent);
  }

  /** `add_child_node` touches two nodes: the new last node, whose parent
      is `parent`, and `parent`, whose list gains the new index at its end. */
  lemma AddedChildShape<T>(arena: seq<Node<T>>, parent: nat, value: T)
    requires WellFormed(arena) && parent < |arena|
    ensures var a := AddedChild(arena, parent, value);
      (forall i :: 0 <= i < |arena| && i != parent ==> a[i] == arena[i])
      && a[parent] == arena[parent].(children := arena[parent].children + [|arena|])
      && a[|arena|] == Node(|arena|, value, Some(parent), [])
  {
    var b := Pushed(arena, value);
    assert |arena| !in b[parent].children;
  }

  /** Repeating `register_parent_node` with the same indices changes nothing,
      so it never lists a child twice. */
  lemma {:induction false} RegisteredIdempotent<T>(arena: seq<Node<T>>, child: nat, parent: nat)
    requires child < |arena| && parent < |arena|
    ensures Registered(Registered(arena, child, parent), child, parent) == Registered(arena, child, parent)
  {
    var a := Registered(arena, child, parent);
    assert a[child := a[child].(parent := Some(parent))] == a;
  }

  /** Re-parenting leaves the child in its old parent's list: with nodes
      0, 1, 2, registering 2 under 0 and then under 1 breaks consistency. */
  lemma ReparentingBreaksConsistency()
    ensures var a0 := Pushed(Pushed(Pushed([], 10), 20), 21);
            var a := Registered(Registered(a0, 2, 0), 2, 1);
            WellFormed(a) && !Consistent(a) && 2 in a[0].children && a[2].parent == Some(1)
  {
    var a0 := Pushed(Pushed(Pushed([], 10), 20), 21);
    var a1 := Registered(a0, 2, 0);
    var a := Registered(a1, 2, 1);
    assert a0[2].parent == None && a0[0].children == [] && a0[1].children == [];
    assert a1[0].children == [2];
    assert a[0].children == [2];
    RegisteredWellFormed(a0, 2, 0);
    RegisteredWellFormed(a1, 2, 1);
    assert a[a[0].children[0]].parent != Some(0);
  }

  class ArenaTree<T> {
    var arena: seq<Node<T>>

    ghost predicate Valid()
      reads this
    {
      WellFormed(arena)
    }

    /** `ArenaTree::new`: a tree with no nodes. */
    constructor ()
      ensures Valid() && arena == []
    {
      arena := [];
    }

    function Len(): (n: nat)
      reads this
      ensures n == |arena|
    {
      |arena|
    }

    /** `get_node`: the node at `idx`, which knows its own index. */
    function GetNode(idx: nat): (r: Result<Node<T>, NodeDoesNotExist>)
      reads this
      ensures r.Err? <==> idx >= |arena|
      ensures r.Ok? ==> r.value == arena[idx]
      ensures r.Ok? && Valid() ==> r.value.idx == idx
    {
      if idx >= |arena| then Err(NodeDoesNotExist) else Ok(arena[idx])
    }

    method AddNode(value: T) returns (idx: nat)
      requires Valid()
      modifies this
      ensures Valid()
      ensures idx == old(|arena|) && arena == Pushed(old(arena), value)
    {
      idx := |arena|;
      PushedWellFormed(arena, value);
      arena := arena + [Node(idx, value, None, [])];
    }

    method RegisterParentNode(child: nat, parent: nat) returns (r: Outcome<NodeDoesNotExist>)
      requires Valid()
      modifies this
      ensures Valid()
      ensures r.Fail? <==> child >= old(|arena|) || parent >= old(|arena|)
      ensures r.Fail? ==> arena == old(arena)
      ensures r.Pass? ==> arena == Registered(old(arena), child, parent)
    {
      if child >= |arena| || parent >= |arena| {
        return Fail(NodeDoesNotExist);
      }
      RegisteredWellFormed(arena, child, parent);
      arena := arena[child := arena[child].(parent := Some(parent))];
      if child !in arena[parent].children {
        arena := arena[parent := arena[parent].(children := arena[parent].children + [child])];
      }
      r := Pass;
    }

    method AddChildNode(parent: nat, value: T) returns (r: Result<nat, NodeDoesNotExist>)
      requires Valid()
      modifies this
      ensures Valid()
      ensures r.Err? <==> parent >= old(|arena|)
      ensures r.Err? ==> arena == old(arena)
      ensures r.Ok? ==> r.value == old(|arena|) && arena == AddedChild(old(arena), parent, value)
    {
      if parent >= |arena| {
        return Err(NodeDoesNotExist);
      }
      var child := AddNode(value);
      var registered := RegisterParentNode(child, parent);
      assert registered.Pass?;
      r := Ok(child);
    }
  }

  /** The tree built by the library's own depth-three example. */
  method DepthThreeExample()
  {
    var tree := new ArenaTree<int>();
    var idx0 := tree.AddNode(10);
    var idx1 := tree.AddNode(20);
    var idx2 := tree.AddNode(21);
    var r1 := tree.RegisterParentNode(idx1, idx0);
    var r2 := tree.RegisterParentNode(idx2, idx0);
    var idx3 := tree.AddChildNode(idx1, 30);
    assert r1.Pass? && r2.Pass? && idx3 == Ok(3);
    assert (idx0, idx1, idx2) == (0, 1, 2);
    assert tree.GetNode(0).value.value == 10;
    assert tree.GetNode(1).value.parent == Some(0);
    assert tree.GetNode(3).value.parent == Some(1);
    assert tree.GetNode(1).value.children == [3];
  }
}
