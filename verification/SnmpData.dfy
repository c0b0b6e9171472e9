/** The SNMP data object: its registration and search loops, proved against OidBuild and OidTree. */
module SnmpData {
  import opened Bytes
  import opened OidTree
  import opened OidBuild

  /** find_oid_in_vector; -1 when absent. */
  method FindOidInVector(ks: seq<Node>, oid: Oid) returns (idx: int)
    ensures idx == if Find(ks, oid) == |ks| then -1 else Find(ks, oid)
  {
    for i := 0 to |ks|
      invariant Find(ks, oid) >= i
    {
      if ks[i].oid == oid {
        return i;
      }
    }
    idx := -1;
  }

  /** The insertion loop: before the first greater index, else at the end. */
  method Insert(ks: seq<Node>, c: Node) returns (r: seq<Node>, k: nat)
    ensures k == Slot(ks, Index(c.oid)) && r == Inserted(ks, k, c)
  {
    for i := 0 to |ks|
      invariant Slot(ks, Index(c.oid)) >= i
    {
      if Index(c.oid) < Index(ks[i].oid) {
        return Inserted(ks, i, c), i;
      }
    }
    r, k := ks + [c], |ks|;
  }

  /** The entries the descent pushes: the parent (none above the top-level list) and the child number. */
  ghost function Stack(root: Node, p: seq<nat>): seq<(Option<Node>, nat)>
    requires IsPath(root, p)
    decreases |p|
  {
    if p == [] then []
    else
      PathInit(root, p);
      var q := p[..|p| - 1];
      Stack(root, q) + [(if q == [] then None else Some(At(root, q)), p[|p| - 1])]
  }

  lemma StackPush(root: Node, p: seq<nat>, i: nat)
    requires IsPath(root, p) && i < |At(root, p).kids|
    ensures IsPath(root, p + [i]) && At(root, p + [i]) == At(root, p).kids[i]
    ensures Stack(root, p + [i]) == Stack(root, p) + [(if p == [] then None else Some(At(root, p)), i)]
  {
    PathSnoc(root, p, i);
    assert (p + [i])[..|p|] == p;
  }

  lemma NoStep(n: Node)
    ensures IsPath(n, []) && At(n, []) == n && Stack(n, []) == []
  {
  }

  lemma DescendNext(n: Node, oid: Oid)
    ensures |oid| <= |n.oid| ==> Descend(n, oid) == []
    ensures |oid| > |n.oid| ==>
              var i := Find(n.kids, oid[..|n.oid| + 1]);
              Descend(n, oid) == if i == |n.kids| then [] else [i] + Descend(n.kids[i], oid)
  {
  }

  /** When the first leaf under the deepest matching node is the OID itself, that node is the leaf. */
  lemma LeafReached(root: Node, oid: Oid)
    requires Shaped(root) && root.oid == []
    ensures var m := At(root, Descend(root, oid)); FirstLeaf(m) == oid ==> m.kids == []
  {
    var p := Descend(root, oid);
    var m := At(root, p);
    DescendStops(root, oid);
    ShapedAt(root, p);
    if m.kids != [] && FirstLeaf(m) == oid {
      FirstLeafIsFirst(m.kids[0]);
      LeavesExtend(m.kids[0], oid);
    }
  }

  /** Down the first children to a leaf, remembering the way. */
  method ToFirstLeaf(ghost root: Node, ghost p: seq<nat>, start: Node, branch0: seq<(Option<Node>, nat)>)
    returns (leaf: Node, branch: seq<(Option<Node>, nat)>, ghost q: seq<nat>)
    requires IsPath(root, p) && At(root, p) == start && branch0 == Stack(root, p)
    ensures leaf.kids == [] && leaf.oid == FirstLeaf(start)
    ensures IsPath(root, q) && At(root, q) == leaf && branch == Stack(root, q)
    ensures start.kids == [] ==> q == p
  {
    leaf, branch, q := start, branch0, p;
    while leaf.kids != []
      invariant FirstLeaf(leaf) == FirstLeaf(start)
      invariant IsPath(root, q) && At(root, q) == leaf && branch == Stack(root, q)
      invariant start.kids == [] ==> q == p && leaf == start
      decreases leaf
    {
      StackPush(root, q, 0);
      branch := branch + [(if |branch| == 0 then None else Some(leaf), 0)];
      q := q + [0];
      leaf := leaf.kids[0];
    }
  }

  /** Back up to the nearest next sibling, and down to its first leaf. */
  method Climb(ghost root: Node, ghost p: seq<nat>, branch0: seq<(Option<Node>, nat)>) returns (r: Option<Oid>)
    requires IsPath(root, p) && branch0 == Stack(root, p)
    ensures r == After(root, p)
  {
    var branch := branch0;
    ghost var q := p;
    while branch != []
      invariant IsPath(root, q) && branch == Stack(root, q) && After(root, q) == After(root, p)
      decreases |branch|
    {
      PathInit(root, q);
      var (element, index) := branch[|branch| - 1];
      if element == None {
        break;
      }
      branch := branch[..|branch| - 1];
      if index + 1 < |element.value.kids| {
        var n := element.value.kids[index + 1];
        ghost var first := FirstLeaf(n);
        while n.kids != []
          invariant FirstLeaf(n) == first
          decreases n
        {
          n := n.kids[0];
        }
        return Some(n.oid);
      }
      q := q[..|q| - 1];
    }
    r := None;
  }

  class Data {
    /** The virtual root: its children are the top-level list `data`. */
    var root: Node

    constructor ()
      ensures root == Build([])
    {
      root := Node([], []);
    }

    /** register_oid: down along the OID, making what is missing. The nodes being values, the changed
        lists are put back into their parents afterwards. */
    method RegisterOid(oid: Oid)
      requires root.oid == []
      modifies this
      ensures root == Register(old(root), oid)
    {
      hide Register, Slot, Index, Inserted, Find;
      var way: seq<(Node, nat)> := [];
      var cur := root;
      for i := 0 to |oid|
        invariant cur.oid == oid[..i] && WayOk(way)
        invariant Rebuilt(way, Register(cur, oid)) == Register(old(root), oid)
      {
        var part := oid[..i + 1];
        ghost var goal := Register(cur, oid);
        var idx := FindOidInVector(cur.kids, part);
        if idx == -1 {
          RegisterMissing(cur, oid);
          var kids, k := Insert(cur.kids, Node(part, []));
          cur, idx := Node(cur.oid, kids), k;
        } else {
          RegisterFound(cur, oid);
        }
        ghost var kid := Register(cur.kids[idx], oid);
        assert Node(cur.oid, cur.kids[idx := kid]) == goal;
        RebuiltSnoc(way, (cur, idx), kid);
        way := way + [(cur, idx)];
        cur := cur.kids[idx];
      }
      RegisterNothing(cur, oid);
      root := Rebuild(way, cur);
    }

    static method Rebuild(way: seq<(Node, nat)>, bottom: Node) returns (top: Node)
      requires WayOk(way)
      ensures top == Rebuilt(way, bottom)
    {
      top := bottom;
      var left := way;
      while left != []
        invariant WayOk(left) && Rebuilt(left, top) == Rebuilt(way, bottom)
        decreases |left|
      {
        var (parent, idx) := left[|left| - 1];
        var rest := left[..|left| - 1];
        assert left == rest + [(parent, idx)];
        RebuiltSnoc(rest, (parent, idx), top);
        top := Node(parent.oid, parent.kids[idx := top]);
        left := rest;
      }
    }

    /** The matching loop of find_next_oid: down the tree as far as it goes with `oid`. */
    method Match(oid: Oid) returns (branch: seq<(Option<Node>, nat)>, parent: Node)
      requires Shaped(root) && root.oid == []
      ensures var p := Descend(root, oid); parent == At(root, p) && branch == Stack(root, p)
    {
      hide Shaped, Descend, At, IsPath, Stack;
      branch, parent := [], root;
      ghost var p: seq<nat> := [];
      NoStep(root);
      assert Descend(root, oid) == [] + Descend(root, oid);
      var i := 0;
      while i < |oid|
        invariant 0 <= i <= |oid| && |p| == i
        invariant IsPath(root, p) && At(root, p) == parent && branch == Stack(root, p)
        invariant |parent.oid| == i
        invariant Descend(root, oid) == p + Descend(parent, oid)
      {
        var idx := FindOidInVector(parent.kids, oid[..i + 1]);
        DescendNext(parent, oid);
        if idx == -1 {
          assert Descend(parent, oid) == [];
          break;
        }
        StackPush(root, p, idx);
        branch := branch + [(if i == 0 then None else Some(parent), idx)];
        ShapedAt(root, p + [idx]);
        assert p + Descend(parent, oid) == p + [idx] + Descend(parent.kids[idx], oid);
        p := p + [idx];
        parent := parent.kids[idx];
        i := i + 1;
      }
      DescendNext(parent, oid);
      assert Descend(parent, oid) == [];
      assert p + [] == p;
    }

    /** find_next_oid on any non-empty tree that registration builds; on a sorted one under one top arc,
        for an OID that is present, the least greater leaf. */
    method FindNextOid(oid: Oid) returns (r: Option<Oid>)
      requires Shaped(root) && root.oid == [] && root.kids != []
      ensures r == Next(root, oid)
      ensures Tree(root) && Present(root, oid) ==> IsSuccessor(root, oid, r)
    {
      var branch, parent := Match(oid);
      ghost var q;
      LeafReached(root, oid);
      parent, branch, q := ToFirstLeaf(root, Descend(root, oid), parent, branch);
      if Tree(root) && Present(root, oid) {
        NextIsSuccessor(root, oid);
      }
      if parent.oid != oid {
        return Some(parent.oid);
      }
      // The leaf itself is pushed as well; having no children it is popped without effect.
      r := Climb(root, q, branch);
    }
  }

  /** Each entry of the way down is a node and the number of the child taken. */
  predicate WayOk(way: seq<(Node, nat)>) {
    forall i | 0 <= i < |way| :: way[i].1 < |way[i].0.kids|
  }

  /** The top of the way after its bottom has been replaced. */
  function Rebuilt(way: seq<(Node, nat)>, bottom: Node): Node
    requires WayOk(way)
    decreases |way|
  {
    if way == [] then bottom
    else
      var (parent, idx) := way[0];
      Node(parent.oid, parent.kids[idx := Rebuilt(way[1..], bottom)])
  }

  lemma {:induction false} RebuiltSnoc(way: seq<(Node, nat)>, e: (Node, nat), bottom: Node)
    requires WayOk(way) && e.1 < |e.0.kids|
    ensures WayOk(way + [e])
    ensures Rebuilt(way + [e], bottom) == Rebuilt(way, Node(e.0.oid, e.0.kids[e.1 := bottom]))
    decreases |way|
  {
    if way == [] {
      assert [e][1..] == [];
      assert [] + [e] == [e];
    } else {
      assert (way + [e])[1..] == way[1..] + [e];
      RebuiltSnoc(way[1..], e, bottom);
    }
  }
}
