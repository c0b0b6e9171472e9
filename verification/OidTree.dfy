/** The SNMP object tree: incremental registration into sorted child lists, and the stack-based
    successor search behind GETNEXT (section 4.1.3 of RFC 1157). An OID is its list of components;
    OidText relates it to the dotted string the code works on. */
module OidTree {
  import opened Bytes

  type Oid = seq<nat>

  /** A node; the tree's virtual root has the empty OID and the top-level list as its children. */
  datatype Node = Node(oid: Oid, kids: seq<Node>)

  function Last(o: Oid): nat {
    if o == [] then 0 else o[|o| - 1]
  }

  // ----- lexicographic order ------------------------------------------------------------------------------

  predicate Less(a: Oid, b: Oid) {
    b != [] && (a == [] || a[0] < b[0] || (a[0] == b[0] && Less(a[1..], b[1..])))
  }

  lemma {:induction false} LessAsymmetric(a: Oid, b: Oid)
    requires Less(a, b)
    ensures !Less(b, a) && a != b
  {
    if a != [] && a[0] == b[0] {
      LessAsymmetric(a[1..], b[1..]);
    }
  }

  /** Two OIDs that part at position |p| are ordered by the components there. */
  lemma {:induction false} LessAt(p: Oid, a: Oid, b: Oid)
    requires p < a && p < b && a[|p|] < b[|p|]
    ensures Less(a, b)
    decreases |p|
  {
    if p != [] {
      LessAt(p[1..], a[1..], b[1..]);
    }
  }

  lemma {:induction false} LessPrefix(p: Oid, a: Oid)
    requires p < a
    ensures Less(p, a)
  {
    if p != [] {
      LessPrefix(p[1..], a[1..]);
    }
  }

  // ----- well-formed trees ----------------------------------------------------------------------------------

  /** A child extends its parent's OID by one component; siblings differ. */
  ghost predicate Shaped(n: Node) {
    && (forall i | 0 <= i < |n.kids| :: n.oid < n.kids[i].oid && |n.kids[i].oid| == |n.oid| + 1)
    && (forall i, j | 0 <= i < j < |n.kids| :: n.kids[i].oid != n.kids[j].oid)
    && (forall i | 0 <= i < |n.kids| :: Shaped(n.kids[i]))
  }

  /** Siblings ascend strictly, everywhere. */
  ghost predicate Ascends(n: Node) {
    && (forall i, j | 0 <= i < j < |n.kids| :: Last(n.kids[i].oid) < Last(n.kids[j].oid))
    && (forall i | 0 <= i < |n.kids| :: Ascends(n.kids[i]))
  }

  ghost predicate Wf(n: Node) {
    Shaped(n) && Ascends(n)
  }

  lemma ShapedKid(n: Node, i: nat)
    requires Shaped(n) && i < |n.kids|
    ensures Shaped(n.kids[i]) && n.oid < n.kids[i].oid && |n.kids[i].oid| == |n.oid| + 1
  {
  }

  /** All childless nodes from left to right. */
  function Leaves(n: Node): (r: seq<Oid>)
    ensures r != []
    decreases n, 1
  {
    if n.kids == [] then [n.oid] else LeavesOf(n.kids)
  }

  function LeavesOf(ks: seq<Node>): (r: seq<Oid>)
    ensures ks != [] ==> r != []
    decreases ks, 0
  {
    if ks == [] then [] else Leaves(ks[0]) + LeavesOf(ks[1..])
  }

  function FirstLeaf(n: Node): Oid {
    if n.kids == [] then n.oid else FirstLeaf(n.kids[0])
  }

  lemma FirstLeafIsFirst(n: Node)
    ensures FirstLeaf(n) == Leaves(n)[0]
  {
  }

  lemma {:induction false} LeavesOfConcat(a: seq<Node>, b: seq<Node>)
    ensures LeavesOf(a + b) == LeavesOf(a) + LeavesOf(b)
  {
    if a == [] {
      assert a + b == b;
    } else {
      assert (a + b)[1..] == a[1..] + b;
      LeavesOfConcat(a[1..], b);
    }
  }

  /** Every leaf under a node extends its OID. */
  lemma {:induction false} LeavesExtend(n: Node, l: Oid)
    requires Shaped(n) && l in Leaves(n)
    ensures n.oid <= l
    decreases n, 1
  {
    if n.kids != [] {
      var i := LeafOfKid(n.kids, l);
      LeavesExtend(n.kids[i], l);
    }
  }

  lemma {:induction false} LeafOfKid(ks: seq<Node>, l: Oid) returns (i: nat)
    requires l in LeavesOf(ks)
    ensures i < |ks| && l in Leaves(ks[i])
    decreases |ks|
  {
    if l in Leaves(ks[0]) {
      i := 0;
    } else {
      var j := LeafOfKid(ks[1..], l);
      i := j + 1;
    }
  }

  /** What is under one sibling precedes what is under a greater one. */
  lemma SiblingsOrdered(n: Node, i: nat, j: nat, a: Oid, b: Oid)
    requires Shaped(n) && i < |n.kids| && j < |n.kids| && Last(n.kids[i].oid) < Last(n.kids[j].oid)
    requires n.kids[i].oid <= a && n.kids[j].oid <= b
    ensures Less(a, b)
  {
    assert a[|n.oid|] == n.kids[i].oid[|n.oid|] && b[|n.oid|] == n.kids[j].oid[|n.oid|];
    assert n.oid < a && n.oid < b;
    LessAt(n.oid, a, b);
  }

  ghost predicate Ascending(s: seq<Oid>) {
    forall i, j | 0 <= i < j < |s| :: Less(s[i], s[j])
  }

  /** The leaves of a well-formed tree ascend strictly. */
  lemma {:induction false} LeavesAscend(n: Node)
    requires Wf(n)
    ensures Ascending(Leaves(n))
    decreases n, 1
  {
    if n.kids != [] {
      KidsAscend(n, 0);
      assert n.kids[0..] == n.kids;
    }
  }

  lemma {:induction false} KidsAscend(n: Node, k: nat)
    requires Wf(n) && k <= |n.kids|
    ensures Ascending(LeavesOf(n.kids[k..]))
    decreases n, 0, |n.kids| - k
  {
    if k < |n.kids| {
      LeavesAscend(n.kids[k]);
      KidsAscend(n, k + 1);
      assert n.kids[k..][1..] == n.kids[k + 1..];
      var a, b := Leaves(n.kids[k]), LeavesOf(n.kids[k + 1..]);
      forall x, y | x in a && y in b
        ensures Less(x, y)
      {
        var j := LeafOfKid(n.kids[k + 1..], y);
        LeavesExtend(n.kids[k], x);
        LeavesExtend(n.kids[k + 1 + j], y);
        SiblingsOrdered(n, k, k + 1 + j, x, y);
      }
      assert LeavesOf(n.kids[k..]) == a + b;
    }
  }

  // ----- paths ------------------------------------------------------------------------------------------------

  /** A path is the child numbers from the root down. */
  predicate IsPath(n: Node, p: seq<nat>)
    decreases |p|
  {
    p == [] || (p[0] < |n.kids| && IsPath(n.kids[p[0]], p[1..]))
  }

  function At(n: Node, p: seq<nat>): Node
    requires IsPath(n, p)
    decreases |p|
  {
    if p == [] then n else At(n.kids[p[0]], p[1..])
  }

  lemma {:induction false} PathSnoc(n: Node, p: seq<nat>, i: nat)
    requires IsPath(n, p) && i < |At(n, p).kids|
    ensures IsPath(n, p + [i]) && At(n, p + [i]) == At(n, p).kids[i]
    decreases |p|
  {
    if p == [] {
      assert [i][1..] == [];
    } else {
      assert (p + [i])[1..] == p[1..] + [i];
      PathSnoc(n.kids[p[0]], p[1..], i);
    }
  }

  lemma {:induction false} PathInit(n: Node, p: seq<nat>)
    requires IsPath(n, p) && p != []
    ensures IsPath(n, p[..|p| - 1])
    ensures p[|p| - 1] < |At(n, p[..|p| - 1]).kids|
    ensures At(n, p) == At(n, p[..|p| - 1]).kids[p[|p| - 1]]
    decreases |p|
  {
    if |p| > 1 {
      PathInit(n.kids[p[0]], p[1..]);
      assert p[1..][..|p| - 2] == p[..|p| - 1][1..];
    } else {
      assert p[1..] == [];
    }
  }

  lemma {:induction false} ShapedAt(n: Node, p: seq<nat>)
    requires Shaped(n) && IsPath(n, p)
    ensures Shaped(At(n, p)) && |At(n, p).oid| == |n.oid| + |p| && n.oid <= At(n, p).oid
    decreases |p|
  {
    if p != [] {
      ShapedAt(n.kids[p[0]], p[1..]);
    }
  }

  lemma {:induction false} WfAt(n: Node, p: seq<nat>)
    requires Wf(n) && IsPath(n, p)
    ensures Wf(At(n, p)) && |At(n, p).oid| == |n.oid| + |p| && n.oid <= At(n, p).oid
    decreases |p|
  {
    if p != [] {
      WfAt(n.kids[p[0]], p[1..]);
    }
  }

  /** The leaves before and after the subtree at a path. */
  function Before(n: Node, p: seq<nat>): seq<Oid>
    requires IsPath(n, p)
    decreases |p|
  {
    if p == [] then []
    else
      PathInit(n, p);
      var q, i := p[..|p| - 1], p[|p| - 1];
      Before(n, q) + LeavesOf(At(n, q).kids[..i])
  }

  function Behind(n: Node, p: seq<nat>): seq<Oid>
    requires IsPath(n, p)
    decreases |p|
  {
    if p == [] then []
    else
      PathInit(n, p);
      var q, i := p[..|p| - 1], p[|p| - 1];
      LeavesOf(At(n, q).kids[i + 1..]) + Behind(n, q)
  }

  lemma {:induction false} LeavesAround(n: Node, p: seq<nat>)
    requires IsPath(n, p)
    ensures Leaves(n) == Before(n, p) + Leaves(At(n, p)) + Behind(n, p)
    decreases |p|
  {
    hide Leaves, LeavesOf, IsPath, At;
    if p != [] {
      PathInit(n, p);
      var q, i := p[..|p| - 1], p[|p| - 1];
      var ks := At(n, q).kids;
      LeavesAround(n, q);
      SplitLeaves(ks, i);
      InnerLeaves(At(n, q));
    } else {
      Here(n);
    }
  }

  lemma Here(n: Node)
    ensures IsPath(n, []) && At(n, []) == n
  {
  }

  lemma InnerLeaves(n: Node)
    ensures n.kids != [] ==> Leaves(n) == LeavesOf(n.kids)
  {
  }

  lemma SplitLeaves(ks: seq<Node>, i: nat)
    requires i < |ks|
    ensures LeavesOf(ks) == LeavesOf(ks[..i]) + Leaves(ks[i]) + LeavesOf(ks[i + 1..])
  {
    assert ks == ks[..i] + ks[i..];
    LeavesOfConcat(ks[..i], ks[i..]);
    assert ks[i..][1..] == ks[i + 1..];
  }

  /** Leaves before a subtree precede every OID that extends the subtree's. */
  lemma {:induction false} BeforeIsLess(n: Node, p: seq<nat>, l: Oid, x: Oid)
    requires Wf(n) && IsPath(n, p) && l in Before(n, p) && At(n, p).oid <= x
    ensures Less(l, x)
    decreases |p|
  {
    hide Shaped, IsPath, At, Leaves, LeavesOf, Less;
    if p != [] {
      PathInit(n, p);
      var q, i := p[..|p| - 1], p[|p| - 1];
      var m := At(n, q);
      WfAt(n, q);
      ShapedKid(m, i);
      if l in Before(n, q) {
        BeforeIsLess(n, q, l, x);
      } else {
        var j := LeafOfKid(m.kids[..i], l);
        ShapedKid(m, j);
        LeavesExtend(m.kids[j], l);
        SiblingsOrdered(m, j, i, l, x);
      }
    }
  }

  /** Leaves behind a subtree follow every OID that extends the subtree's. */
  lemma {:induction false} BehindIsGreater(n: Node, p: seq<nat>, l: Oid, x: Oid)
    requires Wf(n) && IsPath(n, p) && l in Behind(n, p) && At(n, p).oid <= x
    ensures Less(x, l)
    decreases |p|
  {
    hide Shaped, IsPath, At, Leaves, LeavesOf, Less;
    if p != [] {
      PathInit(n, p);
      var q, i := p[..|p| - 1], p[|p| - 1];
      var m := At(n, q);
      WfAt(n, q);
      ShapedKid(m, i);
      if l in Behind(n, q) {
        BehindIsGreater(n, q, l, x);
      } else {
        var j := LeafOfKid(m.kids[i + 1..], l);
        ShapedKid(m, i + 1 + j);
        LeavesExtend(m.kids[i + 1 + j], l);
        SiblingsOrdered(m, i, i + 1 + j, x, l);
      }
    }
  }

  // ----- the search ---------------------------------------------------------------------------------------------

  /** find_oid_in_vector, with the length of the list for "not found". */
  function Find(ks: seq<Node>, oid: Oid): (i: nat)
    ensures i <= |ks|
    ensures i < |ks| ==> ks[i].oid == oid
    ensures forall j | 0 <= j < i :: ks[j].oid != oid
  {
    if ks == [] || ks[0].oid == oid then 0 else 1 + Find(ks[1..], oid)
  }

  /** The descent along `oid` as far as the tree goes with it. */
  function Descend(n: Node, oid: Oid): (p: seq<nat>)
    ensures IsPath(n, p)
    decreases n
  {
    if |oid| <= |n.oid| then []
    else
      var i := Find(n.kids, oid[..|n.oid| + 1]);
      if i == |n.kids| then [] else [i] + Descend(n.kids[i], oid)
  }

  /** The climb: the first leaf of the next sibling, of the nearest ancestor that has one. It ends
      below the top-level list, whose entries it never advances over. */
  function After(n: Node, p: seq<nat>): Option<Oid>
    requires IsPath(n, p)
    decreases |p|
  {
    if |p| <= 1 then None
    else
      PathInit(n, p);
      var q, i := p[..|p| - 1], p[|p| - 1];
      if i + 1 < |At(n, q).kids| then Some(FirstLeaf(At(n, q).kids[i + 1])) else After(n, q)
  }

  lemma {:induction false} AfterIsBehind(n: Node, p: seq<nat>)
    requires IsPath(n, p) && |n.kids| == 1
    ensures After(n, p) == if Behind(n, p) == [] then None else Some(Behind(n, p)[0])
    decreases |p|
  {
    if p != [] {
      PathInit(n, p);
      var q, i := p[..|p| - 1], p[|p| - 1];
      var ks := At(n, q).kids;
      AfterIsBehind(n, q);
      if q == [] {
        assert ks[i + 1..] == [];
      } else if i + 1 < |ks| {
        FirstLeafIsFirst(ks[i + 1]);
        assert LeavesOf(ks[i + 1..])[0] == Leaves(ks[i + 1])[0];
      }
    }
  }

  /** find_next_oid. */
  function Next(root: Node, oid: Oid): Option<Oid> {
    var p := Descend(root, oid);
    var m := At(root, p);
    if FirstLeaf(m) != oid then Some(FirstLeaf(m)) else After(root, p)
  }

  /** `r` is the least leaf greater than `oid`, or there is none. */
  ghost predicate IsSuccessor(root: Node, oid: Oid, r: Option<Oid>) {
    match r
    case None => forall l <- Leaves(root) :: !Less(oid, l)
    case Some(x) => x in Leaves(root) && Less(oid, x) && forall l <- Leaves(root) :: Less(oid, l) ==> !Less(l, x)
  }

  predicate Present(root: Node, oid: Oid) {
    At(root, Descend(root, oid)).oid == oid
  }

  /** A non-empty tree under one top arc. */
  ghost predicate Tree(root: Node) {
    root.oid == [] && |root.kids| == 1 && Wf(root)
  }

  lemma AtCons(n: Node, i: nat, p: seq<nat>)
    requires i < |n.kids| && IsPath(n.kids[i], p)
    ensures IsPath(n, [i] + p) && At(n, [i] + p) == At(n.kids[i], p)
  {
    assert ([i] + p)[1..] == p;
  }

  lemma {:induction false} DescendStops(n: Node, oid: Oid)
    requires Shaped(n) && n.oid <= oid
    ensures var m := At(n, Descend(n, oid));
            m.oid <= oid && (m.oid < oid ==> Find(m.kids, oid[..|m.oid| + 1]) == |m.kids|)
    decreases n
  {
    hide Shaped, IsPath, At, Find;
    Here(n);
    if |oid| > |n.oid| {
      var i := Find(n.kids, oid[..|n.oid| + 1]);
      if i < |n.kids| {
        ShapedKid(n, i);
        DescendStops(n.kids[i], oid);
        AtCons(n, i, Descend(n.kids[i], oid));
      }
    }
  }

  /** Leaves under a node, then those behind it: the first of them follows no other. */
  lemma LeastOfRest(root: Node, p: seq<nat>, l: Oid, k: nat)
    requires Wf(root) && IsPath(root, p)
    requires var m := At(root, p); k <= |Leaves(m)|
    requires var rest := Leaves(At(root, p))[k..] + Behind(root, p); rest != [] && l in rest
    ensures !Less(l, (Leaves(At(root, p))[k..] + Behind(root, p))[0])
  {
    var m := At(root, p);
    var rest := Leaves(m)[k..] + Behind(root, p);
    LeavesAround(root, p);
    LeavesAscend(root);
    var c := |Before(root, p)| + k;
    assert Leaves(root)[c..] == rest;
    SuffixLeast(Leaves(root), c, l);
  }

  lemma SuffixLeast(s: seq<Oid>, c: nat, l: Oid)
    requires Ascending(s) && c < |s| && l in s[c..]
    ensures !Less(l, s[c])
  {
    hide Less;
    var i :| 0 <= i < |s[c..]| && s[c..][i] == l;
    if i > 0 {
      LessAsymmetric(s[c], l);
    } else {
      NotLessSelf(l);
    }
  }

  lemma NotLessSelf(a: Oid)
    ensures !Less(a, a)
  {
  }

  lemma LeafParts(root: Node, p: seq<nat>, l: Oid)
    requires IsPath(root, p)
    ensures l in Leaves(root) <==> l in Before(root, p) || l in Leaves(At(root, p)) || l in Behind(root, p)
  {
    LeavesAround(root, p);
  }

  /** find_next_oid of any OID present in the tree is its successor among the leaves. */
  lemma NextIsSuccessor(root: Node, oid: Oid)
    requires Tree(root) && Present(root, oid)
    ensures IsSuccessor(root, oid, Next(root, oid))
  {
    var p := Descend(root, oid);
    var m := At(root, p);
    WfAt(root, p);
    FirstLeafIsFirst(m);
    AfterIsBehind(root, p);
    var k := if m.kids == [] then 1 else 0;
    var rest := Leaves(m)[k..] + Behind(root, p);
    if m.kids != [] {
      var first := Leaves(m)[0];
      LeafBelow(m, first);
    }
    assert Next(root, oid) == if rest == [] then None else Some(rest[0]);
    if rest != [] {
      assert rest[0] in rest;
      LeafParts(root, p, rest[0]);
      GreaterPart(root, p, rest[0]);
    }
    forall l | l in Leaves(root) && Less(oid, l)
      ensures rest != [] && !Less(l, rest[0])
    {
      LeafParts(root, p, l);
      if l in Before(root, p) {
        BeforeIsLess(root, p, l, oid);
        LessAsymmetric(l, oid);
      } else if m.kids == [] && l in Leaves(m) {
        NotLessSelf(oid);
      }
      assert l in rest;
      LeastOfRest(root, p, l, k);
    }
  }

  /** A leaf below an inner node properly extends it. */
  lemma LeafBelow(m: Node, l: Oid)
    requires Shaped(m) && m.kids != [] && l in Leaves(m)
    ensures m.oid < l && Less(m.oid, l)
  {
    var i := LeafOfKid(m.kids, l);
    LeavesExtend(m.kids[i], l);
    LessPrefix(m.oid, l);
  }

  lemma GreaterPart(root: Node, p: seq<nat>, x: Oid)
    requires Wf(root) && IsPath(root, p)
    requires var m := At(root, p); x in Behind(root, p) || (m.kids != [] && x in Leaves(m))
    ensures Less(At(root, p).oid, x)
  {
    WfAt(root, p);
    if x in Behind(root, p) {
      BehindIsGreater(root, p, x, At(root, p).oid);
    } else {
      LeafBelow(At(root, p), x);
    }
  }

  /** For an absent OID the search answers with the first leaf under the deepest node on the way.
      That is the successor exactly when the node has children and the OID turns off before the first. */
  lemma AbsentExact(root: Node, oid: Oid)
    requires Tree(root) && !Present(root, oid)
    ensures var m := At(root, Descend(root, oid));
            m.oid < oid && (IsSuccessor(root, oid, Next(root, oid)) <==>
              m.kids != [] && oid[|m.oid|] < Last(m.kids[0].oid))
  {
    hide IsPath, At, Descend, Leaves, LeavesOf, Less, After, Find;
    var p := Descend(root, oid);
    var m := At(root, p);
    DescendStops(root, oid);
    WfAt(root, p);
    FirstLeafIsFirst(m);
    var x := FirstLeaf(m);
    assert x in Leaves(m);
    LeafParts(root, p, x);
    LeavesExtend(m, x);
    if m.kids == [] {
      LessPrefix(m.oid, oid);
      LessAsymmetric(m.oid, oid);
    } else {
      var c := m.kids[0];
      FirstLeafIsFirst(c);
      LeavesExtend(c, x);
      assert m.oid < x && x[|m.oid|] == c.oid[|m.oid|];
      assert c.oid != oid[..|m.oid| + 1];
      assert c.oid == m.oid + [c.oid[|m.oid|]];
      if c.oid[|m.oid|] < oid[|m.oid|] {
        LessAt(m.oid, x, oid);
        LessAsymmetric(x, oid);
      } else {
        TurnsOffBefore(root, p, oid, x);
      }
    }
  }

  lemma TurnsOffBefore(root: Node, p: seq<nat>, oid: Oid, x: Oid)
    requires Wf(root) && IsPath(root, p)
    requires var m := At(root, p);
             m.kids != [] && m.oid < oid && oid[|m.oid|] < Last(m.kids[0].oid) && x == Leaves(m)[0]
    ensures Less(oid, x) && x in Leaves(root)
    ensures forall l <- Leaves(root) :: Less(oid, l) ==> !Less(l, x)
  {
    var m := At(root, p);
    WfAt(root, p);
    FirstLeafIsFirst(m.kids[0]);
    LeavesExtend(m.kids[0], x);
    LessAt(m.oid, oid, x);
    LeafParts(root, p, x);
    assert Leaves(m)[0..] == Leaves(m);
    forall l | l in Leaves(root) && Less(oid, l)
      ensures !Less(l, x)
    {
      LeafParts(root, p, l);
      if l in Before(root, p) {
        BeforeIsLess(root, p, l, oid);
        LessAsymmetric(l, oid);
      } else {
        LeastOfRest(root, p, l, 0);
      }
    }
  }

  // ----- what is in the tree ----------------------------------------------------------------------------------------

  lemma PresentStep(n: Node, o: Oid)
    requires n.oid < o
    ensures var j := Find(n.kids, o[..|n.oid| + 1]); Present(n, o) <==> j < |n.kids| && Present(n.kids[j], o)
  {
    var j := Find(n.kids, o[..|n.oid| + 1]);
    if j < |n.kids| {
      AtCons(n, j, Descend(n.kids[j], o));
    }
  }

  lemma FindIs(ks: seq<Node>, x: Oid, j: nat)
    requires j < |ks| && ks[j].oid == x && forall i | 0 <= i < j :: ks[i].oid != x
    ensures Find(ks, x) == j
  {
  }

  lemma FindIn(n: Node, j: nat)
    requires Shaped(n) && j < |n.kids|
    ensures Find(n.kids, n.kids[j].oid) == j
  {
    FindIs(n.kids, n.kids[j].oid, j);
  }

  // ----- leaves and the registered OIDs --------------------------------------------------------------------------

  lemma {:induction false} LeafFound(n: Node, l: Oid)
    requires Shaped(n) && l in Leaves(n)
    ensures Present(n, l) && At(n, Descend(n, l)).kids == []
    decreases n
  {
    LeavesExtend(n, l);
    if n.kids != [] {
      var i := LeafOfKid(n.kids, l);
      LeavesExtend(n.kids[i], l);
      LeafFound(n.kids[i], l);
      FindIn(n, i);
      assert n.kids[i].oid == l[..|n.oid| + 1];
      AtCons(n, i, Descend(n.kids[i], l));
    }
  }

  lemma FoundLeaf(n: Node, l: Oid)
    requires Present(n, l) && At(n, Descend(n, l)).kids == []
    ensures l in Leaves(n)
  {
    LeavesAround(n, Descend(n, l));
    assert l in Leaves(At(n, Descend(n, l)));
  }

  /** Below a present node with children there is a present longer OID. */
  lemma {:induction false} KidPresent(n: Node, o: Oid) returns (x: Oid)
    requires Shaped(n) && n.oid <= o && Present(n, o) && At(n, Descend(n, o)).kids != []
    ensures o < x && Present(n, x)
    decreases n
  {
    if |o| == |n.oid| {
      x := n.kids[0].oid;
      FindIn(n, 0);
      PresentStep(n, x);
      assert x[..|n.oid| + 1] == x;
    } else {
      PresentStep(n, o);
      var j := Find(n.kids, o[..|n.oid| + 1]);
      AtCons(n, j, Descend(n.kids[j], o));
      x := KidPresent(n.kids[j], o);
      PresentStep(n, x);
      assert x[..|n.oid| + 1] == o[..|n.oid| + 1];
    }
  }

  /** A present OID with a present proper extension has children. */
  lemma {:induction false} ExtensionMeansKids(n: Node, o: Oid, x: Oid)
    requires Shaped(n) && n.oid <= o && o < x && Present(n, o) && Present(n, x)
    ensures At(n, Descend(n, o)).kids != []
    decreases n
  {
    PresentStep(n, x);
    if |o| > |n.oid| {
      PresentStep(n, o);
      var j := Find(n.kids, o[..|n.oid| + 1]);
      assert x[..|n.oid| + 1] == o[..|n.oid| + 1];
      AtCons(n, j, Descend(n.kids[j], o));
      ExtensionMeansKids(n.kids[j], o, x);
    }
  }

  lemma KidsMakeRootInner(root: Node, l: Oid)
    requires Shaped(root) && root.oid == [] && root.kids != [] && l in Leaves(root)
    ensures l != []
  {
    var i := LeafOfKid(root.kids, l);
    LeavesExtend(root.kids[i], l);
  }

  // ----- walking the tree ------------------------------------------------------------------------------------------

  /** The k-th answer of a walk that starts at the root and asks for the next OID again and again. */
  function Answer(root: Node, k: nat): Option<Oid> {
    if k == 0 then Next(root, [])
    else match Answer(root, k - 1) case None => None case Some(o) => Next(root, o)
  }

  lemma SuccessorOfLeaf(root: Node, i: nat)
    requires Tree(root) && i < |Leaves(root)|
    ensures Next(root, Leaves(root)[i]) == if i + 1 < |Leaves(root)| then Some(Leaves(root)[i + 1]) else None
  {
    var all := Leaves(root);
    LeafFound(root, all[i]);
    NextIsSuccessor(root, all[i]);
    LeavesAscend(root);
    SuccessorUnique(all, i, Next(root, all[i]));
  }

  lemma SuccessorUnique(all: seq<Oid>, i: nat, r: Option<Oid>)
    requires Ascending(all) && i < |all|
    requires match r
             case None => forall l <- all :: !Less(all[i], l)
             case Some(x) => x in all && Less(all[i], x) && forall l <- all :: Less(all[i], l) ==> !Less(l, x)
    ensures r == if i + 1 < |all| then Some(all[i + 1]) else None
  {
    hide Less;
    if i + 1 < |all| {
      assert all[i + 1] in all && Less(all[i], all[i + 1]);
    }
    forall j | 0 <= j < |all| && Less(all[i], all[j])
      ensures i < j
    {
      NotLessSelf(all[i]);
      if j < i {
        LessAsymmetric(all[j], all[i]);
      }
    }
  }

  /** A walk from the root lists every leaf once, in ascending order, and then stops. */
  lemma {:induction false} WalkListsLeaves(root: Node, k: nat)
    requires Tree(root)
    ensures Answer(root, k) == if k < |Leaves(root)| then Some(Leaves(root)[k]) else None
  {
    if k == 0 {
      FirstLeafIsFirst(root);
      KidsMakeRootInner(root, Leaves(root)[0]);
    } else {
      WalkListsLeaves(root, k - 1);
      if k - 1 < |Leaves(root)| {
        SuccessorOfLeaf(root, k - 1);
      }
    }
  }
}
