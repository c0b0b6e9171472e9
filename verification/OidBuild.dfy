/** What register_oid builds: which OIDs are in the tree, in which order siblings come to stand, and
    exactly when the successor search is right on it. */
module OidBuild {
  import opened Bytes
  import opened OidTree

  // ----- registration -------------------------------------------------------------------------------------------

  /** atoi: strtol saturates, and its result is converted to an int. */
  function Atoi(c: nat): int {
    AsInt32(Min(c, M64 / 2 - 1))
  }

  /** set_tree_data: the number after the last dot; an OID without a dot keeps index 0. */
  function Index(oid: Oid): int {
    if |oid| <= 1 then 0 else Atoi(Last(oid))
  }

  /** Where the insertion loop puts index `x`: before the first greater one. */
  function Slot(ks: seq<Node>, x: int): (i: nat)
    ensures i <= |ks|
    ensures forall j | 0 <= j < i :: Index(ks[j].oid) <= x
    ensures i < |ks| ==> x < Index(ks[i].oid)
  {
    if ks == [] || x < Index(ks[0].oid) then 0 else 1 + Slot(ks[1..], x)
  }

  /** register_oid below a node on the way to `oid`. */
  function Register(n: Node, oid: Oid): Node
    requires n.oid <= oid
    decreases |oid| - |n.oid|
  {
    if |oid| == |n.oid| then n
    else
      var cur := oid[..|n.oid| + 1];
      var i := Find(n.kids, cur);
      if i < |n.kids| then Node(n.oid, n.kids[i := Register(n.kids[i], oid)])
      else
        var k := Slot(n.kids, Index(cur));
        Node(n.oid, Inserted(n.kids, k, Register(Node(cur, []), oid)))
  }

  function Inserted(ks: seq<Node>, k: nat, c: Node): (r: seq<Node>)
    requires k <= |ks|
    ensures |r| == |ks| + 1 && r[k] == c
    ensures forall i | 0 <= i < k :: r[i] == ks[i]
    ensures forall i | k < i <= |ks| :: r[i] == ks[i - 1]
  {
    ks[..k] + [c] + ks[k..]
  }

  lemma RegisterKeepsOid(n: Node, oid: Oid)
    requires n.oid <= oid
    ensures Register(n, oid).oid == n.oid
  {
  }

  lemma RegisterMissing(n: Node, oid: Oid)
    requires n.oid < oid && Find(n.kids, oid[..|n.oid| + 1]) == |n.kids|
    ensures var cur := oid[..|n.oid| + 1];
            Register(n, oid) == Node(n.oid, Inserted(n.kids, Slot(n.kids, Index(cur)), Register(Node(cur, []), oid)))
  {
    hide Find, Slot, Index;
  }

  lemma RegisterFound(n: Node, oid: Oid)
    requires n.oid < oid && Find(n.kids, oid[..|n.oid| + 1]) < |n.kids|
    ensures var i := Find(n.kids, oid[..|n.oid| + 1]);
            Register(n, oid) == Node(n.oid, n.kids[i := Register(n.kids[i], oid)])
  {
    hide Find, Slot, Index;
  }

  /** The tree after a series of registrations. */
  function Build(oids: seq<Oid>): (root: Node)
    ensures root.oid == []
  {
    if oids == [] then Node([], [])
    else Register(Build(oids[..|oids| - 1]), oids[|oids| - 1])
  }

  /** register_oid is given OIDs with at least one component. */
  predicate Proper(oids: seq<Oid>) {
    forall o <- oids :: o != []
  }

  // ----- shape ----------------------------------------------------------------------------------------------------

  lemma ShapedSingle(oid: Oid)
    ensures Shaped(Node(oid, []))
  {
  }

  lemma ShapedUpdate(n: Node, i: nat, c: Node)
    requires Shaped(n) && i < |n.kids| && Shaped(c) && c.oid == n.kids[i].oid
    ensures Shaped(Node(n.oid, n.kids[i := c]))
  {
    var m := Node(n.oid, n.kids[i := c]);
    assert forall j | 0 <= j < |m.kids| :: m.kids[j].oid == n.kids[j].oid;
    assert forall j | 0 <= j < |m.kids| :: Shaped(m.kids[j]);
  }

  lemma ShapedInsert(n: Node, k: nat, c: Node)
    requires Shaped(n) && k <= |n.kids| && Shaped(c) && n.oid < c.oid && |c.oid| == |n.oid| + 1
    requires Find(n.kids, c.oid) == |n.kids|
    ensures Shaped(Node(n.oid, Inserted(n.kids, k, c)))
  {
    hide Inserted, Find, Shaped;
    var ks := Inserted(n.kids, k, c);
    forall j | 0 <= j < |ks|
      ensures n.oid < ks[j].oid && |ks[j].oid| == |n.oid| + 1 && Shaped(ks[j])
    {
      if j < k {
        ShapedKid(n, j);
      } else if j > k {
        ShapedKid(n, j - 1);
      }
    }
    InsertedDiffer(n, k, c);
    ShapedIs(Node(n.oid, ks));
  }

  lemma ShapedIs(n: Node)
    requires forall i | 0 <= i < |n.kids| :: n.oid < n.kids[i].oid && |n.kids[i].oid| == |n.oid| + 1 && Shaped(n.kids[i])
    requires forall i, j | 0 <= i < j < |n.kids| :: n.kids[i].oid != n.kids[j].oid
    ensures Shaped(n)
  {
  }

  lemma InsertedDiffer(n: Node, k: nat, c: Node)
    requires Shaped(n) && k <= |n.kids| && Find(n.kids, c.oid) == |n.kids|
    ensures var ks := Inserted(n.kids, k, c); forall i, j | 0 <= i < j < |ks| :: ks[i].oid != ks[j].oid
  {
    hide Inserted, Find;
    var ks := Inserted(n.kids, k, c);
    forall i, j | 0 <= i < j < |ks|
      ensures ks[i].oid != ks[j].oid
    {
      if i != k && j != k {
        var i', j' := if i < k then i else i - 1, if j < k then j else j - 1;
        assert ks[i] == n.kids[i'] && ks[j] == n.kids[j'] && i' < j';
      }
    }
  }

  lemma {:induction false} RegisterKeepsShape(n: Node, oid: Oid)
    requires Shaped(n) && n.oid <= oid
    ensures Shaped(Register(n, oid))
    decreases |oid| - |n.oid|
  {
    hide Shaped, Register, Find, Slot, Index, Inserted;
    if |oid| > |n.oid| {
      var cur := oid[..|n.oid| + 1];
      var i := Find(n.kids, cur);
      if i < |n.kids| {
        ShapedKid(n, i);
        RegisterKeepsShape(n.kids[i], oid);
        RegisterKeepsOid(n.kids[i], oid);
        RegisterFound(n, oid);
        ShapedUpdate(n, i, Register(n.kids[i], oid));
      } else {
        var added := Node(cur, []);
        ShapedSingle(cur);
        RegisterKeepsShape(added, oid);
        RegisterKeepsOid(added, oid);
        RegisterMissing(n, oid);
        ShapedInsert(n, Slot(n.kids, Index(cur)), Register(added, oid));
      }
    } else {
      RegisterNothing(n, oid);
    }
  }

  lemma RegisterNothing(n: Node, oid: Oid)
    requires n.oid == oid
    ensures Register(n, oid) == n
  {
  }

  lemma {:induction false} BuildIsShaped(oids: seq<Oid>)
    ensures Shaped(Build(oids))
  {
    hide Shaped, Register;
    if oids == [] {
      ShapedSingle([]);
    } else {
      var before := oids[..|oids| - 1];
      BuildIsShaped(before);
      RegisterKeepsShape(Build(before), oids[|oids| - 1]);
    }
  }

  // ----- what is in the tree ----------------------------------------------------------------------------------------

  lemma FindUpdated(ks: seq<Node>, i: nat, c: Node, x: Oid)
    requires i < |ks| && c.oid == ks[i].oid
    ensures Find(ks[i := c], x) == Find(ks, x)
  {
    var j := Find(ks, x);
    if j < |ks| {
      FindIs(ks[i := c], x, j);
    }
  }

  lemma FindInserted(ks: seq<Node>, k: nat, c: Node, x: Oid)
    requires k <= |ks| && Find(ks, c.oid) == |ks|
    ensures var r := Inserted(ks, k, c);
            var j, j' := Find(ks, x), Find(r, x);
            && (x == c.oid ==> j' == k)
            && (x != c.oid && j < |ks| ==> j' < |r| && r[j'] == ks[j])
            && (x != c.oid && j == |ks| ==> j' == |r|)
  {
    hide Inserted, Find;
    var r := Inserted(ks, k, c);
    var j := Find(ks, x);
    if x == c.oid {
      FindIs(r, x, k);
    } else if j < |ks| {
      FindIs(r, x, if j < k then j else j + 1);
    } else {
      forall i | 0 <= i < |r|
        ensures r[i].oid != x
      {
        if i > k {
          assert r[i] == ks[i - 1];
        }
      }
    }
  }

  /** Registration adds exactly the OID and its prefixes. */
  lemma {:induction false} RegisterAdds(n: Node, oid: Oid, o: Oid)
    requires n.oid <= oid && n.oid <= o
    ensures Present(Register(n, oid), o) <==> Present(n, o) || o <= oid
    decreases |oid| - |n.oid|
  {
    RegisterKeepsOid(n, oid);
    if |o| > |n.oid| && |oid| > |n.oid| {
      hide Present, Find, Register;
      if Find(n.kids, oid[..|n.oid| + 1]) < |n.kids| {
        FoundAdds(n, oid, o);
      } else {
        MissingAdds(n, oid, o);
      }
    } else if |o| > |n.oid| {
      assert !(o <= oid);
    }
  }

  lemma {:induction false} FoundAdds(n: Node, oid: Oid, o: Oid)
    requires n.oid < oid && n.oid < o && Find(n.kids, oid[..|n.oid| + 1]) < |n.kids|
    ensures Present(Register(n, oid), o) <==> Present(n, o) || o <= oid
    decreases |oid| - |n.oid|, 0
  {
    hide Find, Slot, Index, Present, Register;
    var cur, x := oid[..|n.oid| + 1], o[..|n.oid| + 1];
    var i := Find(n.kids, cur);
    var c := Register(n.kids[i], oid);
    RegisterKeepsOid(n.kids[i], oid);
    RegisterFound(n, oid);
    FindUpdated(n.kids, i, c, x);
    PresentStep(n, o);
    PresentStep(Register(n, oid), o);
    if x == cur {
      RegisterAdds(n.kids[i], oid, o);
    } else {
      assert !(o <= oid);
    }
  }

  lemma {:induction false} MissingAdds(n: Node, oid: Oid, o: Oid)
    requires n.oid < oid && n.oid < o && Find(n.kids, oid[..|n.oid| + 1]) == |n.kids|
    ensures Present(Register(n, oid), o) <==> Present(n, o) || o <= oid
    decreases |oid| - |n.oid|, 0
  {
    hide Find, Slot, Index, Present, Register, Inserted;
    var cur, x := oid[..|n.oid| + 1], o[..|n.oid| + 1];
    var added := Node(cur, []);
    var c := Register(added, oid);
    RegisterKeepsOid(added, oid);
    RegisterMissing(n, oid);
    var k := Slot(n.kids, Index(cur));
    FindInserted(n.kids, k, c, x);
    PresentStep(n, o);
    PresentStep(Register(n, oid), o);
    if x == cur {
      RegisterAdds(added, oid, o);
      SinglePresent(cur, o);
    } else {
      assert !(o <= oid);
    }
  }

  lemma SinglePresent(cur: Oid, o: Oid)
    ensures Present(Node(cur, []), o) <==> o == cur
  {
  }

  ghost predicate Covered(oids: seq<Oid>, o: Oid) {
    exists r <- oids :: o <= r
  }

  lemma CoveredSnoc(oids: seq<Oid>, last: Oid, o: Oid)
    ensures Covered(oids + [last], o) <==> Covered(oids, o) || o <= last
  {
    assert last in oids + [last];
    assert forall r <- oids :: r in oids + [last];
  }

  /** After any registrations, present are exactly the prefixes of what was registered. */
  lemma {:induction false} BuiltPresence(oids: seq<Oid>, o: Oid)
    ensures Present(Build(oids), o) <==> o == [] || Covered(oids, o)
  {
    hide Present, Register;
    if oids != [] {
      var before, last := oids[..|oids| - 1], oids[|oids| - 1];
      BuiltPresence(before, o);
      RegisterAdds(Build(before), last, o);
      CoveredSnoc(before, last, o);
      assert oids == before + [last];
    } else {
      SinglePresent([], o);
    }
  }

  lemma BuiltNotEmpty(oids: seq<Oid>)
    requires Proper(oids) && oids != []
    ensures Build(oids).kids != []
  {
    var o := oids[0];
    assert o in oids;
    BuiltPresence(oids, o);
    PresentStep(Build(oids), o);
  }

  /** The leaves are the registered OIDs that no registered OID extends. */
  lemma BuiltLeaves(oids: seq<Oid>, l: Oid)
    requires Proper(oids) && oids != []
    ensures l in Leaves(Build(oids)) <==> l in oids && forall r <- oids :: !(l < r)
  {
    hide Shaped, Build, Leaves, Present, Descend, At;
    var root := Build(oids);
    BuildIsShaped(oids);
    BuiltNotEmpty(oids);
    BuiltPresence(oids, l);
    if l in Leaves(root) {
      LeafFound(root, l);
      if r :| r in oids && l < r {
        BuiltPresence(oids, r);
        ExtensionMeansKids(root, l, r);
      }
      KidsMakeRootInner(root, l);
      var r :| r in oids && l <= r;
      assert l == r;
    } else if l in oids && forall r <- oids :: !(l < r) {
      if At(root, Descend(root, l)).kids != [] {
        var x := KidPresent(root, l);
        BuiltPresence(oids, x);
      } else {
        FoundLeaf(root, l);
      }
    }
  }

  // ----- the order of siblings ----------------------------------------------------------------------------------------

  /** Which registration first covered `o`. */
  function First(oids: seq<Oid>, o: Oid): (i: nat)
    ensures i <= |oids|
    ensures i < |oids| ==> o <= oids[i]
    ensures forall j | 0 <= j < i :: !(o <= oids[j])
  {
    if oids == [] || o <= oids[0] then 0 else 1 + First(oids[1..], o)
  }

  lemma FirstCovers(oids: seq<Oid>, o: Oid)
    ensures First(oids, o) < |oids| <==> Covered(oids, o)
  {
    hide First;
    var i := First(oids, o);
    if i < |oids| {
      assert oids[i] in oids;
    }
    if r :| r in oids && o <= r {
      var j :| 0 <= j < |oids| && oids[j] == r;
    }
  }

  lemma FirstSnoc(oids: seq<Oid>, last: Oid, o: Oid)
    ensures First(oids, o) < |oids| ==> First(oids + [last], o) == First(oids, o)
    ensures First(oids, o) == |oids| && o <= last ==> First(oids + [last], o) == |oids|
  {
    hide First;
    var i, j := First(oids, o), First(oids + [last], o);
    if i < |oids| {
      assert (oids + [last])[i] == oids[i];
      assert j <= i;
      assert (oids + [last])[j] == oids[j];
    } else if o <= last {
      assert (oids + [last])[|oids|] == last;
      assert j <= |oids|;
    }
  }

  /** Siblings stand by their index, those with equal index in the order they were first registered. */
  predicate StandsBefore(oids: seq<Oid>, x: Oid, y: Oid) {
    Index(x) < Index(y) || (Index(x) == Index(y) && First(oids, x) < First(oids, y))
  }

  ghost predicate KidsPlaced(oids: seq<Oid>, ks: seq<Node>) {
    && (forall i, j | 0 <= i < j < |ks| :: StandsBefore(oids, ks[i].oid, ks[j].oid))
    && (forall i | 0 <= i < |ks| :: Covered(oids, ks[i].oid))
  }

  ghost predicate Placed(oids: seq<Oid>, n: Node) {
    && KidsPlaced(oids, n.kids)
    && (forall i | 0 <= i < |n.kids| :: Placed(oids, n.kids[i]))
  }

  lemma StandsStill(oids: seq<Oid>, last: Oid, x: Oid, y: Oid)
    requires StandsBefore(oids, x, y) && Covered(oids, x) && Covered(oids, y)
    ensures StandsBefore(oids + [last], x, y)
  {
    hide Index, First, Covered;
    FirstCovers(oids, x);
    FirstCovers(oids, y);
    FirstSnoc(oids, last, x);
    FirstSnoc(oids, last, y);
  }

  lemma KidsStayPlaced(oids: seq<Oid>, last: Oid, ks: seq<Node>)
    requires KidsPlaced(oids, ks)
    ensures KidsPlaced(oids + [last], ks)
  {
    hide StandsBefore, Covered;
    forall i, j | 0 <= i < j < |ks|
      ensures StandsBefore(oids + [last], ks[i].oid, ks[j].oid)
    {
      StandsStill(oids, last, ks[i].oid, ks[j].oid);
    }
    forall i | 0 <= i < |ks|
      ensures Covered(oids + [last], ks[i].oid)
    {
      CoveredSnoc(oids, last, ks[i].oid);
    }
  }

  lemma {:induction false} StaysPlaced(oids: seq<Oid>, last: Oid, n: Node)
    requires Placed(oids, n)
    ensures Placed(oids + [last], n)
    decreases n
  {
    hide KidsPlaced;
    KidsStayPlaced(oids, last, n.kids);
    forall i | 0 <= i < |n.kids|
      ensures Placed(oids + [last], n.kids[i])
    {
      StaysPlaced(oids, last, n.kids[i]);
    }
  }

  /** The node holds what `oids` cover below it. */
  ghost predicate HoldsAll(oids: seq<Oid>, n: Node) {
    forall o | n.oid < o && Covered(oids, o) :: Present(n, o)
  }

  lemma KidHoldsAll(oids: seq<Oid>, n: Node, i: nat)
    requires HoldsAll(oids, n) && Shaped(n) && i < |n.kids|
    ensures HoldsAll(oids, n.kids[i])
  {
    hide Present, Covered, Find, Shaped;
    ShapedKid(n, i);
    FindIn(n, i);
    forall o | n.kids[i].oid < o && Covered(oids, o)
      ensures Present(n.kids[i], o)
    {
      PresentStep(n, o);
      assert o[..|n.oid| + 1] == n.kids[i].oid;
    }
  }

  /** A new child stands behind every earlier one whose index is not greater. */
  lemma InsertPlaces(oids: seq<Oid>, last: Oid, ks: seq<Node>, c: Node)
    requires KidsPlaced(oids, ks) && !Covered(oids, c.oid) && c.oid <= last
    ensures KidsPlaced(oids + [last], Inserted(ks, Slot(ks, Index(c.oid)), c))
  {
    hide Index, First, Slot, Inserted, Covered;
    var oids', k := oids + [last], Slot(ks, Index(c.oid));
    var r := Inserted(ks, k, c);
    KidsStayPlaced(oids, last, ks);
    CoveredSnoc(oids, last, c.oid);
    FirstCovers(oids, c.oid);
    FirstSnoc(oids, last, c.oid);
    forall j | 0 <= j < |ks|
      ensures if j < k then StandsBefore(oids', ks[j].oid, c.oid) else StandsBefore(oids', c.oid, ks[j].oid)
    {
      FirstCovers(oids, ks[j].oid);
      FirstSnoc(oids, last, ks[j].oid);
      if k < j {
        assert StandsBefore(oids, ks[k].oid, ks[j].oid);
      }
    }
    hide StandsBefore;
    forall i, j | 0 <= i < j < |r|
      ensures StandsBefore(oids', r[i].oid, r[j].oid)
    {
    }
  }

  lemma {:induction false} RegisterPlaces(oids: seq<Oid>, n: Node, oid: Oid)
    requires Shaped(n) && Placed(oids, n) && HoldsAll(oids, n) && n.oid <= oid
    ensures Placed(oids + [oid], Register(n, oid))
    decreases |oid| - |n.oid|
  {
    hide Register, Find, Shaped, HoldsAll;
    if |oid| == |n.oid| {
      RegisterNothing(n, oid);
      StaysPlaced(oids, oid, n);
    } else if Find(n.kids, oid[..|n.oid| + 1]) < |n.kids| {
      FoundPlaces(oids, n, oid);
    } else {
      MissingPlaces(oids, n, oid);
    }
  }

  lemma {:induction false} FoundPlaces(oids: seq<Oid>, n: Node, oid: Oid)
    requires Shaped(n) && Placed(oids, n) && HoldsAll(oids, n) && n.oid < oid
    requires Find(n.kids, oid[..|n.oid| + 1]) < |n.kids|
    ensures Placed(oids + [oid], Register(n, oid))
    decreases |oid| - |n.oid|, 0
  {
    hide Register, Find, Shaped, HoldsAll, KidsPlaced;
    var i := Find(n.kids, oid[..|n.oid| + 1]);
    var c := Register(n.kids[i], oid);
    RegisterFound(n, oid);
    ShapedKid(n, i);
    KidHoldsAll(oids, n, i);
    RegisterPlaces(oids, n.kids[i], oid);
    RegisterKeepsOid(n.kids[i], oid);
    StaysPlaced(oids, oid, n);
    KidsStayPlaced(oids, oid, n.kids);
    SameOids(oids + [oid], n.kids, n.kids[i := c]);
  }

  lemma SameOids(oids: seq<Oid>, ks: seq<Node>, ks': seq<Node>)
    requires KidsPlaced(oids, ks) && |ks| == |ks'| && forall i | 0 <= i < |ks| :: ks[i].oid == ks'[i].oid
    ensures KidsPlaced(oids, ks')
  {
    hide StandsBefore, Covered;
  }

  lemma {:induction false} MissingPlaces(oids: seq<Oid>, n: Node, oid: Oid)
    requires Shaped(n) && Placed(oids, n) && HoldsAll(oids, n) && n.oid < oid
    requires Find(n.kids, oid[..|n.oid| + 1]) == |n.kids|
    ensures Placed(oids + [oid], Register(n, oid))
    decreases |oid| - |n.oid|, 0
  {
    hide Register, Find, Shaped, KidsPlaced, Index, Slot, Inserted, Present, Covered;
    var cur := oid[..|n.oid| + 1];
    var added := Node(cur, []);
    var c := Register(added, oid);
    RegisterMissing(n, oid);
    RegisterKeepsOid(added, oid);
    PresentStep(n, cur);
    assert cur[..|n.oid| + 1] == cur;
    assert !Covered(oids, cur);
    ChainPlaced(oids, added, oid);
    StaysPlaced(oids, oid, n);
    InsertPlaces(oids, oid, n.kids, c);
  }

  /** The nodes below a new one form a chain. */
  lemma {:induction false} ChainPlaced(oids: seq<Oid>, n: Node, oid: Oid)
    requires n.kids == [] && n.oid <= oid
    ensures Placed(oids + [oid], Register(n, oid))
    decreases |oid| - |n.oid|
  {
    hide Index, StandsBefore, Slot;
    if |oid| > |n.oid| {
      var cur := oid[..|n.oid| + 1];
      ChainPlaced(oids, Node(cur, []), oid);
      RegisterKeepsOid(Node(cur, []), oid);
      CoveredSnoc(oids, oid, cur);
      assert Register(n, oid).kids == [Register(Node(cur, []), oid)];
    }
  }

  /** After any registrations every list of siblings stands by index and first registration. */
  lemma {:induction false} BuiltPlaced(oids: seq<Oid>)
    ensures Placed(oids, Build(oids))
  {
    hide Register, Shaped;
    if oids != [] {
      var before, last := oids[..|oids| - 1], oids[|oids| - 1];
      assert oids == before + [last];
      BuiltPlaced(before);
      BuildIsShaped(before);
      BuiltHoldsAll(before);
      RegisterPlaces(before, Build(before), last);
    }
  }

  /** Top arcs, whose OIDs have no dot, are not sorted: they stand in the order of their first registration. */
  lemma TopByRegistration(oids: seq<Oid>, i: nat, j: nat)
    requires i < j < |Build(oids).kids|
    ensures var ks := Build(oids).kids; First(oids, ks[i].oid) < First(oids, ks[j].oid)
  {
    hide Build, First;
    BuiltPlaced(oids);
    BuildIsShaped(oids);
    var root := Build(oids);
    TopLength(root, i);
    TopLength(root, j);
    assert StandsBefore(oids, root.kids[i].oid, root.kids[j].oid);
  }

  lemma TopLength(root: Node, i: nat)
    requires Shaped(root) && root.oid == [] && i < |root.kids|
    ensures |root.kids[i].oid| == 1
  {
  }

  lemma BuiltHoldsAll(oids: seq<Oid>)
    ensures HoldsAll(oids, Build(oids))
  {
    hide Present, Covered;
    forall o | [] < o && Covered(oids, o)
      ensures Present(Build(oids), o)
    {
      BuiltPresence(oids, o);
    }
  }

  // ----- when the order is the numeric one ------------------------------------------------------------------------------

  /** Registered siblings come to stand in numeric order: the ints that atoi makes of their last components
      are in order, or equal and registered in order. */
  ghost predicate InOrder(oids: seq<Oid>) {
    forall x, y | Siblings(x, y) && Covered(oids, x) && Covered(oids, y) && Last(x) < Last(y) :: StandsBefore(oids, x, y)
  }

  /** Children of one node below the top arcs. */
  predicate Siblings(x: Oid, y: Oid) {
    |x| == |y| >= 2 && x[..|x| - 1] == y[..|y| - 1]
  }

  predicate OneArc(oids: seq<Oid>) {
    forall o <- oids, q <- oids :: o != [] && q != [] && o[0] == q[0]
  }

  /** All components fit a 31-bit int. */
  predicate Small(oids: seq<Oid>) {
    forall o <- oids, c <- o :: c < M31
  }

  lemma SmallInOrder(oids: seq<Oid>)
    requires Small(oids)
    ensures InOrder(oids)
  {
    forall x, y | Siblings(x, y) && Covered(oids, x) && Covered(oids, y) && Last(x) < Last(y)
      ensures StandsBefore(oids, x, y)
    {
      LastSmall(oids, x);
      LastSmall(oids, y);
    }
  }

  lemma LastSmall(oids: seq<Oid>, x: Oid)
    requires Small(oids) && Covered(oids, x) && |x| >= 2
    ensures Last(x) < M31 && Index(x) == Last(x)
  {
    var r :| r in oids && x <= r;
    assert r[|x| - 1] in r;
  }

  /** Where siblings stand in numeric order everywhere, the node ascends. */
  lemma {:induction false} InOrderAscends(oids: seq<Oid>, n: Node)
    requires InOrder(oids) && Placed(oids, n) && Shaped(n) && n.oid != []
    ensures Ascends(n)
    decreases n
  {
    hide Covered, StandsBefore;
    forall i, j | 0 <= i < j < |n.kids|
      ensures Last(n.kids[i].oid) < Last(n.kids[j].oid)
    {
      var x, y := n.kids[i].oid, n.kids[j].oid;
      OidsPart(n.oid, x, y);
      if Last(y) < Last(x) {
        assert StandsBefore(oids, y, x) && StandsBefore(oids, x, y);
        NotBoth(oids, x, y);
      }
    }
    forall i | 0 <= i < |n.kids|
      ensures Ascends(n.kids[i])
    {
      InOrderAscends(oids, n.kids[i]);
    }
  }

  lemma NotBoth(oids: seq<Oid>, x: Oid, y: Oid)
    ensures !(StandsBefore(oids, x, y) && StandsBefore(oids, y, x))
  {
  }

  lemma OidsPart(p: Oid, x: Oid, y: Oid)
    requires p < x && p < y && |x| == |y| == |p| + 1 && x != y
    ensures Last(x) != Last(y)
    ensures p != [] ==> Siblings(x, y) && Siblings(y, x)
  {
    assert x == p + [Last(x)] && y == p + [Last(y)];
    assert x[..|x| - 1] == p && y[..|y| - 1] == p;
  }

  /** One top arc means one top node. */
  lemma OneTopNode(oids: seq<Oid>)
    requires OneArc(oids) && oids != []
    ensures |Build(oids).kids| == 1
  {
    hide Build, Shaped;
    ProperArc(oids);
    BuiltNotEmpty(oids);
    BuildIsShaped(oids);
    if |Build(oids).kids| >= 2 {
      TopArc(oids, 0);
      TopArc(oids, 1);
      KidsDiffer(Build(oids), 0, 1);
    }
  }

  lemma ProperArc(oids: seq<Oid>)
    requires OneArc(oids)
    ensures Proper(oids)
  {
    forall o | o in oids
      ensures o != []
    {
      assert o in oids && o in oids;
    }
  }

  lemma TopArc(oids: seq<Oid>, i: nat)
    requires OneArc(oids) && oids != [] && i < |Build(oids).kids|
    ensures oids[0] != [] && Build(oids).kids[i].oid == [oids[0][0]]
  {
    hide Build, Shaped;
    var root := Build(oids);
    BuildIsShaped(oids);
    BuiltPlaced(oids);
    ShapedKid(root, i);
    var k := root.kids[i].oid;
    var r :| r in oids && k <= r;
    assert oids[0] in oids;
    assert k == [r[0]];
  }

  /** Registrations under one top arc whose siblings come to stand in order build a sorted tree. */
  lemma BuildIsTree(oids: seq<Oid>)
    requires OneArc(oids) && InOrder(oids) && oids != []
    ensures Tree(Build(oids))
  {
    hide Build, Placed, InOrder;
    var root := Build(oids);
    OneTopNode(oids);
    BuildIsShaped(oids);
    BuiltPlaced(oids);
    PlacedKid(oids, root, 0);
    ShapedKid(root, 0);
    InOrderAscends(oids, root.kids[0]);
  }

  lemma PlacedKid(oids: seq<Oid>, n: Node, i: nat)
    requires Placed(oids, n) && i < |n.kids|
    ensures Placed(oids, n.kids[i])
  {
  }

  // ----- the search on any tree ---------------------------------------------------------------------------------------

  /** The way down the last children. */
  function RightPath(n: Node): (p: seq<nat>)
    ensures IsPath(n, p)
  {
    if n.kids == [] then [] else [|n.kids| - 1] + RightPath(n.kids[|n.kids| - 1])
  }

  lemma {:induction false} RightEnds(n: Node)
    ensures At(n, RightPath(n)).kids == []
    decreases n
  {
    if n.kids != [] {
      var i := |n.kids| - 1;
      RightEnds(n.kids[i]);
      AtCons(n, i, RightPath(n.kids[i]));
    }
  }

  lemma {:induction false} PathConcat(n: Node, p: seq<nat>, q: seq<nat>)
    requires IsPath(n, p) && IsPath(At(n, p), q)
    ensures IsPath(n, p + q) && At(n, p + q) == At(At(n, p), q)
    decreases |p|
  {
    if p == [] {
      assert p + q == q;
    } else {
      PathConcat(n.kids[p[0]], p[1..], q);
      assert (p + q)[1..] == p[1..] + q;
    }
  }

  /** From the rightmost leaf of a subtree the climb leads out of it. */
  lemma {:induction false} AfterRight(root: Node, p: seq<nat>)
    requires IsPath(root, p) && p != []
    ensures IsPath(root, p + RightPath(At(root, p)))
    ensures After(root, p + RightPath(At(root, p))) == After(root, p)
    decreases At(root, p)
  {
    hide IsPath, At;
    var m := At(root, p);
    if m.kids == [] {
      assert p + [] == p;
    } else {
      var i := |m.kids| - 1;
      PathSnoc(root, p, i);
      AfterRight(root, p + [i]);
      assert p + [i] + RightPath(m.kids[i]) == p + RightPath(m);
      assert (p + [i])[..|p|] == p;
    }
  }

  lemma {:induction false} DescendTo(n: Node, p: seq<nat>)
    requires Shaped(n) && IsPath(n, p)
    ensures Descend(n, At(n, p).oid) == p
    decreases |p|
  {
    hide Shaped, Find;
    if p != [] {
      var k := n.kids[p[0]];
      ShapedKid(n, p[0]);
      DescendTo(k, p[1..]);
      ShapedAt(k, p[1..]);
      FindIn(n, p[0]);
      assert At(n, p).oid[..|n.oid| + 1] == k.oid;
      assert p == [p[0]] + p[1..];
    }
  }

  /** The answer for a leaf is where the climb from it ends. */
  lemma NextOfLeaf(root: Node, p: seq<nat>)
    requires Shaped(root) && IsPath(root, p) && At(root, p).kids == []
    ensures Present(root, At(root, p).oid) && Next(root, At(root, p).oid) == After(root, p)
  {
    hide Shaped, Descend;
    DescendTo(root, p);
  }

  /** The rightmost leaf under `p`: its OID extends that of `p`, and the search answers with what follows `p`. */
  lemma RightmostAnswer(root: Node, p: seq<nat>) returns (x: Oid)
    requires Shaped(root) && IsPath(root, p) && p != []
    ensures At(root, p).oid <= x && Present(root, x) && Next(root, x) == After(root, p)
  {
    hide Shaped, IsPath, At, Present, Next, After;
    var m := At(root, p);
    var q := RightPath(m);
    AfterRight(root, p);
    PathConcat(root, p, q);
    RightEnds(m);
    NextOfLeaf(root, p + q);
    ShapedAt(root, p);
    ShapedAt(m, q);
    x := At(root, p + q).oid;
  }

  lemma LeafUnder(root: Node, i: nat) returns (y: Oid)
    requires Shaped(root) && i < |root.kids|
    ensures y in Leaves(root) && root.kids[i].oid <= y
  {
    hide Shaped, Leaves, LeavesOf;
    y := Leaves(root.kids[i])[0];
    ShapedKid(root, i);
    LeavesExtend(root.kids[i], y);
    SplitLeaves(root.kids, i);
    InnerLeaves(root);
  }

  /** With two top arcs the search misses the greater one from the end of the smaller. */
  lemma TwoArcsMiss(root: Node, i: nat, j: nat) returns (x: Oid)
    requires Shaped(root) && i < |root.kids| && j < |root.kids| && Last(root.kids[i].oid) < Last(root.kids[j].oid)
    ensures Present(root, x) && !IsSuccessor(root, x, Next(root, x))
  {
    hide Shaped, Leaves, Less, Next, Present;
    OneStep(root, i);
    x := RightmostAnswer(root, [i]);
    var y := LeafUnder(root, j);
    SiblingsOrdered(root, i, j, x, y);
  }

  lemma OneStep(root: Node, i: nat)
    requires i < |root.kids|
    ensures IsPath(root, [i]) && At(root, [i]) == root.kids[i] && After(root, [i]) == None
  {
    assert [i][1..] == [];
  }

  /** With two adjacent siblings out of order the search goes back from the end of the first. */
  lemma MisorderedMiss(root: Node, q: seq<nat>, i: nat) returns (x: Oid)
    requires Shaped(root) && IsPath(root, q) && q != [] && i + 1 < |At(root, q).kids|
    requires Last(At(root, q).kids[i + 1].oid) < Last(At(root, q).kids[i].oid)
    ensures Present(root, x) && !IsSuccessor(root, x, Next(root, x))
  {
    hide Shaped, IsPath, At, Leaves, LeavesOf, Less, Next, Present;
    var m := At(root, q);
    PathSnoc(root, q, i);
    x := RightmostAnswer(root, q + [i]);
    assert (q + [i])[..|q|] == q;
    var y := FirstLeaf(m.kids[i + 1]);
    assert After(root, q + [i]) == Some(y);
    FirstLeafIsFirst(m.kids[i + 1]);
    ShapedAt(root, q);
    ShapedKid(m, i + 1);
    LeavesExtend(m.kids[i + 1], y);
    SiblingsOrdered(m, i + 1, i, y, x);
    LessAsymmetric(y, x);
  }

  /** A node that does not ascend has two adjacent siblings out of order somewhere. */
  lemma {:induction false} FindMisordered(root: Node, p: seq<nat>) returns (q: seq<nat>, i: nat)
    requires Shaped(root) && IsPath(root, p) && p != [] && !Ascends(At(root, p))
    ensures IsPath(root, q) && q != [] && i + 1 < |At(root, q).kids|
    ensures Last(At(root, q).kids[i + 1].oid) < Last(At(root, q).kids[i].oid)
    decreases At(root, p)
  {
    hide Shaped, IsPath, At, Ascends, Last;
    var m := At(root, p);
    ShapedAt(root, p);
    var here, k := WhereNot(m);
    if here {
      q, i := p, k;
    } else {
      PathSnoc(root, p, k);
      q, i := FindMisordered(root, p + [k]);
    }
  }

  lemma WhereNot(m: Node) returns (here: bool, k: nat)
    requires Shaped(m) && !Ascends(m)
    ensures here ==> k + 1 < |m.kids| && Last(m.kids[k + 1].oid) < Last(m.kids[k].oid)
    ensures !here ==> k < |m.kids| && !Ascends(m.kids[k])
  {
    hide Shaped, Last;
    if j: nat :| j + 1 < |m.kids| && Last(m.kids[j + 1].oid) < Last(m.kids[j].oid) {
      here, k := true, j;
    } else {
      here := false;
      AdjacentSuffices(m);
      k :| k < |m.kids| && !Ascends(m.kids[k]);
    }
  }

  lemma AdjacentSuffices(m: Node)
    requires Shaped(m) && forall k: nat | k + 1 < |m.kids| :: !(Last(m.kids[k + 1].oid) < Last(m.kids[k].oid))
    ensures forall i, j | 0 <= i < j < |m.kids| :: Last(m.kids[i].oid) < Last(m.kids[j].oid)
  {
    forall i, j | 0 <= i < j < |m.kids|
      ensures Last(m.kids[i].oid) < Last(m.kids[j].oid)
    {
      Climbing(m, i, j);
    }
  }

  lemma {:induction false} Climbing(m: Node, i: nat, j: nat)
    requires Shaped(m) && forall k: nat | k + 1 < |m.kids| :: !(Last(m.kids[k + 1].oid) < Last(m.kids[k].oid))
    requires i < j < |m.kids|
    ensures Last(m.kids[i].oid) < Last(m.kids[j].oid)
    decreases j
  {
    LastsDiffer(m, j - 1, j);
    if i < j - 1 {
      Climbing(m, i, j - 1);
    }
    assert (j - 1) + 1 == j;
  }

  lemma LastsDiffer(m: Node, i: nat, j: nat)
    requires Shaped(m) && i < j < |m.kids|
    ensures Last(m.kids[i].oid) != Last(m.kids[j].oid)
  {
    hide Shaped, Last;
    ShapedKid(m, i);
    ShapedKid(m, j);
    KidsDiffer(m, i, j);
    OidsPart(m.oid, m.kids[i].oid, m.kids[j].oid);
  }

  lemma KidsDiffer(m: Node, i: nat, j: nat)
    requires Shaped(m) && i < j < |m.kids|
    ensures m.kids[i].oid != m.kids[j].oid
  {
  }

  // ----- exactly when GETNEXT is right ----------------------------------------------------------------------------------

  /** GETNEXT answers every OID in the tree with its successor. */
  ghost predicate AlwaysRight(root: Node) {
    forall x | Present(root, x) :: IsSuccessor(root, x, Next(root, x))
  }

  lemma RightIsOneArc(oids: seq<Oid>)
    requires Proper(oids) && oids != [] && AlwaysRight(Build(oids))
    ensures |Build(oids).kids| == 1
  {
    hide Build, Shaped, Present, IsSuccessor, Next;
    var root := Build(oids);
    BuiltNotEmpty(oids);
    BuildIsShaped(oids);
    if |root.kids| >= 2 {
      LastsDiffer(root, 0, 1);
      if Last(root.kids[0].oid) < Last(root.kids[1].oid) {
        var x := TwoArcsMiss(root, 0, 1);
        assert false;
      } else {
        var x := TwoArcsMiss(root, 1, 0);
        assert false;
      }
    }
  }

  lemma OneNodeIsOneArc(oids: seq<Oid>)
    requires Proper(oids) && |Build(oids).kids| == 1
    ensures OneArc(oids)
  {
    hide Build, Present;
    var root := Build(oids);
    BuildIsShaped(oids);
    forall o | o in oids
      ensures o != [] && [o[0]] == root.kids[0].oid
    {
      BuiltPresence(oids, o);
      PresentStep(root, o);
      assert o[..1] == [o[0]];
    }
  }

  lemma RightAscends(root: Node)
    requires Shaped(root) && root.oid == [] && |root.kids| == 1 && AlwaysRight(root)
    ensures Ascends(root)
  {
    hide Shaped, Present, IsSuccessor, Next;
    OneStep(root, 0);
    if !Ascends(root.kids[0]) {
      var q, i := FindMisordered(root, [0]);
      var x := MisorderedMiss(root, q, i);
      assert false;
    }
  }

  /** In a sorted tree siblings that are present stand in numeric order. */
  lemma AscendsInOrder(oids: seq<Oid>)
    requires Shaped(Build(oids)) && Ascends(Build(oids))
    ensures InOrder(oids)
  {
    hide Build, Shaped, Ascends, Placed, StandsBefore, Covered;
    var root := Build(oids);
    BuiltPlaced(oids);
    forall x, y | Siblings(x, y) && Covered(oids, x) && Covered(oids, y) && Last(x) < Last(y)
      ensures StandsBefore(oids, x, y)
    {
      BuiltPresence(oids, x);
      BuiltPresence(oids, y);
      SiblingsStand(oids, root, x, y);
    }
  }

  lemma {:induction false} SiblingsStand(oids: seq<Oid>, n: Node, x: Oid, y: Oid)
    requires Shaped(n) && Ascends(n) && Placed(oids, n) && Present(n, x) && Present(n, y)
    requires Siblings(x, y) && n.oid < x && n.oid < y && Last(x) < Last(y)
    ensures StandsBefore(oids, x, y)
    decreases n
  {
    hide Shaped, StandsBefore, Covered, Present, Find;
    PresentStep(n, x);
    PresentStep(n, y);
    var i, j := Find(n.kids, x[..|n.oid| + 1]), Find(n.kids, y[..|n.oid| + 1]);
    ShapedKid(n, i);
    ShapedKid(n, j);
    if |x| == |n.oid| + 1 {
      assert x[..|n.oid| + 1] == x && y[..|n.oid| + 1] == y;
    } else {
      var p := x[..|x| - 1];
      assert x[..|n.oid| + 1] == p[..|n.oid| + 1] == y[..|n.oid| + 1];
      SiblingsStand(oids, n.kids[i], x, y);
    }
  }

  /** For every series of registrations: GETNEXT is right for every OID in the tree if and only if all
      registered OIDs share one top arc and siblings come to stand in numeric order. */
  lemma GetNextIff(oids: seq<Oid>)
    requires Proper(oids) && oids != []
    ensures AlwaysRight(Build(oids)) <==> OneArc(oids) && InOrder(oids)
  {
    hide Build, Shaped, Ascends, InOrder, Present, IsSuccessor, Next;
    var root := Build(oids);
    BuildIsShaped(oids);
    if OneArc(oids) && InOrder(oids) {
      BuildIsTree(oids);
      forall x | Present(root, x)
        ensures IsSuccessor(root, x, Next(root, x))
      {
        NextIsSuccessor(root, x);
      }
    }
    if AlwaysRight(root) {
      RightIsOneArc(oids);
      OneNodeIsOneArc(oids);
      RightAscends(root);
      AscendsInOrder(oids);
    }
  }

  /** In particular whenever there is one top arc and all components fit an int. */
  lemma GetNextRight(oids: seq<Oid>)
    requires oids != [] && OneArc(oids) && Small(oids)
    ensures AlwaysRight(Build(oids)) && Tree(Build(oids))
  {
    hide Build, InOrder, AlwaysRight, Small;
    ProperArc(oids);
    SmallInOrder(oids);
    GetNextIff(oids);
    BuildIsTree(oids);
  }

  /** Two top arcs, registered one after the other. */
  lemma TwoArcsFail()
    ensures !AlwaysRight(Build([[1], [2]]))
  {
    hide Build, AlwaysRight, InOrder;
    var oids := [[1], [2]];
    assert oids[0] in oids && oids[1] in oids;
    GetNextIff(oids);
  }

  /** A component that atoi turns negative is sorted in front of a smaller one. */
  lemma BigComponentFails()
    ensures !AlwaysRight(Build([[1, 0], [1, M31]]))
  {
    hide Build, AlwaysRight;
    var x, y := [1, 0], [1, M31];
    var oids := [x, y];
    assert Covered(oids, x) && Covered(oids, y) by {
      assert x in oids && y in oids;
    }
    assert x[..1] == [1] == y[..1];
    assert Index(x) == 0 && Index(y) == -M31;
    GetNextIff(oids);
  }
}
