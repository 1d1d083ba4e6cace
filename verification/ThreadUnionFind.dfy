/** Union-find over UIDs: parents never exceed their child, lookups halve paths, roots are smallest UIDs. */
module ThreadUnionFind {
  import opened ThreadGraph

  type Parents = map<nat, nat>

  predicate Down(m: Parents, x: nat)
    requires x in m
  {
    m[x] in m && m[x] <= x
  }

  predicate Forest(m: Parents) { forall x {:trigger Down(m, x)} :: x in m ==> Down(m, x) }

  function Root(m: Parents, x: nat): (r: nat)
    requires Forest(m) && x in m
    ensures r in m && m[r] == r && r <= x
    decreases x
  {
    assert Down(m, x);
    if m[x] == x then x else Root(m, m[x])
  }

  ghost function Roots(m: Parents): map<nat, nat>
    requires Forest(m)
  {
    map x | x in m :: Root(m, x)
  }

  /** The forest holds exactly the connectivity of the links made so far. */
  ghost predicate Represents(m: Parents, e: Links) {
    && Forest(m)
    && (forall a, b :: (a, b) in e ==> a in m && b in m && Root(m, a) == Root(m, b))
    && (forall x {:trigger ReachesRoot(m, e, x)} :: x in m ==> ReachesRoot(m, e, x))
  }

  ghost predicate ReachesRoot(m: Parents, e: Links, x: nat)
    requires Forest(m) && x in m
  {
    Connected(e, x, Root(m, x))
  }

  // ----- changing parents -----

  lemma HalvingIsForest(m: Parents, x: nat)
    requires Forest(m) && x in m
    ensures Down(m, x) && Down(m, m[x]) && Forest(m[x := m[m[x]]])
  {
    assert Down(m, x) && Down(m, m[x]);
    var h := m[x := m[m[x]]];
    forall k | k in h ensures Down(h, k) { assert Down(m, k); }
  }

  lemma {:induction false} HalvingKeepsRoot(m: Parents, x: nat, k: nat)
    requires Forest(m) && x in m && k in m
    ensures Down(m, x) && Forest(m[x := m[m[x]]])
    ensures Root(m[x := m[m[x]]], k) == Root(m, k)
    decreases k
  {
    HalvingIsForest(m, x);
    var h := m[x := m[m[x]]];
    assert Down(m, k) && Down(h, k);
    if h[k] != k {
      HalvingKeepsRoot(m, x, h[k]);
      if k == x { assert Root(m, m[k]) == Root(m, h[k]); }
    }
  }

  lemma HalvingKeepsRoots(m: Parents, x: nat)
    requires Forest(m) && x in m
    ensures Down(m, x) && Forest(m[x := m[m[x]]]) && Roots(m[x := m[m[x]]]) == Roots(m)
  {
    HalvingIsForest(m, x);
    var h := m[x := m[m[x]]];
    forall k | k in m ensures Root(h, k) == Root(m, k) { HalvingKeepsRoot(m, x, k); }
    assert h.Keys == m.Keys;
  }

  lemma AttachIsForest(m: Parents, lo: nat, hi: nat)
    requires Forest(m) && lo in m && hi in m && lo < hi
    ensures Forest(m[hi := lo])
  {
    var h := m[hi := lo];
    forall k | k in h ensures Down(h, k) { assert Down(m, k); }
  }

  lemma {:induction false} AttachRoot(m: Parents, lo: nat, hi: nat, k: nat)
    requires Forest(m) && lo in m && hi in m && m[lo] == lo && m[hi] == hi && lo < hi && k in m
    ensures Forest(m[hi := lo])
    ensures Root(m[hi := lo], k) == if Root(m, k) == hi then lo else Root(m, k)
    decreases k
  {
    AttachIsForest(m, lo, hi);
    var h := m[hi := lo];
    assert Down(m, k);
    if k == hi {
      assert Root(h, lo) == lo;
    } else if m[k] != k {
      AttachRoot(m, lo, hi, m[k]);
    }
  }

  /** The root of a class after the classes rooted at `ra` and `rb` became one. */
  function Smaller(ra: nat, rb: nat, r: nat): nat {
    if r == ra || r == rb then (if ra < rb then ra else rb) else r
  }

  /** Two classes become one, rooted at the smaller root. */
  ghost function Joined(roots: map<nat, nat>, a: nat, b: nat): map<nat, nat>
    requires a in roots && b in roots
  {
    map x | x in roots :: Smaller(roots[a], roots[b], roots[x])
  }

  lemma AttachAll(m: Parents, lo: nat, hi: nat)
    requires Forest(m) && lo in m && hi in m && m[lo] == lo && m[hi] == hi && lo < hi
    ensures Forest(m[hi := lo])
    ensures Roots(m[hi := lo]) == map x | x in m :: Smaller(lo, hi, Root(m, x))
  {
    var h := m[hi := lo];
    AttachIsForest(m, lo, hi);
    forall k | k in m ensures Root(h, k) == Smaller(lo, hi, Root(m, k)) { AttachRoot(m, lo, hi, k); }
    assert h.Keys == m.Keys;
  }

  lemma AttachJoins(m: Parents, a: nat, b: nat)
    requires Forest(m) && a in m && b in m && Root(m, a) != Root(m, b)
    ensures var ra, rb := Root(m, a), Root(m, b);
            var h := if ra < rb then m[rb := ra] else m[ra := rb];
            Forest(h) && Roots(h) == Joined(Roots(m), a, b)
  {
    var ra, rb := Root(m, a), Root(m, b);
    if ra < rb { AttachAll(m, ra, rb); } else { AttachAll(m, rb, ra); }
  }

  lemma JoinNothing(m: Parents, a: nat, b: nat)
    requires Forest(m) && a in m && b in m && Root(m, a) == Root(m, b)
    ensures Roots(m) == Joined(Roots(m), a, b)
  {}

  /** Representation depends on the roots alone. */
  lemma RepresentsByRoots(m: Parents, h: Parents, e: Links)
    requires Represents(m, e) && Forest(h) && Roots(h) == Roots(m)
    ensures Represents(h, e)
  {
    RootsKeys(m);
    RootsKeys(h);
    forall x | x in h ensures ReachesRoot(h, e, x) {
      assert ReachesRoot(m, e, x);
      SameRoots(m, h, x);
    }
    forall a, b | (a, b) in e ensures a in h && b in h && Root(h, a) == Root(h, b) {
      SameRoots(m, h, a);
      SameRoots(m, h, b);
    }
  }

  lemma SameRoots(m: Parents, h: Parents, x: nat)
    requires Forest(m) && Forest(h) && Roots(m) == Roots(h) && x in m
    ensures x in h && Root(h, x) == Root(m, x)
  {
    RootsKeys(m);
    RootsKeys(h);
    assert Roots(h)[x] == Roots(m)[x];
  }

  lemma RootsKeys(m: Parents)
    requires Forest(m)
    ensures Roots(m).Keys == m.Keys
  {}

  /** Both old roots and both ends of the new link are connected. */
  lemma LinkConnects(m: Parents, e: Links, a: nat, b: nat)
    requires Represents(m, e) && a in m && b in m
    ensures Connected(e + {(a, b)}, Root(m, a), Root(m, b)) && Connected(e + {(a, b)}, Root(m, b), Root(m, a))
  {
    var f, ra, rb := e + {(a, b)}, Root(m, a), Root(m, b);
    assert ReachesRoot(m, e, a) && ReachesRoot(m, e, b);
    ConnectedMono(e, f, a, ra);
    ConnectedMono(e, f, b, rb);
    ConnectedSym(f, a, ra);
    ConnectedLink(f, a, b);
    ConnectedTrans(f, ra, a, b);
    ConnectedTrans(f, ra, b, rb);
    ConnectedSym(f, ra, rb);
  }

  lemma JoinedIsConnected(m: Parents, e: Links, a: nat, b: nat, x: nat)
    requires Represents(m, e) && a in m && b in m && x in m
    ensures Connected(e + {(a, b)}, x, Smaller(Root(m, a), Root(m, b), Root(m, x)))
  {
    var f, ra, rb, r := e + {(a, b)}, Root(m, a), Root(m, b), Root(m, x);
    assert ReachesRoot(m, e, x);
    ConnectedMono(e, f, x, r);
    LinkConnects(m, e, a, b);
    if r == ra && rb < ra { ConnectedTrans(f, x, ra, rb); }
    if r == rb && ra < rb { ConnectedTrans(f, x, rb, ra); }
  }

  lemma JoinRepresents(m: Parents, h: Parents, e: Links, a: nat, b: nat)
    requires Represents(m, e) && a in m && b in m && Forest(h) && Roots(h) == Joined(Roots(m), a, b)
    ensures Represents(h, e + {(a, b)})
  {
    RootsKeys(m);
    RootsKeys(h);
    forall x | x in h ensures Root(h, x) == Smaller(Root(m, a), Root(m, b), Root(m, x)) {
      assert Roots(h)[x] == Root(h, x);
    }
    forall x | x in h ensures ReachesRoot(h, e + {(a, b)}, x) { JoinedIsConnected(m, e, a, b, x); }
  }

  /** What `union` makes of the parents once both roots are known. */
  function Attached(m: Parents, ra: nat, rb: nat): Parents {
    if ra == rb then m else if ra > rb then m[ra := rb] else m[rb := ra]
  }

  lemma AttachRepresents(m: Parents, e: Links, a: nat, b: nat)
    requires Represents(m, e) && a in m && b in m
    ensures var h := Attached(m, Root(m, a), Root(m, b));
            h.Keys == m.Keys && Represents(h, e + {(a, b)}) && Roots(h) == Joined(Roots(m), a, b)
  {
    var h := Attached(m, Root(m, a), Root(m, b));
    if Root(m, a) == Root(m, b) { JoinNothing(m, a, b); } else { AttachJoins(m, a, b); }
    JoinRepresents(m, h, e, a, b);
  }

  // ----- what the structure means -----

  /** Two UIDs share a root exactly when links connect them. */
  lemma SameRootIffConnected(m: Parents, e: Links, a: nat, b: nat)
    requires Represents(m, e) && a in m && b in m
    ensures Root(m, a) == Root(m, b) <==> Connected(e, a, b)
  {
    assert ReachesRoot(m, e, a) && ReachesRoot(m, e, b);
    if Root(m, a) == Root(m, b) {
      ConnectedSym(e, b, Root(m, b));
      ConnectedTrans(e, a, Root(m, a), b);
    }
    if Connected(e, a, b) { ConnectedAgrees(e, Roots(m), a, b); }
  }

  /** A root is the smallest UID connected to it. */
  lemma RootIsSmallest(m: Parents, e: Links, a: nat, b: nat)
    requires Represents(m, e) && a in m && b in m && Connected(e, a, b)
    ensures Root(m, a) <= b && Connected(e, a, Root(m, a))
  {
    SameRootIffConnected(m, e, a, b);
    assert ReachesRoot(m, e, a);
  }

  class UnionFind {
    var parent: Parents
    ghost var links: Links

    ghost predicate Valid()
      reads this
    {
      Represents(parent, links)
    }

    /** `newUF`: every UID is its own class. */
    constructor (ids: seq<nat>)
      ensures Valid() && links == {} && parent == map x | x in ids :: x
    {
      parent := map x | x in ids :: x;
      links := {};
      new;
      forall x | x in parent ensures ReachesRoot(parent, links, x) { ConnectedRefl(links, x); }
    }

    /** `find`: climbs to the root, pointing every node it visits at its grandparent. */
    method Find(x: nat) returns (r: nat)
      requires Valid() && x in parent
      modifies this`parent
      ensures Valid() && Roots(parent) == old(Roots(parent))
      ensures parent.Keys == old(parent.Keys)
      ensures r == old(Root(parent, x)) == Root(parent, x)
    {
      r := x;
      while parent[r] != r
        invariant Forest(parent) && Roots(parent) == Roots(old(parent))
        invariant parent.Keys == old(parent.Keys)
        invariant r in parent && Root(parent, r) == Root(old(parent), x)
        decreases r
      {
        HalvingKeepsRoots(parent, r);
        HalvingIsForest(parent, r);
        ghost var before := parent;
        parent := parent[r := parent[parent[r]]];
        assert Roots(before)[r] == Roots(parent)[r];
        r := parent[r];
      }
      RepresentsByRoots(old(parent), parent, links);
      assert Roots(parent)[x] == Roots(old(parent))[x];
    }

    /** `union`: the larger root is attached to the smaller one. */
    method Union(a: nat, b: nat)
      requires Valid() && a in parent && b in parent
      modifies this
      ensures Valid() && links == old(links) + {(a, b)}
      ensures parent.Keys == old(parent.Keys)
      ensures Roots(parent) == Joined(old(Roots(parent)), a, b)
    {
      var ra := Find(a);
      var rb := Find(b);
      ghost var before := parent;
      SameRoots(old(parent), before, a);
      SameRoots(old(parent), before, b);
      AttachRepresents(before, links, a, b);
      links := links + {(a, b)};
      if ra != rb {
        if ra > rb {
          ra, rb := rb, ra;
        }
        parent := parent[rb := ra];
      }
    }
  }
}
