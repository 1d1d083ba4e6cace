/** Undirected links between UIDs and what it means for two UIDs to be connected. */
module ThreadGraph {
  type Links = set<(nat, nat)>

  predicate Linked(e: Links, a: nat, b: nat) { (a, b) in e || (b, a) in e }

  predicate IsPath(e: Links, p: seq<nat>) {
    p != [] && forall i :: 0 <= i < |p| - 1 ==> Linked(e, p[i], p[i + 1])
  }

  ghost predicate PathBetween(e: Links, p: seq<nat>, a: nat, b: nat) {
    IsPath(e, p) && p[0] == a && p[|p| - 1] == b
  }

  ghost predicate Connected(e: Links, a: nat, b: nat) { exists p :: PathBetween(e, p, a, b) }

  lemma ConnectedRefl(e: Links, a: nat)
    ensures Connected(e, a, a)
  {
    assert PathBetween(e, [a], a, a);
  }

  lemma ConnectedLink(e: Links, a: nat, b: nat)
    requires Linked(e, a, b)
    ensures Connected(e, a, b)
  {
    assert PathBetween(e, [a, b], a, b);
  }

  function Reverse(p: seq<nat>): (r: seq<nat>)
    ensures |r| == |p| && forall i :: 0 <= i < |p| ==> r[i] == p[|p| - 1 - i]
  {
    if p == [] then [] else Reverse(p[1..]) + [p[0]]
  }

  lemma ConnectedSym(e: Links, a: nat, b: nat)
    requires Connected(e, a, b)
    ensures Connected(e, b, a)
  {
    var p :| PathBetween(e, p, a, b);
    var r := Reverse(p);
    forall i | 0 <= i < |r| - 1 ensures Linked(e, r[i], r[i + 1]) {
      var k := |p| - 2 - i;
      assert Linked(e, p[k], p[k + 1]);
    }
    assert PathBetween(e, r, b, a);
  }

  lemma ConnectedTrans(e: Links, a: nat, b: nat, c: nat)
    requires Connected(e, a, b) && Connected(e, b, c)
    ensures Connected(e, a, c)
  {
    var p :| PathBetween(e, p, a, b);
    var q :| PathBetween(e, q, b, c);
    var r := p + q[1..];
    forall i | 0 <= i < |r| - 1 ensures Linked(e, r[i], r[i + 1]) {
      if i < |p| - 1 {
        assert Linked(e, p[i], p[i + 1]);
      } else {
        var k := i - |p| + 1;
        assert r[i] == q[k] && r[i + 1] == q[k + 1];
        assert Linked(e, q[k], q[k + 1]);
      }
    }
    assert PathBetween(e, r, a, c);
  }

  lemma ConnectedMono(e: Links, f: Links, a: nat, b: nat)
    requires e <= f && Connected(e, a, b)
    ensures Connected(f, a, b)
  {
    var p :| PathBetween(e, p, a, b);
    assert PathBetween(f, p, a, b);
  }

  /** A labelling that agrees along every link agrees on connected UIDs. */
  ghost predicate Agrees(e: Links, root: map<nat, nat>) {
    forall a, b :: (a, b) in e ==> a in root && b in root && root[a] == root[b]
  }

  lemma {:induction false} PathAgrees(e: Links, root: map<nat, nat>, p: seq<nat>)
    requires Agrees(e, root) && IsPath(e, p) && p[0] in root
    ensures p[|p| - 1] in root && root[p[|p| - 1]] == root[p[0]]
    decreases |p|
  {
    if |p| > 1 {
      assert Linked(e, p[0], p[1]);
      var rest := p[1..];
      forall i | 0 <= i < |rest| - 1 ensures Linked(e, rest[i], rest[i + 1]) {
        assert Linked(e, p[i + 1], p[i + 2]);
      }
      PathAgrees(e, root, rest);
    }
  }

  lemma ConnectedAgrees(e: Links, root: map<nat, nat>, a: nat, b: nat)
    requires Agrees(e, root) && a in root && Connected(e, a, b)
    ensures b in root && root[a] == root[b]
  {
    var p :| PathBetween(e, p, a, b);
    PathAgrees(e, root, p);
  }
}
