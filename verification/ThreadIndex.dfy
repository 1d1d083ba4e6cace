/** The index object: a list of nodes and a table of the same nodes by UID, updated in place. */
module ThreadIndex {
  import opened Wrappers
  import opened ThreadCache

  class Node {
    var data: Message

    constructor (data: Message)
      ensures this.data == data
    {
      this.data := data;
    }
  }

  class NodeIndex {
    var uidValidity: nat
    var uidNext: nat
    var count: nat
    var builtAt: int
    var nodes: seq<Node>
    var byUid: map<nat, Node>

    /** The table and the list hold the same nodes, each once and under its own UID. */
    ghost predicate Valid()
      reads this, nodes
    {
      && (forall n :: n in nodes ==> InTable(n))
      && (forall u {:trigger InList(u)} :: u in byUid ==> InList(u))
      && |nodes| == |byUid|
    }

    ghost predicate InTable(n: Node)
      reads this, n
    {
      n.data.uid in byUid && byUid[n.data.uid] == n
    }

    ghost predicate InList(u: nat)
      requires u in byUid
      reads this, nodes
    {
      byUid[u] in nodes && byUid[u].data.uid == u
    }

    ghost function At(u: nat): Message
      requires Valid() && u in byUid
      reads this, nodes
    {
      assert InList(u);
      byUid[u].data
    }

    ghost function Contents(): map<nat, Message>
      requires Valid()
      reads this, nodes
    {
      map u | u in byUid :: At(u)
    }

    ghost function Value(): Index
      requires Valid()
      reads this, nodes
    {
      Index(uidValidity, uidNext, count, builtAt, Contents())
    }

    constructor (uidValidity: nat, uidNext: nat, count: nat, builtAt: int)
      ensures Valid() && nodes == [] && Value() == Index(uidValidity, uidNext, count, builtAt, map[])
    {
      this.uidValidity, this.uidNext, this.count, this.builtAt := uidValidity, uidNext, count, builtAt;
      nodes, byUid := [], map[];
    }

    /** `mergeThreadNode`: a known node is overwritten where it stands, a new one is appended. */
    method Merge(m: Message)
      requires Valid()
      modifies this`nodes, this`byUid, nodes
      ensures Valid() && Contents() == old(Contents())[m.uid := m]
      ensures forall n :: n in nodes ==> n in old(nodes) || fresh(n)
      ensures m.uid in old(byUid) ==> nodes == old(nodes)
      ensures m.uid !in old(byUid) ==>
              |nodes| == |old(nodes)| + 1 && nodes[..|old(nodes)|] == old(nodes) && nodes[|old(nodes)|].data == m
    {
      if m.uid in byUid {
        Overwrite(m);
      } else {
        Append(m);
      }
    }

    method Overwrite(m: Message)
      requires Valid() && m.uid in byUid
      modifies nodes
      ensures Valid() && Contents() == old(Contents())[m.uid := m]
    {
      assert InList(m.uid);
      forall u | u in byUid && u != m.uid ensures byUid[u] != byUid[m.uid] { assert InList(u); }
      byUid[m.uid].data := m;
      forall n | n in nodes ensures InTable(n) { assert old(InTable(n)); }
      forall u | u in byUid ensures InList(u) { assert old(InList(u)); }
    }

    method Append(m: Message)
      requires Valid() && m.uid !in byUid
      modifies this`nodes, this`byUid
      ensures Valid() && Contents() == old(Contents())[m.uid := m]
      ensures |nodes| == |old(nodes)| + 1 && nodes[..|old(nodes)|] == old(nodes)
      ensures fresh(nodes[|old(nodes)|]) && nodes[|old(nodes)|].data == m
    {
      var n := new Node(m);
      ghost var before, table := nodes, byUid;
      byUid := byUid[m.uid := n];
      nodes := nodes + [n];
      forall x | x in nodes ensures InTable(x) { assert x in before ==> old(InTable(x)); }
      forall u | u in byUid ensures InList(u) { assert u in table ==> old(InList(u)); }
    }

    /** Brings the mark of what is indexed up to date. */
    method Touch(uidNext: nat, count: nat, builtAt: int)
      requires Valid()
      modifies this`uidNext, this`count, this`builtAt
      ensures Valid() && Value() == Index(uidValidity, uidNext, count, builtAt, old(Contents()))
    {
      this.uidNext, this.count, this.builtAt := uidNext, count, builtAt;
      forall n | n in nodes ensures InTable(n) { assert old(InTable(n)); }
      forall u | u in byUid ensures InList(u) { assert old(InList(u)); }
    }

    /** `fetchThreadNodes`: merges what arrives, up to the end or an error. */
    method Fetch(r: Reply) returns (ok: bool)
      requires Valid()
      modifies this`nodes, this`byUid, nodes
      ensures Valid() && ok == r.ok
      ensures Contents() == MergeAll(old(Contents()), r.items)
      ensures forall n :: n in nodes ==> n in old(nodes) || fresh(n)
    {
      for i := 0 to |r.items|
        invariant Valid() && Contents() == MergeAll(old(Contents()), r.items[..i])
        invariant forall n :: n in nodes ==> n in old(nodes) || fresh(n)
      {
        assert r.items[..i + 1][..i] == r.items[..i];
        if r.items[i].uid != 0 {
          assert forall k :: 0 <= k < |nodes| ==> nodes[k] in old(nodes) || fresh(nodes[k]);
          Merge(r.items[i]);
        }
      }
      assert r.items[..|r.items|] == r.items;
      ok := r.ok;
    }
  }

  class Entry {
    var index: NodeIndex?

    constructor ()
      ensures index == null
    {
      index := null;
    }

    ghost predicate Valid()
      reads this, index, if index == null then {} else set n | n in index.nodes
    {
      index != null ==> index.Valid()
    }

    ghost function Value(): Option<Index>
      requires Valid()
      reads this, index, if index == null then {} else set n | n in index.nodes
    {
      if index == null then None else Some(index.Value())
    }

    method Rebuild(mb: Mailbox, now: int, r: Reply) returns (idx: NodeIndex?)
      requires Valid()
      modifies this
      ensures Valid() && (r.ok <==> idx != null)
      ensures r.ok ==> fresh(idx) && idx == index && idx.Value() == Rebuilt(mb, now, r)
      ensures !r.ok ==> index == old(index)
    {
      var made := new NodeIndex(mb.validity, mb.uidNext, |mb.messages|, now);
      var ok := made.Fetch(r);
      if !ok { return null; }
      index := made;
      return made;
    }

    /** `refreshThreadIndexLocked`. */
    method Refresh(mb: Mailbox, now: int, first: Reply, second: Reply) returns (idx: NodeIndex?)
      requires Valid()
      modifies this, index, if index == null then {} else set n | n in index.nodes
      ensures Valid()
      ensures Value() == ThreadCache.Refresh(old(Value()), mb, now, first, second).entry
      ensures var result := ThreadCache.Refresh(old(Value()), mb, now, first, second).result;
              if result.None? then idx == null else idx != null && idx == index && result == Some(idx.Value())
    {
      var reason := if index == null then Build
                    else if index.uidValidity != mb.validity then Build
                    else if index.count != |mb.messages| then Build
                    else if mb.uidNext > index.uidNext then Incremental
                    else if now - index.builtAt > TTL then Build
                    else Reuse;
      match reason
      case Build =>
        idx := Rebuild(mb, now, first);
      case Incremental =>
        var ok := index.Fetch(first);
        if !ok {
          idx := Rebuild(mb, now, second);
          return;
        }
        index.Touch(mb.uidNext, |mb.messages|, now);
        return index;
      case Reuse =>
        return index;
    }
  }
}
