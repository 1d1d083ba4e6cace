/**
 Conversation grouping: a pass over references, then a pass over subjects, each adding a link only between
 messages that are not connected yet. Message-id normalisation and subject keys are parameters.
 */
module ThreadGrouping {
  import opened Wrappers
  import opened ThreadGraph
  import opened ThreadUnionFind

  datatype ThreadInput = ThreadInput(uid: nat, messageId: string, references: seq<string>, inReplyTo: string,
    subject: string)

  type Normalizer = string -> string

  /** The message that a message id stands for: the first one that carries it. */
  function ById(inputs: seq<ThreadInput>): map<string, nat> {
    if inputs == [] then map[]
    else
      var m, last := ById(inputs[..|inputs| - 1]), inputs[|inputs| - 1];
      if last.messageId != "" && last.messageId !in m then m[last.messageId := last.uid] else m
  }

  function Backwards(s: seq<string>): seq<string> {
    if s == [] then [] else [s[|s| - 1]] + Backwards(s[..|s| - 1])
  }

  /** The ids a message refers to, the nearest first. */
  function Candidates(m: ThreadInput): seq<string> {
    Backwards(m.references) + if m.inReplyTo != "" then [m.inReplyTo] else []
  }

  /** The other message that an id resolves to. */
  function Resolve(ids: map<string, nat>, normalize: Normalizer, m: ThreadInput, cand: string): Option<nat> {
    var id := normalize(cand);
    if id == "" || id == m.messageId || id !in ids || ids[id] == m.uid then None else Some(ids[id])
  }

  function Nearest(ids: map<string, nat>, normalize: Normalizer, m: ThreadInput, cands: seq<string>): Option<nat> {
    if cands == [] then None
    else if Resolve(ids, normalize, m, cands[0]).Some? then Resolve(ids, normalize, m, cands[0])
    else Nearest(ids, normalize, m, cands[1..])
  }

  /** The nearest resolvable message that is not connected yet. */
  ghost function FirstNew(e: Links, ids: map<string, nat>, normalize: Normalizer, m: ThreadInput,
      cands: seq<string>): Option<nat> {
    if cands == [] then None
    else
      var p := Resolve(ids, normalize, m, cands[0]);
      if p.Some? && !Connected(e, p.value, m.uid) then p else FirstNew(e, ids, normalize, m, cands[1..])
  }

  // ----- the two passes as functions -----

  datatype State = State(links: Links, linked: map<nat, bool>, anchors: map<string, nat>)

  ghost function ReferenceStep(st: State, ids: map<string, nat>, normalize: Normalizer, m: ThreadInput): State {
    match FirstNew(st.links, ids, normalize, m, Candidates(m))
    case Some(p) => st.(links := st.links + {(p, m.uid)}, linked := st.linked[m.uid := true])
    case None => st.(linked := st.linked[m.uid := false])
  }

  ghost function References(inputs: seq<ThreadInput>, n: nat, normalize: Normalizer): State
    requires n <= |inputs|
  {
    if n == 0 then State({}, map[], map[])
    else ReferenceStep(References(inputs, n - 1, normalize), ById(inputs), normalize, inputs[n - 1])
  }

  predicate Settled(st: State, m: ThreadInput) { m.messageId != "" && m.uid in st.linked && st.linked[m.uid] }

  ghost function SubjectStep(st: State, subjectKey: Normalizer, m: ThreadInput): State {
    var key := subjectKey(m.subject);
    if Settled(st, m) || key == "" then st
    else if key !in st.anchors then st.(anchors := st.anchors[key := m.uid])
    else if Connected(st.links, st.anchors[key], m.uid) then st
    else st.(links := st.links + {(st.anchors[key], m.uid)}, linked := st.linked[m.uid := true])
  }

  ghost function Subjects(inputs: seq<ThreadInput>, n: nat, normalize: Normalizer, subjectKey: Normalizer): State
    requires n <= |inputs|
  {
    if n == 0 then References(inputs, |inputs|, normalize)
    else SubjectStep(Subjects(inputs, n - 1, normalize, subjectKey), subjectKey, inputs[n - 1])
  }

  /** All the links that grouping makes. */
  ghost function GroupLinks(inputs: seq<ThreadInput>, normalize: Normalizer, subjectKey: Normalizer): Links {
    Subjects(inputs, |inputs|, normalize, subjectKey).links
  }

  predicate IsUid(inputs: seq<ThreadInput>, u: nat) { exists i :: 0 <= i < |inputs| && inputs[i].uid == u }

  lemma {:induction false} IdsAreUids(inputs: seq<ThreadInput>)
    ensures forall id :: id in ById(inputs) ==> IsUid(inputs, ById(inputs)[id])
  {
    if inputs != [] {
      var front, n := inputs[..|inputs| - 1], |inputs| - 1;
      IdsAreUids(front);
      forall id | id in ById(inputs) ensures IsUid(inputs, ById(inputs)[id]) {
        if id in ById(front) {
          var i :| 0 <= i < |front| && front[i].uid == ById(front)[id];
          assert inputs[i].uid == ById(inputs)[id];
        } else {
          assert inputs[n].uid == ById(inputs)[id];
        }
      }
    }
  }

  lemma UidsOfInputs(inputs: seq<ThreadInput>, uids: seq<nat>)
    requires |uids| == |inputs| && forall i :: 0 <= i < |inputs| ==> uids[i] == inputs[i].uid
    ensures forall a :: a in uids <==> IsUid(inputs, a)
    ensures forall i :: 0 <= i < |inputs| ==> inputs[i].uid in uids
    ensures forall id :: id in ById(inputs) ==> ById(inputs)[id] in uids
  {
    IdsAreUids(inputs);
    forall a | IsUid(inputs, a) ensures a in uids {
      var i :| 0 <= i < |inputs| && inputs[i].uid == a;
      assert uids[i] == a;
    }
    forall i | 0 <= i < |inputs| ensures inputs[i].uid in uids { assert uids[i] in uids; }
  }

  // ----- the algorithm -----

  /** The threads of a result are the connected components of the links, each named by its smallest UID. */
  ghost predicate Groups(out: map<nat, nat>, e: Links) {
    forall a, b :: a in out && b in out ==>
      && (out[a] == out[b] <==> Connected(e, a, b))
      && (out[a] == out[b] ==> out[a] in out && out[a] <= b)
  }

  /** The index by message id, filled in one loop. */
  method BuildIds(inputs: seq<ThreadInput>) returns (ids: map<string, nat>, uids: seq<nat>)
    ensures ids == ById(inputs)
    ensures |uids| == |inputs| && forall i :: 0 <= i < |inputs| ==> uids[i] == inputs[i].uid
  {
    ids, uids := map[], [];
    for i := 0 to |inputs|
      invariant ids == ById(inputs[..i])
      invariant |uids| == i && forall k :: 0 <= k < i ==> uids[k] == inputs[k].uid
    {
      assert inputs[..i + 1][..i] == inputs[..i];
      uids := uids + [inputs[i].uid];
      if inputs[i].messageId != "" && inputs[i].messageId !in ids {
        ids := ids[inputs[i].messageId := inputs[i].uid];
      }
    }
    assert inputs[..|inputs|] == inputs;
  }

  method BuildCandidates(m: ThreadInput) returns (cands: seq<string>)
    ensures cands == Candidates(m)
  {
    cands := [];
    var i := |m.references|;
    assert m.references[..i] == m.references;
    while i > 0
      invariant 0 <= i <= |m.references|
      invariant cands + Backwards(m.references[..i]) == Backwards(m.references)
    {
      i := i - 1;
      assert m.references[..i + 1][..i] == m.references[..i];
      cands := cands + [m.references[i]];
    }
    assert cands == Backwards(m.references);
    if m.inReplyTo != "" { cands := cands + [m.inReplyTo]; }
  }

  /** Whether two UIDs already share a root. */
  method SameClass(u: UnionFind, a: nat, b: nat) returns (same: bool)
    requires u.Valid() && a in u.parent && b in u.parent
    modifies u`parent
    ensures u.Valid() && u.parent.Keys == old(u.parent.Keys)
    ensures same == Connected(u.links, a, b)
  {
    var ra := u.Find(a);
    var rb := u.Find(b);
    SameRoots(old(u.parent), u.parent, a);
    SameRoots(old(u.parent), u.parent, b);
    SameRootIffConnected(u.parent, u.links, a, b);
    same := ra == rb;
  }

  /** Pass 1 for one message: the first candidate that resolves and is not connected yet is linked. */
  method LinkReference(u: UnionFind, ids: map<string, nat>, normalize: Normalizer, m: ThreadInput)
      returns (linked: bool)
    requires u.Valid() && m.uid in u.parent
    requires forall id :: id in ids ==> ids[id] in u.parent
    modifies u
    ensures u.Valid() && u.parent.Keys == old(u.parent.Keys)
    ensures var p := FirstNew(old(u.links), ids, normalize, m, Candidates(m));
            linked == p.Some? && u.links == old(u.links) + (if p.Some? then {(p.value, m.uid)} else {})
  {
    var cands := BuildCandidates(m);
    var k := 0;
    while k < |cands|
      invariant 0 <= k <= |cands|
      invariant u.Valid() && u.parent.Keys == old(u.parent.Keys) && u.links == old(u.links)
      invariant FirstNew(u.links, ids, normalize, m, cands[k..]) == FirstNew(u.links, ids, normalize, m, cands)
    {
      assert cands[k..][0] == cands[k] && cands[k..][1..] == cands[k + 1..];
      var p := Resolve(ids, normalize, m, cands[k]);
      if p.Some? {
        var same := SameClass(u, p.value, m.uid);
        if !same {
          u.Union(p.value, m.uid);
          return true;
        }
      }
      k := k + 1;
    }
    linked := false;
  }

  /** Pass 1. */
  method ReferencePass(u: UnionFind, inputs: seq<ThreadInput>, ids: map<string, nat>, normalize: Normalizer)
    returns (linked: map<nat, bool>)
    requires u.Valid() && u.links == {} && ids == ById(inputs)
    requires forall i :: 0 <= i < |inputs| ==> inputs[i].uid in u.parent
    requires forall id :: id in ids ==> ids[id] in u.parent
    modifies u
    ensures u.Valid() && u.parent.Keys == old(u.parent.Keys)
    ensures References(inputs, |inputs|, normalize) == State(u.links, linked, map[])
  {
    linked := map[];
    for i := 0 to |inputs|
      invariant u.Valid() && u.parent.Keys == old(u.parent.Keys)
      invariant References(inputs, i, normalize) == State(u.links, linked, map[])
    {
      var done := LinkReference(u, ids, normalize, inputs[i]);
      linked := linked[inputs[i].uid := done];
    }
  }

  /** Pass 2 for one message. */
  method LinkSubject(u: UnionFind, m: ThreadInput, subjectKey: Normalizer, linked0: map<nat, bool>,
      anchors0: map<string, nat>)
    returns (linked: map<nat, bool>, anchors: map<string, nat>)
    requires u.Valid() && m.uid in u.parent && forall k :: k in anchors0 ==> anchors0[k] in u.parent
    modifies u
    ensures u.Valid() && u.parent.Keys == old(u.parent.Keys) && forall k :: k in anchors ==> anchors[k] in u.parent
    ensures State(u.links, linked, anchors) == SubjectStep(State(old(u.links), linked0, anchors0), subjectKey, m)
  {
    linked, anchors := linked0, anchors0;
    if m.messageId != "" && m.uid in linked && linked[m.uid] { return; }
    var key := subjectKey(m.subject);
    if key == "" { return; }
    if key in anchors {
      var same := SameClass(u, anchors[key], m.uid);
      if !same {
        u.Union(anchors[key], m.uid);
        linked := linked[m.uid := true];
      }
    } else {
      anchors := anchors[key := m.uid];
    }
  }

  /** Pass 2. */
  method SubjectPass(u: UnionFind, inputs: seq<ThreadInput>, linked0: map<nat, bool>, normalize: Normalizer,
      subjectKey: Normalizer)
    requires u.Valid() && References(inputs, |inputs|, normalize) == State(u.links, linked0, map[])
    requires forall i :: 0 <= i < |inputs| ==> inputs[i].uid in u.parent
    modifies u
    ensures u.Valid() && u.parent.Keys == old(u.parent.Keys)
    ensures u.links == GroupLinks(inputs, normalize, subjectKey)
  {
    var linked := linked0;
    var anchors: map<string, nat> := map[];
    for i := 0 to |inputs|
      invariant u.Valid() && u.parent.Keys == old(u.parent.Keys)
      invariant Subjects(inputs, i, normalize, subjectKey) == State(u.links, linked, anchors)
      invariant forall k :: k in anchors ==> anchors[k] in u.parent
    {
      linked, anchors := LinkSubject(u, inputs[i], subjectKey, linked, anchors);
    }
  }

  /**
   `GroupThreads`: messages share a root exactly when the links connect them, and a root is the smallest UID of its
   thread.
   */
  method GroupThreads(inputs: seq<ThreadInput>, normalize: Normalizer, subjectKey: Normalizer)
      returns (out: map<nat, nat>)
    ensures forall a :: a in out <==> IsUid(inputs, a)
    ensures Groups(out, GroupLinks(inputs, normalize, subjectKey))
  {
    var ids, uids := BuildIds(inputs);
    UidsOfInputs(inputs, uids);
    var u := new UnionFind(uids);
    assert forall x :: x in u.parent <==> x in uids;
    var linked := ReferencePass(u, inputs, ids, normalize);
    SubjectPass(u, inputs, linked, normalize, subjectKey);
    out := CollectRoots(u, uids);
  }

  /** The final loop: the root of every UID. */
  method CollectRoots(u: UnionFind, uids: seq<nat>) returns (out: map<nat, nat>)
    requires u.Valid() && forall x :: x in uids <==> x in u.parent
    modifies u`parent
    ensures out.Keys == old(u.parent.Keys)
    ensures Groups(out, u.links)
  {
    out := map[];
    ghost var start := u.parent;
    for i := 0 to |uids|
      invariant u.Valid() && Roots(u.parent) == Roots(start) && u.parent.Keys == start.Keys
      invariant out.Keys == set k | 0 <= k < i :: uids[k]
      invariant forall x :: x in out ==> x in start && out[x] == Root(start, x)
    {
      SameRoots(start, u.parent, uids[i]);
      var r := u.Find(uids[i]);
      out := out[uids[i] := r];
    }
    forall a, b | a in out && b in out
      ensures out[a] == out[b] <==> Connected(u.links, a, b)
    {
      SameRootIffConnected(start, u.links, a, b);
    }
  }
}
