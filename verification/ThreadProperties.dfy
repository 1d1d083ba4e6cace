/** What grouping guarantees: which messages end in one thread, and that no thread joins unrelated messages. */
module ThreadProperties {
  import opened Wrappers
  import opened ThreadGraph
  import opened ThreadGrouping

  // ----- links are only added -----

  lemma {:induction false} ReferencesGrow(inputs: seq<ThreadInput>, i: nat, n: nat, normalize: Normalizer)
    requires i <= n <= |inputs|
    ensures References(inputs, i, normalize).links <= References(inputs, n, normalize).links
    decreases n
  {
    if i < n { ReferencesGrow(inputs, i, n - 1, normalize); }
  }

  lemma {:induction false} SubjectsGrow(inputs: seq<ThreadInput>, i: nat, n: nat, normalize: Normalizer,
      subjectKey: Normalizer)
    requires i <= n <= |inputs|
    ensures Subjects(inputs, i, normalize, subjectKey).links <= Subjects(inputs, n, normalize, subjectKey).links
    decreases n
  {
    if i < n { SubjectsGrow(inputs, i, n - 1, normalize, subjectKey); }
  }

  lemma ConnectedByReferences(inputs: seq<ThreadInput>, n: nat, normalize: Normalizer, subjectKey: Normalizer, a: nat,
      b: nat)
    requires n <= |inputs| && Connected(References(inputs, n, normalize).links, a, b)
    ensures Connected(GroupLinks(inputs, normalize, subjectKey), a, b)
  {
    ReferencesGrow(inputs, n, |inputs|, normalize);
    SubjectsGrow(inputs, 0, |inputs|, normalize, subjectKey);
    ConnectedMono(References(inputs, n, normalize).links, GroupLinks(inputs, normalize, subjectKey), a, b);
  }

  lemma {:induction false} NearestIsNewOrConnected(e: Links, ids: map<string, nat>, normalize: Normalizer,
      m: ThreadInput, cands: seq<string>)
    ensures match Nearest(ids, normalize, m, cands)
            case None => FirstNew(e, ids, normalize, m, cands) == None
            case Some(p) => Connected(e, p, m.uid) || FirstNew(e, ids, normalize, m, cands) == Some(p)
  {
    if cands != [] { NearestIsNewOrConnected(e, ids, normalize, m, cands[1..]); }
  }

  // ----- which message an id names -----

  /** Message `k` is the first to carry this id. */
  predicate FirstCarrier(inputs: seq<ThreadInput>, k: nat, id: string) {
    k < |inputs| && inputs[k].messageId == id && forall j :: 0 <= j < k ==> inputs[j].messageId != id
  }

  /** Message `i`, by an id it gives as `ref`, names message `k`: the first to carry that id, and not `i` itself. */
  predicate Names(inputs: seq<ThreadInput>, normalize: Normalizer, i: nat, ref: string, k: nat)
    requires i < |inputs|
  {
    && normalize(ref) != "" && FirstCarrier(inputs, k, normalize(ref))
    && inputs[k].messageId != inputs[i].messageId && inputs[k].uid != inputs[i].uid
  }

  ghost predicate NamesNone(inputs: seq<ThreadInput>, normalize: Normalizer, i: nat, ref: string)
    requires i < |inputs|
  {
    forall k: nat :: !Names(inputs, normalize, i, ref, k)
  }

  /** The last reference of message `i` that names anything names `k`. */
  ghost predicate LastReferenceNames(inputs: seq<ThreadInput>, normalize: Normalizer, i: nat, k: nat)
    requires i < |inputs|
  {
    exists r :: 0 <= r < |inputs[i].references| && Names(inputs, normalize, i, inputs[i].references[r], k) &&
      forall s :: r < s < |inputs[i].references| ==> NamesNone(inputs, normalize, i, inputs[i].references[s])
  }

  /** No reference of message `i` names anything, and the message it replies to is `k`. */
  ghost predicate OnlyReplyNames(inputs: seq<ThreadInput>, normalize: Normalizer, i: nat, k: nat)
    requires i < |inputs|
  {
    && (forall s :: 0 <= s < |inputs[i].references| ==> NamesNone(inputs, normalize, i, inputs[i].references[s]))
    && inputs[i].inReplyTo != "" && Names(inputs, normalize, i, inputs[i].inReplyTo, k)
  }

  /** Message `i` names `k` somewhere. */
  predicate Mentions(inputs: seq<ThreadInput>, normalize: Normalizer, i: nat, k: nat)
    requires i < |inputs|
  {
    || (exists ref :: ref in inputs[i].references && Names(inputs, normalize, i, ref, k))
    || (inputs[i].inReplyTo != "" && Names(inputs, normalize, i, inputs[i].inReplyTo, k))
  }

  /** The table of message ids: an id is in it if some message carries it, and stands for the first that does. */
  lemma {:induction false} TableOfIds(inputs: seq<ThreadInput>, id: string)
    ensures id in ById(inputs) <==> id != "" && exists k :: 0 <= k < |inputs| && inputs[k].messageId == id
    ensures forall k: nat :: id != "" && FirstCarrier(inputs, k, id) ==>
              id in ById(inputs) && ById(inputs)[id] == inputs[k].uid
  {
    if inputs != [] {
      var front, n := inputs[..|inputs| - 1], |inputs| - 1;
      TableOfIds(front, id);
      assert forall k :: 0 <= k < n ==> front[k] == inputs[k];
      if id in ById(front) {
        var k :| 0 <= k < |front| && front[k].messageId == id;
        assert inputs[k].messageId == id;
      }
      forall k: nat | id != "" && FirstCarrier(inputs, k, id)
        ensures id in ById(inputs) && ById(inputs)[id] == inputs[k].uid
      {
        if k < n { assert FirstCarrier(front, k, id); }
      }
    }
  }

  /** An id that some message carries has a first carrier. */
  lemma {:induction false} HasFirstCarrier(inputs: seq<ThreadInput>, id: string, n: nat) returns (k: nat)
    requires n < |inputs| && inputs[n].messageId == id
    ensures FirstCarrier(inputs, k, id)
    decreases n
  {
    if j :| 0 <= j < n && inputs[j].messageId == id { k := HasFirstCarrier(inputs, id, j); } else { k := n; }
  }

  /** Resolving an id gives the UID of the message it names. */
  lemma ResolvesToNamed(inputs: seq<ThreadInput>, normalize: Normalizer, i: nat, ref: string)
    requires i < |inputs|
    ensures forall k: nat :: Names(inputs, normalize, i, ref, k) ==>
              Resolve(ById(inputs), normalize, inputs[i], ref) == Some(inputs[k].uid)
    ensures Resolve(ById(inputs), normalize, inputs[i], ref).Some? ==>
              exists k: nat :: Names(inputs, normalize, i, ref, k)
  {
    var id := normalize(ref);
    TableOfIds(inputs, id);
    if Resolve(ById(inputs), normalize, inputs[i], ref).Some? {
      var n :| 0 <= n < |inputs| && inputs[n].messageId == id;
      var k := HasFirstCarrier(inputs, id, n);
      assert Names(inputs, normalize, i, ref, k);
    }
  }

  lemma {:induction false} BackwardsMembers(s: seq<string>)
    ensures forall x :: x in Backwards(s) <==> x in s
    decreases |s|
  {
    if s != [] {
      BackwardsMembers(s[..|s| - 1]);
      assert s == s[..|s| - 1] + [s[|s| - 1]];
    }
  }

  // ----- completeness -----

  /** A later part of a list decides when nothing before it resolves. */
  lemma {:induction false} NearestOfConcat(ids: map<string, nat>, normalize: Normalizer, m: ThreadInput,
      a: seq<string>, b: seq<string>)
    ensures Nearest(ids, normalize, m, a + b) ==
            if Nearest(ids, normalize, m, a).Some? then Nearest(ids, normalize, m, a) else Nearest(ids, normalize, m, b)
    decreases |a|
  {
    if a == [] {
      assert a + b == b;
    } else {
      assert (a + b)[1..] == a[1..] + b;
      NearestOfConcat(ids, normalize, m, a[1..], b);
    }
  }

  lemma BackwardsStep(ids: map<string, nat>, normalize: Normalizer, m: ThreadInput, refs: seq<string>)
    requires refs != []
    ensures Nearest(ids, normalize, m, Backwards(refs)) ==
            if Resolve(ids, normalize, m, refs[|refs| - 1]).Some? then Resolve(ids, normalize, m, refs[|refs| - 1])
            else Nearest(ids, normalize, m, Backwards(refs[..|refs| - 1]))
  {
    assert Backwards(refs)[1..] == Backwards(refs[..|refs| - 1]);
  }

  lemma {:induction false} NoneNearest(inputs: seq<ThreadInput>, normalize: Normalizer, i: nat, refs: seq<string>)
    requires i < |inputs| && forall s :: 0 <= s < |refs| ==> NamesNone(inputs, normalize, i, refs[s])
    ensures Nearest(ById(inputs), normalize, inputs[i], Backwards(refs)) == None
    decreases |refs|
  {
    if refs != [] {
      BackwardsStep(ById(inputs), normalize, inputs[i], refs);
      ResolvesToNamed(inputs, normalize, i, refs[|refs| - 1]);
      NoneNearest(inputs, normalize, i, refs[..|refs| - 1]);
    }
  }

  /** Read backwards, the first reference that names something decides. */
  lemma {:induction false} LastNearest(inputs: seq<ThreadInput>, normalize: Normalizer, i: nat, refs: seq<string>,
      r: nat, k: nat)
    requires i < |inputs| && r < |refs| && Names(inputs, normalize, i, refs[r], k)
    requires forall s :: r < s < |refs| ==> NamesNone(inputs, normalize, i, refs[s])
    ensures Nearest(ById(inputs), normalize, inputs[i], Backwards(refs)) == Some(inputs[k].uid)
    decreases |refs|
  {
    var n := |refs| - 1;
    BackwardsStep(ById(inputs), normalize, inputs[i], refs);
    ResolvesToNamed(inputs, normalize, i, refs[n]);
    if r < n { LastNearest(inputs, normalize, i, refs[..n], r, k); }
  }

  /**
   Every message ends in the thread of its nearest ancestor: the message that the last reference to name anything
   names, or else the message it replies to.
   */
  lemma NearestAncestor(inputs: seq<ThreadInput>, i: nat, k: nat, normalize: Normalizer, subjectKey: Normalizer)
    requires i < |inputs|
    requires LastReferenceNames(inputs, normalize, i, k) || OnlyReplyNames(inputs, normalize, i, k)
    ensures Connected(GroupLinks(inputs, normalize, subjectKey), inputs[k].uid, inputs[i].uid)
  {
    var m, p := inputs[i], inputs[k].uid;
    NearestOfConcat(ById(inputs), normalize, m, Backwards(m.references),
      if m.inReplyTo != "" then [m.inReplyTo] else []);
    if LastReferenceNames(inputs, normalize, i, k) {
      var r :| 0 <= r < |m.references| && Names(inputs, normalize, i, m.references[r], k) &&
        forall s :: r < s < |m.references| ==> NamesNone(inputs, normalize, i, m.references[s]);
      LastNearest(inputs, normalize, i, m.references, r, k);
    } else {
      NoneNearest(inputs, normalize, i, m.references);
      ResolvesToNamed(inputs, normalize, i, m.inReplyTo);
    }
    assert Nearest(ById(inputs), normalize, m, Candidates(m)) == Some(p);
    NearestJoined(inputs, i, p, normalize, subjectKey);
  }

  lemma NearestJoined(inputs: seq<ThreadInput>, i: nat, p: nat, normalize: Normalizer, subjectKey: Normalizer)
    requires i < |inputs| && Nearest(ById(inputs), normalize, inputs[i], Candidates(inputs[i])) == Some(p)
    ensures Connected(GroupLinks(inputs, normalize, subjectKey), p, inputs[i].uid)
  {
    var e := References(inputs, i, normalize).links;
    NearestIsNewOrConnected(e, ById(inputs), normalize, inputs[i], Candidates(inputs[i]));
    if Connected(e, p, inputs[i].uid) {
      ConnectedByReferences(inputs, i, normalize, subjectKey, p, inputs[i].uid);
    } else {
      ConnectedLink(References(inputs, i + 1, normalize).links, p, inputs[i].uid);
      ConnectedByReferences(inputs, i + 1, normalize, subjectKey, p, inputs[i].uid);
    }
  }

  predicate DistinctUids(inputs: seq<ThreadInput>) {
    forall i, j :: 0 <= i < j < |inputs| ==> inputs[i].uid != inputs[j].uid
  }

  /**
   A message that references leave alone: it has no id of its own, or every message it names was already in its thread
   when its turn came.
   */
  ghost predicate Unlinked(inputs: seq<ThreadInput>, i: nat, normalize: Normalizer)
    requires i < |inputs|
  {
    inputs[i].messageId == "" ||
    forall k: nat :: Mentions(inputs, normalize, i, k) ==>
      Connected(References(inputs, i, normalize).links, inputs[k].uid, inputs[i].uid)
  }

  lemma {:induction false} FirstNewNone(e: Links, ids: map<string, nat>, normalize: Normalizer, m: ThreadInput,
      cands: seq<string>)
    ensures FirstNew(e, ids, normalize, m, cands) == None <==>
            forall c :: c in cands && Resolve(ids, normalize, m, c).Some? ==>
              Connected(e, Resolve(ids, normalize, m, c).value, m.uid)
  {
    if cands != [] {
      FirstNewNone(e, ids, normalize, m, cands[1..]);
      assert forall c :: c in cands <==> c == cands[0] || c in cands[1..];
    }
  }

  /** Pass 1 links a message exactly when it names one that is not in its thread yet. */
  lemma LinksUnlessConnected(inputs: seq<ThreadInput>, i: nat, normalize: Normalizer)
    requires i < |inputs|
    ensures var e := References(inputs, i, normalize).links;
            FirstNew(e, ById(inputs), normalize, inputs[i], Candidates(inputs[i])) == None <==>
              forall k: nat :: Mentions(inputs, normalize, i, k) ==> Connected(e, inputs[k].uid, inputs[i].uid)
  {
    var m, e := inputs[i], References(inputs, i, normalize).links;
    FirstNewNone(e, ById(inputs), normalize, m, Candidates(m));
    BackwardsMembers(m.references);
    forall c ensures forall k: nat :: Names(inputs, normalize, i, c, k) ==>
              Resolve(ById(inputs), normalize, m, c) == Some(inputs[k].uid)
    {
      ResolvesToNamed(inputs, normalize, i, c);
    }
    forall c | c in Candidates(m) && Resolve(ById(inputs), normalize, m, c).Some?
      ensures exists k: nat :: Mentions(inputs, normalize, i, k) &&
                Resolve(ById(inputs), normalize, m, c) == Some(inputs[k].uid)
    {
      ResolvesToNamed(inputs, normalize, i, c);
      var k: nat :| Names(inputs, normalize, i, c, k);
      assert Mentions(inputs, normalize, i, k);
    }
    forall k: nat | Mentions(inputs, normalize, i, k)
      ensures exists c :: c in Candidates(m) && Resolve(ById(inputs), normalize, m, c) == Some(inputs[k].uid)
    {
      if ref :| ref in m.references && Names(inputs, normalize, i, ref, k) {
        assert ref in Candidates(m);
      } else {
        assert m.inReplyTo in Candidates(m);
      }
    }
  }

  /** What pass 1 notes of a message stays as it is when later ones are linked. */
  lemma {:induction false} NoteStays(inputs: seq<ThreadInput>, n: nat, i: nat, normalize: Normalizer)
    requires DistinctUids(inputs) && i < n <= |inputs|
    ensures inputs[i].uid in References(inputs, n, normalize).linked
    ensures References(inputs, n, normalize).linked[inputs[i].uid] ==
            FirstNew(References(inputs, i, normalize).links, ById(inputs), normalize, inputs[i],
              Candidates(inputs[i])).Some?
    decreases n
  {
    if i < n - 1 {
      NoteStays(inputs, n - 1, i, normalize);
      assert inputs[n - 1].uid != inputs[i].uid;
    }
  }

  /** The messages that pass 2 treats are exactly those left alone. */
  lemma SettledUnlessUnlinked(inputs: seq<ThreadInput>, i: nat, normalize: Normalizer)
    requires DistinctUids(inputs) && i < |inputs|
    ensures Settled(References(inputs, |inputs|, normalize), inputs[i]) <==> !Unlinked(inputs, i, normalize)
  {
    NoteStays(inputs, |inputs|, i, normalize);
    LinksUnlessConnected(inputs, i, normalize);
  }

  /** Pass 2 does not touch what pass 1 said of messages it has not reached. */
  lemma {:induction false} LaterUntouched(inputs: seq<ThreadInput>, n: nat, i: nat, normalize: Normalizer,
      subjectKey: Normalizer)
    requires DistinctUids(inputs) && n <= i < |inputs|
    ensures Settled(Subjects(inputs, n, normalize, subjectKey), inputs[i]) == !Unlinked(inputs, i, normalize)
    decreases n
  {
    if n > 0 {
      LaterUntouched(inputs, n - 1, i, normalize, subjectKey);
      assert inputs[n - 1].uid != inputs[i].uid;
    } else {
      SettledUnlessUnlinked(inputs, i, normalize);
    }
  }

  /** After pass 2 reached a message left alone, its subject has an anchor that it is connected to. */
  lemma {:induction false} AnchorConnected(inputs: seq<ThreadInput>, n: nat, i: nat, normalize: Normalizer,
      subjectKey: Normalizer)
    requires DistinctUids(inputs) && i < n <= |inputs|
    requires Unlinked(inputs, i, normalize) && subjectKey(inputs[i].subject) != ""
    ensures var st := Subjects(inputs, n, normalize, subjectKey);
            var key := subjectKey(inputs[i].subject);
            key in st.anchors && Connected(st.links, st.anchors[key], inputs[i].uid)
    decreases n
  {
    var before, st := Subjects(inputs, n - 1, normalize, subjectKey), Subjects(inputs, n, normalize, subjectKey);
    var key, u := subjectKey(inputs[i].subject), inputs[i].uid;
    if i == n - 1 {
      LaterUntouched(inputs, i, i, normalize, subjectKey);
      if key !in before.anchors {
        ConnectedRefl(st.links, u);
      } else if !Connected(before.links, before.anchors[key], u) {
        ConnectedLink(st.links, before.anchors[key], u);
      }
    } else {
      AnchorConnected(inputs, n - 1, i, normalize, subjectKey);
      ConnectedMono(before.links, st.links, before.anchors[key], u);
      assert st.anchors[key] == before.anchors[key];
    }
  }

  /** All messages with one nonempty subject key that pass 1 left alone share a thread. */
  lemma SameSubject(inputs: seq<ThreadInput>, i: nat, j: nat, normalize: Normalizer, subjectKey: Normalizer)
    requires DistinctUids(inputs) && i < |inputs| && j < |inputs|
    requires Unlinked(inputs, i, normalize) && Unlinked(inputs, j, normalize)
    requires subjectKey(inputs[i].subject) == subjectKey(inputs[j].subject) != ""
    ensures Connected(GroupLinks(inputs, normalize, subjectKey), inputs[i].uid, inputs[j].uid)
  {
    AnchorConnected(inputs, |inputs|, i, normalize, subjectKey);
    AnchorConnected(inputs, |inputs|, j, normalize, subjectKey);
    var e := GroupLinks(inputs, normalize, subjectKey);
    var anchor := Subjects(inputs, |inputs|, normalize, subjectKey).anchors[subjectKey(inputs[i].subject)];
    ConnectedSym(e, anchor, inputs[i].uid);
    ConnectedTrans(e, inputs[i].uid, anchor, inputs[j].uid);
  }

  // ----- soundness -----

  ghost predicate Related(inputs: seq<ThreadInput>, normalize: Normalizer, subjectKey: Normalizer, i: nat, j: nat)
    requires i < |inputs| && j < |inputs|
  {
    Mentions(inputs, normalize, j, i) || (subjectKey(inputs[i].subject) == subjectKey(inputs[j].subject) != "")
  }

  /** The graph of messages that name another one, and of equal nonempty subject keys. */
  ghost function Relations(inputs: seq<ThreadInput>, normalize: Normalizer, subjectKey: Normalizer): Links {
    set i, j | 0 <= i < |inputs| && 0 <= j < |inputs| &&
      Related(inputs, normalize, subjectKey, i, j) :: (inputs[i].uid, inputs[j].uid)
  }

  lemma {:induction false} FirstNewRefers(e: Links, ids: map<string, nat>, normalize: Normalizer, m: ThreadInput,
      cands: seq<string>)
    ensures match FirstNew(e, ids, normalize, m, cands)
            case None => true
            case Some(p) => exists c :: c in cands && Resolve(ids, normalize, m, c) == Some(p)
  {
    if cands != [] {
      FirstNewRefers(e, ids, normalize, m, cands[1..]);
      assert cands[0] in cands && forall c :: c in cands[1..] ==> c in cands;
    }
  }

  /** What pass 1 links a message to, it mentions. */
  lemma LinkedIsMentioned(inputs: seq<ThreadInput>, normalize: Normalizer, i: nat, e: Links, p: nat)
      returns (k: nat)
    requires i < |inputs| && FirstNew(e, ById(inputs), normalize, inputs[i], Candidates(inputs[i])) == Some(p)
    ensures k < |inputs| && inputs[k].uid == p && Mentions(inputs, normalize, i, k)
  {
    var m := inputs[i];
    FirstNewRefers(e, ById(inputs), normalize, m, Candidates(m));
    var ref :| ref in Candidates(m) && Resolve(ById(inputs), normalize, m, ref) == Some(p);
    BackwardsMembers(m.references);
    ResolvesToNamed(inputs, normalize, i, ref);
    k :| Names(inputs, normalize, i, ref, k);
  }

  /** The pairs of messages of which the second names the first. */
  ghost function MentionedPairs(inputs: seq<ThreadInput>, normalize: Normalizer): Links {
    set i, j | 0 <= i < |inputs| && 0 <= j < |inputs| && Mentions(inputs, normalize, j, i) ::
      (inputs[i].uid, inputs[j].uid)
  }

  lemma {:induction false} ReferenceLinksMentioned(inputs: seq<ThreadInput>, n: nat, normalize: Normalizer)
    requires n <= |inputs|
    ensures References(inputs, n, normalize).links <= MentionedPairs(inputs, normalize)
    decreases n
  {
    if n > 0 {
      ReferenceLinksMentioned(inputs, n - 1, normalize);
      var m, e := inputs[n - 1], References(inputs, n - 1, normalize).links;
      match FirstNew(e, ById(inputs), normalize, m, Candidates(m))
      case None =>
      case Some(p) => var k := LinkedIsMentioned(inputs, normalize, n - 1, e, p);
    }
  }

  predicate IsAnchor(inputs: seq<ThreadInput>, subjectKey: Normalizer, key: string, u: nat) {
    key != "" && exists k :: 0 <= k < |inputs| && inputs[k].uid == u && subjectKey(inputs[k].subject) == key
  }

  predicate AreAnchors(inputs: seq<ThreadInput>, subjectKey: Normalizer, anchors: map<string, nat>) {
    forall key :: key in anchors ==> IsAnchor(inputs, subjectKey, key, anchors[key])
  }

  /** Every anchor is a message with that subject key. */
  lemma {:induction false} AnchorsHaveSubject(inputs: seq<ThreadInput>, n: nat, normalize: Normalizer,
      subjectKey: Normalizer)
    requires n <= |inputs|
    ensures AreAnchors(inputs, subjectKey, Subjects(inputs, n, normalize, subjectKey).anchors)
    decreases n
  {
    if n == 0 {
      NoAnchorsYet(inputs, |inputs|, normalize);
    } else {
      AnchorsHaveSubject(inputs, n - 1, normalize, subjectKey);
      var before, st := Subjects(inputs, n - 1, normalize, subjectKey), Subjects(inputs, n, normalize, subjectKey);
      forall key | key in st.anchors ensures IsAnchor(inputs, subjectKey, key, st.anchors[key]) {
        if key !in before.anchors {
          assert inputs[n - 1].uid == st.anchors[key] && subjectKey(inputs[n - 1].subject) == key;
        }
      }
    }
  }

  lemma {:induction false} NoAnchorsYet(inputs: seq<ThreadInput>, n: nat, normalize: Normalizer)
    requires n <= |inputs|
    ensures References(inputs, n, normalize).anchors == map[]
    decreases n
  {
    if n > 0 { NoAnchorsYet(inputs, n - 1, normalize); }
  }

  lemma MentionedAreRelated(inputs: seq<ThreadInput>, normalize: Normalizer, subjectKey: Normalizer)
    ensures MentionedPairs(inputs, normalize) <= Relations(inputs, normalize, subjectKey)
  {
    forall i, j | 0 <= i < |inputs| && 0 <= j < |inputs| && Mentions(inputs, normalize, j, i)
      ensures (inputs[i].uid, inputs[j].uid) in Relations(inputs, normalize, subjectKey)
    {
      assert Related(inputs, normalize, subjectKey, i, j);
    }
  }

  lemma {:induction false} SubjectLinksRelated(inputs: seq<ThreadInput>, n: nat, normalize: Normalizer,
      subjectKey: Normalizer)
    requires n <= |inputs|
    ensures Subjects(inputs, n, normalize, subjectKey).links <= Relations(inputs, normalize, subjectKey)
    decreases n
  {
    if n == 0 {
      ReferenceLinksMentioned(inputs, |inputs|, normalize);
      MentionedAreRelated(inputs, normalize, subjectKey);
    } else {
      SubjectLinksRelated(inputs, n - 1, normalize, subjectKey);
      AnchorsHaveSubject(inputs, n - 1, normalize, subjectKey);
      var before, key := Subjects(inputs, n - 1, normalize, subjectKey), subjectKey(inputs[n - 1].subject);
      if key in before.anchors {
        assert IsAnchor(inputs, subjectKey, key, before.anchors[key]);
        var k :| 0 <= k < |inputs| && inputs[k].uid == before.anchors[key] && subjectKey(inputs[k].subject) == key;
        assert Related(inputs, normalize, subjectKey, k, n - 1);
      }
    }
  }

  /** No thread spans two components of the graph of references and subjects. */
  lemma ThreadsAreRelated(inputs: seq<ThreadInput>, normalize: Normalizer, subjectKey: Normalizer, a: nat, b: nat)
    requires Connected(GroupLinks(inputs, normalize, subjectKey), a, b)
    ensures Connected(Relations(inputs, normalize, subjectKey), a, b)
  {
    SubjectLinksRelated(inputs, |inputs|, normalize, subjectKey);
    ConnectedMono(GroupLinks(inputs, normalize, subjectKey), Relations(inputs, normalize, subjectKey), a, b);
  }

  /** A pair that a reference names, or two messages left alone by references that share a subject. */
  ghost predicate StrictlyRelated(inputs: seq<ThreadInput>, normalize: Normalizer, subjectKey: Normalizer, i: nat,
      j: nat)
    requires i < |inputs| && j < |inputs|
  {
    || Mentions(inputs, normalize, j, i)
    || (&& subjectKey(inputs[i].subject) == subjectKey(inputs[j].subject) != ""
        && Unlinked(inputs, i, normalize) && Unlinked(inputs, j, normalize))
  }

  ghost function StrictRelations(inputs: seq<ThreadInput>, normalize: Normalizer, subjectKey: Normalizer): Links {
    set i, j | 0 <= i < |inputs| && 0 <= j < |inputs| &&
      StrictlyRelated(inputs, normalize, subjectKey, i, j) :: (inputs[i].uid, inputs[j].uid)
  }

  ghost predicate IsLoneAnchor(inputs: seq<ThreadInput>, normalize: Normalizer, subjectKey: Normalizer, key: string,
      u: nat) {
    exists k :: 0 <= k < |inputs| && inputs[k].uid == u && subjectKey(inputs[k].subject) == key
      && Unlinked(inputs, k, normalize)
  }

  /** One step changes the anchors only for a message left alone by references, and then its subject's only. */
  lemma NewAnchorIsLone(inputs: seq<ThreadInput>, n: nat, normalize: Normalizer, subjectKey: Normalizer)
    requires DistinctUids(inputs) && n < |inputs|
    ensures var before := Subjects(inputs, n, normalize, subjectKey);
            var st := Subjects(inputs, n + 1, normalize, subjectKey);
            forall key :: key in st.anchors ==>
              || (key in before.anchors && st.anchors[key] == before.anchors[key])
              || IsLoneAnchor(inputs, normalize, subjectKey, key, st.anchors[key])
  {
    LaterUntouched(inputs, n, n, normalize, subjectKey);
    var key := subjectKey(inputs[n].subject);
    if Unlinked(inputs, n, normalize) {
      assert IsLoneAnchor(inputs, normalize, subjectKey, key, inputs[n].uid);
    }
  }

  /** Every anchor was left alone by references. */
  lemma {:induction false} AnchorsAreLone(inputs: seq<ThreadInput>, n: nat, normalize: Normalizer,
      subjectKey: Normalizer)
    requires DistinctUids(inputs) && n <= |inputs|
    ensures var anchors := Subjects(inputs, n, normalize, subjectKey).anchors;
            forall key :: key in anchors ==> IsLoneAnchor(inputs, normalize, subjectKey, key, anchors[key])
    decreases n
  {
    if n == 0 {
      NoAnchorsYet(inputs, |inputs|, normalize);
    } else {
      AnchorsAreLone(inputs, n - 1, normalize, subjectKey);
      NewAnchorIsLone(inputs, n - 1, normalize, subjectKey);
    }
  }

  lemma AnchorPair(inputs: seq<ThreadInput>, n: nat, normalize: Normalizer, subjectKey: Normalizer, u: nat)
    requires n < |inputs| && Unlinked(inputs, n, normalize) && subjectKey(inputs[n].subject) != ""
    requires IsLoneAnchor(inputs, normalize, subjectKey, subjectKey(inputs[n].subject), u)
    ensures (u, inputs[n].uid) in StrictRelations(inputs, normalize, subjectKey)
  {
    var k :| 0 <= k < |inputs| && inputs[k].uid == u && subjectKey(inputs[k].subject) == subjectKey(inputs[n].subject)
      && Unlinked(inputs, k, normalize);
    assert StrictlyRelated(inputs, normalize, subjectKey, k, n);
  }

  lemma {:induction false} SubjectLinksStrict(inputs: seq<ThreadInput>, n: nat, normalize: Normalizer,
      subjectKey: Normalizer)
    requires DistinctUids(inputs) && n <= |inputs|
    ensures Subjects(inputs, n, normalize, subjectKey).links <=
            References(inputs, |inputs|, normalize).links + StrictRelations(inputs, normalize, subjectKey)
    decreases n
  {
    if n > 0 {
      SubjectLinksStrict(inputs, n - 1, normalize, subjectKey);
      AnchorsAreLone(inputs, n - 1, normalize, subjectKey);
      LaterUntouched(inputs, n - 1, n - 1, normalize, subjectKey);
      var before, key := Subjects(inputs, n - 1, normalize, subjectKey), subjectKey(inputs[n - 1].subject);
      if key in before.anchors && !Settled(before, inputs[n - 1]) && key != "" {
        AnchorPair(inputs, n - 1, normalize, subjectKey, before.anchors[key]);
      }
    }
  }

  lemma MentionedAreStrict(inputs: seq<ThreadInput>, normalize: Normalizer, subjectKey: Normalizer)
    ensures MentionedPairs(inputs, normalize) <= StrictRelations(inputs, normalize, subjectKey)
  {
    forall i, j | 0 <= i < |inputs| && 0 <= j < |inputs| && Mentions(inputs, normalize, j, i)
      ensures (inputs[i].uid, inputs[j].uid) in StrictRelations(inputs, normalize, subjectKey)
    {
      assert StrictlyRelated(inputs, normalize, subjectKey, i, j);
    }
  }

  /** A message that a reference linked is never joined to others for its subject. */
  lemma SubjectsJoinOnlyUnlinked(inputs: seq<ThreadInput>, normalize: Normalizer, subjectKey: Normalizer, a: nat,
      b: nat)
    requires DistinctUids(inputs) && Connected(GroupLinks(inputs, normalize, subjectKey), a, b)
    ensures Connected(StrictRelations(inputs, normalize, subjectKey), a, b)
  {
    SubjectLinksStrict(inputs, |inputs|, normalize, subjectKey);
    ReferenceLinksMentioned(inputs, |inputs|, normalize);
    MentionedAreStrict(inputs, normalize, subjectKey);
    ConnectedMono(GroupLinks(inputs, normalize, subjectKey), StrictRelations(inputs, normalize, subjectKey), a, b);
  }
}
