/**
 The cached thread index against a mailbox that delivers, expunges, reflags and renumbers
 (section 2.3.1.1 of RFC 3501), as values: one refresh, and every run.
 */
module ThreadCache {
  import opened Wrappers
  import opened Sets

  /** A message as fetched: its envelope never changes under one UID, its flags may. */
  datatype Message = Message(uid: nat, envelope: string, unread: bool, starred: bool)

  datatype Mailbox = Mailbox(validity: nat, uidNext: nat, messages: map<nat, Message>)

  /** A cached index: what the mailbox looked like when it was last brought up to date, and the nodes by UID. */
  datatype Index = Index(validity: nat, uidNext: nat, count: nat, builtAt: int, nodes: map<nat, Message>)

  /** What one FETCH delivers before it ends, and whether it ended without error. */
  datatype Reply = Reply(items: seq<Message>, ok: bool)

  const SECOND := 1_000_000_000
  const TTL := 60 * SECOND
  const MAX_MESSAGES := 20000

  predicate ValidMailbox(mb: Mailbox) {
    mb.uidNext > 0 && forall u :: u in mb.messages ==> 0 < u < mb.uidNext && mb.messages[u].uid == u
  }

  /** Merging fetched messages in order; a message without a UID is skipped, a known UID is overwritten. */
  function MergeAll(nodes: map<nat, Message>, items: seq<Message>): map<nat, Message> {
    if items == [] then nodes
    else
      var front, last := items[..|items| - 1], items[|items| - 1];
      var done := MergeAll(nodes, front);
      if last.uid == 0 then done else done[last.uid := last]
  }

  /** The server answers with messages it has, and a complete answer holds all from `start` on. */
  predicate Honest(mb: Mailbox, start: nat, r: Reply) {
    && (forall m :: m in r.items ==> m.uid in mb.messages && mb.messages[m.uid] == m)
    && (r.ok ==> forall u :: u in mb.messages && start <= u ==> mb.messages[u] in r.items)
  }

  datatype Reason = Build | Incremental | Reuse

  function Decide(entry: Option<Index>, mb: Mailbox, now: int): Reason {
    if entry.None? then Build
    else
      var idx := entry.value;
      if idx.validity != mb.validity then Build
      else if idx.count != |mb.messages| then Build
      else if mb.uidNext > idx.uidNext then Incremental
      else if now - idx.builtAt > TTL then Build
      else Reuse
  }

  /** Where an incremental fetch starts; an index that never got a node is fetched whole. */
  function FetchStart(idx: Index): nat { if idx.nodes == map[] then 0 else idx.uidNext }

  function Rebuilt(mb: Mailbox, now: int, r: Reply): Index {
    Index(mb.validity, mb.uidNext, |mb.messages|, now, MergeAll(map[], r.items))
  }

  datatype Outcome = Outcome(entry: Option<Index>, result: Option<Index>)

  /** `refreshThreadIndexLocked`: the new cache entry and the index returned, None for an error. */
  function Refresh(entry: Option<Index>, mb: Mailbox, now: int, first: Reply, second: Reply): Outcome {
    match Decide(entry, mb, now)
    case Build =>
      if first.ok then Outcome(Some(Rebuilt(mb, now, first)), Some(Rebuilt(mb, now, first))) else Outcome(entry, None)
    case Incremental =>
      var merged := entry.value.(nodes := MergeAll(entry.value.nodes, first.items));
      if first.ok then
        var idx := merged.(uidNext := mb.uidNext, count := |mb.messages|, builtAt := now);
        Outcome(Some(idx), Some(idx))
      else if second.ok then Outcome(Some(Rebuilt(mb, now, second)), Some(Rebuilt(mb, now, second)))
      else Outcome(Some(merged), None)
    case Reuse => Outcome(entry, entry)
  }

  /** The cached index is of this mailbox and the counts agree; only new messages need to be fetched. */
  predicate OnlyGrown(entry: Option<Index>, mb: Mailbox) {
    && entry.Some? && entry.value.validity == mb.validity && entry.value.count == |mb.messages|
    && entry.value.uidNext < mb.uidNext
  }

  /** Both answers of a refresh are honest for the ranges it asks for. */
  predicate HonestReplies(entry: Option<Index>, mb: Mailbox, now: int, first: Reply, second: Reply) {
    Honest(mb, if OnlyGrown(entry, mb) then FetchStart(entry.value) else 0, first) && Honest(mb, 0, second)
  }

  // ----- merging -----

  lemma {:induction false} MergedNodes(mb: Mailbox, nodes: map<nat, Message>, items: seq<Message>)
    requires ValidMailbox(mb) && forall m :: m in items ==> m.uid in mb.messages && mb.messages[m.uid] == m
    ensures forall u :: u in MergeAll(nodes, items) <==> u in nodes || (u in mb.messages && mb.messages[u] in items)
    ensures forall u :: u in MergeAll(nodes, items) ==>
              MergeAll(nodes, items)[u] == if u in mb.messages && mb.messages[u] in items then mb.messages[u]
                else nodes[u]
  {
    if items != [] {
      var front, last := items[..|items| - 1], items[|items| - 1];
      assert items == front + [last] && last in items;
      MergedNodes(mb, nodes, front);
      assert forall m :: m in items <==> m in front || m == last;
    }
  }

  // ----- the invariant -----

  /**
   What a cached index always satisfies: it belongs to the past, or it holds every live message below its `uidNext`,
   envelopes included.
   */
  predicate Sound(mb: Mailbox, idx: Index) {
    && idx.validity <= mb.validity
    && (idx.validity == mb.validity ==>
          && idx.uidNext <= mb.uidNext
          && (forall u :: u in idx.nodes ==> 0 < u < mb.uidNext)
          && (forall u :: u in mb.messages && u < idx.uidNext ==> u in idx.nodes)
          && (forall u :: u in mb.messages && u in idx.nodes ==> idx.nodes[u].envelope == mb.messages[u].envelope))
  }

  predicate SoundEntry(mb: Mailbox, entry: Option<Index>) { entry.Some? ==> Sound(mb, entry.value) }

  /** The index holds every live message with its envelope. */
  predicate Covers(idx: Index, mb: Mailbox) {
    forall u :: u in mb.messages ==> u in idx.nodes && idx.nodes[u].envelope == mb.messages[u].envelope
  }

  lemma RebuiltIsExact(mb: Mailbox, now: int, r: Reply)
    requires ValidMailbox(mb) && Honest(mb, 0, r) && r.ok
    ensures Rebuilt(mb, now, r).nodes == mb.messages && Sound(mb, Rebuilt(mb, now, r))
  {
    MergedNodes(mb, map[], r.items);
  }

  lemma MergeKeepsSound(mb: Mailbox, idx: Index, items: seq<Message>)
    requires ValidMailbox(mb) && Sound(mb, idx)
    requires forall m :: m in items ==> m.uid in mb.messages && mb.messages[m.uid] == m
    ensures Sound(mb, idx.(nodes := MergeAll(idx.nodes, items)))
  {
    MergedNodes(mb, idx.nodes, items);
  }

  lemma IncrementCovers(mb: Mailbox, idx: Index, r: Reply)
    requires ValidMailbox(mb) && Sound(mb, idx) && idx.validity == mb.validity
    requires Honest(mb, FetchStart(idx), r) && r.ok
    ensures Covers(idx.(nodes := MergeAll(idx.nodes, r.items)), mb)
  {
    MergedNodes(mb, idx.nodes, r.items);
  }

  /** A successful refresh returns the entry it stored, and that index covers the mailbox. */
  lemma RefreshCovers(entry: Option<Index>, mb: Mailbox, now: int, first: Reply, second: Reply)
    requires ValidMailbox(mb) && SoundEntry(mb, entry) && HonestReplies(entry, mb, now, first, second)
    ensures var o := Refresh(entry, mb, now, first, second);
            SoundEntry(mb, o.entry) &&
              (o.result.Some? ==>
                o.result == o.entry && o.result.value.validity == mb.validity && Covers(o.result.value, mb))
  {
    match Decide(entry, mb, now)
    case Build => if first.ok { RebuiltIsExact(mb, now, first); }
    case Incremental =>
      MergeKeepsSound(mb, entry.value, first.items);
      if first.ok { IncrementCovers(mb, entry.value, first); } else if second.ok { RebuiltIsExact(mb, now, second); }
    case Reuse =>
  }

  // ----- exactness -----

  /**
   When the cached index cannot be used: there is none, it is of another mailbox, the counts differ, it is older than
   a minute and nothing new came, or fetching what came failed.
   */
  predicate Unusable(entry: Option<Index>, mb: Mailbox, now: int, first: Reply) {
    || entry.None?
    || entry.value.validity != mb.validity
    || entry.value.count != |mb.messages|
    || (entry.value.uidNext >= mb.uidNext && now - entry.value.builtAt > 60_000_000_000)
    || (entry.value.uidNext < mb.uidNext && !first.ok)
  }

  /**
   Where the cached index cannot be used, a successful refresh returns exactly the mailbox, flags included; otherwise
   what the cached index holds with the new messages on top. What is returned was brought up to date at most a minute
   before, with the mailbox's count and next UID.
   */
  lemma RefreshReturns(entry: Option<Index>, mb: Mailbox, now: int, first: Reply, second: Reply)
    requires ValidMailbox(mb) && SoundEntry(mb, entry) && HonestReplies(entry, mb, now, first, second)
    requires Refresh(entry, mb, now, first, second).result.Some?
    ensures var idx := Refresh(entry, mb, now, first, second).result.value;
            && now - idx.builtAt <= 60_000_000_000
            && idx.validity == mb.validity && idx.count == |mb.messages| && idx.uidNext == mb.uidNext
            && (Unusable(entry, mb, now, first) ==> idx.nodes == mb.messages && idx.builtAt == now)
            && (!Unusable(entry, mb, now, first) && entry.value.uidNext == mb.uidNext ==> idx == entry.value)
            && (!Unusable(entry, mb, now, first) && entry.value.uidNext < mb.uidNext ==>
                  && idx.builtAt == now
                  && idx.nodes.Keys ==
                     entry.value.nodes.Keys + set u | u in mb.messages && mb.messages[u] in first.items)
  {
    RefreshCovers(entry, mb, now, first, second);
    if OnlyGrown(entry, mb) {
      MergedNodes(mb, entry.value.nodes, first.items);
      if !first.ok { RebuiltIsExact(mb, now, second); }
    } else if Decide(entry, mb, now) == Build {
      RebuiltIsExact(mb, now, first);
    }
  }

  /** The index that a successful refresh returns holds exactly the live UIDs if and only if the counts agree. */
  lemma ExactByCount(entry: Option<Index>, mb: Mailbox, now: int, first: Reply, second: Reply)
    requires ValidMailbox(mb) && SoundEntry(mb, entry) && HonestReplies(entry, mb, now, first, second)
    requires Refresh(entry, mb, now, first, second).result.Some?
    ensures var idx := Refresh(entry, mb, now, first, second).result.value;
            idx.nodes.Keys == mb.messages.Keys <==> |idx.nodes| == |mb.messages|
  {
    RefreshCovers(entry, mb, now, first, second);
    var idx := Refresh(entry, mb, now, first, second).result.value;
    assert |idx.nodes| == |idx.nodes.Keys| && |mb.messages| == |mb.messages.Keys|;
    if |idx.nodes| == |mb.messages| { SubsetOfEqualSize(mb.messages.Keys, idx.nodes.Keys); }
  }

  /** The same condition, known before the call: the index is rebuilt, or the cached one holds only live messages. */
  lemma ExactBefore(entry: Option<Index>, mb: Mailbox, now: int, first: Reply, second: Reply)
    requires ValidMailbox(mb) && SoundEntry(mb, entry) && HonestReplies(entry, mb, now, first, second)
    requires Refresh(entry, mb, now, first, second).result.Some?
    ensures Refresh(entry, mb, now, first, second).result.value.nodes.Keys == mb.messages.Keys
       <==> Unusable(entry, mb, now, first) || entry.value.nodes.Keys <= mb.messages.Keys
  {
    RefreshCovers(entry, mb, now, first, second);
    RefreshReturns(entry, mb, now, first, second);
  }

  // ----- runs -----

  datatype Event =
    | Deliver(envelope: string, unread: bool)
    | Expunge(uids: set<nat>)
    | SetFlags(uid: nat, unread: bool, starred: bool)
    | Renumber(mb: Mailbox)
    | Invalidate
    | List(now: int, first: Reply, second: Reply)

  datatype System = System(mb: Mailbox, cache: Option<Index>)

  /** What the server may do: new UIDs only grow, and renumbering takes a greater UIDVALIDITY. Replies are honest. */
  predicate Legal(s: System, e: Event) {
    match e
    case Renumber(mb) => ValidMailbox(mb) && mb.validity > s.mb.validity
    case List(now, first, second) => HonestReplies(s.cache, s.mb, now, first, second)
    case _ => true
  }

  /** The index a listing works on: none for an empty or a too large folder. */
  function Listed(s: System, now: int, first: Reply, second: Reply): Outcome {
    if |s.mb.messages| == 0 || |s.mb.messages| > MAX_MESSAGES then Outcome(s.cache, None)
    else Refresh(s.cache, s.mb, now, first, second)
  }

  function Step(s: System, e: Event): System {
    match e
    case Deliver(envelope, unread) =>
      var u := s.mb.uidNext;
      s.(mb := s.mb.(uidNext := u + 1, messages := s.mb.messages[u := Message(u, envelope, unread, false)]))
    case Expunge(uids) => s.(mb := s.mb.(messages := s.mb.messages - uids))
    case SetFlags(u, unread, starred) =>
      if u !in s.mb.messages then s
      else s.(mb := s.mb.(messages := s.mb.messages[u := s.mb.messages[u].(unread := unread, starred := starred)]))
    case Renumber(mb) => s.(mb := mb)
    case Invalidate => s.(cache := None)
    case List(now, first, second) => s.(cache := Listed(s, now, first, second).entry)
  }

  /** A folder is listed by its threads unless it is empty or holds over 20,000 messages, or a needed fetch failed. */
  lemma ListingFails(s: System, now: int, first: Reply, second: Reply)
    requires SoundEntry(s.mb, s.cache)
    ensures Listed(s, now, first, second).result == None <==>
            || s.mb.messages == map[] || |s.mb.messages| > 20_000
            || (Unusable(s.cache, s.mb, now, first) && !first.ok && (OnlyGrown(s.cache, s.mb) ==> !second.ok))
  {}

  predicate Inv(s: System) { ValidMailbox(s.mb) && SoundEntry(s.mb, s.cache) }

  lemma StepKeepsInv(s: System, e: Event)
    requires Inv(s) && Legal(s, e)
    ensures Inv(Step(s, e))
  {
    match e
    case List(now, first, second) => RefreshCovers(s.cache, s.mb, now, first, second);
    case _ =>
  }

  /** The system after a run of events, from a mailbox nothing is cached of. */
  function After(mb: Mailbox, events: seq<Event>): System {
    if events == [] then System(mb, None) else Step(After(mb, events[..|events| - 1]), events[|events| - 1])
  }

  predicate LegalRun(mb: Mailbox, events: seq<Event>) {
    if events == [] then ValidMailbox(mb)
    else LegalRun(mb, events[..|events| - 1]) && Legal(After(mb, events[..|events| - 1]), events[|events| - 1])
  }

  lemma {:induction false} RunKeepsInv(mb: Mailbox, events: seq<Event>)
    requires LegalRun(mb, events)
    ensures Inv(After(mb, events))
  {
    if events != [] {
      RunKeepsInv(mb, events[..|events| - 1]);
      StepKeepsInv(After(mb, events[..|events| - 1]), events[|events| - 1]);
    }
  }

  /**
   After every run, whatever fetches failed on the way: a cached index with the server's UIDVALIDITY has every live
   message below its `uidNext`, and the next listing that succeeds works on an index that covers the whole mailbox
   and is exact exactly when the counts agree.
   */
  lemma CacheComplete(mb: Mailbox, events: seq<Event>, now: int, first: Reply, second: Reply)
    requires LegalRun(mb, events)
    requires Legal(After(mb, events), List(now, first, second))
    ensures var s := After(mb, events);
            var o := Listed(s, now, first, second);
            && SoundEntry(s.mb, s.cache) && SoundEntry(s.mb, o.entry)
            && (o.result.Some? ==>
                  && Covers(o.result.value, s.mb)
                  && (o.result.value.nodes.Keys == s.mb.messages.Keys <==> |o.result.value.nodes| == |s.mb.messages|))
  {
    RunKeepsInv(mb, events);
    var s := After(mb, events);
    RefreshCovers(s.cache, s.mb, now, first, second);
    if Listed(s, now, first, second).result.Some? { ExactByCount(s.cache, s.mb, now, first, second); }
  }

  // ----- what a listing shows after expunges -----

  predicate OnlyExpunges(events: seq<Event>) { forall e :: e in events ==> e.Expunge? }

  /** Expunges leave the cache alone and only remove messages. */
  lemma {:induction false} ExpungesOnlyRemove(mb: Mailbox, before: seq<Event>, events: seq<Event>)
    requires OnlyExpunges(events)
    ensures After(mb, before + events).cache == After(mb, before).cache
    ensures var m, n := After(mb, before).mb, After(mb, before + events).mb;
            && n.validity == m.validity && n.uidNext == m.uidNext && n.messages.Keys <= m.messages.Keys
            && forall u :: u in n.messages ==> n.messages[u] == m.messages[u]
    decreases |events|
  {
    if events == [] {
      assert before + events == before;
    } else {
      var front := events[..|events| - 1];
      ExpungesOnlyRemove(mb, before, front);
      assert events[|events| - 1] in events;
      assert (before + events)[..|before + events| - 1] == before + front;
    }
  }

  lemma {:induction false} PrefixIsLegal(mb: Mailbox, a: seq<Event>, b: seq<Event>)
    requires LegalRun(mb, a + b)
    ensures LegalRun(mb, a)
    decreases |b|
  {
    if b == [] {
      assert a + b == a;
    } else {
      assert (a + b)[..|a + b| - 1] == a + b[..|b| - 1];
      PrefixIsLegal(mb, a, b[..|b| - 1]);
    }
  }

  /** A listing that succeeds leaves its own index in the cache, with the count of the mailbox. */
  lemma ListedIsCached(mb: Mailbox, before: seq<Event>, listing: Event)
    requires LegalRun(mb, before + [listing]) && listing.List?
    requires Listed(After(mb, before), listing.now, listing.first, listing.second).result.Some?
    ensures var s, t := After(mb, before), After(mb, before + [listing]);
            t.mb == s.mb && t.cache.Some? && t.cache.value.count == |s.mb.messages|
  {
    assert (before + [listing])[..|before|] == before;
    RunKeepsInv(mb, before);
    var s := After(mb, before);
    RefreshCovers(s.cache, s.mb, listing.now, listing.first, listing.second);
    RefreshReturns(s.cache, s.mb, listing.now, listing.first, listing.second);
  }

  /**
   In every run: when messages were expunged since the last successful listing, and nothing else happened, the next
   listing that succeeds shows exactly the mailbox, flags included.
   */
  lemma ExpungesShow(mb: Mailbox, before: seq<Event>, listing: Event, expunges: seq<Event>, next: Event)
    requires listing.List? && next.List? && OnlyExpunges(expunges)
    requires LegalRun(mb, before + [listing] + expunges + [next])
    requires Listed(After(mb, before), listing.now, listing.first, listing.second).result.Some?
    requires After(mb, before + [listing] + expunges).mb.messages != After(mb, before).mb.messages
    requires Listed(After(mb, before + [listing] + expunges), next.now, next.first, next.second).result.Some?
    ensures var s := After(mb, before + [listing] + expunges);
            Listed(s, next.now, next.first, next.second).result.value.nodes == s.mb.messages
  {
    var listed := before + [listing];
    var run := listed + expunges;
    assert (run + [next])[..|run|] == run;
    PrefixIsLegal(mb, listed, expunges);
    ListedIsCached(mb, before, listing);
    ExpungesOnlyRemove(mb, listed, expunges);
    RunKeepsInv(mb, run);
    var m, s := After(mb, listed).mb, After(mb, run);
    assert s.mb.messages.Keys == m.messages.Keys ==> s.mb.messages == m.messages;
    SubsetSize(s.mb.messages.Keys, m.messages.Keys);
    if |s.mb.messages.Keys| == |m.messages.Keys| { SubsetOfEqualSize(s.mb.messages.Keys, m.messages.Keys); }
    assert |s.mb.messages| == |s.mb.messages.Keys| && |m.messages| == |m.messages.Keys|;
    RefreshReturns(s.cache, s.mb, next.now, next.first, next.second);
  }

  /**
   The count test cannot see an expunge that is balanced by a delivery: the next refresh is incremental
   and the expunged message stays in the index it returns.
   */
  lemma ExpungedStays(a: Message, b: Message, c: Message, now: int)
    requires a.uid == 1 && b.uid == 2 && c.uid == 3
    ensures var before := Mailbox(1, 3, map[1 := a, 2 := b]);
            var after := Mailbox(1, 4, map[2 := b, 3 := c]);
            var idx := Rebuilt(before, now, Reply([a, b], true));
            var o := Refresh(Some(idx), after, now, Reply([c], true), Reply([], false));
            && HonestReplies(Some(idx), after, now, Reply([c], true), Reply([], false))
            && o.result.Some? && 1 in o.result.value.nodes && 1 !in after.messages
  {
    var before := Mailbox(1, 3, map[1 := a, 2 := b]);
    var after := Mailbox(1, 4, map[2 := b, 3 := c]);
    assert |before.messages| == 2 && |after.messages| == 2;
    var items := [a, b];
    assert items[..1] == [a] && [a][..0] == [];
    assert MergeAll(map[], [a]) == map[1 := a];
    assert MergeAll(map[], items) == map[1 := a, 2 := b];
    var idx := Rebuilt(before, now, Reply(items, true));
    assert [c][..0] == [];
    assert MergeAll(idx.nodes, [c]) == idx.nodes[3 := c];
    assert 1 in idx.nodes;
  }
}
