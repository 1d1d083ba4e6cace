/**
 * The fixed-window rate limiter. Times are nanoseconds since the zero time, at which a new limiter was last
 * swept. `Step` is one call on values; the class at the end keeps the table in place as the source does.
 */
module RateLimit {
  import opened Sets

  const MAX_KEYS := 10_000
  const MINUTE := 60_000_000_000
  const KEEP_FOR := 600_000_000_000

  /** A window that has not been seen for more than `KEEP_FOR` is swept; one of this length has then run out. */
  const LONGEST_WINDOW := KEEP_FOR + 1

  datatype Window = Window(started: int, lastSeen: int, count: nat)
  type Table = map<string, Window>

  datatype Limiter = Limiter(entries: Table, lastSweep: int)
  datatype Verdict = Verdict(allowed: bool, retryAfter: int)
  datatype Request = Request(key: string, maxRequests: int, window: int, now: int)
  datatype Outcome = Outcome(limiter: Limiter, verdict: Verdict)

  function KeyOf(scope: string, ip: string): string { scope + "\0" + ip }

  function Swept(t: Table, now: int): Table { map k | k in t && now - t[k].lastSeen <= KEEP_FOR :: t[k] }

  function AfterSweep(l: Limiter, now: int): Limiter {
    if now - l.lastSweep >= MINUTE then Limiter(Swept(l.entries, now), now) else l
  }

  /** The window that a request falls into, before it is counted. */
  function Current(t: Table, q: Request): Window {
    if q.key !in t || q.now - t[q.key].started >= q.window then Window(q.now, q.now, 0) else t[q.key]
  }

  function Counted(w: Window, now: int): Window { Window(w.started, now, w.count + 1) }

  function Judge(w: Window, q: Request): Verdict {
    if w.count > q.maxRequests then Verdict(false, w.started + q.window - q.now) else Verdict(true, 0)
  }

  predicate Limited(q: Request) { q.maxRequests > 0 && q.window > 0 }

  predicate Full(t: Table, key: string) { key !in t && |t| >= MAX_KEYS }

  function Step(l: Limiter, q: Request): Outcome {
    if !Limited(q) then Outcome(l, Verdict(true, 0))
    else
      var s := AfterSweep(l, q.now);
      if Full(s.entries, q.key) then Outcome(s, Verdict(false, MINUTE))
      else
        var w := Counted(Current(s.entries, q), q.now);
        Outcome(Limiter(s.entries[q.key := w], s.lastSweep), Judge(w, q))
  }

  // ----- runs -----

  function New(): Limiter { Limiter(map[], 0) }

  /** The limiter after a sequence of requests, and what it answered to each. */
  function After(qs: seq<Request>): Limiter
    decreases |qs|
  {
    if qs == [] then New() else Step(After(qs[..|qs| - 1]), qs[|qs| - 1]).limiter
  }

  function Answer(qs: seq<Request>): Verdict
    requires qs != []
  {
    Step(After(qs[..|qs| - 1]), qs[|qs| - 1]).verdict
  }

  /** Time does not go back. */
  predicate Ordered(qs: seq<Request>) { forall i, j :: 0 <= i < j < |qs| ==> qs[i].now <= qs[j].now }

  // ----- the table stays bounded -----

  lemma SweptBounded(t: Table, now: int)
    ensures |Swept(t, now)| <= |t|
  {
    SubsetSize(Swept(t, now).Keys, t.Keys);
  }

  lemma {:induction false} Bounded(qs: seq<Request>)
    ensures |After(qs).entries| <= 10_000
    decreases |qs|
  {
    if qs != [] {
      var l, q := After(qs[..|qs| - 1]), qs[|qs| - 1];
      Bounded(qs[..|qs| - 1]);
      SweptBounded(l.entries, q.now);
    }
  }

  // ----- sweeping cannot be noticed -----

  /** The reference: a table that is never swept and has no limit on its size. */
  function Unbounded(t: Table, q: Request): Table {
    if !Limited(q) then t else t[q.key := Counted(Current(t, q), q.now)]
  }

  function UnboundedVerdict(t: Table, q: Request): Verdict {
    if !Limited(q) then Verdict(true, 0) else Judge(Counted(Current(t, q), q.now), q)
  }

  function UnboundedAfter(qs: seq<Request>): Table
    decreases |qs|
  {
    if qs == [] then map[] else Unbounded(UnboundedAfter(qs[..|qs| - 1]), qs[|qs| - 1])
  }

  /** The limiter keeps some of the reference's windows as they are, and misses only long unseen ones. */
  ghost predicate Keeps(t: Table, all: Table, now: int) {
    && (forall k :: k in t ==> k in all && t[k] == all[k])
    && (forall k :: k in all ==>
      all[k].started <= all[k].lastSeen <= now && (k !in t ==> now - all[k].lastSeen > KEEP_FOR))
  }

  lemma KeepsLater(t: Table, all: Table, now: int, later: int)
    requires Keeps(t, all, now) && now <= later
    ensures Keeps(t, all, later) && Keeps(Swept(t, later), all, later)
  {}

  /** One request: same answer, and the tables stay related, unless a full table turned the request away. */
  lemma KeepsStep(l: Limiter, all: Table, q: Request)
    requires Keeps(l.entries, all, q.now) && q.window <= LONGEST_WINDOW
    requires Limited(q) ==> !Full(AfterSweep(l, q.now).entries, q.key)
    ensures Step(l, q).verdict == UnboundedVerdict(all, q)
    ensures Keeps(Step(l, q).limiter.entries, Unbounded(all, q), q.now)
  {
    KeepsLater(l.entries, all, q.now, q.now);
    assert Keeps(AfterSweep(l, q.now).entries, all, q.now);
    assert Limited(q) ==> Current(AfterSweep(l, q.now).entries, q) == Current(all, q);
  }

  /** The last request is a new client's, and the table is full. */
  predicate TurnedAway(qs: seq<Request>)
    requires qs != []
  {
    var q := qs[|qs| - 1];
    Limited(q) && Full(AfterSweep(After(qs[..|qs| - 1]), q.now).entries, q.key)
  }

  /** No request of a run was turned away by a full table. */
  predicate NeverFull(qs: seq<Request>)
    decreases |qs|
  {
    qs == [] || (!TurnedAway(qs) && NeverFull(qs[..|qs| - 1]))
  }

  /** Every request of a run was answered as the unbounded limiter answers it. */
  predicate AnswersAlike(qs: seq<Request>)
    decreases |qs|
  {
    || qs == []
    || (Answer(qs) == UnboundedVerdict(UnboundedAfter(qs[..|qs| - 1]), qs[|qs| - 1]) && AnswersAlike(qs[..|qs| - 1]))
  }

  ghost predicate ShortWindows(qs: seq<Request>) { forall q :: q in qs ==> q.window <= LONGEST_WINDOW }

  lemma {:induction false} KeepsRun(qs: seq<Request>)
    requires Ordered(qs) && ShortWindows(qs) && NeverFull(qs) && qs != []
    ensures Keeps(After(qs).entries, UnboundedAfter(qs), qs[|qs| - 1].now)
    decreases |qs|
  {
    var q := qs[|qs| - 1];
    KeepsBefore(qs);
    assert q in qs;
    KeepsStep(After(qs[..|qs| - 1]), UnboundedAfter(qs[..|qs| - 1]), q);
  }

  /** The tables are related when the last request comes. */
  lemma {:induction false} KeepsBefore(qs: seq<Request>)
    requires Ordered(qs) && ShortWindows(qs) && qs != [] && NeverFull(qs[..|qs| - 1])
    ensures Keeps(After(qs[..|qs| - 1]).entries, UnboundedAfter(qs[..|qs| - 1]), qs[|qs| - 1].now)
    decreases |qs|, 0
  {
    var front := qs[..|qs| - 1];
    if front != [] {
      assert forall x :: x in front ==> x in qs;
      KeepsRun(front);
      KeepsLater(After(front).entries, UnboundedAfter(front), front[|front| - 1].now, qs[|qs| - 1].now);
    }
  }

  /** The unbounded limiter would have let a client in that a full table turned away. */
  lemma TurnedAwayShows(l: Limiter, all: Table, q: Request)
    requires Keeps(l.entries, all, q.now) && q.window <= LONGEST_WINDOW && Limited(q)
    requires Full(AfterSweep(l, q.now).entries, q.key)
    ensures !Step(l, q).verdict.allowed && UnboundedVerdict(all, q).allowed
  {
    assert Keeps(AfterSweep(l, q.now).entries, all, q.now);
  }

  /**
   * In every run, however many clients it meets, the sweep goes unnoticed: every answer is that of the unbounded
   * limiter if and only if no request was turned away by a full table.
   */
  lemma {:induction false} SweepingInvisible(qs: seq<Request>)
    requires Ordered(qs) && ShortWindows(qs)
    ensures AnswersAlike(qs) <==> NeverFull(qs)
    decreases |qs|
  {
    if qs != [] {
      var front, q := qs[..|qs| - 1], qs[|qs| - 1];
      assert q in qs && forall x :: x in front ==> x in qs;
      SweepingInvisible(front);
      if NeverFull(front) {
        KeepsBefore(qs);
        if TurnedAway(qs) { TurnedAwayShows(After(front), UnboundedAfter(front), q); }
        else { KeepsStep(After(front), UnboundedAfter(front), q); }
      }
    }
  }

  function Keys(qs: seq<Request>): set<string> { set q | q in qs :: q.key }

  lemma {:induction false} EntriesAreSeen(qs: seq<Request>)
    ensures After(qs).entries.Keys <= Keys(qs)
    decreases |qs|
  {
    if qs != [] {
      EntriesAreSeen(qs[..|qs| - 1]);
      assert forall q :: q in qs[..|qs| - 1] ==> q in qs;
      assert qs[|qs| - 1] in qs;
    }
  }

  lemma RoomFor(l: Limiter, q: Request, keys: set<string>)
    requires l.entries.Keys <= keys && q.key in keys && |keys| <= MAX_KEYS
    ensures !Full(AfterSweep(l, q.now).entries, q.key)
  {
    var t := AfterSweep(l, q.now).entries;
    if q.key !in t { SubsetSize(t.Keys, keys - {q.key}); }
  }

  /** While at most `MAX_KEYS` clients have been seen, nobody is turned away. */
  lemma {:induction false} FewClientsFit(qs: seq<Request>)
    requires |Keys(qs)| <= MAX_KEYS
    ensures NeverFull(qs)
    decreases |qs|
  {
    if qs != [] {
      var front, q := qs[..|qs| - 1], qs[|qs| - 1];
      EntriesAreSeen(front);
      assert q in qs && forall x :: x in front ==> x in qs;
      assert Keys(front) <= Keys(qs) && q.key in Keys(qs);
      SubsetSize(Keys(front), Keys(qs));
      FewClientsFit(front);
      RoomFor(After(front), q, Keys(qs));
    }
  }

  // ----- how many requests get through -----

  predicate Passed(qs: seq<Request>, key: string)
    requires qs != []
  {
    qs[|qs| - 1].key == key && Answer(qs).allowed
  }

  /** Requests for a key that were let through at or after `lo`. */
  function Since(qs: seq<Request>, key: string, lo: int): nat
    decreases |qs|
  {
    if qs == [] then 0
    else Since(qs[..|qs| - 1], key, lo) + (if Passed(qs, key) && lo <= qs[|qs| - 1].now then 1 else 0)
  }

  /** Requests for a key that were let through at or after `lo` and before `hi`. */
  function Admitted(qs: seq<Request>, key: string, lo: int, hi: int): nat
    decreases |qs|
  {
    if qs == [] then 0
    else Admitted(qs[..|qs| - 1], key, lo, hi) + (if Passed(qs, key) && lo <= qs[|qs| - 1].now < hi then 1 else 0)
  }

  lemma {:induction false} AdmittedIsDifference(qs: seq<Request>, key: string, lo: int, hi: int)
    requires lo <= hi
    ensures Admitted(qs, key, lo, hi) == Since(qs, key, lo) - Since(qs, key, hi)
    decreases |qs|
  {
    if qs != [] { AdmittedIsDifference(qs[..|qs| - 1], key, lo, hi); }
  }

  lemma {:induction false} SinceFalls(qs: seq<Request>, key: string, lo: int, later: int)
    requires lo <= later
    ensures Since(qs, key, later) <= Since(qs, key, lo)
    decreases |qs|
  {
    if qs != [] { SinceFalls(qs[..|qs| - 1], key, lo, later); }
  }

  /** What one more request adds to the count. */
  lemma SinceStep(qs: seq<Request>, key: string, lo: int)
    requires qs != []
    ensures Since(qs, key, lo) ==
            Since(qs[..|qs| - 1], key, lo) + (if Passed(qs, key) && lo <= qs[|qs| - 1].now then 1 else 0)
  {}

  function Min(a: int, b: int): int { if a <= b then a else b }

  /**
   * What a window tells about the requests before: it counts those since it started, of which the first `max`
   * were let through, and fewer than `max` were let through in the window's length before it started.
   */
  ghost predicate Tells(w: Window, qs: seq<Request>, key: string, max: int, window: int) {
    && w.started <= w.lastSeen < w.started + window && w.count > 0
    && Since(qs, key, w.started) == Min(w.count, max)
    && Since(qs, key, w.started - window + 1) - Since(qs, key, w.started) < max
    && Since(qs, key, w.lastSeen + 1) == 0
    && Since(qs, key, w.started + 1) < Since(qs, key, w.started)
  }

  /** A key without a window has let nothing through for the last ten minutes. */
  ghost predicate TableTells(t: Table, qs: seq<Request>, key: string, max: int, window: int, now: int) {
    if key in t then t[key].lastSeen <= now && Tells(t[key], qs, key, max, window)
      else Since(qs, key, now - KEEP_FOR) == 0
  }

  lemma TellsLater(l: Limiter, qs: seq<Request>, key: string, max: int, window: int, end: int, now: int)
    requires TableTells(l.entries, qs, key, max, window, end) && end <= now
    ensures TableTells(AfterSweep(l, now).entries, qs, key, max, window, now)
  {
    var t := l.entries;
    if key !in t { SinceFalls(qs, key, end - KEEP_FOR, now - KEEP_FOR); }
    else if now - t[key].lastSeen > KEEP_FOR { SinceFalls(qs, key, t[key].lastSeen + 1, now - KEEP_FOR); }
  }

  /** A window that starts now: whatever was let through in the past is too little or too old. */
  lemma FreshTells(t: Table, qs: seq<Request>, q: Request)
    requires Limited(q) && q.window <= LONGEST_WINDOW && TableTells(t, qs, q.key, q.maxRequests, q.window, q.now)
    requires q.key !in t || q.now - t[q.key].started >= q.window
    ensures Since(qs, q.key, q.now) == 0 && Since(qs, q.key, q.now + 1) == 0
    ensures Since(qs, q.key, q.now - q.window + 1) < q.maxRequests
  {
    var from := if q.key in t then t[q.key].started + 1 else q.now - KEEP_FOR;
    SinceFalls(qs, q.key, from, q.now - q.window + 1);
    SinceFalls(qs, q.key, if q.key in t then t[q.key].lastSeen + 1 else from, q.now);
    SinceFalls(qs, q.key, q.now, q.now + 1);
  }

  /** Counting a request in the window it falls into. */
  lemma TellsCounted(w: Window, qs: seq<Request>, q: Request)
    requires qs != [] && q == qs[|qs| - 1] && Limited(q)
    requires var front := qs[..|qs| - 1];
             Tells(w, front, q.key, q.maxRequests, q.window) && w.lastSeen <= q.now < w.started + q.window
    requires Passed(qs, q.key) <==> w.count + 1 <= q.maxRequests
    ensures Tells(Counted(w, q.now), qs, q.key, q.maxRequests, q.window)
  {
    SinceFalls(qs[..|qs| - 1], q.key, w.lastSeen + 1, q.now + 1);
    SinceStep(qs, q.key, w.started);
    SinceStep(qs, q.key, w.started + 1);
    SinceStep(qs, q.key, w.started - q.window + 1);
    SinceStep(qs, q.key, q.now + 1);
  }

  /** Counting the first request of a window. */
  lemma TellsFirst(qs: seq<Request>, q: Request)
    requires qs != [] && q == qs[|qs| - 1] && Limited(q) && Passed(qs, q.key)
    requires Since(qs[..|qs| - 1], q.key, q.now) == 0 && Since(qs[..|qs| - 1], q.key, q.now + 1) == 0
    requires Since(qs[..|qs| - 1], q.key, q.now - q.window + 1) < q.maxRequests
    ensures Tells(Window(q.now, q.now, 1), qs, q.key, q.maxRequests, q.window)
  {
    SinceStep(qs, q.key, q.now);
    SinceStep(qs, q.key, q.now + 1);
    SinceStep(qs, q.key, q.now - q.window + 1);
  }

  /** What a request finds in the table decides its answer and the next window. */
  lemma OwnStep(qs: seq<Request>, q: Request)
    requires qs != [] && q == qs[|qs| - 1] && Limited(q)
    ensures var t := AfterSweep(After(qs[..|qs| - 1]), q.now).entries;
            if Full(t, q.key) then !Passed(qs, q.key) && After(qs).entries == t
            else var w := Counted(Current(t, q), q.now);
                 After(qs).entries == t[q.key := w] && (Passed(qs, q.key) <==> w.count <= q.maxRequests)
  {}

  /** A request for the key itself. */
  lemma TellsOwn(t: Table, qs: seq<Request>, q: Request)
    requires qs != [] && q == qs[|qs| - 1] && t == AfterSweep(After(qs[..|qs| - 1]), q.now).entries
    requires Limited(q) && q.window <= LONGEST_WINDOW
    requires TableTells(t, qs[..|qs| - 1], q.key, q.maxRequests, q.window, q.now)
    ensures TableTells(After(qs).entries, qs, q.key, q.maxRequests, q.window, q.now)
  {
    OwnStep(qs, q);
    if Full(t, q.key) {
      SinceStep(qs, q.key, q.now - KEEP_FOR);
    } else if q.key !in t || q.now - t[q.key].started >= q.window {
      FreshTells(t, qs[..|qs| - 1], q);
      TellsFirst(qs, q);
    } else {
      TellsCounted(t[q.key], qs, q);
    }
  }

  /** A request for another key, or one without a limit. */
  lemma {:induction false} SinceSame(qs: seq<Request>, key: string, lo: int)
    requires qs != [] && !Passed(qs, key)
    ensures Since(qs, key, lo) == Since(qs[..|qs| - 1], key, lo)
  {}

  ghost predicate SameLimit(qs: seq<Request>, key: string, max: int, window: int) {
    forall q :: q in qs && q.key == key ==> q.maxRequests == max && q.window == window
  }

  lemma {:induction false} RunTells(qs: seq<Request>, key: string, max: int, window: int)
    requires Ordered(qs) && SameLimit(qs, key, max, window) && max > 0 && 0 < window <= LONGEST_WINDOW && qs != []
    ensures TableTells(After(qs).entries, qs, key, max, window, qs[|qs| - 1].now)
    decreases |qs|
  {
    var front, q := qs[..|qs| - 1], qs[|qs| - 1];
    var l := After(front);
    if front != [] {
      assert forall x :: x in front ==> x in qs;
      RunTells(front, key, max, window);
      assert front[|front| - 1] == qs[|qs| - 2];
      TellsLater(l, front, key, max, window, qs[|qs| - 2].now, q.now);
    }
    assert TableTells(AfterSweep(l, q.now).entries, front, key, max, window, q.now);
    if q.key == key {
      assert q in qs;
      TellsOwn(AfterSweep(l, q.now).entries, qs, q);
    } else {
      TellsOther(qs, q, key, max, window);
    }
  }

  lemma TellsSame(w: Window, qs: seq<Request>, key: string, max: int, window: int)
    requires qs != [] && !Passed(qs, key) && Tells(w, qs[..|qs| - 1], key, max, window)
    ensures Tells(w, qs, key, max, window)
  {
    SinceSame(qs, key, w.started);
    SinceSame(qs, key, w.started + 1);
    SinceSame(qs, key, w.started - window + 1);
    SinceSame(qs, key, w.lastSeen + 1);
  }

  /** A request leaves every other key's window alone, if the sweep has not deleted it. */
  lemma OtherStep(qs: seq<Request>, q: Request, key: string)
    requires qs != [] && q == qs[|qs| - 1] && q.key != key
    ensures var t, next := After(qs[..|qs| - 1]), After(qs).entries;
            var kept := if Limited(q) then AfterSweep(t, q.now).entries else t.entries;
            (key in next <==> key in kept) && (key in next ==> next[key] == kept[key])
  {}

  lemma TellsOther(qs: seq<Request>, q: Request, key: string, max: int, window: int)
    requires qs != [] && q == qs[|qs| - 1] && q.key != key
    requires var front := qs[..|qs| - 1];
             TableTells(AfterSweep(After(front), q.now).entries, front, key, max, window, q.now)
             && TableTells(After(front).entries, front, key, max, window, q.now)
    ensures TableTells(After(qs).entries, qs, key, max, window, q.now)
  {
    OtherStep(qs, q, key);
    SinceSame(qs, key, q.now - KEEP_FOR);
    if key in After(qs).entries { TellsSame(After(qs).entries[key], qs, key, max, window); }
  }

  /** When the last request gets through, its window bounds what got through before it. */
  lemma BoundAtEnd(qs: seq<Request>, key: string, max: int, window: int, lo: int)
    requires Ordered(qs) && SameLimit(qs, key, max, window) && max > 0 && 0 < window <= LONGEST_WINDOW
    requires qs != [] && Passed(qs, key) && qs[|qs| - 1].now < lo + window
    ensures Since(qs, key, lo) <= 2 * max - 1
  {
    RunTells(qs, key, max, window);
    assert qs[|qs| - 1] in qs;
    OwnStep(qs, qs[|qs| - 1]);
    var s := After(qs).entries[key].started;
    SinceFalls(qs, key, if s <= lo then s else s - window + 1, lo);
  }

  /**
   * Over real time: in no interval of the window's length are more than 2 * max - 1 requests of a key let through,
   * whatever the other keys do and even when the table is full.
   */
  lemma {:induction false} RateBound(qs: seq<Request>, key: string, max: int, window: int, lo: int)
    requires Ordered(qs) && SameLimit(qs, key, max, window) && max > 0 && 0 < window <= LONGEST_WINDOW
    ensures Admitted(qs, key, lo, lo + window) <= 2 * max - 1
    decreases |qs|
  {
    if qs != [] {
      var front, q := qs[..|qs| - 1], qs[|qs| - 1];
      assert forall x :: x in front ==> x in qs;
      if Passed(qs, key) && lo <= q.now < lo + window {
        BoundAtEnd(qs, key, max, window, lo);
        AdmittedIsDifference(qs, key, lo, lo + window);
      } else {
        RateBound(front, key, max, window, lo);
      }
    }
  }

  /** Within one fixed window: exactly the first `max` requests since it started are let through. */
  lemma WindowBound(qs: seq<Request>, key: string, max: int, window: int)
    requires Ordered(qs) && SameLimit(qs, key, max, window) && max > 0 && 0 < window <= LONGEST_WINDOW && qs != []
    requires key in After(qs).entries
    ensures var w := After(qs).entries[key];
            Since(qs, key, w.started) == Min(w.count, max) && Since(qs, key, w.started + window) == 0
  {
    RunTells(qs, key, max, window);
    var w := After(qs).entries[key];
    SinceFalls(qs, key, w.lastSeen + 1, w.started + window);
  }

  /** One more request at the end of a run. */
  lemma AfterSnoc(qs: seq<Request>, q: Request)
    ensures After(qs + [q]) == Step(After(qs), q).limiter && Answer(qs + [q]) == Step(After(qs), q).verdict
  {
    assert (qs + [q])[..|qs|] == qs;
  }

  lemma SinceSnoc(qs: seq<Request>, q: Request, key: string, lo: int)
    ensures Since(qs + [q], key, lo)
         == Since(qs, key, lo) + (if q.key == key && Step(After(qs), q).verdict.allowed && lo <= q.now then 1 else 0)
  {
    assert (qs + [q])[..|qs|] == qs;
  }

  function Copies(q: Request, n: nat): seq<Request> { if n == 0 then [] else [q] + Copies(q, n - 1) }

  lemma {:induction false} CopiesAre(q: Request, n: nat)
    ensures |Copies(q, n)| == n && forall i :: 0 <= i < n ==> Copies(q, n)[i] == q
  {
    if n > 0 { CopiesAre(q, n - 1); }
  }

  /** Requests that come when the limiter is `l`: the limiter after them. */
  function StepAll(l: Limiter, xs: seq<Request>): Limiter
    decreases |xs|
  {
    if xs == [] then l else StepAll(Step(l, xs[0]).limiter, xs[1..])
  }

  /** How many of them, for a key and at or after `lo`, get through. */
  function PassAll(l: Limiter, xs: seq<Request>, key: string, lo: int): nat
    decreases |xs|
  {
    if xs == [] then 0
    else
      var first := if xs[0].key == key && Step(l, xs[0]).verdict.allowed && lo <= xs[0].now then 1 else 0;
      first + PassAll(Step(l, xs[0]).limiter, xs[1..], key, lo)
  }

  lemma {:induction false} AfterConcat(qs: seq<Request>, xs: seq<Request>, key: string, lo: int)
    ensures After(qs + xs) == StepAll(After(qs), xs)
    ensures Since(qs + xs, key, lo) == Since(qs, key, lo) + PassAll(After(qs), xs, key, lo)
    decreases |xs|
  {
    if xs == [] {
      assert qs + xs == qs;
    } else {
      AfterSnoc(qs, xs[0]);
      SinceSnoc(qs, xs[0], key, lo);
      AfterConcat(qs + [xs[0]], xs[1..], key, lo);
      assert qs + xs == (qs + [xs[0]]) + xs[1..];
    }
  }

  /** The limiter when the window of `q.key` has counted `c` requests, the last of them now. */
  function Counting(t: Table, sweep: int, q: Request, started: int, c: nat): Limiter {
    Limiter(t[q.key := Window(started, q.now, c)], sweep)
  }

  lemma CountNext(t: Table, sweep: int, q: Request, started: int, c: nat)
    requires Limited(q) && q.now - sweep < MINUTE && q.now - started < q.window && c + 1 <= q.maxRequests
    ensures Step(Counting(t, sweep, q, started, c), q) ==
            Outcome(Counting(t, sweep, q, started, c + 1), Verdict(true, 0))
  {
    assert t[q.key := Window(started, q.now, c)][q.key := Window(started, q.now, c + 1)] ==
      t[q.key := Window(started, q.now, c + 1)];
  }

  lemma CopiesStep(l: Limiter, q: Request, n: nat, next: Limiter, lo: int)
    requires n > 0 && Step(l, q) == Outcome(next, Verdict(true, 0))
    ensures StepAll(l, Copies(q, n)) == StepAll(next, Copies(q, n - 1))
    ensures PassAll(l, Copies(q, n), q.key, lo) ==
            (if lo <= q.now then 1 else 0) + PassAll(next, Copies(q, n - 1), q.key, lo)
  {
    assert Copies(q, n)[1..] == Copies(q, n - 1);
  }

  /** Requests of one client at one moment: while the window has room they all get through. */
  lemma {:induction false} Burst(t: Table, sweep: int, q: Request, started: int, c: nat, n: nat, lo: int)
    requires Limited(q) && q.now - sweep < MINUTE && q.now - started < q.window && c + n <= q.maxRequests
    ensures StepAll(Counting(t, sweep, q, started, c), Copies(q, n)) == Counting(t, sweep, q, started, c + n)
    ensures PassAll(Counting(t, sweep, q, started, c), Copies(q, n), q.key, lo) == if lo <= q.now then n else 0
    decreases n
  {
    if n > 0 {
      CountNext(t, sweep, q, started, c);
      CopiesStep(Counting(t, sweep, q, started, c), q, n, Counting(t, sweep, q, started, c + 1), lo);
      Burst(t, sweep, q, started, c + 1, n - 1, lo);
    }
  }

  /** The first of them decides the window. */
  lemma BurstFrom(l: Limiter, q: Request, n: nat, t: Table, sweep: int, started: int, c: nat, lo: int)
    requires Limited(q) && q.now - sweep < MINUTE && q.now - started < q.window && n > 0 && c + n <= q.maxRequests
    requires Step(l, q) == Outcome(Counting(t, sweep, q, started, c + 1), Verdict(true, 0))
    ensures StepAll(l, Copies(q, n)) == Counting(t, sweep, q, started, c + n)
    ensures PassAll(l, Copies(q, n), q.key, lo) == if lo <= q.now then n else 0
  {
    CopiesStep(l, q, n, Counting(t, sweep, q, started, c + 1), lo);
    Burst(t, sweep, q, started, c + 1, n - 1, lo);
  }

  ghost predicate WithinBound(qs: seq<Request>, key: string, max: int, window: int, lo: int) {
    Admitted(qs, key, lo, lo + window) <= 2 * max - 1
  }

  ghost predicate Regular(qs: seq<Request>, key: string, max: int, window: int) {
    Ordered(qs) && SameLimit(qs, key, max, window)
  }

  /** The window's first request, then the rest of its allowance at its last moment, then a whole new allowance. */
  function TightRun(key: string, max: int, window: int): seq<Request>
    requires max > 0
  {
    var q := Request(key, max, window, 0);
    [q] + Copies(q.(now := window - 1), max - 1) + Copies(q.(now := window), max)
  }

  lemma FirstRequest(q: Request)
    requires Limited(q) && q.now == 0
    ensures After([q]) == Limiter(map[q.key := Window(0, 0, 1)], 0)
    ensures forall lo :: Since([q], q.key, lo) == if lo <= 0 then 1 else 0
  {
    assert [q][..0] == [];
  }

  /** The rest of the allowance, at a later moment of the first window. */
  lemma LateRequests(q: Request, late: Request, lo: int)
    requires Limited(q) && q.now == 0 && late == q.(now := q.window - 1) && q.window <= LONGEST_WINDOW
    ensures var b := [q] + Copies(late, q.maxRequests - 1);
            && Since(b, q.key, lo) == (if lo <= 0 then 1 else 0) + (if lo <= late.now then q.maxRequests - 1 else 0)
            && After(b).entries == map[q.key := Window(0, if q.maxRequests > 1 then late.now else 0, q.maxRequests)]
  {
    FirstRequest(q);
    var n := q.maxRequests - 1;
    if n == 0 {
      assert [q] + Copies(late, 0) == [q];
    } else {
      var sweep := AfterSweep(After([q]), late.now).lastSweep;
      assert Swept(map[q.key := Window(0, 0, 1)], late.now) == map[q.key := Window(0, 0, 1)];
      assert map[q.key := Window(0, 0, 1)][q.key := Window(0, late.now, 2)] == map[q.key := Window(0, late.now, 2)];
      assert Step(After([q]), late) == Outcome(Counting(map[], sweep, late, 0, 2), Verdict(true, 0));
      BurstFrom(After([q]), late, n, map[], sweep, 0, 1, lo);
      AfterConcat([q], Copies(late, n), q.key, lo);
    }
  }

  /** A whole new allowance for a client whose window has run out or been swept, alone in the table. */
  lemma NewAllowance(qs: seq<Request>, q: Request, lo: int)
    requires Limited(q) && After(qs).entries.Keys <= {q.key}
    requires q.key in AfterSweep(After(qs), q.now).entries ==> q.now - After(qs).entries[q.key].started >= q.window
    ensures Since(qs + Copies(q, q.maxRequests), q.key, lo) ==
            Since(qs, q.key, lo) + (if lo <= q.now then q.maxRequests else 0)
    ensures After(qs + Copies(q, q.maxRequests)).entries == map[q.key := Window(q.now, q.now, q.maxRequests)]
    ensures q.now - After(qs).lastSweep >= MINUTE ==> After(qs + Copies(q, q.maxRequests)).lastSweep == q.now
  {
    var l := AfterSweep(After(qs), q.now);
    SubsetSize(l.entries.Keys, {q.key});
    assert l.entries[q.key := Window(q.now, q.now, 1)] == map[q.key := Window(q.now, q.now, 1)];
    assert Step(After(qs), q) == Outcome(Counting(map[], l.lastSweep, q, q.now, 1), Verdict(true, 0));
    BurstFrom(After(qs), q, q.maxRequests, map[], l.lastSweep, q.now, 0, lo);
    AfterConcat(qs, Copies(q, q.maxRequests), q.key, lo);
  }

  lemma TightIsRegular(key: string, max: int, window: int)
    requires max > 0 && window > 0
    ensures Regular(TightRun(key, max, window), key, max, window)
  {
    var q := Request(key, max, window, 0);
    CopiesAre(q.(now := window - 1), max - 1);
    CopiesAre(q.(now := window), max);
  }

  /** The bound is reached for every limit and every window that lasts more than one instant. */
  lemma BoundIsTight(key: string, max: int, window: int)
    requires max > 0 && 1 < window <= LONGEST_WINDOW
    ensures Regular(TightRun(key, max, window), key, max, window)
    ensures Admitted(TightRun(key, max, window), key, window - 1, 2 * window - 1) == 2 * max - 1
  {
    var q := Request(key, max, window, 0);
    var lo, hi := window - 1, 2 * window - 1;
    var b := [q] + Copies(q.(now := window - 1), max - 1);
    TightIsRegular(key, max, window);
    LateRequests(q, q.(now := window - 1), lo);
    LateRequests(q, q.(now := window - 1), hi);
    NewAllowance(b, q.(now := window), lo);
    NewAllowance(b, q.(now := window), hi);
    AdmittedIsDifference(TightRun(key, max, window), key, lo, hi);
  }

  /** A whole allowance, and another as soon as the sweep may have forgotten the window. */
  function SweptRun(key: string, max: int, window: int): seq<Request>
    requires max > 0
  {
    var q := Request(key, max, window, MINUTE);
    Copies(q, max) + Copies(q.(now := MINUTE + LONGEST_WINDOW), max)
  }

  lemma SweptIsRegular(key: string, max: int, window: int)
    requires max > 0
    ensures Regular(SweptRun(key, max, window), key, max, window)
  {
    var q := Request(key, max, window, MINUTE);
    CopiesAre(q, max);
    CopiesAre(q.(now := MINUTE + LONGEST_WINDOW), max);
  }

  lemma SweptSince(key: string, max: int, window: int, lo: int)
    requires max > 0 && window > 0
    ensures Since(SweptRun(key, max, window), key, lo)
         == (if lo <= MINUTE then max else 0) + (if lo <= MINUTE + LONGEST_WINDOW then max else 0)
  {
    var q := Request(key, max, window, MINUTE);
    NewAllowance([], q, lo);
    assert [] + Copies(q, max) == Copies(q, max);
    NewAllowance(Copies(q, max), q.(now := MINUTE + LONGEST_WINDOW), lo);
  }

  lemma SweptRunExceeds(key: string, max: int, window: int)
    requires max > 0 && window > LONGEST_WINDOW
    ensures Regular(SweptRun(key, max, window), key, max, window)
    ensures Admitted(SweptRun(key, max, window), key, MINUTE, MINUTE + window) == 2 * max
  {
    SweptIsRegular(key, max, window);
    SweptSince(key, max, window, MINUTE);
    SweptSince(key, max, window, MINUTE + window);
    AdmittedIsDifference(SweptRun(key, max, window), key, MINUTE, MINUTE + window);
  }

  /** The bound holds for a limit, in all its runs, if and only if the sweep does not outlast its window. */
  lemma BoundHoldsExactly(key: string, max: int, window: int)
    requires max > 0 && window > 0
    ensures (forall qs, lo :: Regular(qs, key, max, window) ==> WithinBound(qs, key, max, window, lo))
            <==> window <= 600_000_000_001
  {
    if window <= LONGEST_WINDOW {
      forall qs, lo | Regular(qs, key, max, window) ensures WithinBound(qs, key, max, window, lo) {
        RateBound(qs, key, max, window, lo);
      }
    } else {
      SweptRunExceeds(key, max, window);
      assert !WithinBound(SweptRun(key, max, window), key, max, window, MINUTE);
    }
  }

  // ----- when to try again -----

  lemma {:induction false} EntriesArePast(qs: seq<Request>, key: string, now: int)
    requires Ordered(qs) && (qs != [] ==> qs[|qs| - 1].now <= now)
    ensures key in After(qs).entries ==> After(qs).entries[key].started <= now
    decreases |qs|
  {
    if qs != [] { EntriesArePast(qs[..|qs| - 1], key, qs[|qs| - 1].now); }
  }

  /** The client's window is as it was left, or was swept since. */
  ghost predicate Waits(l: Limiter, key: string, w: Window, now: int) {
    if key in l.entries then l.entries[key] == w else now - w.lastSeen > KEEP_FOR
  }

  lemma OtherWaits(l: Limiter, q: Request, key: string, w: Window, start: int)
    requires Waits(l, key, w, start) && start <= q.now && (q.key != key || !Limited(q))
    ensures Waits(Step(l, q).limiter, key, w, q.now)
  {}

  ghost predicate FromOthers(others: seq<Request>, key: string, start: int, now: int) {
    forall q :: q in others ==> (q.key != key || !Limited(q)) && start <= q.now <= now
  }

  /** Other clients' requests, and requests without a limit, leave it alone. */
  lemma {:induction false} OthersWait(qs: seq<Request>, others: seq<Request>, key: string, w: Window, start: int,
      now: int)
    requires Ordered(others) && FromOthers(others, key, start, now) && start <= now && Waits(After(qs), key, w, start)
    ensures Waits(After(qs + others), key, w, now)
    decreases |others|
  {
    if others == [] {
      assert qs + others == qs;
    } else {
      var front, q := others[..|others| - 1], others[|others| - 1];
      assert q in others;
      forall x | x in front ensures x in others && x.now <= q.now {
        var i :| 0 <= i < |front| && front[i] == x;
        assert others[i] == x;
      }
      assert FromOthers(front, key, start, q.now);
      OthersWait(qs, front, key, w, start, q.now);
      OtherWaits(After(qs + front), q, key, w, q.now);
      AfterSnoc(qs + front, q);
      assert qs + others == (qs + front) + [q];
    }
  }

  /**
   * In every run: a denial by count names the instant a fresh window opens. It lies within the window, and whatever
   * others ask in between, the client's next request, if it is not turned away by a full table, is let through
   * exactly from that instant on.
   */
  lemma RetryAfterExact(qs: seq<Request>, q: Request, others: seq<Request>, again: Request)
    requires Ordered(qs + [q]) && Ordered(others) && Limited(q) && q.window <= LONGEST_WINDOW
    requires !Answer(qs + [q]).allowed && q.key in After(qs + [q]).entries
    requires FromOthers(others, q.key, q.now, again.now)
    requires again == q.(now := again.now) && q.now <= again.now && !TurnedAway((qs + [q] + others) + [again])
    ensures var retry := Answer(qs + [q]).retryAfter;
            && 0 < retry <= q.window
            && (Answer((qs + [q] + others) + [again]).allowed <==> again.now >= q.now + retry)
  {
    AfterSnoc(qs, q);
    assert Ordered(qs) by { assert forall i :: 0 <= i < |qs| ==> (qs + [q])[i] == qs[i]; }
    assert qs != [] ==> (qs + [q])[|qs| - 1].now <= (qs + [q])[|qs|].now;
    EntriesArePast(qs, q.key, q.now);
    var w := After(qs + [q]).entries[q.key];
    OthersWait(qs + [q], others, q.key, w, q.now, again.now);
    AfterSnoc(qs + [q] + others, again);
    assert ((qs + [q] + others) + [again])[..|qs + [q] + others|] == qs + [q] + others;
    RetryStep(After(qs), q, After(qs + [q] + others), again);
  }

  /** Two requests of one client, with its window waiting in between. */
  lemma RetryStep(l: Limiter, q: Request, later: Limiter, again: Request)
    requires Limited(q) && q.window <= LONGEST_WINDOW && again == q.(now := again.now) && q.now <= again.now
    requires q.key in l.entries ==> l.entries[q.key].started <= q.now
    requires var o := Step(l, q);
             !o.verdict.allowed && q.key in o.limiter.entries
             && Waits(later, q.key, o.limiter.entries[q.key], again.now)
    requires !Full(AfterSweep(later, again.now).entries, q.key)
    ensures 0 < Step(l, q).verdict.retryAfter <= q.window
    ensures Step(later, again).verdict.allowed <==> again.now >= q.now + Step(l, q).verdict.retryAfter
  {}

  /**
   The clients that a request finds in the table: all, within a minute of the last sweep; after that, those seen in the
   last ten minutes.
   */
  function Remembered(l: Limiter, now: int): set<string> {
    set k | k in l.entries &&
      (now - l.lastSweep < 60_000_000_000 || now - l.entries[k].lastSeen <= 600_000_000_000)
  }

  /**
   The other denial is for a new client, exactly while 10,000 others are remembered; it is told to come back in a minute
   and leaves no trace.
   */
  lemma DeniedWhenFull(l: Limiter, q: Request)
    requires Limited(q) && q.key !in Remembered(l, q.now)
    ensures !Step(l, q).verdict.allowed <==> |Remembered(l, q.now)| >= 10_000
    ensures !Step(l, q).verdict.allowed ==>
              Step(l, q).verdict.retryAfter == 60_000_000_000 && q.key !in Step(l, q).limiter.entries
  {
    assert AfterSweep(l, q.now).entries.Keys == Remembered(l, q.now);
    assert |AfterSweep(l, q.now).entries| == |AfterSweep(l, q.now).entries.Keys|;
  }

  /** A limited request leaves the windows of all other remembered clients as they are, and forgets the others. */
  lemma OthersRemembered(l: Limiter, q: Request, key: string)
    requires Limited(q) && key != q.key
    ensures key in Step(l, q).limiter.entries <==> key in Remembered(l, q.now)
    ensures key in Remembered(l, q.now) ==> Step(l, q).limiter.entries[key] == l.entries[key]
    ensures Step(l, q).limiter.lastSweep == if q.now - l.lastSweep >= 60_000_000_000 then q.now else l.lastSweep
  {}

  /** Each scope has its own counters. */
  lemma ScopesApart(scope: string, ip: string, scope2: string, ip2: string)
    requires '\0' !in scope && '\0' !in scope2
    ensures KeyOf(scope, ip) == KeyOf(scope2, ip2) <==> scope == scope2 && ip == ip2
  {
    var a, b := KeyOf(scope, ip), KeyOf(scope2, ip2);
    if a == b {
      assert a[|scope|] == '\0' && b[|scope2|] == '\0';
      assert |scope| >= |scope2|;
      assert |scope| <= |scope2|;
      assert scope == a[..|scope|] && scope2 == b[..|scope|];
      assert ip == a[|scope| + 1..] && ip2 == b[|scope| + 1..];
    }
  }

  // ----- the table in place -----

  class IPRateLimiter {
    var entries: Table
    var lastSweep: int

    function State(): Limiter
      reads this
    {
      Limiter(entries, lastSweep)
    }

    constructor ()
      ensures State() == New()
    {
      entries, lastSweep := map[], 0;
    }

    /** Deletes, in any order, the windows not seen for ten minutes. */
    method Sweep(now: int)
      modifies this`entries
      ensures entries == Swept(old(entries), now)
    {
      var todo := entries.Keys;
      while todo != {}
        invariant todo <= entries.Keys
        invariant forall k ::
                    k in entries <==> k in old(entries) && (k in todo || now - old(entries)[k].lastSeen <= KEEP_FOR)
        invariant forall k :: k in entries ==> entries[k] == old(entries)[k]
      {
        var k :| k in todo;
        todo := todo - {k};
        if now - entries[k].lastSeen > KEEP_FOR { entries := entries - {k}; }
      }
    }

    method Allow(scope: string, ip: string, maxRequests: int, window: int, now: int) returns (v: Verdict)
      modifies this
      ensures var o := Step(old(State()), Request(KeyOf(scope, ip), maxRequests, window, now));
              State() == o.limiter && v == o.verdict
    {
      if maxRequests <= 0 || window <= 0 { return Verdict(true, 0); }
      var key := scope + "\0" + ip;
      if now - lastSweep >= MINUTE {
        Sweep(now);
        lastSweep := now;
      }
      var entry;
      if key !in entries {
        if |entries| >= MAX_KEYS { return Verdict(false, MINUTE); }
        entry := Window(now, now, 0);
      } else {
        entry := entries[key];
        if now - entry.started >= window { entry := Window(now, now, 0); }
      }
      entry := entry.(lastSeen := now);
      entry := entry.(count := entry.count + 1);
      entries := entries[key := entry];
      if entry.count > maxRequests { return Verdict(false, entry.started + window - now); }
      return Verdict(true, 0);
    }
  }
}
