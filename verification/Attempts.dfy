/**
 * The sliding-window limiter for failed attempts. `Next` is one call on values; the class at the end keeps the
 * times in slices of arrays, which it compacts in place. Times and windows are nanoseconds.
 */
module Attempts {
  import opened Wrappers

  const HOUR := 3_600_000_000_000

  type Failures = map<string, seq<int>>

  datatype Op =
    | Ask(key: string, max: int, window: int, now: int)
    | Record(key: string, now: int)
    | Clear(key: string)

  /** The times after a cutoff, in their order. */
  function Recent(times: seq<int>, cutoff: int): (r: seq<int>)
    ensures |r| <= |times|
    decreases |times|
  {
    if times == [] then []
    else
      var last := times[|times| - 1];
      if last > cutoff then Recent(times[..|times| - 1], cutoff) + [last] else Recent(times[..|times| - 1], cutoff)
  }

  function Times(f: Failures, key: string): seq<int> { if key in f then f[key] else [] }

  /** A key without failures is not kept. */
  function Store(f: Failures, key: string, times: seq<int>): Failures {
    if times == [] then f - {key} else f[key := times]
  }

  function Prune(f: Failures, key: string, cutoff: int): Failures { Store(f, key, Recent(Times(f, key), cutoff)) }

  function Next(f: Failures, op: Op): Failures {
    match op
    case Ask(key, _, window, now) => Prune(f, key, now - window)
    case Record(key, now) => Store(f, key, Recent(Times(f, key), now - HOUR) + [now])
    case Clear(key) => f - {key}
  }

  /** Recording a failure is pruning and then adding to what is left. */
  lemma RecordIs(f: Failures, key: string, now: int)
    ensures var p := Prune(f, key, now - HOUR); p[key := Times(p, key) + [now]] == Next(f, Record(key, now))
  {}

  function IsBlocked(f: Failures, key: string, max: int, window: int, now: int): bool {
    |Recent(Times(f, key), now - window)| >= max
  }

  function After(ops: seq<Op>): Failures
    decreases |ops|
  {
    if ops == [] then map[] else Next(After(ops[..|ops| - 1]), ops[|ops| - 1])
  }

  // ----- the full history -----

  /** Every failure of a key since it was last reset. */
  function History(ops: seq<Op>, key: string): seq<int>
    decreases |ops|
  {
    if ops == [] then [] else Remember(History(ops[..|ops| - 1], key), ops[|ops| - 1], key)
  }

  function Remember(times: seq<int>, op: Op, key: string): seq<int> {
    if op.key != key then times
    else match op
      case Record(_, now) => times + [now]
      case Clear(_) => []
      case Ask(_, _, _, _) => times
  }

  function Higher(floor: Option<int>, cutoff: int): Option<int> {
    if floor.Some? && floor.value >= cutoff then floor else Some(cutoff)
  }

  /** The highest cutoff used on a key since it was last reset. */
  function Floor(ops: seq<Op>, key: string): Option<int>
    decreases |ops|
  {
    if ops == [] then None else Raise(Floor(ops[..|ops| - 1], key), ops[|ops| - 1], key)
  }

  function Raise(floor: Option<int>, op: Op, key: string): Option<int> {
    if op.key != key then floor
    else match op
      case Ask(_, _, window, now) => Higher(floor, now - window)
      case Record(_, now) => Higher(floor, now - HOUR)
      case Clear(_) => None
  }

  function Above(times: seq<int>, floor: Option<int>): seq<int> {
    match floor
    case None => times
    case Some(cutoff) => Recent(times, cutoff)
  }

  /** Time does not go back, and windows are positive. */
  ghost predicate Timely(ops: seq<Op>, end: int)
    decreases |ops|
  {
    if ops == [] then true
    else
      match ops[|ops| - 1]
      case Ask(_, _, window, now) => now <= end && window > 0 && Timely(ops[..|ops| - 1], now)
      case Record(_, now) => now <= end && Timely(ops[..|ops| - 1], now)
      case Clear(_) => Timely(ops[..|ops| - 1], end)
  }

  // ----- pruning -----

  lemma RecentSnoc(times: seq<int>, t: int, cutoff: int)
    ensures Recent(times + [t], cutoff) == if t > cutoff then Recent(times, cutoff) + [t] else Recent(times, cutoff)
  {
    assert (times + [t])[..|times|] == times;
  }

  lemma {:induction false} RecentTwice(times: seq<int>, cutoff: int, later: int)
    ensures Recent(Recent(times, cutoff), later) == Recent(times, if cutoff <= later then later else cutoff)
    decreases |times|
  {
    if times != [] {
      var front, last := times[..|times| - 1], times[|times| - 1];
      RecentTwice(front, cutoff, later);
      RecentSnoc(Recent(front, cutoff), last, later);
    }
  }

  /** What `Recent` keeps: the times after the cutoff, as often as they occur. */
  lemma {:induction false} RecentKeeps(times: seq<int>, cutoff: int, t: int)
    ensures multiset(Recent(times, cutoff))[t] == if t > cutoff then multiset(times)[t] else 0
    decreases |times|
  {
    if times != [] {
      RecentKeeps(times[..|times| - 1], cutoff, t);
      assert times == times[..|times| - 1] + [times[|times| - 1]];
    }
  }

  lemma AboveTwice(times: seq<int>, floor: Option<int>, cutoff: int)
    ensures Recent(Above(times, floor), cutoff) == Above(times, Higher(floor, cutoff))
  {
    if floor.Some? { RecentTwice(times, floor.value, cutoff); }
  }

  lemma {:induction false} FloorInPast(ops: seq<Op>, key: string, end: int)
    requires Timely(ops, end)
    ensures Floor(ops, key).Some? ==> Floor(ops, key).value < end
    decreases |ops|
  {
    if ops != [] {
      match ops[|ops| - 1]
      case Ask(_, _, _, now) => FloorInPast(ops[..|ops| - 1], key, now);
      case Record(_, now) => FloorInPast(ops[..|ops| - 1], key, now);
      case Clear(_) => FloorInPast(ops[..|ops| - 1], key, end);
    }
  }

  /** Recording a failure: what is stored was the history above the floor, and still is. */
  lemma RecordedAbove(times: seq<int>, floor: Option<int>, now: int)
    requires floor.Some? ==> floor.value < now
    ensures Recent(Above(times, floor), now - HOUR) + [now] == Above(times + [now], Higher(floor, now - HOUR))
  {
    AboveTwice(times, floor, now - HOUR);
    RecentSnoc(times, now, Higher(floor, now - HOUR).value);
  }

  lemma NextTimes(f: Failures, op: Op, key: string)
    ensures Times(Next(f, op), key) ==
            if op.key != key then Times(f, key)
            else match op
              case Ask(_, _, window, now) => Recent(Times(f, key), now - window)
              case Record(_, now) => Recent(Times(f, key), now - HOUR) + [now]
              case Clear(_) => []
  {}

  /** One call keeps what is stored equal to the history above the floor. */
  lemma StoredStep(f: Failures, times: seq<int>, floor: Option<int>, op: Op, key: string)
    requires Times(f, key) == Above(times, floor)
    requires op.Record? && floor.Some? ==> floor.value < op.now
    ensures Times(Next(f, op), key) == Above(Remember(times, op, key), Raise(floor, op, key))
  {
    NextTimes(f, op, key);
    if op.key == key {
      match op
      case Ask(_, _, window, now) => AboveTwice(times, floor, now - window);
      case Record(_, now) => RecordedAbove(times, floor, now);
      case Clear(_) =>
    }
  }

  /** In every run, what is stored for a key is its history above the highest cutoff used on it. */
  lemma {:induction false} StoredIsHistory(ops: seq<Op>, key: string, end: int)
    requires Timely(ops, end)
    ensures Times(After(ops), key) == Above(History(ops, key), Floor(ops, key))
    decreases |ops|
  {
    if ops != [] {
      var front, op := ops[..|ops| - 1], ops[|ops| - 1];
      var before := if op.Clear? then end else op.now;
      StoredIsHistory(front, key, before);
      FloorInPast(front, key, before);
      StoredStep(After(front), History(front, key), Floor(front, key), op, key);
    }
  }

  /** The answer in every run, whatever windows were used: the history after the later of two cutoffs. */
  lemma BlockedExactly(ops: seq<Op>, key: string, max: int, window: int, now: int)
    requires Timely(ops, now)
    ensures IsBlocked(After(ops), key, max, window, now)
       <==> |Above(History(ops, key), Higher(Floor(ops, key), now - window))| >= max
  {
    StoredIsHistory(ops, key, now);
    AboveTwice(History(ops, key), Floor(ops, key), now - window);
  }

  /** Only keys with failures are kept. */
  lemma {:induction false} NoEmptyKeys(ops: seq<Op>, key: string)
    ensures key in After(ops) ==> After(ops)[key] != []
    decreases |ops|
  {
    if ops != [] { NoEmptyKeys(ops[..|ops| - 1], key); }
  }

  // ----- one window per key -----

  ghost predicate OneWindow(ops: seq<Op>, key: string, window: int) {
    forall op :: op in ops && op.Ask? && op.key == key ==> op.window == window
  }

  lemma {:induction false} FloorIsOld(ops: seq<Op>, key: string, window: int, end: int)
    requires Timely(ops, end) && OneWindow(ops, key, window) && window <= HOUR
    ensures Floor(ops, key).Some? ==> Floor(ops, key).value <= end - window
    decreases |ops|
  {
    if ops != [] {
      var front := ops[..|ops| - 1];
      assert ops[|ops| - 1] in ops && forall op :: op in front ==> op in ops;
      match ops[|ops| - 1]
      case Ask(_, _, _, now) => FloorIsOld(front, key, window, now);
      case Record(_, now) => FloorIsOld(front, key, window, now);
      case Clear(_) => FloorIsOld(front, key, window, end);
    }
  }

  /**
   * The pruned lists answer like the full history: a key is blocked exactly when its failures since the last
   * reset and inside the window number at least `max`.
   */
  lemma PrunedAnswersLikeFull(ops: seq<Op>, key: string, max: int, window: int, now: int)
    requires Timely(ops, now) && OneWindow(ops, key, window) && window <= 3_600_000_000_000
    ensures IsBlocked(After(ops), key, max, window, now) <==> |Recent(History(ops, key), now - window)| >= max
  {
    BlockedExactly(ops, key, max, window, now);
    FloorIsOld(ops, key, window, now);
  }

  predicate Between(times: seq<int>, lo: int, hi: int) { exists t :: t in times && lo < t <= hi }

  /** A later cutoff keeps as many times exactly when none lies between the two. */
  lemma {:induction false} RecentCounts(times: seq<int>, lo: int, hi: int)
    requires lo <= hi
    ensures |Recent(times, hi)| <= |Recent(times, lo)|
    ensures |Recent(times, hi)| == |Recent(times, lo)| <==> !Between(times, lo, hi)
    decreases |times|
  {
    if times != [] {
      var front, last := times[..|times| - 1], times[|times| - 1];
      RecentCounts(front, lo, hi);
      assert last in times && forall t :: t in times <==> t in front || t == last;
    }
  }

  ghost predicate AnswersLikeFull(ops: seq<Op>, key: string, window: int, now: int) {
    forall max: int :: IsBlocked(After(ops), key, max, window, now)
      <==> |Recent(History(ops, key), now - window)| >= max
  }

  lemma AnswersByCount(ops: seq<Op>, key: string, window: int, now: int, pruned: nat)
    requires Timely(ops, now) && pruned == |Above(History(ops, key), Higher(Floor(ops, key), now - window))|
    ensures AnswersLikeFull(ops, key, window, now) <==> pruned == |Recent(History(ops, key), now - window)|
  {
    var full := |Recent(History(ops, key), now - window)|;
    forall max: int ensures IsBlocked(After(ops), key, max, window, now) <==> pruned >= max {
      BlockedExactly(ops, key, max, window, now);
    }
    if AnswersLikeFull(ops, key, window, now) {
      assert IsBlocked(After(ops), key, full, window, now) <==> full >= full;
      assert IsBlocked(After(ops), key, pruned, window, now) <==> full >= pruned;
    }
  }

  /**
   * Exactly when the pruned lists answer like the full history, whatever windows were used: no failure inside the
   * window lies at or before the highest cutoff used on the key since it was last reset.
   */
  lemma LikeFullExactly(ops: seq<Op>, key: string, window: int, now: int)
    requires Timely(ops, now)
    ensures AnswersLikeFull(ops, key, window, now)
       <==> Floor(ops, key).None? || !Between(History(ops, key), now - window, Floor(ops, key).value)
  {
    var times, floor := History(ops, key), Higher(Floor(ops, key), now - window);
    RecentCounts(times, now - window, floor.value);
    AnswersByCount(ops, key, window, now, |Recent(times, floor.value)|);
  }

  /** One more call. */
  lemma AfterSnoc(ops: seq<Op>, op: Op)
    ensures After(ops + [op]) == Next(After(ops), op)
    ensures op.Record? ==> History(ops + [op], op.key) == History(ops, op.key) + [op.now]
    ensures op.Ask? ==> History(ops + [op], op.key) == History(ops, op.key)
  {
    assert (ops + [op])[..|ops|] == ops;
  }

  lemma OneFailure(key: string, t: int)
    ensures var ops := [Record(key, t)];
            After(ops) == map[key := [t]] && History(ops, key) == [t] && Timely(ops, t)
  {
    AfterSnoc([], Record(key, t));
    assert [] + [Record(key, t)] == [Record(key, t)];
    assert Recent([], t - HOUR) + [t] == [t];
    assert History([], key) + [t] == [t];
  }

  lemma RecentOne(t: int, cutoff: int)
    ensures Recent([t], cutoff) == if t > cutoff then [t] else []
  {
    RecentSnoc([], t, cutoff);
    assert [] + [t] == [t];
  }

  /** With two windows the shorter one makes the longer one forget. */
  lemma ShorterWindowForgets()
    ensures var ops := [Record("k", 0), Ask("k", 1, 5, 10)];
            Timely(ops, 10) && !IsBlocked(After(ops), "k", 1, 20, 10) && |Recent(History(ops, "k"), 10 - 20)| == 1
  {
    var first, op := [Record("k", 0)], Ask("k", 1, 5, 10);
    OneFailure("k", 0);
    AfterSnoc(first, op);
    assert first + [op] == [Record("k", 0), op] && [Record("k", 0), op][..1] == first;
    RecentOne(0, 5);
    RecentOne(0, -10);
  }

  /** With a window above an hour, recording a failure forgets old ones that should count. */
  lemma LongWindowForgets()
    ensures var ops := [Record("k", 0), Record("k", HOUR)];
            Timely(ops, HOUR) && !IsBlocked(After(ops), "k", 2, 2 * HOUR, HOUR)
            && |Recent(History(ops, "k"), HOUR - 2 * HOUR)| == 2
  {
    var first, op := [Record("k", 0)], Record("k", HOUR);
    OneFailure("k", 0);
    AfterSnoc(first, op);
    assert first + [op] == [Record("k", 0), op] && [Record("k", 0), op][..1] == first;
    RecentOne(0, 0);
    RecentSnoc([0], HOUR, -HOUR);
    RecentOne(0, -HOUR);
    assert [] + [HOUR] == [HOUR];
  }

  // ----- the lists in place -----

  /** A slice: the first `len` elements of an array. */
  datatype Slice = Slice(data: array<int>, len: nat)

  /** Moves the times after the cutoff to the front of the array they are in. */
  method Compact(data: array<int>, len: nat, cutoff: int) returns (kept: nat)
    requires len <= data.Length
    modifies data
    ensures kept <= len && data[..kept] == Recent(old(data[..len]), cutoff)
  {
    ghost var times := data[..len];
    kept := 0;
    for i := 0 to len
      invariant kept <= i && data[..kept] == Recent(times[..i], cutoff)
      invariant forall k :: i <= k < len ==> data[k] == times[k]
    {
      var t := data[i];
      assert times[..i + 1] == times[..i] + [times[i]];
      RecentSnoc(times[..i], times[i], cutoff);
      if t > cutoff {
        data[kept] := t;
        kept := kept + 1;
      }
    }
    assert times[..len] == times;
  }

  /** Appends to a slice: in its array if there is room, else in a new array of twice the size. */
  method Append(list: Option<Slice>, t: int) returns (r: Slice)
    requires list.Some? ==> 0 < list.value.len <= list.value.data.Length
    modifies if list.Some? then {list.value.data} else {}
    ensures 0 < r.len <= r.data.Length
    ensures fresh(r.data) || (list.Some? && r.data == list.value.data)
    ensures r.data[..r.len] == (if list.Some? then old(list.value.data[..list.value.len]) else []) + [t]
  {
    if list.None? {
      var data := new int[1];
      data[0] := t;
      return Slice(data, 1);
    }
    var data, len := list.value.data, list.value.len;
    if len == data.Length {
      data := new int[2 * len];
      for i := 0 to len
        invariant data[..i] == list.value.data[..i]
        modifies data
      {
        data[i] := list.value.data[i];
      }
    }
    data[len] := t;
    return Slice(data, len + 1);
  }

  ghost predicate Holds(s: Slice, times: seq<int>)
    reads s.data
  {
    0 < s.len <= s.data.Length && s.data[..s.len] == times
  }

  class AttemptLimiter {
    var failures: map<string, Slice>

    ghost var state: Failures

    /** Every list is in an array of its own, and not empty; together they are `state`. */
    ghost predicate Valid()
      reads this, Arrays()
    {
      && state.Keys == failures.Keys
      && (forall k :: k in failures ==> Holds(failures[k], state[k]))
      && (forall k, m :: k in failures && m in failures && k != m ==> failures[k].data != failures[m].data)
    }

    /** The lists of all keys but one are as they should be, and in other arrays than the given one. */
    ghost predicate OthersHold(key: string, data: array<int>)
      reads this, Arrays()
    {
      && state.Keys == failures.Keys
      && (forall k :: k in failures && k != key ==> Holds(failures[k], state[k]) && failures[k].data != data)
      && (forall k, m :: k in failures && m in failures && k != m ==> failures[k].data != failures[m].data)
    }

    /** Gives a key its list. */
    method Put(key: string, list: Slice, ghost times: seq<int>)
      requires OthersHold(key, list.data) && Holds(list, times)
      modifies this
      ensures Valid() && state == old(state)[key := times] && failures == old(failures)[key := list]
    {
      failures := failures[key := list];
      state := state[key := times];
    }

    ghost function Arrays(): set<array<int>>
      reads this
    {
      set k | k in failures :: failures[k].data
    }

    constructor ()
      ensures Valid() && state == map[]
    {
      failures, state := map[], map[];
    }

    /** The failures of a key inside a window; older ones are dropped. */
    method RecentFailures(key: string, window: int, now: int) returns (kept: Option<Slice>)
      requires Valid()
      modifies this, Arrays()
      ensures Valid() && state == Prune(old(state), key, now - window)
      ensures Arrays() <= old(Arrays())
      ensures (if kept.Some? then kept.value.len else 0) == |Recent(Times(old(state), key), now - window)|
    {
      if key !in failures {
        assert Prune(state, key, now - window) == state;
        return None;
      }
      var list := failures[key];
      var len := Compact(list.data, list.len, now - window);
      assert OthersHold(key, list.data);
      if len == 0 {
        failures, state := failures - {key}, state - {key};
        return None;
      }
      Put(key, Slice(list.data, len), Recent(state[key], now - window));
      return Some(Slice(list.data, len));
    }

    method Blocked(key: string, max: int, window: int, now: int) returns (r: bool)
      requires Valid()
      modifies this, Arrays()
      ensures Valid() && state == Next(old(state), Ask(key, max, window, now))
      ensures r == IsBlocked(old(state), key, max, window, now)
    {
      var kept := RecentFailures(key, window, now);
      return (if kept.Some? then kept.value.len else 0) >= max;
    }

    /** Adds a time to the list of a key. */
    method Add(key: string, now: int)
      requires Valid()
      modifies this, Arrays()
      ensures Valid() && state == old(state)[key := Times(old(state), key) + [now]]
    {
      ghost var times := Times(state, key);
      if key in failures {
        var list := Append(Some(failures[key]), now);
        assert OthersHold(key, list.data);
        Put(key, list, times + [now]);
      } else {
        var list := Append(None, now);
        assert OthersHold(key, list.data);
        Put(key, list, times + [now]);
      }
    }

    method RecordFailure(key: string, now: int)
      requires Valid()
      modifies this, Arrays()
      ensures Valid() && state == Next(old(state), Record(key, now))
    {
      RecordIs(state, key, now);
      var _ := RecentFailures(key, HOUR, now);
      Add(key, now);
    }

    method Reset(key: string)
      requires Valid()
      modifies this
      ensures Valid() && state == Next(old(state), Clear(key))
    {
      failures := failures - {key};
      state := state - {key};
    }
  }
}
