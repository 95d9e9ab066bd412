/** The per-player message log of `GameWorld.addMessage` (server/game.ts:387-392):
    append one entry, then drop the oldest one when the log has grown past 50. */
module MessageLog {
  import opened Types

  const MAX_LOG: int := 50

  /** The newest MAX_LOG entries of a history, oldest first. */
  function Recent(h: seq<Msg>): (r: seq<Msg>)
    ensures |r| == Min(|h|, MAX_LOG)
  {
    if |h| > MAX_LOG then h[|h| - MAX_LOG..] else h
  }

  /** The kept entries are the last ones of the history, in order. */
  lemma RecentIsSuffix(h: seq<Msg>)
    ensures var r := Recent(h); forall k | 0 <= k < |r| :: r[k] == h[|h| - |r| + k]
  {
  }

  /** `msgs.push(msg); if (msgs.length > 50) msgs.shift();` */
  function Push(log: seq<Msg>, m: Msg): seq<Msg> {
    var grown := log + [m];
    if |grown| > MAX_LOG then grown[1..] else grown
  }

  /** `m` becomes the newest entry, and a log of at most 50 entries keeps the
      newest 50 of its entries and `m`. */
  lemma PushKeepsNewest(log: seq<Msg>, m: Msg)
    ensures var r := Push(log, m); |r| > 0 && r[|r| - 1] == m
    ensures |log| <= MAX_LOG ==> Push(log, m) == Recent(log + [m])
  {
  }

  /** Several `addMessage` calls in a row on one log. */
  function PushAll(log: seq<Msg>, ms: seq<Msg>): seq<Msg>
    decreases |ms|
  {
    if ms == [] then log else PushAll(Push(log, ms[0]), ms[1..])
  }

  /** One more `addMessage` after a batch is the batch with one more entry. */
  lemma {:induction false} PushAllSnoc(log: seq<Msg>, ms: seq<Msg>, m: Msg)
    ensures PushAll(log, ms + [m]) == Push(PushAll(log, ms), m)
    decreases |ms|
  {
    if ms == [] {
      assert PushAll(Push(log, m), []) == Push(log, m);
    } else {
      assert (ms + [m])[1..] == ms[1..] + [m];
      PushAllSnoc(Push(log, ms[0]), ms[1..], m);
    }
  }

  /** Keeping the newest entries twice is keeping them once. */
  lemma RecentAbsorbs(a: seq<Msg>, b: seq<Msg>)
    ensures Recent(Recent(a) + b) == Recent(a + b)
  {
    var l, r := Recent(Recent(a) + b), Recent(a + b);
    RecentIsSuffix(a);
    RecentIsSuffix(Recent(a) + b);
    RecentIsSuffix(a + b);
    assert |l| == |r|;
    forall k | 0 <= k < |l| ensures l[k] == r[k] {
      var i := |Recent(a) + b| - |l| + k;
      if i < |Recent(a)| {
        assert l[k] == Recent(a)[i] == a[|a| - |Recent(a)| + i];
      } else {
        assert l[k] == b[i - |Recent(a)|];
      }
    }
  }

  /** A log of at most 50 entries, after any number of `addMessage` calls, holds
      exactly the newest (at most 50) entries of everything ever appended. */
  lemma {:induction false} PushAllKeepsNewest(log: seq<Msg>, ms: seq<Msg>)
    requires |log| <= MAX_LOG
    ensures PushAll(log, ms) == Recent(log + ms)
    ensures |PushAll(log, ms)| <= MAX_LOG
    decreases |ms|
  {
    if ms == [] {
      assert log + ms == log;
    } else {
      var once := Push(log, ms[0]);
      PushKeepsNewest(log, ms[0]);
      PushAllKeepsNewest(once, ms[1..]);
      RecentAbsorbs(log + [ms[0]], ms[1..]);
      assert log + [ms[0]] + ms[1..] == log + ms;
      calc {
        PushAll(log, ms);
        PushAll(once, ms[1..]);
        Recent(Recent(log + [ms[0]]) + ms[1..]);
        Recent(log + ms);
      }
    }
  }

  /** Appending never lets a log of at most 50 entries grow past 50, and keeps
      every entry but possibly the oldest. */
  lemma PushBounded(log: seq<Msg>, m: Msg)
    requires |log| <= MAX_LOG
    ensures |Push(log, m)| <= MAX_LOG
    ensures |log| < MAX_LOG ==> Push(log, m) == log + [m]
    ensures |log| == MAX_LOG ==> Push(log, m) == log[1..] + [m]
  {
  }

  /** `messageLog.get(id) || []` */
  function LogOf(logs: map<PlayerId, seq<Msg>>, id: PlayerId): seq<Msg> {
    if id in logs then logs[id] else []
  }

  /** The log map after `addMessage(id, m)`; an unknown id gets a new log. */
  function Append(logs: map<PlayerId, seq<Msg>>, id: PlayerId, m: Msg): map<PlayerId, seq<Msg>> {
    logs[id := Push(LogOf(logs, id), m)]
  }

  /** Every log holds at most 50 entries. */
  predicate AllBounded(logs: map<PlayerId, seq<Msg>>) {
    forall id | id in logs :: |logs[id]| <= MAX_LOG
  }

  /** One turn of the `broadcastToDepth` loop: `addMessage(pid, m)` when
      `pid` is on `depth` and is not `exclude`. */
  function Visit(logs: map<PlayerId, seq<Msg>>, depths: map<PlayerId, int>, pid: PlayerId,
                 depth: int, m: Msg, exclude: PlayerId): map<PlayerId, seq<Msg>> {
    if pid in depths && depths[pid] == depth && pid != exclude then Append(logs, pid, m) else logs
  }

  /** `broadcastToDepth(depth, m, exclude)`, visiting the ids `ids` in turn. */
  function Broadcast(logs: map<PlayerId, seq<Msg>>, depths: map<PlayerId, int>, ids: seq<PlayerId>,
                     depth: int, m: Msg, exclude: PlayerId): map<PlayerId, seq<Msg>>
    decreases |ids|
  {
    if ids == [] then logs
    else Visit(Broadcast(logs, depths, ids[..|ids| - 1], depth, m, exclude), depths, ids[|ids| - 1], depth, m, exclude)
  }

  /** Who a broadcast reaches. */
  predicate Reached(depths: map<PlayerId, int>, id: PlayerId, depth: int, exclude: PlayerId) {
    id in depths && depths[id] == depth && id != exclude
  }

  /** A broadcast over distinct ids that all have logs reaches exactly those
      on that depth except the excluded one, gives each of them `m` as the
      newest entry, touches no other log, and keeps every log within 50
      entries. */
  lemma {:induction false} BroadcastReaches(logs: map<PlayerId, seq<Msg>>, depths: map<PlayerId, int>,
                                            ids: seq<PlayerId>, depth: int, m: Msg, exclude: PlayerId)
    requires AllBounded(logs) && Distinct(ids) && forall i | 0 <= i < |ids| :: ids[i] in logs
    ensures var r := Broadcast(logs, depths, ids, depth, m, exclude);
      && r.Keys == logs.Keys && AllBounded(r)
      && forall id | id in logs ::
           r[id] == if id in ids && Reached(depths, id, depth, exclude) then Recent(logs[id] + [m]) else logs[id]
    decreases |ids|
  {
    if ids != [] {
      var init, last := ids[..|ids| - 1], ids[|ids| - 1];
      assert forall i | 0 <= i < |init| :: init[i] == ids[i];
      DistinctInit(ids);
      BroadcastReaches(logs, depths, init, depth, m, exclude);
      forall id ensures id in ids <==> id in init || id == last {
        if id in ids {
          var i :| 0 <= i < |ids| && ids[i] == id;
          if i < |init| {
            assert init[i] == id;
          }
        }
      }
      VisitReaches(logs, Broadcast(logs, depths, init, depth, m, exclude), depths, init, last, depth, m, exclude);
    }
  }

  /** The last turn of a broadcast: `last`, not among the ids `init` visited
      before, is reached exactly when it is on the depth and not excluded. */
  lemma VisitReaches(logs: map<PlayerId, seq<Msg>>, before: map<PlayerId, seq<Msg>>, depths: map<PlayerId, int>,
                     init: seq<PlayerId>, last: PlayerId, depth: int, m: Msg, exclude: PlayerId)
    requires AllBounded(logs) && last in logs && last !in init
    requires before.Keys == logs.Keys && AllBounded(before)
    requires forall id | id in logs ::
               before[id] == if id in init && Reached(depths, id, depth, exclude) then Recent(logs[id] + [m]) else logs[id]
    ensures var r := Visit(before, depths, last, depth, m, exclude);
      && r.Keys == logs.Keys && AllBounded(r)
      && forall id | id in logs ::
           r[id] == if (id in init || id == last) && Reached(depths, id, depth, exclude) then Recent(logs[id] + [m])
                    else logs[id]
  {
    if Reached(depths, last, depth, exclude) {
      PushKeepsNewest(before[last], m);
      PushBounded(before[last], m);
    }
  }

  /** Appending keeps every log within 50 entries. */
  lemma AppendBounded(logs: map<PlayerId, seq<Msg>>, id: PlayerId, m: Msg)
    requires AllBounded(logs)
    ensures AllBounded(Append(logs, id, m))
    ensures Append(logs, id, m)[id] == Recent(LogOf(logs, id) + [m])
  {
  }
}
