/** The screening `getmessage` applies to each delivered direct message
    before decrypting it: an age filter, then a bounded first-in first-out
    record of the event ids already handled (`processedmsgs`). */
module Inbox {

  /** `maxStoredEvents`: how many ids the record keeps. */
  const MaxStoredEvents: nat := 1000

  /** `maxAgeMs`: events older than 100 seconds are ignored. */
  const MaxAgeMs: int := 100 * 1000

  /** `Date.now() - event.created_at * 1000 > maxAgeMs` */
  predicate IsStale(createdAt: int, nowMs: int) {
    nowMs - createdAt * 1000 > MaxAgeMs
  }

  /** No id occurs twice. */
  predicate NoDuplicates(ids: seq<string>) {
    forall i, j :: 0 <= i < j < |ids| ==> ids[i] != ids[j]
  }

  /** `push(id)`, then `shift()` once when the length exceeds the capacity. */
  function Record(cache: seq<string>, id: string): seq<string> {
    var pushed := cache + [id];
    if |pushed| > MaxStoredEvents then pushed[1..] else pushed
  }

  /** What the handler decides before decryption. */
  datatype Verdict = Stale | Duplicate | Accepted

  /** The age check first, then `processedmsgs.includes(event.id)`. */
  function Screen(cache: seq<string>, id: string, createdAt: int, nowMs: int): Verdict {
    if IsStale(createdAt, nowMs) then Stale
    else if id in cache then Duplicate
    else Accepted
  }

  /** The record after one delivery: only an accepted id is recorded, and it
      stays recorded whatever decryption then does. */
  function CacheAfter(cache: seq<string>, id: string, createdAt: int, nowMs: int): seq<string> {
    if Screen(cache, id, createdAt, nowMs) == Accepted then Record(cache, id) else cache
  }

  /** The record invariant the handler keeps. */
  predicate WellFormed(cache: seq<string>) {
    |cache| <= MaxStoredEvents && NoDuplicates(cache)
  }

  /** The newest `n` entries of `s`: an independent description of a
      bounded first-in first-out window. */
  function LastN(s: seq<string>, n: nat): (r: seq<string>)
  {
    if |s| <= n then s else s[|s| - n..]
  }

  /** The record after a run of fresh deliveries, in arrival order. */
  function RecordAll(cache: seq<string>, ids: seq<string>): seq<string>
    decreases |ids|
  {
    if |ids| == 0 then cache else RecordAll(Record(cache, ids[0]), ids[1..])
  }

  /** The record after a run of deliveries, all screened at clock reading `nowMs`. */
  function ScreenAll(cache: seq<string>, ids: seq<string>, createdAt: seq<int>, nowMs: int): seq<string>
    requires |createdAt| == |ids|
    decreases |ids|
  {
    if |ids| == 0 then cache
    else ScreenAll(CacheAfter(cache, ids[0], createdAt[0], nowMs), ids[1..], createdAt[1..], nowMs)
  }

  // ---------------------------------------------------------------------------
  // One delivery
  // ---------------------------------------------------------------------------

  /** Recording a new id into a well-formed record keeps it well-formed, and
      the id is then the newest entry. */
  lemma RecordKeepsWellFormed(cache: seq<string>, id: string)
    requires WellFormed(cache) && id !in cache
    ensures WellFormed(Record(cache, id))
    ensures |Record(cache, id)| > 0 && Record(cache, id)[|Record(cache, id)| - 1] == id
    ensures id in Record(cache, id)
  {
    var pushed := cache + [id];
    assert NoDuplicates(pushed);
    if |pushed| > MaxStoredEvents {
      assert NoDuplicates(pushed[1..]) by {
        forall i, j | 0 <= i < j < |pushed| - 1
          ensures pushed[1..][i] != pushed[1..][j]
        {
          assert pushed[1..][i] == pushed[i + 1] && pushed[1..][j] == pushed[j + 1];
        }
      }
    }
  }

  /** Below capacity nothing is removed; at capacity exactly the oldest id is. */
  lemma RecordEvictsOldest(cache: seq<string>, id: string)
    requires |cache| <= MaxStoredEvents
    ensures |cache| < MaxStoredEvents ==> Record(cache, id) == cache + [id]
    ensures |cache| == MaxStoredEvents ==> Record(cache, id) == cache[1..] + [id]
    ensures |Record(cache, id)| == if |cache| < MaxStoredEvents then |cache| + 1 else MaxStoredEvents
  {
    if |cache| == MaxStoredEvents {
      assert (cache + [id])[1..] == cache[1..] + [id];
    }
  }

  /** Recording into a record within capacity keeps the newest entries of the
      appended list. */
  lemma RecordIsWindow(cache: seq<string>, id: string)
    requires |cache| <= MaxStoredEvents
    ensures Record(cache, id) == LastN(cache + [id], MaxStoredEvents)
  {
  }

  /** A stale event is dropped before the duplicate check and never recorded,
      even when its id was never seen. */
  lemma StaleNeverRecorded(cache: seq<string>, id: string, createdAt: int, nowMs: int)
    requires IsStale(createdAt, nowMs)
    ensures Screen(cache, id, createdAt, nowMs) == Stale
    ensures CacheAfter(cache, id, createdAt, nowMs) == cache
  {
  }

  /** An event that passes the age check is accepted exactly when its id is new. */
  lemma FreshVerdict(cache: seq<string>, id: string, createdAt: int, nowMs: int)
    requires !IsStale(createdAt, nowMs)
    ensures Screen(cache, id, createdAt, nowMs) == Accepted <==> id !in cache
    ensures Screen(cache, id, createdAt, nowMs) == Duplicate <==> id in cache
  {
  }

  /** The handler keeps the record well-formed on every delivery. */
  lemma CacheAfterWellFormed(cache: seq<string>, id: string, createdAt: int, nowMs: int)
    requires WellFormed(cache)
    ensures WellFormed(CacheAfter(cache, id, createdAt, nowMs))
  {
    if Screen(cache, id, createdAt, nowMs) == Accepted {
      RecordKeepsWellFormed(cache, id);
    }
  }

  /** Once a delivery passes the age check its id is in the record, so the
      same event delivered again next (by another relay, say) is not accepted,
      whatever its age then. */
  lemma RedeliveryRejected(cache: seq<string>, id: string, createdAt: int, nowMs: int,
                           createdAt2: int, nowMs2: int)
    requires WellFormed(cache) && !IsStale(createdAt, nowMs)
    ensures id in CacheAfter(cache, id, createdAt, nowMs)
    ensures Screen(CacheAfter(cache, id, createdAt, nowMs), id, createdAt2, nowMs2) != Accepted
  {
    if id !in cache {
      RecordKeepsWellFormed(cache, id);
    }
  }

  // ---------------------------------------------------------------------------
  // Many deliveries
  // ---------------------------------------------------------------------------

  /** After a run of distinct new ids the record holds the newest 1000 of the
      old record followed by the run: a first-in first-out window. */
  lemma {:induction false} RecordAllIsWindow(cache: seq<string>, ids: seq<string>)
    requires |cache| <= MaxStoredEvents
    ensures RecordAll(cache, ids) == LastN(cache + ids, MaxStoredEvents)
    decreases |ids|
  {
    if |ids| == 0 {
      assert cache + ids == cache;
    } else {
      var next := Record(cache, ids[0]);
      RecordIsWindow(cache, ids[0]);
      RecordAllWindowStep(cache, ids);
      RecordAllIsWindow(next, ids[1..]);
    }
  }

  lemma RecordAllWindowStep(cache: seq<string>, ids: seq<string>)
    requires |cache| <= MaxStoredEvents && |ids| > 0
    ensures |Record(cache, ids[0])| <= MaxStoredEvents
    ensures LastN(Record(cache, ids[0]) + ids[1..], MaxStoredEvents) == LastN(cache + ids, MaxStoredEvents)
  {
    var n := MaxStoredEvents;
    var pushed := cache + [ids[0]];
    assert pushed + ids[1..] == cache + ids;
    if |pushed| > n {
      assert pushed[1..] + ids[1..] == (cache + ids)[1..];
      assert |pushed| == n + 1;
    }
  }

  /** Deliveries screened at one clock reading: every fresh, new id is
      recorded and nothing else is, so a run of fresh distinct new ids ends
      in the same record as recording them one by one. */
  lemma {:induction false} ScreenAllFresh(cache: seq<string>, ids: seq<string>,
                                          createdAt: seq<int>, nowMs: int)
    requires WellFormed(cache) && |createdAt| == |ids| && NoDuplicates(ids)
    requires forall k :: 0 <= k < |ids| ==> ids[k] !in cache && !IsStale(createdAt[k], nowMs)
    ensures ScreenAll(cache, ids, createdAt, nowMs) == RecordAll(cache, ids)
    ensures WellFormed(ScreenAll(cache, ids, createdAt, nowMs))
    decreases |ids|
  {
    if |ids| > 0 {
      var next := Record(cache, ids[0]);
      RecordKeepsWellFormed(cache, ids[0]);
      forall k | 0 <= k < |ids[1..]|
        ensures ids[1..][k] !in next && !IsStale(createdAt[1..][k], nowMs)
      {
        assert ids[1..][k] == ids[k + 1] && ids[k + 1] != ids[0];
        assert createdAt[1..][k] == createdAt[k + 1];
        assert next == cache + [ids[0]] || next == (cache + [ids[0]])[1..];
      }
      assert NoDuplicates(ids[1..]) by {
        forall i, j | 0 <= i < j < |ids[1..]|
          ensures ids[1..][i] != ids[1..][j]
        {
          assert ids[1..][i] == ids[i + 1] && ids[1..][j] == ids[j + 1];
        }
      }
      ScreenAllFresh(next, ids[1..], createdAt[1..], nowMs);
    }
  }

  /** The bound in action: after 1001 distinct fresh deliveries into an empty
      record, the first id has been evicted and only the last 1000 remain, so
      a redelivery of the first one is accepted again. */
  lemma FirstIdForgotten(ids: seq<string>, createdAt: seq<int>, nowMs: int, createdAt2: int)
    requires |ids| == MaxStoredEvents + 1 && |createdAt| == |ids| && NoDuplicates(ids)
    requires forall k :: 0 <= k < |ids| ==> !IsStale(createdAt[k], nowMs)
    requires !IsStale(createdAt2, nowMs)
    ensures ScreenAll([], ids, createdAt, nowMs) == ids[1..]
    ensures Screen(ScreenAll([], ids, createdAt, nowMs), ids[0], createdAt2, nowMs) == Accepted
  {
    EmptyWellFormed();
    ScreenAllFresh([], ids, createdAt, nowMs);
    RecordAllIsWindow([], ids);
    assert [] + ids == ids;
    assert LastN(ids, MaxStoredEvents) == ids[1..];
    FirstNotInRest(ids);
  }

  lemma EmptyWellFormed()
    ensures WellFormed([])
  {
  }

  lemma FirstNotInRest(ids: seq<string>)
    requires |ids| > 0 && NoDuplicates(ids)
    ensures ids[0] !in ids[1..]
  {
    forall j | 0 <= j < |ids| - 1
      ensures ids[1..][j] != ids[0]
    {
      assert ids[1..][j] == ids[j + 1];
    }
  }
}
