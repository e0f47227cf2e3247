/** The decision half of `checkItemsArePushedAndShowToast`: the queue document is fetched again and
    again until none of the tracked records' items is left in it, the document is missing, or ten
    fetches have been made. */
module DrainPoll {

  import opened Json
  import opened Records

  /** What one fetch of the queue document gives: the document is missing, or it holds these
      queue items (a document without `queue_item` holds none). */
  datatype Snapshot = Absent | Present(queue: seq<QueueItem>)

  /** `maxAttempts`. */
  const MaxAttempts: nat := 10

  /** `new Set(Object.values(lastModified).map(lm => lm.uuid_cache))`. */
  function Tracked(lastModified: map<string, Record>): set<Value> {
    set p | p in lastModified :: lastModified[p].uuidCache
  }

  /** `cacheArray.some(item => lastModifiedUuids.has(item.uuid_cache))`; a tombstone has no
      `uuid_cache`, and `undefined` is never tracked. */
  predicate StillPresent(queue: seq<QueueItem>, tracked: set<Value>) {
    exists i :: 0 <= i < |queue| && queue[i].Push? && queue[i].uuidCache in tracked
  }

  /** The poll loop. `fetch(n)` is the document the `n`-th fetch (from 0) returns. The results are
      the value the promise resolves with and the number of fetches made. */
  method CheckItemsArePushed(lastModified: map<string, Record>, fetch: nat -> Snapshot)
    returns (pushed: bool, fetches: nat)
    ensures 1 <= fetches <= MaxAttempts
    ensures forall n :: 0 <= n < fetches - 1 ==>
      fetch(n).Present? && StillPresent(fetch(n).queue, Tracked(lastModified))
    ensures pushed <==> fetch(fetches - 1).Present? && !StillPresent(fetch(fetches - 1).queue, Tracked(lastModified))
    ensures !pushed && fetch(fetches - 1).Present? ==> fetches == MaxAttempts
  {
    var attempts := 0;
    while true
      invariant 0 <= attempts < MaxAttempts
      invariant forall n :: 0 <= n < attempts ==>
        fetch(n).Present? && StillPresent(fetch(n).queue, Tracked(lastModified))
      decreases MaxAttempts - attempts
    {
      var cacheSnap := fetch(attempts);
      if cacheSnap.Absent? {
        return false, attempts + 1;
      }
      var cacheArray := cacheSnap.queue;
      var lastModifiedUuids := Tracked(lastModified);
      var stillPresent := StillPresent(cacheArray, lastModifiedUuids);
      if !stillPresent {
        return true, attempts + 1;
      }
      attempts := attempts + 1;
      if attempts >= MaxAttempts {
        return false, attempts;
      }
    }
  }

  /** A queue of tombstones only, or with no item of a tracked record, counts as drained. */
  lemma DrainedWithoutTrackedItems(queue: seq<QueueItem>, lastModified: map<string, Record>)
    requires forall i :: 0 <= i < |queue| ==>
      queue[i].Tombstone? || forall p :: p in lastModified ==> lastModified[p].uuidCache != queue[i].uuidCache
    ensures !StillPresent(queue, Tracked(lastModified))
  {
  }

  /** The queue written on `open` still holds items of the index it was built with, as long as it
      holds at least one item: the poll cannot report it drained before it shrinks. */
  lemma OpenQueueTracked(metadata: Value, now: int, ids: nat -> string, next: nat)
    requires CacheArray(metadata, LastModifiedMap(metadata, "", now, ids, next).records, "", now) != []
    ensures var lastModified := LastModifiedMap(metadata, "", now, ids, next).records;
      StillPresent(CacheArray(metadata, lastModified, "", now), Tracked(lastModified))
  {
    var lastModified := LastModifiedMap(metadata, "", now, ids, next).records;
    var items := CacheArray(metadata, lastModified, "", now);
    OpenConsistent(metadata, now, ids, next);
    assert items[0] in items;
    assert items[0].uuidCache in Tracked(lastModified);
  }
}
