/**
 * The delete queue: `schedule_delete` records a message to delete later,
 * and `auto_delete_job`, run every minute, deletes every message whose time
 * has come and drops its entry whether or not the deletion worked. The clock
 * (`datetime.utcnow()`) is a parameter in microseconds, the resolution of
 * `datetime`; what the database stores and compares is that time as a BSON
 * date, truncated to milliseconds.
 */
module DeleteQueue {
  /** `timedelta(minutes=1)` in microseconds. */
  const MICROS_PER_MINUTE: int := 60_000_000

  /** One minute in BSON-date milliseconds. */
  const MILLIS_PER_MINUTE: int := 60_000

  /**
   * A `datetime` as the driver encodes it in a BSON date: milliseconds since
   * the epoch, the sub-millisecond part dropped (rounding down).
   */
  function BsonMillis(micros: int): int
  {
    micros / 1000
  }

  /** Truncating a time shifted by whole minutes is shifting the truncated time. */
  lemma BsonMillisShift(micros: int, minutes: int)
    ensures BsonMillis(micros + minutes * MICROS_PER_MINUTE) == BsonMillis(micros) + minutes * MILLIS_PER_MINUTE
  {
    var q := micros / 1000;
    var r := micros % 1000;
    assert micros + minutes * MICROS_PER_MINUTE == (q + minutes * MILLIS_PER_MINUTE) * 1000 + r;
  }

  /** The default `delay_minutes` of `schedule_delete`. */
  const DEFAULT_DELAY_MINUTES: int := 15

  /** A document of the queue; `id` stands for its `_id`, `deleteTime` is a BSON date. */
  datatype Entry = Entry(id: nat, chatId: int, messageId: int, deleteTime: int)

  /** The query `{"delete_time": {"$lte": current_time}}`, on BSON-date milliseconds. */
  predicate IsDue(e: Entry, now: int)
  {
    e.deleteTime <= now
  }

  /** The entries the job picks up, in queue order. */
  function Due(entries: seq<Entry>, now: int): (r: seq<Entry>)
    ensures forall e :: e in r <==> e in entries && IsDue(e, now)
  {
    if entries == [] then []
    else (if IsDue(entries[0], now) then [entries[0]] else []) + Due(entries[1..], now)
  }

  /** The entries whose time has not come, in queue order. */
  function Pending(entries: seq<Entry>, now: int): (r: seq<Entry>)
    ensures forall e :: e in r <==> e in entries && !IsDue(e, now)
  {
    if entries == [] then []
    else (if IsDue(entries[0], now) then [] else [entries[0]]) + Pending(entries[1..], now)
  }

  /** The entries whose `_id` is not in `ids`: the queue after `delete_one` for each of them. */
  function WithoutIds(entries: seq<Entry>, ids: set<nat>): seq<Entry>
  {
    if entries == [] then []
    else (if entries[0].id in ids then [] else [entries[0]]) + WithoutIds(entries[1..], ids)
  }

  function IdsOf(entries: seq<Entry>): set<nat>
  {
    set e | e in entries :: e.id
  }

  /** Entries in strictly increasing `_id` order (which also makes the ids unique). */
  predicate IdsIncreasing(entries: seq<Entry>)
  {
    forall i, j :: 0 <= i < j < |entries| ==> entries[i].id < entries[j].id
  }

  /** The due entries and the pending ones partition the queue. */
  lemma {:induction false} DuePendingPartition(entries: seq<Entry>, now: int)
    ensures multiset(Due(entries, now)) + multiset(Pending(entries, now)) == multiset(entries)
  {
    if entries != [] {
      DuePendingPartition(entries[1..], now);
      assert entries == [entries[0]] + entries[1..];
    }
  }

  lemma {:induction false} WithoutMoreIds(entries: seq<Entry>, ids: set<nat>, id: nat)
    ensures WithoutIds(WithoutIds(entries, ids), {id}) == WithoutIds(entries, ids + {id})
  {
    if entries != [] {
      WithoutMoreIds(entries[1..], ids, id);
      var head := if entries[0].id in ids then [] else [entries[0]];
      assert WithoutIds(entries, ids) == head + WithoutIds(entries[1..], ids);
      WithoutIdsAppend(head, WithoutIds(entries[1..], ids), {id});
    }
  }

  lemma {:induction false} WithoutIdsAppend(a: seq<Entry>, b: seq<Entry>, ids: set<nat>)
    ensures WithoutIds(a + b, ids) == WithoutIds(a, ids) + WithoutIds(b, ids)
  {
    if a == [] {
      assert a + b == b;
    } else {
      var head := if a[0].id in ids then [] else [a[0]];
      WithoutIdsAppend(a[1..], b, ids);
      assert (a + b)[0] == a[0];
      assert (a + b)[1..] == a[1..] + b;
      calc {
        WithoutIds(a + b, ids);
        head + WithoutIds(a[1..] + b, ids);
        head + (WithoutIds(a[1..], ids) + WithoutIds(b, ids));
        (head + WithoutIds(a[1..], ids)) + WithoutIds(b, ids);
      }
    }
  }

  /** Ids that no entry carries make no difference. */
  lemma {:induction false} WithoutAbsentIds(entries: seq<Entry>, ids: set<nat>, extra: set<nat>)
    requires forall e :: e in entries ==> e.id !in extra
    ensures WithoutIds(entries, ids + extra) == WithoutIds(entries, ids)
  {
    if entries != [] {
      assert entries[0] in entries;
      WithoutAbsentIds(entries[1..], ids, extra);
    }
  }

  /**
   * With unique ids, deleting by `_id` every entry the job picked up leaves
   * exactly the entries that were not due, in their order.
   */
  lemma {:induction false} WithoutDueIsPending(entries: seq<Entry>, now: int)
    requires IdsIncreasing(entries)
    ensures WithoutIds(entries, IdsOf(Due(entries, now))) == Pending(entries, now)
  {
    if entries != [] {
      var x := entries[0];
      var rest := entries[1..];
      TailIncreasing(entries);
      WithoutDueIsPending(rest, now);
      var restIds := IdsOf(Due(rest, now));
      HeadIdFresh(entries);
      if IsDue(x, now) {
        assert IdsOf(Due(entries, now)) == {x.id} + restIds;
        WithoutAbsentIds(rest, restIds, {x.id});
        assert restIds + {x.id} == {x.id} + restIds;
      } else {
        assert Due(entries, now) == Due(rest, now);
      }
    }
  }

  lemma TailIncreasing(entries: seq<Entry>)
    requires entries != [] && IdsIncreasing(entries)
    ensures IdsIncreasing(entries[1..])
  {
    var rest := entries[1..];
    forall i, j | 0 <= i < j < |rest| ensures rest[i].id < rest[j].id {
      assert rest[i] == entries[i + 1] && rest[j] == entries[j + 1];
    }
  }

  /** In increasing order the first id is carried by no later entry. */
  lemma HeadIdFresh(entries: seq<Entry>)
    requires entries != [] && IdsIncreasing(entries)
    ensures forall e :: e in entries[1..] ==> e.id != entries[0].id
  {
    forall e | e in entries[1..] ensures e.id != entries[0].id {
      var j :| 0 <= j < |entries[1..]| && entries[1..][j] == e;
      assert entries[j + 1] == e;
    }
  }

  /** Dropping entries keeps the others, and only them. */
  lemma {:induction false} WithoutIdsMembers(entries: seq<Entry>, ids: set<nat>)
    ensures forall e :: e in WithoutIds(entries, ids) <==> e in entries && e.id !in ids
  {
    if entries != [] {
      WithoutIdsMembers(entries[1..], ids);
      assert entries == [entries[0]] + entries[1..];
    }
  }

  /** Dropping entries keeps the ids increasing. */
  lemma {:induction false} WithoutIdsKeepsOrder(entries: seq<Entry>, ids: set<nat>)
    requires IdsIncreasing(entries)
    ensures IdsIncreasing(WithoutIds(entries, ids))
  {
    if entries != [] {
      WithoutIdsKeepsOrder(entries[1..], ids);
      WithoutIdsMembers(entries[1..], ids);
      var rest := WithoutIds(entries[1..], ids);
      forall k | 0 <= k < |rest| ensures entries[0].id < rest[k].id {
        assert rest[k] in entries[1..];
        var j :| 0 <= j < |entries[1..]| && entries[1..][j] == rest[k];
        assert entries[j + 1] == rest[k];
      }
    }
  }

  /** Those of the picked-up entries whose `delete_messages` call raised (and was only logged). */
  function Failures(attempted: seq<Entry>, deleteSucceeds: Entry -> bool): (r: seq<Entry>)
    ensures forall e :: e in r <==> e in attempted && !deleteSucceeds(e)
  {
    if attempted == [] then []
    else
      var last := attempted[|attempted| - 1];
      Failures(attempted[..|attempted| - 1], deleteSucceeds) + (if deleteSucceeds(last) then [] else [last])
  }

  /**
   * A message scheduled after the others survives a sweep exactly when its
   * time has not come; the sweep treats the earlier entries as before.
   */
  lemma {:induction false} PendingAppend(entries: seq<Entry>, e: Entry, now: int)
    ensures Pending(entries + [e], now) == Pending(entries, now) + (if IsDue(e, now) then [] else [e])
  {
    var tail := if IsDue(e, now) then [] else [e];
    if entries == [] {
      assert entries + [e] == [e];
    } else {
      var x := entries[0];
      var head := if IsDue(x, now) then [] else [x];
      PendingAppend(entries[1..], e, now);
      assert (entries + [e])[0] == x;
      assert (entries + [e])[1..] == entries[1..] + [e];
      calc {
        Pending(entries + [e], now);
        head + Pending(entries[1..] + [e], now);
        head + (Pending(entries[1..], now) + tail);
        (head + Pending(entries[1..], now)) + tail;
      }
    }
  }

  /** The document `schedule_delete` inserts at clock time `now` (microseconds). */
  function Scheduled(id: nat, chatId: int, messageId: int, now: int, delayMinutes: int): (e: Entry)
    ensures e.deleteTime == BsonMillis(now) + delayMinutes * MILLIS_PER_MINUTE
  {
    BsonMillisShift(now, delayMinutes);
    Entry(id, chatId, messageId, BsonMillis(now + delayMinutes * MICROS_PER_MINUTE))
  }

  /**
   * A message scheduled at clock time `scheduled` with a delay of `delay`
   * minutes survives a sweep at clock time `now` exactly when `now`, cut to
   * the millisecond, is before the scheduled time cut to the millisecond plus
   * the delay; the entries queued before it are swept as before.
   */
  lemma SurvivesSweepIff(entries: seq<Entry>, id: nat, chatId: int, messageId: int, scheduled: int, delay: int, now: int)
    ensures var e := Scheduled(id, chatId, messageId, scheduled, delay);
      var survives := BsonMillis(now) < BsonMillis(scheduled) + delay * MILLIS_PER_MINUTE;
      && (e in Pending(entries + [e], BsonMillis(now)) <==> survives)
      && Pending(entries + [e], BsonMillis(now)) == Pending(entries, BsonMillis(now)) + (if survives then [e] else [])
  {
    var e := Scheduled(id, chatId, messageId, scheduled, delay);
    PendingAppend(entries, e, BsonMillis(now));
  }

  /**
   * Within one millisecond the truncation decides: an entry due 0.7 ms after
   * a whole millisecond is deleted by a sweep 0.2 ms after it, half a
   * millisecond before its time on the clock.
   */
  lemma SameMillisecondIsDue(entries: seq<Entry>, id: nat, chatId: int, messageId: int, t: int)
    requires t % 1000 == 0
    ensures var e := Scheduled(id, chatId, messageId, t + 700, 0);
      && t + 200 < t + 700
      && e !in Pending(entries + [e], BsonMillis(t + 200))
  {
    var e := Scheduled(id, chatId, messageId, t + 700, 0);
    assert BsonMillis(t + 700) == t / 1000 == BsonMillis(t + 200);
    PendingAppend(entries, e, BsonMillis(t + 200));
  }

  /** With the default delay, a message is still queued 14 minutes on and gone after a sweep at 15 minutes. */
  lemma DefaultDelaySweep(entries: seq<Entry>, id: nat, chatId: int, messageId: int, now: int)
    ensures var e := Scheduled(id, chatId, messageId, now, DEFAULT_DELAY_MINUTES);
      && e in Pending(entries + [e], BsonMillis(now + 14 * MICROS_PER_MINUTE))
      && e !in Pending(entries + [e], BsonMillis(now + 15 * MICROS_PER_MINUTE))
  {
    var e := Scheduled(id, chatId, messageId, now, DEFAULT_DELAY_MINUTES);
    BsonMillisShift(now, 14);
    BsonMillisShift(now, 15);
    PendingAppend(entries, e, BsonMillis(now + 14 * MICROS_PER_MINUTE));
  }

  /** The queue collection with the counter that hands out `_id`s. */
  class Queue {
    var entries: seq<Entry>
    var nextId: nat

    ghost predicate Valid()
      reads this
    {
      IdsIncreasing(entries) && forall e :: e in entries ==> e.id < nextId
    }

    constructor ()
      ensures Valid() && entries == []
    {
      entries := [];
      nextId := 0;
    }

    /**
     * `schedule_delete`: appends one entry due `delayMinutes` after `now`
     * (microseconds), stored to the millisecond, even when the same message
     * is already queued.
     */
    method ScheduleDelete(chatId: int, messageId: int, now: int, delayMinutes: int := DEFAULT_DELAY_MINUTES) returns (id: nat)
      requires Valid()
      modifies this
      ensures Valid()
      ensures id == old(nextId) && nextId == old(nextId) + 1
      ensures entries == old(entries) + [Scheduled(id, chatId, messageId, now, delayMinutes)]
    {
      id := nextId;
      entries := entries + [Entry(id, chatId, messageId, BsonMillis(now + delayMinutes * MICROS_PER_MINUTE))];
      nextId := nextId + 1;
    }

    /**
     * `auto_delete_job`: picks up the due entries, tries to delete each
     * message (`deleteSucceeds` says which calls work), and removes the entry
     * in either case. What remains is exactly the entries not yet due at
     * `now` (microseconds) cut to the millisecond.
     */
    method AutoDeleteJob(now: int, deleteSucceeds: Entry -> bool) returns (attempted: seq<Entry>, failed: seq<Entry>)
      requires Valid()
      modifies this`entries
      ensures Valid()
      ensures attempted == Due(old(entries), BsonMillis(now))
      ensures failed == Failures(attempted, deleteSucceeds)
      ensures entries == Pending(old(entries), BsonMillis(now))
    {
      var remaining;
      attempted, failed, remaining := Sweep(entries, BsonMillis(now), deleteSucceeds);
      entries := remaining;
    }
  }

  /**
   * The loop of `auto_delete_job` over a snapshot of the queue: each due
   * entry is tried and then removed by `_id`, whatever the outcome.
   */
  method Sweep(queue: seq<Entry>, now: int, deleteSucceeds: Entry -> bool)
    returns (attempted: seq<Entry>, failed: seq<Entry>, remaining: seq<Entry>)
    requires IdsIncreasing(queue)
    ensures attempted == Due(queue, now)
    ensures failed == Failures(attempted, deleteSucceeds)
    ensures remaining == Pending(queue, now)
    ensures IdsIncreasing(remaining)
  {
    attempted := Due(queue, now);
    failed := [];
    remaining := queue;
    ghost var removed: set<nat> := {};
    WithoutNoIds(queue);
    var i := 0;
    while i < |attempted|
      invariant 0 <= i <= |attempted|
      invariant removed == IdsOf(attempted[..i])
      invariant remaining == WithoutIds(queue, removed)
      invariant failed == Failures(attempted[..i], deleteSucceeds)
    {
      var e := attempted[i];
      if !deleteSucceeds(e) {
        failed := failed + [e];
      }
      JobStep(attempted, i, deleteSucceeds);
      WithoutMoreIds(queue, removed, e.id);
      remaining := WithoutIds(remaining, {e.id});
      removed := removed + {e.id};
      i := i + 1;
    }
    assert attempted[..i] == attempted;
    WithoutDueIsPending(queue, now);
    WithoutIdsKeepsOrder(queue, removed);
  }

  lemma {:induction false} WithoutNoIds(entries: seq<Entry>)
    ensures WithoutIds(entries, {}) == entries
  {
    if entries != [] {
      WithoutNoIds(entries[1..]);
    }
  }

  /** One more picked-up entry handled: its id is removed, and it is a failure when its call raised. */
  lemma JobStep(attempted: seq<Entry>, i: nat, deleteSucceeds: Entry -> bool)
    requires i < |attempted|
    ensures IdsOf(attempted[..i + 1]) == IdsOf(attempted[..i]) + {attempted[i].id}
    ensures Failures(attempted[..i + 1], deleteSucceeds) ==
      Failures(attempted[..i], deleteSucceeds) + (if deleteSucceeds(attempted[i]) then [] else [attempted[i]])
  {
    assert attempted[..i + 1] == attempted[..i] + [attempted[i]];
    assert attempted[..i + 1][..i] == attempted[..i];
    IdsOfSnoc(attempted[..i], attempted[i]);
  }

  lemma IdsOfSnoc(entries: seq<Entry>, e: Entry)
    ensures IdsOf(entries + [e]) == IdsOf(entries) + {e.id}
  {
    forall id ensures id in IdsOf(entries + [e]) <==> id in IdsOf(entries) + {e.id} {
      if id in IdsOf(entries + [e]) {
        var x :| x in entries + [e] && x.id == id;
      }
    }
  }
}
