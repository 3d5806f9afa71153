/**
 * One tick of the reminder scheduler: fetch the due batch once, then for each
 * reminder send it and retire or reschedule it, ignoring every failure. The
 * periodic ticker around it is not modelled.
 */
module Scheduler {
  import opened GoStrings
  import opened UnixTime
  import opened Reminders
  import opened ReminderStore

  /** One message handed to the send capability. */
  datatype Delivery = Delivery(channelId: Bytes, content: Bytes)

  /**
   * The injected send capability. Whether its k-th call fails is an oracle;
   * the log of everything it was asked to send is ghost state.
   */
  class Sender {
    const fails: nat -> bool
    var calls: nat
    ghost var log: seq<Delivery>

    ghost predicate Valid()
      reads this
    {
      calls == |log|
    }

    constructor (fails: nat -> bool)
      ensures Valid() && this.fails == fails && log == []
    {
      this.fails := fails;
      calls := 0;
      log := [];
    }

    /** Sends content to a channel; reports whether that failed. */
    method Send(channelId: Bytes, content: Bytes) returns (failed: bool)
      requires Valid()
      modifies this
      ensures Valid()
      ensures log == old(log) + [Delivery(channelId, content)]
      ensures failed == fails(old(calls))
    {
      failed := fails(calls);
      calls := calls + 1;
      log := log + [Delivery(channelId, content)];
    }
  }

  /** The tick interval used when the configured one is not positive: 10s, in nanoseconds. */
  const DefaultEvery: int := 10 * Second
  /** How many due reminders one tick fetches. */
  const DefaultDueLoad: int := 50

  /** The messages a batch sends: each reminder's channel and message, in batch order. */
  function Deliveries(batch: seq<Reminder>): (d: seq<Delivery>)
    ensures |d| == |batch|
    ensures forall i :: 0 <= i < |batch| ==> d[i] == Delivery(batch[i].channelId, batch[i].message)
  {
    seq(|batch|, i requires 0 <= i < |batch| => Delivery(batch[i].channelId, batch[i].message))
  }

  /** Taking one more element of s appends that element. */
  lemma TakeOneMore<T>(s: seq<T>, i: int)
    requires 0 <= i < |s|
    ensures s[..i + 1] == s[..i] + [s[i]]
  {
  }

  /** One more reminder adds its one delivery at the end. */
  lemma DeliveriesSnoc(batch: seq<Reminder>, r: Reminder)
    ensures Deliveries(batch + [r]) == Deliveries(batch) + [Delivery(r.channelId, r.message)]
  {
  }

  /** Taking one more item of a batch adds its delivery and its AfterItem step. */
  lemma OneMoreItem(rows: map<int, Row>, batch: seq<Reminder>, i: int, now: int,
                    faults: nat -> bool, clock: nat -> int)
    requires 0 <= i < |batch|
    ensures Deliveries(batch[..i + 1]) == Deliveries(batch[..i]) + [Delivery(batch[i].channelId, batch[i].message)]
    ensures AfterBatch(rows, batch[..i + 1], now, faults, clock)
         == AfterItem(AfterBatch(rows, batch[..i], now, faults, clock), batch[i], now, faults(i), clock(i))
  {
    TakeOneMore(batch, i);
    DeliveriesSnoc(batch[..i], batch[i]);
    var p := batch[..i + 1];
    assert p[..i] == batch[..i];
    AfterBatchLast(rows, p, now, faults, clock);
  }

  /**
   * What processing a reminder (id `id`, NextAfter result `o`) is meant to do to its row, relative to
   * the table `rows` before the tick: without a repeat (a `once` reminder or
   * a NextAfter error) the row is gone; with one, a present row stays, with
   * its next run moved to NextAfter's instant and its update stamped. An
   * absent row stays absent.
   */
  predicate Applied(rows: map<int, Row>, res: map<int, Row>, id: int, o: Occurrence, stamp: int) {
    && (!o.repeat ==> id !in res)
    && (id !in rows ==> id !in res)
    && (o.repeat && id in rows ==>
          id in res && res[id] == rows[id].(nextRun := o.next, updatedAt := stamp))
  }

  /**
   * The table after one batch item. What happens depends only on
   * NextAfter(r, now): an error or no repeat deletes the row, a repeat moves
   * its next run (stamping the update with `stamp`). A failed write leaves
   * the table as it was. Only r's row can change, and unless the write failed
   * it is either gone or no longer due.
   */
  function AfterItem(rows: map<int, Row>, r: Reminder, now: int, fault: bool, stamp: int): (res: map<int, Row>)
    ensures forall id :: id != r.id ==> (id in res <==> id in rows)
    ensures forall id :: id != r.id && id in rows ==> res[id] == rows[id]
    ensures !fault ==> r.id !in res || res[r.id].nextRun > now
    ensures !fault ==> Applied(rows, res, r.id, NextAfter(r, now), stamp)
    ensures fault ==> res == rows
  {
    var o := NextAfter(r, now);
    if fault then rows
    else if o.err.Some? || !o.repeat then rows - {r.id}
    else if r.id in rows then rows[r.id := rows[r.id].(nextRun := o.next, updatedAt := stamp)]
    else rows
  }

  /**
   * The table after a whole batch, item i processed with write failure
   * faults(i) and clock reading clock(i), every item against the same `now`.
   * Rows outside the batch are untouched.
   */
  function AfterBatch(rows: map<int, Row>, batch: seq<Reminder>, now: int,
                      faults: nat -> bool, clock: nat -> int): (res: map<int, Row>)
    ensures forall id :: (forall i :: 0 <= i < |batch| ==> batch[i].id != id) ==>
              (id in res <==> id in rows) && (id in rows ==> res[id] == rows[id])
    decreases |batch|
  {
    if |batch| == 0 then rows
    else
      var k := |batch| - 1;
      AfterItem(AfterBatch(rows, batch[..k], now, faults, clock), batch[k], now, faults(k), clock(k))
  }

  /** No reminder occurs twice in the batch. */
  ghost predicate DistinctIds(batch: seq<Reminder>) {
    forall i, j :: 0 <= i < j < |batch| ==> batch[i].id != batch[j].id
  }

  /** The reminder with this id is gone from the table or no longer due at `now`. */
  predicate Retired(rows: map<int, Row>, id: int, now: int) {
    id !in rows || rows[id].nextRun > now
  }

  /** An item whose row the earlier items left alone is processed as Applied says. */
  lemma ItemApplied(rows: map<int, Row>, mid: map<int, Row>, r: Reminder, now: int, stamp: int)
    requires r.id in mid <==> r.id in rows
    requires r.id in rows ==> mid[r.id] == rows[r.id]
    ensures Applied(rows, AfterItem(mid, r, now, false, stamp), r.id, NextAfter(r, now), stamp)
  {
    assert Applied(mid, AfterItem(mid, r, now, false, stamp), r.id, NextAfter(r, now), stamp);
  }

  /** Items that do not carry `id` leave its row as it was. */
  lemma UntouchedRow(rows: map<int, Row>, batch: seq<Reminder>, now: int,
                     faults: nat -> bool, clock: nat -> int, id: int)
    requires forall j :: 0 <= j < |batch| ==> batch[j].id != id
    ensures var res := AfterBatch(rows, batch, now, faults, clock);
      (id in res <==> id in rows) && (id in rows ==> res[id] == rows[id])
  {
  }

  /** The last item of a batch, whose id no earlier item has, is processed as Applied says. */
  lemma LastItemApplied(rows: map<int, Row>, batch: seq<Reminder>, now: int,
                        faults: nat -> bool, clock: nat -> int)
    requires |batch| > 0 && !faults(|batch| - 1)
    requires forall j :: 0 <= j < |batch| - 1 ==> batch[j].id != batch[|batch| - 1].id
    ensures Applied(rows, AfterBatch(rows, batch, now, faults, clock), batch[|batch| - 1].id,
                    NextAfter(batch[|batch| - 1], now), clock(|batch| - 1))
  {
    var k := |batch| - 1;
    var prefix := batch[..k];
    forall j | 0 <= j < |prefix| ensures prefix[j].id != batch[k].id {
      assert prefix[j] == batch[j];
    }
    UntouchedRow(rows, prefix, now, faults, clock, batch[k].id);
    AfterBatchLast(rows, batch, now, faults, clock);
    ItemApplied(rows, AfterBatch(rows, prefix, now, faults, clock), batch[k], now, clock(k));
  }

  /** The batch's last item is processed against the table the items before it left. */
  lemma AfterBatchLast(rows: map<int, Row>, batch: seq<Reminder>, now: int,
                       faults: nat -> bool, clock: nat -> int)
    requires |batch| > 0
    ensures AfterBatch(rows, batch, now, faults, clock)
         == AfterItem(AfterBatch(rows, batch[..|batch| - 1], now, faults, clock), batch[|batch| - 1],
                      now, faults(|batch| - 1), clock(|batch| - 1))
  {
  }

  /** Applied depends on the final table only at `id`. */
  lemma AppliedFrame(rows: map<int, Row>, mid: map<int, Row>, res: map<int, Row>, id: int,
                     o: Occurrence, stamp: int)
    requires Applied(rows, mid, id, o, stamp)
    requires id in res <==> id in mid
    requires id in mid ==> res[id] == mid[id]
    ensures Applied(rows, res, id, o, stamp)
  {
  }

  /** What the first |batch| - 1 items did to item i survives the last item, which has another id. */
  lemma LastItemKeepsApplied(rows: map<int, Row>, batch: seq<Reminder>, now: int,
                             faults: nat -> bool, clock: nat -> int, i: int)
    requires 0 <= i < |batch| - 1 && batch[|batch| - 1].id != batch[i].id
    requires Applied(rows, AfterBatch(rows, batch[..|batch| - 1], now, faults, clock), batch[i].id,
                     NextAfter(batch[i], now), clock(i))
    ensures Applied(rows, AfterBatch(rows, batch, now, faults, clock), batch[i].id,
                    NextAfter(batch[i], now), clock(i))
  {
    AfterBatchLast(rows, batch, now, faults, clock);
    AppliedFrame(rows, AfterBatch(rows, batch[..|batch| - 1], now, faults, clock),
                 AfterBatch(rows, batch, now, faults, clock), batch[i].id, NextAfter(batch[i], now), clock(i));
  }

  /**
   * When its own write succeeds, the reminder at position i of the batch ends as
   * Applied says, provided no other item of the batch has its id.
   */
  lemma {:induction false} ItemOutcome(rows: map<int, Row>, batch: seq<Reminder>, now: int,
                                       faults: nat -> bool, clock: nat -> int, i: int)
    requires 0 <= i < |batch|
    requires forall j :: 0 <= j < |batch| && j != i ==> batch[j].id != batch[i].id
    requires !faults(i)
    ensures Applied(rows, AfterBatch(rows, batch, now, faults, clock), batch[i].id, NextAfter(batch[i], now), clock(i))
    decreases |batch|
  {
    var k := |batch| - 1;
    if i == k {
      LastItemApplied(rows, batch, now, faults, clock);
    } else {
      var prefix := batch[..k];
      forall j | 0 <= j < |prefix| && j != i ensures prefix[j].id != prefix[i].id {
        assert prefix[j] == batch[j] && prefix[i] == batch[i];
      }
      ItemOutcome(rows, prefix, now, faults, clock, i);
      assert prefix[i] == batch[i];
      LastItemKeepsApplied(rows, batch, now, faults, clock, i);
    }
  }

  /**
   * Each reminder of the batch whose own write succeeds ends as it should,
   * whatever happened to the other writes: deleted when NextAfter gives no
   * repeat, and otherwise, if its row was there, kept with its next run at
   * NextAfter's instant.
   */
  lemma BatchApplies(rows: map<int, Row>, batch: seq<Reminder>, now: int,
                     faults: nat -> bool, clock: nat -> int)
    requires DistinctIds(batch)
    ensures forall i :: 0 <= i < |batch| && !faults(i) ==>
      Applied(rows, AfterBatch(rows, batch, now, faults, clock), batch[i].id, NextAfter(batch[i], now), clock(i))
  {
    forall i | 0 <= i < |batch| && !faults(i)
      ensures Applied(rows, AfterBatch(rows, batch, now, faults, clock), batch[i].id, NextAfter(batch[i], now), clock(i))
    {
      ItemOutcome(rows, batch, now, faults, clock, i);
    }
  }

  /**
   * Every reminder of the batch whose own write succeeds is either deleted or
   * rescheduled strictly after `now`, even when other writes of the tick fail.
   */
  lemma BatchLeavesNothingDue(rows: map<int, Row>, batch: seq<Reminder>, now: int,
                              faults: nat -> bool, clock: nat -> int)
    requires DistinctIds(batch)
    ensures forall i :: 0 <= i < |batch| && !faults(i) ==> Retired(AfterBatch(rows, batch, now, faults, clock), batch[i].id, now)
  {
    forall i | 0 <= i < |batch| && !faults(i)
      ensures Retired(AfterBatch(rows, batch, now, faults, clock), batch[i].id, now)
    {
      ItemOutcome(rows, batch, now, faults, clock, i);
    }
  }

  /**
   * The two tick outcomes the bot is built around, with no failed write: an
   * hourly reminder whose row was there is kept, next due one hour after the
   * tick's `now`; a once reminder is gone.
   */
  lemma TickScenarios(rows: map<int, Row>, batch: seq<Reminder>, now: int,
                      faults: nat -> bool, clock: nat -> int, i: int)
    requires DistinctIds(batch) && 0 <= i < |batch|
    requires forall j :: 0 <= j < |batch| ==> !faults(j)
    ensures var res := AfterBatch(rows, batch, now, faults, clock);
      && (batch[i].schedule == ScheduleHourly && batch[i].id in rows ==>
            batch[i].id in res && res[batch[i].id].nextRun == now + Hour)
      && (batch[i].schedule == ScheduleOnce ==> batch[i].id !in res)
  {
    BatchApplies(rows, batch, now, faults, clock);
    var r := batch[i];
    if r.schedule == ScheduleHourly {
      NextAfterHourly(r, now);
    } else if r.schedule == ScheduleOnce {
      NextAfterOnce(r, now);
    }
  }

  /**
   * The tick's whole effect on the table, for a store whose writes never fail:
   * the batch Due returns at `now` is retired or rescheduled past `now`, and
   * every other row is unchanged.
   */
  lemma TickOutcome(rows: map<int, Row>, lastId: int, now: int, limit: int, clock: nat -> int)
    requires KeyedById(rows)
    ensures var batch := Converted(Limit(Selected(rows, DueBy(now), lastId + 1), limit));
      var res := AfterBatch(rows, batch, now, _ => false, clock);
      && (forall i :: 0 <= i < |batch| ==> batch[i].id in rows && rows[batch[i].id].nextRun <= now)
      && (forall i :: 0 <= i < |batch| ==> Retired(res, batch[i].id, now))
      && (forall id :: id in rows && (forall i :: 0 <= i < |batch| ==> batch[i].id != id) ==>
            id in res && res[id] == rows[id])
  {
    var recs := Limit(Selected(rows, DueBy(now), lastId + 1), limit);
    var batch := Converted(recs);
    DueBatch(rows, lastId + 1, now, limit);
    assert DistinctIds(batch) by {
      forall i, j | 0 <= i < j < |batch| ensures batch[i].id != batch[j].id {
        assert batch[i].id == recs[i].id && batch[j].id == recs[j].id;
      }
    }
    BatchLeavesNothingDue(rows, batch, now, _ => false, clock);
  }

  /** The scheduler: the store, the send capability, the tick interval and the batch size. */
  class Scheduler {
    const store: Store
    const sender: Sender
    /** The tick interval, in nanoseconds. */
    const every: int
    const dueLoad: int

    /** New: a non-positive interval becomes 10s; the batch size is always 50. */
    constructor (store: Store, sender: Sender, every: int)
      ensures this.store == store && this.sender == sender
      ensures this.every == if every <= 0 then DefaultEvery else every
      ensures this.every > 0
      ensures dueLoad == DefaultDueLoad
    {
      this.store := store;
      this.sender := sender;
      this.every := if every <= 0 then DefaultEvery else every;
      this.dueLoad := DefaultDueLoad;
    }

    /**
     * One item of runOnce: send the reminder (its failure is only logged),
     * then delete it or move its next run as NextAfter says. A failed write
     * (`fault`) leaves the table as it was.
     */
    method Deliver(r: Reminder, now: int, fault: bool, stamp: int)
      requires store.Valid() && sender.Valid()
      modifies store, sender
      ensures store.Valid() && sender.Valid() && store.lastId == old(store.lastId)
      ensures sender.log == old(sender.log) + [Delivery(r.channelId, r.message)]
      ensures store.rows == AfterItem(old(store.rows), r, now, fault, stamp)
    {
      var sendFailed := sender.Send(r.channelId, r.message);
      var o := NextAfter(r, now);
      if o.err.Some? {
        var _ := store.DeleteID(r.id, fault);
      } else if !o.repeat {
        var _ := store.DeleteID(r.id, fault);
      } else {
        var _ := store.SetNextRun(r.id, o.next, stamp, fault);
      }
    }

    /**
     * The loop of runOnce over a fetched batch: item i is delivered with
     * write failure writeFaults(i) and clock reading clock(i).
     */
    method DeliverAll(due: seq<Reminder>, now: int, writeFaults: nat -> bool, clock: nat -> int)
      requires store.Valid() && sender.Valid()
      modifies store, sender
      ensures store.Valid() && sender.Valid() && store.lastId == old(store.lastId)
      ensures sender.log == old(sender.log) + Deliveries(due)
      ensures store.rows == AfterBatch(old(store.rows), due, now, writeFaults, clock)
    {
      for i := 0 to |due|
        invariant store.Valid() && sender.Valid() && store.lastId == old(store.lastId)
        invariant sender.log == old(sender.log) + Deliveries(due[..i])
        invariant store.rows == AfterBatch(old(store.rows), due[..i], now, writeFaults, clock)
      {
        Deliver(due[i], now, writeFaults(i), clock(i));
        OneMoreItem(old(store.rows), due, i, now, writeFaults, clock);
      }
      assert due[..|due|] == due;
    }

    /**
     * runOnce at `now`. If fetching the batch fails, nothing is sent and no
     * row changes. Otherwise every fetched reminder is sent exactly once, in
     * fetch order, and the table ends as AfterBatch says: send failures play
     * no part in it, and a failed write skips only its own item.
     * `batch` names the fetched reminders for the contract.
     */
    method RunOnce(now: int, dueFault: bool, writeFaults: nat -> bool, clock: nat -> int)
      returns (ghost batch: seq<Reminder>)
      requires store.Valid() && sender.Valid()
      modifies store, sender
      ensures store.Valid() && sender.Valid() && store.lastId == old(store.lastId)
      ensures dueFault ==> batch == [] && store.rows == old(store.rows)
      ensures !dueFault ==>
        batch == Converted(Limit(Selected(old(store.rows), DueBy(now), old(store.lastId) + 1), dueLoad))
      ensures sender.log == old(sender.log) + Deliveries(batch)
      ensures store.rows == AfterBatch(old(store.rows), batch, now, writeFaults, clock)
    {
      var res := store.Due(now, dueLoad, dueFault);
      if res.Err? {
        batch := [];
        return;
      }
      var due := res.value;
      batch := due;
      DeliverAll(due, now, writeFaults, clock);
    }
  }
}
