/** The live feed of the change log: a broadcaster that hands each event to its current subscribers
    and a poller that tails the log with an in-memory cursor. */
module ChangeFeed {
  import opened Options

  datatype Event = Event(seqNo: int, kind: string, payload: string)

  const DEFAULT_BATCH := 512

  // ---------- the log, as the store answers for it ----------

  ghost predicate Ascending(evs: seq<Event>) {
    forall i, j :: 0 <= i < j < |evs| ==> evs[i].seqNo < evs[j].seqNo
  }

  /** Where the rows numbered above `after` begin. */
  function Upto(log: seq<Event>, after: int): (n: nat)
    ensures n <= |log| && forall i :: 0 <= i < n ==> log[i].seqNo <= after
    ensures n < |log| ==> log[n].seqNo > after
  {
    if log == [] || log[0].seqNo > after then 0 else 1 + Upto(log[1..], after)
  }

  function EventsAfter(log: seq<Event>, after: int, limit: nat): seq<Event> {
    var n := Upto(log, after);
    log[n..if n + limit <= |log| then n + limit else |log|]
  }

  function LatestSeq(log: seq<Event>): int {
    if log == [] then 0 else log[|log| - 1].seqNo
  }

  // ---------- what a poll lets through ----------

  /** The events of a batch that exceed the cursor and everything let through before them. */
  function Kept(evs: seq<Event>, cursor: int): seq<Event> {
    if evs == [] then []
    else if evs[0].seqNo <= cursor then Kept(evs[1..], cursor)
    else [evs[0]] + Kept(evs[1..], evs[0].seqNo)
  }

  function CursorAfter(evs: seq<Event>, cursor: int): int {
    if evs == [] then cursor
    else CursorAfter(evs[1..], if evs[0].seqNo <= cursor then cursor else evs[0].seqNo)
  }

  lemma {:induction false} KeptIsAbove(evs: seq<Event>, cursor: int)
    ensures forall e :: e in Kept(evs, cursor) ==> e in evs && e.seqNo > cursor
    ensures cursor <= CursorAfter(evs, cursor) && forall e :: e in evs ==> e.seqNo <= CursorAfter(evs, cursor)
  {
    if evs != [] {
      KeptIsAbove(evs[1..], if evs[0].seqNo <= cursor then cursor else evs[0].seqNo);
      assert forall d :: d in evs ==> d == evs[0] || d in evs[1..];
    }
  }

  /** Whatever the source returns, what passes is numbered strictly upwards. */
  lemma {:induction false} KeptAscends(evs: seq<Event>, cursor: int)
    ensures Ascending(Kept(evs, cursor))
  {
    if evs != [] {
      if evs[0].seqNo <= cursor {
        KeptAscends(evs[1..], cursor);
      } else {
        KeptAscends(evs[1..], evs[0].seqNo);
        KeptIsAbove(evs[1..], evs[0].seqNo);
        ConsAscends(evs[0], Kept(evs[1..], evs[0].seqNo));
      }
    }
  }

  lemma ConsAscends(e: Event, rest: seq<Event>)
    requires Ascending(rest) && forall d :: d in rest ==> d.seqNo > e.seqNo
    ensures Ascending([e] + rest)
  {
  }

  /** The cursor moves exactly when something passes, to the number of the last event that did. */
  lemma {:induction false} CursorIsLastKept(evs: seq<Event>, cursor: int)
    ensures var kept := Kept(evs, cursor);
      CursorAfter(evs, cursor) == if kept == [] then cursor else kept[|kept| - 1].seqNo
  {
    if evs != [] {
      CursorIsLastKept(evs[1..], if evs[0].seqNo <= cursor then cursor else evs[0].seqNo);
    }
  }

  /** The i-th event of a batch exceeds the cursor and everything before it. */
  predicate IsRecord(evs: seq<Event>, cursor: int, i: nat)
    requires i < |evs|
  {
    evs[i].seqNo > cursor && forall j :: 0 <= j < i ==> evs[j].seqNo < evs[i].seqNo
  }

  /** What passes is exactly the events that set a new highest number. */
  lemma {:induction false} KeptAreRecords(evs: seq<Event>, cursor: int, e: Event)
    ensures e in Kept(evs, cursor) <==> exists i :: 0 <= i < |evs| && evs[i] == e && IsRecord(evs, cursor, i)
  {
    if evs != [] {
      var next := if evs[0].seqNo <= cursor then cursor else evs[0].seqNo;
      KeptAreRecords(evs[1..], next, e);
      forall i | 0 < i < |evs|
        ensures evs[1..][i - 1] == evs[i] && (IsRecord(evs, cursor, i) <==> IsRecord(evs[1..], next, i - 1))
      {
        RecordAfterFirst(evs, cursor, i);
      }
      assert IsRecord(evs, cursor, 0) <==> evs[0].seqNo > cursor;
      assert forall i :: 0 <= i < |evs[1..]| ==> evs[1..][i] == evs[i + 1];
    }
  }

  lemma RecordAfterFirst(evs: seq<Event>, cursor: int, i: nat)
    requires 0 < i < |evs|
    ensures IsRecord(evs, cursor, i) <==>
      IsRecord(evs[1..], if evs[0].seqNo <= cursor then cursor else evs[0].seqNo, i - 1)
  {
    assert forall j :: 0 < j < i ==> evs[1..][j - 1] == evs[j];
    assert forall j :: 0 <= j < i - 1 ==> evs[1..][j] == evs[j + 1];
  }

  lemma Append(a: seq<Event>, e: Event, rest: seq<Event>)
    ensures a + ([e] + rest) == (a + [e]) + rest
    ensures forall s: seq<Event> :: (s + a) + [e] == s + (a + [e])
  {
  }

  // ---------- the objects ----------

  /** A subscriber's callback, with what it was called with. */
  class Subscriber {
    var received: seq<Event>

    constructor ()
      ensures received == []
    {
      received := [];
    }

    method Call(e: Event)
      modifies this
      ensures received == old(received) + [e]
    {
      received := received + [e];
    }
  }

  class Broadcaster {
    var nextID: nat
    var subs: map<nat, Subscriber>

    /** Ids are never reused, and every subscription has a callback of its own. */
    ghost predicate Valid()
      reads this
    {
      && (forall id :: id in subs ==> id < nextID)
      && (forall i, j :: i in subs && j in subs && subs[i] == subs[j] ==> i == j)
    }

    constructor ()
      ensures Valid() && subs == map[]
    {
      nextID, subs := 0, map[];
    }

    method Subscribe(fn: Subscriber) returns (id: nat)
      requires Valid() && fn !in subs.Values
      modifies this
      ensures Valid() && id !in old(subs) && subs == old(subs)[id := fn]
      ensures old(nextID) <= id < nextID
    {
      id := nextID;
      nextID := nextID + 1;
      subs := subs[id := fn];
    }

    // The function returned by `Subscribe`; it may be called late and more than once.
    method Unsubscribe(id: nat)
      requires Valid()
      modifies this
      ensures Valid() && subs == old(subs) - {id} && nextID == old(nextID)
    {
      subs := subs - {id};
    }

    // The map is visited in no particular order.
    method Publish(e: Event)
      requires Valid()
      modifies subs.Values
      ensures forall id :: id in subs ==> subs[id].received == old(subs[id].received) + [e]
    {
      var todo := subs.Keys;
      while todo != {}
        invariant todo <= subs.Keys
        invariant forall id :: id in subs ==>
          subs[id].received == if id in todo then old(subs[id].received) else old(subs[id].received) + [e]
        decreases todo
      {
        var id :| id in todo;
        subs[id].Call(e);
        todo := todo - {id};
      }
    }
  }

  class Poller {
    const bcast: Broadcaster
    const batch: nat
    var lastSeq: int

    constructor (bcast: Broadcaster, batch: int, startSeq: int)
      ensures this.bcast == bcast && lastSeq == startSeq
      ensures this.batch == (if batch <= 0 then DEFAULT_BATCH else batch) && this.batch > 0
    {
      this.bcast := bcast;
      this.batch := if batch <= 0 then DEFAULT_BATCH else batch;
      lastSeq := startSeq;
    }

    // None is a failed read of the log.
    method SeekToHead(head: Option<int>) returns (ok: bool)
      modifies this
      ensures ok == head.Some? && lastSeq == if ok then head.value else old(lastSeq)
    {
      if head.None? {
        return false;
      }
      lastSeq := head.value;
      return true;
    }

    /** One drained batch: every subscriber gets exactly the events that pass, in order. */
    method Poll(read: Option<seq<Event>>) returns (ok: bool)
      requires bcast.Valid()
      modifies this, bcast.subs.Values
      ensures ok == read.Some?
      ensures lastSeq == if ok then CursorAfter(read.value, old(lastSeq)) else old(lastSeq)
      ensures forall id :: id in bcast.subs ==>
        bcast.subs[id].received
        == old(bcast.subs[id].received) + if ok then Kept(read.value, old(lastSeq)) else []
    {
      if read.None? {
        return false;
      }
      var evs := read.value;
      ghost var passed: seq<Event> := [];
      for i := 0 to |evs|
        invariant CursorAfter(evs[i..], lastSeq) == CursorAfter(evs, old(lastSeq))
        invariant passed + Kept(evs[i..], lastSeq) == Kept(evs, old(lastSeq))
        invariant forall id :: id in bcast.subs ==> bcast.subs[id].received == old(bcast.subs[id].received) + passed
      {
        var e := evs[i];
        assert evs[i..][0] == e && evs[i..][1..] == evs[i + 1..];
        if e.seqNo <= lastSeq {
          continue;
        }
        bcast.Publish(e);
        lastSeq := e.seqNo;
        Append(passed, e, Kept(evs[i + 1..], lastSeq));
        passed := passed + [e];
      }
      assert passed + [] == passed;
      return true;
    }
  }
}
