/** The broker object itself: its mutex-guarded fields, the methods that change them, and the loop
    that fails the waiters of a lost connection. Each critical section is proved to do to the fields
    exactly what the protocol's step of the same name does to its `core`. */
module BrokerObject {
  import opened Options
  import opened BrokerState

  /** A Go channel of capacity one used for a single result. */
  class ResultChannel {
    var slot: Option<Reply>

    constructor ()
      ensures slot == None
    {
      slot := None;
    }

    // A send on a full channel would block.
    method Put(x: Reply)
      requires slot.None?
      modifies this
      ensures slot == Some(x)
    {
      slot := Some(x);
    }
  }

  /** No two waiters share a channel and nothing was put yet: sending to each blocks nobody. */
  ghost predicate Ready(taken: map<RequestId, ResultChannel>)
    reads taken.Values
  {
    && (forall id :: id in taken ==> taken[id].slot.None?)
    && (forall i, j :: i in taken && j in taken && taken[i] == taken[j] ==> i == j)
  }

  method FailPending(taken: map<RequestId, ResultChannel>, x: Reply)
    requires Ready(taken)
    modifies taken.Values
    ensures forall id :: id in taken ==> taken[id].slot == Some(x)
  {
    var todo := taken.Keys;
    while todo != {}
      invariant todo <= taken.Keys
      invariant forall id :: id in taken ==> taken[id].slot == if id in todo then None else Some(x)
      decreases todo
    {
      var id :| id in todo;
      taken[id].Put(x);
      todo := todo - {id};
    }
  }

  class Broker {
    var conn: Option<ConnId>
    var connectedAt: Option<Time>
    var pending: map<RequestId, ResultChannel>

    ghost function Core(): Core<ResultChannel>
      reads this
    {
      BrokerState.Core(conn, connectedAt, pending)
    }

    constructor ()
      ensures Core() == NoRuntime()
    {
      conn, connectedAt, pending := None, None, map[];
    }

    method Status() returns (connected: bool, since: Option<Time>)
      ensures connected == Core().conn.Some? && since == Core().connectedAt
    {
      return conn.Some?, connectedAt;
    }

    // The first critical section of `Execute`; None stands for ErrUnavailable.
    method Register(id: RequestId, ch: ResultChannel) returns (captured: Option<ConnId>)
      modifies this
      ensures Core() == Registered(old(Core()), id, ch) && captured == old(conn)
    {
      captured := conn;
      if captured.None? {
        return;
      }
      pending := pending[id := ch];
    }

    method RemovePending(id: RequestId)
      modifies this
      ensures Core() == Removed(old(Core()), id)
    {
      pending := pending - {id};
    }

    method TakePendingLocked() returns (taken: map<RequestId, ResultChannel>)
      modifies this
      ensures taken == old(pending) && Core() == old(Core()).(pending := map[])
    {
      taken := pending;
      pending := map[];
    }

    // The swap in `serveConn` once the hello was accepted, and the failing of the replaced waiters.
    method AcceptRuntime(k: ConnId, now: Time) returns (toClose: Option<ConnId>)
      requires Ready(pending)
      modifies this, pending.Values
      ensures Core() == Replaced(k, now)
      ensures toClose == if old(conn) == Some(k) then None else old(conn)
      ensures forall id :: id in old(pending) ==> old(pending)[id].slot == Some(Unavailable)
    {
      var previous := conn;
      conn := Some(k);
      connectedAt := Some(now);
      var taken := TakePendingLocked();
      toClose := if previous.Some? && previous != Some(k) then previous else None;
      FailPending(taken, Unavailable);
    }

    method Resolve(m: Message)
      requires Ready(pending)
      modifies this, pending.Values
      ensures Core() == Removed(old(Core()), m.id)
      ensures forall id :: id in old(pending) && id != m.id ==> old(pending)[id].slot == None
      ensures m.id in old(pending) ==>
        var slot := old(pending)[m.id].slot;
        && slot == Some(Answer(m.id, Decode(m)))
        && (m.ok && m.result.Json? ==> slot == Some(Answer(m.id, Value(m.result.text))))
        && (m.ok && (m.result.Missing? || m.result.Null?) ==> slot == Some(Answer(m.id, Value("{}"))))
        && (m.ok && m.result.Malformed? ==> slot == Some(Answer(m.id, Undecodable)))
        && (!m.ok ==> slot == Some(Answer(m.id, Rejected(if m.error.Some? then m.error.value else DEFAULT_ERROR))))
    {
      var found := m.id in pending;
      if found {
        var ch := pending[m.id];
        pending := pending - {m.id};
        if !m.ok {
          var error := if m.error.None? then DEFAULT_ERROR else m.error.value;
          ch.Put(Answer(m.id, Rejected(error)));
          return;
        }
        var value := "{}";
        if !m.result.Missing? && !m.result.Null? {
          if m.result.Malformed? {
            ch.Put(Answer(m.id, Undecodable));
            return;
          }
          value := m.result.text;
        }
        ch.Put(Answer(m.id, Value(value)));
      } else {
        pending := pending - {m.id};
      }
    }

    method Disconnect(k: ConnId) returns (toClose: Option<ConnId>)
      requires Ready(pending)
      modifies this, pending.Values
      ensures Core() == Disconnected(old(Core()), k)
      ensures toClose == if old(conn) == Some(k) then Some(k) else None
      ensures forall id :: id in old(pending) ==>
        old(pending)[id].slot == if old(conn) == Some(k) then Some(Unavailable) else None
    {
      if conn != Some(k) {
        return None;
      }
      conn := None;
      connectedAt := None;
      var taken := TakePendingLocked();
      toClose := Some(k);
      FailPending(taken, Unavailable);
    }
  }
}
