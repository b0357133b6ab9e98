/** The feed over whole runs: rows are appended, the poller reads and delivers, and subscribers come
    and go between any two deliveries. */
module ChangeFeedRuns {
  import opened ChangeFeed

  /** A subscription, with how much had been published when it began. */
  datatype Subscription = Subscription(joined: nat, received: seq<Event>, active: bool)

  /** `fetched` is the part of the current batch the poller has not looked at; `published` is the
      history of everything handed to the broadcaster. Subscriptions are numbered from 0. */
  datatype Feed = Feed(
    log: seq<Event>,
    cursor: int,
    batch: nat,
    fetched: seq<Event>,
    subs: seq<Subscription>,
    published: seq<Event>)

  datatype Action =
    | Append(e: Event)
    | Fetch(evs: seq<Event>)
    | Deliver
    | Subscribe
    | Unsubscribe(id: nat)

  /** What a poller finds when it starts at a cursor: `startSeq`, or the head after `SeekToHead`. */
  function Started(log: seq<Event>, batch: nat, start: int): Feed {
    Feed(log, start, batch, [], [], [])
  }

  function ToAll(subs: seq<Subscription>, e: Event): seq<Subscription> {
    seq(|subs|, i requires 0 <= i < |subs| =>
      if subs[i].active then subs[i].(received := subs[i].received + [e]) else subs[i])
  }

  /** The only order imposed: one batch at a time, and a subscription exists before it ends. */
  predicate Possible(f: Feed, a: Action) {
    match a
    case Append(_) => true
    case Fetch(_) => f.fetched == []
    case Deliver => f.fetched != []
    case Subscribe => true
    case Unsubscribe(id) => id < |f.subs|
  }

  function Step(f: Feed, a: Action): Feed
    requires Possible(f, a)
  {
    match a
    case Append(e) => f.(log := f.log + [e])
    case Fetch(evs) => f.(fetched := evs)
    case Deliver =>
      var e := f.fetched[0];
      var g := f.(fetched := f.fetched[1..]);
      if e.seqNo <= f.cursor then g
      else g.(cursor := e.seqNo, published := f.published + [e], subs := ToAll(f.subs, e))
    case Subscribe => f.(subs := f.subs + [Subscription(|f.published|, [], true)])
    case Unsubscribe(id) => f.(subs := f.subs[id := f.subs[id].(active := false)])
  }

  predicate Legal(f: Feed, actions: seq<Action>)
    decreases |actions|
  {
    actions == [] || (Possible(f, actions[0]) && Legal(Step(f, actions[0]), actions[1..]))
  }

  function Run(f: Feed, actions: seq<Action>): Feed
    requires Legal(f, actions)
    decreases |actions|
  {
    if actions == [] then f else Run(Step(f, actions[0]), actions[1..])
  }

  /** Every append takes a larger number, and every read is answered from the log. */
  predicate FromLog(f: Feed, actions: seq<Action>)
    requires Legal(f, actions)
    decreases |actions|
  {
    actions == [] ||
    (Honest(f, actions[0]) && FromLog(Step(f, actions[0]), actions[1..]))
  }

  predicate Honest(f: Feed, a: Action) {
    match a
    case Append(e) => e.seqNo > LatestSeq(f.log)
    case Fetch(evs) => evs == EventsAfter(f.log, f.cursor, f.batch)
    case _ => true
  }

  // ---------- whatever the source returns ----------

  ghost predicate SubscriptionSound(s: Subscription, published: seq<Event>) {
    && s.joined + |s.received| <= |published|
    && s.received == published[s.joined..s.joined + |s.received|]
    && (s.active ==> s.joined + |s.received| == |published|)
  }

  ghost predicate Sound(f: Feed) {
    && Ascending(f.published)
    && (f.published != [] ==> f.published[|f.published| - 1].seqNo == f.cursor)
    && forall s :: s in f.subs ==> SubscriptionSound(s, f.published)
  }

  lemma PublishKeepsSubscription(s: Subscription, published: seq<Event>, e: Event)
    requires SubscriptionSound(s, published)
    ensures SubscriptionSound(if s.active then s.(received := s.received + [e]) else s, published + [e])
  {
    if s.active {
      assert s.received + [e] == (published + [e])[s.joined..];
    }
  }

  lemma DeliverKeepsSound(f: Feed)
    requires Sound(f) && f.fetched != []
    ensures Sound(Step(f, Deliver))
  {
    hide SubscriptionSound;
    var e, g := f.fetched[0], Step(f, Deliver);
    if e.seqNo > f.cursor {
      forall s | s in g.subs
        ensures SubscriptionSound(s, g.published)
      {
        var i :| 0 <= i < |g.subs| && g.subs[i] == s;
        PublishKeepsSubscription(f.subs[i], f.published, e);
      }
    }
  }

  lemma StepKeepsSound(f: Feed, a: Action)
    requires Sound(f) && Possible(f, a)
    ensures Sound(Step(f, a))
  {
    match a {
      case Deliver => DeliverKeepsSound(f);
      case Unsubscribe(id) => assert f.subs[id] in f.subs;
      case _ =>
    }
  }

  lemma {:induction false} RunKeepsSound(f: Feed, actions: seq<Action>)
    requires Sound(f) && Legal(f, actions)
    ensures Sound(Run(f, actions))
    decreases |actions|
  {
    if actions != [] {
      StepKeepsSound(f, actions[0]);
      RunKeepsSound(Step(f, actions[0]), actions[1..]);
    }
  }

  /** Even for a source that returns anything at all, published numbers strictly increase and every
      subscriber got one contiguous segment of what was published: from the moment it subscribed,
      and up to now while it is subscribed. */
  lemma EverySubscriberSeesASegment(log: seq<Event>, batch: nat, start: int, actions: seq<Action>)
    requires Legal(Started(log, batch, start), actions)
    ensures var f := Run(Started(log, batch, start), actions);
      && Ascending(f.published)
      && forall s :: s in f.subs ==>
        && s.joined + |s.received| <= |f.published|
        && s.received == f.published[s.joined..s.joined + |s.received|]
        && (s.active ==> s.received == f.published[s.joined..])
  {
    hide Legal, Run;
    assert Sound(Started(log, batch, start));
    RunKeepsSound(Started(log, batch, start), actions);
  }

  /** A subscription that ended stays as it was, whatever happens later. */
  lemma {:induction false} EndedStaysEnded(f: Feed, actions: seq<Action>, id: nat)
    requires Legal(f, actions) && id < |f.subs| && !f.subs[id].active
    ensures id < |Run(f, actions).subs| && Run(f, actions).subs[id] == f.subs[id]
    decreases |actions|
  {
    if actions != [] {
      EndedStaysEnded(Step(f, actions[0]), actions[1..], id);
    }
  }

  // ---------- what one subscription gets ----------

  lemma {:induction false} RunSplits(f: Feed, before: seq<Action>, after: seq<Action>)
    requires Legal(f, before + after)
    ensures Legal(f, before) && Legal(Run(f, before), after)
    ensures Run(f, before + after) == Run(Run(f, before), after)
    decreases |before|
  {
    hide Step, Possible;
    if before == [] {
      assert before + after == after;
    } else {
      assert (before + after)[1..] == before[1..] + after;
      RunSplits(Step(f, before[0]), before[1..], after);
    }
  }

  lemma {:induction false} PublishedGrows(f: Feed, actions: seq<Action>)
    requires Legal(f, actions)
    ensures f.published <= Run(f, actions).published && |f.subs| <= |Run(f, actions).subs|
    decreases |actions|
  {
    if actions != [] {
      PublishedGrows(Step(f, actions[0]), actions[1..]);
    }
  }

  /** While it is not ended a subscription gets all that is published. */
  lemma {:induction false} SubscribedGetsAll(f: Feed, actions: seq<Action>, id: nat)
    requires Legal(f, actions) && id < |f.subs| && f.subs[id].active && Unsubscribe(id) !in actions
    ensures var g := Run(f, actions);
      && f.published <= g.published && id < |g.subs| && g.subs[id].active
      && g.subs[id].received == f.subs[id].received + g.published[|f.published|..]
    decreases |actions|
  {
    if actions == [] {
      assert f.published[|f.published|..] == [];
    } else {
      assert actions[0] in actions && forall a :: a in actions[1..] ==> a in actions;
      var g := Step(f, actions[0]);
      assert f.published <= g.published && g.subs[id].received == f.subs[id].received + g.published[|f.published|..];
      SubscribedGetsAll(g, actions[1..], id);
      var end := Run(f, actions).published;
      assert g.published[|f.published|..] + end[|g.published|..] == end[|f.published|..];
    }
  }

  /** A subscription receives exactly what is published from when it begins until it is ended, whatever
      the source, the other subscriptions and later events. */
  lemma SubscriptionGetsItsSpan(f: Feed, during: seq<Action>, after: seq<Action>)
    requires Unsubscribe(|f.subs|) !in during
    requires Legal(f, [Subscribe] + during + ([Unsubscribe(|f.subs|)] + after))
    ensures Legal(f, [Subscribe] + during)
    ensures var id := |f.subs|;
      var middle, end := Run(f, [Subscribe] + during), Run(f, [Subscribe] + during + ([Unsubscribe(id)] + after));
      && f.published <= middle.published <= end.published && id < |middle.subs| && id < |end.subs|
      && middle.subs[id].received == middle.published[|f.published|..]
      && end.subs[id].received == end.published[|f.published|..|middle.published|]
  {
    hide Run, Legal;
    var id := |f.subs|;
    RunSplits(f, [Subscribe] + during, [Unsubscribe(id)] + after);
    RunSplits(f, [Subscribe], during);
    OneStep(f, Subscribe);
    var g := Step(f, Subscribe);
    SubscribedGetsAll(g, during, id);
    var middle := Run(f, [Subscribe] + during);
    RunSplits(middle, [Unsubscribe(id)], after);
    OneStep(middle, Unsubscribe(id));
    EndedStaysEnded(Step(middle, Unsubscribe(id)), after, id);
    PublishedGrows(Step(middle, Unsubscribe(id)), after);
  }

  lemma OneStep(f: Feed, a: Action)
    requires Legal(f, [a])
    ensures Possible(f, a) && Run(f, [a]) == Step(f, a)
  {
    assert [a][1..] == [];
  }

  // ---------- a log that only grows ----------

  /** What is published is the log between the start and the cursor, and what is fetched comes next. */
  ghost predicate Exact(f: Feed, start: int) {
    && Ascending(f.log) && start <= f.cursor
    && Upto(f.log, start) <= Upto(f.log, f.cursor)
    && f.published == f.log[Upto(f.log, start)..Upto(f.log, f.cursor)]
    && f.cursor == (if f.published == [] then start else f.published[|f.published| - 1].seqNo)
    && Upto(f.log, f.cursor) + |f.fetched| <= |f.log|
    && f.fetched == f.log[Upto(f.log, f.cursor)..Upto(f.log, f.cursor) + |f.fetched|]
  }

  /** In an ascending log there is one place where the numbers pass a cursor. */
  lemma UptoIs(log: seq<Event>, c: int, n: nat)
    requires Ascending(log) && n <= |log|
    requires n > 0 ==> log[n - 1].seqNo <= c
    requires n < |log| ==> c < log[n].seqNo
    ensures Upto(log, c) == n
  {
    assert forall i, j :: 0 <= i <= j < |log| ==> log[i].seqNo <= log[j].seqNo;
  }

  lemma AppendedUpto(log: seq<Event>, e: Event, c: int)
    requires Ascending(log) && e.seqNo > LatestSeq(log)
    ensures Ascending(log + [e])
    ensures Upto(log + [e], c) == if e.seqNo <= c then |log| + 1 else Upto(log, c)
  {
    assert log + [e] != [];
    assert forall i :: 0 <= i < |log| ==> log[i].seqNo <= LatestSeq(log);
    UptoIs(log + [e], c, if e.seqNo <= c then |log| + 1 else Upto(log, c));
  }

  /** A new row can lie at or below the cursor only while nothing was published: when the poller was
      started beyond the head. */
  lemma PublishedIsBelowNew(f: Feed, start: int, e: Event)
    requires Exact(f, start) && e.seqNo > LatestSeq(f.log) && e.seqNo <= f.cursor
    ensures f.cursor == start
  {
    hide Upto;
    assert f.published != [] ==> f.published[|f.published| - 1] in f.log;
    assert forall d :: d in f.log ==> d.seqNo <= LatestSeq(f.log);
  }

  lemma AppendKeepsExact(f: Feed, start: int, e: Event)
    requires Exact(f, start) && e.seqNo > LatestSeq(f.log)
    ensures Exact(f.(log := f.log + [e]), start)
  {
    hide Upto, LatestSeq, Ascending;
    AppendedUpto(f.log, e, f.cursor);
    AppendedUpto(f.log, e, start);
    if e.seqNo <= f.cursor {
      PublishedIsBelowNew(f, start, e);
      UptoIs(f.log, f.cursor, |f.log|) by {
        AboveLatest(f.log, e, f.cursor);
      }
    }
  }

  lemma AboveLatest(log: seq<Event>, e: Event, c: int)
    requires Ascending(log) && LatestSeq(log) < e.seqNo <= c
    ensures forall i :: 0 <= i < |log| ==> log[i].seqNo <= c
  {
  }

  lemma DeliverKeepsExact(f: Feed, start: int)
    requires Exact(f, start) && f.fetched != []
    ensures Exact(Step(f, Deliver), start)
    ensures Upto(f.log, Step(f, Deliver).cursor) == Upto(f.log, f.cursor) + 1
  {
    hide Upto;
    var n := Upto(f.log, f.cursor);
    assert f.fetched[0] == f.log[n];
    UptoIs(f.log, f.log[n].seqNo, n + 1);
    assert f.fetched[1..] == f.log[n + 1..n + |f.fetched|];
  }

  lemma StepKeepsExact(f: Feed, start: int, a: Action)
    requires Exact(f, start) && Possible(f, a) && Honest(f, a)
    ensures Exact(Step(f, a), start)
  {
    hide Upto, Ascending, LatestSeq;
    match a {
      case Append(e) => AppendKeepsExact(f, start, e);
      case Deliver => DeliverKeepsExact(f, start);
      case _ =>
    }
  }

  lemma {:induction false} RunKeepsExact(f: Feed, start: int, actions: seq<Action>)
    requires Exact(f, start) && Legal(f, actions) && FromLog(f, actions)
    ensures Exact(Run(f, actions), start)
    decreases |actions|
  {
    hide Exact, Honest;
    if actions != [] {
      StepKeepsExact(f, start, actions[0]);
      RunKeepsExact(Step(f, actions[0]), start, actions[1..]);
    }
  }

  /** With an append-only log of increasing numbers, everything published since the start is exactly
      the log between the start and the cursor, in order and once each; so every subscriber's events
      are one contiguous segment of the log. */
  lemma PublishedIsTheLogSegment(log: seq<Event>, batch: nat, start: int, actions: seq<Action>)
    requires Ascending(log)
    requires Legal(Started(log, batch, start), actions) && FromLog(Started(log, batch, start), actions)
    ensures var f := Run(Started(log, batch, start), actions);
      var lo, hi := Upto(f.log, start), Upto(f.log, f.cursor);
      && Ascending(f.log) && start <= f.cursor && lo <= hi && f.published == f.log[lo..hi]
      && forall s :: s in f.subs ==>
        && lo + s.joined + |s.received| <= hi
        && s.received == f.log[lo + s.joined..lo + s.joined + |s.received|]
        && (s.active ==> s.received == f.log[lo + s.joined..hi])
  {
    hide Legal, Run, FromLog, Upto, Ascending;
    var f := Run(Started(log, batch, start), actions);
    RunKeepsExact(Started(log, batch, start), start, actions);
    EverySubscriberSeesASegment(log, batch, start, actions);
    var lo, hi := Upto(f.log, start), Upto(f.log, f.cursor);
    forall s | s in f.subs
      ensures lo + s.joined + |s.received| <= hi && s.received == f.log[lo + s.joined..lo + s.joined + |s.received|]
    {
      SegmentOfSegment(f.log, lo, hi, s.joined, |s.received|);
    }
  }

  lemma SegmentOfSegment(log: seq<Event>, lo: nat, hi: nat, from: nat, n: nat)
    requires lo <= hi <= |log| && from + n <= hi - lo
    ensures log[lo..hi][from..from + n] == log[lo + from..lo + from + n]
  {
    var a, b := log[lo..hi][from..from + n], log[lo + from..lo + from + n];
    assert |a| == |b| == n;
    assert forall k :: 0 <= k < n ==> a[k] == log[lo..hi][from + k] == log[lo + (from + k)];
    assert forall k :: 0 <= k < n ==> b[k] == log[lo + from + k];
  }

  // ---------- polls ----------

  /** Delivering what is left of a batch. */
  function Drained(f: Feed): (g: Feed)
    ensures g.fetched == []
    decreases |f.fetched|
  {
    if f.fetched == [] then f else Drained(Step(f, Deliver))
  }

  /** One whole poll of the log. */
  function Polled(f: Feed): (g: Feed)
    requires f.fetched == []
    ensures g.fetched == []
  {
    Drained(Step(f, Fetch(EventsAfter(f.log, f.cursor, f.batch))))
  }

  function PolledTimes(f: Feed, k: nat): Feed
    requires f.fetched == []
    decreases k
  {
    if k == 0 then f else PolledTimes(Polled(f), k - 1)
  }

  /** The steps of a batch do to the cursor and the published events what the poller's method does to
      its field and to what each subscriber received. */
  lemma {:induction false} DrainedIsPoll(f: Feed)
    ensures Drained(f).fetched == [] && Drained(f).log == f.log && Drained(f).batch == f.batch
    ensures Drained(f).cursor == CursorAfter(f.fetched, f.cursor)
    ensures Drained(f).published == f.published + Kept(f.fetched, f.cursor)
    ensures |Drained(f).subs| == |f.subs|
    ensures forall i :: 0 <= i < |f.subs| ==>
      Drained(f).subs[i].received
      == f.subs[i].received + if f.subs[i].active then Kept(f.fetched, f.cursor) else []
    decreases |f.fetched|
  {
    if f.fetched != [] {
      DrainedIsPoll(Step(f, Deliver));
    }
  }

  lemma {:induction false} DrainedKeepsExact(f: Feed, start: int)
    requires Exact(f, start)
    ensures Exact(Drained(f), start) && Drained(f).fetched == [] && Drained(f).log == f.log && Drained(f).batch == f.batch
    ensures Upto(f.log, Drained(f).cursor) == Upto(f.log, f.cursor) + |f.fetched|
    decreases |f.fetched|
  {
    hide Exact;
    if f.fetched != [] {
      DeliverKeepsExact(f, start);
      DrainedKeepsExact(Step(f, Deliver), start);
    }
  }

  /** On a quiet log every poll advances by a batch, or to the head if that is nearer. */
  lemma PollAdvances(f: Feed, start: int)
    requires Exact(f, start) && f.fetched == []
    ensures Exact(Polled(f), start) && Polled(f).fetched == [] && Polled(f).log == f.log && Polled(f).batch == f.batch
    ensures var here := Upto(f.log, f.cursor);
      Upto(f.log, Polled(f).cursor) == if here + f.batch <= |f.log| then here + f.batch else |f.log|
  {
    hide Upto, Ascending;
    var g := Step(f, Fetch(EventsAfter(f.log, f.cursor, f.batch)));
    assert Exact(g, start);
    DrainedKeepsExact(g, start);
  }

  lemma {:induction false} PollsAdvance(f: Feed, start: int, k: nat)
    requires Exact(f, start) && f.fetched == []
    ensures var g := PolledTimes(f, k);
      && Exact(g, start) && g.log == f.log
      && Upto(f.log, g.cursor) ==
         if Upto(f.log, f.cursor) + k * f.batch <= |f.log| then Upto(f.log, f.cursor) + k * f.batch else |f.log|
    decreases k
  {
    hide Exact, Upto, Polled;
    if k > 0 {
      PollAdvances(f, start);
      PollsAdvance(Polled(f), start, k - 1);
      assert k * f.batch == f.batch + (k - 1) * f.batch;
    }
  }

  lemma HeadReached(f: Feed, start: int)
    requires Exact(f, start) && Upto(f.log, f.cursor) == |f.log|
    ensures f.published == f.log[Upto(f.log, start)..]
    ensures f.log != [] && start < LatestSeq(f.log) ==> f.cursor == LatestSeq(f.log)
  {
    hide Ascending;
  }

  function Delivers(n: nat): seq<Action> {
    if n == 0 then [] else [Deliver] + Delivers(n - 1)
  }

  /** What a poll does, step by step: a read followed by one delivery for each event read. */
  function PollSteps(f: Feed): seq<Action> {
    var evs := EventsAfter(f.log, f.cursor, f.batch);
    [Fetch(evs)] + Delivers(|evs|)
  }

  function PollsSteps(f: Feed, k: nat): seq<Action>
    requires f.fetched == []
    decreases k
  {
    if k == 0 then [] else PollSteps(f) + PollsSteps(Polled(f), k - 1)
  }

  lemma PolledIsARun(f: Feed)
    requires f.fetched == []
    ensures Legal(f, PollSteps(f)) && FromLog(f, PollSteps(f)) && Run(f, PollSteps(f)) == Polled(f)
  {
    hide Upto, Step;
    var evs := EventsAfter(f.log, f.cursor, f.batch);
    var g := Step(f, Fetch(evs));
    assert PollSteps(f)[1..] == Delivers(|evs|);
    assert g.fetched == evs by {
      FetchSets(f, evs);
    }
    DrainedIsARun(g);
  }

  lemma FetchSets(f: Feed, evs: seq<Event>)
    requires f.fetched == []
    ensures Step(f, Fetch(evs)).fetched == evs
  {
  }

  lemma {:induction false} DrainedIsARun(f: Feed)
    ensures var actions := Delivers(|f.fetched|);
      Legal(f, actions) && FromLog(f, actions) && Run(f, actions) == Drained(f)
    decreases |f.fetched|
  {
    if f.fetched != [] {
      DrainedIsARun(Step(f, Deliver));
      assert Delivers(|f.fetched|)[1..] == Delivers(|f.fetched| - 1);
    }
  }

  lemma {:induction false} RunsJoin(f: Feed, before: seq<Action>, after: seq<Action>)
    requires Legal(f, before) && FromLog(f, before)
    requires Legal(Run(f, before), after) && FromLog(Run(f, before), after)
    ensures Legal(f, before + after) && FromLog(f, before + after)
    ensures Run(f, before + after) == Run(Run(f, before), after)
    decreases |before|
  {
    hide Step, Honest, Possible;
    if before == [] {
      assert before + after == after;
    } else {
      assert (before + after)[1..] == before[1..] + after;
      RunsJoin(Step(f, before[0]), before[1..], after);
    }
  }

  lemma {:induction false} PollsAreARun(f: Feed, k: nat)
    requires f.fetched == []
    ensures Legal(f, PollsSteps(f, k)) && FromLog(f, PollsSteps(f, k)) && Run(f, PollsSteps(f, k)) == PolledTimes(f, k)
    ensures forall a :: a in PollsSteps(f, k) ==> a.Fetch? || a.Deliver?
    decreases k
  {
    hide Polled, PollSteps, Legal, FromLog, Run;
    if k > 0 {
      PolledIsARun(f);
      PollsAreARun(Polled(f), k - 1);
      RunsJoin(f, PollSteps(f), PollsSteps(Polled(f), k - 1));
      PollOnlyReads(f);
    } else {
      NoSteps(f);
    }
  }

  lemma NoSteps(f: Feed)
    ensures Legal(f, []) && FromLog(f, []) && Run(f, []) == f
  {
  }

  lemma PollOnlyReads(f: Feed)
    ensures forall a :: a in PollSteps(f) ==> a.Fetch? || a.Deliver?
  {
    DeliversOnly(|EventsAfter(f.log, f.cursor, f.batch)|);
  }

  lemma {:induction false} DeliversOnly(n: nat)
    ensures forall a :: a in Delivers(n) ==> a.Deliver?
  {
    if n > 0 {
      DeliversOnly(n - 1);
    }
  }

  /** Every run in which the log goes quiet can be continued, by reads and deliveries alone, until
      everything after the start is published and the cursor is at the head; and k polls are such a
      continuation as soon as k batches cover what is left. */
  lemma PollsReachTheHead(log: seq<Event>, batch: nat, start: int, actions: seq<Action>, k: nat)
    requires Ascending(log)
    requires Legal(Started(log, batch, start), actions) && FromLog(Started(log, batch, start), actions)
    requires var f := Run(Started(log, batch, start), actions);
      f.fetched == [] && |f.log| - Upto(f.log, f.cursor) <= k * f.batch
    ensures var s := Started(log, batch, start); var f := Run(s, actions); var more := PollsSteps(f, k);
      && (forall a :: a in more ==> a.Fetch? || a.Deliver?)
      && Legal(s, actions + more) && FromLog(s, actions + more)
      && var g := Run(s, actions + more);
      && g.log == f.log && g.published == g.log[Upto(g.log, start)..]
      && (g.log != [] && start < LatestSeq(g.log) ==> g.cursor == LatestSeq(g.log))
  {
    hide Legal, Run, FromLog, Ascending, Upto, PolledTimes, PollsSteps, LatestSeq;
    var s := Started(log, batch, start);
    RunKeepsExact(s, start, actions);
    var f := Run(s, actions);
    PollsAdvance(f, start, k);
    PollsAreARun(f, k);
    RunsJoin(s, actions, PollsSteps(f, k));
    HeadReached(PolledTimes(f, k), start);
  }

  // ---------- seeking ----------

  lemma {:induction false} LogOnlyGrows(f: Feed, actions: seq<Action>)
    requires Legal(f, actions)
    ensures f.log <= Run(f, actions).log
    decreases |actions|
  {
    if actions != [] {
      LogOnlyGrows(Step(f, actions[0]), actions[1..]);
    }
  }

  /** A poller that starts at the head, as `SeekToHead` leaves it, publishes only rows appended since:
      a restart never repeats history. */
  lemma SeekSkipsHistory(log: seq<Event>, batch: nat, actions: seq<Action>)
    requires Ascending(log) && forall e :: e in log ==> e.seqNo > 0
    requires var s := Started(log, batch, LatestSeq(log)); Legal(s, actions) && FromLog(s, actions)
    ensures var f := Run(Started(log, batch, LatestSeq(log)), actions);
      && log <= f.log && |log| + |f.published| <= |f.log|
      && f.published == f.log[|log|..|log| + |f.published|]
  {
    hide Legal, Run, FromLog, Upto;
    var start := LatestSeq(log);
    var f := Run(Started(log, batch, start), actions);
    PublishedIsTheLogSegment(log, batch, start, actions);
    LogOnlyGrows(Started(log, batch, start), actions);
    RunKeepsExact(Started(log, batch, start), start, actions);
    AppendedIsAbove(log, batch, actions);
    UptoIs(f.log, start, |log|);
  }

  /** What was appended since is numbered above the head of then. */
  lemma AppendedIsAbove(log: seq<Event>, batch: nat, actions: seq<Action>)
    requires Ascending(log) && forall e :: e in log ==> e.seqNo > 0
    requires var s := Started(log, batch, LatestSeq(log)); Legal(s, actions) && FromLog(s, actions)
    ensures var f := Run(Started(log, batch, LatestSeq(log)), actions);
      log <= f.log && (|log| < |f.log| ==> f.log[|log|].seqNo > LatestSeq(log))
  {
    hide Upto;
    NextRowIsAbove(Started(log, batch, LatestSeq(log)), actions, |log|, LatestSeq(log));
  }

  lemma {:induction false} NextRowIsAbove(f: Feed, actions: seq<Action>, n: nat, head: int)
    requires Legal(f, actions) && FromLog(f, actions) && n <= |f.log|
    requires if n == |f.log| then LatestSeq(f.log) == head else f.log[n].seqNo > head
    ensures var g := Run(f, actions); f.log <= g.log && (n < |g.log| ==> g.log[n].seqNo > head)
    decreases |actions|
  {
    hide Upto;
    if actions != [] {
      NextRowIsAbove(Step(f, actions[0]), actions[1..], n, head);
    }
  }
}
