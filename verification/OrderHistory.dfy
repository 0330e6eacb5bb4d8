/**
 * What each event of the process does to orders and their links, and what an order's status
 * means: music-api/src/db.rs, told from outside, by event and not by call.
 */
module OrderHistory {
  import opened Wrappers
  import opened Ledger
  import opened Calls
  import opened CallEffects
  import opened LedgerInvariant
  import opened Scheduler
  import opened SchedulerInvariant
  import opened TrackHistory
  import T = SchedulerTheorems
  import W = SchedulerWitness

  // ── Links, priorities and existence ──────────────────────────────────────

  predicate Creates(w: World, e: Event, o: OrderId) {
    e.PostOrder? && e.order == o && o !in w.db.orders
  }

  lemma LinkCall(db: Db, call: Call, policy: RetryPolicy, now: int, o: OrderId, i: Isrc)
    ensures Link(o, i) in Apply(db, call, policy, now).links
       <==> || (Link(o, i) in db.links && call != CancelOrderCall(o))
            || (call.CreateOrderCall? && call.order == o && o !in db.orders && i in call.isrcs)
  {
  }

  lemma OrderCallMakes(db: Db, call: Call, policy: RetryPolicy, now: int, o: OrderId)
    ensures var db' := Apply(db, call, policy, now);
            && (o in db'.orders <==> o in db.orders || (call.CreateOrderCall? && call.order == o))
            && (o in db'.orders ==>
                  db'.orders[o].priority == if o !in db.orders then call.priority
                                            else if call.SetPriorityCall? && call.order == o then call.priority
                                            else db.orders[o].priority)
  {
  }

  lemma OrderEvents(cfg: Config, w: World, e: Event, o: OrderId)
    requires Enabled(cfg, w, e)
    ensures e == CancelOrder(o) <==> CallOf(cfg, w, e) == CancelOrderCall(o)
    ensures e.PostOrder? <==> CallOf(cfg, w, e).CreateOrderCall?
    ensures e.PostOrder? ==> CallOf(cfg, w, e) == CreateOrderCall(e.order, e.isrcs, e.priority)
    ensures e.Reprioritise? <==> CallOf(cfg, w, e).SetPriorityCall?
    ensures e.Reprioritise? ==> CallOf(cfg, w, e) == SetPriorityCall(e.order, e.priority)
  {
  }

  lemma StepApplies(cfg: Config, w: World, e: Event)
    requires Enabled(cfg, w, e)
    ensures Step(cfg, w, e).db == Apply(w.db, CallOf(cfg, w, e), cfg.policy, w.clock)
  {
  }

  /** An order links the tracks it was posted with, until it is cancelled. */
  lemma LinkStep(cfg: Config, w: World, e: Event, o: OrderId, i: Isrc)
    requires Enabled(cfg, w, e)
    ensures Link(o, i) in Step(cfg, w, e).db.links
       <==> (Link(o, i) in w.db.links && e != CancelOrder(o)) || (Creates(w, e, o) && i in e.isrcs)
  {
    StepApplies(cfg, w, e);
    LinkCall(w.db, CallOf(cfg, w, e), cfg.policy, w.clock, o, i);
    OrderEvents(cfg, w, e, o);
  }

  /** An order exists from its posting on, at the priority it was posted or last raised or lowered to. */
  lemma PriorityStep(cfg: Config, w: World, e: Event, o: OrderId)
    requires Enabled(cfg, w, e)
    ensures var orders := Step(cfg, w, e).db.orders;
            && (o in orders <==> o in w.db.orders || Creates(w, e, o))
            && (o in orders ==>
                  orders[o].priority == if Creates(w, e, o) then e.priority
                                        else if e.Reprioritise? && e.order == o then e.priority
                                        else w.db.orders[o].priority)
  {
    StepApplies(cfg, w, e);
    OrderCallMakes(w.db, CallOf(cfg, w, e), cfg.policy, w.clock, o);
    OrderEvents(cfg, w, e, o);
  }

  // ── Cancelling ───────────────────────────────────────────────────────────

  predicate IsCancelled(db: Db, o: OrderId) {
    o in db.orders && db.orders[o].status.Cancelled?
  }

  lemma CallCancels(db: Db, call: Call, policy: RetryPolicy, now: int, o: OrderId)
    requires IsCancelled(db, o) ==> forall i :: Link(o, i) !in db.links
    ensures IsCancelled(Apply(db, call, policy, now), o)
       <==> IsCancelled(db, o) || (call == CancelOrderCall(o) && o in db.orders)
  {
    if IsCancelled(db, o) {
      CancelledStays(db, call, policy, now, o);
    } else {
      OthersNeverCancel(db, call, policy, now, o);
    }
  }

  lemma OthersNeverCancel(db: Db, call: Call, policy: RetryPolicy, now: int, o: OrderId)
    requires !IsCancelled(db, o)
    ensures IsCancelled(Apply(db, call, policy, now), o) <==> call == CancelOrderCall(o) && o in db.orders
  {
  }

  /** A step leaves an order cancelled exactly if it was so before, or is cancelled by it after its creation. */
  lemma CancelStep(cfg: Config, w: World, e: Event, o: OrderId)
    requires Inv(cfg, w) && Enabled(cfg, w, e)
    ensures IsCancelled(Step(cfg, w, e).db, o)
       <==> IsCancelled(w.db, o) || (e == CancelOrder(o) && o in w.db.orders)
  {
    if IsCancelled(w.db, o) {
      T.CancelledHasNoLinks(cfg, w, o);
    }
    StepApplies(cfg, w, e);
    CallCancels(w.db, CallOf(cfg, w, e), cfg.policy, w.clock, o);
    OrderEvents(cfg, w, e, o);
  }

  /** Somewhere in the run the order is cancelled, once it exists. */
  ghost predicate CancelledIn(cfg: Config, w: World, events: seq<Event>, o: OrderId)
    requires ValidRun(cfg, w, events)
    decreases |events|
  {
    && events != []
    && (|| (events[0] == CancelOrder(o) && o in w.db.orders)
        || CancelledIn(cfg, Step(cfg, w, events[0]), events[1..], o))
  }

  lemma {:induction false} CancelledAlong(cfg: Config, w: World, events: seq<Event>, o: OrderId)
    requires ValidConfig(cfg) && Inv(cfg, w) && ValidRun(cfg, w, events)
    ensures IsCancelled(After(cfg, w, events).db, o) <==> IsCancelled(w.db, o) || CancelledIn(cfg, w, events, o)
    decreases |events|
  {
    if events != [] {
      CancelStep(cfg, w, events[0], o);
      StepKeepsInv(cfg, w, events[0]);
      CancelledAlong(cfg, Step(cfg, w, events[0]), events[1..], o);
    }
  }

  /** Over every run of the process: an order is cancelled at the end exactly if it was cancelled after its creation. */
  lemma CancelledExactly(cfg: Config, start: int, events: seq<Event>, o: OrderId)
    requires ValidConfig(cfg) && ValidRun(cfg, EmptyWorld(start), events)
    ensures IsCancelled(After(cfg, EmptyWorld(start), events).db, o) <==> CancelledIn(cfg, EmptyWorld(start), events, o)
  {
    EmptyWorldInv(cfg, start);
    CancelledAlong(cfg, EmptyWorld(start), events, o);
  }

  /** Cancelling an order marks it and takes its links; nothing else in the world changes. */
  lemma CancelTouchesNothingElse(cfg: Config, w: World, o: OrderId)
    ensures var w' := Step(cfg, w, CancelOrder(o));
            && w'.db.tracks == w.db.tracks && w'.db.items == w.db.items
            && w'.db.orders.Keys == w.db.orders.Keys
            && (o in w.db.orders ==> w'.db.orders[o] == Order(Cancelled, w.db.orders[o].priority))
            && (forall p :: p in w.db.orders && p != o ==> w'.db.orders[p] == w.db.orders[p])
            && (forall l :: l in w'.db.links <==> l in w.db.links && l.order != o)
            && w' == w.(db := w'.db)
  {
  }

  // ── What a status means ──────────────────────────────────────────────────

  /** Waiting for a try, or under way. */
  ghost predicate SomeUnfinished(db: Db, o: OrderId) {
    exists i :: Link(o, i) in db.links && i in db.tracks && (db.tracks[i].state.Pending? || db.tracks[i].state.Downloading?)
  }

  ghost predicate AllReady(db: Db, o: OrderId) {
    forall i :: Link(o, i) in db.links ==> i in db.tracks && db.tracks[i].state.Ready?
  }

  ghost predicate HasLinks(db: Db, o: OrderId) {
    exists i :: Link(o, i) in db.links
  }

  lemma StatusOfLinked(db: Db, o: OrderId)
    requires forall i :: Link(o, i) in db.links ==> i in db.tracks
    ensures var s := StatusOf(db.tracks, db.links, o);
            && (s.Open? <==> !HasLinks(db, o) || SomeUnfinished(db, o))
            && (s.Complete? <==> HasLinks(db, o) && AllReady(db, o))
            && (s.Partial? <==> HasLinks(db, o) && !SomeUnfinished(db, o) && !AllReady(db, o))
  {
    var rows := Joined(db.tracks, db.links, o);
    assert forall i :: i in rows <==> Link(o, i) in db.links by {
      forall i | Link(o, i) in db.links ensures i in rows {
        assert Link(o, i).isrc == i;
      }
    }
    if HasLinks(db, o) {
      var i :| Link(o, i) in db.links;
      assert i in rows;
    }
  }

  /** An order without links that is not cancelled is open. */
  ghost predicate LonelyIsOpen(db: Db) {
    forall o :: o in db.orders && !HasLinks(db, o) && !IsCancelled(db, o) ==> db.orders[o].status.Open?
  }

  lemma LonelyCall(db: Db, call: Call, policy: RetryPolicy, now: int, o: OrderId)
    requires o in db.orders && !HasLinks(db, o) && call != CancelOrderCall(o)
    ensures o in Apply(db, call, policy, now).orders
    ensures Apply(db, call, policy, now).orders[o].status == db.orders[o].status
  {
    assert forall i :: Link(o, i) !in db.links;
  }

  lemma LonelyStep(cfg: Config, w: World, e: Event, o: OrderId)
    requires Enabled(cfg, w, e) && LonelyIsOpen(w.db)
    requires o in Step(cfg, w, e).db.orders && !HasLinks(Step(cfg, w, e).db, o) && !IsCancelled(Step(cfg, w, e).db, o)
    ensures Step(cfg, w, e).db.orders[o].status.Open?
  {
    var call := CallOf(cfg, w, e);
    StepApplies(cfg, w, e);
    PriorityStep(cfg, w, e, o);
    OrderEvents(cfg, w, e, o);
    if o in w.db.orders {
      if e != CancelOrder(o) {
        NoLinkLost(cfg, w, e, o);
        LonelyCall(w.db, call, cfg.policy, w.clock, o);
      }
    } else {
      CreatedLonely(w.db, call, cfg.policy, w.clock, o);
    }
  }

  lemma NoLinkLost(cfg: Config, w: World, e: Event, o: OrderId)
    requires Enabled(cfg, w, e) && e != CancelOrder(o) && !HasLinks(Step(cfg, w, e).db, o)
    ensures !HasLinks(w.db, o)
  {
    forall i ensures Link(o, i) !in w.db.links {
      LinkStep(cfg, w, e, o, i);
    }
  }

  lemma CreatedLonely(db: Db, call: Call, policy: RetryPolicy, now: int, o: OrderId)
    requires call.CreateOrderCall? && call.order == o && o !in db.orders
    requires !HasLinks(Apply(db, call, policy, now), o)
    ensures Apply(db, call, policy, now).orders[o].status.Open?
  {
    var db' := Apply(db, call, policy, now);
    assert forall i :: Link(o, i) !in db'.links;
    assert Joined(db'.tracks, db'.links, o) == {};
  }

  lemma {:induction false} LonelyAlong(cfg: Config, w: World, events: seq<Event>)
    requires ValidRun(cfg, w, events) && LonelyIsOpen(w.db)
    ensures LonelyIsOpen(After(cfg, w, events).db)
    decreases |events|
  {
    if events != [] {
      var w' := Step(cfg, w, events[0]);
      forall o | o in w'.db.orders && !HasLinks(w'.db, o) && !IsCancelled(w'.db, o)
        ensures w'.db.orders[o].status.Open?
      {
        LonelyStep(cfg, w, events[0], o);
      }
      LonelyAlong(cfg, w', events[1..]);
    }
  }

  /**
   * In every reachable world: an order that is not cancelled is open while it has no tracks or one
   * of them is pending or downloading, complete if all its tracks are ready, and else partial.
   */
  lemma StatusExactly(cfg: Config, w: World, o: OrderId)
    requires ValidConfig(cfg) && T.Reachable(cfg, w) && o in w.db.orders && !IsCancelled(w.db, o)
    ensures var s := w.db.orders[o].status;
            && (s.Open? <==> !HasLinks(w.db, o) || SomeUnfinished(w.db, o))
            && (s.Complete? <==> HasLinks(w.db, o) && AllReady(w.db, o))
            && (s.Partial? <==> HasLinks(w.db, o) && !SomeUnfinished(w.db, o) && !AllReady(w.db, o))
  {
    T.ReachableInv(cfg, w);
    if HasLinks(w.db, o) {
      var i :| Link(o, i) in w.db.links;
      assert LinkOk(w.db, Link(o, i));
      forall j | Link(o, j) in w.db.links ensures j in w.db.tracks {
        assert LinkOk(w.db, Link(o, j));
      }
      StatusOfLinked(w.db, o);
    } else {
      var start: int, events: seq<Event> :|
        ValidRun(cfg, EmptyWorld(start), events) && w == After(cfg, EmptyWorld(start), events);
      LonelyAlong(cfg, EmptyWorld(start), events);
    }
  }

  /** All tracks of the order but one are ready. */
  ghost predicate OthersReady(db: Db, o: OrderId, i: Isrc) {
    forall j :: Link(o, j) in db.links && j != i ==> j in db.tracks && db.tracks[j].state.Ready?
  }

  /** A found file makes its track ready, and completes every order whose other tracks are ready. */
  lemma FoundFileCompletes(cfg: Config, w: World, e: Event, i: Isrc, o: OrderId)
    requires ValidConfig(cfg) && T.Reachable(cfg, w) && Enabled(cfg, w, e)
    requires FileFound(e, i) && Link(o, i) in w.db.links
    ensures var db' := Step(cfg, w, e).db;
            && i in db'.tracks && db'.tracks[i].state.Ready?
            && o in db'.orders && (db'.orders[o].status.Complete? <==> OthersReady(w.db, o, i))
  {
    var w' := Step(cfg, w, e);
    W.ReachableIsClosed(cfg, w, e);
    FoundFileLinked(cfg, w, e, i, o);
    StatusExactly(cfg, w', o);
    OthersAsBefore(cfg, w, e, i, o);
    assert Link(o, i) in w'.db.links;
    assert AllReady(w'.db, o) <==> OthersReady(w'.db, o, i);
  }

  lemma FoundFileLinked(cfg: Config, w: World, e: Event, i: Isrc, o: OrderId)
    requires ValidConfig(cfg) && T.Reachable(cfg, w) && Enabled(cfg, w, e)
    requires FileFound(e, i) && Link(o, i) in w.db.links
    ensures var db' := Step(cfg, w, e).db;
            && i in db'.tracks && db'.tracks[i].state.Ready?
            && o in db'.orders && !IsCancelled(db', o) && Link(o, i) in db'.links
  {
    T.ReachableInv(cfg, w);
    assert LinkOk(w.db, Link(o, i));
    TrackStep(cfg, w, e, i);
    PriorityStep(cfg, w, e, o);
    LinkStep(cfg, w, e, o, i);
    if IsCancelled(w.db, o) {
      T.CancelledHasNoLinks(cfg, w, o);
    }
    CancelStep(cfg, w, e, o);
  }

  lemma OthersAsBefore(cfg: Config, w: World, e: Event, i: Isrc, o: OrderId)
    requires Enabled(cfg, w, e) && FileFound(e, i)
    ensures OthersReady(Step(cfg, w, e).db, o, i) <==> OthersReady(w.db, o, i)
  {
    var db' := Step(cfg, w, e).db;
    forall j | j != i
      ensures Link(o, j) in db'.links <==> Link(o, j) in w.db.links
      ensures (j in db'.tracks && db'.tracks[j].state.Ready?) <==> (j in w.db.tracks && w.db.tracks[j].state.Ready?)
    {
      LinkStep(cfg, w, e, o, j);
      OthersKeepState(cfg, w, e, i, j);
    }
  }

  lemma OthersKeepState(cfg: Config, w: World, e: Event, i: Isrc, j: Isrc)
    requires Enabled(cfg, w, e) && FileFound(e, i) && i != j
    ensures var tracks := Step(cfg, w, e).db.tracks;
            (j in tracks && tracks[j].state.Ready?) <==> (j in w.db.tracks && w.db.tracks[j].state.Ready?)
  {
    TrackStep(cfg, w, e, j);
  }
}
