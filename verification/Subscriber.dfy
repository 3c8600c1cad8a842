/** A WebSocket subscriber of subscribe_entities: a snapshot, then the lossy event ring, carried to the client
    through a bounded queue. Snapshot and subscription are taken in one step, as no other task can run between
    them. The client never sees a removal: the store broadcasts none. */
module Subscriber {
  import opened StateStore
  import opened Text
  import Timestamp

  /** How timestamps are read: iso_to_epoch, but nothing before the last section depends on that. */
  type Reader = string -> Timestamp.Reading

  /** The compressed form of a state; its two timestamps travel as numbers. */
  datatype Compressed = Compressed(value: seq<Byte>, attributes: map<string, string>,
                                   lc: Timestamp.Reading, lu: Timestamp.Reading)

  function Compress(s: State, read: Reader): Compressed {
    Compressed(s.value, s.attributes, read(s.lastChanged), read(s.lastUpdated))
  }

  /** The client shows the state's value, its attributes and the numbers of its two timestamps. */
  predicate Shows(c: Compressed, s: State, read: Reader) {
    c.value == s.value && c.attributes == s.attributes && c.lc == read(s.lastChanged) && c.lu == read(s.lastUpdated)
  }

  type View = map<string, Compressed>

  function CompressAll(states: map<string, State>, read: Reader): View {
    map id | id in states :: Compress(states[id], read)
  }

  const QUEUE_CAPACITY: nat := 256

  /** The task forwards one message at a time and waits while the queue is full. */
  datatype Task = Task(next: nat, pending: seq<View>)

  /** The fields from `removed` on only record the past and are read by no step: the entities removed since
      and not set again, every event sent, where the subscription began, its first message, the events the task
      received, whether it ever lagged, and how many messages the client has. */
  datatype World = World(store: Store, task: Task, queue: seq<View>, view: View,
                         removed: set<string>, log: seq<Event>, start: nat, snapshot: map<string, State>,
                         taken: seq<nat>, lagged: bool, delivered: nat, read: Reader)

  datatype Action = Change(op: Op) | Pull | Push | Deliver

  function Subscribed(store: Store, log: seq<Event>, read: Reader): World {
    World(store, Task(store.channel.sent, [CompressAll(store.states, read)]), [], map[],
          {}, log, store.channel.sent, store.states, [], false, 0, read)
  }

  function Addition(e: Event, read: Reader): View {
    map[e.state.entityId := Compress(e.state, read)]
  }

  function RemovedAfter(removed: set<string>, op: Op): set<string> {
    match op
    case Set(s) => if Accepted(s) then removed - {s.entityId} else removed
    case Remove(id) => removed + {id}
  }

  function Step(w: World, a: Action): World
    requires WellFormed(w.store.channel)
  {
    match a
    case Change(op) =>
      w.(store := Apply(w.store, op), log := w.log + EventOf(w.store, op), removed := RemovedAfter(w.removed, op))
    case Pull =>
      if w.task.pending != [] then w
      else (match Receive(w.store.channel, w.task.next)
            case Empty => w
            case Lagged(next) => w.(task := Task(next, []), lagged := true)
            case Got(e, next) => w.(task := Task(next, [Addition(e, w.read)]), taken := w.taken + [w.task.next]))
    case Push =>
      if w.task.pending == [] || |w.queue| >= QUEUE_CAPACITY then w
      else w.(task := Task(w.task.next, w.task.pending[1..]), queue := w.queue + [w.task.pending[0]])
    case Deliver =>
      if w.queue == [] then w
      else w.(view := w.view + w.queue[0], queue := w.queue[1..], delivered := w.delivered + 1)
  }

  // ---------------------------------------------------------------------------
  // What every reachable world keeps
  // ---------------------------------------------------------------------------

  function Fold(messages: seq<View>): View {
    if messages == [] then map[] else Fold(messages[..|messages| - 1]) + messages[|messages| - 1]
  }

  predicate InLog(log: seq<Event>, taken: seq<nat>) {
    forall k :: 0 <= k < |taken| ==> taken[k] < |log|
  }

  /** The messages of the snapshot and of the events taken. */
  function Messages(snapshot: map<string, State>, log: seq<Event>, taken: seq<nat>, read: Reader): (r: seq<View>)
    requires InLog(log, taken)
    ensures |r| == |taken| + 1
  {
    [CompressAll(snapshot, read)] + seq(|taken|, k requires 0 <= k < |taken| => Addition(log[taken[k]], read))
  }

  /** The last event of the entity at or after position start. */
  function LastFrom(log: seq<Event>, start: nat, id: string): (r: Option<nat>)
    ensures r.Some? ==> start <= r.value < |log| && log[r.value].state.entityId == id
    ensures forall i :: start <= i < |log| && log[i].state.entityId == id ==> r.Some? && i <= r.value
  {
    if |log| <= start then None
    else if log[|log| - 1].state.entityId == id then Some(|log| - 1)
    else LastFrom(log[..|log| - 1], start, id)
  }

  /** What the store last held of the entity, as far as the snapshot and the events since tell. */
  function LastKnown(snapshot: map<string, State>, log: seq<Event>, start: nat, id: string): Option<State> {
    match LastFrom(log, start, id)
    case None => Lookup(snapshot, id)
    case Some(i) => Some(log[i].state)
  }

  /** The events taken come in order, none twice, all sent since the subscription and all already passed. */
  predicate TakenInOrder(log: seq<Event>, start: nat, next: nat, taken: seq<nat>, lagged: bool) {
    && InLog(log, taken)
    && start <= next <= |log|
    && (forall k :: 0 <= k < |taken| ==> start <= taken[k] < next)
    && (forall j, k :: 0 <= j < k < |taken| ==> taken[j] < taken[k])
    && (!lagged ==> |taken| == next - start && forall k :: 0 <= k < |taken| ==> taken[k] == start + k)
  }

  /** The first n messages made the view, and the rest is on its way. */
  predicate Flows(all: seq<View>, n: nat, view: View, onTheWay: seq<View>) {
    n <= |all| && view == Fold(all[..n]) && all[n..] == onTheWay
  }

  lemma FlowIn(all: seq<View>, n: nat, view: View, onTheWay: seq<View>, m: View)
    requires Flows(all, n, view, onTheWay)
    ensures Flows(all + [m], n, view, onTheWay + [m])
  {
    assert (all + [m])[..n] == all[..n];
    assert (all + [m])[n..] == all[n..] + [m];
  }

  lemma FlowOut(all: seq<View>, n: nat, view: View, onTheWay: seq<View>)
    requires Flows(all, n, view, onTheWay) && onTheWay != []
    ensures Flows(all, n + 1, view + onTheWay[0], onTheWay[1..])
  {
    assert all[n] == onTheWay[0];
    assert all[..n + 1][..n] == all[..n];
  }

  ghost predicate StoreIsKnown(store: Store, removed: set<string>, log: seq<Event>, start: nat,
                               snapshot: map<string, State>) {
    && RingHolds(store.channel, log)
    && (forall id :: id in removed ==> id !in store.states)
    && (forall id :: id !in removed ==> Lookup(store.states, id) == LastKnown(snapshot, log, start, id))
  }

  /** The last conjunct says that no message is lost, repeated or reordered between ring and client. */
  ghost predicate Inv(w: World) {
    && |w.task.pending| <= 1
    && StoreIsKnown(w.store, w.removed, w.log, w.start, w.snapshot)
    && TakenInOrder(w.log, w.start, w.task.next, w.taken, w.lagged)
    && Flows(Messages(w.snapshot, w.log, w.taken, w.read), w.delivered, w.view, w.queue + w.task.pending)
  }

  lemma InvAtStart(store: Store, log: seq<Event>, read: Reader)
    requires RingHolds(store.channel, log)
    ensures Inv(Subscribed(store, log, read))
  {
    assert [] + [CompressAll(store.states, read)] == [CompressAll(store.states, read)];
  }

  lemma LastEvent(log: seq<Event>, start: nat, e: Event, id: string)
    requires start <= |log|
    ensures LastFrom(log + [e], start, id)
         == if e.state.entityId == id then Some(|log|) else LastFrom(log, start, id)
  {
    assert (log + [e])[..|log|] == log;
  }

  lemma ChangeKeepsStoreKnown(store: Store, removed: set<string>, log: seq<Event>, start: nat,
                              snapshot: map<string, State>, op: Op)
    requires start <= |log| && StoreIsKnown(store, removed, log, start, snapshot)
    ensures StoreIsKnown(Apply(store, op), RemovedAfter(removed, op), log + EventOf(store, op), start, snapshot)
  {
    var e := EventOf(store, op);
    if e == [] {
      assert log + e == log;
    } else {
      SendKeepsRing(store.channel, log, e[0]);
      assert log + e == log + [e[0]];
      forall id {
        LastEvent(log, start, e[0], id);
      }
    }
    forall id | id !in RemovedAfter(removed, op)
      ensures Lookup(Apply(store, op).states, id) == LastKnown(snapshot, log + e, start, id)
    {
      if !Touches(op, id) {
        assert Lookup(Apply(store, op).states, id) == Lookup(store.states, id);
      }
    }
  }

  lemma ChangeKeepsInv(w: World, op: Op)
    requires Inv(w)
    ensures Inv(Step(w, Change(op)))
  {
    ChangeKeepsStoreKnown(w.store, w.removed, w.log, w.start, w.snapshot, op);
    assert Messages(w.snapshot, w.log + EventOf(w.store, op), w.taken, w.read)
        == Messages(w.snapshot, w.log, w.taken, w.read);
  }

  lemma TakeKeepsOrder(log: seq<Event>, start: nat, next: nat, taken: seq<nat>, lagged: bool)
    requires TakenInOrder(log, start, next, taken, lagged) && next < |log|
    ensures TakenInOrder(log, start, next + 1, taken + [next], lagged)
  {
  }

  lemma MessagesGrow(snapshot: map<string, State>, log: seq<Event>, taken: seq<nat>, next: nat, read: Reader)
    requires InLog(log, taken) && next < |log|
    ensures InLog(log, taken + [next])
    ensures Messages(snapshot, log, taken + [next], read)
         == Messages(snapshot, log, taken, read) + [Addition(log[next], read)]
  {
  }

  lemma TakeKeepsFlow(w: World, next: nat)
    requires Inv(w) && w.task == Task(next, []) && next < |w.log|
    ensures InLog(w.log, w.taken + [next])
    ensures var m := Addition(w.log[next], w.read);
      Flows(Messages(w.snapshot, w.log, w.taken + [next], w.read), w.delivered, w.view, w.queue + [m])
  {
    MessagesGrow(w.snapshot, w.log, w.taken, next, w.read);
    assert w.queue + [] == w.queue;
    var all := Messages(w.snapshot, w.log, w.taken, w.read);
    FlowIn(all, w.delivered, w.view, w.queue, Addition(w.log[next], w.read));
  }

  lemma SkipKeepsOrder(log: seq<Event>, start: nat, next: nat, taken: seq<nat>, lagged: bool, later: nat)
    requires TakenInOrder(log, start, next, taken, lagged) && next <= later <= |log|
    ensures TakenInOrder(log, start, later, taken, true)
  {
  }

  /** A receiver gets the event at its position, or is put forward to a position that is still held. */
  lemma ReceiveReadsLog(ch: Channel, log: seq<Event>, next: nat)
    requires RingHolds(ch, log) && next <= |log|
    ensures match Receive(ch, next)
      case Empty => next == |log|
      case Lagged(later) => next < later == |log| - 256
      case Got(e, after) => next < |log| && e == log[next] && after == next + 1
  {
  }

  lemma PullKeepsInv(w: World)
    requires Inv(w)
    ensures Inv(Step(w, Pull))
  {
    var next := w.task.next;
    ReceiveReadsLog(w.store.channel, w.log, next);
    if w.task.pending == [] {
      assert w.task == Task(next, []);
      match Receive(w.store.channel, next)
      case Empty =>
      case Lagged(later) =>
        SkipKeepsOrder(w.log, w.start, next, w.taken, w.lagged, later);
      case Got(e, after) =>
        TakeKeepsOrder(w.log, w.start, next, w.taken, w.lagged);
        TakeKeepsFlow(w, next);
    }
  }

  lemma PushKeepsInv(w: World)
    requires Inv(w)
    ensures Inv(Step(w, Push))
  {
    if w.task.pending != [] {
      assert w.queue + [w.task.pending[0]] + w.task.pending[1..] == w.queue + w.task.pending;
    }
  }

  lemma DeliverKeepsInv(w: World)
    requires Inv(w)
    ensures Inv(Step(w, Deliver))
  {
    if w.queue != [] {
      var onTheWay := w.queue + w.task.pending;
      FlowOut(Messages(w.snapshot, w.log, w.taken, w.read), w.delivered, w.view, onTheWay);
      assert onTheWay[1..] == w.queue[1..] + w.task.pending;
    }
  }

  lemma StepKeepsInv(w: World, a: Action)
    requires Inv(w)
    ensures Inv(Step(w, a))
  {
    match a
    case Change(op) => ChangeKeepsInv(w, op);
    case Pull => PullKeepsInv(w);
    case Push => PushKeepsInv(w);
    case Deliver => DeliverKeepsInv(w);
  }

  // ---------------------------------------------------------------------------
  // Whole runs: any history of the store, a subscription, then any schedule
  // ---------------------------------------------------------------------------

  function Reach(before: seq<Op>, actions: seq<Action>, read: Reader): (w: World)
    ensures WellFormed(w.store.channel)
  {
    if actions == [] then
      RingAndStates(before, "");
      Subscribed(Run(before), Events(before), read)
    else
      Step(Reach(before, actions[..|actions| - 1], read), actions[|actions| - 1])
  }

  lemma {:induction false} ReachKeepsInv(before: seq<Op>, actions: seq<Action>, read: Reader)
    ensures Inv(Reach(before, actions, read))
  {
    if actions == [] {
      RingAndStates(before, "");
      InvAtStart(Run(before), Events(before), read);
    } else {
      ReachKeepsInv(before, actions[..|actions| - 1], read);
      StepKeepsInv(Reach(before, actions[..|actions| - 1], read), actions[|actions| - 1]);
    }
  }

  /** The position in `taken` of the last event of the entity among the first n. */
  function LastTaken(log: seq<Event>, taken: seq<nat>, n: nat, id: string): (r: Option<nat>)
    requires InLog(log, taken) && n <= |taken|
    ensures r.Some? ==> r.value < n && log[taken[r.value]].state.entityId == id
    ensures forall k :: 0 <= k < n && log[taken[k]].state.entityId == id ==> r.Some? && k <= r.value
  {
    if n == 0 then None
    else if log[taken[n - 1]].state.entityId == id then Some(n - 1)
    else LastTaken(log, taken, n - 1, id)
  }

  /** Folding the snapshot and n events leaves the last one of each entity. */
  lemma {:induction false} FoldedValue(snapshot: map<string, State>, log: seq<Event>, taken: seq<nat>, n: nat,
                                       id: string, read: Reader)
    requires InLog(log, taken) && n <= |taken|
    ensures var view := Fold(Messages(snapshot, log, taken, read)[..n + 1]);
      match LastTaken(log, taken, n, id)
      case Some(k) => id in view && view[id] == Compress(log[taken[k]].state, read)
      case None => (id in view <==> id in snapshot) && (id in view ==> view[id] == Compress(snapshot[id], read))
  {
    var all := Messages(snapshot, log, taken, read);
    assert all[..n + 1][..n] == all[..n];
    if n == 0 {
      assert Fold(all[..0]) == map[];
    } else {
      FoldedValue(snapshot, log, taken, n - 1, id, read);
    }
  }

  predicate Stores(store: Store, s: State) {
    s.entityId in store.states && store.states[s.entityId] == s
  }

  /** A step leaves the subscription alone, and what its event carries is stored behind it. */
  lemma StepStoresWhatItSends(w: World, a: Action)
    requires WellFormed(w.store.channel)
    ensures var w' := Step(w, a);
      && w'.snapshot == w.snapshot && w'.start == w.start && w'.read == w.read && |w.log| <= |w'.log|
      && (forall i :: 0 <= i < |w.log| ==> w'.log[i] == w.log[i])
      && (forall i :: |w.log| <= i < |w'.log| ==> Stores(w'.store, w'.log[i].state))
  {
  }

  lemma {:induction false} SnapshotIsKept(before: seq<Op>, actions: seq<Action>, read: Reader)
    ensures var w := Reach(before, actions, read);
      w.snapshot == Run(before).states && w.start == |Events(before)| && w.read == read
  {
    if actions == [] {
      RingAndStates(before, "");
    } else {
      SnapshotIsKept(before, actions[..|actions| - 1], read);
      StepStoresWhatItSends(Reach(before, actions[..|actions| - 1], read), actions[|actions| - 1]);
    }
  }

  /** What an event carries was stored at some moment since the subscription. */
  lemma {:induction false} EventWasStored(before: seq<Op>, actions: seq<Action>, i: nat, read: Reader)
    returns (k: nat)
    requires |Events(before)| <= i < |Reach(before, actions, read).log|
    ensures k <= |actions|
    ensures Stores(Reach(before, actions[..k], read).store, Reach(before, actions, read).log[i].state)
  {
    var n := |actions| - 1;
    StepStoresWhatItSends(Reach(before, actions[..n], read), actions[n]);
    if i < |Reach(before, actions[..n], read).log| {
      k := EventWasStored(before, actions[..n], i, read);
      assert actions[..n][..k] == actions[..k];
    } else {
      k := n + 1;
      assert actions[..k] == actions;
    }
  }

  /** What the client shows is from the snapshot, or some event taken carried it. */
  lemma ShownWasSent(w: World, id: string) returns (i: Option<nat>)
    requires Inv(w) && id in w.view
    ensures match i
      case Some(i) =>
        w.start <= i < |w.log| && w.log[i].state.entityId == id && Shows(w.view[id], w.log[i].state, w.read)
      case None => id in w.snapshot && Shows(w.view[id], w.snapshot[id], w.read)
  {
    i := None;
    if w.delivered > 0 {
      FoldedValue(w.snapshot, w.log, w.taken, w.delivered - 1, id, w.read);
      match LastTaken(w.log, w.taken, w.delivered - 1, id)
      case Some(j) => i := Some(w.taken[j]);
      case None =>
    }
  }

  /** At any moment, the client shows of an entity the value, the attributes and the two timestamps, as numbers, that
      the store really held at some moment since the subscription. */
  lemma ViewIsNeverInvented(before: seq<Op>, actions: seq<Action>, id: string, read: Reader) returns (k: nat)
    requires id in Reach(before, actions, read).view
    ensures k <= |actions|
    ensures var states, c := Reach(before, actions[..k], read).store.states, Reach(before, actions, read).view[id];
      && id in states
      && c.value == states[id].value && c.attributes == states[id].attributes
      && c.lc == read(states[id].lastChanged) && c.lu == read(states[id].lastUpdated)
  {
    ReachKeepsInv(before, actions, read);
    SnapshotIsKept(before, actions, read);
    var i := ShownWasSent(Reach(before, actions, read), id);
    if i.Some? {
      k := EventWasStored(before, actions, i.value, read);
    } else {
      k := 0;
      assert actions[..0] == [];
    }
  }

  predicate Drained(w: World) {
    w.task.next == w.store.channel.sent && w.task.pending == [] && w.queue == []
  }

  /** The entity's latest event, if there is one since the subscription, was not skipped by lag. */
  predicate LatestReceived(w: World, id: string) {
    match LastFrom(w.log, w.start, id)
    case None => true
    case Some(i) => i in w.taken
  }

  function Sketch(s: Option<State>, read: Reader): Option<Compressed> {
    match s case None => None case Some(s) => Some(Compress(s, read))
  }

  lemma FoldShowsLastKnown(snapshot: map<string, State>, log: seq<Event>, start: nat, next: nat, taken: seq<nat>,
                           lagged: bool, id: string, read: Reader)
    requires TakenInOrder(log, start, next, taken, lagged)
    requires LastFrom(log, start, id).Some? ==> LastFrom(log, start, id).value in taken
    ensures Lookup(Fold(Messages(snapshot, log, taken, read)), id)
         == Sketch(LastKnown(snapshot, log, start, id), read)
  {
    var n := |taken|;
    var all := Messages(snapshot, log, taken, read);
    assert all[..n + 1] == all;
    FoldedValue(snapshot, log, taken, n, id, read);
    match LastFrom(log, start, id)
    case None =>
    case Some(i) =>
      var k :| 0 <= k < n && taken[k] == i;
      var last := LastTaken(log, taken, n, id).value;
      assert taken[last] <= i;
      assert last == k;
  }

  /** Once drained, the client agrees with the last known state of each entity whose latest event arrived. */
  lemma DrainedShowsLastKnown(w: World, id: string)
    requires Inv(w) && Drained(w) && LatestReceived(w, id)
    ensures Lookup(w.view, id) == Sketch(LastKnown(w.snapshot, w.log, w.start, id), w.read)
  {
    var all := Messages(w.snapshot, w.log, w.taken, w.read);
    assert w.delivered == |all| && all[..|all|] == all;
    FoldShowsLastKnown(w.snapshot, w.log, w.start, w.task.next, w.taken, w.lagged, id, w.read);
  }

  lemma WithoutLagAllIsReceived(w: World, id: string)
    requires Inv(w) && Drained(w) && !w.lagged
    ensures LatestReceived(w, id)
  {
    match LastFrom(w.log, w.start, id)
    case None =>
    case Some(i) => assert w.taken[i - w.start] == i;
  }

  /** The client shows the entity exactly if it is stored, and then as it is stored. */
  predicate Mirrors(view: View, states: map<string, State>, id: string, read: Reader) {
    (id in view <==> id in states) && (id in view ==> Shows(view[id], states[id], read))
  }

  /** Entity by entity: drained, the client equals the store for an entity whose latest event was not skipped,
      unless the entity was removed; and then the client shows it exactly if it was told of it. */
  lemma DrainedEqualsStore(before: seq<Op>, actions: seq<Action>, id: string, read: Reader)
    requires var w := Reach(before, actions, read); Drained(w) && LatestReceived(w, id)
    ensures var w := Reach(before, actions, read);
      && (id !in w.removed ==> Mirrors(w.view, w.store.states, id, read))
      && (id in w.removed ==>
            id !in w.store.states && (id in w.view <==> LastKnown(w.snapshot, w.log, w.start, id).Some?))
  {
    ReachKeepsInv(before, actions, read);
    SnapshotIsKept(before, actions, read);
    DrainedShowsLastKnown(Reach(before, actions, read), id);
  }

  /** All entities at once. Without lag, a drained client equals the store exactly when it was never told of an entity
      that is removed now: none was in the snapshot or set since. */
  lemma MirrorIsExact(before: seq<Op>, actions: seq<Action>, read: Reader)
    requires var w := Reach(before, actions, read); Drained(w) && !w.lagged
    ensures var w := Reach(before, actions, read);
      (forall id :: Mirrors(w.view, w.store.states, id, read)) <==>
      forall id :: id in w.removed ==> LastKnown(w.snapshot, w.log, w.start, id).None?
  {
    var w := Reach(before, actions, read);
    ReachKeepsInv(before, actions, read);
    forall id
      ensures id !in w.removed ==> Mirrors(w.view, w.store.states, id, read)
      ensures id in w.removed ==>
        (Mirrors(w.view, w.store.states, id, read) <==> LastKnown(w.snapshot, w.log, w.start, id).None?)
    {
      WithoutLagAllIsReceived(w, id);
      DrainedEqualsStore(before, actions, id, read);
    }
  }

  // ---------------------------------------------------------------------------
  // Catching up
  // ---------------------------------------------------------------------------

  /** What is still to do until the client has everything. */
  function Backlog(w: World): int {
    3 * (w.store.channel.sent - w.task.next) + 2 * |w.task.pending| + |w.queue|
  }

  /** Some step of the task or the client brings it nearer, and it does not lag unless the ring was overrun. */
  function NextStep(w: World): Action {
    if w.queue != [] then Deliver else if w.task.pending != [] then Push else Pull
  }

  lemma NextStepHelps(w: World)
    requires Inv(w) && !Drained(w)
    ensures Backlog(Step(w, NextStep(w))) < Backlog(w)
    ensures Step(w, NextStep(w)).store == w.store
    ensures |w.log| - w.task.next <= 256 && !w.lagged ==> !Step(w, NextStep(w)).lagged
  {
    ReceiveReadsLog(w.store.channel, w.log, w.task.next);
  }

  /** From every reachable world the client can be drained, without the store doing anything; and if the ring has not
      overrun the task, nothing more is skipped. */
  lemma {:induction false} EveryClientCanCatchUp(before: seq<Op>, actions: seq<Action>, read: Reader)
    returns (more: seq<Action>)
    ensures var w, w' := Reach(before, actions, read), Reach(before, actions + more, read);
      && Drained(w') && w'.store == w.store
      && (w.store.channel.sent - w.task.next <= 256 && !w.lagged ==> !w'.lagged)
    decreases if Backlog(Reach(before, actions, read)) < 0 then 0 else Backlog(Reach(before, actions, read))
  {
    var w := Reach(before, actions, read);
    ReachKeepsInv(before, actions, read);
    if Drained(w) {
      more := [];
      assert actions + more == actions;
    } else {
      var a := NextStep(w);
      NextStepHelps(w);
      assert (actions + [a])[..|actions|] == actions;
      var rest := EveryClientCanCatchUp(before, actions + [a], read);
      more := [a] + rest;
      Regroup(actions, [a], rest);
    }
  }

  // ---------------------------------------------------------------------------
  // The times a client shows
  // ---------------------------------------------------------------------------

  /** What the store was asked to do since the subscription. */
  function Changes(actions: seq<Action>): seq<Op> {
    if actions == [] then []
    else
      var before, a := Changes(actions[..|actions| - 1]), actions[|actions| - 1];
      if a.Change? then before + [a.op] else before
  }

  lemma {:induction false} StoreFollowsChanges(before: seq<Op>, actions: seq<Action>, read: Reader)
    ensures Reach(before, actions, read).store == Run(before + Changes(actions))
  {
    if actions == [] {
      assert before + [] == before;
    } else {
      var n := |actions| - 1;
      StoreFollowsChanges(before, actions[..n], read);
      if actions[n].Change? {
        var ops := before + Changes(actions[..n]);
        assert before + Changes(actions) == ops + [actions[n].op];
        assert (ops + [actions[n].op])[..|ops|] == ops;
      }
    }
  }

  /** iso_to_epoch, given how digits are parsed. */
  function IsoReader(parseFloat: Timestamp.FloatParser): Reader {
    text => Timestamp.IsoToEpoch(text, parseFloat)
  }

  /** The number the client shows as the last change is the instant at which the current unbroken run of equal values
      began, if the call that began it carried that instant as the controller prints it. */
  lemma ShownChangeIsRunStart(before: seq<Op>, actions: seq<Action>, id: string, k: nat,
                              secs: nat, micros: nat, parseFloat: Timestamp.FloatParser)
    requires var w := Reach(before, actions, IsoReader(parseFloat));
      Drained(w) && LatestReceived(w, id) && id !in w.removed
    requires StartsCurrentRun(before + Changes(actions), id, k)
    requires (before + Changes(actions))[k].state.lastChanged == Timestamp.IsoText(secs, micros)
    requires secs < 0x1_0000_0000_0000_0000 && micros < 1000000 && Timestamp.ReadsDigits(parseFloat)
    ensures var view := Reach(before, actions, IsoReader(parseFloat)).view;
      && id in view && view[id].value == (before + Changes(actions))[k].state.value
      && view[id].lc == Timestamp.Epoch(secs as real + micros as real / 1000000.0)
  {
    var read := IsoReader(parseFloat);
    StoreFollowsChanges(before, actions, read);
    LastChangedIsRunStart(before + Changes(actions), id, k);
    DrainedEqualsStore(before, actions, id, read);
    Timestamp.IsoRoundTrip(secs, micros, parseFloat);
  }

  lemma FirstMessage(store: Store, log: seq<Event>, read: Reader)
    requires WellFormed(store.channel)
    ensures var w := Step(Step(Subscribed(store, log, read), Push), Deliver);
      Drained(w) && !w.lagged && w.view == CompressAll(w.store.states, read) && w.store == store
  {
    assert map[] + CompressAll(store.states, read) == CompressAll(store.states, read);
  }

  /** After any history a new subscriber can be drained: it then shows its snapshot. */
  lemma SnapshotDrains(before: seq<Op>, read: Reader)
    ensures var w := Reach(before, [Push, Deliver], read);
      Drained(w) && !w.lagged && w.store == Run(before) && forall id :: Mirrors(w.view, Run(before).states, id, read)
  {
    assert [Push, Deliver][..1] == [Push] && [Push][..0] == [];
    RingAndStates(before, "");
    FirstMessage(Run(before), Events(before), read);
    assert Reach(before, [Push], read) == Step(Reach(before, [], read), Push);
    assert Reach(before, [Push, Deliver], read) == Step(Reach(before, [Push], read), Deliver);
  }
}
