/** The entity state store of state_store.rs and the broadcast ring it sends its changes into.

    The runtime has one thread and `set` has no suspension point, so one call is one step. */
module StateStore {
  import opened Text

  /** A state value is kept as its UTF-8 bytes, because its length limit counts bytes. JSON attribute values
      are kept as their text. */
  datatype State = State(entityId: string, value: seq<Byte>, attributes: map<string, string>,
                         lastChanged: string, lastUpdated: string, lastReported: string, context: string)

  datatype Event = Event(state: State, oldState: Option<State>)

  datatype StateError = InvalidEntityId | StateTooLong

  datatype Outcome = Ok | Err(error: StateError)

  predicate IsIdCharacter(c: char) {
    'a' <= c <= 'z' || '0' <= c <= '9' || c == '_'
  }

  predicate IsSlug(s: string) {
    s != "" && forall c :: c in s ==> IsIdCharacter(c)
  }

  /** State::is_valid_entity_id: a domain and an object id around the first dot. */
  predicate ValidEntityId(id: string) {
    match SplitOnce(id, '.')
    case None => false
    case Some((domain, objectId)) => IsSlug(domain) && IsSlug(objectId)
  }

  /** A valid id is a domain and an object id, each of lower-case letters, digits and underscores, and not empty,
      joined by one dot. */
  lemma ValidIdsAre(id: string)
    ensures ValidEntityId(id) <==> exists domain, objectId ::
      && id == domain + (['.'] + objectId) && domain != "" && objectId != ""
      && (forall c :: c in domain || c in objectId ==> 'a' <= c <= 'z' || '0' <= c <= '9' || c == '_')
  {
    SplitOnceMeaning(id, '.');
    if ValidEntityId(id) {
      var (domain, objectId) := SplitOnce(id, '.').value;
      assert id == domain + (['.'] + objectId);
    }
    forall domain, objectId |
      && id == domain + (['.'] + objectId) && domain != "" && objectId != ""
      && (forall c :: c in domain || c in objectId ==> 'a' <= c <= 'z' || '0' <= c <= '9' || c == '_')
      ensures ValidEntityId(id)
    {
      SplitOnceAt(domain, '.', objectId);
    }
  }

  // ---------------------------------------------------------------------------
  // The broadcast channel: the last 256 events sent, and how many were sent in all
  // ---------------------------------------------------------------------------

  const CAPACITY: nat := 256

  datatype Channel = Channel(sent: nat, ring: seq<Event>)

  function Send(ch: Channel, e: Event): Channel {
    Channel(ch.sent + 1, LastN(ch.ring + [e], CAPACITY))
  }

  /** What a receiver whose next unread event is number `next` gets. */
  datatype Received = Empty | Lagged(next: nat) | Got(event: Event, next: nat)

  predicate WellFormed(ch: Channel) {
    |ch.ring| <= ch.sent
  }

  /** An overwritten position puts the receiver forward to the oldest event still in the ring. */
  function Receive(ch: Channel, next: nat): Received
    requires WellFormed(ch)
  {
    var oldest := ch.sent - |ch.ring|;
    if next >= ch.sent then Empty
    else if next < oldest then Lagged(oldest)
    else Got(ch.ring[next - oldest], next + 1)
  }

  // ---------------------------------------------------------------------------
  // The store
  // ---------------------------------------------------------------------------

  datatype Store = Store(states: map<string, State>, channel: Channel)

  const EMPTY := Store(map[], Channel(0, []))

  datatype Op = Set(state: State) | Remove(id: string)

  predicate Accepted(s: State) {
    ValidEntityId(s.entityId) && |s.value| <= 255
  }

  /** last_changed only moves when the state value moves. */
  function Merged(previous: Option<State>, s: State): State {
    match previous
    case None => s
    case Some(o) => if o.value == s.value then s.(lastChanged := o.lastChanged) else s
  }

  function Apply(store: Store, op: Op): Store {
    match op
    case Set(s) =>
      if !Accepted(s) then store
      else
        var previous := Lookup(store.states, s.entityId);
        var merged := Merged(previous, s);
        Store(store.states[s.entityId := merged], Send(store.channel, Event(merged, previous)))
    case Remove(id) => Store(Without(store.states, id), store.channel)
  }

  class StateStore {
    var states: map<string, State>
    var channel: Channel

    ghost function View(): Store
      reads this
    {
      Store(states, channel)
    }

    constructor ()
      ensures View() == EMPTY
    {
      states := map[];
      channel := Channel(0, []);
    }

    method Get(id: string) returns (r: Option<State>)
      ensures r == Lookup(states, id)
    {
      r := None;
      if id in states {
        r := Some(states[id]);
      }
    }

    /** All states, each once, in no particular order. */
    method All() returns (all: seq<State>)
      ensures |all| == |states|
      ensures forall k :: k in states ==> states[k] in all
      ensures forall s :: s in all ==> exists k :: k in states && states[k] == s
    {
      all := [];
      var todo := states.Keys;
      while todo != {}
        invariant todo <= states.Keys && |all| + |todo| == |states|
        invariant forall k :: k in states ==> k in todo || states[k] in all
        invariant forall s :: s in all ==> exists k :: k in states && states[k] == s
        decreases todo
      {
        var k :| k in todo;
        all := all + [states[k]];
        todo := todo - {k};
      }
    }

    method Set(s: State) returns (r: Outcome)
      modifies this
      ensures !ValidEntityId(s.entityId) ==> r == Err(InvalidEntityId) && View() == old(View())
      ensures ValidEntityId(s.entityId) && |s.value| > 255 ==> r == Err(StateTooLong) && View() == old(View())
      ensures ValidEntityId(s.entityId) && |s.value| <= 255 ==> r == Ok
      ensures View() == Apply(old(View()), Op.Set(s))
    {
      if !ValidEntityId(s.entityId) {
        return Err(InvalidEntityId);
      }
      if |s.value| > 255 {
        return Err(StateTooLong);
      }
      var state := s;
      var previous := Get(s.entityId);
      if previous.Some? && previous.value.value == state.value {
        state := state.(lastChanged := previous.value.lastChanged);
      }
      states := states[state.entityId := state];
      channel := Send(channel, Event(state, previous));
      r := Ok;
    }

    /** A new receiver sees nothing of what was sent before. */
    method Subscribe() returns (next: nat)
      requires WellFormed(channel)
      ensures next == channel.sent && Receive(channel, next) == Empty
    {
      next := channel.sent;
    }

    method Remove(id: string) returns (existed: bool)
      modifies this
      ensures existed == (id in old(states))
      ensures View() == Apply(old(View()), Op.Remove(id))
    {
      existed := id in states;
      states := map k | k in states && k != id :: states[k];
    }
  }

  // ---------------------------------------------------------------------------
  // Every reachable store, described by its history alone
  // ---------------------------------------------------------------------------

  function Run(ops: seq<Op>): Store {
    if ops == [] then EMPTY else Apply(Run(ops[..|ops| - 1]), ops[|ops| - 1])
  }

  predicate Touches(op: Op, id: string) {
    match op
    case Set(s) => Accepted(s) && s.entityId == id
    case Remove(r) => r == id
  }

  /** The last call that set or removed the entity. */
  function LastTouch(ops: seq<Op>, id: string): Option<Op> {
    if ops == [] then None
    else if Touches(ops[|ops| - 1], id) then Some(ops[|ops| - 1])
    else LastTouch(ops[..|ops| - 1], id)
  }

  /** Call k begins the current unbroken run of equal values of the entity: it set the value, every later
      call on the entity set it again, and the call before it, if any, removed it or set another value. */
  predicate StartsCurrentRun(ops: seq<Op>, id: string, k: nat) {
    && k < |ops| && ops[k].Set? && Touches(ops[k], id)
    && (forall j :: k < j < |ops| && Touches(ops[j], id) ==>
          ops[j].Set? && ops[j].state.value == ops[k].state.value)
    && match LastTouch(ops[..k], id)
       case Some(Set(s)) => s.value != ops[k].state.value
       case _ => true
  }

  /** A store holds exactly the entities whose last touching call set them, with that call's fields. */
  lemma {:induction false} StoreHoldsLastSet(ops: seq<Op>, id: string)
    ensures var last := LastTouch(ops, id);
      && (id in Run(ops).states <==> last.Some? && last.value.Set?)
      && (id in Run(ops).states ==>
            var s := Run(ops).states[id]; s == last.value.state.(lastChanged := s.lastChanged))
      && (last.Some? ==> Touches(last.value, id))
  {
    if ops != [] {
      StoreHoldsLastSet(ops[..|ops| - 1], id);
    }
  }

  lemma RunOfPrefix(ops: seq<Op>, id: string, k: nat)
    requires ops != [] && k < |ops| - 1 && StartsCurrentRun(ops, id, k)
    ensures StartsCurrentRun(ops[..|ops| - 1], id, k)
  {
    assert ops[..|ops| - 1][..k] == ops[..k];
  }

  /** last_changed is the time supplied by the call that began the current unbroken run of equal values. */
  lemma {:induction false} LastChangedIsRunStart(ops: seq<Op>, id: string, k: nat)
    requires StartsCurrentRun(ops, id, k)
    ensures id in Run(ops).states
    ensures Run(ops).states[id].value == ops[k].state.value
    ensures Run(ops).states[id].lastChanged == ops[k].state.lastChanged
  {
    var n := |ops| - 1;
    if k == n {
      assert ops[..n] == ops[..k];
      StoreHoldsLastSet(ops[..n], id);
    } else {
      RunOfPrefix(ops, id, k);
      LastChangedIsRunStart(ops[..n], id, k);
    }
  }

  /** Every stored entity has such a run: the previous lemma speaks about every entry of every store. */
  lemma {:induction false} EveryEntryHasARun(ops: seq<Op>, id: string) returns (k: nat)
    requires id in Run(ops).states
    ensures StartsCurrentRun(ops, id, k)
  {
    var n := |ops| - 1;
    var before, op := ops[..n], ops[n];
    StoreHoldsLastSet(before, id);
    if Touches(op, id) {
      if id in Run(before).states && Run(before).states[id].value == op.state.value {
        k := EveryEntryHasARun(before, id);
        LastChangedIsRunStart(before, id, k);
        assert before[..k] == ops[..k];
      } else {
        k := n;
        assert ops[..k] == before;
      }
    } else {
      k := EveryEntryHasARun(before, id);
      assert before[..k] == ops[..k];
    }
  }

  // ---------------------------------------------------------------------------
  // The events of a history
  // ---------------------------------------------------------------------------

  function EventOf(store: Store, op: Op): seq<Event> {
    if op.Set? && Accepted(op.state)
    then var previous := Lookup(store.states, op.state.entityId); [Event(Merged(previous, op.state), previous)]
    else []
  }

  /** All events ever sent, in order. */
  function Events(ops: seq<Op>): seq<Event> {
    if ops == [] then []
    else var before := ops[..|ops| - 1]; Events(before) + EventOf(Run(before), ops[|ops| - 1])
  }

  /** The state carried by the last event of the entity, if it has one. */
  function LastOn(events: seq<Event>, id: string): Option<State> {
    if events == [] then None
    else if events[|events| - 1].state.entityId == id then Some(events[|events| - 1].state)
    else LastOn(events[..|events| - 1], id)
  }

  predicate NoRemoves(ops: seq<Op>) {
    forall op :: op in ops ==> op.Set?
  }

  predicate RingHolds(ch: Channel, events: seq<Event>) {
    ch.sent == |events| && ch.ring == LastN(events, 256)
  }

  lemma SendKeepsRing(ch: Channel, events: seq<Event>, e: Event)
    requires RingHolds(ch, events)
    ensures RingHolds(Send(ch, e), events + [e])
  {
  }

  /** The ring always holds the last 256 events, and a stored state is the one its last event carried. */
  lemma {:induction false} RingAndStates(ops: seq<Op>, id: string)
    ensures RingHolds(Run(ops).channel, Events(ops))
    ensures id in Run(ops).states ==> LastOn(Events(ops), id) == Some(Run(ops).states[id])
    ensures NoRemoves(ops) ==> Lookup(Run(ops).states, id) == LastOn(Events(ops), id)
  {
    if ops != [] {
      var n := |ops| - 1;
      var before, op := ops[..n], ops[n];
      RingAndStates(before, id);
      var e := EventOf(Run(before), op);
      if e != [] {
        SendKeepsRing(Run(before).channel, Events(before), e[0]);
        assert (Events(before) + e)[..|Events(before)|] == Events(before);
      } else {
        assert Events(before) + e == Events(before);
      }
    }
  }

  /** Every event j was sent by one accepted call k, and its old state is what the store held for the entity just
      before that call: the state the entity's previous event carried, or nothing, exactly if the call before it on
      the entity removed it or there was none. */
  lemma {:induction false} OldStateIsThePreviousOne(ops: seq<Op>, j: nat) returns (k: nat)
    requires j < |Events(ops)|
    ensures k < |ops| && ops[k].Set? && Accepted(ops[k].state) && |Events(ops[..k])| == j
    ensures var e, s, before := Events(ops)[j], ops[k].state, ops[..k];
      && e.state == Merged(e.oldState, s)
      && e.oldState == Lookup(Run(before).states, s.entityId)
      && (e.oldState == None <==> !(LastTouch(before, s.entityId).Some? && LastTouch(before, s.entityId).value.Set?))
      && (e.oldState == None || e.oldState == LastOn(Events(ops)[..j], s.entityId))
  {
    var n := |ops| - 1;
    var before, op := ops[..n], ops[n];
    if j < |Events(before)| {
      k := OldStateIsThePreviousOne(before, j);
      assert Events(ops)[..j] == Events(before)[..j];
      assert before[..k] == ops[..k];
    } else {
      k := n;
      assert Events(ops)[..j] == Events(before);
      RingAndStates(before, op.state.entityId);
      StoreHoldsLastSet(before, op.state.entityId);
    }
  }
}
