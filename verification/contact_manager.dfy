/** The per-world contact manager: a pool of reusable contact records with a
    cursor, the default contacts publisher, and the custom filtered
    publishers. Every operation is a pure transition on `State`. */
module ContactManager {
  import opened Contacts
  import opened Routing

  /** The topic Init advertises the default contacts publisher on. */
  const ContactsTopic: string := "~/physics/contacts"

  /** The topic CreateFilter advertises a custom publisher on. */
  function FilterTopic(topic: string): string {
    "~/" + topic + "/contacts"
  }

  /** The transport node Init creates, initialised with the world's name. */
  datatype Node = Node(namespace: string)

  /** The manager's fields. `contacts` is the record pool (never shrunk
      except by Clear); the slots below `contactIndex` are the records of the
      current step, the ones at or above it are stale records kept for reuse. */
  datatype State = State(
    world: Option<WorldRef>,
    node: Option<Node>,
    contactPub: Option<TransportPublisher>,
    contacts: seq<Contact>,
    contactIndex: nat,
    contactPublishers: seq<ContactPublisher>)
  {
    /** Init has run: the default publisher exists. */
    predicate Initialized() {
      contactPub.Some?
    }

    /** Every slot a custom publisher holds names a record of the pool. */
    predicate SlotsInPool() {
      forall i :: 0 <= i < |contactPublishers| ==> InPool(contacts, contactPublishers[i].contacts)
    }

    /** The invariant every reachable manager keeps. */
    predicate Valid() {
      && contactIndex <= |contacts|
      && SlotsInPool()
      && (world.Some? <==> contactPub.Some?)
      && (node.Some? <==> contactPub.Some?)
    }
  }

  /** The constructor: an empty pool, the cursor at zero, nothing bound. */
  function New(): (r: State)
    ensures r.Valid() && !r.Initialized()
    ensures r.contacts == [] && r.contactIndex == 0 && r.contactPublishers == []
  {
    State(None, None, None, [], 0, [])
  }

  /** Binds the manager to `world`, creates its transport node and
      advertises the default contacts topic. The pool and the custom
      publishers are kept. */
  function Init(m: State, world: WorldRef): (r: State)
    ensures r.Initialized() && r.world == Some(world)
    ensures r.node == Some(Node(world.name)) && r.contactPub == Some(TransportPublisher(ContactsTopic))
    ensures r.contacts == m.contacts && r.contactIndex == m.contactIndex
    ensures r.contactPublishers == m.contactPublishers
    ensures m.Valid() ==> r.Valid()
  {
    m.(world := Some(world), node := Some(Node(world.name)),
       contactPub := Some(TransportPublisher(ContactsTopic)))
  }

  /** The result of NewContact: the next manager state and the pool slot of
      the returned record, or None for a null result. */
  datatype NewContactResult = NewContactResult(state: State, result: Option<nat>)

  /** NewContact hands out a record exactly when both collisions are
      non-null and someone wants the pair: the default topic has a
      connection or some custom publisher lists either name. */
  predicate Wanted(m: State, collision1: Option<Collision>, collision2: Option<Collision>, hasConnections: bool) {
    && collision1.Some? && collision2.Some?
    && (hasConnections
        || exists i :: 0 <= i < |m.contactPublishers|
             && Wants(m.contactPublishers[i], collision1.value.scopedName, collision2.value.scopedName))
  }

  /** The record pool after a successful NewContact: every slot but `slot`
      keeps its record, and `slot` holds the freshly populated one. */
  predicate PoolUpdated(m: State, r: State, slot: nat, c1: Collision, c2: Collision, time: SimTime) {
    && |m.contacts| <= |r.contacts| && slot < |r.contacts|
    && (forall j :: 0 <= j < |m.contacts| && j != slot ==> r.contacts[j] == m.contacts[j])
    && r.contacts[slot].count == 0
    && r.contacts[slot].collision1 == c1.scopedName
    && r.contacts[slot].collision2 == c2.scopedName
    && r.contacts[slot].collisionPtr1 == Some(c1)
    && r.contacts[slot].collisionPtr2 == Some(c2)
    && r.contacts[slot].time == time
    && r.contacts[slot].world == m.world
  }

  /** The pool, the slot handed out and the new cursor after "get or
      create a contact feedback object". */
  datatype Acquired = Acquired(pool: seq<Contact>, slot: nat, contactIndex: nat)

  /** Reuses the record at the cursor when the pool has one there, else
      pushes a new record and sets the cursor to the new pool size. The pool
      only ever grows at its end. */
  function Acquire(contacts: seq<Contact>, contactIndex: nat): (r: Acquired)
    ensures r.slot < |r.pool| && |contacts| <= |r.pool| && r.pool[..|contacts|] == contacts
    ensures contactIndex < |contacts| ==>
      r.slot == contactIndex && |r.pool| == |contacts| && r.contactIndex == contactIndex + 1
    ensures contactIndex >= |contacts| ==>
      r.slot == |contacts| && |r.pool| == |contacts| + 1 && r.contactIndex == |r.pool|
  {
    if contactIndex < |contacts| then Acquired(contacts, contactIndex, contactIndex + 1)
    else Acquired(contacts + [Blank], |contacts|, |contacts| + 1)
  }

  /** Routing a slot of the pool keeps every publisher slot inside the pool. */
  lemma RouteKeepsSlotsInPool(m: State, r: State, slot: nat, name1: string, name2: string)
    requires |m.contacts| <= |r.contacts| && slot < |r.contacts|
    requires Routed(m.contactPublishers, r.contactPublishers, slot, name1, name2)
    ensures m.SlotsInPool() ==> r.SlotsInPool()
  {
    forall i | m.SlotsInPool() && 0 <= i < |r.contactPublishers|
      ensures InPool(r.contacts, r.contactPublishers[i].contacts)
    {
      forall k | 0 <= k < |r.contactPublishers[i].contacts|
        ensures r.contactPublishers[i].contacts[k] < |r.contacts|
      {
        if k < |m.contactPublishers[i].contacts| {
          assert r.contactPublishers[i].contacts[k] == m.contactPublishers[i].contacts[k];
        }
      }
    }
  }

  /** The successful branch of NewContact: acquire a slot, populate its
      record, and route the slot to the first publisher that wants the pair. */
  function Record(m: State, c1: Collision, c2: Collision, time: SimTime): (r: NewContactResult)
    ensures r.result.Some?
    ensures m.contactIndex < |m.contacts| ==>
      r.result.value == m.contactIndex && |r.state.contacts| == |m.contacts|
      && r.state.contactIndex == m.contactIndex + 1
    ensures m.contactIndex >= |m.contacts| ==>
      r.result.value == |m.contacts| && |r.state.contacts| == |m.contacts| + 1
      && r.state.contactIndex == |r.state.contacts|
    ensures PoolUpdated(m, r.state, r.result.value, c1, c2, time)
    ensures Routed(m.contactPublishers, r.state.contactPublishers, r.result.value, c1.scopedName, c2.scopedName)
    ensures r.state.world == m.world && r.state.node == m.node && r.state.contactPub == m.contactPub
    ensures m.Valid() ==> r.state.Valid()
  {
    var a := Acquire(m.contacts, m.contactIndex);
    var pool := a.pool[a.slot := Populate(c1, c2, time, m.world)];
    var r := m.(contacts := pool,
                contactIndex := a.contactIndex,
                contactPublishers := Route(m.contactPublishers, c1.scopedName, c2.scopedName, a.slot));
    PrefixAgrees(m.contacts, a.pool);
    RouteKeepsSlotsInPool(m, r, a.slot, c1.scopedName, c2.scopedName);
    NewContactResult(r, Some(a.slot))
  }

  lemma PrefixAgrees(s: seq<Contact>, t: seq<Contact>)
    requires |s| <= |t| && t[..|s|] == s
    ensures forall j :: 0 <= j < |s| ==> t[j] == s[j]
  {
    forall j | 0 <= j < |s|
      ensures t[j] == s[j]
    {
      assert t[..|s|][j] == t[j];
    }
  }

  /** Called by the physics engine for each colliding pair. Returns a pool
      slot whose record the engine keeps writing into during the step, or
      None when either collision is null or nobody wants the pair.
      `hasConnections` is the default publisher's liveness check. The
      default publisher is dereferenced without a check once both
      collisions are non-null, so Init must have run by then. */
  function NewContact(m: State, collision1: Option<Collision>, collision2: Option<Collision>,
                      time: SimTime, hasConnections: bool): (r: NewContactResult)
    requires collision1.None? || collision2.None? || m.Initialized()
    ensures r.result.Some? <==> Wanted(m, collision1, collision2, hasConnections)
    ensures r.result.None? ==> r.state == m
    ensures r.result.Some? && collision1.Some? && collision2.Some? ==>
      var slot := r.result.value;
      && (m.contactIndex < |m.contacts| ==>
            slot == m.contactIndex && |r.state.contacts| == |m.contacts|
            && r.state.contactIndex == m.contactIndex + 1)
      && (m.contactIndex >= |m.contacts| ==>
            slot == |m.contacts| && |r.state.contacts| == |m.contacts| + 1
            && r.state.contactIndex == |r.state.contacts|)
      && PoolUpdated(m, r.state, slot, collision1.value, collision2.value, time)
      && Routed(m.contactPublishers, r.state.contactPublishers, slot, collision1.value.scopedName, collision2.value.scopedName)
      && r.state.world == m.world && r.state.node == m.node && r.state.contactPub == m.contactPub
    ensures m.Valid() && r.result.Some? ==>
      r.state.contactIndex == m.contactIndex + 1 && r.result.value == m.contactIndex
    ensures m.Valid() ==> r.state.Valid()
  {
    if collision1.None? || collision2.None? then
      NewContactResult(m, None)
    else
      var c1, c2 := collision1.value, collision2.value;
      var target := FirstMatch(m.contactPublishers, c1.scopedName, c2.scopedName);
      if hasConnections || target.Some? then Record(m, c1, c2, time)
      else NewContactResult(m, None)
  }

  /** The number of records handed out since the cursor was last reset. */
  function GetContactCount(m: State): (r: nat)
    ensures m.Valid() ==> r <= |m.contacts|
  {
    m.contactIndex
  }

  /** The record at `index` when it belongs to the current step, else None:
      slots at or above the cursor hold stale records and are hidden. */
  function GetContact(m: State, index: nat): (r: Option<Contact>)
    requires m.Valid()
    ensures r.Some? <==> index < GetContactCount(m)
    ensures r.Some? ==> r.value == m.contacts[index]
  {
    if index < m.contactIndex then Some(m.contacts[index]) else None
  }

  /** The whole pool, stale records past the cursor included. */
  function GetContacts(m: State): (r: seq<Contact>)
    requires m.Valid()
    ensures GetContactCount(m) <= |r|
    ensures forall i :: 0 <= i < GetContactCount(m) ==> GetContact(m, i) == Some(r[i])
  {
    m.contacts
  }

  /** Rewinds the cursor to the start of the pool; pool contents and the
      custom publishers' lists are left as they are. */
  function ResetCount(m: State): (r: State)
    ensures GetContactCount(r) == 0
    ensures r.contacts == m.contacts && r.contactPublishers == m.contactPublishers
    ensures r.world == m.world && r.node == m.node && r.contactPub == m.contactPub
    ensures m.Valid() ==> r.Valid() && forall i :: GetContact(r, i).None?
  {
    m.(contactIndex := 0)
  }

  /** Drops every pooled record, rewinds the cursor and empties every custom
      publisher's list; the publishers stay registered. */
  function Clear(m: State): (r: State)
    ensures r.contacts == [] && GetContactCount(r) == 0
    ensures SameRegistrations(m.contactPublishers, r.contactPublishers)
    ensures forall i :: 0 <= i < |r.contactPublishers| ==> r.contactPublishers[i].contacts == []
    ensures r.world == m.world && r.node == m.node && r.contactPub == m.contactPub
    ensures m.Valid() ==> r.Valid()
  {
    m.(contacts := [], contactPublishers := ClearLists(m.contactPublishers), contactIndex := 0)
  }

  /** Registers a custom publisher on `FilterTopic(topic)` for the given
      collision names. An empty list is ignored; otherwise the transport
      node is used without a check, so Init must have run. */
  function CreateFilter(m: State, topic: string, collisions: seq<string>): (r: State)
    requires collisions == [] || m.node.Some?
    ensures collisions == [] ==> r == m
    ensures collisions != [] ==>
      && |r.contactPublishers| == |m.contactPublishers| + 1
      && r.contactPublishers[..|m.contactPublishers|] == m.contactPublishers
      && var p := r.contactPublishers[|m.contactPublishers|];
         && p.topic == topic
         && p.publisher == TransportPublisher(FilterTopic(topic))
         && (forall x :: x in p.collisions <==> x in collisions)
         && p.contacts == []
    ensures r.contacts == m.contacts && r.contactIndex == m.contactIndex
    ensures r.world == m.world && r.node == m.node && r.contactPub == m.contactPub
    ensures m.Valid() ==> r.Valid()
  {
    if collisions == [] then m
    else
      var p := ContactPublisher(topic, TransportPublisher(FilterTopic(topic)), NameSet(collisions), []);
      m.(contactPublishers := m.contactPublishers + [p])
  }

  /** The physics engine's write `contact->count = n` through a pointer
      NewContact returned. */
  function SetCount(m: State, slot: nat, n: int): State
    requires slot < |m.contacts|
  {
    m.(contacts := m.contacts[slot := m.contacts[slot].(count := n)])
  }
}
