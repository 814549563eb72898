/** Properties of the contact manager that relate several operations: the
    pool's high-water mark over a step, reads after writes, cursor resets,
    filters, and the end-of-step scenarios. */
module ContactManagerProperties {
  import opened Contacts
  import opened Routing
  import opened ContactManager
  import opened Publication

  /** One call of NewContact during a physics step: the two collisions, the
      time, and what the default publisher's liveness check answered. */
  datatype Detection = Detection(
    collision1: Option<Collision>,
    collision2: Option<Collision>,
    time: SimTime,
    hasConnections: bool)

  /** The manager after the physics engine has reported `ds` in order. */
  function Run(m: State, ds: seq<Detection>): (r: State)
    requires m.Initialized()
    ensures r.Initialized()
    decreases |ds|
  {
    if ds == [] then m
    else
      var d := ds[0];
      Run(NewContact(m, d.collision1, d.collision2, d.time, d.hasConnections).state, ds[1..])
  }

  /** How many of the calls in `ds` returned a record. */
  function Accepted(m: State, ds: seq<Detection>): nat
    requires m.Initialized()
    decreases |ds|
  {
    if ds == [] then 0
    else
      var d := ds[0];
      var r := NewContact(m, d.collision1, d.collision2, d.time, d.hasConnections);
      (if r.result.Some? then 1 else 0) + Accepted(r.state, ds[1..])
  }

  function Max(a: nat, b: nat): nat {
    if a < b then b else a
  }

  /** One call of NewContact, reduced to what the pool and the cursor see. */
  lemma NewContactCounts(m: State, d: Detection)
    requires m.Valid() && m.Initialized()
    ensures var r := NewContact(m, d.collision1, d.collision2, d.time, d.hasConnections);
      && r.state.Valid() && r.state.Initialized()
      && r.state.contactIndex == m.contactIndex + (if r.result.Some? then 1 else 0)
      && |r.state.contacts| == Max(|m.contacts|, r.state.contactIndex)
      && SameRegistrations(m.contactPublishers, r.state.contactPublishers)
  {
  }

  lemma SameRegistrationsTransitive(a: seq<ContactPublisher>, b: seq<ContactPublisher>, c: seq<ContactPublisher>)
    requires SameRegistrations(a, b) && SameRegistrations(b, c)
    ensures SameRegistrations(a, c)
  {
  }

  /** Over any sequence of NewContact calls the cursor advances once per
      record handed out, and the pool grows only to the largest cursor
      value reached: records are reused, never reallocated, and the pool
      never shrinks. */
  lemma {:induction false} RunCounts(m: State, ds: seq<Detection>)
    requires m.Valid() && m.Initialized()
    ensures Run(m, ds).Valid()
    ensures GetContactCount(Run(m, ds)) == GetContactCount(m) + Accepted(m, ds)
    ensures |Run(m, ds).contacts| == Max(|m.contacts|, GetContactCount(Run(m, ds)))
    ensures SameRegistrations(m.contactPublishers, Run(m, ds).contactPublishers)
    decreases |ds|
  {
    if ds != [] {
      var d := ds[0];
      var r := NewContact(m, d.collision1, d.collision2, d.time, d.hasConnections);
      NewContactCounts(m, d);
      RunCounts(r.state, ds[1..]);
      assert Run(m, ds) == Run(r.state, ds[1..]);
      assert Accepted(m, ds) == (if r.result.Some? then 1 else 0) + Accepted(r.state, ds[1..]);
      SameRegistrationsTransitive(m.contactPublishers, r.state.contactPublishers, Run(m, ds).contactPublishers);
    }
  }

  /** The record NewContact hands out is the one GetContact then reads at
      that slot, holding the two scoped names in argument order. */
  lemma NewContactThenGetContact(m: State, c1: Collision, c2: Collision, time: SimTime, hasConnections: bool)
    requires m.Valid() && m.Initialized()
    ensures var r := NewContact(m, Some(c1), Some(c2), time, hasConnections);
      r.result.Some? ==>
        && GetContactCount(r.state) == GetContactCount(m) + 1
        && GetContact(r.state, r.result.value) == Some(Populate(c1, c2, time, m.world))
        && forall i :: 0 <= i < GetContactCount(m) ==> GetContact(r.state, i) == GetContact(m, i)
  {
  }

  /** Resetting the cursor twice is resetting it once. */
  lemma ResetCountIdempotent(m: State)
    ensures ResetCount(ResetCount(m)) == ResetCount(m)
  {
  }

  /** After ResetCount the next record handed out is the stale record in
      slot 0, overwritten, and the pool does not grow. */
  lemma ResetCountReusesFirstSlot(m: State, c1: Collision, c2: Collision, time: SimTime, hasConnections: bool)
    requires m.Valid() && m.Initialized() && |m.contacts| > 0
    requires Wanted(m, Some(c1), Some(c2), hasConnections)
    ensures var r := NewContact(ResetCount(m), Some(c1), Some(c2), time, hasConnections);
      && r.result == Some(0)
      && |r.state.contacts| == |m.contacts|
      && r.state.contacts[0] == Populate(c1, c2, time, m.world)
      && r.state.contacts[1..] == m.contacts[1..]
  {
    var r := NewContact(ResetCount(m), Some(c1), Some(c2), time, hasConnections);
    assert Wanted(ResetCount(m), Some(c1), Some(c2), hasConnections);
    assert PoolUpdated(ResetCount(m), r.state, 0, c1, c2, time);
  }

  /** Whether NewContact hands out a record depends on the publishers'
      registrations only, not on their per-step lists. */
  lemma WantedByRegistrations(m: State, m': State, c1: Option<Collision>, c2: Option<Collision>, hasConnections: bool)
    requires SameRegistrations(m.contactPublishers, m'.contactPublishers)
    ensures Wanted(m, c1, c2, hasConnections) <==> Wanted(m', c1, c2, hasConnections)
  {
    if Wanted(m, c1, c2, hasConnections) && !hasConnections {
      var i :| 0 <= i < |m.contactPublishers| && Wants(m.contactPublishers[i], c1.value.scopedName, c2.value.scopedName);
      assert Wants(m'.contactPublishers[i], c1.value.scopedName, c2.value.scopedName);
    }
    if Wanted(m', c1, c2, hasConnections) && !hasConnections {
      var i :| 0 <= i < |m'.contactPublishers| && Wants(m'.contactPublishers[i], c1.value.scopedName, c2.value.scopedName);
      assert Wants(m.contactPublishers[i], c1.value.scopedName, c2.value.scopedName);
    }
  }

  /** After Clear the next record handed out is a new one in slot 0, and
      routing still reaches the publishers registered before. */
  lemma ClearThenNewContact(m: State, c1: Collision, c2: Collision, time: SimTime, hasConnections: bool)
    requires m.Valid() && m.Initialized()
    requires Wanted(m, Some(c1), Some(c2), hasConnections)
    ensures var r := NewContact(Clear(m), Some(c1), Some(c2), time, hasConnections);
      && r.result == Some(0)
      && r.state.contacts == [Populate(c1, c2, time, m.world)]
      && GetContactCount(r.state) == 1
  {
    var cleared := Clear(m);
    WantedByRegistrations(m, cleared, Some(c1), Some(c2), hasConnections);
    var r := NewContact(cleared, Some(c1), Some(c2), time, hasConnections);
    assert cleared.Valid() && cleared.contacts == [] && cleared.contactIndex == 0;
    assert Wanted(cleared, Some(c1), Some(c2), hasConnections);
    assert r.result == Some(0) && |r.state.contacts| == 1;
    assert PoolUpdated(cleared, r.state, 0, c1, c2, time);
    assert r.state.contacts[0] == Populate(c1, c2, time, m.world);
  }

  /** A filter created for some names receives every later pair that
      involves one of them, when no earlier filter claims the pair, and
      never a pair that involves none of them. */
  lemma CreateFilterRoutes(m: State, topic: string, names: seq<string>,
                           c1: Collision, c2: Collision, time: SimTime, hasConnections: bool)
    requires m.Valid() && m.Initialized() && names != []
    requires NoneWants(m.contactPublishers, c1.scopedName, c2.scopedName)
    ensures var f := CreateFilter(m, topic, names);
      var r := NewContact(f, Some(c1), Some(c2), time, hasConnections);
      var last := |m.contactPublishers|;
      && (c1.scopedName in names || c2.scopedName in names ==>
            r.result.Some? && r.state.contactPublishers[last].contacts == [r.result.value])
      && (c1.scopedName !in names && c2.scopedName !in names ==>
            r.result.Some? == hasConnections && r.state.contactPublishers[last].contacts == [])
  {
    if c1.scopedName in names || c2.scopedName in names {
      NewFilterTakesPair(m, topic, names, c1, c2, time, hasConnections);
    } else {
      NewFilterSkipsPair(m, topic, names, c1, c2, time, hasConnections);
    }
  }

  /** The pair names one of the new filter's collisions. */
  lemma NewFilterTakesPair(m: State, topic: string, names: seq<string>,
                           c1: Collision, c2: Collision, time: SimTime, hasConnections: bool)
    requires m.Valid() && m.Initialized() && names != []
    requires NoneWants(m.contactPublishers, c1.scopedName, c2.scopedName)
    requires c1.scopedName in names || c2.scopedName in names
    ensures var r := NewContact(CreateFilter(m, topic, names), Some(c1), Some(c2), time, hasConnections);
      r.result.Some? && r.state.contactPublishers[|m.contactPublishers|].contacts == [r.result.value]
  {
    var f := CreateFilter(m, topic, names);
    var last := |m.contactPublishers|;
    assert forall i :: 0 <= i < last ==> f.contactPublishers[i] == m.contactPublishers[i];
    assert f.contactPublishers[last].contacts == [];
    assert FirstWanting(f.contactPublishers, last, c1.scopedName, c2.scopedName);
  }

  /** The pair names none of the new filter's collisions. */
  lemma NewFilterSkipsPair(m: State, topic: string, names: seq<string>,
                           c1: Collision, c2: Collision, time: SimTime, hasConnections: bool)
    requires m.Valid() && m.Initialized() && names != []
    requires NoneWants(m.contactPublishers, c1.scopedName, c2.scopedName)
    requires c1.scopedName !in names && c2.scopedName !in names
    ensures var r := NewContact(CreateFilter(m, topic, names), Some(c1), Some(c2), time, hasConnections);
      r.result.Some? == hasConnections && r.state.contactPublishers[|m.contactPublishers|].contacts == []
  {
    var f := CreateFilter(m, topic, names);
    var last := |m.contactPublishers|;
    assert forall i :: 0 <= i < last ==> f.contactPublishers[i] == m.contactPublishers[i];
    assert f.contactPublishers[last].contacts == [];
    assert NoneWants(f.contactPublishers, c1.scopedName, c2.scopedName);
    assert !FirstWanting(f.contactPublishers, last, c1.scopedName, c2.scopedName);
  }

  /** When every record of the step is live, the slots of the step in
      order are the one enumeration of its live slots. */
  lemma RangeEnumeratesAllLive(m: State)
    requires m.Valid()
    requires forall i :: 0 <= i < m.contactIndex ==> m.contacts[i].Live()
    ensures LiveEnumeration(m, Range(m.contactIndex))
  {
    var all := Range(m.contactIndex);
    forall x: nat | x < m.contactIndex
      ensures x in all
    {
      assert all[x] == x;
    }
  }

  /** When every record of the step is live the default message is the
      whole step, slot by slot. */
  lemma DefaultMessageWhenAllLive(m: State, simTime: SimTime)
    requires m.Valid() && m.Initialized()
    requires forall i :: 0 <= i < m.contactIndex ==> m.contacts[i].Live()
    ensures PublishContacts(m, simTime).sent[0].msg.contact == m.contacts[..m.contactIndex]
  {
    var msg := PublishContacts(m, simTime).sent[0].msg.contact;
    var J := DefaultMessageExact(m, simTime);
    var all := Range(m.contactIndex);
    RangeEnumeratesAllLive(m);
    LiveEnumerationUnique(m, J, all);
    assert |msg| == m.contactIndex;
    assert forall k :: 0 <= k < |msg| ==> msg[k] == m.contacts[k];
  }

  /** Three pairs reported while the default topic has a listener, each
      record then given one contact point: one default message holding the
      three records, and ResetCount then leaves no record of the step. */
  lemma ThreeContactsScenario(w: WorldRef, a: Collision, b: Collision, c: Collision, d: Collision,
                              e: Collision, f: Collision, t: SimTime, now: SimTime)
    ensures
      var m0 := Init(New(), w);
      var r1 := NewContact(m0, Some(a), Some(b), t, true);
      var r2 := NewContact(SetCount(r1.state, 0, 1), Some(c), Some(d), t, true);
      var r3 := NewContact(SetCount(r2.state, 1, 1), Some(e), Some(f), t, true);
      var m3 := SetCount(r3.state, 2, 1);
      var p := PublishContacts(m3, now);
      && r1.result == Some(0) && r2.result == Some(1) && r3.result == Some(2)
      && |p.sent| == 1
      && p.sent[0].topic == ContactsTopic
      && p.sent[0].msg.contact == [Populate(a, b, t, Some(w)).(count := 1),
                                   Populate(c, d, t, Some(w)).(count := 1),
                                   Populate(e, f, t, Some(w)).(count := 1)]
      && GetContactCount(ResetCount(p.state)) == 0
  {
    var m0 := Init(New(), w);
    var r1 := NewContact(m0, Some(a), Some(b), t, true);
    var r2 := NewContact(SetCount(r1.state, 0, 1), Some(c), Some(d), t, true);
    var r3 := NewContact(SetCount(r2.state, 1, 1), Some(e), Some(f), t, true);
    var m3 := SetCount(r3.state, 2, 1);
    assert m3.contacts == [Populate(a, b, t, Some(w)).(count := 1),
                           Populate(c, d, t, Some(w)).(count := 1),
                           Populate(e, f, t, Some(w)).(count := 1)];
    DefaultMessageWhenAllLive(m3, now);
  }

  /** The manager after Init and the filters `a` for name "a" and `c` for
      name "c", before any pair is reported. */
  function TwoFilterRegistrations(w: WorldRef): (f: State)
    ensures f.Valid() && f.Initialized() && f.world == Some(w)
    ensures f.contacts == [] && f.contactIndex == 0 && |f.contactPublishers| == 2
    ensures f.contactPublishers[0].publisher.topic == FilterTopic("a")
    ensures f.contactPublishers[1].publisher.topic == FilterTopic("c")
    ensures f.contactPublishers[0].collisions == {"a"} && f.contactPublishers[1].collisions == {"c"}
    ensures f.contactPublishers[0].contacts == [] && f.contactPublishers[1].contacts == []
  {
    var f := CreateFilter(CreateFilter(Init(New(), w), "a", ["a"]), "c", ["c"]);
    assert f.contactPublishers[0].collisions == {"a"};
    assert f.contactPublishers[1].collisions == {"c"};
    f
  }

  /** A pair that filter `i` is the first to want, reported with nobody on
      the default topic while the whole pool is in use: the pool grows by
      the populated record and only filter `i`'s list gains the new slot. */
  lemma ReportedToFilter(m: State, i: nat, c1: Collision, c2: Collision, t: SimTime)
    requires m.Valid() && m.Initialized() && m.contactIndex == |m.contacts|
    requires FirstWanting(m.contactPublishers, i, c1.scopedName, c2.scopedName)
    ensures
      var n := NewContact(m, Some(c1), Some(c2), t, false);
      && n.result == Some(|m.contacts|)
      && n.state.Valid() && n.state.Initialized() && n.state.world == m.world
      && n.state.contacts == m.contacts + [Populate(c1, c2, t, m.world)]
      && n.state.contactIndex == |n.state.contacts|
      && SameRegistrations(m.contactPublishers, n.state.contactPublishers)
      && n.state.contactPublishers[i].contacts == m.contactPublishers[i].contacts + [|m.contacts|]
      && forall j :: 0 <= j < |m.contactPublishers| && j != i ==>
           n.state.contactPublishers[j].contacts == m.contactPublishers[j].contacts
  {
    var n := NewContact(m, Some(c1), Some(c2), t, false);
    assert Wanted(m, Some(c1), Some(c2), false);
    var pool := n.state.contacts;
    assert pool[|m.contacts|] == Populate(c1, c2, t, m.world);
    assert pool == m.contacts + [Populate(c1, c2, t, m.world)];
    forall j | 0 <= j < |m.contactPublishers| && j != i
      ensures !FirstWanting(m.contactPublishers, j, c1.scopedName, c2.scopedName)
    {
      if FirstWanting(m.contactPublishers, j, c1.scopedName, c2.scopedName) {
        FirstWantingUnique(m.contactPublishers, i, j, c1.scopedName, c2.scopedName);
      }
    }
  }

  /** The same report, then one contact point given to the new record. */
  function ReportToFilter(m: State, i: nat, c1: Collision, c2: Collision, t: SimTime): (r: State)
    requires m.Valid() && m.Initialized() && m.contactIndex == |m.contacts|
    requires FirstWanting(m.contactPublishers, i, c1.scopedName, c2.scopedName)
    ensures r.Valid() && r.Initialized() && r.world == m.world
    ensures r.contacts == m.contacts + [Populate(c1, c2, t, m.world).(count := 1)]
    ensures r.contactIndex == |r.contacts|
    ensures SameRegistrations(m.contactPublishers, r.contactPublishers)
    ensures r.contactPublishers[i].contacts == m.contactPublishers[i].contacts + [|m.contacts|]
    ensures forall j :: 0 <= j < |m.contactPublishers| && j != i ==>
              r.contactPublishers[j].contacts == m.contactPublishers[j].contacts
  {
    ReportedToFilter(m, i, c1, c2, t);
    var n := NewContact(m, Some(c1), Some(c2), t, false).state;
    assert n.contacts[|m.contacts| := n.contacts[|m.contacts|].(count := 1)]
        == m.contacts + [Populate(c1, c2, t, m.world).(count := 1)];
    SetCount(n, |m.contacts|, 1)
  }

  /** The collision shapes of the two-filter scenario. */
  const ShapeA: Collision := Collision(0, "a")
  const ShapeB: Collision := Collision(1, "b")
  const ShapeC: Collision := Collision(2, "c")
  const ShapeD: Collision := Collision(3, "d")

  /** The two filters after the pair a-b has been reported and given one
      contact point. */
  function FirstFilterReported(w: WorldRef, t: SimTime): (m: State)
    ensures m.Valid() && m.Initialized() && m.world == Some(w)
    ensures m.contacts == [Populate(ShapeA, ShapeB, t, Some(w)).(count := 1)] && m.contactIndex == 1
    ensures FirstWanting(m.contactPublishers, 1, ShapeC.scopedName, ShapeD.scopedName)
  {
    var f := TwoFilterRegistrations(w);
    var ra := Populate(ShapeA, ShapeB, t, Some(w)).(count := 1);
    assert f.contacts + [ra] == [ra];
    assert FirstWanting(f.contactPublishers, 0, ShapeA.scopedName, ShapeB.scopedName);
    var m := ReportToFilter(f, 0, ShapeA, ShapeB, t);
    assert !Wants(m.contactPublishers[0], ShapeC.scopedName, ShapeD.scopedName);
    m
  }

  /** In FirstFilterReported slot 0 went to filter `a`. */
  lemma FirstFilterRouting(w: WorldRef, t: SimTime)
    ensures var m := FirstFilterReported(w, t);
      && |m.contactPublishers| == 2
      && m.contactPublishers[0].publisher.topic == FilterTopic("a")
      && m.contactPublishers[1].publisher.topic == FilterTopic("c")
      && m.contactPublishers[0].contacts == [0] && m.contactPublishers[1].contacts == []
  {
    var f := TwoFilterRegistrations(w);
    assert FirstWanting(f.contactPublishers, 0, ShapeA.scopedName, ShapeB.scopedName);
  }

  /** Two filters, `a` for name "a" and `c` for name "c", with nobody on the
      default topic; the pairs a-b and c-d are reported in that order and
      each given one contact point, so each filter has one live record. */
  function TwoFilters(w: WorldRef, t: SimTime): (m: State)
    ensures m.Valid() && m.Initialized()
    ensures m.contacts == [Populate(ShapeA, ShapeB, t, Some(w)).(count := 1),
                           Populate(ShapeC, ShapeD, t, Some(w)).(count := 1)]
    ensures m.contactIndex == 2
  {
    var m1 := FirstFilterReported(w, t);
    var rc := Populate(ShapeC, ShapeD, t, Some(w)).(count := 1);
    assert m1.contacts + [rc] == [m1.contacts[0], rc];
    ReportToFilter(m1, 1, ShapeC, ShapeD, t)
  }

  /** In TwoFilters slot 0 went to filter `a` and slot 1 to filter `c`. */
  lemma TwoFiltersRouting(w: WorldRef, t: SimTime)
    ensures var m := TwoFilters(w, t);
      && |m.contactPublishers| == 2
      && m.contactPublishers[0].publisher.topic == FilterTopic("a")
      && m.contactPublishers[1].publisher.topic == FilterTopic("c")
      && m.contactPublishers[0].contacts == [0] && m.contactPublishers[1].contacts == [1]
  {
    FirstFilterRouting(w, t);
  }

  /** A step in which two filters each have exactly one live record of
      their own: slot 0 is routed to filter 0 and slot 1 to filter 1. */
  predicate OneRecordEach(m: State) {
    && m.Valid() && m.Initialized()
    && |m.contacts| == 2 && m.contactIndex == 2
    && m.contacts[0].Live() && m.contacts[1].Live() && m.contacts[0] != m.contacts[1]
    && |m.contactPublishers| == 2
    && m.contactPublishers[0].contacts == [0] && m.contactPublishers[1].contacts == [1]
  }

  /** As written, filter 0's topic is handed the default message, which
      holds the record routed to filter 1, and the scratch message ends up
      with the records of both filters. */
  lemma ForeignContacts(m: State, t: SimTime)
    requires OneRecordEach(m)
    ensures
      var asWritten := PublishContacts(m, t);
      && asWritten.sent[1].topic == m.contactPublishers[0].publisher.topic
      && m.contacts[1] in asWritten.sent[1].msg.contact
      && !OnlyFrom(m.contacts, m.contactPublishers[0].contacts, asWritten.sent[1].msg.contact)
      && m.contacts[0] in asWritten.buffer && m.contacts[1] in asWritten.buffer
  {
    var asWritten := PublishContacts(m, t);
    var msg := asWritten.sent[1].msg.contact;
    var rc := m.contacts[1];
    assert rc in msg;
    var pa := m.contactPublishers[0];
    var k :| 0 <= k < |msg| && msg[k] == rc;
    assert !(exists j :: 0 <= j < |pa.contacts| && pa.contacts[j] < |m.contacts| && msg[k] == m.contacts[pa.contacts[j]]);
    assert Covers(m.contacts, pa.contacts, asWritten.buffer);
    assert Covers(m.contacts, m.contactPublishers[1].contacts, asWritten.buffer);
    assert m.contactPublishers[1].contacts[0] == 1;
  }

  /** The corrected publication hands filter 0 exactly its own record. */
  lemma OwnContacts(m: State, t: SimTime)
    requires OneRecordEach(m)
    ensures
      var corrected := PublishContactsPerFilter(m, t);
      && corrected.sent[1].topic == m.contactPublishers[0].publisher.topic
      && corrected.sent[1].msg.contact == [m.contacts[0]]
  {
    assert KeepLive(m.contacts, [0]) == [0];
    assert RoutedLive(m, 0) == [m.contacts[0]];
  }

  /** The two custom-publisher defects of PublishContacts on TwoFilters: the
      topic of filter `a` is handed the default message, which holds the
      record routed to `c`, and the scratch message ends up with the records
      of both filters. */
  lemma CustomTopicGetsForeignContacts(w: WorldRef, t: SimTime)
    ensures
      var m := TwoFilters(w, t);
      var asWritten := PublishContacts(m, t);
      && asWritten.sent[1].topic == FilterTopic("a")
      && m.contacts[1] in asWritten.sent[1].msg.contact
      && !OnlyFrom(m.contacts, m.contactPublishers[0].contacts, asWritten.sent[1].msg.contact)
      && m.contacts[0] in asWritten.buffer && m.contacts[1] in asWritten.buffer
  {
    var m := TwoFilters(w, t);
    TwoFiltersRouting(w, t);
    assert OneRecordEach(m);
    ForeignContacts(m, t);
  }

  /** On TwoFilters the corrected publication hands filter `a` exactly its
      own record. */
  lemma PerFilterGetsOwnContacts(w: WorldRef, t: SimTime)
    ensures
      var m := TwoFilters(w, t);
      var corrected := PublishContactsPerFilter(m, t);
      && corrected.sent[1].topic == FilterTopic("a")
      && corrected.sent[1].msg.contact == [m.contacts[0]]
  {
    var m := TwoFilters(w, t);
    TwoFiltersRouting(w, t);
    assert OneRecordEach(m);
    OwnContacts(m, t);
  }

  /** The manager of the filtered scenario once the pair has been reported
      and given two contact points. */
  lemma FilteredStep(w: WorldRef, a: Collision, b: Collision, t: SimTime)
    requires a.scopedName == "A" && b.scopedName == "B"
    ensures
      var m0 := CreateFilter(Init(New(), w), "chan1", ["A"]);
      var r := NewContact(m0, Some(a), Some(b), t, false);
      var m1 := SetCount(r.state, 0, 2);
      && r.result == Some(0)
      && m1.Valid() && m1.Initialized()
      && m1.contacts == [Populate(a, b, t, Some(w)).(count := 2)]
      && m1.contactIndex == 1
      && |m1.contactPublishers| == 1
      && m1.contactPublishers[0].publisher.topic == FilterTopic("chan1")
      && m1.contactPublishers[0].contacts == [0]
  {
    var m0 := CreateFilter(Init(New(), w), "chan1", ["A"]);
    assert |m0.contactPublishers| == 1 && "A" in m0.contactPublishers[0].collisions;
    assert FirstWanting(m0.contactPublishers, 0, a.scopedName, b.scopedName);
    ReportedToFilter(m0, 0, a, b, t);
  }

  /** A filter for "A", a pair (A, B) with nobody on the default topic and
      two contact points: the filter's topic receives one message holding
      exactly that record, under both publications. */
  lemma FilteredContactScenario(w: WorldRef, a: Collision, b: Collision, t: SimTime, now: SimTime)
    requires a.scopedName == "A" && b.scopedName == "B"
    ensures
      var m0 := CreateFilter(Init(New(), w), "chan1", ["A"]);
      var r := NewContact(m0, Some(a), Some(b), t, false);
      var m1 := SetCount(r.state, 0, 2);
      var rec := Populate(a, b, t, Some(w)).(count := 2);
      && r.result == Some(0)
      && PublishContacts(m1, now).sent[1] == Publication(FilterTopic("chan1"), ContactsMsg([rec], now))
      && PublishContactsPerFilter(m1, now).sent[1] == Publication(FilterTopic("chan1"), ContactsMsg([rec], now))
  {
    var m0 := CreateFilter(Init(New(), w), "chan1", ["A"]);
    var r := NewContact(m0, Some(a), Some(b), t, false);
    var m1 := SetCount(r.state, 0, 2);
    var rec := Populate(a, b, t, Some(w)).(count := 2);
    FilteredStep(w, a, b, t);
    DefaultMessageWhenAllLive(m1, now);
    assert m1.contacts[..1] == [rec];
    assert KeepLive(m1.contacts, [0]) == [0];
    assert RoutedLive(m1, 0) == [rec];
  }

  /** A record handed out but left without contact points is in no message
      of the step, under either publication. */
  lemma ZeroCountNeverPublished(m: State, slot: nat, now: SimTime)
    requires m.Valid() && m.Initialized() && slot < m.contactIndex && !m.contacts[slot].Live()
    ensures forall p :: p in PublishContacts(m, now).sent ==> m.contacts[slot] !in p.msg.contact
    ensures forall p :: p in PublishContactsPerFilter(m, now).sent ==> m.contacts[slot] !in p.msg.contact
  {
    var dead := m.contacts[slot];
    var sent := PublishContacts(m, now).sent;
    var fixed := PublishContactsPerFilter(m, now).sent;
    assert forall i :: 0 <= i < |sent| ==> AllLive(sent[i].msg.contact) by {
      forall i | 0 <= i < |sent|
        ensures AllLive(sent[i].msg.contact)
      {
        if i > 0 {
          assert sent[i].msg == sent[0].msg;
        }
      }
    }
    assert forall i :: 0 <= i < |fixed| ==> AllLive(fixed[i].msg.contact) by {
      forall i | 0 <= i < |fixed|
        ensures AllLive(fixed[i].msg.contact)
      {
        if i == 0 {
          assert fixed[0] == sent[0];
        }
      }
    }
    forall p | p in sent
      ensures dead !in p.msg.contact
    {
      NotInAllLive(dead, p.msg.contact);
    }
    forall p | p in fixed
      ensures dead !in p.msg.contact
    {
      NotInAllLive(dead, p.msg.contact);
    }
  }

  lemma NotInAllLive(c: Contact, msg: seq<Contact>)
    requires !c.Live()
    ensures AllLive(msg) ==> c !in msg
  {
  }
}
