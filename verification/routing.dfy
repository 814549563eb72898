/** Filtered contact publishers and the first-match routing NewContact
    performs over them. */
module Routing {
  import opened Contacts

  /** A transport publisher, known by the topic it was advertised on. */
  datatype TransportPublisher = TransportPublisher(topic: string)

  /** A custom contact publisher made by CreateFilter: its topic, the
      advertised transport publisher, the set of collision scoped names it
      wants, and the pool slots routed to it during the current step. */
  datatype ContactPublisher = ContactPublisher(
    topic: string,
    publisher: TransportPublisher,
    collisions: set<string>,
    contacts: seq<nat>)

  /** Every slot of `slots` names a record of `pool`. */
  predicate InPool(pool: seq<Contact>, slots: seq<nat>) {
    forall k :: 0 <= k < |slots| ==> slots[k] < |pool|
  }

  /** A publisher wants a pair when its name set holds either scoped name. */
  predicate Wants(p: ContactPublisher, name1: string, name2: string) {
    name1 in p.collisions || name2 in p.collisions
  }

  /** Publisher `i` is the one routing picks: it wants the pair and no
      publisher registered before it does. */
  predicate FirstWanting(pubs: seq<ContactPublisher>, i: nat, name1: string, name2: string) {
    && i < |pubs|
    && Wants(pubs[i], name1, name2)
    && forall j :: 0 <= j < i ==> !Wants(pubs[j], name1, name2)
  }

  predicate NoneWants(pubs: seq<ContactPublisher>, name1: string, name2: string) {
    forall i :: 0 <= i < |pubs| ==> !Wants(pubs[i], name1, name2)
  }

  /** The scan of publishers from position `from` on, stopping at the first
      one that wants the pair. */
  function FirstMatchFrom(pubs: seq<ContactPublisher>, from: nat, name1: string, name2: string): (r: Option<nat>)
    requires from <= |pubs|
    ensures r.None? <==> forall i :: from <= i < |pubs| ==> !Wants(pubs[i], name1, name2)
    ensures r.Some? ==> from <= r.value < |pubs| && Wants(pubs[r.value], name1, name2)
    ensures r.Some? ==> forall j :: from <= j < r.value ==> !Wants(pubs[j], name1, name2)
    decreases |pubs| - from
  {
    if from == |pubs| then None
    else if Wants(pubs[from], name1, name2) then Some(from)
    else FirstMatchFrom(pubs, from + 1, name1, name2)
  }

  /** The publisher a pair is routed to, in registration order, or None. */
  function FirstMatch(pubs: seq<ContactPublisher>, name1: string, name2: string): (r: Option<nat>)
    ensures r.None? <==> NoneWants(pubs, name1, name2)
    ensures r.Some? <==> exists i :: FirstWanting(pubs, i, name1, name2)
    ensures r.Some? ==> FirstWanting(pubs, r.value, name1, name2)
  {
    var r := FirstMatchFrom(pubs, 0, name1, name2);
    if r.Some? then assert FirstWanting(pubs, r.value, name1, name2); r else r
  }

  /** At most one publisher is the first that wants a pair. */
  lemma FirstWantingUnique(pubs: seq<ContactPublisher>, i: nat, j: nat, name1: string, name2: string)
    requires FirstWanting(pubs, i, name1, name2) && FirstWanting(pubs, j, name1, name2)
    ensures i == j
  {
  }

  /** The publishers after `slot` is routed for a pair: registrations are
      unchanged, the first publisher in registration order that wants the
      pair has `slot` appended to its list, every other list is unchanged. */
  predicate Routed(pubs: seq<ContactPublisher>, r: seq<ContactPublisher>, slot: nat, name1: string, name2: string) {
    && SameRegistrations(pubs, r)
    && forall i :: 0 <= i < |pubs| ==>
         r[i].contacts ==
           (if FirstWanting(pubs, i, name1, name2) then pubs[i].contacts + [slot] else pubs[i].contacts)
  }

  /** The routing step of NewContact: `contactPublisher->contacts.push_back(result)`
      on the publisher the scan stopped at, if any. */
  function Route(pubs: seq<ContactPublisher>, name1: string, name2: string, slot: nat): (r: seq<ContactPublisher>)
    ensures Routed(pubs, r, slot, name1, name2)
  {
    var target := FirstMatch(pubs, name1, name2);
    if target.None? then pubs
    else
      var t := target.value;
      var r := pubs[t := pubs[t].(contacts := pubs[t].contacts + [slot])];
      assert forall i :: 0 <= i < |pubs| ==> (FirstWanting(pubs, i, name1, name2) <==> i == t) by {
        forall i | 0 <= i < |pubs| && FirstWanting(pubs, i, name1, name2)
          ensures i == t
        {
          FirstWantingUnique(pubs, i, t, name1, name2);
        }
      }
      r
  }

  /** Every publisher's per-step list emptied, registrations kept. */
  function ClearLists(pubs: seq<ContactPublisher>): (r: seq<ContactPublisher>)
    ensures SameRegistrations(pubs, r)
    ensures forall i :: 0 <= i < |r| ==> r[i].contacts == []
  {
    seq(|pubs|, i requires 0 <= i < |pubs| => pubs[i].(contacts := []))
  }

  /** Two publisher sequences hold the same registrations (topic, transport
      publisher and name set), whatever their per-step lists hold. */
  predicate SameRegistrations(a: seq<ContactPublisher>, b: seq<ContactPublisher>) {
    && |a| == |b|
    && forall i :: 0 <= i < |a| ==>
         a[i].topic == b[i].topic && a[i].publisher == b[i].publisher && a[i].collisions == b[i].collisions
  }

  /** The name set CreateFilter builds by inserting each given name in turn. */
  function NameSet(names: seq<string>): (r: set<string>)
    ensures forall x :: x in r <==> x in names
  {
    if names == [] then {} else {names[0]} + NameSet(names[1..])
  }
}
