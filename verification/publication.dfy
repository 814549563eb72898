/** End-of-step publication: the default contacts message, the messages of
    the custom publishers, and the emptying of their per-step lists.

    `PublishContacts` is the publication as written; `PublishContactsPerFilter`
    is the corrected one, in which each custom topic gets the live records
    routed to it rather than the default message. */
module Publication {
  import opened Contacts
  import opened Routing
  import opened ContactManager

  /** One call of `Publish`: the topic of the transport publisher and the
      message handed to it. */
  datatype Publication = Publication(topic: string, msg: ContactsMsg)

  /** The manager after publication, the publications in the order they
      were made, and the contents left in the scratch message `msg2`. */
  datatype PublishResult = PublishResult(state: State, sent: seq<Publication>, buffer: seq<Contact>)

  /** The slots `0 .. n-1` of the current step, in index order. */
  function Range(n: nat): (r: seq<nat>)
    ensures |r| == n && forall i :: 0 <= i < n ==> r[i] == i
  {
    seq(n, i requires 0 <= i => i)
  }

  predicate Increasing(s: seq<nat>) {
    forall i, j :: 0 <= i < j < |s| ==> s[i] < s[j]
  }

  /** `a` is `b` with some elements left out, the rest in their order. */
  ghost predicate Subsequence(a: seq<nat>, b: seq<nat>)
    decreases |b|
  {
    if a == [] then true
    else if b == [] then false
    else (a[0] == b[0] && Subsequence(a[1..], b[1..])) || Subsequence(a, b[1..])
  }

  /** The slots of `slots` whose record is live, in their order: the
      `if (count == 0) continue;` of both publication loops. */
  function KeepLive(pool: seq<Contact>, slots: seq<nat>): (r: seq<nat>)
    requires InPool(pool, slots)
    ensures InPool(pool, r) && |r| <= |slots|
  {
    if slots == [] then []
    else if pool[slots[0]].Live() then [slots[0]] + KeepLive(pool, slots[1..])
    else KeepLive(pool, slots[1..])
  }

  /** KeepLive keeps exactly the slots whose record is live. */
  lemma {:induction false} KeepLiveMembers(pool: seq<Contact>, slots: seq<nat>)
    requires InPool(pool, slots)
    ensures forall x :: x in KeepLive(pool, slots) <==> x in slots && x < |pool| && pool[x].Live()
  {
    if slots != [] {
      KeepLiveMembers(pool, slots[1..]);
      assert slots == [slots[0]] + slots[1..];
    }
  }

  /** KeepLive drops slots but never reorders them. */
  lemma {:induction false} KeepLiveSubsequence(pool: seq<Contact>, slots: seq<nat>)
    requires InPool(pool, slots)
    ensures Subsequence(KeepLive(pool, slots), slots)
  {
    if slots != [] {
      var rest := KeepLive(pool, slots[1..]);
      KeepLiveSubsequence(pool, slots[1..]);
      if pool[slots[0]].Live() {
        assert ([slots[0]] + rest)[1..] == rest;
      } else {
        SubsequenceOfTail(rest, slots);
      }
    }
  }

  lemma SubsequenceOfTail(a: seq<nat>, b: seq<nat>)
    requires b != [] && Subsequence(a, b[1..])
    ensures Subsequence(a, b)
  {
  }

  /** A live slot occurs in the kept list as often as in the input: no
      occurrence of a live record is lost. */
  lemma {:induction false} KeepLiveMultiplicity(pool: seq<Contact>, slots: seq<nat>, x: nat)
    requires InPool(pool, slots) && x < |pool| && pool[x].Live()
    ensures multiset(KeepLive(pool, slots))[x] == multiset(slots)[x]
  {
    if slots != [] {
      KeepLiveMultiplicity(pool, slots[1..], x);
      assert slots == [slots[0]] + slots[1..];
    }
  }

  /** Filtering an increasing list of slots leaves an increasing list. */
  lemma {:induction false} KeepLiveIncreasing(pool: seq<Contact>, slots: seq<nat>)
    requires InPool(pool, slots) && Increasing(slots)
    ensures Increasing(KeepLive(pool, slots))
  {
    if slots != [] {
      var rest := KeepLive(pool, slots[1..]);
      KeepLiveIncreasing(pool, slots[1..]);
      if pool[slots[0]].Live() {
        KeepLiveMembers(pool, slots[1..]);
        forall k | 0 <= k < |rest|
          ensures slots[0] < rest[k]
        {
          assert rest[k] in slots[1..];
        }
      }
    }
  }

  /** The records of the given slots, as `FillMsg` copies them. */
  function Records(pool: seq<Contact>, slots: seq<nat>): (r: seq<Contact>)
    requires InPool(pool, slots)
    ensures |r| == |slots| && forall k :: 0 <= k < |slots| ==> r[k] == pool[slots[k]]
  {
    seq(|slots|, k requires 0 <= k < |slots| => pool[slots[k]])
  }

  /** Every live record the slots name is among `msg`. */
  predicate Covers(pool: seq<Contact>, slots: seq<nat>, msg: seq<Contact>) {
    forall j :: 0 <= j < |slots| && slots[j] < |pool| && pool[slots[j]].Live() ==> pool[slots[j]] in msg
  }

  /** Every entry of `msg` is the record of one of the slots. */
  predicate OnlyFrom(pool: seq<Contact>, slots: seq<nat>, msg: seq<Contact>) {
    forall k :: 0 <= k < |msg| ==> exists j :: 0 <= j < |slots| && slots[j] < |pool| && msg[k] == pool[slots[j]]
  }

  predicate AllLive(msg: seq<Contact>) {
    forall k :: 0 <= k < |msg| ==> msg[k].Live()
  }

  /** The message entries one publication loop builds from a list of slots:
      the live records, in list order. */
  function LiveRecords(pool: seq<Contact>, slots: seq<nat>): (r: seq<Contact>)
    requires InPool(pool, slots)
    ensures AllLive(r) && Covers(pool, slots, r) && |r| <= |slots|
  {
    var kept := KeepLive(pool, slots);
    var r := Records(pool, kept);
    KeepLiveMembers(pool, slots);
    assert Covers(pool, slots, r) by {
      forall j | 0 <= j < |slots| && pool[slots[j]].Live()
        ensures pool[slots[j]] in r
      {
        assert slots[j] in kept;
        var k :| 0 <= k < |kept| && kept[k] == slots[j];
        assert r[k] == pool[slots[j]];
      }
    }
    r
  }

  /** Every entry LiveRecords builds is the record of one of the slots. */
  lemma LiveRecordsOnlyFrom(pool: seq<Contact>, slots: seq<nat>)
    requires InPool(pool, slots)
    ensures OnlyFrom(pool, slots, LiveRecords(pool, slots))
  {
    var kept := KeepLive(pool, slots);
    var r := LiveRecords(pool, slots);
    KeepLiveMembers(pool, slots);
    forall k | 0 <= k < |r|
      ensures exists j :: 0 <= j < |slots| && slots[j] < |pool| && r[k] == pool[slots[j]]
    {
      assert kept[k] in slots;
    }
  }

  /** The default message's records: the live records of the current step. */
  function ActiveLive(m: State): (r: seq<Contact>)
    requires m.Valid()
    ensures AllLive(r) && |r| <= m.contactIndex
    ensures forall i :: 0 <= i < m.contactIndex && m.contacts[i].Live() ==> m.contacts[i] in r
  {
    var slots := Range(m.contactIndex);
    var r := LiveRecords(m.contacts, slots);
    assert forall i :: 0 <= i < m.contactIndex && m.contacts[i].Live() ==> m.contacts[slots[i]] in r;
    r
  }

  /** The live records routed to custom publisher `i` during the step. */
  function RoutedLive(m: State, i: nat): seq<Contact>
    requires m.Valid() && i < |m.contactPublishers|
  {
    LiveRecords(m.contacts, m.contactPublishers[i].contacts)
  }

  /** What `msg2` holds after the custom-publisher loop has visited the
      first `n` publishers: it is never emptied, so it accumulates the live
      records of every publisher visited so far. */
  function Accumulated(m: State, n: nat): (r: seq<Contact>)
    requires m.Valid() && n <= |m.contactPublishers|
    ensures AllLive(r)
    ensures forall i :: 0 <= i < n ==> Covers(m.contacts, m.contactPublishers[i].contacts, r)
  {
    if n == 0 then []
    else
      var prev := Accumulated(m, n - 1);
      var r := prev + RoutedLive(m, n - 1);
      assert forall i :: 0 <= i < n - 1 ==> Covers(m.contacts, m.contactPublishers[i].contacts, r) by {
        forall i | 0 <= i < n - 1 {
          CoversConcat(m.contacts, m.contactPublishers[i].contacts, prev, RoutedLive(m, n - 1));
        }
      }
      CoversConcat(m.contacts, m.contactPublishers[n - 1].contacts, prev, RoutedLive(m, n - 1));
      r
  }

  /** A message covering a list still covers it once more entries are
      added on either side. */
  lemma CoversConcat(pool: seq<Contact>, slots: seq<nat>, a: seq<Contact>, b: seq<Contact>)
    requires Covers(pool, slots, a) || Covers(pool, slots, b)
    ensures Covers(pool, slots, a + b)
  {
  }

  /** The default publication: the live records of the current step on the
      default topic, stamped with the sim time. */
  function DefaultPublication(m: State, simTime: SimTime): (r: Publication)
    requires m.Valid() && m.Initialized()
    ensures r.topic == m.contactPub.value.topic && r.msg.time == simTime
    ensures AllLive(r.msg.contact) && |r.msg.contact| <= m.contactIndex
    ensures forall i :: 0 <= i < m.contactIndex && m.contacts[i].Live() ==> m.contacts[i] in r.msg.contact
  {
    Publication(m.contactPub.value.topic, ContactsMsg(ActiveLive(m), simTime))
  }

  /** The publications as written: `first` on the default topic, then
      `first`'s message again on every custom topic (line 211). */
  function AsWrittenSends(first: Publication, pubs: seq<ContactPublisher>): (r: seq<Publication>)
    ensures |r| == |pubs| + 1 && r[0] == first
    ensures forall i :: 1 <= i <= |pubs| ==> r[i] == Publication(pubs[i - 1].publisher.topic, first.msg)
  {
    seq(|pubs| + 1, i requires 0 <= i <= |pubs| =>
      if i == 0 then first else Publication(pubs[i - 1].publisher.topic, first.msg))
  }

  /** The manager once every custom publisher's list has been emptied. */
  function Cleared(m: State): (r: State)
    requires m.Valid()
    ensures Published(m, r)
  {
    m.(contactPublishers := ClearLists(m.contactPublishers))
  }

  /** `PublishContacts` as written. Without Init it logs and returns. Then
      it publishes the live records of the current step on the default
      topic, and for every custom publisher it copies that publisher's
      live records into `msg2`, publishes the DEFAULT message on the
      publisher's topic, and empties its list. `simTime` stands for
      `world->GetSimTime()`. */
  function PublishContacts(m: State, simTime: SimTime): (r: PublishResult)
    requires m.Valid()
    ensures !m.Initialized() ==> r.state == m && r.sent == []
    ensures m.Initialized() ==>
      && |r.sent| == |m.contactPublishers| + 1
      && r.sent[0].topic == m.contactPub.value.topic
      && r.sent[0].msg.time == simTime
      && AllLive(r.sent[0].msg.contact)
      && (forall i :: 0 <= i < m.contactIndex && m.contacts[i].Live() ==> m.contacts[i] in r.sent[0].msg.contact)
      && |r.sent[0].msg.contact| <= m.contactIndex
      && (forall i :: 0 <= i < |m.contactPublishers| ==>
            r.sent[i + 1] == Publication(m.contactPublishers[i].publisher.topic, r.sent[0].msg))
      && AllLive(r.buffer)
      && (forall i :: 0 <= i < |m.contactPublishers| ==> Covers(m.contacts, m.contactPublishers[i].contacts, r.buffer))
      && Published(m, r.state)
  {
    if m.contactPub.None? then PublishResult(m, [], [])
    else
      var sent := AsWrittenSends(DefaultPublication(m, simTime), m.contactPublishers);
      PublishResult(Cleared(m), sent, Accumulated(m, |m.contactPublishers|))
  }

  /** The manager after publication: pool, cursor and bindings untouched,
      every custom publisher still registered and its list empty. */
  predicate Published(m: State, r: State) {
    && r.contacts == m.contacts && r.contactIndex == m.contactIndex
    && r.world == m.world && r.node == m.node && r.contactPub == m.contactPub
    && SameRegistrations(m.contactPublishers, r.contactPublishers)
    && (forall i :: 0 <= i < |r.contactPublishers| ==> r.contactPublishers[i].contacts == [])
    && r.Valid()
  }

  /** What the corrected publication sends custom publisher `i`: a fresh
      message on its topic holding only and all the live records routed to it. */
  predicate FilterMessage(m: State, i: nat, p: Publication, simTime: SimTime)
    requires m.Valid() && i < |m.contactPublishers|
  {
    && p.topic == m.contactPublishers[i].publisher.topic
    && p.msg.time == simTime
    && AllLive(p.msg.contact)
    && Covers(m.contacts, m.contactPublishers[i].contacts, p.msg.contact)
    && OnlyFrom(m.contacts, m.contactPublishers[i].contacts, p.msg.contact)
  }

  /** The publication of custom publisher `i` in the corrected code. */
  function FilterPublication(m: State, i: nat, simTime: SimTime): (r: Publication)
    requires m.Valid() && i < |m.contactPublishers|
    ensures FilterMessage(m, i, r, simTime)
  {
    LiveRecordsOnlyFrom(m.contacts, m.contactPublishers[i].contacts);
    Publication(m.contactPublishers[i].publisher.topic, ContactsMsg(RoutedLive(m, i), simTime))
  }

  /** The publications of every custom publisher in the corrected code,
      in registration order. */
  function FilterPublications(m: State, simTime: SimTime): (r: seq<Publication>)
    requires m.Valid()
    ensures |r| == |m.contactPublishers|
    ensures forall i :: 0 <= i < |r| ==> r[i] == FilterPublication(m, i, simTime)
  {
    seq(|m.contactPublishers|, i requires 0 <= i < |m.contactPublishers| => FilterPublication(m, i, simTime))
  }

  /** The corrected publication: as PublishContacts, except that each
      custom publisher gets a fresh message holding the live records routed
      to it during the step. No scratch message is left over. */
  function PublishContactsPerFilter(m: State, simTime: SimTime): (r: PublishResult)
    requires m.Valid()
    ensures !m.Initialized() ==> r.state == m && r.sent == []
    ensures m.Initialized() ==>
      && |r.sent| == |m.contactPublishers| + 1
      && r.sent[0] == PublishContacts(m, simTime).sent[0]
      && (forall i :: 1 <= i <= |m.contactPublishers| ==> r.sent[i] == FilterPublication(m, i - 1, simTime))
      && (forall i :: 1 <= i <= |m.contactPublishers| ==> FilterMessage(m, i - 1, r.sent[i], simTime))
      && r.buffer == []
      && Published(m, r.state)
  {
    if m.contactPub.None? then PublishResult(m, [], [])
    else
      var filtered := FilterPublications(m, simTime);
      var sent := [DefaultPublication(m, simTime)] + filtered;
      assert forall i :: 1 <= i <= |m.contactPublishers| ==> sent[i] == filtered[i - 1];
      PublishResult(Cleared(m), sent, [])
  }

  /** The corrected message of custom publisher `i` is exact: it holds the
      records of the live slots of the publisher's list, in list order and
      with every occurrence kept, and nothing else. */
  lemma FilterMessageExact(m: State, i: nat, simTime: SimTime) returns (J: seq<nat>)
    requires m.Valid() && i < |m.contactPublishers|
    ensures InPool(m.contacts, J) && Subsequence(J, m.contactPublishers[i].contacts)
    ensures forall k :: 0 <= k < |J| ==> m.contacts[J[k]].Live()
    ensures forall x: nat :: x < |m.contacts| && m.contacts[x].Live() ==>
              multiset(J)[x] == multiset(m.contactPublishers[i].contacts)[x]
    ensures FilterPublication(m, i, simTime).msg.contact == Records(m.contacts, J)
  {
    var slots := m.contactPublishers[i].contacts;
    J := KeepLive(m.contacts, slots);
    KeepLiveSubsequence(m.contacts, slots);
    KeepLiveMembers(m.contacts, slots);
    assert forall k :: 0 <= k < |J| ==> J[k] in J;
    forall x: nat | x < |m.contacts| && m.contacts[x].Live()
      ensures multiset(J)[x] == multiset(m.contactPublishers[i].contacts)[x]
    {
      KeepLiveMultiplicity(m.contacts, slots, x);
    }
  }

  /** `J` lists, in increasing order, exactly the slots of the current step
      whose record is live. */
  ghost predicate LiveEnumeration(m: State, J: seq<nat>)
    requires m.Valid()
  {
    && Increasing(J)
    && (forall k :: 0 <= k < |J| ==> J[k] < m.contactIndex)
    && (forall x: nat :: x < m.contactIndex && m.contacts[x].Live() ==> x in J)
    && (forall k :: 0 <= k < |J| ==> m.contacts[J[k]].Live())
  }

  /** The default message holds exactly the live records of slots
      `0 .. contactIndex-1`, in slot order. */
  lemma DefaultMessageExact(m: State, simTime: SimTime) returns (J: seq<nat>)
    requires m.Valid() && m.Initialized()
    ensures LiveEnumeration(m, J)
    ensures InPool(m.contacts, J) && PublishContacts(m, simTime).sent[0].msg.contact == Records(m.contacts, J)
  {
    var slots := Range(m.contactIndex);
    J := KeepLive(m.contacts, slots);
    KeepLiveMembers(m.contacts, slots);
    KeepLiveIncreasing(m.contacts, slots);
    assert forall x: nat :: x < m.contactIndex ==> x in slots by {
      forall x: nat | x < m.contactIndex
        ensures x in slots
      {
        assert slots[x] == x;
      }
    }
    assert forall k :: 0 <= k < |J| ==> J[k] < m.contactIndex by {
      forall k | 0 <= k < |J|
        ensures J[k] < m.contactIndex
      {
        assert J[k] in slots;
      }
    }
    assert LiveEnumeration(m, J);
  }

  /** Two increasing sequences with the same elements are equal. */
  lemma {:induction false} IncreasingUnique(a: seq<nat>, b: seq<nat>)
    requires Increasing(a) && Increasing(b)
    requires forall x :: x in a <==> x in b
    ensures a == b
  {
    if a == [] {
      if b != [] {
        HeadIn(b);
        assert false;
      }
    } else {
      SameLeast(a, b);
      SameTails(a, b);
      IncreasingUnique(a[1..], b[1..]);
      assert a == [a[0]] + a[1..];
      assert b == [b[0]] + b[1..];
    }
  }

  /** Increasing sequences with the same elements start with the same one,
      their least. */
  lemma SameLeast(a: seq<nat>, b: seq<nat>)
    requires Increasing(a) && Increasing(b) && a != []
    requires forall x :: x in a <==> x in b
    ensures b != [] && a[0] == b[0]
  {
    assert a[0] in b;
    assert b[0] in a;
    var i :| 0 <= i < |a| && a[i] == b[0];
    var j :| 0 <= j < |b| && b[j] == a[0];
    assert a[0] <= a[i];
    assert b[0] <= b[j];
  }

  /** Once the common least element is dropped, the same elements remain. */
  lemma SameTails(a: seq<nat>, b: seq<nat>)
    requires Increasing(a) && Increasing(b) && a != [] && b != [] && a[0] == b[0]
    requires forall x :: x in a <==> x in b
    ensures forall x :: x in a[1..] <==> x in b[1..]
  {
    forall x
      ensures x in a[1..] ==> x in b[1..]
      ensures x in b[1..] ==> x in a[1..]
    {
      if x in a[1..] {
        var k :| 1 <= k < |a| && a[k] == x;
        assert x in b;
        var l :| 0 <= l < |b| && b[l] == x;
        assert l != 0;
      }
      if x in b[1..] {
        var k :| 1 <= k < |b| && b[k] == x;
        assert x in a;
        var l :| 0 <= l < |a| && a[l] == x;
        assert l != 0;
      }
    }
  }

  lemma HeadIn(s: seq<nat>)
    requires s != []
    ensures s[0] in s
  {
  }

  /** At most one sequence enumerates the live slots, so DefaultMessageExact
      determines the default message completely. */
  lemma LiveEnumerationUnique(m: State, J1: seq<nat>, J2: seq<nat>)
    requires m.Valid() && LiveEnumeration(m, J1) && LiveEnumeration(m, J2)
    ensures J1 == J2
  {
    forall x
      ensures x in J1 <==> x in J2
    {
      if x in J1 {
        var k :| 0 <= k < |J1| && J1[k] == x;
        assert m.contacts[J1[k]].Live();
      }
      if x in J2 {
        var k :| 0 <= k < |J2| && J2[k] == x;
        assert m.contacts[J2[k]].Live();
      }
    }
    IncreasingUnique(J1, J2);
  }
}
