# Gazebo contact manager, modelled in Dafny

This project models the per-world contact bookkeeping of the Gazebo physics
simulator (`gazebo/physics/ContactManager.cc`). The physics engine calls
`NewContact` for each colliding pair of collision shapes. The manager answers
with a record from a reusable pool, or with null when nobody wants the pair.
At the end of the step `PublishContacts` sends the live records (those with a
non-zero `count`) to the default `~/physics/contacts` topic and serves the
custom filtered publishers made by `CreateFilter`. `ResetCount` rewinds the
pool cursor for the next step, and `Clear` drops the pool.

The manager is an immutable `ContactManager.State` with pure transition
functions:

- `contacts` is the record pool and `contactIndex` is the cursor.
- `contactPublishers` holds the custom publishers. Each one has a topic, a set
  of collision scoped names and a per-step list of pool SLOTS. Because the
  lists hold slots rather than copies, a `count` written after `NewContact`
  returns is seen at publish time.
- A pointer returned by `NewContact` is a slot index (`Option<nat>`).
- The physics engine's later write to `count` is `ContactManager.SetCount`.

Files:

- `contact.dfy`: the contact record, `Populate` and the message type.
- `routing.dfy`: custom publishers, first-match routing and the name set.
- `contact_manager.dfy`: the manager's state and every operation except
  publication.
- `publication.dfy`: `PublishContacts` as written and the corrected
  `PublishContactsPerFilter`.
- `properties.dfy`: lemmas that relate several operations, and the
  end-of-step scenarios.

Behaviour of the code worth knowing:

- Routing stops at the first publisher, in registration order, whose name
  set holds either scoped name (the `break` at line 93). A pair therefore
  reaches at most one custom publisher, even when several filters list its
  names.
- The default message is published whenever the manager is initialised,
  whether or not it has listeners. Only record allocation is gated on
  liveness.
- `CreateFilter` with an empty list returns silently and registers nothing.
- `NewContact` checks for null collisions before it dereferences the default
  publisher, so it needs `Init` only when both collisions are non-null.
- `CreateFilter` needs `Init` only for a non-empty list, because the
  transport node is used after the emptiness check.

## Model

| member | source | states |
|---|---|---|
| ContactManager.New | gazebo/physics/ContactManager.cc:32-35 | a new manager has an empty pool, cursor 0 and no publishers, is not initialised, and satisfies the manager invariant |
| ContactManager.Init | gazebo/physics/ContactManager.cc:52-61 | Init binds the world, creates a node named after it and advertises `~/physics/contacts`; the pool, cursor and publishers are kept and the invariant is preserved |
| ContactManager.NewContact | gazebo/physics/ContactManager.cc:64-124 | returns a record iff both collisions are non-null and the default topic has connections or some publisher lists either name; otherwise the state is unchanged; on success it reuses slot `contactIndex` when that slot is below the pool size, else appends exactly one record; under the invariant the cursor grows by exactly one; the record has count 0, both names in argument order, both pointers, the given time and the bound world; every other slot is unchanged; only the first wanting publisher's list grows, by that slot |
| ContactManager.Acquire | gazebo/physics/ContactManager.cc:100-107 | get-or-create: below the pool size the slot at the cursor is reused and the cursor grows by one; otherwise exactly one record is appended and the cursor becomes the new pool size; existing slots are never moved |
| ContactManager.Record | gazebo/physics/ContactManager.cc:99-121 | the successful branch: the acquired slot holds the freshly populated record, every other slot is unchanged, the slot is routed to the first wanting publisher, and the invariant is preserved |
| Routing.FirstMatchFrom | gazebo/physics/ContactManager.cc:82-95 | the scan from a position returns the first publisher at or after it that wants the pair, or None exactly when none of them does |
| Routing.FirstMatch | gazebo/physics/ContactManager.cc:82-95 | routing picks the first publisher in registration order whose set holds either scoped name, and finds none iff no publisher wants the pair |
| Routing.Route | gazebo/physics/ContactManager.cc:108-109 | registrations are unchanged; exactly the first wanting publisher gets the slot appended and every other list is unchanged |
| Routing.NameSet | gazebo/physics/ContactManager.cc:229-230 | the filter's name set holds exactly the names in the given list |
| ContactManager.GetContactCount | gazebo/physics/ContactManager.cc:127-130 | under the invariant the reported count never exceeds the pool size |
| ContactManager.GetContact | gazebo/physics/ContactManager.cc:133-139 | a record is returned iff its index is below the cursor, and it is the pooled record at that index; stale slots past the cursor are hidden |
| ContactManager.GetContacts | gazebo/physics/ContactManager.cc:142-145 | the whole pool is returned; it is at least as long as the contact count and agrees with GetContact below the cursor |
| ContactManager.ResetCount | gazebo/physics/ContactManager.cc:148-151 | the cursor becomes 0 so no record is visible, the pool contents and every publisher's list are untouched, and the invariant is preserved |
| ContactManager.Clear | gazebo/physics/ContactManager.cc:154-167 | the pool is emptied and the cursor is 0; every publisher stays registered with an empty list; bindings are kept and the invariant is preserved |
| ContactManager.CreateFilter | gazebo/physics/ContactManager.cc:217-233 | an empty list leaves the manager unchanged; otherwise exactly one publisher is appended with the given topic, a publisher on `~/<topic>/contacts`, a name set equal to the given names and an empty list; pool and cursor are untouched |
| Publication.KeepLiveMembers | gazebo/physics/ContactManager.cc:184-191 | the count-zero skip keeps exactly the slots whose record has a non-zero count |
| Publication.KeepLiveSubsequence | gazebo/physics/ContactManager.cc:201-209 | the skip never reorders slots: the kept slots are a subsequence of the list |
| Publication.KeepLiveMultiplicity | gazebo/physics/ContactManager.cc:201-209 | every occurrence of a live slot in a publisher's list is kept |
| Publication.KeepLiveIncreasing | gazebo/physics/ContactManager.cc:184-191 | filtering the step's slots in index order keeps them in index order |
| Publication.LiveRecords | gazebo/physics/ContactManager.cc:201-209 | a message built from a slot list holds only live records, holds every live record the list names, and is no longer than the list |
| Publication.LiveRecordsOnlyFrom | gazebo/physics/ContactManager.cc:201-209 | every entry of such a message is the record of a slot on the list |
| Publication.ActiveLive | gazebo/physics/ContactManager.cc:183-191 | the default message holds only live records, every live record below the cursor, and at most `contactIndex` entries |
| Publication.Accumulated | gazebo/physics/ContactManager.cc:197-210 | the scratch message `msg2` is never emptied: after the loop it holds the live records routed to every custom publisher |
| Publication.PublishContacts | gazebo/physics/ContactManager.cc:170-214 | without Init nothing is published and nothing changes; otherwise the first publication is the default message on `~/physics/contacts`, stamped with the sim time, holding only and all the live records below the cursor; each custom topic then gets that same default message; pool and cursor are untouched and every publisher's list is emptied |
| Publication.PublishContactsPerFilter | gazebo/physics/ContactManager.cc:196-213 | corrected publication: the default publication is unchanged, and each custom topic, in registration order, gets a fresh message (`FilterPublication`, made exact by `FilterMessageExact`) holding only and all the live records routed to it; lists are emptied as before |
| Publication.FilterPublication | gazebo/physics/ContactManager.cc:201-211 | corrected: publisher `i` gets a message on its own topic, stamped with the sim time, holding only and all the live records routed to it |
| Publication.FilterMessageExact | gazebo/physics/ContactManager.cc:201-209 | corrected: that message is exactly the records of the live slots of the publisher's list, in list order, with every occurrence kept |
| Publication.DefaultPublication | gazebo/physics/ContactManager.cc:183-194 | the default publication is on `~/physics/contacts`, stamped with the sim time, and holds only and all the live records below the cursor |
| Publication.DefaultMessageExact | gazebo/physics/ContactManager.cc:183-194 | the default message is the records of an increasing enumeration of exactly the live slots below the cursor, so it is in index order |
| Publication.LiveEnumerationUnique | gazebo/physics/ContactManager.cc:183-194 | that enumeration is unique, so the default message is fully determined |
| ContactManagerProperties.NewContactCounts | gazebo/physics/ContactManager.cc:100-107 | one call advances the cursor by one exactly when it returns a record; the pool size becomes the larger of the old size and the new cursor; registrations are kept |
| ContactManagerProperties.RunCounts | gazebo/physics/ContactManager.cc:100-107 | over any sequence of calls the cursor grows by the number of records returned; the pool size is the larger of its old size and the cursor (a high-water mark, never shrinking); the invariant and registrations are kept |
| ContactManagerProperties.NewContactThenGetContact | gazebo/physics/ContactManager.cc:115-139 | after a successful NewContact, GetContact at the returned slot reads the freshly populated record, and earlier records of the step read as before |
| ContactManagerProperties.ResetCountIdempotent | gazebo/physics/ContactManager.cc:148-151 | resetting twice equals resetting once |
| ContactManagerProperties.ResetCountReusesFirstSlot | gazebo/physics/ContactManager.cc:100-101 | after ResetCount on a non-empty pool, the next record is slot 0, the pool does not grow and every other slot is unchanged; every field of slot 0 this model keeps is rewritten (the engine's contact geometry, not modelled, survives in the reused record, masked by `count` being 0) |
| ContactManagerProperties.ClearThenNewContact | gazebo/physics/ContactManager.cc:154-167 | after Clear the next record is a new slot 0 in a one-record pool, and registered filters still route |
| ContactManagerProperties.CreateFilterRoutes | gazebo/physics/ContactManager.cc:217-233 | a new filter receives a later pair naming one of its collisions when no earlier filter claims it, and never a pair naming neither |
| ContactManagerProperties.DefaultMessageWhenAllLive | gazebo/physics/ContactManager.cc:183-194 | when every record of the step is live, the default message is the step's records in slot order |
| ContactManagerProperties.ThreeContactsScenario | gazebo/physics/ContactManager.cc:170-194 | three pairs reported with a default listener, each given count 1, give one default message with exactly those three records; ResetCount then leaves count 0 |
| ContactManagerProperties.FilteredStep | gazebo/physics/ContactManager.cc:82-109 | a pair naming a filtered collision gets slot 0 with no default listener and lands in that filter's list |
| ContactManagerProperties.FilteredContactScenario | gazebo/physics/ContactManager.cc:196-213 | that filter's topic receives one message holding exactly that record, under both publications |
| ContactManagerProperties.CustomTopicGetsForeignContacts | gazebo/physics/ContactManager.cc:197-211 | as written, filter `a`'s topic receives the record routed to filter `c`, and `msg2` ends up with both filters' records |
| ContactManagerProperties.ForeignContacts | gazebo/physics/ContactManager.cc:197-211 | as written, whenever two filters each have one live record of their own, filter 0's topic receives filter 1's record and `msg2` ends up with both |
| ContactManagerProperties.OwnContacts | gazebo/physics/ContactManager.cc:196-213 | corrected: in that situation filter 0's topic receives exactly its own record |
| ContactManagerProperties.TwoFilters | gazebo/physics/ContactManager.cc:64-124 | the two-filter step reached through Init, two CreateFilter calls and two reported pairs: two live records, a-b in slot 0 and c-d in slot 1 |
| ContactManagerProperties.ReportToFilter | gazebo/physics/ContactManager.cc:82-121 | a pair that filter `i` is first to want, reported while the whole pool is in use: the pool grows by its record and only filter `i`'s list gains the new slot |
| ContactManagerProperties.PerFilterGetsOwnContacts | gazebo/physics/ContactManager.cc:196-213 | on the two-filter input the corrected publication sends filter `a` exactly its own record |
| ContactManagerProperties.WantedByRegistrations | gazebo/physics/ContactManager.cc:82-97 | whether NewContact hands out a record depends only on the publishers' name sets and the liveness answer, not on their per-step lists |
| ContactManagerProperties.ZeroCountNeverPublished | gazebo/physics/ContactManager.cc:186-205 | a record of the step left at count 0 is in no message of either publication |

## Left out

- `gazebo/physics/ode/ODELink.hh` holds only declarations over the ODE library and floating-point vectors. It has no logic to check.
- `gazebo/gui/model/JointCreationDialogPrivate.hh` and `src/gui/BoxMaker.hh` are GUI widget state and declarations. They are not modelled.
- Transport is not modelled. `Node::Init`, `Advertise` and `Publish` become a `Node` value, a `TransportPublisher(topic)` and a returned list of publications. `HasConnections()` is the `hasConnections` parameter of `NewContact`.
- `world->GetSimTime()` is the `simTime` parameter of publication. `Contact::FillMsg` copies the record itself into the message. Contact.cc is not part of this model, so the contact geometry the engine writes into a record is not modelled. In a reused record that geometry survives NewContact, which rewrites only the fields modelled here; it is masked because `count` is reset to 0.
- The `gzerr` diagnostic of an uninitialised `PublishContacts` is not modelled. Only its effect is: nothing is published and nothing changes.
- The destructor (lines 38-49), `new`/`delete` and pointer lifetimes are not modelled. Pool slots stand for the pointers. A slot that stays on a publisher's list across `ResetCount` and is then reused shows the source's aliasing as slot reuse.
- `contactIndex` and the `GetContact` index are 32-bit unsigned in the source. Their wrap-around at 2^32 records is not modelled; they are `nat`.
- `ContactManager.SetCount` stands for the physics engine's write through the returned pointer. It is not part of the manager.

## Findings

| source | as written | input that shows it | evidently intended | confidence | as-written member | corrected member |
|---|---|---|---|---|---|---|
| gazebo/physics/ContactManager.cc:211 | each custom publisher publishes `msg`, the default message, not `msg2` | two filters, "a" for name `a` and "c" for name `c`, with live records a-b (slot 0, routed to "a") and c-d (slot 1, routed to "c"): topic `~/a/contacts` receives c-d | each filter topic receives the live records routed to it | medium, not executed | Publication.PublishContacts, shown by ContactManagerProperties.CustomTopicGetsForeignContacts | Publication.PublishContactsPerFilter, proved by its contract and ContactManagerProperties.PerFilterGetsOwnContacts |
| gazebo/physics/ContactManager.cc:197-210 | `msg2` is declared once before the loop and never emptied, so it accumulates every filter's records | same input: after the loop `msg2` holds both a-b and c-d, so fixing line 211 alone would still send filter "c" the record of filter "a" | one fresh message per filter | medium, not executed | Publication.Accumulated, shown by ContactManagerProperties.CustomTopicGetsForeignContacts | Publication.PublishContactsPerFilter |
