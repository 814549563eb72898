/** Contact records: the reusable value that describes one collision between
    two collision shapes during the current simulation step.

    Only the fields ContactManager itself reads or writes are modelled: the
    two scoped names, the two (weak) collision pointers, the per-step sample
    `count`, the time stamp and the owning world. The contact geometry the
    physics engine writes into a record after NewContact returns is not
    part of this model. */
module Contacts {

  /** Stands in for a nullable pointer. */
  datatype Option<+T> = None | Some(value: T)

  /** A collision shape as ContactManager sees it: a pointer identity and the
      scoped name `GetScopedName()` returns (for example `model::link::collision`). */
  datatype Collision = Collision(id: nat, scopedName: string)

  /** Simulation time, seconds and nanoseconds as in common::Time. */
  datatype SimTime = SimTime(sec: int, nsec: int)

  /** The world a manager is bound to by Init. */
  datatype WorldRef = WorldRef(name: string)

  /** One pooled contact record. `count` is the number of contact points
      the physics engine wrote into the record after NewContact; the
      publication loops skip a record exactly when its count is zero. */
  datatype Contact = Contact(
    collision1: string,
    collision2: string,
    collisionPtr1: Option<Collision>,
    collisionPtr2: Option<Collision>,
    count: int,
    time: SimTime,
    world: Option<WorldRef>)
  {
    predicate Live() {
      count != 0
    }
  }

  /** The record `new Contact()` adds to the pool before it is filled in. */
  const Blank: Contact := Contact("", "", None, None, 0, SimTime(0, 0), None)

  /** The record NewContact leaves in an acquired pool slot: every field
      this model keeps is rewritten from the arguments and the bound world.
      The contact geometry the engine wrote into a reused record is not
      modelled; in the engine it survives, masked by `count` being 0. */
  function Populate(c1: Collision, c2: Collision, time: SimTime, world: Option<WorldRef>): Contact
  {
    Contact(c1.scopedName, c2.scopedName, Some(c1), Some(c2), 0, time, world)
  }

  /** A `msgs::Contacts` message: the records copied in by `FillMsg`, and the
      time stamp. */
  datatype ContactsMsg = ContactsMsg(contact: seq<Contact>, time: SimTime)
}
