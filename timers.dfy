/**
 * The event loop's interval timers, as `setInterval` and `clearInterval` see them: handles
 * of the intervals still scheduled, with their periods. When a callback runs is not modelled.
 */
module Timers {

  class Scheduler {
    /** Handle to period in milliseconds, for every interval still scheduled. */
    var active: map<nat, nat>
    /** The handle the next `setInterval` returns. */
    var next: nat

    ghost predicate Valid()
      reads this
    {
      forall h :: h in active ==> h < next
    }

    constructor ()
      ensures Valid() && active == map[] && next == 0
    {
      active, next := map[], 0;
    }

    /** `setInterval(callback, period)`: a handle no other interval has. */
    method SetInterval(period: nat) returns (h: nat)
      requires Valid()
      modifies this
      ensures Valid()
      ensures h == old(next) && h !in old(active)
      ensures active == old(active)[h := period] && next == old(next) + 1
    {
      h := next;
      active := active[h := period];
      next := next + 1;
    }

    /** `clearInterval(h)`: unknown handles are ignored. */
    method ClearInterval(h: nat)
      requires Valid()
      modifies this
      ensures Valid()
      ensures active == old(active) - {h} && next == old(next)
    {
      active := active - {h};
    }
  }
}
