/** diskcache.py: pausing the cyclic collector while any number of overlapping callers need it off. */
module GcPause {

  datatype Caller = Enter | Leave

  /** `enabled` is the collector's own switch. */
  datatype Gc = Gc(pausers: nat, resume: bool, enabled: bool)

  /** How many callers are inside after these events. */
  function Inside(events: seq<Caller>): int {
    if events == [] then 0
    else Inside(events[..|events| - 1]) + if events[|events| - 1].Enter? then 1 else -1
  }

  /** Nobody leaves who has not entered. */
  predicate Balanced(events: seq<Caller>) {
    events == [] || (Balanced(events[..|events| - 1]) && Inside(events) >= 0)
  }

  class Collector {
    var pausers: nat
    var resume: bool
    var enabled: bool

    function State(): Gc
      reads this
    {
      Gc(pausers, resume, enabled)
    }

    method Pause()
      modifies this
      ensures State() == Entered(old(State()))
    {
      if pausers == 0 {
        resume := enabled;
        enabled := false;
      }
      pausers := pausers + 1;
    }

    method Unpause()
      requires pausers > 0
      modifies this
      ensures State() == Left(old(State()))
    {
      pausers := pausers - 1;
      if pausers == 0 && resume {
        enabled := true;
      }
    }
  }

  function Entered(g: Gc): Gc {
    if g.pausers == 0 then Gc(1, g.enabled, false) else g.(pausers := g.pausers + 1)
  }

  function Left(g: Gc): Gc
    requires g.pausers > 0
  {
    Gc(g.pausers - 1, g.resume, g.enabled || (g.pausers == 1 && g.resume))
  }

  function After(g: Gc, events: seq<Caller>): (r: Gc)
    requires g.pausers == 0 && Balanced(events)
    ensures r.pausers == Inside(events)
  {
    if events == [] then g
    else
      var before := After(g, events[..|events| - 1]);
      if events[|events| - 1].Enter? then Entered(before) else Left(before)
  }

  /** However the callers overlap, collection is off while any is inside and otherwise as it was found. */
  lemma {:induction false} PausedExactlyWhileInside(g: Gc, events: seq<Caller>)
    requires g.pausers == 0 && Balanced(events)
    ensures After(g, events).enabled == (g.enabled && Inside(events) == 0)
    ensures Inside(events) > 0 ==> After(g, events).resume == g.enabled
  {
    if events != [] {
      PausedExactlyWhileInside(g, events[..|events| - 1]);
    }
  }
}
