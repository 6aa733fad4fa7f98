/** The pool's permit counter and its condition variable (`ConnectionPool::{get, try_get}` and `Drop`), as a machine
    of the sections that hold the permit mutex. Threads may barge in ahead of a woken one and may wake spuriously. */
module Permits {
  import opened Basics

  type Thread = nat

  /** `waiting` threads are asleep on the condition variable; `notified` ones have been woken but have not yet got the
      mutex back. */
  datatype Gate = Gate(max: nat, permits: nat, live: nat, waiting: set<Thread>, notified: set<Thread>)

  datatype Event =
    | Get(t: Thread)
    | TryGet(t: Thread)
    | Resume(t: Thread)
    | Release(woken: Thread)
    | Spurious(t: Thread)

  function Start(max: nat): Result<Gate, Error> {
    if max == 0 then Err(Execution) else Ok(Gate(max, max, 0, {}, {}))
  }

  function Take(g: Gate): Gate
    requires g.permits > 0
  {
    g.(permits := g.permits - 1, live := g.live + 1)
  }

  /** One wakes if anyone sleeps; which one is up to the scheduler. */
  function Notify(g: Gate, t: Thread): Gate {
    if t in g.waiting then g.(waiting := g.waiting - {t}, notified := g.notified + {t}) else g
  }

  /** A step that cannot happen in a state leaves it alone: a thread has one call in progress at most, a notification
      goes to a sleeping thread whenever there is one, and only a live connection can be dropped. */
  function Step(g: Gate, e: Event): Gate {
    match e
    case Get(t) =>
      if t in g.waiting || t in g.notified then g
      else if g.permits == 0 then g.(waiting := g.waiting + {t}) else Take(g)
    case TryGet(t) =>
      if t in g.waiting || t in g.notified || g.permits == 0 then g else Take(g)
    case Resume(t) =>
      if t !in g.notified then g
      else if g.permits == 0 then g.(waiting := g.waiting + {t}, notified := g.notified - {t})
      else Take(g.(notified := g.notified - {t}))
    case Release(t) =>
      if g.live == 0 || (g.waiting != {} && t !in g.waiting) then g
      else Notify(g.(permits := g.permits + 1, live := g.live - 1), t)
    case Spurious(t) => Notify(g, t)
  }

  /** A call is under way for the thread, asleep or woken. */
  predicate Busy(g: Gate, t: Thread) { t in g.waiting || t in g.notified }

  /** What each call does, in counts. Entering with a free permit takes one, for an idle thread that gets in and for
      a woken one alike; without one `get` puts the thread to sleep and `try_get` leaves everything as it is.
      Dropping a live connection frees one and wakes one sleeper if there is any. Waking takes no permit. */
  lemma StepMeans(g: Gate, t: Thread)
    requires GateOk(g)
    ensures !Busy(g, t) && g.permits > 0 ==>
              forall e :: e in {Get(t), TryGet(t)} ==>
                Step(g, e) == Gate(g.max, g.permits - 1, g.live + 1, g.waiting, g.notified)
    ensures !Busy(g, t) && g.permits == 0 ==>
              && Step(g, Get(t)) == Gate(g.max, 0, g.live, g.waiting + {t}, g.notified)
              && Step(g, TryGet(t)) == g
    ensures t in g.notified ==>
              Step(g, Resume(t)) ==
              if g.permits > 0 then Gate(g.max, g.permits - 1, g.live + 1, g.waiting, g.notified - {t})
              else Gate(g.max, 0, g.live, g.waiting + {t}, g.notified - {t})
    ensures g.live > 0 && t in g.waiting ==>
              Step(g, Release(t)) == Gate(g.max, g.permits + 1, g.live - 1, g.waiting - {t}, g.notified + {t})
    ensures g.live > 0 && g.waiting == {} ==>
              Step(g, Release(t)) == Gate(g.max, g.permits + 1, g.live - 1, {}, g.notified)
    ensures t in g.waiting ==>
              Step(g, Spurious(t)) == Gate(g.max, g.permits, g.live, g.waiting - {t}, g.notified + {t})
  {}

  /** How many calls of a run got a permit, and how many connections it dropped. */
  function Got(g: Gate, events: seq<Event>): nat {
    if events == [] then 0 else
      var before := Run(g, events[..|events| - 1]);
      var gets := match events[|events| - 1]
        case Get(t) => !Busy(before, t)
        case TryGet(t) => !Busy(before, t)
        case Resume(t) => t in before.notified
        case _ => false;
      Got(g, events[..|events| - 1]) + if gets && before.permits > 0 then 1 else 0
  }

  function Dropped(g: Gate, events: seq<Event>): nat {
    if events == [] then 0 else
      var before := Run(g, events[..|events| - 1]);
      var drops := match events[|events| - 1]
        case Release(t) => before.live > 0 && (t in before.waiting || before.waiting == {})
        case _ => false;
      Dropped(g, events[..|events| - 1]) + if drops then 1 else 0
  }

  /** The live connections are the ones got and not yet dropped, so calls together get at most `max` more than are
      dropped: nothing but a call that returns a connection takes a permit, and nothing but a drop returns one. */
  lemma {:induction false} LiveIsGotLessDropped(max: nat, events: seq<Event>)
    requires Start(max).Ok?
    ensures var g := Start(max).value;
            && Run(g, events).live + Dropped(g, events) == Got(g, events) <= max + Dropped(g, events)
            && Run(g, events).permits + Got(g, events) == max + Dropped(g, events)
  {
    var g := Start(max).value;
    if events != [] {
      LiveIsGotLessDropped(max, events[..|events| - 1]);
    }
    RunOk(g, events);
  }

  function Run(g: Gate, events: seq<Event>): Gate {
    if events == [] then g else Step(Run(g, events[..|events| - 1]), events[|events| - 1])
  }

  /** Permits are conserved, and while anyone sleeps there are no more free permits than woken threads on their way. */
  predicate GateOk(g: Gate) {
    && g.permits + g.live == g.max
    && g.waiting !! g.notified
    && (g.waiting != {} ==> g.permits <= |g.notified|)
  }

  lemma StepOk(g: Gate, e: Event)
    requires GateOk(g)
    ensures GateOk(Step(g, e)) && Step(g, e).max == g.max
  {
    match e
    case Resume(t) => if t in g.notified { assert |g.notified - {t}| == |g.notified| - 1; }
    case Release(t) => if t in g.waiting { assert |g.notified + {t}| == |g.notified| + 1; }
    case Spurious(t) => if t in g.waiting { assert |g.notified + {t}| == |g.notified| + 1; }
    case _ =>
  }

  lemma {:induction false} RunOk(g: Gate, events: seq<Event>)
    requires GateOk(g)
    ensures GateOk(Run(g, events)) && Run(g, events).max == g.max
  {
    if events != [] {
      RunOk(g, events[..|events| - 1]);
      StepOk(Run(g, events[..|events| - 1]), events[|events| - 1]);
    }
  }

  /** In every reachable state the permits and the live connections add up to the configured maximum; and no wakeup
      is lost: if a thread sleeps while a permit is free, some woken thread has yet to run. A pool without permits
      cannot be made. */
  lemma PermitLaw(max: nat, events: seq<Event>)
    ensures Start(max).Ok? <==> max > 0
    ensures max > 0 ==>
            var g := Run(Start(max).value, events);
            && g.permits + g.live == max
            && (g.waiting != {} && g.permits > 0 ==> g.notified != {})
  {
    if max > 0 { RunOk(Start(max).value, events); }
  }

  /** The permit counter in place. */
  class PermitCounter {
    var gate: Gate

    constructor (max: nat)
      requires max > 0
      ensures Ok(gate) == Start(max)
    {
      gate := Gate(max, max, 0, {}, {});
    }

    /** The part of `get` from the first check to the permit, or to falling asleep. */
    method Enter(t: Thread) returns (got: bool)
      requires !Busy(gate, t)
      modifies this
      ensures gate == Step(old(gate), Get(t)) && (got <==> old(gate).permits > 0)
    {
      if gate.permits == 0 {
        gate := gate.(waiting := gate.waiting + {t});
        return false;
      }
      gate := Take(gate);
      got := true;
    }

    /** `try_get`: a free permit or nothing. */
    method TryEnter(t: Thread) returns (got: bool)
      requires !Busy(gate, t)
      modifies this
      ensures gate == Step(old(gate), TryGet(t)) && (got <==> old(gate).permits > 0)
      ensures got ==> gate.live == old(gate).live + 1 && gate.permits == old(gate).permits - 1
      ensures !got ==> gate == old(gate)
    {
      if gate.permits == 0 { return false; }
      gate := Take(gate);
      got := true;
    }

    /** The same check again, by a thread that was woken. */
    method Reenter(t: Thread) returns (got: bool)
      requires t in gate.notified
      modifies this
      ensures gate == Step(old(gate), Resume(t)) && (got <==> old(gate).permits > 0)
    {
      gate := gate.(notified := gate.notified - {t});
      if gate.permits == 0 {
        gate := gate.(waiting := gate.waiting + {t});
        return false;
      }
      gate := Take(gate);
      got := true;
    }

    /** The end of `drop`. */
    method GiveBack(woken: Thread)
      requires gate.live > 0 && (gate.waiting != {} ==> woken in gate.waiting)
      modifies this
      ensures gate == Step(old(gate), Release(woken))
    {
      gate := gate.(permits := gate.permits + 1, live := gate.live - 1);
      gate := Notify(gate, woken);
    }
  }
}
