/**
 The daemon's event loop and the one-slot request queue (`Sync` and `StartSync` of pkg/autoupgrade/daemon.go)
 as a step machine: requests, clock and timer act between any two steps of the loop.
 */
module DaemonLoop {
  import opened GoStrings

  type Time = int
  const SECOND := 1_000_000_000

  datatype Timer = Armed(at: Time) | Fired | Idle

  /** Where the loop stands; the queue has been received from in Received, the timer stopped in Stopped. */
  datatype Pc =
    | Waiting
    | Ticked
    | Received
    | Stopped
    | Syncing(start: Time)
    | Synced(wait: int)
    | Rearmed
    | Sleeping(until: Time)
    | Exited

  datatype Span = Span(start: Time, end: Time)

  /**
   History: `unserved` is a request since the last receive, `lastRequest` its time, `spans` the finished syncs,
   startup first, `waits` the waits they returned, and `armed` the time at which the timer was last set.
   */
  datatype Loop = Loop(slot: bool, timer: Timer, pc: Pc, clock: Time, unserved: bool, lastRequest: Option<Time>, spans: seq<Span>,
                       waits: seq<int>, armed: Time)

  datatype Action =
    | Request
    | Advance(d: nat)
    | Fire
    | Tick
    | TickRequests
    | Receive
    | StopTimer
    | Begin
    | Finish(wait: int)
    | Reset
    | Nap
    | Wake
    | Exit

  /** The loop starts after the startup sync, with a timer for the wait it returned; a request may be queued from before. */
  function Init(startup: Span, wait: int, queued: Option<Time>): Loop {
    Loop(queued.Some?, Armed(startup.end + wait), Waiting, startup.end, queued.Some?, queued, [startup], [wait], startup.end)
  }

  /** The startup sync takes its time, and what is queued was requested by the time the loop starts. */
  predicate Startup(startup: Span, queued: Option<Time>) {
    startup.start <= startup.end && (queued.Some? ==> queued.value <= startup.end)
  }

  /** What an action does, or None where it cannot happen. */
  function Next(l: Loop, a: Action): Option<Loop> {
    match a
    case Request => Some(l.(slot := true, unserved := true, lastRequest := Some(l.clock)))   // a full slot drops the event
    case Advance(d) => Some(l.(clock := l.clock + d))
    case Fire => if l.timer.Armed? && l.timer.at <= l.clock then Some(l.(timer := Fired)) else None
    case Tick => if l.pc.Waiting? && l.timer.Fired? then Some(l.(timer := Idle, pc := Ticked)) else None
    case TickRequests => if l.pc.Ticked? then Some(l.(slot := true, pc := Waiting)) else None
    case Receive => if l.pc.Waiting? && l.slot then Some(l.(slot := false, unserved := false, pc := Received)) else None
    case StopTimer => if l.pc.Received? then Some(l.(timer := Idle, pc := Stopped)) else None   // stopped, or its tick drained
    case Begin => if l.pc.Stopped? then Some(l.(pc := Syncing(l.clock))) else None
    case Finish(wait) =>
      if l.pc.Syncing? then Some(l.(pc := Synced(wait), spans := l.spans + [Span(l.pc.start, l.clock)], waits := l.waits + [wait])) else None
    case Reset => if l.pc.Synced? then Some(l.(timer := Armed(l.clock + l.pc.wait), armed := l.clock, pc := Rearmed)) else None
    case Nap => if l.pc.Rearmed? then Some(l.(pc := Sleeping(l.clock + SECOND))) else None
    case Wake => if l.pc.Sleeping? && l.clock >= l.pc.until then Some(l.(pc := Waiting)) else None
    case Exit => if l.pc.Waiting? then Some(l.(pc := Exited)) else None
  }

  function Run(l: Loop, actions: seq<Action>): Option<Loop>
    decreases |actions|
  {
    if actions == [] then Some(l)
    else if Next(l, actions[0]).None? then None
    else Run(Next(l, actions[0]).value, actions[1..])
  }

  // ---------- The invariant ----------

  function Last(l: Loop): Span
    requires l.spans != []
  {
    l.spans[|l.spans| - 1]
  }

  /** The start of the sync that began last. */
  function LatestStart(l: Loop): Time
    requires l.spans != []
  {
    if l.pc.Syncing? then l.pc.start else Last(l).start
  }

  /** A request since the last receive keeps the slot full; an earlier one has been followed by a sync, or is about to be. */
  ghost predicate RequestsInv(l: Loop) {
    && l.spans != []
    && (l.unserved ==> l.slot)
    && (l.lastRequest.Some? ==> l.lastRequest.value <= l.clock)
    && (l.lastRequest.Some? && !l.unserved ==> l.pc.Received? || l.pc.Stopped? || LatestStart(l) >= l.lastRequest.value)
  }

  /** Something will wake the loop wherever it waits or is about to. */
  ghost predicate WakeInv(l: Loop) {
    && (l.pc.Waiting? ==> !l.timer.Idle? || l.slot)
    && (l.pc.Rearmed? || l.pc.Sleeping? ==> !l.timer.Idle?)
  }

  /** Whether a sync has been finished by the loop itself. */
  predicate Looped(l: Loop) { |l.spans| >= 2 }

  /** Syncs do not overlap, and those of the loop are separated by at least a second. */
  ghost predicate Separated(spans: seq<Span>) {
    && (forall i :: 0 <= i < |spans| ==> spans[i].start <= spans[i].end)
    && (forall i :: 0 <= i < |spans| - 1 ==> spans[i].end <= spans[i + 1].start)
    && (forall i :: 1 <= i < |spans| - 1 ==> spans[i].end + SECOND <= spans[i + 1].start)
  }

  /** Between two syncs of the loop a second passes before the loop waits again. */
  ghost predicate PaceInv(l: Loop)
    requires l.spans != []
  {
    && Last(l).end <= l.clock
    && match l.pc
       case Syncing(s) => Last(l).end <= s <= l.clock && (Looped(l) ==> Last(l).end + SECOND <= s)
       case Sleeping(u) => Looped(l) && Last(l).end + SECOND <= u
       case Synced(_) => Looped(l)
       case Rearmed => Looped(l)
       case _ => Looped(l) ==> Last(l).end + SECOND <= l.clock
  }

  ghost predicate SpansInv(l: Loop) { l.spans != [] && Separated(l.spans) && PaceInv(l) }

  /**
   The timer is set after a sync ended, for the wait that very sync returned, counted from the moment it is set;
   it is not running from the moment a request is received until it is set again.
   */
  ghost predicate TimerInv(l: Loop) {
    && l.spans != [] && |l.waits| == |l.spans|
    && Last(l).end <= l.clock
    && (l.pc.Synced? ==> l.pc.wait == l.waits[|l.waits| - 1])
    && (l.pc.Ticked? || l.pc.Stopped? || l.pc.Syncing? || l.pc.Synced? ==> l.timer.Idle?)
    && (!l.timer.Idle? ==> Last(l).end <= l.armed <= l.clock)
    && (l.timer.Armed? ==> l.timer.at == l.armed + l.waits[|l.waits| - 1])
    && (l.timer.Fired? ==> l.armed + l.waits[|l.waits| - 1] <= l.clock)
    && ((l.pc.Waiting? || l.pc.Received?) && Looped(l) && !l.timer.Idle? ==> l.armed + SECOND <= l.clock)
    && (l.pc.Sleeping? ==> l.armed + SECOND <= l.pc.until)
  }

  ghost predicate Inv(l: Loop) { RequestsInv(l) && WakeInv(l) && SpansInv(l) && TimerInv(l) }

  lemma NextKeepsTimer(l: Loop, a: Action)
    requires TimerInv(l) && SpansInv(l) && WakeInv(l) && Next(l, a).Some?
    ensures TimerInv(Next(l, a).value)
  {
  }

  lemma SeparatedAppend(spans: seq<Span>, s: Span)
    requires spans != [] && Separated(spans) && s.start <= s.end && spans[|spans| - 1].end <= s.start
    requires |spans| >= 2 ==> spans[|spans| - 1].end + SECOND <= s.start
    ensures Separated(spans + [s])
  {
    var all := spans + [s];
    assert forall i :: 0 <= i < |spans| ==> all[i] == spans[i];
    assert all[|spans|] == s;
  }

  lemma NextKeepsRequests(l: Loop, a: Action)
    requires Inv(l) && Next(l, a).Some?
    ensures RequestsInv(Next(l, a).value)
  {
  }

  lemma NextKeepsWake(l: Loop, a: Action)
    requires WakeInv(l) && Next(l, a).Some?
    ensures WakeInv(Next(l, a).value)
  {
  }

  lemma NextKeepsSpans(l: Loop, a: Action)
    requires SpansInv(l) && Next(l, a).Some?
    ensures SpansInv(Next(l, a).value) && Next(l, a).value.clock >= l.clock
  {
    if a.Finish? {
      SeparatedAppend(l.spans, Span(l.pc.start, l.clock));
    } else {
      assert Next(l, a).value.spans == l.spans;
    }
  }

  lemma NextKeepsInv(l: Loop, a: Action)
    requires Inv(l) && Next(l, a).Some?
    ensures Inv(Next(l, a).value) && Next(l, a).value.clock >= l.clock
  {
    NextKeepsRequests(l, a);
    NextKeepsWake(l, a);
    NextKeepsSpans(l, a);
    NextKeepsTimer(l, a);
  }

  lemma {:induction false} RunKeepsInv(l: Loop, actions: seq<Action>)
    requires Inv(l) && Run(l, actions).Some?
    ensures Inv(Run(l, actions).value) && Run(l, actions).value.clock >= l.clock
    decreases |actions|
  {
    if actions != [] {
      NextKeepsInv(l, actions[0]);
      RunKeepsInv(Next(l, actions[0]).value, actions[1..]);
    }
  }

  /**
   In every reachable state: a request since the last receive has the slot full; a waiting loop has a timer
   armed, a tick pending or the slot full; syncs never overlap; and syncs of the loop start at least a second
   after the previous one ended.
   */
  lemma EveryReachableState(startup: Span, wait: int, queued: Option<Time>, actions: seq<Action>)
    requires Startup(startup, queued) && Run(Init(startup, wait, queued), actions).Some?
    ensures var l := Run(Init(startup, wait, queued), actions).value;
            && (l.unserved ==> l.slot)
            && (l.pc.Waiting? ==> l.timer.Armed? || l.timer.Fired? || l.slot)
            && (forall i, j :: 0 <= i < j < |l.spans| ==> l.spans[i].end <= l.spans[j].start)
            && (forall i, j :: 1 <= i < j < |l.spans| ==> l.spans[i].start + 1_000_000_000 <= l.spans[j].start)
            && (l.pc.Syncing? ==> forall i :: 0 <= i < |l.spans| ==> l.spans[i].end <= l.pc.start)
  {
    RunKeepsInv(Init(startup, wait, queued), actions);
    var l := Run(Init(startup, wait, queued), actions).value;
    forall i, j | 0 <= i < j < |l.spans|
      ensures l.spans[i].end <= l.spans[j].start
      ensures 1 <= i ==> l.spans[i].start + SECOND <= l.spans[j].start
    {
      SpansOrdered(l, i, j);
    }
  }

  /**
   A loop that waits on an empty queue is woken in time: its timer was set after the last sync ended, and either it
   will fire once the wait returned by that sync has passed since, or that wait has passed and the tick is there.
   */
  lemma WaitingIsTimed(startup: Span, wait: int, queued: Option<Time>, actions: seq<Action>)
    requires Startup(startup, queued) && Run(Init(startup, wait, queued), actions).Some?
    ensures var l := Run(Init(startup, wait, queued), actions).value;
            l.pc.Waiting? && !l.slot ==>
              && |l.waits| == |l.spans| > 0 && l.spans[|l.spans| - 1].end <= l.armed <= l.clock
              && (|l.spans| > 1 ==> l.armed + 1_000_000_000 <= l.clock)
              && var due := l.armed + l.waits[|l.waits| - 1];
                 l.timer == Armed(due) || (l.timer == Fired && due <= l.clock)
  {
    RunKeepsInv(Init(startup, wait, queued), actions);
  }

  lemma {:induction false} SpansOrdered(l: Loop, i: nat, j: nat)
    requires SpansInv(l) && i < j < |l.spans|
    ensures l.spans[i].end <= l.spans[j].start
    ensures 1 <= i ==> l.spans[i].end + SECOND <= l.spans[j].start
    decreases j - i
  {
    if i + 1 < j { SpansOrdered(l, i + 1, j); }
  }

  lemma {:induction false} LastRequestGrows(l: Loop, actions: seq<Action>, t: Time)
    requires Inv(l) && Run(l, actions).Some? && l.lastRequest.Some? && t <= l.lastRequest.value
    ensures Run(l, actions).value.lastRequest.Some? && t <= Run(l, actions).value.lastRequest.value
    decreases |actions|
  {
    if actions != [] {
      NextKeepsInv(l, actions[0]);
      LastRequestGrows(Next(l, actions[0]).value, actions[1..], t);
    }
  }

  /** A request queued before the loop starts waits in the slot, is being served, or has been served by a sync of the loop. */
  predicate QueuedInv(l: Loop) { (l.unserved && l.slot) || l.pc.Received? || l.pc.Stopped? || l.pc.Syncing? || Looped(l) }

  lemma {:induction false} RunKeepsQueued(l: Loop, actions: seq<Action>)
    requires l.spans != [] && QueuedInv(l) && Run(l, actions).Some?
    ensures QueuedInv(Run(l, actions).value)
    decreases |actions|
  {
    if actions != [] { RunKeepsQueued(Next(l, actions[0]).value, actions[1..]); }
  }

  /**
   A request made before the loop starts is not lost either: whenever the loop waits on an empty queue, a sync
   has followed the startup sync, and it began after the request.
   */
  lemma QueuedRequestIsServed(startup: Span, wait: int, queued: Time, actions: seq<Action>)
    requires Startup(startup, Some(queued)) && Run(Init(startup, wait, Some(queued)), actions).Some?
    ensures var end := Run(Init(startup, wait, Some(queued)), actions).value;
            end.pc.Waiting? && !end.slot ==> exists i :: 1 <= i < |end.spans| && end.spans[i].start >= queued
  {
    var l := Init(startup, wait, Some(queued));
    RunKeepsInv(l, actions);
    RunKeepsQueued(l, actions);
    LastRequestGrows(l, actions, queued);
    var end := Run(l, actions).value;
    assert Last(end) == end.spans[|end.spans| - 1];
  }

  /** No request is lost by being dropped: whenever the loop next waits on an empty queue, a sync has started since. */
  lemma RequestsAreServed(startup: Span, wait: int, queued: Option<Time>, before: seq<Action>, after: seq<Action>)
    requires Startup(startup, queued) && Run(Init(startup, wait, queued), before).Some?
    requires Run(Next(Run(Init(startup, wait, queued), before).value, Request).value, after).Some?
    ensures var asked := Run(Init(startup, wait, queued), before).value;
            var end := Run(Next(asked, Request).value, after).value;
            end.pc.Waiting? && !end.slot ==> exists i :: 0 <= i < |end.spans| && end.spans[i].start >= asked.clock
  {
    RunKeepsInv(Init(startup, wait, queued), before);
    var asked := Run(Init(startup, wait, queued), before).value;
    NextKeepsInv(asked, Request);
    var l := Next(asked, Request).value;
    RunKeepsInv(l, after);
    LastRequestGrows(l, after, asked.clock);
    var end := Run(l, after).value;
    assert Last(end) == end.spans[|end.spans| - 1];
  }
}
