/**
 The bulkhead (libs/go/src/fault/bulkhead.go) under every interleaving.  Each caller of `Execute` walks through
 the atomic actions of `acquire`, the operation and `release`: sends and receives on the two channels, and the
 locked changes of `currentLoad`.  A run interleaves the actions of any number of callers in any order.
 */
module Bulkhead {
  import opened Options

  /** A configuration that `Validate` accepts. */
  datatype Config = Config(maxConcurrent: int, queueSize: int) {
    ghost predicate Valid() {
      maxConcurrent > 0 && queueSize >= 0
    }
  }

  /** Where a caller is: the next action it will take. */
  datatype Place =
    | TrySemaphore   // the first select, with its default branch
    | TryQueue       // the second select, with its default branch
    | Waiting        // the third select: the semaphore or the end of the wait
    | CountDirect    // holds a permit, about to increment the load
    | CountQueued    // the same, having come through the queue
    | LeaveQueue     // the deferred receive after success
    | Running        // the operation
    | GiveBack       // the receive in release
    | Uncount        // about to decrement the load
    | LeaveQueueErr  // the deferred receive after the wait ended
    | Finished(ok: bool)

  /** Channel occupancies, the load counter, and the callers. */
  datatype Sys = Sys(semaphore: nat, queue: nat, load: int, callers: map<nat, Place>)

  datatype Action = Arrive(id: nat) | Act(id: nat) | EndWait(id: nat)

  // ---------- the steps ----------

  function Init(): Sys {
    Sys(0, 0, 0, map[])
  }

  function Goto(s: Sys, id: nat, p: Place): Sys {
    s.(callers := s.callers[id := p])
  }

  /** The next action of a caller; `None` when it blocks or has nothing left to do. */
  function ActOf(c: Config, s: Sys, id: nat): Option<Sys>
    requires id in s.callers
  {
    match s.callers[id]
    case TrySemaphore =>
      if s.semaphore < c.maxConcurrent then Some(Goto(s, id, CountDirect).(semaphore := s.semaphore + 1))
      else Some(Goto(s, id, TryQueue))
    case TryQueue =>
      if s.queue < c.queueSize then Some(Goto(s, id, Waiting).(queue := s.queue + 1))
      else Some(Goto(s, id, Finished(false)))
    case Waiting =>
      if s.semaphore < c.maxConcurrent then Some(Goto(s, id, CountQueued).(semaphore := s.semaphore + 1)) else None
    case CountDirect => Some(Goto(s, id, Running).(load := s.load + 1))
    case CountQueued => Some(Goto(s, id, LeaveQueue).(load := s.load + 1))
    case LeaveQueue => if s.queue > 0 then Some(Goto(s, id, Running).(queue := s.queue - 1)) else None
    case Running => Some(Goto(s, id, GiveBack))
    case GiveBack => if s.semaphore > 0 then Some(Goto(s, id, Uncount).(semaphore := s.semaphore - 1)) else None
    case Uncount => Some(Goto(s, id, Finished(true)).(load := s.load - 1))
    case LeaveQueueErr =>
      if s.queue > 0 then Some(Goto(s, id, Finished(false)).(queue := s.queue - 1)) else None
    case Finished(_) => None
  }

  function Step(c: Config, s: Sys, a: Action): Option<Sys> {
    match a
    case Arrive(id) => if id in s.callers then None else Some(Goto(s, id, TrySemaphore))
    case Act(id) => if id in s.callers then ActOf(c, s, id) else None
    case EndWait(id) =>
      if id in s.callers && s.callers[id] == Waiting then Some(Goto(s, id, LeaveQueueErr)) else None
  }

  /** The state after a run; `None` when some action of it was not possible. */
  function Run(c: Config, actions: seq<Action>): Option<Sys> {
    if actions == [] then Some(Init()) else
      match Run(c, actions[..|actions| - 1])
      case None => None
      case Some(s) => Step(c, s, actions[|actions| - 1])
  }

  // ---------- who counts where ----------

  predicate Holds(p: Place) {
    p.CountDirect? || p.CountQueued? || p.LeaveQueue? || p.Running? || p.GiveBack?
  }

  predicate Queued(p: Place) {
    p.Waiting? || p.CountQueued? || p.LeaveQueue? || p.LeaveQueueErr?
  }

  predicate Counted(p: Place) {
    p.LeaveQueue? || p.Running? || p.GiveBack? || p.Uncount?
  }

  predicate Operating(p: Place) {
    p.Running?
  }

  ghost function At(callers: map<nat, Place>, q: Place -> bool): set<nat> {
    set id | id in callers && q(callers[id])
  }

  ghost function Bit(b: bool): nat {
    if b then 1 else 0
  }

  lemma SizeWithout(a: set<nat>, id: nat)
    ensures |a| == |a - {id}| + Bit(id in a)
  {
    if id in a { assert a == (a - {id}) + {id}; } else { assert a == a - {id}; }
  }

  /** Moving one caller changes a count by that caller's own contribution. */
  lemma MoveOne(callers: map<nat, Place>, id: nat, p: Place, q: Place -> bool)
    ensures |At(callers[id := p], q)|
            == |At(callers, q)| + Bit(q(p)) - Bit(id in callers && q(callers[id]))
  {
    var before, after := At(callers, q), At(callers[id := p], q);
    assert after - {id} == before - {id};
    SizeWithout(before, id);
    SizeWithout(after, id);
  }

  /**
   The invariant: the semaphore's occupancy is the number of callers holding a permit, the queue's the number
   between enqueue and the deferred dequeue, the load the number between increment and decrement, and neither
   channel is over its capacity.
   */
  ghost predicate Inv(c: Config, s: Sys) {
    && s.semaphore == |At(s.callers, Holds)| <= c.maxConcurrent
    && s.queue == |At(s.callers, Queued)| <= c.queueSize
    && s.load == |At(s.callers, Counted)|
  }

  /** Only the caller that acts moves. */
  lemma StepMoves(c: Config, s: Sys, a: Action)
    requires Step(c, s, a).Some?
    ensures var t := Step(c, s, a).value;
            a.id in t.callers && t.callers == s.callers[a.id := t.callers[a.id]]
  { }

  ghost function Was(s: Sys, id: nat, q: Place -> bool): nat {
    Bit(id in s.callers && q(s.callers[id]))
  }

  /** Each counter changes by what the acting caller's move contributes, and stays within its capacity. */
  lemma StepCounts(c: Config, s: Sys, a: Action)
    requires c.Valid() && Step(c, s, a).Some?
    requires s.semaphore <= c.maxConcurrent && s.queue <= c.queueSize
    ensures var t := Step(c, s, a).value; var p := t.callers[a.id];
            && t.semaphore == s.semaphore + Bit(Holds(p)) - Was(s, a.id, Holds) <= c.maxConcurrent
            && t.queue == s.queue + Bit(Queued(p)) - Was(s, a.id, Queued) <= c.queueSize
            && t.load == s.load + Bit(Counted(p)) - Was(s, a.id, Counted)
  { }

  lemma StepKeepsInv(c: Config, s: Sys, a: Action)
    requires c.Valid() && Inv(c, s) && Step(c, s, a).Some?
    ensures Inv(c, Step(c, s, a).value)
  {
    var p := Step(c, s, a).value.callers[a.id];
    StepMoves(c, s, a);
    StepCounts(c, s, a);
    MoveOne(s.callers, a.id, p, Holds);
    MoveOne(s.callers, a.id, p, Queued);
    MoveOne(s.callers, a.id, p, Counted);
  }

  /** The invariant holds after every run, whatever the interleaving and the number of callers. */
  lemma {:induction false} EveryInterleaving(c: Config, actions: seq<Action>)
    requires c.Valid() && Run(c, actions).Some?
    ensures Inv(c, Run(c, actions).value)
  {
    if actions == [] {
      assert At(map[], Holds) == {} && At(map[], Queued) == {} && At(map[], Counted) == {};
    } else {
      var past := actions[..|actions| - 1];
      EveryInterleaving(c, past);
      StepKeepsInv(c, Run(c, past).value, actions[|actions| - 1]);
    }
  }

  lemma Present(callers: map<nat, Place>, id: nat, q: Place -> bool)
    requires id in callers && q(callers[id])
    ensures |At(callers, q)| > 0
  {
    assert id in At(callers, q);
  }

  lemma {:induction false} SubsetSize(a: set<nat>, b: set<nat>)
    requires a <= b
    ensures |a| <= |b|
    decreases |a|
  {
    if a != {} {
      var x :| x in a;
      SubsetSize(a - {x}, b - {x});
    }
  }

  /** At most `MaxConcurrent` operations run at once. */
  lemma ConcurrencyBounded(c: Config, actions: seq<Action>)
    requires c.Valid() && Run(c, actions).Some?
    ensures |At(Run(c, actions).value.callers, Operating)| <= c.maxConcurrent
  {
    EveryInterleaving(c, actions);
    var callers := Run(c, actions).value.callers;
    SubsetSize(At(callers, Operating), At(callers, Holds));
  }

  /** The receive in `release` and both deferred dequeues never block. */
  lemma ReceivesNeverBlock(c: Config, actions: seq<Action>, id: nat)
    requires c.Valid() && Run(c, actions).Some? && id in Run(c, actions).value.callers
    requires var p := Run(c, actions).value.callers[id]; p.GiveBack? || p.LeaveQueue? || p.LeaveQueueErr?
    ensures Step(c, Run(c, actions).value, Act(id)).Some?
  {
    EveryInterleaving(c, actions);
    var s := Run(c, actions).value;
    if s.callers[id].GiveBack? { Present(s.callers, id, Holds); } else { Present(s.callers, id, Queued); }
  }

  /** When every caller has finished, both channels are empty and the load is zero. */
  lemma DrainsToZero(c: Config, actions: seq<Action>)
    requires c.Valid() && Run(c, actions).Some?
    requires forall id :: id in Run(c, actions).value.callers ==> Run(c, actions).value.callers[id].Finished?
    ensures var s := Run(c, actions).value; s.semaphore == 0 && s.queue == 0 && s.load == 0
  {
    EveryInterleaving(c, actions);
    var callers := Run(c, actions).value.callers;
    assert At(callers, Holds) == {} && At(callers, Queued) == {} && At(callers, Counted) == {};
  }

  /** No deadlock: while some caller is unfinished, some caller can act, without any wait having to end. */
  lemma NoDeadlock(c: Config, actions: seq<Action>, someone: nat) returns (id: nat)
    requires c.Valid() && Run(c, actions).Some?
    requires someone in Run(c, actions).value.callers && !Run(c, actions).value.callers[someone].Finished?
    ensures Step(c, Run(c, actions).value, Act(id)).Some?
  {
    EveryInterleaving(c, actions);
    var s := Run(c, actions).value;
    if s.callers[someone] != Waiting {
      id := someone;
      if s.callers[id].GiveBack? || s.callers[id].LeaveQueue? || s.callers[id].LeaveQueueErr? {
        ReceivesNeverBlock(c, actions, id);
      }
    } else if At(s.callers, Holds) == {} {
      id := someone;
    } else {
      id :| id in At(s.callers, Holds);
      if s.callers[id].GiveBack? || s.callers[id].LeaveQueue? { ReceivesNeverBlock(c, actions, id); }
    }
  }

  // ---------- what the selects decide, and what a caller goes through ----------

  /**
   After every run, counted over the callers: the first select takes a permit exactly when fewer than
   `MaxConcurrent` callers hold one and otherwise goes on to the queue; the second joins the queue exactly when fewer
   than `QueueSize` are in it and otherwise refuses; a waiting caller can proceed exactly when a permit is free.
   */
  lemma SelectsExact(c: Config, actions: seq<Action>, id: nat)
    requires c.Valid() && Run(c, actions).Some? && id in Run(c, actions).value.callers
    ensures var s := Run(c, actions).value; var t := Step(c, s, Act(id));
            var permitFree := |At(s.callers, Holds)| < c.maxConcurrent;
            var queueFree := |At(s.callers, Queued)| < c.queueSize;
            match s.callers[id]
            case TrySemaphore => t.Some? && t.value.callers[id] == (if permitFree then CountDirect else TryQueue)
            case TryQueue => t.Some? && t.value.callers[id] == (if queueFree then Waiting else Finished(false))
            case Waiting => (t.Some? <==> permitFree) && (t.Some? ==> t.value.callers[id] == CountQueued)
            case _ => true
  {
    EveryInterleaving(c, actions);
  }

  /** A wait can end exactly while a caller is waiting, and that caller is then refused, leaving the queue, without
      anyone else having to act. */
  lemma WaitCanEnd(c: Config, actions: seq<Action>, id: nat)
    requires c.Valid() && Run(c, actions).Some?
    ensures var s := Run(c, actions).value; var t := Step(c, s, EndWait(id));
            && (t.Some? <==> id in s.callers && s.callers[id].Waiting?)
            && (t.Some? ==>
                && s.queue > 0
                && Step(c, t.value, Act(id)) == Some(Goto(s, id, Finished(false)).(queue := s.queue - 1)))
  {
    EveryInterleaving(c, actions);
    var s := Run(c, actions).value;
    if id in s.callers && s.callers[id].Waiting? {
      Present(s.callers, id, Queued);
      assert s.callers[id := LeaveQueueErr][id := Finished(false)] == s.callers[id := Finished(false)];
    }
  }

  /** How often the operation of a caller ran. */
  function RunsBy(c: Config, actions: seq<Action>, id: nat): nat {
    if actions == [] then 0 else
      var past := actions[..|actions| - 1];
      RunsBy(c, past, id) + (if actions[|actions| - 1] == Act(id) && IsRunning(Run(c, past), id) then 1 else 0)
  }

  predicate IsRunning(s: Option<Sys>, id: nat) {
    s.Some? && id in s.value.callers && s.value.callers[id].Running?
  }

  predicate HasRun(p: Place) {
    p.GiveBack? || p.Uncount? || p == Finished(true)
  }

  lemma StepRuns(c: Config, s: Sys, a: Action, id: nat)
    requires Step(c, s, a).Some?
    ensures Was(Step(c, s, a).value, id, HasRun)
            == Was(s, id, HasRun) + (if a == Act(id) && IsRunning(Some(s), id) then 1 else 0)
  { }

  /** In every run an operation runs at most once, and a caller has ended with success exactly when it has ended and
      its operation ran: a caller refused or timed out never runs. */
  lemma {:induction false} SucceedsIffRan(c: Config, actions: seq<Action>, id: nat)
    requires Run(c, actions).Some?
    ensures var s := Run(c, actions).value;
            && RunsBy(c, actions, id) == Was(s, id, HasRun) <= 1
            && (id in s.callers && s.callers[id].Finished? ==> (s.callers[id].ok <==> RunsBy(c, actions, id) == 1))
  {
    if actions != [] {
      var past := actions[..|actions| - 1];
      SucceedsIffRan(c, past, id);
      StepRuns(c, Run(c, past).value, actions[|actions| - 1], id);
    }
  }

  lemma Extend(c: Config, actions: seq<Action>, s: Sys, a: Action) returns (longer: seq<Action>, t: Sys)
    requires Run(c, actions) == Some(s) && Step(c, s, a).Some?
    ensures longer == actions + [a] && Run(c, longer) == Some(t) == Step(c, s, a)
  {
    longer, t := actions + [a], Step(c, s, a).value;
    assert longer[..|actions|] == actions;
  }

  /** A state in which `k` callers, numbered from zero, run their operations. */
  ghost predicate AllRunning(s: Sys, k: nat) {
    && (forall id :: id in s.callers ==> id < k && s.callers[id].Running?)
    && |s.callers| == k && s.semaphore == k
  }

  lemma OneMoreRunning(c: Config, actions: seq<Action>, s: Sys, k: nat) returns (longer: seq<Action>, t: Sys)
    requires Run(c, actions) == Some(s) && AllRunning(s, k) && k < c.maxConcurrent
    ensures Run(c, longer) == Some(t) && AllRunning(t, k + 1)
  {
    longer, t := Extend(c, actions, s, Arrive(k));
    longer, t := Extend(c, longer, t, Act(k));
    longer, t := Extend(c, longer, t, Act(k));
    assert t.callers == s.callers[k := Running];
  }

  lemma {:induction false} RunTogether(c: Config, k: nat) returns (actions: seq<Action>, s: Sys)
    requires k <= c.maxConcurrent
    ensures Run(c, actions) == Some(s) && AllRunning(s, k)
  {
    if k == 0 {
      actions, s := [], Init();
    } else {
      actions, s := RunTogether(c, k - 1);
      actions, s := OneMoreRunning(c, actions, s, k - 1);
    }
  }

  /** Exactly `k` operations run at once after this run. */
  ghost predicate Together(c: Config, actions: seq<Action>, k: nat) {
    Run(c, actions).Some? && |At(Run(c, actions).value.callers, Operating)| == k
  }

  /** Some run has `k` operations running at once exactly when `k` is at most `MaxConcurrent`. */
  lemma TogetherIff(c: Config, k: nat)
    requires c.Valid()
    ensures (exists actions :: Together(c, actions, k)) <==> k <= c.maxConcurrent
  {
    if k <= c.maxConcurrent {
      var actions, s := RunTogether(c, k);
      assert At(s.callers, Operating) == s.callers.Keys;
      assert Together(c, actions, k);
    } else {
      forall actions ensures !Together(c, actions, k) {
        if Run(c, actions).Some? { ConcurrencyBounded(c, actions); }
      }
    }
  }

  // ---------- every caller takes boundedly many actions ----------

  function ActionsLeft(p: Place): nat {
    match p
    case TrySemaphore => 8
    case TryQueue => 7
    case Waiting => 6
    case CountQueued => 5
    case CountDirect => 4
    case LeaveQueue => 4
    case Running => 3
    case GiveBack => 2
    case Uncount => 1
    case LeaveQueueErr => 1
    case Finished(_) => 0
  }

  function ActionsBy(actions: seq<Action>, id: nat): nat {
    if actions == [] then 0 else
      ActionsBy(actions[..|actions| - 1], id) + (if actions[|actions| - 1].id == id then 1 else 0)
  }

  /** No livelock: in every run a caller takes at most nine actions, its arrival included. */
  lemma {:induction false} CallersTerminate(c: Config, actions: seq<Action>, id: nat)
    requires Run(c, actions).Some?
    ensures var s := Run(c, actions).value;
            if id in s.callers then ActionsBy(actions, id) + ActionsLeft(s.callers[id]) <= 9
            else ActionsBy(actions, id) == 0
  {
    if actions != [] {
      var past, last := actions[..|actions| - 1], actions[|actions| - 1];
      CallersTerminate(c, past, id);
      StepSpends(c, Run(c, past).value, last, id);
    }
  }

  /** An action uses up one of its caller's remaining actions and leaves the other callers alone. */
  lemma StepSpends(c: Config, s: Sys, a: Action, id: nat)
    requires Step(c, s, a).Some?
    ensures var t := Step(c, s, a).value;
            if a.id != id
            then (id in t.callers <==> id in s.callers) && (id in s.callers ==> t.callers[id] == s.callers[id])
            else
              && id in t.callers
              && ActionsLeft(t.callers[id]) <= (if id in s.callers then ActionsLeft(s.callers[id]) - 1 else 8)
  { }

  // ---------- the load counter lags ----------

  predicate NotYetCounted(p: Place) {
    p.CountDirect? || p.CountQueued?
  }

  predicate NoLongerHolding(p: Place) {
    p.Uncount?
  }

  lemma {:induction false} Disjoint(a: set<nat>, b: set<nat>)
    requires a !! b
    ensures |a + b| == |a| + |b|
  { }

  /** How far `CurrentLoad` is from the permits in use: ahead by the callers that gave theirs back but have not
      decremented, behind by those that hold one but have not incremented. */
  lemma LoadLag(c: Config, actions: seq<Action>)
    requires c.Valid() && Run(c, actions).Some?
    ensures var s := Run(c, actions).value;
            s.load + |At(s.callers, NotYetCounted)| == s.semaphore + |At(s.callers, NoLongerHolding)|
  {
    EveryInterleaving(c, actions);
    var callers := Run(c, actions).value.callers;
    Disjoint(At(callers, Counted), At(callers, NotYetCounted));
    Disjoint(At(callers, Holds), At(callers, NoLongerHolding));
    assert At(callers, Counted) + At(callers, NotYetCounted) == At(callers, Holds) + At(callers, NoLongerHolding);
  }

  // ---------- when the load stays within the limit ----------

  /** The load is at most the number of callers that ever arrived. */
  lemma LoadWithinCallers(c: Config, actions: seq<Action>)
    requires c.Valid() && Run(c, actions).Some?
    ensures Run(c, actions).value.load <= |Run(c, actions).value.callers|
  {
    EveryInterleaving(c, actions);
    var callers := Run(c, actions).value.callers;
    SubsetSize(At(callers, Counted), callers.Keys);
  }

  /** A state in which `k` callers, numbered from zero, have given their permits back and are all still counted. */
  ghost predicate PiledUp(s: Sys, k: nat) {
    && (forall id :: id in s.callers ==> id < k)
    && |s.callers| == k && s.semaphore == 0 && s.load == k
  }

  /** Caller `id` of `s` acts, at a place where nothing blocks it. */
  lemma Advance(c: Config, actions: seq<Action>, base: Sys, id: nat, p: Place, sem: nat, load: int)
    returns (longer: seq<Action>)
    requires c.Valid() && (p.TrySemaphore? || p.CountDirect? || p.Running? || p.GiveBack?)
    requires sem == if p.TrySemaphore? then 0 else 1
    requires Run(c, actions) == Some(Sys(sem, base.queue, load, base.callers[id := p]))
    ensures var q := if p.TrySemaphore? then CountDirect else if p.CountDirect? then Running
                     else if p.Running? then GiveBack else Uncount;
            Run(c, longer) == Some(Sys(if q.Uncount? then 0 else 1, base.queue,
                                       if q.Running? then load + 1 else load, base.callers[id := q]))
  {
    var s := Run(c, actions).value;
    var t;
    longer, t := Extend(c, actions, s, Act(id));
    assert t.callers == base.callers[id := t.callers[id]];
  }

  /** One more caller arrives, takes a permit, is counted, runs, and gives the permit back. */
  lemma OneMore(c: Config, actions: seq<Action>, s: Sys, k: nat) returns (longer: seq<Action>, t: Sys)
    requires c.Valid() && Run(c, actions) == Some(s) && PiledUp(s, k)
    ensures Run(c, longer) == Some(t) && PiledUp(t, k + 1)
  {
    longer, t := Extend(c, actions, s, Arrive(k));
    longer := Advance(c, longer, s, k, TrySemaphore, 0, k);
    longer := Advance(c, longer, s, k, CountDirect, 1, k);
    longer := Advance(c, longer, s, k, Running, 1, k + 1);
    longer := Advance(c, longer, s, k, GiveBack, 1, k + 1);
    t := Sys(0, s.queue, k + 1, s.callers[k := Uncount]);
  }

  /** For every configuration and every `k` there is a run with exactly `k` callers and a load of `k`. */
  lemma {:induction false} LoadPilesUp(c: Config, k: nat) returns (actions: seq<Action>, s: Sys)
    requires c.Valid()
    ensures Run(c, actions) == Some(s) && PiledUp(s, k)
  {
    if k == 0 {
      actions, s := [], Init();
    } else {
      actions, s := LoadPilesUp(c, k - 1);
      actions, s := OneMore(c, actions, s, k - 1);
    }
  }

  /** A run with at most `n` callers keeps `CurrentLoad` within `MaxConcurrent`. */
  ghost predicate LoadKept(c: Config, n: nat, actions: seq<Action>) {
    Run(c, actions).Some? && |Run(c, actions).value.callers| <= n ==> Run(c, actions).value.load <= c.maxConcurrent
  }

  /**
   `CurrentLoad` is not bounded by `MaxConcurrent`: every run with at most `n` callers keeps it within the limit
   if and only if there are no more callers than permits, when the limit does nothing.
   */
  lemma LoadBoundedIff(c: Config, n: nat)
    requires c.Valid()
    ensures (forall actions :: LoadKept(c, n, actions)) <==> n <= c.maxConcurrent
  {
    if n <= c.maxConcurrent {
      forall actions ensures LoadKept(c, n, actions) {
        if Run(c, actions).Some? { LoadWithinCallers(c, actions); }
      }
    } else {
      var actions, s := LoadPilesUp(c, n);
      assert !LoadKept(c, n, actions);
    }
  }
}
