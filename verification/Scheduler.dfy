/**
 The daemon's scheduler: a table of running commands, guarded by a lock, that keeps a command
 from being started while it is still being carried out
 (engine/src/juliabox/srvr_jboxd.py). Clients and threads take their steps in any order.
 */
module Scheduler {
  import opened Basics

  // json.dumps of a command with its arguments; the target is not part of it.
  datatype Sign = Sign(cmd: string, args: string)

  datatype Pc = Created | Running | Finishing | Holding | Deleted | Done | Crashed
  // `left` is how many times finish_thread is still to be called.
  datatype Thread = Thread(sign: Sign, target: string, left: nat, pc: Pc)
  // A call of schedule_thread in progress
  datatype Call = Checking(sign: Sign, target: string) | Inserted(tid: nat) | Starting(tid: nat)
  datatype Who = Client(c: nat) | Worker(t: nat)

  datatype State = State(lock: Option<Who>, active: map<Sign, nat>, threads: seq<Thread>, calls: map<nat, Call>)

  datatype Step =
    | Enter(c: nat, sign: Sign, target: string)
    | Skip(c: nat)
    | Insert(c: nat)
    | Leave(c: nat)
    | Start(c: nat)
    | Return(t: nat)
    | Acquire(t: nat)
    | Delete(t: nat)
    | Unlock(t: nat)

  predicate HasPc(s: State, t: nat, pc: Pc) {
    t < |s.threads| && s.threads[t].pc == pc
  }

  predicate Enabled(s: State, st: Step) {
    match st
    case Enter(c, _, _) => s.lock.None? && c !in s.calls
    case Skip(c) => c in s.calls && s.calls[c].Checking? && s.calls[c].sign in s.active
    case Insert(c) => c in s.calls && s.calls[c].Checking? && s.calls[c].sign !in s.active
    case Leave(c) => c in s.calls && s.calls[c].Inserted?
    case Start(c) => c in s.calls && s.calls[c].Starting? && HasPc(s, s.calls[c].tid, Created)
    case Return(t) => HasPc(s, t, Running)
    case Acquire(t) => s.lock.None? && HasPc(s, t, Finishing)
    case Delete(t) => HasPc(s, t, Holding)
    case Unlock(t) => HasPc(s, t, Deleted)
  }

  function Moved(s: State, t: nat, pc: Pc): seq<Thread>
    requires t < |s.threads|
  {
    s.threads[t := s.threads[t].(pc := pc)]
  }

  // `wraps` is how many times the targets are wrapped by jboxd_method.
  function Next(s: State, st: Step, wraps: nat): State
    requires Enabled(s, st)
  {
    match st
    case Enter(c, sign, target) => s.(lock := Some(Client(c)), calls := s.calls[c := Checking(sign, target)])
    case Skip(c) => s.(lock := None, calls := s.calls - {c})
    case Insert(c) =>
      var t := |s.threads|;
      s.(threads := s.threads + [Thread(s.calls[c].sign, s.calls[c].target, wraps, Created)],
         active := s.active[s.calls[c].sign := t],
         calls := s.calls[c := Inserted(t)])
    case Leave(c) => s.(lock := None, calls := s.calls[c := Starting(s.calls[c].tid)])
    case Start(c) => s.(threads := Moved(s, s.calls[c].tid, Running), calls := s.calls - {c})
    case Return(t) => s.(threads := Moved(s, t, if s.threads[t].left == 0 then Done else Finishing))
    case Acquire(t) => s.(lock := Some(Worker(t)), threads := Moved(s, t, Holding))
    case Delete(t) =>
      // deleting an entry that is not there raises, before the lock is released
      if s.threads[t].sign in s.active then
        s.(active := s.active - {s.threads[t].sign}, threads := Moved(s, t, Deleted))
      else
        s.(threads := Moved(s, t, Crashed))
    case Unlock(t) =>
      var left := if s.threads[t].left > 0 then s.threads[t].left - 1 else 0;
      s.(lock := None,
         threads := s.threads[t := s.threads[t].(left := left, pc := if left == 0 then Done else Finishing)])
  }

  const IDLE := State(None, map[], [], map[])

  predicate IsRun(s: State, steps: seq<Step>, wraps: nat)
    decreases |steps|, 0
  {
    steps == [] ||
    var last := |steps| - 1;
    IsRun(s, steps[..last], wraps) && Enabled(After(s, steps[..last], wraps), steps[last])
  }

  function After(s: State, steps: seq<Step>, wraps: nat): State
    requires IsRun(s, steps, wraps)
    decreases |steps|, 1
  {
    if steps == [] then s
    else
      var last := |steps| - 1;
      Next(After(s, steps[..last], wraps), steps[last], wraps)
  }

  lemma Extend(s: State, steps: seq<Step>, st: Step, wraps: nat)
    requires IsRun(s, steps, wraps) && Enabled(After(s, steps, wraps), st)
    ensures IsRun(s, steps + [st], wraps)
    ensures After(s, steps + [st], wraps) == Next(After(s, steps, wraps), st, wraps)
  {
    assert (steps + [st])[..|steps|] == steps;
  }

  // ---------- The table of active commands ----------

  // Accepted, and its entry not yet removed for good
  predicate IsLive(th: Thread) {
    th.pc != Deleted && th.pc != Done
  }

  // The table has an entry for each live thread, and for no other.
  ghost predicate IsExact(s: State) {
    && (forall t :: 0 <= t < |s.threads| && IsLive(s.threads[t]) ==>
          s.threads[t].sign in s.active && s.active[s.threads[t].sign] == t)
    && (forall sign <- s.active ::
          s.active[sign] < |s.threads| && s.threads[s.active[sign]].sign == sign && IsLive(s.threads[s.active[sign]]))
  }

  // Who is between acquiring and releasing the lock
  predicate IsInside(s: State, who: Who) {
    match who
    case Client(c) => c in s.calls && !s.calls[c].Starting?
    case Worker(t) => HasPc(s, t, Holding) || HasPc(s, t, Deleted)
  }

  ghost predicate IsExclusive(s: State) {
    forall who :: IsInside(s, who) <==> s.lock == Some(who)
  }

  // Calls past the check have each created a thread that has not been started.
  ghost predicate OwnThreads(s: State) {
    && (forall c <- s.calls :: !s.calls[c].Checking? ==> HasPc(s, s.calls[c].tid, Created))
    && (forall c, d :: c in s.calls && d in s.calls && c != d && !s.calls[c].Checking? && !s.calls[d].Checking? ==>
          s.calls[c].tid != s.calls[d].tid)
  }

  ghost predicate Inv(s: State) {
    && IsExact(s)
    && IsExclusive(s)
    && (forall t :: 0 <= t < |s.threads| ==>
          s.threads[t].pc != Crashed && (s.threads[t].pc != Done ==> s.threads[t].left == 1))
    && OwnThreads(s)
  }

  lemma StepKeepsLock(s: State, st: Step)
    requires IsExclusive(s) && Enabled(s, st)
    requires forall t :: 0 <= t < |s.threads| && s.threads[t].pc == Deleted ==> s.threads[t].left == 1
    requires forall t :: 0 <= t < |s.threads| && s.threads[t].pc == Holding ==> s.threads[t].sign in s.active
    ensures IsExclusive(Next(s, st, 1))
  {
    var s' := Next(s, st, 1);
    if st.Skip? || st.Insert? || st.Leave? {
      assert IsInside(s, Client(st.c));
    } else if st.Delete? || st.Unlock? {
      assert IsInside(s, Worker(st.t));
    }
    forall who ensures IsInside(s', who) <==> s'.lock == Some(who) {
      assert IsInside(s, who) <==> s.lock == Some(who);
    }
  }

  lemma InsertKeepsTable(s: State, c: nat)
    requires IsExact(s) && Enabled(s, Insert(c))
    ensures IsExact(Next(s, Insert(c), 1))
  {
  }

  lemma DeleteKeepsTable(s: State, t: nat)
    requires IsExact(s) && Enabled(s, Delete(t))
    ensures IsExact(Next(s, Delete(t), 1))
  {
  }

  lemma StepKeepsTable(s: State, st: Step)
    requires Inv(s) && Enabled(s, st)
    ensures IsExact(Next(s, st, 1))
  {
    hide IsExclusive, OwnThreads;
    if st.Insert? {
      InsertKeepsTable(s, st.c);
    } else if st.Delete? {
      DeleteKeepsTable(s, st.t);
    }
  }

  lemma StepKeepsInv(s: State, st: Step)
    requires Inv(s) && Enabled(s, st)
    ensures Inv(Next(s, st, 1))
  {
    StepKeepsTable(s, st);
    StepKeepsLock(s, st);
    StepKeepsOwnThreads(s, st);
    hide IsExclusive, OwnThreads;
  }

  lemma StepKeepsOwnThreads(s: State, st: Step)
    requires OwnThreads(s) && Enabled(s, st)
    ensures OwnThreads(Next(s, st, 1))
  {
  }

  lemma {:induction false} RunKeepsInv(steps: seq<Step>)
    requires IsRun(IDLE, steps, 1)
    ensures Inv(After(IDLE, steps, 1))
    decreases |steps|
  {
    hide Inv, Next;
    if steps == [] {
      assert Inv(IDLE) by { IdleInv(); }
    } else {
      RunKeepsInv(steps[..|steps| - 1]);
      StepKeepsInv(After(IDLE, steps[..|steps| - 1], 1), steps[|steps| - 1]);
    }
  }

  lemma IdleInv()
    ensures Inv(IDLE)
  {
  }

  // In every interleaving, no command is carried out by two threads at once, and each thread
  // finds its own entry when it finishes.
  lemma NoCommandRunsTwice(steps: seq<Step>)
    requires IsRun(IDLE, steps, 1)
    ensures var s := After(IDLE, steps, 1);
            && (forall t, t' ::
                  0 <= t < t' < |s.threads| && s.threads[t].sign == s.threads[t'].sign ==>
                    !IsLive(s.threads[t]) || !IsLive(s.threads[t']))
            && (forall t: nat :: Enabled(s, Delete(t)) ==>
                  s.threads[t].sign in s.active && s.active[s.threads[t].sign] == t)
            && (forall t :: 0 <= t < |s.threads| ==> s.threads[t].pc != Crashed)
  {
    RunKeepsInv(steps);
  }

  // A call is turned down exactly when a live thread carries its signature.
  lemma SuppressedIffLive(steps: seq<Step>, c: nat)
    requires IsRun(IDLE, steps, 1)
    requires var s := After(IDLE, steps, 1); c in s.calls && s.calls[c].Checking?
    ensures var s := After(IDLE, steps, 1);
            && (Enabled(s, Skip(c)) <==> exists t :: 0 <= t < |s.threads| && IsLive(s.threads[t])
                                                    && s.threads[t].sign == s.calls[c].sign)
            && (Enabled(s, Insert(c)) <==> !Enabled(s, Skip(c)))
  {
    RunKeepsInv(steps);
    var s := After(IDLE, steps, 1);
    if s.calls[c].sign in s.active {
      assert IsLive(s.threads[s.active[s.calls[c].sign]]);
    }
  }

  // Whoever holds the lock releases it within two steps of its own.
  lemma LockIsGivenBack(s: State) returns (steps: seq<Step>)
    requires Inv(s) && s.lock.Some?
    ensures |steps| <= 2 && IsRun(s, steps, 1) && After(s, steps, 1).lock == None
  {
    var who := s.lock.value;
    assert IsInside(s, who);
    steps := [];
    match who
    case Client(c) =>
      if s.calls[c].Inserted? {
        Extend(s, steps, Leave(c), 1);
        steps := steps + [Leave(c)];
      } else if Enabled(s, Skip(c)) {
        Extend(s, steps, Skip(c), 1);
        steps := steps + [Skip(c)];
      } else {
        Extend(s, steps, Insert(c), 1);
        steps := steps + [Insert(c)];
        Extend(s, steps, Leave(c), 1);
        steps := steps + [Leave(c)];
      }
    case Worker(t) =>
      if HasPc(s, t, Holding) {
        Extend(s, steps, Delete(t), 1);
        steps := steps + [Delete(t)];
      }
      Extend(s, steps, Unlock(t), 1);
      steps := steps + [Unlock(t)];
  }

  // ---------- Targets wrapped not at all, or more than once ----------

  // One command, from the call to the return of its target
  lemma OneReturns(sign: Sign, wraps: nat) returns (steps: seq<Step>)
    ensures IsRun(IDLE, steps, wraps)
    ensures After(IDLE, steps, wraps) ==
            State(None, map[sign := 0], [Thread(sign, "", wraps, if wraps == 0 then Done else Finishing)], map[])
  {
    var created := Thread(sign, "", wraps, Created);
    steps := [];
    Extend(IDLE, steps, Enter(0, sign, ""), wraps);
    steps := steps + [Enter(0, sign, "")];
    Extend(IDLE, steps, Insert(0), wraps);
    steps := steps + [Insert(0)];
    assert [] + [created] == [created];
    assert After(IDLE, steps, wraps) == State(Some(Client(0)), map[sign := 0], [created], map[0 := Inserted(0)]);
    Extend(IDLE, steps, Leave(0), wraps);
    steps := steps + [Leave(0)];
    Extend(IDLE, steps, Start(0), wraps);
    steps := steps + [Start(0)];
    assert map[0 := Starting(0)] - {0} == map[];
    assert After(IDLE, steps, wraps) == State(None, map[sign := 0], [created.(pc := Running)], map[]);
    Extend(IDLE, steps, Return(0), wraps);
    steps := steps + [Return(0)];
  }

  // then its first removal from the table
  lemma OneRemoved(sign: Sign, wraps: nat) returns (steps: seq<Step>)
    requires wraps >= 2
    ensures IsRun(IDLE, steps, wraps)
    ensures After(IDLE, steps, wraps) == State(None, map[], [Thread(sign, "", wraps - 1, Finishing)], map[])
  {
    steps := OneReturns(sign, wraps);
    hide IsRun;
    Extend(IDLE, steps, Acquire(0), wraps);
    steps := steps + [Acquire(0)];
    var th := Thread(sign, "", wraps, Holding);
    assert After(IDLE, steps, wraps) == State(Some(Worker(0)), map[sign := 0], [th], map[]);
    Extend(IDLE, steps, Delete(0), wraps);
    steps := steps + [Delete(0)];
    assert map[sign := 0] - {sign} == map[];
    assert After(IDLE, steps, wraps) == State(Some(Worker(0)), map[], [th.(pc := Deleted)], map[]);
    Extend(IDLE, steps, Unlock(0), wraps);
    steps := steps + [Unlock(0)];
  }

  ghost predicate AlwaysExact(wraps: nat) {
    forall steps :: IsRun(IDLE, steps, wraps) ==> IsExact(After(IDLE, steps, wraps))
  }

  // The table is exact in every run exactly when targets are wrapped once.
  lemma ExactIffWrappedOnce(wraps: nat)
    ensures AlwaysExact(wraps) <==> wraps == 1
  {
    var sign := Sign("", "");
    if wraps == 1 {
      forall steps | IsRun(IDLE, steps, 1) ensures IsExact(After(IDLE, steps, 1)) {
        RunKeepsInv(steps);
      }
    } else if wraps == 0 {
      var steps := OneReturns(sign, wraps);
      assert sign in After(IDLE, steps, wraps).active && !IsExact(After(IDLE, steps, wraps));
    } else {
      var steps := OneRemoved(sign, wraps);
      assert IsLive(After(IDLE, steps, wraps).threads[0]) && !IsExact(After(IDLE, steps, wraps));
    }
  }

  // A target wrapped twice raises on its second removal, with the lock held;
  lemma WrappedTwiceCrashes(sign: Sign, wraps: nat) returns (steps: seq<Step>)
    requires wraps >= 2
    ensures IsRun(IDLE, steps, wraps)
    ensures var s := After(IDLE, steps, wraps); s.lock == Some(Worker(0)) && HasPc(s, 0, Crashed)
  {
    steps := OneRemoved(sign, wraps);
    Extend(IDLE, steps, Acquire(0), wraps);
    steps := steps + [Acquire(0)];
    Extend(IDLE, steps, Delete(0), wraps);
    steps := steps + [Delete(0)];
  }

  // nobody is inside the critical section any more, and nobody enters it again.
  ghost predicate IsStuck(s: State, t: nat) {
    s.lock == Some(Worker(t)) && HasPc(s, t, Crashed) && forall who :: !IsInside(s, who)
  }

  lemma {:induction false} StuckForever(s: State, t: nat, steps: seq<Step>, wraps: nat)
    requires IsStuck(s, t) && IsRun(s, steps, wraps)
    ensures var s' := After(s, steps, wraps);
            IsStuck(s', t) && s'.active == s.active && |s'.threads| == |s.threads|
    decreases |steps|
  {
    if steps != [] {
      StuckForever(s, t, steps[..|steps| - 1], wraps);
      StuckStep(After(s, steps[..|steps| - 1], wraps), t, steps[|steps| - 1], wraps);
    }
  }

  lemma StuckStepsAreOutside(s: State, t: nat, st: Step)
    requires IsStuck(s, t) && Enabled(s, st)
    ensures st.Start? || st.Return?
  {
    match st
    case Skip(c) => assert IsInside(s, Client(c));
    case Insert(c) => assert IsInside(s, Client(c));
    case Leave(c) => assert IsInside(s, Client(c));
    case Delete(u) => assert IsInside(s, Worker(u));
    case Unlock(u) => assert IsInside(s, Worker(u));
    case _ =>
  }

  lemma StuckStep(s: State, t: nat, st: Step, wraps: nat)
    requires IsStuck(s, t) && Enabled(s, st)
    ensures var s' := Next(s, st, wraps);
            IsStuck(s', t) && s'.active == s.active && |s'.threads| == |s.threads|
  {
    StuckStepsAreOutside(s, t, st);
    var s' := Next(s, st, wraps);
    forall who ensures !IsInside(s', who) {
      assert !IsInside(s, who);
    }
  }

  // ---------- Housekeeping ----------

  // A plugin's periodic task, to be run for one of the features it provides
  datatype Task = Task(sign: Sign, target: string)

  const NODE: string := "periodictask.node"
  const CLUSTER: string := "periodictask.cluster"

  // Of the plugins of a feature, the first one's task is started, unless one is active.
  function FirstOf(active: set<Sign>, sign: Sign, plugins: seq<string>): seq<Task> {
    if sign in active || plugins == [] then [] else [Task(sign, plugins[0])]
  }

  class JBoxd {
    var active: set<Sign>
    var started: seq<Task>

    constructor ()
      ensures active == {} && started == []
    {
      active, started := {}, [];
    }

    method ScheduleThread(sign: Sign, target: string)
      modifies this
      ensures active == old(active) + {sign}
      ensures started == old(started) + if sign in old(active) then [] else [Task(sign, target)]
    {
      if sign in active {
        return;
      }
      active := active + {sign};
      started := started + [Task(sign, target)];
    }

    // schedule_housekeeping while no thread finishes: the signature is made of the command and
    // the feature, so that all but the first plugin of a feature are turned down as duplicates.
    method ScheduleHousekeeping(cmd: string, isLeader: bool, node: seq<string>, cluster: seq<string>)
      modifies this
      ensures started == old(started)
                         + FirstOf(old(active), Sign(cmd, NODE), node)
                         + if isLeader then FirstOf(old(active), Sign(cmd, CLUSTER), cluster) else []
      ensures forall task :: task in started <==>
                || task in old(started)
                || (node != [] && Sign(cmd, NODE) !in old(active) && task == Task(Sign(cmd, NODE), node[0]))
                || (isLeader && cluster != [] && Sign(cmd, CLUSTER) !in old(active)
                    && task == Task(Sign(cmd, CLUSTER), cluster[0]))
    {
      ScheduleFeature(Sign(cmd, NODE), node);
      if isLeader {
        ScheduleFeature(Sign(cmd, CLUSTER), cluster);
      }
    }

    method ScheduleFeature(sign: Sign, plugins: seq<string>)
      modifies this
      ensures started == old(started) + FirstOf(old(active), sign, plugins)
      ensures active == old(active) + if plugins == [] then {} else {sign}
    {
      for i := 0 to |plugins|
        invariant started == old(started) + FirstOf(old(active), sign, plugins[..i])
        invariant active == old(active) + if i == 0 then {} else {sign}
      {
        ScheduleThread(sign, plugins[i]);
      }
      assert plugins[..|plugins|] == plugins;
    }
  }
}
