/** Sleep locks over sleep and wakeup, as a state machine: any number of processes and locks, one step for every
    acquisition or release of a spin lock and for every group of writes done under one. The scheduler takes part with
    the steps that put a process on a CPU and take it off. */
module SleepLock {
  const FREE := -1
  const NOCHAN := -1

  /** Where a process is. `Outside` is anywhere outside these functions, with or without sleep locks. */
  datatype Pc =
    | Outside
    | Enter(l: int)               // acquiresleep, and sleep on its return: about to acquire the spin lock
    | Test(l: int)                // the spin lock held, from here ...
    | Doze(l: int)                // sleep: about to acquire the process lock
    | LetGo(l: int)               // ... to here, both held: about to release the spin lock
    | Settle(l: int)              // the process lock held, from here ...
    | Switch(l: int)              // ... to here, marked asleep: about to leave the CPU
    | Asleep(l: int)              // off the CPU
    | Wake(l: int)                // on the CPU again, the process lock held
    | Take(l: int)                // the spin lock held, the sleep lock found free
    | Leave(l: int)               // the spin lock held, about to release it and return
    | Unlock(l: int)              // releasesleep: about to acquire the spin lock
    | Clear(l: int)               // the spin lock held, from here ...
    | Scan(l: int, i: int)        // ... wakeup is about to look at process i
    | Look(l: int, i: int)        // ... wakeup holds the lock of process i
    | Ask(l: int)                 // holdingsleep: about to acquire the spin lock
    | Answer(l: int)              // the spin lock held

  datatype Run = Running | Runnable | Sleeping

  /** `plock[p]` is the process that holds the lock of process p, or FREE; `lk` maps each spin lock in use to its
      holder. `held[p]` are the sleep locks p has been granted and not released, and `answer[p]` what holdingsleep last
      told p. */
  datatype State = State(pids: seq<int>, pc: seq<Pc>, run: seq<Run>, chan: seq<int>, plock: seq<int>, lk: map<int, int>,
                         locked: set<int>, owner: map<int, int>, held: seq<set<int>>, answer: seq<bool>)

  /** Which spin lock of a sleep lock a process holds. */
  predicate HasLk(pc: Pc, l: int) {
    (pc.Test? || pc.Doze? || pc.LetGo? || pc.Take? || pc.Leave? || pc.Clear? || pc.Scan? || pc.Look? || pc.Answer?) &&
        pc.l == l
  }

  /** The process holds its own process lock. */
  predicate HasOwn(pc: Pc) {
    pc.LetGo? || pc.Settle? || pc.Switch? || pc.Wake?
  }

  /** The process is asleep on `l`, or has decided to be. */
  predicate Sleeps(pc: Pc, run: Run, l: int) {
    (pc.Doze? || pc.LetGo? || pc.Settle? || pc.Switch? || (pc.Asleep? && run.Sleeping?)) && pc.l == l
  }

  /** A wakeup on `l` that has still to reach process `q`. */
  predicate WillReach(pc: Pc, l: int, q: int) {
    (pc.Scan? || pc.Look?) && pc.l == l && pc.i <= q
  }

  // ----- The steps -----

  datatype Step =
    | Acquire(p: int, l: int)     // call acquiresleep
    | Release(p: int, l: int)     // call releasesleep
    | Holding(p: int, l: int)     // call holdingsleep
    | Advance(p: int)             // the next step of a process inside one of them
    | Dispatch(p: int)            // the scheduler puts a runnable process on a CPU
    | Rouse(p: int)               // a sleeping process is made runnable for another reason

  ghost predicate Shape(s: State) {
    |s.pids| == |s.pc| == |s.run| == |s.chan| == |s.plock| == |s.held| == |s.answer|
  }

  predicate IsProc(s: State, p: int) {
    0 <= p < |s.pc|
  }

  /** Whether a step can happen. A process waits at a spin lock that is not free; releasesleep is called by a holder
      only. */
  ghost predicate Enabled(s: State, step: Step) {
    Shape(s) && IsProc(s, step.p) &&
    match step
    case Acquire(p, l) => s.pc[p].Outside?
    case Release(p, l) => s.pc[p].Outside? && l in s.held[p]
    case Holding(p, l) => s.pc[p].Outside?
    case Advance(p) => CanAdvance(s, p)
    case Dispatch(p) => s.pc[p].Asleep? && s.run[p].Runnable? && s.plock[p] == FREE
    case Rouse(p) => s.run[p].Sleeping? && s.plock[p] == FREE
  }

  ghost predicate CanAdvance(s: State, p: int)
    requires Shape(s) && IsProc(s, p)
  {
    match s.pc[p]
    case Outside | Asleep(_) => false
    case Enter(l) => l !in s.lk
    case Unlock(l) => l !in s.lk
    case Ask(l) => l !in s.lk
    case Doze(_) => s.plock[p] == FREE
    case Scan(_, i) => i == p || i >= |s.pc| || (0 <= i && s.plock[i] == FREE)
    case Look(_, i) => IsProc(s, i)
    case _ => true
  }

  ghost function At(s: State, p: int, pc: Pc): (r: State)
    requires Shape(s) && IsProc(s, p)
  {
    s.(pc := s.pc[p := pc])
  }

  /** What a process does next. */
  ghost function Advanced(s: State, p: int): (r: State)
    requires Shape(s) && IsProc(s, p) && CanAdvance(s, p)
  {
    match s.pc[p]
    case Outside | Asleep(_) => s
    // acquiresleep and sleep
    case Enter(l) => At(s, p, Test(l)).(lk := s.lk[l := p])
    case Test(l) => if l in s.locked then At(s, p, Doze(l)) else At(s, p, Take(l))
    case Doze(l) => At(s, p, LetGo(l)).(plock := s.plock[p := p])
    case LetGo(l) => At(s, p, Settle(l)).(lk := s.lk - {l})
    case Settle(l) => At(s, p, Switch(l)).(chan := s.chan[p := l], run := s.run[p := Sleeping])
    case Switch(l) => At(s, p, Asleep(l)).(plock := s.plock[p := FREE])
    case Wake(l) => At(s, p, Enter(l)).(chan := s.chan[p := NOCHAN], plock := s.plock[p := FREE])
    case Take(l) => At(s, p, Leave(l)).(locked := s.locked + {l}, owner := s.owner[l := s.pids[p]],
                                        held := s.held[p := s.held[p] + {l}])
    case Leave(l) => At(s, p, Outside).(lk := s.lk - {l})
    // releasesleep and wakeup
    case Unlock(l) => At(s, p, Clear(l)).(lk := s.lk[l := p])
    case Clear(l) => At(s, p, Scan(l, 0)).(locked := s.locked - {l}, owner := s.owner[l := 0],
                                           held := s.held[p := s.held[p] - {l}])
    case Scan(l, i) =>
      if i >= |s.pc| then At(s, p, Leave(l))
      else if i == p then At(s, p, Scan(l, i + 1))
      else At(s, p, Look(l, i)).(plock := s.plock[i := p])
    case Look(l, i) =>
      At(s, p, Scan(l, i + 1)).(plock := s.plock[i := FREE],
                                run := if s.run[i].Sleeping? && s.chan[i] == l then s.run[i := Runnable] else s.run)
    // holdingsleep
    case Ask(l) => At(s, p, Answer(l)).(lk := s.lk[l := p])
    case Answer(l) => At(s, p, Leave(l)).(answer := s.answer[p := l in s.locked && l in s.owner &&
                                                             s.owner[l] == s.pids[p]])
  }

  ghost function Apply(s: State, step: Step): (r: State)
    requires Enabled(s, step)
  {
    match step
    case Acquire(p, l) => At(s, p, Enter(l))
    case Release(p, l) => At(s, p, Unlock(l))
    case Holding(p, l) => At(s, p, Ask(l))
    case Advance(p) => Advanced(s, p)
    case Dispatch(p) => At(s, p, Wake(s.pc[p].l)).(run := s.run[p := Running], plock := s.plock[p := p])
    case Rouse(p) => s.(run := s.run[p := Runnable])
  }

  // ----- The invariant -----

  ghost predicate Distinct(pids: seq<int>) {
    (forall p :: 0 <= p < |pids| ==> pids[p] != 0) && (forall p, q :: 0 <= p < q < |pids| ==> pids[p] != pids[q])
  }

  /** Spin locks and process locks are held by the processes that are where they are held. */
  ghost predicate LocksOk(s: State) {
    && Shape(s)
    && (forall p, l {:trigger HasLk(s.pc[p], l)} :: 0 <= p < |s.pc| && HasLk(s.pc[p], l) ==> l in s.lk && s.lk[l] == p)
    && (forall p {:trigger s.pc[p]} :: 0 <= p < |s.pc| && HasOwn(s.pc[p]) ==> s.plock[p] == p)
    && (forall p {:trigger s.pc[p]} :: 0 <= p < |s.pc| && s.pc[p].Look? ==>
          0 <= s.pc[p].i < |s.pc| && s.pc[p].i != p && s.plock[s.pc[p].i] == p)
    && (forall p {:trigger s.pc[p]} :: 0 <= p < |s.pc| && s.pc[p].Scan? ==> 0 <= s.pc[p].i)
  }

  /** The run states and channels are what the places of the processes say. */
  ghost predicate RunOk(s: State) {
    && Shape(s)
    && (forall p {:trigger s.pc[p]} :: 0 <= p < |s.pc| && s.pc[p].Switch? ==>
        s.run[p].Sleeping? && s.chan[p] == s.pc[p].l)
    && (forall p {:trigger s.pc[p]} :: 0 <= p < |s.pc| && s.pc[p].Asleep? ==>
        !s.run[p].Running? && s.chan[p] == s.pc[p].l)
    && (forall p {:trigger s.pc[p]} :: 0 <= p < |s.pc| && !s.pc[p].Switch? && !s.pc[p].Asleep? ==> s.run[p].Running?)
  }

  /** Some process has the sleep lock `l`. */
  ghost predicate SomeHolder(s: State, l: int) {
    exists p :: 0 <= p < |s.held| && l in s.held[p]
  }

  /** A sleep lock is locked exactly while a process has it, and names that process. */
  ghost predicate HeldOk(s: State) {
    && Shape(s) && Distinct(s.pids)
    && (forall p, l :: 0 <= p < |s.held| && l in s.held[p] ==> l in s.locked && l in s.owner && s.owner[l] == s.pids[p])
    && (forall l :: l in s.locked ==> l in s.owner && SomeHolder(s, l))
    && (forall p {:trigger s.pc[p]} :: 0 <= p < |s.pc| && s.pc[p].Take? ==> s.pc[p].l !in s.locked)
    && (forall p {:trigger s.pc[p]} :: 0 <= p < |s.pc| && (s.pc[p].Unlock? || s.pc[p].Clear?) ==>
        s.pc[p].l in s.held[p])
  }

  /** Some wakeup on `l` has still to reach process `q`. */
  ghost predicate WakeupComes(s: State, l: int, q: int) {
    exists p :: 0 <= p < |s.pc| && WillReach(s.pc[p], l, q)
  }

  /** Who sleeps, or has decided to, sleeps on a locked lock, or a wakeup is on its way. */
  ghost predicate WakeOk(s: State) {
    && Shape(s)
    && forall q, l :: 0 <= q < |s.pc| && Sleeps(s.pc[q], s.run[q], l) ==> l in s.locked || WakeupComes(s, l, q)
  }

  ghost predicate Inv(s: State) {
    LocksOk(s) && RunOk(s) && HeldOk(s) && WakeOk(s)
  }

  ghost predicate Init(s: State) {
    && Shape(s) && Distinct(s.pids) && s.lk == map[] && s.locked == {}
    && forall p :: 0 <= p < |s.pc| ==> s.pc[p].Outside? && s.run[p].Running? && s.held[p] == {}
  }

  // ----- Every step keeps it -----

  /** Only process `p` has moved, and the sleep locks are as they were. */
  ghost predicate Moved(s: State, r: State, p: int, pc: Pc) {
    && Shape(s) && Shape(r) && IsProc(s, p) && r.pc == s.pc[p := pc]
    && r.pids == s.pids && r.locked == s.locked && r.owner == s.owner && r.held == s.held
  }

  lemma HeldKept(s: State, r: State, p: int, pc: Pc)
    requires HeldOk(s) && Moved(s, r, p, pc)
    requires pc.Take? ==> pc.l !in s.locked
    requires pc.Unlock? || pc.Clear? ==> pc.l in s.held[p]
    ensures HeldOk(r)
  {
    forall l | l in r.locked
      ensures SomeHolder(r, l)
    {
      var q :| 0 <= q < |s.held| && l in s.held[q];
      assert l in r.held[q];
    }
  }

  /** A step that puts nobody to sleep, except on a locked lock, and cuts no wakeup short, loses no wakeup. */
  lemma WakeKept(s: State, r: State, p: int, pc: Pc)
    requires WakeOk(s) && Moved(s, r, p, pc)
    requires forall q :: 0 <= q < |s.run| && q != p && r.run[q].Sleeping? ==> s.run[q].Sleeping?
    requires forall l :: Sleeps(pc, r.run[p], l) ==> Sleeps(s.pc[p], s.run[p], l) || l in s.locked
    requires forall q, l ::
               (0 <= q < |s.pc| && WillReach(s.pc[p], l, q) && Sleeps(r.pc[q], r.run[q], l) && l !in s.locked) ==>
               WillReach(pc, l, q)
    ensures WakeOk(r)
  {
    forall q, l | 0 <= q < |r.pc| && Sleeps(r.pc[q], r.run[q], l)
      ensures l in r.locked || WakeupComes(r, l, q)
    {
      if l !in r.locked {
        assert Sleeps(s.pc[q], s.run[q], l);
        var o :| 0 <= o < |s.pc| && WillReach(s.pc[o], l, q);
        assert WillReach(r.pc[o], l, q);
      }
    }
  }

  /** Steps that only move a process to a place with the same locks held, or none. */
  lemma MoveKeeps(s: State, p: int, pc: Pc, r: State)
    requires Inv(s) && IsProc(s, p) && r == At(s, p, pc)
    requires forall l :: HasLk(pc, l) ==> HasLk(s.pc[p], l)
    requires !HasOwn(pc) && !pc.Look? && (pc.Scan? ==> 0 <= pc.i)
    requires !s.pc[p].Switch? && !s.pc[p].Asleep? && !pc.Asleep?
    requires pc.Take? ==> pc.l !in s.locked
    requires pc.Unlock? || pc.Clear? ==> pc.l in s.held[p]
    requires pc.Doze? ==> pc.l in s.locked
    requires s.pc[p].Scan? ==> (s.pc[p].i >= |s.pc| && !pc.Scan?) || (s.pc[p].i == p && pc == Scan(s.pc[p].l, p + 1))
    requires !s.pc[p].Look?
    ensures Inv(r)
  {
    assert Moved(s, r, p, pc);
    HeldKept(s, r, p, pc);
    WakeKept(s, r, p, pc);
  }

  /** Taking a free spin lock. */
  lemma SpinTaken(s: State, p: int, pc: Pc, l: int, r: State)
    requires Inv(s) && IsProc(s, p) && l !in s.lk && (s.pc[p] == Enter(l) || s.pc[p] == Unlock(l) || s.pc[p] == Ask(l))
    requires pc == (if s.pc[p].Enter? then Test(l) else if s.pc[p].Unlock? then Clear(l) else Answer(l))
    requires r == At(s, p, pc).(lk := s.lk[l := p])
    ensures Inv(r)
  {
    assert Moved(s, r, p, pc);
    HeldKept(s, r, p, pc);
    WakeKept(s, r, p, pc);
  }

  /** Releasing a spin lock. */
  lemma SpinReleased(s: State, p: int, pc: Pc, l: int, r: State)
    requires Inv(s) && IsProc(s, p)
    requires (s.pc[p] == LetGo(l) && pc == Settle(l)) || (s.pc[p] == Leave(l) && pc == Outside)
    requires r == At(s, p, pc).(lk := s.lk - {l})
    ensures Inv(r)
  {
    assert Moved(s, r, p, pc);
    HeldKept(s, r, p, pc);
    WakeKept(s, r, p, pc);
    assert HasLk(s.pc[p], l);
  }

  /** A process takes its own lock in sleep. */
  lemma OwnTaken(s: State, p: int, l: int, r: State)
    requires Inv(s) && IsProc(s, p) && s.pc[p] == Doze(l) && s.plock[p] == FREE
    requires r == At(s, p, LetGo(l)).(plock := s.plock[p := p])
    ensures Inv(r)
  {
    assert Moved(s, r, p, LetGo(l)) && HasLk(s.pc[p], l);
    HeldKept(s, r, p, LetGo(l));
    WakeKept(s, r, p, LetGo(l));
  }

  /** A process marks itself asleep. */
  lemma MarkedAsleep(s: State, p: int, l: int, r: State)
    requires Inv(s) && IsProc(s, p) && s.pc[p] == Settle(l)
    requires r == At(s, p, Switch(l)).(chan := s.chan[p := l], run := s.run[p := Sleeping])
    ensures Inv(r)
  {
    assert Moved(s, r, p, Switch(l));
    HeldKept(s, r, p, Switch(l));
    WakeKept(s, r, p, Switch(l));
  }

  /** A process lets go of its own lock: off the CPU, or awake again. */
  lemma OwnReleased(s: State, p: int, l: int, pc: Pc, chan: seq<int>, r: State)
    requires Inv(s) && IsProc(s, p)
    requires (s.pc[p] == Switch(l) && pc == Asleep(l) && chan == s.chan) ||
             (s.pc[p] == Wake(l) && pc == Enter(l) && chan == s.chan[p := NOCHAN])
    requires r == At(s, p, pc).(chan := chan, plock := s.plock[p := FREE])
    ensures Inv(r)
  {
    assert Moved(s, r, p, pc);
    HeldKept(s, r, p, pc);
    WakeKept(s, r, p, pc);
  }

  /** The sleep lock is granted. Nobody had it. */
  lemma Granted(s: State, p: int, l: int, r: State)
    requires Inv(s) && IsProc(s, p) && s.pc[p] == Take(l)
    requires r == At(s, p, Leave(l)).(locked := s.locked + {l}, owner := s.owner[l := s.pids[p]],
                                      held := s.held[p := s.held[p] + {l}])
    ensures Inv(r)
  {
    assert HasLk(s.pc[p], l);
    GrantedHeld(s, p, l, r);
    forall q, k | 0 <= q < |r.pc| && Sleeps(r.pc[q], r.run[q], k)
      ensures k in r.locked || WakeupComes(r, k, q)
    {
      if k !in r.locked {
        assert Sleeps(s.pc[q], s.run[q], k);
        var o :| 0 <= o < |s.pc| && WillReach(s.pc[o], k, q);
        assert WillReach(r.pc[o], k, q);
      }
    }
  }

  lemma GrantedHeld(s: State, p: int, l: int, r: State)
    requires LocksOk(s) && HeldOk(s) && IsProc(s, p) && s.pc[p] == Take(l)
    requires r == At(s, p, Leave(l)).(locked := s.locked + {l}, owner := s.owner[l := s.pids[p]],
                                      held := s.held[p := s.held[p] + {l}])
    ensures HeldOk(r)
  {
    assert HasLk(s.pc[p], l);
    forall k | k in r.locked
      ensures SomeHolder(r, k)
    {
      if k == l {
        assert l in r.held[p];
      } else {
        var q :| 0 <= q < |s.held| && k in s.held[q];
        assert k in r.held[q];
      }
    }
    forall q | 0 <= q < |r.pc| && r.pc[q].Take?
      ensures r.pc[q].l !in r.locked
    {
      assert q != p && HasLk(s.pc[q], s.pc[q].l);
    }
  }

  /** The sleep lock is released, and the wakeup of everybody who sleeps on it begins. */
  lemma Cleared(s: State, p: int, l: int, r: State)
    requires Inv(s) && IsProc(s, p) && s.pc[p] == Clear(l)
    requires r == At(s, p, Scan(l, 0)).(locked := s.locked - {l}, owner := s.owner[l := 0],
                                        held := s.held[p := s.held[p] - {l}])
    ensures Inv(r)
  {
    assert HasLk(s.pc[p], l);
    ClearedHeld(s, p, l, r);
    forall q, k | 0 <= q < |r.pc| && Sleeps(r.pc[q], r.run[q], k)
      ensures k in r.locked || WakeupComes(r, k, q)
    {
      if k == l {
        assert WillReach(r.pc[p], k, q);
      } else if k !in r.locked {
        var o :| 0 <= o < |s.pc| && WillReach(s.pc[o], k, q);
        assert WillReach(r.pc[o], k, q);
      }
    }
  }

  lemma ClearedHeld(s: State, p: int, l: int, r: State)
    requires LocksOk(s) && HeldOk(s) && IsProc(s, p) && s.pc[p] == Clear(l)
    requires r == At(s, p, Scan(l, 0)).(locked := s.locked - {l}, owner := s.owner[l := 0],
                                        held := s.held[p := s.held[p] - {l}])
    ensures HeldOk(r)
  {
    assert l in s.held[p];
    forall q | 0 <= q < |s.held| && q != p
      ensures l !in s.held[q]
    {
      if l in s.held[q] {
        OneHolder(s, p, q, l);
      }
    }
    forall k | k in r.locked
      ensures SomeHolder(r, k)
    {
      var q :| 0 <= q < |s.held| && k in s.held[q];
      assert k in r.held[q];
    }
    forall q | 0 <= q < |r.pc| && (r.pc[q].Unlock? || r.pc[q].Clear?)
      ensures r.pc[q].l in r.held[q]
    {
      assert q != p;
    }
  }

  /** A wakeup takes the lock of the process it looks at. */
  lemma LookStarts(s: State, p: int, l: int, i: int, r: State)
    requires Inv(s) && IsProc(s, p) && s.pc[p] == Scan(l, i) && i != p && IsProc(s, i) && s.plock[i] == FREE
    requires r == At(s, p, Look(l, i)).(plock := s.plock[i := p])
    ensures Inv(r)
  {
    assert Moved(s, r, p, Look(l, i)) && HasLk(s.pc[p], l);
    HeldKept(s, r, p, Look(l, i));
    WakeKept(s, r, p, Look(l, i));
  }

  /** A wakeup has looked at a process: it is not asleep on the lock any more. */
  lemma LookEnds(s: State, p: int, l: int, i: int, r: State)
    requires Inv(s) && IsProc(s, p) && s.pc[p] == Look(l, i)
    requires r == At(s, p, Scan(l, i + 1)).(plock := s.plock[i := FREE],
                                            run := if s.run[i].Sleeping? &&
                                                s.chan[i] == l then s.run[i := Runnable] else s.run)
    ensures Inv(r)
  {
    assert Moved(s, r, p, Scan(l, i + 1)) && HasLk(s.pc[p], l);
    HeldKept(s, r, p, Scan(l, i + 1));
    assert !HasLk(s.pc[i], l);
    assert !Sleeps(s.pc[i], r.run[i], l);
    WakeKept(s, r, p, Scan(l, i + 1));
  }

  lemma Answered(s: State, p: int, l: int, answer: seq<bool>, r: State)
    requires Inv(s) && IsProc(s, p) && s.pc[p] == Answer(l) && |answer| == |s.answer|
    requires r == At(s, p, Leave(l)).(answer := answer)
    ensures Inv(r)
  {
    assert Moved(s, r, p, Leave(l)) && HasLk(s.pc[p], l);
    HeldKept(s, r, p, Leave(l));
    WakeKept(s, r, p, Leave(l));
  }

  lemma Dispatched(s: State, p: int, r: State)
    requires Inv(s) && IsProc(s, p) && s.pc[p].Asleep? && s.run[p].Runnable? && s.plock[p] == FREE
    requires r == At(s, p, Wake(s.pc[p].l)).(run := s.run[p := Running], plock := s.plock[p := p])
    ensures Inv(r)
  {
    assert Moved(s, r, p, Wake(s.pc[p].l));
    HeldKept(s, r, p, Wake(s.pc[p].l));
    WakeKept(s, r, p, Wake(s.pc[p].l));
  }

  lemma Roused(s: State, p: int, r: State)
    requires Inv(s) && IsProc(s, p) && s.run[p].Sleeping? && s.plock[p] == FREE && r == s.(run := s.run[p := Runnable])
    ensures Inv(r)
  {
    assert r.pc == s.pc[p := s.pc[p]] && Moved(s, r, p, s.pc[p]);
    HeldKept(s, r, p, s.pc[p]);
    WakeKept(s, r, p, s.pc[p]);
  }

  /** Every step of a process keeps the invariant. */
  lemma AdvanceKeepsInv(s: State, p: int, r: State)
    requires Inv(s) && IsProc(s, p) && CanAdvance(s, p) && r == Advanced(s, p)
    ensures Inv(r)
  {
    hide WakeOk, HeldOk;
    match s.pc[p]
    case Unlock(l) => SpinTaken(s, p, Clear(l), l, r);
    case Clear(l) => Cleared(s, p, l, r);
    case Scan(l, i) =>
      if i >= |s.pc| {
        MoveKeeps(s, p, Leave(l), r);
      } else if i == p {
        MoveKeeps(s, p, Scan(l, i + 1), r);
      } else {
        LookStarts(s, p, l, i, r);
      }
    case Look(l, i) => LookEnds(s, p, l, i, r);
    case Ask(l) => SpinTaken(s, p, Answer(l), l, r);
    case Answer(l) => Answered(s, p, l, r.answer, r);
    case _ => AcquireKeepsInv(s, p, r);
  }

  /** The steps of acquiresleep and sleep, and leaving. */
  lemma AcquireKeepsInv(s: State, p: int, r: State)
    requires Inv(s) && IsProc(s, p) && CanAdvance(s, p) && r == Advanced(s, p)
    requires !s.pc[p].Unlock? && !s.pc[p].Clear? && !s.pc[p].Scan? && !s.pc[p].Look? && !s.pc[p].Ask? &&
             !s.pc[p].Answer?
    ensures Inv(r)
  {
    match s.pc[p]
    case Enter(l) => SpinTaken(s, p, Test(l), l, r);
    case Test(l) => MoveKeeps(s, p, if l in s.locked then Doze(l) else Take(l), r);
    case Doze(l) => OwnTaken(s, p, l, r);
    case LetGo(l) => SpinReleased(s, p, Settle(l), l, r);
    case Settle(l) => MarkedAsleep(s, p, l, r);
    case Switch(l) => OwnReleased(s, p, l, Asleep(l), s.chan, r);
    case Wake(l) => OwnReleased(s, p, l, Enter(l), s.chan[p := NOCHAN], r);
    case Take(l) => Granted(s, p, l, r);
    case Leave(l) => SpinReleased(s, p, Outside, l, r);
  }

  lemma StepKeepsInv(s: State, step: Step)
    requires Inv(s) && Enabled(s, step)
    ensures Inv(Apply(s, step))
  {
    var r := Apply(s, step);
    match step
    case Acquire(p, l) => MoveKeeps(s, p, Enter(l), r);
    case Release(p, l) => MoveKeeps(s, p, Unlock(l), r);
    case Holding(p, l) => MoveKeeps(s, p, Ask(l), r);
    case Advance(p) => AdvanceKeepsInv(s, p, r);
    case Dispatch(p) => Dispatched(s, p, r);
    case Rouse(p) => Roused(s, p, r);
  }

  // ----- Whole runs -----

  /** The states met from `s` on, one for each step. */
  ghost predicate IsRun(s: State, steps: seq<Step>, states: seq<State>) {
    && |states| == |steps| + 1 && states[0] == s
    && forall i :: 0 <= i < |steps| ==> Enabled(states[i], steps[i]) && states[i + 1] == Apply(states[i], steps[i])
  }

  lemma {:induction false} RunInv(s: State, steps: seq<Step>, states: seq<State>, k: nat)
    requires Init(s) && IsRun(s, steps, states) && k <= |steps|
    ensures Inv(states[k])
  {
    if k > 0 {
      RunInv(s, steps, states, k - 1);
      StepKeepsInv(states[k - 1], steps[k - 1]);
    }
  }

  /** Two processes with the same lock are the same process. */
  lemma OneHolder(s: State, p: int, q: int, l: int)
    requires HeldOk(s) && IsProc(s, p) && IsProc(s, q) && l in s.held[p] && l in s.held[q]
    ensures p == q
  {
    assert s.owner[l] == s.pids[p] && s.owner[l] == s.pids[q];
  }

  // ----- Who has a lock, by the calls alone -----

  /** Process `p` has returned from a call of acquiresleep for `l`, and has not called releasesleep for it since. */
  ghost predicate HasLock(steps: seq<Step>, states: seq<State>, k: nat, p: int, l: int)
    requires k < |states| && k <= |steps|
  {
    exists a, b ::
      0 <= a < b <= k && steps[a] == Acquire(p, l) && IsOutside(states[b], p) && NoRelease(steps, a, k, p, l)
  }

  predicate IsOutside(s: State, p: int) {
    IsProc(s, p) && s.pc[p].Outside?
  }

  /** None of the steps from `a` to `k` is a call of releasesleep for `l` by `p`. */
  ghost predicate NoRelease(steps: seq<Step>, a: int, k: nat, p: int, l: int)
    requires k <= |steps|
  {
    forall c :: 0 <= a <= c < k ==> steps[c] != Release(p, l)
  }

  /** A call of acquiresleep that no call of releasesleep has followed. */
  ghost predicate Called(steps: seq<Step>, k: nat, p: int, l: int)
    requires k <= |steps|
  {
    exists a :: 0 <= a < k && steps[a] == Acquire(p, l) && NoRelease(steps, a, k, p, l)
  }

  lemma CalledStep(steps: seq<Step>, k: nat, p: int, l: int)
    requires k < |steps|
    ensures Called(steps, k + 1, p, l) <==>
            steps[k] == Acquire(p, l) || (steps[k] != Release(p, l) && Called(steps, k, p, l))
  {
    if a :| 0 <= a < k && steps[a] == Acquire(p, l) && NoRelease(steps, a, k, p, l) {
      assert steps[k] != Release(p, l) ==> NoRelease(steps, a, k + 1, p, l);
    }
    if steps[k] == Acquire(p, l) {
      assert NoRelease(steps, k, k + 1, p, l);
    }
    if a :| 0 <= a < k + 1 && steps[a] == Acquire(p, l) && NoRelease(steps, a, k + 1, p, l) {
      assert steps[k] != Release(p, l);
      assert a < k ==> NoRelease(steps, a, k, p, l);
    }
  }

  lemma HasLockStep(steps: seq<Step>, states: seq<State>, k: nat, p: int, l: int)
    requires k < |steps| && |states| == |steps| + 1
    ensures HasLock(steps, states, k + 1, p, l) <==>
            && steps[k] != Release(p, l)
            && (HasLock(steps, states, k, p, l) || (IsOutside(states[k + 1], p) && Called(steps, k + 1, p, l)))
  {
    if a, b :| 0 <= a < b <= k && steps[a] == Acquire(p, l) && IsOutside(states[b], p) && NoRelease(steps, a, k, p, l) {
      assert steps[k] != Release(p, l) ==> NoRelease(steps, a, k + 1, p, l);
    }
    if a :| 0 <= a < k + 1 && steps[a] == Acquire(p, l) && NoRelease(steps, a, k + 1, p, l) {
      assert IsOutside(states[k + 1], p) ==> HasLock(steps, states, k + 1, p, l);
    }
    if a, b :| 0 <= a < b <= k + 1 && steps[a] == Acquire(p, l) && IsOutside(states[b], p) &&
               NoRelease(steps, a, k + 1, p, l) {
      assert steps[k] != Release(p, l);
      assert b <= k ==> NoRelease(steps, a, k, p, l);
    }
  }

  /** Inside acquiresleep for `l`, without having been granted it. */
  predicate Acquiring(pc: Pc, l: int) {
    (pc.Enter? || pc.Test? || pc.Doze? || pc.LetGo? || pc.Settle? || pc.Switch? || pc.Asleep? || pc.Wake? || pc.Take?)
    && pc.l == l
  }

  /** Inside releasesleep for `l`, before the lock is free. */
  predicate Releasing(pc: Pc, l: int) {
    (pc.Unlock? || pc.Clear?) && pc.l == l
  }

  /** What the calls of `p` for `l` say about its place and the locks granted to it. */
  predicate CallsFit(s: State, p: int, l: int, has: bool, called: bool)
    requires IsProc(s, p) && |s.held| == |s.pc|
  {
    if has then called && l in s.held[p] && !Releasing(s.pc[p], l)
    else if called then Acquiring(s.pc[p], l) || (s.pc[p] == Leave(l) && l in s.held[p])
    else (l in s.held[p] ==> Releasing(s.pc[p], l)) && !Acquiring(s.pc[p], l)
  }

  /** One step keeps that. */
  lemma CallsFitStep(s: State, step: Step, p: int, l: int, has: bool, called: bool, has': bool, called': bool)
    requires Enabled(s, step) && IsProc(s, p) && CallsFit(s, p, l, has, called)
    requires called' <==> step == Acquire(p, l) || (step != Release(p, l) && called)
    requires has' <==> step != Release(p, l) && (has || (IsOutside(Apply(s, step), p) && called'))
    ensures IsProc(Apply(s, step), p) && |Apply(s, step).held| == |Apply(s, step).pc|
    ensures CallsFit(Apply(s, step), p, l, has', called')
  {
    hide Advanced, CanAdvance;
    match step
    case Advance(q) =>
      AdvancedOthers(s, q, p);
      if q == p {
        AdvancedOwn(s, p, l);
      }
    case _ =>
  }

  /** A step of process `q` moves no other process and does not change what another has been granted. */
  lemma AdvancedOthers(s: State, q: int, p: int)
    requires Shape(s) && IsProc(s, q) && CanAdvance(s, q) && IsProc(s, p)
    ensures |Advanced(s, q).pc| == |s.pc| && |Advanced(s, q).held| == |s.held|
    ensures p != q ==> Advanced(s, q).pc[p] == s.pc[p] && Advanced(s, q).held[p] == s.held[p]
  {
    if !s.pc[q].Take? && !s.pc[q].Clear? {
      assert Advanced(s, q).held == s.held;
    }
  }

  /** How its own steps move a process, and what they grant it. */
  lemma AdvancedOwn(s: State, p: int, l: int)
    requires Shape(s) && IsProc(s, p) && CanAdvance(s, p)
    ensures var r := Advanced(s, p);
            && |r.pc| == |s.pc| && |r.held| == |s.held| && OwnMove(s.pc[p], r.pc[p], l, l in s.held[p], l in r.held[p])
  {
    if s.pc[p].Take? || s.pc[p].Clear? {
    } else {
      var r := Advanced(s, p);
      assert r.held == s.held;
      if Acquiring(s.pc[p], s.pc[p].l) {
        AcquiringMove(s, p, l);
      } else {
        OtherMove(s, p, l);
      }
      hide Advanced;
    }
  }

  lemma AcquiringMove(s: State, p: int, l: int)
    requires Shape(s) && IsProc(s, p) && CanAdvance(s, p) && !s.pc[p].Take? && Acquiring(s.pc[p], s.pc[p].l)
    ensures |Advanced(s, p).pc| == |s.pc| && forall had :: OwnMove(s.pc[p], Advanced(s, p).pc[p], l, had, had)
  {
  }

  lemma OtherMove(s: State, p: int, l: int)
    requires Shape(s) && IsProc(s, p) && CanAdvance(s, p) && !s.pc[p].Clear? && !Acquiring(s.pc[p], s.pc[p].l)
    ensures |Advanced(s, p).pc| == |s.pc| && forall had :: OwnMove(s.pc[p], Advanced(s, p).pc[p], l, had, had)
  {
  }

  /** From `pc` to `pc'`, with lock `l` granted before and after. */
  predicate OwnMove(pc: Pc, pc': Pc, l: int, had: bool, has: bool) {
    && (Acquiring(pc, l) ==> Acquiring(pc', l) || (pc' == Leave(l) && has))
    && (!Acquiring(pc, l) ==> !Acquiring(pc', l))
    && (pc'.Outside? ==> pc.Leave?)
    && (pc == Leave(l) ==> pc'.Outside?)
    && (Releasing(pc', l) ==> Releasing(pc, l))
    && (Releasing(pc, l) ==> Releasing(pc', l) || !has)
    && (!Acquiring(pc, l) && !Releasing(pc, l) ==> has == had)
    && (Acquiring(pc, l) && had ==> has)
  }

  /** The calls made so far, at every state of every run. */
  lemma {:induction false} RunCallsFit(s: State, steps: seq<Step>, states: seq<State>, k: nat, p: int, l: int)
    requires Init(s) && IsRun(s, steps, states) && k <= |steps| && IsProc(s, p)
    ensures IsProc(states[k], p) && |states[k].held| == |states[k].pc|
    ensures CallsFit(states[k], p, l, HasLock(steps, states, k, p, l), Called(steps, k, p, l))
  {
    hide Apply, Enabled, HasLock, Called, Acquiring, Releasing;
    if k > 0 {
      RunCallsFit(s, steps, states, k - 1, p, l);
      CalledStep(steps, k - 1, p, l);
      HasLockStep(steps, states, k - 1, p, l);
      CallsFitStep(states[k - 1], steps[k - 1], p, l, HasLock(steps, states, k - 1, p, l), Called(steps, k - 1, p, l),
                   HasLock(steps, states, k, p, l), Called(steps, k, p, l));
    } else {
      NoCalls(s, steps, states, p, l);
    }
  }

  lemma NoCalls(s: State, steps: seq<Step>, states: seq<State>, p: int, l: int)
    requires Init(s) && IsRun(s, steps, states) && IsProc(s, p)
    ensures CallsFit(s, p, l, false, false) && !HasLock(steps, states, 0, p, l) && !Called(steps, 0, p, l)
  {
  }

  /** In every state of every run, at most one process has a sleep lock: has returned from acquiresleep for it, and not
      called releasesleep for it since. The lock is locked then. */
  lemma MutualExclusion(s: State, steps: seq<Step>, states: seq<State>, k: nat, p: int, q: int, l: int)
    requires Init(s) && IsRun(s, steps, states) && k <= |steps| && IsProc(s, p) && IsProc(s, q)
    requires HasLock(steps, states, k, p, l) && HasLock(steps, states, k, q, l)
    ensures p == q && l in states[k].locked
  {
    RunInv(s, steps, states, k);
    RunCallsFit(s, steps, states, k, p, l);
    RunCallsFit(s, steps, states, k, q, l);
    OneHolder(states[k], p, q, l);
  }

  /** The locks that the model says are granted to a process are those that it has by its calls, whenever it is outside
      these functions. */
  lemma HeldIsHad(s: State, steps: seq<Step>, states: seq<State>, k: nat, p: int, l: int)
    requires Init(s) && IsRun(s, steps, states) && k <= |steps| && IsProc(s, p) && IsOutside(states[k], p)
    ensures Shape(states[k]) && (l in states[k].held[p] <==> HasLock(steps, states, k, p, l))
    ensures l in states[k].held[p] ==> l in states[k].locked
    ensures l in states[k].held[p] ==> l in states[k].owner && states[k].owner[l] == states[k].pids[p]
  {
    RunInv(s, steps, states, k);
    RunCallsFit(s, steps, states, k, p, l);
  }

  /** In every state of every run, a process is asleep on a sleep lock only while some process has the lock, or a
      releaser's wakeup has still to reach the sleeper. */
  lemma NoLostWakeup(s: State, steps: seq<Step>, states: seq<State>, k: nat, q: int)
    requires Init(s) && IsRun(s, steps, states) && k <= |steps|
    requires Shape(states[k]) && IsProc(states[k], q) && states[k].run[q].Sleeping?
    ensures var r := states[k];
            SomeHolder(r, r.chan[q]) || WakeupComes(r, r.chan[q], q)
  {
    RunInv(s, steps, states, k);
    var r := states[k];
    assert Sleeps(r.pc[q], r.run[q], r.chan[q]);
  }

  /** In every run, what holdingsleep answers is whether the process has the lock. */
  lemma HoldingAnswers(s: State, steps: seq<Step>, states: seq<State>, k: nat, p: int)
    requires Init(s) && IsRun(s, steps, states) && k < |steps| && steps[k] == Advance(p)
    requires IsProc(s, p) && IsProc(states[k], p) && states[k].pc[p].Answer?
    ensures |states[k + 1].answer| == |states[k + 1].pc| == |states[k].pc|
    ensures states[k + 1].answer[p] <==> HasLock(steps, states, k, p, states[k].pc[p].l)
  {
    var r, l := states[k], states[k].pc[p].l;
    RunInv(s, steps, states, k);
    RunCallsFit(s, steps, states, k, p, l);
    if l in r.locked {
      var q :| 0 <= q < |r.held| && l in r.held[q];
      assert r.owner[l] == r.pids[q];
    }
  }
}
