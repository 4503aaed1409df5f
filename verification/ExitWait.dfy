/** fork, exit and wait as a state machine: any number of process slots, one step for every acquisition or release of
    wait_lock or of a process lock and for every group of writes done under one. A step that depends on memory, user
    addresses or kill comes with a choice. */
module ExitWait {
  const INIT := 0
  const NONE := -1
  const FREE := -1

  datatype St = Unused | Used | Runnable | Running | Sleeping | Zombie

  /** Where the thread of a slot is. `Dead` is a slot without a thread on its way: not started yet, or exited. */
  datatype Pc =
    | Dead
    | Outside
    // fork: find a slot, fill it, make it a child, let it run
    | ForkScan(i: int)
    | ForkLook(i: int)                 // the lock of slot i held
    | ForkFill(i: int)                 // the lock of slot i held
    | ForkLink(i: int)
    | ForkParent(i: int)               // wait_lock held
    | ForkRun(i: int)
    | ForkStart(i: int)                // the lock of slot i held
    // exit: give the children to init, waking it each time, wake the parent, become a zombie
    | ExitBegin
    | Reparent(i: int)                 // wait_lock held, until ExitMark
    | InitScan(i: int, j: int)
    | InitLook(i: int, j: int)         // and the lock of slot j
    | ExitScan(j: int)
    | ExitLook(j: int)                 // and the lock of slot j
    | ExitOwn
    | ExitMark                         // and the own lock
    | ExitSwitch                       // the own lock held
    // wait: look for a zombie child, or sleep
    | WaitBegin
    | WaitScan(i: int, kids: bool)     // wait_lock held
    | WaitLook(i: int)                 // and the lock of slot i
    | WaitDone(i: int)                 // and the lock of slot i
    | WaitLeave                        // wait_lock held
    | WaitDoze                         // wait_lock held
    | WaitLetGo                        // and the own lock
    | WaitSettle                       // the own lock held
    | WaitSwitch                       // the own lock held
    | WaitAsleep
    | WaitWake                         // the own lock held

  /** `plock[q]` is the slot whose thread holds the lock of slot q, or FREE. `maker[c]` is the last to set up slot c;
      `exited` are the pids of all who became zombies, and `reaped` the pids that wait has returned, in order. */
  datatype State = State(st: seq<St>, pid: seq<int>, parent: seq<int>, chan: seq<int>, pc: seq<Pc>, plock: seq<int>,
                         waitlock: int, nextpid: int, maker: seq<int>, exited: set<int>, reaped: seq<int>)

  predicate HasWait(pc: Pc) {
    || pc.ForkParent? || pc.Reparent? || pc.InitScan? || pc.InitLook? || pc.ExitScan? || pc.ExitLook? || pc.ExitOwn?
    || pc.ExitMark? || pc.WaitScan? || pc.WaitLook? || pc.WaitDone? || pc.WaitLeave? || pc.WaitDoze? || pc.WaitLetGo?
  }

  predicate HasOwn(pc: Pc) {
    pc.ExitMark? || pc.ExitSwitch? || pc.WaitLetGo? || pc.WaitSettle? || pc.WaitSwitch? || pc.WaitWake?
  }

  /** The thread holds the lock of slot `k`, as one it looks at. */
  predicate Grips(pc: Pc, k: int) {
    || ((pc.ForkLook? || pc.ForkFill? || pc.ForkStart? || pc.WaitLook? || pc.WaitDone?) && pc.i == k)
    || ((pc.InitLook? || pc.ExitLook?) && pc.j == k)
  }

  /** The thread is setting up slot `c`; `Linked` when it has made itself the parent. */
  predicate Builds(pc: Pc, c: int) {
    (pc.ForkFill? || pc.ForkLink? || pc.ForkParent? || pc.ForkRun? || pc.ForkStart?) && pc.i == c
  }

  predicate Linked(pc: Pc) {
    pc.ForkRun? || pc.ForkStart?
  }

  /** The thread, in wait, has slot `c` before it. */
  predicate Looks(pc: Pc, c: int) {
    pc.WaitLook? && pc.i == c
  }

  /** A thread here may have slot `c` as a child: it has not exited, and has not passed c in giving its children
      away. */
  predicate MayHave(pc: Pc, c: int) {
    match pc
    case Dead | ExitScan(_) | ExitLook(_) | ExitOwn | ExitMark | ExitSwitch => false
    case Reparent(i) => c >= i
    case InitScan(i, _) => c > i
    case InitLook(i, _) => c > i
    case _ => true
  }

  /** The thread sleeps in wait, or has decided to. */
  predicate Sleeps(pc: Pc, st: St) {
    pc.WaitDoze? || pc.WaitLetGo? || pc.WaitSettle? || pc.WaitSwitch? || (pc.WaitAsleep? && st.Sleeping?)
  }

  /** An exiting thread whose wakeup of slot `q` is behind it. */
  predicate ExitPassed(pc: Pc, q: int) {
    match pc
    case ExitScan(j) => j > q
    case ExitLook(j) => j > q
    case ExitOwn | ExitMark => true
    case _ => false
  }

  /** A wakeup of init that has still to reach it. */
  predicate InitComes(pc: Pc) {
    (pc.InitScan? || pc.InitLook?) && pc.j <= INIT
  }

  predicate Exits(pc: Pc) {
    || pc.Dead? || pc.ExitBegin? || pc.Reparent? || pc.InitScan? || pc.InitLook?
    || pc.ExitScan? || pc.ExitLook? || pc.ExitOwn? || pc.ExitMark? || pc.ExitSwitch?
  }

  predicate Waits(pc: Pc) {
    || pc.WaitBegin? || pc.WaitScan? || pc.WaitLook? || pc.WaitDone? || pc.WaitLeave?
    || pc.WaitDoze? || pc.WaitLetGo? || pc.WaitSettle? || pc.WaitSwitch? || pc.WaitAsleep? || pc.WaitWake?
  }

  /** How far a scan for zombie children has come. */
  function Scanned(pc: Pc): (i: int) {
    if pc.WaitScan? || pc.WaitLook? then pc.i else 0
  }

  /** What the state of a slot can be while its thread is at `pc`. */
  predicate Fits(pc: Pc, st: St, chan: int, q: int) {
    match pc
    case Dead => !st.Running? && !st.Sleeping?
    case ExitSwitch => st.Zombie?
    case WaitSwitch => st.Sleeping? && chan == q
    case WaitAsleep => (st.Sleeping? || st.Runnable?) && chan == q
    case _ => st.Running?
  }

  // ----- The invariant -----

  ghost predicate Shape(s: State) {
    |s.st| == |s.pid| == |s.parent| == |s.chan| == |s.pc| == |s.plock| == |s.maker|
  }

  predicate IsSlot(s: State, q: int) {
    0 <= q < |s.pc|
  }

  /** Locks are held by the threads that are where they are held. */
  ghost predicate LocksOk(s: State) {
    && Shape(s)
    && (forall p {:trigger s.pc[p]} :: 0 <= p < |s.pc| && HasWait(s.pc[p]) ==> s.waitlock == p)
    && (forall p {:trigger s.pc[p]} :: 0 <= p < |s.pc| && HasOwn(s.pc[p]) ==> s.plock[p] == p)
    && (forall p {:trigger s.pc[p]} :: 0 <= p < |s.pc| && (s.pc[p].InitLook? || s.pc[p].ExitLook?) ==> s.pc[p].j != p)
    && (forall p, k {:trigger Grips(s.pc[p], k)} :: 0 <= p < |s.pc| && Grips(s.pc[p], k) ==>
        0 <= k < |s.pc| && s.plock[k] == p)
  }

  ghost predicate RunOk(s: State) {
    && Shape(s)
    && (forall p {:trigger s.pc[p]} :: 0 <= p < |s.pc| ==> Fits(s.pc[p], s.st[p], s.chan[p], p))
  }

  /** Every parent is a thread that has not given the child away, and no process but init is without a parent. */
  ghost predicate TreeOk(s: State) {
    && Shape(s) && IsSlot(s, INIT) && !Exits(s.pc[INIT])
    && (forall c {:trigger s.parent[c]} :: 0 <= c < |s.parent| && s.parent[c] != NONE ==>
          0 <= s.parent[c] < |s.pc| && s.parent[c] != c && MayHave(s.pc[s.parent[c]], c))
    && (forall c {:trigger s.parent[c]} :: 0 <= c < |s.parent| && c != INIT && !s.st[c].Unused? && !s.st[c].Used? ==>
        s.parent[c] != NONE)
    && (forall c {:trigger s.parent[c]} :: 0 <= c < |s.parent| && (s.st[c].Unused? || c == INIT) ==>
        s.parent[c] == NONE)
  }

  /** A slot being set up belongs to the one who sets it up, and wait looks at its own children only. */
  ghost predicate BuildOk(s: State) {
    && Shape(s)
    && (forall p, c {:trigger Looks(s.pc[p], c)} :: 0 <= p < |s.pc| && Looks(s.pc[p], c) ==>
        0 <= c < |s.pc| && s.parent[c] == p)
    && (forall p, c {:trigger Builds(s.pc[p], c)} :: 0 <= p < |s.pc| && Builds(s.pc[p], c) ==>
          && 0 <= c < |s.pc| && c != INIT && s.st[c].Used? && s.maker[c] == p
          && s.parent[c] == if Linked(s.pc[p]) then p else NONE)
  }

  /** Pids are given once and returned at most once. */
  ghost predicate PidOk(s: State) {
    && Shape(s)
    && (forall c {:trigger s.pid[c]} :: 0 <= c < |s.pid| && !s.st[c].Unused? ==>
        s.pid[c] < s.nextpid && s.pid[c] !in s.reaped)
    && (forall c {:trigger s.pid[c]} :: 0 <= c < |s.pid| && !s.st[c].Unused? ==>
        (s.pid[c] in s.exited <==> s.st[c].Zombie?))
    && (forall c, d {:trigger s.pid[c], s.pid[d]} :: 0 <= c < d < |s.pid| && !s.st[c].Unused? && !s.st[d].Unused? ==>
        s.pid[c] != s.pid[d])
    && (forall k {:trigger s.reaped[k]} :: 0 <= k < |s.reaped| ==> s.reaped[k] < s.nextpid && s.reaped[k] in s.exited)
    && (forall j, k :: 0 <= j < k < |s.reaped| ==> s.reaped[j] != s.reaped[k])
    && (forall x :: x in s.exited ==> x < s.nextpid)
  }

  /** The holder of wait_lock has still to wake init. */
  predicate InitWakes(s: State) {
    IsSlot(s, s.waitlock) && InitComes(s.pc[s.waitlock])
  }

  /** No one sleeps in wait beside a zombie child, unless a wakeup is on its way; the last two say why. */
  ghost predicate WakeOk(s: State) {
    && Shape(s)
    && (forall c {:trigger s.parent[c]} :: 0 <= c < |s.parent| && 0 <= s.parent[c] < |s.pc| && s.st[c].Zombie? ==>
          Sleeps(s.pc[s.parent[c]], s.st[s.parent[c]]) ==> s.parent[c] == INIT && InitWakes(s))
    && (forall p {:trigger s.parent[p]} ::
        0 <= p < |s.parent| && 0 <= s.parent[p] < |s.pc| && ExitPassed(s.pc[p], s.parent[p]) ==>
          !Sleeps(s.pc[s.parent[p]], s.st[s.parent[p]]))
    && (forall c {:trigger s.parent[c]} ::
        0 <= c < |s.parent| && 0 <= s.parent[c] < |s.pc| && c < Scanned(s.pc[s.parent[c]]) ==>
          !s.st[c].Zombie?)
  }

  ghost predicate Inv(s: State) {
    LocksOk(s) && RunOk(s) && TreeOk(s) && BuildOk(s) && PidOk(s) && WakeOk(s)
  }

  /** At first only init is there. */
  ghost predicate Init(s: State) {
    && Shape(s) && IsSlot(s, INIT) && s.waitlock == FREE && s.exited == {} && s.reaped == []
    && (forall p :: 0 <= p < |s.pc| ==> s.parent[p] == NONE)
    && (forall p :: 0 <= p < |s.pc| ==> s.pc[p] == if p == INIT then Outside else Dead)
    && (forall p :: 0 <= p < |s.pc| ==> s.st[p] == if p == INIT then Running else Unused)
    && s.pid[INIT] < s.nextpid
  }

  lemma InitInv(s: State)
    requires Init(s)
    ensures Inv(s)
  {
  }

  // ----- The steps -----

  datatype Step =
    | Fork(p: int)                     // call fork
    | Exit(p: int)                     // call exit
    | Wait(p: int)                     // call wait
    | Advance(p: int, choice: bool)    // the next step of a thread inside one of them
    | Dispatch(p: int)                 // the scheduler puts a runnable process on a CPU
    | Rouse(p: int)                    // a sleeping process is made runnable by kill

  ghost predicate Enabled(s: State, step: Step) {
    Shape(s) && IsSlot(s, step.p) &&
    match step
    case Fork(p) => s.pc[p].Outside?
    case Exit(p) => s.pc[p].Outside? && p != INIT
    case Wait(p) => s.pc[p].Outside?
    case Advance(p, _) => CanAdvance(s, p)
    case Dispatch(p) => s.st[p].Runnable? && s.plock[p] == FREE && (s.pc[p].Dead? || s.pc[p].WaitAsleep?)
    case Rouse(p) => s.st[p].Sleeping? && s.plock[p] == FREE
  }

  /** A thread waits for a lock that is not free. */
  ghost predicate CanAdvance(s: State, p: int)
    requires Shape(s) && IsSlot(s, p)
  {
    match s.pc[p]
    case Dead | Outside | WaitAsleep => false
    case ForkLink(_) => s.waitlock == FREE
    case ExitBegin => s.waitlock == FREE
    case WaitBegin => s.waitlock == FREE
    case ExitOwn => s.plock[p] == FREE
    case WaitDoze => s.plock[p] == FREE
    case ForkScan(i) => i >= |s.pc| || CanGrip(s, i)
    case ForkRun(i) => CanGrip(s, i)
    case ForkLook(i) => IsSlot(s, i)
    case ForkFill(i) => IsSlot(s, i)
    case ForkParent(i) => IsSlot(s, i)
    case ForkStart(i) => IsSlot(s, i)
    case Reparent(i) => i >= 0
    case InitScan(_, j) => j >= |s.pc| || j == p || CanGrip(s, j)
    case InitLook(_, j) => IsSlot(s, j)
    case ExitScan(j) => j >= |s.pc| || j == p || CanGrip(s, j)
    case ExitLook(j) => IsSlot(s, j)
    case WaitScan(i, _) => i >= |s.pc| || (i >= 0 && (s.parent[i] == p ==> CanGrip(s, i)))
    case WaitLook(i) => IsSlot(s, i)
    case WaitDone(i) => IsSlot(s, i)
    case _ => true
  }

  predicate CanGrip(s: State, k: int)
    requires |s.plock| == |s.pc|
  {
    IsSlot(s, k) && s.plock[k] == FREE
  }

  ghost function At(s: State, p: int, pc: Pc): (r: State)
    requires Shape(s) && IsSlot(s, p)
  {
    s.(pc := s.pc[p := pc])
  }

  ghost function Grip(s: State, p: int, pc: Pc, k: int): (r: State)
    requires Shape(s) && IsSlot(s, p) && IsSlot(s, k)
  {
    At(s, p, pc).(plock := s.plock[k := p])
  }

  ghost function Loose(s: State, p: int, pc: Pc, k: int): (r: State)
    requires Shape(s) && IsSlot(s, p) && IsSlot(s, k)
  {
    At(s, p, pc).(plock := s.plock[k := FREE])
  }

  /** The slot after freeproc. */
  ghost function Cleaned(s: State, c: int): (r: State)
    requires Shape(s) && IsSlot(s, c)
  {
    s.(st := s.st[c := Unused], pid := s.pid[c := 0], parent := s.parent[c := NONE], chan := s.chan[c := NONE])
  }

  /** The run states after wakeup(chan) has looked at slot `k`. */
  function Woken(s: State, k: int, chan: int): (st: seq<St>)
    requires 0 <= k < |s.st| && |s.chan| == |s.st|
  {
    if s.st[k].Sleeping? && s.chan[k] == chan then s.st[k := Runnable] else s.st
  }

  ghost function Advanced(s: State, p: int, choice: bool): (r: State)
    requires Shape(s) && IsSlot(s, p) && CanAdvance(s, p)
  {
    if Waits(s.pc[p]) then WaitAdvanced(s, p, choice)
    else if Exits(s.pc[p]) then ExitAdvanced(s, p)
    else ForkAdvanced(s, p, choice)
  }

  ghost function ForkAdvanced(s: State, p: int, choice: bool): (r: State)
    requires Shape(s) && IsSlot(s, p) && CanAdvance(s, p)
  {
    match s.pc[p]
    case ForkScan(i) => if i >= |s.pc| then At(s, p, Outside) else Grip(s, p, ForkLook(i), i)
    case ForkLook(i) =>
      if s.st[i].Unused? then
        At(s, p, ForkFill(i)).(st := s.st[i := Used], pid := s.pid[i := s.nextpid], nextpid := s.nextpid + 1,
                               maker := s.maker[i := p])
      else Loose(s, p, ForkScan(i + 1), i)
    case ForkFill(i) => if choice then Loose(s, p, ForkLink(i), i) else Loose(Cleaned(s, i), p, Outside, i)
    case ForkLink(i) => At(s, p, ForkParent(i)).(waitlock := p)
    case ForkParent(i) => At(s, p, ForkRun(i)).(parent := s.parent[i := p], waitlock := FREE)
    case ForkRun(i) => Grip(s, p, ForkStart(i), i)
    case ForkStart(i) => Loose(s, p, Outside, i).(st := s.st[i := Runnable])
    case _ => s
  }

  ghost function ExitAdvanced(s: State, p: int): (r: State)
    requires Shape(s) && IsSlot(s, p) && CanAdvance(s, p)
  {
    match s.pc[p]
    case ExitBegin => At(s, p, Reparent(0)).(waitlock := p)
    case Reparent(i) =>
      if i >= |s.pc| then At(s, p, ExitScan(0))
      else if s.parent[i] == p then At(s, p, InitScan(i, 0)).(parent := s.parent[i := INIT])
      else At(s, p, Reparent(i + 1))
    case InitScan(i, j) =>
      if j >= |s.pc| then At(s, p, Reparent(i + 1)) else if j ==
          p then At(s, p, InitScan(i, j + 1)) else Grip(s, p, InitLook(i, j), j)
    case InitLook(i, j) => Loose(s, p, InitScan(i, j + 1), j).(st := Woken(s, j, INIT))
    case ExitScan(j) =>
      if j >= |s.pc| then At(s, p, ExitOwn) else if j ==
          p then At(s, p, ExitScan(j + 1)) else Grip(s, p, ExitLook(j), j)
    case ExitLook(j) => Loose(s, p, ExitScan(j + 1), j).(st := Woken(s, j, s.parent[p]))
    case ExitOwn => Grip(s, p, ExitMark, p)
    case ExitMark => At(s, p, ExitSwitch).(st := s.st[p := Zombie], exited := s.exited + {s.pid[p]}, waitlock := FREE)
    case ExitSwitch => Loose(s, p, Dead, p)
    case _ => s
  }

  ghost function WaitAdvanced(s: State, p: int, choice: bool): (r: State)
    requires Shape(s) && IsSlot(s, p) && CanAdvance(s, p)
  {
    match s.pc[p]
    case WaitBegin => At(s, p, WaitScan(0, false)).(waitlock := p)
    case WaitScan(i, kids) =>
      if i >= |s.pc| then At(s, p, if !kids || choice then WaitLeave else WaitDoze)
      else if s.parent[i] == p then Grip(s, p, WaitLook(i), i)
      else At(s, p, WaitScan(i + 1, kids))
    case WaitLook(i) =>
      if !s.st[i].Zombie? then Loose(s, p, WaitScan(i + 1, true), i)
      else if choice then At(s, p, WaitDone(i))
      else At(Cleaned(s, i), p, WaitDone(i)).(reaped := s.reaped + [s.pid[i]])
    case WaitDone(i) => Loose(s, p, WaitLeave, i)
    case WaitLeave => At(s, p, Outside).(waitlock := FREE)
    case WaitDoze => Grip(s, p, WaitLetGo, p)
    case WaitLetGo => At(s, p, WaitSettle).(waitlock := FREE)
    case WaitSettle => At(s, p, WaitSwitch).(chan := s.chan[p := p], st := s.st[p := Sleeping])
    case WaitSwitch => Loose(s, p, WaitAsleep, p)
    case WaitWake => Loose(s, p, WaitBegin, p).(chan := s.chan[p := NONE])
    case _ => s
  }

  ghost function Apply(s: State, step: Step): (r: State)
    requires Enabled(s, step)
  {
    match step
    case Fork(p) => At(s, p, ForkScan(0))
    case Exit(p) => At(s, p, ExitBegin)
    case Wait(p) => At(s, p, WaitBegin)
    case Advance(p, choice) => Advanced(s, p, choice)
    case Dispatch(p) =>
      if s.pc[p].Dead? then At(s, p, Outside).(st := s.st[p := Running])
      else Grip(s, p, WaitWake, p).(st := s.st[p := Running])
    case Rouse(p) => s.(st := s.st[p := Runnable])
  }

  // ----- Steps that only move a thread and change locks -----

  /** Only thread `p` has moved; run states, parents and pids are as they were. */
  ghost predicate Moved(s: State, r: State, p: int, pc: Pc) {
    && Shape(s) && Shape(r) && IsSlot(s, p) && r.pc == s.pc[p := pc]
    && r.st == s.st && r.pid == s.pid && r.parent == s.parent && r.chan == s.chan && r.nextpid == s.nextpid
    && r.maker == s.maker && r.exited == s.exited && r.reaped == s.reaped
  }

  lemma TreeMoved(s: State, r: State, p: int, pc: Pc)
    requires TreeOk(s) && Moved(s, r, p, pc) && (Exits(pc) ==> p != INIT)
    requires forall c :: 0 <= c < |s.parent| && s.parent[c] == p && MayHave(s.pc[p], c) ==> MayHave(pc, c)
    ensures TreeOk(r)
  {
  }

  /** What `p` at `pc` sets up is its to set up. */
  ghost predicate BuildFits(s: State, p: int, pc: Pc)
    requires Shape(s)
  {
    && (forall c {:trigger Builds(pc, c)} :: Builds(pc, c) ==>
          0 <= c < |s.pc| && c != INIT && s.st[c].Used? && s.maker[c] == p &&
              s.parent[c] == if Linked(pc) then p else NONE)
    && (pc.WaitLook? ==> 0 <= pc.i < |s.pc| && s.parent[pc.i] == p)
  }

  lemma BuildMoved(s: State, r: State, p: int, pc: Pc)
    requires BuildOk(s) && Moved(s, r, p, pc) && BuildFits(s, p, pc)
    ensures BuildOk(r)
  {
    forall q, c | 0 <= q < |r.pc| && Builds(r.pc[q], c)
      ensures 0 <= c < |r.pc| && c != INIT && r.st[c].Used? && r.maker[c] == q &&
              r.parent[c] == if Linked(r.pc[q]) then q else NONE
    {
      assert if q == p then Builds(pc, c) else Builds(s.pc[q], c);
    }
    forall q, d | 0 <= q < |r.pc| && Looks(r.pc[q], d)
      ensures 0 <= d < |r.pc| && r.parent[d] == q
    {
      assert q == p || Looks(s.pc[q], d);
    }
  }

  /** The wakeups owed are still on their way after `p` has moved. */
  lemma WakeMoved(s: State, r: State, p: int, pc: Pc)
    requires WakeOk(s) && Moved(s, r, p, pc)
    requires Sleeps(pc, s.st[p]) && !Sleeps(s.pc[p], s.st[p]) ==>
               forall c :: 0 <= c < |s.parent| && s.parent[c] == p ==> !s.st[c].Zombie? && !ExitPassed(s.pc[c], p)
    requires forall q :: 0 <= q && ExitPassed(pc, q) && s.parent[p] == q && q < |s.pc| ==>
             ExitPassed(s.pc[p], q) || !Sleeps(r.pc[q], s.st[q])
    requires forall c :: 0 <= c < |s.parent| && s.parent[c] == p && c < Scanned(pc) ==> !s.st[c].Zombie?
    requires InitWakes(s) ==> InitWakes(r) || (IsSlot(s, INIT) && !Sleeps(r.pc[INIT], s.st[INIT]))
    ensures WakeOk(r)
  {
  }

  /** Everything but the locks, for a step that moves `p` and does not make it decide to sleep. */
  lemma PlainMove(s: State, r: State, p: int, pc: Pc)
    requires Inv(s) && Moved(s, r, p, pc) && (Exits(pc) ==> p != INIT)
    requires Fits(pc, s.st[p], s.chan[p], p) && (Sleeps(pc, s.st[p]) ==> Sleeps(s.pc[p], s.st[p]))
    requires forall c :: 0 <= c < |s.parent| && s.parent[c] == p && MayHave(s.pc[p], c) ==> MayHave(pc, c)
    requires BuildFits(s, p, pc)
    requires forall q :: 0 <= q && ExitPassed(pc, q) && s.parent[p] == q && q < |s.pc| ==>
             ExitPassed(s.pc[p], q) || !Sleeps(s.pc[q], s.st[q])
    requires forall c :: 0 <= c < |s.parent| && s.parent[c] == p && c < Scanned(pc) ==> !s.st[c].Zombie?
    requires InitWakes(s) ==> InitWakes(r) || (IsSlot(s, INIT) && !Sleeps(r.pc[INIT], s.st[INIT]))
    ensures RunOk(r) && TreeOk(r) && BuildOk(r) && PidOk(r) && WakeOk(r)
  {
    TreeMoved(s, r, p, pc);
    BuildMoved(s, r, p, pc);
    WakeMoved(s, r, p, pc);
  }

  /** The locks a thread holds after a move that takes none. */
  ghost predicate HoldsLess(pc: Pc, pc': Pc) {
    (HasWait(pc') ==> HasWait(pc)) && (HasOwn(pc') ==> HasOwn(pc)) && forall k :: Grips(pc', k) ==> Grips(pc, k)
  }

  lemma LocksMoved(s: State, r: State, p: int, pc: Pc)
    requires LocksOk(s) && Shape(r) && IsSlot(s, p) && r.pc == s.pc[p := pc] && HoldsLess(s.pc[p], pc) &&
             !pc.InitLook? && !pc.ExitLook?
    requires r.waitlock == s.waitlock || (HasWait(s.pc[p]) && !HasWait(pc))
    requires forall k :: 0 <= k < |s.plock| && r.plock[k] != s.plock[k] ==>
             s.plock[k] == p && !Grips(pc, k) && (k == p ==> !HasOwn(pc))
    ensures LocksOk(r)
  {
    forall q, k | 0 <= q < |r.pc| && Grips(r.pc[q], k)
      ensures 0 <= k < |r.pc| && r.plock[k] == q
    {
      assert Grips(s.pc[q], k);
    }
  }

  lemma LocksWaitTaken(s: State, r: State, p: int, pc: Pc)
    requires LocksOk(s) && IsSlot(s, p) && s.waitlock == FREE && r == At(s, p, pc).(waitlock := p)
    requires (HasOwn(pc) ==> HasOwn(s.pc[p])) && !pc.InitLook? && !pc.ExitLook? && forall k :: !Grips(pc, k)
    ensures LocksOk(r)
  {
    forall q, k | 0 <= q < |r.pc| && Grips(r.pc[q], k)
      ensures 0 <= k < |r.pc| && r.plock[k] == q
    {
      assert Grips(s.pc[q], k);
    }
  }

  /** wait_lock is free, so nobody holds it, and is taken. */
  lemma WaitTaken(s: State, p: int, pc: Pc, r: State)
    requires Inv(s) && IsSlot(s, p) && s.waitlock == FREE && r == At(s, p, pc).(waitlock := p)
    requires (s.pc[p].ForkLink? && pc == ForkParent(s.pc[p].i)) || (s.pc[p].ExitBegin? && pc == Reparent(0)) ||
             (s.pc[p].WaitBegin? && pc == WaitScan(0, false))
    ensures Inv(r)
  {
    assert Moved(s, r, p, pc);
    LocksWaitTaken(s, r, p, pc);
    assert forall c :: Builds(pc, c) ==> Builds(s.pc[p], c);
    PlainMove(s, r, p, pc);
  }

  /** wait_lock is released, with the run states as they are. */
  lemma WaitReleased(s: State, p: int, pc: Pc, r: State)
    requires Inv(s) && IsSlot(s, p) && r == At(s, p, pc).(waitlock := FREE)
    requires (s.pc[p].WaitLeave? && pc == Outside) || (s.pc[p].WaitLetGo? && pc == WaitSettle)
    ensures Inv(r)
  {
    assert Moved(s, r, p, pc);
    LocksMoved(s, r, p, pc);
    PlainMove(s, r, p, pc);
  }

  lemma LocksGripped(s: State, r: State, p: int, pc: Pc, k: int)
    requires LocksOk(s) && IsSlot(s, p) && IsSlot(s, k) && s.plock[k] == FREE && r == Grip(s, p, pc, k)
    requires HasWait(pc) ==> HasWait(s.pc[p])
    requires HasOwn(pc) ==> HasOwn(s.pc[p]) || k == p
    requires (forall l :: Grips(pc, l) ==> l == k) && (pc.InitLook? || pc.ExitLook? ==> pc.j != p)
    ensures LocksOk(r)
  {
    forall q, l | 0 <= q < |r.pc| && Grips(r.pc[q], l)
      ensures 0 <= l < |r.pc| && r.plock[l] == q
    {
      assert q != p ==> Grips(s.pc[q], l);
    }
  }

  /** The lock of a slot is free and is taken, to look at the slot. */
  lemma Gripped(s: State, p: int, pc: Pc, k: int, r: State)
    requires Inv(s) && IsSlot(s, p) && IsSlot(s, k) && s.plock[k] == FREE && r == Grip(s, p, pc, k)
    requires || (s.pc[p] == ForkScan(k) && pc == ForkLook(k)) || (s.pc[p] == ForkRun(k) && pc == ForkStart(k))
             || (s.pc[p].WaitScan? && s.pc[p].i == k && s.parent[k] == p && pc == WaitLook(k))
    ensures Inv(r)
  {
    assert Moved(s, r, p, pc);
    LocksGripped(s, r, p, pc, k);
    assert forall c :: Builds(pc, c) ==> Builds(s.pc[p], c);
    PlainMove(s, r, p, pc);
  }

  /** The lock of a slot is free and is taken, to wake the slot. */
  lemma GrippedToWake(s: State, p: int, pc: Pc, k: int, r: State)
    requires Inv(s) && IsSlot(s, p) && IsSlot(s, k) && s.plock[k] == FREE && r == Grip(s, p, pc, k) && k != p
    requires (s.pc[p].InitScan? && s.pc[p].j == k && pc == InitLook(s.pc[p].i, k)) ||
             (s.pc[p] == ExitScan(k) && pc == ExitLook(k))
    ensures Inv(r)
  {
    assert Moved(s, r, p, pc);
    LocksGripped(s, r, p, pc, k);
    PlainMove(s, r, p, pc);
  }

  /** The own lock is free and is taken. */
  lemma GrippedOwn(s: State, p: int, pc: Pc, r: State)
    requires Inv(s) && IsSlot(s, p) && s.plock[p] == FREE && r == Grip(s, p, pc, p)
    requires (s.pc[p] == ExitOwn && pc == ExitMark) || (s.pc[p] == WaitDoze && pc == WaitLetGo)
    ensures Inv(r)
  {
    assert Moved(s, r, p, pc);
    LocksGripped(s, r, p, pc, p);
    PlainMove(s, r, p, pc);
  }

  /** fork lets a slot go, with the run states as they are. */
  lemma ForkLoosened(s: State, p: int, pc: Pc, k: int, r: State)
    requires Inv(s) && IsSlot(s, p) && IsSlot(s, k) && r == Loose(s, p, pc, k)
    requires (s.pc[p] == ForkLook(k) && pc == ForkScan(k + 1)) || (s.pc[p] == ForkFill(k) && pc == ForkLink(k))
    ensures Inv(r)
  {
    assert Moved(s, r, p, pc) && Grips(s.pc[p], k);
    LocksMoved(s, r, p, pc);
    assert forall c :: Builds(pc, c) ==> Builds(s.pc[p], c);
    PlainMove(s, r, p, pc);
  }

  /** wait lets a slot go: one that is no zombie, or the one it has reaped. */
  lemma WaitLoosened(s: State, p: int, pc: Pc, k: int, r: State)
    requires Inv(s) && IsSlot(s, p) && IsSlot(s, k) && r == Loose(s, p, pc, k)
    requires || (s.pc[p] == WaitLook(k) && !s.st[k].Zombie? && pc == WaitScan(k + 1, true))
             || (s.pc[p] == WaitDone(k) && pc == WaitLeave)
    ensures Inv(r)
  {
    assert Moved(s, r, p, pc) && Grips(s.pc[p], k);
    LocksMoved(s, r, p, pc);
    PlainMove(s, r, p, pc);
  }

  /** The own lock is released by leaving the CPU. */
  lemma LoosenedOwn(s: State, p: int, pc: Pc, r: State)
    requires Inv(s) && IsSlot(s, p) && r == Loose(s, p, pc, p)
    requires (s.pc[p] == ExitSwitch && pc == Dead) || (s.pc[p] == WaitSwitch && pc == WaitAsleep)
    ensures Inv(r)
  {
    assert Moved(s, r, p, pc);
    LocksMoved(s, r, p, pc);
    PlainMove(s, r, p, pc);
  }

  /** Calls, and a fork that finds no slot. */
  lemma Called(s: State, p: int, pc: Pc, r: State)
    requires Inv(s) && IsSlot(s, p) && r == At(s, p, pc)
    requires || (s.pc[p] == Outside && (pc == ForkScan(0) || (pc == ExitBegin && p != INIT) || pc == WaitBegin))
             || (s.pc[p].ForkScan? && pc == Outside)
    ensures Inv(r)
  {
    assert Moved(s, r, p, pc);
    LocksMoved(s, r, p, pc);
    PlainMove(s, r, p, pc);
  }

  /** exit moves on with the locks it has. */
  lemma ExitStepped(s: State, p: int, pc: Pc, r: State)
    requires Inv(s) && IsSlot(s, p) && r == At(s, p, pc)
    requires || (s.pc[p].Reparent? && s.pc[p].i >= |s.pc| && pc == ExitScan(0))
             || (s.pc[p].Reparent? && 0 <= s.pc[p].i < |s.pc| && s.parent[s.pc[p].i] != p &&
                 pc == Reparent(s.pc[p].i + 1))
             || (s.pc[p].InitScan? && s.pc[p].j >= |s.pc| && pc == Reparent(s.pc[p].i + 1))
             || (s.pc[p].InitScan? && s.pc[p].j == p && pc == InitScan(s.pc[p].i, p + 1))
             || (s.pc[p].ExitScan? && s.pc[p].j >= |s.pc| && pc == ExitOwn)
             || (s.pc[p].ExitScan? && s.pc[p].j == p && pc == ExitScan(p + 1))
    ensures Inv(r)
  {
    assert Moved(s, r, p, pc);
    LocksMoved(s, r, p, pc);
    PlainMove(s, r, p, pc);
  }

  /** wait moves on with the locks it has. */
  lemma WaitStepped(s: State, p: int, pc: Pc, r: State)
    requires Inv(s) && IsSlot(s, p) && r == At(s, p, pc)
    requires || (s.pc[p].WaitScan? && 0 <= s.pc[p].i < |s.pc| && s.parent[s.pc[p].i] != p &&
                 pc == WaitScan(s.pc[p].i + 1, s.pc[p].kids))
             || (s.pc[p].WaitScan? && pc == WaitLeave)
             || (s.pc[p].WaitLook? && pc == WaitDone(s.pc[p].i))
    ensures Inv(r)
  {
    assert Moved(s, r, p, pc);
    LocksMoved(s, r, p, pc);
    PlainMove(s, r, p, pc);
  }

  /** A scan that has found children but no zombie decides to sleep. */
  lemma Dozed(s: State, p: int, r: State)
    requires Inv(s) && IsSlot(s, p) && s.pc[p].WaitScan? && s.pc[p].i >= |s.pc| && r == At(s, p, WaitDoze)
    ensures Inv(r)
  {
    assert Moved(s, r, p, WaitDoze);
    LocksMoved(s, r, p, WaitDoze);
    forall c | 0 <= c < |s.parent| && s.parent[c] == p
      ensures !s.st[c].Zombie? && !ExitPassed(s.pc[c], p)
    {
      assert HasWait(s.pc[p]);
    }
    TreeMoved(s, r, p, WaitDoze);
    BuildMoved(s, r, p, WaitDoze);
    WakeMoved(s, r, p, WaitDoze);
  }

  // ----- Steps that change run states, parents or pids -----

  /** Slot `c` gets the state `x`, and loses its parent unless it keeps it. Nobody is setting it up, or it stays in
      set-up. */
  ghost predicate Restated(s: State, r: State, c: int, x: St) {
    && Shape(s) && Shape(r) && IsSlot(s, c) && r.pc == s.pc && r.plock == s.plock && r.waitlock == s.waitlock
    && r.st == s.st[c := x]
    && (forall q :: 0 <= q < |s.pc| && q != c ==> r.chan[q] == s.chan[q] && r.maker[q] == s.maker[q])
    && (r.parent == s.parent || r.parent == s.parent[c := NONE])
  }

  /** A slot changes its state without anybody falling asleep or becoming a zombie. */
  lemma RestatedKeeps(s: State, r: State, c: int, x: St)
    requires LocksOk(s) && RunOk(s) && TreeOk(s) && BuildOk(s) && WakeOk(s) && Restated(s, r, c, x)
    requires Fits(s.pc[c], x, r.chan[c], c) && (x.Zombie? ==> s.st[c].Zombie?)
    requires Sleeps(s.pc[c], x) ==> Sleeps(s.pc[c], s.st[c])
    requires c != INIT && !x.Unused? && !x.Used? ==> r.parent[c] != NONE
    requires x.Unused? ==> r.parent[c] == NONE && c != INIT
    requires forall p :: 0 <= p < |s.pc| ==> !Builds(s.pc[p], c)
    requires r.parent == s.parent || forall p :: 0 <= p < |s.pc| ==> !Looks(s.pc[p], c)
    ensures LocksOk(r) && RunOk(r) && TreeOk(r) && BuildOk(r) && WakeOk(r)
  {
    RestatedBuild(s, r, c, x);
    RestatedWake(s, r, c, x);
    assert forall d :: 0 <= d < |s.parent| && r.parent[d] != NONE ==> r.parent[d] == s.parent[d];
  }

  lemma RestatedWake(s: State, r: State, c: int, x: St)
    requires WakeOk(s) && Restated(s, r, c, x) && (x.Zombie? ==> s.st[c].Zombie?)
    requires Sleeps(s.pc[c], x) ==> Sleeps(s.pc[c], s.st[c])
    ensures WakeOk(r)
  {
    assert forall d :: 0 <= d < |s.parent| && r.parent[d] != NONE ==> r.parent[d] == s.parent[d];
  }

  lemma RestatedBuild(s: State, r: State, c: int, x: St)
    requires BuildOk(s) && Restated(s, r, c, x)
    requires forall p :: 0 <= p < |s.pc| ==> !Builds(s.pc[p], c)
    requires r.parent == s.parent || forall p :: 0 <= p < |s.pc| ==> !Looks(s.pc[p], c)
    ensures BuildOk(r)
  {
    forall q, d | 0 <= q < |r.pc| && Builds(r.pc[q], d)
      ensures 0 <= d < |r.pc| && d != INIT && r.st[d].Used? && r.maker[d] == q &&
              r.parent[d] == if Linked(r.pc[q]) then q else NONE
    {
      assert Builds(s.pc[q], d);
    }
    forall q, d | 0 <= q < |r.pc| && Looks(r.pc[q], d)
      ensures 0 <= d < |r.pc| && r.parent[d] == q
    {
      assert Looks(s.pc[q], d);
    }
  }

  lemma NotBuilt(s: State, c: int)
    requires BuildOk(s) && IsSlot(s, c) && !s.st[c].Used?
    ensures forall p :: 0 <= p < |s.pc| ==> !Builds(s.pc[p], c)
  {
  }

  lemma NotLooked(s: State, c: int)
    requires BuildOk(s) && IsSlot(s, c) &&
             (s.parent[c] == NONE || (IsSlot(s, s.parent[c]) && !s.pc[s.parent[c]].WaitLook?))
    ensures forall p :: 0 <= p < |s.pc| ==> !Looks(s.pc[p], c)
  {
  }

  /** A free slot is taken, with a pid never used before. */
  lemma Allocated(s: State, p: int, i: int, m: State, r: State)
    requires Inv(s) && IsSlot(s, p) && s.pc[p] == ForkLook(i) && IsSlot(s, i) && s.st[i].Unused?
    requires m == s.(st := s.st[i := Used], pid := s.pid[i := s.nextpid], nextpid := s.nextpid + 1,
                     maker := s.maker[i := p])
    requires r == At(m, p, ForkFill(i))
    ensures Inv(r)
  {
    NotBuilt(s, i);
    assert s.parent[i] == NONE && i != INIT;
    RestatedKeeps(s, m, i, Used);
    AllocatedPids(s, i, m);
    FillStarts(m, p, i, r);
  }

  lemma FillStarts(s: State, p: int, i: int, r: State)
    requires Inv(s) && IsSlot(s, p) && s.pc[p] == ForkLook(i) && IsSlot(s, i) && i != INIT && r == At(s, p, ForkFill(i))
    requires s.st[i].Used? && s.maker[i] == p && s.parent[i] == NONE
    ensures Inv(r)
  {
    assert Moved(s, r, p, ForkFill(i)) && Grips(s.pc[p], i);
    LocksMoved(s, r, p, ForkFill(i));
    PlainMove(s, r, p, ForkFill(i));
  }

  lemma AllocatedPids(s: State, i: int, r: State)
    requires PidOk(s) && Shape(r) && IsSlot(s, i) && s.st[i].Unused? && r.reaped == s.reaped && r.exited == s.exited
    requires r.st == s.st[i := Used] && r.pid == s.pid[i := s.nextpid] && r.nextpid == s.nextpid + 1
    ensures PidOk(r)
  {
    assert s.nextpid !in s.reaped;
  }

  /** States change, but neither from nor to unused or zombie. */
  lemma SamePids(s: State, r: State)
    requires PidOk(s) && Shape(r) && r.pid == s.pid && r.nextpid == s.nextpid && r.exited == s.exited &&
             r.reaped == s.reaped
    requires |r.st| == |s.st| && forall c :: 0 <= c < |s.st| ==>
             r.st[c].Unused? == s.st[c].Unused? && r.st[c].Zombie? == s.st[c].Zombie?
    ensures PidOk(r)
  {
  }

  /** A slot is emptied: nothing but the slot changes. */
  lemma CleanedPids(s: State, c: int, r: State)
    requires PidOk(s) && Shape(r) && IsSlot(s, c) && r.nextpid == s.nextpid && r.exited == s.exited &&
             r.reaped == s.reaped
    requires r.st == s.st[c := Unused] && r.pid == s.pid[c := 0]
    ensures PidOk(r)
  {
  }

  /** A thread lets go of a slot it has set up: nobody else is setting it up. */
  lemma BuilderLeaves(s: State, p: int, i: int, m: State)
    requires Inv(s) && IsSlot(s, p) && (s.pc[p] == ForkFill(i) || s.pc[p] == ForkStart(i)) && IsSlot(s, i) &&
             m == Loose(s, p, Outside, i)
    ensures Inv(m) && i != p && m.pc[i].Dead? && m.parent[i] == if Linked(s.pc[p]) then p else NONE
    ensures forall q :: 0 <= q < |m.pc| ==> !Builds(m.pc[q], i)
  {
    assert Moved(s, m, p, Outside) && Grips(s.pc[p], i) && Builds(s.pc[p], i);
    LocksMoved(s, m, p, Outside);
    PlainMove(s, m, p, Outside);
    forall q | 0 <= q < |m.pc|
      ensures !Builds(m.pc[q], i)
    {
      assert q == p || !Builds(s.pc[q], i);
    }
  }

  /** A fork gives up: the slot is empty again. */
  lemma ForkFails(s: State, p: int, i: int, m: State, r: State)
    requires Inv(s) && IsSlot(s, p) && s.pc[p] == ForkFill(i) && IsSlot(s, i) && m == Loose(s, p, Outside, i) &&
             r == Cleaned(m, i)
    ensures Inv(r)
  {
    BuilderLeaves(s, p, i, m);
    NotLooked(m, i);
    RestatedKeeps(m, r, i, Unused);
    CleanedPids(m, i, r);
  }

  /** A new child is let run. */
  lemma Started(s: State, p: int, i: int, m: State, r: State)
    requires Inv(s) && IsSlot(s, p) && s.pc[p] == ForkStart(i) && IsSlot(s, i) && m == Loose(s, p, Outside, i)
    requires r == m.(st := m.st[i := Runnable])
    ensures Inv(r)
  {
    hide TreeOk, PidOk, WakeOk;
    assert Builds(s.pc[p], i);
    BuilderLeaves(s, p, i, m);
    RestatedKeeps(m, r, i, Runnable);
    SamePids(m, r);
  }

  /** A sleeping process is made runnable. */
  lemma Roused(s: State, k: int, r: State)
    requires Inv(s) && IsSlot(s, k) && s.st[k].Sleeping? && s.plock[k] != k && r == s.(st := s.st[k := Runnable])
    ensures Inv(r)
  {
    NotBuilt(s, k);
    assert s.pc[k].WaitAsleep?;
    RestatedKeeps(s, r, k, Runnable);
    SamePids(s, r);
  }

  /** A wakeup looks at slot `k`, whose lock it holds. If it was asleep in wait on its own slot, it is not any more. */
  lemma Shaken(s: State, p: int, k: int, chan: int, m: State)
    requires Inv(s) && IsSlot(s, p) && IsSlot(s, k) && k != p && Grips(s.pc[p], k) && HasWait(s.pc[p])
    requires m == s.(st := Woken(s, k, chan))
    ensures Inv(m) && (chan == k ==> !Sleeps(m.pc[k], m.st[k]))
  {
    if s.st[k].Sleeping? && s.chan[k] == chan {
      Roused(s, k, m);
    }
  }

  /** exit lets a slot go that it has looked at on behalf of init. */
  lemma InitLookEnds(s: State, p: int, i: int, j: int, r: State)
    requires Inv(s) && IsSlot(s, p) && s.pc[p] == InitLook(i, j) && IsSlot(s, j) &&
             (j == INIT ==> !Sleeps(s.pc[j], s.st[j]))
    requires r == Loose(s, p, InitScan(i, j + 1), j)
    ensures Inv(r)
  {
    assert Moved(s, r, p, InitScan(i, j + 1)) && Grips(s.pc[p], j);
    LocksMoved(s, r, p, InitScan(i, j + 1));
    PlainMove(s, r, p, InitScan(i, j + 1));
  }

  lemma InitLooked(s: State, p: int, i: int, j: int, m: State, r: State)
    requires Inv(s) && IsSlot(s, p) && s.pc[p] == InitLook(i, j) && j != p && IsSlot(s, j)
    requires m == s.(st := Woken(s, j, INIT)) && r == Loose(m, p, InitScan(i, j + 1), j)
    ensures Inv(r)
  {
    assert Grips(s.pc[p], j);
    Shaken(s, p, j, INIT, m);
    InitLookEnds(m, p, i, j, r);
  }

  /** exit lets a slot go that it has looked at on behalf of its parent. */
  lemma ExitLookEnds(s: State, p: int, j: int, r: State)
    requires Inv(s) && IsSlot(s, p) && s.pc[p] == ExitLook(j) && IsSlot(s, j) &&
             (j == s.parent[p] ==> !Sleeps(s.pc[j], s.st[j]))
    requires r == Loose(s, p, ExitScan(j + 1), j)
    ensures Inv(r)
  {
    assert Moved(s, r, p, ExitScan(j + 1)) && Grips(s.pc[p], j);
    LocksMoved(s, r, p, ExitScan(j + 1));
    PlainMove(s, r, p, ExitScan(j + 1));
  }

  lemma ExitLooked(s: State, p: int, j: int, m: State, r: State)
    requires Inv(s) && IsSlot(s, p) && s.pc[p] == ExitLook(j) && j != p && IsSlot(s, j)
    requires m == s.(st := Woken(s, j, s.parent[p])) && r == Loose(m, p, ExitScan(j + 1), j)
    ensures Inv(r)
  {
    assert Grips(s.pc[p], j);
    Shaken(s, p, j, s.parent[p], m);
    ExitLookEnds(m, p, j, r);
  }

  /** A parent reaps a zombie: the child is off its CPU, its slot is empty from now on, and its pid is returned. */
  lemma Reaped(s: State, p: int, i: int, m: State, r: State)
    requires Inv(s) && IsSlot(s, p) && s.pc[p] == WaitLook(i) && IsSlot(s, i) && s.st[i].Zombie?
    requires m == At(s, p, WaitDone(i)) && r == Cleaned(m, i).(reaped := s.reaped + [s.pid[i]])
    ensures Inv(r) && s.pc[i].Dead? && s.parent[i] == p
  {
    assert Grips(s.pc[p], i) && s.pc[i].Dead? && Looks(s.pc[p], i);
    WaitStepped(s, p, WaitDone(i), m);
    NotBuilt(m, i);
    NotLooked(m, i);
    RestatedKeeps(m, r, i, Unused);
    ReapedPids(m, i, r);
  }

  lemma ReapedPids(s: State, c: int, r: State)
    requires PidOk(s) && Shape(r) && IsSlot(s, c) && s.st[c].Zombie? && r.nextpid == s.nextpid && r.exited == s.exited
    requires r.st == s.st[c := Unused] && r.pid == s.pid[c := 0] && r.reaped == s.reaped + [s.pid[c]]
    ensures PidOk(r)
  {
    assert forall k :: 0 <= k < |s.reaped| ==> s.reaped[k] in s.reaped;
  }

  /** A process changes its own state together with its place, and neither leaves nor joins the living. */
  lemma Ran(s: State, r: State, p: int, pc: Pc, x: St)
    requires Inv(s) && LocksOk(r) && IsSlot(s, p) && r.pc == s.pc[p := pc] && r.st == s.st[p := x] &&
             r.waitlock == s.waitlock
    requires r.chan == s.chan[p := r.chan[p]] && r.parent == s.parent && r.maker == s.maker
    requires r.pid == s.pid && r.nextpid == s.nextpid && r.exited == s.exited && r.reaped == s.reaped
    requires (x.Running? || x.Sleeping?) && (s.st[p].Running? || s.st[p].Runnable?)
    requires Fits(pc, x, r.chan[p], p) && !Exits(pc) && (forall c :: !Builds(pc, c)) && Scanned(pc) == 0 &&
             !pc.WaitLook?
    requires !HasWait(s.pc[p]) && (Sleeps(pc, x) ==> Sleeps(s.pc[p], s.st[p]))
    ensures Inv(r)
  {
    hide BuildOk, PidOk, WakeOk;
    RanBuild(s, r, p, pc, x);
    RanWake(s, r, p, pc, x);
    SamePids(s, r);
    assert forall q :: 0 <= q < |s.pc| && q != p ==> r.pc[q] == s.pc[q];
  }

  lemma RanWake(s: State, r: State, p: int, pc: Pc, x: St)
    requires Inv(s) && LocksOk(r) && IsSlot(s, p) && r.pc == s.pc[p := pc] && r.st == s.st[p := x] &&
             r.waitlock == s.waitlock && r.parent == s.parent
    requires (x.Running? || x.Sleeping?) && (s.st[p].Running? || s.st[p].Runnable?)
    requires !Exits(pc) && Scanned(pc) == 0 && !HasWait(s.pc[p]) && (Sleeps(pc, x) ==> Sleeps(s.pc[p], s.st[p]))
    ensures WakeOk(r)
  {
    hide BuildOk, PidOk;
    assert forall q :: 0 <= q < |s.pc| && q != p ==> r.pc[q] == s.pc[q];
  }

  lemma RanBuild(s: State, r: State, p: int, pc: Pc, x: St)
    requires BuildOk(s) && Shape(r) && IsSlot(s, p) && r.pc == s.pc[p := pc] && r.st == s.st[p := x]
    requires r.parent == s.parent && r.maker == s.maker && !s.st[p].Used? && (forall c :: !Builds(pc, c)) &&
             !pc.WaitLook?
    ensures BuildOk(r)
  {
    forall q, d | 0 <= q < |r.pc| && Builds(r.pc[q], d)
      ensures 0 <= d < |r.pc| && d != INIT && r.st[d].Used? && r.maker[d] == q &&
              r.parent[d] == if Linked(r.pc[q]) then q else NONE
    {
      assert Builds(s.pc[q], d);
    }
    forall q, d | 0 <= q < |r.pc| && Looks(r.pc[q], d)
      ensures 0 <= d < |r.pc| && r.parent[d] == q
    {
      assert q == p || Looks(s.pc[q], d);
    }
  }

  /** wait marks itself asleep. */
  lemma Settled(s: State, p: int, r: State)
    requires Inv(s) && IsSlot(s, p) && s.pc[p].WaitSettle?
    requires r == At(s, p, WaitSwitch).(chan := s.chan[p := p], st := s.st[p := Sleeping])
    ensures Inv(r)
  {
    LocksMoved(s, r, p, WaitSwitch);
    Ran(s, r, p, WaitSwitch, Sleeping);
  }

  /** The scheduler runs a process. */
  lemma Dispatched(s: State, p: int, r: State)
    requires Inv(s) && IsSlot(s, p) && s.st[p].Runnable? && s.plock[p] == FREE && (s.pc[p].Dead? || s.pc[p].WaitAsleep?)
    requires r == (if s.pc[p].Dead? then At(s, p, Outside) else Grip(s, p, WaitWake, p)).(st := s.st[p := Running])
    ensures Inv(r)
  {
    if s.pc[p].Dead? {
      LocksMoved(s, r, p, Outside);
      Ran(s, r, p, Outside, Running);
    } else {
      LocksGripped(s, Grip(s, p, WaitWake, p), p, WaitWake, p);
      assert LocksOk(r);
      Ran(s, r, p, WaitWake, Running);
    }
  }

  /** wait is awake again, and goes for wait_lock. */
  lemma Awake(s: State, p: int, m: State, r: State)
    requires Inv(s) && IsSlot(s, p) && s.pc[p].WaitWake? && m == s.(chan := s.chan[p := NONE]) &&
             r == Loose(m, p, WaitBegin, p)
    ensures Inv(r)
  {
    hide TreeOk, BuildOk, PidOk, WakeOk;
    AwakeChan(s, p, m);
    assert Moved(m, r, p, WaitBegin);
    LocksMoved(m, r, p, WaitBegin);
    PlainMove(m, r, p, WaitBegin);
  }

  lemma AwakeChan(s: State, p: int, m: State)
    requires Inv(s) && IsSlot(s, p) && s.pc[p].WaitWake? && m == s.(chan := s.chan[p := NONE])
    ensures Inv(m)
  {
    BuildMoved(s, m.(chan := s.chan), p, s.pc[p]);
  }

  // ----- Parents change -----

  /** fork makes itself the parent of the slot it sets up. */
  lemma Parented(s: State, p: int, c: int, r: State)
    requires Inv(s) && IsSlot(s, p) && s.pc[p] == ForkParent(c) && IsSlot(s, c)
    requires r == At(s, p, ForkRun(c)).(parent := s.parent[c := p], waitlock := FREE)
    ensures Inv(r)
  {
    assert Builds(s.pc[p], c) && s.pc[c].Dead? && c != p;
    LocksMoved(s, r, p, ForkRun(c));
    ParentedBuild(s, p, c, r);
    ParentedWake(s, p, c, r);
    SamePids(s, r);
  }

  lemma ParentedWake(s: State, p: int, c: int, r: State)
    requires LocksOk(s) && WakeOk(s) && IsSlot(s, p) && s.pc[p] == ForkParent(c) && IsSlot(s, c) && s.pc[c].Dead? &&
             s.st[c].Used?
    requires r == At(s, p, ForkRun(c)).(parent := s.parent[c := p], waitlock := FREE)
    ensures WakeOk(r)
  {
    assert s.waitlock == p && !InitWakes(s);
  }

  lemma ParentedBuild(s: State, p: int, c: int, r: State)
    requires BuildOk(s) && IsSlot(s, p) && s.pc[p] == ForkParent(c) && IsSlot(s, c)
    requires r == At(s, p, ForkRun(c)).(parent := s.parent[c := p], waitlock := FREE)
    ensures BuildOk(r)
  {
    assert Builds(s.pc[p], c);
    forall q, d | 0 <= q < |r.pc| && Builds(r.pc[q], d)
      ensures 0 <= d < |r.pc| && d != INIT && r.st[d].Used? && r.maker[d] == q &&
              r.parent[d] == if Linked(r.pc[q]) then q else NONE
    {
      assert Builds(s.pc[q], d);
    }
    forall q, d | 0 <= q < |r.pc| && Looks(r.pc[q], d)
      ensures 0 <= d < |r.pc| && r.parent[d] == q
    {
      assert q == p || Looks(s.pc[q], d);
    }
  }

  /** exit gives a child to init, and will wake init. */
  lemma GivenToInit(s: State, p: int, i: int, r: State)
    requires Inv(s) && IsSlot(s, p) && s.pc[p] == Reparent(i) && IsSlot(s, i) && s.parent[i] == p
    requires r == At(s, p, InitScan(i, 0)).(parent := s.parent[i := INIT])
    ensures Inv(r)
  {
    assert HasWait(s.pc[p]) && i != p && i != INIT && p != INIT;
    hide BuildOk, PidOk, WakeOk;
    LocksMoved(s, r, p, InitScan(i, 0));
    GivenBuild(s, p, i, r);
    GivenWake(s, p, i, r);
    SamePids(s, r);
  }

  lemma GivenBuild(s: State, p: int, i: int, r: State)
    requires BuildOk(s) && IsSlot(s, p) && s.pc[p] == Reparent(i) && IsSlot(s, i) && s.parent[i] == p
    requires r == At(s, p, InitScan(i, 0)).(parent := s.parent[i := INIT])
    ensures BuildOk(r)
  {
    forall q, d | 0 <= q < |r.pc| && Builds(r.pc[q], d)
      ensures 0 <= d < |r.pc| && d != INIT && r.st[d].Used? && r.maker[d] == q &&
              r.parent[d] == if Linked(r.pc[q]) then q else NONE
    {
      assert Builds(s.pc[q], d);
    }
    forall q, d | 0 <= q < |r.pc| && Looks(r.pc[q], d)
      ensures 0 <= d < |r.pc| && r.parent[d] == q
    {
      assert q == p || Looks(s.pc[q], d);
    }
  }

  lemma GivenWake(s: State, p: int, i: int, r: State)
    requires LocksOk(s) && WakeOk(s) && IsSlot(s, p) && s.pc[p] == Reparent(i) && IsSlot(s, i) && s.parent[i] == p &&
             i != p && p != INIT
    requires r == At(s, p, InitScan(i, 0)).(parent := s.parent[i := INIT])
    ensures WakeOk(r)
  {
    assert s.waitlock == p && InitWakes(r);
    assert !HasWait(s.pc[i]);
    assert IsSlot(s, INIT) ==> !HasWait(s.pc[INIT]);
  }

  /** exit becomes a zombie: its parent is not asleep. */
  lemma Marked(s: State, p: int, r: State)
    requires Inv(s) && IsSlot(s, p) && s.pc[p].ExitMark?
    requires r == At(s, p, ExitSwitch).(st := s.st[p := Zombie], exited := s.exited + {s.pid[p]}, waitlock := FREE)
    ensures Inv(r)
  {
    hide BuildOk, WakeOk;
    LocksMoved(s, r, p, ExitSwitch);
    RanBuild(s, r, p, ExitSwitch, Zombie);
    MarkedWake(s, p, r);
  }

  lemma MarkedWake(s: State, p: int, r: State)
    requires LocksOk(s) && WakeOk(s) && TreeOk(s) && IsSlot(s, p) && s.pc[p].ExitMark?
    requires r == At(s, p, ExitSwitch).(st := s.st[p := Zombie], exited := s.exited + {s.pid[p]}, waitlock := FREE)
    ensures WakeOk(r)
  {
    assert s.waitlock == p && !InitWakes(s);
    assert forall q :: 0 <= q < |s.pc| && q != p ==> !HasWait(s.pc[q]);
  }

  // ----- Every step, every run -----

  lemma ForkKeepsInv(s: State, p: int, choice: bool, r: State)
    requires Inv(s) && IsSlot(s, p) && CanAdvance(s, p) && r == ForkAdvanced(s, p, choice)
    ensures Inv(r)
  {
    match s.pc[p]
    case ForkScan(i) =>
      if i >= |s.pc| {
        Called(s, p, Outside, r);
      } else {
        Gripped(s, p, ForkLook(i), i, r);
      }
    case ForkLook(i) =>
      if s.st[i].Unused? {
        Allocated(s, p, i, s.(st := s.st[i := Used], pid := s.pid[i := s.nextpid], nextpid := s.nextpid + 1,
                              maker := s.maker[i := p]), r);
      } else {
        ForkLoosened(s, p, ForkScan(i + 1), i, r);
      }
    case ForkFill(i) =>
      if choice {
        ForkLoosened(s, p, ForkLink(i), i, r);
      } else {
        ForkFails(s, p, i, Loose(s, p, Outside, i), r);
      }
    case ForkLink(i) => WaitTaken(s, p, ForkParent(i), r);
    case ForkParent(i) => Parented(s, p, i, r);
    case ForkRun(i) => Gripped(s, p, ForkStart(i), i, r);
    case ForkStart(i) => Started(s, p, i, Loose(s, p, Outside, i), r);
    case _ =>
  }

  lemma ExitKeepsInv(s: State, p: int, r: State)
    requires Inv(s) && IsSlot(s, p) && CanAdvance(s, p) && r == ExitAdvanced(s, p)
    ensures Inv(r)
  {
    hide TreeOk, BuildOk, PidOk, WakeOk;
    match s.pc[p]
    case ExitBegin => WaitTaken(s, p, Reparent(0), r);
    case Reparent(i) =>
      if i >= |s.pc| {
        ExitStepped(s, p, ExitScan(0), r);
      } else if s.parent[i] == p {
        GivenToInit(s, p, i, r);
      } else {
        ExitStepped(s, p, Reparent(i + 1), r);
      }
    case ExitOwn => GrippedOwn(s, p, ExitMark, r);
    case ExitMark => Marked(s, p, r);
    case ExitSwitch => LoosenedOwn(s, p, Dead, r);
    case ExitScan(_) => ExitWakes(s, p, r);
    case ExitLook(_) => ExitWakes(s, p, r);
    case InitScan(_, _) => InitWoken(s, p, r);
    case InitLook(_, _) => InitWoken(s, p, r);
    case _ =>
  }

  /** The wakeup of init in exit. */
  lemma InitWoken(s: State, p: int, r: State)
    requires Inv(s) && IsSlot(s, p) && CanAdvance(s, p) && r == ExitAdvanced(s, p) &&
             (s.pc[p].InitScan? || s.pc[p].InitLook?)
    ensures Inv(r)
  {
    var i, j := s.pc[p].i, s.pc[p].j;
    if s.pc[p].InitLook? {
      InitLooked(s, p, i, j, s.(st := Woken(s, j, INIT)), r);
    } else if j >= |s.pc| {
      ExitStepped(s, p, Reparent(i + 1), r);
    } else if j == p {
      ExitStepped(s, p, InitScan(i, j + 1), r);
    } else {
      GrippedToWake(s, p, InitLook(i, j), j, r);
    }
  }

  /** The wakeup of the parent in exit. */
  lemma ExitWakes(s: State, p: int, r: State)
    requires Inv(s) && IsSlot(s, p) && CanAdvance(s, p) && r == ExitAdvanced(s, p) &&
             (s.pc[p].ExitScan? || s.pc[p].ExitLook?)
    ensures Inv(r)
  {
    var j := s.pc[p].j;
    if s.pc[p].ExitLook? {
      ExitLooked(s, p, j, s.(st := Woken(s, j, s.parent[p])), r);
    } else if j >= |s.pc| {
      ExitStepped(s, p, ExitOwn, r);
    } else if j == p {
      ExitStepped(s, p, ExitScan(j + 1), r);
    } else {
      GrippedToWake(s, p, ExitLook(j), j, r);
    }
  }

  lemma WaitKeepsInv(s: State, p: int, choice: bool, r: State)
    requires Inv(s) && IsSlot(s, p) && CanAdvance(s, p) && r == WaitAdvanced(s, p, choice)
    ensures Inv(r)
  {
    if s.pc[p].WaitScan? {
      ScanKeepsInv(s, p, choice, r);
    } else if s.pc[p].WaitLook? {
      LookKeepsInv(s, p, choice, r);
    } else if s.pc[p].WaitDone? {
      WaitLoosened(s, p, WaitLeave, s.pc[p].i, r);
    } else {
      SleepKeepsInv(s, p, choice, r);
    }
  }

  /** wait, looking for a child. */
  lemma ScanKeepsInv(s: State, p: int, choice: bool, r: State)
    requires Inv(s) && IsSlot(s, p) && CanAdvance(s, p) && r == WaitAdvanced(s, p, choice) && s.pc[p].WaitScan?
    ensures Inv(r)
  {
    var i, kids := s.pc[p].i, s.pc[p].kids;
    if i >= |s.pc| {
      if !kids || choice {
        WaitStepped(s, p, WaitLeave, r);
      } else {
        Dozed(s, p, r);
      }
    } else if s.parent[i] == p {
      Gripped(s, p, WaitLook(i), i, r);
    } else {
      WaitStepped(s, p, WaitScan(i + 1, kids), r);
    }
  }

  /** wait, with a child before it. */
  lemma LookKeepsInv(s: State, p: int, choice: bool, r: State)
    requires Inv(s) && IsSlot(s, p) && CanAdvance(s, p) && r == WaitAdvanced(s, p, choice) && s.pc[p].WaitLook?
    ensures Inv(r)
  {
    var i := s.pc[p].i;
    if !s.st[i].Zombie? {
      WaitLoosened(s, p, WaitScan(i + 1, true), i, r);
    } else if choice {
      WaitStepped(s, p, WaitDone(i), r);
    } else {
      Reaped(s, p, i, At(s, p, WaitDone(i)), r);
    }
  }

  /** The ends of wait, and sleep in it. */
  lemma SleepKeepsInv(s: State, p: int, choice: bool, r: State)
    requires Inv(s) && IsSlot(s, p) && CanAdvance(s, p) && r == WaitAdvanced(s, p, choice)
    requires !s.pc[p].WaitScan? && !s.pc[p].WaitLook? && !s.pc[p].WaitDone?
    ensures Inv(r)
  {
    match s.pc[p]
    case WaitBegin => WaitTaken(s, p, WaitScan(0, false), r);
    case WaitLeave => WaitReleased(s, p, Outside, r);
    case WaitDoze => GrippedOwn(s, p, WaitLetGo, r);
    case WaitLetGo => WaitReleased(s, p, WaitSettle, r);
    case WaitSettle => Settled(s, p, r);
    case WaitSwitch => LoosenedOwn(s, p, WaitAsleep, r);
    case WaitWake => Awake(s, p, s.(chan := s.chan[p := NONE]), r);
    case _ =>
  }

  lemma StepKeepsInv(s: State, step: Step)
    requires Inv(s) && Enabled(s, step)
    ensures Inv(Apply(s, step))
  {
    var r := Apply(s, step);
    match step
    case Fork(p) => Called(s, p, ForkScan(0), r);
    case Exit(p) => Called(s, p, ExitBegin, r);
    case Wait(p) => Called(s, p, WaitBegin, r);
    case Advance(p, choice) =>
      if Waits(s.pc[p]) {
        WaitKeepsInv(s, p, choice, r);
      } else if Exits(s.pc[p]) {
        ExitKeepsInv(s, p, r);
      } else {
        ForkKeepsInv(s, p, choice, r);
      }
    case Dispatch(p) => Dispatched(s, p, r);
    case Rouse(p) => Roused(s, p, r);
  }

  /** The states met from `s` on, one for each step. */
  ghost predicate IsRun(s: State, steps: seq<Step>, states: seq<State>) {
    && |states| == |steps| + 1 && states[0] == s
    && forall i :: 0 <= i < |steps| ==> Enabled(states[i], steps[i]) && states[i + 1] == Apply(states[i], steps[i])
  }

  lemma {:induction false} RunInv(s: State, steps: seq<Step>, states: seq<State>, k: nat)
    requires Init(s) && IsRun(s, steps, states) && k <= |steps|
    ensures Inv(states[k])
  {
    if k == 0 {
      InitInv(s);
    } else {
      RunInv(s, steps, states, k - 1);
      StepKeepsInv(states[k - 1], steps[k - 1]);
    }
  }

  /** In every state of every run in which wait_lock is free, no parent asleep in wait has a zombie child. */
  lemma NoMissedExit(s: State, steps: seq<Step>, states: seq<State>, k: nat, c: int)
    requires Init(s) && IsRun(s, steps, states) && k <= |steps| && states[k].waitlock == FREE
    requires Shape(states[k]) && IsSlot(states[k], c) && states[k].st[c].Zombie? &&
             IsSlot(states[k], states[k].parent[c])
    ensures var r := states[k]; !r.st[r.parent[c]].Sleeping?
  {
    RunInv(s, steps, states, k);
    var r := states[k];
    assert !InitWakes(r) && !Sleeps(r.pc[r.parent[c]], r.st[r.parent[c]]);
  }

  /** In every run, no pid is returned by wait twice, and every returned one is that of a process that has exited. */
  lemma ReturnedOnce(s: State, steps: seq<Step>, states: seq<State>, k: nat)
    requires Init(s) && IsRun(s, steps, states) && k <= |steps|
    ensures forall i, j :: 0 <= i < j < |states[k].reaped| ==> states[k].reaped[i] != states[k].reaped[j]
    ensures forall i :: 0 <= i < |states[k].reaped| ==> states[k].reaped[i] in states[k].exited
  {
    RunInv(s, steps, states, k);
  }

  /** In every run, a slot that wait empties is that of a zombie child of the caller, and its thread is off its CPU for
      good. */
  lemma FreedAfterExit(s: State, steps: seq<Step>, states: seq<State>, k: nat, p: int)
    requires Init(s) && IsRun(s, steps, states) && k < |steps| && steps[k] == Advance(p, false)
    requires states[k].pc[p].WaitLook? && states[k].st[states[k].pc[p].i].Zombie?
    ensures var r, c := states[k], states[k].pc[p].i;
            r.parent[c] == p && r.pc[c].Dead? && states[k + 1].reaped == r.reaped + [r.pid[c]] &&
                states[k + 1].st[c].Unused?
  {
    RunInv(s, steps, states, k);
    var r, c := states[k], states[k].pc[p].i;
    Reaped(r, p, c, At(r, p, WaitDone(c)), states[k + 1]);
  }

  /** In every state of every run, every process but init has a parent, which is neither gone nor a zombie. */
  lemma NoOrphans(s: State, steps: seq<Step>, states: seq<State>, k: nat, c: int)
    requires Init(s) && IsRun(s, steps, states) && k <= |steps| && Shape(states[k]) && IsSlot(states[k], c) && c != INIT
    requires !states[k].st[c].Unused? && !states[k].st[c].Used?
    ensures IsSlot(states[k], states[k].parent[c])
    ensures var q := states[k].parent[c]; !states[k].st[q].Unused? && !states[k].st[q].Zombie?
  {
    RunInv(s, steps, states, k);
    var r := states[k];
    assert MayHave(r.pc[r.parent[c]], c);
  }

  // ----- When wait sleeps, and when it returns -----

  /** A slot has `p` as its parent. */
  ghost predicate HasChild(s: State, p: int) {
    exists c :: 0 <= c < |s.parent| && s.parent[c] == p
  }

  /** A slot before `i` has `p` as its parent. */
  ghost predicate ChildBefore(s: State, p: int, i: int) {
    exists c :: 0 <= c < i && c < |s.parent| && s.parent[c] == p
  }

  ghost predicate NoZombieChild(s: State, p: int) {
    forall c :: 0 <= c < |s.parent| && c < |s.st| && s.parent[c] == p ==> !s.st[c].Zombie?
  }

  /** A scan knows whether it has met a child. */
  ghost predicate KidsOk(s: State, p: int) {
    IsSlot(s, p) && s.pc[p].WaitScan? ==> 0 <= s.pc[p].i && (s.pc[p].kids <==> ChildBefore(s, p, s.pc[p].i))
  }

  /** While `p` holds wait_lock no other thread changes a parent. */
  lemma ChildrenKept(s: State, step: Step, p: int)
    requires Inv(s) && Enabled(s, step) && IsSlot(s, p) && HasWait(s.pc[p]) && step.p != p
    ensures Apply(s, step).parent == s.parent
  {
    hide LocksOk, RunOk, TreeOk, BuildOk, PidOk, WakeOk, ForkAdvanced, ExitAdvanced, WaitAdvanced, CanAdvance, HasWait;
    var q := step.p;
    OneWaits(s, p, q);
    if step.Advance? {
      if Waits(s.pc[q]) {
        WaitParents(s, q, step.choice);
      } else if Exits(s.pc[q]) {
        ExitParents(s, q);
      } else {
        FillsOrphan(s, q);
        ForkParents(s, q, step.choice);
      }
    }
  }

  lemma OneWaits(s: State, p: int, q: int)
    requires LocksOk(s) && IsSlot(s, p) && IsSlot(s, q) && HasWait(s.pc[p]) && p != q
    ensures Shape(s) && !HasWait(s.pc[q])
  {
  }

  lemma FillsOrphan(s: State, q: int)
    requires BuildOk(s) && IsSlot(s, q)
    ensures s.pc[q].ForkFill? ==> IsSlot(s, s.pc[q].i) && s.parent[s.pc[q].i] == NONE
  {
    assert s.pc[q].ForkFill? ==> Builds(s.pc[q], s.pc[q].i);
  }

  lemma ForkParents(s: State, q: int, choice: bool)
    requires Shape(s) && IsSlot(s, q) && CanAdvance(s, q) && !HasWait(s.pc[q])
    requires s.pc[q].ForkFill? ==> IsSlot(s, s.pc[q].i) && s.parent[s.pc[q].i] == NONE
    ensures ForkAdvanced(s, q, choice).parent == s.parent
  {
  }

  lemma ExitParents(s: State, q: int)
    requires Shape(s) && IsSlot(s, q) && CanAdvance(s, q) && !HasWait(s.pc[q])
    ensures ExitAdvanced(s, q).parent == s.parent
  {
  }

  lemma WaitParents(s: State, q: int, choice: bool)
    requires Shape(s) && IsSlot(s, q) && CanAdvance(s, q) && !HasWait(s.pc[q])
    ensures WaitAdvanced(s, q, choice).parent == s.parent
  {
  }

  lemma BeforeKept(s: State, r: State, p: int, i: int)
    requires |r.parent| == |s.parent|
    requires forall c :: 0 <= c < |s.parent| ==> (r.parent[c] == p <==> s.parent[c] == p)
    ensures ChildBefore(r, p, i) <==> ChildBefore(s, p, i)
  {
    if ChildBefore(s, p, i) {
      var c :| 0 <= c < i && c < |s.parent| && s.parent[c] == p;
      assert r.parent[c] == p;
    }
    if ChildBefore(r, p, i) {
      var c :| 0 <= c < i && c < |r.parent| && r.parent[c] == p;
      assert s.parent[c] == p;
    }
  }

  lemma BeforeMore(s: State, p: int, i: int)
    requires 0 <= i < |s.parent|
    ensures ChildBefore(s, p, i + 1) <==> ChildBefore(s, p, i) || s.parent[i] == p
  {
    if ChildBefore(s, p, i + 1) {
      var c :| 0 <= c < i + 1 && c < |s.parent| && s.parent[c] == p;
      assert c == i || ChildBefore(s, p, i);
    }
    if ChildBefore(s, p, i) {
      var c :| 0 <= c < i && c < |s.parent| && s.parent[c] == p;
      assert c < i + 1;
    }
  }

  /** One step keeps it. */
  lemma KidsStep(s: State, step: Step, p: int)
    requires Inv(s) && Enabled(s, step) && IsSlot(s, p) && KidsOk(s, p)
    ensures KidsOk(Apply(s, step), p)
  {
    var r := Apply(s, step);
    if step.p != p {
      OthersStay(s, step, p);
      if r.pc[p].WaitScan? {
        ChildrenKept(s, step, p);
        BeforeKept(s, r, p, s.pc[p].i);
      }
    } else if step.Advance? {
      KidsOwn(s, p, step.choice);
    }
  }

  /** A step of one thread does not move another. */
  lemma OthersStay(s: State, step: Step, p: int)
    requires Enabled(s, step) && IsSlot(s, p)
    ensures |Apply(s, step).pc| == |s.pc| && (step.p != p ==> Apply(s, step).pc[p] == s.pc[p])
  {
    hide ForkAdvanced, ExitAdvanced, WaitAdvanced, CanAdvance, Waits, Exits;
    if step.Advance? {
      if Waits(s.pc[step.p]) {
        WaitOthers(s, step.p, step.choice, p);
      } else if Exits(s.pc[step.p]) {
        ExitOthers(s, step.p, p);
      } else {
        ForkOthers(s, step.p, step.choice, p);
      }
    }
  }

  lemma ForkOthers(s: State, q: int, choice: bool, p: int)
    requires Shape(s) && IsSlot(s, q) && CanAdvance(s, q) && IsSlot(s, p)
    ensures var r := ForkAdvanced(s, q, choice); |r.pc| == |s.pc| && (p != q ==> r.pc[p] == s.pc[p])
  {
  }

  lemma ExitOthers(s: State, q: int, p: int)
    requires Shape(s) && IsSlot(s, q) && CanAdvance(s, q) && IsSlot(s, p)
    ensures var r := ExitAdvanced(s, q); |r.pc| == |s.pc| && (p != q ==> r.pc[p] == s.pc[p])
  {
  }

  lemma WaitOthers(s: State, q: int, choice: bool, p: int)
    requires Shape(s) && IsSlot(s, q) && CanAdvance(s, q) && IsSlot(s, p)
    ensures var r := WaitAdvanced(s, q, choice); |r.pc| == |s.pc| && (p != q ==> r.pc[p] == s.pc[p])
  {
  }

  /** A step of the scan itself. */
  lemma KidsOwn(s: State, p: int, choice: bool)
    requires Inv(s) && IsSlot(s, p) && CanAdvance(s, p) && KidsOk(s, p)
    ensures KidsOk(Advanced(s, p, choice), p)
  {
    hide LocksOk, RunOk, TreeOk, BuildOk, PidOk, WakeOk, ForkAdvanced, ExitAdvanced, WaitAdvanced, KidsOk, CanAdvance;
    LooksOwn(s, p);
    if Waits(s.pc[p]) {
      KidsScan(s, p, choice);
    } else if Exits(s.pc[p]) {
      NoScan(s, p, choice);
    } else {
      NoScan(s, p, choice);
    }
  }

  lemma LooksOwn(s: State, p: int)
    requires BuildOk(s) && IsSlot(s, p)
    ensures Shape(s) && (s.pc[p].WaitLook? ==> IsSlot(s, s.pc[p].i) && s.parent[s.pc[p].i] == p)
  {
    assert s.pc[p].WaitLook? ==> Looks(s.pc[p], s.pc[p].i);
  }

  /** Only wait scans for children. */
  lemma NoScan(s: State, p: int, choice: bool)
    requires Shape(s) && IsSlot(s, p) && CanAdvance(s, p) && !Waits(s.pc[p])
    ensures KidsOk(if Exits(s.pc[p]) then ExitAdvanced(s, p) else ForkAdvanced(s, p, choice), p)
  {
    if Exits(s.pc[p]) {
      assert !ExitAdvanced(s, p).pc[p].WaitScan?;
    } else {
      assert !ForkAdvanced(s, p, choice).pc[p].WaitScan?;
    }
  }

  lemma KidsScan(s: State, p: int, choice: bool)
    requires Shape(s) && IsSlot(s, p) && CanAdvance(s, p) && KidsOk(s, p)
    requires s.pc[p].WaitLook? ==> IsSlot(s, s.pc[p].i) && s.parent[s.pc[p].i] == p
    ensures KidsOk(WaitAdvanced(s, p, choice), p)
  {
    var r := WaitAdvanced(s, p, choice);
    if r.pc[p].WaitScan? && (s.pc[p].WaitScan? || s.pc[p].WaitLook?) {
      var i := s.pc[p].i;
      assert r.parent == s.parent;
      BeforeMore(s, p, i);
      BeforeKept(s, r, p, i + 1);
    }
  }

  lemma {:induction false} RunKids(s: State, steps: seq<Step>, states: seq<State>, k: nat, p: int)
    requires Init(s) && IsRun(s, steps, states) && k <= |steps| && IsSlot(s, p)
    ensures Inv(states[k]) && IsSlot(states[k], p) && KidsOk(states[k], p)
  {
    hide Inv, Apply, Enabled;
    RunInv(s, steps, states, k);
    if k > 0 {
      RunKids(s, steps, states, k - 1, p);
      hide KidsOk;
      KidsStep(states[k - 1], steps[k - 1], p);
      OthersStay(states[k - 1], steps[k - 1], p);
    } else {
      InitKids(s, p);
    }
  }

  lemma InitKids(s: State, p: int)
    requires Init(s)
    ensures KidsOk(s, p)
  {
  }

  /** In every run, a scan for zombie children that has come to its end has met none. Wait then goes to sleep exactly
      when it is not killed and some slot has the caller as its parent, and gives up otherwise. */
  lemma WaitSleeps(s: State, steps: seq<Step>, states: seq<State>, k: nat, p: int)
    requires Init(s) && IsRun(s, steps, states) && k < |steps| && IsSlot(s, p) && IsSlot(states[k], p)
    requires steps[k].Advance? && steps[k].p == p && states[k].pc[p].WaitScan? && states[k].pc[p].i >= |states[k].pc|
    ensures NoZombieChild(states[k], p) && |states[k + 1].pc| == |states[k].pc|
    ensures states[k + 1].pc[p] == WaitDoze <==> !steps[k].choice && HasChild(states[k], p)
    ensures states[k + 1].pc[p] == WaitLeave <==> steps[k].choice || !HasChild(states[k], p)
  {
    RunKids(s, steps, states, k, p);
    ScanEnds(states[k], p, steps[k].choice);
  }

  lemma ScanEnds(s: State, p: int, choice: bool)
    requires Inv(s) && IsSlot(s, p) && KidsOk(s, p) && s.pc[p].WaitScan? && s.pc[p].i >= |s.pc|
    ensures NoZombieChild(s, p)
    ensures Advanced(s, p, choice) == At(s, p, if !choice && HasChild(s, p) then WaitDoze else WaitLeave)
  {
    hide LocksOk, RunOk, TreeOk, BuildOk, PidOk;
    if HasChild(s, p) {
      var c :| 0 <= c < |s.parent| && s.parent[c] == p;
      assert c < s.pc[p].i;
    }
  }

  // ----- What a return from wait means -----

  predicate IsOutside(s: State, p: int) {
    IsSlot(s, p) && s.pc[p].Outside?
  }

  /** A step of wait by which the call is decided: there is a zombie child, and unless its status cannot be copied out
      its pid is returned and its slot freed; or there is none, and the caller is killed or has no child at all. */
  ghost predicate Decides(s: State, r: State, p: int, choice: bool) {
    || (exists c :: ZombieOf(s, p, c) && (!choice ==> Frees(s, r, c)))
    || (NoZombieChild(s, p) && (choice || !HasChild(s, p)))
  }

  predicate ZombieOf(s: State, p: int, c: int) {
    0 <= c < |s.parent| && c < |s.st| && s.parent[c] == p && s.st[c].Zombie?
  }

  predicate Frees(s: State, r: State, c: int) {
    && 0 <= c < |r.st| && c < |s.pid| && c < |r.parent|
    && r.reaped == s.reaped + [s.pid[c]] && r.st[c].Unused? && r.parent[c] == NONE
  }

  /** Step `j` has decided the call of wait in which `p` is at step `k`, and `p` has had wait_lock ever since. */
  ghost predicate DecidedAt(steps: seq<Step>, states: seq<State>, j: int, k: nat, p: int)
    requires |states| == |steps| + 1
  {
    && 0 <= j < k <= |steps| && steps[j].Advance? && steps[j].p == p
    && Decides(states[j], states[j + 1], p, steps[j].choice)
    && forall b :: j <= b <= k ==> states[b].waitlock == p && !IsOutside(states[b], p)
  }

  predicate Leaving(pc: Pc) {
    pc.WaitLeave? || pc.WaitDone?
  }

  /** How wait comes to an end. */
  lemma LeavingStep(s: State, p: int, choice: bool)
    requires Inv(s) && IsSlot(s, p) && CanAdvance(s, p) && KidsOk(s, p)
    ensures var r := Advanced(s, p, choice);
            && |r.pc| == |s.pc|
            && (Leaving(r.pc[p]) && !Leaving(s.pc[p]) ==>
                  Decides(s, r, p, choice) && s.waitlock == p && !s.pc[p].Outside?)
  {
    hide RunOk, TreeOk, BuildOk, PidOk, WakeOk, ForkAdvanced, ExitAdvanced, Decides;
    if Waits(s.pc[p]) {
      hide LocksOk, KidsOk;
      HoldsWait(s, p);
      if s.pc[p].WaitScan? && s.pc[p].i >= |s.pc| {
        ScanDecides(s, p, choice);
      } else if s.pc[p].WaitLook? {
        LookDecides(s, p, choice);
      }
    } else {
      NoLeaving(s, p, choice);
    }
  }

  lemma HoldsWait(s: State, p: int)
    requires LocksOk(s) && IsSlot(s, p)
    ensures Shape(s) && (HasWait(s.pc[p]) ==> s.waitlock == p)
  {
  }

  lemma NoLeaving(s: State, p: int, choice: bool)
    requires Shape(s) && IsSlot(s, p) && CanAdvance(s, p) && !Waits(s.pc[p])
    ensures |Advanced(s, p, choice).pc| == |s.pc| && !Leaving(Advanced(s, p, choice).pc[p])
  {
    if Exits(s.pc[p]) {
      assert |ExitAdvanced(s, p).pc| == |s.pc| && !Leaving(ExitAdvanced(s, p).pc[p]);
    } else {
      assert |ForkAdvanced(s, p, choice).pc| == |s.pc| && !Leaving(ForkAdvanced(s, p, choice).pc[p]);
    }
  }

  lemma ScanDecides(s: State, p: int, choice: bool)
    requires Inv(s) && IsSlot(s, p) && KidsOk(s, p) && s.pc[p].WaitScan? && s.pc[p].i >= |s.pc|
    ensures Advanced(s, p, choice).pc[p].WaitLeave? ==> Decides(s, Advanced(s, p, choice), p, choice)
  {
    hide Inv, KidsOk;
    ScanEnds(s, p, choice);
  }

  lemma LookDecides(s: State, p: int, choice: bool)
    requires Inv(s) && IsSlot(s, p) && CanAdvance(s, p) && s.pc[p].WaitLook?
    ensures Leaving(Advanced(s, p, choice).pc[p]) ==> Decides(s, Advanced(s, p, choice), p, choice)
  {
    hide LocksOk, RunOk, TreeOk, BuildOk, PidOk, WakeOk;
    LooksOwn(s, p);
    if s.st[s.pc[p].i].Zombie? {
      assert ZombieOf(s, p, s.pc[p].i);
    }
  }

  /** In every run, whoever is about to return from wait has come to a decision. */
  lemma {:induction false} RunDecided(s: State, steps: seq<Step>, states: seq<State>, k: nat, p: int)
    requires Init(s) && IsRun(s, steps, states) && k <= |steps| && IsSlot(s, p) && IsSlot(states[k], p)
    ensures Leaving(states[k].pc[p]) ==> exists j :: DecidedAt(steps, states, j, k, p)
  {
    hide Inv, Enabled, Apply, Decides;
    if k > 0 && Leaving(states[k].pc[p]) {
      RunKids(s, steps, states, k, p);
      RunKids(s, steps, states, k - 1, p);
      RunDecided(s, steps, states, k - 1, p);
      DecidedStep(states[k - 1], steps[k - 1], states[k], p);
      if Leaving(states[k - 1].pc[p]) {
        var j :| DecidedAt(steps, states, j, k - 1, p);
        assert DecidedAt(steps, states, j, k, p);
      } else {
        assert DecidedAt(steps, states, k - 1, k, p);
      }
    } else if k == 0 {
      assert !Leaving(s.pc[p]);
    }
  }

  lemma DecidedStep(s: State, step: Step, r: State, p: int)
    requires Inv(s) && Inv(r) && Enabled(s, step) && r == Apply(s, step) && IsSlot(s, p) && KidsOk(s, p)
    requires IsSlot(r, p) && Leaving(r.pc[p])
    ensures r.waitlock == p && !IsOutside(r, p)
    ensures !Leaving(s.pc[p]) ==>
              step.Advance? && step.p == p && s.waitlock == p && !IsOutside(s, p) && Decides(s, r, p, step.choice)
  {
    hide RunOk, TreeOk, BuildOk, PidOk, WakeOk, Advanced, CanAdvance, Decides, KidsOk;
    HoldsWait(r, p);
    if step.p != p {
      OthersStay(s, step, p);
    } else if step.Advance? {
      LeavingStep(s, p, step.choice);
    }
  }

  /** From a call of wait on, until it returns, the caller is inside wait. */
  lemma {:induction false} RunInWait(s: State, steps: seq<Step>, states: seq<State>, a: nat, k: nat, p: int)
    requires Init(s) && IsRun(s, steps, states) && a < k <= |steps| && IsSlot(s, p) && steps[a] == Wait(p)
    requires forall b :: a < b <= k ==> !IsOutside(states[b], p)
    ensures IsSlot(states[k], p) && Waits(states[k].pc[p])
  {
    hide Inv, Enabled, Apply, Waits;
    RunKids(s, steps, states, k - 1, p);
    RunKids(s, steps, states, k, p);
    if k > a + 1 {
      RunInWait(s, steps, states, a, k - 1, p);
      InWaitStep(states[k - 1], steps[k - 1], p);
    } else {
      WaitCalled(states[a], p);
    }
  }

  lemma WaitCalled(s: State, p: int)
    requires Enabled(s, Wait(p))
    ensures Waits(Apply(s, Wait(p)).pc[p])
  {
  }

  lemma InWaitStep(s: State, step: Step, p: int)
    requires Inv(s) && Enabled(s, step) && IsSlot(s, p) && Waits(s.pc[p])
    ensures |Apply(s, step).pc| == |s.pc|
    ensures Waits(Apply(s, step).pc[p]) || IsOutside(Apply(s, step), p)
    ensures IsOutside(Apply(s, step), p) ==> s.pc[p].WaitLeave?
  {
    hide LocksOk, RunOk, TreeOk, BuildOk, PidOk, WakeOk, ForkAdvanced, ExitAdvanced;
    if step.p != p {
      hide WaitAdvanced, Waits, CanAdvance;
      OthersStay(s, step, p);
    } else if step.Advance? {
      WaitPlace(s, p, step.choice);
    }
  }

  lemma WaitPlace(s: State, p: int, choice: bool)
    requires Shape(s) && IsSlot(s, p) && CanAdvance(s, p) && Waits(s.pc[p])
    ensures |WaitAdvanced(s, p, choice).pc| == |s.pc|
    ensures Waits(WaitAdvanced(s, p, choice).pc[p]) || s.pc[p].WaitLeave?
  {
  }

  /** In every run, when a call of wait returns, a step of that call has decided it: it has found a zombie child, whose
      pid it returns and whose slot it frees unless its status cannot be copied out, or there was none, and the caller
      was killed or had no child. */
  lemma WaitReturns(s: State, steps: seq<Step>, states: seq<State>, a: nat, k: nat, p: int)
    requires Init(s) && IsRun(s, steps, states) && a < k < |steps| && IsSlot(s, p) && steps[a] == Wait(p)
    requires (forall b :: a < b <= k ==> !IsOutside(states[b], p)) && IsOutside(states[k + 1], p)
    ensures exists j :: a < j < k && DecidedAt(steps, states, j, k, p)
  {
    hide Inv, Apply, Decides;
    RunKids(s, steps, states, k, p);
    RunInWait(s, steps, states, a, k, p);
    InWaitStep(states[k], steps[k], p);
    RunDecided(s, steps, states, k, p);
    var j :| DecidedAt(steps, states, j, k, p);
    assert IsOutside(states[a], p);
  }

  // ----- What a return from fork means -----

  predicate Forks(pc: Pc) {
    || pc.ForkScan? || pc.ForkLook? || pc.ForkFill? || pc.ForkLink? || pc.ForkParent? || pc.ForkRun? || pc.ForkStart?
  }

  /** At some state after `a`, up to `k`, slot `c` was in use. */
  ghost predicate SeenBusy(states: seq<State>, a: nat, k: nat, c: int)
    requires k < |states|
  {
    exists b :: a < b <= k && 0 <= c < |states[b].st| && !states[b].st[c].Unused?
  }

  /** Fork has looked at the slots before `i` and found them in use. */
  ghost predicate SeenUpTo(states: seq<State>, a: nat, k: nat, i: int)
    requires k < |states|
  {
    forall c :: 0 <= c < i ==> SeenBusy(states, a, k, c)
  }

  function LookedAt(pc: Pc): (i: int) {
    if pc.ForkScan? || pc.ForkLook? then pc.i else 0
  }

  lemma SeenMore(states: seq<State>, a: nat, k: nat, k': nat, i: int, i': int)
    requires a < k && k' == k + 1 < |states| && SeenUpTo(states, a, k, i)
    requires i' <= i || (i' == i + 1 && 0 <= i < |states[k].st| && !states[k].st[i].Unused?)
    ensures SeenUpTo(states, a, k', i')
  {
    forall c | 0 <= c < i'
      ensures SeenBusy(states, a, k', c)
    {
      if c < i {
        assert SeenBusy(states, a, k, c);
        var b :| a < b <= k && 0 <= c < |states[b].st| && !states[b].st[c].Unused?;
        assert a < b <= k';
      } else {
        assert a < k <= k';
      }
    }
  }

  /** The last step of a fork that has made a child: a slot that the caller has set up, as its child, can run. */
  predicate MadeChild(s: State, r: State, p: int, c: int) {
    && 0 <= c < |s.st| && c < |s.parent| && c < |s.maker| && c < |r.st| && c < |r.parent|
    && s.maker[c] == p && s.st[c].Used? && s.parent[c] == p && r.st[c].Runnable? && r.parent[c] == p
  }

  /** The last step of a fork that has no memory for the child: the slot is free again. */
  predicate GaveUp(s: State, r: State, p: int, c: int) {
    0 <= c < |s.st| && c < |s.maker| && c < |r.st| && s.maker[c] == p && s.st[c].Used? && r.st[c].Unused?
  }

  ghost predicate MakesChild(s: State, r: State, p: int) {
    exists c :: MadeChild(s, r, p, c)
  }

  ghost predicate GivesUp(s: State, r: State, p: int) {
    exists c :: GaveUp(s, r, p, c)
  }

  /** How a step moves a thread inside fork. */
  lemma ForkPlace(s: State, p: int, choice: bool)
    requires Shape(s) && IsSlot(s, p) && CanAdvance(s, p) && Forks(s.pc[p])
    ensures var r := ForkAdvanced(s, p, choice);
            && |r.pc| == |s.pc|
            && (Forks(r.pc[p]) || r.pc[p].Outside?)
            && (LookedAt(r.pc[p]) <= LookedAt(s.pc[p]) ||
                (LookedAt(r.pc[p]) == LookedAt(s.pc[p]) + 1 && s.pc[p].ForkLook? && !s.st[s.pc[p].i].Unused?))
            && (r.pc[p].Outside? ==> (s.pc[p].ForkScan? && s.pc[p].i >= |s.pc|) || (s.pc[p].ForkFill? && !choice) ||
                                     s.pc[p].ForkStart?)
  {
  }

  lemma ForkStep(s: State, step: Step, p: int)
    requires Inv(s) && Enabled(s, step) && IsSlot(s, p) && Forks(s.pc[p])
    ensures var r := Apply(s, step);
            && |r.pc| == |s.pc| && (Forks(r.pc[p]) || r.pc[p].Outside?)
            && (LookedAt(r.pc[p]) <= LookedAt(s.pc[p]) ||
                (LookedAt(r.pc[p]) == LookedAt(s.pc[p]) + 1 && IsSlot(s, LookedAt(s.pc[p])) &&
                 !s.st[LookedAt(s.pc[p])].Unused?))
            && (r.pc[p].Outside? ==> step.Advance? && step.p == p)
  {
    hide LocksOk, TreeOk, BuildOk, PidOk, WakeOk, WaitAdvanced, ExitAdvanced;
    if step.p != p {
      hide ForkAdvanced, Forks, LookedAt, CanAdvance, RunOk;
      OthersStay(s, step, p);
    } else if step.Advance? {
      ForkPlace(s, p, step.choice);
      hide ForkAdvanced;
    } else {
      assert Fits(s.pc[p], s.st[p], s.chan[p], p);
    }
  }

  /** From a call of fork on, until it returns, the caller is inside fork and has found the slots behind it in use. */
  lemma {:induction false} RunInFork(s: State, steps: seq<Step>, states: seq<State>, a: nat, k: nat, p: int)
    requires Init(s) && IsRun(s, steps, states) && a < k <= |steps| && IsSlot(s, p) && steps[a] == Fork(p)
    requires forall b :: a < b <= k ==> !IsOutside(states[b], p)
    ensures IsSlot(states[k], p) && Forks(states[k].pc[p]) && SeenUpTo(states, a, k, LookedAt(states[k].pc[p]))
  {
    hide Inv, Enabled, Apply, Forks, SeenUpTo;
    RunKids(s, steps, states, k - 1, p);
    RunKids(s, steps, states, k, p);
    if k > a + 1 {
      RunInFork(s, steps, states, a, k - 1, p);
      ForkStep(states[k - 1], steps[k - 1], p);
      SameLength(states[k - 1]);
      SeenMore(states, a, k - 1, k, LookedAt(states[k - 1].pc[p]), LookedAt(states[k].pc[p]));
    } else {
      ForkCalled(states, a, k, p);
    }
  }

  lemma SameLength(s: State)
    requires Inv(s)
    ensures |s.st| == |s.pc|
  {
  }

  lemma ForkCalled(states: seq<State>, a: nat, k: nat, p: int)
    requires k == a + 1 < |states| && Enabled(states[a], Fork(p)) && states[k] == Apply(states[a], Fork(p))
    ensures IsSlot(states[k], p) && Forks(states[k].pc[p]) && SeenUpTo(states, a, k, LookedAt(states[k].pc[p]))
  {
  }

  /** How the last step of fork ends it. */
  lemma ForkEnds(s: State, p: int, choice: bool)
    requires Inv(s) && IsSlot(s, p) && CanAdvance(s, p) && Forks(s.pc[p])
    requires IsOutside(Advanced(s, p, choice), p)
    ensures var r := Advanced(s, p, choice);
            MakesChild(s, r, p) || (!choice && GivesUp(s, r, p)) || (s.pc[p].ForkScan? && s.pc[p].i >= |s.pc|)
  {
    hide LocksOk, RunOk, TreeOk, PidOk, WakeOk, WaitAdvanced, ExitAdvanced;
    ForkPlace(s, p, choice);
    var r := Advanced(s, p, choice);
    if s.pc[p].ForkStart? {
      assert Builds(s.pc[p], s.pc[p].i);
      assert MadeChild(s, r, p, s.pc[p].i);
    } else if s.pc[p].ForkFill? {
      assert Builds(s.pc[p], s.pc[p].i);
      assert GaveUp(s, r, p, s.pc[p].i);
    }
  }

  /** In every run, when a call of fork returns, it has made a child that can run, or had no memory for one, or has seen
      every slot in use. */
  lemma ForkReturns(s: State, steps: seq<Step>, states: seq<State>, a: nat, k: nat, p: int)
    requires Init(s) && IsRun(s, steps, states) && a < k < |steps| && IsSlot(s, p) && steps[a] == Fork(p)
    requires (forall b :: a < b <= k ==> !IsOutside(states[b], p)) && IsOutside(states[k + 1], p)
    ensures steps[k].Advance? && steps[k].p == p
    ensures || MakesChild(states[k], states[k + 1], p) || (!steps[k].choice && GivesUp(states[k], states[k + 1], p))
            || forall c :: 0 <= c < |states[k].pc| ==> SeenBusy(states, a, k, c)
  {
    hide Inv, Advanced, CanAdvance, Forks, MakesChild, GivesUp, SeenBusy;
    RunKids(s, steps, states, k, p);
    RunInFork(s, steps, states, a, k, p);
    ForkStep(states[k], steps[k], p);
    ForkEnds(states[k], p, steps[k].choice);
  }

  // ----- What exit leaves -----

  /** Slot `c` is a zombie with pid `x`. */
  predicate ZombieWith(s: State, c: int, x: int) {
    0 <= c < |s.st| && c < |s.pid| && s.st[c].Zombie? && s.pid[c] == x
  }

  /** A zombie stays as it is unless wait returns its pid. */
  lemma ZombieStep(s: State, step: Step, c: int, x: int)
    requires Inv(s) && Enabled(s, step) && ZombieWith(s, c, x)
    ensures var r := Apply(s, step);
            ZombieWith(r, c, x) || (r.reaped == s.reaped + [x] && r.exited == s.exited)
  {
    var p := step.p;
    if step.Advance? {
      hide LocksOk, RunOk, TreeOk, BuildOk, PidOk, WakeOk, ForkAdvanced, ExitAdvanced, WaitAdvanced;
      BuiltAre(s, p);
      if Waits(s.pc[p]) {
        ZombieWaited(s, p, step.choice, c, x);
      } else if Exits(s.pc[p]) {
        ZombieExited(s, p, c, x);
      } else {
        ZombieForked(s, p, step.choice, c, x);
      }
    } else {
      hide LocksOk, TreeOk, BuildOk, PidOk, WakeOk;
    }
  }

  lemma BuiltAre(s: State, p: int)
    requires BuildOk(s) && RunOk(s) && IsSlot(s, p)
    ensures Shape(s) && Fits(s.pc[p], s.st[p], s.chan[p], p)
    ensures forall c :: Builds(s.pc[p], c) ==> IsSlot(s, c) && s.st[c].Used?
  {
  }

  lemma ZombieWaited(s: State, p: int, choice: bool, c: int, x: int)
    requires Shape(s) && IsSlot(s, p) && CanAdvance(s, p) && Waits(s.pc[p]) && ZombieWith(s, c, x)
    requires Fits(s.pc[p], s.st[p], s.chan[p], p)
    ensures var r := WaitAdvanced(s, p, choice);
            ZombieWith(r, c, x) || (r.reaped == s.reaped + [x] && r.exited == s.exited)
  {
  }

  lemma ZombieExited(s: State, p: int, c: int, x: int)
    requires Shape(s) && IsSlot(s, p) && CanAdvance(s, p) && Exits(s.pc[p]) && ZombieWith(s, c, x)
    ensures ZombieWith(ExitAdvanced(s, p), c, x)
  {
  }

  lemma ZombieForked(s: State, p: int, choice: bool, c: int, x: int)
    requires Shape(s) && IsSlot(s, p) && CanAdvance(s, p) && ZombieWith(s, c, x)
    requires forall d :: Builds(s.pc[p], d) ==> IsSlot(s, d) && s.st[d].Used?
    ensures ZombieWith(ForkAdvanced(s, p, choice), c, x)
  {
    assert s.pc[p].ForkFill? || s.pc[p].ForkStart? ==> Builds(s.pc[p], s.pc[p].i);
  }

  /** What a step adds to those who have exited is a zombie then; what is returned stays so. */
  lemma ExitedStep(s: State, step: Step, x: int)
    requires Inv(s) && Enabled(s, step)
    ensures x in Apply(s, step).exited ==> x in s.exited || ZombieWith(Apply(s, step), step.p, x)
    ensures x in s.reaped ==> x in Apply(s, step).reaped
  {
    hide LocksOk, RunOk, TreeOk, BuildOk, PidOk, WakeOk, CanAdvance;
    assert Shape(s);
    if step.Advance? {
      var p := step.p;
      if Waits(s.pc[p]) {
        assert WaitAdvanced(s, p, step.choice).exited == s.exited;
      } else if Exits(s.pc[p]) {
        assert ExitAdvanced(s, p).reaped == s.reaped;
      } else {
        assert ForkAdvanced(s, p, step.choice).exited == s.exited;
        assert ForkAdvanced(s, p, step.choice).reaped == s.reaped;
      }
    }
  }

  /** In every run no exit is lost: the pid of everybody who has exited has been returned by wait or is that of a
      zombie. */
  lemma {:induction false} NoExitLost(s: State, steps: seq<Step>, states: seq<State>, k: nat, x: int)
    requires Init(s) && IsRun(s, steps, states) && k <= |steps| && x in states[k].exited
    ensures x in states[k].reaped || exists c :: ZombieWith(states[k], c, x)
  {
    hide Inv, Enabled, Apply;
    if k > 0 {
      RunInv(s, steps, states, k - 1);
      ExitedStep(states[k - 1], steps[k - 1], x);
      if x in states[k - 1].exited {
        NoExitLost(s, steps, states, k - 1, x);
        var s1 := states[k - 1];
        if c :| ZombieWith(s1, c, x) {
          ZombieStep(s1, steps[k - 1], c, x);
        }
      } else {
        assert ZombieWith(states[k], steps[k - 1].p, x);
      }
    }
  }

  /** The pid of a process, while it is in exit, and that it has exited when it is past the mark. */
  ghost predicate Exiting(s: State, p: int, x: int) {
    && IsSlot(s, p) && p < |s.pid| && s.pid[p] == x && Exits(s.pc[p]) && !s.pc[p].Dead?
    && (s.pc[p].ExitSwitch? ==> x in s.exited)
  }

  lemma ExitingStep(s: State, step: Step, p: int, x: int)
    requires Inv(s) && Enabled(s, step) && Exiting(s, p, x)
    ensures |Apply(s, step).pc| == |s.pc|
    ensures Exiting(Apply(s, step), p, x) || (s.pc[p].ExitSwitch? && Apply(s, step) == Loose(s, p, Dead, p))
  {
    hide LocksOk, RunOk, TreeOk, BuildOk, PidOk, WakeOk, ForkAdvanced, WaitAdvanced, ExitAdvanced, CanAdvance, Exits;
    BuiltAre(s, p);
    if step.p != p {
      OthersStay(s, step, p);
      PidStays(s, step, p, x);
    } else if step.Advance? {
      OwnExit(s, p, x);
    } else {
      NotCalled(s, p);
    }
  }

  lemma NotCalled(s: State, p: int)
    requires Shape(s) && IsSlot(s, p) && Exits(s.pc[p]) && !s.pc[p].Dead? && Fits(s.pc[p], s.st[p], s.chan[p], p)
    ensures !s.pc[p].Outside? && !s.pc[p].WaitAsleep? && !s.st[p].Runnable? && !s.st[p].Sleeping? && !Waits(s.pc[p])
  {
  }

  lemma OwnExit(s: State, p: int, x: int)
    requires Shape(s) && IsSlot(s, p) && CanAdvance(s, p) && Exiting(s, p, x)
    ensures var r := Advanced(s, p, true);
            |r.pc| == |s.pc| && (Exiting(r, p, x) || (s.pc[p].ExitSwitch? && r == Loose(s, p, Dead, p)))
    ensures Advanced(s, p, false) == Advanced(s, p, true)
  {
    hide ForkAdvanced, WaitAdvanced;
  }

  /** Nobody else changes the pid of a process in exit. */
  lemma PidStays(s: State, step: Step, p: int, x: int)
    requires Inv(s) && Enabled(s, step) && Exiting(s, p, x) && step.p != p
    ensures var r := Apply(s, step);
            p < |r.pid| && r.pid[p] == x && (x in s.exited ==> x in r.exited)
  {
    hide LocksOk, RunOk, TreeOk, BuildOk, PidOk, WakeOk, ForkAdvanced, WaitAdvanced, ExitAdvanced, CanAdvance, Exits;
    var q := step.p;
    BuiltAre(s, p);
    if step.Advance? {
      BuiltAre(s, q);
      InUse(s, p);
      GripsApart(s, p, q);
      if Waits(s.pc[q]) {
        PidWaited(s, q, step.choice, p);
      } else if Exits(s.pc[q]) {
        PidExited(s, q, p);
      } else {
        PidForked(s, q, step.choice, p);
      }
    }
  }

  lemma InUse(s: State, p: int)
    requires Shape(s) && IsSlot(s, p) && Exits(s.pc[p]) && !s.pc[p].Dead? && Fits(s.pc[p], s.st[p], s.chan[p], p)
    ensures s.st[p].Running? || (s.st[p].Zombie? && s.pc[p].ExitSwitch?)
  {
  }

  /** A thread in its last step of exit holds its own lock. */
  lemma GripsApart(s: State, p: int, q: int)
    requires LocksOk(s) && IsSlot(s, p) && IsSlot(s, q) && p != q
    ensures s.pc[p].ExitSwitch? ==> !Grips(s.pc[q], p)
  {
  }

  lemma PidWaited(s: State, q: int, choice: bool, p: int)
    requires Shape(s) && IsSlot(s, q) && IsSlot(s, p) && CanAdvance(s, q)
    requires s.st[p].Running? || (s.st[p].Zombie? && !Grips(s.pc[q], p))
    ensures var r := WaitAdvanced(s, q, choice); p < |r.pid| && r.pid[p] == s.pid[p] && r.exited == s.exited
  {
  }

  lemma PidExited(s: State, q: int, p: int)
    requires Shape(s) && IsSlot(s, q) && IsSlot(s, p) && CanAdvance(s, q)
    ensures var r := ExitAdvanced(s, q); p < |r.pid| && r.pid[p] == s.pid[p] && s.exited <= r.exited
  {
  }

  lemma PidForked(s: State, q: int, choice: bool, p: int)
    requires Shape(s) && IsSlot(s, q) && IsSlot(s, p) && CanAdvance(s, q) && !s.st[p].Unused? && !s.st[p].Used?
    requires forall d :: Builds(s.pc[q], d) ==> IsSlot(s, d) && s.st[d].Used?
    ensures var r := ForkAdvanced(s, q, choice); p < |r.pid| && r.pid[p] == s.pid[p] && r.exited == s.exited
  {
    assert s.pc[q].ForkFill? ==> Builds(s.pc[q], s.pc[q].i);
  }

  /** From a call of exit on, until its thread is gone, the process is in exit. */
  lemma {:induction false} RunExiting(s: State, steps: seq<Step>, states: seq<State>, a: nat, k: nat, p: int)
    requires Init(s) && IsRun(s, steps, states) && a < k <= |steps| && IsSlot(s, p) && steps[a] == Exit(p)
    requires forall b :: a < b <= k ==> IsSlot(states[b], p) ==> !states[b].pc[p].Dead?
    ensures IsSlot(states[a], p) && p < |states[a].pid| && Exiting(states[k], p, states[a].pid[p])
  {
    hide Inv, Enabled, Apply, Exiting;
    RunKids(s, steps, states, k - 1, p);
    RunKids(s, steps, states, k, p);
    RunKids(s, steps, states, a, p);
    PidLength(states[a]);
    if k > a + 1 {
      RunExiting(s, steps, states, a, k - 1, p);
      ExitingStep(states[k - 1], steps[k - 1], p, states[a].pid[p]);
    } else {
      ExitCalled(states[a], p);
    }
  }

  lemma PidLength(s: State)
    requires Inv(s)
    ensures |s.pid| == |s.pc|
  {
  }

  lemma ExitCalled(s: State, p: int)
    requires Enabled(s, Exit(p))
    ensures Exiting(Apply(s, Exit(p)), p, s.pid[p])
  {
  }

  /** In every run, when the thread of a process that has called exit is gone, it has left a zombie with its pid, which
      is no parent any more. */
  lemma ExitLeavesZombie(s: State, steps: seq<Step>, states: seq<State>, a: nat, k: nat, p: int)
    requires Init(s) && IsRun(s, steps, states) && a < k < |steps| && IsSlot(s, p) && steps[a] == Exit(p)
    requires forall b :: a < b <= k ==> IsSlot(states[b], p) ==> !states[b].pc[p].Dead?
    requires IsSlot(states[k + 1], p) && states[k + 1].pc[p].Dead?
    ensures IsSlot(states[a], p) && p < |states[a].pid| && ZombieWith(states[k + 1], p, states[a].pid[p])
    ensures states[a].pid[p] in states[k + 1].exited && !HasChild(states[k + 1], p)
  {
    RunExiting(s, steps, states, a, k, p);
    RunInv(s, steps, states, k);
    RunInv(s, steps, states, k + 1);
    ExitingStep(states[k], steps[k], p, states[a].pid[p]);
    hide LocksOk, BuildOk, PidOk, WakeOk, Apply, Enabled, IsRun;
    LastOfExit(states[k], p, states[a].pid[p], states[k + 1]);
  }

  lemma LastOfExit(s: State, p: int, x: int, r: State)
    requires RunOk(s) && Exiting(s, p, x) && s.pc[p].ExitSwitch? && r == Loose(s, p, Dead, p) && TreeOk(r)
    ensures ZombieWith(r, p, x) && x in r.exited && !HasChild(r, p)
  {
  }
}
