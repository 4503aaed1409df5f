/** Group commit: which file-system operations may be open together, and when the log commits.

    Everything `begin_op`, `log_write` and `end_op` do to the shared counters happens under the log's
    spin lock, so each of them is one step of a state machine over any number of operations. An
    operation that must wait sleeps on the log and tries again after a wakeup. */
module LogAdmission {
  import opened Params

  /** `writes` maps each open operation to the set of blocks it has added to the log. `asleep` holds
      the operations sleeping in `begin_op`. */
  datatype State = State(
    lh: seq<nat>,
    outstanding: nat,
    committing: bool,
    writes: map<nat, set<nat>>,
    asleep: set<nat>)

  /** A step of operation `op`. `log_write` with an already logged block is an absorption. */
  datatype Step =
    | Begin(op: nat)
    | Sleep(op: nat)
    | LogWrite(op: nat, b: nat)
    | End(op: nat)
    | CommitDone

  predicate Init(s: State) {
    s == State([], 0, false, map[], {})
  }

  /** The condition under which `begin_op` lets one more operation in. */
  predicate Admits(s: State) {
    !s.committing && |s.lh| + (s.outstanding + 1) * MAXOPBLOCKS <= LOGBLOCKS
  }

  /** The step is taken by the code in state `s`. The one demand on callers is that an operation
      adds at most MAXOPBLOCKS blocks to the log; what is absorbed does not count. */
  predicate Enabled(s: State, st: Step) {
    match st
    case Begin(op) => op !in s.writes && op !in s.asleep && Admits(s)
    case Sleep(op) => op !in s.writes && !Admits(s)
    case LogWrite(op, b) => op in s.writes && (b in s.lh || |s.writes[op]| < MAXOPBLOCKS)
    case End(op) => op in s.writes
    case CommitDone => s.committing
  }

  /** `log_write` panics: the log is full, whether or not the block would be absorbed. */
  predicate Panics(s: State, st: Step) {
    match st
    case LogWrite(_, _) => |s.lh| >= LOGBLOCKS || s.outstanding < 1
    case End(_) => s.outstanding == 0 || s.committing
    case _ => false
  }

  function Apply(s: State, st: Step): (t: State)
    requires Enabled(s, st) && !Panics(s, st)
  {
    match st
    case Begin(op) => s.(outstanding := s.outstanding + 1, writes := s.writes[op := {}])
    case Sleep(op) => s.(asleep := s.asleep + {op})
    case LogWrite(op, b) =>
      if b in s.lh then s else s.(lh := s.lh + [b], writes := s.writes[op := s.writes[op] + {b}])
    case End(op) =>
      if s.outstanding == 1 then s.(outstanding := 0, committing := true, writes := s.writes - {op})
      else s.(outstanding := s.outstanding - 1, writes := s.writes - {op}, asleep := {})
    case CommitDone => s.(lh := [], committing := false, asleep := {})
  }

  // ----- The space that open operations may still claim -----

  /** The blocks that the open operations may still append, all together. */
  ghost function Reserved(writes: map<nat, set<nat>>): (r: int)
    decreases |writes|
  {
    if writes == map[] then 0 else
      var op :| op in writes;
      assert (writes - {op}).Keys == writes.Keys - {op};
      MAXOPBLOCKS - |writes[op]| + Reserved(writes - {op})
  }

  /** The sum does not depend on the order in which operations are counted. */
  lemma {:induction false} ReservedWithout(writes: map<nat, set<nat>>, op: nat)
    requires op in writes
    ensures Reserved(writes) == MAXOPBLOCKS - |writes[op]| + Reserved(writes - {op})
    decreases |writes|
  {
    var p :| p in writes && Reserved(writes) == MAXOPBLOCKS - |writes[p]| + Reserved(writes - {p});
    if p != op {
      assert (writes - {p}).Keys == writes.Keys - {p};
      assert (writes - {op}).Keys == writes.Keys - {op};
      ReservedWithout(writes - {p}, op);
      ReservedWithout(writes - {op}, p);
      assert writes - {p} - {op} == writes - {op} - {p};
    }
  }

  lemma ReservedUpdate(writes: map<nat, set<nat>>, op: nat, w: set<nat>)
    ensures Reserved(writes[op := w]) ==
            MAXOPBLOCKS - |w| + Reserved(writes - {op})
  {
    ReservedWithout(writes[op := w], op);
    assert writes[op := w] - {op} == writes - {op};
  }

  lemma {:induction false} ReservedBounds(writes: map<nat, set<nat>>)
    requires forall op :: op in writes ==> |writes[op]| <= MAXOPBLOCKS
    ensures 0 <= Reserved(writes) <= |writes| * MAXOPBLOCKS
    decreases |writes|
  {
    if writes != map[] {
      var op :| op in writes;
      ReservedWithout(writes, op);
      assert (writes - {op}).Keys == writes.Keys - {op};
      ReservedBounds(writes - {op});
    }
  }

  // ----- The invariant -----

  /** The counter counts the open operations; the logged list has no repetition and contains what
      the open operations added; what is logged and what may still be logged fits in the log; the log
      does not commit while an operation is open; and nobody sleeps who could be admitted. */
  ghost predicate Inv(s: State) {
    && s.outstanding == |s.writes|
    && (forall i, j :: 0 <= i < j < |s.lh| ==> s.lh[i] != s.lh[j])
    && (forall op, b :: op in s.writes && b in s.writes[op] ==> b in s.lh)
    && (forall op :: op in s.writes ==> |s.writes[op]| <= MAXOPBLOCKS)
    && |s.lh| + Reserved(s.writes) <= LOGBLOCKS
    && (s.committing ==> s.writes == map[])
    && (s.asleep != {} ==> !Admits(s))
  }

  lemma InitInv(s: State)
    requires Init(s)
    ensures Inv(s)
  {
  }

  lemma BeginKeepsInv(s: State, op: nat)
    requires Inv(s) && Enabled(s, Begin(op))
    ensures Inv(Apply(s, Begin(op)))
  {
    var t := Apply(s, Begin(op));
    assert t.writes.Keys == s.writes.Keys + {op};
    ReservedUpdate(s.writes, op, {});
    assert s.writes - {op} == s.writes;
    ReservedBounds(s.writes);
  }

  lemma LogWriteKeepsInv(s: State, op: nat, b: nat)
    requires Inv(s) && Enabled(s, LogWrite(op, b)) && !Panics(s, LogWrite(op, b))
    ensures Inv(Apply(s, LogWrite(op, b)))
  {
    if b !in s.lh {
      var t := Apply(s, LogWrite(op, b));
      assert t.writes.Keys == s.writes.Keys;
      ReservedWithout(s.writes, op);
      ReservedUpdate(s.writes, op, s.writes[op] + {b});
      assert |s.writes[op] + {b}| == |s.writes[op]| + 1;
      forall p, c | p in t.writes && c in t.writes[p]
        ensures c in t.lh
      {
        assert c == b || c in s.writes[p];
      }
    }
  }

  lemma EndKeepsInv(s: State, op: nat)
    requires Inv(s) && Enabled(s, End(op)) && !Panics(s, End(op))
    ensures Inv(Apply(s, End(op)))
  {
    var t := Apply(s, End(op));
    assert t.writes.Keys == s.writes.Keys - {op};
    ReservedWithout(s.writes, op);
    if s.outstanding == 1 {
      assert |s.writes.Keys - {op}| == 0;
      assert t.writes == map[];
    }
  }

  lemma StepKeepsInv(s: State, st: Step)
    requires Inv(s) && Enabled(s, st) && !Panics(s, st)
    ensures Inv(Apply(s, st))
  {
    match st
    case Begin(op) => BeginKeepsInv(s, op);
    case LogWrite(op, b) => LogWriteKeepsInv(s, op, b);
    case End(op) => EndKeepsInv(s, op);
    case _ =>
  }

  // ----- Whole runs -----

  /** `ss` is a run that takes the steps `sts` from a fresh log without a panic. */
  ghost predicate IsRun(ss: seq<State>, sts: seq<Step>) {
    && |ss| == |sts| + 1
    && Init(ss[0])
    && forall i :: 0 <= i < |sts| ==>
         Enabled(ss[i], sts[i]) && !Panics(ss[i], sts[i]) && ss[i + 1] == Apply(ss[i], sts[i])
  }

  lemma {:induction false} RunInv(ss: seq<State>, sts: seq<Step>, i: nat)
    requires IsRun(ss, sts) && i < |ss|
    ensures Inv(ss[i])
  {
    if i == 0 {
      InitInv(ss[0]);
    } else {
      RunInv(ss, sts, i - 1);
      StepKeepsInv(ss[i - 1], sts[i - 1]);
    }
  }

  /** Neither `log_write` nor `end_op` meets a state it panics in, except when an absorbed block arrives at a log that
      is exactly full: an operation that adds a block it was budgeted for finds room. */
  lemma PanicsWhen(s: State, st: Step)
    requires Inv(s) && Enabled(s, st)
    ensures |s.lh| <= LOGBLOCKS
    ensures Panics(s, st) <==> st.LogWrite? && st.b in s.lh && |s.lh| == LOGBLOCKS
  {
    ReservedBounds(s.writes);
    if st.LogWrite? || st.End? {
      assert |s.writes.Keys - {st.op}| == |s.writes.Keys| - 1;
      if st.LogWrite? {
        ReservedWithout(s.writes, st.op);
        assert (s.writes - {st.op}).Keys == s.writes.Keys - {st.op};
        ReservedBounds(s.writes - {st.op});
      }
    }
  }

  /** So it is in every reachable state. */
  lemma AppendsFit(ss: seq<State>, sts: seq<Step>, i: nat, st: Step)
    requires IsRun(ss, sts) && i < |ss| && Enabled(ss[i], st)
    ensures |ss[i].lh| <= LOGBLOCKS
    ensures Panics(ss[i], st) <==> st.LogWrite? && st.b in ss[i].lh && |ss[i].lh| == LOGBLOCKS
  {
    RunInv(ss, sts, i);
    PanicsWhen(ss[i], st);
  }

  /** The logged set is frozen from the moment a commit starts until it is done. */
  lemma CommitSeesFrozenLog(ss: seq<State>, sts: seq<Step>, i: nat, st: Step)
    requires IsRun(ss, sts) && i < |ss| && ss[i].committing
    requires Enabled(ss[i], st) && !st.CommitDone?
    ensures st.Sleep? && Apply(ss[i], st).lh == ss[i].lh && Apply(ss[i], st).committing
  {
    RunInv(ss, sts, i);
  }

  /** Nobody sleeps in `begin_op` in a state that would admit an operation. */
  lemma NoLostWakeup(ss: seq<State>, sts: seq<Step>, i: nat)
    requires IsRun(ss, sts) && i < |ss| && Admits(ss[i])
    ensures ss[i].asleep == {}
  {
    RunInv(ss, sts, i);
  }

  // ----- The full log -----

  lemma TakeStep(ss: seq<State>, sts: seq<Step>, st: Step) returns (ss': seq<State>, sts': seq<Step>)
    requires IsRun(ss, sts)
    requires Enabled(ss[|sts|], st) && !Panics(ss[|sts|], st)
    ensures IsRun(ss', sts') && |sts'| == |sts| + 1 && ss'[|sts'|] == Apply(ss[|sts|], st)
  {
    ss', sts' := ss + [Apply(ss[|sts|], st)], sts + [st];
  }

  /** An open operation can log `n` blocks that nobody has logged yet. */
  lemma {:induction false} LogFresh(ss: seq<State>, sts: seq<Step>, op: nat, n: nat)
    returns (ss': seq<State>, sts': seq<Step>)
    requires IsRun(ss, sts)
    requires var s := ss[|sts|]; op in s.writes && |s.writes[op]| + n <= MAXOPBLOCKS
    requires var s := ss[|sts|]; |s.lh| + n <= LOGBLOCKS && forall b :: b in s.lh ==> b < |s.lh|
    ensures IsRun(ss', sts')
    ensures var s, t := ss[|sts|], ss'[|sts'|];
            && |t.lh| == |s.lh| + n && (forall b :: b in t.lh ==> b < |t.lh|)
            && t.writes.Keys == s.writes.Keys
            && (forall p :: p in s.writes && p != op ==> t.writes[p] == s.writes[p])
            && |t.writes[op]| == |s.writes[op]| + n
    decreases n
  {
    RunInv(ss, sts, |sts|);
    var s := ss[|sts|];
    if n == 0 {
      return ss, sts;
    }
    var st := LogWrite(op, |s.lh|);
    AppendsFit(ss, sts, |sts|, st);
    ss', sts' := TakeStep(ss, sts, st);
    ss', sts' := LogFresh(ss', sts', op, n - 1);
  }

  lemma OpenThree() returns (ss: seq<State>, sts: seq<Step>)
    ensures IsRun(ss, sts)
    ensures ss[|sts|] == State([], 3, false, map[0 := {}, 1 := {}, 2 := {}], {})
  {
    ss, sts := [State([], 0, false, map[], {})], [];
    ss, sts := TakeStep(ss, sts, Begin(0));
    ss, sts := TakeStep(ss, sts, Begin(1));
    ss, sts := TakeStep(ss, sts, Begin(2));
  }

  /** The exception in `AppendsFit` is real: three operations that stay within their budgets fill
      the log, and then a repeated write of an already logged block panics. */
  lemma AbsorptionCanPanic() returns (ss: seq<State>, sts: seq<Step>, st: Step)
    ensures IsRun(ss, sts) && Enabled(ss[|sts|], st)
    ensures st.LogWrite? && st.b in ss[|sts|].writes[st.op] && Panics(ss[|sts|], st)
  {
    ss, sts := OpenThree();
    ss, sts := LogFresh(ss, sts, 0, MAXOPBLOCKS);
    ss, sts := LogFresh(ss, sts, 1, MAXOPBLOCKS);
    ss, sts := LogFresh(ss, sts, 2, MAXOPBLOCKS);
    var s := ss[|sts|];
    var b :| b in s.writes[2];
    st := LogWrite(2, b);
    RunInv(ss, sts, |sts|);
  }

  // ----- A refusal is needed -----

  /** Another operation is let in whatever the counters say. */
  function LetIn(s: State, op: nat): (t: State) {
    s.(outstanding := s.outstanding + 1, writes := s.writes[op := {}])
  }

  /** From `s` on, operations log blocks within their budgets. */
  ghost predicate LogsOn(s: State, ss: seq<State>, sts: seq<Step>) {
    && |ss| == |sts| + 1 && ss[0] == s
    && forall i :: 0 <= i < |sts| ==>
         sts[i].LogWrite? && Enabled(ss[i], sts[i]) && !Panics(ss[i], sts[i]) && ss[i + 1] == Apply(ss[i], sts[i])
  }

  /** Operations that stay within their budgets can come to a full log in which the next block of one of them panics. */
  ghost predicate Overflows(s: State) {
    exists ss: seq<State>, sts: seq<Step>, st: Step :: LogsOn(s, ss, sts) && FindsFull(ss[|sts|], st)
  }

  /** An operation within its budget has a new block to log, and panics. */
  predicate FindsFull(s: State, st: Step) {
    st.LogWrite? && Enabled(s, st) && st.b !in s.lh && Panics(s, st)
  }

  lemma OverflowsLater(s: State, st: Step)
    requires st.LogWrite? && Enabled(s, st) && !Panics(s, st) && Overflows(Apply(s, st))
    ensures Overflows(s)
  {
    var ss: seq<State>, sts: seq<Step>, last: Step :| LogsOn(Apply(s, st), ss, sts) && FindsFull(ss[|sts|], last);
    var ss', sts' := [s] + ss, [st] + sts;
    assert ss'[|sts'|] == ss[|sts|];
    assert LogsOn(s, ss', sts');
  }

  /** An operation with budget left. */
  lemma {:induction false} SomeBudget(writes: map<nat, set<nat>>) returns (op: nat)
    requires Reserved(writes) > 0
    ensures op in writes && |writes[op]| < MAXOPBLOCKS
    decreases |writes|
  {
    op :| op in writes;
    if |writes[op]| >= MAXOPBLOCKS {
      ReservedWithout(writes, op);
      assert (writes - {op}).Keys == writes.Keys - {op};
      op := SomeBudget(writes - {op});
    }
  }

  /** The log has less room than the open operations may claim. */
  ghost predicate Overbooked(s: State) {
    && s.outstanding >= 1 && |s.lh| <= LOGBLOCKS < |s.lh| + Reserved(s.writes)
    && (forall b :: b in s.lh ==> b < |s.lh|) && forall op :: op in s.writes ==> s.writes[op] <= Elements(s.lh)
  }

  function Elements(lh: seq<nat>): (r: set<nat>)
    ensures forall b :: b in r <==> b in lh
  {
    set b | b in lh
  }

  /** Then it can overflow. */
  lemma {:induction false} OverbookedOverflows(s: State)
    requires Overbooked(s)
    ensures Overflows(s)
    decreases LOGBLOCKS - |s.lh|
  {
    var op := SomeBudget(s.writes);
    var st := LogWrite(op, |s.lh|);
    if |s.lh| == LOGBLOCKS {
      assert LogsOn(s, [s], []) && FindsFull(s, st);
    } else {
      var t := Apply(s, st);
      ReservedWithout(s.writes, op);
      ReservedUpdate(s.writes, op, s.writes[op] + {|s.lh|});
      assert |s.lh| !in s.writes[op];
      OverbookedOverflows(t);
      OverflowsLater(s, st);
    }
  }

  /** Reachable states: how many operations can be open, and that a log that is not committed is not left alone. */
  lemma {:induction false} FewOpen(ss: seq<State>, sts: seq<Step>, i: nat)
    requires IsRun(ss, sts) && i < |ss|
    ensures ss[i].outstanding <= 3 && (ss[i].outstanding == 0 && !ss[i].committing ==> ss[i].lh == [])
  {
    if i > 0 {
      FewOpen(ss, sts, i - 1);
      RunInv(ss, sts, i - 1);
      FewMore(ss[i - 1], sts[i - 1]);
    }
  }

  lemma FewMore(s: State, st: Step)
    requires Enabled(s, st) && !Panics(s, st) && s.outstanding <= 3
    requires s.outstanding == 0 && !s.committing ==> s.lh == []
    requires s.outstanding == |s.writes|
    ensures var t := Apply(s, st); t.outstanding <= 3 && (t.outstanding == 0 && !t.committing ==> t.lh == [])
  {
  }

  /** The counters that `begin_op` looks at. */
  predicate SameCounters(s: State, t: State) {
    |s.lh| == |t.lh| && s.outstanding == t.outstanding && s.committing == t.committing
  }

  /** A run to a state with `k` operations open that may still log `left` blocks, after `n` have been logged. */
  ghost predicate Reaches(ss: seq<State>, sts: seq<Step>, n: nat, k: nat, left: int) {
    && IsRun(ss, sts)
    && (var s := ss[|sts|];
        && |s.lh| == n && s.outstanding == k && !s.committing && Reserved(s.writes) == left
        && forall b :: b in s.lh ==> b < |s.lh|)
  }

  /** Another operation begins. */
  lemma OneBegins(ss: seq<State>, sts: seq<Step>, n: nat, k: nat, left: int, op: nat)
    returns (ss': seq<State>, sts': seq<Step>)
    requires Reaches(ss, sts, n, k, left) && op !in ss[|sts|].writes && ss[|sts|].asleep == {}
    requires n + (k + 1) * MAXOPBLOCKS <= LOGBLOCKS
    ensures Reaches(ss', sts', n, k + 1, left + MAXOPBLOCKS)
    ensures ss'[|sts'|] == LetIn(ss[|sts|], op)
  {
    var s := ss[|sts|];
    ss', sts' := TakeStep(ss, sts, Begin(op));
    ReservedUpdate(s.writes, op, {});
    assert s.writes - {op} == s.writes;
  }

  /** An operation begins, logs `m` blocks and ends, while another is open. */
  lemma OnePasses(ss: seq<State>, sts: seq<Step>, n: nat, k: nat, left: int, op: nat, m: nat)
    returns (ss': seq<State>, sts': seq<Step>)
    requires Reaches(ss, sts, n, k, left) && op !in ss[|sts|].writes && ss[|sts|].asleep == {} && k >= 1
    requires n + (k + 1) * MAXOPBLOCKS <= LOGBLOCKS && m <= MAXOPBLOCKS
    ensures Reaches(ss', sts', n + m, k, left)
    ensures ss'[|sts'|].asleep == {} && ss'[|sts'|].writes == ss[|sts|].writes
  {
    var s := ss[|sts|];
    ss', sts' := OneBegins(ss, sts, n, k, left, op);
    ss', sts' := LogFresh(ss', sts', op, m);
    RunInv(ss', sts', |sts'|);
    var t := ss'[|sts'|];
    assert t.outstanding == |t.writes| == |t.writes.Keys| == |s.writes.Keys + {op}|;
    RunInv(ss, sts, |sts|);
    var st := End(op);
    PanicsWhen(t, st);
    ss', sts' := TakeStep(ss', sts', st);
    assert t.writes - {op} == s.writes;
  }

  /** Open operation `op` logs `m` blocks. */
  lemma OneLogs(ss: seq<State>, sts: seq<Step>, n: nat, k: nat, left: int, op: nat, m: nat)
    returns (ss': seq<State>, sts': seq<Step>)
    requires Reaches(ss, sts, n, k, left) && op in ss[|sts|].writes
    requires |ss[|sts|].writes[op]| + m <= MAXOPBLOCKS && n + m <= LOGBLOCKS
    ensures Reaches(ss', sts', n + m, k, left - m)
    ensures ss'[|sts'|].writes.Keys == ss[|sts|].writes.Keys
    ensures forall p :: p in ss[|sts|].writes && p != op ==> ss'[|sts'|].writes[p] == ss[|sts|].writes[p]
  {
    var s := ss[|sts|];
    ss', sts' := LogFresh(ss, sts, op, m);
    RunInv(ss', sts', |sts'|);
    RunInv(ss, sts, |sts|);
    var t := ss'[|sts'|];
    ReservedWithout(s.writes, op);
    ReservedWithout(t.writes, op);
    assert t.writes - {op} == s.writes - {op};
  }

  /** The most that `k` open operations can still claim when `n` blocks are logged. */
  function MostClaimed(n: nat, k: nat): (left: int) {
    if n + k * MAXOPBLOCKS <= LOGBLOCKS then k * MAXOPBLOCKS else LOGBLOCKS - n
  }

  function AtMost(n: int, m: nat): (r: int) {
    if n <= m then n else m
  }

  lemma OneOpen() returns (ss: seq<State>, sts: seq<Step>)
    ensures Reaches(ss, sts, 0, 1, MAXOPBLOCKS) && ss[|sts|] == State([], 1, false, map[0 := {}], {})
  {
    ss, sts := [State([], 0, false, map[], {})], [];
    ss, sts := OneBegins(ss, sts, 0, 0, 0, 0);
  }

  /** One operation stays open and does nothing while others log blocks and end. */
  lemma WorstOfOne(n: nat) returns (ss: seq<State>, sts: seq<Step>)
    requires n <= LOGBLOCKS
    ensures Reaches(ss, sts, n, 1, MostClaimed(n, 1)) && ss[|sts|].writes.Keys == {0}
  {
    hide Reaches, IsRun;
    var a := AtMost(n, MAXOPBLOCKS);
    var b := AtMost(n - a, MAXOPBLOCKS);
    ss, sts := OneOpen();
    RunLength(ss, sts, 0, 1, MAXOPBLOCKS);
    ss, sts := OnePasses(ss, sts, 0, 1, MAXOPBLOCKS, 1, a);
    RunLength(ss, sts, a, 1, MAXOPBLOCKS);
    ss, sts := OnePasses(ss, sts, a, 1, MAXOPBLOCKS, 2, b);
    RunLength(ss, sts, a + b, 1, MAXOPBLOCKS);
    ss, sts := OneLogs(ss, sts, a + b, 1, MAXOPBLOCKS, 0, n - a - b);
  }

  lemma RunLength(ss: seq<State>, sts: seq<Step>, n: nat, k: nat, left: int)
    requires Reaches(ss, sts, n, k, left)
    ensures |ss| == |sts| + 1
  {
  }

  lemma WorstOfTwo(n: nat) returns (ss: seq<State>, sts: seq<Step>)
    requires n <= LOGBLOCKS
    ensures Reaches(ss, sts, n, 2, MostClaimed(n, 2)) && ss[|sts|].writes.Keys == {0, 3}
  {
    hide Reaches, IsRun;
    var m := MAXOPBLOCKS;
    var a := AtMost(n, m);
    var b := AtMost(n - a, m);
    ss, sts := OneOpen();
    RunLength(ss, sts, 0, 1, m);
    ss, sts := OnePasses(ss, sts, 0, 1, m, 1, a);
    RunLength(ss, sts, a, 1, m);
    ss, sts := OneBegins(ss, sts, a, 1, m, 3);
    RunLength(ss, sts, a, 2, m + m);
    ss, sts := OneLogs(ss, sts, a, 2, m + m, 0, b);
    RunLength(ss, sts, a + b, 2, m + m - b);
    ss, sts := OneLogs(ss, sts, a + b, 2, m + m - b, 3, n - a - b);
    RunLength(ss, sts, n, 2, m + m - (n - a));
    assert ss[|sts|].writes.Keys == {0, 3};
  }

  lemma WorstOfThree(n: nat) returns (ss: seq<State>, sts: seq<Step>)
    requires n <= LOGBLOCKS
    ensures Reaches(ss, sts, n, 3, MostClaimed(n, 3)) && ss[|sts|].writes.Keys == {0, 1, 2}
  {
    hide Reaches, IsRun;
    var m := MAXOPBLOCKS;
    var a := AtMost(n, m);
    var b := AtMost(n - a, m);
    ss, sts := OneOpen();
    RunLength(ss, sts, 0, 1, m);
    ss, sts := OneBegins(ss, sts, 0, 1, m, 1);
    RunLength(ss, sts, 0, 2, m + m);
    ss, sts := OneBegins(ss, sts, 0, 2, m + m, 2);
    RunLength(ss, sts, 0, 3, m + m + m);
    ss, sts := OneLogs(ss, sts, 0, 3, m + m + m, 0, a);
    RunLength(ss, sts, a, 3, m + m + m - a);
    ss, sts := OneLogs(ss, sts, a, 3, m + m + m - a, 1, b);
    RunLength(ss, sts, a + b, 3, m + m + m - a - b);
    ss, sts := OneLogs(ss, sts, a + b, 3, m + m + m - a - b, 2, n - a - b);
    RunLength(ss, sts, n, 3, m + m + m - n);
    assert ss[|sts|].writes.Keys == {0, 1, 2};
  }

  /** Letting one more in where `begin_op` refuses overbooks the log in the worst case. */
  lemma WorstOverflows(ss: seq<State>, sts: seq<Step>, n: nat, k: nat, op: nat)
    requires Reaches(ss, sts, n, k, MostClaimed(n, k)) && n <= LOGBLOCKS < n + (k + 1) * MAXOPBLOCKS
    requires op !in ss[|sts|].writes
    ensures Overflows(LetIn(ss[|sts|], op))
  {
    RunInv(ss, sts, |sts|);
    var s := ss[|sts|];
    var t := LetIn(s, op);
    ReservedUpdate(s.writes, op, {});
    assert s.writes - {op} == s.writes;
    OverbookedOverflows(t);
  }

  /** Whenever `begin_op` makes an operation wait while nothing commits, that is needed: there is a run to a state in
      which it sees the same counters, and letting one more operation in there can overflow the log although all
      operations stay within their budgets. */
  lemma RefusalNeeded(ss: seq<State>, sts: seq<Step>, i: nat) returns (ss': seq<State>, sts': seq<Step>)
    requires IsRun(ss, sts) && i < |ss| && !ss[i].committing && !Admits(ss[i])
    ensures IsRun(ss', sts') && SameCounters(ss[i], ss'[|sts'|])
    ensures 9 !in ss'[|sts'|].writes && Overflows(LetIn(ss'[|sts'|], 9))
  {
    FewOpen(ss, sts, i);
    RunInv(ss, sts, i);
    ReservedBounds(ss[i].writes);
    var n, k := |ss[i].lh|, ss[i].outstanding;
    hide Overflows, Reserved, Inv;
    if k == 1 {
      ss', sts' := WorstOfOne(n);
    } else if k == 2 {
      ss', sts' := WorstOfTwo(n);
    } else {
      ss', sts' := WorstOfThree(n);
    }
    WorstOverflows(ss', sts', n, k, 9);
  }
}
