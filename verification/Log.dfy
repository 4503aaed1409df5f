/** The redo log of the file system: a transaction is copied to the log region, sealed by one
    write of the header block, installed at the home locations and erased.

    The disk is a sequence of blocks. A block is a sequence of words, because the log only ever
    looks at words (the header) or at whole blocks. Every `bwrite` is one atomic step, and the
    machine may stop between any two of them. */
module Log {
  import opened Params
  import A = LogAdmission

  type Block = b: seq<nat> | |b| == BLOCK_WORDS witness seq(BLOCK_WORDS, _ => 0)
  type Disk = seq<Block>

  // ----- The on-disk format -----

  /** Block `b` belongs to the log region: the header block or one of the LOGBLOCKS log blocks. */
  predicate IsLog(start: nat, b: nat) {
    start <= b <= start + LOGBLOCKS
  }

  /** The log region lies on the disk. */
  predicate Fits(d: Disk, start: nat) {
    start + LOGBLOCKS < |d|
  }

  function Elements(bs: seq<nat>): (r: set<nat>)
    ensures forall b :: b in r <==> b in bs
  {
    set b | b in bs
  }

  /** `bs` can stand in a header: not too long, and every entry is a home block. */
  predicate GoodList(d: Disk, start: nat, bs: seq<nat>) {
    && |bs| <= LOGBLOCKS
    && forall i :: 0 <= i < |bs| ==> bs[i] < |d| && !IsLog(start, bs[i])
  }

  /** The block numbers listed in a header block. */
  function Listed(h: Block): (bs: seq<nat>)
    requires h[0] <= LOGBLOCKS
    ensures |bs| == h[0]
  {
    h[1..1 + h[0]]
  }

  /** A disk on which recovery can run: its header lists home blocks only. */
  predicate GoodDisk(d: Disk, start: nat) {
    && Fits(d, start)
    && d[start][0] <= LOGBLOCKS
    && GoodList(d, start, Listed(d[start]))
  }

  /** The header block `h` after `bs` has been stored in it: words past the list keep their value. */
  function PutHead(h: Block, bs: seq<nat>): (r: Block)
    requires |bs| <= LOGBLOCKS
    ensures r[0] == |bs| && Listed(r) == bs
  {
    [|bs|] + bs + h[1 + |bs|..]
  }

  // ----- What the write sequences of recovery and commit leave on the disk -----

  /** The disk after the first `k` blocks of `bs` have been installed from the log. */
  function Installed(d: Disk, start: nat, bs: seq<nat>, k: nat): (r: Disk)
    requires Fits(d, start) && GoodList(d, start, bs) && k <= |bs|
    ensures |r| == |d|
    ensures forall b :: 0 <= b < |d| && IsLog(start, b) ==> r[b] == d[b]
  {
    if k == 0 then d else Installed(d, start, bs, k - 1)[bs[k - 1] := d[start + k]]
  }

  /** The disk after the first `k` writes of a recovery that starts from `d`. */
  function RecoveryDisk(d: Disk, start: nat, k: nat): (r: Disk)
    requires GoodDisk(d, start) && k <= d[start][0] + 1
    ensures |r| == |d|
  {
    var bs := Listed(d[start]);
    if k <= |bs| then Installed(d, start, bs, k)
    else Installed(d, start, bs, |bs|)[start := PutHead(d[start], [])]
  }

  /** The disk after a complete recovery. */
  function Recovered(d: Disk, start: nat): (r: Disk)
    requires GoodDisk(d, start)
    ensures |r| == |d|
  {
    RecoveryDisk(d, start, d[start][0] + 1)
  }

  /** The disk after the first `k` blocks of `bs` have been copied from the cache to the log. */
  function Logged(d: Disk, start: nat, bs: seq<nat>, cache: map<nat, Block>, k: nat): (r: Disk)
    requires Fits(d, start) && |bs| <= LOGBLOCKS && k <= |bs|
    requires forall b :: b in bs ==> b in cache
    ensures |r| == |d|
    ensures forall b :: 0 <= b < |d| && !(start < b <= start + k) ==> r[b] == d[b]
    ensures forall i :: 0 <= i < k ==> r[start + 1 + i] == cache[bs[i]]
  {
    if k == 0 then d else Logged(d, start, bs, cache, k - 1)[start + k := cache[bs[k - 1]]]
  }

  /** The disk right after the header write that commits `bs`. */
  function Sealed(d: Disk, start: nat, bs: seq<nat>, cache: map<nat, Block>): (r: Disk)
    requires Fits(d, start) && GoodList(d, start, bs)
    requires forall b :: b in bs ==> b in cache
    ensures |r| == |d| && GoodDisk(r, start) && Listed(r[start]) == bs
  {
    var w := Logged(d, start, bs, cache, |bs|);
    w[start := PutHead(w[start], bs)]
  }

  /** The disk after the first `k` writes of a commit of `bs` that starts from `d`. */
  function CommitDisk(d: Disk, start: nat, bs: seq<nat>, cache: map<nat, Block>, k: nat): (r: Disk)
    requires Fits(d, start) && GoodList(d, start, bs)
    requires forall b :: b in bs ==> b in cache
    requires k <= 2 * |bs| + 2
    ensures |r| == |d|
  {
    if k <= |bs| then Logged(d, start, bs, cache, k)
    else RecoveryDisk(Sealed(d, start, bs, cache), start, k - |bs| - 1)
  }

  /** The disks exposed by the first `k` writes of each phase, in order. */
  ghost function LoggedTrace(d: Disk, start: nat, bs: seq<nat>, cache: map<nat, Block>, k: nat): (t: seq<Disk>)
    requires Fits(d, start) && |bs| <= LOGBLOCKS && k <= |bs|
    requires forall b :: b in bs ==> b in cache
  {
    seq(k, i requires 0 <= i < k => Logged(d, start, bs, cache, i + 1))
  }

  ghost function InstalledTrace(d: Disk, start: nat, bs: seq<nat>, k: nat): (t: seq<Disk>)
    requires Fits(d, start) && GoodList(d, start, bs) && k <= |bs|
  {
    seq(k, i requires 0 <= i < k => Installed(d, start, bs, i + 1))
  }

  /** The disks exposed by a whole commit: the log copies, the sealing header, the home copies and
      the cleared header. */
  ghost function CommitTrace(d: Disk, start: nat, bs: seq<nat>, cache: map<nat, Block>): (t: seq<Disk>)
    requires Fits(d, start) && GoodList(d, start, bs)
    requires forall b :: b in bs ==> b in cache
  {
    var s := Sealed(d, start, bs, cache);
    LoggedTrace(d, start, bs, cache, |bs|) + [s] + InstalledTrace(s, start, bs, |bs|) + [Recovered(s, start)]
  }

  /** The disks exposed by a whole recovery. */
  ghost function RecoveryTrace(d: Disk, start: nat): (t: seq<Disk>)
    requires GoodDisk(d, start)
  {
    InstalledTrace(d, start, Listed(d[start]), d[start][0]) + [Recovered(d, start)]
  }

  /** The i-th disk exposed by a commit is the disk after its first i + 1 writes. */
  lemma CommitTraceAt(d: Disk, start: nat, bs: seq<nat>, cache: map<nat, Block>, i: nat)
    requires Fits(d, start) && GoodList(d, start, bs)
    requires forall b :: b in bs ==> b in cache
    requires i < 2 * |bs| + 2
    ensures |CommitTrace(d, start, bs, cache)| == 2 * |bs| + 2
    ensures CommitTrace(d, start, bs, cache)[i] == CommitDisk(d, start, bs, cache, i + 1)
  {
    hide Sealed, Logged;
    var n, s := |bs|, Sealed(d, start, bs, cache);
    var t := LoggedTrace(d, start, bs, cache, n) + [s];
    var u := InstalledTrace(s, start, bs, n);
    assert CommitTrace(d, start, bs, cache) == t + u + [Recovered(s, start)];
    if i > n && i <= 2 * n {
      assert (t + u)[i] == u[i - n - 1];
    } else if i == n {
      assert t[n] == s;
    }
  }

  /** The i-th disk exposed by a recovery is the disk after its first i + 1 writes. */
  lemma RecoveryTraceAt(d: Disk, start: nat, i: nat)
    requires GoodDisk(d, start) && i <= d[start][0]
    ensures |RecoveryTrace(d, start)| == d[start][0] + 1
    ensures RecoveryTrace(d, start)[i] == RecoveryDisk(d, start, i + 1)
  {
    var u := InstalledTrace(d, start, Listed(d[start]), d[start][0]);
    assert i < |u| ==> RecoveryTrace(d, start)[i] == u[i];
  }

  // ----- Recovery -----

  /** The last position below `n` at which `b` is listed, or -1. */
  function LastAt(bs: seq<nat>, n: nat, b: nat): (i: int)
    requires n <= |bs|
    ensures -1 <= i < n
    ensures i >= 0 ==> bs[i] == b
    ensures forall j :: i < j < n ==> bs[j] != b
  {
    if n == 0 then -1 else if bs[n - 1] == b then n - 1 else LastAt(bs, n - 1, b)
  }

  /** Installing gives every listed block the log copy at its last position, and no other block
      changes. */
  lemma {:induction false} InstalledAt(d: Disk, start: nat, bs: seq<nat>, k: nat, b: nat)
    requires Fits(d, start) && GoodList(d, start, bs) && k <= |bs| && b < |d|
    ensures Installed(d, start, bs, k)[b] ==
            (if LastAt(bs, k, b) >= 0 then d[start + 1 + LastAt(bs, k, b)] else d[b])
  {
    if k > 0 { InstalledAt(d, start, bs, k - 1, b); }
  }

  /** An installation that is interrupted and started again ends where an uninterrupted one ends. */
  lemma InstalledAgain(d: Disk, start: nat, bs: seq<nat>, k: nat)
    requires Fits(d, start) && GoodList(d, start, bs) && k <= |bs|
    ensures Installed(Installed(d, start, bs, k), start, bs, |bs|) == Installed(d, start, bs, |bs|)
  {
    var e := Installed(d, start, bs, k);
    forall b | 0 <= b < |d|
      ensures Installed(e, start, bs, |bs|)[b] == Installed(d, start, bs, |bs|)[b]
    {
      InstalledAt(e, start, bs, |bs|, b);
      InstalledAt(d, start, bs, |bs|, b);
      InstalledAt(d, start, bs, k, b);
    }
  }

  /** A crash anywhere inside recovery leaves a good disk that recovers to the same disk. */
  lemma RecoveryRestarts(d: Disk, start: nat, k: nat)
    requires GoodDisk(d, start) && k <= d[start][0] + 1
    ensures GoodDisk(RecoveryDisk(d, start, k), start)
    ensures Recovered(RecoveryDisk(d, start, k), start) == Recovered(d, start)
  {
    var bs := Listed(d[start]);
    if k <= |bs| {
      InstalledAgain(d, start, bs, k);
    } else {
      var r := Recovered(d, start);
      assert Listed(r[start]) == [];
      assert PutHead(r[start], []) == r[start];
    }
  }

  /** Recovery changes nothing on a recovered disk. */
  lemma RecoveryIdempotent(d: Disk, start: nat)
    requires GoodDisk(d, start)
    ensures GoodDisk(Recovered(d, start), start)
    ensures Recovered(Recovered(d, start), start) == Recovered(d, start) && Recovered(d, start)[start][0] == 0
  {
    RecoveryRestarts(d, start, d[start][0] + 1);
  }

  /** The disk after a series of recoveries, the i-th of which the machine stops after at most
      `stops[i]` writes. */
  function Interrupted(d: Disk, start: nat, stops: seq<nat>): (r: Disk)
    requires GoodDisk(d, start)
    ensures GoodDisk(r, start) && |r| == |d|
    decreases |stops|
  {
    if stops == [] then d else
      var k := if stops[0] <= d[start][0] + 1 then stops[0] else d[start][0] + 1;
      RecoveryRestarts(d, start, k);
      Interrupted(RecoveryDisk(d, start, k), start, stops[1..])
  }

  /** However often recovery itself is interrupted, the recovery that finishes reaches the disk
      that an uninterrupted recovery would have reached. */
  lemma {:induction false} RecoverySurvivesCrashes(d: Disk, start: nat, stops: seq<nat>)
    requires GoodDisk(d, start)
    ensures Recovered(Interrupted(d, start, stops), start) == Recovered(d, start)
    decreases |stops|
  {
    if stops != [] {
      var k := if stops[0] <= d[start][0] + 1 then stops[0] else d[start][0] + 1;
      RecoveryRestarts(d, start, k);
      RecoverySurvivesCrashes(RecoveryDisk(d, start, k), start, stops[1..]);
    }
  }

  // ----- Commit -----

  /** The disk holds no committed transaction. */
  predicate Quiet(d: Disk, start: nat) {
    GoodDisk(d, start) && d[start][0] == 0
  }

  /** Two disks agree on every home block. */
  ghost predicate SameHome(d: Disk, e: Disk, start: nat) {
    && |d| == |e|
    && forall b :: 0 <= b < |d| && !IsLog(start, b) ==> d[b] == e[b]
  }

  /** The plain effect of a transaction: every listed block takes its cached contents. */
  function Applied(d: Disk, bs: seq<nat>, cache: map<nat, Block>): (r: Disk)
    requires forall b :: b in bs ==> b in cache
    ensures |r| == |d|
  {
    seq(|d|, b requires 0 <= b < |d| => if b in bs then cache[b] else d[b])
  }

  lemma SealedRecoversAt(d: Disk, start: nat, bs: seq<nat>, cache: map<nat, Block>, b: nat)
    requires Fits(d, start) && GoodList(d, start, bs)
    requires forall c :: c in bs ==> c in cache
    requires b < |d| && !IsLog(start, b)
    ensures Recovered(Sealed(d, start, bs, cache), start)[b] == if b in bs then cache[b] else d[b]
  {
    hide Logged, Installed, LastAt;
    var s, i := Sealed(d, start, bs, cache), LastAt(bs, |bs|, b);
    InstalledAt(s, start, bs, |bs|, b);
    if i >= 0 {
      assert s[start + 1 + i] == cache[bs[i]];
    } else {
      assert b !in bs && s[b] == d[b];
    }
    assert Recovered(s, start)[b] == Installed(s, start, bs, |bs|)[b];
  }

  /** Once the header is written, recovery yields exactly the transaction's effect. */
  lemma SealedRecovers(d: Disk, start: nat, bs: seq<nat>, cache: map<nat, Block>)
    requires Fits(d, start) && GoodList(d, start, bs)
    requires forall b :: b in bs ==> b in cache
    ensures SameHome(Recovered(Sealed(d, start, bs, cache), start), Applied(d, bs, cache), start)
    ensures Quiet(Recovered(Sealed(d, start, bs, cache), start), start)
  {
    var s := Sealed(d, start, bs, cache);
    forall b | 0 <= b < |d| && !IsLog(start, b)
      ensures Recovered(s, start)[b] == Applied(d, bs, cache)[b]
    {
      SealedRecoversAt(d, start, bs, cache, b);
    }
    RecoveryIdempotent(s, start);
  }

  /** Stop a commit before its header is written: recovery leaves every home block as before the transaction. */
  lemma CommitStopsEarly(d: Disk, start: nat, bs: seq<nat>, cache: map<nat, Block>, k: nat)
    requires Quiet(d, start) && GoodList(d, start, bs)
    requires forall b :: b in bs ==> b in cache
    requires k <= |bs|
    ensures GoodDisk(CommitDisk(d, start, bs, cache, k), start)
    ensures SameHome(Recovered(CommitDisk(d, start, bs, cache, k), start), d, start)
  {
    hide Logged;
    var c := Logged(d, start, bs, cache, k);
    assert c[start] == d[start] && Listed(c[start]) == [];
    assert Recovered(c, start) == c[start := PutHead(c[start], [])];
  }

  /** Stop it later: recovery leaves every home block as in the transaction. */
  lemma CommitStopsLate(d: Disk, start: nat, bs: seq<nat>, cache: map<nat, Block>, k: nat)
    requires Quiet(d, start) && GoodList(d, start, bs)
    requires forall b :: b in bs ==> b in cache
    requires |bs| < k <= 2 * |bs| + 2
    ensures GoodDisk(CommitDisk(d, start, bs, cache, k), start)
    ensures SameHome(Recovered(CommitDisk(d, start, bs, cache, k), start), Applied(d, bs, cache), start)
  {
    hide Sealed, RecoveryDisk, Recovered, SameHome, Applied;
    RecoveryRestarts(Sealed(d, start, bs, cache), start, k - |bs| - 1);
    SealedRecovers(d, start, bs, cache);
  }

  /** Crash atomicity: stop a commit after any number `k` of its block writes, interrupt recovery
      any number of times, and the recovery that finishes leaves every home block as before the
      transaction (header not yet written) or every home block as in the transaction. */
  lemma CommitIsAtomic(d: Disk, start: nat, bs: seq<nat>, cache: map<nat, Block>, k: nat, stops: seq<nat>)
    requires Quiet(d, start) && GoodList(d, start, bs)
    requires forall b :: b in bs ==> b in cache
    requires k <= 2 * |bs| + 2
    ensures GoodDisk(CommitDisk(d, start, bs, cache, k), start)
    ensures var r := Recovered(Interrupted(CommitDisk(d, start, bs, cache, k), start, stops), start);
            Quiet(r, start) && SameHome(r, if k <= |bs| then d else Applied(d, bs, cache), start)
  {
    hide CommitDisk, Recovered, Interrupted, SameHome, Applied;
    var c := CommitDisk(d, start, bs, cache, k);
    if k <= |bs| {
      CommitStopsEarly(d, start, bs, cache, k);
    } else {
      CommitStopsLate(d, start, bs, cache, k);
    }
    RecoverySurvivesCrashes(c, start, stops);
    RecoveryIdempotent(c, start);
  }

  /** A commit that is not interrupted ends like one that crashes at its very end. */
  lemma CommitCompletes(d: Disk, start: nat, bs: seq<nat>, cache: map<nat, Block>)
    requires Fits(d, start) && GoodList(d, start, bs)
    requires forall b :: b in bs ==> b in cache
    ensures var r := CommitDisk(d, start, bs, cache, 2 * |bs| + 2);
            Quiet(r, start) && SameHome(r, Applied(d, bs, cache), start)
  {
    SealedRecovers(d, start, bs, cache);
  }

  /** When exactly the logged blocks are pinned, a reader of the cache before the commit and a
      reader of the disk after it see the same home blocks. */
  lemma CommitViews(d: Disk, start: nat, bs: seq<nat>, cache: map<nat, Block>)
    requires Fits(d, start) && GoodList(d, start, bs)
    requires cache.Keys == Elements(bs)
    ensures var r := Recovered(Sealed(d, start, bs, cache), start);
            && Quiet(r, start)
            && (forall b :: 0 <= b < |d| && !IsLog(start, b) ==>
                  r[b] == if b in cache then cache[b] else d[b])
  {
    SealedRecovers(d, start, bs, cache);
  }

  // ----- Whole runs -----

  /** One round of the file system's life. `Finished` is a transaction whose commit ran to its end.
      `Crashed` is one that the machine abandoned after `k` block writes of its commit, followed by
      interrupted recoveries and one that finished. */
  datatype Round =
    | Finished(bs: seq<nat>, cache: map<nat, Block>)
    | Crashed(bs: seq<nat>, cache: map<nat, Block>, k: nat, stops: seq<nat>)

  predicate GoodRound(size: nat, start: nat, r: Round) {
    && |r.bs| <= LOGBLOCKS
    && (forall i :: 0 <= i < |r.bs| ==> r.bs[i] < size && !IsLog(start, r.bs[i]))
    && (forall b :: b in r.bs ==> b in r.cache)
    && (r.Crashed? ==> r.k <= if r.bs == [] then 0 else 2 * |r.bs| + 2)
  }

  /** The disk that a round leaves. */
  function RoundDisk(d: Disk, start: nat, r: Round): (e: Disk)
    requires Quiet(d, start) && GoodRound(|d|, start, r)
    ensures Quiet(e, start) && |e| == |d|
  {
    match r
    case Finished(bs, cache) =>
      CommitCompletes(d, start, bs, cache);
      if bs == [] then d else CommitDisk(d, start, bs, cache, 2 * |bs| + 2)
    case Crashed(bs, cache, k, stops) =>
      CommitIsAtomic(d, start, bs, cache, k, stops);
      Recovered(Interrupted(CommitDisk(d, start, bs, cache, k), start, stops), start)
  }

  function RunDisk(d: Disk, start: nat, rs: seq<Round>): (e: Disk)
    requires Quiet(d, start) && forall i :: 0 <= i < |rs| ==> GoodRound(|d|, start, rs[i])
    ensures Quiet(e, start) && |e| == |d|
    decreases |rs|
  {
    if rs == [] then d else RunDisk(RoundDisk(d, start, rs[0]), start, rs[1..])
  }

  /** The specification of a round: it takes effect as a whole or not at all, and it takes effect
      exactly when its header write was reached. */
  function RoundSpec(d: Disk, r: Round): (e: Disk)
    requires forall b :: b in r.bs ==> b in r.cache
    ensures |e| == |d|
  {
    if r.Crashed? && r.k <= |r.bs| then d else Applied(d, r.bs, r.cache)
  }

  function SpecRun(d: Disk, rs: seq<Round>): (e: Disk)
    requires forall i :: 0 <= i < |rs| ==> forall b :: b in rs[i].bs ==> b in rs[i].cache
    ensures |e| == |d|
    decreases |rs|
  {
    if rs == [] then d else SpecRun(RoundSpec(d, rs[0]), rs[1..])
  }

  lemma RoundRefinesSpec(d: Disk, e: Disk, start: nat, r: Round)
    requires Quiet(d, start) && GoodRound(|d|, start, r) && SameHome(d, e, start)
    ensures SameHome(RoundDisk(d, start, r), RoundSpec(e, r), start)
  {
    if r.Crashed? {
      CommitIsAtomic(d, start, r.bs, r.cache, r.k, r.stops);
    } else {
      CommitCompletes(d, start, r.bs, r.cache);
    }
  }

  /** Over every run of finished and crashed transactions, the home blocks are those of the
      all-or-nothing specification. */
  lemma {:induction false} RunRefinesSpec(d: Disk, e: Disk, start: nat, rs: seq<Round>)
    requires Quiet(d, start) && forall i :: 0 <= i < |rs| ==> GoodRound(|d|, start, rs[i])
    requires SameHome(d, e, start)
    ensures SameHome(RunDisk(d, start, rs), SpecRun(e, rs), start)
    decreases |rs|
  {
    if rs != [] {
      RoundRefinesSpec(d, e, start, rs[0]);
      RunRefinesSpec(RoundDisk(d, start, rs[0]), RoundSpec(e, rs[0]), start, rs[1..]);
    }
  }

  // ----- The log as the kernel runs it -----

  /** The in-memory log above a disk. `cache` holds the pinned buffers: the blocks logged by the
      current transaction with their newest contents. `trace` records the disk after each `bwrite`,
      that is, every state a crash can expose. */
  class FileLog {
    const start: nat
    var disk: Disk
    var cache: map<nat, Block>
    var lh: seq<nat>
    var outstanding: nat
    var committing: bool
    ghost var trace: seq<Disk>
    /** The blocks each open operation has added, and who sleeps in `begin_op`. */
    ghost var writes: map<nat, set<nat>>
    ghost var asleep: set<nat>

    /** The log as the operations see it. */
    ghost function Shared(): (s: A.State)
      reads this
    {
      A.State(lh, outstanding, committing, writes, asleep)
    }

    /** The invariant between commits: the disk is quiet, exactly the logged blocks are pinned, and the open operations
        keep to the rules of admission. */
    ghost predicate Valid()
      reads this
    {
      Quietly() && A.Inv(Shared())
    }

    ghost predicate Quietly()
      reads this`disk, this`lh, this`cache
    {
      && Quiet(disk, start)
      && GoodList(disk, start, lh)
      && (forall i, j :: 0 <= i < j < |lh| ==> lh[i] != lh[j])
      && cache.Keys == Elements(lh)
    }

    /** The contents of home block `b` as every reader sees them. */
    function View(b: nat): (data: Block)
      requires b < |disk|
      reads this
    {
      if b in cache then cache[b] else disk[b]
    }

    /** Mount: the in-memory log starts empty above any disk that recovery can handle. */
    constructor (start: nat, disk: Disk)
      requires GoodDisk(disk, start)
      ensures this.start == start && this.disk == disk && lh == [] && cache == map[] && trace == []
      ensures Shared() == A.State([], 0, false, map[], {})
    {
      this.start := start;
      this.disk := disk;
      this.cache := map[];
      this.lh := [];
      this.outstanding, this.committing := 0, false;
      this.trace, this.writes, this.asleep := [], map[], {};
    }

    /** One atomic disk write. */
    method Bwrite(b: nat, data: Block)
      requires b < |disk|
      modifies this`disk, this`trace
      ensures disk == old(disk)[b := data] && trace == old(trace) + [disk]
    {
      disk := disk[b := data];
      trace := trace + [disk];
    }

    /** One try of operation `op` to enter. It enters exactly when the log has room for one more whole operation and
        does not commit, and otherwise sleeps. */
    method BeginOp(ghost op: nat) returns (entered: bool)
      requires Valid() && op !in writes && op !in asleep
      modifies this`outstanding, this`writes, this`asleep
      ensures Valid() && entered == A.Admits(old(Shared()))
      ensures Shared() == A.Apply(old(Shared()), if entered then A.Begin(op) else A.Sleep(op))
    {
      hide A.Inv, Quietly;
      if committing || |lh| + (outstanding + 1) * MAXOPBLOCKS > LOGBLOCKS {
        A.StepKeepsInv(Shared(), A.Sleep(op));
        asleep := asleep + {op};
        return false;
      }
      A.StepKeepsInv(Shared(), A.Begin(op));
      outstanding := outstanding + 1;
      writes := writes[op := {}];
      entered := true;
    }

    /** Operation `op` records a modified buffer. The source panics, and here nothing changes, when the log is full or
        no operation is open. An operation within its budget only meets that when its block is absorbed. */
    method LogWrite(ghost op: nat, b: nat, data: Block) returns (ok: bool)
      requires Valid() && b < |disk| && !IsLog(start, b)
      requires A.Enabled(Shared(), A.LogWrite(op, b)) || A.Panics(Shared(), A.LogWrite(op, b))
      modifies this`lh, this`cache, this`writes
      ensures Valid() && ok == !A.Panics(old(Shared()), A.LogWrite(op, b))
      ensures !ok ==> unchanged(this) && (A.Enabled(Shared(), A.LogWrite(op, b)) ==> b in lh && |lh| == LOGBLOCKS)
      ensures ok ==> Shared() == A.Apply(old(Shared()), A.LogWrite(op, b))
      ensures ok ==> forall c :: 0 <= c < |disk| ==> View(c) == if c == b then data else old(View(c))
    {
      hide A.Inv, Quietly;
      if |lh| >= LOGBLOCKS || outstanding < 1 {
        if A.Enabled(Shared(), A.LogWrite(op, b)) {
          A.PanicsWhen(Shared(), A.LogWrite(op, b));
        }
        return false;
      }
      A.StepKeepsInv(Shared(), A.LogWrite(op, b));
      writes := if b in lh then writes else writes[op := writes[op] + {b}];
      Record(b, data);
      ok := true;
    }

    /** List a block in the header unless it is listed, and keep its new contents. */
    method Record(b: nat, data: Block)
      requires Quietly() && b < |disk| && !IsLog(start, b) && |lh| < LOGBLOCKS
      modifies this`lh, this`cache
      ensures Quietly() && lh == if b in old(lh) then old(lh) else old(lh) + [b]
      ensures forall c :: 0 <= c < |disk| ==> View(c) == if c == b then data else old(View(c))
    {
      var i := 0;
      while i < |lh| && lh[i] != b
        invariant i <= |lh| && b !in lh[..i]
      {
        i := i + 1;
      }
      if i == |lh| {
        lh := lh + [b];
        assert Elements(lh) == Elements(old(lh)) + {b};
      } else {
        lh := lh[i := b];
        assert lh == old(lh);
      }
      cache := cache[b := data];
    }

    /** Operation `op` ends. The last one starts the commit; the others wake the sleepers. */
    method EndOp(ghost op: nat) returns (last: bool)
      requires Valid() && op in writes
      modifies this`outstanding, this`committing, this`writes, this`asleep
      ensures Valid() && last == (old(outstanding) == 1) == committing
      ensures !A.Panics(old(Shared()), A.End(op)) && Shared() == A.Apply(old(Shared()), A.End(op))
    {
      hide A.Inv, Quietly;
      A.PanicsWhen(Shared(), A.End(op));
      A.StepKeepsInv(Shared(), A.End(op));
      outstanding := outstanding - 1;
      writes := writes - {op};
      last := outstanding == 0;
      if last {
        committing := true;
      } else {
        asleep := {};
      }
    }

    /** The commit that the last operation started, to its end. */
    method CommitOp()
      requires Valid() && committing
      modifies this`disk, this`trace, this`cache, this`lh, this`committing, this`asleep
      ensures Valid() && |disk| == |old(disk)| && Shared() == A.Apply(old(Shared()), A.CommitDone)
      ensures forall b :: 0 <= b < |disk| && !IsLog(start, b) ==> View(b) == disk[b] == old(View(b))
      ensures old(lh) == [] ==> trace == old(trace)
      ensures old(lh) != [] ==> trace == old(trace) + CommitTrace(old(disk), start, old(lh), old(cache))
    {
      hide A.Inv, Quietly, CommitTrace;
      A.StepKeepsInv(Shared(), A.CommitDone);
      Commit();
      committing := false;
      asleep := {};
    }

    /** Copy the logged blocks from the cache to the log region. */
    method WriteLog()
      requires Fits(disk, start) && GoodList(disk, start, lh)
      requires forall b :: b in lh ==> b in cache
      modifies this`disk, this`trace
      ensures disk == Logged(old(disk), start, lh, cache, |lh|)
      ensures trace == old(trace) + LoggedTrace(old(disk), start, lh, cache, |lh|)
    {
      var tail := 0;
      while tail < |lh|
        invariant 0 <= tail <= |lh|
        invariant disk == Logged(old(disk), start, lh, cache, tail)
        invariant trace == old(trace) + LoggedTrace(old(disk), start, lh, cache, tail)
      {
        Bwrite(start + tail + 1, cache[lh[tail]]);
        tail := tail + 1;
      }
    }

    /** Store the in-memory header in the header block. */
    method WriteHead()
      requires Fits(disk, start) && |lh| <= LOGBLOCKS
      modifies this`disk, this`trace
      ensures disk == old(disk)[start := PutHead(old(disk)[start], lh)]
      ensures trace == old(trace) + [disk]
    {
      var hb: Block := disk[start][0 := |lh|];
      var i := 0;
      while i < |lh|
        invariant 0 <= i <= |lh|
        invariant hb[0] == |lh| && forall j :: 0 <= j < i ==> hb[1 + j] == lh[j]
        invariant forall j :: 1 + i <= j < BLOCK_WORDS ==> hb[j] == disk[start][j]
      {
        hb := hb[1 + i := lh[i]];
        i := i + 1;
      }
      assert hb == PutHead(disk[start], lh);
      Bwrite(start, hb);
    }

    /** Load the header block into memory. */
    method ReadHead()
      requires GoodDisk(disk, start)
      modifies this`lh
      ensures lh == Listed(disk[start])
    {
      var h := disk[start];
      lh := [];
      for i := 0 to h[0]
        invariant lh == h[1..1 + i]
      {
        lh := lh + [h[1 + i]];
      }
    }

    /** Copy the listed blocks from the log to their home locations. Outside recovery each of them
        is unpinned. */
    method InstallTrans(recovering: bool)
      requires Fits(disk, start) && GoodList(disk, start, lh)
      modifies this`disk, this`trace, this`cache
      ensures disk == Installed(old(disk), start, lh, |lh|)
      ensures trace == old(trace) + InstalledTrace(old(disk), start, lh, |lh|)
      ensures cache == if recovering then old(cache) else old(cache) - Elements(lh)
    {
      var tail := 0;
      while tail < |lh|
        invariant 0 <= tail <= |lh|
        invariant disk == Installed(old(disk), start, lh, tail)
        invariant trace == old(trace) + InstalledTrace(old(disk), start, lh, tail)
        invariant cache == if recovering then old(cache) else old(cache) - Elements(lh[..tail])
      {
        Bwrite(lh[tail], disk[start + tail + 1]);
        if !recovering {
          cache := cache - {lh[tail]};
          assert Elements(lh[..tail + 1]) == Elements(lh[..tail]) + {lh[tail]};
        }
        tail := tail + 1;
      }
      assert lh[..tail] == lh;
    }

    /** The block writes of a commit that has something to commit. */
    method CommitWrites()
      requires Fits(disk, start) && GoodList(disk, start, lh)
      requires forall b :: b in lh ==> b in cache
      modifies this`disk, this`trace, this`cache, this`lh
      ensures lh == [] && cache == old(cache) - Elements(old(lh))
      ensures disk == Recovered(Sealed(old(disk), start, old(lh), old(cache)), start)
      ensures trace == old(trace) + CommitTrace(old(disk), start, old(lh), old(cache))
    {
      hide Logged, Installed, LoggedTrace, InstalledTrace;
      ghost var d, bs, dirty := disk, lh, cache;
      ghost var logged := LoggedTrace(d, start, bs, dirty, |bs|);
      WriteLog();
      WriteHead();
      ghost var sealed := disk;
      assert sealed == Sealed(d, start, bs, dirty);
      ghost var installed := InstalledTrace(sealed, start, bs, |bs|);
      InstallTrans(false);
      lh := [];
      WriteHead();
      assert trace == old(trace) + (logged + [sealed] + installed + [disk]);
    }

    /** Commit the current transaction. Readers see the same home blocks before and after, nothing
        stays pinned, and the disks exposed to a crash are those of `CommitDisk`, in order. */
    method Commit()
      requires Quietly()
      modifies this`disk, this`trace, this`cache, this`lh
      ensures Quietly() && lh == [] && |disk| == |old(disk)|
      ensures forall b :: 0 <= b < |disk| && !IsLog(start, b) ==> View(b) == disk[b] == old(View(b))
      ensures old(lh) == [] ==> trace == old(trace)
      ensures old(lh) != [] ==> trace == old(trace) + CommitTrace(old(disk), start, old(lh), old(cache))
    {
      if |lh| > 0 {
        hide CommitTrace, Sealed, Recovered;
        CommitViews(disk, start, lh, cache);
        CommitWrites();
        assert cache == map[];
      }
    }

    /** Recover after a crash. The disks exposed to a further crash are those of `RecoveryDisk`. */
    method RecoverFromLog()
      requires GoodDisk(disk, start) && cache == map[] && A.Init(Shared())
      modifies this`disk, this`trace, this`lh, this`cache
      ensures Valid() && A.Init(Shared())
      ensures disk == Recovered(old(disk), start)
      ensures trace == old(trace) + RecoveryTrace(old(disk), start)
    {
      RecoveryIdempotent(disk, start);
      ReadHead();
      InstallTrans(true);
      lh := [];
      WriteHead();
    }
  }
}
