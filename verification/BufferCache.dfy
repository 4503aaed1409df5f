/** The buffer cache: a fixed set of buffers on a circular, doubly linked list in order of use, each holding a copy of a
    disk block. The nodes of the list are the buffers 0 .. NBUF - 1 and the list head NBUF. Buffers that hold logged
    blocks are pinned by an extra reference until the log has written them home. */
module BufferCache {
  import opened Params
  import opened Sequences

  const HEAD := NBUF

  type Block = seq<int>
  datatype Key = Key(dev: int, blockno: int)
  datatype Buf = Buf(key: Key, valid: bool, refcnt: int, data: Block)

  const EMPTY := Buf(Key(0, 0), false, 0, [])

  // ----- The list -----

  /** The node at position `k` of the list; the head comes before the first and after the last. */
  function At(order: seq<int>, k: int): (b: int) {
    if 0 <= k < |order| then order[k] else HEAD
  }

  function After(order: seq<int>, k: int): (b: int) {
    At(order, k + 1)
  }

  ghost predicate Nodes(order: seq<int>) {
    && (forall k :: 0 <= k < |order| ==> 0 <= order[k] < NBUF)
    && (forall j, k :: 0 <= j < k < |order| ==> order[j] != order[k])
  }

  /** `next` and `prev` are the circle through `order` and the head. */
  ghost predicate Linked(order: seq<int>, next: seq<int>, prev: seq<int>) {
    && |next| == |prev| == NBUF + 1 && Nodes(order)
    && forall k {:trigger After(order, k)} :: -1 <= k < |order| ==>
        next[At(order, k)] == After(order, k) && prev[After(order, k)] == At(order, k)
  }

  /** The list is a permutation of all buffers. */
  ghost predicate Permutation(order: seq<int>) {
    Nodes(order) && |order| == NBUF
  }

  lemma Unlinked(order: seq<int>, next: seq<int>, prev: seq<int>, j: int, next': seq<int>, prev': seq<int>)
    requires Linked(order, next, prev) && 0 <= j < |order|
    requires 0 <= next[order[j]] <= NBUF && 0 <= prev[order[j]] <= NBUF
    requires prev' == prev[next[order[j]] := prev[order[j]]] && next' == next[prev[order[j]] := next[order[j]]]
    ensures Linked(Without(order, j), next', prev')
  {
    var b, r := order[j], Without(order, j);
    assert After(order, j - 1) == b && After(order, j) == next[b] && prev[b] == At(order, j - 1);
    forall k | -1 <= k < |r|
      ensures next'[At(r, k)] == After(r, k) && prev'[After(r, k)] == At(r, k)
    {
      assert After(order, k) == At(order, k + 1) && After(order, k + 1) == At(order, k + 2);
    }
  }

  lemma PushedFront(order: seq<int>, next: seq<int>, prev: seq<int>, b: int, next': seq<int>, prev': seq<int>)
    requires Linked(order, next, prev) && 0 <= b < NBUF && b !in order && 0 <= next[HEAD] <= NBUF
    requires next' == next[b := next[HEAD]][HEAD := b] && prev' == prev[b := HEAD][next[HEAD] := b]
    ensures Linked([b] + order, next', prev')
  {
    var r := [b] + order;
    assert After(order, -1) == next[HEAD];
    forall k | -1 <= k < |r|
      ensures next'[At(r, k)] == After(r, k) && prev'[After(r, k)] == At(r, k)
    {
      assert k >= 0 ==> After(order, k - 1) == After(r, k);
    }
  }

  /** Distinct buffers, and as many as there are: every buffer is on the list. */
  lemma {:induction false} OnList(order: seq<int>, b: int)
    requires Permutation(order) && 0 <= b < NBUF
    ensures b in order
  {
    if b !in order {
      Crowded(order + [b], NBUF);
    }
  }

  // ----- The contents -----

  /** Every buffer behind position `pos` of the list, and none at it, is in use. */
  ghost predicate LastUnused(bufs: seq<Buf>, order: seq<int>, pos: int) {
    && |bufs| == NBUF && Nodes(order) && 0 <= pos < |order| && bufs[order[pos]].refcnt == 0
    && forall p :: pos < p < |order| ==> bufs[order[p]].refcnt > 0
  }

  /** At most one buffer holds any block of a device other than 0. */
  ghost predicate Unique(bufs: seq<Buf>) {
    forall i, j :: 0 <= i < j < |bufs| && bufs[i].key.dev != 0 ==> bufs[i].key != bufs[j].key
  }

  /** Buffer `i` holds block `k` and is in use. */
  predicate Holds(bufs: seq<Buf>, i: int, k: Key) {
    0 <= i < |bufs| && bufs[i].key == k && bufs[i].valid && bufs[i].refcnt > 0
  }

  /** A buffer has block `k`. */
  ghost predicate Cached(bufs: seq<Buf>, k: Key) {
    exists i :: 0 <= i < |bufs| && bufs[i].key == k
  }

  /** Every buffer has the same block as before. */
  ghost predicate SameKeys(bufs: seq<Buf>, bufs': seq<Buf>) {
    |bufs'| == |bufs| && forall i :: 0 <= i < |bufs| ==> bufs'[i].key == bufs[i].key
  }

  /** Every buffer has the same block as before, or `k`. */
  ghost predicate SameKeysBut(bufs: seq<Buf>, bufs': seq<Buf>, k: Key) {
    |bufs'| == |bufs| && forall i :: 0 <= i < |bufs| ==> bufs'[i].key == bufs[i].key || bufs'[i].key == k
  }

  /** Buffer `i` has the contents `d` of block `k`. */
  predicate Reads(bufs: seq<Buf>, i: int, k: Key, d: Block) {
    Has(bufs, i, k) && bufs[i].data == d
  }

  /** A buffer has the contents of block `k`. */
  predicate Has(bufs: seq<Buf>, i: int, k: Key) {
    0 <= i < |bufs| && bufs[i].key == k && bufs[i].valid
  }

  /** What a block reads as: the contents of the buffer that has it, if one does, and otherwise what is on the disk. */
  ghost predicate Coherent(bufs: seq<Buf>, disk: map<Key, Block>, current: map<Key, Block>) {
    && current.Keys == disk.Keys
    && (forall i :: 0 <= i < |bufs| && bufs[i].valid ==>
          bufs[i].key.dev != 0 && bufs[i].key in current && bufs[i].data == current[bufs[i].key])
    && (forall k :: k in disk && disk[k] != current[k] ==> exists i :: Has(bufs, i, k))
  }

  /** What blocks read as after buffer `buf` has been given to another block: its block reads as on the disk. */
  ghost function Forgotten(buf: Buf, disk: map<Key, Block>, current: map<Key, Block>): (r: map<Key, Block>) {
    if buf.valid && buf.key in disk then current[buf.key := disk[buf.key]] else current
  }

  // ----- When a reader gets what was last written -----

  /** What is on the disk, what every block reads as, what was last written to it, the blocks listed in the log, and the
      stray ones: changed since they were last logged or written to the disk. */
  datatype State = State(disk: map<Key, Block>, current: map<Key, Block>, newest: map<Key, Block>, logged: seq<Key>,
                         stray: set<Key>)

  /** A user changes a block or hands it to the log, its buffer is written to the disk, the log is done with it, or its
      buffer is given to another block. */
  datatype Event = Changes(k: Key, d: Block) | Logs(k: Key) | WritesHome(k: Key) | Unlogs(k: Key) | Recycles(k: Key)

  /** The log drops its first block when that is home, and keeps the buffers of its blocks. */
  predicate Allowed(s: State, e: Event) {
    && e.k in s.disk && e.k in s.current && e.k in s.newest
    && (e.Unlogs? ==> s.logged != [] && s.logged[0] == e.k && s.disk[e.k] == s.current[e.k])
    && (e.Recycles? ==> e.k !in s.logged)
  }

  /** The stray blocks once block `k`, as it reads, is logged or home. */
  function Settled(s: State, k: Key): (r: set<Key>)
    requires k in s.current && k in s.newest
  {
    if s.current[k] == s.newest[k] then s.stray - {k} else s.stray
  }

  function Happened(s: State, e: Event): (r: State)
    requires Allowed(s, e)
  {
    match e
    case Changes(k, d) =>
      s.(current := s.current[k := d], newest := s.newest[k := d],
         stray := if k in s.logged then s.stray - {k} else s.stray + {k})
    case Logs(k) => s.(logged := if k in s.logged then s.logged else s.logged + [k], stray := Settled(s, k))
    case WritesHome(k) => s.(disk := s.disk[k := s.current[k]], stray := Settled(s, k))
    case Unlogs(k) => s.(logged := s.logged[1..])
    case Recycles(k) => s.(current := s.current[k := s.disk[k]])
  }

  /** A block that is not stray reads as last written, and is listed in the log or on the disk. */
  ghost predicate Fresh(s: State) {
    && s.disk.Keys == s.current.Keys == s.newest.Keys
    && forall k :: k in s.disk && k !in s.stray ==>
         s.current[k] == s.newest[k] && (k in s.logged || s.disk[k] == s.current[k])
  }

  lemma FreshAt(s: State, k: Key)
    requires Fresh(s) && k in s.disk
    ensures k in s.current && k in s.newest && (k !in s.stray ==> s.current[k] == s.newest[k])
  {
  }

  /** Every event keeps that. */
  lemma FreshStep(s: State, e: Event)
    requires Fresh(s) && Allowed(s, e)
    ensures Fresh(Happened(s, e))
  {
    var r := Happened(s, e);
    assert r.disk.Keys == s.disk.Keys && r.current.Keys == s.current.Keys && r.newest.Keys == s.newest.Keys;
    forall k | k in r.disk && k !in r.stray
      ensures r.current[k] == r.newest[k] && (k in r.logged || r.disk[k] == r.current[k])
    {
      if e.Unlogs? && k in s.logged && k != e.k {
        var t :| 0 <= t < |s.logged| && s.logged[t] == k;
        assert s.logged[1..][t - 1] == k;
      }
    }
  }

  ghost predicate Run(ss: seq<State>, es: seq<Event>) {
    && |ss| == |es| + 1
    && forall i :: 0 <= i < |es| ==> Allowed(ss[i], es[i]) && ss[i + 1] == Happened(ss[i], es[i])
  }

  /** Block `k` is logged or written to the disk. */
  predicate Saves(e: Event, k: Key) {
    e == Logs(k) || e == WritesHome(k)
  }

  predicate ChangesTo(e: Event, k: Key) {
    e.Changes? && e.k == k
  }

  /** Between a change of block `k` and the next time that its buffer is given away, it is logged or written to the
      disk. */
  ghost predicate AlwaysSaved(es: seq<Event>, k: Key) {
    forall i, j :: 0 <= i < j < |es| && ChangesTo(es[i], k) && es[j] == Recycles(k) ==>
      exists m :: i < m < j && Saves(es[m], k)
  }

  /** The last change of block `k` in the first `n` events has not been logged or written to the disk since. */
  ghost predicate Unsaved(es: seq<Event>, k: Key, n: nat) {
    exists i :: 0 <= i < n && i < |es| && ChangesTo(es[i], k) && forall m :: i < m < n && m < |es| ==> !Saves(es[m], k)
  }

  lemma UnsavedStep(es: seq<Event>, k: Key, n: nat)
    requires n < |es|
    ensures ChangesTo(es[n], k) ==> Unsaved(es, k, n + 1)
    ensures Unsaved(es, k, n) && !Saves(es[n], k) ==> Unsaved(es, k, n + 1)
    ensures Unsaved(es, k, n) && es[n] == Recycles(k) ==> !AlwaysSaved(es, k)
  {
    if Unsaved(es, k, n) && !Saves(es[n], k) {
      var i :| 0 <= i < n && ChangesTo(es[i], k) && forall m :: i < m < n && m < |es| ==> !Saves(es[m], k);
      assert forall m :: i < m < n + 1 && m < |es| ==> !Saves(es[m], k);
    }
  }

  /** Block `k` reads as last written, and is listed in the log, on the disk, or not yet saved. */
  predicate Settles(s: State, k: Key, unsaved: bool) {
    && k in s.disk && k in s.current && k in s.newest && s.current[k] == s.newest[k]
    && (k in s.logged || s.disk[k] == s.current[k] || unsaved)
  }

  lemma SettlesStep(s: State, e: Event, k: Key, unsaved: bool, unsaved': bool)
    requires Settles(s, k, unsaved) && Allowed(s, e)
    requires (ChangesTo(e, k) ==> unsaved') && (unsaved && !Saves(e, k) ==> unsaved') && (e == Recycles(k) ==> !unsaved)
    ensures Settles(Happened(s, e), k, unsaved')
  {
    if e.Unlogs? && k in s.logged && k != e.k {
      var t :| 0 <= t < |s.logged| && s.logged[t] == k;
      assert s.logged[1..][t - 1] == k;
    }
  }

  /** In every run from a state in which block `k` is not stray, it reads as last written at all times if between every
      change and the next recycling of its buffer it is logged or written to the disk. The rest is the log's doing: a
      listed block keeps its buffer until it is home. */
  lemma {:induction false} SavedReadsNewest(ss: seq<State>, es: seq<Event>, k: Key, n: nat)
    requires Run(ss, es) && Fresh(ss[0]) && k in ss[0].disk && k !in ss[0].stray && AlwaysSaved(es, k) && n <= |es|
    ensures k in ss[n].current && k in ss[n].newest && ss[n].current[k] == ss[n].newest[k]
    ensures Settles(ss[n], k, Unsaved(es, k, n))
  {
    if n > 0 {
      SavedReadsNewest(ss, es, k, n - 1);
      UnsavedStep(es, k, n - 1);
      hide AlwaysSaved, Unsaved, Fresh;
      SettlesStep(ss[n - 1], es[n - 1], k, Unsaved(es, k, n - 1), Unsaved(es, k, n));
    }
  }

  /** Whenever the buffer of `k` was given away in the first `n` events, the disk had `d`. */
  ghost predicate NeverLost(ss: seq<State>, es: seq<Event>, k: Key, d: Block, n: nat) {
    forall i :: 0 <= i < n && i < |es| && i < |ss| && es[i] == Recycles(k) ==> k in ss[i].disk && ss[i].disk[k] == d
  }

  /** What became of the last write `d` to block `k`: it is read, or what is read is on the disk. */
  lemma {:induction false} LastWrite(ss: seq<State>, es: seq<Event>, k: Key, d: Block, n: nat)
    requires Run(ss, es) && n <= |es| && k in ss[0].disk && k in ss[0].current && ss[0].current[k] == d
    requires k in ss[0].newest && ss[0].newest[k] == d
    requires forall i :: 0 <= i < |es| ==> !ChangesTo(es[i], k)
    ensures k in ss[n].disk && k in ss[n].current && k in ss[n].newest && ss[n].newest[k] == d
    ensures NeverLost(ss, es, k, d, n) ==> ss[n].current[k] == d
    ensures !NeverLost(ss, es, k, d, n) ==> ss[n].current[k] == ss[n].disk[k] != d
  {
    if n > 0 {
      LastWrite(ss, es, k, d, n - 1);
      assert ss[n] == Happened(ss[n - 1], es[n - 1]);
      if NeverLost(ss, es, k, d, n - 1) && es[n - 1] != Recycles(k) {
        assert NeverLost(ss, es, k, d, n);
      }
    }
  }

  /** After any events that do not change block `k` again, a reader gets what was last written to it exactly when,
      whenever its buffer was given to another block, that was on the disk. */
  lemma ReadsNewest(ss: seq<State>, es: seq<Event>, k: Key)
    requires Run(ss, es) && k in ss[0].disk && k in ss[0].current && k in ss[0].newest
    requires ss[0].current[k] == ss[0].newest[k] && forall i :: 0 <= i < |es| ==> !ChangesTo(es[i], k)
    ensures k in ss[|es|].current && k in ss[|es|].newest
    ensures ss[|es|].current[k] == ss[|es|].newest[k] <==>
            forall i :: 0 <= i < |es| && es[i] == Recycles(k) ==> ss[i].disk[k] == ss[0].newest[k]
  {
    LastWrite(ss, es, k, ss[0].newest[k], |es|);
    forall i | 0 <= i < |es|
      ensures k in ss[i].disk
    {
      LastWrite(ss, es, k, ss[0].newest[k], i);
    }
  }

  /** Block `k` is listed in the log, or reads as on the disk. */
  predicate Safe(logged: seq<Key>, disk: map<Key, Block>, current: map<Key, Block>, k: Key) {
    k in disk && k in current && (k in logged || disk[k] == current[k])
  }

  /** Safe blocks read as before. */
  ghost predicate Kept(logged: seq<Key>, disk: map<Key, Block>, current: map<Key, Block>, current': map<Key, Block>) {
    current'.Keys == current.Keys && forall k :: Safe(logged, disk, current, k) ==> current'[k] == current[k]
  }

  /** The references to a buffer are those of its users and its pins. */
  ghost predicate Counted(bufs: seq<Buf>, users: seq<int>, pins: seq<int>) {
    && |bufs| == |users| == |pins| == NBUF
    && (forall i :: 0 <= i < NBUF ==> users[i] >= 0 && pins[i] >= 0 && bufs[i].refcnt == users[i] + pins[i])
    && (forall i :: 0 <= i < NBUF && bufs[i].refcnt > 0 ==> bufs[i].key.dev != 0)
  }

  /** Every logged block is in a pinned buffer, and the log is the only one to pin buffers. */
  ghost predicate Pinned(bufs: seq<Buf>, pins: seq<int>, logged: seq<Key>) {
    && |bufs| == |pins|
    && (forall s, t :: 0 <= s < t < |logged| ==> logged[s] != logged[t])
    && (forall i :: 0 <= i < |bufs| ==> pins[i] == if bufs[i].key in logged then 1 else 0)
    && (forall k :: k in logged ==> exists i :: Holds(bufs, i, k))
  }

  /** A buffer is free to be given to another block. */
  ghost predicate Room(users: seq<int>, pins: seq<int>) {
    exists i :: 0 <= i < |users| && i < |pins| && users[i] + pins[i] == 0
  }

  ghost predicate NoUsers(users: seq<int>) {
    forall i :: 0 <= i < |users| ==> users[i] == 0
  }

  /** Setting a buffer up for another block. */
  lemma Recycled(bufs: seq<Buf>, disk: map<Key, Block>, current: map<Key, Block>, b: int, k: Key, bufs': seq<Buf>)
    requires Unique(bufs) && Coherent(bufs, disk, current)
    requires 0 <= b < |bufs| && forall i :: 0 <= i < |bufs| ==> bufs[i].key != k
    requires bufs' == bufs[b := Buf(k, false, 1, bufs[b].data)]
    ensures Unique(bufs') && Coherent(bufs', disk, Forgotten(bufs[b], disk, current))
  {
    var current' := Forgotten(bufs[b], disk, current);
    forall q | q in disk && disk[q] != current'[q]
      ensures exists i :: Has(bufs', i, q)
    {
      var i :| Has(bufs, i, q);
      assert Has(bufs', i, q);
    }
  }

  /** A block that is logged is never the one recycled. */
  lemma PinnedRecycled(bufs: seq<Buf>, pins: seq<int>, logged: seq<Key>, b: int, k: Key, bufs': seq<Buf>)
    requires Pinned(bufs, pins, logged) && 0 <= b < |bufs| && bufs[b].refcnt == 0 && pins[b] == 0
    requires forall i :: 0 <= i < |bufs| ==> bufs[i].key != k
    requires bufs' == bufs[b := Buf(k, false, 1, bufs[b].data)]
    ensures Pinned(bufs', pins, logged) && bufs[b].key !in logged
  {
    forall q | q in logged
      ensures q != k && exists i :: Holds(bufs', i, q)
    {
      var i :| Holds(bufs, i, q);
      assert Holds(bufs', i, q);
    }
  }

  /** Changing the count of references to `b`. */
  lemma Recounted(bufs: seq<Buf>, disk: map<Key, Block>, current: map<Key, Block>, b: int, n: int, bufs': seq<Buf>)
    requires Unique(bufs) && Coherent(bufs, disk, current) && 0 <= b < |bufs|
    requires bufs' == bufs[b := bufs[b].(refcnt := n)]
    ensures Unique(bufs') && Coherent(bufs', disk, current)
  {
    forall q | q in disk && disk[q] != current[q]
      ensures exists i :: Has(bufs', i, q)
    {
      var i :| Has(bufs, i, q);
      assert Has(bufs', i, q);
    }
  }

  /** Changes to a buffer that keep its block and keep it in use, if it is pinned. */
  lemma PinnedKept(bufs: seq<Buf>, pins: seq<int>, logged: seq<Key>, b: int, bufs': seq<Buf>)
    requires Pinned(bufs, pins, logged) && 0 <= b < |bufs| == |bufs'|
    requires forall i :: 0 <= i < |bufs| && i != b ==> bufs'[i] == bufs[i]
    requires bufs'[b].key == bufs[b].key && (bufs[b].valid ==> bufs'[b].valid)
    requires pins[b] > 0 ==> bufs'[b].refcnt > 0
    ensures Pinned(bufs', pins, logged)
  {
    forall k | k in logged
      ensures exists i :: Holds(bufs', i, k)
    {
      var i :| Holds(bufs, i, k);
      assert Holds(bufs', i, k);
    }
  }

  /** A block enters the log. */
  lemma PinnedMore(bufs: seq<Buf>, pins: seq<int>, logged: seq<Key>, b: int, bufs': seq<Buf>, pins': seq<int>,
                   logged': seq<Key>)
    requires Pinned(bufs, pins, logged) && Unique(bufs) && 0 <= b < |bufs| && bufs[b].key.dev != 0 &&
             bufs[b].key !in logged
    requires bufs[b].valid && bufs[b].refcnt > 0 && bufs' == bufs[b := bufs[b].(refcnt := bufs[b].refcnt + 1)]
    requires pins' == pins[b := pins[b] + 1] && logged' == logged + [bufs[b].key]
    ensures Pinned(bufs', pins', logged')
  {
    forall k | k in logged'
      ensures exists i :: Holds(bufs', i, k)
    {
      if k in logged {
        var i :| Holds(bufs, i, k);
        assert Holds(bufs', i, k);
      } else {
        assert Holds(bufs', b, k);
      }
    }
  }

  /** A block leaves the log. */
  lemma PinnedLess(bufs: seq<Buf>, pins: seq<int>, logged: seq<Key>, b: int, bufs': seq<Buf>, pins': seq<int>,
                   logged': seq<Key>)
    requires Pinned(bufs, pins, logged) && Unique(bufs) && 0 <= b < |bufs| && bufs[b].key.dev != 0
    requires logged != [] && logged[0] == bufs[b].key
    requires bufs' == bufs[b := bufs[b].(refcnt := bufs[b].refcnt - 1)]
    requires pins' == pins[b := pins[b] - 1] && logged' == logged[1..]
    ensures Pinned(bufs', pins', logged')
  {
    forall k | k in logged'
      ensures exists i :: Holds(bufs', i, k)
    {
      var t :| 0 <= t < |logged'| && logged'[t] == k;
      assert logged[t + 1] == k && k in logged;
      var i :| Holds(bufs, i, k);
      assert Holds(bufs', i, k);
    }
  }

  /** A buffer takes contents `d`, which its block reads as from now on. */
  lemma Filled(bufs: seq<Buf>, disk: map<Key, Block>, current: map<Key, Block>, b: int, d: Block,
               bufs': seq<Buf>, current': map<Key, Block>)
    requires Unique(bufs) && Coherent(bufs, disk, current) && 0 <= b < |bufs| && bufs[b].key.dev != 0
    requires bufs[b].key in disk && bufs' == bufs[b := bufs[b].(valid := true, data := d)] &&
             current' == current[bufs[b].key := d]
    ensures Unique(bufs') && Coherent(bufs', disk, current')
  {
    forall q | q in disk && disk[q] != current'[q]
      ensures exists i :: Has(bufs', i, q)
    {
      if q == bufs[b].key {
        assert Has(bufs', b, q);
      } else {
        var i :| Has(bufs, i, q);
        assert Has(bufs', i, q);
      }
    }
  }

  /** The buffers fit what the blocks read as. */
  ghost predicate Fit(bufs: seq<Buf>, users: seq<int>, pins: seq<int>, s: State) {
    && Unique(bufs) && Coherent(bufs, s.disk, s.current) && Counted(bufs, users, pins) && Pinned(bufs, pins, s.logged)
    && Fresh(s)
  }

  lemma InUseHere(bufs: seq<Buf>, users: seq<int>, pins: seq<int>, s: State, b: int)
    requires Fit(bufs, users, pins, s) && 0 <= b < NBUF && users[b] > 0
    ensures |bufs| == |users| == NBUF && bufs[b].key.dev != 0 && bufs[b].refcnt > 0
  {
  }

  /** A buffer gets a user, or loses one (`more` is -1). */
  lemma BufferRecounted(bufs: seq<Buf>, users: seq<int>, pins: seq<int>, s: State, b: int, more: int)
    requires Fit(bufs, users, pins, s) && 0 <= b < NBUF && bufs[b].key.dev != 0 && users[b] + more >= 0
    ensures |bufs| == |users| == NBUF
    ensures Fit(bufs[b := bufs[b].(refcnt := bufs[b].refcnt + more)], users[b := users[b] + more], pins, s)
  {
    hide Unique, Coherent, Pinned, Fresh;
    var bufs' := bufs[b := bufs[b].(refcnt := bufs[b].refcnt + more)];
    assert Counted(bufs', users[b := users[b] + more], pins);
    Recounted(bufs, s.disk, s.current, b, bufs'[b].refcnt, bufs');
    PinnedKept(bufs, pins, s.logged, b, bufs');
  }

  /** A user of a buffer changes its contents. */
  lemma BufferChanged(bufs: seq<Buf>, users: seq<int>, pins: seq<int>, s: State, b: int, d: Block)
    requires Fit(bufs, users, pins, s) && 0 <= b < NBUF && users[b] > 0 && bufs[b].valid
    ensures |bufs| == NBUF && Allowed(s, Changes(bufs[b].key, d))
    ensures Fit(bufs[b := bufs[b].(data := d)], users, pins, Happened(s, Changes(bufs[b].key, d)))
  {
    var bufs', s' := bufs[b := bufs[b].(data := d)], Happened(s, Changes(bufs[b].key, d));
    assert Counted(bufs', users, pins);
    hide Counted, Unique, Coherent, Pinned, Fresh;
    FreshStep(s, Changes(bufs[b].key, d));
    Filled(bufs, s.disk, s.current, b, d, bufs', s'.current);
    PinnedKept(bufs, pins, s.logged, b, bufs');
  }

  /** A user hands a buffer to the log, which pins it if it is new to the log. */
  lemma BufferLogged(bufs: seq<Buf>, users: seq<int>, pins: seq<int>, s: State, b: int)
    requires Fit(bufs, users, pins, s) && 0 <= b < NBUF && users[b] > 0 && bufs[b].valid
    ensures |bufs| == |pins| == NBUF && Allowed(s, Logs(bufs[b].key))
    ensures bufs[b].key in s.logged ==> Fit(bufs, users, pins, Happened(s, Logs(bufs[b].key)))
    ensures bufs[b].key !in s.logged ==>
              Fit(bufs[b := bufs[b].(refcnt := bufs[b].refcnt + 1)], users, pins[b := pins[b] + 1],
                  Happened(s, Logs(bufs[b].key)))
  {
    var k := bufs[b].key;
    var bufs', pins', s' := bufs[b := bufs[b].(refcnt := bufs[b].refcnt + 1)], pins[b := pins[b] + 1],
                            Happened(s, Logs(k));
    assert Counted(bufs', users, pins');
    hide Counted, Unique, Coherent, Pinned, Fresh;
    FreshStep(s, Logs(k));
    if k !in s.logged {
      Recounted(bufs, s.disk, s.current, b, bufs'[b].refcnt, bufs');
      PinnedMore(bufs, pins, s.logged, b, bufs', pins', s'.logged);
    }
  }

  /** A block that no valid buffer has reads as on the disk. */
  lemma OnDisk(bufs: seq<Buf>, disk: map<Key, Block>, current: map<Key, Block>, b: int)
    requires Unique(bufs) && Coherent(bufs, disk, current) && 0 <= b < |bufs| && !bufs[b].valid && bufs[b].key.dev != 0
    requires bufs[b].key in disk
    ensures disk[bufs[b].key] == current[bufs[b].key]
  {
  }

  /** Writing a buffer to the disk. */
  lemma WrittenHome(bufs: seq<Buf>, disk: map<Key, Block>, current: map<Key, Block>, b: int, disk': map<Key, Block>)
    requires Coherent(bufs, disk, current) && 0 <= b < |bufs| && bufs[b].valid
    requires disk' == disk[bufs[b].key := bufs[b].data]
    ensures Coherent(bufs, disk', current)
  {
    assert disk'.Keys == disk.Keys;
  }

  /** The users of the buffers after `b` has got one more. */
  function OneMore(users: seq<int>, b: int): (r: seq<int>)
    requires 0 <= b < |users|
    ensures |r| == |users|
  {
    users[b := users[b] + 1]
  }

  lemma OneMoreLess(users: seq<int>, b: int)
    requires 0 <= b < |users|
    ensures OneMore(users, b)[b] == users[b] + 1 && OneMore(users, b)[b := users[b]] == users
  {
  }

  lemma OneMoreTwice(users: seq<int>, b: int, c: int)
    requires 0 <= b < |users| && 0 <= c < |users| && b != c
    ensures OneMore(OneMore(users, b), c)[b] == users[b] + 1 && OneMore(OneMore(users, b), c)[c] == users[c] + 1
    ensures |OneMore(OneMore(users, b), c)| == |users|
  {
  }

  /** Block `k` reads as `d` now, and the other safe blocks as before. */
  ghost predicate Updated(logged: seq<Key>, disk: map<Key, Block>, current: map<Key, Block>, current': map<Key, Block>,
                          k: Key, d: Block) {
    && current'.Keys == current.Keys && k in current' && current'[k] == d
    && forall q :: Safe(logged, disk, current, q) && q != k ==> current'[q] == current[q]
  }

  lemma KeptUpdated(logged: seq<Key>, disk: map<Key, Block>, current: map<Key, Block>, current1: map<Key, Block>,
                    k: Key, d: Block)
    requires Kept(logged, disk, current, current1) && k in current
    ensures Updated(logged, disk, current, current1[k := d], k, d)
  {
  }

  lemma SameKeysOne(bufs: seq<Buf>, bufs1: seq<Buf>, bufs2: seq<Buf>, b: int, k: Key)
    requires 0 <= b < |bufs| == |bufs1| && bufs1 == bufs[b := bufs1[b]] && bufs1[b].key == k && SameKeys(bufs1, bufs2)
    ensures SameKeysBut(bufs, bufs2, k)
  {
  }

  lemma SameKeysSelf(bufs: seq<Buf>)
    ensures SameKeys(bufs, bufs)
  {
  }

  lemma SameKeysTwice(bufs: seq<Buf>, bufs1: seq<Buf>, bufs2: seq<Buf>)
    ensures SameKeys(bufs, bufs1) && SameKeys(bufs1, bufs2) ==> SameKeys(bufs, bufs2)
  {
  }

  // ----- When the log finds buffers -----

  /** The log's copy of its t-th block; the header lies before the copies. */
  function LogKey(dev: int, start: int, t: int): (k: Key) {
    Key(dev, start + t + 1)
  }

  /** The log header and the copies of the logged blocks are on the disk, and are not logged themselves. */
  ghost predicate LogArea(dev: int, start: int, logged: seq<Key>, disk: map<Key, Block>) {
    dev != 0 && forall t :: -1 <= t < |logged| ==> LogKey(dev, start, t) in disk && LogKey(dev, start, t) !in logged
  }

  lemma LogAreaAt(dev: int, start: int, logged: seq<Key>, disk: map<Key, Block>, t: int)
    requires LogArea(dev, start, logged, disk) && -1 <= t < |logged|
    ensures LogKey(dev, start, t) in disk && LogKey(dev, start, t) !in logged && dev != 0
  {
  }

  /** Only the log header and the log's copies of `n` blocks have been written. */
  ghost predicate OutsideLog(dev: int, start: int, n: int, newest: map<Key, Block>, newest': map<Key, Block>) {
    newest'.Keys == newest.Keys && forall k :: k in newest && !InLog(dev, start, n, k) ==> newest'[k] == newest[k]
  }

  /** Block `k` is the log header or one of the log's copies of `n` blocks. */
  predicate InLog(dev: int, start: int, n: int, k: Key) {
    k.dev == dev && start <= k.blockno <= start + n
  }

  /** The copies of the first `n` blocks are in buffers. */
  ghost predicate CopiesCached(bufs: seq<Buf>, dev: int, start: int, n: int) {
    forall t :: 0 <= t < n ==> Cached(bufs, LogKey(dev, start, t))
  }

  /** The first `n` logged blocks have their contents in `c` also in the log's copies, on the disk too. */
  ghost predicate Copied(dev: int, start: int, logged: seq<Key>, c: map<Key, Block>, n: int, disk: map<Key, Block>,
                         current: map<Key, Block>) {
    && n <= |logged|
    && forall t :: 0 <= t < n ==>
         && logged[t] in c && LogKey(dev, start, t) in disk && LogKey(dev, start, t) in current
         && disk[LogKey(dev, start, t)] == current[LogKey(dev, start, t)] == c[logged[t]]
  }

  /** The logged blocks read as in `c`. */
  ghost predicate ReadAs(logged: seq<Key>, c: map<Key, Block>, current: map<Key, Block>) {
    forall k :: k in logged ==> k in c && k in current && current[k] == c[k]
  }

  lemma CopiedOne(dev: int, start: int, logged: seq<Key>, c: map<Key, Block>, n: int, disk: map<Key, Block>,
                  current: map<Key, Block>,
                  copy: Key, d: Block, disk': map<Key, Block>, current': map<Key, Block>)
    requires Copied(dev, start, logged, c, n, disk, current) && 0 <= n < |logged| && copy == LogKey(dev, start, n)
    requires ReadAs(logged, c, current) && LogArea(dev, start, logged, disk) && current.Keys == disk.Keys &&
             d == c[logged[n]]
    requires disk' == disk[copy := d] && Updated(logged, disk, current, current', copy, d)
    ensures Copied(dev, start, logged, c, n + 1, disk', current') && ReadAs(logged, c, current')
    ensures LogArea(dev, start, logged, disk')
  {
    forall t | 0 <= t < n
      ensures disk'[LogKey(dev, start, t)] == current'[LogKey(dev, start, t)] == c[logged[t]]
    {
      assert Safe(logged, disk, current, LogKey(dev, start, t));
    }
    forall k | k in logged
      ensures k in current' && current'[k] == c[k]
    {
      assert Safe(logged, disk, current, k) && k != copy;
    }
  }

  /** `write_log` has copied `n` blocks, which read as in `c`; `bufs0` were the buffers before, and `room` says if one
      was free. */
  ghost predicate Logging(dev: int, start: int, logged: seq<Key>, c: map<Key, Block>, n: int, bufs0: seq<Buf>,
                          room: bool,
                          bufs: seq<Buf>, disk: map<Key, Block>, current: map<Key, Block>)
  {
    && LogArea(dev, start, logged, disk) && ReadAs(logged, c, current) && current.Keys == disk.Keys
    && Copied(dev, start, logged, c, n, disk, current)
    && (!room ==> SameKeys(bufs0, bufs) && CopiesCached(bufs0, dev, start, n))
  }

  lemma LoggingStep(dev: int, start: int, logged: seq<Key>, c: map<Key, Block>, n: int, bufs0: seq<Buf>, room: bool,
                    bufs: seq<Buf>, disk: map<Key, Block>, current: map<Key, Block>,
                    ok: bool, bufs': seq<Buf>, disk': map<Key, Block>, current': map<Key, Block>)
    requires Logging(dev, start, logged, c, n, bufs0, room, bufs, disk, current) && 0 <= n < |logged|
    requires ok <==> Cached(bufs, LogKey(dev, start, n)) || room
    requires ok ==> disk' == disk[LogKey(dev, start, n) := current[logged[n]]]
    requires ok ==> Updated(logged, disk, current, current', LogKey(dev, start, n), current[logged[n]])
    requires !room ==> SameKeys(bufs, bufs')
    ensures ok ==> Logging(dev, start, logged, c, n + 1, bufs0, room, bufs', disk', current')
    ensures !ok ==> !room && !CopiesCached(bufs0, dev, start, |logged|)
  {
    var copy := LogKey(dev, start, n);
    if !room {
      SameCached(bufs0, bufs, copy);
      SameKeysTwice(bufs0, bufs, bufs');
    }
    if ok {
      assert logged[n] in logged;
      CopiedOne(dev, start, logged, c, n, disk, current, copy, c[logged[n]], disk', current');
      assert disk'.Keys == disk.Keys;
    }
  }

  /** The first `n` of the blocks `all`, and all their copies, are on the disk as in `c`, and all read so. */
  ghost predicate Installing(dev: int, start: int, all: seq<Key>, c: map<Key, Block>, n: int, disk: map<Key, Block>,
                             current: map<Key, Block>) {
    && LogArea(dev, start, all, disk) && ReadAs(all, c, current) && current.Keys == disk.Keys && n <= |all|
    && Copied(dev, start, all, c, |all|, disk, current)
    && forall t :: 0 <= t < n ==> all[t] in disk && all[t] in c && disk[all[t]] == c[all[t]]
  }

  /** Writing the log header disturbs neither blocks nor copies. */
  lemma HeaderApart(dev: int, start: int, all: seq<Key>, c: map<Key, Block>, n: int, logged: seq<Key>,
                    disk: map<Key, Block>, current: map<Key, Block>, d: Block, disk': map<Key, Block>,
                        current': map<Key, Block>)
    requires Installing(dev, start, all, c, n, disk, current) && 0 <= n <= |all| && logged == all[n..]
    requires disk' == disk[LogKey(dev, start, -1) := d] &&
             Updated(logged, disk, current, current', LogKey(dev, start, -1), d)
    ensures Installing(dev, start, all, c, n, disk', current')
  {
    var head := LogKey(dev, start, -1);
    forall t | 0 <= t < |all|
      ensures LogKey(dev, start, t) in disk' &&
              disk'[LogKey(dev, start, t)] == current'[LogKey(dev, start, t)] == c[all[t]]
    {
      assert Safe(logged, disk, current, LogKey(dev, start, t)) && LogKey(dev, start, t) != head;
    }
    forall k | k in all
      ensures k in current' && current'[k] == c[k] && k != head
    {
      SafeAll(dev, start, all, c, n, logged, disk, current, k);
    }
    assert disk'.Keys == disk.Keys;
  }

  /** Each of the blocks is home or still logged. */
  lemma SafeAll(dev: int, start: int, all: seq<Key>, c: map<Key, Block>, n: int, logged: seq<Key>,
                disk: map<Key, Block>, current: map<Key, Block>, k: Key)
    requires Installing(dev, start, all, c, n, disk, current) && 0 <= n <= |all| && logged == all[n..] && k in all
    ensures Safe(logged, disk, current, k)
  {
    var t :| 0 <= t < |all| && all[t] == k;
    if t >= n {
      assert logged[t - n] == k;
    }
  }

  /** One more block is home. */
  lemma InstalledOne(dev: int, start: int, all: seq<Key>, c: map<Key, Block>, n: int, logged: seq<Key>,
                     disk: map<Key, Block>, current: map<Key, Block>, d: Block, disk': map<Key, Block>,
                         current': map<Key, Block>)
    requires Installing(dev, start, all, c, n, disk, current) && 0 <= n < |all| && logged == all[n..]
    requires forall s, t :: 0 <= s < t < |all| ==> all[s] != all[t]
    requires d == c[all[n]] && disk' == disk[all[n] := d] && Updated(logged, disk, current, current', all[n], d)
    ensures Installing(dev, start, all, c, n + 1, disk', current')
  {
    forall t | 0 <= t < |all|
      ensures LogKey(dev, start, t) in disk' &&
              disk'[LogKey(dev, start, t)] == current'[LogKey(dev, start, t)] == c[all[t]]
    {
      assert Safe(logged, disk, current, LogKey(dev, start, t)) && LogKey(dev, start, t) != all[n];
    }
    forall k | k in all
      ensures k in current' && current'[k] == c[k]
    {
      SafeAll(dev, start, all, c, n, logged, disk, current, k);
    }
    assert disk'.Keys == disk.Keys;
  }

  /** What a commit writes: the log area, and the blocks `all` home as they read before, if it does not panic. */
  ghost predicate Committed(ok: bool, dev: int, start: int, all: seq<Key>, c: map<Key, Block>,
                            newest: map<Key, Block>, newest': map<Key, Block>) {
    && newest'.Keys == newest.Keys
    && forall k :: k in newest && !InLog(dev, start, |all|, k) ==>
         if ok && k in all then k in c && newest'[k] == c[k] else newest'[k] == newest[k]
  }

  /** The first `n` of the blocks `all` were last written as in `c` and are not stray; no other block was written. */
  ghost predicate Installed(all: seq<Key>, c: map<Key, Block>, n: int, newest: map<Key, Block>,
                            newest': map<Key, Block>, stray: set<Key>, stray': set<Key>) {
    && 0 <= n <= |all| && newest'.Keys == newest.Keys && stray' <= stray
    && (forall t :: 0 <= t < n ==>
        all[t] in c && all[t] in newest' && newest'[all[t]] == c[all[t]] && all[t] !in stray')
    && (forall k :: k in newest && k !in all ==> newest'[k] == newest[k])
  }

  lemma CommittedNone(dev: int, start: int, c: map<Key, Block>, newest: map<Key, Block>, disk: map<Key, Block>,
                      current: map<Key, Block>)
    ensures Committed(true, dev, start, [], c, newest, newest) && Home([], c, disk, current)
  {
  }

  lemma InstalledAll(dev: int, start: int, all: seq<Key>, c: map<Key, Block>, newest0: map<Key, Block>,
                     newest: map<Key, Block>, newest': map<Key, Block>, d: Block, stray0: set<Key>, stray: set<Key>,
                     stray': set<Key>)
    requires Installed(all, c, |all|, newest0, newest, stray0, stray) && LogKey(dev, start, -1) in newest
    requires newest' == newest[LogKey(dev, start, -1) := d] && stray' == stray - {LogKey(dev, start, -1)}
    ensures Committed(true, dev, start, all, c, newest0, newest') && stray' <= stray0
    ensures forall k :: k in all ==> k !in stray'
  {
    assert newest'.Keys == newest.Keys;
    forall k | k in all
      ensures k in c && k in newest && newest[k] == c[k] && k !in stray
    {
      var t :| 0 <= t < |all| && all[t] == k;
    }
  }

  /** Writes before that to the log area only do not matter. */
  lemma CommittedAfter(ok: bool, dev: int, start: int, all: seq<Key>, c: map<Key, Block>, newest: map<Key, Block>,
                       newest1: map<Key, Block>, newest2: map<Key, Block>, newest': map<Key, Block>, d: Block)
    requires OutsideLog(dev, start, |all|, newest, newest1)
    requires newest2 == newest1 ||
             (LogKey(dev, start, -1) in newest1 && newest2 == newest1[LogKey(dev, start, -1) := d])
    requires Committed(ok, dev, start, all, c, newest2, newest')
    ensures Committed(ok, dev, start, all, c, newest, newest')
  {
    assert newest2.Keys == newest1.Keys;
  }

  lemma InstalledNext(all: seq<Key>, c: map<Key, Block>, n: int, newest0: map<Key, Block>, newest: map<Key, Block>,
                      newest': map<Key, Block>, stray0: set<Key>, stray: set<Key>, stray': set<Key>)
    requires Installed(all, c, n, newest0, newest, stray0, stray) && n < |all| && all[n] in c && all[n] in newest
    requires newest' == newest[all[n] := c[all[n]]] && stray' == stray - {all[n]}
    ensures Installed(all, c, n + 1, newest0, newest', stray0, stray')
  {
    assert newest'.Keys == newest.Keys;
  }

  /** The blocks `all` are on the disk as in `c`, and read so. */
  ghost predicate Home(all: seq<Key>, c: map<Key, Block>, disk: map<Key, Block>, current: map<Key, Block>) {
    forall k :: k in all ==> k in c && k in disk && k in current && disk[k] == current[k] == c[k]
  }

  /** A logged block is on the disk. */
  lemma LoggedOnDisk(bufs: seq<Buf>, disk: map<Key, Block>, current: map<Key, Block>, pins: seq<int>, logged: seq<Key>,
                     k: Key)
    requires Coherent(bufs, disk, current) && Pinned(bufs, pins, logged) && k in logged
    ensures k in disk && k in current && k.dev != 0
  {
    var i :| Holds(bufs, i, k);
  }

  lemma LoggedReadAs(bufs: seq<Buf>, disk: map<Key, Block>, current: map<Key, Block>, pins: seq<int>, logged: seq<Key>)
    requires Coherent(bufs, disk, current) && Pinned(bufs, pins, logged)
    ensures ReadAs(logged, current, current)
  {
    forall k | k in logged
      ensures k in current
    {
      LoggedOnDisk(bufs, disk, current, pins, logged, k);
    }
  }

  lemma SameCached(bufs: seq<Buf>, bufs': seq<Buf>, k: Key)
    ensures SameKeys(bufs, bufs') ==> (Cached(bufs, k) <==> Cached(bufs', k))
  {
    if SameKeys(bufs, bufs') {
      if i :| 0 <= i < |bufs| && bufs[i].key == k {
        assert bufs'[i].key == k;
      }
      if i :| 0 <= i < |bufs| && bufs'[i].key == k {
        assert bufs[i].key == k;
      }
    }
  }

  lemma AllSameCached(bufs: seq<Buf>, bufs': seq<Buf>, dev: int, start: int, n: int)
    ensures SameKeys(bufs, bufs') && CopiesCached(bufs, dev, start, n) ==> CopiesCached(bufs', dev, start, n)
  {
    if SameKeys(bufs, bufs') && CopiesCached(bufs, dev, start, n) {
      forall t | 0 <= t < n
        ensures Cached(bufs', LogKey(dev, start, t))
      {
        SameCached(bufs, bufs', LogKey(dev, start, t));
      }
    }
  }

  lemma AllHome(dev: int, start: int, all: seq<Key>, c: map<Key, Block>, disk: map<Key, Block>,
                current: map<Key, Block>)
    requires Installing(dev, start, all, c, |all|, disk, current)
    ensures Home(all, c, disk, current)
  {
    forall k | k in all
      ensures k in disk && disk[k] == c[k]
    {
      var t :| 0 <= t < |all| && all[t] == k;
    }
  }

  lemma LoggedCached(bufs: seq<Buf>, pins: seq<int>, logged: seq<Key>, k: Key)
    requires Pinned(bufs, pins, logged) && k in logged
    ensures Cached(bufs, k)
  {
    var i :| Holds(bufs, i, k);
  }

  lemma StillRoom(users: seq<int>, pins: seq<int>, b: int, pins': seq<int>)
    requires 0 <= b < |pins| == |users| && pins[b] > 0 && users[b] >= 0 && pins' == pins[b := pins[b] - 1]
    ensures Room(users, pins) ==> Room(users, pins')
  {
    if Room(users, pins) {
      var i :| 0 <= i < |users| && users[i] + pins[i] == 0;
      assert users[i] + pins'[i] == 0;
    }
  }

  /** Where `k` is in `keys`. */
  ghost function Where(keys: seq<Key>, k: Key): (i: int)
    requires k in keys
    ensures 0 <= i < |keys| && keys[i] == k
  {
    var i :| 0 <= i < |keys| && keys[i] == k;
    i
  }

  /** With no users, a free buffer exists exactly as long as fewer blocks are logged than there are buffers; and when
      there is none, only logged blocks are in the cache. */
  lemma RoomUnlessFull(bufs: seq<Buf>, users: seq<int>, pins: seq<int>, logged: seq<Key>)
    requires Counted(bufs, users, pins) && Pinned(bufs, pins, logged) && Unique(bufs) && NoUsers(users)
    ensures Room(users, pins) <==> |logged| < NBUF
    ensures !Room(users, pins) ==> forall k :: Cached(bufs, k) ==> k in logged
  {
    if Room(users, pins) {
      var b :| 0 <= b < NBUF && users[b] + pins[b] == 0;
      FreeBuffer(bufs, pins, logged, b);
    } else {
      assert forall i :: 0 <= i < NBUF ==> users[i] + pins[i] != 0;
      AllHoldLogged(bufs, pins, logged);
    }
  }

  lemma FreeBuffer(bufs: seq<Buf>, pins: seq<int>, logged: seq<Key>, b: int)
    requires Pinned(bufs, pins, logged) && 0 <= b < |bufs| == NBUF && pins[b] == 0
    ensures |logged| < NBUF
  {
    var keys := seq(NBUF, i requires 0 <= i < NBUF => bufs[i].key);
    forall t | 0 <= t < |logged|
      ensures logged[t] in keys
    {
      assert logged[t] in logged;
      var i :| Holds(bufs, i, logged[t]);
      assert keys[i] == logged[t];
    }
    var places := seq(|logged|, t requires 0 <= t < |logged| => Where(keys, logged[t]));
    assert forall t :: 0 <= t < |logged| ==> bufs[places[t]].key == logged[t];
    Crowded(places + [b], NBUF);
  }

  lemma AllHoldLogged(bufs: seq<Buf>, pins: seq<int>, logged: seq<Key>)
    requires Pinned(bufs, pins, logged) && Unique(bufs) && |bufs| == NBUF
    requires forall i :: 0 <= i < NBUF ==> pins[i] != 0 && bufs[i].key.dev != 0
    ensures |logged| >= NBUF
  {
    assert forall i :: 0 <= i < NBUF ==> bufs[i].key in logged;
    var places := seq(NBUF, i requires 0 <= i < NBUF => Where(logged, bufs[i].key));
    assert forall i :: 0 <= i < NBUF ==> logged[places[i]] == bufs[i].key;
    Crowded(places, |logged|);
  }

  class Cache {
    var bufs: seq<Buf>
    var next: seq<int>
    var prev: seq<int>
    var disk: map<Key, Block>
    /** The blocks listed in the log header that are not yet home. */
    var logged: seq<Key>
    ghost var order: seq<int>
    ghost var users: seq<int>
    ghost var pins: seq<int>
    /** What every block reads as, and what was last written to it. */
    ghost var current: map<Key, Block>
    ghost var newest: map<Key, Block>
    /** The blocks changed since they were last logged or written to the disk. */
    ghost var stray: set<Key>

    ghost predicate Sound()
      reads this
    {
      && Linked(order, next, prev) && Permutation(order)
      && Unique(bufs) && Coherent(bufs, disk, current) && Counted(bufs, users, pins)
    }

    /** The invariant: also, the log keeps its blocks pinned, and every block that is not stray reads as last
        written. */
    ghost predicate Valid()
      reads this
    {
      Linked(order, next, prev) && Permutation(order) && Fit(bufs, users, pins, Now())
    }

    ghost function Now(): (s: State)
      reads this
    {
      State(disk, current, newest, logged, stray)
    }

    /** No buffer holds a block, and the list runs through all buffers. */
    constructor (disk: map<Key, Block>)
      ensures Valid() && this.disk == disk == newest == current && logged == [] && stray == {}
      ensures NoUsers(users) && forall i :: 0 <= i < NBUF ==> bufs[i] == EMPTY
    {
      var next, prev := seq(NBUF + 1, _ => HEAD), seq(NBUF + 1, _ => HEAD);
      ghost var order: seq<int> := [];
      var b := 0;
      while b < NBUF
        invariant 0 <= b <= NBUF && Linked(order, next, prev) && |order| == b
        invariant forall k :: 0 <= k < |order| ==> order[k] < b
      {
        ghost var next0, prev0 := next, prev;
        assert After(order, -1) == next[HEAD];
        next := next[b := next[HEAD]];
        prev := prev[b := HEAD];
        prev := prev[next[HEAD] := b];
        next := next[HEAD := b];
        PushedFront(order, next0, prev0, b, next, prev);
        order := [b] + order;
        b := b + 1;
      }
      this.next, this.prev, this.order := next, prev, order;
      this.disk, newest, current, logged, stray := disk, disk, disk, [], {};
      bufs, users, pins := seq(NBUF, _ => EMPTY), seq(NBUF, _ => 0), seq(NBUF, _ => 0);
    }

    /** The buffer that holds a block, or the list head. */
    method FindCached(k: Key) returns (b: int)
      requires Valid()
      ensures 0 <= b <= NBUF
      ensures b < NBUF ==> bufs[b].key == k
      ensures b == NBUF ==> forall i :: 0 <= i < NBUF ==> bufs[i].key != k
    {
      assert After(order, -1) == next[HEAD];
      b := next[HEAD];
      ghost var pos := 0;
      while b != HEAD
        invariant 0 <= pos <= NBUF && b == At(order, pos)
        invariant forall p :: 0 <= p < pos ==> bufs[order[p]].key != k
        decreases NBUF - pos
      {
        if bufs[b].key == k {
          return;
        }
        assert After(order, pos) == next[b];
        b := next[b];
        pos := pos + 1;
      }
      forall i | 0 <= i < NBUF
        ensures bufs[i].key != k
      {
        OnList(order, i);
      }
    }

    /** The least recently used buffer not in use, or the list head. */
    method FindUnused() returns (b: int)
      requires Valid()
      ensures 0 <= b <= NBUF
      ensures b == NBUF <==> forall i :: 0 <= i < NBUF ==> bufs[i].refcnt > 0
      ensures b < NBUF ==> bufs[b].refcnt == 0 && exists pos :: LastUnused(bufs, order, pos) && order[pos] == b
    {
      assert After(order, NBUF - 1) == HEAD;
      b := prev[HEAD];
      ghost var pos := NBUF - 1;
      while b != HEAD
        invariant -1 <= pos < NBUF && b == At(order, pos)
        invariant forall p :: pos < p < NBUF ==> bufs[order[p]].refcnt > 0
        decreases pos + 1
      {
        if bufs[b].refcnt == 0 {
          assert LastUnused(bufs, order, pos);
          return;
        }
        assert After(order, pos - 1) == b;
        b := prev[b];
        pos := pos - 1;
      }
      forall i | 0 <= i < NBUF
        ensures bufs[i].refcnt > 0
      {
        OnList(order, i);
      }
    }

    /** The buffer for a block, with one more user: the one that has it, or else the least recently used one that is
        unused, whose own block reads as on the disk from now on. The list does not change. With all buffers in use the
        source panics; here there is no result. */
    method Bget(k: Key) returns (r: int)
      requires Valid() && k.dev != 0
      modifies this`bufs, this`users, this`current
      ensures Valid() && Kept(logged, disk, old(current), current)
      ensures r == NBUF <==> !Cached(old(bufs), k) && !Room(old(users), pins)
      ensures r == NBUF ==> unchanged(this)
      ensures r != NBUF ==> 0 <= r < NBUF && bufs[r].key == k && users == old(users)[r := old(users)[r] + 1]
      ensures r != NBUF ==> bufs == old(bufs)[r := bufs[r]] && bufs[r].data == old(bufs)[r].data
      ensures Cached(old(bufs), k) ==>
              old(bufs)[r].key == k && bufs[r].valid == old(bufs)[r].valid && current == old(current)
      ensures !Cached(old(bufs), k) && r != NBUF ==>
                && !bufs[r].valid && (exists pos :: LastUnused(old(bufs), order, pos) && order[pos] == r)
                && current == Forgotten(old(bufs)[r], disk, old(current))
    {
      hide Fresh, Linked, Permutation, Unique, Coherent, Pinned, Allowed, Happened, LastUnused;
      r := FindCached(k);
      if r == NBUF {
        r := FindUnused();
        if r == NBUF {
          assert !Room(users, pins);
          return;
        }
        assert users[r] + pins[r] == 0;
        TakeOver(r, k);
      } else {
        Share(r);
      }
    }

    /** One more user of a buffer. */
    method Share(r: int)
      requires Valid() && 0 <= r < NBUF && bufs[r].key.dev != 0
      modifies this`bufs, this`users
      ensures Valid()
      ensures bufs == old(bufs)[r := old(bufs)[r].(refcnt := old(bufs)[r].refcnt + 1)] &&
              users == old(users)[r := old(users)[r] + 1]
    {
      hide Fit, Linked, Permutation, Unique, Coherent, Counted, Pinned, Fresh;
      FitNow();
      BufferRecounted(bufs, users, pins, Now(), r, 1);
      bufs := bufs[r := bufs[r].(refcnt := bufs[r].refcnt + 1)];
      users := users[r := users[r] + 1];
    }

    /** An unused buffer is set up for a block that no buffer has. */
    method TakeOver(r: int, k: Key)
      requires Valid() && 0 <= r < NBUF && bufs[r].refcnt == 0 && k.dev != 0 && !Cached(bufs, k)
      modifies this`bufs, this`users, this`current
      ensures Valid() && Kept(logged, disk, old(current), current)
      ensures bufs == old(bufs)[r := Buf(k, false, 1, old(bufs)[r].data)] && users == old(users)[r := old(users)[r] + 1]
      ensures current == Forgotten(old(bufs)[r], disk, old(current))
      ensures var b, s := old(bufs)[r], old(Now());
              if b.valid then Allowed(s, Recycles(b.key)) && Now() == Happened(s, Recycles(b.key)) else Now() == s
    {
      bufs := bufs[r := Buf(k, false, 1, bufs[r].data)];
      users := users[r := users[r] + 1];
      current := Forgotten(old(bufs)[r], disk, current);
      Recycled(old(bufs), disk, old(current), r, k, bufs);
      PinnedRecycled(old(bufs), pins, logged, r, k, bufs);
      if old(bufs)[r].valid {
        FreshStep(old(Now()), Recycles(old(bufs)[r].key));
      }
    }

    /** A buffer with the contents that a block reads as. */
    method Bread(k: Key) returns (r: int)
      requires Valid() && k.dev != 0 && k in disk
      modifies this`bufs, this`users, this`current
      ensures Valid() && Kept(logged, disk, old(current), current)
      ensures r == NBUF <==> !Cached(old(bufs), k) && !Room(old(users), pins)
      ensures r == NBUF ==> unchanged(this)
      ensures r != NBUF ==> 0 <= r < NBUF && bufs[r].key == k && bufs[r].valid
      ensures r != NBUF ==> bufs[r].data == current[k] == old(current)[k]
      ensures r != NBUF && k !in stray ==> bufs[r].data == newest[k]
      ensures r != NBUF ==> users == old(users)[r := old(users)[r] + 1] && bufs == old(bufs)[r := bufs[r]]
      ensures Cached(old(bufs), k) ==> SameKeys(old(bufs), bufs) && current == old(current)
      ensures !Cached(old(bufs), k) && r != NBUF ==>
                && (exists pos :: LastUnused(old(bufs), order, pos) && order[pos] == r)
                && current == Forgotten(old(bufs)[r], disk, old(current))
    {
      hide Linked, Permutation, Unique, Counted, Pinned, Fresh, Kept, LastUnused, Room, Forgotten;
      FitNow();
      r := Bget(k);
      if r != NBUF && !bufs[r].valid {
        LoadBlock(r);
      }
      FreshAt(Now(), k);
    }

    /** Read a block; what the log relies on. */
    method Fetch(k: Key) returns (r: int)
      requires Valid() && k.dev != 0 && k in disk
      modifies this`bufs, this`users, this`current
      ensures Valid() && Kept(logged, disk, old(current), current)
      ensures r == NBUF <==> !Cached(old(bufs), k) && !Room(old(users), pins)
      ensures r == NBUF ==> unchanged(this)
      ensures r != NBUF ==> 0 <= r < NBUF == |bufs| && Reads(bufs, r, k, old(current)[k])
      ensures r != NBUF ==> users == OneMore(old(users), r) && bufs == old(bufs)[r := bufs[r]]
      ensures Cached(old(bufs), k) ==> SameKeys(old(bufs), bufs) && current == old(current)
    {
      r := Bread(k);
    }

    /** A buffer gets the contents of its block from the disk. */
    method LoadBlock(r: int)
      requires Valid() && 0 <= r < NBUF && bufs[r].key.dev != 0 && bufs[r].key in disk && !bufs[r].valid
      modifies this`bufs
      ensures Valid()
      ensures bufs == old(bufs)[r := old(bufs)[r].(valid := true, data := current[old(bufs)[r].key])]
    {
      OnDisk(bufs, disk, current, r);
      bufs := bufs[r := bufs[r].(valid := true, data := disk[bufs[r].key])];
      assert current[bufs[r].key := disk[bufs[r].key]] == current;
      Filled(old(bufs), disk, current, r, disk[bufs[r].key], bufs, current);
      PinnedKept(old(bufs), pins, logged, r, bufs);
    }

    /** A user of a buffer changes its contents. */
    method Write(b: int, d: Block)
      requires Valid() && 0 <= b < NBUF && users[b] > 0 && bufs[b].valid
      modifies this`bufs, this`current, this`newest, this`stray
      ensures Valid()
      ensures bufs == old(bufs)[b := old(bufs)[b].(data := d)]
      ensures Allowed(old(Now()), Changes(bufs[b].key, d)) && Now() == Happened(old(Now()), Changes(bufs[b].key, d))
    {
      hide Fit, Linked, Permutation, Unique, Coherent, Counted, Pinned, Fresh;
      BufferChanged(bufs, users, pins, Now(), b, d);
      ghost var s := Happened(Now(), Changes(bufs[b].key, d));
      bufs := bufs[b := bufs[b].(data := d)];
      current, newest, stray := s.current, s.newest, s.stray;
    }

    /** Write a buffer to its block on the disk. */
    method Bwrite(b: int)
      requires Valid() && 0 <= b < NBUF && users[b] > 0 && bufs[b].valid
      modifies this`disk, this`stray
      ensures Valid()
      ensures Allowed(old(Now()), WritesHome(bufs[b].key)) && Now() == Happened(old(Now()), WritesHome(bufs[b].key))
    {
      FreshStep(Now(), WritesHome(bufs[b].key));
      stray := Settled(Now(), bufs[b].key);
      disk := disk[bufs[b].key := bufs[b].data];
      WrittenHome(bufs, old(disk), current, b, disk);
    }

    /** One user is done with a buffer, whatever it holds. When it is no longer in use it moves to the front of the
        list. */
    method Brelse(b: int)
      requires Valid() && 0 <= b < NBUF && users[b] > 0
      modifies this`bufs, this`users, this`next, this`prev, this`order
      ensures Valid()
      ensures users == old(users)[b := old(users)[b] - 1]
      ensures bufs == old(bufs)[b := old(bufs)[b].(refcnt := old(bufs)[b].refcnt - 1)]
      ensures bufs[b].refcnt > 0 ==> order == old(order)
      ensures bufs[b].refcnt == 0 ==>
              exists j :: 0 <= j < NBUF && old(order)[j] == b && order == [b] + Without(old(order), j)
    {
      hide Fit, Linked, Unique, Coherent, Counted, Pinned, Fresh;
      InUseHere(bufs, users, pins, Now(), b);
      BufferRecounted(bufs, users, pins, Now(), b, -1);
      bufs := bufs[b := bufs[b].(refcnt := bufs[b].refcnt - 1)];
      users := users[b := users[b] - 1];
      if bufs[b].refcnt == 0 {
        MoveFront(b);
      }
    }

    /** Take a buffer out of the list and put it in front. */
    method MoveFront(b: int)
      requires Linked(order, next, prev) && Permutation(order) && 0 <= b < NBUF
      modifies this`next, this`prev, this`order
      ensures Linked(order, next, prev) && Permutation(order)
      ensures exists j :: 0 <= j < NBUF && old(order)[j] == b && order == [b] + Without(old(order), j)
    {
      OnList(order, b);
      ghost var j :| 0 <= j < NBUF && order[j] == b;
      assert After(order, j - 1) == b && After(order, j) == next[b];
      var n, p := next[b], prev[b];
      prev := prev[n := p];
      next := next[p := n];
      Unlinked(order, old(next), old(prev), j, next, prev);
      order := Without(order, j);
      ghost var next1, prev1 := next, prev;
      assert After(order, -1) == next[HEAD];
      next := next[b := next[HEAD]];
      prev := prev[b := HEAD];
      prev := prev[next[HEAD] := b];
      next := next[HEAD := b];
      PushedFront(order, next1, prev1, b, next, prev);
      order := [b] + order;
    }

    method Bpin(b: int)
      requires Sound() && 0 <= b < NBUF && users[b] > 0
      modifies this`bufs, this`pins
      ensures Sound() && pins == old(pins)[b := old(pins)[b] + 1]
      ensures bufs == old(bufs)[b := old(bufs)[b].(refcnt := old(bufs)[b].refcnt + 1)]
    {
      hide Linked, Permutation, Unique, Coherent, Fresh;
      bufs := bufs[b := bufs[b].(refcnt := bufs[b].refcnt + 1)];
      pins := pins[b := pins[b] + 1];
      Recounted(old(bufs), disk, current, b, bufs[b].refcnt, bufs);
    }

    method Bunpin(b: int)
      requires Sound() && 0 <= b < NBUF && pins[b] > 0
      modifies this`bufs, this`pins
      ensures Sound() && pins == old(pins)[b := old(pins)[b] - 1]
      ensures bufs == old(bufs)[b := old(bufs)[b].(refcnt := old(bufs)[b].refcnt - 1)]
    {
      hide Linked, Permutation, Unique, Coherent, Fresh;
      bufs := bufs[b := bufs[b].(refcnt := bufs[b].refcnt - 1)];
      pins := pins[b := pins[b] - 1];
      Recounted(old(bufs), disk, current, b, bufs[b].refcnt, bufs);
    }

    // ----- What the log does with buffers -----

    /** A user hands a changed buffer to the log: its block is listed and pinned once. */
    method LogWrite(b: int)
      requires Valid() && 0 <= b < NBUF && users[b] > 0 && bufs[b].valid
      modifies this`bufs, this`pins, this`logged, this`stray
      ensures Valid()
      ensures Allowed(old(Now()), Logs(bufs[b].key)) && Now() == Happened(old(Now()), Logs(bufs[b].key))
      ensures bufs == old(bufs)[b := bufs[b]] && bufs[b] == old(bufs)[b].(refcnt := bufs[b].refcnt)
    {
      hide Linked, Permutation, Unique, Coherent, Counted, Pinned, Fresh;
      FitNow();
      var k := bufs[b].key;
      BufferLogged(bufs, users, pins, Now(), b);
      ghost var s := Happened(Now(), Logs(k));
      if k !in logged {
        Bpin(b);
        logged := logged + [k];
      }
      stray := s.stray;
    }

    /** The log is done with its first block. */
    method Unlog(b: int)
      requires Valid() && 0 <= b < NBUF && users[b] > 0 && bufs[b].valid && logged != [] && bufs[b].key == logged[0]
      requires logged[0] in disk && disk[logged[0]] == bufs[b].data
      modifies this`bufs, this`pins, this`logged
      ensures Valid() && pins == old(pins)[b := old(pins)[b] - 1]
      ensures Allowed(old(Now()), Unlogs(bufs[b].key)) && Now() == Happened(old(Now()), Unlogs(bufs[b].key))
      ensures bufs == old(bufs)[b := old(bufs)[b].(refcnt := old(bufs)[b].refcnt - 1)]
    {
      FreshStep(Now(), Unlogs(bufs[b].key));
      Bunpin(b);
      logged := logged[1..];
      PinnedLess(old(bufs), old(pins), old(logged), b, bufs, pins, logged);
    }

    /** Buffers with a logged block and with its copy in the log, which is read first. Without a buffer for the copy the
        source panics; nothing changes then. */
    method ReadPair(k: Key, copy: Key) returns (ok: bool, c: int, b: int)
      requires Valid() && k in logged && k in disk && k.dev != 0
      requires copy in disk && copy !in logged && copy.dev != 0
      modifies this`bufs, this`users, this`current
      ensures Valid() && Kept(logged, disk, old(current), current)
      ensures ok <==> Cached(old(bufs), copy) || Room(old(users), pins)
      ensures !ok ==> unchanged(this)
      ensures ok ==> b != c && 0 <= b < NBUF && 0 <= c < NBUF == |bufs|
      ensures ok ==> Reads(bufs, b, k, old(current)[k]) && Reads(bufs, c, copy, old(current)[copy])
      ensures ok ==> users == OneMore(OneMore(old(users), c), b)
      ensures !Room(old(users), pins) ==> SameKeys(old(bufs), bufs)
    {
      hide Linked, Permutation, Unique, Coherent, Pinned, Room, Cached, Counted, Fresh;
      FitNow();
      c := Fetch(copy);
      b := NBUF;
      if c == NBUF {
        return false, c, b;
      }
      LoggedCached(bufs, pins, logged, k);
      b := Fetch(k);
      ok := true;
    }

    /** Give the buffer `b` contents `d`, and write it to the disk. */
    method WriteThrough(b: int, d: Block)
      requires Valid() && 0 <= b < NBUF && users[b] > 0 && bufs[b].valid
      modifies this`bufs, this`current, this`newest, this`disk, this`stray
      ensures Valid() && bufs == old(bufs)[b := old(bufs)[b].(data := d)]
      ensures current == old(current)[bufs[b].key := d] && disk == old(disk)[bufs[b].key := d]
      ensures newest == old(newest)[bufs[b].key := d] && stray == old(stray) - {bufs[b].key}
    {
      hide Fit, Linked, Permutation, Unique, Coherent, Counted, Pinned, Fresh;
      FitNow();
      Write(b, d);
      Bwrite(b);
    }

    /** Change a buffer whose block is not logged, and log it. */
    method WriteLogged(b: int, d: Block)
      requires Valid() && 0 <= b < NBUF && users[b] > 0 && bufs[b].valid && bufs[b].key !in logged
      modifies this`bufs, this`current, this`newest, this`stray, this`pins, this`logged
      ensures Valid() && logged == old(logged) + [old(bufs)[b].key]
      ensures current == old(current)[old(bufs)[b].key := d] && newest == old(newest)[old(bufs)[b].key := d]
      ensures stray == old(stray) - {old(bufs)[b].key}
    {
      hide Fit, Linked, Permutation, Unique, Coherent, Counted, Pinned, Fresh;
      FitNow();
      Write(b, d);
      LogWrite(b);
    }

    /** Release a buffer; what the log relies on. */
    method Release(b: int)
      requires Valid() && 0 <= b < NBUF && users[b] > 0
      modifies this`bufs, this`users, this`next, this`prev, this`order
      ensures Valid() && users == old(users)[b := old(users)[b] - 1] && SameKeys(old(bufs), bufs)
    {
      Brelse(b);
    }

    /** Release two buffers that were read after each other. */
    method ReleaseBoth(b: int, c: int, ghost users0: seq<int>)
      requires Valid() && 0 <= b < NBUF && 0 <= c < NBUF && b != c && |users0| == NBUF
      requires forall i :: 0 <= i < NBUF ==> users0[i] >= 0
      requires users == OneMore(OneMore(users0, b), c) || users == OneMore(OneMore(users0, c), b)
      modifies this`bufs, this`users, this`next, this`prev, this`order
      ensures Valid() && users == users0 && SameKeys(old(bufs), bufs)
    {
      hide Linked, Permutation, Unique, Coherent, Pinned, Fresh;
      Release(b);
      Release(c);
    }

    /** The buffer of the first logged block has a pin. */
    lemma FirstPinned(b: int)
      requires Valid() && 0 <= b < NBUF && logged != [] && bufs[b].key == logged[0]
      ensures |pins| == |users| == |bufs| == NBUF && pins[b] == 1
    {
    }

    /** The block of buffer `b` goes into the log's copy of it, which is in buffer `c`. */
    method StoreCopy(b: int, c: int, ghost users0: seq<int>)
      requires Valid() && 0 <= b < NBUF && 0 <= c < NBUF && b != c && bufs[c].valid && |users0| == NBUF
      requires (forall i :: 0 <= i < NBUF ==> users0[i] >= 0) && users == OneMore(OneMore(users0, c), b)
      modifies this`bufs, this`users, this`current, this`newest, this`stray, this`disk, this`next, this`prev, this`order
      ensures Valid() && users == users0 && SameKeys(old(bufs), bufs)
      ensures current == old(current)[old(bufs)[c].key := old(bufs)[b].data] &&
              disk == old(disk)[old(bufs)[c].key := old(bufs)[b].data]
      ensures newest == old(newest)[old(bufs)[c].key := old(bufs)[b].data] && stray == old(stray) - {old(bufs)[c].key}
    {
      WriteThrough(c, bufs[b].data);
      ghost var bufs1 := bufs;
      ReleaseBoth(b, c, users0);
      SameKeysTwice(old(bufs), bufs1, bufs);
    }

    /** The first block of the log, in buffer `b`, gets contents `d`, on the disk too, and loses its pin. */
    method PutHome(b: int, d: Block)
      requires Valid() && 0 <= b < NBUF && users[b] > 0 && bufs[b].valid && logged != [] && bufs[b].key == logged[0]
      modifies this`bufs, this`current, this`newest, this`stray, this`disk, this`pins, this`logged
      ensures Valid() && SameKeys(old(bufs), bufs) && logged == old(logged)[1..]
      ensures newest == old(newest)[old(bufs)[b].key := d] && stray == old(stray) - {old(bufs)[b].key}
      ensures |old(pins)| == NBUF && old(pins)[b] == 1 && pins == old(pins)[b := 0]
      ensures current == old(current)[old(bufs)[b].key := d] && disk == old(disk)[old(bufs)[b].key := d]
    {
      FirstPinned(b);
      hide Fit, Linked, Permutation, Unique, Coherent, Counted, Pinned, Room, Cached, Kept, Fresh;
      WriteThrough(b, d);
      Unlog(b);
    }

    /** The copy in buffer `c` goes home to its block, the first one of the log, in buffer `b`. */
    method StoreHome(b: int, c: int, ghost users0: seq<int>)
      requires Valid() && 0 <= b < NBUF && 0 <= c < NBUF && b != c && bufs[b].valid && logged != [] &&
               bufs[b].key == logged[0]
      requires |users0| == NBUF && (forall i :: 0 <= i < NBUF ==> users0[i] >= 0) &&
               users == OneMore(OneMore(users0, c), b)
      modifies this`bufs, this`users, this`current, this`newest, this`stray, this`disk, this`next, this`prev,
          this`order, this`pins, this`logged
      ensures Valid() && users == users0 && SameKeys(old(bufs), bufs) && logged == old(logged)[1..]
      ensures Room(users, old(pins)) ==> Room(users, pins)
      ensures current == old(current)[old(bufs)[b].key := old(bufs)[c].data] &&
              disk == old(disk)[old(bufs)[b].key := old(bufs)[c].data]
      ensures newest == old(newest)[old(bufs)[b].key := old(bufs)[c].data] && stray == old(stray) - {old(bufs)[b].key}
    {
      OneMoreTwice(users0, c, b);
      hide Fit, Linked, Permutation, Unique, Coherent, Counted, Pinned, Room, Cached, Kept, SameKeys, OneMore, Fresh;
      PutHome(b, bufs[c].data);
      StillRoom(users0, old(pins), b, pins);
      ghost var bufs1 := bufs;
      ReleaseBoth(c, b, users0);
      SameKeysTwice(old(bufs), bufs1, bufs);
    }

    /** One turn of `write_log`: the first read finds a buffer or the source panics. */
    method CopyToLog(k: Key, copy: Key) returns (ok: bool)
      requires Valid() && k in logged && k in current && k.dev != 0 && copy in disk && copy !in logged && copy.dev != 0
      modifies this`bufs, this`users, this`current, this`newest, this`stray, this`disk, this`next, this`prev, this`order
      ensures Valid() && users == old(users)
      ensures ok <==> Cached(old(bufs), copy) || Room(old(users), pins)
      ensures ok ==> disk == old(disk)[copy := old(current)[k]]
      ensures ok ==> Updated(logged, old(disk), old(current), current, copy, old(current)[k])
      ensures newest == (if ok then old(newest)[copy := old(current)[k]] else old(newest))
      ensures stray == if ok then old(stray) - {copy} else old(stray)
      ensures !Room(old(users), pins) ==> SameKeys(old(bufs), bufs)
    {
      hide Fit, Coherent, Counted, Linked, Unique, Permutation, Pinned, Room, Cached, Kept, Updated, SameKeys, Fresh;
      FitNow();
      var c, b;
      ok, c, b := ReadPair(k, copy);
      if !ok {
        return;
      }
      ghost var bufs1 := bufs;
      KeptUpdated(logged, disk, old(current), current, copy, bufs[b].data);
      StoreCopy(b, c, old(users));
      SameKeysTwice(old(bufs), bufs1, bufs);
    }

    /** One turn of `install_trans` after a commit: the first block of the log gets the contents of its copy, on the
        disk too, and its pin goes. */
    method CopyHome(copy: Key) returns (ok: bool)
      requires Valid() && logged != [] && logged[0] in current && logged[0].dev != 0 && copy in current &&
               copy !in logged && copy.dev != 0
      modifies this`bufs, this`users, this`current, this`newest, this`stray, this`disk, this`next, this`prev,
          this`order, this`pins, this`logged
      ensures Valid() && users == old(users)
      ensures ok <==> Cached(old(bufs), copy) || Room(old(users), old(pins))
      ensures ok ==> logged == old(logged)[1..] && (Room(users, old(pins)) ==> Room(users, pins))
      ensures ok ==> disk == old(disk)[old(logged)[0] := old(current)[copy]]
      ensures ok ==> Updated(old(logged), old(disk), old(current), current, old(logged)[0], old(current)[copy])
      ensures newest == (if ok then old(newest)[old(logged)[0] := old(current)[copy]] else old(newest))
      ensures stray == if ok then old(stray) - {old(logged)[0]} else old(stray)
      ensures !Room(old(users), old(pins)) ==> SameKeys(old(bufs), bufs)
    {
      hide Fit, Coherent, Counted, Linked, Unique, Permutation, Pinned, Room, Cached, Kept, Updated, SameKeys, Fresh;
      FitNow();
      var c, b;
      ok, c, b := ReadPair(logged[0], copy);
      if ok {
        ghost var bufs1 := bufs;
        KeptUpdated(logged, disk, old(current), current, logged[0], bufs[c].data);
        StoreHome(b, c, old(users));
        SameKeysTwice(old(bufs), bufs1, bufs);
      }
    }

    /** Copy the logged blocks to the log, as long as buffers for the copies are found. */
    method WriteLog(dev: int, start: int) returns (ok: bool)
      requires Valid() && LogArea(dev, start, logged, disk)
      modifies this`bufs, this`users, this`current, this`newest, this`stray, this`disk, this`next, this`prev, this`order
      ensures Valid() && users == old(users)
      ensures ok <==> Room(users, pins) || CopiesCached(old(bufs), dev, start, |logged|)
      ensures ok ==> Logging(dev, start, logged, old(current), |logged|, old(bufs), Room(users, pins), bufs, disk,
                             current)
      ensures OutsideLog(dev, start, |logged|, old(newest), newest) && stray <= old(stray)
    {
      var tail := 0;
      LoggedReadAs(bufs, disk, current, pins, logged);
      ghost var c, bufs0, room := current, bufs, Room(users, pins);
      while tail < |logged|
        invariant 0 <= tail <= |logged| && Valid() && users == old(users)
        invariant Logging(dev, start, logged, c, tail, bufs0, room, bufs, disk, current)
        invariant OutsideLog(dev, start, |logged|, old(newest), newest) && stray <= old(stray)
      {
        ok := LogTurn(dev, start, tail, c, bufs0);
        if !ok {
          return;
        }
        tail := tail + 1;
      }
      ok := true;
    }

    method LogTurn(dev: int, start: int, tail: int, ghost c: map<Key, Block>, ghost bufs0: seq<Buf>) returns (ok: bool)
      requires Valid() && 0 <= tail < |logged|
      requires Logging(dev, start, logged, c, tail, bufs0, Room(users, pins), bufs, disk, current)
      modifies this`bufs, this`users, this`current, this`newest, this`stray, this`disk, this`next, this`prev, this`order
      ensures Valid() && users == old(users)
      ensures ok ==> Logging(dev, start, logged, c, tail + 1, bufs0, Room(users, pins), bufs, disk, current)
      ensures OutsideLog(dev, start, |logged|, old(newest), newest) && stray <= old(stray)
      ensures !ok ==> !Room(users, pins) && !CopiesCached(bufs0, dev, start, |logged|)
    {
      hide Linked, Permutation, Unique, Coherent, Counted, Pinned, Room, Cached, SameKeys, Fresh, CopiesCached, Copied,
        ReadAs, LogArea, Updated;
      FitNow();
      ghost var bufs1, disk1, current1, room := bufs, disk, current, Room(users, pins);
      var k, copy := logged[tail], LogKey(dev, start, tail);
      assert k in logged;
      LoggedOnDisk(bufs, disk, current, pins, logged, k);
      LogAreaAt(dev, start, logged, disk, tail);
      ok := CopyToLog(k, copy);
      LoggingStep(dev, start, logged, c, tail, bufs0, room, bufs1, disk1, current1, ok, bufs, disk, current);
    }

    /** Change a buffer whose block is not logged, log it and release it. */
    method LogBuffer(b: int, d: Block, ghost users0: seq<int>)
      requires Valid() && 0 <= b < NBUF && bufs[b].valid && bufs[b].key !in logged
      requires |users0| == NBUF && users0[b] >= 0 && users == OneMore(users0, b)
      modifies this`bufs, this`users, this`current, this`newest, this`stray, this`pins, this`logged, this`next,
          this`prev, this`order
      ensures Valid() && users == users0 && logged == old(logged) + [old(bufs)[b].key]
      ensures current == old(current)[old(bufs)[b].key := d] && newest == old(newest)[old(bufs)[b].key := d]
      ensures stray == old(stray) - {old(bufs)[b].key}
    {
      hide Fit, Linked, Permutation, Unique, Coherent, Counted, Pinned, Fresh;
      FitNow();
      OneMoreLess(users0, b);
      WriteLogged(b, d);
      Release(b);
    }

    /** Read a block, change it, log it and release it. */
    method LogOne(k: Key, d: Block)
      requires Valid() && Room(users, pins) && k in disk && k.dev != 0 && k !in logged
      modifies this`bufs, this`users, this`current, this`newest, this`stray, this`pins, this`logged, this`next,
          this`prev, this`order
      ensures Valid() && users == old(users) && logged == old(logged) + [k]
      ensures newest == old(newest)[k := d] && stray == old(stray) - {k} && k in current && current[k] == d
    {
      assert |users| == NBUF && forall i :: 0 <= i < NBUF ==> users[i] >= 0;
      var b := Fetch(k);
      LogBuffer(b, d, old(users));
    }

    /** Read a block that no buffer has into an unused one. */
    method TakeUnused(k: Key) returns (r: int)
      requires Valid() && Room(users, pins) && !Cached(bufs, k) && k in disk && k.dev != 0
      modifies this`bufs, this`users, this`current
      ensures Valid() && 0 <= r < NBUF && old(users)[r] == 0 && users == OneMore(old(users), r)
      ensures |bufs| == NBUF && bufs == old(bufs)[r := bufs[r]] && bufs[r].key == k
    {
      r := Bread(k);
    }

    lemma FitNow()
      requires Valid()
      ensures current.Keys == disk.Keys == newest.Keys && |users| == |bufs| == NBUF
      ensures forall i :: 0 <= i < NBUF ==> users[i] >= 0
    {
    }

    lemma CoherentNow()
      requires Valid()
      ensures Coherent(bufs, disk, current) && current.Keys == disk.Keys
    {
    }

    /** Release a buffer that has one user and no pin, and read another block. */
    method FreeAndRead(b: int, k: Key) returns (r: int)
      requires Valid() && 0 <= b < NBUF && users[b] == 1 && pins[b] == 0 && k in disk && k in current && k.dev != 0
      modifies this`bufs, this`users, this`current, this`next, this`prev, this`order
      ensures Valid() && r < NBUF && Reads(bufs, r, k, old(current)[k])
    {
      FreeOne(b);
      r := Fetch(k);
    }

    /** Release a buffer that has one user and no pin. */
    method FreeOne(b: int)
      requires Valid() && 0 <= b < NBUF && users[b] == 1 && pins[b] == 0
      modifies this`bufs, this`users, this`next, this`prev, this`order
      ensures Valid() && Room(users, pins)
    {
      Release(b);
      assert users[b] + pins[b] == 0;
    }

    /** Read a block, change it and release it without logging it, as a write does whose source faults. */
    method WriteUnlogged(k: Key, d: Block)
      requires Valid() && Room(users, pins) && k in disk && k.dev != 0
      modifies this`bufs, this`users, this`current, this`newest, this`stray, this`next, this`prev, this`order
      ensures Valid() && users == old(users) && newest == old(newest)[k := d] && k in current && current[k] == d
      ensures stray == if k in logged then old(stray) - {k} else old(stray) + {k}
      ensures SameKeysBut(old(bufs), bufs, k)
    {
      assert |users| == NBUF && forall i :: 0 <= i < NBUF ==> users[i] >= 0;
      var b := Fetch(k);
      hide Fit, Linked, Permutation, Unique, Coherent, Counted, Pinned, Fresh, Room, Cached, Kept, SameKeys,
        SameKeysBut;
      ghost var bufs1 := bufs;
      ChangeAndRelease(b, d, old(users));
      SameKeysOne(old(bufs), bufs1, bufs, b, k);
    }

    method ChangeAndRelease(b: int, d: Block, ghost users0: seq<int>)
      requires Valid() && 0 <= b < NBUF && bufs[b].valid && |users0| == NBUF && users0[b] >= 0 &&
               users == OneMore(users0, b)
      modifies this`bufs, this`users, this`current, this`newest, this`stray, this`next, this`prev, this`order
      ensures Valid() && users == users0 && SameKeys(old(bufs), bufs)
      ensures newest == old(newest)[old(bufs)[b].key := d] && current == old(current)[old(bufs)[b].key := d]
      ensures stray ==
              if old(bufs)[b].key in logged then old(stray) - {old(bufs)[b].key} else old(stray) + {old(bufs)[b].key}
    {
      hide Fit, Linked, Permutation, Unique, Coherent, Counted, Pinned, Room, Cached, Fresh;
      FitNow();
      OneMoreLess(users0, b);
      ghost var bufs1 := bufs;
      Write(b, d);
      ghost var bufs2 := bufs;
      Release(b);
      SameKeysTwice(bufs1, bufs2, bufs);
    }

    /** Write the log header. */
    method WriteHead(dev: int, start: int, d: Block) returns (ok: bool)
      requires Valid() && dev != 0 && LogKey(dev, start, -1) in disk && LogKey(dev, start, -1) !in logged
      modifies this`bufs, this`users, this`current, this`newest, this`stray, this`disk, this`next, this`prev, this`order
      ensures Valid() && users == old(users)
      ensures ok <==> Cached(old(bufs), LogKey(dev, start, -1)) || Room(old(users), pins)
      ensures ok ==> disk == old(disk)[LogKey(dev, start, -1) := d]
      ensures ok ==> Updated(logged, old(disk), old(current), current, LogKey(dev, start, -1), d)
      ensures newest == (if ok then old(newest)[LogKey(dev, start, -1) := d] else old(newest))
      ensures stray == if ok then old(stray) - {LogKey(dev, start, -1)} else old(stray)
      ensures !Room(old(users), pins) ==> SameKeys(old(bufs), bufs)
    {
      hide Fit, Coherent, Counted, Linked, Unique, Permutation, Pinned, Room, Cached, Kept, Updated, SameKeys, Fresh;
      FitNow();
      SameKeysSelf(bufs);
      var k := LogKey(dev, start, -1);
      var b := Fetch(k);
      ok := b != NBUF;
      if ok {
        ghost var bufs1 := bufs;
        KeptUpdated(logged, disk, old(current), current, k, d);
        StoreHead(b, d, old(users));
        SameKeysTwice(old(bufs), bufs1, bufs);
      }
    }

    method StoreHead(b: int, d: Block, ghost users0: seq<int>)
      requires Valid() && 0 <= b < NBUF && bufs[b].valid && |users0| == NBUF && users0[b] >= 0 &&
               users == OneMore(users0, b)
      modifies this`bufs, this`users, this`current, this`newest, this`stray, this`disk, this`next, this`prev, this`order
      ensures Valid() && users == users0 && SameKeys(old(bufs), bufs)
      ensures current == old(current)[old(bufs)[b].key := d] && disk == old(disk)[old(bufs)[b].key := d]
      ensures newest == old(newest)[old(bufs)[b].key := d] && stray == old(stray) - {old(bufs)[b].key}
    {
      OneMoreLess(users0, b);
      hide Coherent, Linked, Unique, Permutation, Pinned, Fresh;
      WriteThrough(b, d);
      Release(b);
    }

    /** Write the logged blocks home from their copies in the log. The copies are in buffers, or one is free. */
    method InstallTrans(dev: int, start: int, ghost c: map<Key, Block>)
      requires Valid() && Installing(dev, start, logged, c, 0, disk, current)
      requires Room(users, pins) || CopiesCached(bufs, dev, start, |logged|)
      modifies this`bufs, this`users, this`current, this`newest, this`stray, this`disk, this`next, this`prev,
          this`order, this`pins, this`logged
      ensures Valid() && users == old(users) && logged == []
      ensures Installing(dev, start, old(logged), c, |old(logged)|, disk, current)
      ensures Room(users, pins) || SameKeys(old(bufs), bufs)
      ensures Room(users, old(pins)) ==> Room(users, pins)
      ensures Installed(old(logged), c, |old(logged)|, old(newest), newest, old(stray), stray)
    {
      var tail := 0;
      ghost var all, bufs0 := logged, bufs;
      while logged != []
        invariant 0 <= tail <= |all| && logged == all[tail..] && Valid() && users == old(users)
        invariant Installing(dev, start, all, c, tail, disk, current)
        invariant Room(users, pins) || (SameKeys(bufs0, bufs) && CopiesCached(bufs0, dev, start, |all|))
        invariant Room(users, old(pins)) ==> Room(users, pins)
        invariant Installed(all, c, tail, old(newest), newest, old(stray), stray)
        decreases |logged|
      {
        InstallTurn(dev, start, tail, all, c, bufs0, old(newest), old(stray));
        tail := tail + 1;
      }
    }

    method InstallTurn(dev: int, start: int, tail: int, ghost all: seq<Key>, ghost c: map<Key, Block>,
                       ghost bufs0: seq<Buf>, ghost newest0: map<Key, Block>, ghost stray0: set<Key>)
      requires Installed(all, c, tail, newest0, newest, stray0, stray)
      requires Valid() && 0 <= tail < |all| && logged == all[tail..] &&
               Installing(dev, start, all, c, tail, disk, current)
      requires forall s, t :: 0 <= s < t < |all| ==> all[s] != all[t]
      requires Room(users, pins) || (SameKeys(bufs0, bufs) && CopiesCached(bufs0, dev, start, |all|))
      modifies this`bufs, this`users, this`current, this`newest, this`stray, this`disk, this`next, this`prev,
          this`order, this`pins, this`logged
      ensures Valid() && users == old(users) && logged == all[tail + 1..]
      ensures Installing(dev, start, all, c, tail + 1, disk, current)
      ensures Room(users, pins) || (SameKeys(bufs0, bufs) && CopiesCached(bufs0, dev, start, |all|))
      ensures Room(users, old(pins)) ==> Room(users, pins)
      ensures Installed(all, c, tail + 1, newest0, newest, stray0, stray)
    {
      ghost var bufs1, disk1, current1, logged1 := bufs, disk, current, logged;
      var copy := LogKey(dev, start, tail);
      assert logged[0] == all[tail] && all[tail] in all && logged[0] in logged;
      LoggedOnDisk(bufs, disk, current, pins, logged, logged[0]);
      assert copy !in logged;
      if !Room(users, pins) {
        SameCached(bufs0, bufs, copy);
      }
      var ok := CopyHome(copy);
      InstalledOne(dev, start, all, c, tail, logged1, disk1, current1, c[all[tail]], disk, current);
      InstalledNext(all, c, tail, newest0, old(newest), newest, stray0, old(stray), stray);
      SameKeysTwice(bufs0, bufs1, bufs);
    }

    /** The whole of `commit`. `head` and `clear` are the contents of the log header with and without the blocks. It
        finds a buffer for each of its reads exactly when nothing is logged, a buffer is free, or the copies and the
        header are in buffers; otherwise the source panics. With no users of buffers that is when fewer blocks are
        logged than there are buffers. Then every block that was logged is on the disk as it read before. */
    method Commit(dev: int, start: int, head: Block, clear: Block) returns (ok: bool)
      requires Valid() && LogArea(dev, start, logged, disk)
      modifies this`bufs, this`users, this`current, this`newest, this`stray, this`disk, this`next, this`prev,
          this`order, this`pins, this`logged
      ensures Valid() && users == old(users)
      ensures ok <==> || old(logged) == [] || Room(old(users), old(pins))
                      || (CopiesCached(old(bufs), dev, start, |old(logged)|) &&
                          Cached(old(bufs), LogKey(dev, start, -1)))
      ensures NoUsers(old(users)) ==> (ok <==> |old(logged)| < NBUF)
      ensures ok ==> logged == [] && Home(old(logged), old(current), disk, current)
      ensures Committed(ok, dev, start, old(logged), old(current), old(newest), newest) && stray <= old(stray)
      ensures ok ==> forall k :: k in old(logged) ==> k !in stray
    {
      hide Linked, Permutation, Unique, Coherent, Counted, Pinned, Fresh, SameKeys, Cached, Room, Committed, Home,
        NoUsers, OutsideLog, Copied, ReadAs;
      if NoUsers(users) {
        RoomUnlessFull(bufs, users, pins, logged);
      }
      if logged == [] {
        CommittedNone(dev, start, current, newest, disk, current);
        return true;
      }
      LogAreaAt(dev, start, logged, disk, -1);
      ghost var all, c, bufs0, newest0 := logged, current, bufs, newest;
      ok := WriteLog(dev, start);
      ghost var bufs1, disk1, current1, newest1 := bufs, disk, current, newest;
      if !ok {
        CommittedAfter(false, dev, start, all, c, newest0, newest1, newest, newest, head);
        return;
      }
      SameCached(bufs0, bufs1, LogKey(dev, start, -1));
      LogAreaAt(dev, start, logged, disk, -1);
      FitNow();
      ok := WriteHead(dev, start, head);
      ghost var newest2 := newest;
      if !ok {
        CommittedAfter(false, dev, start, all, c, newest0, newest1, newest, newest, head);
        return;
      }
      HeaderApart(dev, start, all, c, 0, logged, disk1, current1, head, disk, current);
      SameKeysTwice(bufs0, bufs1, bufs);
      ok := Finish(dev, start, clear, c, bufs0);
      CommittedAfter(true, dev, start, all, c, newest0, newest1, newest2, newest, head);
    }

    /** The rest of `commit`, once the header is written. */
    method Finish(dev: int, start: int, clear: Block, ghost c: map<Key, Block>,
                  ghost bufs0: seq<Buf>) returns (ok: bool)
      requires Valid() && logged != [] && Installing(dev, start, logged, c, 0, disk, current)
      requires Room(users, pins) || (SameKeys(bufs0, bufs) && CopiesCached(bufs0, dev, start, |logged|) &&
                                     Cached(bufs0, LogKey(dev, start, -1)))
      modifies this`bufs, this`users, this`current, this`newest, this`stray, this`disk, this`next, this`prev,
          this`order, this`pins, this`logged
      ensures Valid() && users == old(users) && ok
      ensures logged == [] && Home(old(logged), c, disk, current)
      ensures Committed(true, dev, start, old(logged), c, old(newest), newest) && stray <= old(stray)
      ensures forall k :: k in old(logged) ==> k !in stray
    {
      hide Fit, Linked, Permutation, Unique, Coherent, Counted, Pinned, Fresh, Copied, ReadAs, SameKeys, CopiesCached,
        Cached, Room, Committed, Installed, Home, LogArea;
      ghost var all, bufs1 := logged, bufs;
      AllSameCached(bufs0, bufs, dev, start, |logged|);
      InstallTrans(dev, start, c);
      SameKeysTwice(bufs0, bufs1, bufs);
      SameCached(bufs0, bufs, LogKey(dev, start, -1));
      ok := ClearHead(dev, start, clear, all, c, old(newest), old(stray));
    }

    /** The end of `commit`: all blocks are home, and the header is cleared. */
    method ClearHead(dev: int, start: int, clear: Block, ghost all: seq<Key>, ghost c: map<Key, Block>,
                     ghost newest0: map<Key, Block>, ghost stray0: set<Key>) returns (ok: bool)
      requires Valid() && logged == [] && Installing(dev, start, all, c, |all|, disk, current)
      requires Installed(all, c, |all|, newest0, newest, stray0, stray)
      requires Room(users, pins) || Cached(bufs, LogKey(dev, start, -1))
      modifies this`bufs, this`users, this`current, this`newest, this`stray, this`disk, this`next, this`prev, this`order
      ensures Valid() && users == old(users) && ok && Home(all, c, disk, current)
      ensures Committed(true, dev, start, all, c, newest0, newest) && stray <= stray0
      ensures forall k :: k in all ==> k !in stray
    {
      hide Fit, Linked, Permutation, Unique, Coherent, Counted, Pinned, Fresh, Copied, ReadAs, SameKeys, CopiesCached,
        Cached, Room, Committed, Installed, Home, LogArea;
      FitNow();
      ghost var disk2, current2, newest2, stray2 := disk, current, newest, stray;
      LogAreaAt(dev, start, all, disk, -1);
      ok := WriteHead(dev, start, clear);
      HeaderApart(dev, start, all, c, |all|, logged, disk2, current2, clear, disk, current);
      AllHome(dev, start, all, c, disk, current);
      InstalledAll(dev, start, all, c, newest0, newest2, newest, clear, stray0, stray2, stray);
    }
  }

  // ----- Runs -----

  /** A disk of 100 empty blocks. */
  function SmallDisk(): (r: map<Key, Block>)
    ensures forall k :: k in r <==> k.dev == 1 && 0 <= k.blockno < 100
    ensures forall k :: k in r ==> r[k] == []
  {
    map b | 0 <= b < 100 :: Key(1, b) := []
  }

  /** The blocks that the runs below use. */
  function DataKey(i: int): (k: Key) {
    Key(1, 50 + i)
  }

  /** As many blocks are logged as the log can hold, which is as many as there are buffers, and nobody uses a buffer:
      the commit does not find a buffer for the first copy. */
  method FullLog() returns (c: Cache, ok: bool)
    ensures fresh(c) && c.Valid() && NoUsers(c.users) && !ok
  {
    hide Linked, Permutation, Unique, Coherent, Counted, Pinned, Fresh, Room, Home, Committed;
    c := new Cache(SmallDisk());
    var i := 0;
    while i < NBUF
      invariant 0 <= i <= NBUF && c.Valid() && fresh(c) && NoUsers(c.users) && c.disk == SmallDisk() && |c.logged| == i
      invariant forall t :: 0 <= t < i ==> c.logged[t] == DataKey(t)
    {
      RoomUnlessFull(c.bufs, c.users, c.pins, c.logged);
      c.LogOne(DataKey(i), [1]);
      i := i + 1;
    }
    ok := c.Commit(1, 0, [], []);
  }

  lemma SomeOther(taken: seq<int>, n: nat)
    requires |taken| < n
    ensures exists b :: 0 <= b < n && b !in taken
  {
    if forall b :: 0 <= b < n ==> b in taken {
      var places := seq(n, b requires 0 <= b < n => Place(taken, b));
      assert forall b :: 0 <= b < n ==> taken[places[b]] == b;
      Crowded(places, |taken|);
    }
  }

  ghost function Place(taken: seq<int>, b: int): (j: int)
    requires b in taken
    ensures 0 <= j < |taken| && taken[j] == b
  {
    var j :| 0 <= j < |taken| && taken[j] == b;
    j
  }

  /** The buffers `taken` are in use for the first data blocks, and no others are in use or have a data block. */
  ghost predicate Busy(bufs: seq<Buf>, users: seq<int>, taken: seq<int>) {
    && |bufs| == |users| == NBUF && Nodes(taken)
    && (forall j :: 0 <= j < |taken| ==> bufs[taken[j]].key == DataKey(j) && users[taken[j]] == 1)
    && (forall b :: 0 <= b < NBUF && b !in taken ==> users[b] == 0)
    && (forall b :: 0 <= b < NBUF && b !in taken ==> bufs[b].key.blockno < 50)
  }

  lemma BusyRoom(bufs: seq<Buf>, users: seq<int>, pins: seq<int>, taken: seq<int>)
    requires Busy(bufs, users, taken) && |taken| < NBUF == |pins| && forall i :: 0 <= i < NBUF ==> pins[i] == 0
    ensures Room(users, pins) && !Cached(bufs, DataKey(|taken|))
  {
    SomeOther(taken, NBUF);
    var b :| 0 <= b < NBUF && b !in taken;
    assert users[b] + pins[b] == 0;
    forall i | 0 <= i < NBUF
      ensures bufs[i].key != DataKey(|taken|)
    {
      if i in taken {
        var j := Place(taken, i);
        assert bufs[taken[j]].key == DataKey(j);
      }
    }
  }

  lemma BusyMore(bufs: seq<Buf>, users: seq<int>, taken: seq<int>, r: int, bufs': seq<Buf>, users': seq<int>)
    requires Busy(bufs, users, taken) && 0 <= r < NBUF && users[r] == 0 && |bufs'| == NBUF
    requires bufs' == bufs[r := bufs'[r]] && bufs'[r].key == DataKey(|taken|) && users' == OneMore(users, r)
    ensures Busy(bufs', users', taken + [r])
  {
    var taken' := taken + [r];
    assert r !in taken;
    forall j | 0 <= j < |taken'|
      ensures bufs'[taken'[j]].key == DataKey(j) && users'[taken'[j]] == 1
    {
      assert j < |taken| ==> taken[j] != r;
    }
  }

  /** All buffers are in use for data blocks: what another block reads as is what is on the disk. */
  lemma BusyForgets(bufs: seq<Buf>, users: seq<int>, taken: seq<int>, disk: map<Key, Block>, current: map<Key, Block>,
                    k: Key)
    requires Busy(bufs, users, taken) && |taken| == NBUF && Coherent(bufs, disk, current)
    requires k in disk && k.blockno < 50
    ensures current[k] == disk[k] && 0 <= taken[0] < NBUF && users[taken[0]] == 1
  {
    forall i | 0 <= i < NBUF
      ensures bufs[i].key != k
    {
      OnList(taken, i);
      var j := Place(taken, i);
      assert bufs[taken[j]].key == DataKey(j);
    }
  }

  /** Read one more data block. */
  method CrowdOne(c: Cache, i: int, ghost taken: seq<int>) returns (r: int)
    requires c.Valid() && 0 <= i == |taken| < NBUF && DataKey(i) in c.disk && Busy(c.bufs, c.users, taken)
    requires |c.pins| == NBUF && forall j :: 0 <= j < NBUF ==> c.pins[j] == 0
    modifies c`bufs, c`users, c`current
    ensures c.Valid() && Busy(c.bufs, c.users, taken + [r])
  {
    hide Busy, Coherent, Counted, Linked, Unique, Permutation, Pinned, Fresh, Nodes, Room, Cached;
    BusyRoom(c.bufs, c.users, c.pins, taken);
    ghost var bufs1, users1 := c.bufs, c.users;
    r := c.TakeUnused(DataKey(i));
    BusyMore(bufs1, users1, taken, r, c.bufs, c.users);
  }

  /** Read the data blocks until all buffers are in use: the change of block 0 is forgotten. */
  method Crowd(c: Cache) returns (first: int)
    requires c.Valid() && c.logged == [] && c.disk == SmallDisk() && Busy(c.bufs, c.users, [])
    modifies c`bufs, c`users, c`current
    ensures c.Valid() && 0 <= first < NBUF && c.users[first] == 1 && c.pins[first] == 0
    ensures Key(1, 0) in c.current && c.current[Key(1, 0)] == [] && Key(1, 0) in c.disk
  {
    ghost var taken: seq<int> := [];
    first := 0;
    var i := 0;
    assert |c.pins| == NBUF && forall i :: 0 <= i < NBUF ==> c.pins[i] == 0;
    hide Busy, Coherent, Counted, Linked, Unique, Permutation, Pinned, Fresh, Nodes, Room, Cached, OneMore;
    while i < NBUF
      invariant 0 <= i == |taken| <= NBUF && c.Valid() && Busy(c.bufs, c.users, taken)
      invariant i > 0 ==> taken[0] == first
    {
      var r := CrowdOne(c, i, taken);
      taken := taken + [r];
      first := if i == 0 then r else first;
      i := i + 1;
    }
    c.CoherentNow();
    BusyForgets(c.bufs, c.users, taken, c.disk, c.current, Key(1, 0));
  }

  /** A cache in which block 0 has been changed without being logged. */
  method ChangedCache() returns (c: Cache)
    ensures fresh(c) && c.Valid() && c.logged == [] && c.disk == SmallDisk() && Busy(c.bufs, c.users, [])
    ensures Key(1, 0) in c.newest && c.newest[Key(1, 0)] == [1] && Key(1, 0) in c.current && c.current[Key(1, 0)] == [1]
    ensures Key(1, 0) in c.stray
  {
    c := new Cache(SmallDisk());
    RoomUnlessFull(c.bufs, c.users, c.pins, c.logged);
    c.WriteUnlogged(Key(1, 0), [1]);
  }

  /** Block 0 is changed and its buffer released without being logged or written. While the buffers serve other blocks
      the change is forgotten: the next reader gets the old contents. */
  method LostWrite() returns (c: Cache, b: int)
    ensures fresh(c) && c.Valid() && Key(1, 0) in c.newest && c.newest[Key(1, 0)] == [1] && Key(1, 0) in c.stray
    ensures b < NBUF && Reads(c.bufs, b, Key(1, 0), [])
  {
    hide Linked, Permutation, Unique, Coherent, Counted, Pinned, Fresh, Room, Cached, Kept, SameKeys, Busy, SmallDisk;
    c := ChangedCache();
    var first := Crowd(c);
    b := c.FreeAndRead(first, Key(1, 0));
  }
}
