/** The driver side of the split virtqueue (sections 2.6 and 5.2.6 of VIRTIO 1.1), with the device as a party that takes
    requests and completes them in any order. Each method is what happens under one hold of vdisk_lock, or one step of
    the device. */
module Virtio {
  import opened Sequences

  const NUM := 8
  const IDX := 0x1_0000

  type Block = seq<int>

  /** What a descriptor points to: a request header, the data of a buffer, or a status byte. */
  datatype Addr = Nowhere | Header(i: int) | Data(buf: int) | Status(i: int)
  datatype Desc = Desc(addr: Addr, deviceWrites: bool, more: bool, next: int)
  datatype Request = Request(write: bool, sector: int)
  datatype Info = Info(buf: int, status: int)

  const UNUSED := Desc(Nowhere, false, false, 0)
  const NOBUF := -1
  /** The status before the device has written one. */
  const NO_STATUS := 0xff

  datatype Phase = Submitted | AtDevice | Used | Done

  /** A request in flight: the two descriptors after the first, what was asked for, how far it has come, and its
      status. */
  datatype Chain = Chain(second: int, third: int, buf: int, block: int, write: bool, phase: Phase, status: int)
  type Chains = map<int, Chain>

  /** The free descriptors and the three-element chains in flight partition 0 .. NUM - 1: `owner` names the chain of
      each descriptor in use. */
  ghost predicate Partition(free: seq<bool>, owner: seq<int>, chains: Chains) {
    && |free| == |owner| == NUM
    && (forall i {:trigger free[i]} :: 0 <= i < NUM ==> (free[i] <==> owner[i] == -1))
    && (forall i {:trigger free[i]} :: 0 <= i < NUM && !free[i] ==>
          owner[i] in chains && (i == owner[i] || i == chains[owner[i]].second || i == chains[owner[i]].third))
    && (forall h {:trigger chains[h]} :: h in chains ==>
        Distinct3(h, chains[h].second, chains[h].third) && Owned(owner, h, chains[h]))
  }

  predicate Owned(owner: seq<int>, h: int, c: Chain)
    requires |owner| == NUM && Distinct3(h, c.second, c.third)
  {
    owner[h] == h && owner[c.second] == h && owner[c.third] == h
  }

  predicate Distinct3(a: int, b: int, c: int) {
    0 <= a < NUM && 0 <= b < NUM && 0 <= c < NUM && a != b && a != c && b != c
  }

  /** Unused descriptors are blank, and each chain says what was asked for. */
  ghost predicate Formatted(free: seq<bool>, desc: seq<Desc>, ops: seq<Request>, chains: Chains) {
    && |free| == |desc| == |ops| == NUM
    && (forall i :: 0 <= i < NUM && free[i] ==> desc[i] == UNUSED)
    && (forall h :: h in chains ==> ChainAt(desc, ops, h, chains[h]))
  }

  predicate ChainAt(desc: seq<Desc>, ops: seq<Request>, h: int, c: Chain) {
    && |desc| == |ops| == NUM && Distinct3(h, c.second, c.third)
    && desc[h] == Desc(Header(h), false, true, c.second) && ops[h] == Request(c.write, c.block * 2)
    && desc[c.second] == Desc(Data(c.buf), !c.write, true, c.third)
    && desc[c.third] == Desc(Status(h), true, false, 0)
  }

  /** The buffers in flight are known by the head of their chain, no two chains have the same one, and a buffer is
      marked as belonging to the disk until the driver has seen its successful completion. */
  ghost predicate Buffers(info: seq<Info>, busy: set<int>, chains: Chains) {
    && |info| == NUM
    && (forall h :: h in chains ==> 0 <= h < NUM && info[h].buf == chains[h].buf)
    && (forall h :: h in chains ==>
        info[h].status == chains[h].status && (chains[h].phase.Done? ==> chains[h].status == 0))
    && (forall h :: h in chains ==> (chains[h].buf in busy <==> !chains[h].phase.Done?))
    && (forall h, g :: h in chains && g in chains && chains[h].buf == chains[g].buf ==> h == g)
  }

  /** A ring shared by two parties: its slots, the index of the one who adds, and how far the other has looked. */
  datatype Queue = Queue(ring: seq<int>, idx: int, mine: int)

  /** A ring with running total `seen` holds exactly `queue`, oldest first; its two indices are 16-bit. */
  ghost predicate Ring(q: Queue, queue: seq<int>, seen: nat) {
    && |q.ring| == NUM && |queue| <= NUM
    && q.idx == (seen + |queue|) % IDX && q.mine == seen % IDX
    && (forall k :: 0 <= k < |queue| ==> q.ring[Slot(seen + k)] == queue[k])
  }

  /** The slot of the ring for the n-th entry. */
  function Slot(n: nat): (i: nat)
    ensures i < NUM
  {
    n % NUM
  }

  function Push(q: Queue, h: int): (r: Queue)
    requires |q.ring| == NUM && 0 <= q.idx
  {
    Queue(q.ring[Slot(q.idx) := h], (q.idx + 1) % IDX, q.mine)
  }

  function Pop(q: Queue): (r: Queue) {
    q.(mine := (q.mine + 1) % IDX)
  }

  /** The queue lists the chains in one phase, each once. */
  ghost predicate Lists(queue: seq<int>, chains: Chains, phase: Phase) {
    && (forall k :: 0 <= k < |queue| ==> queue[k] in chains && chains[queue[k]].phase == phase)
    && (forall h :: h in chains && chains[h].phase == phase ==> h in queue)
    && (forall j, k :: 0 <= j < k < |queue| ==> queue[j] != queue[k])
  }

  /** Descriptors and chains. */
  ghost predicate Table(free: seq<bool>, owner: seq<int>, desc: seq<Desc>, ops: seq<Request>, chains: Chains) {
    Partition(free, owner, chains) && Formatted(free, desc, ops, chains)
  }

  /** The avail ring holds the requests the device has not taken, and the used ring the completions the driver has not
      seen. */
  ghost predicate Queues(chains: Chains, avail: Queue, pending: seq<int>, taken: nat, used: Queue, finished: seq<int>,
                         looked: nat) {
    && Ring(avail, pending, taken) && Lists(pending, chains, Submitted)
    && Ring(used, finished, looked) && Lists(finished, chains, Used)
  }

  /** What the driver and the device are up to: the chain of each descriptor, the chains, the requests in the avail ring
      and how many the device has taken before, the completions in the used ring and how many the driver has seen
      before. */
  datatype View = View(owner: seq<int>, chains: Chains, pending: seq<int>, taken: nat, finished: seq<int>, looked: nat)

  // ----- Facts about rings -----

  /** The indices agree exactly when the queue is empty, even when they have wrapped around. */
  lemma RingEmpty(q: Queue, queue: seq<int>, seen: nat)
    requires Ring(q, queue, seen)
    ensures q.idx == q.mine <==> queue == []
    ensures queue != [] ==> q.ring[Slot(q.mine)] == queue[0]
  {
    Wrapped(seen);
    Ahead(seen, |queue|);
    if queue != [] {
      assert q.ring[Slot(seen + 0)] == queue[0];
    }
  }

  /** A 16-bit index names the same slot as the number it stands for. */
  lemma Wrapped(n: nat)
    ensures Slot(n % IDX) == Slot(n) && (n % IDX + 1) % IDX == (n + 1) % IDX
  {
    assert n == n / IDX * IDX + n % IDX;
    assert n / IDX * IDX == n / IDX * 8192 * NUM;
  }

  lemma Ahead(n: nat, k: nat)
    requires k <= NUM
    ensures (n + k) % IDX == n % IDX <==> k == 0
  {
  }

  /** Entries of one ring-full have different slots. */
  lemma Apart(n: nat, j: nat, k: nat)
    requires j < k < NUM
    ensures Slot(n + j) != Slot(n + k)
  {
    assert (n + k) - (n + j) == k - j;
  }

  /** Adding an entry overwrites no entry that is still in the queue. */
  lemma RingPush(q: Queue, queue: seq<int>, seen: nat, h: int)
    requires Ring(q, queue, seen) && |queue| < NUM
    ensures Ring(Push(q, h), queue + [h], seen)
  {
    var n, r, m := seen + |queue|, Push(q, h), |queue|;
    Wrapped(n);
    assert r.ring == q.ring[Slot(n) := h] && r.idx == (seen + (m + 1)) % IDX;
    hide Slot;
    forall k | 0 <= k < m + 1
      ensures r.ring[Slot(seen + k)] == (queue + [h])[k]
    {
      if k < m {
        Apart(seen, k, m);
      }
    }
  }

  /** The other side moves on. */
  lemma RingPop(q: Queue, queue: seq<int>, seen: nat)
    requires Ring(q, queue, seen) && queue != []
    ensures Ring(Pop(q), queue[1..], seen + 1)
  {
    Wrapped(seen);
    hide Slot;
    forall k | 0 <= k < |queue| - 1
      ensures q.ring[Slot(seen + 1 + k)] == queue[1..][k]
    {
      assert q.ring[Slot(seen + (k + 1))] == queue[k + 1];
    }
  }

  /** A queue of distinct chains has room for one that is not in it. */
  lemma Room(free: seq<bool>, owner: seq<int>, chains: Chains, queue: seq<int>, phase: Phase, h: int)
    requires Partition(free, owner, chains) && Lists(queue, chains, phase) && 0 <= h < NUM && h !in queue
    ensures |queue| < NUM
  {
    Crowded(queue + [h], NUM);
  }

  // ----- Chains come, move on and go -----

  function Set3<T>(s: seq<T>, a: int, b: int, c: int, x: T): (r: seq<T>)
    requires 0 <= a < |s| && 0 <= b < |s| && 0 <= c < |s|
    ensures |r| == |s| && forall i :: 0 <= i < |s| ==> r[i] == if i == a || i == b || i == c then x else s[i]
  {
    s[a := x][b := x][c := x]
  }

  /** Three free descriptors become a chain. */
  lemma ChainAdded(free: seq<bool>, owner: seq<int>, desc: seq<Desc>, ops: seq<Request>, chains: Chains, h: int,
                   c: Chain,
                   free': seq<bool>, owner': seq<int>, desc': seq<Desc>, ops': seq<Request>, chains': Chains)
    requires Table(free, owner, desc, ops, chains) && Distinct3(h, c.second, c.third)
    requires free[h] && free[c.second] && free[c.third] && free' == Set3(free, h, c.second, c.third, false)
    requires owner' == Set3(owner, h, c.second, c.third, h) && chains' == chains[h := c] && ChainAt(desc', ops', h, c)
    requires forall i :: 0 <= i < NUM && i != h && i != c.second && i != c.third ==>
             desc'[i] == desc[i] && ops'[i] == ops[i]
    ensures Table(free', owner', desc', ops', chains') && h !in chains
  {
    forall g | g in chains
      ensures NotIn(h, c, g) && NotIn(h, c, chains[g].second) && NotIn(h, c, chains[g].third)
    {
      assert Owned(owner, g, chains[g]);
    }
    PartitionAdded(free, owner, chains, h, c, free', owner', chains');
    hide Partition;
    forall g | g in chains'
      ensures ChainAt(desc', ops', g, chains'[g])
    {
      assert g != h ==> ChainAt(desc, ops, g, chains[g]);
    }
  }

  lemma PartitionAdded(free: seq<bool>, owner: seq<int>, chains: Chains, h: int, c: Chain, free': seq<bool>,
                       owner': seq<int>, chains': Chains)
    requires Partition(free, owner, chains) && Distinct3(h, c.second, c.third) && chains' == chains[h := c]
    requires free[h] && free[c.second] && free[c.third] && free' == Set3(free, h, c.second, c.third, false)
    requires owner' == Set3(owner, h, c.second, c.third, h)
    requires forall g :: g in chains ==>
               NotIn(h, c, g) && NotIn(h, c, chains[g].second) && NotIn(h, c, chains[g].third)
    ensures Partition(free', owner', chains')
  {
    forall g | g in chains'
      ensures Distinct3(g, chains'[g].second, chains'[g].third) && Owned(owner', g, chains'[g])
    {
      assert g != h ==> Owned(owner, g, chains[g]);
    }
  }

  /** Descriptor `i` does not belong to chain `c` with head `h`. */
  predicate NotIn(h: int, c: Chain, i: int) {
    i != h && i != c.second && i != c.third
  }

  /** Two chains have no descriptor in common. */
  lemma Separate(free: seq<bool>, owner: seq<int>, chains: Chains, g: int, h: int)
    requires Partition(free, owner, chains) && g in chains && h in chains && g != h
    ensures NotIn(h, chains[h], g) && NotIn(h, chains[h], chains[g].second) && NotIn(h, chains[h], chains[g].third)
  {
    assert Owned(owner, g, chains[g]) && Owned(owner, h, chains[h]);
  }

  lemma FormattedGone(free: seq<bool>, desc: seq<Desc>, ops: seq<Request>, chains: Chains, h: int,
                      free': seq<bool>, desc': seq<Desc>, chains': Chains)
    requires Formatted(free, desc, ops, chains) && h in chains && chains' == chains - {h}
    requires Distinct3(h, chains[h].second, chains[h].third)
    requires free' == Set3(free, h, chains[h].second, chains[h].third, true)
    requires desc' == Set3(desc, h, chains[h].second, chains[h].third, UNUSED)
    requires forall g :: g in chains' ==>
               NotIn(h, chains[h], g) && NotIn(h, chains[h], chains[g].second) && NotIn(h, chains[h], chains[g].third)
    ensures Formatted(free', desc', ops, chains')
  {
    forall g | g in chains'
      ensures ChainAt(desc', ops, g, chains'[g])
    {
      assert ChainAt(desc, ops, g, chains[g]);
    }
  }

  lemma PartitionGone(free: seq<bool>, owner: seq<int>, chains: Chains, h: int, free': seq<bool>, owner': seq<int>,
                      chains': Chains)
    requires Partition(free, owner, chains) && h in chains && chains' == chains - {h}
    requires free' == Set3(free, h, chains[h].second, chains[h].third, true)
    requires owner' == Set3(owner, h, chains[h].second, chains[h].third, -1)
    ensures Partition(free', owner', chains')
  {
    assert Owned(owner, h, chains[h]);
    forall g | g in chains'
      ensures Owned(owner', g, chains[g])
    {
      assert Owned(owner, g, chains[g]);
    }
  }

  /** The descriptors of a chain become free and blank. */
  lemma ChainGone(free: seq<bool>, owner: seq<int>, desc: seq<Desc>, ops: seq<Request>, chains: Chains, h: int,
                  free': seq<bool>, owner': seq<int>, desc': seq<Desc>, chains': Chains)
    requires Table(free, owner, desc, ops, chains) && h in chains && chains' == chains - {h}
    requires free' == Set3(free, h, chains[h].second, chains[h].third, true)
    requires owner' == Set3(owner, h, chains[h].second, chains[h].third, -1)
    requires desc' == Set3(desc, h, chains[h].second, chains[h].third, UNUSED)
    ensures Table(free', owner', desc', ops, chains')
  {
    PartitionGone(free, owner, chains, h, free', owner', chains');
    forall g | g in chains'
      ensures NotIn(h, chains[h], g) && NotIn(h, chains[h], chains[g].second) && NotIn(h, chains[h], chains[g].third)
    {
      Separate(free, owner, chains, g, h);
    }
    hide Partition;
    FormattedGone(free, desc, ops, chains, h, free', desc', chains');
  }

  /** A chain moves on to another phase. */
  lemma ChainMoves(free: seq<bool>, owner: seq<int>, desc: seq<Desc>, ops: seq<Request>, chains: Chains, h: int,
                   x: Phase, st: int, chains': Chains)
    requires Table(free, owner, desc, ops, chains) && h in chains
    requires chains' == chains[h := chains[h].(phase := x, status := st)]
    ensures Table(free, owner, desc, ops, chains')
  {
    forall g | g in chains
      ensures ChainAt(desc, ops, g, chains'[g]) && Owned(owner, g, chains'[g])
    {
      assert ChainAt(desc, ops, g, chains[g]) && Owned(owner, g, chains[g]);
    }
  }

  /** A chain enters the phase that a queue lists. */
  lemma ListsPush(queue: seq<int>, chains: Chains, phase: Phase, h: int, chains': Chains)
    requires Lists(queue, chains, phase) && (h in chains ==> chains[h].phase != phase)
    requires h in chains' && chains'[h].phase == phase && chains' == chains[h := chains'[h]]
    ensures Lists(queue + [h], chains', phase) && h !in queue
  {
    assert forall k :: 0 <= k < |queue| ==> (queue + [h])[k] == queue[k];
    assert (queue + [h])[|queue|] == h;
  }

  /** The oldest chain of a queue leaves the phase. */
  lemma ListsPop(queue: seq<int>, chains: Chains, phase: Phase, x: Phase, chains': Chains)
    requires Lists(queue, chains, phase) && queue != [] && x != phase
    requires chains' == Moved(chains, queue[0], x, chains[queue[0]].status)
    ensures Lists(queue[1..], chains', phase)
  {
    forall g | g in chains' && chains'[g].phase == phase
      ensures g in queue[1..]
    {
      assert g in queue && g != queue[0];
      var k :| 0 <= k < |queue| && queue[k] == g;
      assert queue[1..][k - 1] == g;
    }
  }

  /** A change to a chain outside the phase, before and after. */
  lemma ListsKept(queue: seq<int>, chains: Chains, phase: Phase, h: int, chains': Chains)
    requires Lists(queue, chains, phase) && (h in chains ==> chains[h].phase != phase) &&
             (h in chains' ==> chains'[h].phase != phase)
    requires forall g :: g != h ==> (g in chains <==> g in chains') && (g in chains ==> chains'[g] == chains[g])
    ensures Lists(queue, chains', phase)
  {
  }

  /** Some successfully completed chains have been seen. */
  ghost predicate SeenSome(chains: Chains, chains': Chains) {
    && chains'.Keys == chains.Keys
    && forall h :: h in chains ==>
        chains'[h] == chains[h] || (chains[h].phase == Used && chains[h].status == 0 &&
                                    chains'[h] == chains[h].(phase := Done))
  }

  lemma SeenOneMore(chains: Chains, chains1: Chains, h: int, chains2: Chains)
    requires SeenSome(chains, chains1) && h in chains1 && chains1[h].phase == Used && chains1[h].status == 0 &&
             chains2 == chains1[h := chains1[h].(phase := Done)]
    ensures SeenSome(chains, chains2)
  {
  }

  // ----- What the steps do to the queues and buffers -----

  lemma SubmitQueues(chains: Chains, avail: Queue, pending: seq<int>, taken: nat, used: Queue, finished: seq<int>,
                     looked: nat,
                     free: seq<bool>, owner: seq<int>, h: int, c: Chain)
    requires Queues(chains, avail, pending, taken, used, finished, looked) && Partition(free, owner, chains)
    requires h !in chains && 0 <= h < NUM && c.phase == Submitted
    ensures Queues(chains[h := c], Push(avail, h), pending + [h], taken, used, finished, looked)
  {
    var chains' := chains[h := c];
    ListsPush(pending, chains, Submitted, h, chains');
    ListsKept(finished, chains, Used, h, chains');
    Room(free, owner, chains, pending, Submitted, h);
    RingPush(avail, pending, taken, h);
  }

  lemma TakeQueues(chains: Chains, avail: Queue, pending: seq<int>, taken: nat, used: Queue, finished: seq<int>,
                   looked: nat, h: int)
    requires Queues(chains, avail, pending, taken, used, finished, looked) && pending != [] && h == pending[0]
    ensures Queues(Moved(chains, h, AtDevice, chains[h].status), Pop(avail), pending[1..], taken + 1, used, finished,
                   looked)
  {
    var chains' := Moved(chains, h, AtDevice, chains[h].status);
    RingPop(avail, pending, taken);
    ListsPop(pending, chains, Submitted, AtDevice, chains');
    ListsKept(finished, chains, Used, h, chains');
  }

  lemma CompleteQueues(chains: Chains, avail: Queue, pending: seq<int>, taken: nat, used: Queue, finished: seq<int>,
                       looked: nat,
                       free: seq<bool>, owner: seq<int>, h: int, st: int)
    requires Queues(chains, avail, pending, taken, used, finished, looked) && Partition(free, owner, chains)
    requires h in chains && chains[h].phase == AtDevice
    ensures Queues(Moved(chains, h, Used, st), avail, pending, taken, Push(used, h), finished + [h], looked)
  {
    var chains' := Moved(chains, h, Used, st);
    ListsKept(pending, chains, Submitted, h, chains');
    ListsPush(finished, chains, Used, h, chains');
    Room(free, owner, chains, finished, Used, h);
    RingPush(used, finished, looked, h);
  }

  lemma SeenQueues(chains: Chains, avail: Queue, pending: seq<int>, taken: nat, used: Queue, finished: seq<int>,
                   looked: nat, h: int)
    requires Queues(chains, avail, pending, taken, used, finished, looked) && finished != [] && h == finished[0]
    ensures Queues(Moved(chains, h, Done, chains[h].status), avail, pending, taken, Pop(used), finished[1..],
                   looked + 1)
  {
    var chains' := Moved(chains, h, Done, chains[h].status);
    RingPop(used, finished, looked);
    ListsKept(pending, chains, Submitted, h, chains');
    ListsPop(finished, chains, Used, Done, chains');
  }

  lemma GoneQueues(chains: Chains, avail: Queue, pending: seq<int>, taken: nat, used: Queue, finished: seq<int>,
                   looked: nat, h: int)
    requires Queues(chains, avail, pending, taken, used, finished, looked) && h in chains && chains[h].phase == Done
    ensures Queues(chains - {h}, avail, pending, taken, used, finished, looked)
  {
    ListsKept(pending, chains, Submitted, h, chains - {h});
    ListsKept(finished, chains, Used, h, chains - {h});
  }

  /** A new chain, with a buffer of its own. */
  lemma BuffersAdded(info: seq<Info>, busy: set<int>, chains: Chains, h: int, c: Chain, info': seq<Info>,
                     busy': set<int>)
    requires Buffers(info, busy, chains) && h !in chains && 0 <= h < NUM && c.phase == Submitted &&
             c.status == NO_STATUS
    requires forall g :: g in chains ==> chains[g].buf != c.buf
    requires info' == info[h := Info(c.buf, NO_STATUS)] && busy' == busy + {c.buf}
    ensures Buffers(info', busy', chains[h := c])
  {
  }

  /** A chain moves on: to the device, to completion with a status, or, if that is success, to having been seen. */
  lemma BuffersMoved(info: seq<Info>, busy: set<int>, chains: Chains, h: int, x: Phase, st: int, info': seq<Info>,
                     busy': set<int>)
    requires Buffers(info, busy, chains) && h in chains
    requires || (chains[h].phase == Submitted && x == AtDevice && st == chains[h].status && info' == info &&
                 busy' == busy)
             || (chains[h].phase == AtDevice && x == Used && info' == info[h := info[h].(status := st)] &&
                 busy' == busy)
             || (chains[h].phase == Used && x == Done && st == chains[h].status == 0 && info' == info &&
                 busy' == busy - {chains[h].buf})
    ensures Buffers(info', busy', Moved(chains, h, x, st))
  {
  }

  lemma BuffersGone(info: seq<Info>, busy: set<int>, chains: Chains, h: int, info': seq<Info>)
    requires Buffers(info, busy, chains) && h in chains && info' == info[h := info[h].(buf := NOBUF)]
    ensures Buffers(info', busy, chains - {h})
  {
  }

  // ----- The steps as a whole -----

  /** A request is added. */
  function Added(v: View, h: int, c: Chain): (r: View)
    requires |v.owner| == NUM && Distinct3(h, c.second, c.third)
  {
    v.(owner := Set3(v.owner, h, c.second, c.third, h), chains := v.chains[h := c], pending := v.pending + [h])
  }

  /** The device takes the oldest request. */
  function Took(v: View): (r: View)
    requires v.pending != [] && v.pending[0] in v.chains
  {
    v.(chains := Moved(v.chains, v.pending[0], AtDevice, v.chains[v.pending[0]].status), pending := v.pending[1..],
       taken := v.taken + 1)
  }

  /** The device completes a request it has taken, with a status. */
  function Completed(v: View, h: int, st: int): (r: View)
    requires h in v.chains
  {
    v.(chains := Moved(v.chains, h, Used, st), finished := v.finished + [h])
  }

  /** The driver sees the oldest completion. */
  function Saw(v: View): (r: View)
    requires v.finished != [] && v.finished[0] in v.chains
  {
    v.(chains := Moved(v.chains, v.finished[0], Done, v.chains[v.finished[0]].status), finished := v.finished[1..],
       looked := v.looked + 1)
  }

  /** The driver is done with a request. */
  function Dropped(v: View, h: int): (r: View)
    requires |v.owner| == NUM && h in v.chains && Distinct3(h, v.chains[h].second, v.chains[h].third)
  {
    v.(owner := Set3(v.owner, h, v.chains[h].second, v.chains[h].third, -1), chains := v.chains - {h})
  }

  function Moved(chains: Chains, h: int, x: Phase, st: int): (r: Chains)
    requires h in chains
  {
    chains[h := chains[h].(phase := x, status := st)]
  }

  ghost predicate Inv(free: seq<bool>, desc: seq<Desc>, ops: seq<Request>, info: seq<Info>, busy: set<int>,
                      avail: Queue, used: Queue, v: View) {
    && Table(free, v.owner, desc, ops, v.chains) && Buffers(info, busy, v.chains)
    && Queues(v.chains, avail, v.pending, v.taken, used, v.finished, v.looked)
  }

  lemma AddedKeeps(free: seq<bool>, desc: seq<Desc>, ops: seq<Request>, info: seq<Info>, busy: set<int>, avail: Queue,
                   used: Queue, v: View,
                   h: int, c: Chain, free': seq<bool>, desc': seq<Desc>, ops': seq<Request>, info': seq<Info>,
                       busy': set<int>)
    requires Inv(free, desc, ops, info, busy, avail, used, v) && Distinct3(h, c.second, c.third) &&
             c.phase == Submitted && c.status == NO_STATUS
    requires free[h] && free[c.second] && free[c.third] && free' == Set3(free, h, c.second, c.third, false) &&
             ChainAt(desc', ops', h, c)
    requires forall i :: 0 <= i < NUM && i != h && i != c.second && i != c.third ==>
             desc'[i] == desc[i] && ops'[i] == ops[i]
    requires forall g :: g in v.chains ==> v.chains[g].buf != c.buf
    requires info' == info[h := Info(c.buf, NO_STATUS)] && busy' == busy + {c.buf}
    ensures h !in v.chains && Inv(free', desc', ops', info', busy', Push(avail, h), used, Added(v, h, c))
  {
    assert Partition(free, v.owner, v.chains);
    hide Partition, Formatted, Buffers, Queues;
    ChainAdded(free, v.owner, desc, ops, v.chains, h, c, free', Added(v, h, c).owner, desc', ops', v.chains[h := c]);
    BuffersAdded(info, busy, v.chains, h, c, info', busy');
    SubmitQueues(v.chains, avail, v.pending, v.taken, used, v.finished, v.looked, free, v.owner, h, c);
  }

  lemma QueueFronts(chains: Chains, avail: Queue, pending: seq<int>, taken: nat, used: Queue, finished: seq<int>,
                    looked: nat)
    requires Queues(chains, avail, pending, taken, used, finished, looked)
    ensures pending != [] ==> pending[0] in chains && chains[pending[0]].phase == Submitted
    ensures finished != [] ==> finished[0] in chains && chains[finished[0]].phase == Used
  {
  }

  lemma BuffersHas(info: seq<Info>, busy: set<int>, chains: Chains, h: int)
    requires Buffers(info, busy, chains) && h in chains
    ensures 0 <= h < |info| && info[h] == Info(chains[h].buf, chains[h].status)
  {
  }

  lemma TookKeeps(free: seq<bool>, desc: seq<Desc>, ops: seq<Request>, info: seq<Info>, busy: set<int>, avail: Queue,
                  used: Queue, v: View, h: int)
    requires Inv(free, desc, ops, info, busy, avail, used, v) && v.pending != [] && h == v.pending[0]
    ensures Inv(free, desc, ops, info, busy, Pop(avail), used, Took(v))
  {
    hide Table, Buffers, Queues;
    QueueFronts(v.chains, avail, v.pending, v.taken, used, v.finished, v.looked);
    var st := v.chains[h].status;
    ChainMoves(free, v.owner, desc, ops, v.chains, h, AtDevice, st, Moved(v.chains, h, AtDevice, st));
    BuffersMoved(info, busy, v.chains, h, AtDevice, st, info, busy);
    TakeQueues(v.chains, avail, v.pending, v.taken, used, v.finished, v.looked, h);
  }

  lemma CompletedKeeps(free: seq<bool>, desc: seq<Desc>, ops: seq<Request>, info: seq<Info>, busy: set<int>,
                       avail: Queue, used: Queue, v: View,
                       h: int, st: int, info': seq<Info>)
    requires Inv(free, desc, ops, info, busy, avail, used, v) && h in v.chains && v.chains[h].phase == AtDevice
    requires info' == info[h := info[h].(status := st)]
    ensures Inv(free, desc, ops, info', busy, avail, Push(used, h), Completed(v, h, st))
  {
    assert Partition(free, v.owner, v.chains) && 0 <= h < |info|;
    hide Table, Partition, Buffers, Queues;
    ChainMoves(free, v.owner, desc, ops, v.chains, h, Used, st, Moved(v.chains, h, Used, st));
    BuffersMoved(info, busy, v.chains, h, Used, st, info', busy);
    CompleteQueues(v.chains, avail, v.pending, v.taken, used, v.finished, v.looked, free, v.owner, h, st);
  }

  lemma SawKeeps(free: seq<bool>, desc: seq<Desc>, ops: seq<Request>, info: seq<Info>, busy: set<int>, avail: Queue,
                 used: Queue, v: View,
                 h: int, busy': set<int>)
    requires Inv(free, desc, ops, info, busy, avail, used, v) && v.finished != [] && h == v.finished[0]
    requires info[h].status == 0 && busy' == busy - {info[h].buf}
    ensures Inv(free, desc, ops, info, busy', avail, Pop(used), Saw(v))
  {
    hide Table, Buffers, Queues;
    QueueFronts(v.chains, avail, v.pending, v.taken, used, v.finished, v.looked);
    BuffersHas(info, busy, v.chains, h);
    ChainMoves(free, v.owner, desc, ops, v.chains, h, Done, 0, Moved(v.chains, h, Done, 0));
    BuffersMoved(info, busy, v.chains, h, Done, 0, info, busy');
    SeenQueues(v.chains, avail, v.pending, v.taken, used, v.finished, v.looked, h);
  }

  lemma DroppedKeeps(free: seq<bool>, desc: seq<Desc>, ops: seq<Request>, info: seq<Info>, busy: set<int>, avail: Queue,
                     used: Queue, v: View,
                     h: int, free': seq<bool>, desc': seq<Desc>, info': seq<Info>)
    requires Inv(free, desc, ops, info, busy, avail, used, v) && h in v.chains && v.chains[h].phase == Done
    requires free' == Set3(free, h, v.chains[h].second, v.chains[h].third, true)
    requires desc' == Set3(desc, h, v.chains[h].second, v.chains[h].third, UNUSED)
    requires info' == info[h := info[h].(buf := NOBUF)]
    ensures Inv(free', desc', ops, info', busy, avail, used, Dropped(v, h))
  {
    assert |v.owner| == NUM && Distinct3(h, v.chains[h].second, v.chains[h].third);
    hide Table, Buffers, Queues;
    ChainGone(free, v.owner, desc, ops, v.chains, h, free', Dropped(v, h).owner, desc', v.chains - {h});
    BuffersGone(info, busy, v.chains, h, info');
    GoneQueues(v.chains, avail, v.pending, v.taken, used, v.finished, v.looked, h);
  }

  /** The chains in flight have buffers and blocks. */
  ghost predicate Present(chains: Chains, data: map<int, Block>, blocks: map<int, Block>) {
    forall h :: h in chains ==> chains[h].buf in data && chains[h].block in blocks
  }

  /** The same chains are in flight, for the same buffers and blocks. */
  ghost predicate SameRequests(chains: Chains, chains': Chains) {
    chains'.Keys == chains.Keys && forall h :: h in chains ==>
        chains'[h].buf == chains[h].buf && chains'[h].block == chains[h].block
  }

  lemma PresentHas(chains: Chains, data: map<int, Block>, blocks: map<int, Block>, h: int)
    requires Present(chains, data, blocks) && h in chains
    ensures chains[h].buf in data && chains[h].block in blocks
  {
  }

  lemma PresentKept(chains: Chains, data: map<int, Block>, blocks: map<int, Block>, chains': Chains,
                    data': map<int, Block>, blocks': map<int, Block>)
    requires Present(chains, data, blocks) && data'.Keys == data.Keys && blocks'.Keys == blocks.Keys
    requires SameRequests(chains, chains')
    ensures Present(chains', data', blocks')
  {
  }

  lemma PresentAdded(chains: Chains, data: map<int, Block>, blocks: map<int, Block>, h: int, c: Chain, chains': Chains)
    requires Present(chains, data, blocks) && c.buf in data && c.block in blocks && chains' == chains[h := c]
    ensures Present(chains', data, blocks)
  {
  }

  // ----- Any interleaving -----

  datatype System = System(free: seq<bool>, desc: seq<Desc>, ops: seq<Request>, info: seq<Info>, busy: set<int>,
                           avail: Queue, used: Queue,
                           view: View)

  ghost predicate Ok(s: System) {
    Inv(s.free, s.desc, s.ops, s.info, s.busy, s.avail, s.used, s.view)
  }

  /** A request `c` with head `h` is submitted, for a buffer that is not in flight. */
  ghost predicate Submits(s: System, r: System, h: int, c: Chain)
    requires Ok(s)
  {
    && Distinct3(h, c.second, c.third) && c.phase == Submitted && c.status == NO_STATUS && s.free[h] &&
        s.free[c.second] && s.free[c.third]
    && r.free == Set3(s.free, h, c.second, c.third, false) && ChainAt(r.desc, r.ops, h, c)
    && (forall i :: 0 <= i < NUM && i != h && i != c.second && i != c.third ==>
        r.desc[i] == s.desc[i] && r.ops[i] == s.ops[i])
    && (forall g :: g in s.view.chains ==> s.view.chains[g].buf != c.buf)
    && r.info == s.info[h := Info(c.buf, NO_STATUS)] && r.busy == s.busy + {c.buf}
    && r.avail == Push(s.avail, h) && r.used == s.used && r.view == Added(s.view, h, c)
  }

  /** The device takes a request when its index is behind. */
  ghost predicate Takes(s: System, r: System)
    requires Ok(s)
  {
    && s.avail.mine != s.avail.idx && s.view.pending != [] && s.view.pending[0] in s.view.chains
    && r == s.(avail := Pop(s.avail), view := Took(s.view))
  }

  /** The device completes a request it has taken, with a status. */
  ghost predicate Completes(s: System, r: System, h: int, st: int)
    requires Ok(s)
  {
    && h in s.view.chains && s.view.chains[h].phase == AtDevice
    && r == s.(info := s.info[h := s.info[h].(status := st)], used := Push(s.used, h), view := Completed(s.view, h, st))
  }

  /** The interrupt handler looks at a completion when its index is behind. It panics unless that was a success. */
  ghost predicate Sees(s: System, r: System)
    requires Ok(s)
  {
    && s.view.finished != [] && s.info[s.view.finished[0]].status == 0 && s.used.mine != s.used.idx &&
        s.view.finished != [] && s.view.finished[0] in s.view.chains
    && r == s.(busy := s.busy - {s.info[s.view.finished[0]].buf}, used := Pop(s.used), view := Saw(s.view))
  }

  /** A request returns when its buffer is no longer marked. */
  ghost predicate Returns(s: System, r: System, h: int)
    requires Ok(s)
  {
    && h in s.view.chains && s.info[h].buf !in s.busy
    && (var c := s.view.chains[h];
        Distinct3(h, c.second, c.third) &&
        r == s.(free := Set3(s.free, h, c.second, c.third, true), desc := Set3(s.desc, h, c.second, c.third, UNUSED),
                info := s.info[h := s.info[h].(buf := NOBUF)], view := Dropped(s.view, h)))
  }

  ghost predicate Next(s: System, r: System)
    requires Ok(s)
  {
    || (exists h, c :: Submits(s, r, h, c)) || Takes(s, r) || (exists h, st :: Completes(s, r, h, st)) || Sees(s, r) ||
        (exists h :: Returns(s, r, h))
  }

  ghost predicate IsRun(states: seq<System>) {
    states != [] && Ok(states[0]) && forall i :: 0 <= i < |states| - 1 ==> Ok(states[i]) ==>
        Next(states[i], states[i + 1])
  }

  lemma NextKeeps(s: System, r: System)
    requires Ok(s) && Next(s, r)
    ensures Ok(r)
  {
    var v := s.view;
    if h, c :| Submits(s, r, h, c) {
      AddedKeeps(s.free, s.desc, s.ops, s.info, s.busy, s.avail, s.used, v, h, c, r.free, r.desc, r.ops, r.info,
                 r.busy);
    } else if h, st :| Completes(s, r, h, st) {
      CompletedKeeps(s.free, s.desc, s.ops, s.info, s.busy, s.avail, s.used, v, h, st, r.info);
    } else if h :| Returns(s, r, h) {
      DroppedKeeps(s.free, s.desc, s.ops, s.info, s.busy, s.avail, s.used, v, h, r.free, r.desc, r.info);
    } else if Takes(s, r) {
      TookKeeps(s.free, s.desc, s.ops, s.info, s.busy, s.avail, s.used, v, v.pending[0]);
    } else {
      SawKeeps(s.free, s.desc, s.ops, s.info, s.busy, s.avail, s.used, v, v.finished[0], r.busy);
    }
  }

  lemma Placed(s: System, r: System, h: int, c: Chain)
    requires Ok(s) && Submits(s, r, h, c)
    ensures Ok(r) && h !in s.view.chains
  {
    AddedKeeps(s.free, s.desc, s.ops, s.info, s.busy, s.avail, s.used, s.view, h, c, r.free, r.desc, r.ops, r.info,
               r.busy);
  }

  lemma Returned(s: System, r: System, h: int, data: map<int, Block>, blocks: map<int, Block>)
    requires Ok(s) && Returns(s, r, h) && Present(s.view.chains, data, blocks)
    ensures Ok(r) && Present(r.view.chains, data, blocks)
  {
    DroppedKeeps(s.free, s.desc, s.ops, s.info, s.busy, s.avail, s.used, s.view, h, r.free, r.desc, r.info);
  }

  lemma Finished(s: System, r: System, h: int, st: int)
    requires Ok(s) && Completes(s, r, h, st)
    ensures Ok(r) && SameRequests(s.view.chains, r.view.chains)
  {
    CompletedKeeps(s.free, s.desc, s.ops, s.info, s.busy, s.avail, s.used, s.view, h, st, r.info);
  }

  lemma TookOne(s: System, r: System)
    requires Ok(s) && Takes(s, r)
    ensures Ok(r) && SameRequests(s.view.chains, r.view.chains)
  {
    hide Table, Buffers, Queues;
    TookKeeps(s.free, s.desc, s.ops, s.info, s.busy, s.avail, s.used, s.view, s.view.pending[0]);
  }

  lemma SawOne(s: System, r: System)
    requires Ok(s) && Sees(s, r)
    ensures Ok(r) && SameRequests(s.view.chains, r.view.chains)
  {
    hide Table, Buffers, Queues;
    SawKeeps(s.free, s.desc, s.ops, s.info, s.busy, s.avail, s.used, s.view, s.view.finished[0], r.busy);
  }

  /** With no completion due, no chain is waiting to be seen. */
  lemma AllSeen(s: System)
    requires Ok(s) && s.view.finished == []
    ensures forall h :: h in s.view.chains ==> s.view.chains[h].phase != Used
  {
    assert Lists(s.view.finished, s.view.chains, Used);
  }

  /** The sizes of the tables, and the signs of the indices. */
  lemma Sizes(s: System)
    requires Ok(s)
    ensures |s.avail.ring| == |s.used.ring| == |s.info| == |s.free| == |s.desc| == |s.ops| == |s.view.owner| == NUM
    ensures s.avail.mine >= 0 && s.used.mine >= 0 && s.avail.idx >= 0 && s.used.idx >= 0
  {
  }

  /** The oldest request in the avail ring, and the oldest completion in the used ring, are where the indices point. */
  lemma Fronts(s: System)
    requires Ok(s)
    ensures s.avail.idx == s.avail.mine <==> s.view.pending == []
    ensures s.view.pending != [] ==>
              |s.avail.ring| == NUM && s.avail.mine >= 0 && s.avail.ring[Slot(s.avail.mine)] == s.view.pending[0] &&
                  s.view.pending[0] in s.view.chains && s.view.pending[0] >= 0
    ensures s.used.idx == s.used.mine <==> s.view.finished == []
    ensures s.view.finished != [] ==>
              && |s.used.ring| == NUM && s.used.mine >= 0
              && (var h := s.view.finished[0];
                  && s.used.ring[Slot(s.used.mine)] == h && h in s.view.chains && 0 <= h < |s.info| &&
                      s.view.chains[h].phase == Used
                  && s.info[h] == Info(s.view.chains[h].buf, s.view.chains[h].status))
  {
    RingEmpty(s.avail, s.view.pending, s.view.taken);
    RingEmpty(s.used, s.view.finished, s.view.looked);
  }

  /** The descriptors of a chain are in use and say so. */
  lemma InUse(s: System, h: int, c: Chain)
    requires Ok(s) && h in s.view.chains && c == s.view.chains[h]
    ensures ChainAt(s.desc, s.ops, h, c) && !s.free[h] && !s.free[c.second] && !s.free[c.third]
  {
    assert Owned(s.view.owner, h, c);
  }

  /** Over every interleaving of requests, device steps and interrupts, in every state: the free descriptors and the
      chains in flight partition the descriptors, and the rings hold exactly the requests and completions that are
      due. */
  lemma {:induction false} RunOk(states: seq<System>, k: nat)
    requires k < |states| && IsRun(states)
    ensures Ok(states[k])
  {
    if k > 0 {
      RunOk(states, k - 1);
      NextKeeps(states[k - 1], states[k]);
    }
  }

  /** In every run, a request returns only after the device has completed it successfully and the driver has seen
      that. */
  lemma ReturnsAfterCompletion(states: seq<System>, k: nat, h: int)
    requires k + 1 < |states| && IsRun(states) && (Ok(states[k]) ==> Returns(states[k], states[k + 1], h))
    ensures Ok(states[k]) && h in states[k].view.chains && states[k].view.chains[h].phase == Done &&
            states[k].info[h].status == 0
  {
    RunOk(states, k);
  }

  // ----- Taking descriptors one by one -----

  /** The descriptors in `idx`, all different and free before, have been taken. */
  ghost predicate Taken(free0: seq<bool>, free: seq<bool>, idx: seq<int>) {
    && |free0| == |free| == NUM
    && (forall k :: 0 <= k < |idx| ==> 0 <= idx[k] < NUM && free0[idx[k]] && !free[idx[k]])
    && (forall j, k :: 0 <= j < k < |idx| ==> idx[j] != idx[k])
    && (forall i :: 0 <= i < NUM && i !in idx ==> free[i] == free0[i])
  }

  lemma TakenOne(free0: seq<bool>, free: seq<bool>, free': seq<bool>, idx: seq<int>, i: int)
    requires Taken(free0, free, idx) && 0 <= i < NUM && free[i] && free' == free[i := false]
    ensures Taken(free0, free', idx + [i])
  {
    assert i !in idx;
    assert forall k :: k in idx + [i] <==> k in idx || k == i;
  }

  lemma TakenBack(free0: seq<bool>, free: seq<bool>, idx: seq<int>)
    requires Taken(free0, free, idx) && idx != []
    ensures Taken(free0, free[idx[0] := true], idx[1..])
  {
    assert forall k :: k in idx <==> k == idx[0] || k in idx[1..];
  }

  /** With all taken, and fewer than three of them, no three were free. */
  lemma Few(free0: seq<bool>, free: seq<bool>, idx: seq<int>)
    requires Taken(free0, free, idx) && |idx| < 3 && forall i :: 0 <= i < NUM ==> !free[i]
    ensures forall i, j, k :: Distinct3(i, j, k) ==> !free0[i] || !free0[j] || !free0[k]
  {
    forall i | 0 <= i < NUM && free0[i]
      ensures (|idx| > 0 && i == idx[0]) || (|idx| > 1 && i == idx[1])
    {
      assert i in idx;
    }
  }

  class Disk {
    var free: seq<bool>
    var desc: seq<Desc>
    var ops: seq<Request>
    var info: seq<Info>
    /** The avail ring, where the driver adds and the device looks, and the used ring, where it is the other way
        round. */
    var avail: Queue
    var used: Queue
    /** The buffers with their `disk` flag set, the contents of buffers, and the blocks of the device. */
    var busy: set<int>
    var data: map<int, Block>
    var blocks: map<int, Block>
    ghost var view: View

    ghost predicate Valid()
      reads this
    {
      Inv(free, desc, ops, info, busy, avail, used, view) && Present(view.chains, data, blocks)
    }

    ghost function Now(): (s: System)
      reads this
    {
      System(free, desc, ops, info, busy, avail, used, view)
    }

    constructor (data: map<int, Block>, blocks: map<int, Block>)
      ensures Valid() && view.chains == map[] && this.data == data && this.blocks == blocks
    {
      free, desc, ops := seq(NUM, _ => true), seq(NUM, _ => UNUSED), seq(NUM, _ => Request(false, 0));
      info, busy := seq(NUM, _ => Info(NOBUF, 0)), {};
      avail, used := Queue(seq(NUM, _ => 0), 0, 0), Queue(seq(NUM, _ => 0), 0, 0);
      this.data, this.blocks := data, blocks;
      view := View(seq(NUM, _ => -1), map[], [], 0, [], 0);
    }

    // ----- Descriptors -----

    /** Take the first free descriptor, or -1 if there is none. */
    method AllocDesc() returns (i: int)
      requires |free| == NUM
      modifies this`free
      ensures -1 <= i < NUM
      ensures i == -1 ==> free == old(free) && forall k :: 0 <= k < NUM ==> !free[k]
      ensures i != -1 ==> old(free)[i] && free == old(free)[i := false] && forall k :: 0 <= k < i ==> !old(free)[k]
    {
      i := 0;
      while i < NUM
        invariant 0 <= i <= NUM && free == old(free) && forall k :: 0 <= k < i ==> !free[k]
      {
        if free[i] {
          free := free[i := false];
          return;
        }
        i := i + 1;
      }
      i := -1;
    }

    /** Blank a descriptor in use and mark it free. */
    method FreeDesc(i: int)
      requires |free| == |desc| == NUM && 0 <= i < NUM && !free[i]
      modifies this`free, this`desc
      ensures free == old(free)[i := true] && desc == old(desc)[i := UNUSED]
    {
      desc := desc[i := UNUSED];
      free := free[i := true];
    }

    /** Take three free descriptors, or, if there are not as many, change nothing. */
    method Alloc3Desc() returns (ok: bool, idx: seq<int>)
      requires |free| == |desc| == NUM && forall i :: 0 <= i < NUM && free[i] ==> desc[i] == UNUSED
      modifies this`free, this`desc
      ensures desc == old(desc)
      ensures !ok ==> free == old(free) && forall i, j, k :: Distinct3(i, j, k) ==> !free[i] || !free[j] || !free[k]
      ensures ok ==> |idx| == 3 && Distinct3(idx[0], idx[1], idx[2])
      ensures ok ==> old(free)[idx[0]] && old(free)[idx[1]] && old(free)[idx[2]]
      ensures ok ==> free == Set3(old(free), idx[0], idx[1], idx[2], false)
    {
      idx := [];
      while |idx| < 3
        invariant |idx| <= 3 && desc == old(desc) && Taken(old(free), free, idx)
      {
        ghost var free1 := free;
        var i := AllocDesc();
        if i < 0 {
          Few(old(free), free, idx);
          GiveBack(idx, old(free));
          return false, idx;
        }
        TakenOne(old(free), free1, free, idx, i);
        idx := idx + [i];
      }
      assert free == Set3(old(free), idx[0], idx[1], idx[2], false);
      ok := true;
    }

    /** Free the descriptors taken so far. */
    method GiveBack(idx: seq<int>, ghost free0: seq<bool>)
      requires |desc| == NUM && Taken(free0, free, idx) && forall i :: 0 <= i < NUM && free0[i] ==> desc[i] == UNUSED
      modifies this`free, this`desc
      ensures free == free0 && desc == old(desc)
    {
      var j := 0;
      while j < |idx|
        invariant 0 <= j <= |idx| && desc == old(desc) && Taken(free0, free, idx[j..])
      {
        ghost var rest := idx[j..];
        assert rest[0] == idx[j] && rest[1..] == idx[j + 1..];
        TakenBack(free0, free, rest);
        FreeDesc(idx[j]);
        assert desc == old(desc);
        j := j + 1;
      }
    }

    /** Follow a chain from its head and free its descriptors: exactly the three of the chain. */
    method FreeChain(h: int, ghost c: Chain)
      requires |free| == NUM && ChainAt(desc, ops, h, c) && !free[h] && !free[c.second] && !free[c.third]
      modifies this`free, this`desc
      ensures free == Set3(old(free), h, c.second, c.third, true) &&
              desc == Set3(old(desc), h, c.second, c.third, UNUSED)
    {
      var i := h;
      ghost var left := 3;
      while true
        invariant 1 <= left <= 3 && |free| == |desc| == NUM
        invariant i == if left == 3 then h else if left == 2 then c.second else c.third
        invariant free == (if left == 3 then old(free) else if left ==
                           2 then old(free)[h := true] else old(free)[h := true][c.second := true])
        invariant desc == (if left == 3 then old(desc) else if left ==
                           2 then old(desc)[h := UNUSED] else old(desc)[h := UNUSED][c.second := UNUSED])
        decreases left
      {
        var more, next := desc[i].more, desc[i].next;
        FreeDesc(i);
        if !more {
          return;
        }
        i := next;
        left := left - 1;
      }
    }

    // ----- Requests -----

    /** Ask the device to read or write the block of a buffer. This fails, and changes nothing, when fewer than three
        descriptors are free (the caller then sleeps and tries again). The head of the new chain goes to the next slot
        of the avail ring, which no request still waiting there occupies. */
    method Submit(buf: int, block: int, write: bool) returns (ok: bool, h: int)
      requires Valid() && buf in data && block in blocks && forall g :: g in view.chains ==> view.chains[g].buf != buf
      modifies this`free, this`desc, this`ops, this`info, this`avail, this`busy, this`view
      ensures Valid()
      ensures !ok ==> unchanged(this) && forall i, j, k :: Distinct3(i, j, k) ==> !free[i] || !free[j] || !free[k]
      ensures ok ==> h !in old(view).chains && busy == old(busy) + {buf}
      ensures ok ==> exists b, c :: Submits(old(Now()), Now(), h, Chain(b, c, buf, block, write, Submitted, NO_STATUS))
    {
      var idx;
      ok, idx := Alloc3Desc();
      if !ok {
        return false, -1;
      }
      h := Place(idx, buf, block, write, old(free));
    }

    /** Fill in the three descriptors of a request, record its buffer and tell the device. */
    method Place(idx: seq<int>, buf: int, block: int, write: bool, ghost free0: seq<bool>) returns (h: int)
      requires |idx| == 3 && Distinct3(idx[0], idx[1], idx[2]) && Inv(free0, desc, ops, info, busy, avail, used, view)
      requires free0[idx[0]] && free0[idx[1]] && free0[idx[2]] && free == Set3(free0, idx[0], idx[1], idx[2], false)
      requires Present(view.chains, data, blocks) && buf in data && block in blocks && forall g :: g in view.chains ==>
               view.chains[g].buf != buf
      modifies this`desc, this`ops, this`info, this`avail, this`busy, this`view
      ensures Valid() && h == idx[0] && h !in old(view).chains && busy == old(busy) + {buf}
      ensures Submits(old(Now()).(free := free0), Now(), h,
                      Chain(idx[1], idx[2], buf, block, write, Submitted, NO_STATUS))
    {
      hide Table, Buffers, Queues, Present, SameRequests, Slot;
      h := idx[0];
      ghost var c := Chain(idx[1], idx[2], buf, block, write, Submitted, NO_STATUS);
      ghost var s := System(free0, desc, ops, info, busy, avail, used, view);
      Sizes(s);
      Describe(idx, buf, block, write, c);
      var info1, busy1, avail1 := info[h := Info(buf, NO_STATUS)], busy + {buf}, Push(avail, h);
      ghost var r := System(free, desc, ops, info1, busy1, avail1, used, Added(view, h, c));
      Placed(s, r, h, c);
      PresentAdded(view.chains, data, blocks, h, c, r.view.chains);
      info, busy, avail, view := info1, busy1, avail1, r.view;
    }

    /** Fill in the three descriptors and the header of a request. */
    method Describe(idx: seq<int>, buf: int, block: int, write: bool, ghost c: Chain)
      requires |idx| == 3 && Distinct3(idx[0], idx[1], idx[2]) && |desc| == |ops| == NUM
      requires c == Chain(idx[1], idx[2], buf, block, write, Submitted, NO_STATUS)
      modifies this`desc, this`ops
      ensures ChainAt(desc, ops, idx[0], c)
      ensures forall i :: 0 <= i < NUM && i != idx[0] && i != idx[1] && i != idx[2] ==>
              desc[i] == old(desc)[i] && ops[i] == old(ops)[i]
    {
      var h, b, d := idx[0], idx[1], idx[2];
      ops := ops[h := Request(write, block * 2)];
      desc := desc[h := Desc(Header(h), false, true, b)];
      desc := desc[b := Desc(Data(buf), !write, true, d)];
      desc := desc[d := Desc(Status(h), true, false, 0)];
    }

    /** The device takes the oldest request from the avail ring, if there is one. */
    method DeviceTake() returns (h: int)
      requires Valid()
      modifies this`avail, this`view
      ensures Valid() && (h == -1 <==> old(view).pending == [])
      ensures if h == -1 then unchanged(this) else h == old(view).pending[0] && Takes(old(Now()), Now())
    {
      hide Table, Buffers, Queues, Present, SameRequests, Slot;
      ghost var s := Now();
      Fronts(s);
      Sizes(s);
      if avail.mine == avail.idx {
        return -1;
      }
      h := avail.ring[Slot(avail.mine)];
      ghost var r := s.(avail := Pop(s.avail), view := Took(s.view));
      TookOne(s, r);
      PresentKept(s.view.chains, data, blocks, r.view.chains, data, blocks);
      avail, view := Pop(avail), r.view;
    }

    /** The device completes any request it has taken: it follows the descriptors, moves the data, writes a status and
        adds the head to the used ring. What it does is what was asked for when the request was submitted; with a status
        other than 0 it may leave the data alone. */
    method DeviceComplete(h: int, status: int)
      requires Valid() && h in view.chains && view.chains[h].phase == AtDevice
      modifies this`info, this`used, this`data, this`blocks, this`view
      ensures Valid() && Completes(old(Now()), Now(), h, status)
      ensures var c := old(view).chains[h];
              && data == (if c.write || status != 0 then old(data) else old(data)[c.buf := old(blocks)[c.block]])
              && blocks == (if c.write && status == 0 then old(blocks)[c.block := old(data)[c.buf]] else old(blocks))
    {
      hide Table, Buffers, Queues, Present, SameRequests, Slot;
      ghost var s, c := Now(), view.chains[h];
      InUse(s, h, c);
      Sizes(s);
      PresentHas(s.view.chains, data, blocks, h);
      var st := Transfer(h, c, status == 0);
      var info1, used1 := info[st := info[st].(status := status)], Push(used, h);
      ghost var r := s.(info := info1, used := used1, view := Completed(s.view, h, status));
      Finished(s, r, h, status);
      PresentKept(s.view.chains, old(data), old(blocks), r.view.chains, data, blocks);
      info, used, view := info1, used1, r.view;
    }

    /** Follow the descriptors from `h` and move the data if `move`; the result is where the status belongs. */
    method Transfer(h: int, ghost c: Chain, move: bool) returns (st: int)
      requires ChainAt(desc, ops, h, c) && c.buf in data && c.block in blocks
      modifies this`data, this`blocks
      ensures st == h && data.Keys == old(data).Keys && blocks.Keys == old(blocks).Keys
      ensures data == (if c.write || !move then old(data) else old(data)[c.buf := old(blocks)[c.block]])
      ensures blocks == (if c.write && move then old(blocks)[c.block := old(data)[c.buf]] else old(blocks))
    {
      var second := desc[h].next;
      var third := desc[second].next;
      var req, buf := ops[desc[h].addr.i], desc[second].addr.buf;
      if move && req.write {
        blocks := blocks[req.sector / 2 := data[buf]];
      } else if move {
        data := data[buf := blocks[req.sector / 2]];
      }
      st := desc[third].addr.i;
    }

    // ----- Completion -----

    /** One round of the interrupt handler: the oldest completion not looked at yet, if there is one. If its status is
        not success the source panics, and here nothing changes. Otherwise exactly its buffer is marked as done. */
    method IntrOne() returns (more: bool, panic: bool)
      requires Valid()
      modifies this`busy, this`used, this`view
      ensures Valid() && (more <==> old(view).finished != [] && !panic) && (!more ==> unchanged(this))
      ensures panic <==> old(view).finished != [] && old(view).finished[0] in old(view).chains &&
                         old(view).chains[old(view).finished[0]].status != 0
      ensures more ==> Sees(old(Now()), Now()) && old(view).chains[old(view).finished[0]].phase == Used
    {
      hide Table, Buffers, Queues, Present, SameRequests, Slot;
      ghost var s := Now();
      Fronts(s);
      Sizes(s);
      if used.mine == used.idx {
        return false, false;
      }
      var id := used.ring[Slot(used.mine)];
      if info[id].status != 0 {
        return false, true;
      }
      var busy1 := busy - {info[id].buf};
      ghost var r := s.(busy := busy1, used := Pop(s.used), view := Saw(s.view));
      SawOne(s, r);
      PresentKept(s.view.chains, data, blocks, r.view.chains, data, blocks);
      busy, used, view := busy1, Pop(used), r.view;
      more, panic := true, false;
    }

    /** The interrupt handler, undisturbed by the device: every completion has been seen, unless it panics at one that
        is not a success. */
    method Intr() returns (panic: bool)
      requires Valid()
      modifies this`busy, this`used, this`view
      ensures Valid() && SeenSome(old(view).chains, view.chains)
      ensures if panic then view.finished != [] && view.finished[0] in view.chains &&
              view.chains[view.finished[0]].status != 0
              else view.finished == [] && forall h :: h in view.chains ==> view.chains[h].phase != Used
    {
      var more := true;
      panic := false;
      while more
        invariant Valid() && SeenSome(old(view).chains, view.chains) && (more ==> !panic)
        invariant panic ==> view.finished != [] && view.finished[0] in view.chains
        invariant panic ==> view.chains[view.finished[0]].status != 0
        invariant !more && !panic ==> view.finished == []
        decreases |view.finished|, more
      {
        ghost var v := view;
        more, panic := IntrOne();
        if more {
          SeenOneMore(old(view).chains, v.chains, v.finished[0], view.chains);
        }
      }
      if !panic {
        AllSeen(Now());
      }
    }

    /** The rest of the request at `h`, when its buffer is no longer marked: the request has been completed and seen,
        and its three descriptors become free. With the buffer still marked the source goes on sleeping; nothing
        changes. */
    method Finish(h: int) returns (ok: bool)
      requires Valid() && h in view.chains
      modifies this`free, this`desc, this`info, this`view
      ensures Valid() && (ok <==> old(view).chains[h].buf !in busy) && (ok <==> old(view).chains[h].phase == Done)
      ensures if ok then Returns(old(Now()), Now(), h) else unchanged(this)
    {
      ok := info[h].buf !in busy;
      if ok {
        Retire(h, view.chains[h]);
      }
    }

    method Retire(h: int, ghost c: Chain)
      requires Valid() && h in view.chains && view.chains[h].phase == Done && c == view.chains[h] &&
               info[h].buf !in busy
      modifies this`free, this`desc, this`info, this`view
      ensures Valid() && Returns(old(Now()), Now(), h)
    {
      hide Table, Buffers, Queues, Present, SameRequests, Slot;
      ghost var s := Now();
      InUse(s, h, c);
      Sizes(s);
      FreeChain(h, c);
      var info1 := info[h := info[h].(buf := NOBUF)];
      ghost var r := System(free, desc, ops, info1, busy, avail, used, Dropped(view, h));
      Returned(s, r, h, data, blocks);
      info, view := info1, r.view;
    }
  }
}
