/** The user-level storage allocator of Kernighan and Ritchie: a circular, address-ordered list of free blocks,
    first fit, with neighbouring free blocks joined.

    Addresses are counted in units of one header. A block starts with its header unit; `ptr` and `size` are the
    two header fields, for every unit of memory. The list starts and ends at `BASE`, a header in the program's
    static data, below every address that `sbrk` hands out. */
module Heap {
  import opened Sequences

  const BASE: int := 1
  /** Bytes in a unit, and the least number of units asked from the kernel. */
  const UNIT := 16
  const MIN_UNITS := 4096

  /** Units a request for `nbytes` bytes takes, its header included, and units asked from the kernel for `nu` of
      them. */
  function UnitsFor(nbytes: nat): (n: nat)
    ensures (n - 1) * UNIT >= nbytes > (n - 2) * UNIT
  {
    (nbytes + UNIT - 1) / UNIT + 1
  }

  function CoreUnits(nu: nat): (n: nat) {
    if nu < MIN_UNITS then MIN_UNITS else nu
  }

  /** A number of bytes as the signed 32-bit argument of `sbrk`. */
  function Int32(x: int): (r: int)
    ensures -0x8000_0000 <= r < 0x8000_0000 && (r - x) % 0x1_0000_0000 == 0
  {
    var u := x % 0x1_0000_0000;
    if u >= 0x8000_0000 then u - 0x1_0000_0000 else u
  }

  /** Where memory ends, in units, after `sbrk` of `arg` bytes has answered `grant`, the end before. A negative argument
      takes memory away, unless it is larger than all of it. */
  function EndAfter(grant: int, arg: int): (e: int) {
    if grant * UNIT + arg < 0 then grant else grant + arg / UNIT
  }

  /** For every number of units that malloc can ask for, the kernel adds that much memory exactly when the bytes are
      below 2^31. */
  lemma SbrkAdds(grant: int, nbytes: nat)
    requires nbytes < 0x1_0000_0000 && BASE < grant
    ensures var n := CoreUnits(UnitsFor(nbytes));
            && (n * UNIT < 0x8000_0000 ==> EndAfter(grant, Int32(n * UNIT)) == grant + n)
            && (n * UNIT >= 0x8000_0000 ==> EndAfter(grant, Int32(n * UNIT)) <= grant + 1 < grant + n)
  {
  }

  type Memory = map<int, int>

  /** A memory word; what was never written reads as 0. */
  function At(m: Memory, a: int): (x: int) {
    if a in m then m[a] else 0
  }

  // ----- The free list -----

  /** The node after position `k` of the circular list. */
  function Next(nodes: seq<int>, k: nat): (a: int)
    requires k < |nodes|
  {
    if k + 1 < |nodes| then nodes[k + 1] else nodes[0]
  }

  /** The pointers of `nodes` form a circular list in this order, starting at the base. */
  ghost predicate Linked(nodes: seq<int>, ptr: Memory) {
    && 0 < |nodes| && nodes[0] == BASE
    && forall k {:trigger Next(nodes, k)} :: 0 <= k < |nodes| ==> At(ptr, nodes[k]) == Next(nodes, k)
  }

  ghost predicate Increasing(nodes: seq<int>) {
    forall j, k :: 0 <= j < k < |nodes| ==> nodes[j] < nodes[k]
  }

  function With(nodes: seq<int>, k: nat, a: int): (r: seq<int>)
    requires k < |nodes|
    ensures |r| == |nodes| + 1 && r[k + 1] == a
    ensures forall j :: 0 <= j <= k ==> r[j] == nodes[j]
    ensures forall j :: k + 1 < j < |r| ==> r[j] == nodes[j - 1]
  {
    nodes[..k + 1] + [a] + nodes[k + 1..]
  }

  /** Let node `k` point past its successor. */
  lemma LinkedWithout(nodes: seq<int>, ptr: Memory, k: nat)
    requires Linked(nodes, ptr) && Increasing(nodes) && k + 1 < |nodes|
    ensures Linked(Without(nodes, k + 1), ptr[nodes[k] := At(ptr, nodes[k + 1])])
    ensures Increasing(Without(nodes, k + 1))
  {
    var r := Without(nodes, k + 1);
    forall j | 0 <= j < |r|
      ensures At(ptr[nodes[k] := At(ptr, nodes[k + 1])], r[j]) == Next(r, j)
    {
      LinkedWithoutAt(nodes, ptr, k, j);
    }
  }

  lemma LinkedWithoutAt(nodes: seq<int>, ptr: Memory, k: nat, j: nat)
    requires Linked(nodes, ptr) && Increasing(nodes) && k + 1 < |nodes| && j < |nodes| - 1
    ensures At(ptr[nodes[k] := At(ptr, nodes[k + 1])], Without(nodes, k + 1)[j]) == Next(Without(nodes, k + 1), j)
  {
    assert At(ptr, nodes[j]) == Next(nodes, j) && At(ptr, nodes[j + 1]) == Next(nodes, j + 1);
    if j < k {
      assert nodes[j] < nodes[k];
    } else if j > k {
      assert nodes[k] < nodes[j + 1];
    }
  }

  /** Put `a` between node `k` and its successor. */
  lemma LinkedWith(nodes: seq<int>, ptr: Memory, k: nat, a: int)
    requires Linked(nodes, ptr) && Increasing(nodes) && k < |nodes|
    requires nodes[k] < a && (k + 1 < |nodes| ==> a < nodes[k + 1])
    ensures Linked(With(nodes, k, a), ptr[a := Next(nodes, k)][nodes[k] := a])
    ensures Increasing(With(nodes, k, a))
  {
    var r := With(nodes, k, a);
    forall j | 0 <= j < |r|
      ensures At(ptr[a := Next(nodes, k)][nodes[k] := a], r[j]) == Next(r, j)
    {
      LinkedWithAt(nodes, ptr, k, a, j);
    }
  }

  lemma LinkedWithAt(nodes: seq<int>, ptr: Memory, k: nat, a: int, j: nat)
    requires Linked(nodes, ptr) && Increasing(nodes) && k < |nodes| && j <= |nodes|
    requires nodes[k] < a && (k + 1 < |nodes| ==> a < nodes[k + 1])
    ensures At(ptr[a := Next(nodes, k)][nodes[k] := a], With(nodes, k, a)[j]) == Next(With(nodes, k, a), j)
  {
    var r := With(nodes, k, a);
    if j < k {
      assert At(ptr, nodes[j]) == Next(nodes, j) && nodes[j] < nodes[k];
      assert r[j] == nodes[j] && Next(r, j) == nodes[j + 1];
    } else if j == k {
      assert r[j] == nodes[k] && Next(r, j) == a;
    } else if j == k + 1 {
      assert r[j] == a && Next(r, j) == Next(nodes, k);
    } else {
      assert At(ptr, nodes[j - 1]) == Next(nodes, j - 1);
      assert nodes[k] < nodes[k + 1] <= nodes[j - 1] == r[j];
      assert Next(r, j) == Next(nodes, j - 1);
    }
  }

  /** The position after which `a` belongs. */
  function Slot(nodes: seq<int>, a: int): (k: nat)
    requires 0 < |nodes| && nodes[0] < a && a !in nodes
    ensures k < |nodes| && nodes[k] < a && (k + 1 < |nodes| ==> a < nodes[k + 1])
  {
    if |nodes| == 1 then 0
    else if nodes[|nodes| - 1] < a then |nodes| - 1
    else Slot(nodes[..|nodes| - 1], a)
  }

  // ----- The blocks -----

  /** `blocks` maps the start of every block, free or in use, to its number of units. */
  type Blocks = map<int, int>

  ghost predicate Disjoint(blocks: Blocks) {
    forall a, b :: a in blocks && b in blocks && a < b ==> a + blocks[a] <= b
  }

  predicate Covers(blocks: Blocks, a: int, u: int) {
    a in blocks && a <= u < a + blocks[a]
  }

  /** Some block contains unit `u`. */
  ghost predicate Covered(blocks: Blocks, u: int) {
    exists a :: Covers(blocks, a, u)
  }

  /** The blocks are disjoint and together are exactly the units of `arena`. */
  ghost predicate Tiles(blocks: Blocks, arena: set<int>) {
    && Disjoint(blocks)
    && (forall a :: a in blocks ==> BASE < a && 1 <= blocks[a])
    && (forall u: int :: u in arena <==> Covered(blocks, u))
  }

  function Join(blocks: Blocks, a: int): (r: Blocks)
    requires a in blocks && a + blocks[a] in blocks
  {
    (blocks - {a + blocks[a]})[a := blocks[a] + blocks[a + blocks[a]]]
  }

  function Cut(blocks: Blocks, a: int, n: nat): (r: Blocks)
    requires a in blocks && n < blocks[a]
  {
    blocks[a := blocks[a] - n][a + blocks[a] - n := n]
  }

  lemma JoinCovers(blocks: Blocks, a: int, u: int)
    requires a in blocks && a + blocks[a] in blocks && 1 <= blocks[a] && 1 <= blocks[a + blocks[a]]
    ensures Covered(Join(blocks, a), u) <==> Covered(blocks, u)
  {
    var b, r := a + blocks[a], Join(blocks, a);
    if Covered(blocks, u) {
      var c: int :| Covers(blocks, c, u);
      assert Covers(r, if c == b then a else c, u);
    }
    if Covered(r, u) {
      var c: int :| Covers(r, c, u);
      assert Covers(blocks, if c == a && u >= b then b else c, u);
    }
  }

  /** Joining a block with the block that starts where it ends keeps the tiling. */
  lemma JoinTiles(blocks: Blocks, arena: set<int>, a: int)
    requires Tiles(blocks, arena) && a in blocks && a + blocks[a] in blocks
    ensures Tiles(Join(blocks, a), arena)
  {
    forall u: int
      ensures Covered(Join(blocks, a), u) <==> Covered(blocks, u)
    {
      JoinCovers(blocks, a, u);
    }
  }

  lemma CutCovers(blocks: Blocks, a: int, n: nat, u: int)
    requires a in blocks && 0 < n < blocks[a] && a + blocks[a] - n !in blocks
    ensures Covered(Cut(blocks, a, n), u) <==> Covered(blocks, u)
  {
    var b, r := a + blocks[a] - n, Cut(blocks, a, n);
    if Covered(blocks, u) {
      var c: int :| Covers(blocks, c, u);
      assert Covers(r, if c == a && u >= b then b else c, u);
    }
    if Covered(r, u) {
      var c: int :| Covers(r, c, u);
      assert Covers(blocks, if c == b then a else c, u);
    }
  }

  /** Cutting `n` units off the end of a block keeps the tiling. */
  lemma CutTiles(blocks: Blocks, arena: set<int>, a: int, n: nat)
    requires Tiles(blocks, arena) && a in blocks && 0 < n < blocks[a]
    ensures Tiles(Cut(blocks, a, n), arena)
    ensures a + blocks[a] - n !in blocks
  {
    forall u: int
      ensures Covered(Cut(blocks, a, n), u) <==> Covered(blocks, u)
    {
      CutCovers(blocks, a, n, u);
    }
  }

  function Units(a: int, n: nat): (r: set<int>)
    ensures forall u :: u in r <==> a <= u < a + n
  {
    if n == 0 then {} else Units(a, n - 1) + {a + n - 1}
  }

  /** A new block beyond all others extends the tiling by its units. */
  lemma GrowTiles(blocks: Blocks, arena: set<int>, a: int, n: nat)
    requires Tiles(blocks, arena) && BASE < a && 1 <= n
    requires forall b :: b in blocks ==> b + blocks[b] <= a
    ensures a !in blocks && Tiles(blocks[a := n], arena + Units(a, n))
  {
    var r := blocks[a := n];
    forall u: int
      ensures Covered(r, u) <==> Covered(blocks, u) || u in Units(a, n)
    {
      if Covered(blocks, u) {
        var c :| Covers(blocks, c, u);
        assert Covers(r, c, u);
      }
      if u in Units(a, n) {
        assert Covers(r, a, u);
      }
      if Covered(r, u) {
        var c :| Covers(r, c, u);
        assert c != a ==> Covers(blocks, c, u);
      }
    }
  }

  /** Blocks end where the units of the arena end. */
  lemma BlocksBelow(blocks: Blocks, arena: set<int>, brk: int)
    requires Tiles(blocks, arena) && forall u :: u in arena ==> u < brk
    ensures forall a :: a in blocks ==> a + blocks[a] <= brk
  {
    forall a | a in blocks
      ensures a + blocks[a] <= brk
    {
      assert Covers(blocks, a, a + blocks[a] - 1);
      assert Covered(blocks, a + blocks[a] - 1);
    }
  }

  // ----- The free list among the blocks -----

  /** Where the block of node `k` ends; the base is an empty block. */
  function End(nodes: seq<int>, blocks: Blocks, k: nat): (e: int)
    requires k < |nodes| && (k > 0 ==> nodes[k] in blocks)
  {
    if k == 0 then nodes[0] else nodes[k] + blocks[nodes[k]]
  }

  /** The list is in address order and no two free blocks touch. */
  ghost predicate Ordered(nodes: seq<int>, blocks: Blocks) {
    && 0 < |nodes| && nodes[0] == BASE && BASE !in blocks
    && (forall k :: 0 < k < |nodes| ==> nodes[k] in blocks && 0 < blocks[nodes[k]])
    && (forall j, k :: 0 <= j < k < |nodes| ==> End(nodes, blocks, j) < nodes[k])
  }

  /** The headers hold the sizes of the blocks. */
  ghost predicate Sized(blocks: Blocks, size: Memory) {
    At(size, BASE) == 0 && forall a :: a in blocks ==> At(size, a) == blocks[a]
  }

  /** The blocks in use. */
  function InUse(nodes: seq<int>, blocks: Blocks): (r: Blocks) {
    map a | a in blocks && a !in nodes :: blocks[a]
  }

  lemma OrderedIncreases(nodes: seq<int>, blocks: Blocks)
    requires Ordered(nodes, blocks)
    ensures Increasing(nodes)
  {
    forall j, k | 0 <= j < k < |nodes|
      ensures nodes[j] < nodes[k]
    {
      assert End(nodes, blocks, j) < nodes[k];
    }
  }

  // ----- The whole heap -----

  ghost predicate Good(nodes: seq<int>, blocks: Blocks, arena: set<int>, ptr: Memory, size: Memory) {
    Linked(nodes, ptr) && Ordered(nodes, blocks) && Sized(blocks, size) && Tiles(blocks, arena)
  }

  /** The test by which `free` recognises the node after which a block belongs. */
  predicate Stops(p: int, next: int, bp: int) {
    (bp > p && bp < next) || (p >= next && (bp > p || bp < next))
  }

  /** The walk stops exactly at the right node. */
  lemma StopsAtSlot(nodes: seq<int>, bp: int, j: nat)
    requires 0 < |nodes| && Increasing(nodes) && nodes[0] < bp && bp !in nodes && j < |nodes|
    ensures Stops(nodes[j], Next(nodes, j), bp) <==> j == Slot(nodes, bp)
  {
    var k := Slot(nodes, bp);
    assert j + 1 < |nodes| ==> nodes[j] < nodes[j + 1];
    assert nodes[0] <= nodes[j];
    if j < k {
      assert nodes[j + 1] <= nodes[k];
    } else if k < j {
      assert nodes[k + 1] <= nodes[j];
    }
  }

  /** The block in use `bp` absorbs the free block that starts where it ends. */
  lemma JoinNext(nodes: seq<int>, blocks: Blocks, arena: set<int>, ptr: Memory, size: Memory, bp: int, k: nat)
    requires Good(nodes, blocks, arena, ptr, size) && bp in blocks && bp !in nodes
    requires k + 1 < |nodes| && nodes[k + 1] == bp + blocks[bp]
    ensures var ptr' := ptr[nodes[k] := At(ptr, nodes[k + 1])];
            && Good(Without(nodes, k + 1), Join(blocks, bp), arena, ptr', size[bp := blocks[bp] + blocks[nodes[k + 1]]])
            && bp in Join(blocks, bp) && bp !in Without(nodes, k + 1)
            && InUse(Without(nodes, k + 1), Join(blocks, bp)) ==
                InUse(nodes, blocks)[bp := blocks[bp] + blocks[nodes[k + 1]]]
  {
    OrderedIncreases(nodes, blocks);
    LinkedWithout(nodes, ptr, k);
    JoinTiles(blocks, arena, bp);
    JoinNextOrdered(nodes, blocks, bp, k);
    JoinNextInUse(nodes, blocks, bp, k);
    assert BASE < bp;
  }

  lemma WithoutMembers(nodes: seq<int>, k: nat)
    requires Increasing(nodes) && k < |nodes|
    ensures forall a :: a in Without(nodes, k) <==> a in nodes && a != nodes[k]
  {
    var r := Without(nodes, k);
    forall a
      ensures a in r <==> a in nodes && a != nodes[k]
    {
      if a in nodes && a != nodes[k] {
        var i :| 0 <= i < |nodes| && nodes[i] == a;
        assert r[if i < k then i else i - 1] == a;
      }
      if a in r {
        var i :| 0 <= i < |r| && r[i] == a;
        assert a == nodes[if i < k then i else i + 1];
      }
    }
  }

  lemma WithMembers(nodes: seq<int>, k: nat, b: int)
    requires k < |nodes|
    ensures forall a :: a in With(nodes, k, b) <==> a in nodes || a == b
  {
    var r := With(nodes, k, b);
    forall a
      ensures a in r <==> a in nodes || a == b
    {
      if a in nodes {
        var i :| 0 <= i < |nodes| && nodes[i] == a;
        assert r[if i <= k then i else i + 1] == a;
      }
      assert r[k + 1] == b;
    }
  }

  lemma JoinNextOrdered(nodes: seq<int>, blocks: Blocks, bp: int, k: nat)
    requires Ordered(nodes, blocks) && Increasing(nodes) && bp in blocks && bp !in nodes
    requires k + 1 < |nodes| && nodes[k + 1] == bp + blocks[bp]
    ensures Ordered(Without(nodes, k + 1), Join(blocks, bp))
  {
    var r, b := Without(nodes, k + 1), Join(blocks, bp);
    WithoutMembers(nodes, k + 1);
    forall j | 0 < j < |r|
      ensures r[j] in b && b[r[j]] == blocks[r[j]]
    {
      assert r[j] in r && r[j] == nodes[if j < k + 1 then j else j + 1];
    }
    forall i, j | 0 <= i < j < |r|
      ensures End(r, b, i) < r[j]
    {
      var i', j' := if i < k + 1 then i else i + 1, if j < k + 1 then j else j + 1;
      assert End(nodes, blocks, i') < nodes[j'];
      assert End(r, b, i) == End(nodes, blocks, i');
    }
  }

  lemma JoinNextInUse(nodes: seq<int>, blocks: Blocks, bp: int, k: nat)
    requires Increasing(nodes) && bp in blocks && bp !in nodes
    requires k + 1 < |nodes| && nodes[k + 1] == bp + blocks[bp] && nodes[k + 1] in blocks
    ensures bp !in Without(nodes, k + 1)
    ensures InUse(Without(nodes, k + 1), Join(blocks, bp)) ==
            InUse(nodes, blocks)[bp := blocks[bp] + blocks[nodes[k + 1]]]
  {
    WithoutMembers(nodes, k + 1);
  }

  /** The free block at node `k` absorbs the block in use that starts where it ends. */
  lemma JoinPrev(nodes: seq<int>, blocks: Blocks, arena: set<int>, ptr: Memory, size: Memory, bp: int, k: nat)
    requires Good(nodes, blocks, arena, ptr, size) && bp in blocks && bp !in nodes
    requires 0 < k < |nodes| && nodes[k] + blocks[nodes[k]] == bp
    requires k + 1 < |nodes| ==> bp + blocks[bp] < nodes[k + 1]
    ensures Good(nodes, Join(blocks, nodes[k]), arena, ptr, size[nodes[k] := blocks[nodes[k]] + blocks[bp]])
    ensures InUse(nodes, Join(blocks, nodes[k])) == InUse(nodes, blocks) - {bp}
  {
    OrderedIncreases(nodes, blocks);
    JoinTiles(blocks, arena, nodes[k]);
    JoinPrevOrdered(nodes, blocks, bp, k);
  }

  lemma JoinPrevOrdered(nodes: seq<int>, blocks: Blocks, bp: int, k: nat)
    requires Ordered(nodes, blocks) && Increasing(nodes) && bp in blocks && bp !in nodes
    requires 0 < k < |nodes| && nodes[k] + blocks[nodes[k]] == bp && 0 < blocks[bp]
    requires k + 1 < |nodes| ==> bp + blocks[bp] < nodes[k + 1]
    ensures Ordered(nodes, Join(blocks, nodes[k]))
    ensures InUse(nodes, Join(blocks, nodes[k])) == InUse(nodes, blocks) - {bp}
  {
    var b := Join(blocks, nodes[k]);
    forall i, j | 0 <= i < j < |nodes|
      ensures End(nodes, b, i) < nodes[j]
    {
      assert End(nodes, blocks, i) < nodes[j];
      if i == k {
        assert nodes[k + 1] <= nodes[j];
      } else {
        assert nodes[i] != nodes[k];
      }
    }
  }

  /** The block in use `bp`, which touches no free block, joins the list after node `k`. */
  lemma Insert(nodes: seq<int>, blocks: Blocks, arena: set<int>, ptr: Memory, size: Memory, bp: int, k: nat)
    requires Good(nodes, blocks, arena, ptr, size) && bp in blocks && bp !in nodes
    requires k < |nodes| && End(nodes, blocks, k) < bp && (k + 1 < |nodes| ==> bp + blocks[bp] < nodes[k + 1])
    ensures Good(With(nodes, k, bp), blocks, arena, ptr[bp := Next(nodes, k)][nodes[k] := bp], size)
    ensures InUse(With(nodes, k, bp), blocks) == InUse(nodes, blocks) - {bp}
  {
    OrderedIncreases(nodes, blocks);
    LinkedWith(nodes, ptr, k, bp);
    WithMembers(nodes, k, bp);
    InsertOrdered(nodes, blocks, bp, k);
  }

  lemma InsertOrdered(nodes: seq<int>, blocks: Blocks, bp: int, k: nat)
    requires Ordered(nodes, blocks) && Increasing(nodes) && bp in blocks && 0 < blocks[bp]
    requires k < |nodes| && End(nodes, blocks, k) < bp && (k + 1 < |nodes| ==> bp + blocks[bp] < nodes[k + 1])
    ensures Ordered(With(nodes, k, bp), blocks)
  {
    var r := With(nodes, k, bp);
    forall i, j | 0 <= i < j < |r|
      ensures End(r, blocks, i) < r[j]
    {
      if i == k + 1 {
        assert nodes[k + 1] <= nodes[j - 1];
      } else if j == k + 1 {
        assert i < k ==> End(nodes, blocks, i) < nodes[k];
      } else {
        var i', j' := if i <= k then i else i - 1, if j <= k then j else j - 1;
        assert End(nodes, blocks, i') < nodes[j'];
      }
    }
  }

  lemma LinkedAgree(nodes: seq<int>, ptr: Memory, ptr': Memory)
    requires Linked(nodes, ptr) && forall k :: 0 <= k < |nodes| ==> At(ptr', nodes[k]) == At(ptr, nodes[k])
    ensures Linked(nodes, ptr')
  {
    forall k {:trigger Next(nodes, k)} | 0 <= k < |nodes|
      ensures At(ptr', nodes[k]) == Next(nodes, k)
    {
      assert At(ptr, nodes[k]) == Next(nodes, k);
    }
  }

  /** The block in use `bp` ends where the next free block starts. */
  predicate TouchesNext(nodes: seq<int>, blocks: Blocks, bp: int, k: nat)
    requires bp in blocks
  {
    k + 1 < |nodes| && bp + blocks[bp] == nodes[k + 1]
  }

  /** The free block of node `k` ends where `bp` starts. */
  predicate TouchesPrev(nodes: seq<int>, blocks: Blocks, bp: int, k: nat) {
    0 < k < |nodes| && nodes[k] in blocks && nodes[k] + blocks[nodes[k]] == bp
  }

  /** The heap between the two halves of `free`: if `bp` touched the next free block it has absorbed it, and the
      list, read with `ptr1`, goes past that block. Nothing after `bp` touches it any more. */
  ghost predicate HalfFreed(nodes: seq<int>, blocks: Blocks, arena: set<int>, ptr: Memory, size: Memory, bp: int,
                            k: nat,
                            nodes1: seq<int>, blocks1: Blocks, ptr1: Memory, size1: Memory)
  {
    && Good(nodes1, blocks1, arena, ptr1, size1)
    && k < |nodes1| && k < |nodes| && nodes1[k] == nodes[k] && (forall a :: a in nodes1 ==> a in nodes)
    && bp in blocks && bp in blocks1 && bp !in nodes1 && blocks[bp] <= blocks1[bp]
    && (k + 1 < |nodes1| ==> bp + blocks1[bp] < nodes1[k + 1])
    && End(nodes1, blocks1, k) <= bp && BASE < bp
    && InUse(nodes1, blocks1) - {bp} == InUse(nodes, blocks) - {bp}
    && (forall u: int :: u != nodes[k] ==> At(ptr1, u) == At(ptr, u))
  }

  lemma FirstHalfJoins(nodes: seq<int>, blocks: Blocks, arena: set<int>, ptr: Memory, size: Memory, bp: int, k: nat,
                       nodes1: seq<int>, blocks1: Blocks, ptr1: Memory, size1: Memory)
    requires Good(nodes, blocks, arena, ptr, size) && bp in InUse(nodes, blocks) && BASE < bp
    requires k < |nodes| && nodes[k] < bp && TouchesNext(nodes, blocks, bp, k)
    requires nodes1 == Without(nodes, k + 1) && blocks1 == Join(blocks, bp)
    requires ptr1 == ptr[nodes[k] := At(ptr, nodes[k + 1])] && size1 == size[bp := blocks[bp] + blocks[nodes[k + 1]]]
    ensures HalfFreed(nodes, blocks, arena, ptr, size, bp, k, nodes1, blocks1, ptr1, size1)
  {
    OrderedIncreases(nodes, blocks);
    JoinNext(nodes, blocks, arena, ptr, size, bp, k);
    WithoutMembers(nodes, k + 1);
    JoinedEnds(nodes, blocks, bp, k);
  }

  lemma FirstHalfApart(nodes: seq<int>, blocks: Blocks, arena: set<int>, ptr: Memory, size: Memory, bp: int, k: nat)
    requires Good(nodes, blocks, arena, ptr, size) && bp in InUse(nodes, blocks) && BASE < bp
    requires k < |nodes| && nodes[k] < bp && (k + 1 < |nodes| ==> bp < nodes[k + 1])
    requires !TouchesNext(nodes, blocks, bp, k)
    ensures HalfFreed(nodes, blocks, arena, ptr, size, bp, k, nodes, blocks, ptr, size)
  {
    EndsApart(nodes, blocks, arena, bp, k);
  }

  lemma FirstHalf(nodes: seq<int>, blocks: Blocks, arena: set<int>, ptr: Memory, size: Memory, bp: int, k: nat,
                  p: int, next: int, touches: bool,
                  nodes1: seq<int>, blocks1: Blocks, ptr1: Memory, size1: Memory, after: int)
    requires Good(nodes, blocks, arena, ptr, size) && bp in InUse(nodes, blocks) && BASE < bp
    requires k < |nodes| && nodes[k] < bp && (k + 1 < |nodes| ==> bp < nodes[k + 1])
    requires p == nodes[k] && next == At(ptr, p) && touches == (bp + At(size, bp) == next)
    requires touches ==> k + 1 < |nodes| && bp + blocks[bp] in blocks
    requires nodes1 == if touches then Without(nodes, k + 1) else nodes
    requires blocks1 == if touches then Join(blocks, bp) else blocks
    requires ptr1 == if touches then ptr[p := At(ptr, next)] else ptr
    requires size1 == if touches then size[bp := At(size, bp) + At(size, next)] else size
    requires after == if touches then At(ptr, next) else next
    ensures HalfFreed(nodes, blocks, arena, ptr, size, bp, k, nodes1, blocks1, ptr1, size1)
    ensures Next(nodes1, k) == after
    ensures Untouched(nodes, bp, size, size1)
  {
    assert At(ptr, nodes[k]) == Next(nodes, k) && At(size, bp) == blocks[bp];
    if touches {
      assert next == nodes[k + 1] && At(size, next) == blocks[next];
      FirstHalfJoins(nodes, blocks, arena, ptr, size, bp, k, nodes1, blocks1, ptr1, size1);
      assert At(ptr, nodes[k + 1]) == Next(nodes, k + 1);
    } else {
      FirstHalfApart(nodes, blocks, arena, ptr, size, bp, k);
    }
  }

  /** The test of `free` for a free block after `bp` reads the headers correctly. */
  lemma TouchTest(nodes: seq<int>, blocks: Blocks, arena: set<int>, ptr: Memory, size: Memory, bp: int, k: nat)
    requires Good(nodes, blocks, arena, ptr, size) && bp in InUse(nodes, blocks) && BASE < bp && k < |nodes|
    ensures bp in blocks
    ensures bp + At(size, bp) == At(ptr, nodes[k]) ==> k + 1 < |nodes| && bp + blocks[bp] in blocks
  {
    assert At(ptr, nodes[k]) == Next(nodes, k) && At(size, bp) == blocks[bp];
  }

  lemma EndsApart(nodes: seq<int>, blocks: Blocks, arena: set<int>, bp: int, k: nat)
    requires Ordered(nodes, blocks) && Tiles(blocks, arena) && bp in InUse(nodes, blocks)
    requires k < |nodes| && nodes[k] < bp && (k + 1 < |nodes| ==> bp < nodes[k + 1])
    ensures End(nodes, blocks, k) <= bp
    ensures k + 1 < |nodes| ==> bp + blocks[bp] <= nodes[k + 1]
  {
  }

  lemma JoinedEnds(nodes: seq<int>, blocks: Blocks, bp: int, k: nat)
    requires Ordered(nodes, blocks) && Disjoint(blocks) && bp in InUse(nodes, blocks) &&
             TouchesNext(nodes, blocks, bp, k)
    requires nodes[k] < bp && 0 < blocks[bp]
    ensures var r, b := Without(nodes, k + 1), Join(blocks, bp);
            && (k > 0 ==> r[k] in b && r[k] + b[r[k]] <= bp)
            && (k + 1 < |r| ==> bp + b[bp] < r[k + 1])
  {
    assert k + 2 < |nodes| ==> End(nodes, blocks, k + 1) < nodes[k + 2];
  }

  /** The second half of `free` when the block before touches `bp`: it absorbs `bp`. */
  lemma SecondHalfJoins(nodes: seq<int>, blocks: Blocks, arena: set<int>, ptr: Memory, size: Memory, bp: int, k: nat,
                        nodes1: seq<int>, blocks1: Blocks, ptr1: Memory, size1: Memory,
                        blocks2: Blocks, ptr2: Memory, size2: Memory)
    requires HalfFreed(nodes, blocks, arena, ptr, size, bp, k, nodes1, blocks1, ptr1, size1)
    requires TouchesPrev(nodes1, blocks1, bp, k) && blocks2 == Join(blocks1, nodes1[k])
    requires ptr2 == ptr[bp := Next(nodes1, k)][nodes[k] := Next(nodes1, k)]
    requires size2 == size1[nodes[k] := blocks1[nodes[k]] + blocks1[bp]]
    ensures Good(nodes1, blocks2, arena, ptr2, size2) && InUse(nodes1, blocks2) == InUse(nodes, blocks) - {bp}
  {
    assert At(ptr1, nodes1[k]) == Next(nodes1, k);
    JoinPrev(nodes1, blocks1, arena, ptr1, size1, bp, k);
    forall j | 0 <= j < |nodes1|
      ensures At(ptr2, nodes1[j]) == At(ptr1, nodes1[j])
    {
      assert nodes1[j] != nodes[k] ==> At(ptr1, nodes1[j]) == At(ptr, nodes1[j]);
    }
    LinkedAgree(nodes1, ptr1, ptr2);
  }

  /** The second half of `free` otherwise: `bp` is put on the list. */
  lemma SecondHalfInserts(nodes: seq<int>, blocks: Blocks, arena: set<int>, ptr: Memory, size: Memory, bp: int, k: nat,
                          nodes1: seq<int>, blocks1: Blocks, ptr1: Memory, size1: Memory, nodes2: seq<int>,
                              ptr2: Memory)
    requires HalfFreed(nodes, blocks, arena, ptr, size, bp, k, nodes1, blocks1, ptr1, size1)
    requires !TouchesPrev(nodes1, blocks1, bp, k) && nodes2 == With(nodes1, k, bp)
    requires ptr2 == ptr[bp := Next(nodes1, k)][nodes[k] := bp]
    ensures Good(nodes2, blocks1, arena, ptr2, size1) && InUse(nodes2, blocks1) == InUse(nodes, blocks) - {bp}
  {
    Insert(nodes1, blocks1, arena, ptr1, size1, bp, k);
    var ptr' := ptr1[bp := Next(nodes1, k)][nodes1[k] := bp];
    forall j | 0 <= j < |nodes2|
      ensures At(ptr2, nodes2[j]) == At(ptr', nodes2[j])
    {
      assert nodes2[j] != nodes[k] ==> At(ptr1, nodes2[j]) == At(ptr, nodes2[j]);
    }
    LinkedAgree(nodes2, ptr', ptr2);
  }

  lemma SecondHalf(nodes: seq<int>, blocks: Blocks, arena: set<int>, ptr: Memory, size: Memory, bp: int, k: nat,
                   nodes1: seq<int>, blocks1: Blocks, ptr1: Memory, size1: Memory,
                   nodes2: seq<int>, blocks2: Blocks, ptr2: Memory, size2: Memory)
    requires HalfFreed(nodes, blocks, arena, ptr, size, bp, k, nodes1, blocks1, ptr1, size1)
    requires nodes2 == if TouchesPrev(nodes1, blocks1, bp, k) then nodes1 else With(nodes1, k, bp)
    requires blocks2 == if TouchesPrev(nodes1, blocks1, bp, k) then Join(blocks1, nodes1[k]) else blocks1
    requires ptr2 == ptr[bp := Next(nodes1, k)]
                        [nodes[k] := if TouchesPrev(nodes1, blocks1, bp, k) then Next(nodes1, k) else bp]
    requires size2 == if TouchesPrev(nodes1, blocks1, bp,
                                     k) then size1[nodes[k] := blocks1[nodes[k]] + blocks1[bp]] else size1
    ensures Good(nodes2, blocks2, arena, ptr2, size2) && InUse(nodes2, blocks2) == InUse(nodes, blocks) - {bp}
    ensures exists j :: 0 < j < |nodes2| && nodes2[j] in blocks2 && blocks[bp] <= blocks2[nodes2[j]]
    ensures nodes[k] in nodes2
    ensures Untouched(nodes, bp, ptr, ptr2) && Untouched(nodes, bp, size1, size2)
  {
    if TouchesPrev(nodes1, blocks1, bp, k) {
      SecondHalfJoins(nodes, blocks, arena, ptr, size, bp, k, nodes1, blocks1, ptr1, size1, blocks2, ptr2, size2);
      assert nodes2[k] == nodes[k] && blocks[bp] <= blocks2[nodes2[k]];
    } else {
      SecondHalfInserts(nodes, blocks, arena, ptr, size, bp, k, nodes1, blocks1, ptr1, size1, nodes2, ptr2);
      assert nodes2[k] == nodes[k] && nodes2[k + 1] == bp;
    }
  }

  /** Taking the whole block of node `k + 1` out of the list. */
  lemma Remove(nodes: seq<int>, blocks: Blocks, arena: set<int>, ptr: Memory, size: Memory, k: nat)
    requires Good(nodes, blocks, arena, ptr, size) && k + 1 < |nodes|
    ensures Good(Without(nodes, k + 1), blocks, arena, ptr[nodes[k] := At(ptr, nodes[k + 1])], size)
    ensures nodes[k + 1] !in InUse(nodes, blocks)
    ensures InUse(Without(nodes, k + 1), blocks) == InUse(nodes, blocks)[nodes[k + 1] := blocks[nodes[k + 1]]]
  {
    OrderedIncreases(nodes, blocks);
    LinkedWithout(nodes, ptr, k);
    WithoutMembers(nodes, k + 1);
    var r := Without(nodes, k + 1);
    forall i, j | 0 <= i < j < |r|
      ensures End(r, blocks, i) < r[j]
    {
      var i', j' := if i < k + 1 then i else i + 1, if j < k + 1 then j else j + 1;
      assert End(nodes, blocks, i') < nodes[j'];
    }
  }

  /** Cutting `n` units off the end of the free block `p`. */
  lemma CutOff(nodes: seq<int>, blocks: Blocks, arena: set<int>, ptr: Memory, size: Memory, p: int, n: nat)
    requires Good(nodes, blocks, arena, ptr, size) && p in nodes && p in blocks && 0 < n < blocks[p]
    ensures var a := p + blocks[p] - n;
            && Good(nodes, Cut(blocks, p, n), arena, ptr, size[p := blocks[p] - n][a := n])
            && a !in InUse(nodes, blocks)
            && InUse(nodes, Cut(blocks, p, n)) == InUse(nodes, blocks)[a := n]
  {
    var a, b := p + blocks[p] - n, Cut(blocks, p, n);
    CutTiles(blocks, arena, p, n);
    forall i, j | 0 <= i < j < |nodes|
      ensures End(nodes, b, i) < nodes[j]
    {
      assert End(nodes, blocks, i) < nodes[j];
    }
    assert a !in nodes;
  }

  /** A new block in use beyond all others. */
  lemma GrowGood(nodes: seq<int>, blocks: Blocks, arena: set<int>, ptr: Memory, size: Memory, a: int, n: nat)
    requires Good(nodes, blocks, arena, ptr, size) && BASE < a && 1 <= n && forall u :: u in arena ==> u < a
    ensures Good(nodes, blocks[a := n], arena + Units(a, n), ptr, size[a := n]) && a !in nodes && a !in blocks
    ensures InUse(nodes, blocks[a := n]) == InUse(nodes, blocks)[a := n]
  {
    BlocksBelow(blocks, arena, a);
    GrowTiles(blocks, arena, a, n);
    assert a !in nodes;
    var b := blocks[a := n];
    forall i, j | 0 <= i < j < |nodes|
      ensures End(nodes, b, i) < nodes[j]
    {
      assert End(nodes, blocks, i) < nodes[j];
    }
  }

  /** What neither names a list node nor is `a` is untouched. */
  ghost predicate Untouched(nodes: seq<int>, a: int, m: Memory, m': Memory) {
    forall u: int :: u != a && u !in nodes ==> At(m', u) == At(m, u)
  }

  /** Every unit of the blocks `live`, headers and user data alike, holds what it held. */
  ghost predicate KeepsUser(live: Blocks, m: Memory, m': Memory) {
    forall a, u :: a in live && a <= u < a + live[a] ==> At(m', u) == At(m, u)
  }

  /** Writes to list nodes and to the header of one block `b` do not reach the other blocks in use. */
  lemma UntouchedKeeps(nodes: seq<int>, blocks: Blocks, arena: set<int>, b: int, m: Memory, m': Memory)
    requires Ordered(nodes, blocks) && Tiles(blocks, arena) && b in blocks && Untouched(nodes, b, m, m')
    ensures KeepsUser(InUse(nodes, blocks) - {b}, m, m')
  {
    var live := InUse(nodes, blocks) - {b};
    forall a, u | a in live && a <= u < a + live[a]
      ensures At(m', u) == At(m, u)
    {
      assert u !in nodes && u != b;
    }
  }

  /** Writes inside a free block `p` do not reach the blocks in use. */
  lemma InsideKeeps(nodes: seq<int>, blocks: Blocks, arena: set<int>, p: int, m: Memory, m': Memory)
    requires Tiles(blocks, arena) && p in nodes && p in blocks
    requires forall u :: !(p <= u < p + blocks[p]) ==> At(m', u) == At(m, u)
    ensures KeepsUser(InUse(nodes, blocks), m, m')
  {
    var live := InUse(nodes, blocks);
    forall a, u | a in live && a <= u < a + live[a]
      ensures At(m', u) == At(m, u)
    {
      assert a != p;
    }
  }

  function Dist(n: nat, j: nat, k: nat): (d: nat)
    requires j < n && k < n
  {
    if j <= k then k - j else k + n - j
  }

  /** The position after `i` in a circular list of `m` nodes. */
  function Succ(m: nat, i: nat): (j: nat)
    requires i < m
    ensures j < m
  {
    if i + 1 < m then i + 1 else 0
  }

  /** How many nodes a walk that starts after position `f` passes before it reaches position `k`. */
  function Steps(m: nat, f: nat, k: nat): (d: nat)
    requires f < m && k < m
    ensures d < m && (d == m - 1 <==> k == f)
  {
    if k > f then k - f - 1 else k + m - f - 1
  }

  /** Memory in which all old blocks lie has room for the new one exactly when the request was below 2^31 bytes. */
  lemma GrownBacked(arena: set<int>, brk: int, grant: int, nbytes: nat, arena': set<int>, brk': int)
    requires BASE < brk <= grant && nbytes < 0x1_0000_0000 && forall u :: u in arena ==> u < brk
    requires var n := CoreUnits(UnitsFor(nbytes));
             arena' == arena + Units(grant, n) && brk' == EndAfter(grant, Int32(n * UNIT))
    ensures (BASE < brk' && forall u :: u in arena' ==> u < brk') <==> CoreUnits(UnitsFor(nbytes)) * UNIT < 0x8000_0000
  {
    var n := CoreUnits(UnitsFor(nbytes));
    SbrkAdds(grant, nbytes);
    assert grant + n - 1 in arena';
  }

  class Allocator {
    var freep: int
    var ptr: Memory
    var size: Memory
    var brk: int
    ghost var nodes: seq<int>
    ghost var blocks: Blocks
    ghost var arena: set<int>

    /** The allocator has been used: the free list exists. */
    ghost predicate Ready()
      reads this
    {
      Good(nodes, blocks, arena, ptr, size) && freep in nodes
    }

    /** Every unit of every block is memory of the process. */
    ghost predicate Backed()
      reads this
    {
      BASE < brk && forall u :: u in arena ==> u < brk
    }

    /** The invariant over every run of `malloc` and `free`. */
    ghost predicate Valid()
      reads this
    {
      (freep == 0 && nodes == [BASE] && blocks == map[] && arena == {}) || Ready()
    }

    ghost function Live(): (r: Blocks)
      reads this
    {
      InUse(nodes, blocks)
    }

    constructor (brk: int)
      requires BASE < brk
      ensures Valid() && Backed() && nodes == [BASE] && Live() == map[] && arena == {} && this.brk == brk
    {
      freep := 0;
      ptr := map[];
      size := map[];
      this.brk := brk;
      nodes := [BASE];
      blocks := map[];
      arena := {};
    }

    /** Walk the list to the node after which block `bp` belongs. */
    method FindPred(bp: int) returns (p: int, ghost k: nat)
      requires Ready() && bp in blocks && bp !in nodes
      ensures Increasing(nodes) && BASE < bp && k == Slot(nodes, bp) && p == nodes[Slot(nodes, bp)]
    {
      OrderedIncreases(nodes, blocks);
      p := freep;
      ghost var j :| 0 <= j < |nodes| && nodes[j] == freep;
      k := Slot(nodes, bp);
      while !(bp > p && bp < At(ptr, p))
        invariant 0 <= j < |nodes| && p == nodes[j] && At(ptr, p) == Next(nodes, j)
        decreases Dist(|nodes|, j, k)
      {
        StopsAtSlot(nodes, bp, j);
        if p >= At(ptr, p) && (bp > p || bp < At(ptr, p)) {
          break;
        }
        p := At(ptr, p);
        j := if j + 1 < |nodes| then j + 1 else 0;
        assert At(ptr, nodes[j]) == Next(nodes, j);
      }
      StopsAtSlot(nodes, bp, j);
    }

    /** The free list holds a block of at least `n` units. */
    ghost predicate HasRoom(n: int)
      reads this
    {
      exists k :: 0 < k < |nodes| && nodes[k] in blocks && n <= blocks[nodes[k]]
    }

    /** Return the block in use `bp` (the unit before the pointer passed to `free`) to the free list, joining it with
        the free blocks that touch it. The other blocks in use keep every unit. */
    method Free(bp: int)
      requires Valid() && bp in Live()
      modifies this`freep, this`ptr, this`size, this`nodes, this`blocks
      ensures Ready() && Live() == old(Live()) - {bp}
      ensures HasRoom(old(blocks)[bp])
      ensures KeepsUser(Live(), old(ptr), ptr) && KeepsUser(Live(), old(size), size)
    {
      hide Linked, Ordered, Sized, Tiles, HalfFreed, KeepsUser;
      var p;
      ghost var k;
      p, k := FindPred(bp);
      ghost var nodes1, blocks1, ptr1, size1 := FreeForward(bp, p, k);
      FreeBackward(bp, p, k, old(nodes), old(blocks), old(ptr), old(size), nodes1, blocks1, ptr1, size1);
      UntouchedKeeps(old(nodes), old(blocks), arena, bp, old(ptr), ptr);
      UntouchedKeeps(old(nodes), old(blocks), arena, bp, old(size), size);
      freep := p;
    }

    /** The first half of `free`: absorb the next free block if it touches `bp`, and let `bp` point where it belongs. */
    method FreeForward(bp: int, p: int, ghost k: nat)
      returns (ghost nodes1: seq<int>, ghost blocks1: Blocks, ghost ptr1: Memory, ghost size1: Memory)
      requires Ready() && bp in Live() && BASE < bp && k == Slot(nodes, bp) && p == nodes[k]
      modifies this`ptr, this`size
      ensures HalfFreed(nodes, blocks, arena, old(ptr), old(size), bp, k, nodes1, blocks1, ptr1, size1)
      ensures ptr == old(ptr)[bp := Next(nodes1, k)] && size == size1
      ensures Untouched(nodes, bp, old(size), size)
    {
      hide Good, Linked, Ordered, Sized, Tiles, HalfFreed, Untouched, InUse, Slot, Without, Join, Next;
      TouchTest(nodes, blocks, arena, ptr, size, bp, k);
      var next := At(ptr, p);
      var touches := bp + At(size, bp) == next;
      var after := if touches then At(ptr, next) else next;
      nodes1 := if touches then Without(nodes, k + 1) else nodes;
      blocks1 := if touches then Join(blocks, bp) else blocks;
      ptr1 := if touches then ptr[p := At(ptr, next)] else ptr;
      var joined := if touches then size[bp := At(size, bp) + At(size, next)] else size;
      size1 := joined;
      FirstHalf(nodes, blocks, arena, ptr, size, bp, k, p, next, touches, nodes1, blocks1, ptr1, size1, after);
      size := joined;
      ptr := ptr[bp := after];
    }

    /** The second half of `free`: let the free block before absorb `bp` if it touches it, or put `bp` on the list. */
    method FreeBackward(bp: int, p: int, ghost k: nat, ghost nodes0: seq<int>, ghost blocks0: Blocks,
                        ghost ptr0: Memory, ghost size0: Memory,
                        ghost nodes1: seq<int>, ghost blocks1: Blocks, ghost ptr1: Memory, ghost size1: Memory)
      requires HalfFreed(nodes0, blocks0, arena, ptr0, size0, bp, k, nodes1, blocks1, ptr1, size1)
      requires p == nodes0[k] && ptr == ptr0[bp := Next(nodes1, k)] && size == size1
      modifies this`ptr, this`size, this`nodes, this`blocks
      ensures Good(nodes, blocks, arena, ptr, size) && InUse(nodes, blocks) == InUse(nodes0, blocks0) - {bp}
      ensures p in nodes && HasRoom(blocks0[bp])
      ensures Untouched(nodes0, bp, ptr0, ptr) && Untouched(nodes0, bp, old(size), size)
    {
      assert (k > 0 ==> At(size, p) == blocks1[p]) && At(size, bp) == blocks1[bp];
      var touches := p + At(size, p) == bp;
      assert touches == TouchesPrev(nodes1, blocks1, bp, k);
      nodes := if touches then nodes1 else With(nodes1, k, bp);
      blocks := if touches then Join(blocks1, p) else blocks1;
      size := if touches then size[p := At(size, p) + At(size, bp)] else size;
      ptr := ptr[p := if touches then At(ptr, bp) else bp];
      SecondHalf(nodes0, blocks0, arena, ptr0, size0, bp, k, nodes1, blocks1, ptr1, size1, nodes, blocks, ptr, size);
    }

    /** Make a block in use out of `n` units at `grant`. */
    method AddCore(grant: int, n: nat)
      requires Ready() && Backed() && 0 < n && brk <= grant
      modifies this`size, this`blocks, this`arena, this`brk
      ensures Ready() && Live() == old(Live())[grant := n] && grant in blocks && blocks[grant] == n &&
              grant !in old(Live())
      ensures arena == old(arena) + Units(grant, n) && brk == EndAfter(grant, Int32(n * UNIT))
      ensures KeepsUser(old(Live()), old(size), size)
    {
      GrowGood(nodes, blocks, arena, ptr, size, grant, n);
      BlocksBelow(blocks, arena, brk);
      size := size[grant := n];
      blocks := blocks[grant := n];
      arena := arena + Units(grant, n);
      brk := EndAfter(grant, Int32(n * UNIT));
    }

    /** Ask the kernel for at least `nu` units and put them on the free list. `grant` is what `sbrk` answers: the end of
        memory before the call, or -1. */
    method Morecore(nu: int, grant: int) returns (ok: bool)
      requires Ready() && Backed() && 0 < nu && (grant == -1 || brk <= grant)
      modifies this
      ensures Ready() && Live() == old(Live()) && ok == (grant != -1)
      ensures ok ==> HasRoom(nu) && arena == old(arena) + Units(grant, CoreUnits(nu)) && brk == EndAfter(grant,
              Int32(CoreUnits(nu) * UNIT))
      ensures !ok ==> unchanged(this)
      ensures KeepsUser(Live(), old(ptr), ptr) && KeepsUser(Live(), old(size), size)
    {
      var n := CoreUnits(nu);
      if grant == -1 {
        return false;
      }
      AddCore(grant, n);
      Free(grant);
      assert old(Live())[grant := n] - {grant} == old(Live());
      ok := true;
    }

    /** Take the whole block after node `k`. */
    method TakeWhole(prevp: int, p: int, ghost k: nat)
      requires Ready() && k + 1 < |nodes| && nodes[k] == prevp && p == nodes[k + 1]
      modifies this`ptr, this`freep, this`nodes
      ensures Ready() && freep == prevp
      ensures p !in old(Live()) && Live() == old(Live())[p := blocks[p]]
      ensures KeepsUser(old(Live()), old(ptr), ptr)
    {
      Remove(nodes, blocks, arena, ptr, size, k);
      ptr := ptr[prevp := At(ptr, p)];
      nodes := Without(nodes, k + 1);
      freep := prevp;
      assert nodes[k] == prevp;
      UntouchedKeeps(old(nodes), blocks, arena, p, old(ptr), ptr);
      assert old(Live()) - {p} == old(Live());
    }

    /** Take the last `n` units of the free block `p`. */
    method TakeTail(prevp: int, p: int, n: int) returns (r: int)
      requires Ready() && prevp in nodes && p in nodes && p in blocks && 0 < n < blocks[p]
      modifies this`size, this`freep, this`blocks
      ensures Ready() && freep == prevp
      ensures BASE < r && r !in old(Live()) && Live() == old(Live())[r := n]
      ensures KeepsUser(old(Live()), old(size), size)
    {
      assert At(size, p) == blocks[p];
      CutOff(nodes, blocks, arena, ptr, size, p, n);
      var rest := At(size, p) - n;
      r := p + rest;
      size := size[p := rest][r := n];
      InsideKeeps(nodes, blocks, arena, p, old(size), size);
      blocks := Cut(blocks, p, n);
      freep := prevp;
    }

    /** Take `n` units out of the free block `p` that follows `prevp` on the list: the whole block if it fits exactly,
        its tail otherwise. */
    method Take(prevp: int, p: int, n: int, ghost k: nat) returns (r: int)
      requires Ready() && k < |nodes| && nodes[k] == prevp && p == Next(nodes, k) && 0 < n <= At(size, p)
      modifies this`ptr, this`size, this`freep, this`nodes, this`blocks
      ensures Ready() && freep == prevp
      ensures BASE < r && r !in old(Live()) && Live() == old(Live())[r := n]
      ensures KeepsUser(old(Live()), old(ptr), ptr) && KeepsUser(old(Live()), old(size), size)
    {
      assert k + 1 < |nodes| && p == nodes[k + 1] && At(size, p) == blocks[p];
      if At(size, p) == n {
        TakeWhole(prevp, p, k);
        r := p;
      } else {
        r := TakeTail(prevp, p, n);
      }
    }

    /** The walk of `malloc` that started after `freep`, at position `f`, and is now at the node after position `i`,
        passed only nodes too small for `n` units. */
    ghost predicate Passed(f: nat, i: nat, n: int)
      reads this
    {
      && f < |nodes| && i < |nodes| && nodes[f] == freep
      && forall k :: 0 <= k < |nodes| && Steps(|nodes|, f, k) < Steps(|nodes|, f, Succ(|nodes|, i)) ==>
          At(size, nodes[k]) < n
    }

    lemma PassedStarts(f: nat, n: int)
      requires f < |nodes| && nodes[f] == freep
      ensures Passed(f, f, n)
    {
    }

    /** One more node passed, and one step nearer to the end of the walk. */
    lemma PassedOne(f: nat, i: nat, n: int)
      requires Passed(f, i, n) && Next(nodes, i) != freep && At(size, Next(nodes, i)) < n
      ensures var m, j := |nodes|, Succ(|nodes|, i);
              && nodes[j] == Next(nodes, i) && Passed(f, j, n)
              && Steps(m, f, Succ(m, j)) == Steps(m, f, j) + 1
    {
      var m, j := |nodes|, Succ(|nodes|, i);
      forall k | 0 <= k < m && Steps(m, f, k) < Steps(m, f, Succ(m, j))
        ensures At(size, nodes[k]) < n
      {
        assert k == j || Steps(m, f, k) < Steps(m, f, j);
      }
    }

    /** A walk that comes back to `freep` without success has seen every block. */
    lemma AllPassed(f: nat, i: nat, n: int)
      requires Ready() && Passed(f, i, n) && 0 < n
      requires Next(nodes, i) == freep && At(size, freep) < n
      ensures !HasRoom(n)
    {
      OrderedIncreases(nodes, blocks);
      var m := |nodes|;
      assert Next(nodes, i) == nodes[Succ(m, i)];
      assert Succ(m, i) == f;
      forall k | 0 < k < m && nodes[k] in blocks
        ensures blocks[nodes[k]] < n
      {
        assert At(size, nodes[k]) == blocks[nodes[k]];
        assert k != f ==> Steps(m, f, k) < Steps(m, f, f);
      }
    }

    /** Allocate room for `nbytes` bytes; `grant` is what `sbrk` will answer if it is asked. The block handed out is new
        to its user and has its header and the requested bytes; every other block in use keeps every unit. The call
        fails exactly when no free block is large enough and `sbrk` fails, and memory grows only when no free block is
        large enough. It ends: after growing, the walk finds a block before it comes round again. The block is memory of
        the process exactly when a free block was large enough or the bytes asked from the kernel are below 2^31. */
    method Malloc(nbytes: nat, grant: int) returns (r: int)
      requires Valid() && Backed() && nbytes < 0x1_0000_0000 && (grant == -1 || brk <= grant)
      modifies this
      ensures Ready()
      ensures var n := UnitsFor(nbytes);
              && (r == 0 <==> !old(HasRoom(n)) && grant == -1)
              && (r == 0 ==> Live() == old(Live()))
              && (r != 0 ==> r !in old(Live()) && Live() == old(Live())[r := n])
              && arena == (if old(HasRoom(n)) || grant ==
                           -1 then old(arena) else old(arena) + Units(grant, CoreUnits(n)))
              && brk == (if old(HasRoom(n)) || grant ==
                         -1 then old(brk) else EndAfter(grant, Int32(CoreUnits(n) * UNIT)))
              && (Backed() <==> old(HasRoom(n)) || grant == -1 || CoreUnits(n) * UNIT < 0x8000_0000)
      ensures KeepsUser(old(Live()), old(ptr), ptr) && KeepsUser(old(Live()), old(size), size)
    {
      var n := UnitsFor(nbytes);
      if freep == 0 {
        ptr, freep, size := ptr[BASE := BASE], BASE, size[BASE := 0];
      }
      assert Ready() && Live() == old(Live()) && (HasRoom(n) <==> old(HasRoom(n)));
      ghost var arena0, brk0, room := arena, brk, HasRoom(n);
      r := Search(n, grant);
      if !room && grant != -1 {
        GrownBacked(arena0, brk0, grant, nbytes, arena, brk);
      }
    }

    /** The loop of `malloc`. */
    method Search(n: int, grant: int) returns (r: int)
      requires Ready() && Backed() && 0 < n && (grant == -1 || brk <= grant)
      modifies this
      ensures Ready()
      ensures r == 0 <==> !old(HasRoom(n)) && grant == -1
      ensures r == 0 ==> Live() == old(Live())
      ensures r != 0 ==> r !in old(Live()) && Live() == old(Live())[r := n]
      ensures arena == if old(HasRoom(n)) || grant == -1 then old(arena) else old(arena) + Units(grant, CoreUnits(n))
      ensures brk == if old(HasRoom(n)) || grant == -1 then old(brk) else EndAfter(grant, Int32(CoreUnits(n) * UNIT))
      ensures KeepsUser(old(Live()), old(ptr), ptr) && KeepsUser(old(Live()), old(size), size)
    {
      var prevp := freep;
      var p := At(ptr, prevp);
      ghost var f: nat :| f < |nodes| && nodes[f] == freep;
      ghost var i, grown := f, false;
      PassedStarts(f, n);
      assert At(ptr, nodes[f]) == Next(nodes, f);
      while true
        invariant Ready() && Passed(f, i, n)
        invariant prevp == nodes[i] && p == Next(nodes, i)
        invariant Live() == old(Live()) && (grown ==> HasRoom(n) && grant != -1 && !old(HasRoom(n)))
        invariant !grown ==> unchanged(this)
        invariant KeepsUser(old(Live()), old(ptr), ptr) && KeepsUser(old(Live()), old(size), size)
        invariant grown ==> arena == old(arena) + Units(grant, CoreUnits(n)) && brk == EndAfter(grant,
                  Int32(CoreUnits(n) * UNIT))
        decreases if grown then 0 else 1, |nodes| - Steps(|nodes|, f, Succ(|nodes|, i))
      {
        if At(size, p) >= n {
          r := Take(prevp, p, n, i);
          return;
        }
        if p == freep {
          AllPassed(f, i, n);
          var ok := Morecore(n, grant);
          if !ok {
            return 0;
          }
          p, grown := freep, true;
          f :| f < |nodes| && nodes[f] == freep;
          i := f;
          PassedStarts(f, n);
        } else {
          PassedOne(f, i, n);
          i := Succ(|nodes|, i);
        }
        assert p == nodes[i] && At(ptr, nodes[i]) == Next(nodes, i);
        prevp := p;
        p := At(ptr, p);
      }
      r := 0;
    }
  }

  /** The largest request in a new process: `sbrk` adds a single unit, and malloc hands out a block of 2^28 + 1
      units. */
  method HugeRequest() returns (h: Allocator, r: int)
    ensures fresh(h) && r != 0 && h.Ready() && r in h.Live() && h.Live()[r] == 0x1000_0001
    ensures h.brk == 3 && !h.Backed()
  {
    h := new Allocator(2);
    assert !h.HasRoom(0x1000_0001) && UnitsFor(0xFFFF_FFFF) == 0x1000_0001 == CoreUnits(0x1000_0001);
    r := h.Malloc(0xFFFF_FFFF, 2);
  }
}
