/** The three-level page table (Sv39, section 4.4 of the RISC-V Privileged Architecture, version 20211203)
    and the page allocator below it.

    A page-table page is a sequence of 512 entries. Virtual addresses appear as page numbers; a user
    address lies below MAXVA = 2^38, so its page number is below 2^26. */
module PageTable {
  import opened Params

  const ENTRIES := 512
  const MAXVPN := 0x400_0000

  /** A page-table entry: the valid bit, the nine other flag bits and the physical page. */
  datatype Pte = Pte(valid: bool, perm: int, pa: int)

  const NONE := Pte(false, 0, 0)

  /** What `kfree` and `kalloc` fill a page with. */
  const FREED := 1
  const TAKEN := 5

  // ----- The entry as a 64-bit word -----

  /** The word PA2PTE(pa) | flags. */
  function Pack(e: Pte): (w: int) {
    e.pa / 0x1000 * 0x400 + e.perm * 2 + (if e.valid then 1 else 0)
  }

  /** The entry read from a word with PTE2PA and PTE_FLAGS. */
  function Unpack(w: int): (e: Pte) {
    Pte(w % 2 == 1, w % 0x400 / 2, w / 0x400 * 0x1000)
  }

  lemma Split(q: int, f: int)
    requires 0 <= f < 0x400
    ensures (q * 0x400 + f) / 0x400 == q && (q * 0x400 + f) % 0x400 == f
  {
  }

  lemma LowBit(q: int, f: int)
    ensures (q * 0x400 + f) % 2 == f % 2
  {
    assert q * 0x400 + f == 2 * (q * 0x200) + f;
  }

  /** Entries with aligned addresses survive the trip through a word. */
  lemma PackRoundTrip(e: Pte)
    requires 0 <= e.pa && e.pa % PGSIZE == 0 && 0 <= e.perm < 512
    ensures Unpack(Pack(e)) == e
  {
    var q, b := e.pa / 0x1000, if e.valid then 1 else 0;
    var f := e.perm * 2 + b;
    Split(q, f);
    LowBit(q, f);
    assert Pack(e) == q * 0x400 + f;
    hide Pack;
    assert q * 0x1000 == e.pa;
    assert f / 2 == e.perm && f % 2 == b;
  }

  /** Where the parts of an entry stand in its word: bit 0 is the valid bit, the permissions follow, and from bit 10 on
      comes the number of the page. */
  lemma PackFields(e: Pte)
    requires 0 <= e.pa && e.pa % PGSIZE == 0 && 0 <= e.perm < 512
    ensures Pack(e) % 2 == if e.valid then 1 else 0
    ensures Pack(e) % 0x400 / 2 == e.perm && Pack(e) / 0x400 == e.pa / 0x1000
  {
    var q, f := e.pa / 0x1000, e.perm * 2 + if e.valid then 1 else 0;
    Split(q, f);
    LowBit(q, f);
    assert Pack(e) == q * 0x400 + f;
    hide Pack;
  }

  /** Some of the read, write and execute bits is set: the mark of a leaf entry. */
  predicate Rwx(e: Pte) {
    e.perm % 8 != 0
  }

  // ----- Page numbers -----

  /** The 9-bit index of a page number at `level` 0, 1 or 2. */
  function Index(level: int, vpn: int): (i: int)
    requires 0 <= vpn < MAXVPN
    ensures 0 <= i < ENTRIES
  {
    if level == 0 then vpn % 512 else if level == 1 then vpn / 512 % 512 else vpn / 0x4_0000
  }

  /** What the indices above `level` determine: the number of the table at that level. */
  function Prefix(level: int, vpn: int): (p: int)
    requires 0 <= vpn < MAXVPN
  {
    if level == 0 then vpn / 512 else if level == 1 then vpn / 0x4_0000 else 0
  }

  lemma PrefixBelow(level: int, vpn: int)
    requires 0 <= vpn < MAXVPN && 1 <= level <= 2
    ensures 0 <= Prefix(level - 1, vpn) == Prefix(level, vpn) * 512 + Index(level, vpn) < Span(level - 1)
  {
  }

  lemma VpnFrom(vpn: int)
    requires 0 <= vpn < MAXVPN
    ensures vpn == Prefix(0, vpn) * 512 + Index(0, vpn)
  {
  }

  // ----- Pages and what they are used for -----

  /** A page is free, a page-table page at a place in the table rooted at `root`, the memory behind a
      user page, or used for something else. */
  datatype Owner = Free | Table(root: int, level: int, prefix: int) | Leaf(root: int, vpn: int) | Other

  type Tables = map<int, seq<Pte>>

  /** A table without entries. */
  function Zeroed(): (r: seq<Pte>)
    ensures |r| == ENTRIES && forall i :: 0 <= i < ENTRIES ==> r[i] == NONE
  {
    seq(ENTRIES, _ => NONE)
  }

  /** The number of places at a level below one root. */
  function Span(level: int): (n: int) {
    if level == 2 then 1 else if level == 1 then 256 else 0x2_0000
  }

  predicate TableAt(owner: map<int, Owner>, pa: int, root: int, level: int, prefix: int) {
    pa in owner && owner[pa] == Table(root, level, prefix)
  }

  /** The pages marked as page-table pages are those that hold tables; a root is at level 2 and knows itself. */
  ghost predicate TablesOk(tables: Tables, owner: map<int, Owner>) {
    && 0 !in owner
    && (forall p :: p in tables <==> p in owner && owner[p].Table?)
    && (forall p :: p in tables ==> |tables[p]| == ENTRIES && 0 <= owner[p].level <= 2)
    && (forall p :: p in tables ==> 0 <= owner[p].prefix < Span(owner[p].level))
    && (forall p :: p in tables && owner[p].level == 2 ==> owner[p] == Table(p, 2, 0))
  }

  /** A valid entry above level 0 points to the table that belongs there, except at the hole (hq, hi). */
  ghost predicate LinksOk(tables: Tables, owner: map<int, Owner>, hq: int, hi: int) {
    forall p, i ::
      (p in tables && 0 <= i < ENTRIES && i < |tables[p]| && p in owner && owner[p].Table? && owner[p].level > 0 &&
       tables[p][i].valid && !(p == hq && i == hi)) ==>
        !Rwx(tables[p][i]) && TableAt(owner, tables[p][i].pa, owner[p].root, owner[p].level - 1,
                                      owner[p].prefix * 512 + i)
  }

  /** Every table below level 2 hangs on the entry of its parent. */
  ghost predicate ParentsOk(tables: Tables, owner: map<int, Owner>, parent: map<int, int>) {
    forall p :: p in tables && p in owner && owner[p].Table? && owner[p].level < 2 ==>
      p in parent && parent[p] in tables && |tables[parent[p]]| == ENTRIES &&
      TableAt(owner, parent[p], owner[p].root, owner[p].level + 1, owner[p].prefix / 512) &&
      tables[parent[p]][owner[p].prefix % 512].valid && tables[parent[p]][owner[p].prefix % 512].pa == p
  }

  /** The table entry that `walk` follows, or 0. */
  function Child(tables: Tables, t: int, i: int): (c: int) {
    if t in tables && 0 <= i < |tables[t]| && tables[t][i].valid then tables[t][i].pa else 0
  }

  /** The level-1 and level-0 tables on the way to a page, or 0. */
  function T1(tables: Tables, root: int, vpn: int): (t: int)
    requires 0 <= vpn < MAXVPN
  {
    Child(tables, root, Index(2, vpn))
  }

  function T0(tables: Tables, root: int, vpn: int): (t: int)
    requires 0 <= vpn < MAXVPN
  {
    Child(tables, T1(tables, root, vpn), Index(1, vpn))
  }

  /** The entry for a page, or an invalid one: the partial map that the table stands for. */
  function Lookup(tables: Tables, root: int, vpn: int): (e: Pte)
    requires 0 <= vpn < MAXVPN
  {
    var t := T0(tables, root, vpn);
    if t in tables && Index(0, vpn) < |tables[t]| &&
        tables[t][Index(0, vpn)].valid then tables[t][Index(0, vpn)] else NONE
  }

  /** Entry `i` of table `t`. */
  function Entry(tables: Tables, t: int, i: int): (e: Pte) {
    if t in tables && 0 <= i < |tables[t]| then tables[t][i] else NONE
  }

  /** The map is what the hardware finds: it goes down three levels, with nine bits of the page number each, the highest
      first. */
  lemma LookupWalks(tables: Tables, root: int, vpn: int)
    requires 0 <= vpn < MAXVPN && 0 !in tables
    ensures var a := Entry(tables, root, vpn / 0x4_0000);
            var b := Entry(tables, a.pa, vpn / 512 % 512);
            var c := Entry(tables, b.pa, vpn % 512);
            Lookup(tables, root, vpn) == if a.valid && b.valid && c.valid then c else NONE
  {
  }

  ghost predicate IsRoot(owner: map<int, Owner>, root: int) {
    TableAt(owner, root, root, 2, 0)
  }

  /** Each page owned as user memory is mapped where its owner says. */
  ghost predicate LeavesOk(tables: Tables, owner: map<int, Owner>) {
    forall p :: p in owner && owner[p].Leaf? ==>
      && 0 <= owner[p].vpn < MAXVPN && IsRoot(owner, owner[p].root)
      && Lookup(tables, owner[p].root, owner[p].vpn).valid && Lookup(tables, owner[p].root, owner[p].vpn).pa == p
  }

  /** The free list holds exactly the free pages, each once. */
  ghost predicate FreeOk(free: seq<int>, owner: map<int, Owner>) {
    && (forall i, j :: 0 <= i < j < |free| ==> free[i] != free[j])
    && (forall p :: p in free <==> p in owner && owner[p].Free?)
  }

  lemma NoTables(owner: map<int, Owner>, free: seq<int>)
    requires FreeOk(free, owner) && forall p :: p in owner ==> owner[p] == Free && p != 0
    ensures Inv(map[], owner, map[], free)
  {
  }

  lemma FreeNone()
    ensures FreeOk([], map[])
  {
  }

  lemma FreeMore(free: seq<int>, owner: map<int, Owner>, p: int)
    requires FreeOk(free, owner) && p !in owner
    ensures FreeOk([p] + free, owner[p := Free])
  {
    assert p !in free;
  }

  // ----- Facts about walks -----

  lemma TableHas(tables: Tables, owner: map<int, Owner>, t: int, root: int, level: int, prefix: int)
    requires TablesOk(tables, owner) && TableAt(owner, t, root, level, prefix)
    ensures t in tables && |tables[t]| == ENTRIES
  {
  }

  lemma PlaceSplit(prefix: int, i: int)
    requires 0 <= i < ENTRIES
    ensures (prefix * 512 + i) / 512 == prefix && (prefix * 512 + i) % 512 == i
  {
  }

  lemma NoLeafAbove(tables: Tables, owner: map<int, Owner>, t: int, i: int, root: int, level: int, prefix: int)
    requires TablesOk(tables, owner) && TableAt(owner, t, root, level, prefix) && NoLeaves(tables, owner, root)
    requires t in tables && 0 <= i < |tables[t]| && i < ENTRIES && tables[t][i].valid
    ensures level > 0
  {
  }

  /** A valid entry of a table above the lowest level points to the table at its place. */
  lemma ChildAt(tables: Tables, owner: map<int, Owner>, parent: map<int, int>, free: seq<int>, t: int, i: int,
                root: int, level: int, prefix: int)
    requires TreeOk(tables, owner, parent, free, 0, 0) && TableAt(owner, t, root, level, prefix) && level > 0 &&
             0 <= i < ENTRIES
    ensures t in tables && |tables[t]| == ENTRIES && level <= 2
    ensures tables[t][i].valid ==>
            TableAt(owner, tables[t][i].pa, root, level - 1, prefix * 512 + i) && tables[t][i].pa != 0
  {
  }

  /** The tables met on a walk are where the walk expects them. */
  lemma WalkMeets(tables: Tables, owner: map<int, Owner>, root: int, vpn: int)
    requires TablesOk(tables, owner) && LinksOk(tables, owner, 0, 0) && IsRoot(owner, root) && 0 <= vpn < MAXVPN
    ensures T1(tables, root, vpn) != 0 ==> TableAt(owner, T1(tables, root, vpn), root, 1, Prefix(1, vpn))
    ensures T0(tables, root, vpn) != 0 ==> TableAt(owner, T0(tables, root, vpn), root, 0, Prefix(0, vpn))
  {
    PrefixBelow(2, vpn);
    PrefixBelow(1, vpn);
    var t1 := T1(tables, root, vpn);
    assert tables[root][Index(2, vpn)].valid ==> TableAt(owner, t1, root, 1, Prefix(1, vpn));
    if t1 != 0 && tables[t1][Index(1, vpn)].valid {
      assert TableAt(owner, tables[t1][Index(1, vpn)].pa, root, 0, Prefix(0, vpn));
    }
  }

  /** A place in the tree is held by one page only, and the walk to a page finds the level-0 table there. */
  lemma WalkFinds(tables: Tables, owner: map<int, Owner>, parent: map<int, int>, root: int, vpn: int, t: int)
    requires TablesOk(tables, owner) && ParentsOk(tables, owner, parent) && IsRoot(owner, root) && 0 <= vpn < MAXVPN
    requires TableAt(owner, t, root, 0, Prefix(0, vpn))
    ensures T0(tables, root, vpn) == t
  {
    var q := parent[t];
    assert owner[t].prefix / 512 == Prefix(1, vpn) && owner[t].prefix % 512 == Index(1, vpn);
    assert TableAt(owner, q, root, 1, Prefix(1, vpn));
    var r := parent[q];
    assert owner[q].prefix / 512 == 0 && owner[q].prefix % 512 == Index(2, vpn);
    assert TableAt(owner, r, root, 2, 0) && r == root;
  }

  // ----- The invariant -----

  /** Everything but the leaves, with a hole at (hq, hi). */
  ghost predicate TreeOk(tables: Tables, owner: map<int, Owner>, parent: map<int, int>, free: seq<int>, hq: int,
                         hi: int) {
    TablesOk(tables, owner) && LinksOk(tables, owner, hq, hi) && ParentsOk(tables, owner, parent) && FreeOk(free, owner)
  }

  ghost predicate Inv(tables: Tables, owner: map<int, Owner>, parent: map<int, int>, free: seq<int>) {
    TreeOk(tables, owner, parent, free, 0, 0) && LeavesOk(tables, owner)
  }

  /** All roots map what they mapped before. */
  ghost predicate SameMap(owner: map<int, Owner>, tables: Tables, tables': Tables) {
    forall r, v :: IsRoot(owner, r) && 0 <= v < MAXVPN ==> Lookup(tables', r, v) == Lookup(tables, r, v)
  }

  /** Some free pages have become page-table pages; every other page is used as before. */
  ghost predicate Grown(owner: map<int, Owner>, owner': map<int, Owner>) {
    && owner'.Keys == owner.Keys
    && forall p :: p in owner ==> owner'[p] == owner[p] || (owner[p].Free? && owner'[p].Table? && owner'[p].level < 2)
  }

  // ----- Hanging an empty table into the tree -----

  function HangTables(tables: Tables, t: int, i: int, c: int): (r: Tables)
    requires t in tables && 0 <= i < |tables[t]|
  {
    tables[c := Zeroed()][t := tables[t][i := Pte(true, 0, c)]]
  }

  lemma HangLookup(tables: Tables, owner: map<int, Owner>, t: int, i: int, c: int, r: int, v: int)
    requires TablesOk(tables, owner) && LinksOk(tables, owner, 0, 0)
    requires t in tables && owner[t].level > 0 && 0 <= i < ENTRIES && !tables[t][i].valid
    requires c in owner && !owner[c].Table? && IsRoot(owner, r) && 0 <= v < MAXVPN
    ensures Lookup(HangTables(tables, t, i, c), r, v) == Lookup(tables, r, v)
  {
    WalkMeets(tables, owner, r, v);
    var tables' := HangTables(tables, t, i, c);
    var t1, t0 := T1(tables, r, v), T0(tables, r, v);
    var t1', t0' := T1(tables', r, v), T0(tables', r, v);
    if r == t && Index(2, v) == i {
      assert t1' == c && t1 == 0 && t0' == 0;
    } else {
      assert t1' == t1;
      if t1 == t && Index(1, v) == i {
        assert t0' == c && t0 == 0;
      } else {
        assert t0' == t0;
      }
    }
  }

  /** Taking a spare page as an empty table below an invalid entry keeps the tree and the map. */
  lemma Hang(tables: Tables, owner: map<int, Owner>, parent: map<int, int>, free: seq<int>, t: int, i: int, c: int,
             tables': Tables, owner': map<int, Owner>, parent': map<int, int>)
    requires Inv(tables, owner, parent, free)
    requires t in tables && owner[t].level > 0 && 0 <= i < ENTRIES && !tables[t][i].valid
    requires 0 <= owner[t].prefix * 512 + i < Span(owner[t].level - 1)
    requires c in owner && owner[c].Other?
    requires tables' == HangTables(tables, t, i, c) && parent' == parent[c := t]
    requires owner' == owner[c := Table(owner[t].root, owner[t].level - 1, owner[t].prefix * 512 + i)]
    ensures Inv(tables', owner', parent', free)
    ensures SameMap(owner, tables, tables')
  {
    HangLinks(tables, owner, t, i, c, tables', owner');
    HangParents(tables, owner, parent, t, i, c, tables', owner', parent');
    forall r, v | IsRoot(owner, r) && 0 <= v < MAXVPN
      ensures Lookup(tables', r, v) == Lookup(tables, r, v)
    {
      HangLookup(tables, owner, t, i, c, r, v);
    }
    assert forall r :: IsRoot(owner, r) ==> IsRoot(owner', r);
  }

  lemma HangLinks(tables: Tables, owner: map<int, Owner>, t: int, i: int, c: int, tables': Tables,
                  owner': map<int, Owner>)
    requires TablesOk(tables, owner) && LinksOk(tables, owner, 0, 0)
    requires t in tables && owner[t].level > 0 && 0 <= i < ENTRIES && !tables[t][i].valid
    requires 0 <= owner[t].prefix * 512 + i < Span(owner[t].level - 1)
    requires c in owner && owner[c].Other?
    requires tables' == HangTables(tables, t, i, c)
    requires owner' == owner[c := Table(owner[t].root, owner[t].level - 1, owner[t].prefix * 512 + i)]
    ensures TablesOk(tables', owner') && LinksOk(tables', owner', 0, 0)
  {
    forall p, j | p in tables' && 0 <= j < ENTRIES && owner'[p].level > 0 && tables'[p][j].valid
      ensures !Rwx(tables'[p][j])
      ensures TableAt(owner', tables'[p][j].pa, owner'[p].root, owner'[p].level - 1, owner'[p].prefix * 512 + j)
    {
      if p == t && j == i {
      } else {
        assert p != c && tables'[p][j] == tables[p][j];
      }
    }
  }

  lemma HangParents(tables: Tables, owner: map<int, Owner>, parent: map<int, int>, t: int, i: int, c: int,
                    tables': Tables, owner': map<int, Owner>, parent': map<int, int>)
    requires TablesOk(tables, owner) && ParentsOk(tables, owner, parent)
    requires t in tables && owner[t].level > 0 && 0 <= i < ENTRIES && !tables[t][i].valid
    requires c in owner && owner[c].Other?
    requires tables' == HangTables(tables, t, i, c) && parent' == parent[c := t]
    requires owner' == owner[c := Table(owner[t].root, owner[t].level - 1, owner[t].prefix * 512 + i)]
    ensures ParentsOk(tables', owner', parent')
  {
    forall p | p in tables' && owner'[p].level < 2
      ensures p in parent' && parent'[p] in tables' && |tables'[parent'[p]]| == ENTRIES
      ensures TableAt(owner', parent'[p], owner'[p].root, owner'[p].level + 1, owner'[p].prefix / 512)
      ensures tables'[parent'[p]][owner'[p].prefix % 512].valid && tables'[parent'[p]][owner'[p].prefix % 512].pa == p
    {
      if p != c {
        assert p in tables && parent[p] != c;
      }
    }
  }

  /** A spare page becomes an empty root. */
  lemma NewRoot(tables: Tables, owner: map<int, Owner>, parent: map<int, int>, free: seq<int>, c: int, tables': Tables,
                owner': map<int, Owner>)
    requires Inv(tables, owner, parent, free) && c in owner && owner[c].Other?
    requires tables' == tables[c := Zeroed()] && owner' == owner[c := Table(c, 2, 0)]
    ensures Inv(tables', owner', parent, free) && SameMap(owner, tables, tables')
    ensures forall v :: 0 <= v < MAXVPN ==> Lookup(tables', c, v) == NONE
  {
    forall r, v | IsRoot(owner, r) && 0 <= v < MAXVPN
      ensures Lookup(tables', r, v) == Lookup(tables, r, v)
    {
      WalkMeets(tables, owner, r, v);
      var t1 := T1(tables, r, v);
      assert r != c && T1(tables', r, v) == t1;
      assert t1 != c && T0(tables', r, v) == T0(tables, r, v);
    }
    NewRootTree(tables, owner, parent, c, tables', owner');
    forall p | p in owner' && owner'[p].Leaf?
      ensures IsRoot(owner', owner'[p].root)
    {
      assert IsRoot(owner, owner[p].root);
    }
    forall v | 0 <= v < MAXVPN
      ensures Lookup(tables', c, v) == NONE
    {
      assert T1(tables', c, v) == 0 && T0(tables', c, v) == 0;
    }
  }

  lemma NewRootTree(tables: Tables, owner: map<int, Owner>, parent: map<int, int>, c: int, tables': Tables,
                    owner': map<int, Owner>)
    requires TablesOk(tables, owner) && LinksOk(tables, owner, 0, 0) && ParentsOk(tables, owner, parent) &&
             c in owner && owner[c].Other?
    requires tables' == tables[c := Zeroed()] && owner' == owner[c := Table(c, 2, 0)]
    ensures TablesOk(tables', owner') && LinksOk(tables', owner', 0, 0) && ParentsOk(tables', owner', parent)
  {
    forall p, i | p in tables' && 0 <= i < ENTRIES && owner'[p].level > 0 && tables'[p][i].valid
      ensures !Rwx(tables'[p][i])
      ensures TableAt(owner', tables'[p][i].pa, owner'[p].root, owner'[p].level - 1, owner'[p].prefix * 512 + i)
    {
      assert p != c && TableAt(owner, tables[p][i].pa, owner[p].root, owner[p].level - 1, owner[p].prefix * 512 + i);
    }
    forall p | p in tables' && owner'[p].level < 2
      ensures p in parent && parent[p] in tables' && |tables'[parent[p]]| == ENTRIES
      ensures TableAt(owner', parent[p], owner'[p].root, owner'[p].level + 1, owner'[p].prefix / 512)
      ensures tables'[parent[p]][owner'[p].prefix % 512].valid && tables'[parent[p]][owner'[p].prefix % 512].pa == p
    {
      assert TableAt(owner, parent[p], owner[p].root, owner[p].level + 1, owner[p].prefix / 512) && parent[p] != c;
    }
  }

  // ----- Writing a leaf entry -----

  function PutTables(tables: Tables, t: int, i: int, e: Pte): (r: Tables)
    requires t in tables && 0 <= i < |tables[t]|
  {
    tables[t := tables[t][i := e]]
  }

  /** Writing an entry of a level-0 table changes the map at one page only. */
  lemma PutLookup(tables: Tables, owner: map<int, Owner>, parent: map<int, int>, t: int, vpn: int, e: Pte, r: int,
                  v: int)
    requires TablesOk(tables, owner) && LinksOk(tables, owner, 0, 0) && ParentsOk(tables, owner, parent)
    requires 0 <= vpn < MAXVPN && t in tables && IsRoot(owner, owner[t].root)
    requires TableAt(owner, t, owner[t].root, 0, Prefix(0, vpn)) && IsRoot(owner, r) && 0 <= v < MAXVPN
    ensures Lookup(PutTables(tables, t, Index(0, vpn), e), r, v) ==
            if r == owner[t].root && v == vpn then (if e.valid then e else NONE) else Lookup(tables, r, v)
  {
    WalkMeets(tables, owner, r, v);
    WalkFinds(tables, owner, parent, owner[t].root, vpn, t);
    VpnFrom(v);
    VpnFrom(vpn);
    var tables' := PutTables(tables, t, Index(0, vpn), e);
    assert r != t && T1(tables', r, v) == T1(tables, r, v);
    assert T1(tables, r, v) != t;
    assert T0(tables', r, v) == T0(tables, r, v);
  }

  /** Writing an entry of a level-0 table keeps the tree. */
  lemma PutLinks(tables: Tables, owner: map<int, Owner>, t: int, i: int, e: Pte)
    requires TablesOk(tables, owner) && LinksOk(tables, owner, 0, 0)
    requires t in tables && owner[t].level == 0 && 0 <= i < ENTRIES
    ensures LinksOk(PutTables(tables, t, i, e), owner, 0, 0)
  {
  }

  lemma PutParents(tables: Tables, owner: map<int, Owner>, parent: map<int, int>, t: int, i: int, e: Pte)
    requires TablesOk(tables, owner) && ParentsOk(tables, owner, parent)
    requires t in tables && owner[t].level == 0 && 0 <= i < ENTRIES
    ensures ParentsOk(PutTables(tables, t, i, e), owner, parent)
  {
  }

  lemma PutTree(tables: Tables, owner: map<int, Owner>, parent: map<int, int>, free: seq<int>, t: int, i: int, e: Pte)
    requires TreeOk(tables, owner, parent, free, 0, 0) && t in tables && owner[t].level == 0 && 0 <= i < ENTRIES
    ensures TreeOk(PutTables(tables, t, i, e), owner, parent, free, 0, 0)
  {
    hide LinksOk, ParentsOk;
    assert PutTables(tables, t, i, e).Keys == tables.Keys;
    PutLinks(tables, owner, t, i, e);
    PutParents(tables, owner, parent, t, i, e);
  }

  // ----- What the operations do to the map -----

  /** `root` has the entry `e` for page `vpn`, and everything else is mapped as before. */
  ghost predicate MapsOne(owner: map<int, Owner>, tables: Tables, tables': Tables, root: int, vpn: int, e: Pte) {
    forall r, v :: IsRoot(owner, r) && 0 <= v < MAXVPN ==>
      Lookup(tables', r, v) == if r == root && v == vpn then e else Lookup(tables, r, v)
  }

  /** `root` maps the `n` pages from `vpn` to consecutive physical pages from `pa`, and the rest as before. */
  ghost predicate MapsRange(owner: map<int, Owner>, tables: Tables, tables': Tables, root: int, vpn: int, n: int,
                            pa: int, perm: int) {
    forall r, v :: IsRoot(owner, r) && 0 <= v < MAXVPN ==>
      Lookup(tables', r, v) ==
      if r == root && vpn <= v < vpn + n then Pte(true, perm, pa + (v - vpn) * PGSIZE) else Lookup(tables, r, v)
  }

  /** `root` maps none of the `n` pages from `vpn`, and the rest as before. */
  ghost predicate UnmapsRange(owner: map<int, Owner>, tables: Tables, tables': Tables, root: int, vpn: int, n: int) {
    forall r, v :: IsRoot(owner, r) && 0 <= v < MAXVPN ==>
      Lookup(tables', r, v) == if r == root && vpn <= v < vpn + n then NONE else Lookup(tables, r, v)
  }

  /** The page owned as user page `v` of `root`, for some `v` in the range. */
  predicate OwnedIn(o: Owner, root: int, vpn: int, n: int) {
    o.Leaf? && o.root == root && vpn <= o.vpn < vpn + n
  }

  /** Exactly the pages owned in the range have become free. */
  ghost predicate Freed(owner: map<int, Owner>, owner': map<int, Owner>, root: int, vpn: int, n: int) {
    && owner'.Keys == owner.Keys
    && forall p :: p in owner ==> owner'[p] == if OwnedIn(owner[p], root, vpn, n) then Free else owner[p]
  }

  /** Writing the entry of page `vpn`, in a place where no owned page is mapped, keeps the invariant. */
  lemma Put(tables: Tables, owner: map<int, Owner>, parent: map<int, int>, free: seq<int>, t: int, vpn: int, e: Pte,
            tables': Tables)
    requires Inv(tables, owner, parent, free) && 0 <= vpn < MAXVPN && t in tables && IsRoot(owner, owner[t].root)
    requires TableAt(owner, t, owner[t].root, 0, Prefix(0, vpn)) && tables' == PutTables(tables, t, Index(0, vpn), e)
    requires forall p :: p in owner ==> owner[p] != Leaf(owner[t].root, vpn)
    ensures Inv(tables', owner, parent, free)
    ensures MapsOne(owner, tables, tables', owner[t].root, vpn, if e.valid then e else NONE)
  {
    forall r, v | IsRoot(owner, r) && 0 <= v < MAXVPN
      ensures Lookup(tables', r, v) ==
              if r == owner[t].root && v == vpn then (if e.valid then e else NONE) else Lookup(tables, r, v)
    {
      PutLookup(tables, owner, parent, t, vpn, e, r, v);
    }
    PutTree(tables, owner, parent, free, t, Index(0, vpn), e);
  }

  /** No page is owned at a place that is not mapped. */
  lemma UnmappedUnowned(tables: Tables, owner: map<int, Owner>, root: int, vpn: int)
    requires LeavesOk(tables, owner) && 0 <= vpn < MAXVPN && !Lookup(tables, root, vpn).valid
    ensures forall p :: p in owner ==> owner[p] != Leaf(root, vpn)
  {
  }

  // ----- Pages that are not page tables -----

  /** Changes to the use of pages other than page tables keep the tree. */
  lemma TreeFrame(tables: Tables, owner: map<int, Owner>, parent: map<int, int>, owner': map<int, Owner>)
    requires TablesOk(tables, owner) && LinksOk(tables, owner, 0, 0) && ParentsOk(tables, owner, parent)
    requires owner'.Keys == owner.Keys
    requires forall p :: p in owner && (owner[p].Table? || owner'[p].Table?) ==> owner'[p] == owner[p]
    ensures TablesOk(tables, owner') && LinksOk(tables, owner', 0, 0) && ParentsOk(tables, owner', parent)
  {
    forall p | p in tables
      ensures p in owner' && owner'[p] == owner[p]
    {
    }
    LinksFrame(tables, owner, owner');
    ParentsFrame(tables, owner, parent, owner');
  }

  lemma LinksFrame(tables: Tables, owner: map<int, Owner>, owner': map<int, Owner>)
    requires LinksOk(tables, owner, 0, 0) && owner'.Keys == owner.Keys
    requires forall p :: p in tables ==> p in owner
    requires forall p :: p in owner && (owner[p].Table? || owner'[p].Table?) ==> owner'[p] == owner[p]
    ensures LinksOk(tables, owner', 0, 0)
  {
    forall p, i | p in tables && 0 <= i < ENTRIES && i < |tables[p]| && owner'[p].Table? && owner'[p].level > 0 &&
                  tables[p][i].valid && !(p == 0 && i == 0)
      ensures !Rwx(tables[p][i])
      ensures TableAt(owner', tables[p][i].pa, owner'[p].root, owner'[p].level - 1, owner'[p].prefix * 512 + i)
    {
      assert TableAt(owner, tables[p][i].pa, owner[p].root, owner[p].level - 1, owner[p].prefix * 512 + i);
    }
  }

  lemma ParentsFrame(tables: Tables, owner: map<int, Owner>, parent: map<int, int>, owner': map<int, Owner>)
    requires ParentsOk(tables, owner, parent) && owner'.Keys == owner.Keys
    requires forall p :: p in tables ==> p in owner
    requires forall p :: p in owner && (owner[p].Table? || owner'[p].Table?) ==> owner'[p] == owner[p]
    ensures ParentsOk(tables, owner', parent)
  {
    forall p | p in tables && owner'[p].Table? && owner'[p].level < 2
      ensures p in parent && parent[p] in tables && |tables[parent[p]]| == ENTRIES
      ensures TableAt(owner', parent[p], owner'[p].root, owner'[p].level + 1, owner'[p].prefix / 512)
      ensures tables[parent[p]][owner'[p].prefix % 512].valid && tables[parent[p]][owner'[p].prefix % 512].pa == p
    {
      assert TableAt(owner, parent[p], owner[p].root, owner[p].level + 1, owner[p].prefix / 512);
    }
  }

  /** Changes that make no page user memory keep the leaves. */
  lemma LeavesFrame(tables: Tables, owner: map<int, Owner>, owner': map<int, Owner>)
    requires LeavesOk(tables, owner) && owner'.Keys == owner.Keys
    requires forall p :: p in owner && (owner[p].Table? || owner'[p].Table? || owner'[p].Leaf?) ==>
             owner'[p] == owner[p]
    ensures LeavesOk(tables, owner')
  {
    forall p | p in owner' && owner'[p].Leaf?
      ensures IsRoot(owner', owner'[p].root)
    {
      assert IsRoot(owner, owner[p].root);
    }
  }

  /** A page that is no page table is put to another use, or none. */
  lemma Reuse(tables: Tables, owner: map<int, Owner>, parent: map<int, int>, p: int, o: Owner, owner': map<int, Owner>)
    requires TablesOk(tables, owner) && LinksOk(tables, owner, 0, 0) && ParentsOk(tables, owner, parent) &&
             LeavesOk(tables, owner)
    requires p in owner && !owner[p].Table? && (o.Free? || o.Other?) && owner' == owner[p := o]
    ensures TablesOk(tables, owner') && LinksOk(tables, owner', 0, 0) && ParentsOk(tables, owner', parent) &&
            LeavesOk(tables, owner')
  {
    TreeFrame(tables, owner, parent, owner');
    LeavesFrame(tables, owner, owner');
  }

  /** Only the page mapped there can be owned as user page `vpn` of `root`. */
  lemma LeafGone(tables: Tables, owner: map<int, Owner>, owner': map<int, Owner>, root: int, vpn: int)
    requires LeavesOk(tables, owner) && 0 <= vpn < MAXVPN && owner'.Keys == owner.Keys
    requires forall p :: p in owner && p != Lookup(tables, root, vpn).pa ==> owner'[p] == owner[p]
    requires Lookup(tables, root, vpn).pa in owner' ==> owner'[Lookup(tables, root, vpn).pa] != Leaf(root, vpn)
    ensures forall p :: p in owner' ==> owner'[p] != Leaf(root, vpn)
  {
  }

  ghost predicate SameData(owner: map<int, Owner>, data: map<int, int>, data': map<int, int>) {
    forall p :: p in owner && !owner[p].Free? ==> (p in data <==> p in data') && (p in data ==> data'[p] == data[p])
  }

  /** Page tables may have grown into free pages; nothing else has happened. */
  ghost predicate Extended(owner: map<int, Owner>, tables: Tables, data: map<int, int>,
                           owner': map<int, Owner>, tables': Tables, data': map<int, int>)
  {
    Grown(owner, owner') && SameMap(owner, tables, tables') && SameData(owner, data, data')
  }

  lemma ExtendedTwice(owner: map<int, Owner>, tables: Tables, data: map<int, int>,
                      owner1: map<int, Owner>, tables1: Tables, data1: map<int, int>,
                      owner2: map<int, Owner>, tables2: Tables, data2: map<int, int>)
    requires Extended(owner, tables, data, owner1, tables1, data1) &&
             Extended(owner1, tables1, data1, owner2, tables2, data2)
    ensures Extended(owner, tables, data, owner2, tables2, data2)
  {
    assert forall r :: IsRoot(owner, r) ==> IsRoot(owner1, r);
  }

  lemma HangExtends(owner: map<int, Owner>, tables: Tables, data: map<int, int>, c: int, owner1: map<int, Owner>,
                    place: Owner,
                    owner': map<int, Owner>, tables': Tables, data': map<int, int>)
    requires c in owner && owner[c].Free? && owner1 == owner[c := Other] && owner' == owner1[c := place]
    requires place.Table? && place.level < 2 && SameMap(owner1, tables, tables') && data' == data[c := TAKEN]
    ensures Extended(owner, tables, data, owner', tables', data')
  {
    assert forall r :: IsRoot(owner, r) ==> IsRoot(owner1, r);
  }

  /** Freeing user pages touches no root. */
  lemma RootsKept(owner: map<int, Owner>, owner': map<int, Owner>, root: int, vpn: int, tables: Tables, tables': Tables)
    requires Freed(owner, owner', root, vpn, 1) && UnmapsRange(owner', tables, tables', root, vpn, 1)
    ensures UnmapsRange(owner, tables, tables', root, vpn, 1)
  {
    assert forall r :: IsRoot(owner, r) ==> IsRoot(owner', r);
  }

  /** The first free page is taken. */
  lemma Taken(tables: Tables, owner: map<int, Owner>, parent: map<int, int>, free: seq<int>, p: int,
              owner': map<int, Owner>, free': seq<int>)
    requires Inv(tables, owner, parent, free) && free == [p] + free' && p in owner && owner' == owner[p := Other]
    ensures Inv(tables, owner', parent, free') && owner[p].Free?
  {
    assert free[0] == p && forall i :: 0 <= i < |free'| ==> free[i + 1] == free'[i];
    assert p in free;
    Reuse(tables, owner, parent, p, Other, owner');
  }

  /** A page in use that is no page table is given back. */
  lemma GivenBack(tables: Tables, owner: map<int, Owner>, parent: map<int, int>, free: seq<int>, p: int,
                  owner': map<int, Owner>, free': seq<int>)
    requires Inv(tables, owner, parent, free) && p in owner && (owner[p].Other? || owner[p].Leaf?)
    requires free' == [p] + free && owner' == owner[p := Free]
    ensures Inv(tables, owner', parent, free')
  {
    Reuse(tables, owner, parent, p, Free, owner');
  }

  /** The mapping of a page is removed, after the page, if it was owned there, has been given back. */
  lemma Unmapped(tables: Tables, owner: map<int, Owner>, owner': map<int, Owner>, parent: map<int, int>, free: seq<int>,
                 t: int, root: int, vpn: int, tables': Tables)
    requires LeavesOk(tables, owner) && Inv(tables, owner', parent, free) && 0 <= vpn < MAXVPN
    requires t in tables && IsRoot(owner', root) && TableAt(owner', t, root, 0, Prefix(0, vpn))
    requires var pa := Lookup(tables, root, vpn).pa;
             owner' == (if pa in owner && owner[pa] == Leaf(root, vpn) then owner[pa := Free] else owner)
    requires tables' == PutTables(tables, t, Index(0, vpn), NONE)
    ensures Inv(tables', owner', parent, free)
    ensures UnmapsRange(owner', tables, tables', root, vpn, 1) && Freed(owner, owner', root, vpn, 1)
  {
    LeafGone(tables, owner, owner', root, vpn);
    Put(tables, owner', parent, free, t, vpn, NONE, tables');
  }


  // ----- Ranges -----

  lemma UnmapStep(owner: map<int, Owner>, owner1: map<int, Owner>, owner2: map<int, Owner>,
                  tables: Tables, tables1: Tables, tables2: Tables, root: int, vpn: int, k: int)
    requires UnmapsRange(owner, tables, tables1, root, vpn, k) && Freed(owner, owner1, root, vpn, k) && 0 <= k
    requires UnmapsRange(owner1, tables1, tables2, root, vpn + k, 1) && Freed(owner1, owner2, root, vpn + k, 1)
    ensures UnmapsRange(owner, tables, tables2, root, vpn, k + 1) && Freed(owner, owner2, root, vpn, k + 1)
  {
    assert forall r :: IsRoot(owner, r) ==> IsRoot(owner1, r);
  }

  /** User page `v` of `root` has been given the fresh page `mem` with permissions `perm` and contents `content`; page
      tables may have grown; nothing else has happened. */
  ghost predicate Added(owner: map<int, Owner>, tables: Tables, data: map<int, int>,
                        owner': map<int, Owner>, tables': Tables, data': map<int, int>,
                        root: int, v: int, perm: int, content: int, mem: int)
  {
    && owner'.Keys == owner.Keys && mem in owner && owner[mem].Free? && owner'[mem] == Leaf(root, v)
    && (forall p :: p in owner && p != mem ==>
          owner'[p] == owner[p] || (owner[p].Free? && owner'[p].Table? && owner'[p].level < 2))
    && MapsOne(owner, tables, tables', root, v, Pte(true, perm, mem))
    && SameData(owner, data, data') && mem in data' && data'[mem] == content
  }

  /** A mapped page becomes owned. */
  lemma Claim(tables: Tables, owner: map<int, Owner>, parent: map<int, int>, free: seq<int>, root: int, v: int,
              mem: int,
              owner': map<int, Owner>)
    requires Inv(tables, owner, parent, free) && mem in owner && owner[mem].Other? && IsRoot(owner, root) &&
             0 <= v < MAXVPN
    requires Lookup(tables, root, v).valid && Lookup(tables, root, v).pa == mem && owner' == owner[mem := Leaf(root, v)]
    ensures Inv(tables, owner', parent, free)
  {
    TreeFrame(tables, owner, parent, owner');
    forall p | p in owner' && owner'[p].Leaf?
      ensures IsRoot(owner', owner'[p].root)
    {
      assert p != mem ==> IsRoot(owner, owner[p].root);
    }
  }

  lemma AddedBy(owner: map<int, Owner>, tables: Tables, data: map<int, int>, mem: int, content: int,
                owner1: map<int, Owner>, data1: map<int, int>, owner2: map<int, Owner>, data2: map<int, int>,
                owner3: map<int, Owner>, tables': Tables, root: int, v: int, perm: int)
    requires mem in owner && owner[mem].Free? && owner1 == owner[mem := Other]
    requires SameData(owner, data, data1) && mem in data1 && data1[mem] == content
    requires Grown(owner1, owner2) && MapsOne(owner1, tables, tables', root, v, Pte(true, perm, mem)) &&
             SameData(owner1, data1, data2)
    requires owner3 == owner2[mem := Leaf(root, v)]
    ensures Added(owner, tables, data, owner3, tables', data2, root, v, perm, content, mem)
  {
    assert forall r :: IsRoot(owner, r) ==> IsRoot(owner1, r);
  }

  lemma NotAddedBy(owner: map<int, Owner>, tables: Tables, data: map<int, int>, mem: int,
                   owner1: map<int, Owner>, data1: map<int, int>, owner2: map<int, Owner>, data2: map<int, int>,
                   owner3: map<int, Owner>, tables': Tables, data3: map<int, int>)
    requires mem in owner && owner[mem].Free? && owner1 == owner[mem := Other] && SameData(owner, data, data1)
    requires Grown(owner1, owner2) && SameMap(owner1, tables, tables') && SameData(owner1, data1, data2)
    requires owner3 == owner2[mem := Free] && data3 == data2[mem := FREED]
    ensures Extended(owner, tables, data, owner3, tables', data3)
  {
    assert forall r :: IsRoot(owner, r) ==> IsRoot(owner1, r);
  }

  /** What a user page is to receive. */
  datatype Want = Want(perm: int, content: int)

  /** Since the first state, the user pages of `root` in [lo, hi) that `wants` names have been given fresh owned pages
      with the wanted permissions and contents. Everything else is as it was, except that page tables may have grown. */
  ghost predicate AddedRange(owner: map<int, Owner>, tables: Tables, data: map<int, int>,
                             owner': map<int, Owner>, tables': Tables, data': map<int, int>,
                             root: int, lo: int, hi: int, wants: map<int, Want>)
  {
    && owner'.Keys == owner.Keys
    && (forall p :: p in owner ==>
          || owner'[p] == owner[p]
          || (owner[p].Free? && ((owner'[p].Table? && owner'[p].level < 2) || OwnedIn(owner'[p], root, lo, hi - lo))))
    && (forall r, v :: IsRoot(owner, r) && 0 <= v < MAXVPN && !(r == root && lo <= v < hi && v in wants) ==>
          Lookup(tables', r, v) == Lookup(tables, r, v))
    && (forall v :: 0 <= v < MAXVPN && lo <= v < hi && v in wants ==> Has(owner', tables', data', root, v, wants[v]))
    && SameData(owner, data, data')
  }

  /** The same for every one of the first `n` pages. */
  function All(n: nat, perm: int, content: int): (wants: map<int, Want>)
    ensures forall v :: v in wants <==> 0 <= v < n
    ensures forall v :: v in wants ==> wants[v] == Want(perm, content)
  {
    if n == 0 then map[] else All(n - 1, perm, content)[n - 1 := Want(perm, content)]
  }

  /** PGROUNDUP, as a page number. */
  function PageUp(sz: int): (v: int)
    ensures (v - 1) * PGSIZE < sz <= v * PGSIZE
  {
    (sz + PGSIZE - 1) / PGSIZE
  }

  /** User page `v` of `root` has an owned page as wanted. */
  ghost predicate Has(owner: map<int, Owner>, tables: Tables, data: map<int, int>, root: int, v: int, w: Want)
    requires 0 <= v < MAXVPN
  {
    var e := Lookup(tables, root, v);
    && e.valid && e.perm == w.perm && e.pa in owner && owner[e.pa] == Leaf(root, v)
    && e.pa in data && data[e.pa] == w.content
  }

  lemma AddedRangeStarts(owner: map<int, Owner>, tables: Tables, data: map<int, int>, root: int, lo: int, hi: int,
                         wants: map<int, Want>)
    requires hi <= lo
    ensures AddedRange(owner, tables, data, owner, tables, data, root, lo, hi, wants)
  {
  }

  /** One more wanted page. */
  lemma AddedRangeStep(owner: map<int, Owner>, tables: Tables, data: map<int, int>,
                       owner1: map<int, Owner>, tables1: Tables, data1: map<int, int>,
                       owner2: map<int, Owner>, tables2: Tables, data2: map<int, int>,
                       root: int, lo: int, v: int, wants: map<int, Want>, mem: int)
    requires AddedRange(owner, tables, data, owner1, tables1, data1, root, lo, v, wants) && lo <= v &&
             IsRoot(owner, root)
    requires v in wants && Added(owner1, tables1, data1, owner2, tables2, data2, root, v, wants[v].perm,
                                 wants[v].content, mem)
    ensures AddedRange(owner, tables, data, owner2, tables2, data2, root, lo, v + 1, wants)
  {
    assert forall r :: IsRoot(owner, r) ==> IsRoot(owner1, r);
    forall u | 0 <= u < MAXVPN && lo <= u < v + 1 && u in wants
      ensures Has(owner2, tables2, data2, root, u, wants[u])
    {
      if u < v {
        assert Has(owner1, tables1, data1, root, u, wants[u]);
      }
    }
  }

  /** A page that is not wanted is skipped. */
  lemma AddedRangeSkip(owner: map<int, Owner>, tables: Tables, data: map<int, int>,
                       owner1: map<int, Owner>, tables1: Tables, data1: map<int, int>,
                       root: int, lo: int, v: int, wants: map<int, Want>)
    requires AddedRange(owner, tables, data, owner1, tables1, data1, root, lo, v, wants) && lo <= v && v !in wants
    ensures AddedRange(owner, tables, data, owner1, tables1, data1, root, lo, v + 1, wants)
  {
  }

  /** Page tables growing on top. */
  lemma AddedRangeExtended(owner: map<int, Owner>, tables: Tables, data: map<int, int>,
                           owner1: map<int, Owner>, tables1: Tables, data1: map<int, int>,
                           owner2: map<int, Owner>, tables2: Tables, data2: map<int, int>,
                           root: int, lo: int, v: int, wants: map<int, Want>)
    requires AddedRange(owner, tables, data, owner1, tables1, data1, root, lo, v, wants) && lo <= v &&
             IsRoot(owner, root)
    requires Extended(owner1, tables1, data1, owner2, tables2, data2)
    ensures AddedRange(owner, tables, data, owner2, tables2, data2, root, lo, v, wants)
  {
    assert forall r :: IsRoot(owner, r) ==> IsRoot(owner1, r);
    forall u | 0 <= u < MAXVPN && lo <= u < v && u in wants
      ensures Has(owner2, tables2, data2, root, u, wants[u])
    {
      assert Has(owner1, tables1, data1, root, u, wants[u]);
    }
  }

  /** Unmapping and freeing what has been added restores the map and gives every added page back. */
  lemma AddedRangeUndone(owner: map<int, Owner>, tables: Tables, data: map<int, int>,
                         owner1: map<int, Owner>, tables1: Tables, data1: map<int, int>,
                         owner2: map<int, Owner>, tables2: Tables, data2: map<int, int>,
                         root: int, lo: int, v: int, wants: map<int, Want>)
    requires AddedRange(owner, tables, data, owner1, tables1, data1, root, lo, v, wants) && lo <= v
    requires forall u :: 0 <= u < MAXVPN && lo <= u < v ==> Lookup(tables, root, u) == NONE
    requires forall p :: p in owner ==> !OwnedIn(owner[p], root, lo, v - lo)
    requires UnmapsRange(owner1, tables1, tables2, root, lo, v - lo) && Freed(owner1, owner2, root, lo, v - lo)
    requires SameData(owner2, data1, data2)
    ensures Extended(owner, tables, data, owner2, tables2, data2)
  {
    assert forall r :: IsRoot(owner, r) ==> IsRoot(owner1, r);
  }

  // ----- Tearing a tree down -----

  /** The number of the table above, at level `to`, of the table numbered `prefix` at level `from`. */
  function Up(prefix: int, from: int, to: int): (q: int) {
    if from >= to then prefix else if from + 1 == to then prefix / 512 else prefix / 512 / 512
  }

  /** The table at a place of the tree of `root`, or one below it. */
  predicate Under(o: Owner, root: int, level: int, prefix: int) {
    o.Table? && o.root == root && o.level <= level && Up(o.prefix, o.level, level) == prefix
  }

  /** The tables strictly below a place, through its first `k` entries. */
  predicate Below(o: Owner, root: int, level: int, prefix: int, k: int) {
    && o.Table? && o.root == root && o.level < level
    && prefix * 512 <= Up(o.prefix, o.level, level - 1) < prefix * 512 + k
  }

  /** No level-0 table of `root` has a valid entry. */
  ghost predicate NoLeaves(tables: Tables, owner: map<int, Owner>, root: int) {
    forall p, i | p in tables && p in owner && owner[p].Table? && owner[p].root == root && owner[p].level == 0 &&
                  0 <= i < |tables[p]| :: !tables[p][i].valid
  }

  /** A place in a tree is held by one page only. */
  lemma {:induction false} OnePerPlace(tables: Tables, owner: map<int, Owner>, parent: map<int, int>, p: int, q: int)
    requires TablesOk(tables, owner) && ParentsOk(tables, owner, parent)
    requires p in tables && q in tables && owner[p] == owner[q]
    ensures p == q
    decreases 2 - owner[p].level
  {
    if owner[p].level < 2 {
      OnePerPlace(tables, owner, parent, parent[p], parent[q]);
    }
  }

  /** A table that does not hang on entry `i` of `t` is not below that entry. */
  lemma NoneUnder(tables: Tables, owner: map<int, Owner>, parent: map<int, int>, t: int, i: int, p: int)
    requires TablesOk(tables, owner) && ParentsOk(tables, owner, parent)
    requires t in tables && owner[t].level > 0 && 0 <= i < ENTRIES && !tables[t][i].valid && p in tables
    ensures !Under(owner[p], owner[t].root, owner[t].level - 1, owner[t].prefix * 512 + i)
  {
    if Under(owner[p], owner[t].root, owner[t].level - 1, owner[t].prefix * 512 + i) {
      var q := parent[p];
      if owner[p].level == owner[t].level - 1 {
        OnePerPlace(tables, owner, parent, q, t);
      }
    }
  }

  /** The tables below the first `k` entries of `t` have been freed and those entries cleared; the rest is as before. */
  ghost predicate Pruned(tables: Tables, owner: map<int, Owner>, tables': Tables, owner': map<int, Owner>,
                         root: int, level: int, prefix: int, t: int, k: int)
  {
    && owner'.Keys == owner.Keys
    && (forall p :: p in owner ==> owner'[p] == if Below(owner[p], root, level, prefix, k) then Free else owner[p])
    && (forall p :: p in tables && p in owner && p != t && !Below(owner[p], root, level, prefix, k) ==>
          p in tables' && tables'[p] == tables[p])
    && t in tables && t in tables' && |tables[t]| == |tables'[t]| == ENTRIES
    && (forall i :: 0 <= i < k && i < ENTRIES ==> !tables'[t][i].valid)
    && (forall i :: k <= i < ENTRIES && 0 <= i ==> tables'[t][i] == tables[t][i])
  }

  /** The table at a place and all those below it have been freed; the rest is as before. */
  ghost predicate Dropped(tables: Tables, owner: map<int, Owner>, tables': Tables, owner': map<int, Owner>,
                          root: int, level: int, prefix: int)
  {
    && owner'.Keys == owner.Keys
    && (forall p :: p in owner ==> owner'[p] == if Under(owner[p], root, level, prefix) then Free else owner[p])
    && (forall p :: p in tables && p in owner && !Under(owner[p], root, level, prefix) ==>
        p in tables' && tables'[p] == tables[p])
  }

  /** Entry `i` leads nowhere: nothing is below it. */
  lemma PrunedSkip(tables: Tables, owner: map<int, Owner>, tables1: Tables, owner1: map<int, Owner>,
                   parent: map<int, int>,
                   root: int, level: int, prefix: int, t: int, i: int)
    requires Pruned(tables, owner, tables1, owner1, root, level, prefix, t, i) && 0 <= i < ENTRIES
    requires TablesOk(tables, owner) && ParentsOk(tables, owner, parent) && TableAt(owner, t, root, level, prefix)
    requires !tables[t][i].valid
    ensures Pruned(tables, owner, tables1, owner1, root, level, prefix, t, i + 1)
  {
    forall p | p in owner && Below(owner[p], root, level, prefix, i + 1)
      ensures Below(owner[p], root, level, prefix, i)
    {
      NoneUnder(tables, owner, parent, t, i, p);
    }
  }

  /** The tables below entry `i` have been freed, and the entry has been cleared. */
  lemma PrunedStep(tables: Tables, owner: map<int, Owner>, tables1: Tables, owner1: map<int, Owner>,
                   tables2: Tables, owner2: map<int, Owner>, tables3: Tables,
                   root: int, level: int, prefix: int, t: int, i: int)
    requires Pruned(tables, owner, tables1, owner1, root, level, prefix, t, i) && 0 <= i < ENTRIES
    requires TableAt(owner, t, root, level, prefix) && level > 0
    requires Dropped(tables1, owner1, tables2, owner2, root, level - 1, prefix * 512 + i)
    requires t in tables2 && tables2[t] == tables1[t] && tables3 == PutTables(tables2, t, i, NONE)
    ensures Pruned(tables, owner, tables3, owner2, root, level, prefix, t, i + 1)
  {
    forall p | p in owner
      ensures Below(owner[p], root, level, prefix, i + 1) <==>
              Below(owner[p], root, level, prefix, i) || Under(owner[p], root, level - 1, prefix * 512 + i)
    {
    }
  }

  /** Clearing the entry at the hole, when nothing is below it, mends the tree. */
  lemma HoleClosed(tables: Tables, owner: map<int, Owner>, parent: map<int, int>, free: seq<int>, t: int, i: int,
                   root: int, level: int, prefix: int, tables': Tables)
    requires TreeOk(tables, owner, parent, free, t, i) && NoLeaves(tables, owner, root)
    requires TableAt(owner, t, root, level + 1, prefix / 512) && 0 <= level && i == prefix % 512
    requires forall p :: p in owner ==> !Under(owner[p], root, level, prefix)
    requires tables' == PutTables(tables, t, i, NONE)
    ensures TreeOk(tables', owner, parent, free, 0, 0) && NoLeaves(tables', owner, root)
  {
    forall p | p in tables && owner[p].level < 2
      ensures parent[p] in tables'
      ensures tables'[parent[p]][owner[p].prefix % 512] == tables[parent[p]][owner[p].prefix % 512]
    {
      assert !Under(owner[p], root, level, prefix);
    }
    ParentsPut(tables, owner, parent, t, i, tables');
    LinksPut(tables, owner, t, i, tables');
  }

  lemma ParentsPut(tables: Tables, owner: map<int, Owner>, parent: map<int, int>, t: int, i: int, tables': Tables)
    requires TablesOk(tables, owner) && ParentsOk(tables, owner, parent) && t in tables && 0 <= i < ENTRIES
    requires tables' == PutTables(tables, t, i, NONE)
    requires forall p :: p in tables && owner[p].level < 2 ==>
               tables'[parent[p]][owner[p].prefix % 512] == tables[parent[p]][owner[p].prefix % 512]
    ensures ParentsOk(tables', owner, parent)
  {
  }

  lemma LinksPut(tables: Tables, owner: map<int, Owner>, t: int, i: int, tables': Tables)
    requires TablesOk(tables, owner) && LinksOk(tables, owner, t, i) && t in tables && 0 <= i < ENTRIES
    requires tables' == PutTables(tables, t, i, NONE)
    ensures LinksOk(tables', owner, 0, 0)
  {
    assert forall p, j :: p in tables && 0 <= j < ENTRIES && !(p == t && j == i) ==> tables'[p][j] == tables[p][j];
  }

  /** A table without valid entries can be freed; what pointed to it is now a hole. */
  lemma TableFreed(tables: Tables, owner: map<int, Owner>, parent: map<int, int>, free: seq<int>, t: int, hq: int,
                   tables': Tables, owner': map<int, Owner>, free': seq<int>)
    requires TreeOk(tables, owner, parent, free, 0, 0) && t in tables
    requires forall i :: 0 <= i < ENTRIES ==> !tables[t][i].valid
    requires owner[t].level < 2 ==> hq == parent[t]
    requires tables' == tables - {t} && owner' == owner[t := Free] && FreeOk(free', owner')
    ensures TreeOk(tables', owner', parent, free', hq, owner[t].prefix % 512)
  {
    FreedLinks(tables, owner, parent, t, hq, tables', owner');
    hide LinksOk;
  }

  lemma FreedLinks(tables: Tables, owner: map<int, Owner>, parent: map<int, int>, t: int, hq: int,
                   tables': Tables, owner': map<int, Owner>)
    requires TablesOk(tables, owner) && LinksOk(tables, owner, 0, 0) && ParentsOk(tables, owner, parent) && t in tables
    requires owner[t].level < 2 ==> hq == parent[t]
    requires tables' == tables - {t} && owner' == owner[t := Free]
    ensures LinksOk(tables', owner', hq, owner[t].prefix % 512)
  {
    forall p, i | p in tables' && 0 <= i < ENTRIES && owner'[p].level > 0 && tables'[p][i].valid &&
                  !(p == hq && i == owner[t].prefix % 512)
      ensures !Rwx(tables'[p][i])
      ensures TableAt(owner', tables'[p][i].pa, owner'[p].root, owner'[p].level - 1, owner'[p].prefix * 512 + i)
    {
      assert TableAt(owner, tables[p][i].pa, owner[p].root, owner[p].level - 1, owner[p].prefix * 512 + i);
      if tables[p][i].pa == t {
        assert owner[hq] == owner[p];
        OnePerPlace(tables, owner, parent, p, hq);
      }
    }
  }

  /** The table whose entry leads to `t`, or 0 for a root. */
  function Above(parent: map<int, int>, level: int, t: int): (q: int) {
    if level < 2 && t in parent then parent[t] else 0
  }

  /** Some pages have become free. */
  ghost predicate OnlyFreed(owner: map<int, Owner>, owner': map<int, Owner>) {
    owner'.Keys == owner.Keys && forall p :: p in owner ==> owner'[p] == owner[p] || owner'[p].Free?
  }

  lemma SameDataTwice(owner1: map<int, Owner>, owner2: map<int, Owner>, data: map<int, int>, data1: map<int, int>,
                      data2: map<int, int>)
    requires SameData(owner1, data, data1) && SameData(owner2, data1, data2) && OnlyFreed(owner1, owner2)
    ensures SameData(owner2, data, data2)
  {
  }

  /** After the table below entry `i` of `t` has been freed, the hole is at that entry and `t` is as it was. */
  lemma ChildFreed(tables: Tables, owner: map<int, Owner>, tables': Tables, owner': map<int, Owner>,
                   parent: map<int, int>,
                   free': seq<int>, t: int, i: int, child: int, root: int, level: int, prefix: int)
    requires TablesOk(tables, owner) && ParentsOk(tables, owner, parent) && 0 <= i < ENTRIES
    requires TableAt(owner, child, root, level, prefix) && level < 2 && i == prefix % 512
    requires TableAt(owner, t, root, level + 1, prefix / 512)
    requires Dropped(tables, owner, tables', owner', root, level, prefix)
    requires TreeOk(tables', owner', parent, free', Above(parent, level, child), i)
    ensures TreeOk(tables', owner', parent, free', t, i)
    ensures TableAt(owner', t, root, level + 1, prefix / 512) && t in tables' && tables'[t] == tables[t]
    ensures forall p :: p in owner' ==> !Under(owner'[p], root, level, prefix)
    ensures OnlyFreed(owner, owner')
  {
    assert child in tables;
    OnePerPlace(tables, owner, parent, parent[child], t);
  }

  /** A table that has been pruned to its end has no valid entry, and its parent is the table above it. */
  lemma PrunedEmpty(tables: Tables, owner: map<int, Owner>, tables1: Tables, owner1: map<int, Owner>,
                    parent: map<int, int>, root: int, level: int, prefix: int, t: int)
    requires TablesOk(tables1, owner1) && ParentsOk(tables1, owner1, parent) && TableAt(owner1, t, root, level, prefix)
    requires Pruned(tables, owner, tables1, owner1, root, level, prefix, t, ENTRIES)
    ensures t in tables1 && |tables1[t]| == ENTRIES && forall i :: 0 <= i < ENTRIES ==> !tables1[t][i].valid
    ensures t in owner1 && owner1[t] == Table(root, level, prefix) && level <= 2
    ensures level < 2 ==> t in parent && Above(parent, level, t) == parent[t]
  {
  }

  /** When all below `t` is gone and `t` has been freed as well, all under its place has been freed. */
  lemma PrunedDropped(tables: Tables, owner: map<int, Owner>, tables1: Tables, owner1: map<int, Owner>,
                      parent: map<int, int>,
                      root: int, level: int, prefix: int, t: int, tables2: Tables, owner2: map<int, Owner>)
    requires TablesOk(tables, owner) && ParentsOk(tables, owner, parent) && TableAt(owner, t, root, level, prefix)
    requires Pruned(tables, owner, tables1, owner1, root, level, prefix, t, ENTRIES)
    requires tables2 == tables1 - {t} && owner2 == owner1[t := Free]
    ensures Dropped(tables, owner, tables2, owner2, root, level, prefix)
  {
    forall p | p in owner
      ensures Under(owner[p], root, level, prefix) <==> p == t || Below(owner[p], root, level, prefix, ENTRIES)
    {
      if p in tables && owner[p] == owner[t] {
        OnePerPlace(tables, owner, parent, p, t);
      }
    }
  }

  lemma NoLeavesKept(tables: Tables, owner: map<int, Owner>, tables': Tables, owner': map<int, Owner>,
                     root: int, level: int, prefix: int)
    requires NoLeaves(tables, owner, root) && Dropped(tables, owner, tables', owner', root, level, prefix)
    requires TablesOk(tables, owner) && TablesOk(tables', owner')
    ensures NoLeaves(tables', owner', root)
  {
    assert forall p :: p in tables' ==> p in tables && tables'[p] == tables[p];
  }

  /** A root that maps nothing has no valid leaf entry. */
  lemma NothingMapped(tables: Tables, owner: map<int, Owner>, parent: map<int, int>, root: int)
    requires TablesOk(tables, owner) && ParentsOk(tables, owner, parent) && IsRoot(owner, root)
    requires forall v :: 0 <= v < MAXVPN ==> Lookup(tables, root, v) == NONE
    ensures NoLeaves(tables, owner, root)
  {
    forall p, i | p in tables && owner[p].root == root && owner[p].level == 0 && 0 <= i < |tables[p]|
      ensures !tables[p][i].valid
    {
      var v := owner[p].prefix * 512 + i;
      assert 0 <= v < MAXVPN && Prefix(0, v) == owner[p].prefix && Index(0, v) == i;
      WalkFinds(tables, owner, parent, root, v, p);
      assert Lookup(tables, root, v) == NONE;
    }
  }

  /** All pages of the process behind `root`, page tables and user memory, and no others, have become free. */
  ghost predicate AllFreed(owner: map<int, Owner>, owner': map<int, Owner>, root: int) {
    && owner'.Keys == owner.Keys
    && forall p :: p in owner ==>
         owner'[p] == if (owner[p].Table? || owner[p].Leaf?) && owner[p].root == root then Free else owner[p]
  }

  /** The maps of all roots but `root` are as before. */
  ghost predicate OtherRootsSame(owner: map<int, Owner>, tables: Tables, tables': Tables, root: int) {
    forall r, v :: IsRoot(owner, r) && r != root && 0 <= v < MAXVPN ==> Lookup(tables', r, v) == Lookup(tables, r, v)
  }

  /** Every table is under the root of its tree. */
  lemma UnderRoot(tables: Tables, owner: map<int, Owner>, p: int)
    requires TablesOk(tables, owner) && p in tables
    ensures Under(owner[p], owner[p].root, 2, 0)
  {
  }

  /** Dropping a tree leaves the walks in other trees alone. */
  lemma DroppedOthers(tables: Tables, owner: map<int, Owner>, tables': Tables, owner': map<int, Owner>, root: int)
    requires TablesOk(tables, owner) && LinksOk(tables, owner, 0, 0) && TablesOk(tables', owner')
    requires Dropped(tables, owner, tables', owner', root, 2, 0)
    ensures OtherRootsSame(owner, tables, tables', root)
  {
    forall r, v | IsRoot(owner, r) && r != root && 0 <= v < MAXVPN
      ensures Lookup(tables', r, v) == Lookup(tables, r, v)
    {
      WalkMeets(tables, owner, r, v);
      var t1, t0 := T1(tables, r, v), T0(tables, r, v);
      assert !Under(owner[r], root, 2, 0) && tables'[r] == tables[r];
      assert T1(tables', r, v) == t1;
      if t1 != 0 {
        assert !Under(owner[t1], root, 2, 0) && tables'[t1] == tables[t1];
        assert T0(tables', r, v) == t0;
        assert t0 != 0 ==> !Under(owner[t0], root, 2, 0) && tables'[t0] == tables[t0];
      }
    }
  }

  /** With the user memory of `root` freed already, dropping its tree frees all of it and keeps the invariant. */
  lemma TornDown(tables: Tables, owner: map<int, Owner>, parent: map<int, int>, free: seq<int>, tables': Tables,
                 owner': map<int, Owner>, free': seq<int>, root: int)
    requires Inv(tables, owner, parent, free) && NoLeaves(tables, owner, root) && IsRoot(owner, root)
    requires forall v :: 0 <= v < MAXVPN ==> Lookup(tables, root, v) == NONE
    requires Dropped(tables, owner, tables', owner', root, 2, 0) && TreeOk(tables', owner', parent, free', 0, 0)
    ensures Inv(tables', owner', parent, free') && AllFreed(owner, owner', root) &&
            OtherRootsSame(owner, tables, tables', root)
  {
    DroppedOthers(tables, owner, tables', owner', root);
    forall p | p in owner' && owner'[p].Leaf?
      ensures 0 <= owner'[p].vpn < MAXVPN && IsRoot(owner', owner'[p].root)
      ensures Lookup(tables', owner'[p].root, owner'[p].vpn).valid &&
              Lookup(tables', owner'[p].root, owner'[p].vpn).pa == p
    {
      assert owner[p] == owner'[p] && IsRoot(owner, owner[p].root) && owner[p].root != root;
      assert !Under(owner[owner[p].root], root, 2, 0);
    }
    forall p | p in owner
      ensures owner'[p] == if (owner[p].Table? || owner[p].Leaf?) && owner[p].root == root then Free else owner[p]
    {
      if p in tables {
        UnderRoot(tables, owner, p);
      }
    }
  }

  /** What the first `n` user pages of `root` hold. */
  ghost function Held(tables: Tables, data: map<int, int>, root: int, n: int): (wants: map<int, Want>)
    requires n <= MAXVPN
    ensures forall v :: v in wants <==>
              0 <= v < n && Lookup(tables, root, v).valid && Lookup(tables, root, v).pa in data
    ensures forall v :: v in wants ==> wants[v] == Want(Lookup(tables, root, v).perm, data[Lookup(tables, root, v).pa])
    decreases if n < 0 then 0 else n
  {
    if n <= 0 then map[]
    else
      var e, m := Lookup(tables, root, n - 1), Held(tables, data, root, n - 1);
      if e.valid && e.pa in data then m[n - 1 := Want(e.perm, data[e.pa])] else m
  }

  class Vm {
    var tables: Tables
    var free: seq<int>
    var data: map<int, int>
    ghost var owner: map<int, Owner>
    ghost var parent: map<int, int>

    ghost predicate Valid()
      reads this
    {
      Inv(tables, owner, parent, free)
    }

    /** At first every whole page between `start` and `end` is free, and there is no page table. */
    constructor (start: int, end: int)
      requires 0 < start
      ensures Valid() && tables == map[] && forall p :: p in owner ==> owner[p] == Free
      ensures forall p :: p in owner <==> p % PGSIZE == 0 && start <= p && p + PGSIZE <= end
    {
      var p := PageUp(start) * PGSIZE;
      var list: seq<int> := [];
      var contents: map<int, int> := map[];
      FreeNone();
      hide FreeOk;
      ghost var pages: map<int, Owner> := map[];
      while p + PGSIZE <= end
        invariant p % PGSIZE == 0 && start <= p && (p <= end || p < start + PGSIZE)
        invariant forall q :: q in pages <==> q % PGSIZE == 0 && start <= q < p
        invariant forall q :: q in pages ==> pages[q] == Free
        invariant FreeOk(list, pages)
        decreases end - p
      {
        FreeMore(list, pages, p);
        list := [p] + list;
        contents := contents[p := FREED];
        pages := pages[p := Free];
        p := p + PGSIZE;
      }
      NoTables(pages, list);
      hide Inv;
      tables, free, data, owner, parent := map[], list, contents, pages, map[];
    }

    /** Take the first page of the free list, or 0. */
    method Kalloc() returns (p: int)
      requires Valid()
      modifies this`free, this`owner, this`data
      ensures Valid()
      ensures p == 0 <==> old(free) == []
      ensures p == 0 ==> unchanged(this)
      ensures p != 0 ==> p in old(owner) && old(owner)[p].Free? && owner == old(owner)[p := Other]
      ensures p != 0 ==> data == old(data)[p := TAKEN] && free == old(free)[1..]
    {
      if free == [] {
        return 0;
      }
      p := free[0];
      assert p in free;
      free := free[1..];
      data := data[p := TAKEN];
      owner := owner[p := Other];
      Taken(tables, old(owner), parent, old(free), p, owner, free);
    }

    /** Put a page in use at the front of the free list. */
    method Kfree(p: int)
      requires FreeOk(free, owner) && p in owner && !owner[p].Free?
      modifies this`free, this`owner, this`data
      ensures FreeOk(free, owner) && (old(Valid()) && !old(owner)[p].Table? ==> Valid())
      ensures owner == old(owner)[p := Free] && data == old(data)[p := FREED] && free == [p] + old(free)
    {
      hide TablesOk, LinksOk, ParentsOk, LeavesOk;
      free := [p] + free;
      data := data[p := FREED];
      owner := owner[p := Free];
      if old(Valid()) && !old(owner)[p].Table? {
        GivenBack(tables, old(owner), parent, old(free), p, owner, free);
      }
    }

    /** Follow, or with `alloc` create, the table below entry `i` of table `t`. */
    method Descend(t: int, i: int, alloc: bool, ghost root: int, ghost level: int, ghost prefix: int, ghost place: int)
      returns (c: int)
      requires Valid() && TableAt(owner, t, root, level, prefix) && level > 0 && 0 <= i < ENTRIES
      requires 0 <= place == prefix * 512 + i < Span(level - 1)
      modifies this
      ensures Valid() && Extended(old(owner), old(tables), old(data), owner, tables, data)
      ensures !alloc ==> unchanged(this) && c == Child(tables, t, i)
      ensures c != 0 ==> TableAt(owner, c, root, level - 1, place)
      ensures |free| >= |old(free)| - 1 && (alloc && c == 0 ==> free == [] == old(free))
    {
      hide TablesOk, LinksOk, ParentsOk, LeavesOk, FreeOk;
      ChildAt(tables, owner, parent, free, t, i, root, level, prefix);
      if tables[t][i].valid {
        c := tables[t][i].pa;
        return;
      }
      if !alloc {
        return 0;
      }
      c := Kalloc();
      if c == 0 {
        return;
      }
      ghost var owner1, there := owner, Table(root, level - 1, place);
      owner := owner[c := there];
      tables := HangTables(tables, t, i, c);
      parent := parent[c := t];
      Hang(old(tables), owner1, old(parent), free, t, i, c, tables, owner, parent);
      HangExtends(old(owner), old(tables), old(data), c, owner1, there, owner, tables, data);
    }

    /** The level-0 table that holds the entry for a page, or 0. With `alloc`, missing tables are created, and 0
        means that memory ran out; no mapping changes. Without it nothing changes. */
    method Walk(root: int, vpn: int, alloc: bool) returns (t: int)
      requires Valid() && IsRoot(owner, root) && 0 <= vpn < MAXVPN
      modifies this
      ensures Valid() && Extended(old(owner), old(tables), old(data), owner, tables, data)
      ensures !alloc ==> unchanged(this) && t == T0(tables, root, vpn)
      ensures t != 0 ==> TableAt(owner, t, root, 0, Prefix(0, vpn))
      ensures |free| >= |old(free)| - 2 && (alloc && t == 0 ==> |old(free)| < 2)
    {
      hide LinksOk, ParentsOk, LeavesOk, FreeOk;
      t := root;
      var level := 2;
      ghost var prefix := 0;
      while level > 0
        invariant 0 <= level <= 2 && prefix == Prefix(level, vpn) && TableAt(owner, t, root, level, prefix)
        invariant Valid() && Extended(old(owner), old(tables), old(data), owner, tables, data)
        invariant (!alloc ==> unchanged(this)) && |free| >= |old(free)| - (2 - level)
        invariant !alloc ==> t == if level == 2 then root else if level == 1 then T1(tables, root, vpn) else T0(tables,
                  root, vpn)
      {
        PrefixBelow(level, vpn);
        ghost var owner1, tables1, data1 := owner, tables, data;
        var i := Index(level, vpn);
        ghost var place := Prefix(level - 1, vpn);
        t := Descend(t, i, alloc, root, level, prefix, place);
        prefix := place;
        ExtendedTwice(old(owner), old(tables), old(data), owner1, tables1, data1, owner, tables, data);
        if t == 0 {
          return;
        }
        level := level - 1;
      }
    }

    /** A new page table that maps nothing, or 0 when there is no page for it. */
    method Uvmcreate() returns (root: int)
      requires Valid()
      modifies this
      ensures Valid() && (root == 0 <==> old(free) == []) && (root == 0 ==> unchanged(this))
      ensures root != 0 ==> root in old(owner) && old(owner)[root].Free?
      ensures root != 0 ==> owner == old(owner)[root := Table(root, 2, 0)]
      ensures root != 0 ==> IsRoot(owner, root) && forall v :: 0 <= v < MAXVPN ==> Lookup(tables, root, v) == NONE
      ensures SameMap(old(owner), old(tables), tables) && SameData(old(owner), old(data), data)
    {
      hide TablesOk, LinksOk, ParentsOk, LeavesOk, FreeOk;
      root := Kalloc();
      if root == 0 {
        return;
      }
      ghost var owner1, tables1 := owner, tables;
      tables := tables[root := Zeroed()];
      owner := owner[root := Table(root, 2, 0)];
      NewRoot(tables1, owner1, parent, free, root, tables, owner);
      assert forall r :: IsRoot(old(owner), r) ==> IsRoot(owner1, r);
    }

    // ----- Mapping and unmapping -----

    /** Map one page. The source panics when the page is mapped already. Fails, without a change to the map, only when
        memory for page tables runs out. */
    method MapPage(root: int, vpn: int, pa: int, perm: int) returns (ok: bool)
      requires Valid() && IsRoot(owner, root) && 0 <= vpn < MAXVPN && !Lookup(tables, root, vpn).valid
      modifies this
      ensures Valid() && Grown(old(owner), owner) && SameData(old(owner), old(data), data)
      ensures ok ==> MapsOne(old(owner), old(tables), tables, root, vpn, Pte(true, perm, pa))
      ensures !ok ==> SameMap(old(owner), old(tables), tables) && |old(free)| < 2
      ensures |free| >= |old(free)| - 2
    {
      var t := Walk(root, vpn, true);
      if t == 0 {
        return false;
      }
      UnmappedUnowned(tables, owner, root, vpn);
      ghost var tables1 := tables;
      var e := Pte(true, perm, pa);
      tables := PutTables(tables, t, Index(0, vpn), e);
      Put(tables1, owner, parent, free, t, vpn, e, tables);
      assert forall r :: IsRoot(old(owner), r) ==> IsRoot(owner, r);
      ok := true;
    }

    /** Map `n` consecutive pages. On success exactly the range is added; on failure (memory for page tables has run
        out) a part `k` of it is. */
    method Mappages(root: int, vpn: int, n: int, pa: int, perm: int) returns (ok: bool, ghost k: int)
      requires Valid() && IsRoot(owner, root) && 0 <= vpn && 0 < n && vpn + n <= MAXVPN
      requires forall v :: vpn <= v < vpn + n ==> !Lookup(tables, root, v).valid
      modifies this
      ensures Valid() && Grown(old(owner), owner) && SameData(old(owner), old(data), data)
      ensures 0 <= k <= n && (ok <==> k == n) && (|old(free)| >= 2 * n ==> ok)
      ensures MapsRange(old(owner), old(tables), tables, root, vpn, k, pa, perm)
    {
      hide TablesOk, LinksOk, ParentsOk, LeavesOk, FreeOk;
      k := 0;
      var a := 0;
      while true
        invariant 0 <= a == k < n && |free| >= |old(free)| - 2 * a
        invariant Valid() && Grown(old(owner), owner) && SameData(old(owner), old(data), data)
        invariant MapsRange(old(owner), old(tables), tables, root, vpn, k, pa, perm)
        decreases n - a
      {
        ghost var owner1, tables1, data1 := owner, tables, data;
        assert IsRoot(owner, root);
        ok := MapPage(root, vpn + a, pa + a * PGSIZE, perm);
        assert SameData(old(owner), old(data), data);
        assert forall r :: IsRoot(old(owner), r) ==> IsRoot(owner1, r);
        if !ok {
          return;
        }
        k := k + 1;
        if a == n - 1 {
          return;
        }
        a := a + 1;
      }
    }

    /** Remove the mapping of one page, if there is one, and with `free` its memory. */
    method UnmapPage(root: int, vpn: int, dofree: bool)
      requires Valid() && IsRoot(owner, root) && 0 <= vpn < MAXVPN
      requires Lookup(tables, root, vpn).valid ==>
                 (Lookup(tables, root, vpn).pa in owner && owner[Lookup(tables, root, vpn).pa] == Leaf(root, vpn)) ==
                     dofree
      modifies this
      ensures Valid() && UnmapsRange(old(owner), old(tables), tables, root, vpn, 1)
      ensures Freed(old(owner), owner, root, vpn, 1) && SameData(owner, old(data), data)
    {
      var t := Walk(root, vpn, false);
      WalkMeets(tables, owner, root, vpn);
      if t == 0 || !tables[t][Index(0, vpn)].valid {
        UnmappedUnowned(tables, owner, root, vpn);
        return;
      }
      var pa := tables[t][Index(0, vpn)].pa;
      if dofree {
        Kfree(pa);
      }
      tables := PutTables(tables, t, Index(0, vpn), NONE);
      Unmapped(old(tables), old(owner), owner, parent, free, t, root, vpn, tables);
      RootsKept(old(owner), owner, root, vpn, old(tables), tables);
    }

    /** Remove the mappings of `n` pages; it is no error if some do not exist. With `dofree` every mapped page is owned
        there, and exactly those pages are given back; without it none is. */
    method Uvmunmap(root: int, vpn: int, n: int, dofree: bool)
      requires Valid() && IsRoot(owner, root) && 0 <= vpn && 0 <= n && vpn + n <= MAXVPN
      requires forall v :: vpn <= v < vpn + n && Lookup(tables, root, v).valid ==>
                 (Lookup(tables, root, v).pa in owner && owner[Lookup(tables, root, v).pa] == Leaf(root, v)) == dofree
      modifies this
      ensures Valid() && UnmapsRange(old(owner), old(tables), tables, root, vpn, n)
      ensures Freed(old(owner), owner, root, vpn, n) && SameData(owner, old(data), data)
    {
      hide TablesOk, LinksOk, ParentsOk, LeavesOk, FreeOk;
      var k := 0;
      while k < n
        invariant 0 <= k <= n && Valid() && UnmapsRange(old(owner), old(tables), tables, root, vpn, k)
        invariant Freed(old(owner), owner, root, vpn, k) && SameData(owner, old(data), data)
      {
        ghost var owner1, tables1, data1 := owner, tables, data;
        assert IsRoot(owner, root) && Lookup(tables, root, vpn + k) == Lookup(old(tables), root, vpn + k);
        UnmapPage(root, vpn + k, dofree);
        UnmapStep(old(owner), owner1, owner, old(tables), tables1, tables, root, vpn, k);
        k := k + 1;
      }
    }

    /** Give user page `v` a fresh page with contents `content`. On failure every page taken is given back, except those
        that became page tables. */
    method AddPage(root: int, v: int, perm: int, content: int) returns (ok: bool, ghost mem: int)
      requires Valid() && IsRoot(owner, root) && 0 <= v < MAXVPN && !Lookup(tables, root, v).valid
      modifies this
      ensures Valid()
      ensures ok ==> Added(old(owner), old(tables), old(data), owner, tables, data, root, v, perm, content, mem)
      ensures !ok ==> Extended(old(owner), old(tables), old(data), owner, tables, data)
      ensures |old(free)| >= 3 ==> ok && |free| >= |old(free)| - 3
    {
      var p := Kalloc();
      mem := p;
      if p == 0 {
        return false, 0;
      }
      data := data[p := content];
      assert IsRoot(owner, root);
      ok := GivePage(root, v, perm, content, p, old(owner), old(data));
    }

    /** Map user page `v` to the page `p`, free in `owner0` and taken for it; if that fails, give the page back. */
    method GivePage(root: int, v: int, perm: int, content: int, p: int, ghost owner0: map<int, Owner>,
                    ghost data0: map<int, int>)
      returns (ok: bool)
      requires Valid() && IsRoot(owner, root) && 0 <= v < MAXVPN && !Lookup(tables, root, v).valid
      requires p in owner0 && owner0[p].Free? && owner == owner0[p := Other]
      requires SameData(owner0, data0, data) && p in data && data[p] == content
      modifies this
      ensures Valid()
      ensures ok ==> Added(owner0, old(tables), data0, owner, tables, data, root, v, perm, content, p)
      ensures !ok ==> Extended(owner0, old(tables), data0, owner, tables, data)
      ensures |old(free)| >= 2 ==> ok && |free| >= |old(free)| - 2
    {
      hide TablesOk, LinksOk, ParentsOk, LeavesOk;
      ghost var owner1, tables1, data1 := owner, tables, data;
      ok := MapPage(root, v, p, perm);
      ghost var owner2, data2 := owner, data;
      assert owner2[p] == Other;
      if ok {
        owner := owner[p := Leaf(root, v)];
        Claim(tables, owner2, parent, free, root, v, p, owner);
        AddedBy(owner0, tables1, data0, p, content, owner1, data1, owner2, data2, owner, tables, root, v, perm);
      } else {
        Kfree(p);
        NotAddedBy(owner0, tables1, data0, p, owner1, data1, owner2, data2, owner, tables, data);
      }
    }

    /** Undo what has been added to the user pages [lo, v) of `root` since the state `owner0`, `tables0`, `data0`. */
    method Undo(root: int, lo: int, v: int, ghost owner0: map<int, Owner>, ghost tables0: Tables,
                ghost data0: map<int, int>,
                ghost wants: map<int, Want>)
      requires Valid() && IsRoot(owner0, root) && 0 <= lo <= v <= MAXVPN && LeavesOk(tables0, owner0)
      requires AddedRange(owner0, tables0, data0, owner, tables, data, root, lo, v, wants)
      requires forall u :: lo <= u < v ==> Lookup(tables0, root, u) == NONE
      modifies this
      ensures Valid() && Extended(owner0, tables0, data0, owner, tables, data)
    {
      ghost var owner1, tables1, data1 := owner, tables, data;
      assert IsRoot(owner, root);
      forall u | lo <= u < v && Lookup(tables, root, u).valid
        ensures Lookup(tables, root, u).pa in owner && owner[Lookup(tables, root, u).pa] == Leaf(root, u)
      {
        assert u in wants && Has(owner, tables, data, root, u, wants[u]);
      }
      Uvmunmap(root, lo, v - lo, true);
      AddedRangeUndone(owner0, tables0, data0, owner1, tables1, data1, owner, tables, data, root, lo, v, wants);
    }

    /** Grow a process from `oldsz` to `newsz` bytes; `perm` is PTE_R, PTE_U and what the caller adds. On success
        exactly the pages in between are mapped, each to a zeroed page of its own; on failure the map is as it was and
        every page taken for it has been given back. */
    method Uvmalloc(root: int, oldsz: int, newsz: int, perm: int) returns (r: int)
      requires Valid() && IsRoot(owner, root) && 0 <= oldsz && 0 <= newsz <= MAXVPN * PGSIZE
      requires forall v :: PageUp(oldsz) <= v < PageUp(newsz) ==> Lookup(tables, root, v) == NONE
      modifies this
      ensures Valid() && (r == 0 || r == if newsz < oldsz then oldsz else newsz)
      ensures newsz < oldsz ==> unchanged(this)
      ensures r == 0 && newsz != 0 ==> Extended(old(owner), old(tables), old(data), owner, tables, data)
      ensures oldsz <= newsz && (r != 0 || newsz == 0) ==>
                AddedRange(old(owner), old(tables), old(data), owner, tables, data, root, PageUp(oldsz), PageUp(newsz),
                           All(MAXVPN, perm, 0))
      ensures 0 < newsz && |old(free)| >= 3 * (PageUp(newsz) - PageUp(oldsz)) ==> r != 0
    {
      if newsz < oldsz {
        return oldsz;
      }
      var ok := AddPages(root, PageUp(oldsz), PageUp(newsz), perm);
      r := if ok then newsz else 0;
    }

    /** The loop of `uvmalloc`, over pages. */
    method AddPages(root: int, lo: int, hi: int, perm: int) returns (ok: bool)
      requires Valid() && IsRoot(owner, root) && 0 <= lo && hi <= MAXVPN
      requires forall v :: lo <= v < hi ==> Lookup(tables, root, v) == NONE
      modifies this
      ensures Valid()
      ensures !ok ==> Extended(old(owner), old(tables), old(data), owner, tables, data)
      ensures ok ==> AddedRange(old(owner), old(tables), old(data), owner, tables, data, root, lo, hi,
                                All(MAXVPN, perm, 0))
      ensures hi <= lo || |old(free)| >= 3 * (hi - lo) ==> ok
    {
      var a := lo;
      ghost var wants := All(MAXVPN, perm, 0);
      ok := true;
      if hi <= lo {
        AddedRangeStarts(owner, tables, data, root, lo, hi, wants);
        return;
      }
      AddedRangeStarts(owner, tables, data, root, lo, lo, wants);
      while a < hi
        invariant lo <= a <= hi && Valid() && (|old(free)| >= 3 * (hi - lo) ==> |free| >= 3 * (hi - a))
        invariant AddedRange(old(owner), old(tables), old(data), owner, tables, data, root, lo, a, wants)
      {
        ghost var owner1, tables1, data1 := owner, tables, data;
        assert IsRoot(owner, root) && Lookup(tables, root, a) == Lookup(old(tables), root, a);
        ghost var mem;
        ok, mem := AddPage(root, a, perm, 0);
        if !ok {
          AddedRangeExtended(old(owner), old(tables), old(data), owner1, tables1, data1, owner, tables, data, root, lo,
                             a, wants);
          Undo(root, lo, a, old(owner), old(tables), old(data), wants);
          return;
        }
        AddedRangeStep(old(owner), old(tables), old(data), owner1, tables1, data1, owner, tables, data, root, lo, a,
                       wants, mem);
        a := a + 1;
      }
    }

    /** Shrink a process from `oldsz` to `newsz` bytes: exactly the pages in between are unmapped and given back. */
    method Uvmdealloc(root: int, oldsz: int, newsz: int) returns (r: int)
      requires Valid() && IsRoot(owner, root) && 0 <= newsz && 0 <= oldsz <= MAXVPN * PGSIZE
      requires forall v :: PageUp(newsz) <= v < PageUp(oldsz) && Lookup(tables, root, v).valid ==>
                 Lookup(tables, root, v).pa in owner && owner[Lookup(tables, root, v).pa] == Leaf(root, v)
      modifies this
      ensures Valid() && r == if newsz < oldsz then newsz else oldsz
      ensures UnmapsRange(old(owner), old(tables), tables, root, PageUp(newsz), PageUp(oldsz) - PageUp(newsz))
      ensures Freed(old(owner), owner, root, PageUp(newsz), PageUp(oldsz) - PageUp(newsz)) &&
              SameData(owner, old(data), data)
    {
      if newsz >= oldsz {
        return oldsz;
      }
      if PageUp(newsz) < PageUp(oldsz) {
        Uvmunmap(root, PageUp(newsz), PageUp(oldsz) - PageUp(newsz), true);
      }
      r := newsz;
    }

    /** Copy the memory of one process, `sz` bytes, to another. On success every page mapped in `src` is mapped in `dst`
        with the same permissions, to a page of its own with the same contents; `src` is untouched. On failure the map
        is as it was and every page taken for it has been given back. */
    method Uvmcopy(src: int, dst: int, sz: int) returns (ok: bool)
      requires Valid() && IsRoot(owner, src) && IsRoot(owner, dst) && 0 <= sz <= MAXVPN * PGSIZE && src != dst
      requires forall v :: 0 <= v < PageUp(sz) ==> Lookup(tables, dst, v) == NONE
      requires forall v :: 0 <= v < PageUp(sz) && Lookup(tables, src, v).valid ==>
                 Lookup(tables, src, v).pa in data && Lookup(tables, src, v).pa in owner &&
                     !owner[Lookup(tables, src, v).pa].Free?
      modifies this
      ensures Valid()
      ensures ok ==> AddedRange(old(owner), old(tables), old(data), owner, tables, data, dst, 0, PageUp(sz),
                                Held(old(tables), old(data), src, PageUp(sz)))
      ensures !ok ==> Extended(old(owner), old(tables), old(data), owner, tables, data)
      ensures |old(free)| >= 3 * PageUp(sz) ==> ok
    {
      var i, n := 0, PageUp(sz);
      ghost var owner0, tables0, data0 := owner, tables, data;
      ghost var wants := Held(tables, data, src, n);
      AddedRangeStarts(owner, tables, data, dst, 0, 0, wants);
      ok := true;
      while i < n
        invariant 0 <= i <= n && Valid() && (|old(free)| >= 3 * n ==> |free| >= 3 * (n - i))
        invariant AddedRange(owner0, tables0, data0, owner, tables, data, dst, 0, i, wants)
      {
        assert IsRoot(owner, dst) && IsRoot(owner, src) && Lookup(tables, src, i) == Lookup(tables0, src, i);
        ok := CopyPage(src, dst, i, owner0, tables0, data0, wants);
        if !ok {
          Undo(dst, 0, i, owner0, tables0, data0, wants);
          return;
        }
        i := i + 1;
      }
    }

    /** One page of `uvmcopy`. */
    method CopyPage(src: int, dst: int, i: int, ghost owner0: map<int, Owner>, ghost tables0: Tables,
                    ghost data0: map<int, int>,
                    ghost wants: map<int, Want>) returns (ok: bool)
      requires Valid() && IsRoot(owner, src) && IsRoot(owner, dst) && IsRoot(owner0, dst) && 0 <= i < MAXVPN
      requires AddedRange(owner0, tables0, data0, owner, tables, data, dst, 0, i, wants)
      requires Lookup(tables, dst, i) == NONE
      requires var e := Lookup(tables, src, i);
               && (i in wants <==> e.valid)
               && (e.valid ==> e.pa in data0 && e.pa in owner0 && !owner0[e.pa].Free? && wants[i] == Want(e.perm,
                   data0[e.pa]))
      modifies this
      ensures Valid()
      ensures AddedRange(owner0, tables0, data0, owner, tables, data, dst, 0, if ok then i + 1 else i, wants)
      ensures |old(free)| >= 3 ==> ok && |free| >= |old(free)| - 3
    {
      ghost var owner1, tables1, data1 := owner, tables, data;
      var t := Walk(src, i, false);
      WalkMeets(tables, owner, src, i);
      if t == 0 || !tables[t][Index(0, i)].valid {
        AddedRangeSkip(owner0, tables0, data0, owner, tables, data, dst, 0, i, wants);
        return true;
      }
      var e := tables[t][Index(0, i)];
      ghost var mem;
      ok, mem := AddPage(dst, i, e.perm, data[e.pa]);
      if ok {
        AddedRangeStep(owner0, tables0, data0, owner1, tables1, data1, owner, tables, data, dst, 0, i, wants, mem);
      } else {
        AddedRangeExtended(owner0, tables0, data0, owner1, tables1, data1, owner, tables, data, dst, 0, i, wants);
      }
    }

    // ----- Freeing a process -----

    /** Free the page-table page `t` and all below it. The entry that leads to `t`, if any, is left dangling. */
    method Freewalk(t: int, ghost root: int, ghost level: int, ghost prefix: int)
      requires TreeOk(tables, owner, parent, free, 0, 0) && TableAt(owner, t, root, level, prefix) &&
               NoLeaves(tables, owner, root)
      modifies this
      ensures parent == old(parent)
      ensures TreeOk(tables, owner, parent, free, Above(parent, level, t), prefix % 512)
      ensures Dropped(old(tables), old(owner), tables, owner, root, level, prefix) && NoLeaves(tables, owner, root)
      ensures SameData(owner, old(data), data)
      decreases level, 2
    {
      hide LinksOk, LeavesOk, FreeOk;
      ghost var owner0, tables0 := owner, tables;
      var i := 0;
      while i < 512
        invariant 0 <= i <= 512 && parent == old(parent) && SameData(owner, old(data), data)
        invariant TreeOk(tables, owner, parent, free, 0, 0) && NoLeaves(tables, owner, root)
        invariant TableAt(owner, t, root, level, prefix)
        invariant Pruned(tables0, owner0, tables, owner, root, level, prefix, t, i)
      {
        ghost var owner1, data1 := owner, data;
        FreeEntry(t, i, root, level, prefix, owner0, tables0);
        SameDataTwice(owner1, owner, old(data), data1, data);
        i := i + 1;
      }
      ghost var owner1, data1 := owner, data;
      FreeTable(t, root, level, prefix, owner0, tables0);
      SameDataTwice(owner1, owner, old(data), data1, data);
    }

    /** Free a page-table page whose entries have all been cleared. */
    method FreeTable(t: int, ghost root: int, ghost level: int, ghost prefix: int, ghost owner0: map<int, Owner>,
                     ghost tables0: Tables)
      requires TreeOk(tables, owner, parent, free, 0, 0) && TableAt(owner, t, root, level, prefix) &&
               TableAt(owner0, t, root, level, prefix)
      requires TablesOk(tables0, owner0) && ParentsOk(tables0, owner0, parent) && NoLeaves(tables0, owner0, root)
      requires Pruned(tables0, owner0, tables, owner, root, level, prefix, t, ENTRIES)
      modifies this`tables, this`owner, this`free, this`data
      ensures TreeOk(tables, owner, parent, free, Above(parent, level, t), prefix % 512)
      ensures Dropped(tables0, owner0, tables, owner, root, level, prefix) && NoLeaves(tables, owner, root)
      ensures SameData(owner, old(data), data) && OnlyFreed(old(owner), owner)
    {
      hide TablesOk, LinksOk, ParentsOk, LeavesOk, NoLeaves, Pruned;
      PrunedEmpty(tables0, owner0, tables, owner, parent, root, level, prefix, t);
      ghost var owner1, tables1, free1 := owner, tables, free;
      ghost var hq := Above(parent, level, t);
      Kfree(t);
      tables := tables - {t};
      TableFreed(tables1, owner1, parent, free1, t, hq, tables, owner, free);
      PrunedDropped(tables0, owner0, tables1, owner1, parent, root, level, prefix, t, tables, owner);
      NoLeavesKept(tables0, owner0, tables, owner, root, level, prefix);
    }

    /** Prune what entry `i` of a table points to, if it is valid. */
    method FreeEntry(t: int, i: int, ghost root: int, ghost level: int, ghost prefix: int,
                     ghost owner0: map<int, Owner>, ghost tables0: Tables)
      requires TreeOk(tables, owner, parent, free, 0, 0) && TableAt(owner, t, root, level, prefix) &&
               NoLeaves(tables, owner, root)
      requires 0 <= i < ENTRIES && Pruned(tables0, owner0, tables, owner, root, level, prefix, t, i)
      requires TableAt(owner0, t, root, level, prefix) && TablesOk(tables0, owner0) &&
               ParentsOk(tables0, owner0, parent)
      modifies this
      ensures parent == old(parent) && TreeOk(tables, owner, parent, free, 0, 0)
      ensures TableAt(owner, t, root, level, prefix) && NoLeaves(tables, owner, root)
      ensures Pruned(tables0, owner0, tables, owner, root, level, prefix, t, i + 1)
      ensures SameData(owner, old(data), data) && OnlyFreed(old(owner), owner)
      decreases level, 1
    {
      hide LeavesOk, FreeOk;
      var pte := tables[t][i];
      if pte.valid && !Rwx(pte) {
        FreeChild(t, i, root, level, prefix, owner0, tables0);
      } else {
        assert !pte.valid;
        PrunedSkip(tables0, owner0, tables, owner, parent, root, level, prefix, t, i);
      }
    }

    /** Free the tables below entry `i` of `t` and clear the entry. */
    method FreeChild(t: int, i: int, ghost root: int, ghost level: int, ghost prefix: int,
                     ghost owner0: map<int, Owner>, ghost tables0: Tables)
      requires TreeOk(tables, owner, parent, free, 0, 0) && TableAt(owner, t, root, level, prefix) &&
               NoLeaves(tables, owner, root)
      requires 0 <= i < ENTRIES && tables[t][i].valid &&
               Pruned(tables0, owner0, tables, owner, root, level, prefix, t, i)
      requires TableAt(owner0, t, root, level, prefix)
      modifies this
      ensures parent == old(parent) && TreeOk(tables, owner, parent, free, 0, 0)
      ensures TableAt(owner, t, root, level, prefix) && NoLeaves(tables, owner, root)
      ensures Pruned(tables0, owner0, tables, owner, root, level, prefix, t, i + 1)
      ensures SameData(owner, old(data), data) && OnlyFreed(old(owner), owner)
      decreases level, 0
    {
      hide TablesOk, LinksOk, ParentsOk, LeavesOk, FreeOk, NoLeaves, Pruned;
      TableHas(tables, owner, t, root, level, prefix);
      NoLeafAbove(tables, owner, t, i, root, level, prefix);
      ChildAt(tables, owner, parent, free, t, i, root, level, prefix);
      ghost var owner1, tables1 := owner, tables;
      var child := tables[t][i].pa;
      ghost var below, place := level - 1, prefix * 512 + i;
      PlaceSplit(prefix, i);
      Freewalk(child, root, below, place);
      ghost var tables2 := tables;
      ChildFreed(tables1, owner1, tables2, owner, parent, free, t, i, child, root, below, place);
      tables := PutTables(tables, t, i, NONE);
      HoleClosed(tables2, owner, parent, free, t, i, root, below, place, tables);
      PrunedStep(tables0, owner0, tables1, owner1, tables2, owner, tables, root, level, prefix, t, i);
    }

    /** Free a process of `sz` bytes whose mapped pages all lie below `sz` and are its own: each of its pages, user
        memory and page tables, is given back exactly once, and no other process is touched. */
    method Uvmfree(root: int, sz: int)
      requires Valid() && IsRoot(owner, root) && 0 <= sz <= MAXVPN * PGSIZE
      requires forall v :: 0 <= v < MAXVPN && Lookup(tables, root, v).valid ==>
                 v < PageUp(sz) && Lookup(tables, root, v).pa in owner &&
                     owner[Lookup(tables, root, v).pa] == Leaf(root, v)
      modifies this
      ensures Valid() && AllFreed(old(owner), owner, root) && OtherRootsSame(old(owner), old(tables), tables, root)
      ensures SameData(owner, old(data), data)
    {
      if sz > 0 {
        Uvmunmap(root, 0, PageUp(sz), true);
      }
      ghost var owner1, tables1, free1 := owner, tables, free;
      assert IsRoot(owner, root);
      NothingMapped(tables, owner, parent, root);
      Freewalk(root, root, 2, 0);
      TornDown(tables1, owner1, parent, free1, tables, owner, free, root);
    }
  }
}
