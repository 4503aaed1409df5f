/** The registry of pages shared between processes that map the same file: hash chains of reference-counted entries, and
    the page-table entries that the counts stand for. In the class a page fault, and the unmapping of one page, is one
    step; in the machine of overlapping faults the first fault on a page is two, because it reads the file without the
    lock. */
module SharedPages {
  import opened Sequences

  const SHASH := 64

  /** An inode and an offset in its file. */
  datatype Key = Key(ip: bv64, off: bv64)
  datatype Entry = Entry(key: Key, pa: int, refcnt: int)
  datatype Shared = Shared(pa: int, count: int)
  type Chain = seq<Entry>
  type Table = map<Key, Shared>

  /** A virtual page of a process. */
  datatype Place = Place(process: int, vpn: int)

  function Hash(k: Key): (h: int)
    ensures 0 <= h < SHASH
  {
    ((k.ip ^ k.off) % 64) as int
  }

  predicate Has(chain: Chain, k: Key) {
    exists i :: 0 <= i < |chain| && chain[i].key == k
  }

  // ----- The chains stand for a map -----

  /** One chain: entries with the right hash, no key twice, each as the table says. */
  ghost predicate ChainOk(chain: Chain, b: int, table: Table) {
    && (forall i :: 0 <= i < |chain| ==> Hash(chain[i].key) == b && chain[i].key in table)
    && (forall i :: 0 <= i < |chain| ==> table[chain[i].key] == Shared(chain[i].pa, chain[i].refcnt))
    && (forall i, j :: 0 <= i < j < |chain| ==> chain[i].key != chain[j].key)
  }

  ghost predicate Refines(buckets: seq<Chain>, table: Table) {
    && |buckets| == SHASH
    && (forall b :: 0 <= b < SHASH ==> ChainOk(buckets[b], b, table))
    && (forall k :: k in table ==> Has(buckets[Hash(k)], k))
  }

  lemma ChainRecounted(chain: Chain, b: int, table: Table, k: Key, x: Shared, i: int)
    requires ChainOk(chain, b, table) && k in table && x.pa == table[k].pa
    ensures Hash(k) != b ==> ChainOk(chain, b, table[k := x])
    ensures 0 <= i < |chain| && chain[i].key == k ==>
            ChainOk(chain[i := chain[i].(refcnt := x.count)], b, table[k := x])
  {
  }

  lemma HasRecounted(chain: Chain, i: int, n: int, q: Key)
    requires Has(chain, q)
    ensures 0 <= i < |chain| ==> Has(chain[i := chain[i].(refcnt := n)], q)
  {
    var j :| 0 <= j < |chain| && chain[j].key == q;
    if 0 <= i < |chain| {
      assert chain[i := chain[i].(refcnt := n)][j].key == q;
    }
  }

  /** The reference count of an entry changes. */
  lemma Recounted(buckets: seq<Chain>, table: Table, h: int, i: int, k: Key, n: int, buckets': seq<Chain>,
                  table': Table)
    requires Refines(buckets, table) && h == Hash(k) && 0 <= i < |buckets[h]| && buckets[h][i].key == k && k in table
    requires buckets' == buckets[h := buckets[h][i := buckets[h][i].(refcnt := n)]] &&
             table' == table[k := Shared(table[k].pa, n)]
    ensures Refines(buckets', table')
  {
    forall b | 0 <= b < SHASH
      ensures ChainOk(buckets'[b], b, table')
    {
      ChainRecounted(buckets[b], b, table, k, table'[k], if b == h then i else -1);
    }
    forall q | q in table'
      ensures Has(buckets'[Hash(q)], q)
    {
      HasRecounted(buckets[Hash(q)], if Hash(q) == h then i else -1, n, q);
    }
  }

  lemma ChainGrown(chain: Chain, b: int, table: Table, e: Entry)
    requires ChainOk(chain, b, table) && e.key !in table
    ensures ChainOk(chain, b, table[e.key := Shared(e.pa, e.refcnt)])
    ensures Hash(e.key) == b ==> ChainOk([e] + chain, b, table[e.key := Shared(e.pa, e.refcnt)])
  {
  }

  /** A new entry goes to the front of its chain. */
  lemma Inserted(buckets: seq<Chain>, table: Table, e: Entry, h: int, buckets': seq<Chain>, table': Table)
    requires Refines(buckets, table) && e.key !in table && h == Hash(e.key) &&
             buckets' == buckets[h := [e] + buckets[h]]
    requires table' == table[e.key := Shared(e.pa, e.refcnt)]
    ensures Refines(buckets', table')
  {
    forall b | 0 <= b < SHASH
      ensures ChainOk(buckets'[b], b, table')
    {
      ChainGrown(buckets[b], b, table, e);
    }
    forall q | q in table'
      ensures Has(buckets'[Hash(q)], q)
    {
      if q == e.key {
        assert buckets'[h][0].key == q;
      } else {
        HasMore(buckets[Hash(q)], q, e);
      }
    }
  }

  lemma HasMore(chain: Chain, k: Key, e: Entry)
    ensures Has(chain, k) ==> Has([e] + chain, k)
  {
    if Has(chain, k) {
      var j :| 0 <= j < |chain| && chain[j].key == k;
      assert ([e] + chain)[j + 1].key == k;
    }
  }

  lemma ChainShrunk(chain: Chain, b: int, table: Table, k: Key, i: int)
    requires ChainOk(chain, b, table)
    ensures Hash(k) != b ==> ChainOk(chain, b, table - {k})
    ensures 0 <= i < |chain| && chain[i].key == k ==> ChainOk(Without(chain, i), b, table - {k})
  {
  }

  /** An entry is taken out of its chain. */
  lemma Removed(buckets: seq<Chain>, table: Table, h: int, i: int, k: Key, buckets': seq<Chain>, table': Table)
    requires Refines(buckets, table) && h == Hash(k) && 0 <= i < |buckets[h]| && k == buckets[h][i].key
    requires buckets' == buckets[h := Without(buckets[h], i)] && table' == table - {k}
    ensures Refines(buckets', table')
  {
    forall b | 0 <= b < SHASH
      ensures ChainOk(buckets'[b], b, table')
    {
      ChainShrunk(buckets[b], b, table, k, if b == h then i else -1);
    }
    RemovedHas(buckets, table, h, i, k, buckets');
  }

  lemma RemovedHas(buckets: seq<Chain>, table: Table, h: int, i: int, k: Key, buckets': seq<Chain>)
    requires |buckets| == SHASH && (forall q :: q in table ==> Has(buckets[Hash(q)], q))
    requires 0 <= h < SHASH && 0 <= i < |buckets[h]| && k == buckets[h][i].key &&
             buckets' == buckets[h := Without(buckets[h], i)]
    ensures forall q :: q in table && q != k ==> Has(buckets'[Hash(q)], q)
  {
    forall q | q in table && q != k
      ensures Has(buckets'[Hash(q)], q)
    {
      HasKept(buckets[Hash(q)], if Hash(q) == h then i else -1, q);
    }
  }

  lemma HasKept(chain: Chain, i: int, q: Key)
    requires Has(chain, q) && (0 <= i < |chain| ==> chain[i].key != q)
    ensures 0 <= i < |chain| ==> Has(Without(chain, i), q)
  {
    var j :| 0 <= j < |chain| && chain[j].key == q;
    if 0 <= i < |chain| {
      assert Without(chain, i)[if j > i then j - 1 else j].key == q;
    }
  }

  // ----- The counts are the numbers of mappings -----

  /** The places where `k` is mapped. */
  ghost function PlacesOf(maps: map<Place, Key>, k: Key): (r: set<Place>) {
    set p | p in maps && maps[p] == k
  }

  lemma Mapped(maps: map<Place, Key>, p: Place, k: Key, q: Key)
    requires p !in maps
    ensures |PlacesOf(maps[p := k], q)| == |PlacesOf(maps, q)| + if q == k then 1 else 0
  {
    if q == k {
      assert PlacesOf(maps[p := k], q) == PlacesOf(maps, q) + {p};
    } else {
      assert PlacesOf(maps[p := k], q) == PlacesOf(maps, q);
    }
  }

  lemma Unmapped(maps: map<Place, Key>, p: Place, q: Key)
    requires p in maps
    ensures |PlacesOf(maps - {p}, q)| == |PlacesOf(maps, q)| - if q == maps[p] then 1 else 0
  {
    if q == maps[p] {
      assert PlacesOf(maps - {p}, q) == PlacesOf(maps, q) - {p};
    } else {
      assert PlacesOf(maps - {p}, q) == PlacesOf(maps, q);
    }
  }

  /** Every entry counts its mappings; there is no entry without one and no mapping without an entry. */
  ghost predicate Settled(table: Table, maps: map<Place, Key>) {
    && (forall q :: q in table ==> table[q].count > 0 && table[q].count == |PlacesOf(maps, q)|)
    && (forall p :: p in maps ==> maps[p] in table)
  }

  /** The same, with one reference to `k` that is no mapping. */
  ghost predicate OneOver(table: Table, maps: map<Place, Key>, k: Key) {
    && k in table
    && (forall q :: q in table ==>
        table[q].count > 0 && table[q].count == |PlacesOf(maps, q)| + if q == k then 1 else 0)
    && (forall p :: p in maps ==> maps[p] in table)
  }

  /** The page-table entries lead to the pages of the registry; those pages are in use, and no two keys have the
      same. */
  ghost predicate Pages(table: Table, maps: map<Place, Key>, ptes: map<Place, int>, free: set<int>) {
    && ptes.Keys == maps.Keys
    && (forall p :: p in maps ==> maps[p] in table && ptes[p] == table[maps[p]].pa)
    && (forall q :: q in table ==> table[q].pa !in free && table[q].pa != 0)
    && Distinct(table) && 0 !in free
  }

  /** No two keys have the same page. */
  ghost predicate Distinct(table: Table) {
    forall q, r {:trigger table[q], table[r]} :: q in table && r in table && table[q].pa == table[r].pa ==> q == r
  }

  lemma StaysDistinct(table: Table, k: Key, pa: int)
    requires Distinct(table) && (k !in table ==> forall q :: q in table ==> table[q].pa != pa)
    ensures Distinct(Referenced(table, k, pa))
  {
    var t := Referenced(table, k, pa);
    forall q, r | q in t && r in t && t[q].pa == t[r].pa
      ensures q == r
    {
      if q != k && r != k {
        assert table[q].pa == table[r].pa;
      }
    }
  }

  /** The table after one more reference to `k`, with `pa` as its page if there was none. */
  function Referenced(table: Table, k: Key, pa: int): (r: Table) {
    table[k := if k in table then Shared(table[k].pa, table[k].count + 1) else Shared(pa, 1)]
  }

  /** The table after one reference less to `k`. */
  function Dereferenced(table: Table, k: Key): (r: Table)
    requires k in table
  {
    if table[k].count > 1 then table[k := Shared(table[k].pa, table[k].count - 1)] else table - {k}
  }

  lemma CountsUp(table: Table, maps: map<Place, Key>, k: Key, pa: int)
    requires Settled(table, maps)
    ensures OneOver(Referenced(table, k, pa), maps, k)
  {
    if k !in table {
      assert PlacesOf(maps, k) == {};
    }
  }

  lemma CountsDown(table: Table, maps: map<Place, Key>, k: Key)
    requires OneOver(table, maps, k)
    ensures Settled(Dereferenced(table, k), maps)
  {
    if table[k].count == 1 {
      assert PlacesOf(maps, k) == {};
      forall p | p in maps
        ensures maps[p] != k
      {
        assert p !in PlacesOf(maps, k);
      }
    }
  }

  /** Mapping a place settles one reference, and unmapping one leaves one too many. */
  lemma CountsMapped(table: Table, maps: map<Place, Key>, k: Key, p: Place)
    requires OneOver(table, maps, k) && p !in maps
    ensures Settled(table, maps[p := k])
  {
    forall q | q in table
      ensures table[q].count == |PlacesOf(maps[p := k], q)|
    {
      Mapped(maps, p, k, q);
    }
  }

  lemma CountsUnmapped(table: Table, maps: map<Place, Key>, k: Key, p: Place)
    requires Settled(table, maps) && p in maps && maps[p] == k
    ensures OneOver(table, maps - {p}, k)
  {
    forall q | q in table
      ensures table[q].count == |PlacesOf(maps - {p}, q)| + if q == k then 1 else 0
    {
      Unmapped(maps, p, q);
    }
  }

  /** The count is down to the reference that is no mapping exactly when no place is left. */
  lemma LastGone(table: Table, maps: map<Place, Key>, k: Key)
    requires OneOver(table, maps, k)
    ensures table[k].count == 1 <==> PlacesOf(maps, k) == {}
  {
  }

  /** Taking a new reference back leaves what was there. */
  lemma Undone(table: Table, k: Key, pa: int)
    requires k in table ==> table[k].count > 0
    ensures Dereferenced(Referenced(table, k, pa), k) == table
  {
  }

  lemma PagesMapped(table: Table, maps: map<Place, Key>, ptes: map<Place, int>, free: set<int>, k: Key, pa: int,
                    p: Place,
                    table': Table, free': set<int>)
    requires Pages(table, maps, ptes, free) && p !in ptes && table' == Referenced(table, k, pa)
    requires if k in table then pa == table[k].pa && free' == free else pa in free && free' == free - {pa}
    ensures Pages(table', maps[p := k], ptes[p := pa], free')
  {
    StaysDistinct(table, k, pa);
  }

  lemma PagesUnmapped(table: Table, maps: map<Place, Key>, ptes: map<Place, int>, free: set<int>, k: Key, p: Place,
                      table': Table, free': set<int>)
    requires Pages(table, maps, ptes, free) && p in maps && maps[p] == k && table' == Dereferenced(table, k)
    requires free' == free + if table[k].count == 1 then {table[k].pa} else {}
    requires table[k].count > 0 && Settled(table', maps - {p})
    ensures Pages(table', maps - {p}, ptes - {p}, free')
  {
    assert (ptes - {p}).Keys == (maps - {p}).Keys;
  }

  // ----- Faults that overlap -----

  /** A fault that found no entry and reads the file into its own page. */
  datatype Wait = Wait(key: Key, page: int)

  /** The registry and the mappings while faults are under way. `late` are the places whose fault mapped its own page
      although there was an entry by then, and `lost` the pages of such places that are no longer mapped. */
  datatype State = State(table: Table, maps: map<Place, Key>, ptes: map<Place, int>, free: set<int>,
                         waits: map<Place, Wait>, late: set<Place>, lost: set<int>)

  /** A fault finds an entry; a fault finds none, and takes a page; such a fault enters its page or counts the entry
      there is by now, and maps its page; a place is unmapped. */
  datatype Step = Shares(p: Place, k: Key) | Looks(p: Place, k: Key, page: int) | Finishes(p: Place) | Leaves(p: Place)

  predicate Enabled(s: State, e: Step) {
    match e
    case Shares(p, k) => p !in s.maps && p !in s.waits && k in s.table
    case Looks(p, k, page) => p !in s.maps && p !in s.waits && k !in s.table && page in s.free
    case Finishes(p) => p in s.waits && p !in s.maps
    case Leaves(p) => p in s.maps && p in s.ptes && s.maps[p] in s.table
  }

  function Next(s: State, e: Step): (r: State)
    requires Enabled(s, e)
  {
    match e
    case Shares(p, k) =>
      s.(table := Referenced(s.table, k, 0), maps := s.maps[p := k], ptes := s.ptes[p := s.table[k].pa])
    case Looks(p, k, page) => s.(free := s.free - {page}, waits := s.waits[p := Wait(k, page)])
    case Finishes(p) =>
      var w := s.waits[p];
      s.(table := Referenced(s.table, w.key, w.page), maps := s.maps[p := w.key], ptes := s.ptes[p := w.page],
         waits := s.waits - {p}, late := if w.key in s.table then s.late + {p} else s.late)
    case Leaves(p) =>
      var k := s.maps[p];
      s.(table := Dereferenced(s.table, k), maps := s.maps - {p}, ptes := s.ptes - {p},
         free := if s.table[k].count > 1 then s.free else s.free + {s.table[k].pa},
         late := s.late - {p}, lost := if p in s.late then s.lost + {s.ptes[p]} else s.lost)
  }

  /** A fault that nothing overlaps does what the one step of the class does. */
  lemma AloneIsOneStep(s: State, p: Place, k: Key, page: int)
    requires Enabled(s, Looks(p, k, page)) && p !in s.late
    ensures Enabled(Next(s, Looks(p, k, page)), Finishes(p))
    ensures Next(Next(s, Looks(p, k, page)), Finishes(p)) ==
            s.(table := Referenced(s.table, k, page), maps := s.maps[p := k], ptes := s.ptes[p := page],
               free := s.free - {page})
  {
    assert s.waits[p := Wait(k, page)] - {p} == s.waits;
  }

  /** What a page is used for: by an entry of the registry, for a fault under way or at a late place. */
  datatype Use = InTable(k: Key) | Waiting(p: Place) | AtLate(p: Place)

  predicate Used(s: State, u: Use) {
    match u
    case InTable(k) => k in s.table
    case Waiting(p) => p in s.waits
    case AtLate(p) => p in s.late && p in s.ptes
  }

  function Page(s: State, u: Use): (page: int)
    requires Used(s, u)
  {
    match u
    case InTable(k) => s.table[k].pa
    case Waiting(p) => s.waits[p].page
    case AtLate(p) => s.ptes[p]
  }

  /** No page has two uses. */
  ghost predicate OneUse(s: State) {
    forall u, v :: Used(s, u) && Used(s, v) && Page(s, u) == Page(s, v) ==> u == v
  }

  /** The pages of `unused` have no use. */
  ghost predicate NoUse(s: State, unused: set<int>) {
    forall u :: Used(s, u) ==> Page(s, u) !in unused
  }

  /** Places are mapped or wait, and only the late ones do not lead to the registry's page. */
  ghost predicate Leads(s: State) {
    && s.ptes.Keys == s.maps.Keys && s.late <= s.maps.Keys && s.waits.Keys !! s.maps.Keys
    && (forall p :: p in s.maps ==> s.maps[p] in s.table)
    && (forall p :: p in s.maps && p !in s.late ==> s.ptes[p] == s.table[s.maps[p]].pa)
  }

  /** The invariant: also, the counts are right, and no page in use is free, lost or used twice. */
  ghost predicate Good(s: State) {
    && Settled(s.table, s.maps) && Leads(s)
    && OneUse(s) && NoUse(s, s.free) && NoUse(s, s.lost) && s.free !! s.lost
  }

  lemma SettledStep(s: State, e: Step)
    requires Settled(s.table, s.maps) && Enabled(s, e)
    ensures Settled(Next(s, e).table, Next(s, e).maps)
  {
    hide Settled, OneOver, PlacesOf;
    var r := Next(s, e);
    match e
    case Shares(p, k) =>
      CountsUp(s.table, s.maps, k, 0);
      CountsMapped(r.table, s.maps, k, p);
    case Looks(p, k, page) =>
    case Finishes(p) =>
      CountsUp(s.table, s.maps, s.waits[p].key, s.waits[p].page);
      CountsMapped(r.table, s.maps, s.waits[p].key, p);
    case Leaves(p) =>
      CountsUnmapped(s.table, s.maps, s.maps[p], p);
      CountsDown(s.table, r.maps, s.maps[p]);
  }

  lemma LeadsStep(s: State, e: Step)
    requires Leads(s) && Enabled(s, e) && forall p :: p in Next(s, e).maps ==> Next(s, e).maps[p] in Next(s, e).table
    ensures Leads(Next(s, e))
  {
    var r := Next(s, e);
    assert r.ptes.Keys == r.maps.Keys;
  }

  /** The use that the page of use `u` had before a step. */
  function Before(s: State, e: Step, u: Use): (v: Use) {
    if e.Finishes? && e.p in s.waits && (u == AtLate(e.p) || (u == InTable(s.waits[e.p].key) && u.k !in s.table))
    then Waiting(e.p) else u
  }

  lemma UsedBefore(s: State, e: Step, u: Use)
    requires Leads(s) && Enabled(s, e) && Used(Next(s, e), u)
    ensures if e.Looks? && u == Waiting(e.p) then Page(Next(s, e), u) == e.page
            else Used(s, Before(s, e, u)) && Page(Next(s, e), u) == Page(s, Before(s, e, u))
  {
  }

  lemma UsedOnce(s: State, e: Step, u: Use, v: Use)
    requires Leads(s) && Enabled(s, e) && Used(Next(s, e), u) && Used(Next(s, e), v)
    ensures Before(s, e, u) == Before(s, e, v) ==> u == v
  {
  }

  /** A page that a step frees or loses has no use after it. */
  lemma UseEnds(s: State, e: Step, u: Use)
    requires Leads(s) && OneUse(s) && NoUse(s, s.free) && Enabled(s, e) && e.Leaves? && Used(Next(s, e), u)
    ensures Used(s, u) && Page(Next(s, e), u) == Page(s, u)
    ensures s.table[s.maps[e.p]].count <= 1 ==> Page(s, u) != s.table[s.maps[e.p]].pa
    ensures e.p in s.late ==> Page(s, u) != s.ptes[e.p]
  {
    UsedBefore(s, e, u);
    assert Used(s, InTable(s.maps[e.p])) && (e.p in s.late ==> Used(s, AtLate(e.p)));
  }

  lemma UsesStep(s: State, e: Step)
    requires Leads(s) && OneUse(s) && NoUse(s, s.free) && NoUse(s, s.lost) && s.free !! s.lost && Enabled(s, e)
    ensures OneUse(Next(s, e)) && NoUse(Next(s, e), Next(s, e).free) && NoUse(Next(s, e), Next(s, e).lost)
  {
    hide Leads;
    var r := Next(s, e);
    forall u | Used(r, u)
      ensures Page(r, u) !in r.free && Page(r, u) !in r.lost
    {
      UsedBefore(s, e, u);
      if e.Leaves? {
        UseEnds(s, e, u);
      }
    }
    forall u, v | Used(r, u) && Used(r, v) && Page(r, u) == Page(r, v)
      ensures u == v
    {
      UsedBefore(s, e, u);
      UsedBefore(s, e, v);
      UsedOnce(s, e, u, v);
    }
  }

  /** The page that an unmapping frees is not lost, and the page that it loses is not free. */
  lemma ApartStep(s: State, e: Step)
    requires Leads(s) && OneUse(s) && NoUse(s, s.free) && NoUse(s, s.lost) && s.free !! s.lost && Enabled(s, e)
    ensures Next(s, e).free !! Next(s, e).lost
  {
    if e.Leaves? {
      assert Used(s, InTable(s.maps[e.p])) && (e.p in s.late ==> Used(s, AtLate(e.p)));
    }
  }

  /** Every step keeps the invariant, and a page that is lost stays so. */
  lemma GoodStep(s: State, e: Step)
    requires Good(s) && Enabled(s, e)
    ensures Good(Next(s, e)) && s.lost <= Next(s, e).lost
  {
    hide Leads, OneUse, NoUse, Settled;
    SettledStep(s, e);
    SettledHas(Next(s, e).table, Next(s, e).maps);
    LeadsStep(s, e);
    UsesStep(s, e);
    ApartStep(s, e);
  }

  lemma SettledHas(table: Table, maps: map<Place, Key>)
    requires Settled(table, maps)
    ensures forall p :: p in maps ==> maps[p] in table
  {
  }

  ghost predicate Run(ss: seq<State>, es: seq<Step>) {
    && |ss| == |es| + 1
    && forall i :: 0 <= i < |es| ==> Enabled(ss[i], es[i]) && ss[i + 1] == Next(ss[i], es[i])
  }

  lemma {:induction false} GoodRun(ss: seq<State>, es: seq<Step>, n: nat)
    requires Run(ss, es) && Good(ss[0]) && n <= |es|
    ensures Good(ss[n])
  {
    hide Good, Next, Enabled;
    if n > 0 {
      GoodRun(ss, es, n - 1);
      GoodStep(ss[n - 1], es[n - 1]);
    }
  }

  /** In every run a lost page is never free again. */
  lemma {:induction false} NeverFreed(ss: seq<State>, es: seq<Step>, m: nat, n: nat, page: int)
    requires Run(ss, es) && Good(ss[0]) && m <= n <= |es| && page in ss[m].lost
    ensures page in ss[n].lost && page !in ss[n].free
  {
    hide Leads, OneUse, NoUse, Settled, Next, Enabled;
    GoodRun(ss, es, n);
    if m < n {
      NeverFreed(ss, es, m, n - 1, page);
      GoodRun(ss, es, n - 1);
      GoodStep(ss[n - 1], es[n - 1]);
    }
  }

  /** All mappings of a key lead to one page. */
  ghost predicate AllShare(s: State) {
    forall p, q :: p in s.maps && q in s.maps && s.maps[p] == s.maps[q] && p in s.ptes && q in s.ptes ==>
      s.ptes[p] == s.ptes[q]
  }

  /** A fault maps its page although another has entered one for its key since it looked. */
  predicate Overtaken(s: State, e: Step) {
    e.Finishes? && e.p in s.waits && s.waits[e.p].key in s.table
  }

  /** When a fault is overtaken, a mapping of its key leads to another page than the fault's. */
  lemma OvertakenSplits(s: State, e: Step, q: Place)
    requires Good(s) && Enabled(s, e) && Overtaken(s, e)
    requires q in s.maps && s.maps[q] == s.waits[e.p].key
    ensures !AllShare(Next(s, e))
  {
    var r := Next(s, e);
    assert r.maps[q] == r.maps[e.p];
    assert Used(s, Waiting(e.p)) && Used(s, InTable(s.maps[q])) && (q in s.late ==> Used(s, AtLate(q)));
  }

  lemma {:induction false} NotLate(ss: seq<State>, es: seq<Step>, n: nat)
    requires Run(ss, es) && Good(ss[0]) && ss[0].late == {} && n <= |es|
    requires forall i :: 0 <= i < n ==> !Overtaken(ss[i], es[i])
    ensures Good(ss[n]) && ss[n].late == {}
  {
    hide Good;
    if n > 0 {
      NotLate(ss, es, n - 1);
      GoodStep(ss[n - 1], es[n - 1]);
    }
  }

  /** In every run the mappings of a key always lead to one page exactly when no fault is overtaken. */
  lemma SharedUnlessOvertaken(ss: seq<State>, es: seq<Step>)
    requires Run(ss, es) && Good(ss[0]) && ss[0].late == {}
    ensures (forall n :: 0 <= n <= |es| ==> AllShare(ss[n])) <==> forall i :: 0 <= i < |es| ==> !Overtaken(ss[i], es[i])
  {
    if forall i :: 0 <= i < |es| ==> !Overtaken(ss[i], es[i]) {
      forall n | 0 <= n <= |es|
        ensures AllShare(ss[n])
      {
        NotLate(ss, es, n);
      }
    } else {
      var i :| 0 <= i < |es| && Overtaken(ss[i], es[i]);
      GoodRun(ss, es, i);
      var q := Mapping(ss[i], ss[i].waits[es[i].p].key);
      OvertakenSplits(ss[i], es[i], q);
      assert !AllShare(ss[i + 1]);
    }
  }

  /** A place where a key of the registry is mapped. */
  ghost function Mapping(s: State, k: Key): (q: Place)
    requires Good(s) && k in s.table
    ensures q in s.maps && s.maps[q] == k
  {
    assert PlacesOf(s.maps, k) != {};
    var q :| q in PlacesOf(s.maps, k);
    q
  }

  /** Two processes fault on the same page of a file before either has entered its page, and unmap it. */
  function TwoSteps(k: Key): (es: seq<Step>)
    ensures |es| == 6
  {
    var a, b := Place(1, 0), Place(2, 0);
    [Looks(a, k, 1), Looks(b, k, 2), Finishes(a), Finishes(b), Leaves(a), Leaves(b)]
  }

  function TwoStates(k: Key, n: nat): (s: State)
    requires n <= 6
  {
    var a, b := Place(1, 0), Place(2, 0);
    if n == 0 then State(map[], map[], map[], {1, 2}, map[], {}, {})
    else if n == 1 then State(map[], map[], map[], {2}, map[a := Wait(k, 1)], {}, {})
    else if n == 2 then State(map[], map[], map[], {}, map[a := Wait(k, 1), b := Wait(k, 2)], {}, {})
    else if n == 3 then State(map[k := Shared(1, 1)], map[a := k], map[a := 1], {}, map[b := Wait(k, 2)], {}, {})
    else if n == 4 then State(map[k := Shared(1, 2)], map[a := k, b := k], map[a := 1, b := 2], {}, map[], {b}, {})
    else if n == 5 then State(map[k := Shared(1, 1)], map[b := k], map[b := 2], {}, map[], {b}, {})
    else State(map[], map[], map[], {1}, map[], {}, {2})
  }

  lemma TwoLook(k: Key, n: nat)
    requires n < 2
    ensures Enabled(TwoStates(k, n), TwoSteps(k)[n])
    ensures Next(TwoStates(k, n), TwoSteps(k)[n]) == TwoStates(k, n + 1)
  {
    var s, r := TwoStates(k, n + 1), Next(TwoStates(k, n), TwoSteps(k)[n]);
    assert r.table == s.table && r.maps == s.maps && r.ptes == s.ptes && r.waits == s.waits;
  }

  lemma TwoFinish(k: Key, n: nat)
    requires 2 <= n < 4
    ensures Enabled(TwoStates(k, n), TwoSteps(k)[n])
    ensures Next(TwoStates(k, n), TwoSteps(k)[n]) == TwoStates(k, n + 1)
  {
    var s, r := TwoStates(k, n + 1), Next(TwoStates(k, n), TwoSteps(k)[n]);
    assert r.table == s.table && r.maps == s.maps && r.ptes == s.ptes && r.waits == s.waits;
  }

  lemma TwoLeave(k: Key, n: nat)
    requires 4 <= n < 6
    ensures Enabled(TwoStates(k, n), TwoSteps(k)[n])
    ensures Next(TwoStates(k, n), TwoSteps(k)[n]) == TwoStates(k, n + 1)
  {
    var s, r := TwoStates(k, n + 1), Next(TwoStates(k, n), TwoSteps(k)[n]);
    assert r.table == s.table && r.maps == s.maps && r.ptes == s.ptes && r.waits == s.waits;
  }

  /** They get different pages, and when both have unmapped theirs the second page is lost. */
  lemma TwoFaults(k: Key) returns (ss: seq<State>)
    ensures Run(ss, TwoSteps(k)) && Good(ss[0]) && ss[0] == State(map[], map[], map[], {1, 2}, map[], {}, {})
    ensures ss[4].maps == map[Place(1, 0) := k, Place(2, 0) := k]
    ensures ss[4].ptes == map[Place(1, 0) := 1, Place(2, 0) := 2]
    ensures ss[6].maps == map[] && ss[6].table == map[] && ss[6].free == {1} && ss[6].lost == {2}
  {
    hide Next, Enabled;
    ss := seq(7, n requires 0 <= n < 7 => TwoStates(k, n));
    forall n | 0 <= n < 6
      ensures Enabled(ss[n], TwoSteps(k)[n]) && ss[n + 1] == Next(ss[n], TwoSteps(k)[n])
    {
      if n < 2 {
        TwoLook(k, n);
      } else if n < 4 {
        TwoFinish(k, n);
      } else {
        TwoLeave(k, n);
      }
    }
  }

  class Registry {
    var buckets: seq<Chain>
    var ptes: map<Place, int>
    var free: set<int>
    /** Memory for entries and page tables never runs short; without it either may fail at any time. */
    const room: bool
    ghost var table: Table
    ghost var maps: map<Place, Key>

    ghost predicate Valid()
      reads this
    {
      Refines(buckets, table) && Pages(table, maps, ptes, free) && Settled(table, maps)
    }

    constructor (free: set<int>, room: bool)
      requires 0 !in free
      ensures Valid() && table == map[] && maps == map[] && this.free == free
    {
      buckets, ptes, table, maps := seq(SHASH, _ => []), map[], map[], map[];
      this.free, this.room := free, room;
    }

    /** The position of a key in its chain, or the end of the chain. */
    method Lookup(k: Key) returns (h: int, i: int)
      requires Refines(buckets, table)
      ensures |buckets| == SHASH && h == Hash(k) && 0 <= i <= |buckets[h]| && (k in table <==> i < |buckets[h]|)
      ensures i < |buckets[h]| ==> buckets[h][i] == Entry(k, table[k].pa, table[k].count)
    {
      h, i := Hash(k), 0;
      ghost var chain := buckets[h];
      assert ChainOk(chain, h, table);
      while i < |buckets[h]|
        invariant 0 <= i <= |chain| && chain == buckets[h] && forall j :: 0 <= j < i ==> chain[j].key != k
      {
        if buckets[h][i].key == k {
          return;
        }
        i := i + 1;
      }
      assert !Has(chain, k);
    }

    /** One more reference to `k`: to the entry there is, or to a new one with page `pa`, if there is memory for it. */
    method GetOrCreate(k: Key, pa: int) returns (ok: bool)
      requires Refines(buckets, table)
      modifies this`buckets, this`table
      ensures Refines(buckets, table) && (k in old(table) || room ==> ok)
      ensures table == if ok then Referenced(old(table), k, pa) else old(table)
    {
      hide Refines;
      var h, i := Lookup(k);
      if i < |buckets[h]| {
        var e := buckets[h][i];
        buckets := buckets[h := buckets[h][i := e.(refcnt := e.refcnt + 1)]];
        table := Referenced(table, k, pa);
        Recounted(old(buckets), old(table), h, i, k, e.refcnt + 1, buckets, table);
        return true;
      }
      ok := *;
      ok := ok || room;
      if ok {
        buckets := buckets[h := [Entry(k, pa, 1)] + buckets[h]];
        table := Referenced(table, k, pa);
        Inserted(old(buckets), old(table), Entry(k, pa, 1), h, buckets, table);
      }
    }

    /** One reference less to `k`. With the last one the entry goes and its page is freed. */
    method Decref(k: Key)
      requires Refines(buckets, table) && (k in table ==> table[k].count > 0)
      modifies this`buckets, this`table, this`free
      ensures Refines(buckets, table)
      ensures table == if k in old(table) then Dereferenced(old(table), k) else old(table)
      ensures free == old(free) + if k in old(table) && old(table)[k].count == 1 then {old(table)[k].pa} else {}
    {
      hide Refines;
      var h, i := Lookup(k);
      if i < |buckets[h]| {
        var e := buckets[h][i];
        buckets := buckets[h := buckets[h][i := e.(refcnt := e.refcnt - 1)]];
        ghost var buckets1, table1 := buckets, table[k := Shared(e.pa, e.refcnt - 1)];
        Recounted(old(buckets), old(table), h, i, k, e.refcnt - 1, buckets1, table1);
        table := Dereferenced(table, k);
        if e.refcnt - 1 == 0 {
          buckets := buckets[h := Without(buckets[h], i)];
          free := free + {e.pa};
          assert table == table1 - {k};
          Removed(buckets1, table1, h, i, k, buckets, table);
        }
      }
    }

    // ----- Faults and unmaps -----

    /** A fault at place `p`, where the file shows `k`: the page that all mappings of `k` share, brought into being by
        the first. 0 means that memory ran out; then nothing has changed. `mem` is the page that kalloc has to give, 0
        if none. */
    method Fault(p: Place, k: Key, mem: int) returns (pa: int)
      requires Valid() && (if free == {} then mem == 0 else mem in free)
      modifies this
      ensures Valid() && (room && (k in old(table) || mem != 0) ==> pa != 0)
      ensures p in old(ptes) ==> unchanged(this) && pa == ptes[p]
      ensures pa == 0 ==> table == old(table) && maps == old(maps) && ptes == old(ptes) && free == old(free)
      ensures p !in old(ptes) && pa != 0 ==>
              maps == old(maps)[p := k] && ptes == old(ptes)[p := pa] && table == Referenced(old(table), k, pa)
      ensures p !in old(ptes) && pa != 0 ==>
                if k in old(table) then pa == old(table)[k].pa && free == old(free)
                else pa == mem && free == old(free) - {mem}
    {
      hide Refines, Settled;
      if p in ptes {
        return ptes[p];
      }
      var h, i := Lookup(k);
      if i < |buckets[h]| {
        pa := FaultAgain(p, k, buckets[h][i].pa);
      } else {
        pa := FaultFirst(p, k, mem);
      }
    }

    /** A fault on `k` when it has a page already. */
    method FaultAgain(p: Place, k: Key, page: int) returns (pa: int)
      requires Valid() && p !in ptes && k in table && page == table[k].pa
      modifies this
      ensures Valid() && free == old(free) && (room ==> pa != 0)
      ensures pa == 0 ==> table == old(table) && maps == old(maps) && ptes == old(ptes)
      ensures pa != 0 ==> pa == page && maps == old(maps)[p := k] && ptes == old(ptes)[p := pa]
      ensures pa != 0 ==> table == Referenced(old(table), k, pa)
    {
      hide Refines, Settled;
      ghost var free0, table0 := free, table;
      var ok := GetOrCreate(k, page);
      pa := Attach(p, k, page, table0, free0);
    }

    /** The first fault on `k`. */
    method FaultFirst(p: Place, k: Key, mem: int) returns (pa: int)
      requires Valid() && p !in ptes && k !in table && (mem == 0 || mem in free)
      modifies this
      ensures Valid() && (room && mem != 0 ==> pa != 0)
      ensures pa == 0 ==> table == old(table) && maps == old(maps) && ptes == old(ptes) && free == old(free)
      ensures pa != 0 ==> pa == mem && maps == old(maps)[p := k] && ptes == old(ptes)[p := pa]
      ensures pa != 0 ==> table == Referenced(old(table), k, pa)
      ensures pa != 0 ==> free == old(free) - {mem}
    {
      hide Refines, Settled;
      if mem == 0 {
        return 0;
      }
      ghost var free0, table0 := free, table;
      free := free - {mem};
      var ok := GetOrCreate(k, mem);
      if ok {
        pa := Attach(p, k, mem, table0, free0);
      } else {
        free := free + {mem};
        assert free == free0;
        pa := 0;
      }
    }

    /** Map `p` to the page of `k`, which has been referenced for it; if that fails, take the reference back. */
    method Attach(p: Place, k: Key, pa: int, ghost table0: Table, ghost free0: set<int>) returns (r: int)
      requires Refines(buckets, table) && table == Referenced(table0, k, pa) && p !in ptes
      requires Pages(table0, maps, ptes, free0) && Settled(table0, maps)
      requires if k in table0 then pa == table0[k].pa && free == free0 else pa in free0 && free == free0 - {pa}
      modifies this
      ensures Valid() && (r == 0 || r == pa) && (room ==> r == pa)
      ensures r == 0 ==> table == table0 && maps == old(maps) && ptes == old(ptes) && free == free0
      ensures r != 0 ==> maps == old(maps)[p := k] && ptes == old(ptes)[p := pa]
      ensures r != 0 ==> table == old(table) && free == old(free)
    {
      hide Refines;
      CountsUp(table0, maps, k, pa);
      var mapped: bool := *;
      if mapped || room {
        Map(p, k, pa, table0, free0);
        r := pa;
      } else {
        Undone(table0, k, pa);
        Decref(k);
        assert free == free0;
        r := 0;
      }
    }

    method Map(p: Place, k: Key, pa: int, ghost table0: Table, ghost free0: set<int>)
      requires Refines(buckets, table) && table == Referenced(table0, k, pa) && p !in ptes && OneOver(table, maps, k)
      requires Pages(table0, maps, ptes, free0)
      requires if k in table0 then pa == table0[k].pa && free == free0 else pa in free0 && free == free0 - {pa}
      modifies this`ptes, this`maps
      ensures Valid() && maps == old(maps)[p := k] && ptes == old(ptes)[p := pa]
    {
      hide Refines;
      ghost var maps1, t := maps, table;
      CountsMapped(t, maps1, k, p);
      PagesMapped(table0, maps1, ptes, free0, k, pa, p, t, free);
      ptes := ptes[p := pa];
      maps := maps[p := k];
    }

    /** Remove the mapping at place `p`, where the file shows `k`. The page is freed exactly when this was the last
        place where `k` was mapped. */
    method Unmap(p: Place, k: Key)
      requires Valid() && (p in maps ==> maps[p] == k)
      modifies this
      ensures Valid() && ptes == old(ptes) - {p} && maps == old(maps) - {p}
      ensures p !in old(maps) ==> table == old(table) && free == old(free)
      ensures p in old(maps) ==> old(maps)[p] in old(table)
      ensures p in old(maps) ==> free == old(free) + if PlacesOf(maps, k) == {} then {old(table)[k].pa} else {}
    {
      hide Refines;
      var ptes1 := ptes - {p};
      ghost var t, maps1, free1 := table, maps - {p}, free;
      if p in ptes {
        CountsUnmapped(t, maps, k, p);
        CountsDown(t, maps1, k);
        LastGone(t, maps1, k);
        Decref(k);
        PagesUnmapped(t, maps, ptes, free1, k, p, table, free);
      } else {
        assert ptes1 == ptes && maps1 == maps;
      }
      ptes, maps := ptes1, maps1;
    }
  }
}
