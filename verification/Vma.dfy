/** The mapped areas of a process: mmap places a new area at the end of those before it, and munmap takes pages away and
    trims the area. Addresses are 64-bit and wrap around. */
module Vma {
  import opened Params

  const NVMA := 16
  const MMAPTOP := 0x8000_0000
  const U64 := 0x1_0000_0000_0000_0000
  /** What mmap returns on failure. */
  const FAILED := U64 - 1

  datatype Area = Area(valid: bool, start: int, end: int, len: int, prot: int, flags: int, file: int, offset: int)

  const EMPTY := Area(false, 0, 0, 0, 0, 0, 0, 0)

  function RoundUp(a: int): (r: int)
    requires 0 <= a < U64
    ensures a <= U64 - PGSIZE ==> a <= r < a + PGSIZE && r % PGSIZE == 0
  {
    (a + PGSIZE - 1) % U64 / PGSIZE * PGSIZE
  }

  // ----- Discipline -----

  predicate Aligned(a: int) {
    a % PGSIZE == 0
  }

  /** A valid area is a non-empty page-aligned range inside [MMAPBASE, cur). */
  predicate Proper(v: Area, cur: int) {
    v.valid ==> MMAPBASE <= v.start < v.end <= cur && Aligned(v.start) && Aligned(v.end) && v.len == v.end - v.start
  }

  predicate Apart(v: Area, w: Area) {
    v.valid && w.valid ==> v.end <= w.start || w.end <= v.start
  }

  ghost predicate Disciplined(areas: seq<Area>, cur: int) {
    && |areas| == NVMA && MMAPBASE <= cur < MMAPTOP && Aligned(cur)
    && (forall i :: 0 <= i < NVMA ==> Proper(areas[i], cur))
    && (forall i, j :: 0 <= i < j < NVMA ==> Apart(areas[i], areas[j]))
  }

  // ----- mmap -----

  /** The bits MAP_SHARED of the flags and PROT_WRITE of the protection. */
  predicate IsShared(flags: int) {
    flags % 2 == 1
  }

  predicate MayWrite(prot: int) {
    prot / 2 % 2 == 1
  }

  /** Where an area of `len` bytes that starts at `cur` ends. */
  function AreaEnd(cur: int, len: int): (e: int)
    requires 0 <= cur < U64
  {
    RoundUp((cur + len) % U64)
  }

  /** The area mmap sets up. */
  function NewArea(cur: int, len: int, prot: int, flags: int, file: int): (v: Area)
    requires 0 <= cur < U64
  {
    var e := AreaEnd(cur, len);
    Area(true, cur, e, e - cur, prot, flags, file, 0)
  }

  /** Setting up an area in a free slot keeps the discipline exactly when its length is positive. */
  lemma MmapDiscipline(areas: seq<Area>, cur: int, i: int, len: int, prot: int, flags: int, file: int)
    requires Disciplined(areas, cur) && 0 <= i < NVMA && !areas[i].valid && -0x8000_0000 <= len < 0x8000_0000 &&
             len != 0
    requires AreaEnd(cur, len) < MMAPTOP
    ensures Disciplined(areas[i := NewArea(cur, len, prot, flags, file)], AreaEnd(cur, len)) <==> len > 0
  {
    var v, e := NewArea(cur, len, prot, flags, file), AreaEnd(cur, len);
    var areas' := areas[i := v];
    if len > 0 {
      assert cur < e && Aligned(e) && Proper(v, e);
      assert forall j :: 0 <= j < NVMA && j != i ==> Proper(areas[j], cur) && Proper(areas'[j], e);
    } else {
      assert e <= cur;
      assert !Proper(areas'[i], e);
    }
  }

  /** The new area shows the file from the offset asked for exactly when that is 0. */
  lemma MmapShowsFrom(cur: int, len: int, prot: int, flags: int, file: int, offset: int)
    requires 0 <= cur < MMAPTOP && 0 < len < 0x8000_0000 && AreaEnd(cur, len) < MMAPTOP && 0 <= offset < U64
    ensures ShowsFrom(NewArea(cur, len, prot, flags, file), offset) <==> offset == 0
  {
    var v := NewArea(cur, len, prot, flags, file);
    assert v.start < v.end && FileOffset(v, v.start) == 0;
  }

  // ----- munmap -----

  /** The area covers the range from `addr` to `end`. */
  predicate Covers(v: Area, addr: int, end: int) {
    v.valid && v.start <= addr && v.end >= end
  }

  /** The area after [addr, end) has been taken away: gone, trimmed at the front or the back, or, with a hole in the
      middle, as it was. */
  function Trimmed(v: Area, addr: int, end: int): (r: Area) {
    if v.start == addr && v.end == end then v.(valid := false, len := 0)
    else if v.start == addr && end < v.end then v.(offset := (v.offset + end - addr) % U64, start := end,
                                                   len := v.end - end)
    else if v.end == end && addr > v.start then v.(end := addr, len := addr - v.start)
    else v
  }

  /** The place in the file that an address of the area shows. */
  function FileOffset(v: Area, a: int): (o: int) {
    (v.offset + (a - v.start)) % U64
  }

  /** Every address of the area shows the file at its distance from the start, counted from `offset`. */
  ghost predicate ShowsFrom(v: Area, offset: int) {
    forall a :: v.start <= a < v.end ==> FileOffset(v, a) == (offset + (a - v.start)) % U64
  }

  /** Whatever is taken away, every address that remains shows the same place of the file. */
  lemma TrimKeepsOffsets(v: Area, addr: int, end: int, a: int)
    requires Covers(v, addr, end) && Trimmed(v, addr, end).valid &&
             Trimmed(v, addr, end).start <= a < Trimmed(v, addr, end).end
    ensures FileOffset(Trimmed(v, addr, end), a) == FileOffset(v, a)
  {
    if v.start == addr && end < v.end {
      var x, y := v.offset + end - addr, a - end;
      assert (x % U64 + y) % U64 == (x + y) % U64;
    }
  }

  /** Address `a` belongs to the area. */
  predicate In(v: Area, a: int) {
    v.valid && v.start <= a < v.end
  }

  /** The request touches an end of the area; otherwise it makes a hole in the middle. */
  predicate Touches(v: Area, addr: int, end: int) {
    v.start == addr || v.end == end
  }

  /** What a request for [addr, end) makes of the area `v` that covers it: a request of positive length takes just these
      addresses out of the area if it touches an end, and leaves the area as it was if not; a negative one adds the
      addresses between. What stays shows the same place of the same file, with the same permissions. */
  ghost predicate TakenAway(v: Area, w: Area, addr: int, end: int) {
    && (!Touches(v, addr, end) ==> w == v)
    && (Touches(v, addr, end) && addr < end ==> forall a :: In(w, a) <==> In(v, a) && !(addr <= a < end))
    && (Touches(v, addr, end) && end < addr && v.start < v.end ==>
          forall a :: In(w, a) <==> In(v, a) || end <= a < addr)
    && (w.valid ==> w.prot == v.prot && w.flags == v.flags && w.file == v.file)
    && (w.valid && v.len == v.end - v.start ==> w.len == w.end - w.start)
    && (forall a :: In(w, a) ==> FileOffset(w, a) == FileOffset(v, a))
  }

  lemma TrimTakesAway(v: Area, addr: int, end: int)
    requires Covers(v, addr, end) && addr != end
    ensures TakenAway(v, Trimmed(v, addr, end), addr, end)
  {
    forall a | In(Trimmed(v, addr, end), a)
      ensures FileOffset(Trimmed(v, addr, end), a) == FileOffset(v, a)
    {
      TrimKeepsOffsets(v, addr, end, a);
    }
  }

  /** The area has an address in [lo, hi). */
  predicate Meets(v: Area, lo: int, hi: int) {
    v.valid && lo < hi && v.start < hi && lo < v.end
  }

  /** No area but number `i` has an address in [lo, hi). */
  ghost predicate Clear(areas: seq<Area>, i: int, lo: int, hi: int) {
    forall j :: 0 <= j < |areas| && j != i ==> !Meets(areas[j], lo, hi)
  }

  /** What a request of any length does to the area `i` that covers it, seen from the request: a new start or end is a
      page boundary inside the mapped range, and a stretch that a negative length adds is clear of other areas. */
  ghost predicate TrimsWell(areas: seq<Area>, cur: int, i: int, addr: int, end: int)
    requires 0 <= i < |areas|
  {
    var v := areas[i];
    && (v.start == addr && end < v.end ==> MMAPBASE <= end && Aligned(end) && Clear(areas, i, end, addr))
    && (v.end == end && addr > v.start ==> addr <= cur && Aligned(addr) && Clear(areas, i, end, addr))
  }

  /** For every address and signed length, munmap keeps the discipline exactly when it trims well. */
  lemma MunmapDiscipline(areas: seq<Area>, cur: int, i: int, addr: int, end: int)
    requires Disciplined(areas, cur) && 0 <= i < NVMA && Covers(areas[i], addr, end) && addr != end
    ensures Disciplined(areas[i := Trimmed(areas[i], addr, end)], cur) <==> TrimsWell(areas, cur, i, addr, end)
  {
    var v, w := areas[i], Trimmed(areas[i], addr, end);
    var areas' := areas[i := w];
    assert Proper(v, cur) && areas'[i] == w;
    forall j | 0 <= j < NVMA && j != i
      ensures Apart(areas[j], v) && areas'[j] == areas[j] && Proper(areas[j], cur)
      ensures Apart(areas[j], w) <==> if j < i then Apart(areas'[j], areas'[i]) else Apart(areas'[i], areas'[j])
    {
      assert if j < i then Apart(areas[j], areas[i]) else Apart(areas[i], areas[j]);
    }
    if TrimsWell(areas, cur, i, addr, end) {
      forall j | 0 <= j < NVMA && j != i
        ensures Apart(areas[j], w)
      {
        assert !Meets(areas[j], end, addr) || w == v || !w.valid;
      }
    } else if Disciplined(areas', cur) {
      assert Proper(areas'[i], cur);
      forall j | 0 <= j < NVMA && j != i
        ensures w == v || !w.valid || !Meets(areas[j], end, addr)
      {
      }
    }
  }

  /** A page-aligned request of positive length trims well. */
  lemma AlignedTrimsWell(areas: seq<Area>, cur: int, i: int, addr: int, end: int)
    requires Disciplined(areas, cur) && 0 <= i < NVMA && Covers(areas[i], addr, end)
    requires Aligned(addr) && Aligned(end) && addr < end
    ensures TrimsWell(areas, cur, i, addr, end)
  {
    assert Proper(areas[i], cur);
  }

  // ----- The pages munmap takes away -----

  /** The pages of addr, addr + PGSIZE, ... up to and including `end`. */
  predicate Visited(addr: int, end: int, page: int) {
    addr / PGSIZE <= page && addr + (page - addr / PGSIZE) * PGSIZE <= end
  }

  /** `page` lies in the range that munmap was asked to take away. */
  predicate Asked(addr: int, end: int, page: int) {
    addr <= page * PGSIZE < end
  }

  /** For a page-aligned request, the pages visited are those asked for and the one behind them. */
  lemma VisitedOneMore(addr: int, end: int, page: int)
    requires Aligned(addr) && Aligned(end) && addr <= end
    ensures Visited(addr, end, page) <==> Asked(addr, end, page) || page * PGSIZE == end
  {
  }

  /** So a page-aligned munmap takes away exactly what was asked for if and only if the page behind is not there. */
  lemma MunmapExact(mapped: set<int>, mapped': set<int>, addr: int, end: int)
    requires Aligned(addr) && Aligned(end) && addr < end
    requires forall q :: q in mapped' <==> q in mapped && !Visited(addr, end, q)
    ensures (forall q :: q in mapped' <==> q in mapped && !Asked(addr, end, q)) <==> end / PGSIZE !in mapped
  {
    forall q
      ensures Visited(addr, end, q) <==> Asked(addr, end, q) || q == end / PGSIZE
    {
      VisitedOneMore(addr, end, q);
    }
  }

  /** The end of a range, in 64 bits. */
  function RangeEnd(addr: int, len: int): (e: int)
    ensures 0 <= e < U64 && (0 <= addr + len < U64 ==> e == addr + len)
  {
    (addr + len) % U64
  }

  /** The page loop of munmap panics: a page is there but the address is not one of a page, or the walk leaves the
      address space. */
  ghost predicate Panics(mapped: set<int>, addr: int, end: int) {
    || (!Aligned(addr) && exists q :: q in mapped && Visited(addr, end, q))
    || (addr <= end && addr + (end - addr) / PGSIZE * PGSIZE >= MAXVA)
  }

  ghost predicate FirstFree(areas: seq<Area>, i: int) {
    |areas| == NVMA && 0 <= i < NVMA && !areas[i].valid && forall j :: 0 <= j < i ==> areas[j].valid
  }

  ghost predicate FirstCover(areas: seq<Area>, i: int, addr: int, end: int) {
    |areas| == NVMA && 0 <= i < NVMA && Covers(areas[i], addr, end) && forall j :: 0 <= j < i ==>
        !Covers(areas[j], addr, end)
  }

  // ----- Whole runs -----

  datatype Layout = Layout(areas: seq<Area>, cur: int)

  datatype Call =
    | Map(slot: int, len: int, prot: int, flags: int, file: int)
    | Unmap(slot: int, addr: int, end: int)

  /** A call that succeeds, whatever its arguments, and the layout it leaves. */
  ghost predicate Succeeds(s: Layout, c: Call, r: Layout) {
    match c
    case Map(i, len, prot, flags, file) =>
      && 0 <= s.cur < U64 && FirstFree(s.areas, i) && len != 0 && -0x8000_0000 <= len < 0x8000_0000
      && AreaEnd(s.cur, len) < MMAPTOP &&
          r == Layout(s.areas[i := NewArea(s.cur, len, prot, flags, file)], AreaEnd(s.cur, len))
    case Unmap(i, addr, end) =>
      && FirstCover(s.areas, i, addr, end) && addr != end
      && r == s.(areas := s.areas[i := Trimmed(s.areas[i], addr, end)])
  }

  /** What a call has to be for the layout to stay in order. */
  ghost predicate WellAsked(s: Layout, c: Call) {
    match c
    case Map(_, len, _, _, _) => len > 0
    case Unmap(i, addr, end) => 0 <= i < |s.areas| && TrimsWell(s.areas, s.cur, i, addr, end)
  }

  ghost predicate InOrder(s: Layout) {
    Disciplined(s.areas, s.cur)
  }

  lemma CallKeepsOrder(s: Layout, c: Call, r: Layout)
    requires InOrder(s) && Succeeds(s, c, r)
    ensures InOrder(r) <==> WellAsked(s, c)
  {
    match c
    case Map(i, len, prot, flags, file) => MmapDiscipline(s.areas, s.cur, i, len, prot, flags, file);
    case Unmap(i, addr, end) => MunmapDiscipline(s.areas, s.cur, i, addr, end);
  }

  ghost predicate Run(states: seq<Layout>, calls: seq<Call>) {
    |states| == |calls| + 1 && forall k :: 0 <= k < |calls| ==> Succeeds(states[k], calls[k], states[k + 1])
  }

  /** In a run of successful calls from a layout in order, the valid areas are page-aligned and disjoint and lie between
      MMAPBASE and the end of the areas, which stays below MMAPTOP, as long as every call so far was well asked. */
  lemma {:induction false} OrderKept(states: seq<Layout>, calls: seq<Call>, k: nat)
    requires Run(states, calls) && k <= |calls| && InOrder(states[0])
    requires forall i :: 0 <= i < k ==> WellAsked(states[i], calls[i])
    ensures InOrder(states[k])
  {
    if k > 0 {
      OrderKept(states, calls, k - 1);
      CallKeepsOrder(states[k - 1], calls[k - 1], states[k]);
    }
  }

  /** The whole run stays in order exactly when every call is well asked. */
  lemma RunDisciplined(states: seq<Layout>, calls: seq<Call>)
    requires Run(states, calls) && InOrder(states[0])
    ensures (forall k :: 0 <= k <= |calls| ==> InOrder(states[k])) <==> (forall k :: 0 <= k < |calls| ==>
                                                                         WellAsked(states[k], calls[k]))
  {
    if forall k :: 0 <= k < |calls| ==> WellAsked(states[k], calls[k]) {
      forall k | 0 <= k <= |calls|
        ensures InOrder(states[k])
      {
        OrderKept(states, calls, k);
      }
    } else {
      var k :| 0 <= k < |calls| && !WellAsked(states[k], calls[k]);
      if InOrder(states[k]) {
        CallKeepsOrder(states[k], calls[k], states[k + 1]);
      }
    }
  }

  datatype Outcome = Returned(value: int) | Panic

  lemma TooHigh(addr: int, end: int, n: nat)
    requires addr + n * PGSIZE <= end && addr + n * PGSIZE >= MAXVA
    ensures addr + (end - addr) / PGSIZE * PGSIZE >= MAXVA
  {
    assert n <= (end - addr) / PGSIZE;
  }

  lemma NotTooHigh(addr: int, end: int, n: nat)
    requires addr + n * PGSIZE > end && (n > 0 ==> addr + (n - 1) * PGSIZE <= end && addr + (n - 1) * PGSIZE < MAXVA)
    ensures addr <= end ==> addr + (end - addr) / PGSIZE * PGSIZE < MAXVA
  {
    if addr <= end {
      assert (end - addr) / PGSIZE == n - 1;
    }
  }

  class Process {
    var areas: seq<Area>
    var cur: int
    /** The virtual pages that are mapped. */
    var mapped: set<int>

    ghost predicate Valid()
      reads this
    {
      |areas| == NVMA && 0 <= cur < MMAPTOP
    }

    constructor ()
      ensures Valid() && Disciplined(areas, cur) && areas == seq(NVMA, _ => EMPTY) && cur == MMAPBASE && mapped == {}
    {
      areas, cur, mapped := seq(NVMA, _ => EMPTY), MMAPBASE, {};
    }

    /** Set up an area for `len` bytes of a file at the end of the areas so far. Nothing is mapped yet. The offset only
        has to be a multiple of the page size: the area always shows the file from its beginning. */
    method Mmap(len: int, prot: int, flags: int, file: int, writable: bool, offset: int) returns (r: int)
      requires Valid() && -0x8000_0000 <= len < 0x8000_0000 && 0 <= offset < U64
      modifies this`areas, this`cur
      ensures Valid()
      ensures r == FAILED <==> || len == 0 || !Aligned(offset) || (IsShared(flags) && !writable && MayWrite(prot))
                               || AreaEnd(old(cur), len) >= MMAPTOP || forall i :: 0 <= i < NVMA ==> old(areas)[i].valid
      ensures r == FAILED ==> unchanged(this)
      ensures r != FAILED ==> r == old(cur) && cur == AreaEnd(old(cur), len) &&
                              exists i :: FirstFree(old(areas), i) && areas ==
                                  old(areas)[i := Area(true, r, cur, cur - r, prot, flags, file, 0)]
      ensures r != FAILED && len > 0 ==> Aligned(cur) && old(cur) + len <= cur < old(cur) + len + PGSIZE
      ensures Disciplined(old(areas), old(cur)) && r != FAILED ==> (Disciplined(areas, cur) <==> len > 0)
    {
      if len == 0 || offset % PGSIZE != 0 {
        return FAILED;
      }
      if IsShared(flags) && !writable && MayWrite(prot) {
        return FAILED;
      }
      var start, end := cur, AreaEnd(cur, len);
      if end >= MMAPTOP {
        return FAILED;
      }
      var i := 0;
      while i < NVMA && areas[i].valid
        invariant 0 <= i <= NVMA && forall j :: 0 <= j < i ==> areas[j].valid
      {
        i := i + 1;
      }
      if i == NVMA {
        return FAILED;
      }
      if Disciplined(areas, cur) {
        MmapDiscipline(areas, cur, i, len, prot, flags, file);
      }
      assert FirstFree(areas, i);
      areas := areas[i := Area(true, start, end, end - start, prot, flags, file, 0)];
      cur := end;
      r := start;
    }

    /** A fault brings a page of an area into being. */
    method Touch(page: int)
      requires Valid()
      modifies this`mapped
      ensures mapped == old(mapped) + {page}
    {
      mapped := mapped + {page};
    }

    /** Take the pages from `addr` on away, one by one, unless that panics. */
    method UnmapPages(addr: int, end: int) returns (panic: bool)
      requires 0 <= addr < U64 && 0 <= end < U64
      modifies this`mapped
      ensures panic <==> Panics(old(mapped), addr, end)
      ensures !panic ==> forall q :: q in mapped <==> q in old(mapped) && !Visited(addr, end, q)
    {
      var i := addr;
      ghost var n, first := 0, addr / PGSIZE;
      while i <= end
        invariant i == addr + n * PGSIZE && n >= 0 && i / PGSIZE == first + n &&
                  (n > 0 ==> i - PGSIZE <= end && i - PGSIZE < MAXVA)
        invariant forall q :: q in mapped <==> q in old(mapped) && !(first <= q < first + n)
        invariant !Aligned(addr) ==> mapped == old(mapped)
        decreases end - i
      {
        if i >= MAXVA {
          TooHigh(addr, end, n);
          return true;
        }
        var q := i / PGSIZE;
        if q in mapped {
          if i % PGSIZE != 0 {
            assert Visited(addr, end, q);
            return true;
          }
          mapped := mapped - {q};
        }
        i := i + PGSIZE;
        n := n + 1;
      }
      NotTooHigh(addr, end, n);
      panic := false;
    }

    /** Take [addr, addr + len) away from the area that covers it. The result is -1, and nothing changes, when no area
        does. */
    method Munmap(addr: int, len: int) returns (r: Outcome)
      requires Valid() && 0 <= addr < U64 && -0x8000_0000 <= len < 0x8000_0000
      modifies this`areas, this`mapped
      ensures Valid()
      ensures r == Returned(-1) <==> len == 0 || forall i :: 0 <= i < NVMA ==>
              !Covers(old(areas)[i], addr, RangeEnd(addr, len))
      ensures r == Returned(-1) ==> unchanged(this)
      ensures r != Returned(-1) ==> (r == Panic <==> Panics(old(mapped), addr, RangeEnd(addr, len)))
      ensures r != Returned(-1) && r != Panic ==> r == Returned(0)
      ensures r == Returned(0) ==>
                exists i :: FirstCover(old(areas), i, addr, RangeEnd(addr, len)) &&
                            areas == old(areas)[i := Trimmed(old(areas)[i], addr, RangeEnd(addr, len))] &&
                            TakenAway(old(areas)[i], areas[i], addr, RangeEnd(addr, len)) &&
                            (Disciplined(old(areas), cur) ==>
                               (Disciplined(areas, cur) <==> TrimsWell(old(areas), cur, i, addr, RangeEnd(addr, len))))
      ensures r == Returned(0) ==> forall q :: q in mapped <==> q in old(mapped) && !Visited(addr, RangeEnd(addr, len),
              q)
    {
      if len == 0 {
        return Returned(-1);
      }
      var end := RangeEnd(addr, len);
      var i := 0;
      while i < NVMA && !Covers(areas[i], addr, end)
        invariant 0 <= i <= NVMA && forall j :: 0 <= j < i ==> !Covers(areas[j], addr, end)
      {
        i := i + 1;
      }
      if i == NVMA {
        return Returned(-1);
      }
      var panic := UnmapPages(addr, end);
      if panic {
        return Panic;
      }
      assert FirstCover(areas, i, addr, end);
      if Disciplined(areas, cur) {
        MunmapDiscipline(areas, cur, i, addr, end);
      }
      TrimTakesAway(areas[i], addr, end);
      areas := areas[i := Trimmed(areas[i], addr, end)];
      r := Returned(0);
    }
  }

  // ----- Runs in which the promises fail -----

  /** The area of one page that mmap sets up at `cur`. */
  function OnePage(cur: int): (v: Area) {
    Area(true, cur, cur + PGSIZE, PGSIZE, 1, 0, 1, 0)
  }

  lemma OnePageIsNew(cur: int)
    requires 0 <= cur < MMAPTOP && Aligned(cur)
    ensures AreaEnd(cur, PGSIZE) == cur + PGSIZE && NewArea(cur, PGSIZE, 1, 0, 1) == OnePage(cur)
  {
  }

  /** An area of one page in a new process. */
  method OneArea() returns (p: Process, a: int)
    ensures fresh(p) && p.Valid() && a == MMAPBASE && p.cur == MMAPBASE + PGSIZE && p.mapped == {}
    ensures p.areas[0] == OnePage(a) && FirstFree(p.areas, 1) && Disciplined(p.areas, p.cur)
  {
    hide AreaEnd, NewArea, Disciplined;
    p := new Process();
    OnePageIsNew(p.cur);
    assert !p.areas[0].valid;
    a := p.Mmap(PGSIZE, 1, 0, 1, false, 0);
  }

  /** Two adjoining areas of one page each in a new process. */
  method TwoAreas() returns (p: Process, a: int, b: int)
    ensures fresh(p) && p.Valid() && a == MMAPBASE && b == MMAPBASE + PGSIZE && p.cur == MMAPBASE + 2 * PGSIZE &&
            p.mapped == {}
    ensures p.areas[0] == OnePage(a) && p.areas[1] == OnePage(b) && Disciplined(p.areas, p.cur)
  {
    hide AreaEnd, NewArea, Disciplined;
    p, a := OneArea();
    OnePageIsNew(p.cur);
    b := p.Mmap(PGSIZE, 1, 0, 1, false, 0);
  }

  /** A run of a new process whose second call, an mmap of negative length, moves the end of the areas down below the
      end of the first one. */
  method NegativeMmapBreaks() returns (p: Process, before: seq<Area>, r: int)
    ensures fresh(p) && p.Valid() && r != FAILED
    ensures Disciplined(before, MMAPBASE + PGSIZE) && before[0].valid && before[0].end == MMAPBASE + PGSIZE
    ensures p.cur == MMAPBASE && p.areas[0] == before[0] && !Disciplined(p.areas, p.cur)
  {
    p, r := OneArea();
    before := p.areas;
    assert AreaEnd(p.cur, -PGSIZE) == MMAPBASE;
    r := p.Mmap(-PGSIZE, 1, 0, 1, false, 0);
  }

  /** A run of a new process whose last call, a munmap of negative length, lays an area over another one. */
  method NegativeUnmapBreaks() returns (p: Process, before: seq<Area>, addr: int, r: Outcome)
    ensures fresh(p) && p.Valid() && r == Returned(0) && 0 <= addr < U64
    ensures Disciplined(before, p.cur) && FirstCover(before, 0, addr, RangeEnd(addr, -PGSIZE))
    ensures p.areas == before[0 := Trimmed(before[0], addr, RangeEnd(addr, -PGSIZE))] && !Disciplined(p.areas, p.cur)
  {
    var a, b;
    p, a, b := TwoAreas();
    assert Covers(p.areas[0], a, RangeEnd(a, PGSIZE));
    r := p.Munmap(a, PGSIZE);
    assert !p.areas[0].valid && p.areas[1] == OnePage(b);
    OnePageIsNew(p.cur);
    addr := p.Mmap(PGSIZE, 1, 0, 1, false, 0);
    assert addr == MMAPBASE + 2 * PGSIZE && p.areas[0] == OnePage(addr);
    before := p.areas;
    ghost var end := RangeEnd(addr, -PGSIZE);
    assert end == b && Covers(before[0], addr, end);
    r := p.Munmap(addr, -PGSIZE);
    assert p.areas[0].start == b && p.areas[1] == before[1];
    assert !Apart(p.areas[0], p.areas[1]);
  }

  /** A run of a new process with two adjoining areas whose pages are all there: unmapping the first area takes a page
      of the second. */
  method MunmapTakesNeighbour() returns (p: Process, first: int, second: int, r: Outcome)
    ensures fresh(p) && p.Valid() && r == Returned(0) && Disciplined(p.areas, p.cur)
    ensures p.areas[1].valid && p.areas[1].start == second && second / PGSIZE !in p.mapped
    ensures !Asked(first, RangeEnd(first, PGSIZE), second / PGSIZE)
  {
    p, first, second := TwoAreas();
    p.Touch(first / PGSIZE);
    p.Touch(second / PGSIZE);
    ghost var end := RangeEnd(first, PGSIZE);
    assert Covers(p.areas[0], first, end) && TrimsWell(p.areas, p.cur, 0, first, end);
    assert Visited(first, end, second / PGSIZE);
    r := p.Munmap(first, PGSIZE);
  }

  /** A new process that maps a file from its second page sees its first page. */
  method OffsetIgnored() returns (p: Process, r: int)
    ensures fresh(p) && p.Valid() && r != FAILED && p.areas[0].valid && p.areas[0].start == r
    ensures FileOffset(p.areas[0], r) == 0 && !ShowsFrom(p.areas[0], PGSIZE)
  {
    p := new Process();
    r := p.Mmap(PGSIZE, 1, 0, 1, false, PGSIZE);
    assert p.areas[0] == NewArea(r, PGSIZE, 1, 0, 1);
    MmapShowsFrom(r, PGSIZE, 1, 0, 1, PGSIZE);
  }
}
