/** Copying between the kernel and user memory, page by page, with pages that come into being on the way.

    The page table appears as the partial map it stands for. `files` says what the memory-mapped areas of the
    process would show: for each page of a mapped area, the bytes a fault would read in and whether the area may be
    written. `room` says that memory for page tables never runs short; without it mapping a page may fail at any
    time. */
module UserCopy {
  import opened FsBlocks
  import opened Params

  type Page = b: seq<Byte> | |b| == PGSIZE witness seq(PGSIZE, _ => 0)

  /** A valid entry for a page of user memory. */
  datatype Entry = Entry(frame: int, user: bool, write: bool)
  datatype Fill = Fill(bytes: Page, write: bool)

  type Pages = map<int, Entry>
  type Frames = map<int, Page>
  type Files = map<int, Fill>

  function Zeros(): (r: Page)
    ensures forall i :: 0 <= i < PGSIZE ==> r[i] == 0
  {
    seq(PGSIZE, _ => 0)
  }

  /** What the process sees on page `p`. A page not there yet shows what a fault would put there. */
  function PageView(pages: Pages, frames: Frames, files: Files, p: int): (r: Page) {
    if p in pages && pages[p].frame in frames then frames[pages[p].frame]
    else if p !in pages && p in files then files[p].bytes
    else Zeros()
  }

  function ByteAt(pages: Pages, frames: Frames, files: Files, a: int): (b: Byte) {
    PageView(pages, frames, files, a / PGSIZE)[a % PGSIZE]
  }

  /** The bytes at `n` addresses from `a`. */
  function View(pages: Pages, frames: Frames, files: Files, a: int, n: nat): (r: seq<Byte>)
    ensures |r| == n && forall i :: 0 <= i < n ==> r[i] == ByteAt(pages, frames, files, a + i)
  {
    seq<Byte>(n, i => ByteAt(pages, frames, files, a + i))
  }

  /** Page `p` is in [lo, hi], or has no frame that a page there has. */
  ghost predicate Apart(pages: Pages, lo: int, hi: int, p: int) {
    lo <= p <= hi || forall q :: lo <= q <= hi && p in pages && q in pages ==> pages[p].frame != pages[q].frame
  }

  /** Memory shows `w` from address `from` on, and elsewhere what it showed before, on the pages in [lo, hi] and on all
      that share no frame with them. */
  ghost predicate Written(pages: Pages, frames: Frames, pages': Pages, frames': Frames, files: Files, lo: int, hi: int,
                          from: int, w: seq<Byte>) {
    forall a :: Apart(pages', lo, hi, PageOf(a)) ==>
      ByteAt(pages', frames', files, a) ==
      if from <= a < from + |w| then w[a - from] else ByteAt(pages, frames, files, a)
  }

  ghost predicate SameView(pages: Pages, frames: Frames, pages': Pages, frames': Frames, files: Files) {
    forall p :: PageView(pages', frames', files, p) == PageView(pages, frames, files, p)
  }

  /** Pages are only added. */
  ghost predicate PagesGrow(pages: Pages, pages': Pages) {
    forall p :: p in pages ==> p in pages' && pages'[p] == pages[p]
  }

  /** Mapped frames exist, and free ones are not mapped. */
  ghost predicate Ok(pages: Pages, frames: Frames, free: seq<int>) {
    && (forall p :: p in pages ==> pages[p].frame in frames && pages[p].frame !in free && pages[p].frame != 0)
    && (forall i :: 0 <= i < |free| ==> free[i] in frames && free[i] != 0)
    && (forall i, j :: 0 <= i < j < |free| ==> free[i] != free[j])
  }

  /** No two pages in [lo, hi] have the same frame. */
  ghost predicate Unaliased(pages: Pages, lo: int, hi: int) {
    forall p, q :: p in pages && q in pages && lo <= p <= hi && lo <= q <= hi && p != q ==>
      pages[p].frame != pages[q].frame
  }

  lemma ApartBefore(pages: Pages, pages': Pages, lo: int, hi: int, p: int)
    requires PagesGrow(pages, pages') && Apart(pages', lo, hi, p)
    ensures Apart(pages, lo, hi, p)
  {
    if !(lo <= p <= hi) {
      forall q | lo <= q <= hi && p in pages && q in pages
        ensures pages[p].frame != pages[q].frame
      {
        assert pages'[p].frame != pages'[q].frame;
      }
    }
  }

  function PageOf(a: int): (p: int) {
    a / PGSIZE
  }

  /** The process may access all of [lo, hi]; with `write`, it may write there. */
  ghost predicate Accessible(pages: Pages, lo: int, hi: int, write: bool) {
    forall p :: lo <= p <= hi ==> p in pages && pages[p].user && (write ==> pages[p].write)
  }

  /** One more page, after more pages may have come into being. */
  lemma AccessibleOn(pages: Pages, pages': Pages, from: int, a: int, m: nat)
    requires PagesGrow(pages, pages') && Accessible(pages', a / PGSIZE, a / PGSIZE, true)
    requires from <= a && m > 0 && (a + m - 1) / PGSIZE == a / PGSIZE
    requires from < a ==> a % PGSIZE == 0 && Accessible(pages, from / PGSIZE, (a - 1) / PGSIZE, true)
    ensures Accessible(pages', from / PGSIZE, (a + m - 1) / PGSIZE, true)
  {
  }

  function Overwrite(s: Page, o: nat, w: seq<Byte>): (r: Page)
    requires o + |w| <= PGSIZE
    ensures forall i :: 0 <= i < PGSIZE ==> r[i] == if o <= i < o + |w| then w[i - o] else s[i]
  {
    s[..o] + w + s[o + |w|..]
  }

  /** How many of `left` bytes at address `a` lie on the page of `a`. */
  function ChunkLen(a: int, left: nat): (m: nat)
    requires left > 0
    ensures 0 < m <= left && a % PGSIZE + m <= PGSIZE && (m < left ==> (a + m) % PGSIZE == 0)
    ensures (a + m - 1) / PGSIZE == a / PGSIZE
  {
    if left < PGSIZE - a % PGSIZE then left else PGSIZE - a % PGSIZE
  }

  /** Copying into one frame shows on its one page. */
  lemma FrameWritten(pages: Pages, frames: Frames, files: Files, frames': Frames, lo: int, hi: int, a: int,
                     w: seq<Byte>)
    requires var p := PageOf(a); p in pages && pages[p].frame in frames && lo <= p <= hi && Unaliased(pages, lo, hi)
    requires a % PGSIZE + |w| <= PGSIZE
    requires var f := pages[PageOf(a)].frame; frames' == frames[f := Overwrite(frames[f], a % PGSIZE, w)]
    ensures Written(pages, frames, pages, frames', files, lo, hi, a, w)
  {
    var p := PageOf(a);
    forall b | Apart(pages, lo, hi, PageOf(b))
      ensures ByteAt(pages, frames', files, b) == if a <= b < a + |w| then w[b - a] else ByteAt(pages, frames, files, b)
    {
      if PageOf(b) == p {
        assert a <= b < a + |w| <==> a % PGSIZE <= b % PGSIZE < a % PGSIZE + |w|;
      } else {
        assert PageView(pages, frames', files, PageOf(b)) == PageView(pages, frames, files, PageOf(b));
      }
    }
  }

  /** Pages that come into being first make no difference. */
  lemma WrittenAfter(pages: Pages, frames: Frames, pages1: Pages, frames1: Frames, pages2: Pages, frames2: Frames,
                     files: Files, lo: int, hi: int, from: int, w: seq<Byte>)
    requires SameView(pages, frames, pages1, frames1, files) &&
             Written(pages1, frames1, pages2, frames2, files, lo, hi, from, w)
    ensures Written(pages, frames, pages2, frames2, files, lo, hi, from, w)
  {
    forall a
      ensures ByteAt(pages1, frames1, files, a) == ByteAt(pages, frames, files, a)
    {
      assert PageView(pages1, frames1, files, a / PGSIZE) == PageView(pages, frames, files, a / PGSIZE);
    }
  }

  lemma WrittenOn(pages: Pages, frames: Frames, pages1: Pages, frames1: Frames, pages2: Pages, frames2: Frames,
                  files: Files, lo: int, hi: int, from: int, src: seq<Byte>, k: nat, m: nat)
    requires k + m <= |src| && Written(pages, frames, pages1, frames1, files, lo, hi, from, src[..k])
    requires Written(pages1, frames1, pages2, frames2, files, lo, hi, from + k, src[k..k + m])
    requires PagesGrow(pages1, pages2)
    ensures Written(pages, frames, pages2, frames2, files, lo, hi, from, src[..k + m])
  {
    forall a | Apart(pages2, lo, hi, PageOf(a))
      ensures Apart(pages1, lo, hi, PageOf(a))
    {
      ApartBefore(pages1, pages2, lo, hi, PageOf(a));
    }
    hide Apart, ByteAt, PageOf;
  }

  lemma WrittenSame(pages: Pages, frames: Frames, pages1: Pages, frames1: Frames, pages2: Pages, frames2: Frames,
                    files: Files, lo: int, hi: int, from: int, w: seq<Byte>)
    requires Written(pages, frames, pages1, frames1, files, lo, hi, from, w) && PagesGrow(pages1, pages2) &&
             SameView(pages1, frames1, pages2, frames2, files)
    ensures Written(pages, frames, pages2, frames2, files, lo, hi, from, w)
  {
    forall a | Apart(pages2, lo, hi, PageOf(a))
      ensures ByteAt(pages2, frames2, files, a) == ByteAt(pages1, frames1, files, a) &&
              Apart(pages1, lo, hi, PageOf(a))
    {
      ApartBefore(pages1, pages2, lo, hi, PageOf(a));
      assert PageView(pages2, frames2, files, a / PGSIZE) == PageView(pages1, frames1, files, a / PGSIZE);
    }
  }

  /** The bytes read so far, and the next `m` from their page. */
  function Read(ghost pages: Pages, ghost frames: Frames, ghost files: Files, ghost from: int, dst: seq<Byte>,
                page: Page,
                ghost at: int, o: nat, m: nat): (r: seq<Byte>)
    requires dst == View(pages, frames, files, from, |dst|) && at == from + |dst| && o == at % PGSIZE && o + m <= PGSIZE
    requires page == PageView(pages, frames, files, at / PGSIZE)
    ensures |r| == |dst| + m && r == View(pages, frames, files, from, |r|)
  {
    var r := dst + page[o..o + m];
    assert forall i :: |dst| <= i < |r| ==> r[i] == ByteAt(pages, frames, files, from + i) by {
      forall i | |dst| <= i < |r|
        ensures r[i] == ByteAt(pages, frames, files, from + i)
      {
        assert (from + i) / PGSIZE == at / PGSIZE && (from + i) % PGSIZE == o + i - |dst|;
      }
    }
    r
  }

  /** What was written is what is seen. */
  lemma WrittenView(pages: Pages, frames: Frames, pages': Pages, frames': Frames, files: Files, lo: int, hi: int,
                    from: int, w: seq<Byte>)
    requires Written(pages, frames, pages', frames', files, lo, hi, from, w)
    requires lo <= PageOf(from) && PageOf(from + |w| - 1) <= hi
    ensures View(pages', frames', files, from, |w|) == w
  {
    forall i | 0 <= i < |w|
      ensures View(pages', frames', files, from, |w|)[i] == w[i]
    {
      assert Apart(pages', lo, hi, PageOf(from + i));
      assert ByteAt(pages', frames', files, from + i) == w[i];
    }
  }

  /** A fresh frame with the bytes the page showed. */
  lemma Materialised(pages: Pages, frames: Frames, files: Files, free: seq<int>, p: int, e: Entry, bytes: Page,
                     pages': Pages, frames': Frames, free': seq<int>)
    requires Ok(pages, frames, free) && p !in pages && free == [e.frame] + free'
    requires bytes == PageView(pages, frames, files, p)
    requires pages' == pages[p := e] && frames' == frames[e.frame := bytes]
    ensures Ok(pages', frames', free') && SameView(pages, frames, pages', frames', files) && PagesGrow(pages, pages')
    ensures forall lo, hi :: Unaliased(pages, lo, hi) ==> Unaliased(pages', lo, hi)
  {
    assert free[0] == e.frame && forall i :: 0 <= i < |free'| ==> free'[i] == free[i + 1];
    assert e.frame in free && e.frame !in free';
  }

  /** A frame taken from the free list, filled, and put back. */
  lemma PutBack(pages: Pages, frames: Frames, files: Files, free: seq<int>, f: int, bytes: Page, frames': Frames)
    requires Ok(pages, frames, free) && f in free && frames' == frames[f := bytes]
    ensures Ok(pages, frames', free) && SameView(pages, frames, pages, frames', files)
  {
  }

  lemma WrittenStarts(pages: Pages, frames: Frames, files: Files, lo: int, hi: int, a: int, w: seq<Byte>)
    requires w == []
    ensures Written(pages, frames, pages, frames, files, lo, hi, a, w)
  {
  }

  lemma PageInside(a: int, k: nat, n: nat)
    requires k < n
    ensures PageOf(a) <= PageOf(a + k) <= PageOf(a + n - 1)
  {
  }

  lemma GrowSelf(pages: Pages)
    ensures PagesGrow(pages, pages)
  {
  }

  lemma GrowTwice(pages: Pages, pages1: Pages, pages2: Pages)
    requires PagesGrow(pages, pages1) && PagesGrow(pages1, pages2)
    ensures PagesGrow(pages, pages2)
  {
  }

  lemma AccessibleLater(pages: Pages, pages': Pages, lo: int, hi: int, p: int)
    requires PagesGrow(pages, pages') && lo <= p <= hi
    ensures Accessible(pages, lo, hi, true) ==> Accessible(pages', p, p, true)
  {
  }

  class UserMemory {
    var pages: Pages
    var frames: Frames
    var free: seq<int>
    const files: Files
    /** The size of the process and the end of its mapped areas. */
    const sz: int
    const top: int
    const room: bool

    /** A page that is not there yet can be had by a fault: it belongs to the process or to a mapped area it may
        write. */
    predicate Lazy(p: int) {
      if MMAPBASE <= p * PGSIZE <= top then p in files && files[p].write else p * PGSIZE < sz
    }

    /** The page cannot be had for writing (or reading): out of range, not the user's, not to be written, or missing
        with no way to make it. */
    ghost predicate OutOfReach(p: int, write: bool)
      reads this
    {
      || p * PGSIZE >= MAXVA
      || (p in pages && (!pages[p].user || (write && !pages[p].write)))
      || (p !in pages && (!Lazy(p) || free == [] || !room))
    }

    ghost predicate Valid()
      reads this
    {
      && Ok(pages, frames, free) && sz <= MMAPBASE && top < MAXVA
      && (forall p :: p in files ==> MMAPBASE <= p * PGSIZE <= top)
      && (forall p :: p in pages && p in files ==> pages[p].user)
    }

    constructor (pages: Pages, frames: Frames, free: seq<int>, files: Files, sz: int, top: int, room: bool)
      requires Ok(pages, frames, free) && sz <= MMAPBASE && top < MAXVA
      requires forall p :: p in files ==> MMAPBASE <= p * PGSIZE <= top
      requires forall p :: p in pages && p in files ==> pages[p].user
      ensures Valid() && this.pages == pages && this.frames == frames && this.free == free && this.files == files
    {
      this.pages, this.frames, this.free, this.files := pages, frames, free, files;
      this.sz, this.top, this.room := sz, top, room;
    }

    /** The frame of a page the user may access, or 0. */
    method Walkaddr(va: int) returns (f: int)
      requires Valid() && va % PGSIZE == 0
      ensures f != 0 <==> va < MAXVA && va / PGSIZE in pages && pages[va / PGSIZE].user
      ensures f != 0 ==> f == pages[va / PGSIZE].frame
    {
      if va >= MAXVA || va / PGSIZE !in pages || !pages[va / PGSIZE].user {
        return 0;
      }
      f := pages[va / PGSIZE].frame;
    }

    /** Map page `p` to a fresh frame with the given bytes, if there is memory. What the process sees stays the same. */
    method MapFresh(p: int, bytes: Page, write: bool) returns (f: int)
      requires Valid() && p !in pages && bytes == PageView(pages, frames, files, p)
      modifies this`pages, this`frames, this`free
      ensures Valid() && SameView(old(pages), old(frames), pages, frames, files) && PagesGrow(old(pages), pages)
      ensures forall lo, hi :: Unaliased(old(pages), lo, hi) ==> Unaliased(pages, lo, hi)
      ensures if f == 0 then pages == old(pages) && (free == [] || !room)
              else p in pages && pages[p] == Entry(f, true, write)
    {
      if free == [] {
        return 0;
      }
      f := free[0];
      frames := frames[f := bytes];
      var mapped: bool := *;
      if !mapped && !room {
        PutBack(old(pages), old(frames), files, free, f, bytes, frames);
        return 0;
      }
      free := free[1..];
      pages := pages[p := Entry(f, true, write)];
      Materialised(old(pages), old(frames), files, old(free), p, Entry(f, true, write), bytes, pages, frames, free);
    }

    /** Bring a missing page into being. Nothing the process sees changes. */
    method Vmfault(va: int) returns (f: int)
      requires Valid() && va % PGSIZE == 0 && 0 <= va
      modifies this`pages, this`frames, this`free
      ensures Valid() && SameView(old(pages), old(frames), pages, frames, files) && PagesGrow(old(pages), pages)
      ensures forall lo, hi :: Unaliased(old(pages), lo, hi) ==> Unaliased(pages, lo, hi)
      ensures f != 0 ==> va < MAXVA && va / PGSIZE in pages && pages[va / PGSIZE].frame == f
      ensures if f == 0 then pages == old(pages) else pages[va / PGSIZE].user
      ensures f == 0 && va / PGSIZE !in pages ==> !Lazy(va / PGSIZE) || free == [] || !room
      ensures f != 0 && va / PGSIZE !in old(pages) ==> Lazy(va / PGSIZE) && pages[va / PGSIZE].write
    {
      var p := va / PGSIZE;
      if MMAPBASE <= va <= top {
        if p !in files {
          return 0;
        }
        if p in pages {
          return pages[p].frame;
        }
        if !files[p].write {
          return 0;
        }
        f := MapFresh(p, files[p].bytes, true);
        return;
      }
      if va >= sz || p in pages {
        return 0;
      }
      f := MapFresh(p, Zeros(), true);
    }

    /** The frame behind a page, after a fault if need be. */
    method Reach(va: int) returns (f: int)
      requires Valid() && va % PGSIZE == 0 && 0 <= va
      modifies this`pages, this`frames, this`free
      ensures Valid() && SameView(old(pages), old(frames), pages, frames, files) && PagesGrow(old(pages), pages)
      ensures forall lo, hi :: Unaliased(old(pages), lo, hi) ==> Unaliased(pages, lo, hi)
      ensures f != 0 ==> va < MAXVA && va / PGSIZE in pages && pages[va / PGSIZE].frame == f
      ensures f != 0 ==> pages[va / PGSIZE].user && f in frames
      ensures f == 0 ==> OutOfReach(va / PGSIZE, false)
      ensures va < MAXVA && va / PGSIZE in old(pages) && old(pages)[va / PGSIZE].user ==> f != 0
    {
      f := Walkaddr(va);
      if f == 0 {
        f := Vmfault(va);
      }
    }

    /** The part of `copyout` on one page: copy the bytes of `w` that fit. 0 means that the page cannot be written. */
    method CopyOutPage(dst: int, w: seq<Byte>, ghost lo: int, ghost hi: int) returns (m: nat)
      requires Valid() && 0 <= dst && w != [] && lo <= PageOf(dst) <= hi
      modifies this`pages, this`frames, this`free
      ensures Valid() && PagesGrow(old(pages), pages)
      ensures Unaliased(old(pages), lo, hi) ==> Unaliased(pages, lo, hi)
      ensures m <= |w|
      ensures Unaliased(old(pages), lo, hi) ==>
                Written(old(pages), old(frames), pages, frames, files, lo, hi, dst, w[..m])
      ensures var p := dst / PGSIZE;
              m > 0 <==> p * PGSIZE < MAXVA && p in pages && pages[p].user && pages[p].write
      ensures m > 0 ==> m == ChunkLen(dst, |w|)
      ensures m == 0 ==> OutOfReach(dst / PGSIZE, true)
    {
      hide Unaliased, Written, Apart;
      WrittenStarts(pages, frames, files, lo, hi, dst, w[..0]);
      var p := dst / PGSIZE;
      var va0 := p * PGSIZE;
      if va0 >= MAXVA {
        return 0;
      }
      var f := Reach(va0);
      WrittenStarts(pages, frames, files, lo, hi, dst, w[..0]);
      WrittenAfter(old(pages), old(frames), pages, frames, pages, frames, files, lo, hi, dst, w[..0]);
      if f == 0 || !pages[p].write {
        return 0;
      }
      m := ChunkLen(dst, |w|);
      ghost var frames1 := frames;
      frames := frames[f := Overwrite(frames[f], dst % PGSIZE, w[..m])];
      if Unaliased(pages, lo, hi) {
        FrameWritten(pages, frames1, files, frames, lo, hi, dst, w[..m]);
        WrittenAfter(old(pages), old(frames), pages, frames1, pages, frames, files, lo, hi, dst, w[..m]);
      }
    }

    /** One round of `copyout`, with `k` bytes copied since the pages and frames were `pages0` and `frames0`. `apart`
        says that no two pages of the range have the same frame. */
    method CopyOutOn(dstva: int, src: seq<Byte>, k: nat, ghost pages0: Pages, ghost frames0: Frames, ghost apart: bool)
      returns (m: nat)
      requires Valid() && 0 <= dstva && k < |src| && (k == 0 || (dstva + k) % PGSIZE == 0)
      requires apart ==> Unaliased(pages, PageOf(dstva), PageOf(dstva + |src| - 1))
      requires apart ==> Written(pages0, frames0, pages, frames, files, PageOf(dstva), PageOf(dstva + |src| - 1), dstva,
                                 src[..k])
      requires k > 0 ==> Accessible(pages, PageOf(dstva), PageOf(dstva + k - 1), true)
      modifies this`pages, this`frames, this`free
      ensures Valid() && PagesGrow(old(pages), pages)
      ensures apart ==> Unaliased(pages, PageOf(dstva), PageOf(dstva + |src| - 1))
      ensures k + m <= |src| && (0 < m < |src| - k ==> (dstva + k + m) % PGSIZE == 0)
      ensures apart ==> Written(pages0, frames0, pages, frames, files, PageOf(dstva), PageOf(dstva + |src| - 1), dstva,
                                src[..k + m])
      ensures m == 0 <==> dstva + k >= MAXVA || !Accessible(pages, PageOf(dstva + k), PageOf(dstva + k), true)
      ensures m == 0 ==> OutOfReach(PageOf(dstva + k), true)
      ensures m > 0 ==> dstva + k + m <= MAXVA && Accessible(pages, PageOf(dstva), PageOf(dstva + k + m - 1), true)
    {
      hide Ok, Written, Unaliased, PagesGrow, Apart;
      ghost var pages1, frames1, w := pages, frames, src[k..];
      ghost var lo, hi := PageOf(dstva), PageOf(dstva + |src| - 1);
      PageInside(dstva, k, |src|);
      m := CopyOutPage(dstva + k, src[k..], lo, hi);
      assert w[..m] == src[k..k + m];
      if apart {
        WrittenOn(pages0, frames0, pages1, frames1, pages, frames, files, lo, hi, dstva, src, k, m);
      }
      if m > 0 {
        AccessibleOn(pages1, pages, dstva, dstva + k, m);
      }
    }

    /** Copy `src` to user address `dstva`. Exactly the first `done` bytes of the range change, and `done` is all of
        them on success. That is what shows if no two pages of the range have the same frame, on every page that shares
        no frame with them. Success is certain where the process may write already; failure happens at the start of a
        page that is out of range, missing, or not to be written. */
    method CopyOut(dstva: int, src: seq<Byte>) returns (ok: bool, ghost done: nat)
      requires Valid() && 0 <= dstva
      modifies this`pages, this`frames, this`free
      ensures Valid() && done <= |src| && (ok <==> done == |src|) && PagesGrow(old(pages), pages)
      ensures var p, q := PageOf(dstva), PageOf(dstva + |src| - 1);
              Unaliased(old(pages), p, q) ==>
                Unaliased(pages, p, q) &&
                Written(old(pages), old(frames), pages, frames, files, p, q, dstva, src[..done])
      ensures ok && src != [] ==>
                dstva + |src| <= MAXVA && Accessible(pages, PageOf(dstva), PageOf(dstva + |src| - 1), true)
      ensures var p, q := PageOf(dstva), PageOf(dstva + |src| - 1);
              dstva + |src| <= MAXVA && (src != [] ==> Accessible(old(pages), p, q, true)) ==> ok
      ensures !ok ==> done == 0 || (dstva + done) % PGSIZE == 0
      ensures !ok ==> OutOfReach(PageOf(dstva + done), true)
    {
      hide Ok, Written, Unaliased, Accessible, OutOfReach, PagesGrow, PageOf, Apart;
      ghost var lo, hi := PageOf(dstva), PageOf(dstva + |src| - 1);
      ghost var apart := Unaliased(pages, lo, hi);
      WrittenStarts(pages, frames, files, lo, hi, dstva, src[..0]);
      GrowSelf(pages);
      done := 0;
      var k := 0;
      while k < |src|
        invariant 0 <= k == done <= |src| && Valid() && PagesGrow(old(pages), pages)
        invariant k == 0 || k == |src| || (dstva + k) % PGSIZE == 0
        invariant apart ==> Unaliased(pages, lo, hi)
        invariant apart ==> Written(old(pages), old(frames), pages, frames, files, lo, hi, dstva, src[..k])
        invariant k > 0 ==> dstva + k <= MAXVA && Accessible(pages, lo, PageOf(dstva + k - 1), true)
      {
        ghost var pages1 := pages;
        var m := CopyOutOn(dstva, src, k, old(pages), old(frames), apart);
        GrowTwice(old(pages), pages1, pages);
        PageInside(dstva, k, |src|);
        AccessibleLater(old(pages), pages, lo, hi, PageOf(dstva + k));
        if m == 0 {
          return false, k;
        }
        k, done := k + m, done + m;
      }
      ok := true;
    }

    /** Copy `len` bytes from user address `srcva`: what arrives is what the process sees there, and nothing it sees
        changes. */
    method CopyIn(srcva: int, len: nat) returns (ok: bool, dst: seq<Byte>)
      requires Valid() && 0 <= srcva
      modifies this`pages, this`frames, this`free
      ensures Valid() && SameView(old(pages), old(frames), pages, frames, files) && PagesGrow(old(pages), pages)
      ensures |dst| <= len && (ok <==> |dst| == len) && dst == View(old(pages), old(frames), files, srcva, |dst|)
      ensures var p, q := srcva / PGSIZE, (srcva + len - 1) / PGSIZE;
              srcva + len <= MAXVA && (len > 0 ==> Accessible(old(pages), p, q, false)) ==> ok
      ensures !ok ==> |dst| == 0 || (srcva + |dst|) % PGSIZE == 0
      ensures !ok ==> OutOfReach((srcva + |dst|) / PGSIZE, false)
    {
      hide Ok;
      dst := [];
      while |dst| < len
        invariant |dst| <= len && Valid() && PagesGrow(old(pages), pages)
        invariant |dst| == 0 || |dst| == len || (srcva + |dst|) % PGSIZE == 0
        invariant SameView(old(pages), old(frames), pages, frames, files)
        invariant dst == View(old(pages), old(frames), files, srcva, |dst|)
      {
        var a := srcva + |dst|;
        var p := a / PGSIZE;
        var f := Reach(p * PGSIZE);
        if f == 0 {
          return false, dst;
        }
        var m := ChunkLen(a, len - |dst|);
        assert PageView(pages, frames, files, p) == PageView(old(pages), old(frames), files, p);
        dst := Read(old(pages), old(frames), files, srcva, dst, frames[f], a, a % PGSIZE, m);
      }
      ok := true;
    }

    /** Bytes copied out come back in, if no two pages of the range have the same frame. */
    method RoundTrip(va: int, src: seq<Byte>) returns (out: bool, ok: bool, back: seq<Byte>)
      requires Valid() && 0 <= va
      modifies this`pages, this`frames, this`free
      ensures Valid()
      ensures var p, q := PageOf(va), PageOf(va + |src| - 1);
              out && Unaliased(old(pages), p, q) ==>
                ok && back == src && Written(old(pages), old(frames), pages, frames, files, p, q, va, src)
    {
      ghost var done;
      ghost var lo, hi := PageOf(va), PageOf(va + |src| - 1);
      ghost var apart := Unaliased(pages, lo, hi);
      out, done := CopyOut(va, src);
      assert src[..|src|] == src;
      ghost var pages1, frames1 := pages, frames;
      ok, back := CopyIn(va, |src|);
      if out && apart {
        WrittenView(old(pages), old(frames), pages1, frames1, files, lo, hi, va, src);
        WrittenSame(old(pages), old(frames), pages1, frames1, pages, frames, files, lo, hi, va, src);
      }
    }
  }
}
