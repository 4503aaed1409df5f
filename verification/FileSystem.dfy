/** The block allocator, the block map of an inode, and reading, writing and truncating files.

    The file system works on what the buffer cache returns for every block: `bitmap`, `blocks` and `dinodes`, the copies
    of the in-core inodes. `image` is what is on the disk itself, which changes only when a transaction is committed:
    then the listed blocks, those passed to `log_write` since the last commit, are written there. */
module FileSystem {
  import opened Params
  import opened FsBlocks
  import opened FsFiles

  function NonZero(b: nat): (r: set<nat>) {
    if b == 0 then {} else {b}
  }

  function Max(a: nat, b: nat): (r: nat) {
    if a < b then b else a
  }

  function Min(a: nat, b: nat): (r: nat) {
    if a < b then a else b
  }

  /** How many of `left` bytes at offset `o` lie in the block of `o`. */
  function ChunkLen(o: nat, left: nat): (m: nat)
    requires left > 0
    ensures 0 < m <= left && o % BSIZE + m <= BSIZE
    ensures m < left ==> (o + m) % BSIZE == 0
  {
    Min(left, BSIZE - o % BSIZE)
  }

  /** Two adjoining slices of `c`, joined. */
  function Joined(ghost c: seq<Byte>, ghost a: nat, ghost b: nat, ghost d: nat, x: seq<Byte>,
                  y: seq<Byte>): (r: seq<Byte>)
    requires a <= b <= d <= |c| && x == c[a..b] && y == c[b..d]
    ensures r == c[a..d]
  {
    x + y
  }

  /** The disk blocks behind blocks `lo .. hi` of a file. */
  function FileBlocks(ip: Inode, blocks: seq<Block>, lo: nat, hi: nat): (r: set<nat>)
    requires |ip.addrs| == NDIRECT + 1 && hi <= MAXFILE
    decreases hi
  {
    if hi <= lo then {} else FileBlocks(ip, blocks, lo, hi - 1) + NonZero(Ref(ip, blocks, DataSlot(hi - 1)))
  }

  lemma {:induction false} FileBlocksCount(ip: Inode, blocks: seq<Block>, lo: nat, hi: nat)
    requires |ip.addrs| == NDIRECT + 1 && hi <= MAXFILE
    ensures |FileBlocks(ip, blocks, lo, hi)| <= if hi <= lo then 0 else hi - lo
    decreases hi
  {
    if hi > lo {
      FileBlocksCount(ip, blocks, lo, hi - 1);
      AtMostOneMore(FileBlocks(ip, blocks, lo, hi - 1), Ref(ip, blocks, DataSlot(hi - 1)));
    }
  }

  lemma AtMostOneMore(a: set<nat>, b: nat)
    ensures |a + NonZero(b)| <= |a| + 1
  {
    assert b == 0 || b in a ==> a + NonZero(b) == a;
  }

  lemma {:induction false} FileBlocksKept(ip: Inode, blocks: seq<Block>, ip': Inode, blocks': seq<Block>, lo: nat,
                                          hi: nat)
    requires |ip.addrs| == |ip'.addrs| == NDIRECT + 1 && hi <= MAXFILE
    requires forall s: Slot :: Ref(ip, blocks, s) != 0 ==> Ref(ip', blocks', s) == Ref(ip, blocks, s)
    ensures FileBlocks(ip, blocks, lo, hi) <= FileBlocks(ip', blocks', lo, hi)
    decreases hi
  {
    if hi > lo { FileBlocksKept(ip, blocks, ip', blocks', lo, hi - 1); }
  }

  lemma {:induction false} FileBlocksHas(ip: Inode, blocks: seq<Block>, lo: nat, hi: nat, bn: nat)
    requires |ip.addrs| == NDIRECT + 1 && lo <= bn < hi <= MAXFILE
    ensures NonZero(Ref(ip, blocks, DataSlot(bn))) <= FileBlocks(ip, blocks, lo, hi)
    decreases hi
  {
    if bn < hi - 1 { FileBlocksHas(ip, blocks, lo, hi - 1, bn); }
  }

  /** The blocks, apart from bitmap and inode blocks, that writing `n` bytes at offset `off` may log: the
      indirect block and the data blocks of the range. */
  function Touched(ip: Inode, blocks: seq<Block>, off: nat, n: nat): (r: set<nat>)
    requires |ip.addrs| == NDIRECT + 1 && off + n <= MAXFILE * BSIZE
  {
    NonZero(ip.addrs[NDIRECT]) + FileBlocks(ip, blocks, off / BSIZE, (off + n + BSIZE - 1) / BSIZE)
  }

  lemma TouchedResized(ip: Inode, blocks: seq<Block>, size: nat, off: nat, n: nat)
    requires |ip.addrs| == NDIRECT + 1 && off + n <= MAXFILE * BSIZE
    ensures Touched(ip.(size := size), blocks, off, n) == Touched(ip, blocks, off, n)
  {
    FileBlocksKept(ip, blocks, ip.(size := size), blocks, off / BSIZE, (off + n + BSIZE - 1) / BSIZE);
    FileBlocksKept(ip.(size := size), blocks, ip, blocks, off / BSIZE, (off + n + BSIZE - 1) / BSIZE);
  }

  /** A write of at most `k` blocks' worth of bytes touches at most k + 2 blocks. */
  lemma TouchedCount(ip: Inode, blocks: seq<Block>, off: nat, n: nat, k: nat)
    requires |ip.addrs| == NDIRECT + 1 && off + n <= MAXFILE * BSIZE && n <= k * BSIZE
    ensures |Touched(ip, blocks, off, n)| <= k + 2
  {
    FileBlocksCount(ip, blocks, off / BSIZE, (off + n + BSIZE - 1) / BSIZE);
    assert (off + n + BSIZE - 1) / BSIZE - off / BSIZE <= k + 1;
  }

  /** One block of the range, logged on top of earlier ones. */
  lemma TouchedGrows(l: Layout, dirty0: set<nat>, dirty: set<nat>, dirty': set<nat>,
                     ip: Inode, blocks: seq<Block>, ip': Inode, blocks': seq<Block>, off: nat, n: nat, o: nat)
    requires |ip.addrs| == |ip'.addrs| == NDIRECT + 1 && off <= o < off + n <= MAXFILE * BSIZE
    requires forall s: Slot :: Ref(ip, blocks, s) != 0 ==> Ref(ip', blocks', s) == Ref(ip, blocks, s)
    requires DirtyWithin(l, dirty, dirty0 + Touched(ip, blocks, off, n))
    requires DirtyWithin(l, dirty',
                         dirty + NonZero(ip'.addrs[NDIRECT]) + NonZero(Ref(ip', blocks', DataSlot(o / BSIZE))))
    ensures DirtyWithin(l, dirty', dirty0 + Touched(ip', blocks', off, n))
  {
    var lo, hi := off / BSIZE, (off + n + BSIZE - 1) / BSIZE;
    FileBlocksKept(ip, blocks, ip', blocks', lo, hi);
    FileBlocksHas(ip', blocks', lo, hi, o / BSIZE);
    assert ip.addrs[NDIRECT] == Ref(ip, blocks, NDIRECT) && ip'.addrs[NDIRECT] == Ref(ip', blocks', NDIRECT);
  }

  /** `b` is one of the bitmap blocks. */
  predicate IsBitmapBlock(l: Layout, b: nat) {
    l.bmapstart <= b && (b - l.bmapstart) * BPB < l.size
  }

  /** Exactly bit b % BPB of bitmap block b / BPB has changed, to `bit`. */
  predicate BitChanged(bm: Bitmap, bm': Bitmap, b: nat, bit: bool) {
    && b / BPB < |bm| && b % BPB < |bm[b / BPB]| && bm[b / BPB][b % BPB] == !bit
    && bm' == bm[b / BPB := bm[b / BPB][b % BPB := bit]]
  }

  /** Apart from bitmap blocks, only blocks of `allowed` are dirty. */
  ghost predicate DirtyWithin(l: Layout, dirty: set<nat>, allowed: set<nat>) {
    forall b :: b in dirty ==> b in allowed || IsBitmapBlock(l, b)
  }

  /** One block of file `i`: `w` has been copied to offset `o` if block `addr` could be had (is not 0). The
      file had its first `n` bytes before. References stay, and only the block itself, the indirect
      block and bitmap blocks are newly dirty. */
  ghost predicate BlockWritten(l: Layout, i: nat, o: nat, w: seq<Byte>, n: nat, addr: nat,
                               blocks: seq<Block>, inodes: seq<Inode>, dirty: set<nat>,
                               blocks': seq<Block>, inodes': seq<Inode>, dirty': set<nat>)
  {
    && i < |inodes| && OthersSame(i, blocks, inodes, blocks', inodes')
    && |inodes[i].addrs| == |inodes'[i].addrs| == NDIRECT + 1
    && inodes'[i].size == inodes[i].size && inodes'[i].meta == inodes[i].meta
    && o <= n <= MAXFILE * BSIZE && o < MAXFILE * BSIZE
    && addr == Ref(inodes'[i], blocks', DataSlot(o / BSIZE))
    && (var m := if addr == 0 then 0 else |w|;
        && Filled(inodes'[i], blocks', Max(n, o + m))
        && Bytes(inodes'[i], blocks', Max(n, o + m)) == Splice(Bytes(inodes[i], blocks, n), o, w[..m]))
    && (forall s: Slot :: Ref(inodes[i], blocks, s) != 0 ==> Ref(inodes'[i], blocks', s) == Ref(inodes[i], blocks, s))
    && DirtyWithin(l, dirty', dirty + NonZero(inodes'[i].addrs[NDIRECT]) + NonZero(addr))
  }

  /** Copying `w` into the block that was found. */
  lemma BlockPatched(l: Layout, i: nat, o: nat, w: seq<Byte>, n: nat, addr: nat,
                     blocks: seq<Block>, inodes: seq<Inode>, dirty: set<nat>,
                     blocks1: seq<Block>, inodes1: seq<Inode>, dirty1: set<nat>, blocks2: seq<Block>, dirty2: set<nat>)
    requires BlockWritten(l, i, o, [], n, addr, blocks, inodes, dirty, blocks1, inodes1, dirty1)
    requires addr == 0 ==> blocks2 == blocks1 && dirty2 == dirty1
    requires addr != 0 ==>
               && OthersSame(i, blocks1, inodes1, blocks2, inodes1)
               && (forall s: Slot :: Ref(inodes1[i], blocks2, s) == Ref(inodes1[i], blocks1, s))
               && Filled(inodes1[i], blocks2, Max(n, o + |w|))
               && Bytes(inodes1[i], blocks2, Max(n, o + |w|)) == Splice(Bytes(inodes1[i], blocks1, n), o, w)
               && dirty2 <= dirty1 + {addr}
    ensures BlockWritten(l, i, o, w, n, addr, blocks, inodes, dirty, blocks2, inodes1, dirty2)
  {
    var c := Bytes(inodes[i], blocks, n);
    assert Splice(c, o, []) == c && Max(n, o) == n;
    assert w[..0] == [] && w[..|w|] == w;
    if addr != 0 {
      OthersSameTwice(i, blocks, inodes, blocks1, inodes1, blocks2, inodes1);
    }
  }

  /** The first `m` bytes of `src` have been written over file `i` of the earlier state at `off`, nothing
      happened to the other files, and only blocks of the range are newly dirty. */
  ghost predicate Written(l: Layout, i: nat, src: seq<Byte>, off: nat, m: nat,
                          blocks: seq<Block>, inodes: seq<Inode>, dirty: set<nat>,
                          blocks': seq<Block>, inodes': seq<Inode>, dirty': set<nat>)
  {
    && i < |inodes| && OthersSame(i, blocks, inodes, blocks', inodes')
    && |inodes[i].addrs| == |inodes'[i].addrs| == NDIRECT + 1
    && off <= inodes[i].size <= MAXFILE * BSIZE && off + |src| <= MAXFILE * BSIZE && m <= |src|
    && inodes'[i].size == inodes[i].size && inodes'[i].meta == inodes[i].meta
    && Filled(inodes'[i], blocks', Max(inodes[i].size, off + m))
    && Bytes(inodes'[i], blocks', Max(inodes[i].size, off + m)) ==
       Splice(Bytes(inodes[i], blocks, inodes[i].size), off, src[..m])
    && DirtyWithin(l, dirty', dirty + Touched(inodes'[i], blocks', off, |src|))
  }

  lemma WrittenStarts(l: Layout, i: nat, src: seq<Byte>, off: nat, blocks: seq<Block>, inodes: seq<Inode>,
                      dirty: set<nat>)
    requires i < |inodes| && forall j :: 0 <= j < |inodes| ==> |inodes[j].addrs| == NDIRECT + 1
    requires Filled(inodes[i], blocks, inodes[i].size)
    requires off <= inodes[i].size && off + |src| <= MAXFILE * BSIZE
    ensures Written(l, i, src, off, 0, blocks, inodes, dirty, blocks, inodes, dirty)
  {
    var c := Bytes(inodes[i], blocks, inodes[i].size);
    assert Splice(c, off, src[..0]) == c;
  }

  lemma WrittenHas(l: Layout, i: nat, src: seq<Byte>, off: nat, m: nat,
                   blocks: seq<Block>, inodes: seq<Inode>, dirty: set<nat>,
                   blocks': seq<Block>, inodes': seq<Inode>, dirty': set<nat>)
    requires Written(l, i, src, off, m, blocks, inodes, dirty, blocks', inodes', dirty')
    ensures i < |inodes| == |inodes'| && |inodes'[i].addrs| == NDIRECT + 1 && m <= |src| &&
            off + |src| <= MAXFILE * BSIZE
    ensures inodes'[i].size == inodes[i].size <= MAXFILE * BSIZE &&
            Filled(inodes'[i], blocks', Max(inodes[i].size, off + m))
  {
  }

  lemma WrittenStep(l: Layout, i: nat, src: seq<Byte>, off: nat, tot: nat, k: nat, o: nat, w: seq<Byte>, n: nat,
                    addr: nat, tot': nat,
                    blocks: seq<Block>, inodes: seq<Inode>, dirty: set<nat>,
                    blocks1: seq<Block>, inodes1: seq<Inode>, dirty1: set<nat>,
                    blocks2: seq<Block>, inodes2: seq<Inode>, dirty2: set<nat>)
    requires Written(l, i, src, off, tot, blocks, inodes, dirty, blocks1, inodes1, dirty1)
    requires tot < |src| && tot + k <= |src|
    requires o == off + tot && w == src[tot..tot + k] && n == Max(inodes[i].size, o)
    requires BlockWritten(l, i, o, w, n, addr, blocks1, inodes1, dirty1, blocks2, inodes2, dirty2)
    requires tot' == if addr == 0 then tot else tot + k
    ensures Written(l, i, src, off, tot', blocks, inodes, dirty, blocks2, inodes2, dirty2)
  {
    hide Filled, DirtyWithin, Touched;
    var size, m := inodes[i].size, if addr == 0 then 0 else k;
    assert Max(Max(size, o), o + m) == Max(size, o + m);
    SpliceStep(Bytes(inodes[i], blocks, size), off, src, tot, k, m,
               Bytes(inodes1[i], blocks1, Max(size, o)), Bytes(inodes2[i], blocks2, Max(size, o + m)));
    OthersSameTwice(i, blocks, inodes, blocks1, inodes1, blocks2, inodes2);
    TouchedGrows(l, dirty, dirty1, dirty2, inodes1[i], blocks1, inodes2[i], blocks2, off, |src|, o);
  }

  // ----- How far a write comes -----

  /** How many of `n` bytes at `off` a write counts when its source faults after `avail` bytes: those of the blocks that
      come in whole. */
  function Counted(off: nat, n: nat, avail: nat): (r: nat)
    ensures r <= n && r <= avail
  {
    if n <= avail then n
    else if avail < BSIZE - off % BSIZE then 0
    else avail - (off + avail) % BSIZE
  }

  /** `tot` of `n` bytes at `off` end with a block, or are none or all. */
  predicate AtBlockEnd(off: nat, n: nat, tot: nat) {
    tot <= n && (tot == 0 || tot == n || (off + tot) % BSIZE == 0)
  }

  lemma CountedHere(off: nat, n: nat, avail: nat, tot: nat)
    requires AtBlockEnd(off, n, tot) && tot <= avail
    ensures tot <= Counted(off, n, avail)
    ensures tot < n && avail < tot + ChunkLen(off + tot, n - tot) ==> Counted(off, n, avail) == tot && avail < n
    ensures tot < n ==> AtBlockEnd(off, n, tot + ChunkLen(off + tot, n - tot))
  {
    if tot > 0 && tot < n {
      BlockEnds(off, tot);
      BlockStart(off, tot, avail);
    }
  }

  /** How one turn of the loop ends: `k` is the length copied, and no block could be had if `full`. */
  lemma PieceEnds(off: nat, n: nat, avail: nat, tot: nat, m: nat, fault: bool, k: nat, full: bool, stop: bool,
                  next: nat, done: nat)
    requires AtBlockEnd(off, n, tot) && tot <= avail && tot < n
    requires m == ChunkLen(off + tot, n - tot) && fault == (tot + m > avail) && k == if fault then avail - tot else m
    requires stop == (full || fault) && next == (if stop then tot else tot + m) && done == if full then tot else tot + k
    ensures stop ==> Stopped(off, n, avail, next, done, full)
    ensures !stop ==> tot < next == done <= avail && AtBlockEnd(off, n, next)
  {
    CountedHere(off, n, avail, tot);
  }

  lemma BlockEnds(off: nat, tot: nat)
    requires (off + tot) % BSIZE == 0 && tot > 0
    ensures tot >= BSIZE - off % BSIZE
  {
  }

  lemma BlockStart(off: nat, tot: nat, avail: nat)
    requires (off + tot) % BSIZE == 0 && tot <= avail
    ensures (off + avail) % BSIZE <= avail - tot && (avail < tot + BSIZE ==> (off + avail) % BSIZE == avail - tot)
  {
  }

  /** How a write ends: the source decides, or the disk is full earlier. `tot` bytes are counted, and `done` are in the
      cached blocks. */
  predicate Stopped(off: nat, n: nat, avail: nat, tot: nat, done: nat, full: bool) {
    || (tot == Counted(off, n, avail) && done == Min(avail, n))
    || (full && done == tot <= Counted(off, n, avail))
  }

  /** The bytes that a fault leaves behind without counting them do not show: each lies past the end of the file `c` or
      was there before. */
  ghost predicate Unseen(c: seq<Byte>, off: nat, src: seq<Byte>, avail: nat) {
    forall k :: Counted(off, |src|, avail) <= k < avail && off + k < |c| && k < |src| ==> src[k] == c[off + k]
  }

  /** A write that the disk had room for leaves the file with just the counted bytes exactly when the others do not
      show. */
  lemma FaultShows(c: seq<Byte>, off: nat, src: seq<Byte>, avail: nat)
    requires off <= |c|
    ensures var r, done := Counted(off, |src|, avail), Min(avail, |src|);
            Splice(c, off, src[..done])[..Max(|c|, off + r)] == Splice(c, off, src[..r]) <==> Unseen(c, off, src, avail)
  {
    var r, done := Counted(off, |src|, avail), Min(avail, |src|);
    var n := Max(|c|, off + r);
    var x, y := Splice(c, off, src[..done])[..n], Splice(c, off, src[..r]);
    if x == y {
      forall k | r <= k < avail && off + k < |c| && k < |src|
        ensures src[k] == c[off + k]
      {
        assert x[off + k] == src[k] && y[off + k] == c[off + k];
      }
    }
    if Unseen(c, off, src, avail) {
      forall j | 0 <= j < n
        ensures x[j] == y[j]
      {
        if off + r <= j < off + done { assert src[j - off] == c[off + (j - off)]; }
      }
    }
  }

  /** What a write of `src` at `off`, whose source faults after `avail` bytes, makes of a file `c` when it returns `r`.
      The place of the fault determines `r`, unless the file grows and the disk is full first. The file is `now`: the
      bytes up to `done` were copied, as far as they lie inside the new length; it is `c` with just the counted bytes
      written over it exactly when the other bytes do not show. If all buffers were on the disk or listed before,
      `logged` is what a commit makes of the file: what it reads as if the block of the fault was listed before (`hit`),
      and otherwise `c` with just the counted bytes written over it. */
  ghost predicate WriteResult(c: seq<Byte>, off: nat, src: seq<Byte>, avail: nat, r: int, done: nat, now: seq<Byte>,
                              clean: bool, hit: bool, logged: seq<Byte>, full: bool)
  {
    && off <= |c| && 0 <= r <= done <= |src|
    && Stopped(off, |src|, avail, r, done, full && off + |src| > |c|)
    && now == Splice(c, off, src[..done])[..Max(|c|, off + r)]
    && (clean ==> logged == if hit then now else Splice(c, off, src[..r]))
    && (!full || off + |src| <= |c| ==> (now == Splice(c, off, src[..r]) <==> Unseen(c, off, src, avail)))
  }

  /** A commit makes just the counted bytes of a write that the disk had room for permanent exactly when the block of
      the fault was not listed before or the other bytes do not show. */
  lemma CommitShows(c: seq<Byte>, off: nat, src: seq<Byte>, avail: nat, r: int, done: nat, now: seq<Byte>,
                    hit: bool, logged: seq<Byte>, full: bool)
    requires WriteResult(c, off, src, avail, r, done, now, true, hit, logged, full)
    requires !full || off + |src| <= |c|
    ensures logged == Splice(c, off, src[..r]) <==> !hit || Unseen(c, off, src, avail)
  {
  }

  /** `past` says that all the bytes a fault leaves behind lie past the end of the file. */
  lemma WriteEnds(c: seq<Byte>, off: nat, src: seq<Byte>, avail: nat, r: nat, done: nat, now: seq<Byte>,
                  clean: bool, hit: bool, past: bool, stale: seq<Byte>, logged: seq<Byte>, full: bool)
    requires off <= |c| && r <= done <= |src| && Stopped(off, |src|, avail, r, done, full && off + |src| > |c|)
    requires now == Splice(c, off, src[..done])[..Max(|c|, off + r)]
    requires stale == Splice(c, off, src[..r])[..Max(|c|, off + r)]
    requires clean ==> logged == now || logged == stale
    requires clean && !past && now != stale ==> logged == if hit then now else stale
    requires past ==> done == r || off + r >= |c|
    ensures WriteResult(c, off, src, avail, r, done, now, clean, hit, logged, full)
  {
    FaultShows(c, off, src, avail);
    assert stale == Splice(c, off, src[..r]);
    if past {
      assert now == stale;
    }
  }

  // ----- What a commit makes permanent -----

  /** The blocks as a commit leaves them on the disk: those listed in the open transaction come from their buffers, the
      others stay as they are at `home`. */
  function Logged(blocks: seq<Block>, home: seq<Block>, listed: set<nat>): (r: seq<Block>)
    requires |home| == |blocks|
    ensures |r| == |blocks| && forall b :: 0 <= b < |blocks| ==> r[b] == if b in listed then blocks[b] else home[b]
  {
    seq(|blocks|, b requires 0 <= b < |blocks| => if b in listed then blocks[b] else home[b])
  }

  /** Every buffer that differs from the disk is listed. */
  ghost predicate Clean(blocks: seq<Block>, home: seq<Block>, listed: set<nat>) {
    |home| == |blocks| && forall b :: 0 <= b < |blocks| && b !in listed ==> blocks[b] == home[b]
  }

  /** At least the buffers of indirect blocks and of blocks outside the data area are. */
  ghost predicate Steady(l: Layout, blocks: seq<Block>, inodes: seq<Inode>, home: seq<Block>, listed: set<nat>) {
    && |home| == |blocks|
    && (forall b :: 0 <= b < |blocks| && b < l.datastart && b !in listed ==> blocks[b] == home[b])
    && forall j :: 0 <= j < |inodes| ==>
         && |inodes[j].addrs| == NDIRECT + 1
         && (0 < inodes[j].addrs[NDIRECT] < |blocks| && inodes[j].addrs[NDIRECT] !in listed ==>
               blocks[inodes[j].addrs[NDIRECT]] == home[inodes[j].addrs[NDIRECT]])
  }

  /** A file system as a disk holds it. */
  datatype Image = Image(bitmap: Bitmap, blocks: seq<Block>, inodes: seq<Inode>)

  ghost predicate GoodImage(l: Layout, image: Image, owner: map<nat, Place>) {
    && GoodBitmap(image.bitmap, l.size)
    && Owned(l, UsedSet(image.bitmap, l.size), image.blocks, image.inodes, owner)
    && AllFilled(image.blocks, image.inodes)
  }

  /** Every bitmap block and every inode that differs from the disk is listed. */
  ghost predicate MetaLogged(l: Layout, bitmap: Bitmap, dinodes: seq<Inode>, image: Image, listed: set<nat>) {
    && |image.bitmap| == |bitmap| && |image.inodes| == |dinodes|
    && (forall k :: 0 <= k < |bitmap| && l.bmapstart + k !in listed ==> image.bitmap[k] == bitmap[k])
    && (forall j :: 0 <= j < |dinodes| && j / IPB + l.inodestart !in listed ==> image.inodes[j] == dinodes[j])
  }

  lemma MetaMore(l: Layout, bitmap: Bitmap, dinodes: seq<Inode>, image: Image, listed: set<nat>, listed': set<nat>)
    requires MetaLogged(l, bitmap, dinodes, image, listed) && listed <= listed'
    ensures MetaLogged(l, bitmap, dinodes, image, listed')
  {
  }

  lemma MetaSetBit(l: Layout, bitmap: Bitmap, dinodes: seq<Inode>, image: Image, listed: set<nat>, b: nat, bit: bool,
                   listed': set<nat>)
    requires GoodBitmap(bitmap, l.size) && b < l.size && listed + {l.bmapstart + b / BPB} <= listed'
    ensures MetaLogged(l, bitmap, dinodes, image, listed) ==>
              MetaLogged(l, SetBit(bitmap, l.size, b, bit), dinodes, image, listed')
  {
  }

  /** What a commit leaves on the disk. */
  function LoggedImage(l: Layout, bitmap: Bitmap, blocks: seq<Block>, dinodes: seq<Inode>, image: Image,
                       listed: set<nat>): (r: Image)
    requires |image.bitmap| == |bitmap| && |image.blocks| == |blocks| && |image.inodes| == |dinodes|
  {
    Image(
      seq(|bitmap|, k requires 0 <= k < |bitmap| => if l.bmapstart + k in listed then bitmap[k] else image.bitmap[k]),
      Logged(blocks, image.blocks, listed),
      seq(|dinodes|, j requires 0 <= j < |dinodes| =>
            if j / IPB + l.inodestart in listed then dinodes[j] else image.inodes[j]))
  }

  lemma LoggedMeta(l: Layout, bitmap: Bitmap, blocks: seq<Block>, dinodes: seq<Inode>, image: Image, listed: set<nat>)
    requires MetaLogged(l, bitmap, dinodes, image, listed) && |image.blocks| == |blocks|
    ensures LoggedImage(l, bitmap, blocks, dinodes, image, listed) ==
            Image(bitmap, Logged(blocks, image.blocks, listed), dinodes)
  {
    var r := LoggedImage(l, bitmap, blocks, dinodes, image, listed);
    assert r.bitmap == bitmap && r.inodes == dinodes;
  }

  lemma LoggedAgain(blocks: seq<Block>, home: seq<Block>)
    requires |home| == |blocks|
    ensures Logged(blocks, home, {}) == home
  {
  }

  /** What a commit leaves on the disk has the references of the buffers. */
  lemma LoggedGood(l: Layout, used: set<nat>, blocks: seq<Block>, inodes: seq<Inode>, owner: map<nat, Place>,
                   home: seq<Block>, listed: set<nat>)
    requires Owned(l, used, blocks, inodes, owner) && AllFilled(blocks, inodes)
    requires Steady(l, blocks, inodes, home, listed)
    ensures Owned(l, used, Logged(blocks, home, listed), inodes, owner)
    ensures AllFilled(Logged(blocks, home, listed), inodes)
    ensures Steady(l, blocks, inodes, Logged(blocks, home, listed), {})
    ensures Clean(blocks, home, listed) ==> Clean(blocks, Logged(blocks, home, listed), {})
  {
    var blocks' := Logged(blocks, home, listed);
    forall j, s: Slot | 0 <= j < |inodes|
      ensures Ref(inodes[j], blocks', s) == Ref(inodes[j], blocks, s)
    {
      LoggedRef(l, used, blocks, inodes, owner, home, listed, j, s);
    }
    hide Ref;
  }

  lemma LoggedRef(l: Layout, used: set<nat>, blocks: seq<Block>, inodes: seq<Inode>, owner: map<nat, Place>,
                  home: seq<Block>, listed: set<nat>, j: nat, s: Slot)
    requires Owned(l, used, blocks, inodes, owner) && Steady(l, blocks, inodes, home, listed) && j < |inodes|
    ensures Ref(inodes[j], Logged(blocks, home, listed), s) == Ref(inodes[j], blocks, s)
  {
    var a := inodes[j].addrs[NDIRECT];
    assert a == Ref(inodes[j], blocks, NDIRECT);
    if 0 < a {
      assert Logged(blocks, home, listed)[a] == blocks[a];
    }
  }

  lemma SteadySize(l: Layout, blocks: seq<Block>, inodes: seq<Inode>, home: seq<Block>, listed: set<nat>)
    requires Steady(l, blocks, inodes, home, listed)
    ensures |home| == |blocks|
  {
  }

  lemma CleanLogged(blocks: seq<Block>, home: seq<Block>, listed: set<nat>)
    requires Clean(blocks, home, listed)
    ensures Logged(blocks, home, listed) == blocks
  {
  }

  /** Between two states every block that changed, and every new indirect block, has been logged. */
  ghost predicate Logs(blocks: seq<Block>, inodes: seq<Inode>, dirty: set<nat>,
                       blocks': seq<Block>, inodes': seq<Inode>, dirty': set<nat>)
  {
    && dirty <= dirty' && |blocks'| == |blocks| && |inodes'| == |inodes|
    && (forall b :: 0 <= b < |blocks| ==> blocks'[b] == blocks[b] || b in dirty')
    && (forall j :: 0 <= j < |inodes| ==>
          && |inodes[j].addrs| == |inodes'[j].addrs| == NDIRECT + 1
          && (inodes'[j].addrs[NDIRECT] == inodes[j].addrs[NDIRECT] || inodes'[j].addrs[NDIRECT] in dirty'))
  }

  lemma LogsTwice(blocks: seq<Block>, inodes: seq<Inode>, dirty: set<nat>,
                  blocks1: seq<Block>, inodes1: seq<Inode>, dirty1: set<nat>,
                  blocks2: seq<Block>, inodes2: seq<Inode>, dirty2: set<nat>)
    requires Logs(blocks, inodes, dirty, blocks1, inodes1, dirty1)
    requires Logs(blocks1, inodes1, dirty1, blocks2, inodes2, dirty2)
    ensures Logs(blocks, inodes, dirty, blocks2, inodes2, dirty2)
  {
  }

  lemma LogsMore(blocks: seq<Block>, inodes: seq<Inode>, dirty: set<nat>,
                 blocks': seq<Block>, inodes': seq<Inode>, dirty': set<nat>)
    requires Logs(blocks, inodes, dirty, blocks', inodes', dirty')
    ensures dirty <= dirty'
  {
  }

  lemma SteadyLogs(l: Layout, blocks: seq<Block>, inodes: seq<Inode>, dirty: set<nat>,
                   blocks': seq<Block>, inodes': seq<Inode>, dirty': set<nat>, home: seq<Block>, earlier: set<nat>)
    requires Logs(blocks, inodes, dirty, blocks', inodes', dirty') && Steady(l, blocks, inodes, home, earlier + dirty)
    ensures Steady(l, blocks', inodes', home, earlier + dirty')
    ensures Clean(blocks, home, earlier + dirty) ==> Clean(blocks', home, earlier + dirty')
  {
  }

  /** A block with file data is changed, and logged if `log`. */
  lemma SteadyPatched(l: Layout, used: set<nat>, blocks: seq<Block>, inodes: seq<Inode>, owner: map<nat, Place>,
                      i: nat, s: Slot, b: nat, data: Block, log: bool, home: seq<Block>, listed: set<nat>,
                      listed': set<nat>)
    requires Owned(l, used, blocks, inodes, owner) && Steady(l, blocks, inodes, home, listed)
    requires i < |inodes| && s != NDIRECT && b == Ref(inodes[i], blocks, s) != 0
    requires listed' == listed + if log then {b} else {}
    ensures b < |blocks| && Steady(l, blocks[b := data], inodes, home, listed')
    ensures Clean(blocks, home, listed) && b in listed' ==> Clean(blocks[b := data], home, listed')
    ensures Clean(blocks, home, listed) && b !in listed' ==> Logged(blocks[b := data], home, listed') == blocks
  {
    assert owner[b] == Place(i, s);
    forall j | 0 <= j < |inodes|
      ensures inodes[j].addrs[NDIRECT] != b
    {
      assert inodes[j].addrs[NDIRECT] == Ref(inodes[j], blocks, NDIRECT);
    }
  }

  /** The block of file `ip` in which a write of `n` bytes at `off` faults, or 0 if it does not or there is none yet. */
  ghost function FaultBlock(ip: Inode, blocks: seq<Block>, off: nat, n: nat, avail: nat): (b: nat)
    requires |ip.addrs| == NDIRECT + 1
  {
    if avail < n && off + n <= MAXFILE * BSIZE then Ref(ip, blocks, FaultSlot(off, n, avail)) else 0
  }

  ghost function FaultSlot(off: nat, n: nat, avail: nat): (s: Slot)
    requires avail < n && off + n <= MAXFILE * BSIZE
    ensures s != NDIRECT
  {
    DataSlot((off + Counted(off, n, avail)) / BSIZE)
  }

  /** Without such a block, the bytes that a fault leaves behind lie past the end of the file. */
  lemma FaultPast(ip: Inode, blocks: seq<Block>, off: nat, n: nat, avail: nat)
    requires |ip.addrs| == NDIRECT + 1 && Filled(ip, blocks, ip.size) && off + n <= MAXFILE * BSIZE
    ensures avail < n && FaultBlock(ip, blocks, off, n, avail) == 0 ==> off + Counted(off, n, avail) >= ip.size
  {
    if avail < n {
      FilledHas(ip, blocks, ip.size, off + Counted(off, n, avail));
    }
  }

  /** A piece that comes in whole lies in another block than the fault. */
  lemma PieceBeforeFault(off: nat, n: nat, avail: nat, tot: nat, m: nat)
    requires AtBlockEnd(off, n, tot) && tot < n && avail < n && m == ChunkLen(off + tot, n - tot) && tot + m <= avail
    ensures (off + tot) / BSIZE < (off + Counted(off, n, avail)) / BSIZE
  {
    CountedHere(off, n, avail, tot);
    CountedHere(off, n, avail, tot + m);
    NextBlock(off + tot, m, off + Counted(off, n, avail));
  }

  lemma NextBlock(o: nat, m: nat, p: nat)
    requires m > 0 && (o + m) % BSIZE == 0 && o + m <= p
    ensures o / BSIZE < p / BSIZE
  {
    assert (o + m) / BSIZE <= p / BSIZE;
    assert o < (o + m) / BSIZE * BSIZE;
  }

  /** The bitmap and the blocks of `n` inodes lie below the data blocks. */
  ghost predicate MetaBelow(l: Layout, n: nat) {
    && (forall b: nat :: IsBitmapBlock(l, b) ==> b < l.datastart)
    && (n > 0 ==> (n - 1) / IPB + l.inodestart < l.datastart)
  }

  /** What a commit makes permanent after a write: the blocks as they are, or those before a fault; if the fault is in a
      block `f` that existed before, the former exactly when that was listed. */
  ghost predicate Permanent(blocks: seq<Block>, home: seq<Block>, listed: set<nat>, stale: seq<Block>, f: nat,
                            listed0: set<nat>)
  {
    && |home| == |blocks|
    && (Logged(blocks, home, listed) == blocks || Logged(blocks, home, listed) == stale)
    && (f != 0 && stale != blocks ==> Logged(blocks, home, listed) == if f in listed0 then blocks else stale)
  }

  /** What a write leaves in its file, on the whole. */
  lemma WriteLeaves(i: nat, src: seq<Byte>, off: nat, avail: nat, r: nat, done: nat, f: nat,
                    blocks: seq<Block>, inodes: seq<Inode>, blocks': seq<Block>, inodes': seq<Inode>,
                    stale: seq<Block>, clean: bool, home: seq<Block>, listed: set<nat>, listed': set<nat>, full: bool)
    requires Holds(i, src, off, done, r, blocks, inodes, blocks', inodes')
    requires Holds(i, src, off, r, r, blocks, inodes, stale, inodes')
    requires off + |src| <= MAXFILE * BSIZE && Filled(inodes[i], blocks, inodes[i].size) && |home| == |blocks'|
    requires Stopped(off, |src|, avail, r, done, full && off + |src| > inodes[i].size)
    requires f == FaultBlock(inodes[i], blocks, off, |src|, avail)
    requires clean ==> Permanent(blocks', home, listed', stale, f, listed)
    ensures WriteResult(Bytes(inodes[i], blocks, inodes[i].size), off, src, avail, r, done,
                        Bytes(inodes'[i], blocks', inodes'[i].size), clean, f != 0 && f in listed,
                        Bytes(inodes'[i], Logged(blocks', home, listed'), inodes'[i].size), full)
    ensures clean ==> OthersSame(i, blocks, inodes, Logged(blocks', home, listed'), inodes')
  {
    assert |inodes'| == |inodes|;
    hide OthersSame, Logged, Filled;
    FaultPast(inodes[i], blocks, off, |src|, avail);
    assert f == 0 ==> done == r || off + r >= inodes[i].size;
    WriteEnds(Bytes(inodes[i], blocks, inodes[i].size), off, src, avail, r, done,
              Bytes(inodes'[i], blocks', inodes'[i].size), clean, f != 0 && f in listed, f == 0,
              Bytes(inodes'[i], stale, inodes'[i].size),
              Bytes(inodes'[i], Logged(blocks', home, listed'), inodes'[i].size), full);
  }

  /** Listing one more block that is as on the disk changes nothing. */
  lemma ListOne(l: Layout, blocks: seq<Block>, inodes: seq<Inode>, home: seq<Block>, listed: set<nat>, b: nat)
    requires Steady(l, blocks, inodes, home, listed) && b < l.datastart
    ensures Logged(blocks, home, listed + {b}) == Logged(blocks, home, listed)
  {
  }

  /** The block `f` of the fault is still the one before the write, and still listed or not. */
  ghost predicate FaultKept(ip: Inode, blocks: seq<Block>, off: nat, n: nat, avail: nat, f: nat,
                            dirty0: set<nat>, dirty: set<nat>)
  {
    f != 0 ==>
      && |ip.addrs| == NDIRECT + 1 && avail < n && off + n <= MAXFILE * BSIZE
      && Ref(ip, blocks, FaultSlot(off, n, avail)) == f && (f in dirty <==> f in dirty0)
  }

  /** A whole piece before the fault does not list its block. */
  lemma FaultStillKept(l: Layout, used: set<nat>, owner: map<nat, Place>, i: nat, off: nat, n: nat, avail: nat,
                       tot: nat, f: nat, addr: nat, dirty0: set<nat>,
                       blocks: seq<Block>, inodes: seq<Inode>, dirty: set<nat>,
                       blocks': seq<Block>, inodes': seq<Inode>, dirty': set<nat>)
    requires i < |inodes| && FaultKept(inodes[i], blocks, off, n, avail, f, dirty0, dirty)
    requires Owned(l, used, blocks', inodes', owner) && MetaBelow(l, |inodes|) && i < |inodes'| && dirty <= dirty'
    requires AtBlockEnd(off, n, tot) && tot < n && tot + ChunkLen(off + tot, n - tot) <= avail
    requires off + n <= MAXFILE * BSIZE && addr == Ref(inodes'[i], blocks', DataSlot((off + tot) / BSIZE))
    requires |inodes[i].addrs| == NDIRECT + 1 &&
             forall s: Slot :: Ref(inodes[i], blocks, s) != 0 ==>
                 Ref(inodes'[i], blocks', s) == Ref(inodes[i], blocks, s)
    requires DirtyWithin(l, dirty', dirty + NonZero(inodes'[i].addrs[NDIRECT]) + NonZero(addr))
    ensures FaultKept(inodes'[i], blocks', off, n, avail, f, dirty0, dirty')
  {
    if f != 0 {
      var s := FaultSlot(off, n, avail);
      PieceBeforeFault(off, n, avail, tot, ChunkLen(off + tot, n - tot));
      assert owner[f] == Place(i, s) && l.datastart <= f;
      assert addr != 0 ==> owner[addr] == Place(i, DataSlot((off + tot) / BSIZE));
      assert inodes'[i].addrs[NDIRECT] == Ref(inodes'[i], blocks', NDIRECT);
    }
  }

  lemma PieceKeepsFault(l: Layout, used: set<nat>, owner: map<nat, Place>, i: nat, off: nat, n: nat, avail: nat,
                        tot: nat, f: nat, w: seq<Byte>, k: nat, addr: nat, dirty0: set<nat>,
                        blocks: seq<Block>, inodes: seq<Inode>, dirty: set<nat>,
                        blocks': seq<Block>, inodes': seq<Inode>, dirty': set<nat>)
    requires i < |inodes| && FaultKept(inodes[i], blocks, off, n, avail, f, dirty0, dirty)
    requires Owned(l, used, blocks', inodes', owner) && MetaBelow(l, |inodes|) && dirty <= dirty'
    requires AtBlockEnd(off, n, tot) && tot < n && tot + ChunkLen(off + tot, n - tot) <= avail
    requires off + n <= MAXFILE * BSIZE
    requires BlockWritten(l, i, off + tot, w, k, addr, blocks, inodes, dirty, blocks', inodes', dirty')
    ensures i < |inodes'| && FaultKept(inodes'[i], blocks', off, n, avail, f, dirty0, dirty')
  {
    FaultStillKept(l, used, owner, i, off, n, avail, tot, f, addr, dirty0, blocks, inodes, dirty,
                   blocks', inodes', dirty');
  }

  /** When the fault comes, its block is the one of the piece. */
  lemma FaultFound(off: nat, n: nat, avail: nat, tot: nat, ip: Inode, blocks: seq<Block>, f: nat,
                   dirty0: set<nat>, dirty: set<nat>)
    requires AtBlockEnd(off, n, tot) && tot < n && tot <= avail < tot + ChunkLen(off + tot, n - tot)
    requires off + n <= MAXFILE * BSIZE && |ip.addrs| == NDIRECT + 1
    requires FaultKept(ip, blocks, off, n, avail, f, dirty0, dirty)
    ensures f != 0 ==> Ref(ip, blocks, DataSlot((off + tot) / BSIZE)) == f && (f in dirty <==> f in dirty0)
  {
    CountedHere(off, n, avail, tot);
  }

  /** Changing a block that is nobody's indirect block keeps the ownership and the blocks of every file. */
  lemma RecycleKeeps(l: Layout, used: set<nat>, blocks: seq<Block>, inodes: seq<Inode>, owner: map<nat, Place>, b: nat,
                     data: Block)
    requires Owned(l, used, blocks, inodes, owner) && AllFilled(blocks, inodes) && b < |blocks|
    requires forall j :: 0 <= j < |inodes| ==> inodes[j].addrs[NDIRECT] != b
    ensures Owned(l, used, blocks[b := data], inodes, owner) && AllFilled(blocks[b := data], inodes)
  {
    forall j, t: Slot | 0 <= j < |inodes|
      ensures Ref(inodes[j], blocks[b := data], t) == Ref(inodes[j], blocks, t)
    {
      RefFrame(inodes[j], blocks, b, data, t);
    }
    OwnedBySameRefs(l, used, blocks, inodes, owner, blocks[b := data]);
  }

  /** One turn of the loop: `k` more bytes are in the blocks, if block `addr` could be had, and none of them in the
      blocks before the copy. `kept` are the blocks before the copy if the loop stops, and the new ones otherwise. */
  lemma PieceWritten(l: Layout, i: nat, src: seq<Byte>, off: nat, tot: nat, k: nat, o: nat, w: seq<Byte>, n: nat,
                     addr: nat, done: nat,
                     blocks: seq<Block>, inodes: seq<Inode>, dirty: set<nat>,
                     blocks1: seq<Block>, inodes1: seq<Inode>, dirty1: set<nat>,
                     blocks2: seq<Block>, stale: seq<Block>, inodes2: seq<Inode>, dirty2: set<nat>,
                     stop: bool, next: nat, kept: seq<Block>)
    requires Written(l, i, src, off, tot, blocks, inodes, dirty, blocks1, inodes1, dirty1)
    requires tot < |src| && tot + k <= |src|
    requires o == off + tot && w == src[tot..tot + k] && n == Max(inodes[i].size, o)
    requires BlockWritten(l, i, o, w, n, addr, blocks1, inodes1, dirty1, blocks2, inodes2, dirty2)
    requires BlockWritten(l, i, o, [], n, addr, blocks1, inodes1, dirty1, stale, inodes2, dirty2)
    requires done == if addr == 0 then tot else tot + k
    ensures Written(l, i, src, off, done, blocks, inodes, dirty, blocks2, inodes2, dirty2)
    requires next == (if stop then tot else done) && kept == if stop then stale else blocks2
    requires addr == 0 ==> Ref(inodes1[i], blocks1, DataSlot(o / BSIZE)) == 0
    ensures addr == 0 ==> off + |src| > inodes[i].size
    ensures Written(l, i, src, off, next, blocks, inodes, dirty, kept, inodes2, dirty2)
  {
    FilledHas(inodes1[i], blocks1, n, o);
    WrittenStep(l, i, src, off, tot, k, o, w, n, addr, done, blocks, inodes, dirty,
                blocks1, inodes1, dirty1, blocks2, inodes2, dirty2);
    WrittenStep(l, i, src, off, tot, 0, o, [], n, addr, tot, blocks, inodes, dirty,
                blocks1, inodes1, dirty1, stale, inodes2, dirty2);
  }

  /** The change of the size at the end of a write. */
  lemma ResizedHolds(l: Layout, i: nat, src: seq<Byte>, off: nat, m: nat, tot: nat, size: nat,
                     blocks: seq<Block>, inodes: seq<Inode>, dirty: set<nat>,
                     blocks': seq<Block>, inodes': seq<Inode>, dirty': set<nat>)
    requires Written(l, i, src, off, m, blocks, inodes, dirty, blocks', inodes', dirty')
    requires tot <= m && size == Max(inodes[i].size, off + tot)
    ensures Holds(i, src, off, m, tot, blocks, inodes, blocks', inodes'[i := inodes'[i].(size := size)])
  {
    ResizeKeepsBytes(inodes'[i], blocks', size, Max(inodes[i].size, off + m));
  }

  /** After a write of `src[..m]` to file `i` at `off`, of which `tot` bytes are counted, the file holds what it should
      and the other files what they did. */
  ghost predicate Holds(i: nat, src: seq<Byte>, off: nat, m: nat, tot: nat,
                        blocks: seq<Block>, inodes: seq<Inode>, blocks': seq<Block>, inodes': seq<Inode>)
  {
    && i < |inodes| && OthersSame(i, blocks, inodes, blocks', inodes')
    && |inodes[i].addrs| == |inodes'[i].addrs| == NDIRECT + 1 && off <= inodes[i].size <= MAXFILE * BSIZE
    && tot <= m <= |src| && inodes'[i].size == Max(inodes[i].size, off + tot) && inodes'[i].meta == inodes[i].meta
    && Filled(inodes'[i], blocks', inodes'[i].size)
    && Bytes(inodes'[i], blocks', inodes'[i].size) ==
       Splice(Bytes(inodes[i], blocks, inodes[i].size), off, src[..m])[..inodes'[i].size]
  }

  /** Every byte of a file has its block. */
  lemma FilledHas(ip: Inode, blocks: seq<Block>, n: nat, o: nat)
    requires |ip.addrs| == NDIRECT + 1 && Filled(ip, blocks, n) && o < MAXFILE * BSIZE
    ensures o < n ==> Ref(ip, blocks, DataSlot(o / BSIZE)) != 0
  {
  }

  lemma OthersSameStarts(i: nat, blocks: seq<Block>, inodes: seq<Inode>)
    requires AllFilled(blocks, inodes)
    ensures OthersSame(i, blocks, inodes, blocks, inodes)
  {
  }

  /** Between two states, inode `i` gave up some of its blocks, and these became free. */
  ghost predicate Released(i: nat, used: set<nat>, owner: map<nat, Place>, used': set<nat>, owner': map<nat, Place>) {
    && owner'.Keys <= owner.Keys
    && used' == used - (owner.Keys - owner'.Keys)
    && (forall b :: b in owner' ==> owner'[b] == owner[b])
    && (forall b :: b in owner && b !in owner' ==> owner[b].inum == i)
  }

  lemma ReleasedTwice(i: nat, used: set<nat>, owner: map<nat, Place>, used1: set<nat>, owner1: map<nat, Place>,
                      used2: set<nat>, owner2: map<nat, Place>)
    requires Released(i, used, owner, used1, owner1) && Released(i, used1, owner1, used2, owner2)
    ensures Released(i, used, owner, used2, owner2)
  {
  }

  lemma ReleasedSet(i: nat, used: set<nat>, owner: map<nat, Place>, gone: set<nat>)
    requires forall b :: b in gone ==> b in owner && owner[b].inum == i
    ensures Released(i, used, owner, used - gone, owner - gone)
  {
    assert owner.Keys - (owner - gone).Keys == gone;
  }

  /** An inode without references that gave up blocks gave up exactly all it owned. */
  lemma ReleasedAll(l: Layout, i: nat, used: set<nat>, owner: map<nat, Place>, used': set<nat>, owner': map<nat, Place>,
                    blocks: seq<Block>, inodes: seq<Inode>)
    requires Released(i, used, owner, used', owner') && Owned(l, used', blocks, inodes, owner')
    requires i < |inodes| && forall s: Slot :: Ref(inodes[i], blocks, s) == 0
    ensures forall b :: b in used' <==> b in used && !(b in owner && owner[b].inum == i)
  {
    forall b | b in owner'
      ensures owner'[b].inum != i
    {
      assert Ref(inodes[owner'[b].inum], blocks, owner'[b].slot) == b;
    }
  }

  lemma EntriesNone(a: Block, used: set<nat>)
    ensures used - Entries(a, 0) == used
  {
  }

  lemma EntriesNext(a: Block, j: nat, used: set<nat>)
    requires j < NINDIRECT
    ensures used - Entries(a, j + 1) == used - Entries(a, j) - NonZero(Word(a, j))
  {
    hide Word;
  }

  /** The indirect block is a block in use. */
  lemma IndirectUsed(l: Layout, used: set<nat>, blocks: seq<Block>, inodes: seq<Inode>, owner: map<nat, Place>, i: nat)
    requires Owned(l, used, blocks, inodes, owner) && i < |inodes| && inodes[i].addrs[NDIRECT] != 0
    ensures inodes[i].addrs[NDIRECT] < l.size && inodes[i].addrs[NDIRECT] in used
  {
    assert Ref(inodes[i], blocks, NDIRECT) == inodes[i].addrs[NDIRECT];
  }

  /** An entry of the indirect block is a block in use that no earlier entry names. */
  lemma EntryUsed(l: Layout, used: set<nat>, blocks: seq<Block>, inodes: seq<Inode>, owner: map<nat, Place>, i: nat,
                  j: nat)
    requires Owned(l, used, blocks, inodes, owner) && i < |inodes| && j < NINDIRECT &&
             0 < inodes[i].addrs[NDIRECT] < l.size
    requires Word(blocks[inodes[i].addrs[NDIRECT]], j) != 0
    ensures var a := blocks[inodes[i].addrs[NDIRECT]];
            Word(a, j) in used && Word(a, j) < l.size && Word(a, j) !in Entries(a, j)
  {
    var a := blocks[inodes[i].addrs[NDIRECT]];
    var b := Word(a, j);
    assert Ref(inodes[i], blocks, NDIRECT + 1 + j) == b;
    if b in Entries(a, j) {
      EntriesOwned(l, used, blocks, inodes, owner, i, j, b);
    }
  }

  class Disk {
    const l: Layout
    var bitmap: Bitmap
    var blocks: seq<Block>
    var inodes: seq<Inode>
    var dinodes: seq<Inode>
    /** What is on the disk itself; the other fields are as the buffers have it. */
    var image: Image
    /** The blocks that earlier operations of the open transaction listed, and those that this one did. */
    var earlier: set<nat>
    var dirty: set<nat>
    ghost var owner: map<nat, Place>
    ghost var imageOwner: map<nat, Place>

    ghost predicate Sound()
      reads this
    {
      && GoodBitmap(bitmap, l.size)
      && Owned(l, UsedSet(bitmap, l.size), blocks, inodes, owner)
      && |dinodes| == |inodes| && MetaBelow(l, |dinodes|)
      && MetaListed()
    }

    /** Every bitmap block and every inode that differs from the disk is listed. */
    ghost predicate MetaListed()
      reads this
    {
      MetaLogged(l, bitmap, dinodes, image, Listed())
    }

    /** What is on the disk is a file system of its own. */
    ghost predicate Recoverable()
      reads this`image, this`imageOwner
    {
      GoodImage(l, image, imageOwner)
    }

    /** The blocks listed in the open transaction. */
    function Listed(): (r: set<nat>)
      reads this
    {
      earlier + dirty
    }

    /** The invariant between operations: blocks are owned and every file has all its blocks. */
    ghost predicate Valid()
      reads this
    {
      && Sound() && AllFilled(blocks, inodes) && Steady(l, blocks, inodes, image.blocks, Listed())
      && dinodes == inodes && Recoverable()
    }

    ghost function Used(): (r: set<nat>)
      reads this`bitmap
      requires GoodBitmap(bitmap, l.size)
    {
      UsedSet(bitmap, l.size)
    }

    /** No block is free. */
    ghost predicate Full()
      reads this`bitmap
    {
      GoodBitmap(bitmap, l.size) && forall b: nat :: b < l.size ==> b in Used()
    }

    /** The contents of file `i`. */
    ghost function Content(i: nat): (r: seq<Byte>)
      reads this
      requires Valid() && i < |inodes|
    {
      Bytes(inodes[i], blocks, inodes[i].size)
    }

    /** The contents that file `i` has on the disk once the open transaction has been committed. */
    ghost function LoggedContent(i: nat): (r: seq<Byte>)
      reads this
      requires Valid() && i < |inodes|
    {
      Bytes(inodes[i], Logged(blocks, image.blocks, Listed()), inodes[i].size)
    }

    /** The contents that file `i` has on the disk. */
    ghost function DiskContent(i: nat): (r: seq<Byte>)
      reads this
      requires Valid() && i < |inodes|
    {
      Bytes(image.inodes[i], image.blocks, image.inodes[i].size)
    }

    /** Every buffer that differs from the disk is listed. */
    ghost predicate AllLogged()
      reads this
    {
      Clean(blocks, image.blocks, Listed())
    }

    /** A write of `n` bytes at `off` to file `i` faults in a block that is listed already. */
    ghost predicate FaultListed(i: nat, off: nat, n: nat, avail: nat)
      reads this
      requires Valid() && i < |inodes|
    {
      var b := FaultBlock(inodes[i], blocks, off, n, avail);
      b != 0 && b in Listed()
    }

    /** The blocks that a commit leaves on the disk. */
    ghost function LoggedBlocks(): (r: seq<Block>)
      reads this
      requires Valid()
    {
      Logged(blocks, image.blocks, Listed())
    }

    /** With an empty log, every file is on the disk as a commit would leave it. */
    lemma NothingListed()
      requires Valid() && Listed() == {}
      ensures LoggedBlocks() == image.blocks && image.inodes == inodes
      ensures forall j :: 0 <= j < |inodes| ==> DiskContent(j) == LoggedContent(j)
    {
      LoggedAgain(blocks, image.blocks);
      assert image.inodes == inodes;
    }

    lemma InodeShape(i: nat)
      requires Valid() && i < |inodes|
      ensures |inodes[i].addrs| == NDIRECT + 1
    {
    }

    lemma AllListed(i: nat)
      requires Valid() && i < |inodes| && AllLogged()
      ensures LoggedContent(i) == Content(i) && LoggedBlocks() == blocks
    {
      CleanLogged(blocks, image.blocks, Listed());
    }

    /** Mount a disk that satisfies the invariant. */
    constructor (l: Layout, bitmap: Bitmap, blocks: seq<Block>, inodes: seq<Inode>, ghost owner: map<nat, Place>)
      requires GoodBitmap(bitmap, l.size) && Owned(l, UsedSet(bitmap, l.size), blocks, inodes, owner)
      requires AllFilled(blocks, inodes) && MetaBelow(l, |inodes|)
      ensures Valid() && this.l == l && this.bitmap == bitmap && this.blocks == blocks && this.inodes == inodes
      ensures image == Image(bitmap, blocks, inodes) && AllLogged() && Listed() == {}
    {
      this.l := l;
      this.bitmap := bitmap;
      this.blocks := blocks;
      this.image := Image(bitmap, blocks, inodes);
      this.inodes := inodes;
      this.dinodes := inodes;
      this.earlier, this.dirty := {}, {};
      this.owner, this.imageOwner := owner, owner;
    }

    /** Another operation begins. What the transaction lists stays listed. */
    method NextOp()
      requires Valid()
      modifies this`earlier, this`dirty
      ensures Valid() && Listed() == old(Listed()) && dirty == {}
    {
      earlier, dirty := earlier + dirty, {};
    }

    /** The open transaction is committed: every listed block goes to the disk as its buffer is now. On the disk there
        is again a file system of its own, with the contents that were logged. */
    method Commit()
      requires Valid()
      modifies this`image, this`imageOwner, this`earlier, this`dirty
      ensures Valid() && Listed() == {}
      ensures image == LoggedImage(l, bitmap, blocks, dinodes, old(image), old(Listed()))
      ensures old(AllLogged()) ==> AllLogged()
      ensures LoggedBlocks() == old(LoggedBlocks())
      ensures forall j :: 0 <= j < |inodes| ==> DiskContent(j) == LoggedContent(j) == old(LoggedContent(j))
    {
      LoggedMeta(l, bitmap, blocks, dinodes, image, Listed());
      LoggedGood(l, Used(), blocks, inodes, owner, image.blocks, Listed());
      image := LoggedImage(l, bitmap, blocks, dinodes, image, Listed());
      imageOwner := owner;
      earlier, dirty := {}, {};
      LoggedAgain(blocks, image.blocks);
    }

    /** The machine stops and starts again: the buffers are lost, and the files are as on the disk. */
    method Crash()
      requires Valid()
      modifies this`bitmap, this`blocks, this`inodes, this`dinodes, this`earlier, this`dirty, this`owner
      ensures Valid() && AllLogged() && Listed() == {} && |inodes| == |old(inodes)|
      ensures forall j :: 0 <= j < |inodes| ==> Content(j) == DiskContent(j) == old(DiskContent(j))
    {
      bitmap, blocks, inodes, dinodes := image.bitmap, image.blocks, image.inodes, image.inodes;
      earlier, dirty := {}, {};
      owner := imageOwner;
    }

    // ----- Blocks -----

    /** Look for a clear bit in the bitmap block of `b`. Returns the first block past the set bits. */
    method FirstClear(b: nat) returns (c: nat)
      requires GoodBitmap(bitmap, l.size) && b < l.size && b % BPB == 0
      ensures b <= c <= b + BPB && c <= l.size
      ensures forall k: nat :: b <= k < c ==> BitSet(bitmap, l.size, k)
      ensures c < b + BPB && c < l.size ==> !BitSet(bitmap, l.size, c)
    {
      var bi := 0;
      while bi < BPB && b + bi < l.size && BitSet(bitmap, l.size, b + bi)
        invariant 0 <= bi <= BPB && b + bi <= l.size
        invariant forall k: nat :: b <= k < b + bi ==> BitSet(bitmap, l.size, k)
      {
        bi := bi + 1;
      }
      c := b + bi;
    }

    /** Mark block `r` used and zero it. */
    method TakeBlock(r: nat)
      requires GoodBitmap(bitmap, l.size) && |blocks| == l.size && 0 < r < l.size && r !in Used()
      modifies this`bitmap, this`blocks, this`dirty
      ensures GoodBitmap(bitmap, l.size) && Used() == old(Used()) + {r} && BitChanged(old(bitmap), bitmap, r, true)
      ensures blocks == old(blocks)[r := ZEROS]
      ensures DirtyWithin(l, dirty, old(dirty) + NonZero(r)) && old(dirty) + {r} <= dirty
      ensures old(MetaListed()) ==> MetaListed()
    {
      MetaSetBit(l, bitmap, dinodes, image, Listed(), r, true, Listed() + {l.bmapstart + r / BPB, r});
      assert earlier + (dirty + {l.bmapstart + r / BPB, r}) == Listed() + {l.bmapstart + r / BPB, r};
      bitmap := SetBit(bitmap, l.size, r, true);
      blocks := blocks[r := ZEROS];
      dirty := dirty + {l.bmapstart + r / BPB, r};
      assert IsBitmapBlock(l, l.bmapstart + r / BPB);
    }

    /** Take the first free block, mark it used and zero it. Returns 0 exactly when no block is free;
        nothing changes then. */
    method Balloc() returns (r: nat)
      requires GoodBitmap(bitmap, l.size) && |blocks| == l.size && 1 <= l.datastart
      requires forall b: nat :: b < l.datastart ==> b in Used()
      modifies this`bitmap, this`blocks, this`dirty
      ensures GoodBitmap(bitmap, l.size)
      ensures r == 0 ==> bitmap == old(bitmap) && blocks == old(blocks) && dirty == old(dirty)
      ensures r == 0 ==> Full()
      ensures r != 0 ==> l.datastart <= r < l.size && r !in old(Used()) && Used() == old(Used()) + {r}
      ensures r != 0 ==> forall b: nat :: b < r ==> b in old(Used())
      ensures r != 0 ==> BitChanged(old(bitmap), bitmap, r, true)
      ensures r != 0 ==> blocks == old(blocks)[r := ZEROS]
      ensures DirtyWithin(l, dirty, old(dirty) + NonZero(r)) && old(dirty) + NonZero(r) <= dirty
      ensures old(MetaListed()) ==> MetaListed()
    {
      var b := 0;
      while b < l.size
        invariant bitmap == old(bitmap) && blocks == old(blocks) && dirty == old(dirty)
        invariant b % BPB == 0
        invariant forall c: nat :: c < b && c < l.size ==> BitSet(bitmap, l.size, c)
      {
        r := FirstClear(b);
        if r < b + BPB && r < l.size {
          assert r !in Used();
          TakeBlock(r);
          return;
        }
        b := b + BPB;
      }
      r := 0;
    }

    /** Mark a block free. The source panics when the block is free already. */
    method Bfree(b: nat)
      requires GoodBitmap(bitmap, l.size) && b < l.size
      requires b in Used()
      modifies this`bitmap, this`dirty
      ensures GoodBitmap(bitmap, l.size)
      ensures Used() == old(Used()) - {b} && BitChanged(old(bitmap), bitmap, b, false)
      ensures DirtyWithin(l, dirty, old(dirty)) && old(dirty) <= dirty
      ensures old(MetaListed()) ==> MetaListed()
    {
      MetaSetBit(l, bitmap, dinodes, image, Listed(), b, false, Listed() + {l.bmapstart + b / BPB});
      assert earlier + (dirty + {l.bmapstart + b / BPB}) == Listed() + {l.bmapstart + b / BPB};
      bitmap := SetBit(bitmap, l.size, b, false);
      dirty := dirty + {l.bmapstart + b / BPB};
      assert IsBitmapBlock(l, l.bmapstart + b / BPB);
    }

    // ----- The block map -----

    /** Allocate a block for address `s` of inode `i`, which has none. */
    method BallocAddr(i: nat, s: nat) returns (r: nat)
      requires Sound() && i < |inodes| && s <= NDIRECT && inodes[i].addrs[s] == 0
      modifies this`bitmap, this`blocks, this`inodes, this`owner, this`dirty
      ensures Sound() && Keeps(old(blocks), old(inodes), blocks, inodes)
      ensures inodes == if r == 0 then old(inodes) else WithAddr(old(inodes), i, s, r)
      ensures r == 0 ==> blocks == old(blocks)
      ensures r == 0 ==> Full()
      ensures DirtyWithin(l, dirty, old(dirty) + NonZero(r)) && NonZero(r) <= dirty
      ensures Logs(old(blocks), old(inodes), old(dirty), blocks, inodes, dirty)
    {
      hide RefsOwned, OwnersRefer, Word, BitSet, MetaLogged, MetaBelow;
      r := Balloc();
      if r != 0 {
        AttachAddr(l, old(Used()), old(blocks), old(inodes), old(owner), i, s, r);
        inodes := WithAddr(inodes, i, s, r);
        owner := owner[r := Place(i, s)];
      }
    }

    /** Allocate a block for entry `j` of inode `i`'s indirect block, which has none. */
    method BallocEntry(i: nat, j: nat) returns (r: nat)
      requires Sound() && i < |inodes| && j < NINDIRECT
      requires 0 < inodes[i].addrs[NDIRECT] < l.size && Word(blocks[inodes[i].addrs[NDIRECT]], j) == 0
      modifies this`bitmap, this`blocks, this`owner, this`dirty
      ensures Sound() && Keeps(old(blocks), inodes, blocks, inodes)
      ensures Ref(inodes[i], blocks, NDIRECT + 1 + j) == r
      ensures r == 0 ==> Full()
      ensures DirtyWithin(l, dirty, old(dirty) + NonZero(r) + {inodes[i].addrs[NDIRECT]}) && NonZero(r) <= dirty
      ensures Logs(old(blocks), inodes, old(dirty), blocks, inodes, dirty)
    {
      hide RefsOwned, OwnersRefer, Word, BitSet, MetaLogged, MetaBelow;
      var a := inodes[i].addrs[NDIRECT];
      r := Balloc();
      if r != 0 {
        AttachEntry(l, old(Used()), old(blocks), inodes, old(owner), i, j, r);
        blocks := blocks[a := SetWord(blocks[a], j, r)];
        assert blocks == old(blocks)[r := ZEROS][a := SetWord(old(blocks)[a], j, r)];
        MetaMore(l, bitmap, dinodes, image, Listed(), earlier + (dirty + {a}));
        dirty := dirty + {a};
        owner := owner[r := Place(i, NDIRECT + 1 + j)];
      }
    }

    /** The indirect block of inode `i`, allocated if there is none. */
    method LoadIndirect(i: nat) returns (a: nat)
      requires Sound() && i < |inodes|
      modifies this`bitmap, this`blocks, this`inodes, this`owner, this`dirty
      ensures Sound() && Keeps(old(blocks), old(inodes), blocks, inodes)
      ensures a == inodes[i].addrs[NDIRECT] < l.size
      ensures forall j :: 0 <= j < |inodes| && j != i ==> inodes[j] == old(inodes)[j]
      ensures a == 0 ==> Full()
      ensures old(inodes)[i].addrs[NDIRECT] != 0 ==> unchanged(this)
      ensures DirtyWithin(l, dirty, old(dirty) + NonZero(a))
      ensures Logs(old(blocks), old(inodes), old(dirty), blocks, inodes, dirty)
    {
      a := inodes[i].addrs[NDIRECT];
      if a == 0 {
        a := BallocAddr(i, NDIRECT);
      }
      assert a == Ref(inodes[i], blocks, NDIRECT);
    }

    /** The disk block of entry `j` of inode `i`'s indirect block, both allocated if need be. */
    method BmapIndirect(i: nat, j: nat) returns (addr: nat)
      requires Sound() && i < |inodes| && j < NINDIRECT
      modifies this`bitmap, this`blocks, this`inodes, this`owner, this`dirty
      ensures Sound() && Keeps(old(blocks), old(inodes), blocks, inodes)
      ensures addr == Ref(inodes[i], blocks, NDIRECT + 1 + j)
      ensures forall k :: 0 <= k < |inodes| && k != i ==> inodes[k] == old(inodes)[k]
      ensures addr == 0 ==> Full()
      ensures Ref(old(inodes)[i], old(blocks), NDIRECT + 1 + j) != 0 ==> unchanged(this)
      ensures DirtyWithin(l, dirty, old(dirty) + NonZero(inodes[i].addrs[NDIRECT]) + NonZero(addr))
      ensures Logs(old(blocks), old(inodes), old(dirty), blocks, inodes, dirty)
    {
      var a := LoadIndirect(i);
      if a == 0 {
        return 0;
      }
      addr := Word(blocks[a], j);
      if addr == 0 {
        ghost var blocks1, inodes1, dirty1 := blocks, inodes, dirty;
        addr := BallocEntry(i, j);
        KeepsTransitive(old(blocks), old(inodes), blocks1, inodes1, blocks, inodes);
        LogsTwice(old(blocks), old(inodes), old(dirty), blocks1, inodes1, dirty1, blocks, inodes, dirty);
      }
    }

    /** The disk block of the bn-th block of file `i`, allocated if there is none. Returns 0 only when
        the disk is full. Every existing reference and every data block stays, and a block that exists
        is found without any change. The source panics when `bn` is out of range. */
    method Bmap(i: nat, bn: nat) returns (addr: nat)
      requires Sound() && i < |inodes| && bn < MAXFILE
      modifies this`bitmap, this`blocks, this`inodes, this`owner, this`dirty
      ensures Sound() && Keeps(old(blocks), old(inodes), blocks, inodes)
      ensures addr == Ref(inodes[i], blocks, DataSlot(bn))
      ensures bn < NDIRECT ==> addr == inodes[i].addrs[bn]
      ensures bn >= NDIRECT && inodes[i].addrs[NDIRECT] != 0 ==>
                inodes[i].addrs[NDIRECT] < |blocks| && addr == Word(blocks[inodes[i].addrs[NDIRECT]], bn - NDIRECT)
      ensures bn >= NDIRECT && inodes[i].addrs[NDIRECT] == 0 ==> addr == 0
      ensures forall j :: 0 <= j < |inodes| && j != i ==> inodes[j] == old(inodes)[j]
      ensures addr == 0 ==> Full()
      ensures Ref(old(inodes)[i], old(blocks), DataSlot(bn)) != 0 ==> unchanged(this)
      ensures DirtyWithin(l, dirty, old(dirty) + NonZero(inodes[i].addrs[NDIRECT]) + NonZero(addr))
      ensures Logs(old(blocks), old(inodes), old(dirty), blocks, inodes, dirty)
    {
      hide RefsOwned, OwnersRefer, Word;
      if bn < NDIRECT {
        addr := inodes[i].addrs[bn];
        if addr == 0 {
          addr := BallocAddr(i, bn);
        }
      } else {
        addr := BmapIndirect(i, bn - NDIRECT);
        if inodes[i].addrs[NDIRECT] != 0 {
          IndirectUsed(l, Used(), blocks, inodes, owner, i);
        }
      }
    }

    /** Copy the in-core inode to the disk. */
    method Iupdate(i: nat)
      requires i < |inodes| == |dinodes|
      modifies this`dinodes, this`dirty
      ensures dinodes == old(dinodes)[i := inodes[i]]
      ensures dirty == old(dirty) + {i / IPB + l.inodestart}
    {
      dinodes := dinodes[i := inodes[i]];
      dirty := dirty + {i / IPB + l.inodestart};
    }

    // ----- Reading and writing -----

    /** The `k` bytes of file `i` at offset `o`, which lie inside the file and inside one block. */
    method ReadBlock(i: nat, o: nat, k: nat) returns (chunk: seq<Byte>)
      requires Valid() && i < |inodes| && o < inodes[i].size
      requires o % BSIZE + k <= BSIZE && o + k <= inodes[i].size
      modifies this`bitmap, this`blocks, this`inodes, this`owner, this`dirty
      ensures unchanged(this)
      ensures chunk == Content(i)[o..o + k]
    {
      assert Ref(inodes[i], blocks, DataSlot(o / BSIZE)) != 0;
      var addr := Bmap(i, o / BSIZE);
      ChunkOfBytes(inodes[i], blocks, inodes[i].size, o, k);
      chunk := blocks[addr][o % BSIZE..o % BSIZE + k];
    }

    /** Read up to `n` bytes of file `i` from offset `off`. `room` is how many bytes the destination can
        take before it faults. Reading never allocates, because a file has all its blocks; it returns
        exactly the requested slice, cut off at the end of the file. */
    method Readi(i: nat, off: nat, n: nat, room: nat) returns (r: int, out: seq<Byte>)
      requires Valid() && i < |inodes| && off < WORD_LIMIT && n < WORD_LIMIT
      modifies this`bitmap, this`blocks, this`inodes, this`owner, this`dirty
      ensures unchanged(this)
      ensures off > inodes[i].size || off + n >= WORD_LIMIT ==> r == 0
      ensures off <= inodes[i].size && off + n < WORD_LIMIT ==>
                var m := Min(n, inodes[i].size - off);
                if m > room then r == -1 else r == m && out == Content(i)[off..off + m]
    {
      out := [];
      ghost var c := Content(i);
      var size := inodes[i].size;
      if off > size || off + n >= WORD_LIMIT {
        return 0, out;
      }
      var m := Min(n, size - off);
      var tot := 0;
      while tot < m
        invariant unchanged(this) && 0 <= tot <= m && tot <= room
        invariant out == c[off..off + tot]
      {
        var o := off + tot;
        var k := ChunkLen(o, m - tot);
        var chunk := ReadBlock(i, o, k);
        if tot + k > room {
          return -1, out;
        }
        out := Joined(c, off, o, o + k, out, chunk);
        tot := tot + k;
      }
      r := tot;
    }

    /** Copy `w` into the block of file `i` that holds offset `o`, allocating the block if need be, and
        log it if `log`. The file has its first `n` bytes; `w` stays inside the block. `stale` are the blocks before
        the copy: what a commit would make permanent if the block is not listed. */
    method WriteBlock(i: nat, o: nat, w: seq<Byte>, log: bool, ghost n: nat)
      returns (addr: nat, ghost stale: seq<Block>)
      requires Sound() && i < |inodes| && Steady(l, blocks, inodes, image.blocks, Listed())
      requires Filled(inodes[i], blocks, n) && inodes[i].size <= n
      requires o <= n && o < MAXFILE * BSIZE && o % BSIZE + |w| <= BSIZE
      modifies this`bitmap, this`blocks, this`inodes, this`owner, this`dirty
      ensures Sound() && Steady(l, blocks, inodes, image.blocks, Listed()) && (addr == 0 ==> Full()) &&
              old(dirty) <= dirty
      ensures BlockWritten(l, i, o, w, n, addr, old(blocks), old(inodes), old(dirty), blocks, inodes, dirty)
      ensures BlockWritten(l, i, o, [], n, addr, old(blocks), old(inodes), old(dirty), stale, inodes, dirty)
      ensures addr == 0 ==> stale == blocks && Ref(old(inodes)[i], old(blocks), DataSlot(o / BSIZE)) == 0
      ensures Ref(old(inodes)[i], old(blocks), DataSlot(o / BSIZE)) != 0 ==>
                && addr == Ref(old(inodes)[i], old(blocks), DataSlot(o / BSIZE))
                && dirty == old(dirty) + if log then {addr} else {}
      ensures old(AllLogged()) && (log || addr == 0 || addr in Listed()) ==> AllLogged()
      ensures old(AllLogged()) && !log && addr !in Listed() ==> Logged(blocks, image.blocks, Listed()) == stale
    {
      hide RefsOwned, OwnersRefer, Steady, Clean, Logs, Logged;
      addr := FindBlock(i, o, n);
      ghost var blocks1, inodes1, dirty1 := blocks, inodes, dirty;
      SteadyLogs(l, old(blocks), old(inodes), old(dirty), blocks, inodes, dirty, image.blocks, earlier);
      LogsMore(old(blocks), old(inodes), old(dirty), blocks, inodes, dirty);
      stale := blocks;
      if addr != 0 {
        PatchBlock(i, addr, o, w, log, n);
      } else if AllLogged() {
        CleanLogged(blocks, image.blocks, Listed());
      }
      BlockPatched(l, i, o, w, n, addr, old(blocks), old(inodes), old(dirty), blocks1, inodes1, dirty1, blocks, dirty);
    }

    /** The block of file `i` that holds offset `o`, allocated if need be; no file changes. */
    method FindBlock(i: nat, o: nat, ghost n: nat) returns (addr: nat)
      requires Sound() && i < |inodes| && Filled(inodes[i], blocks, n) && o <= n && o < MAXFILE * BSIZE
      modifies this`bitmap, this`blocks, this`inodes, this`owner, this`dirty
      ensures Sound() && (addr == 0 ==> Full())
      ensures BlockWritten(l, i, o, [], n, addr, old(blocks), old(inodes), old(dirty), blocks, inodes, dirty)
      ensures Logs(old(blocks), old(inodes), old(dirty), blocks, inodes, dirty)
      ensures Ref(old(inodes)[i], old(blocks), DataSlot(o / BSIZE)) != 0 ==> unchanged(this)
    {
      addr := Bmap(i, o / BSIZE);
      KeepsBytes(l, old(Used()), old(blocks), old(inodes), old(owner), blocks, inodes, i, n);
      KeepsOthers(l, old(Used()), old(blocks), old(inodes), old(owner), blocks, inodes, i);
      ghost var c := Bytes(inodes[i], blocks, n);
      assert Splice(c, o, []) == c;
    }

    /** Copy `w` into the existing block of file `i` that holds offset `o`, and log it if `log`. */
    method PatchBlock(i: nat, addr: nat, o: nat, w: seq<Byte>, log: bool, ghost n: nat)
      requires Sound() && i < |inodes| && Filled(inodes[i], blocks, n) &&
               Steady(l, blocks, inodes, image.blocks, Listed())
      requires o <= n && o < MAXFILE * BSIZE && o % BSIZE + |w| <= BSIZE
      requires addr == Ref(inodes[i], blocks, DataSlot(o / BSIZE)) != 0
      modifies this`blocks, this`dirty
      ensures Sound() && OthersSame(i, old(blocks), inodes, blocks, inodes) &&
              Steady(l, blocks, inodes, image.blocks, Listed())
      ensures dirty == old(dirty) + if log then {addr} else {}
      ensures forall s: Slot :: Ref(inodes[i], blocks, s) == Ref(inodes[i], old(blocks), s)
      ensures Filled(inodes[i], blocks, Max(n, o + |w|))
      ensures Bytes(inodes[i], blocks, Max(n, o + |w|)) == Splice(Bytes(inodes[i], old(blocks), n), o, w)
      ensures old(AllLogged()) && addr in Listed() ==> AllLogged()
      ensures old(AllLogged()) && addr !in Listed() ==> Logged(blocks, image.blocks, Listed()) == old(blocks)
    {
      ghost var s := DataSlot(o / BSIZE);
      assert addr < |blocks|;
      hide RefsOwned, OwnersRefer, Word, BitSet, Steady, Clean, Logged, MetaLogged, MetaBelow;
      var data := Patch(blocks[addr], o % BSIZE, w);
      PatchKeepsRefs(l, Used(), blocks, inodes, owner, i, s, data);
      PatchWrites(l, Used(), blocks, inodes, owner, i, o, w, n);
      PatchAllOthers(l, Used(), blocks, inodes, owner, i, s, data);
      ghost var listed' := Listed() + if log then {addr} else {};
      SteadyPatched(l, Used(), blocks, inodes, owner, i, s, addr, data, log, image.blocks, Listed(), listed');
      blocks := blocks[addr := data];
      MetaMore(l, bitmap, dinodes, image, Listed(), listed');
      if log {
        dirty := dirty + {addr};
      }
      assert Listed() == listed';
    }

    /** One turn of the loop of `writei`, which has written `tot` bytes so far. `stale` are the blocks without the bytes
        of a fault, and `f` is the block of the fault. */
    method WritePiece(i: nat, src: seq<Byte>, off: nat, avail: nat, tot: nat, ghost f: nat,
                      ghost blocks0: seq<Block>, ghost inodes0: seq<Inode>, ghost dirty0: set<nat>)
      returns (stop: bool, next: nat, ghost done: nat, ghost stale: seq<Block>)
      requires Sound() && Steady(l, blocks, inodes, image.blocks, Listed())
      requires Written(l, i, src, off, tot, blocks0, inodes0, dirty0, blocks, inodes, dirty)
      requires tot < |src| && tot <= avail && AtBlockEnd(off, |src|, tot)
      requires i < |inodes| && FaultKept(inodes[i], blocks, off, |src|, avail, f, dirty0, dirty)
      modifies this`bitmap, this`blocks, this`inodes, this`owner, this`dirty
      ensures Sound() && Steady(l, blocks, inodes, image.blocks, Listed())
      ensures Written(l, i, src, off, done, blocks0, inodes0, dirty0, blocks, inodes, dirty)
      ensures Written(l, i, src, off, next, blocks0, inodes0, dirty0, stale, inodes, dirty)
      ensures stop ==> next < |src| && Stopped(off, |src|, avail, next, done, Full() && off + |src| > inodes0[i].size)
      ensures !stop ==> tot < next == done <= avail && AtBlockEnd(off, |src|, next) && stale == blocks
      ensures !stop ==> i < |inodes| && FaultKept(inodes[i], blocks, off, |src|, avail, f, dirty0, dirty)
      ensures old(AllLogged()) && !stop ==> AllLogged()
      ensures old(AllLogged()) ==> Permanent(blocks, image.blocks, Listed(), stale, f, earlier + dirty0)
    {
      hide Written, BlockWritten, RefsOwned, OwnersRefer, Steady, Counted, AtBlockEnd, FaultKept, Clean, Logged,
          MetaBelow;
      WrittenHas(l, i, src, off, tot, blocks0, inodes0, dirty0, blocks, inodes, dirty);
      var m := ChunkLen(off + tot, |src| - tot);
      var fault := tot + m > avail;
      var k := if fault then avail - tot else m;
      ghost var blocks1, inodes1, dirty1, clean := blocks, inodes, dirty, AllLogged();
      var o, w := off + tot, src[tot..tot + k];
      ghost var n := Max(inodes0[i].size, o);
      var addr;
      addr, stale := WriteBlock(i, o, w, !fault, n);
      SteadySize(l, blocks, inodes, image.blocks, Listed());
      done := if addr == 0 then tot else tot + k;
      stop := addr == 0 || fault;
      next := if stop then tot else tot + m;
      ghost var kept := if stop then stale else blocks;
      PieceWritten(l, i, src, off, tot, k, o, w, n, addr, done, blocks0, inodes0, dirty0,
                   blocks1, inodes1, dirty1, blocks, stale, inodes, dirty, stop, next, kept);
      PieceEnds(off, |src|, avail, tot, m, fault, k, addr == 0, stop, next, done);
      if clean && (!fault || addr == 0 || addr in Listed()) {
        CleanLogged(blocks, image.blocks, Listed());
      }
      if fault {
        FaultFound(off, |src|, avail, tot, inodes1[i], blocks1, f, dirty0, dirty1);
      } else if !stop {
        PieceKeepsFault(l, Used(), owner, i, off, |src|, avail, tot, f, w, n, addr, dirty0,
                        blocks1, inodes1, dirty1, blocks, inodes, dirty);
      }
      stale := kept;
    }

    /** The loop of `writei`: copy `src` into file `i` block by block until it is all written, the disk is
        full or the source faults after `avail` bytes. `tot` bytes are counted as written; a fault inside a
        block leaves the bytes before it, up to `done`, in the cached block. `stale` are the blocks without them. */
    method WriteLoop(i: nat, src: seq<Byte>, off: nat, avail: nat, ghost f: nat)
      returns (tot: nat, ghost done: nat, ghost stale: seq<Block>)
      requires Sound() && i < |inodes| && Filled(inodes[i], blocks, inodes[i].size)
      requires Steady(l, blocks, inodes, image.blocks, Listed())
      requires off <= inodes[i].size && off + |src| <= MAXFILE * BSIZE
      requires f == FaultBlock(inodes[i], blocks, off, |src|, avail)
      modifies this`bitmap, this`blocks, this`inodes, this`owner, this`dirty
      ensures Sound() && Steady(l, blocks, inodes, image.blocks, Listed())
      ensures Stopped(off, |src|, avail, tot, done, Full() && off + |src| > old(inodes)[i].size)
      ensures Written(l, i, src, off, done, old(blocks), old(inodes), old(dirty), blocks, inodes, dirty)
      ensures Written(l, i, src, off, tot, old(blocks), old(inodes), old(dirty), stale, inodes, dirty)
      ensures old(AllLogged()) ==> Permanent(blocks, image.blocks, Listed(), stale, f, old(Listed()))
      ensures old(AllLogged()) && tot == |src| ==> AllLogged()
    {
      hide RefsOwned, OwnersRefer, MetaLogged, MetaBelow, Steady, Clean, Logged, Used;
      tot, done, stale := 0, 0, blocks;
      WrittenStarts(l, i, src, off, blocks, inodes, dirty);
      ghost var clean := AllLogged();
      SteadySize(l, blocks, inodes, image.blocks, Listed());
      if clean {
        CleanLogged(blocks, image.blocks, Listed());
      }
      while tot < |src|
        invariant done == tot <= |src| && tot <= avail && AtBlockEnd(off, |src|, tot) && stale == blocks
        invariant Sound() && Steady(l, blocks, inodes, image.blocks, Listed())
        invariant clean ==> AllLogged() && Permanent(blocks, image.blocks, Listed(), stale, f, earlier + old(dirty))
        invariant Written(l, i, src, off, done, old(blocks), old(inodes), old(dirty), blocks, inodes, dirty)
        invariant i < |inodes| && FaultKept(inodes[i], blocks, off, |src|, avail, f, old(dirty), dirty)
      {
        var stop;
        stop, tot, done, stale := WritePiece(i, src, off, avail, tot, f, old(blocks), old(inodes), old(dirty));
        if stop {
          return;
        }
      }
    }

    /** Write `src` to file `i` at offset `off`; `avail` is how many bytes of the source can be read before
        it faults. The call fails with -1, and changes nothing, exactly when the range starts past the end
        of the file, wraps around 32 bits or passes the largest file. Otherwise it returns the number `r`
        of bytes counted as written. No other file changes, and the inode is written back. */
    method Writei(i: nat, src: seq<Byte>, off: nat, avail: nat) returns (r: int, ghost done: nat)
      requires Valid() && i < |inodes| && off < WORD_LIMIT && |src| < WORD_LIMIT
      modifies this
      ensures Valid() && OthersSame(i, old(blocks), old(inodes), blocks, inodes)
      ensures r == -1 <==> off > old(inodes)[i].size || off + |src| >= WORD_LIMIT || off + |src| > MAXFILE * BSIZE
      ensures r == -1 ==> unchanged(this) && done == 0
      ensures r != -1 ==>
                && WriteResult(old(Content(i)), off, src, avail, r, done, Content(i), old(AllLogged()),
                               old(FaultListed(i, off, |src|, avail)), LoggedContent(i), Full())
                && (old(AllLogged()) && r == |src| ==> AllLogged())
                && dinodes == old(dinodes)[i := inodes[i]] && inodes[i].meta == old(inodes)[i].meta
                && DirtyWithin(l, dirty, old(dirty) + Touched(inodes[i], blocks, off, |src|) + {i / IPB + l.inodestart})
      ensures image == old(image) && earlier == old(earlier)
      ensures old(AllLogged()) ==> OthersSame(i, old(blocks), old(inodes), LoggedBlocks(), inodes)
    {
      hide RefsOwned, OwnersRefer, MetaBelow, MetaLogged, GoodImage, Steady, Clean, Logged, DirtyWithin, Filled;
      done := 0;
      OthersSameStarts(i, blocks, inodes);
      if off > inodes[i].size || off + |src| >= WORD_LIMIT || off + |src| > MAXFILE * BSIZE {
        if AllLogged() {
          CleanLogged(blocks, image.blocks, Listed());
        }
        return -1, 0;
      }
      ghost var stale, f := [], FaultBlock(inodes[i], blocks, off, |src|, avail);
      r, done, stale := WriteRange(i, src, off, avail, f);
      OthersFilled(i, old(blocks), old(inodes), blocks, inodes);
      WriteLeaves(i, src, off, avail, r, done, f, old(blocks), old(inodes), blocks, inodes, stale, old(AllLogged()),
                  image.blocks,
                  old(Listed()), Listed(), Full());
    }

    /** `writei` after its range check. */
    method WriteRange(i: nat, src: seq<Byte>, off: nat, avail: nat, ghost f: nat)
      returns (tot: nat, ghost done: nat, ghost stale: seq<Block>)
      requires Sound() && i < |inodes| && Filled(inodes[i], blocks, inodes[i].size)
      requires Steady(l, blocks, inodes, image.blocks, Listed())
      requires off <= inodes[i].size && off + |src| <= MAXFILE * BSIZE
      requires f == FaultBlock(inodes[i], blocks, off, |src|, avail)
      modifies this`bitmap, this`blocks, this`inodes, this`owner, this`dirty, this`dinodes
      ensures Sound() && Steady(l, blocks, inodes, image.blocks, Listed()) && |inodes| == |old(inodes)|
      ensures dinodes == old(dinodes)[i := inodes[i]]
      ensures DirtyWithin(l, dirty, old(dirty) + Touched(inodes[i], blocks, off, |src|) + {i / IPB + l.inodestart})
      ensures tot <= done <= |src| && Stopped(off, |src|, avail, tot, done, Full() && off + |src| > old(inodes)[i].size)
      ensures Holds(i, src, off, done, tot, old(blocks), old(inodes), blocks, inodes)
      ensures Holds(i, src, off, tot, tot, old(blocks), old(inodes), stale, inodes)
      ensures old(AllLogged()) ==> Permanent(blocks, image.blocks, Listed(), stale, f, old(Listed()))
      ensures old(AllLogged()) && tot == |src| ==> AllLogged()
    {
      tot, done, stale := WriteLoop(i, src, off, avail, f);
      ghost var size := Max(inodes[i].size, off + tot);
      ResizedHolds(l, i, src, off, done, tot, size, old(blocks), old(inodes), old(dirty), blocks, inodes, dirty);
      ResizedHolds(l, i, src, off, tot, tot, size, old(blocks), old(inodes), old(dirty), stale, inodes, dirty);
      FinishWrite(i, src, off, tot, done, old(blocks), old(inodes), old(dirty), stale, f, old(Listed()));
    }

    /** Extend the file to `off + tot` if it is shorter, and write the inode back. */
    method FinishWrite(i: nat, src: seq<Byte>, off: nat, tot: nat, ghost m: nat,
                       ghost blocks0: seq<Block>, ghost inodes0: seq<Inode>, ghost dirty0: set<nat>,
                       ghost stale: seq<Block>, ghost f: nat, ghost listed0: set<nat>)
      requires Sound() && Steady(l, blocks, inodes, image.blocks, Listed()) && tot <= m
      requires Written(l, i, src, off, m, blocks0, inodes0, dirty0, blocks, inodes, dirty)
      modifies this`inodes, this`dinodes, this`dirty
      ensures Sound() && Steady(l, blocks, inodes, image.blocks, Listed())
      ensures inodes == old(inodes)[i := old(inodes)[i].(size := Max(old(inodes)[i].size, off + tot))]
      ensures dinodes == old(dinodes)[i := inodes[i]]
      ensures DirtyWithin(l, dirty, dirty0 + Touched(inodes[i], blocks, off, |src|) + {i / IPB + l.inodestart})
      ensures old(AllLogged()) ==> AllLogged()
      ensures old(Permanent(blocks, image.blocks, Listed(), stale, f, listed0)) ==>
                Permanent(blocks, image.blocks, Listed(), stale, f, listed0)
    {
      var size := Max(inodes[i].size, off + tot);
      ResizeKeepsOwned(l, Used(), blocks, inodes, owner, i, size);
      TouchedResized(inodes[i], blocks, size, off, |src|);
      inodes := inodes[i := inodes[i].(size := size)];
      ListOne(l, blocks, inodes, image.blocks, Listed(), i / IPB + l.inodestart);
      Iupdate(i);
      assert Listed() == old(Listed()) + {i / IPB + l.inodestart};
    }

    /** The cache forgets the buffer of a block that is not listed: what is on the disk comes back. What a commit makes
        of any file does not change. The buffer of a listed block is pinned. */
    method Recycle(b: nat)
      requires Valid() && b < |blocks| && b !in Listed()
      modifies this`blocks
      ensures Valid() && blocks == old(blocks)[b := image.blocks[b]]
      ensures forall j :: 0 <= j < |inodes| ==> LoggedContent(j) == old(LoggedContent(j))
    {
      if blocks[b] == image.blocks[b] {
        assert blocks[b := image.blocks[b]] == blocks;
        return;
      }
      assert forall j :: 0 <= j < |inodes| ==> inodes[j].addrs[NDIRECT] != b;
      RecycleKeeps(l, Used(), blocks, inodes, owner, b, image.blocks[b]);
      assert Logged(blocks[b := image.blocks[b]], image.blocks, Listed()) == Logged(blocks, image.blocks, Listed());
      blocks := blocks[b := image.blocks[b]];
    }

    /** When the cache has forgotten every buffer that is not listed, every file reads as a commit would leave it. */
    method RecycleAll()
      requires Valid()
      modifies this`blocks
      ensures Valid() && AllLogged() && blocks == old(Logged(blocks, image.blocks, Listed()))
      ensures forall j :: 0 <= j < |inodes| ==> Content(j) == old(LoggedContent(j))
    {
      var b := 0;
      ghost var blocks0 := blocks;
      while b < |blocks|
        invariant 0 <= b <= |blocks| == |blocks0| && Valid()
        invariant forall c :: 0 <= c < |blocks| ==>
                  blocks[c] == if c < b && c !in Listed() then image.blocks[c] else blocks0[c]
      {
        if b !in Listed() {
          Recycle(b);
        }
        b := b + 1;
      }
      assert blocks == Logged(blocks0, image.blocks, Listed());
    }

    // ----- Truncation -----

    /** Free direct block `s` of inode `i`, if it has one. */
    method FreeAddr(i: nat, s: nat)
      requires Sound() && i < |inodes| && s < NDIRECT
      modifies this`bitmap, this`inodes, this`owner, this`dirty
      ensures Sound() && inodes == WithAddr(old(inodes), i, s, 0)
      ensures Released(i, old(Used()), old(owner), Used(), owner)
      ensures old(dirty) <= dirty
    {
      hide MetaLogged, MetaBelow;
      var b := inodes[i].addrs[s];
      if b != 0 {
        DetachAddr(l, Used(), blocks, inodes, owner, i, s);
        Bfree(b);
        inodes := WithAddr(inodes, i, s, 0);
        ReleasedSet(i, old(Used()), owner, {b});
        owner := owner - {b};
      } else {
        assert inodes[i].addrs[s := 0] == inodes[i].addrs;
      }
    }

    /** Free the direct blocks of inode `i`. */
    method TruncDirect(i: nat)
      requires Sound() && i < |inodes|
      modifies this`bitmap, this`inodes, this`owner, this`dirty
      ensures Sound() && |inodes| == |old(inodes)|
      ensures forall j :: 0 <= j < |inodes| && j != i ==> inodes[j] == old(inodes)[j]
      ensures inodes[i].meta == old(inodes)[i].meta
      ensures forall s :: 0 <= s < NDIRECT ==> inodes[i].addrs[s] == 0
      ensures inodes[i].addrs[NDIRECT] == old(inodes)[i].addrs[NDIRECT]
      ensures Released(i, old(Used()), old(owner), Used(), owner)
      ensures old(dirty) <= dirty
    {
      var s := 0;
      while s < NDIRECT
        invariant 0 <= s <= NDIRECT && Sound() && |inodes| == |old(inodes)|
        invariant forall j :: 0 <= j < |inodes| && j != i ==> inodes[j] == old(inodes)[j]
        invariant inodes[i].meta == old(inodes)[i].meta && forall t :: 0 <= t < s ==> inodes[i].addrs[t] == 0
        invariant inodes[i].addrs[NDIRECT] == old(inodes)[i].addrs[NDIRECT]
        invariant Released(i, old(Used()), old(owner), Used(), owner) && old(dirty) <= dirty
      {
        ghost var used1, owner1 := Used(), owner;
        FreeAddr(i, s);
        ReleasedTwice(i, old(Used()), old(owner), used1, owner1, Used(), owner);
        s := s + 1;
      }
    }

    /** Free the entries of inode `i`'s indirect block. */
    method FreeEntries(i: nat)
      requires Sound() && i < |inodes| && inodes[i].addrs[NDIRECT] != 0
      modifies this`bitmap, this`dirty
      ensures GoodBitmap(bitmap, l.size) && inodes[i].addrs[NDIRECT] < l.size
      ensures Used() == old(Used()) - Entries(blocks[inodes[i].addrs[NDIRECT]], NINDIRECT)
      ensures old(dirty) <= dirty && MetaListed()
    {
      hide RefsOwned, OwnersRefer, Word, Entries, BitSet, MetaLogged;
      IndirectUsed(l, Used(), blocks, inodes, owner, i);
      var a := blocks[inodes[i].addrs[NDIRECT]];
      var j := 0;
      EntriesNone(a, Used());
      while j < NINDIRECT
        invariant 0 <= j <= NINDIRECT && GoodBitmap(bitmap, l.size)
        invariant Used() == old(Used()) - Entries(a, j) && old(dirty) <= dirty
        invariant MetaListed()
      {
        var b := Word(a, j);
        EntriesNext(a, j, old(Used()));
        if b != 0 {
          EntryUsed(l, old(Used()), blocks, inodes, owner, i, j);
          Bfree(b);
        }
        j := j + 1;
      }
    }

    /** Free the entries of inode `i`'s indirect block, then the block itself. */
    method FreeIndirect(i: nat)
      requires Sound() && i < |inodes| && inodes[i].addrs[NDIRECT] != 0
      modifies this`bitmap, this`dirty
      ensures GoodBitmap(bitmap, l.size) && inodes[i].addrs[NDIRECT] < l.size
      ensures Used() == old(Used()) - IndirectSet(blocks, inodes[i].addrs[NDIRECT])
      ensures old(dirty) <= dirty && MetaListed()
    {
      hide MetaLogged, MetaBelow;
      var a := inodes[i].addrs[NDIRECT];
      assert a < l.size && a in Used() && a !in Entries(blocks[a], NINDIRECT) by {
        assert Ref(inodes[i], blocks, NDIRECT) == a;
        if a in Entries(blocks[a], NINDIRECT) {
          EntriesOwned(l, Used(), blocks, inodes, owner, i, NINDIRECT, a);
        }
      }
      FreeEntries(i);
      Bfree(a);
    }

    /** Free the indirect block of inode `i` and its entries. */
    method TruncIndirect(i: nat)
      requires Sound() && i < |inodes| && inodes[i].addrs[NDIRECT] != 0
      modifies this`bitmap, this`inodes, this`owner, this`dirty
      ensures Sound() && inodes == WithAddr(old(inodes), i, NDIRECT, 0)
      ensures Released(i, old(Used()), old(owner), Used(), owner)
      ensures old(dirty) <= dirty
    {
      hide RefsOwned, OwnersRefer, IndirectSet, MetaLogged, MetaBelow;
      var a := inodes[i].addrs[NDIRECT];
      IndirectUsed(l, Used(), blocks, inodes, owner, i);
      ghost var gone := IndirectSet(blocks, a);
      DetachIndirect(l, Used(), blocks, inodes, owner, i);
      ReleasedSet(i, Used(), owner, gone);
      FreeIndirect(i);
      inodes := WithAddr(inodes, i, NDIRECT, 0);
      owner := owner - gone;
    }

    /** Discard the contents of file `i`: exactly the blocks it owned become free, no other file is
        touched, and the block freed is in use each time, so "freeing free block" cannot happen. */
    method Itrunc(i: nat)
      requires Valid() && i < |inodes|
      modifies this`bitmap, this`inodes, this`dinodes, this`owner, this`dirty
      ensures Valid() && |inodes| == |old(inodes)|
      ensures inodes[i].size == 0 && inodes[i].meta == old(inodes)[i].meta && Content(i) == []
      ensures forall s: Slot :: Ref(inodes[i], blocks, s) == 0
      ensures forall j :: 0 <= j < |inodes| && j != i ==>
                inodes[j] == old(inodes)[j] && Content(j) == old(Content(j))
      ensures forall b :: b in Used() <==> b in old(Used()) && !(b in old(owner) && old(owner)[b].inum == i)
      ensures dinodes == old(dinodes)[i := inodes[i]]
    {
      hide RefsOwned, OwnersRefer, MetaBelow, GoodImage;
      TruncBlocks(i);
      assert inodes[i].addrs[NDIRECT] == 0 by { assert Ref(inodes[i], blocks, NDIRECT) == 0; }
      ResizeKeepsOwned(l, Used(), blocks, inodes, owner, i, 0);
      inodes := inodes[i := inodes[i].(size := 0)];
      Iupdate(i);
    }

    /** Free all blocks of inode `i`. */
    method TruncBlocks(i: nat)
      requires Sound() && i < |inodes|
      modifies this`bitmap, this`inodes, this`owner, this`dirty
      ensures Sound() && |inodes| == |old(inodes)|
      ensures forall j :: 0 <= j < |inodes| && j != i ==> inodes[j] == old(inodes)[j]
      ensures inodes[i].meta == old(inodes)[i].meta
      ensures forall s: Slot :: Ref(inodes[i], blocks, s) == 0
      ensures old(dirty) <= dirty
      ensures forall b :: b in Used() <==> b in old(Used()) && !(b in old(owner) && old(owner)[b].inum == i)
    {
      hide RefsOwned, OwnersRefer, Released, MetaLogged, MetaBelow;
      TruncDirect(i);
      if inodes[i].addrs[NDIRECT] != 0 {
        ghost var used1, owner1 := Used(), owner;
        TruncIndirect(i);
        ReleasedTwice(i, old(Used()), old(owner), used1, owner1, Used(), owner);
      }
      ReleasedAll(l, i, old(Used()), old(owner), Used(), owner, blocks, inodes);
    }
  }
}
