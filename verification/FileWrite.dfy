/** `filewrite`: a long write is cut into chunks, each its own operation on the log, small enough that the blocks a
    chunk lists fit the budget of one operation. What a fault and what a crash make of a write. */
module FileWrite {
  import opened Params
  import opened FsBlocks
  import opened FsFiles
  import FS = FileSystem

  /** The most bytes written in one operation, and in a file. */
  const CHUNK := 3072
  const LARGEST := 274432

  /** The inode, the indirect block and two blocks of slop leave half of the rest of an operation's budget to data
      blocks. */
  lemma ChunkSize()
    ensures CHUNK == (MAXOPBLOCKS - 1 - 1 - 2) / 2 * BSIZE && LARGEST == MAXFILE * BSIZE
  {
  }

  /** An open file: an inode and the offset of the next transfer. */
  class OpenFile {
    const inum: nat
    const writable: bool
    var off: nat
    constructor (inum: nat, writable: bool)
      ensures this.inum == inum && this.writable == writable && off == 0
    {
      this.inum, this.writable := inum, writable;
      this.off := 0;
    }
  }

  /** On a disk with one bitmap block, a chunk logs at most seven blocks: the bitmap block, the inode block,
      the indirect block and four data blocks. */
  lemma ChunkBudget(l: Layout, ip: Inode, blocks: seq<Block>, off: nat, n: nat, dirty: set<nat>, iblock: nat)
    requires |ip.addrs| == NDIRECT + 1 && off + n <= MAXFILE * BSIZE && n <= CHUNK
    requires l.size <= BPB
    requires FS.DirtyWithin(l, dirty, FS.Touched(ip, blocks, off, n) + {iblock})
    ensures |dirty| <= 7 <= MAXOPBLOCKS
  {
    FS.TouchedCount(ip, blocks, off, n, 3);
    var bound := FS.Touched(ip, blocks, off, n) + {iblock} + {l.bmapstart};
    assert dirty <= bound by {
      forall b | b in dirty
        ensures b in bound
      {
        assert FS.IsBitmapBlock(l, b) ==> b == l.bmapstart;
      }
    }
    Cardinality(dirty, bound);
  }

  lemma {:induction false} Cardinality(a: set<nat>, b: set<nat>)
    requires a <= b
    ensures |a| <= |b|
  {
    if a != {} {
      var x :| x in a;
      Cardinality(a - {x}, b - {x});
    }
  }

  // ----- How far a write comes -----

  /** The bytes of the whole chunks in `x` bytes. */
  function Whole(x: nat): (r: nat)
    ensures r <= x < r + CHUNK && r % CHUNK == 0
  {
    x / CHUNK * CHUNK
  }

  lemma WholeBounds(x: nat, i: nat)
    requires i % CHUNK == 0
    ensures i <= x ==> i <= Whole(x)
    ensures x < i + CHUNK ==> Whole(x) <= i
    ensures x >= i + CHUNK ==> Whole(x) >= i + CHUNK
  {
  }

  /** How many of `n` bytes at `off` lie in chunks that stay within the largest file. */
  function Fits(off: nat, n: nat): (m: nat)
    ensures m <= n && (off <= LARGEST ==> (m == n <==> off + n <= LARGEST))
  {
    if off + n <= LARGEST then n else if off > LARGEST then 0 else Whole(LARGEST - off)
  }

  /** How many of `n` bytes at `off` are counted when the source faults after `avail` bytes: the chunks before the
      fault, and of its chunk the blocks that come in whole. */
  function Total(off: nat, n: nat, avail: nat): (r: nat)
    ensures r <= n && r <= avail
  {
    var m, i := Fits(off, n), Whole(avail);
    if m <= avail then m else i + FS.Counted(off + i, FS.Min(CHUNK, m - i), avail - i)
  }

  /** Without a fault and within the largest file all bytes are counted; in any case all whole chunks are that come
      before the fault and end within the largest file. */
  lemma TotalCounts(off: nat, n: nat, avail: nat, i: nat)
    requires off <= LARGEST
    ensures n <= avail && off + n <= LARGEST ==> Total(off, n, avail) == n
    ensures i % CHUNK == 0 && i <= n && i <= avail && off + i <= LARGEST ==> i <= Total(off, n, avail)
  {
    if i % CHUNK == 0 && i <= n && i <= avail && off + i <= LARGEST {
      WholeBounds(LARGEST - off, i);
      WholeBounds(avail, i);
    }
  }

  /** A write is at the start of a chunk, or at its end. */
  predicate AtChunk(off: nat, n: nat, avail: nat, i: nat) {
    i <= n && (i % CHUNK == 0 || i == n) && i <= avail && i <= Fits(off, n)
  }

  lemma ChunkWithin(off: nat, n: nat, avail: nat, i: nat)
    requires AtChunk(off, n, avail, i)
    ensures i <= avail
  {
  }

  /** The chunk at `i`: the file would be too large, or the source faults, or the write goes on. */
  lemma ChunkCases(off: nat, n: nat, avail: nat, i: nat, n1: nat)
    requires AtChunk(off, n, avail, i) && i < n && n1 == FS.Min(CHUNK, n - i) && off <= LARGEST
    ensures off + i + n1 > LARGEST ==> Total(off, n, avail) == i == FS.Min(avail, Fits(off, n))
    ensures off + i + n1 <= LARGEST && avail < i + n1 ==>
              Total(off, n, avail) == i + FS.Counted(off + i, n1, avail - i) && FS.Min(avail, Fits(off, n)) == avail
    ensures off + i + n1 <= LARGEST && i + n1 <= avail ==>
            AtChunk(off, n, avail, i + n1) && i + n1 <= Total(off, n, avail)
  {
    if off + n > LARGEST {
      WholeBounds(LARGEST - off, i);
    }
    WholeBounds(avail, i);
  }

  /** How a write of `n` bytes at `off` to a file of `size` bytes ends: `pos` bytes are counted, `done` are in the
      cached blocks. The source and the largest file decide, or the disk is full earlier. */
  predicate Ended(off: nat, size: nat, n: nat, avail: nat, pos: nat, done: nat, full: bool) {
    if off > size then pos == done == 0
    else
      || (pos == Total(off, n, avail) && done == FS.Min(avail, Fits(off, n)))
      || (full && pos == done <= Total(off, n, avail))
  }

  /** All bytes are in chunks that fit, before any fault. */
  lemma AllWritten(off: nat, size: nat, n: nat, avail: nat, full: bool)
    requires AtChunk(off, n, avail, n) && (off <= size || n == 0) && size <= LARGEST
    ensures Ended(off, size, n, avail, n, n, full)
  {
  }

  /** How one chunk of a write within the file's length ends: `r` is the result of its operation. */
  lemma ChunkEnds(off: nat, size: nat, n: nat, avail: nat, i: nat, n1: nat, o: nat, r: int, more: nat, full: bool,
                  pos: nat, done: nat)
    requires AtChunk(off, n, avail, i) && i < n && n1 == FS.Min(CHUNK, n - i) && off <= size <= LARGEST && o == off + i
    requires r == -1 <==> o + n1 > LARGEST
    requires r != -1 ==> 0 <= r <= more <= n1 && FS.Stopped(o, n1, avail - i, r, more, full)
    requires pos == i + (if r == -1 then 0 else r) && done == i + if r == -1 then 0 else more
    ensures r == n1 ==> more == n1 && AtChunk(off, n, avail, i + n1)
    ensures r != n1 ==> Ended(off, size, n, avail, pos, done, full) && pos < n
  {
    ChunkCases(off, n, avail, i, n1);
  }

  /** No operation lists more than seven blocks. */
  ghost predicate SmallOps(ops: seq<set<nat>>) {
    forall k :: 0 <= k < |ops| ==> |ops[k]| <= 7
  }

  /** A chunk `w` at `o` with result `r` turned the file `now` into `now2`: `more` bytes are in the cached blocks. If
      all buffers were on the disk or listed before, a commit makes the file `logged`: `now2` if the chunk faults in a
      block that was listed before (`hit`), and otherwise just what is counted. */
  ghost predicate OneChunk(now: seq<Byte>, o: nat, w: seq<Byte>, r: int, more: nat, now2: seq<Byte>, clean: bool,
                           hit: bool, logged: seq<Byte>) {
    && (r == -1 ==> more == 0 && now2 == now && (clean ==> logged == now))
    && (r != -1 ==>
          && o <= |now| && 0 <= r <= more <= |w|
          && now2 == Splice(now, o, w[..more])[..FS.Max(|now|, o + r)]
          && (clean ==> logged == if hit then now2 else Splice(now, o, w[..r])))
  }

  /** An operation that writes `w` to file `inum`, which holds `now`, at `o`; it lists the blocks `op`. The transaction
      is committed when the operation ends if no other operation is open (`alone`), and otherwise maybe: the other
      operations may have ended. */
  method Transaction(d: FS.Disk, inum: nat, w: seq<Byte>, o: nat, avail: nat, alone: bool, ghost now: seq<Byte>,
                     ghost clean: bool)
    returns (r: int, ghost done: nat, ghost op: set<nat>)
    requires d.Valid() && inum < |d.inodes| && o < WORD_LIMIT && 0 < |w| <= CHUNK
    requires now == d.Content(inum) && (clean ==> d.AllLogged()) && (alone ==> d.Listed() == {})
    modifies d
    ensures d.Valid() && OthersSame(inum, old(d.blocks), old(d.inodes), d.blocks, d.inodes)
    ensures clean ==> OthersSame(inum, old(d.blocks), old(d.inodes), d.LoggedBlocks(), d.inodes)
    ensures d.l.size <= BPB ==> |op| <= 7
    ensures -1 <= r <= |w| && (r == -1 <==> o > |now| || o + |w| > LARGEST)
    ensures OneChunk(now, o, w, r, done, d.Content(inum), clean, old(d.FaultListed(inum, o, |w|, avail)),
                     d.LoggedContent(inum)) && r <= done <= |w| && (r == -1 ==> done == 0)
    ensures r != -1 ==> FS.Stopped(o, |w|, avail, r, done, d.Full())
    ensures clean && r == |w| ==> d.AllLogged()
    ensures alone ==> d.Listed() == {}
  {
    hide FS.Disk.Sound, FS.Disk.Recoverable, FS.Steady, FS.Clean, FS.FaultBlock, FS.Logged, AllFilled, OneChunk;
    r, done, op := BeginAndWrite(d, inum, w, o, avail, now, clean);
    EndOp(d, inum, alone);
  }

  /** The operation up to its end. */
  method BeginAndWrite(d: FS.Disk, inum: nat, w: seq<Byte>, o: nat, avail: nat, ghost now: seq<Byte>,
                       ghost clean: bool)
    returns (r: int, ghost done: nat, ghost op: set<nat>)
    requires d.Valid() && inum < |d.inodes| && o < WORD_LIMIT && 0 < |w| <= CHUNK
    requires now == d.Content(inum) && (clean ==> d.AllLogged())
    modifies d
    ensures d.Valid() && OthersSame(inum, old(d.blocks), old(d.inodes), d.blocks, d.inodes) && d.image == old(d.image)
    ensures clean ==> OthersSame(inum, old(d.blocks), old(d.inodes), d.LoggedBlocks(), d.inodes)
    ensures d.l.size <= BPB ==> |op| <= 7
    ensures -1 <= r <= |w| && (r == -1 <==> o > |now| || o + |w| > LARGEST)
    ensures OneChunk(now, o, w, r, done, d.Content(inum), clean, old(d.FaultListed(inum, o, |w|, avail)),
                     d.LoggedContent(inum)) && r <= done <= |w| && (r == -1 ==> done == 0)
    ensures r != -1 ==> FS.Stopped(o, |w|, avail, r, done, d.Full())
    ensures clean && r == |w| ==> d.AllLogged()
  {
    hide FS.Disk.Sound, FS.Disk.Recoverable, FS.Disk.LoggedBlocks, AllFilled, FS.Steady, OthersSame, FS.Clean,
      FS.DirtyWithin, FS.Touched, FS.FaultBlock, FS.Unseen;
    d.NextOp();
    r, done := d.Writei(inum, w, o, avail);
    op := d.dirty;
    if r != -1 && d.l.size <= BPB {
      d.InodeShape(inum);
      ghost var most := FS.Touched(d.inodes[inum], d.blocks, o, |w|) + {inum / IPB + d.l.inodestart};
      assert {} + FS.Touched(d.inodes[inum], d.blocks, o, |w|) + {inum / IPB + d.l.inodestart} == most;
      ChunkBudget(d.l, d.inodes[inum], d.blocks, o, |w|, d.dirty, inum / IPB + d.l.inodestart);
    }
    if r == -1 && clean {
      d.AllListed(inum);
    }
  }

  /** The end of an operation: the transaction is committed if no other operation is open. */
  method EndOp(d: FS.Disk, ghost inum: nat, alone: bool)
    requires d.Valid() && inum < |d.inodes|
    modifies d`image, d`imageOwner, d`earlier, d`dirty
    ensures d.Valid() && d.LoggedContent(inum) == old(d.LoggedContent(inum))
    ensures d.LoggedBlocks() == old(d.LoggedBlocks())
    ensures old(d.AllLogged()) ==> d.AllLogged()
    ensures alone ==> d.Listed() == {}
  {
    var last: bool := *;
    if alone || last {
      d.Commit();
    }
  }

  /** One chunk: an operation of its own, after which the offset moves. */
  method WriteChunk(d: FS.Disk, f: OpenFile, w: seq<Byte>, avail: nat, alone: bool, ghost now: seq<Byte>, ghost o: nat,
                    ghost clean: bool)
    returns (r: int, ghost done: nat, ghost op: set<nat>)
    requires d.Valid() && f.inum < |d.inodes| && f.off == o < WORD_LIMIT && 0 < |w| <= CHUNK
    requires now == d.Content(f.inum) && (clean ==> d.AllLogged()) && (alone ==> d.Listed() == {})
    modifies d, f
    ensures d.Valid() && OthersSame(f.inum, old(d.blocks), old(d.inodes), d.blocks, d.inodes)
    ensures clean ==> OthersSame(f.inum, old(d.blocks), old(d.inodes), d.LoggedBlocks(), d.inodes)
    ensures d.l.size <= BPB ==> |op| <= 7
    ensures -1 <= r <= |w| && (r == -1 <==> o > |now| || o + |w| > LARGEST)
    ensures OneChunk(now, o, w, r, done, d.Content(f.inum), clean, old(d.FaultListed(f.inum, o, |w|, avail)),
                     d.LoggedContent(f.inum)) && r <= done <= |w| && (r == -1 ==> done == 0)
    ensures r != -1 ==> FS.Stopped(o, |w|, avail, r, done, d.Full())
    ensures clean && r == |w| ==> d.AllLogged()
    ensures alone ==> d.Listed() == {}
    ensures f.off == o + if r == -1 then 0 else r
  {
    r, done, op := Transaction(d, f.inum, w, f.off, avail, alone, now, clean);
    if r > 0 {
      f.off := f.off + r;
    }
  }

  /** The state of a write of `src` at `off` to a file that held `c`: `pos` bytes are counted, the bytes up to
      `done` are in the cached blocks, and the file holds `now`. If all buffers were on the disk or listed before, a
      commit makes the file `logged`: `now` if the last chunk faulted in a block that was listed before it (`hit`),
      and otherwise just what is counted. */
  ghost predicate SoFar(c: seq<Byte>, off: nat, src: seq<Byte>, pos: nat, done: nat, now: seq<Byte>, clean: bool,
                        hit: bool, logged: seq<Byte>) {
    && pos <= done <= |src|
    && (off > |c| ==> done == 0 && now == c && (clean ==> logged == c))
    && (off <= |c| ==> now == Splice(c, off, src[..done])[..FS.Max(|c|, off + pos)])
    && (off <= |c| && clean ==> logged == if hit then now else Splice(c, off, src[..pos]))
  }

  lemma SoFarStarts(c: seq<Byte>, off: nat, src: seq<Byte>, clean: bool, logged: seq<Byte>)
    requires clean ==> logged == c
    ensures SoFar(c, off, src, 0, 0, c, clean, false, logged)
  {
    assert off <= |c| ==> Splice(c, off, src[..0]) == c;
  }

  lemma SoFarNow(c: seq<Byte>, off: nat, src: seq<Byte>, pos: nat, now: seq<Byte>, w: seq<Byte>, r: nat, more: nat)
    requires off <= |c| && pos + |w| <= |src| && r <= more <= |w| && w == src[pos..pos + |w|]
    requires now == Splice(c, off, src[..pos])
    ensures Splice(now, off + pos, w[..more])[..FS.Max(|now|, off + pos + r)] ==
            Splice(c, off, src[..pos + more])[..FS.Max(|c|, off + (pos + r))]
    ensures Splice(now, off + pos, w[..r]) == Splice(c, off, src[..pos + r])
  {
    SpliceStep(c, off, src, pos, |w|, more, now, Splice(now, off + pos, w[..more]));
    SpliceStep(c, off, src, pos, |w|, r, now, Splice(now, off + pos, w[..r]));
  }

  lemma SoFarBounds(c: seq<Byte>, off: nat, src: seq<Byte>, pos: nat, done: nat, now: seq<Byte>, clean: bool,
                    logged: seq<Byte>)
    requires SoFar(c, off, src, pos, done, now, clean, false, logged)
    ensures off > |c| ==> done == 0 && now == c
    ensures off <= |c| && pos == done ==> off + pos <= |now|
  {
  }

  /** One more chunk `w`. */
  lemma SoFarStep(c: seq<Byte>, off: nat, src: seq<Byte>, pos: nat, now: seq<Byte>, w: seq<Byte>, o: nat,
                  r: int, more: nat, now': seq<Byte>, pos': nat, done': nat, clean: bool, hit: bool, logged: seq<Byte>,
                  logged': seq<Byte>)
    requires SoFar(c, off, src, pos, pos, now, clean, false, logged) && pos + |w| <= |src|
    requires w == src[pos..pos + |w|] && o == off + pos
    requires OneChunk(now, o, w, r, more, now', clean, hit, logged')
    requires pos' == pos + (if r == -1 then 0 else r) && done' == pos + more
    ensures SoFar(c, off, src, pos', done', now', clean, hit, logged') && (off <= |c| ==> o <= |now|)
    ensures pos' == done' ==> SoFar(c, off, src, pos', done', now', clean, false, logged')
  {
    hide Splice;
    if off <= |c| {
      SpliceLength(c, off, src[..pos]);
      if r != -1 {
        SoFarNow(c, off, src, pos, now, w, r, more);
        SpliceLength(c, off, src[..pos']);
      }
    }
  }

  lemma SpliceLength(c: seq<Byte>, off: nat, w: seq<Byte>)
    requires off <= |c|
    ensures |Splice(c, off, w)| == FS.Max(|c|, off + |w|)
  {
  }

  /** Write `n` bytes `src` to an open file; the source faults after `avail` bytes. `pos` bytes are counted as written,
      which the source and the largest file determine unless the disk is full first, and the offset has moved past them.
      The result is `n` if that is all, and -1 otherwise. A commit makes the file the old one with `src[..pos]` written
      over it at the old offset; buffers may also hold the remains of a fault, up to `done`, and those are committed too
      if the fault is in a block that was listed before its chunk (`hit`), which needs another open operation. `ops` are
      the sets of blocks listed by the chunks: on a disk with one bitmap block none exceeds seven. */
  method FileWrite(d: FS.Disk, f: OpenFile, src: seq<Byte>, n: int, avail: nat, alone: bool)
    returns (ret: int, ghost pos: nat, ghost done: nat, ghost hit: bool, ghost ops: seq<set<nat>>)
    requires d.Valid() && f.inum < |d.inodes| && f.off < WORD_LIMIT && (alone ==> d.Listed() == {})
    requires -WORD_LIMIT / 2 <= n < WORD_LIMIT / 2 && |src| == if n < 0 then 0 else n
    modifies d, f
    ensures d.Valid() && |d.inodes| == |old(d.inodes)|
    ensures d.l.size <= BPB ==> SmallOps(ops)
    ensures ret == if f.writable && pos == n then n else -1
    ensures !f.writable ==> unchanged(d) && pos == done == 0
    ensures f.writable ==> Ended(old(f.off), |old(d.Content(f.inum))|, |src|, avail, pos, done, d.Full())
    ensures f.off == old(f.off) + pos
    ensures f.writable && 0 <= n <= avail && old(f.off) <= |old(d.Content(f.inum))| && old(f.off) + n <= LARGEST ==>
              ret == n || d.Full()
    ensures SoFar(old(d.Content(f.inum)), old(f.off), src, pos, done,
                  d.Content(f.inum), old(d.AllLogged()), hit, d.LoggedContent(f.inum))
    ensures alone ==> !hit && d.Listed() == {}
    ensures forall j :: 0 <= j < |d.inodes| && j != f.inum ==>
              d.inodes[j] == old(d.inodes)[j] && d.Content(j) == old(d.Content(j))
  {
    if d.AllLogged() {
      d.AllListed(f.inum);
    }
    SoFarStarts(d.Content(f.inum), f.off, src, d.AllLogged(), d.LoggedContent(f.inum));
    pos, done, hit, ops := 0, 0, false, [];
    if !f.writable {
      return -1, pos, done, hit, ops;
    }
    var i;
    i, pos, done, hit, ops := WriteChunks(d, f, src, avail, alone, d.Content(f.inum), f.off, d.AllLogged());
    OthersFilled(f.inum, old(d.blocks), old(d.inodes), d.blocks, d.inodes);
    if old(f.off) <= LARGEST {
      TotalCounts(old(f.off), |src|, avail, 0);
    }
    ret := if i == n then n else -1;
  }

  /** The loop of `filewrite`, on a file that holds `c`. It returns the bytes of the chunks written in whole. */
  method WriteChunks(d: FS.Disk, f: OpenFile, src: seq<Byte>, avail: nat, alone: bool, ghost c: seq<Byte>,
                     ghost off: nat, ghost clean: bool)
    returns (i: nat, ghost pos: nat, ghost done: nat, ghost hit: bool, ghost ops: seq<set<nat>>)
    requires d.Valid() && f.inum < |d.inodes| && f.off == off < WORD_LIMIT && |src| < WORD_LIMIT / 2 && |c| <= LARGEST
    requires SoFar(c, off, src, 0, 0, d.Content(f.inum), clean, false, d.LoggedContent(f.inum))
    requires (clean ==> d.AllLogged()) && (alone ==> d.Listed() == {})
    modifies d, f
    ensures d.Valid() && OthersSame(f.inum, old(d.blocks), old(d.inodes), d.blocks, d.inodes)
    ensures d.l.size <= BPB ==> SmallOps(ops)
    ensures i <= pos <= |src| && (i == |src| <==> pos == |src|)
    ensures Ended(off, |c|, |src|, avail, pos, done, d.Full())
    ensures f.off == off + pos
    ensures SoFar(c, off, src, pos, done, d.Content(f.inum), clean, hit, d.LoggedContent(f.inum))
    ensures alone ==> !hit && d.Listed() == {}
  {
    hide SoFar, OthersSame, Whole, Ended, Total, FS.Disk.Sound, FS.Disk.Recoverable, FS.Steady, FS.Clean;
    i := 0;
    pos, done, hit, ops := 0, 0, false, [];
    ghost var blocks0, inodes0 := d.blocks, d.inodes;
    FS.OthersSameStarts(f.inum, d.blocks, d.inodes);
    while i < |src|
      invariant i == pos == done <= |src| && f.off == off + pos && AtChunk(off, |src|, avail, i)
      invariant d.Valid() && f.inum < |d.inodes| && (clean ==> d.AllLogged()) && (alone ==> d.Listed() == {}) && !hit
      invariant d.l.size <= BPB ==> SmallOps(ops)
      invariant SoFar(c, off, src, pos, done, d.Content(f.inum), clean, false, d.LoggedContent(f.inum))
      invariant pos > 0 ==> f.off <= LARGEST
      invariant OthersSame(f.inum, blocks0, inodes0, d.blocks, d.inodes)
    {
      var n1 := if |src| - i > CHUNK then CHUNK else |src| - i;
      var r;
      ghost var op;
      ghost var blocks1, inodes1 := d.blocks, d.inodes;
      r, pos, done, hit, op := NextChunk(d, f, src, i, n1, avail, alone, c, off, clean);
      OthersSameTwice(f.inum, blocks0, inodes0, blocks1, inodes1, d.blocks, d.inodes);
      ops := ops + [op];
      if r != n1 {
        return;
      }
      i := i + r;
    }
    SoFarBounds(c, off, src, pos, done, d.Content(f.inum), clean, d.LoggedContent(f.inum));
    AllWritten(off, |c|, |src|, avail, d.Full());
  }

  /** The chunk of `n1` bytes at position `i` of a write that began at `off` of a file that held `c`. */
  method NextChunk(d: FS.Disk, f: OpenFile, src: seq<Byte>, i: nat, n1: nat, avail: nat, alone: bool,
                   ghost c: seq<Byte>, ghost off: nat, ghost clean: bool)
    returns (r: int, ghost pos: nat, ghost done: nat, ghost hit: bool, ghost op: set<nat>)
    requires d.Valid() && f.inum < |d.inodes| && f.off < WORD_LIMIT && |c| <= LARGEST
    requires i < |src| && n1 == FS.Min(CHUNK, |src| - i) && AtChunk(off, |src|, avail, i)
    requires SoFar(c, off, src, i, i, d.Content(f.inum), clean, false, d.LoggedContent(f.inum)) && f.off == off + i
    requires (clean ==> d.AllLogged()) && (alone ==> d.Listed() == {})
    modifies d, f
    ensures d.Valid() && OthersSame(f.inum, old(d.blocks), old(d.inodes), d.blocks, d.inodes)
    ensures clean ==> OthersSame(f.inum, old(d.blocks), old(d.inodes), d.LoggedBlocks(), d.inodes)
    ensures d.l.size <= BPB ==> |op| <= 7
    ensures -1 <= r <= n1 && pos == i + (if r == -1 then 0 else r) && f.off == off + pos && (r > 0 ==> f.off <= LARGEST)
    ensures SoFar(c, off, src, pos, done, d.Content(f.inum), clean, hit, d.LoggedContent(f.inum))
    ensures hit == (r != n1 && old(d.FaultListed(f.inum, f.off, n1, avail - i)))
    ensures alone ==> !hit && d.Listed() == {}
    ensures r == n1 ==> done == i + n1 && AtChunk(off, |src|, avail, i + n1) && (clean ==> d.AllLogged())
    ensures r != n1 ==> Ended(off, |c|, |src|, avail, pos, done, d.Full()) && pos < |src|
  {
    hide SoFar, OneChunk, OthersSame, Fits, Total, FS.Stopped, FS.Clean, FS.FaultBlock;
    SoFarBounds(c, off, src, i, i, d.Content(f.inum), clean, d.LoggedContent(f.inum));
    var w := src[i..i + n1];
    ghost var now, o, logged := d.Content(f.inum), f.off, d.LoggedContent(f.inum);
    ghost var more, h := 0, d.FaultListed(f.inum, f.off, n1, avail - i);
    r, more, op := WriteChunk(d, f, w, avail - i, alone, now, o, clean);
    pos := f.off - off;
    done := i + more;
    hit := r != n1 && h;
    SoFarStep(c, off, src, i, now, w, o, r, more, d.Content(f.inum), pos, done, clean, h, logged,
              d.LoggedContent(f.inum));
    if off <= |c| {
      ChunkEnds(off, |c|, |src|, avail, i, n1, o, r, more, d.Full(), pos, done);
    }
  }

  // ----- Writes that crash -----

  /** No file but `inum` has other contents than at first, and that one holds `now`. */
  ghost predicate Only(d: FS.Disk, inum: nat, blocks: seq<Block>, inodes: seq<Inode>, now: seq<Byte>)
    reads d
  {
    && d.Valid() && |d.inodes| == |inodes| && inum < |inodes| && d.Content(inum) == now
    && forall j :: 0 <= j < |inodes| && j != inum ==>
         && |inodes[j].addrs| == NDIRECT + 1 && inodes[j].size <= LARGEST
         && d.Content(j) == Bytes(inodes[j], blocks, inodes[j].size)
  }

  lemma OnlyTwice(d: FS.Disk, inum: nat, blocks: seq<Block>, inodes: seq<Inode>, blocks1: seq<Block>,
                  inodes1: seq<Inode>, now: seq<Byte>)
    requires Only(d, inum, blocks1, inodes1, now)
    requires OthersSame(inum, blocks, inodes, blocks1, inodes1) && AllFilled(blocks, inodes)
    ensures Only(d, inum, blocks, inodes, now)
  {
  }

  /** The machine stops and starts again when the log is empty. */
  method CrashAfter(d: FS.Disk, inum: nat, ghost blocks: seq<Block>, ghost inodes: seq<Inode>)
    requires d.Valid() && inum < |d.inodes| && d.Listed() == {} && AllFilled(blocks, inodes)
    requires OthersSame(inum, blocks, inodes, d.LoggedBlocks(), d.inodes)
    modifies d
    ensures Only(d, inum, blocks, inodes, old(d.LoggedContent(inum))) && d.AllLogged() && d.Listed() == {}
  {
    d.NothingListed();
    d.Crash();
  }

  /** The machine stops during a chunk: before its commit writes the header of the log, or after (`sealed`). */
  method CrashedChunk(d: FS.Disk, inum: nat, w: seq<Byte>, o: nat, avail: nat, sealed: bool, ghost now: seq<Byte>)
    returns (r: int, ghost done: nat, ghost full: bool)
    requires d.Valid() && inum < |d.inodes| && o < WORD_LIMIT && 0 < |w| <= CHUNK
    requires now == d.Content(inum) && d.AllLogged() && d.Listed() == {}
    modifies d
    ensures -1 <= r <= |w| && r <= done <= |w| && (r == -1 <==> o > |now| || o + |w| > LARGEST)
    ensures r == -1 ==> done == 0
    ensures r != -1 ==> FS.Stopped(o, |w|, avail, r, done, full)
    ensures r != -1 ==> o <= |now|
    ensures Only(d, inum, old(d.blocks), old(d.inodes),
                 if sealed && r != -1 then Splice(now, o, w[..r]) else now) && d.AllLogged() && d.Listed() == {}
  {
    d.AllListed(inum);
    d.NothingListed();
    ghost var op;
    r, done, op := BeginAndWrite(d, inum, w, o, avail, now, true);
    full := d.Full();
    if sealed {
      d.Commit();
      CrashAfter(d, inum, old(d.blocks), old(d.inodes));
    } else {
      d.Crash();
    }
  }

  /** The file `c` with `w` written over it at `off`, if that is not past its end. */
  function Overwritten(c: seq<Byte>, off: nat, w: seq<Byte>): (r: seq<Byte>) {
    if off <= |c| then Splice(c, off, w) else c
  }

  lemma SoFarLogged(c: seq<Byte>, off: nat, src: seq<Byte>, pos: nat, done: nat, now: seq<Byte>, logged: seq<Byte>)
    requires SoFar(c, off, src, pos, done, now, true, false, logged)
    ensures pos <= |src| && logged == Overwritten(c, off, src[..pos])
    ensures pos == done ==> now == Overwritten(c, off, src[..pos])
  {
  }

  /** What a chunk at `i` adds that stops at `r`, if it is `sealed`. */
  lemma NextOverwritten(c: seq<Byte>, off: nat, src: seq<Byte>, i: nat, w: seq<Byte>, now: seq<Byte>, r: int,
                        sealed: bool, m: nat)
    requires i + |w| <= |src| && w == src[i..i + |w|] && -1 <= r <= |w| && m <= |src|
    requires now == Overwritten(c, off, src[..i]) && (r != -1 ==> off + i <= |now|)
    requires m == if sealed && r != -1 then i + r else i
    ensures Overwritten(c, off, src[..m]) == if sealed && r != -1 then Splice(now, off + i, w[..r]) else now
  {
    if off <= |c| && r != -1 {
      SoFarNow(c, off, src, i, now, w, r, r);
    }
  }

  /** How many bytes survive when the machine stops after the commits of `chunks` chunks: all bytes of these chunks that
      the write counts, unless the disk is full earlier. */
  predicate Survive(off: nat, size: nat, n: nat, avail: nat, chunks: nat, m: nat, full: bool) {
    var most := FS.Min(Total(off, n, avail), chunks * CHUNK);
    if off > size then m == 0 else m == most || (full && m <= most)
  }

  /** What a crash leaves of a write: a whole number of chunks, or all that it counts. */
  predicate Left(off: nat, size: nat, n: nat, avail: nat, chunks: nat, m: nat, done: nat, full: bool) {
    && m <= n && (m % CHUNK == 0 || Ended(off, size, n, avail, m, done, full))
    && Survive(off, size, n, avail, chunks, m, full)
  }

  /** The first `k` chunks have `i` bytes. */
  predicate Chunks(k: nat, i: nat) {
    i == k * CHUNK
  }

  lemma SurviveStops(off: nat, size: nat, n: nat, avail: nat, j: nat, k: nat, i: nat, n1: nat, pos: nat, done: nat,
                     full: bool)
    requires j < k && i == j * CHUNK && n1 <= CHUNK && pos < i + n1 && Ended(off, size, n, avail, pos, done, full)
    ensures Survive(off, size, n, avail, k, pos, full)
  {
    hide Total;
  }

  lemma SurviveChunk(off: nat, size: nat, n: nat, avail: nat, k: nat, i: nat, n1: nat, r: int, more: nat, sealed: bool,
                     full: bool)
    requires AtChunk(off, n, avail, i) && i < n && n1 == FS.Min(CHUNK, n - i) && off <= size <= LARGEST
    requires i == k * CHUNK && -1 <= r <= n1 && (r == -1 <==> off + i + n1 > LARGEST)
    requires r != -1 ==> FS.Stopped(off + i, n1, avail - i, r, more, full)
    ensures Survive(off, size, n, avail, if sealed then k + 1 else k, if sealed && r != -1 then i + r else i, full)
  {
    ChunkCases(off, n, avail, i, n1);
    hide Fits;
  }

  lemma NextSurvives(off: nat, size: nat, n: nat, avail: nat, k: nat, i: nat, n1: nat, len: nat, r: int, more: nat,
                     sealed: bool, full: bool, m: nat, done: nat)
    requires AtChunk(off, n, avail, i) && i < n && n1 == FS.Min(CHUNK, n - i) && size <= LARGEST && Chunks(k, i)
    requires (if off <= size then off + i <= len else i == 0 && len == size)
    requires -1 <= r <= n1 && (r == -1 <==> off + i > len || off + i + n1 > LARGEST)
    requires if r == -1 then more == 0 else r <= more <= n1 && FS.Stopped(off + i, n1, avail - i, r, more, full)
    requires m == (if sealed && r != -1 then i + r else i) && done == i + more
    ensures m <= n && Left(off, size, n, avail, if sealed then k + 1 else k, m, done, full)
  {
    if off <= size {
      hide Survive, Ended;
      SurviveChunk(off, size, n, avail, k, i, n1, r, more, sealed, full);
      ChunkEnds(off, size, n, avail, i, n1, off + i, r, more, full, i + (if r == -1 then 0 else r), done);
      if i + n1 == n && r == n1 {
        AllWritten(off, size, n, avail, full);
      }
    }
  }

  lemma SurviveAll(off: nat, size: nat, n: nat, avail: nat, j: nat, k: nat, full: bool)
    requires AtChunk(off, n, avail, n) && (off <= size || n == 0) && size <= LARGEST && n <= j * CHUNK && j <= k
    ensures Survive(off, size, n, avail, k, n, full)
  {
    AllWritten(off, size, n, avail, full);
  }

  /** The machine stops in the chunk at `i` of a write that began at `off` of a file that held `c`. */
  method CrashedNext(d: FS.Disk, f: OpenFile, src: seq<Byte>, i: nat, avail: nat, sealed: bool, ghost c: seq<Byte>,
                     ghost off: nat, ghost k: nat, ghost blocks0: seq<Block>, ghost inodes0: seq<Inode>)
    returns (ghost m: nat, ghost done: nat, ghost full: bool)
    requires d.Valid() && f.inum < |d.inodes| && f.off == off + i < WORD_LIMIT && |c| <= LARGEST && Chunks(k, i)
    requires i < |src| && AtChunk(off, |src|, avail, i) && d.AllLogged() && d.Listed() == {}
    requires SoFar(c, off, src, i, i, d.Content(f.inum), true, false, d.LoggedContent(f.inum))
    requires OthersSame(f.inum, blocks0, inodes0, d.blocks, d.inodes) && AllFilled(blocks0, inodes0)
    modifies d
    ensures d.AllLogged() && d.Listed() == {} && m <= |src|
    ensures Left(off, |c|, |src|, avail, if sealed then k + 1 else k, m, done, full)
    ensures Only(d, f.inum, blocks0, inodes0, Overwritten(c, off, src[..m]))
  {
    hide SoFar, OthersSame, Left, Chunks, FS.Disk.Sound, FS.Disk.Recoverable, FS.Steady, FS.Clean, Only, Splice,
        FS.Stopped, Overwritten, AtChunk;
    ChunkWithin(off, |src|, avail, i);
    ghost var now, blocks1, inodes1 := d.Content(f.inum), d.blocks, d.inodes;
    SoFarBounds(c, off, src, i, i, now, true, d.LoggedContent(f.inum));
    SoFarLogged(c, off, src, i, i, now, d.LoggedContent(f.inum));
    var n1 := if |src| - i > CHUNK then CHUNK else |src| - i;
    var r;
    ghost var more;
    var w := src[i..i + n1];
    r, more, full := CrashedChunk(d, f.inum, w, f.off, avail - i, sealed, now);
    m := if sealed && r != -1 then i + r else i;
    done := i + more;
    NextSurvives(off, |c|, |src|, avail, k, i, n1, |now|, r, more, sealed, full, m, done);
    NextOverwritten(c, off, src, i, w, now, r, sealed, m);
    OnlyTwice(d, f.inum, blocks0, inodes0, blocks1, inodes1, Overwritten(c, off, src[..m]));
  }

  /** The write of `src` to an open file, with no other operation open, until the machine stops: in the chunk after `k`
      whole ones, before or after the header is written, or when the write is over. When it starts again the file
      is the old one with `src[..m]` written over it, for a whole number of chunks or for all that the write counts,
      and no other file has changed. */
  method CrashedWrite(d: FS.Disk, f: OpenFile, src: seq<Byte>, avail: nat, k: nat, sealed: bool)
    returns (ghost m: nat, ghost done: nat, ghost full: bool)
    requires d.Valid() && f.inum < |d.inodes| && f.off < WORD_LIMIT && |src| < WORD_LIMIT / 2
    requires d.AllLogged() && d.Listed() == {}
    modifies d, f
    ensures d.AllLogged() && d.Listed() == {} && m <= |src|
    ensures Left(old(f.off), |old(d.Content(f.inum))|, |src|, avail, if sealed then k + 1 else k, m, done, full)
    ensures Only(d, f.inum, old(d.blocks), old(d.inodes), Overwritten(old(d.Content(f.inum)), old(f.off), src[..m]))
  {
    hide SoFar, OthersSame, Whole, Ended, Total, FS.Disk.Sound, FS.Disk.Recoverable, FS.Steady, FS.Clean, Only, Survive;
    ghost var c, off := d.Content(f.inum), f.off;
    ghost var blocks0, inodes0 := d.blocks, d.inodes;
    d.AllListed(f.inum);
    SoFarStarts(c, off, src, true, d.LoggedContent(f.inum));
    FS.OthersSameStarts(f.inum, d.blocks, d.inodes);
    m, done, full := 0, 0, false;
    var i, j := 0, 0;
    while i < |src| && j < k
      invariant i == m == done <= |src| && f.off == off + m && AtChunk(off, |src|, avail, i)
      invariant d.Valid() && f.inum < |d.inodes| && d.AllLogged() && d.Listed() == {}
      invariant SoFar(c, off, src, m, done, d.Content(f.inum), true, false, d.LoggedContent(f.inum))
      invariant m > 0 ==> f.off <= LARGEST
      invariant j <= k && if i < |src| then i == j * CHUNK else |src| <= j * CHUNK
      invariant OthersSame(f.inum, blocks0, inodes0, d.blocks, d.inodes)
    {
      var n1 := if |src| - i > CHUNK then CHUNK else |src| - i;
      var r;
      ghost var op, hit;
      ghost var blocks1, inodes1 := d.blocks, d.inodes;
      r, m, done, hit, op := NextChunk(d, f, src, i, n1, avail, true, c, off, true);
      OthersSameTwice(f.inum, blocks0, inodes0, blocks1, inodes1, d.blocks, d.inodes);
      OthersSameTwice(f.inum, blocks0, inodes0, blocks1, inodes1, d.LoggedBlocks(), d.inodes);
      if r != n1 {
        full := d.Full();
        SoFarLogged(c, off, src, m, done, d.Content(f.inum), d.LoggedContent(f.inum));
        SurviveStops(off, |c|, |src|, avail, j, if sealed then k + 1 else k, i, n1, m, done, full);
        CrashAfter(d, f.inum, blocks0, inodes0);
        return;
      }
      i, j := i + r, j + 1;
    }
    if i < |src| {
      m, done, full := CrashedNext(d, f, src, i, avail, sealed, c, off, k, blocks0, inodes0);
    } else {
      SoFarBounds(c, off, src, m, done, d.Content(f.inum), true, d.LoggedContent(f.inum));
      SoFarLogged(c, off, src, m, done, d.Content(f.inum), d.LoggedContent(f.inum));
      AllWritten(off, |c|, |src|, avail, full);
      SurviveAll(off, |c|, |src|, avail, j, if sealed then k + 1 else k, full);
      d.AllListed(f.inum);
      CrashAfter(d, f.inum, blocks0, inodes0);
    }
  }

  // ----- Writes that fault -----

  /** A disk with one file of two zero bytes in block 4, and a free block. */
  const SMALL := Layout(6, 2, 3, 4)

  function SmallBitmap(): (r: Bitmap)
    ensures GoodBitmap(r, 6) && BitSet(r, 6, 4) && !BitSet(r, 6, 5)
  {
    [seq(BPB, k => k < 5)]
  }

  function SmallInode(): (r: Inode)
    ensures |r.addrs| == NDIRECT + 1
  {
    Inode(0, 2, [4, 0, 0, 0, 0, 0, 0, 0, 0, 0, 0, 0, 0])
  }

  lemma SmallRef(blocks: seq<Block>, s: Slot)
    ensures Ref(SmallInode(), blocks, s) == if s == 0 then 4 else 0
  {
  }

  /** All six blocks are `data`. */
  predicate AllSame(blocks: seq<Block>, data: Block) {
    |blocks| == 6 && forall b :: 0 <= b < 6 ==> blocks[b] == data
  }

  lemma SmallOwned(blocks: seq<Block>)
    requires AllSame(blocks, ZEROS)
    ensures Owned(SMALL, UsedSet(SmallBitmap(), 6), blocks, [SmallInode()], map[4 := Place(0, 0)])
    ensures AllFilled(blocks, [SmallInode()]) && Bytes(SmallInode(), blocks, 2) == [0, 0]
  {
    forall s: Slot
      ensures Ref(SmallInode(), blocks, s) == if s == 0 then 4 else 0
    {
      SmallRef(blocks, s);
    }
    hide Ref;
    var used := UsedSet(SmallBitmap(), 6);
    assert forall b: nat :: b in used <==> b < 5;
    assert Filled(SmallInode(), blocks, 2);
  }

  method SmallDisk() returns (d: FS.Disk)
    ensures fresh(d) && d.Valid() && |d.inodes| == 1 && d.Content(0) == [0, 0] && d.AllLogged() && d.Listed() == {}
    ensures AllSame(d.image.blocks, ZEROS)
  {
    var blocks := [ZEROS, ZEROS, ZEROS, ZEROS, ZEROS, ZEROS];
    SmallOwned(blocks);
    assert FS.MetaBelow(SMALL, 1);
    hide Owned, AllFilled, FS.MetaBelow, AllSame;
    ghost var owner: map<nat, Place> := map[4 := Place(0, 0)];
    d := new FS.Disk(SMALL, SmallBitmap(), blocks, [SmallInode()], owner);
  }

  lemma OneByteCopied(c: seq<Byte>, x: Byte, y: Byte, r: int, done: nat, now: seq<Byte>, hit: bool, logged: seq<Byte>,
                      full: bool)
    requires |c| == 2 && FS.WriteResult(c, 0, [x, y], 1, r, done, now, true, hit, logged, full)
    ensures r == 0 && now == [x, c[1]] && logged == if hit then [x, c[1]] else c
  {
    assert FS.Counted(0, 2, 1) == 0 && done == 1;
  }

  lemma OneByteWritten(r: int, done: nat, now: seq<Byte>, logged: seq<Byte>, full: bool)
    requires FS.WriteResult([0, 0], 0, [7], 1, r, done, now, true, false, logged, full)
    ensures r == 1 && now == [7, 0]
  {
    assert FS.Counted(0, 1, 1) == 1;
  }

  /** Two bytes are written over the file, but the second one cannot be read. No byte is counted as written. */
  method FaultedWrite() returns (d: FS.Disk, r: int)
    ensures fresh(d) && d.Valid() && |d.inodes| == 1
    ensures r == 0 && d.Content(0) == [7, 0] && d.LoggedContent(0) == [0, 0]
  {
    d := SmallDisk();
    hide AllSame, FS.WriteResult, FS.FaultBlock, FS.Clean, Owned, AllFilled, FS.Steady, OthersSame, FS.DirtyWithin;
    ghost var done;
    r, done := d.Writei(0, [7, 8], 0, 1);
    OneByteCopied([0, 0], 7, 8, r, done, d.Content(0), false, d.LoggedContent(0), d.Full());
  }

  /** A reader sees the first byte nevertheless, until the cache forgets the buffer and the file is again what it
      was. */
  method FaultRun() returns (d: FS.Disk, r: int, seen: seq<Byte>, later: seq<Byte>)
    ensures fresh(d) && d.Valid() && |d.inodes| == 1
    ensures r == 0 && seen == [7, 0] && later == [0, 0]
  {
    d, r := FaultedWrite();
    seen := ReadTwo(d);
    d.RecycleAll();
    later := ReadTwo(d);
  }

  /** A file whose first byte differs from the disk has its first block listed. */
  lemma FirstListed(ip: Inode, blocks: seq<Block>, home: seq<Block>, listed: set<nat>)
    requires |ip.addrs| == NDIRECT + 1 && Filled(ip, blocks, 2) && Bytes(ip, blocks, 2)[0] == 7
    requires FS.Clean(blocks, home, listed) && AllSame(home, ZEROS)
    ensures FS.FaultBlock(ip, blocks, 0, 2, 1) != 0 && FS.FaultBlock(ip, blocks, 0, 2, 1) in listed
  {
    assert FS.Counted(0, 2, 1) == 0;
    FS.FilledHas(ip, blocks, 2, 0);
  }

  /** The first byte of the file is written, and another operation of the same transaction begins. */
  method ListedWrite() returns (d: FS.Disk)
    ensures fresh(d) && d.Valid() && |d.inodes| == 1 && d.AllLogged() && d.Content(0) == [7, 0]
    ensures d.FaultListed(0, 0, 2, 1)
  {
    hide AllSame, FS.WriteResult, FS.FaultBlock, FS.Clean, Owned, FS.Steady, OthersSame, FS.DirtyWithin, Filled,
      FS.MetaLogged, FS.GoodImage, FS.MetaBelow;
    d := SmallDisk();
    var r;
    ghost var done;
    r, done := d.Writei(0, [7], 0, 1);
    OneByteWritten(r, done, d.Content(0), d.LoggedContent(0), d.Full());
    d.NextOp();
    FirstListed(d.inodes[0], d.blocks, d.image.blocks, d.Listed());
  }

  /** Then both bytes are written, but the second one cannot be read. */
  method FaultListedWrite() returns (d: FS.Disk, r: int)
    ensures fresh(d) && d.Valid() && |d.inodes| == 1
    ensures r == 0 && d.Content(0) == [8, 0] && d.LoggedContent(0) == [8, 0]
  {
    hide FS.WriteResult, FS.Disk.FaultListed, FS.Disk.Sound, FS.Disk.Recoverable, FS.Clean, FS.Steady, OthersSame,
      FS.DirtyWithin, AllFilled;
    d := ListedWrite();
    ghost var done;
    r, done := d.Writei(0, [8, 8], 0, 1);
    OneByteCopied([7, 0], 8, 8, r, done, d.Content(0), true, d.LoggedContent(0), d.Full());
  }

  /** No byte of the second write is counted, but the commit makes its first byte permanent. */
  method CommittedFault() returns (d: FS.Disk, r: int, later: seq<Byte>)
    ensures fresh(d) && d.Valid() && |d.inodes| == 1
    ensures r == 0 && d.DiskContent(0) == [8, 0] && later == [8, 0]
  {
    d, r := FaultListedWrite();
    d.Commit();
    d.RecycleAll();
    later := ReadTwo(d);
  }

  /** Read the whole of a file of two bytes. */
  method ReadTwo(d: FS.Disk) returns (out: seq<Byte>)
    requires d.Valid() && |d.inodes| == 1 && |d.Content(0)| == 2
    modifies d
    ensures unchanged(d) && out == d.Content(0)
  {
    var m;
    m, out := d.Readi(0, 0, 2, 2);
    assert d.Content(0)[0..2] == d.Content(0);
  }
}
