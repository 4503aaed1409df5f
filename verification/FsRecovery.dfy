/** The file system on top of the log: the blocks that a commit writes are those of the file system's buffers, so a
    machine that stops anywhere in a commit starts again with the file system as it was before the transaction or as the
    transaction leaves it. How bits and inodes stand in a block is a parameter. */
module FsRecovery {
  import opened Params
  import opened FsBlocks
  import opened FsFiles
  import FS = FileSystem
  import L = Log

  /** How a disk block holds file data, allocation bits or inodes. */
  datatype Codec = Codec(data: Block -> L.Block, bits: seq<bool> -> L.Block, inodes: seq<Inode> -> L.Block)

  /** No two contents look alike on the disk. */
  ghost predicate OneToOne(c: Codec) {
    && (forall x, y :: c.data(x) == c.data(y) ==> x == y)
    && (forall x, y :: c.bits(x) == c.bits(y) ==> x == y)
    && (forall x, y :: c.inodes(x) == c.inodes(y) ==> x == y)
  }

  /** The inodes of the k-th inode block. */
  function InodeBlock(inodes: seq<Inode>, k: nat): (r: seq<Inode>)
    requires k * IPB < |inodes|
    ensures |r| == FS.Min(IPB, |inodes| - k * IPB)
    ensures forall j :: 0 <= j < |r| ==> r[j] == inodes[k * IPB + j]
  {
    inodes[k * IPB..FS.Min((k + 1) * IPB, |inodes|)]
  }

  /** Block `b` of a disk that holds `image` is `x`. */
  ghost predicate HoldsBlock(c: Codec, l: Layout, image: FS.Image, b: nat, x: L.Block) {
    && (l.datastart <= b < |image.blocks| ==> x == c.data(image.blocks[b]))
    && (l.bmapstart <= b < l.bmapstart + |image.bitmap| ==> x == c.bits(image.bitmap[b - l.bmapstart]))
    && (l.inodestart <= b && (b - l.inodestart) * IPB < |image.inodes| ==>
          x == c.inodes(InodeBlock(image.inodes, b - l.inodestart)))
  }

  /** The disk holds `image`. */
  ghost predicate Stored(c: Codec, l: Layout, image: FS.Image, d: L.Disk) {
    && |d| == |image.blocks|
    && l.bmapstart + |image.bitmap| <= |d|
    && (|image.inodes| > 0 ==> l.inodestart + (|image.inodes| - 1) / IPB < |d|)
    && forall b :: 0 <= b < |d| ==> HoldsBlock(c, l, image, b, d[b])
  }

  /** The log region holds none of it. */
  ghost predicate AwayFromLog(l: Layout, image: FS.Image, start: nat) {
    forall b: nat :: L.IsLog(start, b) ==>
      && !(l.datastart <= b < |image.blocks|)
      && !(l.bmapstart <= b < l.bmapstart + |image.bitmap|)
      && !(l.inodestart <= b && (b - l.inodestart) * IPB < |image.inodes|)
  }

  lemma StoredInode(c: Codec, l: Layout, image: FS.Image, image': FS.Image, d: L.Disk, j: nat)
    requires OneToOne(c) && Stored(c, l, image, d) && Stored(c, l, image', d)
    requires j < |image.inodes| == |image'.inodes|
    ensures image.inodes[j] == image'.inodes[j]
  {
    var k := j / IPB;
    assert HoldsBlock(c, l, image, l.inodestart + k, d[l.inodestart + k]);
    assert HoldsBlock(c, l, image', l.inodestart + k, d[l.inodestart + k]);
    assert InodeBlock(image.inodes, k)[j % IPB] == image.inodes[j];
    assert InodeBlock(image'.inodes, k)[j % IPB] == image'.inodes[j];
  }

  /** A disk determines the file system on it. */
  lemma StoredOnce(c: Codec, l: Layout, image: FS.Image, image': FS.Image, d: L.Disk)
    requires OneToOne(c) && Stored(c, l, image, d) && Stored(c, l, image', d)
    requires |image.bitmap| == |image'.bitmap| && |image.inodes| == |image'.inodes|
    ensures image.bitmap == image'.bitmap && image.inodes == image'.inodes
    ensures forall b :: l.datastart <= b < |d| ==> image.blocks[b] == image'.blocks[b]
  {
    forall k | 0 <= k < |image.bitmap|
      ensures image.bitmap[k] == image'.bitmap[k]
    {
      assert HoldsBlock(c, l, image, l.bmapstart + k, d[l.bmapstart + k]);
      assert HoldsBlock(c, l, image', l.bmapstart + k, d[l.bmapstart + k]);
    }
    forall j | 0 <= j < |image.inodes|
      ensures image.inodes[j] == image'.inodes[j]
    {
      StoredInode(c, l, image, image', d, j);
    }
    forall b | l.datastart <= b < |d|
      ensures image.blocks[b] == image'.blocks[b]
    {
      assert HoldsBlock(c, l, image, b, d[b]) && HoldsBlock(c, l, image', b, d[b]);
    }
  }

  /** A block of what a commit leaves is that of the buffers if it is listed, and the one on the disk otherwise. */
  lemma LoggedBlock(c: Codec, l: Layout, now: FS.Image, image: FS.Image, listed: set<nat>, b: nat, x: L.Block)
    requires |image.bitmap| == |now.bitmap| && |image.blocks| == |now.blocks| && |image.inodes| == |now.inodes|
    requires HoldsBlock(c, l, if b in listed then now else image, b, x)
    ensures HoldsBlock(c, l, FS.LoggedImage(l, now.bitmap, now.blocks, now.inodes, image, listed), b, x)
  {
    if l.inodestart <= b && (b - l.inodestart) * IPB < |image.inodes| {
      LoggedInodes(l, now, image, listed, b - l.inodestart);
    }
    hide InodeBlock;
  }

  lemma LoggedInodes(l: Layout, now: FS.Image, image: FS.Image, listed: set<nat>, k: nat)
    requires |image.bitmap| == |now.bitmap| && |image.blocks| == |now.blocks| && |image.inodes| == |now.inodes|
    requires k * IPB < |image.inodes|
    ensures InodeBlock(FS.LoggedImage(l, now.bitmap, now.blocks, now.inodes, image, listed).inodes, k) ==
            InodeBlock(if l.inodestart + k in listed then now.inodes else image.inodes, k)
  {
    var after := FS.LoggedImage(l, now.bitmap, now.blocks, now.inodes, image, listed).inodes;
    var from := if l.inodestart + k in listed then now.inodes else image.inodes;
    forall j | 0 <= j < |InodeBlock(from, k)|
      ensures InodeBlock(after, k)[j] == InodeBlock(from, k)[j]
    {
      assert (k * IPB + j) / IPB == k;
    }
  }

  /** The plain effect of a commit of the listed buffers on a disk that holds `image`. */
  lemma CommitStores(c: Codec, l: Layout, now: FS.Image, image: FS.Image, d: L.Disk, start: nat, bs: seq<nat>,
                     cache: map<nat, L.Block>)
    requires |image.bitmap| == |now.bitmap| && |image.blocks| == |now.blocks| && |image.inodes| == |now.inodes|
    requires Stored(c, l, image, d) && forall b :: b in bs ==> b in cache && HoldsBlock(c, l, now, b, cache[b])
    ensures Stored(c, l, FS.LoggedImage(l, now.bitmap, now.blocks, now.inodes, image, L.Elements(bs)),
                   L.Applied(d, bs, cache))
  {
    var listed, e := L.Elements(bs), L.Applied(d, bs, cache);
    forall b | 0 <= b < |e|
      ensures HoldsBlock(c, l, FS.LoggedImage(l, now.bitmap, now.blocks, now.inodes, image, listed), b, e[b])
    {
      assert HoldsBlock(c, l, image, b, d[b]);
      LoggedBlock(c, l, now, image, listed, b, e[b]);
    }
  }

  lemma StoredHome(c: Codec, l: Layout, image: FS.Image, d: L.Disk, e: L.Disk, start: nat)
    requires Stored(c, l, image, d) && AwayFromLog(l, image, start) && L.SameHome(e, d, start)
    ensures Stored(c, l, image, e)
  {
    forall b | 0 <= b < |e|
      ensures HoldsBlock(c, l, image, b, e[b])
    {
      assert HoldsBlock(c, l, image, b, d[b]);
    }
  }

  /** The disk holds `image`, and the buffers hold `now`. Stop the commit of the listed buffers after any number `k` of
      its writes, and interrupt recovery any number of times: the disk then holds `image`, or what the whole commit
      leaves. */
  lemma CommitRecovers(c: Codec, l: Layout, now: FS.Image, image: FS.Image, d: L.Disk, start: nat, bs: seq<nat>,
                       cache: map<nat, L.Block>, k: nat, stops: seq<nat>)
    requires |image.bitmap| == |now.bitmap| && |image.blocks| == |now.blocks| && |image.inodes| == |now.inodes|
    requires Stored(c, l, image, d) && AwayFromLog(l, image, start)
    requires L.Quiet(d, start) && L.GoodList(d, start, bs) && k <= 2 * |bs| + 2
    requires forall b :: b in bs ==> b in cache && HoldsBlock(c, l, now, b, cache[b])
    ensures L.GoodDisk(L.CommitDisk(d, start, bs, cache, k), start)
    ensures var r := L.Recovered(L.Interrupted(L.CommitDisk(d, start, bs, cache, k), start, stops), start);
            L.Quiet(r, start) &&
            Stored(c, l, if k <= |bs| then image else
              FS.LoggedImage(l, now.bitmap, now.blocks, now.inodes, image, L.Elements(bs)), r)
  {
    hide Stored, HoldsBlock, L.Applied, L.SameHome, L.Recovered, L.Interrupted, L.CommitDisk;
    L.CommitIsAtomic(d, start, bs, cache, k, stops);
    var r := L.Recovered(L.Interrupted(L.CommitDisk(d, start, bs, cache, k), start, stops), start);
    var after := FS.LoggedImage(l, now.bitmap, now.blocks, now.inodes, image, L.Elements(bs));
    if k <= |bs| {
      StoredHome(c, l, image, d, r, start);
    } else {
      CommitStores(c, l, now, image, d, start, bs, cache);
      StoredHome(c, l, after, L.Applied(d, bs, cache), r, start);
    }
  }
}
