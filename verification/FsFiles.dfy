/** Inodes, the blocks they refer to and the bytes those blocks hold, as values.

    A reference is a place that holds a block number: one of an inode's NDIRECT direct addresses, its
    indirect address, or an entry of its indirect block. References of one inode are numbered: slots
    0 .. NDIRECT - 1 are direct, slot NDIRECT is the indirect block itself, later slots are its
    entries. */
module FsFiles {
  import opened Params
  import opened FsBlocks

  /** An inode: `meta` stands for the fields that this layer only copies. */
  datatype Inode = Inode(meta: nat, size: nat, addrs: seq<nat>)

  /** Where the parts of the file system lie on the disk. */
  datatype Layout = Layout(size: nat, inodestart: nat, bmapstart: nat, datastart: nat)

  const SLOTS := NDIRECT + 1 + NINDIRECT

  type Slot = s: nat | s < SLOTS
  datatype Place = Place(inum: nat, slot: Slot)

  /** The block that slot `s` refers to, or 0. */
  function Ref(ip: Inode, blocks: seq<Block>, s: Slot): (b: nat)
    requires |ip.addrs| == NDIRECT + 1
  {
    if s <= NDIRECT then ip.addrs[s]
    else if 0 < ip.addrs[NDIRECT] < |blocks| then Word(blocks[ip.addrs[NDIRECT]], s - NDIRECT - 1)
    else 0
  }

  /** The slot for the bn-th block of a file. */
  function DataSlot(bn: nat): (s: Slot)
    requires bn < MAXFILE
    ensures s != NDIRECT
  {
    if bn < NDIRECT then bn else bn + 1
  }

  // ----- Ownership -----

  ghost predicate Shapes(l: Layout, blocks: seq<Block>, inodes: seq<Inode>) {
    && |blocks| == l.size < WORD_LIMIT
    && 1 <= l.datastart <= l.size
    && forall i :: 0 <= i < |inodes| ==> |inodes[i].addrs| == NDIRECT + 1
  }

  /** Every reference points to a block that names this very reference as its owner. */
  ghost predicate RefsOwned(blocks: seq<Block>, inodes: seq<Inode>, owner: map<nat, Place>)
    requires forall i :: 0 <= i < |inodes| ==> |inodes[i].addrs| == NDIRECT + 1
  {
    forall i, s: Slot :: 0 <= i < |inodes| && Ref(inodes[i], blocks, s) != 0 ==>
      Ref(inodes[i], blocks, s) in owner && owner[Ref(inodes[i], blocks, s)] == Place(i, s)
  }

  /** Every owned block is a used data block that its owner refers to. */
  ghost predicate OwnersRefer(l: Layout, used: set<nat>, blocks: seq<Block>, inodes: seq<Inode>,
                              owner: map<nat, Place>)
    requires forall i :: 0 <= i < |inodes| ==> |inodes[i].addrs| == NDIRECT + 1
  {
    forall b :: b in owner ==>
      && l.datastart <= b < l.size && b in used
      && owner[b].inum < |inodes| && Ref(inodes[owner[b].inum], blocks, owner[b].slot) == b
  }

  /** The invariant of the block allocator and the inodes: the used data blocks are exactly the
      referenced ones, and each of them is referenced from exactly one place. */
  ghost predicate Owned(l: Layout, used: set<nat>, blocks: seq<Block>, inodes: seq<Inode>,
                        owner: map<nat, Place>)
  {
    && Shapes(l, blocks, inodes)
    && (forall b :: 0 <= b < l.datastart ==> b in used)
    && RefsOwned(blocks, inodes, owner)
    && OwnersRefer(l, used, blocks, inodes, owner)
    && (forall b :: l.datastart <= b < l.size && b in used ==> b in owner)
  }

  /** Ownership, read without the owner map: a referenced block is in use and referenced from nowhere
      else, and a used data block is referenced from somewhere. */
  lemma OwnedExactlyOnce(l: Layout, used: set<nat>, blocks: seq<Block>, inodes: seq<Inode>,
                         owner: map<nat, Place>)
    requires Owned(l, used, blocks, inodes, owner)
    ensures forall i, s: Slot :: 0 <= i < |inodes| && Ref(inodes[i], blocks, s) != 0 ==>
              l.datastart <= Ref(inodes[i], blocks, s) < l.size && Ref(inodes[i], blocks, s) in used
    ensures forall i, s: Slot, j, t: Slot ::
              (0 <= i < |inodes| && 0 <= j < |inodes| &&
               Ref(inodes[i], blocks, s) == Ref(inodes[j], blocks, t) != 0) ==> i == j && s == t
    ensures forall b :: l.datastart <= b < l.size && b in used ==>
              exists i, s: Slot :: 0 <= i < |inodes| && Ref(inodes[i], blocks, s) == b
  {
    forall b | l.datastart <= b < l.size && b in used
      ensures exists i, s: Slot :: 0 <= i < |inodes| && Ref(inodes[i], blocks, s) == b
    {
      assert Ref(inodes[owner[b].inum], blocks, owner[b].slot) == b;
    }
  }

  // ----- What allocation must not disturb -----

  /** Every reference that exists stays, and every data block referred to keeps its contents. */
  ghost predicate Keeps(blocks: seq<Block>, inodes: seq<Inode>, blocks': seq<Block>, inodes': seq<Inode>) {
    && |blocks'| == |blocks| && |inodes'| == |inodes|
    && (forall i :: 0 <= i < |inodes| ==>
          |inodes[i].addrs| == |inodes'[i].addrs| == NDIRECT + 1 &&
          inodes'[i].meta == inodes[i].meta && inodes'[i].size == inodes[i].size)
    && (forall i, s: Slot :: 0 <= i < |inodes| && Ref(inodes[i], blocks, s) != 0 ==>
          Ref(inodes'[i], blocks', s) == Ref(inodes[i], blocks, s))
    && (forall i, s: Slot ::
          (0 <= i < |inodes| && s != NDIRECT && 0 < Ref(inodes[i], blocks, s) < |blocks|) ==>
          blocks'[Ref(inodes[i], blocks, s)] == blocks[Ref(inodes[i], blocks, s)])
  }

  lemma KeepsTransitive(blocks: seq<Block>, inodes: seq<Inode>, blocks': seq<Block>, inodes': seq<Inode>,
                        blocks'': seq<Block>, inodes'': seq<Inode>)
    requires Keeps(blocks, inodes, blocks', inodes') && Keeps(blocks', inodes', blocks'', inodes'')
    ensures Keeps(blocks, inodes, blocks'', inodes'')
  {
  }

  function WithAddr(inodes: seq<Inode>, i: nat, s: nat, b: nat): (r: seq<Inode>)
    requires i < |inodes| && s < |inodes[i].addrs|
  {
    inodes[i := inodes[i].(addrs := inodes[i].addrs[s := b])]
  }

  /** Changing a block that is not an inode's indirect block leaves the inode's references alone. */
  lemma RefFrame(ip: Inode, blocks: seq<Block>, b: nat, data: Block, s: Slot)
    requires |ip.addrs| == NDIRECT + 1 && b < |blocks| && ip.addrs[NDIRECT] != b
    ensures Ref(ip, blocks[b := data], s) == Ref(ip, blocks, s)
  {
  }

  // ----- Attaching a newly allocated block -----

  /** Changes that leave all references as they are leave the ownership as it is. */
  lemma OwnedBySameRefs(l: Layout, used: set<nat>, blocks: seq<Block>, inodes: seq<Inode>, owner: map<nat, Place>,
                        blocks': seq<Block>)
    requires Owned(l, used, blocks, inodes, owner) && |blocks'| == |blocks|
    requires forall j, t: Slot :: 0 <= j < |inodes| ==> Ref(inodes[j], blocks', t) == Ref(inodes[j], blocks, t)
    ensures Owned(l, used, blocks', inodes, owner)
  {
    assert OwnersRefer(l, used, blocks', inodes, owner) by {
      forall b | b in owner
        ensures l.datastart <= b < l.size && b in used
        ensures owner[b].inum < |inodes| && Ref(inodes[owner[b].inum], blocks', owner[b].slot) == b
      {
        assert Ref(inodes[owner[b].inum], blocks, owner[b].slot) == b;
      }
    }
  }

  /** Changes that only make an empty place refer to a fresh block extend the ownership by it. */
  lemma OwnedByNewRef(l: Layout, used: set<nat>, blocks: seq<Block>, inodes: seq<Inode>, owner: map<nat, Place>,
                      blocks': seq<Block>, inodes': seq<Inode>, p: Place, b: nat)
    requires Owned(l, used, blocks, inodes, owner) && Shapes(l, blocks', inodes') && |inodes'| == |inodes|
    requires p.inum < |inodes| && Ref(inodes[p.inum], blocks, p.slot) == 0
    requires l.datastart <= b < l.size && b !in used
    requires forall j, t: Slot :: 0 <= j < |inodes| ==>
               Ref(inodes'[j], blocks', t) == if Place(j, t) == p then b else Ref(inodes[j], blocks, t)
    ensures Owned(l, used + {b}, blocks', inodes', owner[b := p])
  {
    var owner' := owner[b := p];
    assert b !in owner;
    assert OwnersRefer(l, used + {b}, blocks', inodes', owner') by {
      forall c | c in owner'
        ensures l.datastart <= c < l.size && c in used + {b}
        ensures owner'[c].inum < |inodes'| && Ref(inodes'[owner'[c].inum], blocks', owner'[c].slot) == c
      {
        if c != b { assert Ref(inodes[owner[c].inum], blocks, owner[c].slot) == c; }
      }
    }
  }

  lemma AttachAddrRefs(blocks: seq<Block>, inodes: seq<Inode>, i: nat, s: nat, b: nat, j: nat, t: Slot)
    requires i < |inodes| && j < |inodes| && |inodes[i].addrs| == |inodes[j].addrs| == NDIRECT + 1
    requires s <= NDIRECT && inodes[i].addrs[s] == 0
    requires 0 < b < |blocks| && inodes[j].addrs[NDIRECT] != b
    ensures Ref(WithAddr(inodes, i, s, b)[j], blocks[b := ZEROS], t) ==
            if j == i && t == s then b else Ref(inodes[j], blocks, t)
  {
    var ip := inodes[j];
    if j != i {
      RefFrame(ip, blocks, b, ZEROS, t);
    } else if t > NDIRECT {
      var ip' := WithAddr(inodes, i, s, b)[i];
      if s == NDIRECT {
        assert ip'.addrs[NDIRECT] == b && Word(ZEROS, t - NDIRECT - 1) == 0;
      } else {
        assert ip'.addrs[NDIRECT] == ip.addrs[NDIRECT];
      }
    }
  }

  /** A fresh zeroed block becomes a direct or the indirect block of inode `i`. */
  lemma AttachAddr(l: Layout, used: set<nat>, blocks: seq<Block>, inodes: seq<Inode>, owner: map<nat, Place>,
                   i: nat, s: nat, b: nat)
    requires Owned(l, used, blocks, inodes, owner)
    requires i < |inodes| && s <= NDIRECT && inodes[i].addrs[s] == 0
    requires l.datastart <= b < l.size && b !in used
    ensures var inodes', blocks' := WithAddr(inodes, i, s, b), blocks[b := ZEROS];
            && Owned(l, used + {b}, blocks', inodes', owner[b := Place(i, s)])
            && Keeps(blocks, inodes, blocks', inodes')
  {
    var inodes', blocks' := WithAddr(inodes, i, s, b), blocks[b := ZEROS];
    forall j, t: Slot | 0 <= j < |inodes|
      ensures Ref(inodes'[j], blocks', t) ==
              if Place(j, t) == Place(i, s) then b else Ref(inodes[j], blocks, t)
    {
      assert inodes[j].addrs[NDIRECT] == Ref(inodes[j], blocks, NDIRECT);
      AttachAddrRefs(blocks, inodes, i, s, b, j, t);
    }
    OwnedByNewRef(l, used, blocks, inodes, owner, blocks', inodes', Place(i, s), b);
  }

  lemma AttachEntryRefs(blocks: seq<Block>, inodes: seq<Inode>, i: nat, j: nat, b: nat, k: nat, t: Slot)
    requires i < |inodes| && k < |inodes| && |inodes[i].addrs| == |inodes[k].addrs| == NDIRECT + 1
    requires var a := inodes[i].addrs[NDIRECT]; 0 < a < |blocks| && (k != i ==> inodes[k].addrs[NDIRECT] != a)
    requires j < NINDIRECT && 0 < b < |blocks| && b < WORD_LIMIT && inodes[k].addrs[NDIRECT] != b
    ensures var a := inodes[i].addrs[NDIRECT];
            Ref(inodes[k], blocks[b := ZEROS][a := SetWord(blocks[a], j, b)], t) ==
            if k == i && t == NDIRECT + 1 + j then b else Ref(inodes[k], blocks, t)
  {
    var a := inodes[i].addrs[NDIRECT];
    if k != i {
      RefFrame(inodes[k], blocks, b, ZEROS, t);
      RefFrame(inodes[k], blocks[b := ZEROS], a, SetWord(blocks[a], j, b), t);
    } else if t > NDIRECT {
      WordAfterSet(blocks[a], j, b, t - NDIRECT - 1);
    }
  }

  /** A fresh zeroed block becomes the j-th entry of inode `i`'s indirect block. */
  lemma AttachEntry(l: Layout, used: set<nat>, blocks: seq<Block>, inodes: seq<Inode>, owner: map<nat, Place>,
                    i: nat, j: nat, b: nat)
    requires Owned(l, used, blocks, inodes, owner)
    requires i < |inodes| && j < NINDIRECT
    requires var a := inodes[i].addrs[NDIRECT]; 0 < a < l.size && Word(blocks[a], j) == 0
    requires l.datastart <= b < l.size && b !in used
    ensures var a := inodes[i].addrs[NDIRECT];
            var blocks' := blocks[b := ZEROS][a := SetWord(blocks[a], j, b)];
            && a != b
            && Ref(inodes[i], blocks', NDIRECT + 1 + j) == b
            && Owned(l, used + {b}, blocks', inodes, owner[b := Place(i, NDIRECT + 1 + j)])
            && Keeps(blocks, inodes, blocks', inodes)
  {
    var a, p := inodes[i].addrs[NDIRECT], Place(i, NDIRECT + 1 + j);
    var blocks' := blocks[b := ZEROS][a := SetWord(blocks[a], j, b)];
    assert Keeps(blocks, inodes, blocks', inodes) by {
      AttachEntryKeeps(l, used, blocks, inodes, owner, i, j, b);
    }
    assert a != b && Ref(inodes[i], blocks', p.slot) == b by {
      AttachEntryAll(l, used, blocks, inodes, owner, i, j, b);
    }
    assert Owned(l, used + {b}, blocks', inodes, owner[b := p]) by {
      AttachEntryAll(l, used, blocks, inodes, owner, i, j, b);
      assert Ref(inodes[i], blocks, p.slot) == 0;
      OwnedByNewRef(l, used, blocks, inodes, owner, blocks', inodes, p, b);
    }
  }

  lemma AttachEntryAll(l: Layout, used: set<nat>, blocks: seq<Block>, inodes: seq<Inode>, owner: map<nat, Place>,
                       i: nat, j: nat, b: nat)
    requires Owned(l, used, blocks, inodes, owner)
    requires i < |inodes| && j < NINDIRECT && 0 < inodes[i].addrs[NDIRECT] < l.size
    requires l.datastart <= b < l.size && b !in used
    ensures var a := inodes[i].addrs[NDIRECT];
            var blocks' := blocks[b := ZEROS][a := SetWord(blocks[a], j, b)];
            a != b &&
            forall k, t: Slot :: 0 <= k < |inodes| ==>
              Ref(inodes[k], blocks', t) ==
              if Place(k, t) == Place(i, NDIRECT + 1 + j) then b else Ref(inodes[k], blocks, t)
  {
    var a := inodes[i].addrs[NDIRECT];
    var blocks' := blocks[b := ZEROS][a := SetWord(blocks[a], j, b)];
    assert a == Ref(inodes[i], blocks, NDIRECT);
    forall k, t: Slot | 0 <= k < |inodes|
      ensures Ref(inodes[k], blocks', t) ==
              if Place(k, t) == Place(i, NDIRECT + 1 + j) then b else Ref(inodes[k], blocks, t)
    {
      assert inodes[k].addrs[NDIRECT] == Ref(inodes[k], blocks, NDIRECT);
      AttachEntryRefs(blocks, inodes, i, j, b, k, t);
    }
  }

  lemma AttachEntryKeeps(l: Layout, used: set<nat>, blocks: seq<Block>, inodes: seq<Inode>, owner: map<nat, Place>,
                         i: nat, j: nat, b: nat)
    requires Owned(l, used, blocks, inodes, owner)
    requires i < |inodes| && j < NINDIRECT
    requires var a := inodes[i].addrs[NDIRECT]; 0 < a < l.size && Word(blocks[a], j) == 0
    requires l.datastart <= b < l.size && b !in used
    ensures var a := inodes[i].addrs[NDIRECT];
            Keeps(blocks, inodes, blocks[b := ZEROS][a := SetWord(blocks[a], j, b)], inodes)
  {
    var a := inodes[i].addrs[NDIRECT];
    var blocks' := blocks[b := ZEROS][a := SetWord(blocks[a], j, b)];
    forall k, t: Slot | 0 <= k < |inodes| && t != NDIRECT && 0 < Ref(inodes[k], blocks, t) < |blocks|
      ensures blocks'[Ref(inodes[k], blocks, t)] == blocks[Ref(inodes[k], blocks, t)]
    {
      DataIsNot(l, used, blocks, inodes, owner, i, b, k, t);
    }
    forall k, t: Slot | 0 <= k < |inodes| && Ref(inodes[k], blocks, t) != 0
      ensures Ref(inodes[k], blocks', t) == Ref(inodes[k], blocks, t)
    {
      assert Ref(inodes[i], blocks, NDIRECT + 1 + j) == 0;
      AttachEntryAll(l, used, blocks, inodes, owner, i, j, b);
    }
  }

  /** A data block is neither an indirect block nor a free block. */
  lemma DataIsNot(l: Layout, used: set<nat>, blocks: seq<Block>, inodes: seq<Inode>, owner: map<nat, Place>,
                  i: nat, b: nat, k: nat, t: Slot)
    requires Owned(l, used, blocks, inodes, owner)
    requires i < |inodes| && b !in used && k < |inodes| && t != NDIRECT && Ref(inodes[k], blocks, t) != 0
    ensures Ref(inodes[k], blocks, t) != b && Ref(inodes[k], blocks, t) != inodes[i].addrs[NDIRECT]
  {
    assert inodes[i].addrs[NDIRECT] == Ref(inodes[i], blocks, NDIRECT);
  }

  // ----- Detaching blocks that are freed -----

  /** When inode `i` stops referring to the blocks `gone`, and they become free, ownership holds for
      the rest. */
  lemma OwnedWithout(l: Layout, used: set<nat>, blocks: seq<Block>, inodes: seq<Inode>, owner: map<nat, Place>,
                     inodes': seq<Inode>, i: nat, gone: set<nat>)
    requires Owned(l, used, blocks, inodes, owner) && Shapes(l, blocks, inodes') && |inodes'| == |inodes|
    requires i < |inodes| && forall j :: 0 <= j < |inodes| && j != i ==> inodes'[j] == inodes[j]
    requires forall b :: b in gone ==> b in owner && owner[b].inum == i
    requires forall s: Slot :: Ref(inodes'[i], blocks, s) ==
               if Ref(inodes[i], blocks, s) in gone then 0 else Ref(inodes[i], blocks, s)
    ensures Owned(l, used - gone, blocks, inodes', owner - gone)
  {
    var owner' := owner - gone;
    assert RefsOwned(blocks, inodes', owner') by {
      forall j, s: Slot | 0 <= j < |inodes| && Ref(inodes'[j], blocks, s) != 0
        ensures Ref(inodes'[j], blocks, s) in owner' && owner'[Ref(inodes'[j], blocks, s)] == Place(j, s)
      {
        assert Ref(inodes'[j], blocks, s) == Ref(inodes[j], blocks, s);
      }
    }
    assert OwnersRefer(l, used - gone, blocks, inodes', owner') by {
      forall b | b in owner'
        ensures l.datastart <= b < l.size && b in used - gone
        ensures owner'[b].inum < |inodes'| && Ref(inodes'[owner'[b].inum], blocks, owner'[b].slot) == b
      {
        assert Ref(inodes[owner[b].inum], blocks, owner[b].slot) == b;
      }
    }
  }

  /** Freeing a direct block. */
  lemma DetachAddr(l: Layout, used: set<nat>, blocks: seq<Block>, inodes: seq<Inode>, owner: map<nat, Place>,
                   i: nat, s: nat)
    requires Owned(l, used, blocks, inodes, owner)
    requires i < |inodes| && s < NDIRECT && inodes[i].addrs[s] != 0
    ensures var b := inodes[i].addrs[s];
            && b in owner && owner[b] == Place(i, s)
            && Owned(l, used - {b}, blocks, WithAddr(inodes, i, s, 0), owner - {b})
  {
    var b := inodes[i].addrs[s];
    assert b == Ref(inodes[i], blocks, s);
    var inodes' := WithAddr(inodes, i, s, 0);
    forall t: Slot
      ensures Ref(inodes'[i], blocks, t) ==
              if Ref(inodes[i], blocks, t) in {b} then 0 else Ref(inodes[i], blocks, t)
    {
      assert t != s ==> Ref(inodes[i], blocks, t) != b;
    }
    OwnedWithout(l, used, blocks, inodes, owner, inodes', i, {b});
  }

  /** The nonzero words among the first `n` of a block. */
  function Entries(b: Block, n: nat): (r: set<nat>)
    requires n <= NINDIRECT
    ensures 0 !in r
    ensures forall j :: 0 <= j < n && Word(b, j) != 0 ==> Word(b, j) in r
  {
    if n == 0 then {} else
      Entries(b, n - 1) + (if Word(b, n - 1) == 0 then {} else {Word(b, n - 1)})
  }

  /** An indirect block together with its entries. */
  function IndirectSet(blocks: seq<Block>, a: nat): (r: set<nat>)
    requires a < |blocks|
  {
    Entries(blocks[a], NINDIRECT) + {a}
  }

  lemma {:induction false} EntryIndex(b: Block, n: nat, x: nat) returns (j: nat)
    requires n <= NINDIRECT && x in Entries(b, n)
    ensures j < n && Word(b, j) == x != 0
  {
    if Word(b, n - 1) == x {
      j := n - 1;
    } else {
      j := EntryIndex(b, n - 1, x);
    }
  }

  /** The entries of inode `i`'s indirect block are owned by inode `i` and differ from one another. */
  lemma EntriesOwned(l: Layout, used: set<nat>, blocks: seq<Block>, inodes: seq<Inode>, owner: map<nat, Place>,
                     i: nat, n: nat, x: nat)
    requires Owned(l, used, blocks, inodes, owner) && i < |inodes| && n <= NINDIRECT
    requires 0 < inodes[i].addrs[NDIRECT] < l.size && x in Entries(blocks[inodes[i].addrs[NDIRECT]], n)
    ensures x in owner && owner[x].inum == i && NDIRECT < owner[x].slot < NDIRECT + 1 + n
  {
    var j := EntryIndex(blocks[inodes[i].addrs[NDIRECT]], n, x);
    assert Ref(inodes[i], blocks, NDIRECT + 1 + j) == x;
  }

  /** Freeing the indirect block and all its entries. */
  lemma DetachIndirect(l: Layout, used: set<nat>, blocks: seq<Block>, inodes: seq<Inode>, owner: map<nat, Place>,
                       i: nat)
    requires Owned(l, used, blocks, inodes, owner)
    requires i < |inodes| && 0 < inodes[i].addrs[NDIRECT] < l.size
    ensures var a := inodes[i].addrs[NDIRECT];
            var gone := IndirectSet(blocks, a);
            && Owned(l, used - gone, blocks, WithAddr(inodes, i, NDIRECT, 0), owner - gone)
            && (forall b :: b in gone ==> b in owner && owner[b].inum == i)
  {
    var a := inodes[i].addrs[NDIRECT];
    var gone := IndirectSet(blocks, a);
    var inodes' := WithAddr(inodes, i, NDIRECT, 0);
    assert a == Ref(inodes[i], blocks, NDIRECT);
    forall b | b in gone
      ensures b in owner && owner[b].inum == i && owner[b].slot >= NDIRECT
    {
      if b != a { EntriesOwned(l, used, blocks, inodes, owner, i, NINDIRECT, b); }
    }
    forall t: Slot
      ensures Ref(inodes'[i], blocks, t) ==
              if Ref(inodes[i], blocks, t) in gone then 0 else Ref(inodes[i], blocks, t)
    {
      if t > NDIRECT {
        assert Ref(inodes[i], blocks, t) == Word(blocks[a], t - NDIRECT - 1);
      } else if t < NDIRECT && Ref(inodes[i], blocks, t) != 0 {
        assert owner[Ref(inodes[i], blocks, t)] == Place(i, t);
      }
    }
    OwnedWithout(l, used, blocks, inodes, owner, inodes', i, gone);
  }

  // ----- File contents -----

  /** The byte at offset `k` of a file; a byte without a block reads as zero. */
  function FileByte(ip: Inode, blocks: seq<Block>, k: nat): (x: Byte)
    requires |ip.addrs| == NDIRECT + 1 && k < MAXFILE * BSIZE
  {
    var b := Ref(ip, blocks, DataSlot(k / BSIZE));
    if 0 < b < |blocks| then blocks[b][k % BSIZE] else 0
  }

  /** Byte `k` of a file is byte k % BSIZE of its block k / BSIZE: one of the first blocks is where the inode says, and
      a later one where the indirect block says. */
  lemma FileByteAt(ip: Inode, blocks: seq<Block>, k: nat)
    requires |ip.addrs| == NDIRECT + 1 && k < MAXFILE * BSIZE
    ensures k / BSIZE < NDIRECT && 0 < ip.addrs[k / BSIZE] < |blocks| ==>
              FileByte(ip, blocks, k) == blocks[ip.addrs[k / BSIZE]][k % BSIZE]
    ensures k / BSIZE >= NDIRECT && 0 < ip.addrs[NDIRECT] < |blocks| ==>
              var b := Word(blocks[ip.addrs[NDIRECT]], k / BSIZE - NDIRECT);
              0 < b < |blocks| ==> FileByte(ip, blocks, k) == blocks[b][k % BSIZE]
  {
  }

  /** The first `n` bytes of a file. */
  function Bytes(ip: Inode, blocks: seq<Block>, n: nat): (r: seq<Byte>)
    requires |ip.addrs| == NDIRECT + 1 && n <= MAXFILE * BSIZE
    ensures |r| == n && forall k :: 0 <= k < n ==> r[k] == FileByte(ip, blocks, k)
  {
    seq(n, k requires 0 <= k < n => FileByte(ip, blocks, k))
  }

  /** The blocks of the first `n` bytes exist. */
  ghost predicate Filled(ip: Inode, blocks: seq<Block>, n: nat)
    requires |ip.addrs| == NDIRECT + 1
  {
    n <= MAXFILE * BSIZE &&
    forall bn: nat :: bn < MAXFILE && bn * BSIZE < n ==> Ref(ip, blocks, DataSlot(bn)) != 0
  }

  /** Every file has all its blocks. */
  ghost predicate AllFilled(blocks: seq<Block>, inodes: seq<Inode>) {
    forall i :: 0 <= i < |inodes| ==>
      |inodes[i].addrs| == NDIRECT + 1 && Filled(inodes[i], blocks, inodes[i].size)
  }

  /** What keeps references and data blocks keeps every file's bytes. */
  lemma KeepsBytes(l: Layout, used: set<nat>, blocks: seq<Block>, inodes: seq<Inode>, owner: map<nat, Place>,
                   blocks': seq<Block>, inodes': seq<Inode>, i: nat, n: nat)
    requires Owned(l, used, blocks, inodes, owner) && Keeps(blocks, inodes, blocks', inodes')
    requires i < |inodes| && Filled(inodes[i], blocks, n)
    ensures Filled(inodes'[i], blocks', n)
    ensures Bytes(inodes'[i], blocks', n) == Bytes(inodes[i], blocks, n)
  {
    forall k | 0 <= k < n
      ensures FileByte(inodes'[i], blocks', k) == FileByte(inodes[i], blocks, k)
    {
      assert Ref(inodes[i], blocks, DataSlot(k / BSIZE)) != 0;
    }
  }

  /** The files other than `i` have the inodes and the bytes they had. */
  ghost predicate OthersSame(i: nat, blocks: seq<Block>, inodes: seq<Inode>, blocks': seq<Block>, inodes': seq<Inode>) {
    && |inodes'| == |inodes|
    && forall j :: 0 <= j < |inodes| && j != i ==>
         && inodes'[j] == inodes[j] && |inodes[j].addrs| == NDIRECT + 1
         && (Filled(inodes[j], blocks, inodes[j].size) ==>
               && Filled(inodes[j], blocks', inodes[j].size)
               && Bytes(inodes[j], blocks', inodes[j].size) == Bytes(inodes[j], blocks, inodes[j].size))
  }

  lemma OthersSameTwice(i: nat, blocks: seq<Block>, inodes: seq<Inode>, blocks1: seq<Block>, inodes1: seq<Inode>,
                        blocks2: seq<Block>, inodes2: seq<Inode>)
    requires OthersSame(i, blocks, inodes, blocks1, inodes1) && OthersSame(i, blocks1, inodes1, blocks2, inodes2)
    ensures OthersSame(i, blocks, inodes, blocks2, inodes2)
  {
  }

  lemma OthersFilled(i: nat, blocks: seq<Block>, inodes: seq<Inode>, blocks': seq<Block>, inodes': seq<Inode>)
    requires OthersSame(i, blocks, inodes, blocks', inodes') && AllFilled(blocks, inodes) && i < |inodes|
    requires |inodes'[i].addrs| == NDIRECT + 1 && Filled(inodes'[i], blocks', inodes'[i].size)
    ensures AllFilled(blocks', inodes')
    ensures forall j :: 0 <= j < |inodes| && j != i ==>
              && inodes'[j] == inodes[j]
              && Bytes(inodes'[j], blocks', inodes'[j].size) == Bytes(inodes[j], blocks, inodes[j].size)
  {
  }

  lemma KeepsOthers(l: Layout, used: set<nat>, blocks: seq<Block>, inodes: seq<Inode>, owner: map<nat, Place>,
                    blocks': seq<Block>, inodes': seq<Inode>, i: nat)
    requires Owned(l, used, blocks, inodes, owner) && Keeps(blocks, inodes, blocks', inodes')
    requires forall j :: 0 <= j < |inodes| && j != i ==> inodes'[j] == inodes[j]
    ensures OthersSame(i, blocks, inodes, blocks', inodes')
  {
    forall j | 0 <= j < |inodes| && j != i && Filled(inodes[j], blocks, inodes[j].size)
      ensures Filled(inodes[j], blocks', inodes[j].size)
      ensures Bytes(inodes[j], blocks', inodes[j].size) == Bytes(inodes[j], blocks, inodes[j].size)
    {
      KeepsBytes(l, used, blocks, inodes, owner, blocks', inodes', j, inodes[j].size);
    }
  }

  /** The length of a file has no bearing on ownership. */
  lemma ResizeKeepsOwned(l: Layout, used: set<nat>, blocks: seq<Block>, inodes: seq<Inode>, owner: map<nat, Place>,
                         i: nat, n: nat)
    requires Owned(l, used, blocks, inodes, owner) && i < |inodes|
    ensures Owned(l, used, blocks, inodes[i := inodes[i].(size := n)], owner)
    ensures forall s: Slot :: Ref(inodes[i].(size := n), blocks, s) == Ref(inodes[i], blocks, s)
  {
    var inodes' := inodes[i := inodes[i].(size := n)];
    assert forall j, s: Slot :: 0 <= j < |inodes| ==> Ref(inodes'[j], blocks, s) == Ref(inodes[j], blocks, s);
    assert OwnersRefer(l, used, blocks, inodes', owner) by {
      forall b | b in owner
        ensures l.datastart <= b < l.size && b in used
        ensures owner[b].inum < |inodes'| && Ref(inodes'[owner[b].inum], blocks, owner[b].slot) == b
      {
        assert Ref(inodes[owner[b].inum], blocks, owner[b].slot) == b;
      }
    }
  }

  lemma ResizeKeepsBytes(ip: Inode, blocks: seq<Block>, size: nat, n: nat)
    requires |ip.addrs| == NDIRECT + 1 && size <= n && Filled(ip, blocks, n)
    ensures Filled(ip.(size := size), blocks, size)
    ensures Bytes(ip.(size := size), blocks, size) == Bytes(ip, blocks, n)[..size]
  {
    assert forall s: Slot :: Ref(ip.(size := size), blocks, s) == Ref(ip, blocks, s);
  }

  /** The bytes of a block are the bytes of the file stretch it holds. */
  lemma ChunkOfBytes(ip: Inode, blocks: seq<Block>, n: nat, off: nat, m: nat)
    requires |ip.addrs| == NDIRECT + 1 && n <= MAXFILE * BSIZE && off < n && off + m <= n
    requires off % BSIZE + m <= BSIZE
    requires 0 < Ref(ip, blocks, DataSlot(off / BSIZE)) < |blocks|
    ensures Bytes(ip, blocks, n)[off..off + m] ==
            blocks[Ref(ip, blocks, DataSlot(off / BSIZE))][off % BSIZE..off % BSIZE + m]
  {
    var c, data := Bytes(ip, blocks, n), blocks[Ref(ip, blocks, DataSlot(off / BSIZE))];
    forall k: nat | off <= k < off + m
      ensures c[k] == data[k - off + off % BSIZE]
    {
      assert k / BSIZE == off / BSIZE && k % BSIZE == off % BSIZE + (k - off);
    }
  }

  /** `c` with `w` written over it from offset `off` on. */
  function Splice(c: seq<Byte>, off: nat, w: seq<Byte>): (r: seq<Byte>)
    requires off <= |c|
    ensures |r| == if off + |w| > |c| then off + |w| else |c|
    ensures forall k :: 0 <= k < |r| ==>
              r[k] == if off <= k < off + |w| then w[k - off] else c[k]
  {
    c[..off] + w + (if off + |w| < |c| then c[off + |w|..] else [])
  }

  /** Writing in two adjoining pieces is writing once. */
  lemma SpliceTwice(c: seq<Byte>, off: nat, w: seq<Byte>, m: nat)
    requires off <= |c| && m <= |w|
    ensures Splice(Splice(c, off, w[..m]), off + m, w[m..]) == Splice(c, off, w)
  {
  }

  /** Writing `m` of the next `k` bytes of `w` after its first `n` bytes. */
  lemma SpliceStep(c: seq<Byte>, off: nat, w: seq<Byte>, n: nat, k: nat, m: nat, d: seq<Byte>, e: seq<Byte>)
    requires off <= |c| && n + k <= |w| && m <= k
    requires d == Splice(c, off, w[..n]) && e == Splice(d, off + n, w[n..n + k][..m])
    ensures e == Splice(c, off, w[..n + m])
  {
    SpliceTwice(c, off, w[..n + m], n);
    assert w[..n + m][..n] == w[..n] && w[..n + m][n..] == w[n..n + k][..m];
  }

  /** The block `b` with `w` copied into it at offset `at`. */
  function Patch(b: Block, at: nat, w: seq<Byte>): (r: Block)
    requires at + |w| <= BSIZE
    ensures forall k :: 0 <= k < BSIZE ==> r[k] == if at <= k < at + |w| then w[k - at] else b[k]
  {
    b[..at] + w + b[at + |w|..]
  }

  // ----- Overwriting part of a data block -----

  /** A data block can be overwritten without touching any reference. */
  lemma PatchKeepsRefs(l: Layout, used: set<nat>, blocks: seq<Block>, inodes: seq<Inode>, owner: map<nat, Place>,
                       i: nat, s: Slot, data: Block)
    requires Owned(l, used, blocks, inodes, owner)
    requires i < |inodes| && s != NDIRECT && Ref(inodes[i], blocks, s) != 0
    ensures var b := Ref(inodes[i], blocks, s);
            && l.datastart <= b < l.size
            && Owned(l, used, blocks[b := data], inodes, owner)
            && (forall j, t: Slot :: 0 <= j < |inodes| ==>
                  Ref(inodes[j], blocks[b := data], t) == Ref(inodes[j], blocks, t))
  {
    var b := Ref(inodes[i], blocks, s);
    forall j, t: Slot | 0 <= j < |inodes|
      ensures Ref(inodes[j], blocks[b := data], t) == Ref(inodes[j], blocks, t)
    {
      assert inodes[j].addrs[NDIRECT] == Ref(inodes[j], blocks, NDIRECT);
      RefFrame(inodes[j], blocks, b, data, t);
    }
    OwnedBySameRefs(l, used, blocks, inodes, owner, blocks[b := data]);
  }

  /** The bytes of the other files do not change. */
  lemma PatchOthers(l: Layout, used: set<nat>, blocks: seq<Block>, inodes: seq<Inode>, owner: map<nat, Place>,
                    i: nat, s: Slot, data: Block, j: nat, n: nat)
    requires Owned(l, used, blocks, inodes, owner)
    requires i < |inodes| && s != NDIRECT && Ref(inodes[i], blocks, s) != 0
    requires j < |inodes| && j != i && n <= MAXFILE * BSIZE
    ensures var b := Ref(inodes[i], blocks, s);
            b < |blocks| && Bytes(inodes[j], blocks[b := data], n) == Bytes(inodes[j], blocks, n)
  {
    PatchKeepsRefs(l, used, blocks, inodes, owner, i, s, data);
    var b := Ref(inodes[i], blocks, s);
    forall k | 0 <= k < n
      ensures FileByte(inodes[j], blocks[b := data], k) == FileByte(inodes[j], blocks, k)
    {
      assert Ref(inodes[j], blocks, DataSlot(k / BSIZE)) != b;
    }
  }

  lemma PatchAllOthers(l: Layout, used: set<nat>, blocks: seq<Block>, inodes: seq<Inode>, owner: map<nat, Place>,
                       i: nat, s: Slot, data: Block)
    requires Owned(l, used, blocks, inodes, owner)
    requires i < |inodes| && s != NDIRECT && 0 < Ref(inodes[i], blocks, s) < |blocks|
    ensures OthersSame(i, blocks, inodes, blocks[Ref(inodes[i], blocks, s) := data], inodes)
  {
    var blocks' := blocks[Ref(inodes[i], blocks, s) := data];
    forall j | 0 <= j < |inodes| && j != i && Filled(inodes[j], blocks, inodes[j].size)
      ensures Filled(inodes[j], blocks', inodes[j].size)
      ensures Bytes(inodes[j], blocks', inodes[j].size) == Bytes(inodes[j], blocks, inodes[j].size)
    {
      PatchKeepsRefs(l, used, blocks, inodes, owner, i, s, data);
      PatchOthers(l, used, blocks, inodes, owner, i, s, data, j, inodes[j].size);
    }
  }

  /** A file that has its first `n` bytes and the block of offset `off <= n` has all bytes up to the
      end of a piece at `off` inside that block. */
  lemma FilledFurther(ip: Inode, blocks: seq<Block>, n: nat, off: nat, m: nat)
    requires |ip.addrs| == NDIRECT + 1 && Filled(ip, blocks, n) && off <= n && off < MAXFILE * BSIZE
    requires off % BSIZE + m <= BSIZE && Ref(ip, blocks, DataSlot(off / BSIZE)) != 0
    ensures Filled(ip, blocks, if off + m > n then off + m else n)
  {
    forall bn: nat | bn < MAXFILE && n <= bn * BSIZE < off + m
      ensures Ref(ip, blocks, DataSlot(bn)) != 0
    {
      assert bn == off / BSIZE;
    }
  }

  /** Writing `w` into the block that holds offset `off` of file `i` writes `w` into the file at
      `off`, and extends it when the write passes its end. */
  lemma PatchWrites(l: Layout, used: set<nat>, blocks: seq<Block>, inodes: seq<Inode>, owner: map<nat, Place>,
                    i: nat, off: nat, w: seq<Byte>, n: nat)
    requires Owned(l, used, blocks, inodes, owner)
    requires i < |inodes| && Filled(inodes[i], blocks, n) && off <= n && off < MAXFILE * BSIZE
    requires off % BSIZE + |w| <= BSIZE
    requires Ref(inodes[i], blocks, DataSlot(off / BSIZE)) != 0
    ensures var b := Ref(inodes[i], blocks, DataSlot(off / BSIZE));
            b < |blocks| &&
            var blocks' := blocks[b := Patch(blocks[b], off % BSIZE, w)];
            var n' := if off + |w| > n then off + |w| else n;
            && Filled(inodes[i], blocks', n')
            && Bytes(inodes[i], blocks', n') == Splice(Bytes(inodes[i], blocks, n), off, w)
  {
    var s := DataSlot(off / BSIZE);
    var b := Ref(inodes[i], blocks, s);
    var blocks' := blocks[b := Patch(blocks[b], off % BSIZE, w)];
    var n' := if off + |w| > n then off + |w| else n;
    assert Filled(inodes[i], blocks', n') by {
      PatchKeepsRefs(l, used, blocks, inodes, owner, i, s, Patch(blocks[b], off % BSIZE, w));
      FilledFurther(inodes[i], blocks, n, off, |w|);
    }
    forall k: nat | k < n'
      ensures FileByte(inodes[i], blocks', k) ==
              if off <= k < off + |w| then w[k - off] else FileByte(inodes[i], blocks, k)
    {
      PatchedByte(l, used, blocks, inodes, owner, i, off, w, k);
    }
    BytesSpliced(inodes[i], blocks, blocks', n, off, w);
  }

  lemma BytesSpliced(ip: Inode, blocks: seq<Block>, blocks': seq<Block>, n: nat, off: nat, w: seq<Byte>)
    requires |ip.addrs| == NDIRECT + 1 && off <= n <= MAXFILE * BSIZE && off + |w| <= MAXFILE * BSIZE
    requires forall k: nat :: k < (if off + |w| > n then off + |w| else n) ==>
               FileByte(ip, blocks', k) == if off <= k < off + |w| then w[k - off] else FileByte(ip, blocks, k)
    ensures Bytes(ip, blocks', if off + |w| > n then off + |w| else n) == Splice(Bytes(ip, blocks, n), off, w)
  {
  }

  lemma PatchedByte(l: Layout, used: set<nat>, blocks: seq<Block>, inodes: seq<Inode>, owner: map<nat, Place>,
                    i: nat, off: nat, w: seq<Byte>, k: nat)
    requires Owned(l, used, blocks, inodes, owner)
    requires i < |inodes| && off < MAXFILE * BSIZE && off % BSIZE + |w| <= BSIZE && k < MAXFILE * BSIZE
    requires Ref(inodes[i], blocks, DataSlot(off / BSIZE)) != 0
    ensures var b := Ref(inodes[i], blocks, DataSlot(off / BSIZE));
            b < |blocks| &&
            FileByte(inodes[i], blocks[b := Patch(blocks[b], off % BSIZE, w)], k) ==
            if off <= k < off + |w| then w[k - off] else FileByte(inodes[i], blocks, k)
  {
    var s := DataSlot(off / BSIZE);
    var b := Ref(inodes[i], blocks, s);
    var data := Patch(blocks[b], off % BSIZE, w);
    PatchKeepsRefs(l, used, blocks, inodes, owner, i, s, data);
    var c := Ref(inodes[i], blocks, DataSlot(k / BSIZE));
    if k / BSIZE == off / BSIZE {
      assert k - off == k % BSIZE - off % BSIZE;
    } else {
      assert DataSlot(k / BSIZE) != s && c != b;
      assert !(off <= k < off + |w|);
    }
  }
}
