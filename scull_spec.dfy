/** The behaviour of scull_follow, scull_read and scull_write (ch3/scull.c)
    as functions from one device snapshot to the next; scull_trim is the
    method Scull.Device.Trim. The allocator is an oracle: `avail` is the
    number of allocation requests it grants during the call, so the request
    after them is the one that fails. */
module ScullSpec {
  import opened ScullTypes

  function Min(a: int, b: int): int { if a <= b then a else b }
  function Max(a: int, b: int): int { if a <= b then b else a }

  // ---------------------------------------------------------------------------
  // scull_follow

  /** The chain after following it to item `n`, whether item `n` was reached,
      and how many nodes were allocated on the way. */
  datatype Followed = Followed(chain: seq<QSet>, found: bool, used: nat)

  function FollowChain(chain: seq<QSet>, n: nat, avail: nat): (f: Followed)
    // only fresh, empty nodes are appended, at the tail
    ensures f.chain == chain + FreshNodes(f.used) && f.used <= avail
    // item n is reached exactly when the allocator grants the missing nodes
    ensures f.found <==> n < |chain| + avail
    ensures f.found ==> n < |f.chain| && |f.chain| == Max(|chain|, n + 1)
    // a failed walk keeps every node it managed to append
    ensures !f.found ==> f.used == avail && |f.chain| <= n
  {
    var need := if n < |chain| then 0 else n + 1 - |chain|;
    if need <= avail then Followed(chain + FreshNodes(need), true, need)
    else Followed(chain + FreshNodes(avail), false, avail)
  }

  lemma FreshNodesWellFormed(d: Dev, k: nat)
    requires Valid(d)
    ensures Valid(d.(chain := d.chain + FreshNodes(k)))
  {
  }

  /** Appending nodes keeps the size covered. */
  lemma FreshNodesCover(d: Dev, k: nat)
    requires Covers(d)
    ensures Covers(d.(chain := d.chain + FreshNodes(k)))
  {
    ChainGrowth(|d.chain|, |d.chain| + k, d.quantum, d.qset);
  }

  // ---------------------------------------------------------------------------
  // scull_read

  /** The bytes copy_to_user hands out: `n` bytes of the quantum from `offset`
      on, where `offset` is q_pos, the position inside the quantum. */
  function CopyOut(q: Quantum, offset: nat, n: nat): (r: seq<byte>)
    requires offset + n <= |q|
    ensures |r| == n && forall i :: 0 <= i < n ==> r[i] == q[offset + i]
  {
    q[offset..offset + n]
  }

  datatype ReadResult = ReadResult(dev: Dev, fpos: nat, ret: int, data: seq<byte>)

  /** A read of up to `count` bytes at `fpos`. `fault` stands for a failing
      copy_to_user, `interrupted` for an interrupted wait on the lock. The walk
      to the item is the allocating scull_follow, so the chain may grow. */
  function ReadSpec(d: Dev, fpos: nat, count: nat, avail: nat, interrupted: bool, fault: bool): (r: ReadResult)
    requires Valid(d)
    // at most fresh, empty nodes are appended; nothing else changes
    ensures Valid(r.dev) && |r.dev.chain| >= |d.chain|
    ensures r.dev == d.(chain := d.chain + FreshNodes(|r.dev.chain| - |d.chain|))
    ensures r.ret == -ERESTARTSYS <==> interrupted
    ensures r.ret == -EFAULT ==> fault
    ensures !interrupted && fault && fpos < d.size && ByteAt(d, fpos).Some? ==> r.ret == -EFAULT
    ensures r.ret < 0 ==> r.ret in {-ERESTARTSYS, -EFAULT} && r.fpos == fpos && r.data == []
    ensures r.ret >= 0 ==> r.fpos == fpos + r.ret && |r.data| == r.ret
    // end of data
    ensures !interrupted && fpos >= d.size ==> r.ret == 0 && r.fpos == fpos && r.dev == d
    // the three clamps: request, size, rest of the quantum
    ensures r.ret <= count
    ensures r.ret > 0 ==> fpos + r.ret <= d.size
    ensures r.ret <= d.quantum - Locate(fpos, d.quantum, d.qset).offset
  {
    if interrupted then ReadResult(d, fpos, -ERESTARTSYS, [])
    else if fpos >= d.size then ReadResult(d, fpos, 0, [])
    else
      var n1 := if fpos + count > d.size then d.size - fpos else count;
      var c := Locate(fpos, d.quantum, d.qset);
      var f := FollowChain(d.chain, c.item, avail);
      var d1 := d.(chain := f.chain);
      if !f.found || d1.chain[c.item].data.None? || d1.chain[c.item].data.value[c.slot].None? then
        ReadResult(d1, fpos, 0, [])
      else
        var n := if n1 > d.quantum - c.offset then d.quantum - c.offset else n1;
        if fault then ReadResult(d1, fpos, -EFAULT, [])
        else ReadResult(d1, fpos + n, n, CopyOut(d1.chain[c.item].data.value[c.slot].value, c.offset, n))
  }

  /** On a device whose size is covered, the walk a read does never has to
      allocate: the read leaves the device exactly as it was. */
  lemma ReadAllocatesNothing(d: Dev, fpos: nat, count: nat, avail: nat, interrupted: bool, fault: bool)
    requires Valid(d) && Covers(d)
    ensures ReadSpec(d, fpos, count, avail, interrupted, fault).dev == d
  {
    if !interrupted && fpos < d.size {
      ItemBelow(fpos, |d.chain|, d.quantum, d.qset);
      assert FollowChain(d.chain, Locate(fpos, d.quantum, d.qset).item, avail).used == 0;
      assert d.chain + FreshNodes(0) == d.chain;
    }
  }

  /** The bytes a read returns are the bytes stored at the offsets it read. */
  lemma ReadReturnsStoredBytes(d: Dev, fpos: nat, count: nat, avail: nat, fault: bool)
    requires Valid(d)
    ensures var r := ReadSpec(d, fpos, count, avail, false, fault);
            r.ret >= 0 ==> Stores(d, fpos, r.data)
  {
    var r := ReadSpec(d, fpos, count, avail, false, fault);
    var c := Locate(fpos, d.quantum, d.qset);
    forall p | fpos <= p < fpos + |r.data|
      ensures ByteAt(d, p) == Some(r.data[p - fpos])
    {
      LocateOffset(c.item, c.slot, c.offset + (p - fpos), d.quantum, d.qset);
    }
  }

  /** Inside the data, a read with a non-zero request and no fault returns
      nothing exactly when the quantum holding `fpos` is a hole. */
  lemma ReadEmptyIffHole(d: Dev, fpos: nat, count: nat, avail: nat)
    requires Valid(d) && fpos < d.size && count > 0
    ensures ReadSpec(d, fpos, count, avail, false, false).ret == 0 <==> ByteAt(d, fpos).None?
  {
  }

  /** Where the quantum holding `fpos` exists, a read without fault returns
      exactly the request clamped to the size and to the rest of the quantum. */
  lemma ReadLength(d: Dev, fpos: nat, count: nat, avail: nat)
    requires Valid(d) && fpos < d.size && ByteAt(d, fpos).Some?
    ensures ReadSpec(d, fpos, count, avail, false, false).ret
            == Min(Min(count, d.size - fpos), d.quantum - Locate(fpos, d.quantum, d.qset).offset)
  {
  }

  // ---------------------------------------------------------------------------
  // scull_write

  datatype WriteResult = WriteResult(dev: Dev, fpos: nat, ret: int, allocs: nat)

  /** The allocations a write at `fpos` needs: the missing nodes up to its
      item, then that item's slot array, then the quantum. */
  function AllocsNeeded(d: Dev, fpos: nat): nat
    requires Valid(d)
  {
    var c := Locate(fpos, d.quantum, d.qset);
    if c.item >= |d.chain| then c.item + 1 - |d.chain| + 2
    else if d.chain[c.item].data.None? then 2
    else if d.chain[c.item].data.value[c.slot].None? then 1
    else 0
  }

  /** The quantum after copy_from_user put `buf[..n]` at `offset`. */
  function CopyIn(q: Quantum, offset: nat, buf: seq<byte>, n: nat): (r: Quantum)
    requires offset + n <= |q| && n <= |buf|
    ensures |r| == |q|
    ensures forall i :: 0 <= i < |q| ==> r[i] == if offset <= i < offset + n then buf[i - offset] else q[i]
  {
    q[..offset] + buf[..n] + q[offset + n..]
  }

  /** A write of `buf` at `fpos`. `fault` stands for a failing copy_from_user,
      `interrupted` for an interrupted wait on the lock. */
  function WriteSpec(d: Dev, buf: seq<byte>, fpos: nat, avail: nat, interrupted: bool, fault: bool): (r: WriteResult)
    requires Valid(d)
    ensures Valid(r.dev) && r.dev.quantum == d.quantum && r.dev.qset == d.qset
    ensures |r.dev.chain| >= |d.chain| && r.allocs <= avail
    ensures r.ret == -ERESTARTSYS <==> interrupted
    ensures r.ret == -ENOMEM <==> !interrupted && avail < AllocsNeeded(d, fpos)
    ensures r.ret == -EFAULT ==> fault
    ensures r.ret < 0 ==> r.ret in {-ERESTARTSYS, -ENOMEM, -EFAULT} && r.fpos == fpos && r.dev.size == d.size
    // success: one clamped copy, the position advances, size never shrinks
    ensures r.ret >= 0 ==>
              r.ret == Min(|buf|, d.quantum - Locate(fpos, d.quantum, d.qset).offset) &&
              r.fpos == fpos + r.ret && r.dev.size == Max(d.size, r.fpos) &&
              r.allocs == AllocsNeeded(d, fpos)
  {
    if interrupted then WriteResult(d, fpos, -ERESTARTSYS, 0)
    else
      var c := Locate(fpos, d.quantum, d.qset);
      var f := FollowChain(d.chain, c.item, avail);
      FreshNodesWellFormed(d, f.used);
      if !f.found then WriteResult(d.(chain := f.chain), fpos, -ENOMEM, f.used)
      else StoreInItem(d.(chain := f.chain), buf, fpos, f.used, avail, fault)
  }

  /** The allocations a write needs once its item is in the chain. */
  function ItemAllocsNeeded(d: Dev, fpos: nat): nat
    requires Valid(d) && Locate(fpos, d.quantum, d.qset).item < |d.chain|
  {
    var c := Locate(fpos, d.quantum, d.qset);
    var node := d.chain[c.item];
    if node.data.None? then 2 else if node.data.value[c.slot].None? then 1 else 0
  }

  /** The write once the walk has reached its item, with `used` of the `avail`
      granted allocations already spent: allocate the slot array (all slots
      empty), then the quantum (zeros here; uninitialised memory in the
      source), then copy in and grow the size. */
  function StoreInItem(d: Dev, buf: seq<byte>, fpos: nat, used: nat, avail: nat, fault: bool): (r: WriteResult)
    requires Valid(d) && Locate(fpos, d.quantum, d.qset).item < |d.chain| && used <= avail
    ensures Valid(r.dev) && r.dev.quantum == d.quantum && r.dev.qset == d.qset
    ensures |r.dev.chain| == |d.chain| && used <= r.allocs <= avail
    ensures r.ret == -ENOMEM <==> avail - used < ItemAllocsNeeded(d, fpos)
    ensures r.ret == -EFAULT <==> fault && ItemAllocsNeeded(d, fpos) <= avail - used
    ensures r.ret < 0 ==> r.fpos == fpos && r.dev.size == d.size
    ensures r.ret >= 0 ==>
              r.ret == Min(|buf|, d.quantum - Locate(fpos, d.quantum, d.qset).offset) &&
              r.fpos == fpos + r.ret && r.dev.size == Max(d.size, r.fpos) &&
              r.allocs == used + ItemAllocsNeeded(d, fpos)
  {
    var c := Locate(fpos, d.quantum, d.qset);
    var node := d.chain[c.item];
    if node.data.None? && used == avail then WriteResult(d, fpos, -ENOMEM, used)
    else
      var slots: SlotArray := if node.data.None? then EmptySlots(d.qset) else node.data.value;
      var used1 := if node.data.None? then used + 1 else used;
      if slots[c.slot].None? && used1 == avail then
        WriteResult(d.(chain := d.chain[c.item := QSet(Some(slots))]), fpos, -ENOMEM, used1)
      else
        var q: Quantum := if slots[c.slot].None? then seq(d.quantum, _ => 0) else slots[c.slot].value;
        var used2 := if slots[c.slot].None? then used1 + 1 else used1;
        var n := Min(|buf|, d.quantum - c.offset);
        if fault then
          WriteResult(d.(chain := d.chain[c.item := QSet(Some(slots[c.slot := Some(q)]))]), fpos, -EFAULT, used2)
        else
          WriteResult(Dev(d.chain[c.item := QSet(Some(slots[c.slot := Some(CopyIn(q, c.offset, buf, n))]))],
                          Max(d.size, fpos + n), d.quantum, d.qset),
                      fpos + n, n, used2)
  }

  /** After a successful write, the written bytes are stored at the offsets
      the write advanced over. */
  lemma WriteStoresBytes(d: Dev, buf: seq<byte>, fpos: nat, avail: nat)
    requires Valid(d)
    ensures var r := WriteSpec(d, buf, fpos, avail, false, false);
            r.ret >= 0 ==> Stores(r.dev, fpos, buf[..r.ret])
  {
    var r := WriteSpec(d, buf, fpos, avail, false, false);
    if r.ret >= 0 {
      forall p | fpos <= p < fpos + r.ret
        ensures ByteAt(r.dev, p) == Some(buf[..r.ret][p - fpos])
      {
        var c := Locate(fpos, d.quantum, d.qset);
        var f := FollowChain(d.chain, c.item, avail);
        FreshNodesWellFormed(d, f.used);
        StoreBytesAt(d.(chain := f.chain), buf, fpos, f.used, avail, p);
      }
    }
  }

  /** The store into the item leaves the byte of `buf` meant for offset `p`
      there, seen at one offset `p` of the range it reports written. */
  lemma StoreBytesAt(d: Dev, buf: seq<byte>, fpos: nat, used: nat, avail: nat, p: nat)
    requires Valid(d) && Locate(fpos, d.quantum, d.qset).item < |d.chain| && used <= avail
    ensures var r := StoreInItem(d, buf, fpos, used, avail, false);
            r.ret >= 0 && fpos <= p < fpos + r.ret ==> ByteAt(r.dev, p) == Some(buf[p - fpos])
  {
    var r := StoreInItem(d, buf, fpos, used, avail, false);
    if r.ret >= 0 && fpos <= p < fpos + r.ret {
      var c := Locate(fpos, d.quantum, d.qset);
      LocateOffset(c.item, c.slot, c.offset + (p - fpos), d.quantum, d.qset);
    }
  }

  /** A write changes no stored byte outside the range it reports written;
      a failed write changes no stored byte at all. */
  lemma WriteFrame(d: Dev, buf: seq<byte>, fpos: nat, avail: nat, interrupted: bool, fault: bool)
    requires Valid(d)
    ensures var r := WriteSpec(d, buf, fpos, avail, interrupted, fault);
            Keeps(d, r.dev, fpos, fpos + Max(r.ret, 0))
  {
    var r := WriteSpec(d, buf, fpos, avail, interrupted, fault);
    forall p: nat | ByteAt(d, p).Some? && !(fpos <= p < fpos + Max(r.ret, 0))
      ensures ByteAt(r.dev, p) == ByteAt(d, p)
    {
      if !interrupted {
        var c := Locate(fpos, d.quantum, d.qset);
        var f := FollowChain(d.chain, c.item, avail);
        FreshNodesWellFormed(d, f.used);
        FreshNodesKeepBytes(d, f.used, p);
        if f.found {
          StoreFrameAt(d.(chain := f.chain), buf, fpos, f.used, avail, fault, p);
        }
      }
    }
  }

  /** The store into the item changes no stored byte outside the range it
      reports written, seen at one offset `p`. */
  lemma StoreFrameAt(d: Dev, buf: seq<byte>, fpos: nat, used: nat, avail: nat, fault: bool, p: nat)
    requires Valid(d) && Locate(fpos, d.quantum, d.qset).item < |d.chain| && used <= avail
    requires ByteAt(d, p).Some?
    ensures var r := StoreInItem(d, buf, fpos, used, avail, fault);
            !(fpos <= p < fpos + Max(r.ret, 0)) ==> ByteAt(r.dev, p) == ByteAt(d, p)
  {
    var c := Locate(fpos, d.quantum, d.qset);
    var cp := Locate(p, d.quantum, d.qset);
    if cp.item == c.item && cp.slot == c.slot {
      assert p - cp.offset == fpos - c.offset;
    }
  }

  /** Reading back what one successful write stored returns exactly the bytes
      written, and the position the write left behind. */
  lemma WriteThenRead(d: Dev, buf: seq<byte>, fpos: nat, avail: nat, avail': nat)
    requires Valid(d)
    ensures var w := WriteSpec(d, buf, fpos, avail, false, false);
            w.ret >= 0 ==>
              ReadSpec(w.dev, fpos, w.ret, avail', false, false)
              == ReadResult(w.dev, w.fpos, w.ret, buf[..w.ret])
  {
    var w := WriteSpec(d, buf, fpos, avail, false, false);
    if w.ret >= 0 {
      var r := ReadSpec(w.dev, fpos, w.ret, avail', false, false);
      WriteStoresBytes(d, buf, fpos, avail);
      if w.ret > 0 {
        ReadEmptyIffHole(w.dev, fpos, w.ret, avail');
        ReadReturnsStoredBytes(w.dev, fpos, w.ret, avail', false);
        assert r.ret == w.ret;
        forall i | 0 <= i < w.ret
          ensures r.data[i] == buf[i]
        {
          assert ByteAt(w.dev, fpos + i) == Some(r.data[i]) == Some(buf[..w.ret][i]);
        }
      }
    }
  }

  /** A write keeps the size covered: it only grows the size to the end of
      the bytes it copied, and those lie in the item it walked to. */
  lemma WriteKeepsCover(d: Dev, buf: seq<byte>, fpos: nat, avail: nat, interrupted: bool, fault: bool)
    requires Valid(d) && Covers(d)
    ensures Covers(WriteSpec(d, buf, fpos, avail, interrupted, fault).dev)
  {
    var r := WriteSpec(d, buf, fpos, avail, interrupted, fault);
    if !interrupted {
      var c := Locate(fpos, d.quantum, d.qset);
      var f := FollowChain(d.chain, c.item, avail);
      FreshNodesCover(d, f.used);
      if f.found && r.ret >= 0 {
        QuantumEndInItem(fpos, r.ret, |f.chain|, d.quantum, d.qset);
      }
    }
  }

  /** Every allocation the write was granted is owned by the chain afterwards:
      nothing leaks, on success or on failure. */
  lemma WriteAllocations(d: Dev, buf: seq<byte>, fpos: nat, avail: nat, interrupted: bool, fault: bool)
    requires Valid(d)
    ensures var r := WriteSpec(d, buf, fpos, avail, interrupted, fault);
            Blocks(r.dev.chain) == Blocks(d.chain) + r.allocs
  {
    if !interrupted {
      var c := Locate(fpos, d.quantum, d.qset);
      var f := FollowChain(d.chain, c.item, avail);
      BlocksAppend(d.chain, FreshNodes(f.used));
      BlocksFresh(f.used);
      if f.found {
        FreshNodesWellFormed(d, f.used);
        StoreAllocations(d.(chain := f.chain), buf, fpos, f.used, avail, fault);
      }
    }
  }

  lemma StoreAllocations(d: Dev, buf: seq<byte>, fpos: nat, used: nat, avail: nat, fault: bool)
    requires Valid(d) && Locate(fpos, d.quantum, d.qset).item < |d.chain| && used <= avail
    ensures var r := StoreInItem(d, buf, fpos, used, avail, fault);
            Blocks(r.dev.chain) + used == Blocks(d.chain) + r.allocs
  {
    var r := StoreInItem(d, buf, fpos, used, avail, fault);
    var c := Locate(fpos, d.quantum, d.qset);
    var node := d.chain[c.item];
    if !(node.data.None? && used == avail) {
      var slots: SlotArray := if node.data.None? then EmptySlots(d.qset) else node.data.value;
      var used1 := if node.data.None? then used + 1 else used;
      if node.data.None? { QuantaNone(d.qset); }
      BlocksUpdate(d.chain, c.item, QSet(Some(slots)));
      if !(slots[c.slot].None? && used1 == avail) {
        var q: Quantum := if slots[c.slot].None? then seq(d.quantum, _ => 0) else slots[c.slot].value;
        var n := Min(|buf|, d.quantum - c.offset);
        var written := if fault then q else CopyIn(q, c.offset, buf, n);
        assert r.dev.chain == d.chain[c.item := QSet(Some(slots[c.slot := Some(written)]))];
        QuantaUpdate(slots, c.slot, Some(written));
        BlocksUpdate(d.chain, c.item, QSet(Some(slots[c.slot := Some(written)])));
      }
    }
  }
}
