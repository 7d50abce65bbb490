/** The scull device (struct scull_dev and the file operations of
    ch3/scull.c) as a class whose methods update the chain, the size and the
    geometry in place, each proved against its function in ScullSpec. The
    device lock is not modelled: every method runs as one atomic step, and an
    interrupted wait for the lock is the `interrupted` flag. */
module Scull {
  import opened ScullTypes
  import opened ScullSpec

  /** Access-mode bits of the open flags (O_ACCMODE) and the write-only mode. */
  const O_ACCMODE: bv32 := 3
  const O_WRONLY: bv32 := 1

  class Device {
    /** The quantum sets, head first; `chain[k + 1]` is `chain[k]->next`. */
    var chain: seq<QSet>
    /** Logical size: one past the highest byte written since the last trim. */
    var size: nat
    var quantum: nat
    var qset: nat
    /** The module-wide scull_quantum and scull_qset that trim restores. */
    const paramQuantum: nat
    const paramQset: nat

    function State(): Dev
      reads this
    {
      Dev(chain, size, quantum, qset)
    }

    predicate Valid()
      reads this
    {
      ScullTypes.Valid(State()) && Covers(State()) && paramQuantum > 0 && paramQset > 0
    }

    /** A device as scull_init_module leaves it, with the default geometry. */
    constructor ()
      ensures Valid()
      ensures State() == Dev([], 0, SCULL_QUANTUM, SCULL_QSET)
      ensures paramQuantum == SCULL_QUANTUM && paramQset == SCULL_QSET
    {
      chain, size := [], 0;
      quantum, qset := SCULL_QUANTUM, SCULL_QSET;
      paramQuantum, paramQset := SCULL_QUANTUM, SCULL_QSET;
    }

    /** A device whose module parameters set a different geometry. */
    constructor WithGeometry(scullQuantum: nat, scullQset: nat)
      requires scullQuantum > 0 && scullQset > 0
      ensures Valid()
      ensures State() == Dev([], 0, scullQuantum, scullQset)
      ensures paramQuantum == scullQuantum && paramQset == scullQset
    {
      chain, size := [], 0;
      quantum, qset := scullQuantum, scullQset;
      paramQuantum, paramQset := scullQuantum, scullQset;
    }

    /** scull_trim: release every quantum, slot array and node, then reset the
        device. `released` counts the blocks handed back to the allocator. */
    method Trim() returns (ret: int, ghost released: nat)
      requires Valid()
      modifies this
      ensures Valid() && ret == 0
      ensures State() == Dev([], 0, paramQuantum, paramQset)
      ensures released == Blocks(old(chain))
    {
      var qsetSize := qset;
      released := 0;
      var i := 0;
      while i < |chain|
        invariant i <= |chain| && chain == old(chain) && qsetSize == qset
        invariant ScullTypes.Valid(State())
        invariant released == Blocks(chain[..i])
      {
        var node := chain[i];
        assert WellFormed(node, quantum, qset);
        assert chain[..i + 1][..i] == chain[..i];
        if node.data.Some? {
          var slots := node.data.value;
          var j := 0;
          while j < qsetSize
            invariant j <= qsetSize == |slots|
            invariant released == Blocks(chain[..i]) + Quanta(slots[..j])
          {
            assert slots[..j + 1][..j] == slots[..j];
            if slots[j].Some? {
              released := released + 1;  // the quantum
            }
            j := j + 1;
          }
          assert slots[..j] == slots;
          released := released + 1;  // the slot array
        }
        released := released + 1;  // the node
        i := i + 1;
      }
      assert chain[..i] == old(chain);
      size := 0;
      quantum := paramQuantum;
      qset := paramQset;
      chain := [];
      ret := 0;
    }

    /** scull_open: opening for write only truncates the device. */
    method Open(flags: bv32, interrupted: bool) returns (ret: int)
      requires Valid()
      modifies this
      ensures Valid()
      ensures flags & O_ACCMODE != O_WRONLY ==> ret == 0 && State() == old(State())
      ensures flags & O_ACCMODE == O_WRONLY && interrupted ==>
                ret == -ERESTARTSYS && State() == old(State())
      ensures flags & O_ACCMODE == O_WRONLY && !interrupted ==>
                ret == 0 && State() == Dev([], 0, paramQuantum, paramQset)
    {
      if flags & O_ACCMODE == O_WRONLY {
        if interrupted {
          return -ERESTARTSYS;
        }
        var _, _ := Trim();
      }
      ret := 0;
    }

    /** scull_follow: walk to item `n`, appending zeroed nodes as needed.
        `found` is false when an allocation failed (the source returns NULL);
        otherwise item `n` is `chain[n]`. */
    method Follow(n: nat, avail: nat) returns (found: bool, used: nat)
      requires Valid()
      modifies this
      ensures Valid()
      ensures var f := FollowChain(old(chain), n, avail);
              chain == f.chain && found == f.found && used == f.used
      ensures size == old(size) && quantum == old(quantum) && qset == old(qset)
    {
      used := 0;
      if chain == [] {
        if avail == 0 {
          assert chain == old(chain) + FreshNodes(0);
          return false, 0;
        }
        chain := [EmptyQSet];
        used := 1;
      }
      var qs := 0;
      var k: nat := n;
      while k > 0
        invariant qs + k == n && qs < |chain|
        invariant chain == old(chain) + FreshNodes(used) && used <= avail
        invariant used == 0 || |chain| == qs + 1
        invariant size == old(size) && quantum == old(quantum) && qset == old(qset)
      {
        if qs + 1 == |chain| {
          if used == avail {
            assert n >= |old(chain)| + avail;
            FreshNodesWellFormed(old(State()), used);
            FreshNodesCover(old(State()), used);
            return false, used;
          }
          chain := chain + [EmptyQSet];
          used := used + 1;
        }
        qs := qs + 1;
        k := k - 1;
      }
      assert used == if n < |old(chain)| then 0 else n + 1 - |old(chain)|;
      FreshNodesWellFormed(old(State()), used);
      FreshNodesCover(old(State()), used);
      found := true;
    }

    /** scull_read: copy up to `count` bytes at `fpos` out of one quantum;
        `newPos` is the updated file position. */
    method Read(count: nat, fpos: nat, avail: nat, interrupted: bool, fault: bool)
      returns (ret: int, data: seq<byte>, newPos: nat)
      requires Valid()
      modifies this
      ensures Valid()
      ensures var r := ReadSpec(old(State()), fpos, count, avail, interrupted, fault);
              State() == r.dev && ret == r.ret && data == r.data && newPos == r.fpos
      ensures State() == old(State())
    {
      ReadAllocatesNothing(State(), fpos, count, avail, interrupted, fault);
      if interrupted {
        return -ERESTARTSYS, [], fpos;
      }
      ret, data, newPos := 0, [], fpos;
      if fpos >= size {
        return;
      }
      var n := count;
      if fpos + n > size {
        n := size - fpos;
      }
      var c := Locate(fpos, quantum, qset);
      var found, _ := Follow(c.item, avail);
      if !found || chain[c.item].data.None? || chain[c.item].data.value[c.slot].None? {
        return;
      }
      if n > quantum - c.offset {
        n := quantum - c.offset;
      }
      if fault {
        return -EFAULT, [], fpos;
      }
      data := CopyOut(chain[c.item].data.value[c.slot].value, c.offset, n);
      newPos := fpos + n;
      ret := n;
    }

    /** scull_write: walk to the item (appending nodes as needed), then store
        into it. */
    method Write(buf: seq<byte>, fpos: nat, avail: nat, interrupted: bool, fault: bool)
      returns (ret: int, newPos: nat)
      requires Valid()
      modifies this
      ensures var w := WriteSpec(old(State()), buf, fpos, avail, interrupted, fault);
              State() == w.dev && ret == w.ret && newPos == w.fpos
      ensures Valid()
    {
      if interrupted {
        return -ERESTARTSYS, fpos;
      }
      var c := Locate(fpos, quantum, qset);
      var found, used := Follow(c.item, avail);
      if !found {
        return -ENOMEM, fpos;
      }
      ret, newPos := Store(buf, fpos, used, avail, fault);
      WriteKeepsCover(old(State()), buf, fpos, avail, interrupted, fault);
    }

    /** The part of scull_write after the walk: allocate the slot array and
        the quantum on demand, copy as much of `buf` as fits in the quantum at
        `fpos`, and grow the size. `used` of the `avail` granted allocations
        are already spent. */
    method Store(buf: seq<byte>, fpos: nat, used: nat, avail: nat, fault: bool)
      returns (ret: int, newPos: nat)
      requires Valid() && Locate(fpos, quantum, qset).item < |chain| && used <= avail
      modifies this
      ensures Valid()
      ensures var w := StoreInItem(old(State()), buf, fpos, used, avail, fault);
              State() == w.dev && ret == w.ret && newPos == w.fpos
    {
      ret, newPos := -ENOMEM, fpos;
      var c := Locate(fpos, quantum, qset);
      ghost var reached := State();
      var used := used;
      var node := chain[c.item];
      ghost var node0 := node;
      if node.data.None? {
        if used == avail {
          return;
        }
        node := QSet(Some(EmptySlots(qset)));
        used := used + 1;
        chain := chain[c.item := node];
      }
      var slots := node.data.value;
      ghost var slots0 := slots;
      assert slots0 == if node0.data.None? then EmptySlots(qset) else node0.data.value;
      if slots[c.slot].None? {
        if used == avail {
          assert chain == reached.chain[c.item := QSet(Some(slots))];
          return;
        }
        slots := slots[c.slot := Some(seq(quantum, _ => 0))];
        used := used + 1;
        chain := chain[c.item := QSet(Some(slots))];
      }
      var q := slots[c.slot].value;
      assert q == if slots0[c.slot].None? then seq(quantum, _ => 0) else slots0[c.slot].value;
      assert slots == slots0[c.slot := Some(q)];
      assert chain == reached.chain[c.item := QSet(Some(slots0[c.slot := Some(q)]))];
      var n := Min(|buf|, quantum - c.offset);
      if fault {
        return -EFAULT, fpos;
      }
      var written := CopyIn(q, c.offset, buf, n);
      ghost var before := chain;
      slots := slots[c.slot := Some(written)];
      assert slots == slots0[c.slot := Some(written)];
      chain := chain[c.item := QSet(Some(slots))];
      assert chain == before[c.item := QSet(Some(slots))];
      newPos := fpos + n;
      ret := n;
      assert chain == reached.chain[c.item := QSet(Some(slots0[c.slot := Some(written)]))];
      if size < newPos {
        size := newPos;
      }
      QuantumEndInItem(fpos, n, |chain|, quantum, qset);
      assert size == Max(reached.size, newPos);
    }
  }
}
