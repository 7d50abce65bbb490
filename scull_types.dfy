/** Data shapes and constants of the scull device (ch3/scull.h), the offset
    translation shared by read and write, and the abstract views of a device
    (the byte stored at a logical offset, the number of live allocations). */
module ScullTypes {

  datatype Option<+T> = None | Some(value: T)

  newtype byte = x: int | 0 <= x < 256

  /** Default bytes per quantum (SCULL_QUANTUM). */
  const SCULL_QUANTUM: nat := 4000
  /** Default slots per quantum set (SCULL_QSET). */
  const SCULL_QSET: nat := 1000

  /** Linux error numbers returned (negated) by read, write and open. */
  const ENOMEM: int := 12
  const EFAULT: int := 14
  const ERESTARTSYS: int := 512

  /** A quantum is a block of `quantum` bytes; a slot array holds `qset`
      optional quanta. A quantum set owns an optional slot array; its `next`
      link is the position of the following element in the device's chain. */
  type Quantum = seq<byte>
  type SlotArray = seq<Option<Quantum>>
  datatype QSet = QSet(data: Option<SlotArray>)

  /** A snapshot of `struct scull_dev` without its lock and cdev. */
  datatype Dev = Dev(chain: seq<QSet>, size: nat, quantum: nat, qset: nat)

  /** A freshly allocated and zeroed quantum set: no slot array, no next. */
  const EmptyQSet := QSet(None)

  function FreshNodes(k: nat): (s: seq<QSet>)
    ensures |s| == k && forall i :: 0 <= i < k ==> s[i] == EmptyQSet
  {
    seq(k, _ => EmptyQSet)
  }

  /** A freshly allocated and zeroed slot array: every slot empty. */
  function EmptySlots(qset: nat): (s: SlotArray)
    ensures |s| == qset && forall i :: 0 <= i < qset ==> s[i] == None
  {
    seq(qset, _ => None)
  }

  /** A node whose slot array, if allocated, has exactly `qset` entries, each
      of which, if allocated, is a quantum of exactly `quantum` bytes. */
  predicate WellFormed(node: QSet, quantum: nat, qset: nat) {
    node.data.Some? ==>
      |node.data.value| == qset &&
      forall s :: 0 <= s < qset ==>
        node.data.value[s].Some? ==> |node.data.value[s].value| == quantum
  }

  /** The shape invariant: positive geometry and well-formed nodes. */
  predicate Valid(d: Dev) {
    d.quantum > 0 && d.qset > 0 &&
    forall k :: 0 <= k < |d.chain| ==> WellFormed(d.chain[k], d.quantum, d.qset)
  }

  /** The size lies within the items the chain holds, so every offset below
      the size has its node. Every operation keeps this. */
  predicate Covers(d: Dev) {
    d.size <= |d.chain| * (d.quantum * d.qset)
  }

  // ---------------------------------------------------------------------------
  // Offset translation

  /** The coordinates of a byte offset: the item (index in the chain), the
      offset inside that item, the slot in the item's slot array and the
      offset inside that slot's quantum. */
  datatype Coord = Coord(item: nat, rest: nat, slot: nat, offset: nat)

  /** The division done in read and write: item = f_pos / itemsize,
      rest = f_pos % itemsize, s_pos = rest / quantum, q_pos = rest % quantum. */
  function Locate(fpos: nat, quantum: nat, qset: nat): (c: Coord)
    requires quantum > 0 && qset > 0
    ensures c.item * (quantum * qset) + c.slot * quantum + c.offset == fpos
    ensures c.rest == c.slot * quantum + c.offset
    ensures c.slot < qset && c.offset < quantum
  {
    var itemsize := quantum * qset;
    var rest := fpos % itemsize;
    SlotBound(rest, quantum, qset);
    DivMod(fpos, itemsize);
    DivMod(rest, quantum);
    Coord(fpos / itemsize, rest, rest / quantum, rest % quantum)
  }

  lemma DivMod(x: nat, m: nat)
    requires m > 0
    ensures (x / m) * m + x % m == x && x % m < m
  {
  }

  /** The offset that coordinates stand for: the inverse of Locate. */
  function Offset(item: nat, slot: nat, offset: nat, quantum: nat, qset: nat): nat {
    item * (quantum * qset) + slot * quantum + offset
  }

  lemma SlotBound(rest: nat, quantum: nat, qset: nat)
    requires quantum > 0 && qset > 0 && rest < quantum * qset
    ensures rest / quantum < qset
  {
    if rest / quantum >= qset {
      MulLeft(quantum, qset, rest / quantum);
      assert false;
    }
  }

  lemma MulLeft(a: nat, b: nat, c: nat)
    requires b <= c
    ensures a * b <= a * c
  {}

  /** Division with a remainder in range has a unique quotient and remainder. */
  lemma DivModUnique(x: nat, d: nat, q: nat, r: nat)
    requires d > 0 && r < d && x == q * d + r
    ensures x / d == q && x % d == r
  {
    var q' := x / d;
    var r' := x % d;
    assert q' * d + r' == x;
    if q' > q {
      MulLeft(d, q + 1, q');
      assert false;
    } else if q' < q {
      MulLeft(d, q' + 1, q);
      assert false;
    }
  }

  /** Locate and Offset are inverse: every coordinate triple in range is the
      translation of exactly one offset. */
  lemma {:induction false} LocateOffset(item: nat, slot: nat, offset: nat, quantum: nat, qset: nat)
    requires quantum > 0 && qset > 0 && slot < qset && offset < quantum
    ensures Locate(Offset(item, slot, offset, quantum, qset), quantum, qset)
            == Coord(item, slot * quantum + offset, slot, offset)
  {
    var rest := slot * quantum + offset;
    MulLeft(quantum, slot + 1, qset);
    assert rest < quantum * qset;
    DivModUnique(Offset(item, slot, offset, quantum, qset), quantum * qset, item, rest);
    DivModUnique(rest, quantum, slot, offset);
  }

  /** An offset below `k` whole items falls in one of the first `k` items. */
  lemma ItemBelow(fpos: nat, k: nat, quantum: nat, qset: nat)
    requires quantum > 0 && qset > 0 && fpos < k * (quantum * qset)
    ensures Locate(fpos, quantum, qset).item < k
  {
  }

  /** The bytes from an offset to the end of its quantum lie in its item. */
  lemma QuantumEndInItem(fpos: nat, n: nat, k: nat, quantum: nat, qset: nat)
    requires quantum > 0 && qset > 0
    requires n <= quantum - Locate(fpos, quantum, qset).offset
    requires Locate(fpos, quantum, qset).item < k
    ensures fpos + n <= k * (quantum * qset)
  {
    var c := Locate(fpos, quantum, qset);
    MulLeft(quantum, c.slot + 1, qset);
    MulLeft(quantum * qset, c.item + 1, k);
  }

  lemma ChainGrowth(k: nat, k': nat, quantum: nat, qset: nat)
    requires k <= k'
    ensures k * (quantum * qset) <= k' * (quantum * qset)
  {
    MulLeft(quantum * qset, k, k');
  }

  // ---------------------------------------------------------------------------
  // Abstract views

  /** The byte stored at logical offset `p`, or None when the node, its slot
      array or the quantum that would hold it has not been allocated. */
  function ByteAt(d: Dev, p: nat): Option<byte>
    requires Valid(d)
  {
    var c := Locate(p, d.quantum, d.qset);
    if c.item < |d.chain| && d.chain[c.item].data.Some?
       && d.chain[c.item].data.value[c.slot].Some?
    then Some(d.chain[c.item].data.value[c.slot].value[c.offset])
    else None
  }

  /** `bytes` is stored at the offsets from `fpos` on. */
  ghost predicate Stores(d: Dev, fpos: nat, bytes: seq<byte>)
    requires Valid(d)
  {
    forall p :: fpos <= p < fpos + |bytes| ==> ByteAt(d, p) == Some(bytes[p - fpos])
  }

  /** Every byte stored in `d` outside offsets `lo .. hi` is still stored in `d'`. */
  ghost predicate Keeps(d: Dev, d': Dev, lo: nat, hi: nat)
    requires Valid(d) && Valid(d')
  {
    forall p: nat :: ByteAt(d, p).Some? && !(lo <= p < hi) ==> ByteAt(d', p) == ByteAt(d, p)
  }

  /** Appending fresh nodes stores no byte and removes none. */
  lemma FreshNodesKeepBytes(d: Dev, k: nat, p: nat)
    requires Valid(d) && Valid(d.(chain := d.chain + FreshNodes(k)))
    ensures ByteAt(d.(chain := d.chain + FreshNodes(k)), p) == ByteAt(d, p)
  {
  }

  /** Number of allocated quanta in a slot array. */
  function Quanta(slots: SlotArray): nat {
    if slots == [] then 0
    else Quanta(slots[..|slots| - 1]) + (if slots[|slots| - 1].Some? then 1 else 0)
  }

  /** Number of live allocations a node owns: itself, its slot array, its quanta. */
  function NodeBlocks(node: QSet): nat {
    1 + (if node.data.Some? then 1 + Quanta(node.data.value) else 0)
  }

  /** Number of live allocations a chain owns. */
  function Blocks(chain: seq<QSet>): nat {
    if chain == [] then 0
    else Blocks(chain[..|chain| - 1]) + NodeBlocks(chain[|chain| - 1])
  }

  lemma {:induction false} QuantaUpdate(slots: SlotArray, i: nat, x: Option<Quantum>)
    requires i < |slots|
    ensures Quanta(slots[i := x]) + (if slots[i].Some? then 1 else 0)
            == Quanta(slots) + (if x.Some? then 1 else 0)
  {
    var last := |slots| - 1;
    assert slots[i := x][..last] == if i == last then slots[..last] else slots[..last][i := x];
    if i < last {
      QuantaUpdate(slots[..last], i, x);
    }
  }

  lemma {:induction false} QuantaNone(n: nat)
    ensures Quanta(EmptySlots(n)) == 0
  {
    if n > 0 {
      assert EmptySlots(n)[..n - 1] == EmptySlots(n - 1);
      QuantaNone(n - 1);
    }
  }

  lemma {:induction false} BlocksAppend(a: seq<QSet>, b: seq<QSet>)
    ensures Blocks(a + b) == Blocks(a) + Blocks(b)
  {
    if b != [] {
      assert (a + b)[..|a + b| - 1] == a + b[..|b| - 1];
      BlocksAppend(a, b[..|b| - 1]);
    } else {
      assert a + b == a;
    }
  }

  lemma {:induction false} BlocksFresh(k: nat)
    ensures Blocks(FreshNodes(k)) == k
  {
    if k > 0 {
      assert FreshNodes(k)[..k - 1] == FreshNodes(k - 1);
      BlocksFresh(k - 1);
    }
  }

  lemma {:induction false} BlocksUpdate(chain: seq<QSet>, i: nat, node: QSet)
    requires i < |chain|
    ensures Blocks(chain[i := node]) + NodeBlocks(chain[i]) == Blocks(chain) + NodeBlocks(node)
  {
    var last := |chain| - 1;
    assert chain[i := node][..last] == if i == last then chain[..last] else chain[..last][i := node];
    if i < last {
      BlocksUpdate(chain[..last], i, node);
    }
  }
}
