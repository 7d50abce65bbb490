/** What a caller sees across several calls: short reads and short writes are
    repeated until the request is done, and what a write loop stored a read
    loop gets back. */
module ScullRoundTrip {
  import opened ScullTypes
  import opened ScullSpec

  /** A caller writing all of `buf` from `fpos` on, repeating after every
      short write, with an allocator that grants every request. The loop
      stores every byte of `buf` at its offset and keeps every byte stored
      outside the range it writes. */
  function WriteAll(d: Dev, buf: seq<byte>, fpos: nat): (r: Dev)
    requires Valid(d)
    ensures Valid(r) && r.quantum == d.quantum && r.qset == d.qset
    ensures r.size == if buf == [] then d.size else Max(d.size, fpos + |buf|)
    ensures Stores(r, fpos, buf) && Keeps(d, r, fpos, fpos + |buf|)
    decreases |buf|, 2
  {
    if buf == [] then d else WriteNext(d, buf, fpos)
  }

  /** One turn of the write loop: one write, then the loop on what is left. */
  function WriteNext(d: Dev, buf: seq<byte>, fpos: nat): (r: Dev)
    requires Valid(d) && buf != []
    ensures Valid(r) && r.quantum == d.quantum && r.qset == d.qset
    ensures r.size == Max(d.size, fpos + |buf|)
    ensures Stores(r, fpos, buf) && Keeps(d, r, fpos, fpos + |buf|)
    decreases |buf|, 1
  {
    var w := WriteSpec(d, buf, fpos, AllocsNeeded(d, fpos), false, false);
    TurnStores(d, buf, fpos);
    WriteRest(d, w, buf, fpos)
  }

  /** The write loop after a write `w` on `d` that stored a prefix of `buf`. */
  function WriteRest(d: Dev, w: WriteResult, buf: seq<byte>, fpos: nat): (r: Dev)
    requires Valid(d) && Valid(w.dev) && 0 < w.ret <= |buf|
    requires Stores(w.dev, fpos, buf[..w.ret]) && Keeps(d, w.dev, fpos, fpos + w.ret)
    ensures Valid(r) && r.quantum == w.dev.quantum && r.qset == w.dev.qset
    ensures r.size == if w.ret == |buf| then w.dev.size else Max(w.dev.size, fpos + |buf|)
    ensures Stores(r, fpos, buf) && Keeps(d, r, fpos, fpos + |buf|)
    decreases |buf|, 0
  {
    var r := WriteAll(w.dev, buf[w.ret..], fpos + w.ret);
    StoresConcat(d, w.dev, r, fpos, w.ret, buf);
    r
  }

  /** A caller reading `count` bytes from `fpos` on, repeating after every
      short read and stopping at the first read that returns nothing. */
  function ReadAll(d: Dev, fpos: nat, count: nat): (r: seq<byte>)
    requires Valid(d)
    ensures |r| <= count
    decreases count, 1
  {
    if count == 0 then [] else ReadNext(d, fpos, count)
  }

  /** One turn of the read loop: one read, then the loop on what is left. */
  function ReadNext(d: Dev, fpos: nat, count: nat): (r: seq<byte>)
    requires Valid(d) && count > 0
    ensures |r| <= count
    decreases count, 0
  {
    var rd := ReadSpec(d, fpos, count, 0, false, false);
    if rd.ret <= 0 then [] else rd.data + ReadAll(rd.dev, rd.fpos, count - rd.ret)
  }

  /** A write granted every allocation it asks for copies a non-empty prefix
      of `buf`, stores it and keeps every other stored byte. */
  lemma TurnStores(d: Dev, buf: seq<byte>, fpos: nat)
    requires Valid(d) && buf != []
    ensures var w := WriteSpec(d, buf, fpos, AllocsNeeded(d, fpos), false, false);
            0 < w.ret <= |buf| && Valid(w.dev) &&
            Stores(w.dev, fpos, buf[..w.ret]) && Keeps(d, w.dev, fpos, fpos + w.ret)
  {
    WriteStoresBytes(d, buf, fpos, AllocsNeeded(d, fpos));
    WriteFrame(d, buf, fpos, AllocsNeeded(d, fpos), false, false);
  }

  /** Two writes of adjacent ranges, the second keeping what the first
      stored, store both parts of `buf` and keep everything outside. */
  lemma StoresConcat(d: Dev, w: Dev, r: Dev, lo: nat, n: nat, buf: seq<byte>)
    requires Valid(d) && Valid(w) && Valid(r) && n <= |buf|
    requires Stores(w, lo, buf[..n]) && Keeps(d, w, lo, lo + n)
    requires Stores(r, lo + n, buf[n..]) && Keeps(w, r, lo + n, lo + n + |buf[n..]|)
    ensures Stores(r, lo, buf) && Keeps(d, r, lo, lo + |buf|)
  {
    var mid, hi := lo + n, lo + |buf|;
    forall p | lo <= p < lo + |buf|
      ensures ByteAt(r, p) == Some(buf[p - lo])
    {
      if p >= mid {
        assert ByteAt(r, p) == Some(buf[n..][p - mid]);
      } else {
        assert ByteAt(w, p) == Some(buf[..n][p - lo]);
      }
    }
    forall p: nat | ByteAt(d, p).Some? && !(lo <= p < hi)
      ensures ByteAt(r, p) == ByteAt(d, p)
    {
      assert ByteAt(w, p) == ByteAt(d, p);
    }
  }

  /** Where `bytes` is stored inside the size, the read loop returns exactly
      `bytes`, even if its reads append nodes to the chain. */
  lemma {:induction false} ReadAllStored(d: Dev, fpos: nat, bytes: seq<byte>)
    requires Valid(d) && fpos + |bytes| <= d.size && Stores(d, fpos, bytes)
    ensures ReadAll(d, fpos, |bytes|) == bytes
    decreases |bytes|
  {
    if bytes != [] {
      var n, d' := ReadStep(d, fpos, bytes);
      ReadAllStored(d', fpos + n, bytes[n..]);
      assert bytes[..n] + bytes[n..] == bytes;
    }
  }

  /** One turn of the read loop over stored bytes returns a non-empty prefix
      of them; the loop goes on over a device that still stores the rest. */
  lemma ReadStep(d: Dev, fpos: nat, bytes: seq<byte>) returns (n: nat, d': Dev)
    requires Valid(d) && bytes != [] && fpos + |bytes| <= d.size
    requires Stores(d, fpos, bytes)
    ensures 0 < n <= |bytes| && Valid(d')
    ensures ReadAll(d, fpos, |bytes|) == bytes[..n] + ReadAll(d', fpos + n, |bytes[n..]|)
    ensures fpos + n + |bytes[n..]| <= d'.size && Stores(d', fpos + n, bytes[n..])
  {
    var rd := ReadSpec(d, fpos, |bytes|, 0, false, false);
    ReadEmptyIffHole(d, fpos, |bytes|, 0);
    assert ByteAt(d, fpos) == Some(bytes[0]);
    ReadReturnsStoredBytes(d, fpos, |bytes|, 0, false);
    n, d' := rd.ret, rd.dev;
    forall i | 0 <= i < n
      ensures rd.data[i] == bytes[i]
    {
      assert Some(rd.data[i]) == ByteAt(d, fpos + i) == Some(bytes[i]);
    }
    assert rd.data == bytes[..n];
    assert ReadAll(d, fpos, |bytes|) == ReadNext(d, fpos, |bytes|);
    forall p | fpos + n <= p < fpos + n + |bytes[n..]|
      ensures ByteAt(d', p) == Some(bytes[n..][p - (fpos + n)])
    {
      FreshNodesKeepBytes(d, |d'.chain| - |d.chain|, p);
      assert ByteAt(d, p) == Some(bytes[p - fpos]);
    }
  }

  /** Writing `buf` in a loop and then reading `|buf|` bytes back in a loop
      from the same offset reconstructs `buf` exactly. */
  lemma WriteAllThenReadAll(d: Dev, buf: seq<byte>, fpos: nat)
    requires Valid(d)
    ensures ReadAll(WriteAll(d, buf, fpos), fpos, |buf|) == buf
  {
    if buf != [] {
      ReadAllStored(WriteAll(d, buf, fpos), fpos, buf);
    }
  }
}
