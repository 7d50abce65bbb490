/** A worked example on a small geometry (quantum 4, two quanta per set):
    ten bytes written from offset 0 span three quanta in two quantum sets. */
module ScullScenarios {
  import opened ScullTypes
  import opened ScullSpec
  import opened ScullRoundTrip

  /** "ABCDEFGHIJ" */
  const Letters: seq<byte> := [65, 66, 67, 68, 69, 70, 71, 72, 73, 74]

  /** The write loop leaves size 10; the read loop returns the ten bytes; a
      read at the end returns 0; a read of 4 bytes at offset 6 stops at the
      end of the second quantum and returns "GH". */
  lemma TenBytes(d: Dev, buf: seq<byte>)
    requires d == Dev([], 0, 4, 2) && buf == Letters
    ensures var r := WriteAll(d, buf, 0);
            r.size == 10 &&
            ReadAll(r, 0, 10) == buf &&
            ReadSpec(r, 10, 4, 0, false, false).ret == 0 &&
            ReadSpec(r, 6, 4, 0, false, false).ret == 2 &&
            ReadSpec(r, 6, 4, 0, false, false).data == [71, 72]
  {
    var r := WriteAll(d, buf, 0);
    WriteAllThenReadAll(d, buf, 0);
    ReadInSecondQuantum(r, buf);
  }

  /** On any device of this geometry storing the ten bytes from offset 0,
      a read of 4 bytes at offset 6 returns "GH". */
  lemma ReadInSecondQuantum(r: Dev, buf: seq<byte>)
    requires Valid(r) && r.quantum == 4 && r.qset == 2 && r.size == 10
    requires buf == Letters && Stores(r, 0, buf)
    ensures ReadSpec(r, 6, 4, 0, false, false).ret == 2
    ensures ReadSpec(r, 6, 4, 0, false, false).data == [71, 72]
  {
    assert ByteAt(r, 6) == Some(buf[6]);
    assert ByteAt(r, 7) == Some(buf[7]);
    assert Locate(6, 4, 2).offset == 2 by {
      LocateOffset(0, 1, 2, 4, 2);
    }
    ReadLength(r, 6, 4, 0);
    ReadReturnsStoredBytes(r, 6, 4, 0, false);
    var rd := ReadSpec(r, 6, 4, 0, false, false);
    assert ByteAt(r, 6) == Some(rd.data[0]) && ByteAt(r, 7) == Some(rd.data[1]);
  }

  /** On a fresh device with 4000-byte quanta and two quanta per set, a write
      at offset 1000 lies in item 0 (1000 < 8000): the chain grows to one node
      at most, whatever the allocator grants. */
  lemma WriteInFirstItem(d: Dev, buf: seq<byte>, fpos: nat, avail: nat)
    requires d == Dev([], 0, 4000, 2) && fpos == 1000
    ensures |WriteSpec(d, buf, fpos, avail, false, false).dev.chain| <= 1
    ensures avail >= 3 ==> WriteSpec(d, buf, fpos, avail, false, false).ret == Min(|buf|, 3000)
  {
    assert Locate(fpos, d.quantum, d.qset) == Coord(0, 1000, 0, 1000) by {
      LocateOffset(0, 0, 1000, 4000, 2);
    }
  }
}
