/** The copy in scull_read as written (ch3/scull.c:126) starts at `rest`, the
    offset inside the whole quantum set, instead of `q_pos`, the offset inside
    the quantum. Only in the first quantum of a set are the two equal; in every
    other quantum the copy starts past the end of the quantum. ReadSpec and
    Scull.Device.Read use the corrected offset. */
module ScullFindings {
  import opened ScullTypes
  import opened ScullSpec

  /** The outcome of the copy: the bytes, or a read past the end of the
      quantum, which in the kernel reads whatever memory follows it. */
  datatype CopyResult = Copied(bytes: seq<byte>) | OutOfBounds

  /** copy_to_user(buf, dptr->data[s_pos] + rest, count) as written. */
  function CopyOutAsWritten(q: Quantum, c: Coord, n: nat): (r: CopyResult)
    ensures r.Copied? <==> c.rest + n <= |q|
    ensures r.Copied? ==> |r.bytes| == n
  {
    if c.rest + n <= |q| then Copied(q[c.rest..c.rest + n]) else OutOfBounds
  }

  /** The copy as written agrees with the corrected copy exactly when the
      offset lies in the first quantum of its set; anywhere else a non-empty
      copy runs past the quantum. */
  lemma AsWrittenAgreesOnlyInFirstSlot(q: Quantum, fpos: nat, quantum: nat, qset: nat, n: nat)
    requires quantum > 0 && qset > 0 && |q| == quantum
    requires 0 < n <= quantum - Locate(fpos, quantum, qset).offset
    ensures var c := Locate(fpos, quantum, qset);
            CopyOutAsWritten(q, c, n) == Copied(CopyOut(q, c.offset, n)) <==> c.slot == 0
    ensures var c := Locate(fpos, quantum, qset);
            c.slot > 0 ==> CopyOutAsWritten(q, c, n) == OutOfBounds
  {
    var c := Locate(fpos, quantum, qset);
    if c.slot > 0 {
      MulLeft(quantum, 1, c.slot);
    }
  }

  /** A device with quantum 4 and two slots per set holding "ABCDEFGH" in
      item 0: reading two bytes at offset 6 must return "GH" (and does, in the
      corrected model), while the copy as written starts at byte 6 of the
      4-byte quantum "EFGH". */
  lemma ReadSecondQuantumOutOfBounds()
    ensures var d := Dev([QSet(Some([Some([65, 66, 67, 68]), Some([69, 70, 71, 72])]))], 8, 4, 2);
            Valid(d) &&
            ReadSpec(d, 6, 2, 0, false, false) == ReadResult(d, 8, 2, [71, 72]) &&
            CopyOutAsWritten(d.chain[0].data.value[1].value, Locate(6, 4, 2), 2) == OutOfBounds
  {
    var d := Dev([QSet(Some([Some([65, 66, 67, 68]), Some([69, 70, 71, 72])]))], 8, 4, 2);
    assert Locate(6, 4, 2) == Coord(0, 6, 1, 2) by {
      LocateOffset(0, 1, 2, 4, 2);
    }
    assert d.chain[0].data.value[1].value[2..4] == [71, 72];
  }
}
