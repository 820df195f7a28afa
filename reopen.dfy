/**
 * What a later `open` makes of the records `put` appends: the link between
 * the write path of the `Database` class and replay.
 */
module Reopen {
  import opened Blocks
  import opened Records
  import opened Allocator
  import opened Replay

  lemma {:induction false} LatestUpToPrefix(a: seq<Entry>, b: seq<Entry>, n: nat)
    requires n <= |a| && n <= |b| && a[..n] == b[..n]
    ensures LatestUpTo(a, n) == LatestUpTo(b, n)
    ensures forall t :: TickUpTo(a, n, t) == TickUpTo(b, n, t)
  {
    if n > 0 {
      assert a[..n - 1] == b[..n - 1] by {
        assert a[..n - 1] == a[..n][..n - 1];
        assert b[..n - 1] == b[..n][..n - 1];
      }
      assert a[n - 1] == a[..n][n - 1];
      assert b[n - 1] == b[..n][n - 1];
      LatestUpToPrefix(a, b, n - 1);
    }
  }

  /**
   * Put then reopen: appending a record whose row has a value and a sequence
   * above every row with a value already in the file (tombstones may carry
   * any sequence) makes replay index that key at the
   * record's offset, with that row, and resume the clock at least at its
   * sequence; the other keys replay as before.
   */
  lemma ReopenSeesLastPut(pre: seq<byte>, codec: Codec, row: Row, tick0: int)
    requires codec.RoundTrips(row) && row.value.Some?
    requires forall c :: c in Scan(pre, codec) && c.row.value.Some? ==> c.row.sequence < row.sequence
    ensures var cs := Scan(pre + RecordBytes(codec, row), codec);
            var cs0 := Scan(pre, codec);
            Latest(cs) == Latest(cs0)[row.key := Entry(|pre|, NextBlockSize(|codec.encode(row)| + 1), row)]
            && TickUpTo(cs, |cs|, tick0) == Max(TickUpTo(cs0, |cs0|, tick0), row.sequence)
  {
    var cs0 := Scan(pre, codec);
    var e := Entry(|pre|, NextBlockSize(|codec.encode(row)| + 1), row);
    ScanAppendRecord(pre, codec, row);
    var cs := Scan(pre + RecordBytes(codec, row), codec);
    assert cs == cs0 + [e];
    assert cs[..|cs0|] == cs0[..|cs0|];
    LatestUpToPrefix(cs, cs0, |cs0|);
    var latest0 := LatestUpTo(cs0, |cs0|);
    if row.key in latest0 {
      LatestFromCandidates(cs0, |cs0|);
      var j :| 0 <= j < |cs0| && cs0[j] == latest0[row.key];
    }
    assert cs[|cs0|] == e;
  }

  /** Two records written one after the other replay as two candidates. */
  lemma ScanTwoRecords(codec: Codec, r1: Row, r2: Row)
    requires codec.RoundTrips(r1) && codec.RoundTrips(r2)
    ensures var b1 := RecordBytes(codec, r1);
            Scan(b1 + RecordBytes(codec, r2), codec)
            == [Entry(0, NextBlockSize(|codec.encode(r1)| + 1), r1), Entry(|b1|, NextBlockSize(|codec.encode(r2)| + 1), r2)]
  {
    var b1 := RecordBytes(codec, r1);
    var e1 := Entry(0, NextBlockSize(|codec.encode(r1)| + 1), r1);
    var e2 := Entry(|b1|, NextBlockSize(|codec.encode(r2)| + 1), r2);
    ScanAppendRecord([], codec, r1);
    assert [] + b1 == b1;
    assert Scan(b1, codec) == [e1];
    ScanAppendRecord(b1, codec, r2);
  }

  /**
   * Replay ignores rows without a value: a live record followed by a newer
   * tombstone for the same key still replays to the live row.
   */
  lemma TombstoneNeverWins(codec: Codec, live: Row, dead: Row)
    requires codec.RoundTrips(live) && codec.RoundTrips(dead)
    requires live.value.Some? && dead.value.None? && dead.key == live.key
    ensures var cs := Scan(RecordBytes(codec, live) + RecordBytes(codec, dead), codec);
            live.key in Latest(cs) && Latest(cs)[live.key].row == live
  {
    ScanTwoRecords(codec, live, dead);
    var cs := Scan(RecordBytes(codec, live) + RecordBytes(codec, dead), codec);
    assert LatestUpTo(cs, 1) == map[live.key := cs[0]];
  }

  /**
   * The slot `put` allocated always holds its record, so the class replay
   * derives for that record is never above the class `put` used.
   */
  lemma ReplayedClassFits(codec: Codec, row: Row, cls: nat)
    requires |RecordBytes(codec, row)| <= SlotSize(cls)
    ensures NextBlockSize(|codec.encode(row)| + 1) <= cls
  {
    NextBlockSizeLeast(|codec.encode(row)| + 1, cls);
  }

  /**
   * Replay sizes a record by its bytes without the LF. Its slot then misses
   * the LF exactly when the record is one byte longer than a slot size.
   */
  lemma ReplaySlotShort(len: int)
    requires len >= 2
    ensures SlotSize(NextBlockSize(len - 1)) < len <==> exists i :: SlotSize(i) == len - 1
  {
    if exists i :: SlotSize(i) == len - 1 {
      var i :| SlotSize(i) == len - 1;
      NextBlockSizeOfSlotSize(i);
    }
  }

  /**
   * `put` sizes a record of `len` bytes with its LF, replay without it.
   * Replay's class is never above the class `put` used, whatever class the
   * entry had. For a key new to the index `put` uses `nextBlockSize(len)`:
   * one class up from replay's when replay's slot misses the LF, the same
   * class otherwise. An existing entry whose class already fits keeps it,
   * so replay may derive a lower class for it.
   */
  lemma ReplayClassVersusPut(len: int, cls: nat)
    requires len >= 2
    ensures NextBlockSize(len - 1) <= FitClass(cls, len)
    ensures FitClass(0, len) == NextBlockSize(len)
    ensures SlotSize(NextBlockSize(len - 1)) < len ==> FitClass(0, len) == NextBlockSize(len - 1) + 1
    ensures SlotSize(NextBlockSize(len - 1)) >= len ==> FitClass(0, len) == NextBlockSize(len - 1)
  {
    var r := NextBlockSize(len - 1);
    NextBlockSizeMonotone(len - 1, len);
    assert SlotSize(0) == BLOCK_SIZE;
    if SlotSize(r) < len {
      SlotSizeDoubles(r);
      NextBlockSizeLeast(len, r + 1);
      NextBlockSizeAbove(len, r);
    } else {
      NextBlockSizeLeast(len, r);
    }
  }

  /**
   * Replay's short slot also misplaces `head`. A file holding one live
   * record of 257 bytes replays to a class-0 winner at 0, so `head` resumes
   * at 256, on the record's LF, and nothing is reclaimed. The next
   * allocation of any class then returns 256, and the record written there
   * overwrites that LF.
   */
  lemma ReplayHeadOnLf(codec: Codec, r1: Row)
    requires codec.RoundTrips(r1) && r1.value.Some? && |codec.encode(r1)| == 255
    ensures var bytes := RecordBytes(codec, r1);
            var cs := Scan(bytes, codec);
            var ws := Winners(cs, Latest(cs));
            bytes[256] == LF
            && ws == [Entry(0, 0, r1)]
            && Reclaimed(0, ws, MaxBlock(ws)) == []
            && HeadAfter(0, ws) == 256
    ensures forall c: nat :: AllocSpec(InitialFreeLists, 256, c).offset == 256
  {
    var bytes := RecordBytes(codec, r1);
    assert |bytes| == 257 && bytes[256] == LF;
    var e := Entry(0, 0, r1);
    var cs := Scan(bytes, codec);
    assert cs == [e] by {
      ScanAppendRecord([], codec, r1);
      assert [] + bytes == bytes;
    }
    var latest := Latest(cs);
    assert latest == map[r1.key := e] by {
      assert LatestUpTo(cs, 0) == map[];
    }
    var ws := Winners(cs, latest);
    assert ws == [e] by {
      assert cs[0] == e && IsWinner(e, latest);
      assert Winners(cs[1..], latest) == [] by {
        assert cs[1..] == [];
      }
    }
    assert Reclaimed(0, ws, 0) == [] by {
      assert ws[..0] == [];
      assert GapSlots(0, 0, 0) == [];
    }
    forall c: nat
      ensures AllocSpec(InitialFreeLists, 256, c).offset == 256
    {
      assert c < |InitialFreeLists| ==> InitialFreeLists[c] == [];
    }
  }

  /**
   * Replay's short slot frees a record's LF. A record of 257 bytes at offset
   * 0, which `put` stored in a class-1 slot, is followed by a winner at 512.
   * Replay gives the first record class 0, so its slot ends at 256, on the
   * record's LF; the gap from 256 to 512 is reclaimed as one class-0 slot,
   * and the next class-0 allocation returns it, so the next record written
   * there overwrites that LF.
   */
  lemma ReplayFreesLf(codec: Codec, r1: Row, r2: Row)
    requires r1.key != r2.key && r1.value.Some? && r2.value.Some?
    requires |codec.encode(r1)| == 255
    ensures NextBlockSize(|RecordBytes(codec, r1)|) == 1
    ensures RecordBytes(codec, r1)[256] == LF
    ensures var ws := [Entry(0, NextBlockSize(|codec.encode(r1)| + 1), r1), Entry(512, 0, r2)];
            var reclaimed := Reclaimed(0, ws, MaxBlock(ws));
            reclaimed == [Slot(256, 0)]
            && HeadAfter(0, ws) == 768
            && ClassesBelow(reclaimed, |Pad(InitialFreeLists, MaxBlock(ws))|)
            && AllocSpec(Push(Pad(InitialFreeLists, MaxBlock(ws)), reclaimed), 768, 0).offset == 256
  {
    NextBlockSizeOfSlotSize(0);
    assert SlotSize(1) == 512 by { SlotSizeDoubles(0); }
    NextBlockSizeAbove(257, 0);
    NextBlockSizeLeast(257, 1);
    var ws := [Entry(0, 0, r1), Entry(512, 0, r2)];
    assert ws[..1] == [Entry(0, 0, r1)];
    assert ws[..1][..0] == [];
    assert MaxBlock(ws) == 0;
    assert Reclaimed(0, ws[..1], 0) == [] by {
      assert GapSlots(0, 0, 0) == [];
    }
    assert GapSlots(256, 512, 0) == [Slot(256, 0)] by {
      assert Carve(512, 512, 0) == [];
      assert CarveEnd(256, 512, 0) == 512;
    }
    assert Reclaimed(0, ws, 0) == [] + GapSlots(256, 512, 0);
  }
}
