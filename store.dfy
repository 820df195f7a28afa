/**
 * The `Database` object of index.js: the in-memory key index, the free lists,
 * the bump pointer `head` and the logical clock `tick`, with the operations
 * that open, read and write the store. File I/O stays outside: `Open` is
 * given the file's bytes, `Put` returns the write it would issue, and
 * `WriteDone` is told whether that write succeeded.
 */
module FlatFile {
  import opened Blocks
  import opened Records
  import opened Allocator
  import opened Replay

  datatype Error = NotOpen

  datatype Result<T> = Success(value: T) | Failure(error: Error)

  /**
   * The write `put` issues: the record's bytes, the offset they go to, and the
   * slot they supersede, to be freed once the write succeeds (none on a key's
   * first put).
   */
  datatype PendingWrite = PendingWrite(offset: int, bytes: seq<byte>, superseded: Option<Slot>)

  class Database {
    /** Whether the database holds an open file descriptor. */
    var isOpen: bool
    var head: int
    var tick: int
    var freelists: FreeLists
    var entries: map<string, Entry>
    const codec: Codec

    /**
     * The index holds, under each key, a live row of that key, of a class the
     * free lists cover, stamped no later than the clock.
     */
    ghost predicate Valid()
      reads this
    {
      forall k :: k in entries ==>
        entries[k].row.key == k && entries[k].row.value.Some?
        && entries[k].block < |freelists| && entries[k].row.sequence <= tick
    }

    /** A database as `new Database(path)` leaves it: empty, not open, six empty free lists. */
    predicate IsNew()
      reads this
    {
      !isOpen && head == 0 && tick == 0 && entries == map[] && freelists == InitialFreeLists
    }

    constructor (codec: Codec)
      ensures IsNew() && Valid() && this.codec == codec
    {
      this.codec := codec;
      isOpen := false;
      head := 0;
      tick := 0;
      entries := map[];
      freelists := InitialFreeLists;
    }

    /** Append empty free lists until class `cls` has one (the corrected padding loop). */
    method PadFreelists(cls: nat)
      modifies this`freelists
      ensures freelists == Pad(old(freelists), cls)
    {
      while |freelists| <= cls
        invariant Pad(freelists, cls) == Pad(old(freelists), cls)
        decreases cls + 1 - |freelists|
      {
        freelists := freelists + [[]];
      }
    }

    /** `alloc(self, block)` (index.js:28-39). */
    method Alloc(cls: nat) returns (offset: int)
      modifies this`freelists, this`head
      ensures Allocation(offset, freelists, head) == AllocSpec(old(freelists), old(head), cls)
    {
      PadFreelists(cls);
      if freelists[cls] == [] {
        freelists := freelists[cls := freelists[cls] + [head]];
        head := head + SlotSize(cls);
      }
      var list := freelists[cls];
      offset := list[|list| - 1];
      freelists := freelists[cls := list[..|list| - 1]];
    }

    /** The `free(from, to, block)` closure of `populateFreelist` (index.js:78-89). */
    method Free(lo: int, hi: int, cls: nat) returns (end: int)
      modifies this`freelists
      ensures ClassesBelow(Carve(lo, hi, cls), |Pad(old(freelists), cls)|)
      ensures freelists == Push(Pad(old(freelists), cls), Carve(lo, hi, cls))
      ensures end == CarveEnd(lo, hi, cls)
    {
      PadFreelists(cls);
      ghost var padded := freelists;
      CarveLayout(lo, hi, cls);
      var size := SlotSize(cls);
      end := lo;
      while hi - end >= size
        invariant |freelists| == |padded|
        invariant ClassesBelow(Carve(end, hi, cls), |freelists|)
        invariant Push(freelists, Carve(end, hi, cls)) == Push(padded, Carve(lo, hi, cls))
        invariant CarveEnd(end, hi, cls) == CarveEnd(lo, hi, cls)
        decreases hi - end
      {
        CarveLayout(end + size, hi, cls);
        ghost var rest := Carve(end + size, hi, cls);
        assert Carve(end, hi, cls) == [Slot(end, cls)] + rest;
        assert ([Slot(end, cls)] + rest)[1..] == rest;
        freelists := freelists[cls := freelists[cls] + [end]];
        end := end + size;
      }
    }

    /** `populateFreelist(self, entries)` (index.js:75-103), given the winners in offset order. */
    method PopulateFreelist(ws: seq<Entry>)
      modifies this`freelists, this`head
      ensures ws == [] ==> freelists == old(freelists)
      ensures ws != [] ==>
                ClassesBelow(Reclaimed(old(head), ws, MaxBlock(ws)), |Pad(old(freelists), MaxBlock(ws))|)
                && freelists == Push(Pad(old(freelists), MaxBlock(ws)), Reclaimed(old(head), ws, MaxBlock(ws)))
      ensures head == HeadAfter(old(head), ws)
    {
      var maxBlock := MaxBlock(ws);
      ghost var fl0, h0 := freelists, head;
      ghost var padded := Pad(fl0, maxBlock);
      for i := 0 to |ws|
        invariant i == 0 ==> freelists == fl0
        invariant i > 0 ==> ClassesBelow(Reclaimed(h0, ws[..i], maxBlock), |padded|)
                            && freelists == Push(padded, Reclaimed(h0, ws[..i], maxBlock))
        invariant head == HeadAfter(h0, ws[..i])
      {
        ReclaimedPush(padded, h0, ws, i, maxBlock);
        if i == 0 {
          assert Push(padded, Reclaimed(h0, ws[..0], maxBlock)) == padded;
        }
        var lo := head;
        lo := Free(lo, ws[i].pointer, maxBlock);
        lo := Free(lo, ws[i].pointer, 0);
        head := ws[i].pointer + SlotSize(ws[i].block);
        assert ws[..i + 1][i] == ws[i];
      }
      assert ws[..|ws|] == ws;
    }

    /**
     * `open`/`openSync` followed by `parseDatabase` (index.js:41-73, 177-196),
     * given the file's bytes. Replay starts from the current clock, bump
     * pointer and free lists, and from an empty index.
     */
    method Open(data: seq<byte>)
      requires entries == map[]
      modifies this
      ensures isOpen && Valid()
      ensures var cands := Scan(data, codec);
              var ws := Winners(cands, Latest(cands));
              entries == Latest(cands)
              && tick == TickUpTo(cands, |cands|, old(tick))
              && head == HeadAfter(old(head), ws)
              && (ws == [] ==> freelists == old(freelists))
              && (ws != [] ==>
                    ClassesBelow(Reclaimed(old(head), ws, MaxBlock(ws)), |Pad(old(freelists), MaxBlock(ws))|)
                    && freelists == Push(Pad(old(freelists), MaxBlock(ws)), Reclaimed(old(head), ws, MaxBlock(ws))))
    {
      isOpen := true;
      var cands := ScanRecords(data, codec);
      var latest, t := ResolveRecords(cands, tick);
      entries, tick := latest, t;
      var ws := Winners(cands, latest);
      PopulateFreelist(ws);
      ReplayedIndexValid(cands, old(tick));
    }

    /** The row `put(key, val)` writes: an existing entry only gets a new sequence. */
    ghost function PutRow(key: string, val: Option<Value>): Row
      reads this
    {
      if key in entries then entries[key].row.(sequence := tick + 1) else Row(tick + 1, key, val)
    }

    /** The class `put(key, val)` allocates: the entry's class, grown only if the record does not fit. */
    ghost function PutClass(key: string, val: Option<Value>): nat
      reads this
    {
      var cls := if key in entries then entries[key].block else 0;
      var len := |RecordBytes(codec, PutRow(key, val))|;
      FitClass(cls, len)
    }

    /** `put(key, val)` (index.js:123-145); `val == None` is `undefined`, i.e. a delete. */
    method Put(key: string, val: Option<Value>) returns (r: Result<PendingWrite>)
      requires Valid()
      modifies this
      ensures Valid()
      ensures !old(isOpen) ==> r == Failure(NotOpen) && unchanged(this)
      ensures old(isOpen) ==> r.Success? && isOpen && tick == old(tick) + 1
      ensures old(isOpen) ==>
                var row := old(PutRow(key, val));
                var cls := old(PutClass(key, val));
                var a := AllocSpec(old(freelists), old(head), cls);
                r.Success?
                && r.value == PendingWrite(a.offset, RecordBytes(codec, row),
                                           if key in old(entries) then Some(Slot(old(entries[key].pointer), old(entries[key].block))) else None)
                && freelists == a.freelists && head == a.head
                && entries == if val.None? then old(entries) - {key} else old(entries)[key := Entry(a.offset, cls, row)]
      ensures old(isOpen) ==> |r.value.bytes| <= SlotSize(old(PutClass(key, val)))
      ensures old(isOpen) && key in old(entries) ==> old(entries[key].block) <= old(PutClass(key, val))
      ensures old(isOpen) ==> old(PutRow(key, val)).sequence == tick
    {
      if !isOpen {
        return Failure(NotOpen);
      }
      ghost var row0, cls0 := PutRow(key, val), PutClass(key, val);
      ghost var entries0, freelists0, head0 := entries, freelists, head;
      var entry: Entry;
      var superseded: Option<Slot> := None;
      tick := tick + 1;
      if key in entries {
        entry := entries[key];
        superseded := Some(Slot(entry.pointer, entry.block));
        entry := entry.(row := entry.row.(sequence := tick));
      } else {
        entry := Entry(0, 0, Row(tick, key, val));
      }
      assert entry.row == row0;
      var bytes := RecordBytes(codec, entry.row);
      if |bytes| > SlotSize(entry.block) {
        NextBlockSizeAbove(|bytes|, entry.block);
        entry := entry.(block := NextBlockSize(|bytes|));
      }
      assert entry.block == cls0;
      var offset := Alloc(entry.block);
      ghost var a := AllocSpec(freelists0, head0, cls0);
      assert offset == a.offset && freelists == a.freelists && head == a.head;
      entry := entry.(pointer := offset);
      if val.None? {
        entries := entries - {key};
      } else {
        entries := entries[key := entry];
      }
      r := Success(PendingWrite(offset, bytes, superseded));
      assert |freelists0| <= |freelists|;
      assert Valid() by {
        forall k | k in entries
          ensures entries[k].row.key == k && entries[k].row.value.Some?
          ensures entries[k].block < |freelists| && entries[k].row.sequence <= tick
        {
          if k != key {
            assert entries[k] == entries0[k];
          }
        }
      }
    }

    /** `del(key)` (index.js:147-149): a put of `undefined`. */
    method Del(key: string) returns (r: Result<PendingWrite>)
      requires Valid()
      modifies this
      ensures Valid()
      ensures !old(isOpen) ==> r == Failure(NotOpen) && unchanged(this)
      ensures old(isOpen) ==>
                var row := old(PutRow(key, None));
                var a := AllocSpec(old(freelists), old(head), old(PutClass(key, None)));
                r.Success? && isOpen && tick == old(tick) + 1
                && r.value == PendingWrite(a.offset, RecordBytes(codec, row),
                                           if key in old(entries) then Some(Slot(old(entries[key].pointer), old(entries[key].block))) else None)
                && freelists == a.freelists && head == a.head
                && entries == old(entries) - {key}
    {
      r := Put(key, None);
    }

    /**
     * The completion callback of `writefd` (index.js:115-121): only a write
     * that succeeded frees the superseded slot, onto its class's list.
     */
    method WriteDone(w: PendingWrite, ok: bool)
      requires Valid()
      requires w.superseded.Some? ==> w.superseded.value.cls < |freelists|
      modifies this`freelists
      ensures Valid()
      ensures freelists == if ok && w.superseded.Some? then FreeSlot(old(freelists), w.superseded.value) else old(freelists)
    {
      if ok && w.superseded.Some? {
        var s := w.superseded.value;
        freelists := freelists[s.cls := freelists[s.cls] + [s.offset]];
      }
    }

    /** `get(key)` (index.js:151-155). */
    function Get(key: string): (r: Result<Option<Value>>)
      reads this
      requires Valid()
      ensures r.Failure? <==> !isOpen
      ensures r.Success? ==> (r.value.Some? <==> key in entries)
      ensures r.Success? && key in entries ==> r.value == entries[key].row.value
    {
      if !isOpen then Failure(NotOpen)
      else if key in entries then Success(entries[key].row.value)
      else Success(None)
    }

    /** `has(key)` (index.js:157-160). */
    function Has(key: string): (r: Result<bool>)
      reads this
      ensures r.Failure? <==> !isOpen
      ensures r.Success? ==> (r.value <==> key in entries)
    {
      if !isOpen then Failure(NotOpen) else Success(key in entries)
    }

    /** `keys()` (index.js:162-165), as a set: the order of `Object.keys` is not modelled. */
    function Keys(): (r: Result<set<string>>)
      reads this
      ensures r.Failure? <==> !isOpen
      ensures r.Success? ==> forall k :: k in r.value <==> k in entries
    {
      if !isOpen then Failure(NotOpen) else Success(entries.Keys)
    }

    /** `close()` (index.js:167-170); closing the descriptor itself is I/O. */
    method Close()
      modifies this`isOpen
      ensures !isOpen
    {
      isOpen := false;
    }
  }
}
