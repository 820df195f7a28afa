/**
 * Replay at open (`parseDatabase` and `populateFreelist` of index.js):
 *   1. scan the file's bytes for TAB ... LF framed records,
 *   2. keep, per key, the live record with the greatest sequence number,
 *   3. filter the candidates down to those winners,
 *   4. carve the gaps in front of each winner into free slots.
 * Each step is a function here; the loops of the source are methods proved
 * equal to them (the scan and the resolution below, the free-list loops in
 * the `Database` class).
 */
module Replay {
  import opened Blocks
  import opened Records
  import opened Allocator

  // ---------------------------------------------------------------------------
  // 1. Scanning for framed records
  // ---------------------------------------------------------------------------

  /**
   * The scan loop's `pointer` once it has consumed `data[..n]`: the offset of
   * the last TAB after the last LF, or -1 when there is none.
   */
  function PointerAt(data: seq<byte>, n: nat): (p: int)
    requires n <= |data|
    ensures -1 <= p < n
    ensures p >= 0 ==> data[p] == TAB && forall j :: p < j < n ==> data[j] != TAB && data[j] != LF
  {
    if n == 0 then -1
    else if data[n - 1] == TAB then n - 1
    else if data[n - 1] == LF then -1
    else PointerAt(data, n - 1)
  }

  predicate Sorted(cs: seq<Entry>)
  {
    forall i, j :: 0 <= i < j < |cs| ==> cs[i].pointer < cs[j].pointer
  }

  /**
   * The candidates found in `data[..n]`. At an LF, the bytes from the pending
   * TAB up to the LF are decoded; a row is kept with the class of that slice's
   * length, a failed decode (or no pending TAB) is dropped.
   */
  function ScanPrefix(data: seq<byte>, codec: Codec, n: nat): (cs: seq<Entry>)
    requires n <= |data|
    ensures Sorted(cs)
    ensures forall i :: 0 <= i < |cs| ==> 0 <= cs[i].pointer < n
    ensures PointerAt(data, n) >= 0 ==> forall i :: 0 <= i < |cs| ==> cs[i].pointer < PointerAt(data, n)
  {
    if n == 0 then []
    else
      var prev := ScanPrefix(data, codec, n - 1);
      var p := PointerAt(data, n - 1);
      if data[n - 1] == LF && p >= 0 && codec.decode(data[p..n - 1]).Some? then
        prev + [Entry(p, NextBlockSize(n - 1 - p), codec.decode(data[p..n - 1]).value)]
      else
        prev
  }

  function Scan(data: seq<byte>, codec: Codec): seq<Entry>
  {
    ScanPrefix(data, codec, |data|)
  }

  /** One byte of the scan: how the pointer and the candidates change. */
  lemma ScanStep(data: seq<byte>, codec: Codec, n: nat)
    requires n < |data|
    ensures PointerAt(data, n + 1) ==
              if data[n] == LF then -1 else if data[n] == TAB then n else PointerAt(data, n)
    ensures var p := PointerAt(data, n);
            ScanPrefix(data, codec, n + 1) ==
              if data[n] == LF && p >= 0 && codec.decode(data[p..n]).Some? then
                ScanPrefix(data, codec, n) + [Entry(p, NextBlockSize(n - p), codec.decode(data[p..n]).value)]
              else ScanPrefix(data, codec, n)
  {
  }

  /** The scan loop of `parseDatabase` (index.js:47-58). */
  method ScanRecords(data: seq<byte>, codec: Codec) returns (cands: seq<Entry>)
    ensures cands == Scan(data, codec)
  {
    var pointer := -1;
    cands := [];
    for i := 0 to |data|
      invariant pointer == PointerAt(data, i)
      invariant cands == ScanPrefix(data, codec, i)
    {
      ScanStep(data, codec, i);
      if data[i] == TAB {
        pointer := i;
      }
      if data[i] == LF {
        if pointer >= 0 {
          var row := codec.decode(data[pointer..i]);
          if row.Some? {
            cands := cands + [Entry(pointer, NextBlockSize(i - pointer), row.value)];
          }
        }
        pointer := -1;
      }
    }
  }

  /**
   * `c` was read from a record whose TAB is at `c.pointer` and whose LF is at
   * `m`, with no other TAB or LF between them.
   */
  ghost predicate FramedAt(data: seq<byte>, codec: Codec, c: Entry, m: int)
  {
    0 <= c.pointer < m < |data|
    && data[c.pointer] == TAB && data[m] == LF
    && (forall j :: c.pointer < j < m ==> data[j] != TAB && data[j] != LF)
    && c.block == NextBlockSize(m - c.pointer)
    && codec.decode(data[c.pointer..m]) == Some(c.row)
  }

  /** Every candidate comes from a framed, decodable record. */
  lemma {:induction false} ScanFramed(data: seq<byte>, codec: Codec, n: nat, k: nat)
    requires n <= |data| && k < |ScanPrefix(data, codec, n)|
    ensures exists m :: m < n && FramedAt(data, codec, ScanPrefix(data, codec, n)[k], m)
  {
    var prev := ScanPrefix(data, codec, n - 1);
    if k < |prev| {
      ScanFramed(data, codec, n - 1, k);
      var m :| m < n - 1 && FramedAt(data, codec, prev[k], m);
      assert ScanPrefix(data, codec, n)[k] == prev[k];
    } else {
      var c := ScanPrefix(data, codec, n)[k];
      assert FramedAt(data, codec, c, n - 1);
    }
  }

  lemma {:induction false} ScanPrefixGrows(data: seq<byte>, codec: Codec, n1: nat, n2: nat)
    requires n1 <= n2 <= |data|
    ensures ScanPrefix(data, codec, n1) <= ScanPrefix(data, codec, n2)
    decreases n2 - n1
  {
    if n1 < n2 {
      ScanPrefixGrows(data, codec, n1, n2 - 1);
    }
  }

  /** Every LF closing a pending TAB whose slice decodes yields a candidate. */
  lemma ScanComplete(data: seq<byte>, codec: Codec, m: nat)
    requires m < |data| && data[m] == LF && PointerAt(data, m) >= 0
    requires codec.decode(data[PointerAt(data, m)..m]).Some?
    ensures var p := PointerAt(data, m);
            Entry(p, NextBlockSize(m - p), codec.decode(data[p..m]).value) in Scan(data, codec)
  {
    var p := PointerAt(data, m);
    var c := Entry(p, NextBlockSize(m - p), codec.decode(data[p..m]).value);
    var prev := ScanPrefix(data, codec, m);
    assert ScanPrefix(data, codec, m + 1) == prev + [c];
    ScanPrefixGrows(data, codec, m + 1, |data|);
    assert Scan(data, codec)[|prev|] == c;
  }

  /** The scan of `data[..n]` does not look past `n`. */
  lemma {:induction false} ScanPrefixLocal(d1: seq<byte>, d2: seq<byte>, codec: Codec, n: nat)
    requires n <= |d1| && n <= |d2| && d1[..n] == d2[..n]
    ensures PointerAt(d1, n) == PointerAt(d2, n)
    ensures ScanPrefix(d1, codec, n) == ScanPrefix(d2, codec, n)
  {
    if n > 0 {
      assert d1[..n - 1] == d1[..n][..n - 1] && d2[..n - 1] == d2[..n][..n - 1];
      ScanPrefixLocal(d1, d2, codec, n - 1);
      assert d1[n - 1] == d1[..n][n - 1] && d2[n - 1] == d2[..n][n - 1];
      var p := PointerAt(d1, n - 1);
      if p >= 0 {
        assert d1[p..n - 1] == d1[..n][p..n - 1] && d2[p..n - 1] == d2[..n][p..n - 1];
      }
    }
  }

  /** Bytes that are neither TAB nor LF after a TAB leave the pointer and the candidates alone. */
  lemma {:induction false} ScanSkipsBody(data: seq<byte>, codec: Codec, lo: nat, hi: nat)
    requires lo < hi <= |data| && data[lo] == TAB
    requires forall j :: lo < j < hi ==> data[j] != TAB && data[j] != LF
    ensures PointerAt(data, hi) == lo
    ensures ScanPrefix(data, codec, hi) == ScanPrefix(data, codec, lo)
    decreases hi
  {
    if hi > lo + 1 {
      ScanSkipsBody(data, codec, lo, hi - 1);
    }
  }

  /** An LF closing a pending TAB whose slice decodes appends one candidate. */
  lemma ScanClosesRecord(data: seq<byte>, codec: Codec, lo: nat, m: nat, row: Row)
    requires lo < m < |data| && data[m] == LF && PointerAt(data, m) == lo
    requires codec.decode(data[lo..m]) == Some(row)
    ensures ScanPrefix(data, codec, m + 1) == ScanPrefix(data, codec, m) + [Entry(lo, NextBlockSize(m - lo), row)]
  {
  }

  /**
   * Framing round trip: a record written by `put` after any bytes `pre`
   * replays as exactly one more candidate, at the TAB's offset, carrying the
   * row and the class of the record's length without its LF.
   */
  lemma ScanAppendRecord(pre: seq<byte>, codec: Codec, row: Row)
    requires codec.RoundTrips(row)
    ensures Scan(pre + RecordBytes(codec, row), codec)
            == Scan(pre, codec) + [Entry(|pre|, NextBlockSize(|codec.encode(row)| + 1), row)]
  {
    var e := codec.encode(row);
    var d := pre + RecordBytes(codec, row);
    var n0 := |pre|;
    var last := |d| - 1;
    assert d[..n0] == pre[..n0];
    ScanPrefixLocal(d, pre, codec, n0);
    assert NoDelimiters(e);
    assert d[n0 + 1..last] == e;
    forall j | n0 < j < last
      ensures d[j] != TAB && d[j] != LF
    {
      assert d[j] == e[j - n0 - 1];
    }
    ScanSkipsBody(d, codec, n0, last);
    assert d[n0..last] == [TAB] + e;
    ScanClosesRecord(d, codec, n0, last, row);
  }

  // ---------------------------------------------------------------------------
  // 2. Resolving the winner of each key
  // ---------------------------------------------------------------------------

  function Max(a: int, b: int): int
  {
    if a > b then a else b
  }

  /**
   * The index after the resolution loop has seen `cs[..n]`: rows without a
   * value are skipped, and a row replaces the key's current winner only when
   * its sequence is strictly greater.
   */
  function LatestUpTo(cs: seq<Entry>, n: nat): map<string, Entry>
    requires n <= |cs|
  {
    if n == 0 then map[]
    else
      var latest := LatestUpTo(cs, n - 1);
      var c := cs[n - 1];
      if c.row.value.None? then latest
      else if c.row.key !in latest || latest[c.row.key].row.sequence < c.row.sequence then latest[c.row.key := c]
      else latest
  }

  function Latest(cs: seq<Entry>): map<string, Entry>
  {
    LatestUpTo(cs, |cs|)
  }

  /** The clock after the resolution loop has seen `cs[..n]`, starting from `tick0`. */
  function TickUpTo(cs: seq<Entry>, n: nat, tick0: int): int
    requires n <= |cs|
  {
    if n == 0 then tick0
    else
      var t := TickUpTo(cs, n - 1, tick0);
      if cs[n - 1].row.value.None? then t else Max(t, cs[n - 1].row.sequence)
  }

  /** The resolution loop of `parseDatabase` (index.js:60-65). */
  method ResolveRecords(cands: seq<Entry>, tick0: int) returns (latest: map<string, Entry>, tick: int)
    ensures latest == Latest(cands) && tick == TickUpTo(cands, |cands|, tick0)
  {
    latest, tick := map[], tick0;
    for i := 0 to |cands|
      invariant latest == LatestUpTo(cands, i)
      invariant tick == TickUpTo(cands, i, tick0)
    {
      var c := cands[i];
      if c.row.value.Some? {
        if c.row.key !in latest || latest[c.row.key].row.sequence < c.row.sequence {
          latest := latest[c.row.key := c];
        }
        tick := Max(tick, c.row.sequence);
      }
    }
  }

  /** Each key's entry is one of the first `n` candidates, of that key, with a value. */
  lemma {:induction false} LatestFromCandidates(cs: seq<Entry>, n: nat)
    requires n <= |cs|
    ensures forall k :: k in LatestUpTo(cs, n) ==>
              LatestUpTo(cs, n)[k].row.key == k && LatestUpTo(cs, n)[k].row.value.Some?
              && exists j :: 0 <= j < n && cs[j] == LatestUpTo(cs, n)[k]
  {
    if n > 0 {
      LatestFromCandidates(cs, n - 1);
      var prev := LatestUpTo(cs, n - 1);
      var latest := LatestUpTo(cs, n);
      var c := cs[n - 1];
      assert latest == prev || (c.row.value.Some? && latest == prev[c.row.key := c]);
      forall k | k in latest
        ensures latest[k].row.key == k && latest[k].row.value.Some?
        ensures exists j :: 0 <= j < n && cs[j] == latest[k]
      {
        if k in prev && latest[k] == prev[k] {
          var j :| 0 <= j < n - 1 && cs[j] == prev[k];
        } else {
          assert k == c.row.key && latest[k] == c;
        }
      }
    }
  }

  /**
   * No candidate with a value beats its key's entry: its sequence is at most
   * the entry's, and on equal sequences the entry is at the earlier offset.
   */
  lemma {:induction false} LatestIsGreatest(cs: seq<Entry>, n: nat)
    requires n <= |cs| && Sorted(cs)
    ensures var latest := LatestUpTo(cs, n);
            forall j :: 0 <= j < n && cs[j].row.value.Some? ==>
              cs[j].row.key in latest
              && cs[j].row.sequence <= latest[cs[j].row.key].row.sequence
              && (cs[j].row.sequence == latest[cs[j].row.key].row.sequence ==>
                    latest[cs[j].row.key].pointer <= cs[j].pointer)
  {
    if n > 0 {
      LatestIsGreatest(cs, n - 1);
      LatestFromCandidates(cs, n - 1);
      var prev := LatestUpTo(cs, n - 1);
      var latest := LatestUpTo(cs, n);
      var c := cs[n - 1];
      forall j | 0 <= j < n && cs[j].row.value.Some?
        ensures cs[j].row.key in latest
        ensures cs[j].row.sequence <= latest[cs[j].row.key].row.sequence
        ensures cs[j].row.sequence == latest[cs[j].row.key].row.sequence ==>
                  latest[cs[j].row.key].pointer <= cs[j].pointer
      {
        var k := cs[j].row.key;
        if j == n - 1 && latest[k] != c {
          var i :| 0 <= i < n - 1 && cs[i] == prev[k];
        }
      }
    }
  }

  /** The clock resumes at the greatest sequence of a row with a value, or stays where it was. */
  lemma {:induction false} TickIsMax(cs: seq<Entry>, n: nat, tick0: int)
    requires n <= |cs|
    ensures tick0 <= TickUpTo(cs, n, tick0)
    ensures forall j :: 0 <= j < n && cs[j].row.value.Some? ==> cs[j].row.sequence <= TickUpTo(cs, n, tick0)
    ensures TickUpTo(cs, n, tick0) == tick0
            || exists j :: 0 <= j < n && cs[j].row.value.Some? && cs[j].row.sequence == TickUpTo(cs, n, tick0)
  {
    if n > 0 {
      TickIsMax(cs, n - 1, tick0);
    }
  }

  // ---------------------------------------------------------------------------
  // 3. Filtering the candidates down to the winners
  // ---------------------------------------------------------------------------

  predicate IsWinner(c: Entry, latest: map<string, Entry>)
  {
    c.row.key in latest && latest[c.row.key] == c
  }

  /** The filter of `parseDatabase`: the candidates that are their key's entry in the index, in scan order. */
  function Winners(cs: seq<Entry>, latest: map<string, Entry>): (ws: seq<Entry>)
    ensures forall w :: w in ws <==> w in cs && IsWinner(w, latest)
    ensures Sorted(cs) ==> Sorted(ws)
  {
    if cs == [] then []
    else
      var rest := Winners(cs[1..], latest);
      assert forall w :: w in cs <==> w == cs[0] || w in cs[1..];
      assert Sorted(cs) ==> Sorted(cs[1..]) && forall w :: w in rest ==> cs[0].pointer < w.pointer;
      (if IsWinner(cs[0], latest) then [cs[0]] else []) + rest
  }

  /**
   * The filtered list is exactly the index's entries, each once, in ascending
   * offset order.
   */
  lemma WinnersAreIndex(cs: seq<Entry>)
    requires Sorted(cs)
    ensures var latest := Latest(cs);
            var ws := Winners(cs, latest);
            Sorted(ws)
            && (forall w :: w in ws <==> w.row.key in latest && latest[w.row.key] == w)
            && (forall k :: k in latest ==> latest[k] in ws)
  {
    LatestFromCandidates(cs, |cs|);
  }

  /** The largest class among the winners, or 0 when there are none. */
  function MaxBlock(ws: seq<Entry>): (m: nat)
    ensures forall i :: 0 <= i < |ws| ==> ws[i].block <= m
    ensures m == 0 || exists i :: 0 <= i < |ws| && ws[i].block == m
  {
    if ws == [] then 0
    else
      var m := MaxBlock(ws[..|ws| - 1]);
      var b := ws[|ws| - 1].block;
      if m > b then m else b
  }

  /**
   * The replayed index is well formed: each key maps to one of the winners, a
   * row of that key with a value, stamped no later than the resumed clock, of
   * a class no larger than the largest winner's.
   */
  lemma ReplayedIndexValid(cs: seq<Entry>, tick0: int)
    requires Sorted(cs)
    ensures var latest := Latest(cs);
            var ws := Winners(cs, latest);
            forall k :: k in latest ==>
              latest[k] in ws && latest[k].row.key == k && latest[k].row.value.Some?
              && latest[k].row.sequence <= TickUpTo(cs, |cs|, tick0)
              && latest[k].block <= MaxBlock(ws)
  {
    var latest := LatestUpTo(cs, |cs|);
    var ws := Winners(cs, latest);
    LatestFromCandidates(cs, |cs|);
    TickIsMax(cs, |cs|, tick0);
    WinnersAreIndex(cs);
    forall k | k in latest
      ensures latest[k].row.sequence <= TickUpTo(cs, |cs|, tick0) && latest[k].block <= MaxBlock(ws)
    {
      assert latest[k] in ws;
      var i :| 0 <= i < |ws| && ws[i] == latest[k];
      var j :| 0 <= j < |cs| && cs[j] == latest[k];
    }
  }

  // ---------------------------------------------------------------------------
  // 4. Rebuilding the free lists from the gaps between winners
  // ---------------------------------------------------------------------------

  /** The slots the inner loop of `free(lo, hi, cls)` pushes: whole slots from `lo` on, ending by `hi`. */
  function Carve(lo: int, hi: int, cls: nat): seq<Slot>
    decreases hi - lo
  {
    if hi - lo >= SlotSize(cls) then [Slot(lo, cls)] + Carve(lo + SlotSize(cls), hi, cls) else []
  }

  /** The `from` that `free(lo, hi, cls)` returns. */
  function CarveEnd(lo: int, hi: int, cls: nat): int
    decreases hi - lo
  {
    if hi - lo >= SlotSize(cls) then CarveEnd(lo + SlotSize(cls), hi, cls) else lo
  }

  /** `slots` lie back to back, in order, covering exactly `[lo, end)`. */
  predicate Tiles(slots: seq<Slot>, lo: int, end: int)
    decreases |slots|
  {
    if slots == [] then lo == end
    else slots[0].offset == lo && Tiles(slots[1..], lo + SlotSize(slots[0].cls), end)
  }

  /** Slots in ascending order, each ending at or before the next begins: pairwise disjoint. */
  predicate Ascending(slots: seq<Slot>)
  {
    forall i, j :: 0 <= i < j < |slots| ==> slots[i].offset + SlotSize(slots[i].cls) <= slots[j].offset
  }

  /** Every slot of `slots` lies inside `[lo, hi)`. */
  predicate Within(slots: seq<Slot>, lo: int, hi: int)
  {
    forall i :: 0 <= i < |slots| ==> lo <= slots[i].offset && slots[i].offset + SlotSize(slots[i].cls) <= hi
  }

  lemma {:induction false} TilesLayout(slots: seq<Slot>, lo: int, end: int)
    requires Tiles(slots, lo, end)
    ensures lo <= end && Ascending(slots) && Within(slots, lo, end)
    decreases |slots|
  {
    if slots != [] {
      TilesLayout(slots[1..], lo + SlotSize(slots[0].cls), end);
    }
  }

  lemma {:induction false} TilesConcat(a: seq<Slot>, b: seq<Slot>, x: int, y: int, z: int)
    requires Tiles(a, x, y) && Tiles(b, y, z)
    ensures Tiles(a + b, x, z)
    decreases |a|
  {
    if a == [] {
      assert a + b == b;
    } else {
      assert (a + b)[0] == a[0] && (a + b)[1..] == a[1..] + b;
      TilesConcat(a[1..], b, x + SlotSize(a[0].cls), y, z);
    }
  }

  /**
   * `free(lo, hi, cls)` tiles `[lo, end)` with slots of class `cls` and
   * leaves less than one such slot before `hi`.
   */
  lemma {:induction false} CarveLayout(lo: int, hi: int, cls: nat)
    ensures Tiles(Carve(lo, hi, cls), lo, CarveEnd(lo, hi, cls))
    ensures forall i :: 0 <= i < |Carve(lo, hi, cls)| ==> Carve(lo, hi, cls)[i].cls == cls
    ensures lo <= hi ==> lo <= CarveEnd(lo, hi, cls) <= hi && hi - CarveEnd(lo, hi, cls) < SlotSize(cls)
    ensures lo > hi ==> Carve(lo, hi, cls) == [] && CarveEnd(lo, hi, cls) == lo
    decreases hi - lo
  {
    if hi - lo >= SlotSize(cls) {
      CarveLayout(lo + SlotSize(cls), hi, cls);
    }
  }

  /** The slots reclaimed from one gap: max-class slots first, then base-class slots. */
  function GapSlots(lo: int, hi: int, maxBlock: nat): seq<Slot>
  {
    Carve(lo, hi, maxBlock) + Carve(CarveEnd(lo, hi, maxBlock), hi, 0)
  }

  function GapEnd(lo: int, hi: int, maxBlock: nat): int
  {
    CarveEnd(CarveEnd(lo, hi, maxBlock), hi, 0)
  }

  /**
   * One gap `[lo, hi)`: its reclaimed slots tile `[lo, GapEnd)`, are of the
   * max class or the base class, and fewer than `BLOCK_SIZE` bytes stay unreclaimed.
   */
  lemma GapLayout(lo: int, hi: int, maxBlock: nat)
    ensures var g := GapSlots(lo, hi, maxBlock);
            Tiles(g, lo, GapEnd(lo, hi, maxBlock))
            && Ascending(g) && Within(g, lo, hi)
            && (forall i :: 0 <= i < |g| ==> g[i].cls == maxBlock || g[i].cls == 0)
    ensures lo <= hi ==> lo <= GapEnd(lo, hi, maxBlock) <= hi && hi - GapEnd(lo, hi, maxBlock) < BLOCK_SIZE
    ensures lo > hi ==> GapSlots(lo, hi, maxBlock) == []
  {
    var mid := CarveEnd(lo, hi, maxBlock);
    CarveLayout(lo, hi, maxBlock);
    CarveLayout(mid, hi, 0);
    TilesConcat(Carve(lo, hi, maxBlock), Carve(mid, hi, 0), lo, mid, GapEnd(lo, hi, maxBlock));
    TilesLayout(GapSlots(lo, hi, maxBlock), lo, GapEnd(lo, hi, maxBlock));
    if lo > hi {
      assert GapSlots(lo, hi, maxBlock) == [] + [];
    }
  }

  /** `_head` after the reconstruction loop has handled the winners `ws`. */
  function HeadAfter(head: int, ws: seq<Entry>): int
  {
    if ws == [] then head else ws[|ws| - 1].pointer + SlotSize(ws[|ws| - 1].block)
  }

  /** Every slot the reconstruction loop pushes for the winners `ws`, in push order. */
  function Reclaimed(head: int, ws: seq<Entry>, maxBlock: nat): seq<Slot>
    decreases |ws|
  {
    if ws == [] then []
    else
      var prev := ws[..|ws| - 1];
      Reclaimed(head, prev, maxBlock) + GapSlots(HeadAfter(head, prev), ws[|ws| - 1].pointer, maxBlock)
  }

  /** Concatenating two ascending runs, the first ending before the second starts. */
  lemma AscendingConcat(a: seq<Slot>, b: seq<Slot>, mid: int)
    requires Ascending(a) && Ascending(b)
    requires forall i :: 0 <= i < |a| ==> a[i].offset + SlotSize(a[i].cls) <= mid
    requires forall j :: 0 <= j < |b| ==> mid <= b[j].offset
    ensures Ascending(a + b)
  {
    var r := a + b;
    forall i, j | 0 <= i < j < |r|
      ensures r[i].offset + SlotSize(r[i].cls) <= r[j].offset
    {
      if j < |a| {
        assert r[i] == a[i] && r[j] == a[j];
      } else if i >= |a| {
        assert r[i] == b[i - |a|] && r[j] == b[j - |a|];
      } else {
        assert r[i] == a[i] && r[j] == b[j - |a|];
      }
    }
  }

  /** Every reclaimed slot ends at or before the last winner's offset. */
  lemma {:induction false} ReclaimedEnds(head: int, ws: seq<Entry>, maxBlock: nat)
    requires Sorted(ws) && ws != []
    ensures forall s :: s in Reclaimed(head, ws, maxBlock) ==> s.offset + SlotSize(s.cls) <= ws[|ws| - 1].pointer
    decreases |ws|
  {
    var prev := ws[..|ws| - 1];
    var last := ws[|ws| - 1];
    var lo := HeadAfter(head, prev);
    var a := Reclaimed(head, prev, maxBlock);
    var g := GapSlots(lo, last.pointer, maxBlock);
    GapLayout(lo, last.pointer, maxBlock);
    if prev != [] {
      assert Sorted(prev);
      ReclaimedEnds(head, prev, maxBlock);
      assert prev[|prev| - 1].pointer < last.pointer;
    }
    forall s: Slot | s in a + g
      ensures s.offset + SlotSize(s.cls) <= last.pointer
    {
      if s !in a {
        var j :| 0 <= j < |g| && g[j] == s;
      }
    }
  }

  /** The reclaimed slots come in ascending, non-overlapping order. */
  lemma {:induction false} ReclaimedAscending(head: int, ws: seq<Entry>, maxBlock: nat)
    requires Sorted(ws)
    ensures Ascending(Reclaimed(head, ws, maxBlock))
    decreases |ws|
  {
    if ws != [] {
      var prev := ws[..|ws| - 1];
      var last := ws[|ws| - 1];
      var lo := HeadAfter(head, prev);
      var a := Reclaimed(head, prev, maxBlock);
      var g := GapSlots(lo, last.pointer, maxBlock);
      assert Sorted(prev);
      ReclaimedAscending(head, prev, maxBlock);
      GapLayout(lo, last.pointer, maxBlock);
      assert Within(g, lo, last.pointer);
      if prev != [] {
        ReclaimedEnds(head, prev, maxBlock);
        forall i | 0 <= i < |a|
          ensures a[i].offset + SlotSize(a[i].cls) <= lo
        {
          assert a[i] in a;
        }
      }
      AscendingConcat(a, g, lo);
      assert Reclaimed(head, ws, maxBlock) == a + g;
    }
  }

  /**
   * The reconstruction hands out pairwise-disjoint slots, in ascending order,
   * of the max class or the base class, all ending at or before the last winner.
   */
  lemma ReclaimedDisjoint(head: int, ws: seq<Entry>, maxBlock: nat)
    requires Sorted(ws)
    ensures var r := Reclaimed(head, ws, maxBlock);
            Ascending(r)
            && (forall i :: 0 <= i < |r| ==> r[i].cls == maxBlock || r[i].cls == 0)
            && (ws != [] ==> forall i :: 0 <= i < |r| ==> r[i].offset + SlotSize(r[i].cls) <= ws[|ws| - 1].pointer)
  {
    var r := Reclaimed(head, ws, maxBlock);
    ReclaimedAscending(head, ws, maxBlock);
    ReclaimedClasses(head, ws, maxBlock);
    if ws != [] {
      ReclaimedEnds(head, ws, maxBlock);
    }
    assert forall i :: 0 <= i < |r| ==> r[i] in r;
  }

  /**
   * Slot `s` lies in the gap in front of some winner `ws[k]`: from where the
   * previous winner's slot ends (or the old head) up to `ws[k]`.
   */
  ghost predicate InSomeGap(head: int, ws: seq<Entry>, s: Slot)
  {
    exists k :: 0 <= k < |ws| && HeadAfter(head, ws[..k]) <= s.offset && s.offset + SlotSize(s.cls) <= ws[k].pointer
  }

  /** Each reclaimed slot lies in the gap in front of some winner. */
  lemma {:induction false} ReclaimedInGaps(head: int, ws: seq<Entry>, maxBlock: nat)
    ensures forall s :: s in Reclaimed(head, ws, maxBlock) ==> InSomeGap(head, ws, s)
    decreases |ws|
  {
    if ws != [] {
      var prev := ws[..|ws| - 1];
      var last := ws[|ws| - 1];
      var lo := HeadAfter(head, prev);
      var a := Reclaimed(head, prev, maxBlock);
      var g := GapSlots(lo, last.pointer, maxBlock);
      ReclaimedInGaps(head, prev, maxBlock);
      GapLayout(lo, last.pointer, maxBlock);
      forall s | s in a + g
        ensures InSomeGap(head, ws, s)
      {
        if s in a {
          assert InSomeGap(head, prev, s);
          var k :| 0 <= k < |prev| && HeadAfter(head, prev[..k]) <= s.offset
                   && s.offset + SlotSize(s.cls) <= prev[k].pointer;
          assert prev[..k] == ws[..k] && prev[k] == ws[k];
        } else {
          var j :| 0 <= j < |g| && g[j] == s;
          assert ws[..|ws| - 1] == prev;
          assert HeadAfter(head, ws[..|ws| - 1]) <= s.offset;
        }
      }
    }
  }

  lemma {:induction false} ReclaimedClasses(head: int, ws: seq<Entry>, maxBlock: nat)
    ensures forall s :: s in Reclaimed(head, ws, maxBlock) ==> s.cls == maxBlock || s.cls == 0
    ensures ClassesBelow(Reclaimed(head, ws, maxBlock), maxBlock + 1)
    decreases |ws|
  {
    if ws != [] {
      var prev := ws[..|ws| - 1];
      ReclaimedClasses(head, prev, maxBlock);
      GapLayout(HeadAfter(head, prev), ws[|ws| - 1].pointer, maxBlock);
    }
  }

  /** One round of the reconstruction loop, on the pushed free lists. */
  lemma ReclaimedPush(fl: FreeLists, head: int, ws: seq<Entry>, i: nat, maxBlock: nat)
    requires i < |ws| && maxBlock < |fl|
    ensures ClassesBelow(Reclaimed(head, ws[..i], maxBlock), |fl|)
    ensures ClassesBelow(Reclaimed(head, ws[..i + 1], maxBlock), |fl|)
    ensures var lo := HeadAfter(head, ws[..i]);
            var hi := ws[i].pointer;
            var a := Push(fl, Reclaimed(head, ws[..i], maxBlock));
            ClassesBelow(Carve(lo, hi, maxBlock), |a|)
            && ClassesBelow(Carve(CarveEnd(lo, hi, maxBlock), hi, 0), |a|)
            && Push(Push(a, Carve(lo, hi, maxBlock)), Carve(CarveEnd(lo, hi, maxBlock), hi, 0))
               == Push(fl, Reclaimed(head, ws[..i + 1], maxBlock))
  {
    var lo := HeadAfter(head, ws[..i]);
    var hi := ws[i].pointer;
    var big := Carve(lo, hi, maxBlock);
    var small := Carve(CarveEnd(lo, hi, maxBlock), hi, 0);
    var r := Reclaimed(head, ws[..i], maxBlock);
    ReclaimedClasses(head, ws[..i], maxBlock);
    ReclaimedClasses(head, ws[..i + 1], maxBlock);
    CarveLayout(lo, hi, maxBlock);
    CarveLayout(CarveEnd(lo, hi, maxBlock), hi, 0);
    assert ws[..i + 1][..i] == ws[..i];
    assert Reclaimed(head, ws[..i + 1], maxBlock) == r + (big + small);
    PushConcat(fl, r, big + small);
    PushConcat(Push(fl, r), big, small);
  }
}
