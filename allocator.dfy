/**
 * The block allocator's free lists as values: one LIFO stack of offsets per
 * size class, plus the bump pointer `head`. The `Database` class in store.dfy
 * performs these steps in place and is proved against the functions here.
 */
module Allocator {
  import opened Blocks
  import opened Records

  /** `freelists[b]` is the stack of free offsets of class `b`; its top is the last element. */
  type FreeLists = seq<seq<int>>

  /**
   * The padding loop of index.js as written: push empty lists while there are
   * fewer than `cls` of them. It stops one short: when class `cls` had no list,
   * it still has none afterwards, and the source's `freelists[cls]` is undefined.
   */
  function PadAsWritten(fl: FreeLists, cls: nat): (r: FreeLists)
    ensures |r| == if cls <= |fl| then |fl| else cls
    ensures r[..|fl|] == fl
    ensures cls < |r| <==> cls < |fl|
    decreases cls - |fl|
  {
    if |fl| >= cls then fl else PadAsWritten(fl + [[]], cls)
  }

  /**
   * The padding as intended: push empty lists until class `cls` has one.
   * Existing lists are kept and every added list is empty.
   */
  function Pad(fl: FreeLists, cls: nat): (r: FreeLists)
    ensures cls < |r|
    ensures |r| == if cls < |fl| then |fl| else cls + 1
    ensures r[..|fl|] == fl
    ensures forall b :: |fl| <= b < |r| ==> r[b] == []
    decreases cls + 1 - |fl|
  {
    if cls < |fl| then fl else Pad(fl + [[]], cls)
  }

  /** The free lists of a new database: six empty lists (index.js:112). */
  const InitialFreeLists: FreeLists := [[], [], [], [], [], []]

  datatype Allocation = Allocation(offset: int, freelists: FreeLists, head: int)

  /**
   * `alloc(self, block)`: reuse the most recently freed slot of the class, or
   * else claim a fresh slot at `head` and advance `head` past it.
   */
  function AllocSpec(fl: FreeLists, head: int, cls: nat): (a: Allocation)
    ensures |a.freelists| == |Pad(fl, cls)|
    ensures forall b :: 0 <= b < |a.freelists| && b != cls ==>
              a.freelists[b] == if b < |fl| then fl[b] else []
    ensures cls < |fl| && fl[cls] != [] ==>
              a.offset == fl[cls][|fl[cls]| - 1] && a.freelists[cls] == fl[cls][..|fl[cls]| - 1] && a.head == head
    ensures !(cls < |fl| && fl[cls] != []) ==>
              a.offset == head && a.freelists[cls] == [] && a.head == head + SlotSize(cls)
  {
    var p := Pad(fl, cls);
    var list := p[cls];
    if list == [] then Allocation(head, p, head + SlotSize(cls))
    else Allocation(list[|list| - 1], p[cls := list[..|list| - 1]], head)
  }

  /** Push a slot's offset onto the free list of its class. */
  function FreeSlot(fl: FreeLists, s: Slot): (r: FreeLists)
    requires s.cls < |fl|
    ensures |r| == |fl| && r[s.cls] == fl[s.cls] + [s.offset]
    ensures forall b :: 0 <= b < |fl| && b != s.cls ==> r[b] == fl[b]
  {
    fl[s.cls := fl[s.cls] + [s.offset]]
  }

  /** LIFO reuse: a freed slot is the next one its class hands out, and `head` stays put. */
  lemma AllocAfterFree(fl: FreeLists, head: int, s: Slot)
    requires s.cls < |fl|
    ensures AllocSpec(FreeSlot(fl, s), head, s.cls) == Allocation(s.offset, fl, head)
  {
    var fl' := FreeSlot(fl, s);
    var list := fl'[s.cls];
    assert list[..|list| - 1] == fl[s.cls];
    assert fl'[s.cls := fl[s.cls]] == fl;
  }

  /** Freeing the slot just taken from a non-empty list restores the lists. */
  lemma FreeAfterAlloc(fl: FreeLists, head: int, cls: nat)
    requires cls < |fl| && fl[cls] != []
    ensures var a := AllocSpec(fl, head, cls);
            FreeSlot(a.freelists, Slot(a.offset, cls)) == fl && a.head == head
  {
    var a := AllocSpec(fl, head, cls);
    var list := fl[cls];
    assert list[..|list| - 1] + [list[|list| - 1]] == list;
    assert FreeSlot(a.freelists, Slot(a.offset, cls)) == fl;
  }

  predicate ClassesBelow(slots: seq<Slot>, n: nat)
  {
    forall i :: 0 <= i < |slots| ==> slots[i].cls < n
  }

  /** Push every slot of `slots`, in order, onto the list of its class. */
  function Push(fl: FreeLists, slots: seq<Slot>): (r: FreeLists)
    requires ClassesBelow(slots, |fl|)
    ensures |r| == |fl|
    decreases |slots|
  {
    if slots == [] then fl else Push(FreeSlot(fl, slots[0]), slots[1..])
  }

  /** The offsets of the slots of class `cls`, in order. */
  function OffsetsOf(slots: seq<Slot>, cls: nat): seq<int>
  {
    if slots == [] then []
    else (if slots[0].cls == cls then [slots[0].offset] else []) + OffsetsOf(slots[1..], cls)
  }

  /** Pushing a sequence of slots appends, to each class's list, exactly that class's offsets in order. */
  lemma {:induction false} PushAppends(fl: FreeLists, slots: seq<Slot>, cls: nat)
    requires ClassesBelow(slots, |fl|) && cls < |fl|
    ensures Push(fl, slots)[cls] == fl[cls] + OffsetsOf(slots, cls)
    decreases |slots|
  {
    if slots != [] {
      var fl' := FreeSlot(fl, slots[0]);
      PushAppends(fl', slots[1..], cls);
    }
  }

  lemma {:induction false} PushConcat(fl: FreeLists, a: seq<Slot>, b: seq<Slot>)
    requires ClassesBelow(a, |fl|) && ClassesBelow(b, |fl|)
    ensures ClassesBelow(a + b, |fl|)
    ensures Push(fl, a + b) == Push(Push(fl, a), b)
    decreases |a|
  {
    if a == [] {
      assert a + b == b;
    } else {
      assert (a + b)[0] == a[0] && (a + b)[1..] == a[1..] + b;
      PushConcat(FreeSlot(fl, a[0]), a[1..], b);
    }
  }
}
