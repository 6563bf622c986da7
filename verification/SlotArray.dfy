/**
 The indirection array of a hash table with its free queue, magic number and active counter
 (struct mchash_table in ofcdriver/include/mchash.h).  A pointer into the array is an index, and
 NULL is -1.
 */
module SlotArray {
  import opened Common
  import opened Magic
  import opened Bucket

  /** array_indirect_entry. */
  datatype Slot = Slot(prev: int, next: int, magic: nat, node: TableLink?)

  /** What a slot holds, leaving the free queue's links aside. */
  datatype Entry = Entry(magic: nat, node: TableLink?)

  class SlotArray {
    const slots: array<Slot>
    var freeHead: int   // free_q.next_p
    var freeTail: int   // free_q.prev_p
    var magicNo: nat
    var active: nat
    ghost var freeQ: seq<nat>

    ghost predicate Queue(q: seq<nat>)
      reads slots
    {
      && Distinct(q) && (forall k :: 0 <= k < |q| ==> q[k] < slots.Length)
      && (forall k {:trigger slots[q[k]].next} :: 0 <= k < |q| ==> slots[q[k]].next == IndexAt(q, k + 1))
      && (forall k {:trigger slots[q[k]].prev} :: 0 <= k < |q| ==> slots[q[k]].prev == IndexAt(q, k - 1))
    }

    ghost predicate Valid()
      reads this, slots
    {
      && Queue(freeQ) && freeHead == IndexAt(freeQ, 0) && freeTail == IndexAt(freeQ, |freeQ| - 1)
      && (forall i :: i in freeQ ==> slots[i].magic == 0 && slots[i].node == null)
      && active + |freeQ| == slots.Length && 1 <= magicNo < UINT32
    }

    ghost function Contents(): (c: seq<Entry>)
      reads slots
      ensures |c| == slots.Length
    {
      seq(slots.Length, i requires 0 <= i < slots.Length reads slots => Entry(slots[i].magic, slots[i].node))
    }

    /** mchash_table_create: every slot free, in order, with magic 0; magics start at 1. */
    constructor (max: nat)
      requires max > 0
      ensures Valid() && fresh(slots) && slots.Length == max
      ensures freeQ == seq(max, i => i) && magicNo == 1 && active == 0
      ensures Contents() == seq(max, _ => Entry(0, null))
    {
      slots := new Slot[max](_ => Slot(-1, -1, 0, null));
      freeHead, freeTail := 0, max - 1;
      magicNo, active := 1, 0;
      freeQ := seq(max, i => i);
      new;
      var ii := 0;
      while ii < max
        modifies slots
        invariant ii <= max
        invariant forall i :: 0 <= i < ii ==> slots[i] == Slot(i - 1, if i == max - 1 then -1 else i + 1, 0, null)
        invariant forall i :: ii <= i < max ==> slots[i] == Slot(-1, -1, 0, null)
      {
        slots[ii] := Slot(ii - 1, if ii != max - 1 then ii + 1 else -1, 0, null);
        ii := ii + 1;
      }
      assert forall i :: 0 <= i < max ==> freeQ[i] == i;
      assert Queue(freeQ);
      assert forall i :: 0 <= i < max ==> Contents()[i] == Entry(0, null);
    }

    /** The head of the free queue leaves it (mchash.h, lines 304 to 309). */
    method Unqueue() returns (i: nat)
      requires Valid() && freeHead != -1
      modifies this`freeHead, this`freeTail, this`freeQ, slots
      ensures old(freeQ) != [] && i == old(freeQ)[0] && i < slots.Length && freeQ == old(freeQ)[1..] && i !in freeQ
      ensures Queue(freeQ) && freeHead == IndexAt(freeQ, 0) && freeTail == IndexAt(freeQ, |freeQ| - 1)
      ensures Contents() == old(Contents())
    {
      i := freeHead;
      assert freeQ[0] in freeQ;
      freeHead := slots[i].next;
      if freeHead == -1 {
        freeTail := -1;
      } else {
        slots[freeHead] := slots[freeHead].(prev := -1);
      }
      freeQ := freeQ[1..];
    }

    /** Taking the first free slot and giving it the next magic (mchash.h, lines 304 to 313). */
    method Take() returns (i: nat)
      requires Valid() && freeHead != -1
      modifies this, slots
      ensures Valid() && old(freeQ) != [] && i == old(freeQ)[0] && i < slots.Length && freeQ == old(freeQ)[1..]
      ensures magicNo == NextMagic(old(magicNo)) && active == old(active) + 1
      ensures Contents() == old(Contents())[i := Entry(old(magicNo), null)]
    {
      assert freeQ[0] in freeQ;
      i := Unqueue();
      assert forall j :: 0 <= j < slots.Length ==> Contents()[j] == Entry(slots[j].magic, slots[j].node);
      slots[i] := slots[i].(magic := magicNo);
      magicNo := if magicNo == UINT32 - 1 then 1 else magicNo + 1;
      active := active + 1;
    }

    method SetNode(i: nat, node: TableLink)
      requires Valid() && i < slots.Length && i !in freeQ
      modifies slots
      ensures Valid() && Contents() == old(Contents())[i := Entry(old(slots[i].magic), node)]
    {
      slots[i] := slots[i].(node := node);
    }

    method Clear(i: nat)
      requires Valid() && i < slots.Length && i !in freeQ
      modifies slots
      ensures Valid() && Contents() == old(Contents())[i := Entry(0, null)]
    {
      slots[i] := slots[i].(magic := 0, node := null);
    }

    /** Putting a cleared slot at the end of the free queue (mchash.h, lines 395 to 409). */
    method Release(i: nat)
      requires Valid() && i < slots.Length && i !in freeQ && active > 0
      requires slots[i].magic == 0 && slots[i].node == null
      modifies this, slots
      ensures Valid() && freeQ == old(freeQ) + [i] && magicNo == old(magicNo) && active == old(active) - 1
      ensures Contents() == old(Contents())
    {
      slots[i] := slots[i].(next := -1);
      active := active - 1;
      if freeTail != -1 {
        slots[i] := slots[i].(prev := freeTail);
        slots[freeTail] := slots[freeTail].(next := i);
        freeTail := i;
      } else {
        slots[i] := slots[i].(prev := -1);
        freeTail := i;
        freeHead := i;
      }
      freeQ := freeQ + [i];
    }
  }

  /** The k-th index of q, or -1 outside it. */
  function IndexAt(q: seq<nat>, k: int): int {
    if 0 <= k < |q| then q[k] else -1
  }
}
