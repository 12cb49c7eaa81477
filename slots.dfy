/**
 The availability record the monitor passes around: the dict
 `{"date": ..., "status": ...}` built by the extractor, and the two status
 strings it ever writes into it.
 */
module Slots {

  /** The status of a record that offers bookable places. */
  const FREE: string := "Свободно"
  /** The status of every other record. */
  const NO_PLACES: string := "Нет мест"

  /** One availability record: a free-text date label and a status string. */
  datatype Slot = Slot(date: string, status: string)

  /** `any(s.get("status") == "Свободно" for s in slots)`. */
  predicate HasFree(slots: seq<Slot>)
  {
    exists k :: 0 <= k < |slots| && slots[k].status == FREE
  }

  /** `[s for s in slots if s.get("status") == "Свободно"]`. */
  function FreeSlots(slots: seq<Slot>): (r: seq<Slot>)
    ensures |r| <= |slots|
    ensures forall k :: 0 <= k < |r| ==> r[k].status == FREE && r[k] in slots
  {
    if slots == [] then []
    else if slots[0].status == FREE then [slots[0]] + FreeSlots(slots[1..])
    else FreeSlots(slots[1..])
  }

  /** Filtering keeps the records of each part in their order. */
  lemma {:induction false} FreeSlotsAppend(a: seq<Slot>, b: seq<Slot>)
    ensures FreeSlots(a + b) == FreeSlots(a) + FreeSlots(b)
  {
    if a != [] {
      assert (a + b)[1..] == a[1..] + b;
      FreeSlotsAppend(a[1..], b);
    } else {
      assert a + b == b;
    }
  }

  /** Some record is free exactly when the filtered list is non-empty. */
  lemma {:induction false} HasFreeIff(slots: seq<Slot>)
    ensures HasFree(slots) <==> FreeSlots(slots) != []
  {
    if slots != [] {
      HasFreeIff(slots[1..]);
      if HasFree(slots) && slots[0].status != FREE {
        var k :| 0 <= k < |slots| && slots[k].status == FREE;
        assert slots[1..][k - 1].status == FREE;
      }
      if HasFree(slots[1..]) {
        var k :| 0 <= k < |slots[1..]| && slots[1..][k].status == FREE;
        assert slots[k + 1].status == FREE;
      }
    }
  }

  /** Every free record of the input appears in the filtered list. */
  lemma {:induction false} FreeSlotsComplete(slots: seq<Slot>, k: nat)
    requires k < |slots| && slots[k].status == FREE
    ensures slots[k] in FreeSlots(slots)
  {
    if k > 0 {
      FreeSlotsComplete(slots[1..], k - 1);
    }
  }
}
