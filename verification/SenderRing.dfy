/** The ring of send slots between the prefill producer and its sender thread (ds4_distributed.c).
    The producer fills the slot at tail outside the lock while the sender reads the one at head. */
module SenderRing {
  import opened Arith

  datatype Acquired = MustWait | Stopped | Slot(index: nat)

  /** The slot i places after head. */
  function At(head: nat, i: nat, n: nat): (slot: nat)
    requires 0 < n
    ensures slot < n
  {
    Wrap(head + i, n)
  }

  lemma NextSlot(head: nat, i: nat, n: nat)
    requires 0 < n
    ensures (At(head, i, n) + 1) % n == At(head, i + 1, n)
  {
    WrapSucc(head + i, n);
  }

  lemma SlotsDiffer(head: nat, i: nat, j: nat, n: nat)
    requires i < j < i + n
    ensures At(head, i, n) != At(head, j, n)
  {
    WrapDistinct(head + i, head + j, n);
  }

  /** Advancing head by one moves every slot number one place closer. */
  lemma HeadAdvances(head: nat, i: nat, n: nat)
    requires head < n
    ensures At((head + 1) % n, i, n) == At(head, i + 1, n)
  {
    WrapIsMod(head + 1, n);
    WrapIsMod((head + 1) % n + i, n);
    WrapAdd(head + 1, i, n);
  }

  /** The slots from head to tail hold contents, oldest first. */
  ghost predicate Represents<T>(slots: seq<T>, head: nat, tail: nat, queued: nat, contents: seq<T>) {
    && 0 < |slots| && head < |slots|
    && queued == |contents| <= |slots|
    && tail == At(head, queued, |slots|)
    && forall i :: 0 <= i < queued ==> slots[At(head, i, |slots|)] == contents[i]
  }

  lemma StartsEmpty<T>(slots: seq<T>)
    requires slots != []
    ensures Represents(slots, 0, 0, 0, [])
  {
  }

  lemma TailIsFree<T>(slots: seq<T>, head: nat, tail: nat, queued: nat, contents: seq<T>)
    requires Represents(slots, head, tail, queued, contents) && queued < |slots|
    ensures tail < |slots| && forall i :: 0 <= i < queued ==> At(head, i, |slots|) != tail
  {
    hide At;
    forall i | 0 <= i < queued
      ensures At(head, i, |slots|) != tail
    {
      SlotsDiffer(head, i, queued, |slots|);
    }
  }

  /** The slot at tail is not queued, so that writing it does not show. */
  lemma FillKeeps<T>(slots: seq<T>, head: nat, tail: nat, queued: nat, contents: seq<T>, chunk: T)
    requires Represents(slots, head, tail, queued, contents) && queued < |slots|
    ensures tail < |slots| && Represents(slots[tail := chunk], head, tail, queued, contents)
  {
    hide At;
    TailIsFree(slots, head, tail, queued, contents);
  }

  lemma EnqueueAppends<T>(slots: seq<T>, head: nat, tail: nat, queued: nat, contents: seq<T>)
    requires Represents(slots, head, tail, queued, contents) && queued < |slots|
    ensures tail < |slots|
    ensures Represents(slots, head, (tail + 1) % |slots|, queued + 1, contents + [slots[tail]])
  {
    hide At;
    NextSlot(head, queued, |slots|);
  }

  lemma HeadIsOldest<T>(slots: seq<T>, head: nat, tail: nat, queued: nat, contents: seq<T>)
    requires Represents(slots, head, tail, queued, contents) && queued > 0
    ensures head < |slots| && slots[head] == contents[0]
  {
    assert At(head, 0, |slots|) == head;
  }

  lemma ReleaseDrops<T>(slots: seq<T>, head: nat, tail: nat, queued: nat, contents: seq<T>)
    requires Represents(slots, head, tail, queued, contents) && queued > 0
    ensures Represents(slots, (head + 1) % |slots|, tail, queued - 1, contents[1..])
  {
    hide At;
    var n, next := |slots|, (head + 1) % |slots|;
    forall k | 0 <= k < queued
      ensures At(next, k, n) == At(head, k + 1, n)
    {
      HeadAdvances(head, k, n);
    }
  }

  /** What the producer finds when it asks for a slot. */
  function AcquireOutcome(stop: bool, queued: nat, n: nat, tail: nat): Acquired {
    if stop then Stopped else if queued == n then MustWait else Slot(tail)
  }

  /** What the sender finds when it asks for the oldest chunk. */
  function FrontOutcome(stop: bool, producerDone: bool, queued: nat, head: nat): Acquired {
    if stop || (queued == 0 && producerDone) then Stopped else if queued == 0 then MustWait else Slot(head)
  }

  class Ring<T> {
    const slots: array<T>
    var head: nat
    var tail: nat
    var queued: nat
    var stop: bool
    var producerDone: bool
    /** The queued chunks, oldest first. */
    ghost var contents: seq<T>

    ghost predicate Valid()
      reads this, slots
    {
      Represents(slots[..], head, tail, queued, contents)
    }

    /** dist_prefill_sender_init. */
    constructor (n: nat, blank: T)
      requires 0 < n
      ensures Valid() && contents == [] && slots.Length == n && fresh(slots) && !stop && !producerDone
    {
      slots := new T[n](_ => blank);
      head, tail, queued, stop, producerDone, contents := 0, 0, 0, false, false, [];
      new;
      StartsEmpty(slots[..]);
    }

    /** dist_prefill_sender_acquire_slot: the slot handed out is none of the queued ones. */
    method AcquireSlot() returns (r: Acquired)
      requires Valid()
      ensures r == AcquireOutcome(stop, |contents|, slots.Length, tail)
      ensures (r.Stopped? <==> stop) && (r.MustWait? <==> !stop && |contents| == slots.Length)
      ensures r.Slot? ==> r.index == tail
      ensures r.Slot? ==> r.index < slots.Length
      ensures r.Slot? ==> forall i :: 0 <= i < queued ==> At(head, i, slots.Length) != r.index
    {
      hide At;
      if !stop && queued == slots.Length {
        return MustWait;
      }
      if stop {
        return Stopped;
      }
      TailIsFree(slots[..], head, tail, queued, contents);
      return Slot(tail);
    }

    /** The producer fills its slot without the lock; the queue does not notice. */
    method Fill(chunk: T)
      requires Valid() && queued < slots.Length
      modifies slots
      ensures Valid() && slots[..] == old(slots[..])[tail := chunk]
    {
      FillKeeps(slots[..], head, tail, queued, contents, chunk);
      ghost var was := slots[..];
      slots[tail] := chunk;
      assert slots[..] == was[tail := chunk];
    }

    /** dist_prefill_sender_enqueue_slot. */
    method EnqueueSlot() returns (ok: bool)
      requires Valid() && queued < slots.Length
      modifies this
      ensures Valid() && ok == !old(stop) && stop == old(stop) && producerDone == old(producerDone)
      ensures contents == if ok then old(contents) + [slots[old(tail)]] else old(contents)
    {
      if stop {
        return false;
      }
      EnqueueAppends(slots[..], head, tail, queued, contents);
      contents := contents + [slots[tail]];
      tail := (tail + 1) % slots.Length;
      queued := queued + 1;
      return true;
    }

    /** The sender's turn before it sends: wait, end, or read the oldest queued slot. */
    method Front() returns (r: Acquired)
      requires Valid()
      ensures r == FrontOutcome(stop, producerDone, |contents|, head)
      ensures r.Stopped? <==> stop || (contents == [] && producerDone)
      ensures r.MustWait? <==> !stop && contents == [] && !producerDone
      ensures r.Slot? ==> contents != []
      ensures r.Slot? ==> r.index < slots.Length && slots[r.index] == contents[0]
    {
      if !stop && queued == 0 && !producerDone {
        return MustWait;
      }
      if stop || (queued == 0 && producerDone) {
        return Stopped;
      }
      HeadIsOldest(slots[..], head, tail, queued, contents);
      return Slot(head);
    }

    /** The sender's turn after it sent the oldest slot, or failed to. */
    method Sent(ok: bool)
      requires Valid() && contents != []
      modifies this
      ensures Valid() && producerDone == old(producerDone)
      ensures stop == (old(stop) || !ok)
      ensures contents == if ok then old(contents)[1..] else old(contents)
    {
      if !ok {
        stop := true;
        return;
      }
      ReleaseDrops(slots[..], head, tail, queued, contents);
      head := (head + 1) % slots.Length;
      queued := queued - 1;
      contents := contents[1..];
    }

    /** dist_prefill_sender_finish. */
    method Finish()
      requires Valid()
      modifies this`producerDone
      ensures Valid() && producerDone
    {
      producerDone := true;
    }

    /** dist_prefill_sender_cancel. */
    method Cancel()
      requires Valid()
      modifies this`producerDone, this`stop
      ensures Valid() && producerDone && stop
    {
      producerDone, stop := true, true;
    }
  }
}
