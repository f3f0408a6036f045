/**
 The packet FIFO between the receive loop and USB: 128 slots, two counters that run
 freely around 32 bits, one producer and one consumer
 (firmware/bluetooth_rxtx/ubertooth_usb.c).
*/
module UsbFifo {
  import opened Words

  const SLOTS: nat := 128
  const WRAP: nat := 0x1_0000_0000

  // ----- One call at a time: a queue of 127 -----

  type Packet = seq<u8>

  /** The contents of n slots from a counter on. */
  function Held(slots: seq<Packet>, head: nat, n: nat): (q: seq<Packet>)
    requires |slots| == SLOTS
    ensures |q| == n
  {
    seq(n, k requires 0 <= k < n => slots[(head + k) % SLOTS])
  }

  lemma HeldPush(slots: seq<Packet>, head: nat, n: nat, t: nat, packet: Packet)
    requires |slots| == SLOTS && n < SLOTS && t == (head + n) % SLOTS
    ensures Held(slots[t := packet], head, n + 1) == Held(slots, head, n) + [packet]
  {
    forall k | 0 <= k < n + 1 ensures Held(slots[t := packet], head, n + 1)[k] == (Held(slots, head, n) + [packet])[k] {
      SlotOf(head, n + 1, k, t);
    }
  }

  lemma HeldPop(slots: seq<Packet>, head: u32, n: nat)
    requires |slots| == SLOTS && n > 0
    ensures Held(slots, head, n) == [slots[head % SLOTS]] + Held(slots, (head + 1) % WRAP, n - 1)
  {
    forall k | 0 < k < n ensures Held(slots, head, n)[k] == Held(slots, (head + 1) % WRAP, n - 1)[k - 1] {
      NextSlot(head, k - 1);
    }
  }

  class Fifo {
    const fifo: array<Packet>
    var head: u32
    var tail: u32

    ghost function Length(): (n: nat)
      reads this
      ensures n < WRAP
    {
      (tail - head) % WRAP
    }

    ghost predicate Valid()
      reads this
    {
      fifo.Length == SLOTS && Length() < SLOTS
    }

    /** The packets in the queue, oldest first. */
    ghost function Contents(): (q: seq<Packet>)
      requires Valid()
      reads this, fifo
    {
      Held(fifo[..], head, Length())
    }

    constructor ()
      ensures Valid() && fresh(fifo) && Contents() == []
    {
      fifo := new Packet[SLOTS](_ => []);
      head, tail := 0, 0;
    }

    /** usb_enqueue, and the caller's filling of the slot it gets. */
    method Enqueue(packet: Packet) returns (ok: bool)
      requires Valid()
      modifies this, fifo
      ensures Valid()
      ensures ok == (|old(Contents())| < 127)
      ensures Contents() == if ok then old(Contents()) + [packet] else old(Contents())
    {
      var h := head % SLOTS;
      var t := tail % SLOTS;
      var n := (t + 1) % SLOTS;
      Counters(head, tail);
      if h == n {
        return false;
      }
      Grows(head, tail);
      HeldPush(fifo[..], head, Length(), t, packet);
      tail := (tail + 1) % WRAP;
      fifo[t] := packet;
      return true;
    }

    method Dequeue() returns (found: bool, packet: Packet)
      requires Valid()
      modifies this
      ensures Valid()
      ensures found == (old(Contents()) != [])
      ensures found ==> [packet] + Contents() == old(Contents())
      ensures !found ==> Contents() == old(Contents())
    {
      var h := head % SLOTS;
      var t := tail % SLOTS;
      Counters(head, tail);
      if h == t {
        return false, [];
      }
      Shrinks(head, tail);
      HeldPop(fifo[..], head, Length());
      head := (head + 1) % WRAP;
      return true, fifo[h];
    }
  }

  lemma TailSlot(head: u32, tail: u32, n: nat)
    requires n == (tail - head) % WRAP
    ensures tail % SLOTS == (head + n) % SLOTS
  {}

  lemma SlotSum(head: nat, n: nat)
    requires n < SLOTS
    ensures (head + n) % SLOTS == if head % SLOTS + n < SLOTS then head % SLOTS + n else head % SLOTS + n - SLOTS
  {}

  lemma Counters(head: u32, tail: u32)
    requires (tail - head) % WRAP < SLOTS
    ensures var n := (tail - head) % WRAP;
            && (head % SLOTS == (tail % SLOTS + 1) % SLOTS <==> n == SLOTS - 1)
            && (head % SLOTS == tail % SLOTS <==> n == 0)
            && tail % SLOTS == (head + n) % SLOTS
  {
    var n := (tail - head) % WRAP;
    TailSlot(head, tail, n);
    SlotSum(head, n);
    SlotSum(tail % SLOTS, 1);
  }

  lemma Grows(head: u32, tail: u32)
    requires (tail - head) % WRAP < SLOTS
    ensures ((tail + 1) % WRAP - head) % WRAP == (tail - head) % WRAP + 1
  {}

  lemma Shrinks(head: u32, tail: u32)
    requires 0 < (tail - head) % WRAP < SLOTS
    ensures (tail - (head + 1) % WRAP) % WRAP == (tail - head) % WRAP - 1
  {}

  lemma NextSlot(head: u32, k: nat)
    ensures ((head + 1) % WRAP + k) % SLOTS == (head + (k + 1)) % SLOTS
  {}

  lemma SlotOf(head: nat, n: nat, k: nat, t: nat)
    requires 0 < n <= SLOTS && k < n && t == (head + (n - 1)) % SLOTS
    ensures (head + k) % SLOTS == t <==> k == n - 1
  {}

  // ----- Two callers at once -----

  /**
   Where a caller is between its reads of the two counters and its increment of one;
   seen is history: how many slots had come back (for the producer) or been handed out
   (for the consumer) when it read the other side's counter.
  */
  datatype Caller = Idle | ReadHead(h: nat, seen: nat) | ReadBoth(h: nat, t: nat, seen: nat)

  /** The counters, the two callers, and the slots handed out so far on either side. */
  datatype Shared = Shared(head: u32, tail: u32, producer: Caller, consumer: Caller, issued: seq<nat>, returned: seq<nat>)

  datatype Turn = Producer | Consumer

  /** The next step of usb_enqueue: a read of head, a read of tail, or the test with the increment. */
  function ProducerStep(s: Shared): Shared {
    match s.producer
    case Idle => s.(producer := ReadHead(s.head % SLOTS, |s.returned|))
    case ReadHead(h, seen) => s.(producer := ReadBoth(h, s.tail % SLOTS, seen))
    case ReadBoth(h, t, _) =>
      if h == (t + 1) % SLOTS then s.(producer := Idle)
      else s.(producer := Idle, tail := (s.tail + 1) % WRAP, issued := s.issued + [t])
  }

  /** The next step of dequeue. */
  function ConsumerStep(s: Shared): Shared {
    match s.consumer
    case Idle => s.(consumer := ReadHead(s.head % SLOTS, 0))
    case ReadHead(h, _) => s.(consumer := ReadBoth(h, s.tail % SLOTS, |s.issued|))
    case ReadBoth(h, t, _) =>
      if h == t then s.(consumer := Idle)
      else s.(consumer := Idle, head := (s.head + 1) % WRAP, returned := s.returned + [h])
  }

  function Step(s: Shared, turn: Turn): Shared {
    match turn
    case Producer => ProducerStep(s)
    case Consumer => ConsumerStep(s)
  }

  const START := Shared(0, 0, Idle, Idle, [], [])

  function Run(s: Shared, turns: seq<Turn>): Shared
    decreases |turns|
  {
    if turns == [] then s else Run(Step(s, turns[0]), turns[1..])
  }

  /** The counters, and the slots in turn on both sides. */
  predicate Counted(s: Shared) {
    && s.head == |s.returned| % WRAP && s.tail == |s.issued| % WRAP
    && |s.returned| <= |s.issued| < |s.returned| + SLOTS
    && (forall k :: 0 <= k < |s.issued| ==> s.issued[k] == k % SLOTS)
    && (forall k :: 0 <= k < |s.returned| ==> s.returned[k] == k % SLOTS)
  }

  /** What the producer has read: the head may be old, the tail is not. */
  predicate ProducerKnows(c: Caller, issued: nat, returned: nat) {
    c != Idle ==>
      && c.h == c.seen % SLOTS && c.seen <= returned && issued < c.seen + SLOTS
      && (c.ReadBoth? ==> c.t == issued % SLOTS)
  }

  /** What the consumer has read: the tail may be old, the head is not. */
  predicate ConsumerKnows(c: Caller, issued: nat, returned: nat) {
    c != Idle ==>
      && c.h == returned % SLOTS
      && (c.ReadBoth? ==> c.t == c.seen % SLOTS && returned <= c.seen <= issued)
  }

  /** What every interleaving keeps. */
  predicate Sound(s: Shared) {
    && Counted(s)
    && ProducerKnows(s.producer, |s.issued|, |s.returned|) && ConsumerKnows(s.consumer, |s.issued|, |s.returned|)
  }

  lemma CounterSlot(n: nat)
    ensures n % WRAP % SLOTS == n % SLOTS
    ensures (n % WRAP + 1) % WRAP == (n + 1) % WRAP
  {}

  /** The test for a full queue passes only while there is room, however old the head is that it used. */
  lemma RoomLeft(issued: nat, seen: nat)
    requires seen <= issued < seen + SLOTS
    ensures seen % SLOTS == (issued % SLOTS + 1) % SLOTS <==> issued == seen + (SLOTS - 1)
  {}

  /** The test for an empty queue passes only while there is a slot to take. */
  lemma SlotLeft(returned: nat, seen: nat)
    requires returned <= seen < returned + SLOTS
    ensures returned % SLOTS == seen % SLOTS <==> returned == seen
  {}

  lemma ProducerSound(s: Shared)
    requires Sound(s)
    ensures Sound(ProducerStep(s))
  {
    CounterSlot(|s.returned|);
    CounterSlot(|s.issued|);
    if s.producer.ReadBoth? {
      RoomLeft(|s.issued|, s.producer.seen);
    }
  }

  lemma ConsumerSound(s: Shared)
    requires Sound(s)
    ensures Sound(ConsumerStep(s))
  {
    CounterSlot(|s.returned|);
    CounterSlot(|s.issued|);
    if s.consumer.ReadBoth? {
      SlotLeft(|s.returned|, s.consumer.seen);
    }
  }

  /** Every interleaving of the two callers keeps the counters sound. */
  lemma {:induction false} RunSound(s: Shared, turns: seq<Turn>)
    requires Sound(s)
    ensures Sound(Run(s, turns))
    decreases |turns|
  {
    if turns != [] {
      ProducerSound(s);
      ConsumerSound(s);
      RunSound(Step(s, turns[0]), turns[1..]);
    }
  }

  /**
   However the two callers interleave, and however often the counters wrap: slots come
   back in the order they were handed out, and at most 127 are outstanding.
  */
  lemma FirstInFirstOut(turns: seq<Turn>)
    ensures var s := Run(START, turns); s.returned <= s.issued && |s.issued| - |s.returned| <= 127
  {
    RunSound(START, turns);
  }

  /**
   A slot that is handed out to the producer is none of those that have not come back,
   and not the one that came back last.
  */
  lemma NoSlotTwice(turns: seq<Turn>, k: nat)
    requires var s := Run(START, turns); ProducerStep(s).issued != s.issued && |s.returned| <= k + 1 && k < |s.issued|
    ensures var s := Run(START, turns); ProducerStep(s).issued[|s.issued|] != s.issued[k]
  {
    var s := Run(START, turns);
    RunSound(START, turns);
    RoomLeft(|s.issued|, s.producer.seen);
    SlotSum(k, |s.issued| - k);
  }

  /** The producer is refused exactly when 127 slots were outstanding at the time it read head. */
  lemma RefusedWhenFull(turns: seq<Turn>)
    requires Run(START, turns).producer.ReadBoth?
    ensures var s := Run(START, turns);
            ProducerStep(s).issued == s.issued <==> |s.issued| - s.producer.seen == 127
  {
    RunSound(START, turns);
    var s := Run(START, turns);
    RoomLeft(|s.issued|, s.producer.seen);
  }

  /** The consumer finds nothing exactly when every slot handed out by the time it read tail has come back. */
  lemma EmptyHanded(turns: seq<Turn>)
    requires Run(START, turns).consumer.ReadBoth?
    ensures var s := Run(START, turns);
            ConsumerStep(s).returned == s.returned <==> s.consumer.seen == |s.returned|
  {
    RunSound(START, turns);
    var s := Run(START, turns);
    SlotLeft(|s.returned|, s.consumer.seen);
  }
}
