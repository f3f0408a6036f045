/**
 The table of recently seen access addresses in promiscuous mode: 32 slots, the least
 frequently seen one of which is given up for a new address
 (firmware/bluetooth_rxtx/bluetooth_rxtx.c, see_aa and the end of cb_le_promisc).
*/
module AaTable {
  import opened Words

  const SIZE: nat := 32

  datatype Slot = Slot(aa: u32, count: nat)

  type Table = t: seq<Slot> | |t| == SIZE witness seq(SIZE, _ => Slot(0, 0))

  /** The first slot from i on that holds the address, or SIZE. */
  function Find(t: Table, aa: u32, i: nat): (k: nat)
    requires i <= SIZE
    ensures i <= k <= SIZE && (k < SIZE ==> t[k].aa == aa)
    ensures forall j :: i <= j < k ==> t[j].aa != aa
    decreases SIZE - i
  {
    if i == SIZE || t[i].aa == aa then i else Find(t, aa, i + 1)
  }

  /** The first slot of the smallest count among the first n. */
  function Least(t: Table, n: nat): (k: nat)
    requires 0 < n <= SIZE
    ensures k < n
    ensures forall j :: 0 <= j < n ==> t[k].count <= t[j].count
    ensures forall j :: 0 <= j < k ==> t[k].count < t[j].count
  {
    if n == 1 then 0
    else
      var k := Least(t, n - 1);
      if t[n - 1].count < t[k].count then n - 1 else k
  }

  /** The table after one more sighting. */
  function See(t: Table, aa: u32): Table {
    var k := Find(t, aa, 0);
    if k < SIZE then t[k := Slot(aa, t[k].count + 1)] else t[Least(t, SIZE) := Slot(aa, 1)]
  }

  /** The table after a stream of sightings, from the cleared one. */
  function After(s: seq<u32>): Table {
    if s == [] then seq(SIZE, _ => Slot(0, 0)) else See(After(s[..|s| - 1]), s[|s| - 1])
  }

  function Sightings(s: seq<u32>, aa: u32): nat {
    if s == [] then 0 else Sightings(s[..|s| - 1], aa) + if s[|s| - 1] == aa then 1 else 0
  }

  // ----- Used slots -----

  /** The used slots come first and hold different addresses; the others are clear. */
  predicate Packed(t: Table, used: nat) {
    && used <= SIZE
    && (forall i :: 0 <= i < used ==> t[i].count > 0)
    && (forall i :: used <= i < SIZE ==> t[i] == Slot(0, 0))
    && (forall i, j :: 0 <= i < j < used ==> t[i].aa != t[j].aa)
  }

  /** How many slots are used after a sighting. */
  function UsedAfter(t: Table, used: nat, aa: u32): nat {
    if used < SIZE && Find(t, aa, 0) >= used then used + 1 else used
  }

  /** A new address meets the first clear slot, by the search or by the eviction. */
  lemma ClearSlot(t: Table, used: nat, aa: u32)
    requires Packed(t, used)
    ensures Find(t, aa, 0) <= used || Find(t, aa, 0) == SIZE
    ensures used < SIZE ==> Least(t, SIZE) == used
  {
    var k, v := Find(t, aa, 0), Least(t, SIZE);
    if used < SIZE {
      assert t[used].aa == 0 && t[used].count == 0;
      assert t[v].count <= t[used].count;
      assert k < SIZE ==> t[k].aa == aa;
    }
  }

  lemma SeePacked(t: Table, used: nat, aa: u32)
    requires Packed(t, used)
    ensures Packed(See(t, aa), UsedAfter(t, used, aa))
  {
    ClearSlot(t, used, aa);
    var k := Find(t, aa, 0);
    if k < used {
      CountUp(t, used, k);
    } else {
      PutIn(t, used, aa, if k < SIZE then k else Least(t, SIZE));
    }
  }

  lemma CountUp(t: Table, used: nat, k: nat)
    requires Packed(t, used) && k < used
    ensures Packed(t[k := Slot(t[k].aa, t[k].count + 1)], used)
  {}

  lemma PutIn(t: Table, used: nat, aa: u32, k: nat)
    requires Packed(t, used) && k < SIZE && (k == used || used == SIZE)
    requires forall i :: 0 <= i < used ==> t[i].aa != aa
    ensures Packed(t[k := Slot(aa, 1)], if used < SIZE then used + 1 else used)
  {}

  function Used(s: seq<u32>): (used: nat)
    ensures Packed(After(s), used)
  {
    if s == [] then 0
    else
      var before := s[..|s| - 1];
      SeePacked(After(before), Used(before), s[|s| - 1]);
      UsedAfter(After(before), Used(before), s[|s| - 1])
  }

  // ----- Counts -----

  /** The slot's count is the number of sightings of its address from place j of the stream on. */
  predicate CountsFrom(s: seq<u32>, slot: Slot, j: nat) {
    j < |s| && s[j] == slot.aa && slot.count == Sightings(s[j..], slot.aa)
  }

  lemma SightingsStep(s: seq<u32>, x: u32, j: nat, aa: u32)
    requires j <= |s|
    ensures Sightings((s + [x])[j..], aa) == Sightings(s[j..], aa) + if x == aa then 1 else 0
  {
    assert (s + [x])[j..] == s[j..] + [x];
    assert (s[j..] + [x])[..|s[j..]|] == s[j..];
  }

  lemma {:induction false} SightingsSuffix(s: seq<u32>, j: nat, aa: u32)
    requires j <= |s|
    ensures Sightings(s[j..], aa) <= Sightings(s, aa)
    decreases |s|
  {
    if j < |s| {
      var before, x := s[..|s| - 1], s[|s| - 1];
      assert s == before + [x];
      SightingsSuffix(before, j, aa);
      SightingsStep(before, x, j, aa);
    }
  }

  /** What a sighting makes of a slot: it holds the address anew, or what it held, counted up if that is the address. */
  lemma SlotAfter(t: Table, used: nat, x: u32, i: nat)
    requires Packed(t, used) && i < UsedAfter(t, used, x)
    ensures See(t, x)[i] == Slot(x, 1) || (i < used && See(t, x)[i] == Slot(t[i].aa, t[i].count + if t[i].aa == x then 1 else 0))
  {
    ClearSlot(t, used, x);
    var k := Find(t, x, 0);
    if i < used && k < used {
      assert t[k].aa == x;
      assert i != k ==> t[i].aa != t[k].aa;
    }
  }

  lemma CountedAnew(before: seq<u32>, x: u32)
    ensures CountsFrom(before + [x], Slot(x, 1), |before|)
  {
    SightingsStep(before, x, |before|, x);
    assert before[|before|..] == [];
  }

  lemma CountedOn(before: seq<u32>, x: u32, slot: Slot, j: nat)
    requires CountsFrom(before, slot, j)
    ensures CountsFrom(before + [x], Slot(slot.aa, slot.count + if slot.aa == x then 1 else 0), j)
  {
    SightingsStep(before, x, j, slot.aa);
  }

  /** Every used slot counts the sightings of its address since it last entered the table. */
  lemma {:induction false} CountsAreSightings(s: seq<u32>, i: nat) returns (j: nat)
    requires i < Used(s)
    ensures CountsFrom(s, After(s)[i], j)
  {
    var before, x := s[..|s| - 1], s[|s| - 1];
    assert s == before + [x];
    SlotAfter(After(before), Used(before), x, i);
    if After(s)[i] == Slot(x, 1) {
      j := |before|;
      CountedAnew(before, x);
    } else {
      j := CountsAreSightings(before, i);
      CountedOn(before, x, After(before)[i], j);
    }
  }

  /** No count exceeds the true number of sightings. */
  lemma {:induction false} CountIsReal(s: seq<u32>, i: nat)
    requires i < Used(s)
    ensures 1 <= After(s)[i].count <= Sightings(s, After(s)[i].aa)
  {
    var j := CountsAreSightings(s, i);
    SightingsSuffix(s, j, After(s)[i].aa);
  }

  // ----- Few addresses -----

  function Addresses(s: seq<u32>): (all: set<u32>)
  {
    set x | x in s
  }

  /** The addresses in the used slots. */
  function Held(t: Table, used: nat): set<u32>
    requires used <= SIZE
  {
    set i | 0 <= i < used :: t[i].aa
  }

  lemma {:induction false} HeldSize(t: Table, used: nat)
    requires used <= SIZE && forall i, j :: 0 <= i < j < used ==> t[i].aa != t[j].aa
    ensures |Held(t, used)| == used
  {
    if used > 0 {
      HeldSize(t, used - 1);
      assert Held(t, used) == Held(t, used - 1) + {t[used - 1].aa};
    }
  }

  lemma FewAddressesStay(s: seq<u32>, n: nat)
    requires |Addresses(s)| <= SIZE && n <= |s|
    ensures |Addresses(s[..n])| <= SIZE
  {
    SubsetSize(Addresses(s[..n]), Addresses(s));
  }

  lemma {:induction false} SubsetSize(a: set<u32>, b: set<u32>)
    requires a <= b
    ensures |a| <= |b|
  {
    if a != {} {
      var x :| x in a;
      SubsetSize(a - {x}, b - {x});
    }
  }

  lemma HeldAt(t: Table, used: nat, x: u32)
    requires used <= SIZE
    ensures x in Held(t, used) <==> Find(t, x, 0) < used
  {}

  lemma HeldCountUp(t: Table, used: nat, k: nat)
    requires used <= SIZE && k < used
    ensures Held(t[k := Slot(t[k].aa, t[k].count + 1)], used) == Held(t, used)
  {
    var u := t[k := Slot(t[k].aa, t[k].count + 1)];
    assert forall i :: 0 <= i < used ==> u[i].aa == t[i].aa;
  }

  lemma HeldPutIn(t: Table, used: nat, aa: u32)
    requires used < SIZE
    ensures Held(t[used := Slot(aa, 1)], used + 1) == Held(t, used) + {aa}
  {
    var u := t[used := Slot(aa, 1)];
    assert forall i :: 0 <= i < used ==> u[i].aa == t[i].aa;
    assert Held(u, used) == Held(t, used);
    assert u[used].aa == aa;
    assert Held(u, used + 1) == Held(u, used) + {aa};
  }

  /** A sighting of an address that is held, or while a slot is clear, gives up no address. */
  lemma SeeHeld(t: Table, used: nat, x: u32)
    requires Packed(t, used) && (used < SIZE || x in Held(t, used))
    ensures Held(See(t, x), UsedAfter(t, used, x)) == Held(t, used) + {x}
  {
    HeldAt(t, used, x);
    ClearSlot(t, used, x);
    if Find(t, x, 0) < used {
      HeldCountUp(t, used, Find(t, x, 0));
    } else {
      HeldPutIn(t, used, x);
    }
  }

  /** While at most 32 addresses have been seen, the table holds each of them. */
  lemma {:induction false} FewAddressesHeld(s: seq<u32>)
    requires |Addresses(s)| <= SIZE
    ensures Held(After(s), Used(s)) == Addresses(s)
  {
    if s != [] {
      var before, x := s[..|s| - 1], s[|s| - 1];
      FewAddressesStay(s, |s| - 1);
      FewAddressesHeld(before);
      assert Addresses(s) == Addresses(before) + {x};
      HeldSize(After(before), Used(before));
      SeeHeld(After(before), Used(before), x);
    }
  }

  /** What such a sighting does to a used slot. */
  lemma SeeSlot(t: Table, used: nat, x: u32, i: nat)
    requires Packed(t, used) && (used < SIZE || Find(t, x, 0) < used)
    requires i < UsedAfter(t, used, x)
    ensures if i < used then See(t, x)[i] == Slot(t[i].aa, t[i].count + if t[i].aa == x then 1 else 0)
            else See(t, x)[i] == Slot(x, 1) && Find(t, x, 0) >= used
  {
    ClearSlot(t, used, x);
    var k := Find(t, x, 0);
    if i < used && k < used {
      assert t[k].aa == x;
      assert i != k ==> t[i].aa != t[k].aa;
    }
  }

  /** While at most 32 addresses have been seen, a sighting finds its address or a clear slot. */
  lemma RoomForNext(s: seq<u32>)
    requires s != [] && |Addresses(s)| <= SIZE
    ensures var before, x := s[..|s| - 1], s[|s| - 1];
            && |Addresses(before)| <= SIZE
            && (Used(before) < SIZE || Find(After(before), x, 0) < Used(before))
            && (Find(After(before), x, 0) < Used(before) <==> x in before)
  {
    var before, x := s[..|s| - 1], s[|s| - 1];
    FewAddressesStay(s, |s| - 1);
    FewAddressesHeld(before);
    assert Addresses(s) == Addresses(before) + {x};
    HeldSize(After(before), Used(before));
    HeldAt(After(before), Used(before), x);
  }

  /** And it counts them exactly. */
  lemma {:induction false} FewAddressesExact(s: seq<u32>, i: nat)
    requires |Addresses(s)| <= 32 && i < Used(s)
    ensures After(s)[i].count == Sightings(s, After(s)[i].aa)
  {
    var before, x := s[..|s| - 1], s[|s| - 1];
    RoomForNext(s);
    SeeSlot(After(before), Used(before), x, i);
    if i < Used(before) {
      FewAddressesExact(before, i);
    } else {
      NotSeen(before, x);
    }
  }

  lemma {:induction false} NotSeen(s: seq<u32>, x: u32)
    ensures Sightings(s, x) > 0 <==> x in s
  {
    if s != [] {
      NotSeen(s[..|s| - 1], x);
      assert s == s[..|s| - 1] + [s[|s| - 1]];
    }
  }

  // ----- The address to follow -----

  /** The first slot from i on whose address has been seen more than three times, or SIZE. */
  function Pick(t: Table, i: nat): (k: nat)
    requires i <= SIZE
    ensures i <= k <= SIZE && (k < SIZE ==> t[k].count > 3)
    ensures forall j :: i <= j < k ==> t[j].count <= 3
    decreases SIZE - i
  {
    if i == SIZE || t[i].count > 3 then i else Pick(t, i + 1)
  }

  /** The stream holds an address four times. */
  predicate SeenFourTimes(s: seq<u32>, aa: u32) {
    Sightings(s, aa) >= 4
  }

  /** Whatever the stream, only an address that was really seen four times is followed. */
  lemma FollowedWasSeen(s: seq<u32>)
    ensures var k := Pick(After(s), 0); k < SIZE ==> SeenFourTimes(s, After(s)[k].aa)
  {
    var k := Pick(After(s), 0);
    if k < SIZE {
      assert Packed(After(s), Used(s));
      CountIsReal(s, k);
    }
  }

  /** With at most 32 addresses on the air, one is followed exactly when one has been seen four times. */
  lemma FollowedExactly(s: seq<u32>)
    requires |Addresses(s)| <= 32
    ensures Pick(After(s), 0) < SIZE <==> exists aa :: SeenFourTimes(s, aa)
  {
    FollowedWasSeen(s);
    FewAddressesHeld(s);
    if aa :| SeenFourTimes(s, aa) {
      NotSeen(s, aa);
      HeldAt(After(s), Used(s), aa);
      FewAddressesExact(s, Find(After(s), aa, 0));
    }
  }

  // ----- The firmware's form -----

  class ActiveAa {
    const aas: array<u32>
    const counts: array<nat>

    ghost predicate Valid()
      reads this
    {
      aas.Length == SIZE && counts.Length == SIZE
    }

    ghost function Slots(): Table
      requires Valid()
      reads this, aas, counts
    {
      seq(SIZE, i requires 0 <= i < SIZE && Valid() reads this, aas, counts => Slot(aas[i], counts[i]))
    }

    constructor ()
      ensures Valid() && fresh(aas) && fresh(counts) && Slots() == After([])
    {
      aas := new u32[SIZE](_ => 0);
      counts := new nat[SIZE](_ => 0);
    }

    method SeeAa(aa: u32)
      requires Valid()
      modifies aas, counts
      ensures Slots() == See(old(Slots()), aa)
    {
      ghost var t := Slots();
      for i := 0 to SIZE
        invariant Slots() == t && Find(t, aa, 0) == Find(t, aa, i)
      {
        if aas[i] == aa {
          counts[i] := counts[i] + 1;
          return;
        }
      }
      var max, killme := -1, -1;
      for i := 0 to SIZE
        invariant Slots() == t
        invariant if i == 0 then max == -1 else killme == Least(t, i) && max == counts[killme]
      {
        if counts[i] < max || max < 0 {
          killme := i;
          max := counts[i];
        }
      }
      aas[killme] := aa;
      counts[killme] := 1;
    }

    method PickAa() returns (k: nat)
      requires Valid()
      ensures k == Pick(Slots(), 0)
    {
      for i := 0 to SIZE
        invariant Pick(Slots(), 0) == Pick(Slots(), i)
      {
        if counts[i] > 3 {
          return i;
        }
      }
      return SIZE;
    }
  }
}
