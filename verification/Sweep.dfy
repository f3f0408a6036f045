/**
 The slow sweep and the search for unused channels: both step by 32 channels around
 the 79 of the band until a map of used channels lets them stop
 (firmware/bluetooth_rxtx/bluetooth_rxtx.c, hop; count_bits and the count of used
 channels are from firmware/bluetooth_rxtx/bluetooth.c).
*/
module Sweep {
  import opened Words

  const CHANNELS: nat := 79

  /** A channel of the band, counted from 2402 MHz. */
  type Index = i: nat | i < CHANNELS

  /** The ten bytes of afh_map. */
  type Map = m: seq<u8> | |m| == 10 witness seq(10, _ => 0)

  /** afh_map[i / 8] & 0x1 << (i % 8). */
  predicate Marked(afhMap: Map, i: nat)
    requires i < 80
  {
    Bit(afhMap[i / 8], i % 8)
  }

  /** The channels the sweep passes over. */
  function SweepFilter(afhMap: Map, usedChannels: u8, afhEnabled: bool): Index -> bool {
    (i: Index) => usedChannels != 0 && afhEnabled && !Marked(afhMap, i)
  }

  /** The channels the search for unused channels passes over. */
  function AfhFilter(afhMap: Map, usedChannels: u8): Index -> bool {
    (i: Index) => usedChannels != 79 && Marked(afhMap, i)
  }

  /** Channel i is bit i of the map, whose bits are numbered from the lowest of its first byte on. */
  lemma MarkedBits(afhMap: Map, i: nat)
    requires i < 80
    ensures Marked(afhMap, i) == DataBits(afhMap)[i]
  {
    DataBitAt(afhMap, i / 8, i % 8);
    assert 8 * (i / 8) + i % 8 == i;
  }

  // ----- Steps of 32 around 79 -----

  function Stepped(from: Index, n: nat): Index {
    (from + 32 * n) % CHANNELS
  }

  /** The number of steps, at least one, that leads from one channel to another: 42 is the inverse of 32. */
  function StepsTo(from: Index, to: Index): (n: nat)
    ensures 1 <= n <= CHANNELS
  {
    if from == to then CHANNELS else ((to - from) * 42) % CHANNELS
  }

  lemma RestIs(a: int, q: int, r: nat)
    requires r < CHANNELS && a == CHANNELS * q + r
    ensures a % CHANNELS == r && a / CHANNELS == q
  {}

  lemma StepsReach(from: Index, to: Index)
    ensures Stepped(from, StepsTo(from, to)) == to
  {
    if from == to {
      RestIs(from + 32 * CHANNELS, 32, to);
    } else {
      var d, q, n := to - from, ((to - from) * 42) / CHANNELS, StepsTo(from, to);
      assert n == 42 * d - CHANNELS * q;
      RestIs(from + 32 * n, 17 * d - 32 * q, to);
    }
  }

  /** Fewer than 79 steps apart are different channels. */
  lemma StepsDiffer(from: Index, n: nat, m: nat)
    requires n < m < n + CHANNELS
    ensures Stepped(from, n) != Stepped(from, m)
  {
    var a, b := (from + 32 * n) / CHANNELS, (from + 32 * m) / CHANNELS;
    NotAround(m - n, b - a);
    assert from + 32 * n == CHANNELS * a + Stepped(from, n);
    assert from + 32 * m == CHANNELS * b + Stepped(from, m);
  }

  lemma NotAround(d: int, k: int)
    requires 0 < d < CHANNELS
    ensures 32 * d != CHANNELS * k
  {
    var z := 42 * k - 17 * d;
    assert 32 * d == CHANNELS * k ==> d == CHANNELS * z;
  }

  /** One step, as the firmware takes it: 32 channels up, and back into the band. */
  function OneStep(i: Index): Index {
    var up: nat := i + 32;
    if up > 78 then up - 79 else up
  }

  lemma NextStep(from: Index, n: nat)
    ensures Stepped(from, n + 1) == OneStep(Stepped(from, n))
    ensures Stepped(from, 0) == from
  {
    var q: int, r: int := (from + 32 * n) / CHANNELS, Stepped(from, n);
    assert from + 32 * n == CHANNELS * q + r;
    if r + 32 > 78 {
      RestIs(from + 32 * (n + 1), q + 1, r + 32 - 79);
    } else {
      RestIs(from + 32 * (n + 1), q, r + 32);
    }
  }

  /** 79 steps from anywhere visit every channel of the band, and none twice. */
  lemma FullSweep(from: Index, first: nat, to: Index)
    ensures exists n :: first < n <= first + CHANNELS && Stepped(from, n) == to
    ensures forall n, m :: first < n < m <= first + CHANNELS ==> Stepped(from, n) != Stepped(from, m)
  {
    StepsReach(Stepped(from, first), to);
    var n := first + StepsTo(Stepped(from, first), to);
    StepsAdd(from, first, StepsTo(Stepped(from, first), to));
    assert Stepped(from, n) == to;
    forall n, m | first < n < m <= first + CHANNELS ensures Stepped(from, n) != Stepped(from, m) {
      StepsDiffer(from, n, m);
    }
  }

  lemma StepsAdd(from: Index, n: nat, m: nat)
    ensures Stepped(Stepped(from, n), m) == Stepped(from, n + m)
  {
    var q := (from + 32 * n) / CHANNELS;
    assert from + 32 * n == CHANNELS * q + Stepped(from, n);
    var r := (Stepped(from, n) + 32 * m) / CHANNELS;
    RestIs(from + 32 * (n + m), q + r, Stepped(Stepped(from, n), m));
  }

  // ----- Where a sweep stops -----

  /** The first of the channels steps on from n, of at most limit, that is not passed over. */
  function FirstStop(from: Index, skips: Index -> bool, n: nat, limit: nat): (k: nat)
    requires n <= limit
    ensures n <= k <= limit
    ensures k < limit ==> !skips(Stepped(from, k))
    ensures forall m :: n <= m < k ==> skips(Stepped(from, m))
    decreases limit - n
  {
    if n == limit || !skips(Stepped(from, n)) then n else FirstStop(from, skips, n + 1, limit)
  }

  /** The first admissible channel after a given one in the order of the steps. */
  ghost predicate StopsAt(from: Index, skips: Index -> bool, n: nat) {
    && 1 <= n <= CHANNELS && !skips(Stepped(from, n))
    && forall m :: 1 <= m < n ==> skips(Stepped(from, m))
  }

  /** A sweep stops, within 79 steps, exactly when the band holds an admissible channel. */
  lemma StopsExactly(from: Index, skips: Index -> bool)
    ensures (exists n :: StopsAt(from, skips, n)) <==> (exists i: Index :: !skips(i))
    ensures (exists i: Index :: !skips(i)) <==> (exists n: nat :: n >= 1 && !skips(Stepped(from, n)))
  {
    if i: Index :| !skips(i) {
      StepsReach(from, i);
      var n := FirstStop(from, skips, 1, StepsTo(from, i) + 1);
      assert StopsAt(from, skips, n);
    }
  }

  ghost predicate HopsIn(channel: u16, next: u16, skips: Index -> bool, n: nat) {
    2402 <= channel <= 2480 && StopsAt(channel - 2402, skips, n) && next == 2402 + Stepped(channel - 2402, n)
  }

  /** The channel after a hop: the first admissible one in steps of 32. */
  ghost predicate HopsTo(channel: u16, next: u16, skips: Index -> bool) {
    exists n :: HopsIn(channel, next, skips, n)
  }

  /** The band holds an admissible channel. */
  ghost predicate CanStop(skips: Index -> bool) {
    exists i: Index :: !skips(i)
  }

  // ----- Counting the used channels -----

  /** How many of the first n bits of the map are set. */
  function Used(afhMap: Map, n: nat): (u: nat)
    requires n <= 80
    ensures u <= n
  {
    if n == 0 then 0 else Used(afhMap, n - 1) + if Marked(afhMap, n - 1) then 1 else 0
  }

  /** The number of ones among the low n bits of a word. */
  function Ones(s: nat, n: nat): nat
    decreases n, s
  {
    if n == 0 then 0 else s % 2 + Ones(s / 2, n - 1)
  }

  /** n & (n - 1) clears the lowest one. */
  lemma {:induction false} LowestCleared(s: nat, n: nat)
    requires 0 < s < Pow2(n)
    ensures And(s, s - 1) < s && Ones(And(s, s - 1), n) == Ones(s, n) - 1
    decreases n
  {
    if s % 2 == 1 {
      AndSelf(s / 2);
      assert (s - 1) / 2 == s / 2;
    } else {
      assert (s - 1) / 2 == s / 2 - 1;
      LowestCleared(s / 2, n - 1);
    }
  }

  lemma {:induction false} AndSelf(s: nat)
    ensures And(s, s) == s
  {
    if s > 0 {
      AndSelf(s / 2);
    }
  }

  lemma {:induction false} NoOnes(n: nat)
    ensures Ones(0, n) == 0
  {
    if n > 0 {
      NoOnes(n - 1);
    }
  }

  method CountBits(word: nat, ghost width: nat) returns (i: nat)
    requires word < Pow2(width)
    ensures i == Ones(word, width)
  {
    var n: nat := word;
    i := 0;
    while n != 0
      invariant n < Pow2(width) && i + Ones(n, width) == Ones(word, width)
      decreases n
    {
      LowestCleared(n, width);
      n := And(n, n - 1);
      i := i + 1;
    }
    NoOnes(width);
  }

  lemma {:induction false} OnesOfByte(afhMap: Map, i: nat, n: nat)
    requires i < 10 && n <= 8
    ensures Used(afhMap, 8 * i + n) == Used(afhMap, 8 * i) + Ones(afhMap[i], n)
  {
    if n > 0 {
      OnesOfByte(afhMap, i, n - 1);
      LastOne(afhMap[i], n - 1);
      assert (8 * i + (n - 1)) / 8 == i && (8 * i + (n - 1)) % 8 == n - 1;
    }
  }

  lemma {:induction false} LastOne(s: nat, n: nat)
    ensures Ones(s, n + 1) == Ones(s, n) + if Bit(s, n) then 1 else 0
    decreases n
  {
    if n > 0 {
      LastOne(s / 2, n - 1);
    }
  }

  /** The count of used channels that precalc makes. */
  method CountUsed(afhMap: Map) returns (usedChannels: u8)
    ensures usedChannels == Used(afhMap, 80)
  {
    var count: nat := 0;
    for i := 0 to 10
      invariant count == Used(afhMap, 8 * i)
    {
      ByteFits(afhMap[i]);
      var bits := CountBits(afhMap[i], 8);
      NextByteUsed(afhMap, i);
      count := count + bits;
    }
    usedChannels := count;
  }

  lemma ByteFits(b: u8)
    ensures b < Pow2(8)
  {
    Pow2Values();
  }

  lemma NextByteUsed(afhMap: Map, i: nat)
    requires i < 10
    ensures Used(afhMap, 8 * (i + 1)) == Used(afhMap, 8 * i) + Ones(afhMap[i], 8)
  {
    OnesOfByte(afhMap, i, 8);
    assert 8 * i + 8 == 8 * (i + 1);
  }

  lemma {:induction false} NoneUsed(afhMap: Map, n: nat)
    requires n <= 80
    ensures Used(afhMap, n) == 0 <==> forall i :: 0 <= i < n ==> !Marked(afhMap, i)
    ensures Used(afhMap, n) == n <==> forall i :: 0 <= i < n ==> Marked(afhMap, i)
  {
    if n > 0 {
      NoneUsed(afhMap, n - 1);
    }
  }

  // ----- When a loop never ends -----

  /** Some of the 79 channels are marked. */
  ghost predicate SomeChannel(afhMap: Map) {
    exists i: Index :: Marked(afhMap, i)
  }

  /** All of them are. */
  ghost predicate EveryChannel(afhMap: Map) {
    forall i: Index :: Marked(afhMap, i)
  }

  /** The three variables the loops look at, which separate commands of the host set. */
  datatype Afh = Afh(afhMap: Map, usedChannels: u8, afhEnabled: bool)

  ghost predicate SweepHangs(a: Afh) {
    !CanStop(SweepFilter(a.afhMap, a.usedChannels, a.afhEnabled))
  }

  ghost predicate SearchHangs(a: Afh) {
    !CanStop(AfhFilter(a.afhMap, a.usedChannels))
  }

  /** Map, count and flag are independent; this is when each loop hangs on them. */
  lemma HangsExactly(a: Afh)
    ensures SweepHangs(a) <==> a.usedChannels != 0 && a.afhEnabled && !SomeChannel(a.afhMap)
    ensures SearchHangs(a) <==> a.usedChannels != 79 && EveryChannel(a.afhMap)
  {
    var sweep, search := SweepFilter(a.afhMap, a.usedChannels, a.afhEnabled), AfhFilter(a.afhMap, a.usedChannels);
    if a.usedChannels == 0 || !a.afhEnabled {
      assert !sweep(0);
    } else {
      assert forall i: Index :: sweep(i) <==> !Marked(a.afhMap, i);
    }
    if a.usedChannels == 79 {
      assert !search(0);
    } else {
      assert forall i: Index :: search(i) <==> Marked(a.afhMap, i);
    }
  }

  /** The commands of the host that touch them: UBERTOOTH_SET_BDADDR, _AFH, _SET_AFHMAP and _CLEAR_AFHMAP. */
  datatype Command = SetBdaddr | DetectAfh | SetAfhMap(data: Map) | ClearAfhMap

  const NO_CHANNELS: Map := [0, 0, 0, 0, 0, 0, 0, 0, 0, 0]

  const POWER_ON := Afh(NO_CHANNELS, 0, false)

  /** Only SET_BDADDR counts, and only while AFH is on; a new map is not counted. */
  function Commanded(a: Afh, c: Command): Afh {
    match c
    case SetBdaddr => if a.afhEnabled then a.(usedChannels := Used(a.afhMap, 80)) else a
    case DetectAfh => Afh(NO_CHANNELS, 0, true)
    case SetAfhMap(data) => a.(afhMap := data, afhEnabled := true)
    case ClearAfhMap => a.(afhMap := NO_CHANNELS, afhEnabled := false)
  }

  /** The state after a sequence of commands. */
  function After(commands: seq<Command>): Afh {
    if commands == [] then POWER_ON else Commanded(After(commands[..|commands| - 1]), commands[|commands| - 1])
  }

  /** The map that was counted last; none after UBERTOOTH_AFH. */
  function Counted(commands: seq<Command>): Map {
    if commands == [] then NO_CHANNELS
    else
      var before, last := commands[..|commands| - 1], commands[|commands| - 1];
      if last.DetectAfh? then NO_CHANNELS
      else if last.SetBdaddr? && After(before).afhEnabled then After(before).afhMap
      else Counted(before)
  }

  /** The cleared map has no marks. */
  lemma NoMarks(afhMap: Map)
    requires forall k :: 0 <= k < 10 ==> afhMap[k] == 0
    ensures Used(afhMap, 80) == 0
  {
    forall i | 0 <= i < 80 ensures !Marked(afhMap, i) {
      BitZero(i % 8);
    }
    NoneUsed(afhMap, 80);
  }

  /** Map, count and flag behind each of the commands. */
  lemma LastCommand(commands: seq<Command>, c: Command)
    ensures c.SetBdaddr? ==> After(commands + [c]).afhMap == After(commands).afhMap
                             && After(commands + [c]).afhEnabled == After(commands).afhEnabled
    ensures c.DetectAfh? ==> After(commands + [c]).afhMap == [0, 0, 0, 0, 0, 0, 0, 0, 0, 0]
                             && After(commands + [c]).usedChannels == 0 && After(commands + [c]).afhEnabled
    ensures c.SetAfhMap? ==> After(commands + [c]) == Afh(c.data, After(commands).usedChannels, true)
    ensures c.ClearAfhMap? ==> After(commands + [c]) == Afh([0, 0, 0, 0, 0, 0, 0, 0, 0, 0], After(commands).usedChannels, false)
    ensures After(commands + [c]) == Commanded(After(commands), c)
    ensures c.DetectAfh? ==> Counted(commands + [c]) == NO_CHANNELS
    ensures c.SetBdaddr? && After(commands).afhEnabled ==> Counted(commands + [c]) == After(commands).afhMap
    ensures c.SetAfhMap? || c.ClearAfhMap? ==> Counted(commands + [c]) == Counted(commands)
  {
    assert (commands + [c])[..|commands|] == commands;
  }

  lemma {:induction false} CountIsOfCounted(commands: seq<Command>)
    ensures After(commands).usedChannels == Used(Counted(commands), 80)
  {
    if commands == [] {
      NoMarks(Counted(commands));
    } else {
      var before, last := commands[..|commands| - 1], commands[|commands| - 1];
      CountIsOfCounted(before);
      if last.DetectAfh? {
        NoMarks(Counted(commands));
      }
    }
  }

  /**
   After any commands: the sweep hangs exactly when AFH is on, the map counted last had a
   mark on any of its 80 bits, and the map in use has none on a channel; the search hangs
   exactly when the map in use marks every channel and the map counted last did not have
   79 marks.
  */
  lemma RunHangsExactly(commands: seq<Command>)
    ensures SweepHangs(After(commands)) <==>
      && After(commands).afhEnabled && !SomeChannel(After(commands).afhMap)
      && exists i :: 0 <= i < 80 && Marked(Counted(commands), i)
    ensures SearchHangs(After(commands)) <==>
      EveryChannel(After(commands).afhMap) && Used(Counted(commands), 80) != 79
  {
    CountIsOfCounted(commands);
    HangsExactly(After(commands));
    NoneUsed(Counted(commands), 80);
  }

  /** If the map in use is the one counted, only its spare bit 79 can make a loop hang. */
  lemma CountedMapHangs(commands: seq<Command>)
    requires Counted(commands) == After(commands).afhMap
    ensures SweepHangs(After(commands)) <==>
      && After(commands).afhEnabled && !SomeChannel(After(commands).afhMap) && Marked(After(commands).afhMap, 79)
    ensures SearchHangs(After(commands)) <==> Used(After(commands).afhMap, 80) == 80
  {
    RunHangsExactly(commands);
    var afhMap := After(commands).afhMap;
    NoneUsed(afhMap, 79);
    NoneUsed(afhMap, 80);
    assert EveryChannel(afhMap) <==> Used(afhMap, 79) == 79;
    assert !SomeChannel(afhMap) && Marked(afhMap, 79) <==> !SomeChannel(afhMap) && exists i :: 0 <= i < 80 && Marked(afhMap, i);
  }

  ghost predicate OnlyMaps(commands: seq<Command>) {
    forall i :: 0 <= i < |commands| ==> commands[i].SetAfhMap? || commands[i].ClearAfhMap?
  }

  /** Setting maps leaves the count as it was. */
  lemma {:induction false} MapsNotCounted(commands: seq<Command>, maps: seq<Command>)
    requires OnlyMaps(maps)
    ensures Counted(commands + maps) == Counted(commands)
    decreases |maps|
  {
    if maps == [] {
      assert commands + maps == commands;
    } else {
      var n := |maps| - 1;
      MapsNotCounted(commands, maps[..n]);
      LastCommand(commands + maps[..n], maps[n]);
      assert commands + maps[..n] + [maps[n]] == commands + maps;
    }
  }

  /**
   The detection of AFH: UBERTOOTH_AFH, and then maps as they are found. The sweep never
   hangs, and the search hangs exactly when the last map marks every channel.
  */
  lemma DetectionHangs(commands: seq<Command>, maps: seq<Command>)
    requires OnlyMaps(maps)
    ensures !SweepHangs(After(commands + [DetectAfh] + maps))
    ensures SearchHangs(After(commands + [DetectAfh] + maps)) <==> EveryChannel(After(commands + [DetectAfh] + maps).afhMap)
  {
    LastCommand(commands, DetectAfh);
    MapsNotCounted(commands + [DetectAfh], maps);
    NothingCounted(commands + [DetectAfh] + maps);
  }

  lemma NothingCounted(commands: seq<Command>)
    requires Counted(commands) == NO_CHANNELS
    ensures !SweepHangs(After(commands))
    ensures SearchHangs(After(commands)) <==> EveryChannel(After(commands).afhMap)
  {
    NoMarks(Counted(commands));
    CountIsOfCounted(commands);
    HangsExactly(After(commands));
  }

  /** So the map of all 79 channels with the spare bit clear hangs the search, until it is counted. */
  lemma FullBandHangs(commands: seq<Command>, data: Map)
    requires EveryChannel(data) && !Marked(data, 79)
    ensures SearchHangs(After(commands + [DetectAfh] + [SetAfhMap(data)]))
    ensures !SearchHangs(After(commands + [DetectAfh] + [SetAfhMap(data)] + [Command.SetBdaddr]))
  {
    var mapped := commands + [DetectAfh] + [SetAfhMap(data)];
    DetectionHangs(commands, [SetAfhMap(data)]);
    LastCommand(commands + [DetectAfh], SetAfhMap(data));
    LastCommand(mapped, Command.SetBdaddr);
    NoneUsed(data, 79);
    RunHangsExactly(mapped + [Command.SetBdaddr]);
  }

  /** And a map without channels hangs the sweep when one with a channel was counted before it. */
  lemma EmptyMapHangs(commands: seq<Command>, data: Map, empty: Map)
    requires SomeChannel(data) && !SomeChannel(empty)
    ensures SweepHangs(After(commands + [SetAfhMap(data)] + [Command.SetBdaddr] + [SetAfhMap(empty)]))
  {
    var counted := commands + [SetAfhMap(data)] + [Command.SetBdaddr];
    LastCommand(commands, SetAfhMap(data));
    LastCommand(commands + [SetAfhMap(data)], Command.SetBdaddr);
    LastCommand(counted, SetAfhMap(empty));
    RunHangsExactly(counted + [SetAfhMap(empty)]);
    var i: Index :| Marked(data, i);
  }

  class Tuner {
    var channel: u16
    var afhMap: Map
    var usedChannels: u8
    var afhEnabled: bool

    ghost function State(): Afh
      reads this
    {
      Afh(afhMap, usedChannels, afhEnabled)
    }

    /** UBERTOOTH_SET_BDADDR, as far as precalc counts the channels in use. */
    method SetBdaddr()
      modifies `usedChannels
      ensures State() == Commanded(old(State()), Command.SetBdaddr)
    {
      if afhEnabled {
        usedChannels := CountUsed(afhMap);
      }
    }

    /** The loop that clears afh_map. */
    method ClearMap()
      modifies `afhMap
      ensures afhMap == NO_CHANNELS
    {
      for i := 0 to 10
        invariant forall k :: 0 <= k < i ==> afhMap[k] == 0
      {
        afhMap := afhMap[i := 0];
      }
    }

    /** UBERTOOTH_AFH. */
    method DetectAfh()
      modifies `afhMap, `usedChannels, `afhEnabled
      ensures State() == Commanded(old(State()), Command.DetectAfh)
    {
      ClearMap();
      usedChannels := 0;
      afhEnabled := true;
    }

    /** UBERTOOTH_SET_AFHMAP. */
    method SetAfhMap(data: Map)
      modifies `afhMap, `afhEnabled
      ensures State() == Commanded(old(State()), Command.SetAfhMap(data))
    {
      for i := 0 to 10
        invariant forall k :: 0 <= k < i ==> afhMap[k] == data[k]
      {
        afhMap := afhMap[i := data[i]];
      }
      afhEnabled := true;
    }

    /** UBERTOOTH_CLEAR_AFHMAP. */
    method ClearAfhMap()
      modifies `afhMap, `afhEnabled
      ensures State() == Commanded(old(State()), Command.ClearAfhMap)
    {
      ClearMap();
      afhEnabled := false;
    }

    /** channel += 32, and back into the band. */
    method Advance()
      requires 2402 <= channel <= 2480
      modifies `channel
      ensures 2402 <= channel <= 2480
      ensures channel == 2402 + OneStep(old(channel) - 2402)
    {
      channel := channel + 32;
      if channel > 2480 {
        channel := channel - 79;
      }
    }

    /** hop in the sweep mode. */
    method HopSweep()
      requires 2402 <= channel <= 2480 && CanStop(SweepFilter(afhMap, usedChannels, afhEnabled))
      modifies `channel
      ensures HopsTo(old(channel), channel, SweepFilter(afhMap, usedChannels, afhEnabled))
    {
      ghost var from, skips := channel - 2402, SweepFilter(afhMap, usedChannels, afhEnabled);
      ghost var target: Index :| !skips(target);
      StepsReach(from, target);
      ghost var n, last := 1, StepsTo(from, target);
      NextStep(from, 0);
      Advance();
      while usedChannels != 0 && afhEnabled && !Marked(afhMap, channel - 2402)
        invariant 2402 <= channel <= 2480 && channel - 2402 == Stepped(from, n)
        invariant 1 <= n <= last
        invariant forall m :: 1 <= m < n ==> skips(Stepped(from, m))
        decreases last - n
      {
        assert skips(Stepped(from, n));
        NextStep(from, n);
        Advance();
        n := n + 1;
      }
      assert HopsIn(from + 2402, channel, skips, n);
    }

    /** hop in the search for unused channels. */
    method HopAfh()
      requires 2402 <= channel <= 2480 && CanStop(AfhFilter(afhMap, usedChannels))
      modifies `channel
      ensures HopsTo(old(channel), channel, AfhFilter(afhMap, usedChannels))
    {
      ghost var from, skips := channel - 2402, AfhFilter(afhMap, usedChannels);
      ghost var target: Index :| !skips(target);
      StepsReach(from, target);
      ghost var n, last := 1, StepsTo(from, target);
      NextStep(from, 0);
      Advance();
      while usedChannels != 79 && Marked(afhMap, channel - 2402)
        invariant 2402 <= channel <= 2480 && channel - 2402 == Stepped(from, n)
        invariant 1 <= n <= last
        invariant forall m :: 1 <= m < n ==> skips(Stepped(from, m))
        decreases last - n
      {
        assert skips(Stepped(from, n));
        NextStep(from, n);
        Advance();
        n := n + 1;
      }
      assert HopsIn(from + 2402, channel, skips, n);
    }
  }
}
