/**
 The device side of firmware update: the DFU request handlers of the bootloader
 (firmware/bootloader/dfu.cpp; USB Device Firmware Upgrade 1.1, section 6.1 and
 appendix A).
*/
module Dfu {
  import opened Words
  import opened Flash

  /** The bootloader ends, and the application starts, at this address. */
  const BOOT_END: nat := 0x4000

  datatype DfuState = AppIdle | AppDetach | DfuIdle | DnloadSync | DnBusy | DnloadIdle | ManifestSync
                    | Manifest | ManifestWaitReset | UploadIdle | DfuError

  datatype Status = Ok | ErrWrite | ErrProg | ErrAddress | ErrUnknown | ErrStalledPkt

  function StateCode(s: DfuState): u8 {
    match s
    case AppIdle => 0 case AppDetach => 1 case DfuIdle => 2 case DnloadSync => 3 case DnBusy => 4 case DnloadIdle => 5
    case ManifestSync => 6 case Manifest => 7 case ManifestWaitReset => 8 case UploadIdle => 9 case DfuError => 10
  }

  function StatusCode(s: Status): u8 {
    match s
    case Ok => 0 case ErrWrite => 3 case ErrProg => 6 case ErrAddress => 8 case ErrUnknown => 14 case ErrStalledPkt => 15
  }

  const DETACH: u8 := 0
  const DNLOAD: u8 := 1
  const UPLOAD: u8 := 2
  const GETSTATUS: u8 := 3
  const CLRSTATUS: u8 := 4
  const GETSTATE: u8 := 5
  const ABORT: u8 := 6

  /** A control transfer, with the data it carries to the device. */
  datatype Setup = Setup(bRequest: u8, wValue: u16, wLength: u16, data: seq<u8>)

  /** A download request reaches its handler when all the bytes it announces have been received. */
  type Request = r: Setup | r.bRequest == DNLOAD ==> |r.data| == r.wLength witness Setup(ABORT, 0, 0, [])

  /** A handler returns false, returns true with data for the host, or reads where the chip has no cells. */
  datatype Reply = Stalled | Replied(data: seq<u8>) | BusFault

  datatype Device = Device(chip: Chip, state: DfuState, status: Status, virgin: bool)

  // ----- The handlers -----

  function InState(d: Device, s: DfuState): Device {
    d.(state := s, virgin := false)
  }

  function Error(d: Device, status: Status): Device {
    (if d.state != AppIdle && d.state != AppDetach then InState(d, DfuError) else d).(status := status)
  }

  predicate Detaches(r: Request) {
    r.bRequest == DETACH && r.wLength == 0 && r.wValue <= 15000
  }

  function Detach(d: Device, r: Request): (Device, Reply) {
    if r.wLength == 0 && r.wValue <= 15000 then (InState(d, AppDetach), Replied([])) else (Error(d, ErrUnknown), Stalled)
  }

  function Dnload(d: Device, r: Request, o: Outcomes): (Device, Reply)
    requires r.bRequest == DNLOAD
  {
    if r.wLength == 0 then
      if d.state != DnloadIdle then (Error(d, ErrStalledPkt), Stalled) else (InState(d, ManifestSync), Replied([]))
    else if r.wLength != BLOCK then (Error(d, ErrUnknown), Stalled)
    else if d.state != DfuIdle && d.state != DnloadIdle then (Error(d, ErrStalledPkt), Stalled)
    else if r.wValue * BLOCK < BOOT_END then (Error(d, ErrWrite), Stalled)
    else
      var (chip, ok) := Write(d.chip, r.wValue * BLOCK, r.data, o);
      if ok then (InState(d.(chip := chip), DnloadSync), Replied([])) else (Error(d.(chip := chip), ErrProg), Stalled)
  }

  function Upload(d: Device, r: Request): (Device, Reply) {
    if r.wLength != BLOCK then (Error(d, ErrUnknown), Stalled)
    else if d.state != DfuIdle && d.state != UploadIdle then (Error(d, ErrStalledPkt), Stalled)
    else
      var start := r.wValue * BLOCK;
      if start >= 0x8_0000 || start + BLOCK - 1 >= 0x8_0000 then (Error(d, ErrAddress), Stalled)
      else if start + BLOCK > |d.chip.cells| then (d, BusFault)
      else (InState(d, DfuIdle), Replied(d.chip.cells[start..start + BLOCK]))
  }

  /** The state a status request leads on to. */
  function AfterStatus(s: DfuState): DfuState {
    match s
    case DnloadSync => DnloadIdle
    case ManifestSync => DfuIdle
    case _ => s
  }

  function GetStatus(d: Device, r: Request): (Device, Reply) {
    if r.wValue != 0 || r.wLength != 6 then (d, Stalled)
    else
      var e := if AfterStatus(d.state) == d.state then d else InState(d, AfterStatus(d.state));
      (e, Replied([StatusCode(e.status), 20, 0, 0, StateCode(e.state), 0]))
  }

  function ClrStatus(d: Device, r: Request): (Device, Reply) {
    if r.wValue == 0 && r.wLength == 0 && d.state == DfuError then (InState(d.(status := Ok), DfuIdle), Replied([]))
    else (Error(d, ErrUnknown), Stalled)
  }

  function GetState(d: Device, r: Request): (Device, Reply) {
    if r.wValue == 0 && r.wLength == 1 then (d, Replied([StateCode(d.state)])) else (Error(d, ErrUnknown), Stalled)
  }

  function Abort(d: Device, r: Request): (Device, Reply) {
    if r.wValue == 0 && r.wLength == 0 && d.state != DfuError then (InState(d, DfuIdle), Replied([]))
    else (Error(d, ErrUnknown), Stalled)
  }

  /** request_handler. */
  function Handle(d: Device, r: Request, o: Outcomes): (Device, Reply) {
    if r.bRequest == DETACH then Detach(d, r)
    else if r.bRequest == DNLOAD then Dnload(d, r, o)
    else if r.bRequest == UPLOAD then Upload(d, r)
    else if r.bRequest == GETSTATUS then GetStatus(d, r)
    else if r.bRequest == CLRSTATUS then ClrStatus(d, r)
    else if r.bRequest == GETSTATE then GetState(d, r)
    else if r.bRequest == ABORT then Abort(d, r)
    else (d, Stalled)
  }

  // ----- What goes over the wire -----

  /** Request 5: the number of the state, as USB DFU 1.1 has it in section 6.1.2. */
  lemma StateOnWire(d: Device, r: Request, o: Outcomes)
    requires r.bRequest == 5 && r.wValue == 0 && r.wLength == 1
    ensures Handle(d, r, o).0 == d
    ensures var reply := Handle(d, r, o).1;
            && (reply == Replied([0]) <==> d.state == AppIdle) && (reply == Replied([1]) <==> d.state == AppDetach)
            && (reply == Replied([2]) <==> d.state == DfuIdle) && (reply == Replied([3]) <==> d.state == DnloadSync)
            && (reply == Replied([4]) <==> d.state == DnBusy) && (reply == Replied([5]) <==> d.state == DnloadIdle)
            && (reply == Replied([6]) <==> d.state == ManifestSync) && (reply == Replied([7]) <==> d.state == Manifest)
            && (reply == Replied([8]) <==> d.state == ManifestWaitReset) && (reply == Replied([9]) <==> d.state == UploadIdle)
            && (reply == Replied([10]) <==> d.state == DfuError)
  {}

  /** Request 3: the status, a delay of 20 ms, and the state, which moves on first. */
  lemma StatusOnWire(d: Device, r: Request, o: Outcomes)
    requires r.bRequest == 3 && r.wValue == 0 && r.wLength == 6
    ensures var (e, reply) := Handle(d, r, o);
            && reply.Replied? && |reply.data| == 6 && reply.data[1..4] == [20, 0, 0] && reply.data[5] == 0
            && e.chip == d.chip && e.status == d.status
            && (reply.data[0] == 0 <==> d.status == Ok) && (reply.data[0] == 3 <==> d.status == ErrWrite)
            && (reply.data[0] == 6 <==> d.status == ErrProg) && (reply.data[0] == 8 <==> d.status == ErrAddress)
            && (reply.data[0] == 14 <==> d.status == ErrUnknown) && (reply.data[0] == 15 <==> d.status == ErrStalledPkt)
            && (reply.data[4] == 2 <==> d.state == DfuIdle || d.state == ManifestSync)
            && (reply.data[4] == 5 <==> d.state == DnloadSync || d.state == DnloadIdle)
            && (reply.data[4] == 10 <==> d.state == DfuError)
            && e.state == (if d.state == DnloadSync then DnloadIdle else if d.state == ManifestSync then DfuIdle else d.state)
  {}

  /** A refused request, and what it makes of a device in DFU mode. */
  predicate Refuses(d: Device, chip: Chip, status: Status, answer: (Device, Reply)) {
    answer == (Device(chip, DfuError, status, false), Stalled)
  }

  /**
   Request 1, of a device in DFU mode: the end of a download in the state for it, and in
   the idle states a block of 256 bytes, which goes to 256 times its number if that is
   not below 0x4000; everything else is refused.
  */
  lemma DownloadRequest(d: Device, r: Request, o: Outcomes)
    requires r.bRequest == 1 && InDfuMode(d)
    ensures var answer, write := Handle(d, r, o), Write(d.chip, 256 * r.wValue as nat, r.data, o);
            if r.wLength == 0 then
              if d.state == DnloadIdle then answer == (d.(state := ManifestSync, virgin := false), Replied([]))
              else Refuses(d, d.chip, ErrStalledPkt, answer)
            else if r.wLength != 256 then Refuses(d, d.chip, ErrUnknown, answer)
            else if d.state != DfuIdle && d.state != DnloadIdle then Refuses(d, d.chip, ErrStalledPkt, answer)
            else if 256 * r.wValue as nat < 0x4000 then Refuses(d, d.chip, ErrWrite, answer)
            else if write.1 then answer == (d.(chip := write.0, state := DnloadSync, virgin := false), Replied([]))
            else Refuses(d, write.0, ErrProg, answer)
  {}

  /** Request 2, of a device in DFU mode: the 256 bytes from 256 times the number on, below 512 KB. */
  lemma UploadRequest(d: Device, r: Request, o: Outcomes)
    requires r.bRequest == 2 && InDfuMode(d)
    ensures var answer, start := Handle(d, r, o), 256 * r.wValue as nat;
            if r.wLength != 256 then Refuses(d, d.chip, ErrUnknown, answer)
            else if d.state != DfuIdle then Refuses(d, d.chip, ErrStalledPkt, answer)
            else if start + 256 > 0x8_0000 then Refuses(d, d.chip, ErrAddress, answer)
            else if start + 256 > |d.chip.cells| then answer == (d, BusFault)
            else answer == (d.(virgin := false), Replied(d.chip.cells[start..start + 256]))
  {}

  /** Requests 0, 4 and 6, of a device in DFU mode: detach, clear the error, abort; and what is none of the seven. */
  lemma OtherRequests(d: Device, r: Request, o: Outcomes)
    requires InDfuMode(d)
    ensures r.bRequest == 0 ==>
              if r.wLength == 0 && r.wValue <= 15000 then Handle(d, r, o) == (d.(state := AppDetach, virgin := false), Replied([]))
              else Refuses(d, d.chip, ErrUnknown, Handle(d, r, o))
    ensures r.bRequest == 4 ==>
              if r.wValue == 0 && r.wLength == 0 && d.state == DfuError
              then Handle(d, r, o) == (d.(state := DfuIdle, status := Ok, virgin := false), Replied([]))
              else Refuses(d, d.chip, ErrUnknown, Handle(d, r, o))
    ensures r.bRequest == 6 ==>
              if r.wValue == 0 && r.wLength == 0 && d.state != DfuError
              then Handle(d, r, o) == (d.(state := DfuIdle, virgin := false), Replied([]))
              else Refuses(d, d.chip, ErrUnknown, Handle(d, r, o))
    ensures r.bRequest == 5 && (r.wValue != 0 || r.wLength != 1) ==> Refuses(d, d.chip, ErrUnknown, Handle(d, r, o))
    ensures r.bRequest > 6 || (r.bRequest == 3 && (r.wValue != 0 || r.wLength != 6)) ==> Handle(d, r, o) == (d, Stalled)
  {}

  /** A device that has been detached keeps its state whatever it refuses, and only takes on a status. */
  lemma RefusedWhenDetached(d: Device, r: Request, o: Outcomes)
    requires d.state == AppDetach && Handle(d, r, o).1 == Stalled
    ensures var e := Handle(d, r, o).0;
            e == d.(status := e.status) && (e.status == d.status || e.status == ErrStalledPkt || e.status == ErrUnknown)
  {}

  // ----- Every run -----

  /** A request, and what the chip does with the calls it leads to. */
  datatype Event = Event(setup: Request, outcomes: Outcomes)

  function Run(d: Device, events: seq<Event>): Device
    decreases |events|
  {
    if events == [] then d else Run(Handle(d, events[0].setup, events[0].outcomes).0, events[1..])
  }

  /** The status is bad exactly in the error state, and five states are all there are. */
  predicate InDfuMode(d: Device) {
    && d.state in {DfuIdle, DnloadSync, DnloadIdle, ManifestSync, DfuError}
    && (d.status != Ok <==> d.state == DfuError)
    && (d.virgin ==> d.state == DfuIdle)
  }

  lemma HandleInDfuMode(d: Device, r: Request, o: Outcomes)
    requires InDfuMode(d) && !Detaches(r)
    ensures InDfuMode(Handle(d, r, o).0)
  {}

  /** Up to an accepted detach request, whatever else is asked for and however the chip behaves. */
  lemma {:induction false} RunInDfuMode(d: Device, events: seq<Event>)
    requires InDfuMode(d) && forall e :: e in events ==> !Detaches(e.setup)
    ensures InDfuMode(Run(d, events))
    decreases |events|
  {
    if events != [] {
      HandleInDfuMode(d, events[0].setup, events[0].outcomes);
      RunInDfuMode(Handle(d, events[0].setup, events[0].outcomes).0, events[1..]);
    }
  }

  /** An operation stays above the bootloader, and inside one sector. */
  predicate Harmless(op: Op) {
    match op
    case Erased(sector) => SectorStart(sector) >= BOOT_END
    case Programmed(address, length) =>
      && address >= BOOT_END && SectorStart(SectorNumber(address)) <= address
      && address + length <= SectorStart(SectorNumber(address) + 1)
  }

  /** The operation reaches a cell. */
  predicate Touches(op: Op, a: nat) {
    match op
    case Erased(sector) => SectorNumber(a) == sector
    case Programmed(address, length) => address <= a < address + length
  }

  lemma BlockHarmless(address: nat)
    requires address >= BOOT_END && address % BLOCK == 0
    ensures Harmless(Programmed(address, BLOCK)) && SectorNumber(address) >= 4
    ensures Harmless(Erased(SectorNumber(address)))
  {
    SectorOfAddress(address, SectorNumber(address));
    BlockInSector(address, BLOCK - 1);
    SectorOfAddress(address + BLOCK - 1, SectorNumber(address));
  }

  lemma HarmlessSparesBoot(op: Op, a: nat)
    requires Harmless(op) && Touches(op, a)
    ensures a >= BOOT_END
  {
    SectorOfAddress(a, SectorNumber(a));
  }

  /** Some operation, from the n-th of the log on, reaches the cell. */
  ghost predicate Touched(log: seq<Op>, n: nat, a: nat) {
    exists i :: n <= i < |log| && Touches(log[i], a)
  }

  /** The new operations of a chip are harmless, and no cell has changed that none of them reaches. */
  ghost predicate Spared(c: Chip, e: Chip) {
    && |e.cells| == |c.cells| && e.sectors == c.sectors
    && c.log <= e.log && (forall i :: |c.log| <= i < |e.log| ==> Harmless(e.log[i]))
    && forall a :: 0 <= a < |c.cells| && e.cells[a] != c.cells[a] ==> Touched(e.log, |c.log|, a)
  }

  lemma CopySpares(c: Chip, address: nat, data: seq<u8>, works: bool)
    requires address >= BOOT_END && Harmless(Programmed(address, |data|))
    ensures Spared(c, AfterCopy(c, address, data, works))
  {
    var e := AfterCopy(c, address, data, works);
    if e != c {
      assert e.log[|c.log|] == Programmed(address, |data|);
    }
  }

  lemma EraseSpares(c: Chip, sector: nat, works: bool)
    requires Harmless(Erased(sector))
    ensures Spared(c, AfterErase(c, sector, works))
  {
    var e := AfterErase(c, sector, works);
    if e != c {
      assert e.log[|c.log|] == Erased(sector);
    }
  }

  lemma StartSpares(c: Chip, address: nat, o: Outcomes)
    requires address >= BOOT_END && address % BLOCK == 0
    ensures Spared(c, AfterStart(c, address, o).0)
  {
    BlockHarmless(address);
    EraseSpares(Prepared(c, SectorNumber(address), o.prepare), SectorNumber(address), o.erase);
  }

  lemma WriteSpares(c: Chip, address: nat, data: seq<u8>, o: Outcomes)
    requires address >= BOOT_END && address % BLOCK == 0 && |data| == BLOCK
    ensures Spared(c, Write(c, address, data, o).0)
  {
    BlockHarmless(address);
    StartSpares(c, address, o);
    var d := AfterStart(c, address, o).0;
    CopySpares(Prepared(d, SectorNumber(address), o.prepareAgain), address, data, o.copy);
    SparedTwice(c, d, Write(c, address, data, o).0);
  }

  lemma SparedTwice(c: Chip, d: Chip, e: Chip)
    requires Spared(c, d) && Spared(d, e)
    ensures Spared(c, e)
  {
    forall a | 0 <= a < |c.cells| && e.cells[a] != c.cells[a] ensures Touched(e.log, |c.log|, a) {
      if d.cells[a] != c.cells[a] {
        var i :| |c.log| <= i < |d.log| && Touches(d.log[i], a);
        assert e.log[i] == d.log[i];
      } else {
        var i :| |d.log| <= i < |e.log| && Touches(e.log[i], a);
      }
    }
    forall i | |c.log| <= i < |e.log| ensures Harmless(e.log[i]) {
      if i < |d.log| {
        assert e.log[i] == d.log[i];
      }
    }
  }

  lemma HandleSpares(d: Device, r: Request, o: Outcomes)
    ensures Spared(d.chip, Handle(d, r, o).0.chip)
  {
    var address := r.wValue * BLOCK;
    if r.bRequest == DNLOAD && r.wLength == BLOCK && address >= BOOT_END {
      WriteSpares(d.chip, address, r.data, o);
    }
  }

  lemma {:induction false} RunSpares(d: Device, events: seq<Event>)
    ensures Spared(d.chip, Run(d, events).chip)
    decreases |events|
  {
    if events != [] {
      var e := Handle(d, events[0].setup, events[0].outcomes).0;
      HandleSpares(d, events[0].setup, events[0].outcomes);
      RunSpares(e, events[1..]);
      SparedTwice(d.chip, e.chip, Run(d, events).chip);
    }
  }

  /**
   Over every sequence of requests, well formed or not, accepted or not, and however
   the chip behaves: no erase and no program operation reaches into the bootloader, every
   program operation stays inside one sector, and a cell outside all of them is as before,
   as is every cell of the bootloader.
  */
  lemma BootloaderSpared(d: Device, events: seq<Event>)
    ensures Spared(d.chip, Run(d, events).chip)
    ensures forall a :: 0 <= a < 0x4000 && a < |d.chip.cells| ==> Run(d, events).chip.cells[a] == d.chip.cells[a]
  {
    RunSpares(d, events);
    var c, e := d.chip, Run(d, events).chip;
    forall a | 0 <= a < BOOT_END && a < |c.cells| ensures e.cells[a] == c.cells[a] {
      if Touched(e.log, |c.log|, a) {
        var i :| |c.log| <= i < |e.log| && Touches(e.log[i], a);
        HarmlessSparesBoot(e.log[i], a);
      }
    }
  }

  /** A block the handler accepts is programmed exactly when the chip carries out the copy: its result is not looked at. */
  lemma AcceptedBlock(d: Device, r: Request, o: Outcomes)
    requires Sound(d.chip) && r.bRequest == DNLOAD && r.wLength == BLOCK
    requires Handle(d, r, o).1 != Stalled
    ensures Programmed(r.wValue * BLOCK, BLOCK) in Handle(d, r, o).0.chip.log[|d.chip.log|..] <==> o.copy
  {
    var address := r.wValue * BLOCK;
    OnChip(d.chip, address);
    var started := AfterStart(d.chip, address, o).0;
    assert Programmed(address, BLOCK) !in started.log[|d.chip.log|..];
    var log := Handle(d, r, o).0.chip.log;
    if o.copy {
      assert log[|log| - 1] == Programmed(address, BLOCK);
    }
  }

  // ----- The firmware's form -----

  class Bootloader {
    const chip: FlashChip
    var state: DfuState
    var status: Status
    var virgin: bool

    ghost function Now(): Device
      reads this, chip, chip.cells
    {
      Device(chip.State(), state, status, virgin)
    }

    constructor (flash: FlashChip)
      ensures chip == flash && Now() == Device(flash.State(), DfuIdle, Ok, true)
    {
      chip, state, status, virgin := flash, DfuIdle, Ok, true;
    }

    method SetState(newState: DfuState)
      modifies this
      ensures Now() == InState(old(Now()), newState)
    {
      state := newState;
      virgin := false;
    }

    method Fail(newStatus: Status)
      modifies this
      ensures Now() == Error(old(Now()), newStatus)
    {
      if state != AppIdle && state != AppDetach {
        SetState(DfuError);
      }
      status := newStatus;
    }

    method RequestDetach(r: Request) returns (reply: Reply)
      modifies this
      ensures (Now(), reply) == Detach(old(Now()), r)
    {
      if r.wLength == 0 && r.wValue <= 15000 {
        SetState(AppDetach);
        return Replied([]);
      } else {
        Fail(ErrUnknown);
        return Stalled;
      }
    }

    method RequestDnload(r: Request, o: Outcomes) returns (reply: Reply)
      requires r.bRequest == DNLOAD
      modifies this, chip, chip.cells
      ensures (Now(), reply) == Dnload(old(Now()), r, o)
    {
      if r.wLength == 0 {
        if state != DnloadIdle {
          Fail(ErrStalledPkt);
          return Stalled;
        }
        SetState(ManifestSync);
        return Replied([]);
      } else if r.wLength == BLOCK {
        if state != DfuIdle && state != DnloadIdle {
          Fail(ErrStalledPkt);
          return Stalled;
        }
        var flashAddress := r.wValue * BLOCK;
        if flashAddress >= BOOT_END {
          var ok := chip.WriteBlock(flashAddress, r.data, o);
          if ok {
            SetState(DnloadSync);
          } else {
            Fail(ErrProg);
            return Stalled;
          }
          return Replied([]);
        } else {
          Fail(ErrWrite);
          return Stalled;
        }
      } else {
        Fail(ErrUnknown);
        return Stalled;
      }
    }

    method RequestUpload(r: Request) returns (reply: Reply)
      modifies this
      ensures (Now(), reply) == Upload(old(Now()), r)
    {
      if r.wLength == BLOCK {
        if state != DfuIdle && state != UploadIdle {
          Fail(ErrStalledPkt);
          return Stalled;
        }
        var start := r.wValue * BLOCK;
        var end := start + BLOCK;
        if start < 0x8_0000 && end - 1 < 0x8_0000 {
          if end > chip.cells.Length {
            return BusFault;
          }
          var data := chip.cells[start..end];
          SetState(DfuIdle);
          return Replied(data);
        } else {
          Fail(ErrAddress);
          return Stalled;
        }
      } else {
        Fail(ErrUnknown);
        return Stalled;
      }
    }

    method RequestGetStatus(r: Request) returns (reply: Reply)
      modifies this
      ensures (Now(), reply) == GetStatus(old(Now()), r)
    {
      if r.wValue == 0 && r.wLength == 6 {
        if state == DnloadSync {
          SetState(DnloadIdle);
        } else if state == ManifestSync {
          SetState(DfuIdle);
        }
        return Replied([StatusCode(status), 20, 0, 0, StateCode(state), 0]);
      } else {
        return Stalled;
      }
    }

    method RequestClrStatus(r: Request) returns (reply: Reply)
      modifies this
      ensures (Now(), reply) == ClrStatus(old(Now()), r)
    {
      if r.wValue == 0 && r.wLength == 0 && state == DfuError {
        status := Ok;
        SetState(DfuIdle);
        return Replied([]);
      }
      Fail(ErrUnknown);
      return Stalled;
    }

    method RequestGetState(r: Request) returns (reply: Reply)
      modifies this
      ensures (Now(), reply) == GetState(old(Now()), r)
    {
      if r.wValue == 0 && r.wLength == 1 {
        return Replied([StateCode(state)]);
      }
      Fail(ErrUnknown);
      return Stalled;
    }

    method RequestAbort(r: Request) returns (reply: Reply)
      modifies this
      ensures (Now(), reply) == Abort(old(Now()), r)
    {
      if r.wValue == 0 && r.wLength == 0 && state != DfuError {
        SetState(DfuIdle);
        return Replied([]);
      }
      Fail(ErrUnknown);
      return Stalled;
    }

    method RequestHandler(r: Request, o: Outcomes) returns (reply: Reply)
      modifies this, chip, chip.cells
      ensures (Now(), reply) == Handle(old(Now()), r, o)
    {
      if r.bRequest == DETACH {
        reply := RequestDetach(r);
      } else if r.bRequest == DNLOAD {
        reply := RequestDnload(r, o);
      } else if r.bRequest == UPLOAD {
        reply := RequestUpload(r);
      } else if r.bRequest == GETSTATUS {
        reply := RequestGetStatus(r);
      } else if r.bRequest == CLRSTATUS {
        reply := RequestClrStatus(r);
      } else if r.bRequest == GETSTATE {
        reply := RequestGetState(r);
      } else if r.bRequest == ABORT {
        reply := RequestAbort(r);
      } else {
        reply := Stalled;
      }
    }
  }
}
