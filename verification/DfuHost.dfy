/**
 Firmware update from the host's side: entering DFU mode, download and upload
 (host/ubertooth-tools/src/ubertooth-dfu.c), run against the bootloader.
*/
module DfuHost {
  import opened Words
  import opened Flash
  import opened Dfu

  const CHIP_END: nat := 0x4_0000

  // The host's own numbers for requests and states (host/ubertooth-tools/src/dfu.h).

  const REQ_DNLOAD: u8 := 1
  const REQ_UPLOAD: u8 := 2
  const REQ_GETSTATUS: u8 := 3
  const REQ_CLRSTATUS: u8 := 4
  const REQ_GETSTATE: u8 := 5
  const REQ_ABORT: u8 := 6

  const STATE_DFU_IDLE: u8 := 2
  const STATE_DFU_DNLOAD_SYNC: u8 := 3
  const STATE_DFU_DNLOAD_IDLE: u8 := 5
  const STATE_DFU_MANIFEST_SYNC: u8 := 6
  const STATE_DFU_MANIFEST: u8 := 7
  const STATE_DFU_UPLOAD_IDLE: u8 := 9
  const STATE_DFU_ERROR: u8 := 10

  // ----- What a download leaves behind -----

  /** The address behind the last sector an image of some length reaches into. */
  function TouchedEnd(n: nat): nat
    requires n > 0
  {
    SectorStart(SectorNumber(BOOT_END + n - 1) + 1)
  }

  /** The cells after an image has been installed: the image, ones up to the end of its last sector, all else as before. */
  function InstalledCell(cells: seq<u8>, image: seq<u8>, a: nat): u8
    requires a < |cells|
  {
    if a < BOOT_END || image == [] then cells[a]
    else if a < BOOT_END + |image| then image[a - BOOT_END]
    else if a < TouchedEnd(|image|) then 0xff
    else cells[a]
  }

  function Installed(cells: seq<u8>, image: seq<u8>): (r: seq<u8>)
    ensures |r| == |cells|
  {
    seq(|cells|, a requires 0 <= a < |cells| => InstalledCell(cells, image, a))
  }

  lemma SectorNeighbours(address: nat)
    requires address % BLOCK == 0 && address > BOOT_END
    ensures address != SectorStart(SectorNumber(address)) ==> SectorNumber(address - 1) == SectorNumber(address)
    ensures address == SectorStart(SectorNumber(address)) ==> SectorStart(SectorNumber(address - 1) + 1) == address
  {}

  /** Where the touched sectors end before and after one more block. */
  lemma TouchedNext(n: nat)
    requires n % BLOCK == 0
    ensures var address := BOOT_END + n;
            var sector := SectorNumber(address);
            && TouchedEnd(n + BLOCK) == SectorStart(sector + 1) && address + BLOCK <= SectorStart(sector + 1)
            && (n == 0 ==> address == SectorStart(sector))
            && (n > 0 ==> TouchedEnd(n) == if address == SectorStart(sector) then address else SectorStart(sector + 1))
  {
    var address := BOOT_END + n;
    BlockInSector(address, BLOCK - 1);
    SectorOfAddress(address + BLOCK - 1, SectorNumber(address));
    if n > 0 {
      SectorNeighbours(address);
    }
  }

  /** One cell, one block on, before the block itself is programmed. */
  lemma NextBaseCell(cells: seq<u8>, part: seq<u8>, data: seq<u8>, a: nat)
    requires |part| % BLOCK == 0 && |data| == BLOCK && a < |cells|
    ensures var address := BOOT_END + |part|;
            BaseCell(Installed(cells, part), address, a)
            == if address <= a < address + BLOCK then 0xff else InstalledCell(cells, part + data, a)
  {
    TouchedNext(|part|);
    SectorOfAddress(a, SectorNumber(BOOT_END + |part|));
  }

  /** One cell, one block on. */
  lemma NextBlockCell(cells: seq<u8>, part: seq<u8>, data: seq<u8>, a: nat)
    requires |part| % BLOCK == 0 && |data| == BLOCK && a < |cells|
    ensures Written(Installed(cells, part), BOOT_END + |part|, data)[a] == InstalledCell(cells, part + data, a)
  {
    var address := BOOT_END + |part|;
    NextBaseCell(cells, part, data, a);
    WrittenAt(Installed(cells, part), address, data, a);
    if address <= a < address + BLOCK {
      ErasedTakes(data[a - address]);
    }
  }

  lemma NextBlock(cells: seq<u8>, part: seq<u8>, data: seq<u8>)
    requires |part| % BLOCK == 0 && |data| == BLOCK
    ensures Written(Installed(cells, part), BOOT_END + |part|, data) == Installed(cells, part + data)
  {
    forall a | 0 <= a < |cells|
      ensures Written(Installed(cells, part), BOOT_END + |part|, data)[a] == Installed(cells, part + data)[a]
    {
      NextBlockCell(cells, part, data, a);
    }
  }

  // ----- Blocks of a file -----

  /** The block read at an offset of a file, filled up with ones behind the end. */
  function BlockAt(image: seq<u8>, offset: nat): (block: seq<u8>)
    ensures |block| == BLOCK
  {
    seq(BLOCK, k requires 0 <= k < BLOCK => if offset + k < |image| then image[offset + k] else 0xff)
  }

  /** The first n blocks. */
  function Blocks(image: seq<u8>, n: nat): (r: seq<u8>)
    ensures |r| == BLOCK * n
  {
    if n == 0 then [] else Blocks(image, n - 1) + BlockAt(image, BLOCK * (n - 1))
  }

  lemma {:induction false} BlocksAt(image: seq<u8>, n: nat, i: nat)
    requires i < BLOCK * n
    ensures Blocks(image, n)[i] == if i < |image| then image[i] else 0xff
  {
    if i < BLOCK * (n - 1) {
      BlocksAt(image, n - 1, i);
    }
  }

  function BlockCount(n: nat): nat {
    (n + BLOCK - 1) / BLOCK
  }

  lemma LastBlock(image: seq<u8>)
    ensures var n := BlockCount(|image|); |image| <= BLOCK * n < |image| + BLOCK
  {}

  lemma PaddedCell(cells: seq<u8>, image: seq<u8>, n: nat, a: nat)
    requires 0 < |image| <= BLOCK * n < |image| + BLOCK && a < |cells|
    ensures InstalledCell(cells, Blocks(image, n), a) == InstalledCell(cells, image, a)
  {
    SameSectorEnd(|image|, BLOCK * n);
    if BOOT_END <= a < BOOT_END + BLOCK * n {
      BlocksAt(image, n, a - BOOT_END);
      InTouched(BLOCK * n, a);
    }
  }

  /** The padding of the last block is what the erased cells hold anyway. */
  lemma PaddingIsErased(cells: seq<u8>, image: seq<u8>, n: nat)
    requires |image| <= BLOCK * n < |image| + BLOCK
    ensures Installed(cells, Blocks(image, n)) == Installed(cells, image)
  {
    forall a | 0 <= a < |cells| ensures InstalledCell(cells, Blocks(image, n), a) == InstalledCell(cells, image, a) {
      if image != [] {
        PaddedCell(cells, image, n, a);
      }
    }
  }

  lemma SameSectorEnd(n: nat, m: nat)
    requires 0 < n <= m < n + BLOCK && m % BLOCK == 0
    ensures TouchedEnd(n) == TouchedEnd(m)
  {
    var first := BOOT_END + m - BLOCK;
    BlockInSector(first, BOOT_END + n - 1 - first);
    BlockInSector(first, BLOCK - 1);
  }

  lemma InTouched(n: nat, a: nat)
    requires n > 0 && BOOT_END <= a < BOOT_END + n
    ensures a < TouchedEnd(n)
  {}

  // ----- Operations of a download -----

  function InstallOps(n: nat): seq<Op> {
    if n == 0 then [] else InstallOps(n - 1) + WriteOps(BOOT_END + BLOCK * (n - 1))
  }

  function Times(log: seq<Op>, op: Op): nat {
    if log == [] then 0 else Times(log[..|log| - 1], op) + if log[|log| - 1] == op then 1 else 0
  }

  lemma {:induction false} TimesAppend(a: seq<Op>, b: seq<Op>, op: Op)
    ensures Times(a + b, op) == Times(a, op) + Times(b, op)
  {
    if b == [] {
      assert a + b == a;
    } else {
      assert (a + b)[..|a + b| - 1] == a + b[..|b| - 1];
      TimesAppend(a, b[..|b| - 1], op);
    }
  }

  lemma TimesOfOne(op: Op, x: Op)
    ensures Times([op], x) == if op == x then 1 else 0
  {}

  lemma TimesOfTwo(p: Op, q: Op, x: Op)
    ensures Times([p] + [q], x) == (if p == x then 1 else 0) + (if q == x then 1 else 0)
  {
    TimesAppend([p], [q], x);
    TimesOfOne(p, x);
    TimesOfOne(q, x);
  }

  lemma ErasedInBlock(address: nat, sector: nat)
    ensures Times(WriteOps(address), Erased(sector)) == if address == SectorStart(sector) then 1 else 0
  {
    var own := SectorNumber(address);
    SectorOfAddress(address, own);
    SectorOfAddress(address, sector);
    TimesOfTwo(Erased(own), Programmed(address, BLOCK), Erased(sector));
    TimesOfOne(Programmed(address, BLOCK), Erased(sector));
    assert [] + [Programmed(address, BLOCK)] == [Programmed(address, BLOCK)];
  }

  lemma ProgrammedInBlock(address: nat, a: nat, length: nat)
    ensures Times(WriteOps(address), Programmed(a, length)) == if a == address && length == BLOCK then 1 else 0
  {
    TimesOfTwo(Erased(SectorNumber(address)), Programmed(address, BLOCK), Programmed(a, length));
    TimesOfOne(Programmed(address, BLOCK), Programmed(a, length));
    assert [] + [Programmed(address, BLOCK)] == [Programmed(address, BLOCK)];
  }

  /** One of the first n block addresses of the application. */
  predicate IsBlock(n: nat, x: nat) {
    BOOT_END <= x < BOOT_END + BLOCK * n && x % BLOCK == 0
  }

  lemma NextIsBlock(n: nat, x: nat)
    requires n > 0
    ensures IsBlock(n, x) <==> IsBlock(n - 1, x) || x == BOOT_END + BLOCK * (n - 1)
    ensures !IsBlock(n - 1, BOOT_END + BLOCK * (n - 1))
  {}

  lemma NextInstallOps(n: nat, op: Op)
    requires n > 0
    ensures Times(InstallOps(n), op) == Times(InstallOps(n - 1), op) + Times(WriteOps(BOOT_END + BLOCK * (n - 1)), op)
  {
    TimesAppend(InstallOps(n - 1), WriteOps(BOOT_END + BLOCK * (n - 1)), op);
  }

  /** Every sector the image reaches into is erased once, every other sector never. */
  lemma {:induction false} ErasedOnce(n: nat, sector: nat)
    ensures Times(InstallOps(n), Erased(sector)) == if IsBlock(n, SectorStart(sector)) then 1 else 0
  {
    if n > 0 {
      ErasedOnce(n - 1, sector);
      NextInstallOps(n, Erased(sector));
      ErasedInBlock(BOOT_END + BLOCK * (n - 1), sector);
      NextIsBlock(n, SectorStart(sector));
    }
  }

  /** Every block is programmed once, and nothing else is. */
  lemma {:induction false} ProgrammedOnce(n: nat, address: nat, length: nat)
    ensures Times(InstallOps(n), Programmed(address, length)) == if IsBlock(n, address) && length == BLOCK then 1 else 0
  {
    if n > 0 {
      ProgrammedOnce(n - 1, address, length);
      NextInstallOps(n, Programmed(address, length));
      ProgrammedInBlock(BOOT_END + BLOCK * (n - 1), address, length);
      NextIsBlock(n, address);
    }
  }

  /** The chip after the first n blocks of an image. */
  function InstalledChip(before: Chip, image: seq<u8>, n: nat, prepared: int): Chip {
    Chip(before.sectors, Installed(before.cells, Blocks(image, n)), prepared, before.log + InstallOps(n))
  }

  /** When a block is programmed, every cell it goes to is erased. */
  lemma ProgramsErasedCells(before: Chip, image: seq<u8>, n: nat, prepared: int, k: nat)
    requires Sound(before) && BOOT_END + BLOCK * n < |before.cells| && k < BLOCK
    ensures var address := BOOT_END + BLOCK * n;
            && address + k < |before.cells|
            && AfterStart(InstalledChip(before, image, n, prepared), address, WORKING).0.cells[address + k] == 0xff
  {
    var address := BOOT_END + BLOCK * n;
    OnChip(before, address);
    BoundaryExactly(address);
    BlockInSector(address, k);
    if address != SectorStart(SectorNumber(address)) {
      SectorNeighbours(address);
      SectorOfAddress(address + k, SectorNumber(address));
    }
  }

  // ----- The host's loops -----

  /** enter_dfu_mode. */
  method EnterDfuMode(dev: Bootloader) returns (rv: int)
    requires InDfuMode(dev.Now())
    modifies dev, dev.chip, dev.chip.cells
    ensures rv == 0 && dev.state == DfuIdle && dev.status == Ok && dev.chip.State() == old(dev.chip.State())
  {
    while true
      invariant InDfuMode(dev.Now()) && dev.chip.State() == old(dev.chip.State())
      decreases if dev.state == DfuIdle then 0 else 1
    {
      var reply := dev.RequestHandler(Setup(REQ_GETSTATE, 0, 1, []), WORKING);
      var state := reply.data[0];
      if state == STATE_DFU_IDLE {
        break;
      }
      if state in {STATE_DFU_DNLOAD_SYNC, STATE_DFU_DNLOAD_IDLE, STATE_DFU_MANIFEST_SYNC, STATE_DFU_UPLOAD_IDLE,
                   STATE_DFU_MANIFEST} {
        reply := dev.RequestHandler(Setup(REQ_ABORT, 0, 0, []), WORKING);
        if reply.Stalled? {
          return -9;
        }
      } else if state == STATE_DFU_ERROR {
        reply := dev.RequestHandler(Setup(REQ_CLRSTATUS, 0, 0, []), WORKING);
      }
    }
    return 0;
  }

  /** Where a download to a working chip stands after n blocks: all that fit are in place, later ones were refused. */
  predicate Downloading(d: Device, before: Chip, image: seq<u8>, n: nat, fits: nat) {
    && d.chip == InstalledChip(before, image, if n < fits then n else fits, d.chip.prepared)
    && if n == 0 then d.state == DfuIdle else if n <= fits then d.state == DnloadIdle else d.state == DfuError
  }

  lemma NothingInstalled(c: Chip)
    ensures Installed(c.cells, []) == c.cells && c.log + InstallOps(0) == c.log
  {}

  /** What a block request and the status request behind it make of the device. */
  function AfterBlock(d: Device, block: u16, data: seq<u8>): Device
    requires |data| == BLOCK
  {
    var e := Handle(d, Setup(REQ_DNLOAD, block, BLOCK, data), WORKING).0;
    Handle(e, Setup(REQ_GETSTATUS, 0, 6, []), WORKING).0
  }

  lemma BlockAccepted(d: Device, block: u16, data: seq<u8>)
    requires Sound(d.chip) && |data| == BLOCK && (d.state == DfuIdle || d.state == DnloadIdle)
    requires BOOT_END <= block * BLOCK < |d.chip.cells|
    ensures AfterBlock(d, block, data) == Device(Write(d.chip, block * BLOCK, data, WORKING).0, DnloadIdle, d.status, false)
  {}

  lemma BlockRefused(d: Device, block: u16, data: seq<u8>)
    requires Sound(d.chip) && |data| == BLOCK
    requires d.state == DfuError || ((d.state == DfuIdle || d.state == DnloadIdle) && block * BLOCK >= |d.chip.cells|)
    ensures AfterBlock(d, block, data).state == DfuError && AfterBlock(d, block, data).chip == d.chip
  {
    WriteWorks(d.chip, block * BLOCK, data);
  }

  lemma LogGrows(log: seq<Op>, n: nat)
    ensures log + InstallOps(n) + WriteOps(BOOT_END + BLOCK * n) == log + InstallOps(n + 1)
  {}

  lemma CellsGrow(cells: seq<u8>, image: seq<u8>, n: nat)
    ensures Written(Installed(cells, Blocks(image, n)), BOOT_END + BLOCK * n, BlockAt(image, BLOCK * n))
         == Installed(cells, Blocks(image, n + 1))
  {
    NextBlock(cells, Blocks(image, n), BlockAt(image, BLOCK * n));
  }

  lemma InstallOneMore(c: Chip, image: seq<u8>, n: nat, prepared: int)
    requires Sound(c) && BOOT_END + BLOCK * n < |c.cells|
    ensures Write(InstalledChip(c, image, n, prepared), BOOT_END + BLOCK * n, BlockAt(image, BLOCK * n), WORKING).0
         == InstalledChip(c, image, n + 1, -1)
  {
    var d, address, data := InstalledChip(c, image, n, prepared), BOOT_END + BLOCK * n, BlockAt(image, BLOCK * n);
    LogGrows(c.log, n);
    CellsGrow(c.cells, image, n);
    BlockStart(n);
    OneMoreBlock(d, address, data);
  }

  lemma BlockStart(n: nat)
    ensures (BOOT_END + BLOCK * n) % BLOCK == 0
  {}

  lemma OneMoreBlock(d: Chip, address: nat, data: seq<u8>)
    requires Sound(d) && address % BLOCK == 0 && address < |d.cells| && |data| == BLOCK
    ensures Write(d, address, data, WORKING).0 == Chip(d.sectors, Written(d.cells, address, data), -1, d.log + WriteOps(address))
  {
    WriteWorks(d, address, data);
  }

  /** One turn of the download loop. */
  lemma NextDownload(d: Device, before: Chip, image: seq<u8>, n: nat, fits: nat, block: u16)
    requires Sound(before) && BOOT_END + BLOCK * fits == |before.cells| && Downloading(d, before, image, n, fits)
    requires block == (BOOT_END / BLOCK + n) % 0x1_0000
    ensures Downloading(AfterBlock(d, block, BlockAt(image, BLOCK * n)), before, image, n + 1, fits)
  {
    if n < fits {
      BlockOnChip(before, fits, block, n);
      BlockAccepted(d, block, BlockAt(image, BLOCK * n));
      InstallOneMore(before, image, n, d.chip.prepared);
    } else {
      if n == fits {
        BlockOnChip(before, fits, block, n);
      }
      BlockRefused(d, block, BlockAt(image, BLOCK * n));
    }
  }

  lemma BlockOnChip(c: Chip, fits: nat, block: u16, n: nat)
    requires Sound(c) && BOOT_END + BLOCK * fits == |c.cells| && n <= fits && block == (BOOT_END / BLOCK + n) % 0x1_0000
    ensures block * BLOCK == BOOT_END + BLOCK * n
  {}

  /** Blocks of the application area of a chip. */
  function Room(c: Chip): nat {
    if |c.cells| < BOOT_END then 0 else (|c.cells| - BOOT_END) / BLOCK
  }

  lemma RoomExact(c: Chip)
    requires Sound(c)
    ensures |c.cells| >= BOOT_END && BOOT_END + BLOCK * Room(c) == |c.cells|
  {}

  lemma MoreBlocks(image: seq<u8>, n: nat)
    requires n <= BlockCount(|image|)
    ensures BLOCK * n < |image| <==> n < BlockCount(|image|)
  {}

  /** fread of a block into the buffer, and the loop that fills the buffer up. */
  method ReadBlock(image: seq<u8>, offset: nat, buffer: array<u8>)
    requires buffer.Length == BLOCK && offset < |image|
    modifies buffer
    ensures buffer[..] == BlockAt(image, offset)
  {
    var length := if |image| - offset < BLOCK then |image| - offset else BLOCK;
    forall k | 0 <= k < length {
      buffer[k] := image[offset + k];
    }
    while length < BLOCK
      invariant length <= BLOCK
      invariant |image| - offset <= length || length == BLOCK
      invariant forall k :: 0 <= k < length ==> buffer[k] == if offset + k < |image| then image[offset + k] else 0xff
    {
      buffer[length] := 0xff;
      length := length + 1;
    }
  }

  /** One block and the status request behind it. */
  method SendBlock(dev: Bootloader, block: u16, buffer: seq<u8>)
    requires |buffer| == BLOCK
    modifies dev, dev.chip, dev.chip.cells
    ensures dev.Now() == AfterBlock(old(dev.Now()), block, buffer)
  {
    var sent := dev.RequestHandler(Setup(REQ_DNLOAD, block, BLOCK, buffer), WORKING);
    var status := dev.RequestHandler(Setup(REQ_GETSTATUS, 0, 6, []), WORKING);
  }

  /** One turn of the download loop; the block number is cut to the 16 bits of the request. */
  method DownloadBlock(dev: Bootloader, image: seq<u8>, n: nat, block: nat, buffer: array<u8>, ghost before: Chip,
                       ghost fits: nat)
    requires buffer.Length == BLOCK && BLOCK * n < |image| && block == BOOT_END / BLOCK + n
    requires buffer != dev.chip.cells
    requires Sound(before) && BOOT_END + BLOCK * fits == |before.cells|
    requires Downloading(dev.Now(), before, image, n, fits)
    modifies dev, dev.chip, dev.chip.cells, buffer
    ensures Downloading(dev.Now(), before, image, n + 1, fits)
  {
    ReadBlock(image, BLOCK * n, buffer);
    NextDownload(dev.Now(), before, image, n, fits, block % 0x1_0000);
    SendBlock(dev, block % 0x1_0000, buffer[..]);
  }

  /**
   download: reads the file block by block, fills the last block up, and asks for the
   status after every block.  A refused block does not stop the loop.
  */
  method Download(dev: Bootloader, image: seq<u8>) returns (rv: int)
    requires InDfuMode(dev.Now()) && Sound(dev.chip.State())
    modifies dev, dev.chip, dev.chip.cells
    ensures rv == 0
    ensures Downloading(dev.Now(), old(dev.chip.State()), image, BlockCount(|image|), Room(old(dev.chip.State())))
  {
    ghost var before := dev.chip.State();
    ghost var fits, count := Room(before), BlockCount(|image|);
    RoomExact(before);
    rv := EnterDfuMode(dev);
    NothingInstalled(before);
    var buffer := new u8[BLOCK];
    var block: nat, n: nat := BOOT_END / BLOCK, 0;
    MoreBlocks(image, 0);
    while BLOCK * n < |image|
      invariant n <= count && block == BOOT_END / BLOCK + n
      invariant BLOCK * n < |image| <==> n < count
      invariant Downloading(dev.Now(), before, image, n, fits)
      decreases count - n
    {
      DownloadBlock(dev, image, n, block, buffer, before, fits);
      MoreBlocks(image, n + 1);
      block := block + 1;
      n := n + 1;
    }
    return 0;
  }

  /**
   After the download of a file that fits, the file is in the flash behind the
   bootloader, the rest of its last sector is erased and everything else is as before,
   every touched sector has been erased once, and the device waits for more.
  */
  lemma DownloadInstalls(d: Device, before: Chip, image: seq<u8>)
    requires Sound(before) && |image| <= |before.cells| - BOOT_END
    requires Downloading(d, before, image, BlockCount(|image|), Room(before))
    ensures d.chip.cells == Installed(before.cells, image)
    ensures d.chip.log == before.log + InstallOps(BlockCount(|image|))
    ensures d.chip.cells[0x4000..0x4000 + |image|] == image
    ensures d.state != DfuError
  {
    RoomExact(before);
    LastBlock(image);
    PaddingIsErased(before.cells, image, BlockCount(|image|));
  }

  /**
   The host reports success for every file, but the file is in the flash exactly when it
   fits: of a longer one the blocks that fit are there and the device is in the error
   state.
  */
  lemma LongFileRefused(d: Device, before: Chip, image: seq<u8>)
    requires Sound(before) && |image| > |before.cells| - BOOT_END
    requires Downloading(d, before, image, BlockCount(|image|), Room(before))
    ensures d.state == DfuError
    ensures d.chip.cells == Installed(before.cells, image[..|before.cells| - BOOT_END])
  {
    RoomExact(before);
    LastBlock(image);
    var fitting := image[..|before.cells| - BOOT_END];
    SameBlocks(image, fitting, Room(before));
    PaddingIsErased(before.cells, fitting, Room(before));
  }

  lemma {:induction false} SameBlocks(image: seq<u8>, part: seq<u8>, n: nat)
    requires part <= image && BLOCK * n <= |part|
    ensures Blocks(image, n) == Blocks(part, n)
  {
    if n > 0 {
      SameBlocks(image, part, n - 1);
    }
  }

  /** upload: reads the application area of a chip of 256 KB block by block. */
  method UploadFile(dev: Bootloader) returns (rv: int, file: seq<u8>)
    requires InDfuMode(dev.Now()) && Sound(dev.chip.State())
    modifies dev, dev.chip, dev.chip.cells
    ensures dev.chip.State() == old(dev.chip.State())
    ensures rv == 0 <==> |dev.chip.State().cells| >= 256 * 1024
    ensures rv == 0 ==> file == dev.chip.State().cells[0x4000..256 * 1024]
  {
    rv := EnterDfuMode(dev);
    file := [];
    var address := BOOT_END;
    var length := CHIP_END - address;
    var block := address / BLOCK;
    while length > 0
      invariant 0 <= length <= CHIP_END - BOOT_END && length % BLOCK == 0
      invariant block * BLOCK + length == CHIP_END
      invariant dev.chip.State() == old(dev.chip.State()) && dev.state == DfuIdle
      invariant block * BLOCK <= |dev.chip.State().cells|
      invariant file == dev.chip.State().cells[BOOT_END..block * BLOCK]
    {
      var reply := dev.RequestHandler(Setup(REQ_UPLOAD, block, BLOCK, []), WORKING);
      if !reply.Replied? {
        return -1, file;
      }
      file := file + reply.data;
      block := block + 1;
      length := length - BLOCK;
    }
    return 0, file;
  }

  /** What an upload reads after a download begins with the file that was downloaded. */
  lemma UploadReadsDownload(cells: seq<u8>, image: seq<u8>)
    requires |cells| >= CHIP_END && |image| <= CHIP_END - BOOT_END
    ensures Installed(cells, image)[BOOT_END..CHIP_END][..|image|] == image
  {
    forall k | 0 <= k < |image| ensures Installed(cells, image)[BOOT_END + k] == image[k] {
      assert InstalledCell(cells, image, BOOT_END + k) == image[k];
    }
  }
}
