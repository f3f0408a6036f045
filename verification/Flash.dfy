/**
 The flash memory behind the bootloader: the sector map, the in-application
 programming calls of the chip as a contract, and Flash::write
 (firmware/bootloader/flash.h and iap.h).
*/
module Flash {
  import opened Words

  const BLOCK: nat := 256

  // ----- The sector map -----

  function SectorSize(a: nat): nat {
    if a < 0x1_0000 then 4096 else 32768
  }

  function SectorNumber(a: nat): nat {
    if a < 0x1_0000 then a / 4096 else 14 + a / 32768
  }

  /** The address a sector starts at. */
  function SectorStart(s: nat): nat {
    if s < 16 then 4096 * s else 0x1_0000 + 32768 * (s - 16)
  }

  /** An address is in the sector its number says, and in no other. */
  lemma SectorOfAddress(a: nat, s: nat)
    ensures SectorNumber(a) == s <==> SectorStart(s) <= a < SectorStart(s + 1)
  {}

  lemma MaskIsRest(a: nat, n: nat)
    ensures And(a, Pow2(n) - 1) == a % Pow2(n)
  {
    MaskIsLow(a, n, Pow2(n) - 1);
    LowIsRest(a, n);
  }

  /** The mask test finds exactly the addresses that start a sector of the irregular map. */
  lemma BoundaryExactly(a: nat)
    ensures And(a, SectorSize(a) - 1) == 0 <==> a == SectorStart(SectorNumber(a))
  {
    assert Pow2(10) == 4 * Pow2(8) && Pow2(12) == 4 * Pow2(10);
    assert Pow2(8) == 256;
    assert Pow2(15) == 8 * Pow2(12);
    if a < 0x1_0000 {
      MaskIsRest(a, 12);
    } else {
      MaskIsRest(a, 15);
    }
  }

  /** A block of 256 bytes on a block boundary lies in one sector. */
  lemma BlockInSector(a: nat, k: nat)
    requires a % BLOCK == 0 && k < BLOCK
    ensures SectorNumber(a + k) == SectorNumber(a)
  {}

  // ----- The chip -----

  /** An erased sector, and a stretch of cells programmed. */
  datatype Op = Erased(sector: nat) | Programmed(address: nat, length: nat)

  /**
   The cells, the sector prepared for the next operation, and the operations done so
   far.  The chip has a whole number of sectors, of the at most 30 that end at the
   limit of valid_address.
  */
  datatype Chip = Chip(sectors: nat, cells: seq<u8>, prepared: int, log: seq<Op>)

  predicate Sound(c: Chip) {
    5 <= c.sectors <= 30 && |c.cells| == SectorStart(c.sectors)
  }

  datatype Code = CmdSuccess | DstAddrNotMapped | CountError | InvalidSector | NotPrepared | Busy

  /** Whether the chip carries out each of the calls of one write, apart from the reasons to refuse below. */
  datatype Outcomes = Outcomes(prepare: bool, erase: bool, prepareAgain: bool, copy: bool)

  const WORKING := Outcomes(true, true, true, true)

  function PrepareCode(c: Chip, sector: nat, works: bool): Code {
    if !works then Busy else if sector >= c.sectors then InvalidSector else CmdSuccess
  }

  function Prepared(c: Chip, sector: nat, works: bool): Chip {
    if PrepareCode(c, sector, works) == CmdSuccess then c.(prepared := sector) else c
  }

  function EraseCode(c: Chip, sector: nat, works: bool): Code {
    if !works then Busy else if sector >= c.sectors then InvalidSector
    else if c.prepared != sector then NotPrepared else CmdSuccess
  }

  /** Erasing sets every cell of the sector to all ones. */
  function EraseCells(cells: seq<u8>, sector: nat): (r: seq<u8>)
    ensures |r| == |cells|
  {
    seq(|cells|, i requires 0 <= i < |cells| => if SectorNumber(i) == sector then 0xff else cells[i])
  }

  function AfterErase(c: Chip, sector: nat, works: bool): Chip {
    if EraseCode(c, sector, works) == CmdSuccess
    then c.(cells := EraseCells(c.cells, sector), prepared := -1, log := c.log + [Erased(sector)])
    else c
  }

  function CopyCode(c: Chip, address: nat, data: seq<u8>, works: bool): Code {
    if !works then Busy
    else if address % BLOCK != 0 || address + |data| > |c.cells| then DstAddrNotMapped
    else if |data| != 256 && |data| != 512 && |data| != 1024 && |data| != 4096 then CountError
    else if c.prepared != SectorNumber(address) then NotPrepared
    else CmdSuccess
  }

  lemma AndByte(a: u8, b: u8)
    ensures And(a, b) < 0x100
  {
    AndRange(a, b);
  }

  /** Programming can only clear bits. */
  function ProgramCell(old_: u8, b: u8): u8 {
    AndByte(old_, b);
    And(old_, b)
  }

  function ProgramCells(cells: seq<u8>, address: nat, data: seq<u8>): (r: seq<u8>)
    ensures |r| == |cells|
  {
    seq(|cells|, i requires 0 <= i < |cells| =>
      if address <= i < address + |data| then ProgramCell(cells[i], data[i - address]) else cells[i])
  }

  function AfterCopy(c: Chip, address: nat, data: seq<u8>, works: bool): Chip {
    if CopyCode(c, address, data, works) == CmdSuccess
    then c.(cells := ProgramCells(c.cells, address, data), prepared := -1, log := c.log + [Programmed(address, |data|)])
    else c
  }

  lemma OnesTake(ones: nat, b: nat, n: nat)
    requires ones == Pow2(n) - 1 && b < Pow2(n)
    ensures And(ones, b) == b
  {}

  /** An erased cell takes any value. */
  lemma ErasedTakes(b: u8)
    ensures ProgramCell(0xff, b) == b
  {
    Pow2Values();
    OnesTake(0xff, b, 8);
  }

  // ----- Flash::write -----

  /** The chip when the write comes to its second prepare call, and whether all went well so far. */
  function AfterStart(c: Chip, address: nat, o: Outcomes): (r: (Chip, bool))
    ensures !r.1 ==> r.0.cells == c.cells && r.0.log == c.log
  {
    var sector := SectorNumber(address);
    if And(address, SectorSize(address) - 1) != 0 then (c, true)
    else if PrepareCode(c, sector, o.prepare) != CmdSuccess then (c, false)
    else
      var p := Prepared(c, sector, o.prepare);
      (AfterErase(p, sector, o.erase), EraseCode(p, sector, o.erase) == CmdSuccess)
  }

  /** Flash::write: the outcome of the copy itself is not looked at. */
  function Write(c: Chip, address: nat, data: seq<u8>, o: Outcomes): (Chip, bool) {
    var sector := SectorNumber(address);
    var (d, ok) := AfterStart(c, address, o);
    if !ok || PrepareCode(d, sector, o.prepareAgain) != CmdSuccess then (d, false)
    else (AfterCopy(Prepared(d, sector, o.prepareAgain), address, data, o.copy), true)
  }

  /** What a write to a working chip does to the cells. */
  function Written(cells: seq<u8>, address: nat, data: seq<u8>): (r: seq<u8>)
    ensures |r| == |cells|
  {
    ProgramCells(if address == SectorStart(SectorNumber(address)) then EraseCells(cells, SectorNumber(address)) else cells,
                 address, data)
  }

  /** One cell before the programming of such a write. */
  function BaseCell(cells: seq<u8>, address: nat, a: nat): u8
    requires a < |cells|
  {
    if address == SectorStart(SectorNumber(address)) && SectorNumber(a) == SectorNumber(address) then 0xff else cells[a]
  }

  lemma WrittenAt(cells: seq<u8>, address: nat, data: seq<u8>, a: nat)
    requires a < |cells|
    ensures Written(cells, address, data)[a]
         == if address <= a < address + |data| then ProgramCell(BaseCell(cells, address, a), data[a - address])
            else BaseCell(cells, address, a)
  {}

  /** The operations of such a write. */
  function WriteOps(address: nat): seq<Op> {
    (if address == SectorStart(SectorNumber(address)) then [Erased(SectorNumber(address))] else []) + [Programmed(address, BLOCK)]
  }

  /** A write of one block to a working chip succeeds exactly when the block is on the chip. */
  lemma WriteWorks(c: Chip, address: nat, data: seq<u8>)
    requires Sound(c) && address % BLOCK == 0 && |data| == BLOCK
    ensures Write(c, address, data, WORKING).1 <==> address < |c.cells|
    ensures address < |c.cells| ==>
              Write(c, address, data, WORKING).0
              == Chip(c.sectors, Written(c.cells, address, data), -1, c.log + WriteOps(address))
    ensures address >= |c.cells| ==> Write(c, address, data, WORKING).0 == c
  {
    BoundaryExactly(address);
    OnChip(c, address);
  }

  /**
   A write whatever the chip does: it succeeds exactly when the block is on the chip, the
   second prepare works, and at the start of a sector the first one and the erase do; and
   it has done exactly the operations that worked.
  */
  lemma WriteExactly(c: Chip, address: nat, data: seq<u8>, o: Outcomes)
    requires Sound(c) && address % 256 == 0 && |data| == 256
    ensures var r, boundary := Write(c, address, data, o), address == SectorStart(SectorNumber(address));
            var erased := boundary && address < |c.cells| && o.prepare && o.erase;
            var ok := address < |c.cells| && o.prepareAgain && (boundary ==> o.prepare && o.erase);
            && r.1 == ok
            && r.0.log == c.log + (if erased then [Erased(SectorNumber(address))] else [])
                                + (if ok && o.copy then [Programmed(address, 256)] else [])
            && r.0.cells == (var cells := if erased then EraseCells(c.cells, SectorNumber(address)) else c.cells;
                             if ok && o.copy then ProgramCells(cells, address, data) else cells)
  {
    BoundaryExactly(address);
    OnChip(c, address);
  }

  lemma OnChip(c: Chip, address: nat)
    requires Sound(c) && address % BLOCK == 0
    ensures address < |c.cells| <==> SectorNumber(address) < c.sectors
    ensures address < |c.cells| ==> address + BLOCK <= |c.cells|
  {}

  // ----- The firmware's form -----

  class FlashChip {
    const cells: array<u8>
    const sectors: nat
    var prepared: int
    ghost var log: seq<Op>

    ghost function State(): Chip
      reads this, cells
    {
      Chip(sectors, cells[..], prepared, log)
    }

    method PrepareSector(sector: nat, works: bool) returns (code: Code)
      modifies this
      ensures code == PrepareCode(old(State()), sector, works) && State() == Prepared(old(State()), sector, works)
    {
      if !works {
        return Busy;
      }
      if sector >= sectors {
        return InvalidSector;
      }
      prepared := sector;
      return CmdSuccess;
    }

    method EraseSector(sector: nat, works: bool) returns (code: Code)
      modifies this, cells
      ensures code == EraseCode(old(State()), sector, works) && State() == AfterErase(old(State()), sector, works)
    {
      if !works {
        return Busy;
      }
      if sector >= sectors {
        return InvalidSector;
      }
      if prepared != sector {
        return NotPrepared;
      }
      forall i | 0 <= i < cells.Length && SectorNumber(i) == sector {
        cells[i] := 0xff;
      }
      prepared := -1;
      log := log + [Erased(sector)];
      assert cells[..] == EraseCells(old(cells[..]), sector);
      return CmdSuccess;
    }

    method CopyRamToFlash(address: nat, data: seq<u8>, works: bool) returns (code: Code)
      modifies this, cells
      ensures code == CopyCode(old(State()), address, data, works) && State() == AfterCopy(old(State()), address, data, works)
    {
      if !works {
        return Busy;
      }
      if address % BLOCK != 0 || address + |data| > cells.Length {
        return DstAddrNotMapped;
      }
      if |data| != 256 && |data| != 512 && |data| != 1024 && |data| != 4096 {
        return CountError;
      }
      if prepared != SectorNumber(address) {
        return NotPrepared;
      }
      forall i | address <= i < address + |data| {
        cells[i] := ProgramCell(cells[i], data[i - address]);
      }
      prepared := -1;
      log := log + [Programmed(address, |data|)];
      assert cells[..] == ProgramCells(old(cells[..]), address, data);
      return CmdSuccess;
    }

    method WriteBlock(address: nat, data: seq<u8>, o: Outcomes) returns (ok: bool)
      modifies this, cells
      ensures State() == Write(old(State()), address, data, o).0 && ok == Write(old(State()), address, data, o).1
    {
      var result := CmdSuccess;
      var sector := SectorNumber(address);
      if And(address, SectorSize(address) - 1) == 0 {
        result := PrepareSector(sector, o.prepare);
        if result == CmdSuccess {
          result := EraseSector(sector, o.erase);
        }
      }
      if result == CmdSuccess {
        result := PrepareSector(sector, o.prepareAgain);
      }
      if result == CmdSuccess {
        var ignored := CopyRamToFlash(address, data, o.copy);
      }
      ok := result == CmdSuccess;
    }
  }
}
