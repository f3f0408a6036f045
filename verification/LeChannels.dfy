/**
 Low Energy channels: the channel index of a frequency and back, and the table of
 inverses modulo 37 (firmware/bluetooth_rxtx/bluetooth_le.c and bluetooth_le.h).
*/
module LeChannels {
  import opened Words

  /** btle_channel_index: the argument is the frequency in MHz above 2402. */
  function ChannelIndex(channel: u8): (idx: u8)
    ensures idx < 40
  {
    var c := channel / 2;
    if c == 0 then 37
    else if c < 12 then c - 1
    else if c == 12 then 38
    else if c < 39 then c - 2
    else 39
  }

  /** btle_channel_index_to_phys: the frequency of a channel index in MHz. */
  function IndexToPhys(idx: u8): u16 {
    if idx < 11 then 2404 + 2 * idx
    else if idx < 37 then 2428 + 2 * (idx - 11)
    else if idx == 37 then 2402
    else if idx == 38 then 2426
    else 2480
  }

  /** The expression btle_channel_index(channel - 2402), whose argument is cut to a byte. */
  function IndexOf(channel: u16): (idx: u8)
    ensures idx < 40
  {
    ChannelIndex((channel - 2402) % 0x100)
  }

  /** Every channel index has its own even frequency from 2402 to 2480 MHz, which leads back to it. */
  lemma IndexRoundTrip(idx: u8)
    requires idx < 40
    ensures 2402 <= IndexToPhys(idx) <= 2480 && IndexToPhys(idx) % 2 == 0
    ensures IndexOf(IndexToPhys(idx)) == idx
  {}

  /** Every even frequency of the band leads to an index that leads back to it, and so does the odd one above. */
  lemma PhysRoundTrip(channel: u16)
    requires 2402 <= channel <= 2480 && channel % 2 == 0
    ensures IndexToPhys(IndexOf(channel)) == channel
    ensures channel < 2480 ==> IndexOf(channel + 1) == IndexOf(channel)
  {}

  /**
   The channels of the standard: the three advertising channels have the indices 37, 38
   and 39, and the other even frequencies of the band rise with their index.
  */
  lemma ChannelsOfStandard(i: u8, j: u8)
    requires i < j < 37
    ensures IndexToPhys(37) == 2402 && IndexToPhys(38) == 2426 && IndexToPhys(39) == 2480
    ensures 2402 < IndexToPhys(i) < IndexToPhys(j) < 2480 && IndexToPhys(i) != 2426
    ensures IndexToPhys(i) % 2 == IndexToPhys(j) % 2 == 0
    ensures IndexOf(2402) == 37 && IndexOf(2426) == 38 && IndexOf(2480) == 39
  {}

  /** hop_interval_lut[i]. */
  function HopIntervalLut(i: nat): (n: u8)
    requires i < 37
    ensures n < 37
  {
    match i
    case 0 => 0 case 1 => 1 case 2 => 19 case 3 => 25 case 4 => 28 case 5 => 15 case 6 => 31 case 7 => 16
    case 8 => 14 case 9 => 33 case 10 => 26 case 11 => 27 case 12 => 34 case 13 => 20 case 14 => 8 case 15 => 5
    case 16 => 7 case 17 => 24 case 18 => 35 case 19 => 2 case 20 => 13 case 21 => 30 case 22 => 32 case 23 => 29
    case 24 => 17 case 25 => 3 case 26 => 10 case 27 => 11 case 28 => 4 case 29 => 23 case 30 => 21 case 31 => 6
    case 32 => 22 case 33 => 9 case 34 => 12 case 35 => 18 case _ => 36
  }

  /** The table holds inverses modulo 37, and it is its own inverse. */
  lemma LutInverts(i: nat)
    requires 0 < i < 37
    ensures (i * HopIntervalLut(i)) % 37 == 1
    ensures 0 < HopIntervalLut(i) && HopIntervalLut(HopIntervalLut(i)) == i
    ensures HopIntervalLut(0) == 0
  {}
}
