# Ubertooth in Dafny

A model of the parts of Project Ubertooth whose correctness is hard to see from
the code alone, and proofs of what those parts promise.

* **Low Energy packets** (`Words`, `Crc24`, `CrcTable`, `LeChannels`, `Whitening`,
  `LinkFrame`, `LeReceive`, `LeFollow`): the link-layer CRC in its bit-serial, its
  table-driven and its backward form, all against the shift register of the
  Bluetooth Core Specification (Vol 6 Part B section 3.1.1); the whitening tables
  against the register of section 3.2; transmission, and two receivers that
  de-whiten a word at a time and a bit at a time.
* **Following a connection** (`LinkLayer`, `FollowRun`, `CrcCheck`, `Promisc`): timer interrupt,
  packet callbacks, hop and flush as a state machine; the channels, the hop count, the
  timer and the CRC check over whole runs; joining a connection under way.
* **Access addresses** (`AaTable`), **basic-rate hopping** (`BasicHop`, Vol 2 Part B
  section 2.6) and the **sweep** (`Sweep`).
* **Firmware update** (`Flash`, `Dfu`, `DfuHost`): sector map, flash programming, the
  DFU state machine of the bootloader (USB DFU 1.1, section 6.1 and appendix A), and
  the host's loops run against it.
* **In-place and shared structures**: the argument permutation of `getopt` (`Getopt`)
  and the USB packet FIFO (`UsbFifo`).

Functions describe what one step does to a value; the methods of the classes and the
array algorithms have the firmware's form and are proved against those functions; the
lemmas say what the functions mean. A C integer is a natural number with its range
(`u8`, `u16`, `u32`), and every wrap-around and cast is written out.

Where the code and its comments differ the model follows the code: an access address is
followed after four sightings (bluetooth_rxtx.c:2306-2308 says five).

Some properties hold only under a condition, which is proved to be exact:

* A follower hops once every interval exactly when the interval is at least two
  (`FollowRun.OnTimeExactly`, and `Promisc.JoinedOnTimeExactly` for a connection joined under
  way); the timer of a shorter one runs through its 16 bits first.
* Promiscuous mode accepts an interval of zero and divides by it. Over all runs this happens
  exactly at a packet on 2406 MHz in the increment step after some gap between packets
  below 23.125 ms, or none short of the wrap-around of the rounding
  (`Promisc.DividesByZeroExactly`; `Promisc.DividesByZeroHappens` is a run with packets the
  code takes for 2.5 ms apart). The model stops at the division.
* Wherever the CRC is checked the two stored forms of its initial value are reversals of
  each other, in every run of either mode (`CrcCheck.FollowSound`, `Promisc.RunSound`), unless
  the host switches the check on at the wrong time. While a connection is followed from its
  connect packet that is any time, except for the initial value zero: what is stored is the
  reversal of 32 bits and not of 24 (`CrcCheck.PairExactly`, `CrcCheck.OverrideAfterConnect`).
* The hop increment is recovered exactly when the time between the two channels is within
  half an interval of the right number of intervals (`Promisc.IncrementRecovered`).
* A sweep ends exactly when the band holds an admissible channel (`Sweep.StopsExactly`).
  Map, count of used channels and AFH flag are set by separate commands, and a new map is
  not counted until the next address is set; `Sweep.RunHangsExactly` says after which
  commands a loop never ends. In the detection of AFH the search for unused channels hangs as
  soon as the map marks all 79 channels (`Sweep.DetectionHangs`, `Sweep.FullBandHangs`); a
  map without channels hangs the sweep after one with a channel has been counted
  (`Sweep.EmptyMapHangs`). With a counted map only the spare bit 79, which is counted but is
  no channel, does it (`Sweep.CountedMapHangs`).
* The host's download reports success for every file; the file is in the flash exactly
  when it fits (`DfuHost.DownloadInstalls`, `DfuHost.LongFileRefused`). A block whose
  programming fails is accepted all the same (`Dfu.AcceptedBlock`); whether it fails is up to
  the chip, and no caller can check it beforehand.

`dafny verify dfyconfig.toml` checks the project.

## Model

| member | source | states |
|---|---|---|
| Crc24.StepIsShift | firmware/bluetooth_rxtx/bluetooth_le.c:82-90 | one turn of the inner CRC loop is one shift of the standard's register, whose positions lie in the word from the top down |
| Crc24.CalcByte | firmware/bluetooth_rxtx/bluetooth_le.c:81-90 | the inner loop runs the standard's register over the eight bits of a byte, lowest first |
| Crc24.CalcCrc | firmware/bluetooth_rxtx/bluetooth_le.c:75-94 | the bit-serial loops compute the standard's register run over the bits of the data, for every initial value and every byte string |
| Crc24.CrcLinear | firmware/bluetooth_rxtx/bluetooth_le.c:75-94 | the CRC of the exclusive-or of two initial values and two messages is the exclusive-or of their CRCs |
| Crc24.RunKeepsApart | firmware/bluetooth_rxtx/bluetooth_le.c:75-94 | different registers stay different under the same bits, so no two initial values give a message the same CRC |
| Crc24.ReachesZero | firmware/bluetooth_rxtx/bluetooth_le.c:75-94 | at most 24 bits bring the register to zero exactly when they are the bits it holds |
| Crc24.BurstDetected | firmware/bluetooth_rxtx/bluetooth_le.c:75-94 | two messages that differ, and only inside a window of 24 consecutive bits, have different CRCs from every register |
| Crc24.UnstepUndoes | firmware/bluetooth_rxtx/bluetooth_le.c:109-115 | one backward step is undone by the standard's shift of the same bit |
| Crc24.UnstepByte | firmware/bluetooth_rxtx/bluetooth_le.c:108-116 | the inner loop of the backward run finds the state from which the byte leads to the given state |
| Crc24.ReverseCrc | firmware/bluetooth_rxtx/bluetooth_le.c:101-123 | the backward run returns the bit-reversed initial value of which the given CRC is the CRC, and no other initial value has that CRC |
| Crc24.Reverse24 | firmware/bluetooth_rxtx/bluetooth_le.c:118-120 | the loop turns 24 bits around |
| CrcTable.LutIsZeroRun | firmware/bluetooth_rxtx/bluetooth_le.c:125-158 | each of the 256 table entries is the register after its index has been shifted out over eight zero bits |
| CrcTable.LookupIsEightShifts | firmware/bluetooth_rxtx/bluetooth_le.c:173-176 | one look-up and shift is eight shifts of the standard's register with the bits of the byte |
| CrcTable.CrcgenLut | firmware/bluetooth_rxtx/bluetooth_le.c:167-178 | the table-driven CRC is the same function as the bit-serial one, for every initial value and length |
| LeChannels.IndexRoundTrip | firmware/bluetooth_rxtx/bluetooth_le.c:34-63 | each of the 40 channel indices has an even frequency of the band that leads back to it |
| LeChannels.PhysRoundTrip | firmware/bluetooth_rxtx/bluetooth_le.c:34-63 | each even frequency of the band leads to an index that leads back to it, and the odd one above it to the same index |
| LeChannels.ChannelsOfStandard | firmware/bluetooth_rxtx/bluetooth_le.c:34-63 | indices 37, 38 and 39 are 2402, 2426 and 2480 MHz, and the other channels rise with their index |
| LeChannels.LutInverts | firmware/bluetooth_rxtx/bluetooth_le.h:82-86 | the table holds the inverses modulo 37, and is its own inverse |
| Whitening.StreamIsStandard | firmware/bluetooth_rxtx/bluetooth_le.h:67-80 | the 127-bit table entered at a channel's index is the output of the standard's seven-bit register seeded with the channel, for as long as it runs |
| Whitening.WordsAreStretches | firmware/bluetooth_rxtx/bluetooth_le.h:95-176 | each of the 480 words of the word table is the stretch of the bit table the channel has there |
| Whitening.WordBit | firmware/bluetooth_rxtx/bluetooth_le.h:67-176 | bit k of word w of a channel is bit 32 * w + k of the channel's whitening sequence |
| LinkFrame.PutReversed | firmware/bluetooth_rxtx/bluetooth_rxtx.c:1254-1260 | the inner loop writes one byte of the access address with its bits turned around, and changes no other byte |
| LinkFrame.PutWhitened | firmware/bluetooth_rxtx/bluetooth_rxtx.c:1266-1273 | the inner loop writes one byte whitened and lowest bit first, changes no other byte, and moves eight places on in the table |
| LinkFrame.LeTransmit | firmware/bluetooth_rxtx/bluetooth_rxtx.c:1243-1323 | the transmit FIFO gets exactly the frame of access address and whitened data, in pieces of at most 16 bytes |
| LinkFrame.AddressOnAir | firmware/bluetooth_rxtx/bluetooth_rxtx.c:1252-1261 | bit n of the frame on the air is bit n of the access address, for the first 32 |
| LinkFrame.DataOnAir | firmware/bluetooth_rxtx/bluetooth_rxtx.c:1262-1275 | behind them bit n on the air is bit n of the data, lowest bit of each byte first, exclusive-or bit n of the whitening |
| LinkFrame.PlainUndoesAir | firmware/bluetooth_rxtx/bluetooth_rxtx.c:1265-1273 | taking a byte off the air gives back the byte put on the air, whatever the whitening |
| LinkFrame.PlainBitsAreAirBits | firmware/bluetooth_rxtx/bluetooth_rxtx.c:1795-1827 | each bit taken off the air is the bit on the air exclusive-or its whitening bit |
| LeReceive.PlainWordIsPlainBytes | firmware/bluetooth_rxtx/bluetooth_rxtx.c:1796-1802 | de-whitening a 32-bit word and reading its bytes gives what de-whitening bit by bit gives |
| LeReceive.WordsWhiten | firmware/bluetooth_rxtx/bluetooth_rxtx.c:1795-1827 | the word table whitens as the bit table does, on every channel |
| LeReceive.CheckCrc | firmware/bluetooth_rxtx/bluetooth_rxtx.c:1829-1836 | the comparison of words decides whether the three CRC bytes are the CRC of the PDU |
| LeReceive.CrcGoodIsResidue | firmware/bluetooth_rxtx/bluetooth_rxtx.c:1829-1836 | a PDU passes exactly when the register run over body and CRC ends at zero |
| LeReceive.BtLeSync | firmware/bluetooth_rxtx/bluetooth_rxtx.c:1791-1840 | the receiver hands on the address and the de-whitened bytes of the buffer exactly when the length is at most 39 and, where it is checked, the CRC is right |
| LeReceive.AcceptsExactly | firmware/bluetooth_rxtx/bluetooth_rxtx.c:1804-1836 | a PDU is taken exactly when its length field, the low six bits of its second byte, is at most 37 and, where the CRC is checked, the register ends at zero behind header, payload and CRC |
| LeReceive.FrameRoundTrip | firmware/bluetooth_rxtx/bluetooth_rxtx.c:1252-1827 | data framed for any channel comes out of the receive buffer as it went in |
| LeReceive.SentIsAccepted | firmware/bluetooth_rxtx/bluetooth_rxtx.c:1252-1836 | a PDU transmitted with its CRC is accepted and comes out byte for byte, whatever lies behind it in the buffer |
| LeReceive.BurstRejected | firmware/bluetooth_rxtx/bluetooth_rxtx.c:1829-1836 | of two 44-byte receive buffers with the same length field whose bodies and CRCs differ in a burst of at most 24 bits on the air the receiver takes at most one, whatever lies behind the CRC |
| LeFollow.FindAddress | firmware/bluetooth_rxtx/bluetooth_rxtx.c:1935-1943 | the shifting address register finds the first place where the last 32 symbols are the access address |
| LeFollow.TakeByte | firmware/bluetooth_rxtx/bluetooth_rxtx.c:1946-1957 | the inner loop puts a byte together from eight symbols, de-whitened from the fifth byte on |
| LeFollow.CbFollowLe | firmware/bluetooth_rxtx/bluetooth_rxtx.c:1931-1982 | the bit-wise receiver fills 46 bytes from the first match on, leaves the rest of the buffer, and judges the CRC; a length that makes it read past the buffer has its own outcome |
| LeFollow.TransmittedIsFollowed | firmware/bluetooth_rxtx/bluetooth_rxtx.c:1252-1982 | a PDU with its CRC as le_transmit frames it, anywhere in the symbols the receiver searches, is found where it begins and comes out byte for byte with its address, and is accepted |
| LeFollow.OverrunExactly | firmware/bluetooth_rxtx/bluetooth_rxtx.c:1959-1971 | a checked packet makes the receiver read past its buffer exactly when its length field is above 41 |
| LeFollow.SameBytes | firmware/bluetooth_rxtx/bluetooth_rxtx.c:1795-1958 | from the same bits on the air both receivers take the same 46 bytes, on every channel |
| LeFollow.SameVerdict | firmware/bluetooth_rxtx/bluetooth_rxtx.c:1829-1971 | up to the length limit of the word-wise receiver both receivers accept the same packets |
| LinkLayer.Firmware.TimerInterrupt | firmware/bluetooth_rxtx/bluetooth_rxtx.c:831-878 | the whole state after a timer interrupt, in every hop mode |
| LinkLayer.Firmware.ResetLe | firmware/bluetooth_rxtx/bluetooth_rxtx.c:1553-1581 | the whole link state after a reset |
| LinkLayer.Firmware.BtleNextHop | firmware/bluetooth_rxtx/bluetooth_le.c:27-32 | the frequency of the present index is returned and the index moves on by the increment modulo 37 |
| LinkLayer.Firmware.DoHop | firmware/bluetooth_rxtx/bluetooth_rxtx.c:1371-1416 | the whole state after a hop |
| LinkLayer.Firmware.RxFlush | firmware/bluetooth_rxtx/bluetooth_rxtx.c:1844-1893 | the whole state after the end of a receive loop: timeout with its rollover, or the hop that waits |
| LinkLayer.Firmware.ConnectionFollowCb | firmware/bluetooth_rxtx/bluetooth_rxtx.c:1987-2080 | the whole state after a packet: connect request, first packet, parameter update noted or applied |
| LinkLayer.ConnectRequest | firmware/bluetooth_rxtx/bluetooth_rxtx.c:2040-2078 | which connect requests a listening follower takes, and the bytes it takes address, initial value, interval and increment from |
| LinkLayer.FirstPacket | firmware/bluetooth_rxtx/bluetooth_rxtx.c:2002-2008 | the whole state after the first packet of a connection |
| LinkLayer.UpdateRequest | firmware/bluetooth_rxtx/bluetooth_rxtx.c:2013-2038 | the whole state of a connected follower after any packet: the update that is due, and the bytes a new one is taken from |
| LinkLayer.GivenUp | firmware/bluetooth_rxtx/bluetooth_rxtx.c:1844-1893 | the whole state after the end of a receive loop: a link is given up exactly after more than five seconds without a packet, across a rollover; else a hop that waits is made, to the channel its mode says |
| LinkLayer.AddressRoundTrip | firmware/bluetooth_rxtx/bluetooth_rxtx.c:2053-2055 | the address put together from a connect request is the four bytes both receivers match |
| FollowRun.PacketStartsTimer | firmware/bluetooth_rxtx/bluetooth_rxtx.c:2002-2029 | the first packet of a connection, and the packet at the instant of an update, start the timer over |
| FollowRun.TickMovesTimer | firmware/bluetooth_rxtx/bluetooth_rxtx.c:835-862 | each interrupt moves the closed form one tick on, and asks for a hop exactly on time |
| FollowRun.TimerClosedForm | firmware/bluetooth_rxtx/bluetooth_rxtx.c:831-865 | t interrupts after the first packet the connection count is (1 + t / 4) / interval modulo 65536 and the timer is between 1 and the interval, across the wrap of the clock |
| FollowRun.OnTimeTicks | firmware/bluetooth_rxtx/bluetooth_rxtx.c:852-862 | a hop is due at tick 4 * (k * interval - 1) for every k from 1 on, and at no other |
| FollowRun.ShortIntervalStarves | firmware/bluetooth_rxtx/bluetooth_rxtx.c:856-860 | with an interval below two the 16-bit timer runs through before the first hop |
| FollowRun.OnTimeExactly | firmware/bluetooth_rxtx/bluetooth_rxtx.c:831-865 | the follower hops once every interval exactly when the interval is at least two |
| FollowRun.RunFollows | firmware/bluetooth_rxtx/bluetooth_rxtx.c:1371-2080 | every run of interrupts, packets and flushes keeps the invariant of channels, hop count and connection count |
| FollowRun.ConnectionHops | firmware/bluetooth_rxtx/bluetooth_rxtx.c:1371-2080 | from a connect request on, hop k tunes to data channel k * increment mod 37; hops made, waiting and overrun add up to those asked for, which is one more than the connection count modulo 65536 |
| FollowRun.HopsOfConnection | firmware/bluetooth_rxtx/bluetooth_rxtx.c:1371-2080 | from a connect packet on, as long as the link is heard, hop k tunes to data channel (k + 1) * increment mod 37 with the increment in the low five bits of byte 39 of the packet |
| FollowRun.ClockOfTicks | firmware/bluetooth_rxtx/bluetooth_rxtx.c:834-838 | t interrupts move the clock on by t, and by the offset once |
| FollowRun.HopsByClock | firmware/bluetooth_rxtx/bluetooth_rxtx.c:842-851 | without hopping and in the sweep a hop is asked for at every multiple of 128 of the clock, in basic rate at every even clock, on single channels never |
| FollowRun.HopsByTimeout | firmware/bluetooth_rxtx/bluetooth_rxtx.c:866-870 | in the search for unused channels the next hop is asked for exactly the timeout after the last one |
| FollowRun.CycleCoversBand | firmware/bluetooth_rxtx/bluetooth_le.c:27-32 | from any index, 37 steps by a nonzero increment reach every data channel once, and the step that reaches a given channel comes from the table of inverses |
| FollowRun.AllChannels | firmware/bluetooth_rxtx/bluetooth_le.c:27-32 | any 37 consecutive hops with a nonzero increment visit every data channel, and no channel twice |
| FollowRun.SteadyTimer | firmware/bluetooth_rxtx/bluetooth_rxtx.c:831-2080 | packets and flushes of a steady connection leave the timer alone |
| FollowRun.HopsOnSchedule | firmware/bluetooth_rxtx/bluetooth_rxtx.c:831-2080 | from a listening follower through connect packet, waiting and first packet into a steady connection: t interrupts after the first packet the follower has made 1 + (1 + t / 4) / interval hops, one less while one waits, with interval and increment from bytes 28 and 39 of the connect packet |
| FollowRun.HopsThroughUpdate | firmware/bluetooth_rxtx/bluetooth_rxtx.c:2002-2029 | the packet at the instant of a parameter update starts the next piece of the schedule: from it on every new interval over has been hopped or waits, on the same course of channels |
| CrcCheck.FollowChecked | firmware/bluetooth_rxtx/bluetooth_rxtx.c:1553-2080 | from any state in which a checked CRC has a sound pair of initial values, every run of interrupts, packets and timeouts leads to such a state |
| CrcCheck.FollowSound | firmware/bluetooth_rxtx/bluetooth_rxtx.c:1553-2085 | in every state of the connection-following mode with the CRC checked the two stored initial values are 24-bit reversals of each other |
| CrcCheck.PairExactly | firmware/bluetooth_rxtx/bluetooth_rxtx.c:722-2085 | with the host switching the check at any time: the pair is sound exactly when no connection is joined or its initial value is zero, and the state is a bad one exactly when the check is on for another connection |
| CrcCheck.ConnectPairExactly | firmware/bluetooth_rxtx/bluetooth_rxtx.c:2057-2061 | the 32-bit reversal stored for a connect packet stands for the 24-bit one only when the initial value is zero |
| CrcCheck.OverrideAfterConnect | firmware/bluetooth_rxtx/bluetooth_rxtx.c:722-2085 | in every state of every run in which a connection is followed, a PDU with the right CRC passes exactly when the CRC is not checked or the initial value is zero |
| CrcCheck.InitOfConnection | firmware/bluetooth_rxtx/bluetooth_rxtx.c:2057-2061 | the initial value in store stays the one in bytes 22 to 24 of the connect packet, lowest bit first, until the connection is lost |
| Promisc.BackLeadsOn | firmware/bluetooth_rxtx/bluetooth_le.c:101-116 | the state found by running back leads on to the CRC |
| Promisc.Recovery.PromiscFollowCb | firmware/bluetooth_rxtx/bluetooth_rxtx.c:2188-2204 | an empty PDU gives the only initial value its CRC can come from, stored in both bit orders |
| Promisc.Recovery.PromiscRecoverHopInterval | firmware/bluetooth_rxtx/bluetooth_rxtx.c:2152-2186 | the whole state after a packet in the interval step |
| Promisc.Recovery.PromiscRecoverHopIncrement | firmware/bluetooth_rxtx/bluetooth_rxtx.c:2110-2150 | the whole state after a packet in the increment step |
| Promisc.ShortestGap | firmware/bluetooth_rxtx/bluetooth_rxtx.c:2152-2186 | after any undisturbed run the smallest hop interval is the shortest of the gaps of at least 2.5 ms between the packets the interval step has had |
| Promisc.IntervalRecovered | firmware/bluetooth_rxtx/bluetooth_rxtx.c:2152-2186 | when the interval step moves on the interval is n exactly when every gap counted is at least, and some gap at most, n turns of 37 intervals, to the nearest |
| Promisc.DividesExactly | firmware/bluetooth_rxtx/bluetooth_rxtx.c:2110-2347 | after any turns from the start of the recovery on, restarts and host commands included, the next turn divides by zero exactly when it is a packet on 2406 MHz in the increment step and the smallest hop interval rounds to zero |
| Promisc.DividesByZeroExactly | firmware/bluetooth_rxtx/bluetooth_rxtx.c:2110-2204 | the same over every undisturbed run in terms of the packet times: some counted gap is below 23.125 ms, or all of them make the rounding wrap around |
| Promisc.DividesByZeroHappens | firmware/bluetooth_rxtx/bluetooth_rxtx.c:2110-2347 | whatever the previous reading of the clock, an empty PDU, five packets that the code takes for 2.5 ms apart (which they are, unless the clock rolls over between them) and one packet on each of the two channels lead to the division |
| Promisc.HoppedIsNearest | firmware/bluetooth_rxtx/bluetooth_rxtx.c:2107-2122 | the count of channels hopped is n exactly when the time is within half an interval of n intervals, with one rollover of the clock and the 32-bit arithmetic taken into account |
| Promisc.IncrementRecovered | firmware/bluetooth_rxtx/bluetooth_rxtx.c:2110-2150 | the true increment is recovered, and nothing else, exactly under that condition |
| Promisc.TwoPacketsRecover | firmware/bluetooth_rxtx/bluetooth_rxtx.c:2110-2150 | a packet on 2404 MHz, the hop and a packet on 2406 MHz join the connection with the true increment exactly under that condition on their times, unchecked and hopping |
| Promisc.IncrementRetried | firmware/bluetooth_rxtx/bluetooth_rxtx.c:2144-2145 | the step begins again exactly when the time is at least 36 and a half intervals |
| Promisc.JoinedHops | firmware/bluetooth_rxtx/bluetooth_rxtx.c:2123-2142 | after the recovery, in every run without a timeout, hop k tunes to the channel the target has n + 1 + k intervals after channel index 0 |
| Promisc.JoinedHopTicks | firmware/bluetooth_rxtx/bluetooth_rxtx.c:2126-2128 | the hops due after the recovery are at the boundaries half an interval and k whole intervals on, for every k, and no others |
| Promisc.JoinedOnTimeExactly | firmware/bluetooth_rxtx/bluetooth_rxtx.c:2126-2128 | the interrupts ask for hops at exactly those ticks exactly when the interval is at least two |
| Promisc.FollowsTarget | firmware/bluetooth_rxtx/bluetooth_rxtx.c:2123-2142 | in a steady run after the recovery, from half an interval before the target's m-th interval to half an interval behind it, m hops are made or waiting, and with none waiting the follower is on the target's channel |
| Promisc.RunSound | firmware/bluetooth_rxtx/bluetooth_rxtx.c:722-2347 | over every run of interrupts, packets, timeouts, restarts and CRC overrides: in all its states with the CRC checked the two stored initial values are 24-bit reversals of each other exactly when the host switches the check on only while they are |
| Promisc.SearchSound | firmware/bluetooth_rxtx/bluetooth_rxtx.c:2322-2347 | in particular for every run from the search for a connection on, whatever was before it |
| Promisc.PairOfRun | firmware/bluetooth_rxtx/bluetooth_rxtx.c:1553-2347 | at the end of every run the pair is sound exactly when the last turn that stored one stored a sound one |
| Promisc.LaterPacketsPass | firmware/bluetooth_rxtx/bluetooth_rxtx.c:2188-2204 | after an empty PDU that is right for some initial value, bits and CRC as the receiver checks them, every later PDU with a CRC from that value passes the receiver's check, and no other while the CRC is checked, host overrides included |
| Promisc.Recovery.Seek | firmware/bluetooth_rxtx/bluetooth_rxtx.c:2322-2347 | the whole state after one turn of the promiscuous loop up to the receiver |
| Promisc.SearchBegins | firmware/bluetooth_rxtx/bluetooth_rxtx.c:2322-2347 | the search begins unchecked on an even channel, with the access address found unless the host has set one, and with nothing of the recovery left |
| Promisc.HostCommands | firmware/bluetooth_rxtx/bluetooth_rxtx.c:722-745 | the two commands change the check and the hop mode alone |
| AaTable.ActiveAa.SeeAa | firmware/bluetooth_rxtx/bluetooth_rxtx.c:2207-2224 | a sighting counts its address up, or gives the first slot of the smallest count to it |
| AaTable.ActiveAa.PickAa | firmware/bluetooth_rxtx/bluetooth_rxtx.c:2306-2317 | the first address seen more than three times is picked |
| AaTable.Least | firmware/bluetooth_rxtx/bluetooth_rxtx.c:2216-2220 | the slot given up has the smallest count, and is the first of these |
| AaTable.SeePacked | firmware/bluetooth_rxtx/bluetooth_rxtx.c:2207-2224 | used slots come first and hold different addresses |
| AaTable.CountsAreSightings | firmware/bluetooth_rxtx/bluetooth_rxtx.c:2207-2224 | each count is the number of sightings since the address last entered the table |
| AaTable.CountIsReal | firmware/bluetooth_rxtx/bluetooth_rxtx.c:2207-2224 | no count exceeds the true number of sightings |
| AaTable.FewAddressesExact | firmware/bluetooth_rxtx/bluetooth_rxtx.c:2207-2224 | while at most 32 addresses have been seen the counts are exact |
| AaTable.FollowedWasSeen | firmware/bluetooth_rxtx/bluetooth_rxtx.c:2306-2317 | whatever the stream, an address is followed only after four real sightings |
| AaTable.FollowedExactly | firmware/bluetooth_rxtx/bluetooth_rxtx.c:2306-2317 | with at most 32 addresses one is followed exactly when one has been seen four times |
| BasicHop.Butterflies | firmware/bluetooth_rxtx/bluetooth.c:107-114 | the loop swaps the bits in place as the butterflies say |
| BasicHop.Perm5 | firmware/bluetooth_rxtx/bluetooth.c:84-122 | the permutation as a function of its three arguments, masks included |
| BasicHop.DownIsNetwork | firmware/bluetooth_rxtx/bluetooth.c:92-114 | the loop over the index tables is the network of seven stages of the standard, with its positions written out, for every input and control word |
| BasicHop.UpUndoesDown | firmware/bluetooth_rxtx/bluetooth.c:107-114 | the butterflies in the opposite order undo the permutation, under every control word |
| BasicHop.PermutedInjective | firmware/bluetooth_rxtx/bluetooth.c:84-122 | the permutation is one-to-one for every control word |
| BasicHop.PermutedOnto | firmware/bluetooth_rxtx/bluetooth.c:84-122 | and onto the numbers below 32 |
| BasicHop.BankInjective | firmware/bluetooth_rxtx/bluetooth.c:49-50 | the register bank holds no channel twice |
| BasicHop.BankOnto | firmware/bluetooth_rxtx/bluetooth.c:49-50 | and holds every channel |
| BasicHop.Hopping.Precalc | firmware/bluetooth_rxtx/bluetooth.c:41-69 | the loop, shifts, masks and sums give the bank and the five values of the address |
| BasicHop.Hopping.NextHop | firmware/bluetooth_rxtx/bluetooth.c:124-155 | the frequency of a clock, from 2402 to 2480 MHz |
| BasicHop.HopIsStandard | firmware/bluetooth_rxtx/bluetooth.c:41-155 | the hop is the one of the standard for every address and clock: inputs A to F, X and Y as bits of address and clock, the network, the sum and the register bank |
| BasicHop.SegmentHops | firmware/bluetooth_rxtx/bluetooth.c:41-155 | two clocks that agree on bits 27 to 7 hop to the same frequency exactly when they agree on bits 6 to 1, for every address |
| BasicHop.SegmentChannels | firmware/bluetooth_rxtx/bluetooth.c:41-155 | the 64 slots of a segment use 64 different channels |
| Sweep.FullSweep | firmware/bluetooth_rxtx/bluetooth_rxtx.c:1387-1391 | 79 steps of 32 from any channel visit every channel of the band once |
| Sweep.StopsExactly | firmware/bluetooth_rxtx/bluetooth_rxtx.c:1385-1403 | a sweep stops, within 79 steps, exactly when the band holds an admissible channel |
| Sweep.Tuner.HopSweep | firmware/bluetooth_rxtx/bluetooth_rxtx.c:1385-1392 | the loop ends at the first admissible channel in steps of 32 |
| Sweep.Tuner.HopAfh | firmware/bluetooth_rxtx/bluetooth_rxtx.c:1397-1403 | likewise the search for an unused channel |
| Sweep.CountBits | firmware/bluetooth_rxtx/bluetooth.c:32-38 | the loop that clears the lowest one counts the ones |
| Sweep.CountUsed | firmware/bluetooth_rxtx/bluetooth.c:72-74 | the count of used channels is the number of ones among the 80 bits of the map |
| Sweep.MarkedBits | firmware/bluetooth_rxtx/bluetooth_rxtx.c:1391-1402 | channel i is bit i of the ten bytes, lowest bit first |
| Sweep.LastCommand | firmware/bluetooth_rxtx/bluetooth_rxtx.c:608-668 | map, count and flag behind each of the four commands |
| Sweep.HangsExactly | firmware/bluetooth_rxtx/bluetooth_rxtx.c:1385-1403 | for every map, count and flag: the sweep never ends exactly when the count is not zero, AFH is on and no channel is marked; the search exactly when the count is not 79 and every channel is marked |
| Sweep.RunHangsExactly | firmware/bluetooth_rxtx/bluetooth_rxtx.c:608-668 | after every sequence of the four commands of the host, when each loop never ends, in terms of the map in use and the map counted last |
| Sweep.CountedMapHangs | firmware/bluetooth_rxtx/bluetooth.c:71-74 | with the map in use counted, the sweep hangs exactly when AFH is on and bit 79 is the only mark, and the search exactly when all 80 bits are set |
| Sweep.DetectionHangs | firmware/bluetooth_rxtx/bluetooth_rxtx.c:633-668 | after the detection command and any maps the sweep never hangs, and the search hangs exactly when the last map marks all 79 channels |
| Sweep.FullBandHangs | firmware/bluetooth_rxtx/bluetooth_rxtx.c:608-660 | so the map of all 79 channels with bit 79 clear hangs the search, until it is counted |
| Sweep.EmptyMapHangs | firmware/bluetooth_rxtx/bluetooth_rxtx.c:608-660 | a map without channels hangs the sweep after a map with a channel has been counted |
| Sweep.Tuner.SetBdaddr | firmware/bluetooth_rxtx/bluetooth.c:71-74 | the count is made anew exactly when AFH is on |
| Sweep.Tuner.DetectAfh | firmware/bluetooth_rxtx/bluetooth_rxtx.c:633-642 | the map is cleared, the count zero, AFH on |
| Sweep.Tuner.SetAfhMap | firmware/bluetooth_rxtx/bluetooth_rxtx.c:654-660 | the map is replaced and AFH on, the count stays |
| Sweep.Tuner.ClearAfhMap | firmware/bluetooth_rxtx/bluetooth_rxtx.c:662-668 | the map is cleared and AFH off, the count stays |
| Flash.SectorOfAddress | firmware/bootloader/flash.h:65-79 | an address lies between the start of the sector of its number and the start of the next, and of no other sector |
| Flash.BoundaryExactly | firmware/bootloader/flash.h:61-71 | the mask test finds exactly the addresses that start a sector of the irregular map |
| Flash.BlockInSector | firmware/bootloader/flash.h:65-79 | a block of 256 bytes lies in one sector |
| Flash.WriteWorks | firmware/bootloader/flash.h:29-50 | a write to a working chip succeeds exactly when the block is on the chip; it erases the sector first if the block starts it |
| Flash.WriteExactly | firmware/bootloader/flash.h:29-50 | with every outcome of the chip's calls: when a write succeeds, and which operations it has done to which cells |
| Flash.FlashChip.WriteBlock | firmware/bootloader/flash.h:29-50 | the chip and the result after a write, whatever the outcome of each call to it |
| Dfu.Bootloader.RequestHandler | firmware/bootloader/dfu.cpp:40-67 | state, status, chip and reply after any request |
| Dfu.Bootloader.RequestDnload | firmware/bootloader/dfu.cpp:122-154 | likewise for a download request, refused below 0x4000 |
| Dfu.Bootloader.RequestUpload | firmware/bootloader/dfu.cpp:156-176 | likewise for an upload request |
| Dfu.StateOnWire | firmware/bootloader/dfu.cpp:220-228 | request 5 answers the number of the state, 0 to 10 as the standard has them |
| Dfu.StatusOnWire | firmware/bootloader/dfu.cpp:178-204 | request 3 answers the number of the status, 20 ms and the number of the state it moves on to |
| Dfu.DownloadRequest | firmware/bootloader/dfu.cpp:122-154 | request 1 in every state of DFU mode: what is accepted, what is written where, and the state and status after a refusal |
| Dfu.UploadRequest | firmware/bootloader/dfu.cpp:156-176 | request 2 likewise: the 256 bytes that are read |
| Dfu.OtherRequests | firmware/bootloader/dfu.cpp:40-241 | requests 0, 4 and 6, ill-formed ones, and numbers that are no request |
| Dfu.RefusedWhenDetached | firmware/bootloader/dfu.cpp:95-102 | a detached device keeps its state when it refuses a request |
| Dfu.RunInDfuMode | firmware/bootloader/dfu.cpp:95-241 | up to an accepted detach only five states occur, and the status is bad exactly in the error state |
| Dfu.BootloaderSpared | firmware/bootloader/dfu.cpp:26-154 | over every sequence of requests, and whatever the chip does, no operation reaches below 0x4000, every program operation stays inside one sector over its whole length, and no cell changes that no operation reaches |
| Dfu.AcceptedBlock | firmware/bootloader/flash.h:45-49 | an accepted block has been programmed exactly when the chip carried out the copy, whose result is not looked at |
| DfuHost.EnterDfuMode | host/ubertooth-tools/src/ubertooth-dfu.c:212-246 | with the host's own numbers for requests and states, from every state short of detached the loop ends with the device idle, its status good and the flash unchanged |
| DfuHost.ReadBlock | host/ubertooth-tools/src/ubertooth-dfu.c:349-351 | the buffer holds the next block of the file, filled up with ones |
| DfuHost.NextBlock | host/ubertooth-tools/src/ubertooth-dfu.c:349-365 | writing the next block takes the flash with the first blocks installed to the flash with one more installed |
| DfuHost.Download | host/ubertooth-tools/src/ubertooth-dfu.c:332-369 | after the download of any file the blocks that fit are installed, by exactly the operations listed, and the host reports success |
| DfuHost.DownloadInstalls | host/ubertooth-tools/src/ubertooth-dfu.c:332-369 | a file that fits is in the flash from 0x4000 on, the rest of its last sector is erased, everything else is as before |
| DfuHost.LongFileRefused | host/ubertooth-tools/src/ubertooth-dfu.c:352-365 | of a longer file the part that fits is installed and the device is in the error state |
| DfuHost.ErasedOnce | firmware/bootloader/flash.h:29-50 | every sector the file reaches into is erased once, every other sector never |
| DfuHost.ProgrammedOnce | firmware/bootloader/flash.h:29-50 | every block is programmed once, at its full length, and nothing else is |
| DfuHost.ProgramsErasedCells | firmware/bootloader/flash.h:29-50 | when a block is programmed every cell it goes to is erased |
| DfuHost.UploadFile | host/ubertooth-tools/src/ubertooth-dfu.c:273-315 | the file read is the application area, and the flash is unchanged; it fails exactly on a chip below 256 KB |
| DfuHost.UploadReadsDownload | host/ubertooth-tools/src/ubertooth-dfu.c:273-369 | an upload after a download begins with the file that was downloaded |
| Getopt.SwapRuns | host/ubertooth-tools/getopt/getopt.c:347-353 | the inner loops swap two runs of elements and change no other element |
| Getopt.Exchange | host/ubertooth-tools/getopt/getopt.c:302-374 | exchange ends, and is the rotation of two adjacent segments of any lengths |
| Getopt.Scanner.ExchangeSegments | host/ubertooth-tools/getopt/getopt.c:378-379 | what has been scanned, and the records of where it is, stay right |
| Getopt.Scanner.NextElement | host/ubertooth-tools/getopt/getopt.c:574-649 | the scan moves on to the next option element, or ends with all options in front |
| Getopt.Scanner.ShortOption | host/ubertooth-tools/getopt/getopt.c:803-999 | one option character: its kind, its argument, and how far the scan moves |
| Getopt.Scanner.Getopt | host/ubertooth-tools/getopt/getopt.c:537-1000 | each call gives the next answer of the whole scan, or the end of it |
| Getopt.ScanAll | host/ubertooth-tools/getopt/getopt.c:537-1000 | called until -1, getopt gives the options in their order with their arguments and leaves argv as program name, options, other arguments, each in their order, with optind at the last |
| Getopt.ScanPermutes | host/ubertooth-tools/getopt/getopt.c:302-649 | argv stays a permutation of itself |
| Getopt.UnknownExactly | host/ubertooth-tools/getopt/getopt.c:803-828 | a character is no option exactly when it is a colon or not in the option string |
| Getopt.KindExactly | host/ubertooth-tools/getopt/getopt.c:952-996 | otherwise no colon, one or two behind its first place make it an option without argument, with a required one, or with an optional one |
| Getopt.PlainElement | host/ubertooth-tools/getopt/getopt.c:803-999 | an element of options without argument gives an answer for every character, '?' for an unknown one |
| Getopt.RequiredAttached | host/ubertooth-tools/getopt/getopt.c:968-976 | behind such characters a required argument is the rest of the element |
| Getopt.RequiredNext | host/ubertooth-tools/getopt/getopt.c:991-994 | or the next element, which then counts as part of the option |
| Getopt.RequiredMissing | host/ubertooth-tools/getopt/getopt.c:977-990 | at the end of argv the answer is ':' or '?', as the option string begins |
| Getopt.OptionalAttached | host/ubertooth-tools/getopt/getopt.c:954-964 | an optional argument is the rest of the element and never the next one |
| Getopt.OtherElements | host/ubertooth-tools/getopt/getopt.c:571-633 | elements without option syntax are kept in order, and "--" ends the options |
| Getopt.TwoWords | host/ubertooth-tools/getopt/getopt.c:537-1000 | for a program called with one option and one word: who gets the word, for every option string |
| UsbFifo.Fifo.Enqueue | firmware/bluetooth_rxtx/ubertooth_usb.c:233-247 | a packet joins the end of a queue of at most 127, across the wrap of the counters |
| UsbFifo.Fifo.Dequeue | firmware/bluetooth_rxtx/ubertooth_usb.c:249-261 | the oldest packet leaves the queue |
| UsbFifo.RunSound | firmware/bluetooth_rxtx/ubertooth_usb.c:233-261 | every interleaving of the reads and increments of one producer and one consumer keeps the counters sound |
| UsbFifo.FirstInFirstOut | firmware/bluetooth_rxtx/ubertooth_usb.c:233-261 | slots come back in the order they were handed out, at most 127 are outstanding |
| UsbFifo.NoSlotTwice | firmware/bluetooth_rxtx/ubertooth_usb.c:233-261 | a slot handed out is none of the outstanding ones and not the one that came back last |
| UsbFifo.RefusedWhenFull | firmware/bluetooth_rxtx/ubertooth_usb.c:239-242 | the producer is refused exactly when 127 slots were outstanding at its read of head |
| UsbFifo.EmptyHanded | firmware/bluetooth_rxtx/ubertooth_usb.c:254-257 | the consumer finds nothing exactly when all slots handed out by its read of tail have come back |

## Left out

- Radio, SPI, DMA, GPIO and timer registers, busy waits, LEDs, USB transport and file calls: foreign hardware; control transfers reach the device, and the received buffer is whatever it is when it is read.
- The choice of the sync byte in le_transmit (bluetooth_rxtx.c:1296-1300): it looks at the access address after it has been shifted out.
- Jamming, E-GO, Kismet plugins, the Python tools, register printing and command wrappers.
- Crc24.ReverseCrc: the argument is a CRC of 24 bits, as at its callers.
- LinkFrame.LeTransmit: the data has at most 60 bytes, which is what its 64-byte buffer holds behind the address.
- LeReceive.BurstRejected: a burst that changes the length field makes the receiver look for the CRC in another place; nothing is claimed for it, nor for a burst behind the CRC, which the receiver does not look at.
- Sweep.Tuner.HopSweep: both loops start from a channel of the band; a fixed channel outside it is not modelled.
- LinkLayer.Firmware.TimerInterrupt: packet callback, hop and flush are single steps between interrupts; an interrupt in the middle of one of them is not modelled.
- LinkLayer.Firmware.ConnectionFollowCb: the window size and offset, the copies of the access address for the radio and the start of jamming are not kept; nothing is said about the standard's rules for update instants or for the second byte of the interval.
- LinkLayer.Firmware.RxFlush: the end of jamming, which also resets the link, and mode changes from the host are not modelled; the return to the search in promiscuous mode is in the runs of Promisc.
- LinkLayer.Firmware.DoHop: the channel of the basic-rate and sweep modes is a parameter; BasicHop and Sweep say what it is.
- Promisc.RunSound: of the host's commands UBERTOOTH_BTLE_PROMISC in the middle of the mode (bluetooth_rxtx.c:737-745, which only sets the hop mode there), leaving the mode and entering it again, and the override of the CRC check (bluetooth_rxtx.c:722-723) are turns of a run; other mode changes and an access address set in mid-run are not.
- Promisc.Recovery.PromiscRecoverHopInterval: the rollover constant is the one in the code, 3267800000, which is not the clock's; gaps are what the code makes of the readings, and nothing relates them to true time across a rollover.
- Promisc.Recovery.PromiscRecoverHopIncrement: what the processor does after the division by zero.
- Promisc.FollowsTarget: the target is taken to keep its interval and hop increment, and the follower's clock to agree with the target's.
- LeFollow.CbFollowLe: unpacking of bytes into symbols ahead of the search is not modelled.
- BasicHop.Hopping.Precalc: the branches for adaptive frequency hopping in precalc and next_hop, where a loop lacks its braces and a bank is never filled, and find_access_code are not modelled.
- AaTable.ActiveAa.SeeAa: the counts do not overflow; cb_le_promisc's search for empty PDUs in the symbol stream is not modelled.
- Flash.FlashChip.WriteBlock: the calls of the chip's ROM are a contract (prepare before erase and program, programming clears bits, erasing sets them); a call that fails changes nothing.
- Dfu.Bootloader.RequestHandler: what the bootloader does after a detach, its USB stack and its entry from the application.
- DfuHost.Download: the check of the file's suffix before it; the transport does not fail.
- Getopt.Scanner.Getopt: long options, -W, the orderings chosen by a leading '-' or '+' or by POSIXLY_CORRECT, error messages, an empty argv, and callers that move optind between calls.
- UsbFifo.NoSlotTwice: contents of slots while both callers run; a slot is handed out before it is filled.
- The host's extension of time stamps, the serial FIFO, the host's ring buffer and argument list.
