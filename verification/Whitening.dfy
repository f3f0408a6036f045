/**
 The whitening tables of firmware/bluetooth_rxtx/bluetooth_le.h: the 127-bit
 sequence, the place in it where each channel starts, and the same sequence cut
 into 32-bit words for every channel.
*/
module Whitening {
  import opened Words

  // ----- The tables -----

  /** whitening[i]: true where the table holds a 1. */
  predicate WhiteningBit(i: nat) {
    i == 0 || i == 1 || i == 2 || i == 3 || i == 5 || i == 7 || i == 9 || i == 14 || i == 16 || i == 17
    || i == 19 || i == 20 || i == 21 || i == 22 || i == 25 || i == 26 || i == 27 || i == 30 || i == 32 || i == 34
    || i == 35 || i == 38 || i == 39 || i == 45 || i == 46 || i == 48 || i == 49 || i == 51 || i == 53 || i == 54
    || i == 55 || i == 57 || i == 61 || i == 62 || i == 65 || i == 69 || i == 76 || i == 79 || i == 82 || i == 83
    || i == 85 || i == 88 || i == 89 || i == 90 || i == 91 || i == 93 || i == 94 || i == 95 || i == 100 || i == 101
    || i == 102 || i == 103 || i == 104 || i == 105 || i == 106 || i == 110 || i == 111 || i == 112 || i == 114 || i == 115
    || i == 119 || i == 121 || i == 124 || i == 126
  }

  /** whitening_index[channel]. */
  function WhiteningIndex(channel: nat): (i: nat)
    requires channel < 40
    ensures i < 127
  {
    match channel
    case 0 => 70 case 1 => 62 case 2 => 120 case 3 => 111 case 4 => 77
    case 5 => 46 case 6 => 15 case 7 => 101 case 8 => 66 case 9 => 39
    case 10 => 31 case 11 => 26 case 12 => 80 case 13 => 83 case 14 => 125
    case 15 => 89 case 16 => 10 case 17 => 35 case 18 => 8 case 19 => 54
    case 20 => 122 case 21 => 17 case 22 => 33 case 23 => 0 case 24 => 58
    case 25 => 115 case 26 => 6 case 27 => 94 case 28 => 86 case 29 => 49
    case 30 => 52 case 31 => 20 case 32 => 40 case 33 => 27 case 34 => 84
    case 35 => 90 case 36 => 63 case 37 => 112 case 38 => 47 case _ => 102
  }

  /** Rows 0 to 7 of whitening_word. */
  function WordRows0(c: nat): (words: seq<nat>)
    requires c < 8
    ensures |words| == 12
  {
    match c
    case 0 => [0xc3bcb240, 0x5f4a371f, 0x9a9cf685, 0x44c5d6c1, 0xe1de5920, 0xafa51b8f,
                0xcd4e7b42, 0x2262eb60, 0xf0ef2c90, 0x57d28dc7, 0x66a73da1, 0x113175b0]
    case 1 => [0xbcb24089, 0x4a371fc3, 0x9cf6855f, 0xc5d6c19a, 0xde592044, 0xa51b8fe1,
                0x4e7b42af, 0x62eb60cd, 0xef2c9022, 0xd28dc7f0, 0xa73da157, 0x3175b066]
    case 2 => [0x3da157d2, 0x75b066a7, 0x96481131, 0x46e3f877, 0x9ed0abe9, 0xbad83353,
                0xcb240898, 0xa371fc3b, 0xcf6855f4, 0x5d6c19a9, 0xe592044c, 0x51b8fe1d]
    case 3 => [0x42afa51b, 0x60cd4e7b, 0x902262eb, 0xc7f0ef2c, 0xa157d28d, 0xb066a73d,
                0x48113175, 0xe3f87796, 0xd0abe946, 0xd833539e, 0x240898ba, 0x71fc3bcb]
    case 4 => [0x3f877964, 0x0abe946e, 0x833539ed, 0x40898bad, 0x1fc3bcb2, 0x855f4a37,
                0xc19a9cf6, 0x2044c5d6, 0x8fe1de59, 0x42afa51b, 0x60cd4e7b, 0x902262eb]
    case 5 => [0x40898bad, 0x1fc3bcb2, 0x855f4a37, 0xc19a9cf6, 0x2044c5d6, 0x8fe1de59,
                0x42afa51b, 0x60cd4e7b, 0x902262eb, 0xc7f0ef2c, 0xa157d28d, 0xb066a73d]
    case 6 => [0xc19a9cf6, 0x2044c5d6, 0x8fe1de59, 0x42afa51b, 0x60cd4e7b, 0x902262eb,
                0xc7f0ef2c, 0xa157d28d, 0xb066a73d, 0x48113175, 0xe3f87796, 0xd0abe946]
    case _ => [0xbe946e3f, 0x3539ed0a, 0x898bad83, 0xc3bcb240, 0x5f4a371f, 0x9a9cf685,
                0x44c5d6c1, 0xe1de5920, 0xafa51b8f, 0xcd4e7b42, 0x2262eb60, 0xf0ef2c90]
  }

  /** Rows 8 to 15 of whitening_word. */
  function WordRows8(c: nat): (words: seq<nat>)
    requires c < 8
    ensures |words| == 12
  {
    match c
    case 0 => [0x3bcb2408, 0xf4a371fc, 0xa9cf6855, 0x4c5d6c19, 0x1de59204, 0xfa51b8fe,
                0xd4e7b42a, 0x262eb60c, 0x0ef2c902, 0x7d28dc7f, 0x6a73da15, 0x13175b06]
    case 1 => [0x44c5d6c1, 0xe1de5920, 0xafa51b8f, 0xcd4e7b42, 0x2262eb60, 0xf0ef2c90,
                0x57d28dc7, 0x66a73da1, 0x113175b0, 0xf8779648, 0xabe946e3, 0x33539ed0]
    case 2 => [0xc5d6c19a, 0xde592044, 0xa51b8fe1, 0x4e7b42af, 0x62eb60cd, 0xef2c9022,
                0xd28dc7f0, 0xa73da157, 0x3175b066, 0x77964811, 0xe946e3f8, 0x539ed0ab]
    case 3 => [0xbad83353, 0xcb240898, 0xa371fc3b, 0xcf6855f4, 0x5d6c19a9, 0xe592044c,
                0x51b8fe1d, 0xe7b42afa, 0x2eb60cd4, 0xf2c90226, 0x28dc7f0e, 0x73da157d]
    case 4 => [0xc7f0ef2c, 0xa157d28d, 0xb066a73d, 0x48113175, 0xe3f87796, 0xd0abe946,
                0xd833539e, 0x240898ba, 0x71fc3bcb, 0x6855f4a3, 0x6c19a9cf, 0x92044c5d]
    case 5 => [0xb8fe1de5, 0xb42afa51, 0xb60cd4e7, 0xc902262e, 0xdc7f0ef2, 0xda157d28,
                0x5b066a73, 0x64811317, 0x6e3f8779, 0xed0abe94, 0xad833539, 0xb240898b]
    case 6 => [0x39ed0abe, 0x8bad8335, 0xbcb24089, 0x4a371fc3, 0x9cf6855f, 0xc5d6c19a,
                0xde592044, 0xa51b8fe1, 0x4e7b42af, 0x62eb60cd, 0xef2c9022, 0xd28dc7f0]
    case _ => [0x46e3f877, 0x9ed0abe9, 0xbad83353, 0xcb240898, 0xa371fc3b, 0xcf6855f4,
                0x5d6c19a9, 0xe592044c, 0x51b8fe1d, 0xe7b42afa, 0x2eb60cd4, 0xf2c90226]
  }

  /** Rows 16 to 23 of whitening_word. */
  function WordRows16(c: nat): (words: seq<nat>)
    requires c < 8
    ensures |words| == 12
  {
    match c
    case 0 => [0x33539ed0, 0x0898bad8, 0xfc3bcb24, 0x55f4a371, 0x19a9cf68, 0x044c5d6c,
                0xfe1de592, 0x2afa51b8, 0x0cd4e7b4, 0x02262eb6, 0x7f0ef2c9, 0x157d28dc]
    case 1 => [0x4c5d6c19, 0x1de59204, 0xfa51b8fe, 0xd4e7b42a, 0x262eb60c, 0x0ef2c902,
                0x7d28dc7f, 0x6a73da15, 0x13175b06, 0x87796481, 0xbe946e3f, 0x3539ed0a]
    case 2 => [0xcd4e7b42, 0x2262eb60, 0xf0ef2c90, 0x57d28dc7, 0x66a73da1, 0x113175b0,
                0xf8779648, 0xabe946e3, 0x33539ed0, 0x0898bad8, 0xfc3bcb24, 0x55f4a371]
    case 3 => [0xb240898b, 0x371fc3bc, 0xf6855f4a, 0xd6c19a9c, 0x592044c5, 0x1b8fe1de,
                0x7b42afa5, 0xeb60cd4e, 0x2c902262, 0x8dc7f0ef, 0x3da157d2, 0x75b066a7]
    case 4 => [0xcf6855f4, 0x5d6c19a9, 0xe592044c, 0x51b8fe1d, 0xe7b42afa, 0x2eb60cd4,
                0xf2c90226, 0x28dc7f0e, 0x73da157d, 0x175b066a, 0x79648113, 0x946e3f87]
    case 5 => [0xb066a73d, 0x48113175, 0xe3f87796, 0xd0abe946, 0xd833539e, 0x240898ba,
                0x71fc3bcb, 0x6855f4a3, 0x6c19a9cf, 0x92044c5d, 0xb8fe1de5, 0xb42afa51]
    case 6 => [0x3175b066, 0x77964811, 0xe946e3f8, 0x539ed0ab, 0x98bad833, 0x3bcb2408,
                0xf4a371fc, 0xa9cf6855, 0x4c5d6c19, 0x1de59204, 0xfa51b8fe, 0xd4e7b42a]
    case _ => [0x4e7b42af, 0x62eb60cd, 0xef2c9022, 0xd28dc7f0, 0xa73da157, 0x3175b066,
                0x77964811, 0xe946e3f8, 0x539ed0ab, 0x98bad833, 0x3bcb2408, 0xf4a371fc]
  }

  /** Rows 24 to 31 of whitening_word. */
  function WordRows24(c: nat): (words: seq<nat>)
    requires c < 8
    ensures |words| == 12
  {
    match c
    case 0 => [0xcb240898, 0xa371fc3b, 0xcf6855f4, 0x5d6c19a9, 0xe592044c, 0x51b8fe1d,
                0xe7b42afa, 0x2eb60cd4, 0xf2c90226, 0x28dc7f0e, 0x73da157d, 0x175b066a]
    case 1 => [0xb42afa51, 0xb60cd4e7, 0xc902262e, 0xdc7f0ef2, 0xda157d28, 0x5b066a73,
                0x64811317, 0x6e3f8779, 0xed0abe94, 0xad833539, 0xb240898b, 0x371fc3bc]
    case 2 => [0x3539ed0a, 0x898bad83, 0xc3bcb240, 0x5f4a371f, 0x9a9cf685, 0x44c5d6c1,
                0xe1de5920, 0xafa51b8f, 0xcd4e7b42, 0x2262eb60, 0xf0ef2c90, 0x57d28dc7]
    case 3 => [0x4a371fc3, 0x9cf6855f, 0xc5d6c19a, 0xde592044, 0xa51b8fe1, 0x4e7b42af,
                0x62eb60cd, 0xef2c9022, 0xd28dc7f0, 0xa73da157, 0x3175b066, 0x77964811]
    case 4 => [0x371fc3bc, 0xf6855f4a, 0xd6c19a9c, 0x592044c5, 0x1b8fe1de, 0x7b42afa5,
                0xeb60cd4e, 0x2c902262, 0x8dc7f0ef, 0x3da157d2, 0x75b066a7, 0x96481131]
    case 5 => [0x48113175, 0xe3f87796, 0xd0abe946, 0xd833539e, 0x240898ba, 0x71fc3bcb,
                0x6855f4a3, 0x6c19a9cf, 0x92044c5d, 0xb8fe1de5, 0xb42afa51, 0xb60cd4e7]
    case 6 => [0xc902262e, 0xdc7f0ef2, 0xda157d28, 0x5b066a73, 0x64811317, 0x6e3f8779,
                0xed0abe94, 0xad833539, 0xb240898b, 0x371fc3bc, 0xf6855f4a, 0xd6c19a9c]
    case _ => [0xb60cd4e7, 0xc902262e, 0xdc7f0ef2, 0xda157d28, 0x5b066a73, 0x64811317,
                0x6e3f8779, 0xed0abe94, 0xad833539, 0xb240898b, 0x371fc3bc, 0xf6855f4a]
  }

  /** Rows 32 to 39 of whitening_word. */
  function WordRows32(c: nat): (words: seq<nat>)
    requires c < 8
    ensures |words| == 12
  {
    match c
    case 0 => [0x2262eb60, 0xf0ef2c90, 0x57d28dc7, 0x66a73da1, 0x113175b0, 0xf8779648,
                0xabe946e3, 0x33539ed0, 0x0898bad8, 0xfc3bcb24, 0x55f4a371, 0x19a9cf68]
    case 1 => [0x5d6c19a9, 0xe592044c, 0x51b8fe1d, 0xe7b42afa, 0x2eb60cd4, 0xf2c90226,
                0x28dc7f0e, 0x73da157d, 0x175b066a, 0x79648113, 0x946e3f87, 0x39ed0abe]
    case 2 => [0xdc7f0ef2, 0xda157d28, 0x5b066a73, 0x64811317, 0x6e3f8779, 0xed0abe94,
                0xad833539, 0xb240898b, 0x371fc3bc, 0xf6855f4a, 0xd6c19a9c, 0x592044c5]
    case 3 => [0xa371fc3b, 0xcf6855f4, 0x5d6c19a9, 0xe592044c, 0x51b8fe1d, 0xe7b42afa,
                0x2eb60cd4, 0xf2c90226, 0x28dc7f0e, 0x73da157d, 0x175b066a, 0x79648113]
    case 4 => [0xde592044, 0xa51b8fe1, 0x4e7b42af, 0x62eb60cd, 0xef2c9022, 0xd28dc7f0,
                0xa73da157, 0x3175b066, 0x77964811, 0xe946e3f8, 0x539ed0ab, 0x98bad833]
    case 5 => [0xa157d28d, 0xb066a73d, 0x48113175, 0xe3f87796, 0xd0abe946, 0xd833539e,
                0x240898ba, 0x71fc3bcb, 0x6855f4a3, 0x6c19a9cf, 0x92044c5d, 0xb8fe1de5]
    case 6 => [0x2044c5d6, 0x8fe1de59, 0x42afa51b, 0x60cd4e7b, 0x902262eb, 0xc7f0ef2c,
                0xa157d28d, 0xb066a73d, 0x48113175, 0xe3f87796, 0xd0abe946, 0xd833539e]
    case _ => [0x5f4a371f, 0x9a9cf685, 0x44c5d6c1, 0xe1de5920, 0xafa51b8f, 0xcd4e7b42,
                0x2262eb60, 0xf0ef2c90, 0x57d28dc7, 0x66a73da1, 0x113175b0, 0xf8779648]
  }

  /** whitening_word[channel]. */
  function WordRow(channel: nat): (words: seq<nat>)
    requires channel < 40
    ensures |words| == 12
  {
    if channel < 8 then WordRows0(channel)
    else if channel < 16 then WordRows8(channel - 8)
    else if channel < 24 then WordRows16(channel - 16)
    else if channel < 32 then WordRows24(channel - 24)
    else WordRows32(channel - 32)
  }

  // ----- The sequence and its windows -----

  /** Bit n of a sequence of period 127 entered at place o. */
  predicate Entered(bit: nat -> bool, o: nat, n: nat) {
    bit((o + n) % 127)
  }

  /** The whitening sequence from the start of a channel on. */
  predicate Stream(channel: nat, n: nat)
    requires channel < 40
  {
    Entered(WhiteningBit, WhiteningIndex(channel), n)
  }

  function Window0(o: nat): nat {
    match o
    case 0 => 0x4e7b42af case 1 => 0xa73da157 case 2 => 0x539ed0ab case 3 => 0xa9cf6855 case 4 => 0xd4e7b42a
    case 5 => 0x6a73da15 case 6 => 0x3539ed0a case 7 => 0x9a9cf685 case 8 => 0xcd4e7b42 case 9 => 0x66a73da1
    case 10 => 0x33539ed0 case 11 => 0x19a9cf68 case 12 => 0x0cd4e7b4 case 13 => 0x066a73da case 14 => 0x833539ed
    case 15 => 0xc19a9cf6 case 16 => 0x60cd4e7b case 17 => 0xb066a73d case 18 => 0xd833539e case 19 => 0x6c19a9cf
    case 20 => 0xb60cd4e7 case 21 => 0x5b066a73 case 22 => 0xad833539 case 23 => 0xd6c19a9c case 24 => 0xeb60cd4e
    case 25 => 0x75b066a7 case 26 => 0xbad83353 case 27 => 0x5d6c19a9 case 28 => 0x2eb60cd4 case 29 => 0x175b066a
    case 30 => 0x8bad8335 case 31 => 0xc5d6c19a
    case _ => 0
  }

  function Window32(o: nat): nat {
    match o
    case 32 => 0x62eb60cd case 33 => 0x3175b066 case 34 => 0x98bad833 case 35 => 0x4c5d6c19 case 36 => 0x262eb60c
    case 37 => 0x13175b06 case 38 => 0x898bad83 case 39 => 0x44c5d6c1 case 40 => 0x2262eb60 case 41 => 0x113175b0
    case 42 => 0x0898bad8 case 43 => 0x044c5d6c case 44 => 0x02262eb6 case 45 => 0x8113175b case 46 => 0x40898bad
    case 47 => 0x2044c5d6 case 48 => 0x902262eb case 49 => 0x48113175 case 50 => 0x240898ba case 51 => 0x92044c5d
    case 52 => 0xc902262e case 53 => 0x64811317 case 54 => 0xb240898b case 55 => 0x592044c5 case 56 => 0x2c902262
    case 57 => 0x96481131 case 58 => 0xcb240898 case 59 => 0xe592044c case 60 => 0xf2c90226 case 61 => 0x79648113
    case 62 => 0xbcb24089 case 63 => 0xde592044
    case _ => 0
  }

  function Window64(o: nat): nat {
    match o
    case 64 => 0xef2c9022 case 65 => 0x77964811 case 66 => 0x3bcb2408 case 67 => 0x1de59204 case 68 => 0x0ef2c902
    case 69 => 0x87796481 case 70 => 0xc3bcb240 case 71 => 0xe1de5920 case 72 => 0xf0ef2c90 case 73 => 0xf8779648
    case 74 => 0xfc3bcb24 case 75 => 0xfe1de592 case 76 => 0x7f0ef2c9 case 77 => 0x3f877964 case 78 => 0x1fc3bcb2
    case 79 => 0x8fe1de59 case 80 => 0xc7f0ef2c case 81 => 0xe3f87796 case 82 => 0x71fc3bcb case 83 => 0xb8fe1de5
    case 84 => 0xdc7f0ef2 case 85 => 0x6e3f8779 case 86 => 0x371fc3bc case 87 => 0x1b8fe1de case 88 => 0x8dc7f0ef
    case 89 => 0x46e3f877 case 90 => 0xa371fc3b case 91 => 0x51b8fe1d case 92 => 0x28dc7f0e case 93 => 0x946e3f87
    case 94 => 0x4a371fc3 case 95 => 0xa51b8fe1
    case _ => 0
  }

  function Window96(o: nat): nat {
    match o
    case 96 => 0xd28dc7f0 case 97 => 0xe946e3f8 case 98 => 0xf4a371fc case 99 => 0xfa51b8fe case 100 => 0x7d28dc7f
    case 101 => 0xbe946e3f case 102 => 0x5f4a371f case 103 => 0xafa51b8f case 104 => 0x57d28dc7 case 105 => 0xabe946e3
    case 106 => 0x55f4a371 case 107 => 0x2afa51b8 case 108 => 0x157d28dc case 109 => 0x0abe946e case 110 => 0x855f4a37
    case 111 => 0x42afa51b case 112 => 0xa157d28d case 113 => 0xd0abe946 case 114 => 0x6855f4a3 case 115 => 0xb42afa51
    case 116 => 0xda157d28 case 117 => 0xed0abe94 case 118 => 0xf6855f4a case 119 => 0x7b42afa5 case 120 => 0x3da157d2
    case 121 => 0x9ed0abe9 case 122 => 0xcf6855f4 case 123 => 0xe7b42afa case 124 => 0x73da157d case 125 => 0x39ed0abe
    case 126 => 0x9cf6855f
    case _ => 0
  }

  /** The 32 bits of the sequence from place o on, as a word. */
  function Window(o: nat): nat {
    if o < 32 then Window0(o)
    else if o < 64 then Window32(o)
    else if o < 96 then Window64(o)
    else Window96(o)
  }

  function Number(b: bool): nat {
    if b then 1 else 0
  }

  function Wrap(n: nat): (o: nat)
    ensures n < 508 ==> o < 127 && o == n % 127
  {
    if n < 127 then n else if n < 254 then n - 127 else if n < 381 then n - 254 else n - 381
  }

  /** A window one place on drops its first bit and takes in one new bit. */
  predicate Moves(window: nat, next: nat, leaves: bool, enters: bool) {
    2 * next + Number(leaves) == window + 0x1_0000_0000 * Number(enters)
  }

  lemma WindowsMove0(o: nat)
    requires 0 <= o < 8
    ensures Moves(Window(o), Window(o + 1), WhiteningBit(o), WhiteningBit(Wrap(o + 32)))
  {}

  lemma WindowsMove1(o: nat)
    requires 8 <= o < 16
    ensures Moves(Window(o), Window(o + 1), WhiteningBit(o), WhiteningBit(Wrap(o + 32)))
  {}

  lemma WindowsMove2(o: nat)
    requires 16 <= o < 24
    ensures Moves(Window(o), Window(o + 1), WhiteningBit(o), WhiteningBit(Wrap(o + 32)))
  {}

  lemma WindowsMove3(o: nat)
    requires 24 <= o < 32
    ensures Moves(Window(o), Window(o + 1), WhiteningBit(o), WhiteningBit(Wrap(o + 32)))
  {}

  lemma WindowsMove4(o: nat)
    requires 32 <= o < 40
    ensures Moves(Window(o), Window(o + 1), WhiteningBit(o), WhiteningBit(Wrap(o + 32)))
  {}

  lemma WindowsMove5(o: nat)
    requires 40 <= o < 48
    ensures Moves(Window(o), Window(o + 1), WhiteningBit(o), WhiteningBit(Wrap(o + 32)))
  {}

  lemma WindowsMove6(o: nat)
    requires 48 <= o < 56
    ensures Moves(Window(o), Window(o + 1), WhiteningBit(o), WhiteningBit(Wrap(o + 32)))
  {}

  lemma WindowsMove7(o: nat)
    requires 56 <= o < 64
    ensures Moves(Window(o), Window(o + 1), WhiteningBit(o), WhiteningBit(Wrap(o + 32)))
  {}

  lemma WindowsMove8(o: nat)
    requires 64 <= o < 72
    ensures Moves(Window(o), Window(o + 1), WhiteningBit(o), WhiteningBit(Wrap(o + 32)))
  {}

  lemma WindowsMove9(o: nat)
    requires 72 <= o < 80
    ensures Moves(Window(o), Window(o + 1), WhiteningBit(o), WhiteningBit(Wrap(o + 32)))
  {}

  lemma WindowsMove10(o: nat)
    requires 80 <= o < 88
    ensures Moves(Window(o), Window(o + 1), WhiteningBit(o), WhiteningBit(Wrap(o + 32)))
  {}

  lemma WindowsMove11(o: nat)
    requires 88 <= o < 96
    ensures Moves(Window(o), Window(o + 1), WhiteningBit(o), WhiteningBit(Wrap(o + 32)))
  {}

  lemma WindowsMove12(o: nat)
    requires 96 <= o < 104
    ensures Moves(Window(o), Window(o + 1), WhiteningBit(o), WhiteningBit(Wrap(o + 32)))
  {}

  lemma WindowsMove13(o: nat)
    requires 104 <= o < 112
    ensures Moves(Window(o), Window(o + 1), WhiteningBit(o), WhiteningBit(Wrap(o + 32)))
  {}

  lemma WindowsMove14(o: nat)
    requires 112 <= o < 120
    ensures Moves(Window(o), Window(o + 1), WhiteningBit(o), WhiteningBit(Wrap(o + 32)))
  {}

  lemma WindowsMove15(o: nat)
    requires 120 <= o < 126
    ensures Moves(Window(o), Window(o + 1), WhiteningBit(o), WhiteningBit(Wrap(o + 32)))
  {}

  lemma AllWindowsMove(o: nat)
    requires o < 126
    ensures Moves(Window(o), Window(o + 1), WhiteningBit(o), WhiteningBit(Wrap(o + 32)))
  {
    match o / 8
    case 0 => WindowsMove0(o);
    case 1 => WindowsMove1(o);
    case 2 => WindowsMove2(o);
    case 3 => WindowsMove3(o);
    case 4 => WindowsMove4(o);
    case 5 => WindowsMove5(o);
    case 6 => WindowsMove6(o);
    case 7 => WindowsMove7(o);
    case 8 => WindowsMove8(o);
    case 9 => WindowsMove9(o);
    case 10 => WindowsMove10(o);
    case 11 => WindowsMove11(o);
    case 12 => WindowsMove12(o);
    case 13 => WindowsMove13(o);
    case 14 => WindowsMove14(o);
    case _ => WindowsMove15(o);
  }

  /** 32 bits of a periodic sequence from place n on. */
  function Stretch(bit: nat -> bool, n: nat): (bits: seq<bool>)
    ensures |bits| == 32
  {
    seq(32, k requires 0 <= k < 32 => bit((n + k) % 127))
  }

  lemma {:induction false} ValueMoves(bits: seq<bool>, b: bool)
    ensures Value(bits + [b]) == Value(bits) + Pow2(|bits|) * Number(b)
  {
    if bits == [] {
      assert Value([b]) == Number(b);
    } else {
      assert (bits + [b])[1..] == bits[1..] + [b];
      ValueMoves(bits[1..], b);
    }
  }

  lemma StretchMoves(bit: nat -> bool, o: nat)
    requires o < 126
    ensures Moves(Value(Stretch(bit, o)), Value(Stretch(bit, o + 1)), bit(o), bit(Wrap(o + 32)))
  {
    var longer := Stretch(bit, o) + [bit(Wrap(o + 32))];
    assert longer[0] == bit(o);
    assert longer[1..] == Stretch(bit, o + 1);
    ValueMoves(Stretch(bit, o), bit(Wrap(o + 32)));
    Pow2Values();
  }

  /** The windows move along the sequence as its stretches do. */
  ghost predicate AllMove(window: nat -> nat, bit: nat -> bool) {
    forall o :: 0 <= o < 126 ==> Moves(window(o), window(o + 1), bit(o), bit(Wrap(o + 32)))
  }

  /** An error in one window would double with every window before it. */
  lemma {:induction false} ErrorDoubles(window: nat -> nat, bit: nat -> bool, o: nat)
    requires AllMove(window, bit) && o < 127
    ensures window(0) - Value(Stretch(bit, 0)) == Pow2(o) * (window(o) - Value(Stretch(bit, o)))
  {
    if o > 0 {
      ErrorDoubles(window, bit, o - 1);
      StretchMoves(bit, o - 1);
      assert Moves(window(o - 1), window(o), bit(o - 1), bit(Wrap(o - 1 + 32)));
      DoubleError(Pow2(o - 1), window(o - 1) - Value(Stretch(bit, o - 1)), window(o) - Value(Stretch(bit, o)));
    }
  }

  lemma DoubleError(p: nat, e: int, f: int)
    requires e == 2 * f
    ensures p * e == 2 * p * f
  {}

  /** An error of less than 2^33 that is 2^33 times a whole number is none. */
  lemma NoError(a: nat, b: nat, f: int)
    requires a < 0x1_0000_0000 && b < 0x1_0000_0000 && a - b == 0x2_0000_0000 * f
    ensures a == b
  {}

  lemma {:induction false} WindowsAreStretches(window: nat -> nat, bit: nat -> bool, o: nat)
    requires AllMove(window, bit) && window(0) < 0x1_0000_0000 && o < 127
    ensures window(o) == Value(Stretch(bit, o))
  {
    if o == 0 {
      ErrorDoubles(window, bit, 33);
      ValueRange(Stretch(bit, 0));
      Pow2Values();
      assert Pow2(33) == 0x2_0000_0000;
      NoError(window(0), Value(Stretch(bit, 0)), window(33) - Value(Stretch(bit, 33)));
    } else {
      WindowsAreStretches(window, bit, o - 1);
      StretchMoves(bit, o - 1);
      assert Moves(window(o - 1), window(o), bit(o - 1), bit(Wrap(o - 1 + 32)));
    }
  }

  lemma WrappedStretch(bit: nat -> bool, n: nat)
    requires n < 508
    ensures Stretch(bit, Wrap(n)) == Stretch(bit, n)
  {
    forall k | 0 <= k < 32 ensures Stretch(bit, Wrap(n))[k] == Stretch(bit, n)[k] {
      WrappedPlace(n, k);
    }
  }

  lemma WrappedPlace(n: nat, k: nat)
    requires n < 508
    ensures (Wrap(n) + k) % 127 == (n + k) % 127
  {}

  ghost predicate IsWindow(word: nat, n: nat) {
    word == Value(Stretch(WhiteningBit, n))
  }

  lemma WindowAt(n: nat)
    requires n < 508
    ensures IsWindow(Window(Wrap(n)), n)
  {
    forall o | 0 <= o < 126 ensures Moves(Window(o), Window(o + 1), WhiteningBit(o), WhiteningBit(Wrap(o + 32))) {
      AllWindowsMove(o);
    }
    WindowsAreStretches(Window, WhiteningBit, Wrap(n));
    WrappedStretch(WhiteningBit, n);
  }

  /** A word that begins with what the register of the standard puts out from the seed of a channel on. */
  predicate StartsAs(word: nat, c: nat) {
    && Bit(word, 0) == Bit(c, 0) && Bit(word, 1) == Bit(c, 1) && Bit(word, 2) == Bit(c, 2)
    && Bit(word, 3) == (Bit(c, 3) != Bit(c, 0)) && Bit(word, 4) == (Bit(c, 4) != Bit(c, 1))
    && Bit(word, 5) == (Bit(c, 5) != Bit(c, 2)) && Bit(word, 6) == (Bit(c, 3) == Bit(c, 0))
  }

  lemma Row0(c: nat, w: nat, o: nat)
    requires c == 0 && w < 12 && o == WhiteningIndex(0)
    ensures WordRows0(c)[w] == Window(Wrap(o + 32 * w))
    ensures StartsAs(WordRows0(c)[0], c)
  {}

  lemma Row1(c: nat, w: nat, o: nat)
    requires c == 1 && w < 12 && o == WhiteningIndex(1)
    ensures WordRows0(c)[w] == Window(Wrap(o + 32 * w))
    ensures StartsAs(WordRows0(c)[0], c)
  {}

  lemma Row2(c: nat, w: nat, o: nat)
    requires c == 2 && w < 12 && o == WhiteningIndex(2)
    ensures WordRows0(c)[w] == Window(Wrap(o + 32 * w))
    ensures StartsAs(WordRows0(c)[0], c)
  {}

  lemma Row3(c: nat, w: nat, o: nat)
    requires c == 3 && w < 12 && o == WhiteningIndex(3)
    ensures WordRows0(c)[w] == Window(Wrap(o + 32 * w))
    ensures StartsAs(WordRows0(c)[0], c)
  {}

  lemma Row4(c: nat, w: nat, o: nat)
    requires c == 4 && w < 12 && o == WhiteningIndex(4)
    ensures WordRows0(c)[w] == Window(Wrap(o + 32 * w))
    ensures StartsAs(WordRows0(c)[0], c)
  {}

  lemma Row5(c: nat, w: nat, o: nat)
    requires c == 5 && w < 12 && o == WhiteningIndex(5)
    ensures WordRows0(c)[w] == Window(Wrap(o + 32 * w))
    ensures StartsAs(WordRows0(c)[0], c)
  {}

  lemma Row6(c: nat, w: nat, o: nat)
    requires c == 6 && w < 12 && o == WhiteningIndex(6)
    ensures WordRows0(c)[w] == Window(Wrap(o + 32 * w))
    ensures StartsAs(WordRows0(c)[0], c)
  {}

  lemma Row7(c: nat, w: nat, o: nat)
    requires c == 7 && w < 12 && o == WhiteningIndex(7)
    ensures WordRows0(c)[w] == Window(Wrap(o + 32 * w))
    ensures StartsAs(WordRows0(c)[0], c)
  {}

  lemma Row8(c: nat, w: nat, o: nat)
    requires c == 0 && w < 12 && o == WhiteningIndex(8)
    ensures WordRows8(c)[w] == Window(Wrap(o + 32 * w))
    ensures StartsAs(WordRows8(c)[0], 8 + c)
  {}

  lemma Row9(c: nat, w: nat, o: nat)
    requires c == 1 && w < 12 && o == WhiteningIndex(9)
    ensures WordRows8(c)[w] == Window(Wrap(o + 32 * w))
    ensures StartsAs(WordRows8(c)[0], 8 + c)
  {}

  lemma Row10(c: nat, w: nat, o: nat)
    requires c == 2 && w < 12 && o == WhiteningIndex(10)
    ensures WordRows8(c)[w] == Window(Wrap(o + 32 * w))
    ensures StartsAs(WordRows8(c)[0], 8 + c)
  {}

  lemma Row11(c: nat, w: nat, o: nat)
    requires c == 3 && w < 12 && o == WhiteningIndex(11)
    ensures WordRows8(c)[w] == Window(Wrap(o + 32 * w))
    ensures StartsAs(WordRows8(c)[0], 8 + c)
  {}

  lemma Row12(c: nat, w: nat, o: nat)
    requires c == 4 && w < 12 && o == WhiteningIndex(12)
    ensures WordRows8(c)[w] == Window(Wrap(o + 32 * w))
    ensures StartsAs(WordRows8(c)[0], 8 + c)
  {}

  lemma Row13(c: nat, w: nat, o: nat)
    requires c == 5 && w < 12 && o == WhiteningIndex(13)
    ensures WordRows8(c)[w] == Window(Wrap(o + 32 * w))
    ensures StartsAs(WordRows8(c)[0], 8 + c)
  {}

  lemma Row14(c: nat, w: nat, o: nat)
    requires c == 6 && w < 12 && o == WhiteningIndex(14)
    ensures WordRows8(c)[w] == Window(Wrap(o + 32 * w))
    ensures StartsAs(WordRows8(c)[0], 8 + c)
  {}

  lemma Row15(c: nat, w: nat, o: nat)
    requires c == 7 && w < 12 && o == WhiteningIndex(15)
    ensures WordRows8(c)[w] == Window(Wrap(o + 32 * w))
    ensures StartsAs(WordRows8(c)[0], 8 + c)
  {}

  lemma Row16(c: nat, w: nat, o: nat)
    requires c == 0 && w < 12 && o == WhiteningIndex(16)
    ensures WordRows16(c)[w] == Window(Wrap(o + 32 * w))
    ensures StartsAs(WordRows16(c)[0], 16 + c)
  {}

  lemma Row17(c: nat, w: nat, o: nat)
    requires c == 1 && w < 12 && o == WhiteningIndex(17)
    ensures WordRows16(c)[w] == Window(Wrap(o + 32 * w))
    ensures StartsAs(WordRows16(c)[0], 16 + c)
  {}

  lemma Row18(c: nat, w: nat, o: nat)
    requires c == 2 && w < 12 && o == WhiteningIndex(18)
    ensures WordRows16(c)[w] == Window(Wrap(o + 32 * w))
    ensures StartsAs(WordRows16(c)[0], 16 + c)
  {}

  lemma Row19(c: nat, w: nat, o: nat)
    requires c == 3 && w < 12 && o == WhiteningIndex(19)
    ensures WordRows16(c)[w] == Window(Wrap(o + 32 * w))
    ensures StartsAs(WordRows16(c)[0], 16 + c)
  {}

  lemma Row20(c: nat, w: nat, o: nat)
    requires c == 4 && w < 12 && o == WhiteningIndex(20)
    ensures WordRows16(c)[w] == Window(Wrap(o + 32 * w))
    ensures StartsAs(WordRows16(c)[0], 16 + c)
  {}

  lemma Row21(c: nat, w: nat, o: nat)
    requires c == 5 && w < 12 && o == WhiteningIndex(21)
    ensures WordRows16(c)[w] == Window(Wrap(o + 32 * w))
    ensures StartsAs(WordRows16(c)[0], 16 + c)
  {}

  lemma Row22(c: nat, w: nat, o: nat)
    requires c == 6 && w < 12 && o == WhiteningIndex(22)
    ensures WordRows16(c)[w] == Window(Wrap(o + 32 * w))
    ensures StartsAs(WordRows16(c)[0], 16 + c)
  {}

  lemma Row23(c: nat, w: nat, o: nat)
    requires c == 7 && w < 12 && o == WhiteningIndex(23)
    ensures WordRows16(c)[w] == Window(Wrap(o + 32 * w))
    ensures StartsAs(WordRows16(c)[0], 16 + c)
  {}

  lemma Row24(c: nat, w: nat, o: nat)
    requires c == 0 && w < 12 && o == WhiteningIndex(24)
    ensures WordRows24(c)[w] == Window(Wrap(o + 32 * w))
    ensures StartsAs(WordRows24(c)[0], 24 + c)
  {}

  lemma Row25(c: nat, w: nat, o: nat)
    requires c == 1 && w < 12 && o == WhiteningIndex(25)
    ensures WordRows24(c)[w] == Window(Wrap(o + 32 * w))
    ensures StartsAs(WordRows24(c)[0], 24 + c)
  {}

  lemma Row26(c: nat, w: nat, o: nat)
    requires c == 2 && w < 12 && o == WhiteningIndex(26)
    ensures WordRows24(c)[w] == Window(Wrap(o + 32 * w))
    ensures StartsAs(WordRows24(c)[0], 24 + c)
  {}

  lemma Row27(c: nat, w: nat, o: nat)
    requires c == 3 && w < 12 && o == WhiteningIndex(27)
    ensures WordRows24(c)[w] == Window(Wrap(o + 32 * w))
    ensures StartsAs(WordRows24(c)[0], 24 + c)
  {}

  lemma Row28(c: nat, w: nat, o: nat)
    requires c == 4 && w < 12 && o == WhiteningIndex(28)
    ensures WordRows24(c)[w] == Window(Wrap(o + 32 * w))
    ensures StartsAs(WordRows24(c)[0], 24 + c)
  {}

  lemma Row29(c: nat, w: nat, o: nat)
    requires c == 5 && w < 12 && o == WhiteningIndex(29)
    ensures WordRows24(c)[w] == Window(Wrap(o + 32 * w))
    ensures StartsAs(WordRows24(c)[0], 24 + c)
  {}

  lemma Row30(c: nat, w: nat, o: nat)
    requires c == 6 && w < 12 && o == WhiteningIndex(30)
    ensures WordRows24(c)[w] == Window(Wrap(o + 32 * w))
    ensures StartsAs(WordRows24(c)[0], 24 + c)
  {}

  lemma Row31(c: nat, w: nat, o: nat)
    requires c == 7 && w < 12 && o == WhiteningIndex(31)
    ensures WordRows24(c)[w] == Window(Wrap(o + 32 * w))
    ensures StartsAs(WordRows24(c)[0], 24 + c)
  {}

  lemma Row32(c: nat, w: nat, o: nat)
    requires c == 0 && w < 12 && o == WhiteningIndex(32)
    ensures WordRows32(c)[w] == Window(Wrap(o + 32 * w))
    ensures StartsAs(WordRows32(c)[0], 32 + c)
  {}

  lemma Row33(c: nat, w: nat, o: nat)
    requires c == 1 && w < 12 && o == WhiteningIndex(33)
    ensures WordRows32(c)[w] == Window(Wrap(o + 32 * w))
    ensures StartsAs(WordRows32(c)[0], 32 + c)
  {}

  lemma Row34(c: nat, w: nat, o: nat)
    requires c == 2 && w < 12 && o == WhiteningIndex(34)
    ensures WordRows32(c)[w] == Window(Wrap(o + 32 * w))
    ensures StartsAs(WordRows32(c)[0], 32 + c)
  {}

  lemma Row35(c: nat, w: nat, o: nat)
    requires c == 3 && w < 12 && o == WhiteningIndex(35)
    ensures WordRows32(c)[w] == Window(Wrap(o + 32 * w))
    ensures StartsAs(WordRows32(c)[0], 32 + c)
  {}

  lemma Row36(c: nat, w: nat, o: nat)
    requires c == 4 && w < 12 && o == WhiteningIndex(36)
    ensures WordRows32(c)[w] == Window(Wrap(o + 32 * w))
    ensures StartsAs(WordRows32(c)[0], 32 + c)
  {}

  lemma Row37(c: nat, w: nat, o: nat)
    requires c == 5 && w < 12 && o == WhiteningIndex(37)
    ensures WordRows32(c)[w] == Window(Wrap(o + 32 * w))
    ensures StartsAs(WordRows32(c)[0], 32 + c)
  {}

  lemma Row38(c: nat, w: nat, o: nat)
    requires c == 6 && w < 12 && o == WhiteningIndex(38)
    ensures WordRows32(c)[w] == Window(Wrap(o + 32 * w))
    ensures StartsAs(WordRows32(c)[0], 32 + c)
  {}

  lemma Row39(c: nat, w: nat, o: nat)
    requires c == 7 && w < 12 && o == WhiteningIndex(39)
    ensures WordRows32(c)[w] == Window(Wrap(o + 32 * w))
    ensures StartsAs(WordRows32(c)[0], 32 + c)
  {}

  lemma RowsFrom0(c: nat, w: nat, o: nat)
    requires c < 8 && w < 12 && o == WhiteningIndex(c)
    ensures WordRows0(c)[w] == Window(Wrap(o + 32 * w))
    ensures StartsAs(WordRows0(c)[0], c)
  {
    match c
    case 0 => Row0(c, w, o);
    case 1 => Row1(c, w, o);
    case 2 => Row2(c, w, o);
    case 3 => Row3(c, w, o);
    case 4 => Row4(c, w, o);
    case 5 => Row5(c, w, o);
    case 6 => Row6(c, w, o);
    case _ => Row7(c, w, o);
  }

  lemma RowsFrom8(c: nat, w: nat, o: nat)
    requires c < 8 && w < 12 && o == WhiteningIndex(8 + c)
    ensures WordRows8(c)[w] == Window(Wrap(o + 32 * w))
    ensures StartsAs(WordRows8(c)[0], 8 + c)
  {
    match c
    case 0 => Row8(c, w, o);
    case 1 => Row9(c, w, o);
    case 2 => Row10(c, w, o);
    case 3 => Row11(c, w, o);
    case 4 => Row12(c, w, o);
    case 5 => Row13(c, w, o);
    case 6 => Row14(c, w, o);
    case _ => Row15(c, w, o);
  }

  lemma RowsFrom16(c: nat, w: nat, o: nat)
    requires c < 8 && w < 12 && o == WhiteningIndex(16 + c)
    ensures WordRows16(c)[w] == Window(Wrap(o + 32 * w))
    ensures StartsAs(WordRows16(c)[0], 16 + c)
  {
    match c
    case 0 => Row16(c, w, o);
    case 1 => Row17(c, w, o);
    case 2 => Row18(c, w, o);
    case 3 => Row19(c, w, o);
    case 4 => Row20(c, w, o);
    case 5 => Row21(c, w, o);
    case 6 => Row22(c, w, o);
    case _ => Row23(c, w, o);
  }

  lemma RowsFrom24(c: nat, w: nat, o: nat)
    requires c < 8 && w < 12 && o == WhiteningIndex(24 + c)
    ensures WordRows24(c)[w] == Window(Wrap(o + 32 * w))
    ensures StartsAs(WordRows24(c)[0], 24 + c)
  {
    match c
    case 0 => Row24(c, w, o);
    case 1 => Row25(c, w, o);
    case 2 => Row26(c, w, o);
    case 3 => Row27(c, w, o);
    case 4 => Row28(c, w, o);
    case 5 => Row29(c, w, o);
    case 6 => Row30(c, w, o);
    case _ => Row31(c, w, o);
  }

  lemma RowsFrom32(c: nat, w: nat, o: nat)
    requires c < 8 && w < 12 && o == WhiteningIndex(32 + c)
    ensures WordRows32(c)[w] == Window(Wrap(o + 32 * w))
    ensures StartsAs(WordRows32(c)[0], 32 + c)
  {
    match c
    case 0 => Row32(c, w, o);
    case 1 => Row33(c, w, o);
    case 2 => Row34(c, w, o);
    case 3 => Row35(c, w, o);
    case 4 => Row36(c, w, o);
    case 5 => Row37(c, w, o);
    case 6 => Row38(c, w, o);
    case _ => Row39(c, w, o);
  }

  lemma WordsAreWindows(channel: nat, w: nat, o: nat)
    requires channel < 40 && w < 12 && o == WhiteningIndex(channel)
    ensures WordRow(channel)[w] == Window(Wrap(o + 32 * w))
    ensures StartsAs(WordRow(channel)[0], channel)
  {
    if channel < 8 {
      RowsFrom0(channel, w, o);
    } else if channel < 16 {
      RowsFrom8(channel - 8, w, o);
    } else if channel < 24 {
      RowsFrom16(channel - 16, w, o);
    } else if channel < 32 {
      RowsFrom24(channel - 24, w, o);
    } else {
      RowsFrom32(channel - 32, w, o);
    }
  }

  /** Every word of the table is the stretch of the sequence the channel has there. */
  lemma WordsAreStretches(channel: nat, w: nat)
    requires channel < 40 && w < 12
    ensures IsWindow(WordRow(channel)[w], WhiteningIndex(channel) + 32 * w)
  {
    WordsAreWindows(channel, w, WhiteningIndex(channel));
    WindowAt(WhiteningIndex(channel) + 32 * w);
  }

  lemma StretchBit(bit: nat -> bool, o: nat, word: nat, w: nat, k: nat)
    requires word == Value(Stretch(bit, o + 32 * w)) && k < 32
    ensures Bit(word, k) == Entered(bit, o, 32 * w + k)
  {
    BitValue(Stretch(bit, o + 32 * w), k);
    assert o + 32 * w + k == o + (32 * w + k);
  }

  /** Bit k of word w of a channel's row is bit 32 * w + k of the channel's sequence. */
  lemma WordBit(channel: nat, w: nat, k: nat)
    requires channel < 40 && w < 12 && k < 32
    ensures Bit(WordRow(channel)[w], k) == Stream(channel, 32 * w + k)
  {
    WordsAreStretches(channel, w);
    StretchBit(WhiteningBit, WhiteningIndex(channel), WordRow(channel)[w], w, k);
  }

  // ----- The sequence against the shift register of the standard -----

  type WhiteningRegister = r: seq<bool> | |r| == 7 witness seq(7, _ => false)

  /** Position 0 holds a one, positions 1 to 6 the channel index, most significant bit first. */
  function Seed(channel: nat): WhiteningRegister {
    [true, Bit(channel, 5), Bit(channel, 4), Bit(channel, 3), Bit(channel, 2), Bit(channel, 1), Bit(channel, 0)]
  }

  /** One clock of x^7 + x^4 + 1; position 6 is the output. */
  function Clock(r: WhiteningRegister): WhiteningRegister {
    [r[6], r[0], r[1], r[2], r[3] != r[6], r[4], r[5]]
  }

  function Clocks(r: WhiteningRegister, n: nat): WhiteningRegister
    decreases n
  {
    if n == 0 then r else Clocks(Clock(r), n - 1)
  }

  /** The register that would put out these seven bits next. */
  function Before(b0: bool, b1: bool, b2: bool, b3: bool, b4: bool, b5: bool, b6: bool): WhiteningRegister {
    [b6 != b3, b5 != b2, b4 != b1, b3 != b0, b2, b1, b0]
  }

  function RegisterAt(bit: nat -> bool, o: nat): WhiteningRegister {
    Before(bit(o), bit(Wrap(o + 1)), bit(Wrap(o + 2)), bit(Wrap(o + 3)), bit(Wrap(o + 4)), bit(Wrap(o + 5)),
           bit(Wrap(o + 6)))
  }

  /** From a place on the sequence begins with the first bits of a word. */
  ghost predicate SentFrom(bit: nat -> bool, word: nat, o: nat) {
    forall k :: 0 <= k < 7 ==> bit(Wrap(o + k)) == Bit(word, k)
  }

  lemma FirstWordSent(channel: nat, o: nat)
    requires channel < 40 && o == WhiteningIndex(channel)
    ensures SentFrom(WhiteningBit, WordRow(channel)[0], o)
  {
    forall k | 0 <= k < 7 ensures WhiteningBit(Wrap(o + k)) == Bit(WordRow(channel)[0], k) {
      WordBit(channel, 0, k);
    }
  }

  predicate RecursAt(bit: nat -> bool, i: nat) {
    bit(Wrap(i + 7)) == (bit(i) != bit(Wrap(i + 4)))
  }

  ghost predicate Recurs(bit: nat -> bool) {
    forall i :: 0 <= i < 127 ==> RecursAt(bit, i)
  }

  predicate ClocksTo(register: nat -> WhiteningRegister, i: nat) {
    Clock(register(i)) == register(Wrap(i + 1))
  }

  function Registers(bit: nat -> bool): nat -> WhiteningRegister {
    i => RegisterAt(bit, i)
  }

  lemma ClockBefore(b0: bool, b1: bool, b2: bool, b3: bool, b4: bool, b5: bool, b6: bool, b7: bool)
    requires b7 == (b0 != b4)
    ensures Clock(Before(b0, b1, b2, b3, b4, b5, b6)) == Before(b1, b2, b3, b4, b5, b6, b7)
  {}

  lemma NextWrap(o: nat, k: nat)
    requires o < 127 && k < 7
    ensures Wrap(Wrap(o + 1) + k) == Wrap(o + 1 + k)
  {}

  lemma RegisterOfNext(bit: nat -> bool, o: nat)
    requires o < 127
    ensures RegisterAt(bit, Wrap(o + 1)) == Before(bit(Wrap(o + 1)), bit(Wrap(o + 2)), bit(Wrap(o + 3)), bit(Wrap(o + 4)),
                                                   bit(Wrap(o + 5)), bit(Wrap(o + 6)), bit(Wrap(o + 7)))
  {
    NextWrap(o, 1);
    NextWrap(o, 2);
    NextWrap(o, 3);
    NextWrap(o, 4);
    NextWrap(o, 5);
    NextWrap(o, 6);
  }

  lemma ClockMoves(bit: nat -> bool, o: nat)
    requires RecursAt(bit, o) && o < 127
    ensures Clock(RegisterAt(bit, o)) == RegisterAt(bit, Wrap(o + 1))
  {
    RegisterOfNext(bit, o);
    ClockBefore(bit(o), bit(Wrap(o + 1)), bit(Wrap(o + 2)), bit(Wrap(o + 3)), bit(Wrap(o + 4)), bit(Wrap(o + 5)),
                bit(Wrap(o + 6)), bit(Wrap(o + 7)));
  }

  lemma NextPlace(o: nat, n: nat)
    requires o < 127 && n > 0
    ensures Wrap(o + 1) < 127 && (Wrap(o + 1) + (n - 1)) % 127 == (o + n) % 127
  {}

  /** Registers that each clock to the next around the period are where the clocks lead. */
  lemma {:induction false} ClocksFollow(register: nat -> WhiteningRegister, o: nat, n: nat)
    requires forall i :: 0 <= i < 127 ==> ClocksTo(register, i)
    requires o < 127
    ensures Clocks(register(o), n) == register((o + n) % 127)
    decreases n
  {
    if n > 0 {
      NextPlace(o, n);
      assert ClocksTo(register, o);
      ClocksFollow(register, Wrap(o + 1), n - 1);
    }
  }

  lemma SeedOfPlace(bit: nat -> bool, word: nat, c: nat, o: nat)
    requires SentFrom(bit, word, o) && StartsAs(word, c) && o < 127
    ensures RegisterAt(bit, o) == Seed(c)
  {
    assert Wrap(o + 0) == o;
    assert bit(Wrap(o + 1)) == Bit(word, 1) && bit(Wrap(o + 2)) == Bit(word, 2) && bit(Wrap(o + 3)) == Bit(word, 3);
    assert bit(Wrap(o + 4)) == Bit(word, 4) && bit(Wrap(o + 5)) == Bit(word, 5) && bit(Wrap(o + 6)) == Bit(word, 6);
  }

  lemma TableRecurs()
    ensures Recurs(WhiteningBit)
  {}

  predicate Outputs(register: nat -> WhiteningRegister, bit: nat -> bool, i: nat) {
    register(i)[6] == bit(i)
  }

  lemma OutputsFollow(register: nat -> WhiteningRegister, bit: nat -> bool, o: nat, n: nat)
    requires forall i :: 0 <= i < 127 ==> ClocksTo(register, i)
    requires forall i :: 0 <= i < 127 ==> Outputs(register, bit, i)
    requires o < 127
    ensures Clocks(register(o), n)[6] == bit((o + n) % 127)
  {
    ClocksFollow(register, o, n);
    assert Outputs(register, bit, (o + n) % 127);
  }

  lemma RegistersClock(bit: nat -> bool, i: nat)
    requires RecursAt(bit, i) && i < 127
    ensures ClocksTo(Registers(bit), i)
  {
    ClockMoves(bit, i);
  }

  lemma RegistersOutput(bit: nat -> bool, i: nat)
    ensures Outputs(Registers(bit), bit, i)
  {}

  lemma AllClock(bit: nat -> bool)
    requires Recurs(bit)
    ensures forall i :: 0 <= i < 127 ==> ClocksTo(Registers(bit), i) && Outputs(Registers(bit), bit, i)
  {
    forall i | 0 <= i < 127 ensures ClocksTo(Registers(bit), i) && Outputs(Registers(bit), bit, i) {
      assert RecursAt(bit, i);
      RegistersClock(bit, i);
      RegistersOutput(bit, i);
    }
  }

  lemma RegistersStart(bit: nat -> bool, word: nat, channel: nat, o: nat)
    requires SentFrom(bit, word, o) && StartsAs(word, channel) && o < 127
    ensures Registers(bit)(o) == Seed(channel)
  {
    SeedOfPlace(bit, word, channel, o);
  }

  /** A sequence with the recurrence of the polynomial is the register's output from the matching seed on. */
  lemma StandardStream(bit: nat -> bool, word: nat, channel: nat, o: nat, n: nat)
    requires Recurs(bit) && SentFrom(bit, word, o) && StartsAs(word, channel) && o < 127
    ensures Clocks(Seed(channel), n)[6] == Entered(bit, o, n)
  {
    AllClock(bit);
    RegistersStart(bit, word, channel, o);
    OutputsFollow(Registers(bit), bit, o, n);
  }

  lemma StandardAt(channel: nat, o: nat, n: nat)
    requires channel < 40 && o == WhiteningIndex(channel)
    ensures Clocks(Seed(channel), n)[6] == Entered(WhiteningBit, o, n)
  {
    TableRecurs();
    WordsAreWindows(channel, 0, o);
    FirstWordSent(channel, o);
    StandardStream(WhiteningBit, WordRow(channel)[0], channel, o, n);
  }

  /**
   The 127-bit table, entered where the channel's index says, is the output of the
   standard's register seeded with that channel, for as long as it runs.
  */
  lemma StreamIsStandard(channel: nat, n: nat)
    requires channel < 40
    ensures Stream(channel, n) == Clocks(Seed(channel), n)[6]
  {
    var o := WhiteningIndex(channel);
    StandardAt(channel, o, n);
  }
}
