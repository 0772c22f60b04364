/** The substitution of `tkip.c`: its table of 256 words, row by row of sixteen. */
module TkipTable {
  import opened TkipMixing
  import opened Words

  function Entry(c: bv8): bv16 {
    if c < 0x10 then Row0(c)
    else if c < 0x20 then Row1(c)
    else if c < 0x30 then Row2(c)
    else if c < 0x40 then Row3(c)
    else if c < 0x50 then Row4(c)
    else if c < 0x60 then Row5(c)
    else if c < 0x70 then Row6(c)
    else if c < 0x80 then Row7(c)
    else if c < 0x90 then Row8(c)
    else if c < 0xa0 then Row9(c)
    else if c < 0xb0 then Row10(c)
    else if c < 0xc0 then Row11(c)
    else if c < 0xd0 then Row12(c)
    else if c < 0xe0 then Row13(c)
    else if c < 0xf0 then Row14(c)
    else Row15(c)
  }

  function Row0(c: bv8): bv16 {
    if c == 0x00 then 0xc6a5 else if c == 0x01 then 0xf884 else if c == 0x02 then 0xee99 else if c == 0x03 then 0xf68d
    else if c == 0x04 then 0xff0d else if c == 0x05 then 0xd6bd else if c == 0x06 then 0xdeb1 else if c == 0x07 then 0x9154
    else if c == 0x08 then 0x6050 else if c == 0x09 then 0x0203 else if c == 0x0a then 0xcea9 else if c == 0x0b then 0x567d
    else if c == 0x0c then 0xe719 else if c == 0x0d then 0xb562 else if c == 0x0e then 0x4de6 else 0xec9a
  }

  function Row1(c: bv8): bv16 {
    if c == 0x10 then 0x8f45 else if c == 0x11 then 0x1f9d else if c == 0x12 then 0x8940 else if c == 0x13 then 0xfa87
    else if c == 0x14 then 0xef15 else if c == 0x15 then 0xb2eb else if c == 0x16 then 0x8ec9 else if c == 0x17 then 0xfb0b
    else if c == 0x18 then 0x41ec else if c == 0x19 then 0xb367 else if c == 0x1a then 0x5ffd else if c == 0x1b then 0x45ea
    else if c == 0x1c then 0x23bf else if c == 0x1d then 0x53f7 else if c == 0x1e then 0xe496 else 0x9b5b
  }

  function Row2(c: bv8): bv16 {
    if c == 0x20 then 0x75c2 else if c == 0x21 then 0xe11c else if c == 0x22 then 0x3dae else if c == 0x23 then 0x4c6a
    else if c == 0x24 then 0x6c5a else if c == 0x25 then 0x7e41 else if c == 0x26 then 0xf502 else if c == 0x27 then 0x834f
    else if c == 0x28 then 0x685c else if c == 0x29 then 0x51f4 else if c == 0x2a then 0xd134 else if c == 0x2b then 0xf908
    else if c == 0x2c then 0xe293 else if c == 0x2d then 0xab73 else if c == 0x2e then 0x6253 else 0x2a3f
  }

  function Row3(c: bv8): bv16 {
    if c == 0x30 then 0x080c else if c == 0x31 then 0x9552 else if c == 0x32 then 0x4665 else if c == 0x33 then 0x9d5e
    else if c == 0x34 then 0x3028 else if c == 0x35 then 0x37a1 else if c == 0x36 then 0x0a0f else if c == 0x37 then 0x2fb5
    else if c == 0x38 then 0x0e09 else if c == 0x39 then 0x2436 else if c == 0x3a then 0x1b9b else if c == 0x3b then 0xdf3d
    else if c == 0x3c then 0xcd26 else if c == 0x3d then 0x4e69 else if c == 0x3e then 0x7fcd else 0xea9f
  }

  function Row4(c: bv8): bv16 {
    if c == 0x40 then 0x121b else if c == 0x41 then 0x1d9e else if c == 0x42 then 0x5874 else if c == 0x43 then 0x342e
    else if c == 0x44 then 0x362d else if c == 0x45 then 0xdcb2 else if c == 0x46 then 0xb4ee else if c == 0x47 then 0x5bfb
    else if c == 0x48 then 0xa4f6 else if c == 0x49 then 0x764d else if c == 0x4a then 0xb761 else if c == 0x4b then 0x7dce
    else if c == 0x4c then 0x527b else if c == 0x4d then 0xdd3e else if c == 0x4e then 0x5e71 else 0x1397
  }

  function Row5(c: bv8): bv16 {
    if c == 0x50 then 0xa6f5 else if c == 0x51 then 0xb968 else if c == 0x52 then 0x0000 else if c == 0x53 then 0xc12c
    else if c == 0x54 then 0x4060 else if c == 0x55 then 0xe31f else if c == 0x56 then 0x79c8 else if c == 0x57 then 0xb6ed
    else if c == 0x58 then 0xd4be else if c == 0x59 then 0x8d46 else if c == 0x5a then 0x67d9 else if c == 0x5b then 0x724b
    else if c == 0x5c then 0x94de else if c == 0x5d then 0x98d4 else if c == 0x5e then 0xb0e8 else 0x854a
  }

  function Row6(c: bv8): bv16 {
    if c == 0x60 then 0xbb6b else if c == 0x61 then 0xc52a else if c == 0x62 then 0x4fe5 else if c == 0x63 then 0xed16
    else if c == 0x64 then 0x86c5 else if c == 0x65 then 0x9ad7 else if c == 0x66 then 0x6655 else if c == 0x67 then 0x1194
    else if c == 0x68 then 0x8acf else if c == 0x69 then 0xe910 else if c == 0x6a then 0x0406 else if c == 0x6b then 0xfe81
    else if c == 0x6c then 0xa0f0 else if c == 0x6d then 0x7844 else if c == 0x6e then 0x25ba else 0x4be3
  }

  function Row7(c: bv8): bv16 {
    if c == 0x70 then 0xa2f3 else if c == 0x71 then 0x5dfe else if c == 0x72 then 0x80c0 else if c == 0x73 then 0x058a
    else if c == 0x74 then 0x3fad else if c == 0x75 then 0x21bc else if c == 0x76 then 0x7048 else if c == 0x77 then 0xf104
    else if c == 0x78 then 0x63df else if c == 0x79 then 0x77c1 else if c == 0x7a then 0xaf75 else if c == 0x7b then 0x4263
    else if c == 0x7c then 0x2030 else if c == 0x7d then 0xe51a else if c == 0x7e then 0xfd0e else 0xbf6d
  }

  function Row8(c: bv8): bv16 {
    if c == 0x80 then 0x814c else if c == 0x81 then 0x1814 else if c == 0x82 then 0x2635 else if c == 0x83 then 0xc32f
    else if c == 0x84 then 0xbee1 else if c == 0x85 then 0x35a2 else if c == 0x86 then 0x88cc else if c == 0x87 then 0x2e39
    else if c == 0x88 then 0x9357 else if c == 0x89 then 0x55f2 else if c == 0x8a then 0xfc82 else if c == 0x8b then 0x7a47
    else if c == 0x8c then 0xc8ac else if c == 0x8d then 0xbae7 else if c == 0x8e then 0x322b else 0xe695
  }

  function Row9(c: bv8): bv16 {
    if c == 0x90 then 0xc0a0 else if c == 0x91 then 0x1998 else if c == 0x92 then 0x9ed1 else if c == 0x93 then 0xa37f
    else if c == 0x94 then 0x4466 else if c == 0x95 then 0x547e else if c == 0x96 then 0x3bab else if c == 0x97 then 0x0b83
    else if c == 0x98 then 0x8cca else if c == 0x99 then 0xc729 else if c == 0x9a then 0x6bd3 else if c == 0x9b then 0x283c
    else if c == 0x9c then 0xa779 else if c == 0x9d then 0xbce2 else if c == 0x9e then 0x161d else 0xad76
  }

  function Row10(c: bv8): bv16 {
    if c == 0xa0 then 0xdb3b else if c == 0xa1 then 0x6456 else if c == 0xa2 then 0x744e else if c == 0xa3 then 0x141e
    else if c == 0xa4 then 0x92db else if c == 0xa5 then 0x0c0a else if c == 0xa6 then 0x486c else if c == 0xa7 then 0xb8e4
    else if c == 0xa8 then 0x9f5d else if c == 0xa9 then 0xbd6e else if c == 0xaa then 0x43ef else if c == 0xab then 0xc4a6
    else if c == 0xac then 0x39a8 else if c == 0xad then 0x31a4 else if c == 0xae then 0xd337 else 0xf28b
  }

  function Row11(c: bv8): bv16 {
    if c == 0xb0 then 0xd532 else if c == 0xb1 then 0x8b43 else if c == 0xb2 then 0x6e59 else if c == 0xb3 then 0xdab7
    else if c == 0xb4 then 0x018c else if c == 0xb5 then 0xb164 else if c == 0xb6 then 0x9cd2 else if c == 0xb7 then 0x49e0
    else if c == 0xb8 then 0xd8b4 else if c == 0xb9 then 0xacfa else if c == 0xba then 0xf307 else if c == 0xbb then 0xcf25
    else if c == 0xbc then 0xcaaf else if c == 0xbd then 0xf48e else if c == 0xbe then 0x47e9 else 0x1018
  }

  function Row12(c: bv8): bv16 {
    if c == 0xc0 then 0x6fd5 else if c == 0xc1 then 0xf088 else if c == 0xc2 then 0x4a6f else if c == 0xc3 then 0x5c72
    else if c == 0xc4 then 0x3824 else if c == 0xc5 then 0x57f1 else if c == 0xc6 then 0x73c7 else if c == 0xc7 then 0x9751
    else if c == 0xc8 then 0xcb23 else if c == 0xc9 then 0xa17c else if c == 0xca then 0xe89c else if c == 0xcb then 0x3e21
    else if c == 0xcc then 0x96dd else if c == 0xcd then 0x61dc else if c == 0xce then 0x0d86 else 0x0f85
  }

  function Row13(c: bv8): bv16 {
    if c == 0xd0 then 0xe090 else if c == 0xd1 then 0x7c42 else if c == 0xd2 then 0x71c4 else if c == 0xd3 then 0xccaa
    else if c == 0xd4 then 0x90d8 else if c == 0xd5 then 0x0605 else if c == 0xd6 then 0xf701 else if c == 0xd7 then 0x1c12
    else if c == 0xd8 then 0xc2a3 else if c == 0xd9 then 0x6a5f else if c == 0xda then 0xaef9 else if c == 0xdb then 0x69d0
    else if c == 0xdc then 0x1791 else if c == 0xdd then 0x9958 else if c == 0xde then 0x3a27 else 0x27b9
  }

  function Row14(c: bv8): bv16 {
    if c == 0xe0 then 0xd938 else if c == 0xe1 then 0xeb13 else if c == 0xe2 then 0x2bb3 else if c == 0xe3 then 0x2233
    else if c == 0xe4 then 0xd2bb else if c == 0xe5 then 0xa970 else if c == 0xe6 then 0x0789 else if c == 0xe7 then 0x33a7
    else if c == 0xe8 then 0x2db6 else if c == 0xe9 then 0x3c22 else if c == 0xea then 0x1592 else if c == 0xeb then 0xc920
    else if c == 0xec then 0x8749 else if c == 0xed then 0xaaff else if c == 0xee then 0x5078 else 0xa57a
  }

  function Row15(c: bv8): bv16 {
    if c == 0xf0 then 0x038f else if c == 0xf1 then 0x59f8 else if c == 0xf2 then 0x0980 else if c == 0xf3 then 0x1a17
    else if c == 0xf4 then 0x65da else if c == 0xf5 then 0xd731 else if c == 0xf6 then 0x84c6 else if c == 0xf7 then 0xd0b8
    else if c == 0xf8 then 0x82c3 else if c == 0xf9 then 0x29b0 else if c == 0xfa then 0x5a77 else if c == 0xfb then 0x1e11
    else if c == 0xfc then 0x7bcb else if c == 0xfd then 0xa8fc else if c == 0xfe then 0x6dd6 else 0x2c3a
  }

  function Swab(x: bv16): bv16 { (x >> 8) | (x << 8) }

  /** `tkipS` */
  function Substituted(v: bv16): bv16 {
    Xor16(Entry(Lo(v)), Swab(Entry(Hi(v))))
  }
}
