/** The constants of aes-encrypt-table.c: the S-box, and the four T-tables. */
module AesTable {
  import opened Bytes

  function Sbox0(n: byte): byte {
    match n
    case 0x0 => 0x63 case 0x1 => 0x7c case 0x2 => 0x77 case 0x3 => 0x7b case 0x4 => 0xf2 case 0x5 => 0x6b case 0x6 => 0x6f case 0x7 => 0xc5
    case 0x8 => 0x30 case 0x9 => 0x01 case 0xa => 0x67 case 0xb => 0x2b case 0xc => 0xfe case 0xd => 0xd7 case 0xe => 0xab case _ => 0x76
  }

  function Sbox1(n: byte): byte {
    match n
    case 0x0 => 0xca case 0x1 => 0x82 case 0x2 => 0xc9 case 0x3 => 0x7d case 0x4 => 0xfa case 0x5 => 0x59 case 0x6 => 0x47 case 0x7 => 0xf0
    case 0x8 => 0xad case 0x9 => 0xd4 case 0xa => 0xa2 case 0xb => 0xaf case 0xc => 0x9c case 0xd => 0xa4 case 0xe => 0x72 case _ => 0xc0
  }

  function Sbox2(n: byte): byte {
    match n
    case 0x0 => 0xb7 case 0x1 => 0xfd case 0x2 => 0x93 case 0x3 => 0x26 case 0x4 => 0x36 case 0x5 => 0x3f case 0x6 => 0xf7 case 0x7 => 0xcc
    case 0x8 => 0x34 case 0x9 => 0xa5 case 0xa => 0xe5 case 0xb => 0xf1 case 0xc => 0x71 case 0xd => 0xd8 case 0xe => 0x31 case _ => 0x15
  }

  function Sbox3(n: byte): byte {
    match n
    case 0x0 => 0x04 case 0x1 => 0xc7 case 0x2 => 0x23 case 0x3 => 0xc3 case 0x4 => 0x18 case 0x5 => 0x96 case 0x6 => 0x05 case 0x7 => 0x9a
    case 0x8 => 0x07 case 0x9 => 0x12 case 0xa => 0x80 case 0xb => 0xe2 case 0xc => 0xeb case 0xd => 0x27 case 0xe => 0xb2 case _ => 0x75
  }

  function Sbox4(n: byte): byte {
    match n
    case 0x0 => 0x09 case 0x1 => 0x83 case 0x2 => 0x2c case 0x3 => 0x1a case 0x4 => 0x1b case 0x5 => 0x6e case 0x6 => 0x5a case 0x7 => 0xa0
    case 0x8 => 0x52 case 0x9 => 0x3b case 0xa => 0xd6 case 0xb => 0xb3 case 0xc => 0x29 case 0xd => 0xe3 case 0xe => 0x2f case _ => 0x84
  }

  function Sbox5(n: byte): byte {
    match n
    case 0x0 => 0x53 case 0x1 => 0xd1 case 0x2 => 0x00 case 0x3 => 0xed case 0x4 => 0x20 case 0x5 => 0xfc case 0x6 => 0xb1 case 0x7 => 0x5b
    case 0x8 => 0x6a case 0x9 => 0xcb case 0xa => 0xbe case 0xb => 0x39 case 0xc => 0x4a case 0xd => 0x4c case 0xe => 0x58 case _ => 0xcf
  }

  function Sbox6(n: byte): byte {
    match n
    case 0x0 => 0xd0 case 0x1 => 0xef case 0x2 => 0xaa case 0x3 => 0xfb case 0x4 => 0x43 case 0x5 => 0x4d case 0x6 => 0x33 case 0x7 => 0x85
    case 0x8 => 0x45 case 0x9 => 0xf9 case 0xa => 0x02 case 0xb => 0x7f case 0xc => 0x50 case 0xd => 0x3c case 0xe => 0x9f case _ => 0xa8
  }

  function Sbox7(n: byte): byte {
    match n
    case 0x0 => 0x51 case 0x1 => 0xa3 case 0x2 => 0x40 case 0x3 => 0x8f case 0x4 => 0x92 case 0x5 => 0x9d case 0x6 => 0x38 case 0x7 => 0xf5
    case 0x8 => 0xbc case 0x9 => 0xb6 case 0xa => 0xda case 0xb => 0x21 case 0xc => 0x10 case 0xd => 0xff case 0xe => 0xf3 case _ => 0xd2
  }

  function Sbox8(n: byte): byte {
    match n
    case 0x0 => 0xcd case 0x1 => 0x0c case 0x2 => 0x13 case 0x3 => 0xec case 0x4 => 0x5f case 0x5 => 0x97 case 0x6 => 0x44 case 0x7 => 0x17
    case 0x8 => 0xc4 case 0x9 => 0xa7 case 0xa => 0x7e case 0xb => 0x3d case 0xc => 0x64 case 0xd => 0x5d case 0xe => 0x19 case _ => 0x73
  }

  function Sbox9(n: byte): byte {
    match n
    case 0x0 => 0x60 case 0x1 => 0x81 case 0x2 => 0x4f case 0x3 => 0xdc case 0x4 => 0x22 case 0x5 => 0x2a case 0x6 => 0x90 case 0x7 => 0x88
    case 0x8 => 0x46 case 0x9 => 0xee case 0xa => 0xb8 case 0xb => 0x14 case 0xc => 0xde case 0xd => 0x5e case 0xe => 0x0b case _ => 0xdb
  }

  function SboxA(n: byte): byte {
    match n
    case 0x0 => 0xe0 case 0x1 => 0x32 case 0x2 => 0x3a case 0x3 => 0x0a case 0x4 => 0x49 case 0x5 => 0x06 case 0x6 => 0x24 case 0x7 => 0x5c
    case 0x8 => 0xc2 case 0x9 => 0xd3 case 0xa => 0xac case 0xb => 0x62 case 0xc => 0x91 case 0xd => 0x95 case 0xe => 0xe4 case _ => 0x79
  }

  function SboxB(n: byte): byte {
    match n
    case 0x0 => 0xe7 case 0x1 => 0xc8 case 0x2 => 0x37 case 0x3 => 0x6d case 0x4 => 0x8d case 0x5 => 0xd5 case 0x6 => 0x4e case 0x7 => 0xa9
    case 0x8 => 0x6c case 0x9 => 0x56 case 0xa => 0xf4 case 0xb => 0xea case 0xc => 0x65 case 0xd => 0x7a case 0xe => 0xae case _ => 0x08
  }

  function SboxC(n: byte): byte {
    match n
    case 0x0 => 0xba case 0x1 => 0x78 case 0x2 => 0x25 case 0x3 => 0x2e case 0x4 => 0x1c case 0x5 => 0xa6 case 0x6 => 0xb4 case 0x7 => 0xc6
    case 0x8 => 0xe8 case 0x9 => 0xdd case 0xa => 0x74 case 0xb => 0x1f case 0xc => 0x4b case 0xd => 0xbd case 0xe => 0x8b case _ => 0x8a
  }

  function SboxD(n: byte): byte {
    match n
    case 0x0 => 0x70 case 0x1 => 0x3e case 0x2 => 0xb5 case 0x3 => 0x66 case 0x4 => 0x48 case 0x5 => 0x03 case 0x6 => 0xf6 case 0x7 => 0x0e
    case 0x8 => 0x61 case 0x9 => 0x35 case 0xa => 0x57 case 0xb => 0xb9 case 0xc => 0x86 case 0xd => 0xc1 case 0xe => 0x1d case _ => 0x9e
  }

  function SboxE(n: byte): byte {
    match n
    case 0x0 => 0xe1 case 0x1 => 0xf8 case 0x2 => 0x98 case 0x3 => 0x11 case 0x4 => 0x69 case 0x5 => 0xd9 case 0x6 => 0x8e case 0x7 => 0x94
    case 0x8 => 0x9b case 0x9 => 0x1e case 0xa => 0x87 case 0xb => 0xe9 case 0xc => 0xce case 0xd => 0x55 case 0xe => 0x28 case _ => 0xdf
  }

  function SboxF(n: byte): byte {
    match n
    case 0x0 => 0x8c case 0x1 => 0xa1 case 0x2 => 0x89 case 0x3 => 0x0d case 0x4 => 0xbf case 0x5 => 0xe6 case 0x6 => 0x42 case 0x7 => 0x68
    case 0x8 => 0x41 case 0x9 => 0x99 case 0xa => 0x2d case 0xb => 0x0f case 0xc => 0xb0 case 0xd => 0x54 case 0xe => 0xbb case _ => 0x16
  }

  /** _nettle_aes_encrypt_table.sbox */
  function Sbox(b: byte): byte {
    var n := b & 0xf;
    match b >> 4
    case 0x0 => Sbox0(n)
    case 0x1 => Sbox1(n)
    case 0x2 => Sbox2(n)
    case 0x3 => Sbox3(n)
    case 0x4 => Sbox4(n)
    case 0x5 => Sbox5(n)
    case 0x6 => Sbox6(n)
    case 0x7 => Sbox7(n)
    case 0x8 => Sbox8(n)
    case 0x9 => Sbox9(n)
    case 0xa => SboxA(n)
    case 0xb => SboxB(n)
    case 0xc => SboxC(n)
    case 0xd => SboxD(n)
    case 0xe => SboxE(n)
    case _ => SboxF(n)
  }

  function T0x0(n: byte): bv32 {
    match n
    case 0x0 => 0xa56363c6 case 0x1 => 0x847c7cf8 case 0x2 => 0x997777ee case 0x3 => 0x8d7b7bf6
    case 0x4 => 0x0df2f2ff case 0x5 => 0xbd6b6bd6 case 0x6 => 0xb16f6fde case 0x7 => 0x54c5c591
    case 0x8 => 0x50303060 case 0x9 => 0x03010102 case 0xa => 0xa96767ce case 0xb => 0x7d2b2b56
    case 0xc => 0x19fefee7 case 0xd => 0x62d7d7b5 case 0xe => 0xe6abab4d case _ => 0x9a7676ec
  }

  function T0x1(n: byte): bv32 {
    match n
    case 0x0 => 0x45caca8f case 0x1 => 0x9d82821f case 0x2 => 0x40c9c989 case 0x3 => 0x877d7dfa
    case 0x4 => 0x15fafaef case 0x5 => 0xeb5959b2 case 0x6 => 0xc947478e case 0x7 => 0x0bf0f0fb
    case 0x8 => 0xecadad41 case 0x9 => 0x67d4d4b3 case 0xa => 0xfda2a25f case 0xb => 0xeaafaf45
    case 0xc => 0xbf9c9c23 case 0xd => 0xf7a4a453 case 0xe => 0x967272e4 case _ => 0x5bc0c09b
  }

  function T0x2(n: byte): bv32 {
    match n
    case 0x0 => 0xc2b7b775 case 0x1 => 0x1cfdfde1 case 0x2 => 0xae93933d case 0x3 => 0x6a26264c
    case 0x4 => 0x5a36366c case 0x5 => 0x413f3f7e case 0x6 => 0x02f7f7f5 case 0x7 => 0x4fcccc83
    case 0x8 => 0x5c343468 case 0x9 => 0xf4a5a551 case 0xa => 0x34e5e5d1 case 0xb => 0x08f1f1f9
    case 0xc => 0x937171e2 case 0xd => 0x73d8d8ab case 0xe => 0x53313162 case _ => 0x3f15152a
  }

  function T0x3(n: byte): bv32 {
    match n
    case 0x0 => 0x0c040408 case 0x1 => 0x52c7c795 case 0x2 => 0x65232346 case 0x3 => 0x5ec3c39d
    case 0x4 => 0x28181830 case 0x5 => 0xa1969637 case 0x6 => 0x0f05050a case 0x7 => 0xb59a9a2f
    case 0x8 => 0x0907070e case 0x9 => 0x36121224 case 0xa => 0x9b80801b case 0xb => 0x3de2e2df
    case 0xc => 0x26ebebcd case 0xd => 0x6927274e case 0xe => 0xcdb2b27f case _ => 0x9f7575ea
  }

  function T0x4(n: byte): bv32 {
    match n
    case 0x0 => 0x1b090912 case 0x1 => 0x9e83831d case 0x2 => 0x742c2c58 case 0x3 => 0x2e1a1a34
    case 0x4 => 0x2d1b1b36 case 0x5 => 0xb26e6edc case 0x6 => 0xee5a5ab4 case 0x7 => 0xfba0a05b
    case 0x8 => 0xf65252a4 case 0x9 => 0x4d3b3b76 case 0xa => 0x61d6d6b7 case 0xb => 0xceb3b37d
    case 0xc => 0x7b292952 case 0xd => 0x3ee3e3dd case 0xe => 0x712f2f5e case _ => 0x97848413
  }

  function T0x5(n: byte): bv32 {
    match n
    case 0x0 => 0xf55353a6 case 0x1 => 0x68d1d1b9 case 0x2 => 0x00000000 case 0x3 => 0x2cededc1
    case 0x4 => 0x60202040 case 0x5 => 0x1ffcfce3 case 0x6 => 0xc8b1b179 case 0x7 => 0xed5b5bb6
    case 0x8 => 0xbe6a6ad4 case 0x9 => 0x46cbcb8d case 0xa => 0xd9bebe67 case 0xb => 0x4b393972
    case 0xc => 0xde4a4a94 case 0xd => 0xd44c4c98 case 0xe => 0xe85858b0 case _ => 0x4acfcf85
  }

  function T0x6(n: byte): bv32 {
    match n
    case 0x0 => 0x6bd0d0bb case 0x1 => 0x2aefefc5 case 0x2 => 0xe5aaaa4f case 0x3 => 0x16fbfbed
    case 0x4 => 0xc5434386 case 0x5 => 0xd74d4d9a case 0x6 => 0x55333366 case 0x7 => 0x94858511
    case 0x8 => 0xcf45458a case 0x9 => 0x10f9f9e9 case 0xa => 0x06020204 case 0xb => 0x817f7ffe
    case 0xc => 0xf05050a0 case 0xd => 0x443c3c78 case 0xe => 0xba9f9f25 case _ => 0xe3a8a84b
  }

  function T0x7(n: byte): bv32 {
    match n
    case 0x0 => 0xf35151a2 case 0x1 => 0xfea3a35d case 0x2 => 0xc0404080 case 0x3 => 0x8a8f8f05
    case 0x4 => 0xad92923f case 0x5 => 0xbc9d9d21 case 0x6 => 0x48383870 case 0x7 => 0x04f5f5f1
    case 0x8 => 0xdfbcbc63 case 0x9 => 0xc1b6b677 case 0xa => 0x75dadaaf case 0xb => 0x63212142
    case 0xc => 0x30101020 case 0xd => 0x1affffe5 case 0xe => 0x0ef3f3fd case _ => 0x6dd2d2bf
  }

  function T0x8(n: byte): bv32 {
    match n
    case 0x0 => 0x4ccdcd81 case 0x1 => 0x140c0c18 case 0x2 => 0x35131326 case 0x3 => 0x2fececc3
    case 0x4 => 0xe15f5fbe case 0x5 => 0xa2979735 case 0x6 => 0xcc444488 case 0x7 => 0x3917172e
    case 0x8 => 0x57c4c493 case 0x9 => 0xf2a7a755 case 0xa => 0x827e7efc case 0xb => 0x473d3d7a
    case 0xc => 0xac6464c8 case 0xd => 0xe75d5dba case 0xe => 0x2b191932 case _ => 0x957373e6
  }

  function T0x9(n: byte): bv32 {
    match n
    case 0x0 => 0xa06060c0 case 0x1 => 0x98818119 case 0x2 => 0xd14f4f9e case 0x3 => 0x7fdcdca3
    case 0x4 => 0x66222244 case 0x5 => 0x7e2a2a54 case 0x6 => 0xab90903b case 0x7 => 0x8388880b
    case 0x8 => 0xca46468c case 0x9 => 0x29eeeec7 case 0xa => 0xd3b8b86b case 0xb => 0x3c141428
    case 0xc => 0x79dedea7 case 0xd => 0xe25e5ebc case 0xe => 0x1d0b0b16 case _ => 0x76dbdbad
  }

  function T0xA(n: byte): bv32 {
    match n
    case 0x0 => 0x3be0e0db case 0x1 => 0x56323264 case 0x2 => 0x4e3a3a74 case 0x3 => 0x1e0a0a14
    case 0x4 => 0xdb494992 case 0x5 => 0x0a06060c case 0x6 => 0x6c242448 case 0x7 => 0xe45c5cb8
    case 0x8 => 0x5dc2c29f case 0x9 => 0x6ed3d3bd case 0xa => 0xefacac43 case 0xb => 0xa66262c4
    case 0xc => 0xa8919139 case 0xd => 0xa4959531 case 0xe => 0x37e4e4d3 case _ => 0x8b7979f2
  }

  function T0xB(n: byte): bv32 {
    match n
    case 0x0 => 0x32e7e7d5 case 0x1 => 0x43c8c88b case 0x2 => 0x5937376e case 0x3 => 0xb76d6dda
    case 0x4 => 0x8c8d8d01 case 0x5 => 0x64d5d5b1 case 0x6 => 0xd24e4e9c case 0x7 => 0xe0a9a949
    case 0x8 => 0xb46c6cd8 case 0x9 => 0xfa5656ac case 0xa => 0x07f4f4f3 case 0xb => 0x25eaeacf
    case 0xc => 0xaf6565ca case 0xd => 0x8e7a7af4 case 0xe => 0xe9aeae47 case _ => 0x18080810
  }

  function T0xC(n: byte): bv32 {
    match n
    case 0x0 => 0xd5baba6f case 0x1 => 0x887878f0 case 0x2 => 0x6f25254a case 0x3 => 0x722e2e5c
    case 0x4 => 0x241c1c38 case 0x5 => 0xf1a6a657 case 0x6 => 0xc7b4b473 case 0x7 => 0x51c6c697
    case 0x8 => 0x23e8e8cb case 0x9 => 0x7cdddda1 case 0xa => 0x9c7474e8 case 0xb => 0x211f1f3e
    case 0xc => 0xdd4b4b96 case 0xd => 0xdcbdbd61 case 0xe => 0x868b8b0d case _ => 0x858a8a0f
  }

  function T0xD(n: byte): bv32 {
    match n
    case 0x0 => 0x907070e0 case 0x1 => 0x423e3e7c case 0x2 => 0xc4b5b571 case 0x3 => 0xaa6666cc
    case 0x4 => 0xd8484890 case 0x5 => 0x05030306 case 0x6 => 0x01f6f6f7 case 0x7 => 0x120e0e1c
    case 0x8 => 0xa36161c2 case 0x9 => 0x5f35356a case 0xa => 0xf95757ae case 0xb => 0xd0b9b969
    case 0xc => 0x91868617 case 0xd => 0x58c1c199 case 0xe => 0x271d1d3a case _ => 0xb99e9e27
  }

  function T0xE(n: byte): bv32 {
    match n
    case 0x0 => 0x38e1e1d9 case 0x1 => 0x13f8f8eb case 0x2 => 0xb398982b case 0x3 => 0x33111122
    case 0x4 => 0xbb6969d2 case 0x5 => 0x70d9d9a9 case 0x6 => 0x898e8e07 case 0x7 => 0xa7949433
    case 0x8 => 0xb69b9b2d case 0x9 => 0x221e1e3c case 0xa => 0x92878715 case 0xb => 0x20e9e9c9
    case 0xc => 0x49cece87 case 0xd => 0xff5555aa case 0xe => 0x78282850 case _ => 0x7adfdfa5
  }

  function T0xF(n: byte): bv32 {
    match n
    case 0x0 => 0x8f8c8c03 case 0x1 => 0xf8a1a159 case 0x2 => 0x80898909 case 0x3 => 0x170d0d1a
    case 0x4 => 0xdabfbf65 case 0x5 => 0x31e6e6d7 case 0x6 => 0xc6424284 case 0x7 => 0xb86868d0
    case 0x8 => 0xc3414182 case 0x9 => 0xb0999929 case 0xa => 0x772d2d5a case 0xb => 0x110f0f1e
    case 0xc => 0xcbb0b07b case 0xd => 0xfc5454a8 case 0xe => 0xd6bbbb6d case _ => 0x3a16162c
  }

  /** _nettle_aes_encrypt_table.table[0] */
  function Table0(b: byte): bv32 {
    var n := b & 0xf;
    match b >> 4
    case 0x0 => T0x0(n)
    case 0x1 => T0x1(n)
    case 0x2 => T0x2(n)
    case 0x3 => T0x3(n)
    case 0x4 => T0x4(n)
    case 0x5 => T0x5(n)
    case 0x6 => T0x6(n)
    case 0x7 => T0x7(n)
    case 0x8 => T0x8(n)
    case 0x9 => T0x9(n)
    case 0xa => T0xA(n)
    case 0xb => T0xB(n)
    case 0xc => T0xC(n)
    case 0xd => T0xD(n)
    case 0xe => T0xE(n)
    case _ => T0xF(n)
  }

  function T1x0(n: byte): bv32 {
    match n
    case 0x0 => 0x6363c6a5 case 0x1 => 0x7c7cf884 case 0x2 => 0x7777ee99 case 0x3 => 0x7b7bf68d
    case 0x4 => 0xf2f2ff0d case 0x5 => 0x6b6bd6bd case 0x6 => 0x6f6fdeb1 case 0x7 => 0xc5c59154
    case 0x8 => 0x30306050 case 0x9 => 0x01010203 case 0xa => 0x6767cea9 case 0xb => 0x2b2b567d
    case 0xc => 0xfefee719 case 0xd => 0xd7d7b562 case 0xe => 0xabab4de6 case _ => 0x7676ec9a
  }

  function T1x1(n: byte): bv32 {
    match n
    case 0x0 => 0xcaca8f45 case 0x1 => 0x82821f9d case 0x2 => 0xc9c98940 case 0x3 => 0x7d7dfa87
    case 0x4 => 0xfafaef15 case 0x5 => 0x5959b2eb case 0x6 => 0x47478ec9 case 0x7 => 0xf0f0fb0b
    case 0x8 => 0xadad41ec case 0x9 => 0xd4d4b367 case 0xa => 0xa2a25ffd case 0xb => 0xafaf45ea
    case 0xc => 0x9c9c23bf case 0xd => 0xa4a453f7 case 0xe => 0x7272e496 case _ => 0xc0c09b5b
  }

  function T1x2(n: byte): bv32 {
    match n
    case 0x0 => 0xb7b775c2 case 0x1 => 0xfdfde11c case 0x2 => 0x93933dae case 0x3 => 0x26264c6a
    case 0x4 => 0x36366c5a case 0x5 => 0x3f3f7e41 case 0x6 => 0xf7f7f502 case 0x7 => 0xcccc834f
    case 0x8 => 0x3434685c case 0x9 => 0xa5a551f4 case 0xa => 0xe5e5d134 case 0xb => 0xf1f1f908
    case 0xc => 0x7171e293 case 0xd => 0xd8d8ab73 case 0xe => 0x31316253 case _ => 0x15152a3f
  }

  function T1x3(n: byte): bv32 {
    match n
    case 0x0 => 0x0404080c case 0x1 => 0xc7c79552 case 0x2 => 0x23234665 case 0x3 => 0xc3c39d5e
    case 0x4 => 0x18183028 case 0x5 => 0x969637a1 case 0x6 => 0x05050a0f case 0x7 => 0x9a9a2fb5
    case 0x8 => 0x07070e09 case 0x9 => 0x12122436 case 0xa => 0x80801b9b case 0xb => 0xe2e2df3d
    case 0xc => 0xebebcd26 case 0xd => 0x27274e69 case 0xe => 0xb2b27fcd case _ => 0x7575ea9f
  }

  function T1x4(n: byte): bv32 {
    match n
    case 0x0 => 0x0909121b case 0x1 => 0x83831d9e case 0x2 => 0x2c2c5874 case 0x3 => 0x1a1a342e
    case 0x4 => 0x1b1b362d case 0x5 => 0x6e6edcb2 case 0x6 => 0x5a5ab4ee case 0x7 => 0xa0a05bfb
    case 0x8 => 0x5252a4f6 case 0x9 => 0x3b3b764d case 0xa => 0xd6d6b761 case 0xb => 0xb3b37dce
    case 0xc => 0x2929527b case 0xd => 0xe3e3dd3e case 0xe => 0x2f2f5e71 case _ => 0x84841397
  }

  function T1x5(n: byte): bv32 {
    match n
    case 0x0 => 0x5353a6f5 case 0x1 => 0xd1d1b968 case 0x2 => 0x00000000 case 0x3 => 0xededc12c
    case 0x4 => 0x20204060 case 0x5 => 0xfcfce31f case 0x6 => 0xb1b179c8 case 0x7 => 0x5b5bb6ed
    case 0x8 => 0x6a6ad4be case 0x9 => 0xcbcb8d46 case 0xa => 0xbebe67d9 case 0xb => 0x3939724b
    case 0xc => 0x4a4a94de case 0xd => 0x4c4c98d4 case 0xe => 0x5858b0e8 case _ => 0xcfcf854a
  }

  function T1x6(n: byte): bv32 {
    match n
    case 0x0 => 0xd0d0bb6b case 0x1 => 0xefefc52a case 0x2 => 0xaaaa4fe5 case 0x3 => 0xfbfbed16
    case 0x4 => 0x434386c5 case 0x5 => 0x4d4d9ad7 case 0x6 => 0x33336655 case 0x7 => 0x85851194
    case 0x8 => 0x45458acf case 0x9 => 0xf9f9e910 case 0xa => 0x02020406 case 0xb => 0x7f7ffe81
    case 0xc => 0x5050a0f0 case 0xd => 0x3c3c7844 case 0xe => 0x9f9f25ba case _ => 0xa8a84be3
  }

  function T1x7(n: byte): bv32 {
    match n
    case 0x0 => 0x5151a2f3 case 0x1 => 0xa3a35dfe case 0x2 => 0x404080c0 case 0x3 => 0x8f8f058a
    case 0x4 => 0x92923fad case 0x5 => 0x9d9d21bc case 0x6 => 0x38387048 case 0x7 => 0xf5f5f104
    case 0x8 => 0xbcbc63df case 0x9 => 0xb6b677c1 case 0xa => 0xdadaaf75 case 0xb => 0x21214263
    case 0xc => 0x10102030 case 0xd => 0xffffe51a case 0xe => 0xf3f3fd0e case _ => 0xd2d2bf6d
  }

  function T1x8(n: byte): bv32 {
    match n
    case 0x0 => 0xcdcd814c case 0x1 => 0x0c0c1814 case 0x2 => 0x13132635 case 0x3 => 0xececc32f
    case 0x4 => 0x5f5fbee1 case 0x5 => 0x979735a2 case 0x6 => 0x444488cc case 0x7 => 0x17172e39
    case 0x8 => 0xc4c49357 case 0x9 => 0xa7a755f2 case 0xa => 0x7e7efc82 case 0xb => 0x3d3d7a47
    case 0xc => 0x6464c8ac case 0xd => 0x5d5dbae7 case 0xe => 0x1919322b case _ => 0x7373e695
  }

  function T1x9(n: byte): bv32 {
    match n
    case 0x0 => 0x6060c0a0 case 0x1 => 0x81811998 case 0x2 => 0x4f4f9ed1 case 0x3 => 0xdcdca37f
    case 0x4 => 0x22224466 case 0x5 => 0x2a2a547e case 0x6 => 0x90903bab case 0x7 => 0x88880b83
    case 0x8 => 0x46468cca case 0x9 => 0xeeeec729 case 0xa => 0xb8b86bd3 case 0xb => 0x1414283c
    case 0xc => 0xdedea779 case 0xd => 0x5e5ebce2 case 0xe => 0x0b0b161d case _ => 0xdbdbad76
  }

  function T1xA(n: byte): bv32 {
    match n
    case 0x0 => 0xe0e0db3b case 0x1 => 0x32326456 case 0x2 => 0x3a3a744e case 0x3 => 0x0a0a141e
    case 0x4 => 0x494992db case 0x5 => 0x06060c0a case 0x6 => 0x2424486c case 0x7 => 0x5c5cb8e4
    case 0x8 => 0xc2c29f5d case 0x9 => 0xd3d3bd6e case 0xa => 0xacac43ef case 0xb => 0x6262c4a6
    case 0xc => 0x919139a8 case 0xd => 0x959531a4 case 0xe => 0xe4e4d337 case _ => 0x7979f28b
  }

  function T1xB(n: byte): bv32 {
    match n
    case 0x0 => 0xe7e7d532 case 0x1 => 0xc8c88b43 case 0x2 => 0x37376e59 case 0x3 => 0x6d6ddab7
    case 0x4 => 0x8d8d018c case 0x5 => 0xd5d5b164 case 0x6 => 0x4e4e9cd2 case 0x7 => 0xa9a949e0
    case 0x8 => 0x6c6cd8b4 case 0x9 => 0x5656acfa case 0xa => 0xf4f4f307 case 0xb => 0xeaeacf25
    case 0xc => 0x6565caaf case 0xd => 0x7a7af48e case 0xe => 0xaeae47e9 case _ => 0x08081018
  }

  function T1xC(n: byte): bv32 {
    match n
    case 0x0 => 0xbaba6fd5 case 0x1 => 0x7878f088 case 0x2 => 0x25254a6f case 0x3 => 0x2e2e5c72
    case 0x4 => 0x1c1c3824 case 0x5 => 0xa6a657f1 case 0x6 => 0xb4b473c7 case 0x7 => 0xc6c69751
    case 0x8 => 0xe8e8cb23 case 0x9 => 0xdddda17c case 0xa => 0x7474e89c case 0xb => 0x1f1f3e21
    case 0xc => 0x4b4b96dd case 0xd => 0xbdbd61dc case 0xe => 0x8b8b0d86 case _ => 0x8a8a0f85
  }

  function T1xD(n: byte): bv32 {
    match n
    case 0x0 => 0x7070e090 case 0x1 => 0x3e3e7c42 case 0x2 => 0xb5b571c4 case 0x3 => 0x6666ccaa
    case 0x4 => 0x484890d8 case 0x5 => 0x03030605 case 0x6 => 0xf6f6f701 case 0x7 => 0x0e0e1c12
    case 0x8 => 0x6161c2a3 case 0x9 => 0x35356a5f case 0xa => 0x5757aef9 case 0xb => 0xb9b969d0
    case 0xc => 0x86861791 case 0xd => 0xc1c19958 case 0xe => 0x1d1d3a27 case _ => 0x9e9e27b9
  }

  function T1xE(n: byte): bv32 {
    match n
    case 0x0 => 0xe1e1d938 case 0x1 => 0xf8f8eb13 case 0x2 => 0x98982bb3 case 0x3 => 0x11112233
    case 0x4 => 0x6969d2bb case 0x5 => 0xd9d9a970 case 0x6 => 0x8e8e0789 case 0x7 => 0x949433a7
    case 0x8 => 0x9b9b2db6 case 0x9 => 0x1e1e3c22 case 0xa => 0x87871592 case 0xb => 0xe9e9c920
    case 0xc => 0xcece8749 case 0xd => 0x5555aaff case 0xe => 0x28285078 case _ => 0xdfdfa57a
  }

  function T1xF(n: byte): bv32 {
    match n
    case 0x0 => 0x8c8c038f case 0x1 => 0xa1a159f8 case 0x2 => 0x89890980 case 0x3 => 0x0d0d1a17
    case 0x4 => 0xbfbf65da case 0x5 => 0xe6e6d731 case 0x6 => 0x424284c6 case 0x7 => 0x6868d0b8
    case 0x8 => 0x414182c3 case 0x9 => 0x999929b0 case 0xa => 0x2d2d5a77 case 0xb => 0x0f0f1e11
    case 0xc => 0xb0b07bcb case 0xd => 0x5454a8fc case 0xe => 0xbbbb6dd6 case _ => 0x16162c3a
  }

  /** _nettle_aes_encrypt_table.table[1] */
  function Table1(b: byte): bv32 {
    var n := b & 0xf;
    match b >> 4
    case 0x0 => T1x0(n)
    case 0x1 => T1x1(n)
    case 0x2 => T1x2(n)
    case 0x3 => T1x3(n)
    case 0x4 => T1x4(n)
    case 0x5 => T1x5(n)
    case 0x6 => T1x6(n)
    case 0x7 => T1x7(n)
    case 0x8 => T1x8(n)
    case 0x9 => T1x9(n)
    case 0xa => T1xA(n)
    case 0xb => T1xB(n)
    case 0xc => T1xC(n)
    case 0xd => T1xD(n)
    case 0xe => T1xE(n)
    case _ => T1xF(n)
  }

  function T2x0(n: byte): bv32 {
    match n
    case 0x0 => 0x63c6a563 case 0x1 => 0x7cf8847c case 0x2 => 0x77ee9977 case 0x3 => 0x7bf68d7b
    case 0x4 => 0xf2ff0df2 case 0x5 => 0x6bd6bd6b case 0x6 => 0x6fdeb16f case 0x7 => 0xc59154c5
    case 0x8 => 0x30605030 case 0x9 => 0x01020301 case 0xa => 0x67cea967 case 0xb => 0x2b567d2b
    case 0xc => 0xfee719fe case 0xd => 0xd7b562d7 case 0xe => 0xab4de6ab case _ => 0x76ec9a76
  }

  function T2x1(n: byte): bv32 {
    match n
    case 0x0 => 0xca8f45ca case 0x1 => 0x821f9d82 case 0x2 => 0xc98940c9 case 0x3 => 0x7dfa877d
    case 0x4 => 0xfaef15fa case 0x5 => 0x59b2eb59 case 0x6 => 0x478ec947 case 0x7 => 0xf0fb0bf0
    case 0x8 => 0xad41ecad case 0x9 => 0xd4b367d4 case 0xa => 0xa25ffda2 case 0xb => 0xaf45eaaf
    case 0xc => 0x9c23bf9c case 0xd => 0xa453f7a4 case 0xe => 0x72e49672 case _ => 0xc09b5bc0
  }

  function T2x2(n: byte): bv32 {
    match n
    case 0x0 => 0xb775c2b7 case 0x1 => 0xfde11cfd case 0x2 => 0x933dae93 case 0x3 => 0x264c6a26
    case 0x4 => 0x366c5a36 case 0x5 => 0x3f7e413f case 0x6 => 0xf7f502f7 case 0x7 => 0xcc834fcc
    case 0x8 => 0x34685c34 case 0x9 => 0xa551f4a5 case 0xa => 0xe5d134e5 case 0xb => 0xf1f908f1
    case 0xc => 0x71e29371 case 0xd => 0xd8ab73d8 case 0xe => 0x31625331 case _ => 0x152a3f15
  }

  function T2x3(n: byte): bv32 {
    match n
    case 0x0 => 0x04080c04 case 0x1 => 0xc79552c7 case 0x2 => 0x23466523 case 0x3 => 0xc39d5ec3
    case 0x4 => 0x18302818 case 0x5 => 0x9637a196 case 0x6 => 0x050a0f05 case 0x7 => 0x9a2fb59a
    case 0x8 => 0x070e0907 case 0x9 => 0x12243612 case 0xa => 0x801b9b80 case 0xb => 0xe2df3de2
    case 0xc => 0xebcd26eb case 0xd => 0x274e6927 case 0xe => 0xb27fcdb2 case _ => 0x75ea9f75
  }

  function T2x4(n: byte): bv32 {
    match n
    case 0x0 => 0x09121b09 case 0x1 => 0x831d9e83 case 0x2 => 0x2c58742c case 0x3 => 0x1a342e1a
    case 0x4 => 0x1b362d1b case 0x5 => 0x6edcb26e case 0x6 => 0x5ab4ee5a case 0x7 => 0xa05bfba0
    case 0x8 => 0x52a4f652 case 0x9 => 0x3b764d3b case 0xa => 0xd6b761d6 case 0xb => 0xb37dceb3
    case 0xc => 0x29527b29 case 0xd => 0xe3dd3ee3 case 0xe => 0x2f5e712f case _ => 0x84139784
  }

  function T2x5(n: byte): bv32 {
    match n
    case 0x0 => 0x53a6f553 case 0x1 => 0xd1b968d1 case 0x2 => 0x00000000 case 0x3 => 0xedc12ced
    case 0x4 => 0x20406020 case 0x5 => 0xfce31ffc case 0x6 => 0xb179c8b1 case 0x7 => 0x5bb6ed5b
    case 0x8 => 0x6ad4be6a case 0x9 => 0xcb8d46cb case 0xa => 0xbe67d9be case 0xb => 0x39724b39
    case 0xc => 0x4a94de4a case 0xd => 0x4c98d44c case 0xe => 0x58b0e858 case _ => 0xcf854acf
  }

  function T2x6(n: byte): bv32 {
    match n
    case 0x0 => 0xd0bb6bd0 case 0x1 => 0xefc52aef case 0x2 => 0xaa4fe5aa case 0x3 => 0xfbed16fb
    case 0x4 => 0x4386c543 case 0x5 => 0x4d9ad74d case 0x6 => 0x33665533 case 0x7 => 0x85119485
    case 0x8 => 0x458acf45 case 0x9 => 0xf9e910f9 case 0xa => 0x02040602 case 0xb => 0x7ffe817f
    case 0xc => 0x50a0f050 case 0xd => 0x3c78443c case 0xe => 0x9f25ba9f case _ => 0xa84be3a8
  }

  function T2x7(n: byte): bv32 {
    match n
    case 0x0 => 0x51a2f351 case 0x1 => 0xa35dfea3 case 0x2 => 0x4080c040 case 0x3 => 0x8f058a8f
    case 0x4 => 0x923fad92 case 0x5 => 0x9d21bc9d case 0x6 => 0x38704838 case 0x7 => 0xf5f104f5
    case 0x8 => 0xbc63dfbc case 0x9 => 0xb677c1b6 case 0xa => 0xdaaf75da case 0xb => 0x21426321
    case 0xc => 0x10203010 case 0xd => 0xffe51aff case 0xe => 0xf3fd0ef3 case _ => 0xd2bf6dd2
  }

  function T2x8(n: byte): bv32 {
    match n
    case 0x0 => 0xcd814ccd case 0x1 => 0x0c18140c case 0x2 => 0x13263513 case 0x3 => 0xecc32fec
    case 0x4 => 0x5fbee15f case 0x5 => 0x9735a297 case 0x6 => 0x4488cc44 case 0x7 => 0x172e3917
    case 0x8 => 0xc49357c4 case 0x9 => 0xa755f2a7 case 0xa => 0x7efc827e case 0xb => 0x3d7a473d
    case 0xc => 0x64c8ac64 case 0xd => 0x5dbae75d case 0xe => 0x19322b19 case _ => 0x73e69573
  }

  function T2x9(n: byte): bv32 {
    match n
    case 0x0 => 0x60c0a060 case 0x1 => 0x81199881 case 0x2 => 0x4f9ed14f case 0x3 => 0xdca37fdc
    case 0x4 => 0x22446622 case 0x5 => 0x2a547e2a case 0x6 => 0x903bab90 case 0x7 => 0x880b8388
    case 0x8 => 0x468cca46 case 0x9 => 0xeec729ee case 0xa => 0xb86bd3b8 case 0xb => 0x14283c14
    case 0xc => 0xdea779de case 0xd => 0x5ebce25e case 0xe => 0x0b161d0b case _ => 0xdbad76db
  }

  function T2xA(n: byte): bv32 {
    match n
    case 0x0 => 0xe0db3be0 case 0x1 => 0x32645632 case 0x2 => 0x3a744e3a case 0x3 => 0x0a141e0a
    case 0x4 => 0x4992db49 case 0x5 => 0x060c0a06 case 0x6 => 0x24486c24 case 0x7 => 0x5cb8e45c
    case 0x8 => 0xc29f5dc2 case 0x9 => 0xd3bd6ed3 case 0xa => 0xac43efac case 0xb => 0x62c4a662
    case 0xc => 0x9139a891 case 0xd => 0x9531a495 case 0xe => 0xe4d337e4 case _ => 0x79f28b79
  }

  function T2xB(n: byte): bv32 {
    match n
    case 0x0 => 0xe7d532e7 case 0x1 => 0xc88b43c8 case 0x2 => 0x376e5937 case 0x3 => 0x6ddab76d
    case 0x4 => 0x8d018c8d case 0x5 => 0xd5b164d5 case 0x6 => 0x4e9cd24e case 0x7 => 0xa949e0a9
    case 0x8 => 0x6cd8b46c case 0x9 => 0x56acfa56 case 0xa => 0xf4f307f4 case 0xb => 0xeacf25ea
    case 0xc => 0x65caaf65 case 0xd => 0x7af48e7a case 0xe => 0xae47e9ae case _ => 0x08101808
  }

  function T2xC(n: byte): bv32 {
    match n
    case 0x0 => 0xba6fd5ba case 0x1 => 0x78f08878 case 0x2 => 0x254a6f25 case 0x3 => 0x2e5c722e
    case 0x4 => 0x1c38241c case 0x5 => 0xa657f1a6 case 0x6 => 0xb473c7b4 case 0x7 => 0xc69751c6
    case 0x8 => 0xe8cb23e8 case 0x9 => 0xdda17cdd case 0xa => 0x74e89c74 case 0xb => 0x1f3e211f
    case 0xc => 0x4b96dd4b case 0xd => 0xbd61dcbd case 0xe => 0x8b0d868b case _ => 0x8a0f858a
  }

  function T2xD(n: byte): bv32 {
    match n
    case 0x0 => 0x70e09070 case 0x1 => 0x3e7c423e case 0x2 => 0xb571c4b5 case 0x3 => 0x66ccaa66
    case 0x4 => 0x4890d848 case 0x5 => 0x03060503 case 0x6 => 0xf6f701f6 case 0x7 => 0x0e1c120e
    case 0x8 => 0x61c2a361 case 0x9 => 0x356a5f35 case 0xa => 0x57aef957 case 0xb => 0xb969d0b9
    case 0xc => 0x86179186 case 0xd => 0xc19958c1 case 0xe => 0x1d3a271d case _ => 0x9e27b99e
  }

  function T2xE(n: byte): bv32 {
    match n
    case 0x0 => 0xe1d938e1 case 0x1 => 0xf8eb13f8 case 0x2 => 0x982bb398 case 0x3 => 0x11223311
    case 0x4 => 0x69d2bb69 case 0x5 => 0xd9a970d9 case 0x6 => 0x8e07898e case 0x7 => 0x9433a794
    case 0x8 => 0x9b2db69b case 0x9 => 0x1e3c221e case 0xa => 0x87159287 case 0xb => 0xe9c920e9
    case 0xc => 0xce8749ce case 0xd => 0x55aaff55 case 0xe => 0x28507828 case _ => 0xdfa57adf
  }

  function T2xF(n: byte): bv32 {
    match n
    case 0x0 => 0x8c038f8c case 0x1 => 0xa159f8a1 case 0x2 => 0x89098089 case 0x3 => 0x0d1a170d
    case 0x4 => 0xbf65dabf case 0x5 => 0xe6d731e6 case 0x6 => 0x4284c642 case 0x7 => 0x68d0b868
    case 0x8 => 0x4182c341 case 0x9 => 0x9929b099 case 0xa => 0x2d5a772d case 0xb => 0x0f1e110f
    case 0xc => 0xb07bcbb0 case 0xd => 0x54a8fc54 case 0xe => 0xbb6dd6bb case _ => 0x162c3a16
  }

  /** _nettle_aes_encrypt_table.table[2] */
  function Table2(b: byte): bv32 {
    var n := b & 0xf;
    match b >> 4
    case 0x0 => T2x0(n)
    case 0x1 => T2x1(n)
    case 0x2 => T2x2(n)
    case 0x3 => T2x3(n)
    case 0x4 => T2x4(n)
    case 0x5 => T2x5(n)
    case 0x6 => T2x6(n)
    case 0x7 => T2x7(n)
    case 0x8 => T2x8(n)
    case 0x9 => T2x9(n)
    case 0xa => T2xA(n)
    case 0xb => T2xB(n)
    case 0xc => T2xC(n)
    case 0xd => T2xD(n)
    case 0xe => T2xE(n)
    case _ => T2xF(n)
  }

  function T3x0(n: byte): bv32 {
    match n
    case 0x0 => 0xc6a56363 case 0x1 => 0xf8847c7c case 0x2 => 0xee997777 case 0x3 => 0xf68d7b7b
    case 0x4 => 0xff0df2f2 case 0x5 => 0xd6bd6b6b case 0x6 => 0xdeb16f6f case 0x7 => 0x9154c5c5
    case 0x8 => 0x60503030 case 0x9 => 0x02030101 case 0xa => 0xcea96767 case 0xb => 0x567d2b2b
    case 0xc => 0xe719fefe case 0xd => 0xb562d7d7 case 0xe => 0x4de6abab case _ => 0xec9a7676
  }

  function T3x1(n: byte): bv32 {
    match n
    case 0x0 => 0x8f45caca case 0x1 => 0x1f9d8282 case 0x2 => 0x8940c9c9 case 0x3 => 0xfa877d7d
    case 0x4 => 0xef15fafa case 0x5 => 0xb2eb5959 case 0x6 => 0x8ec94747 case 0x7 => 0xfb0bf0f0
    case 0x8 => 0x41ecadad case 0x9 => 0xb367d4d4 case 0xa => 0x5ffda2a2 case 0xb => 0x45eaafaf
    case 0xc => 0x23bf9c9c case 0xd => 0x53f7a4a4 case 0xe => 0xe4967272 case _ => 0x9b5bc0c0
  }

  function T3x2(n: byte): bv32 {
    match n
    case 0x0 => 0x75c2b7b7 case 0x1 => 0xe11cfdfd case 0x2 => 0x3dae9393 case 0x3 => 0x4c6a2626
    case 0x4 => 0x6c5a3636 case 0x5 => 0x7e413f3f case 0x6 => 0xf502f7f7 case 0x7 => 0x834fcccc
    case 0x8 => 0x685c3434 case 0x9 => 0x51f4a5a5 case 0xa => 0xd134e5e5 case 0xb => 0xf908f1f1
    case 0xc => 0xe2937171 case 0xd => 0xab73d8d8 case 0xe => 0x62533131 case _ => 0x2a3f1515
  }

  function T3x3(n: byte): bv32 {
    match n
    case 0x0 => 0x080c0404 case 0x1 => 0x9552c7c7 case 0x2 => 0x46652323 case 0x3 => 0x9d5ec3c3
    case 0x4 => 0x30281818 case 0x5 => 0x37a19696 case 0x6 => 0x0a0f0505 case 0x7 => 0x2fb59a9a
    case 0x8 => 0x0e090707 case 0x9 => 0x24361212 case 0xa => 0x1b9b8080 case 0xb => 0xdf3de2e2
    case 0xc => 0xcd26ebeb case 0xd => 0x4e692727 case 0xe => 0x7fcdb2b2 case _ => 0xea9f7575
  }

  function T3x4(n: byte): bv32 {
    match n
    case 0x0 => 0x121b0909 case 0x1 => 0x1d9e8383 case 0x2 => 0x58742c2c case 0x3 => 0x342e1a1a
    case 0x4 => 0x362d1b1b case 0x5 => 0xdcb26e6e case 0x6 => 0xb4ee5a5a case 0x7 => 0x5bfba0a0
    case 0x8 => 0xa4f65252 case 0x9 => 0x764d3b3b case 0xa => 0xb761d6d6 case 0xb => 0x7dceb3b3
    case 0xc => 0x527b2929 case 0xd => 0xdd3ee3e3 case 0xe => 0x5e712f2f case _ => 0x13978484
  }

  function T3x5(n: byte): bv32 {
    match n
    case 0x0 => 0xa6f55353 case 0x1 => 0xb968d1d1 case 0x2 => 0x00000000 case 0x3 => 0xc12ceded
    case 0x4 => 0x40602020 case 0x5 => 0xe31ffcfc case 0x6 => 0x79c8b1b1 case 0x7 => 0xb6ed5b5b
    case 0x8 => 0xd4be6a6a case 0x9 => 0x8d46cbcb case 0xa => 0x67d9bebe case 0xb => 0x724b3939
    case 0xc => 0x94de4a4a case 0xd => 0x98d44c4c case 0xe => 0xb0e85858 case _ => 0x854acfcf
  }

  function T3x6(n: byte): bv32 {
    match n
    case 0x0 => 0xbb6bd0d0 case 0x1 => 0xc52aefef case 0x2 => 0x4fe5aaaa case 0x3 => 0xed16fbfb
    case 0x4 => 0x86c54343 case 0x5 => 0x9ad74d4d case 0x6 => 0x66553333 case 0x7 => 0x11948585
    case 0x8 => 0x8acf4545 case 0x9 => 0xe910f9f9 case 0xa => 0x04060202 case 0xb => 0xfe817f7f
    case 0xc => 0xa0f05050 case 0xd => 0x78443c3c case 0xe => 0x25ba9f9f case _ => 0x4be3a8a8
  }

  function T3x7(n: byte): bv32 {
    match n
    case 0x0 => 0xa2f35151 case 0x1 => 0x5dfea3a3 case 0x2 => 0x80c04040 case 0x3 => 0x058a8f8f
    case 0x4 => 0x3fad9292 case 0x5 => 0x21bc9d9d case 0x6 => 0x70483838 case 0x7 => 0xf104f5f5
    case 0x8 => 0x63dfbcbc case 0x9 => 0x77c1b6b6 case 0xa => 0xaf75dada case 0xb => 0x42632121
    case 0xc => 0x20301010 case 0xd => 0xe51affff case 0xe => 0xfd0ef3f3 case _ => 0xbf6dd2d2
  }

  function T3x8(n: byte): bv32 {
    match n
    case 0x0 => 0x814ccdcd case 0x1 => 0x18140c0c case 0x2 => 0x26351313 case 0x3 => 0xc32fecec
    case 0x4 => 0xbee15f5f case 0x5 => 0x35a29797 case 0x6 => 0x88cc4444 case 0x7 => 0x2e391717
    case 0x8 => 0x9357c4c4 case 0x9 => 0x55f2a7a7 case 0xa => 0xfc827e7e case 0xb => 0x7a473d3d
    case 0xc => 0xc8ac6464 case 0xd => 0xbae75d5d case 0xe => 0x322b1919 case _ => 0xe6957373
  }

  function T3x9(n: byte): bv32 {
    match n
    case 0x0 => 0xc0a06060 case 0x1 => 0x19988181 case 0x2 => 0x9ed14f4f case 0x3 => 0xa37fdcdc
    case 0x4 => 0x44662222 case 0x5 => 0x547e2a2a case 0x6 => 0x3bab9090 case 0x7 => 0x0b838888
    case 0x8 => 0x8cca4646 case 0x9 => 0xc729eeee case 0xa => 0x6bd3b8b8 case 0xb => 0x283c1414
    case 0xc => 0xa779dede case 0xd => 0xbce25e5e case 0xe => 0x161d0b0b case _ => 0xad76dbdb
  }

  function T3xA(n: byte): bv32 {
    match n
    case 0x0 => 0xdb3be0e0 case 0x1 => 0x64563232 case 0x2 => 0x744e3a3a case 0x3 => 0x141e0a0a
    case 0x4 => 0x92db4949 case 0x5 => 0x0c0a0606 case 0x6 => 0x486c2424 case 0x7 => 0xb8e45c5c
    case 0x8 => 0x9f5dc2c2 case 0x9 => 0xbd6ed3d3 case 0xa => 0x43efacac case 0xb => 0xc4a66262
    case 0xc => 0x39a89191 case 0xd => 0x31a49595 case 0xe => 0xd337e4e4 case _ => 0xf28b7979
  }

  function T3xB(n: byte): bv32 {
    match n
    case 0x0 => 0xd532e7e7 case 0x1 => 0x8b43c8c8 case 0x2 => 0x6e593737 case 0x3 => 0xdab76d6d
    case 0x4 => 0x018c8d8d case 0x5 => 0xb164d5d5 case 0x6 => 0x9cd24e4e case 0x7 => 0x49e0a9a9
    case 0x8 => 0xd8b46c6c case 0x9 => 0xacfa5656 case 0xa => 0xf307f4f4 case 0xb => 0xcf25eaea
    case 0xc => 0xcaaf6565 case 0xd => 0xf48e7a7a case 0xe => 0x47e9aeae case _ => 0x10180808
  }

  function T3xC(n: byte): bv32 {
    match n
    case 0x0 => 0x6fd5baba case 0x1 => 0xf0887878 case 0x2 => 0x4a6f2525 case 0x3 => 0x5c722e2e
    case 0x4 => 0x38241c1c case 0x5 => 0x57f1a6a6 case 0x6 => 0x73c7b4b4 case 0x7 => 0x9751c6c6
    case 0x8 => 0xcb23e8e8 case 0x9 => 0xa17cdddd case 0xa => 0xe89c7474 case 0xb => 0x3e211f1f
    case 0xc => 0x96dd4b4b case 0xd => 0x61dcbdbd case 0xe => 0x0d868b8b case _ => 0x0f858a8a
  }

  function T3xD(n: byte): bv32 {
    match n
    case 0x0 => 0xe0907070 case 0x1 => 0x7c423e3e case 0x2 => 0x71c4b5b5 case 0x3 => 0xccaa6666
    case 0x4 => 0x90d84848 case 0x5 => 0x06050303 case 0x6 => 0xf701f6f6 case 0x7 => 0x1c120e0e
    case 0x8 => 0xc2a36161 case 0x9 => 0x6a5f3535 case 0xa => 0xaef95757 case 0xb => 0x69d0b9b9
    case 0xc => 0x17918686 case 0xd => 0x9958c1c1 case 0xe => 0x3a271d1d case _ => 0x27b99e9e
  }

  function T3xE(n: byte): bv32 {
    match n
    case 0x0 => 0xd938e1e1 case 0x1 => 0xeb13f8f8 case 0x2 => 0x2bb39898 case 0x3 => 0x22331111
    case 0x4 => 0xd2bb6969 case 0x5 => 0xa970d9d9 case 0x6 => 0x07898e8e case 0x7 => 0x33a79494
    case 0x8 => 0x2db69b9b case 0x9 => 0x3c221e1e case 0xa => 0x15928787 case 0xb => 0xc920e9e9
    case 0xc => 0x8749cece case 0xd => 0xaaff5555 case 0xe => 0x50782828 case _ => 0xa57adfdf
  }

  function T3xF(n: byte): bv32 {
    match n
    case 0x0 => 0x038f8c8c case 0x1 => 0x59f8a1a1 case 0x2 => 0x09808989 case 0x3 => 0x1a170d0d
    case 0x4 => 0x65dabfbf case 0x5 => 0xd731e6e6 case 0x6 => 0x84c64242 case 0x7 => 0xd0b86868
    case 0x8 => 0x82c34141 case 0x9 => 0x29b09999 case 0xa => 0x5a772d2d case 0xb => 0x1e110f0f
    case 0xc => 0x7bcbb0b0 case 0xd => 0xa8fc5454 case 0xe => 0x6dd6bbbb case _ => 0x2c3a1616
  }

  /** _nettle_aes_encrypt_table.table[3] */
  function Table3(b: byte): bv32 {
    var n := b & 0xf;
    match b >> 4
    case 0x0 => T3x0(n)
    case 0x1 => T3x1(n)
    case 0x2 => T3x2(n)
    case 0x3 => T3x3(n)
    case 0x4 => T3x4(n)
    case 0x5 => T3x5(n)
    case 0x6 => T3x6(n)
    case 0x7 => T3x7(n)
    case 0x8 => T3x8(n)
    case 0x9 => T3x9(n)
    case 0xa => T3xA(n)
    case 0xb => T3xB(n)
    case 0xc => T3xC(n)
    case 0xd => T3xD(n)
    case 0xe => T3xE(n)
    case _ => T3xF(n)
  }

  /** Multiplication by x in the field of the cipher. */
  function Xtime(b: byte): byte {
    (b << 1) ^ (if b & 0x80 != 0 then 0x1b else 0)
  }

  /** A word from its bytes, least significant first. */
  function Word(b0: byte, b1: byte, b2: byte, b3: byte): bv32 {
    b0 as bv32 | (b1 as bv32 << 8) | (b2 as bv32 << 16) | (b3 as bv32 << 24)
  }

  lemma Table0Part0(b: byte)
    requires b < 0x10
    ensures var s := Sbox(b); Table0(b) == Word(Xtime(s), s, s, Xtime(s) ^ s)
  {
  }

  lemma Table0Part1(b: byte)
    requires 0x10 <= b < 0x40
    ensures var s := Sbox(b); Table0(b) == Word(Xtime(s), s, s, Xtime(s) ^ s)
  {
  }

  lemma Table0Part2(b: byte)
    requires 0x40 <= b < 0x80
    ensures var s := Sbox(b); Table0(b) == Word(Xtime(s), s, s, Xtime(s) ^ s)
  {
  }

  lemma Table0Part3(b: byte)
    requires 0x80 <= b < 0xc0
    ensures var s := Sbox(b); Table0(b) == Word(Xtime(s), s, s, Xtime(s) ^ s)
  {
  }

  lemma Table0Part4(b: byte)
    requires 0xc0 <= b
    ensures var s := Sbox(b); Table0(b) == Word(Xtime(s), s, s, Xtime(s) ^ s)
  {
  }

  /** Every literal of the first table is the column (2s, s, s, 3s) for the S-box value s, */
  lemma Table0Is(b: byte)
    ensures var s := Sbox(b); Table0(b) == Word(Xtime(s), s, s, Xtime(s) ^ s)
  {
    if b < 0x10 {
      Table0Part0(b);
    } else if b < 0x40 {
      Table0Part1(b);
    } else if b < 0x80 {
      Table0Part2(b);
    } else if b < 0xc0 {
      Table0Part3(b);
    } else {
      Table0Part4(b);
    }
  }

  lemma Table1Part0(b: byte)
    requires b < 0x10
    ensures var s := Sbox(b); Table1(b) == Word(Xtime(s) ^ s, Xtime(s), s, s)
  {
  }

  lemma Table1Part1(b: byte)
    requires 0x10 <= b < 0x40
    ensures var s := Sbox(b); Table1(b) == Word(Xtime(s) ^ s, Xtime(s), s, s)
  {
  }

  lemma Table1Part2(b: byte)
    requires 0x40 <= b < 0x80
    ensures var s := Sbox(b); Table1(b) == Word(Xtime(s) ^ s, Xtime(s), s, s)
  {
  }

  lemma Table1Part3(b: byte)
    requires 0x80 <= b < 0xc0
    ensures var s := Sbox(b); Table1(b) == Word(Xtime(s) ^ s, Xtime(s), s, s)
  {
  }

  lemma Table1Part4(b: byte)
    requires 0xc0 <= b
    ensures var s := Sbox(b); Table1(b) == Word(Xtime(s) ^ s, Xtime(s), s, s)
  {
  }

  /** and those of the second are that column rotated by one byte, */
  lemma Table1Is(b: byte)
    ensures var s := Sbox(b); Table1(b) == Word(Xtime(s) ^ s, Xtime(s), s, s)
  {
    if b < 0x10 {
      Table1Part0(b);
    } else if b < 0x40 {
      Table1Part1(b);
    } else if b < 0x80 {
      Table1Part2(b);
    } else if b < 0xc0 {
      Table1Part3(b);
    } else {
      Table1Part4(b);
    }
  }

  lemma Table2Part0(b: byte)
    requires b < 0x10
    ensures var s := Sbox(b); Table2(b) == Word(s, Xtime(s) ^ s, Xtime(s), s)
  {
  }

  lemma Table2Part1(b: byte)
    requires 0x10 <= b < 0x40
    ensures var s := Sbox(b); Table2(b) == Word(s, Xtime(s) ^ s, Xtime(s), s)
  {
  }

  lemma Table2Part2(b: byte)
    requires 0x40 <= b < 0x80
    ensures var s := Sbox(b); Table2(b) == Word(s, Xtime(s) ^ s, Xtime(s), s)
  {
  }

  lemma Table2Part3(b: byte)
    requires 0x80 <= b < 0xc0
    ensures var s := Sbox(b); Table2(b) == Word(s, Xtime(s) ^ s, Xtime(s), s)
  {
  }

  lemma Table2Part4(b: byte)
    requires 0xc0 <= b
    ensures var s := Sbox(b); Table2(b) == Word(s, Xtime(s) ^ s, Xtime(s), s)
  {
  }

  /** of the third by two, */
  lemma Table2Is(b: byte)
    ensures var s := Sbox(b); Table2(b) == Word(s, Xtime(s) ^ s, Xtime(s), s)
  {
    if b < 0x10 {
      Table2Part0(b);
    } else if b < 0x40 {
      Table2Part1(b);
    } else if b < 0x80 {
      Table2Part2(b);
    } else if b < 0xc0 {
      Table2Part3(b);
    } else {
      Table2Part4(b);
    }
  }

  lemma Table3Part0(b: byte)
    requires b < 0x10
    ensures var s := Sbox(b); Table3(b) == Word(s, s, Xtime(s) ^ s, Xtime(s))
  {
  }

  lemma Table3Part1(b: byte)
    requires 0x10 <= b < 0x40
    ensures var s := Sbox(b); Table3(b) == Word(s, s, Xtime(s) ^ s, Xtime(s))
  {
  }

  lemma Table3Part2(b: byte)
    requires 0x40 <= b < 0x80
    ensures var s := Sbox(b); Table3(b) == Word(s, s, Xtime(s) ^ s, Xtime(s))
  {
  }

  lemma Table3Part3(b: byte)
    requires 0x80 <= b < 0xc0
    ensures var s := Sbox(b); Table3(b) == Word(s, s, Xtime(s) ^ s, Xtime(s))
  {
  }

  lemma Table3Part4(b: byte)
    requires 0xc0 <= b
    ensures var s := Sbox(b); Table3(b) == Word(s, s, Xtime(s) ^ s, Xtime(s))
  {
  }

  /** and of the fourth by three. */
  lemma Table3Is(b: byte)
    ensures var s := Sbox(b); Table3(b) == Word(s, s, Xtime(s) ^ s, Xtime(s))
  {
    if b < 0x10 {
      Table3Part0(b);
    } else if b < 0x40 {
      Table3Part1(b);
    } else if b < 0x80 {
      Table3Part2(b);
    } else if b < 0xc0 {
      Table3Part3(b);
    } else {
      Table3Part4(b);
    }
  }

  /** Multiplication in the field, section 4.2 of FIPS 197. */
  function Product(a: byte, b: byte): byte {
    var x1 := Xtime(a); var x2 := Xtime(x1); var x3 := Xtime(x2); var x4 := Xtime(x3);
    var x5 := Xtime(x4); var x6 := Xtime(x5); var x7 := Xtime(x6);
    (if b & 0x01 != 0 then a else 0) ^ (if b & 0x02 != 0 then x1 else 0) ^ (if b & 0x04 != 0 then x2 else 0)
    ^ (if b & 0x08 != 0 then x3 else 0) ^ (if b & 0x10 != 0 then x4 else 0) ^ (if b & 0x20 != 0 then x5 else 0)
    ^ (if b & 0x40 != 0 then x6 else 0) ^ (if b & 0x80 != 0 then x7 else 0)
  }

  function Rotated(b: byte, n: nat): byte
    requires n < 8
  {
    (b << n) | (b >> (8 - n))
  }

  /** The affine transformation of section 5.1.1. */
  function Affine(b: byte): byte {
    b ^ Rotated(b, 1) ^ Rotated(b, 2) ^ Rotated(b, 3) ^ Rotated(b, 4) ^ 0x63
  }

  function AffineInverse(b: byte): byte {
    Rotated(b, 1) ^ Rotated(b, 3) ^ Rotated(b, 6) ^ 0x05
  }

  lemma AffineRoundTrip(s: byte)
    ensures Affine(AffineInverse(s)) == s
  {
  }

  lemma SboxQuarter0(b: byte)
    requires b < 0x40
    ensures Product(b, AffineInverse(Sbox(b))) == (if b == 0 then 0 else 1)
  {
  }

  lemma SboxQuarter1(b: byte)
    requires 0x40 <= b < 0x80
    ensures Product(b, AffineInverse(Sbox(b))) == 1
  {
  }

  lemma SboxQuarter2(b: byte)
    requires 0x80 <= b < 0xc0
    ensures Product(b, AffineInverse(Sbox(b))) == 1
  {
  }

  lemma SboxQuarter3(b: byte)
    requires 0xc0 <= b
    ensures Product(b, AffineInverse(Sbox(b))) == 1
  {
  }

  /** Every literal of the S-box is the affine image of the multiplicative inverse of its index (of 0, for 0). */
  lemma SboxIsAffineOfInverse(b: byte)
    ensures var y := AffineInverse(Sbox(b)); Sbox(b) == Affine(y) && Product(b, y) == (if b == 0 then 0 else 1) && (b == 0 ==> y == 0)
  {
    AffineRoundTrip(Sbox(b));
    if b < 0x40 {
      SboxQuarter0(b);
    } else if b < 0x80 {
      SboxQuarter1(b);
    } else if b < 0xc0 {
      SboxQuarter2(b);
    } else {
      SboxQuarter3(b);
    }
  }
}
