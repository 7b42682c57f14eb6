/** aes.c: the substitution tables, one function a row, and what FIPS 197 says they are. */
module AesTables {
  import opened AesField

  function SBoxRow0(col: bv8): bv8 {
    match col
    case 0x0 => 0x63 case 0x1 => 0x7c case 0x2 => 0x77 case 0x3 => 0x7b
    case 0x4 => 0xf2 case 0x5 => 0x6b case 0x6 => 0x6f case 0x7 => 0xc5
    case 0x8 => 0x30 case 0x9 => 0x01 case 0xa => 0x67 case 0xb => 0x2b
    case 0xc => 0xfe case 0xd => 0xd7 case 0xe => 0xab case _ => 0x76
  }

  function SBoxRow1(col: bv8): bv8 {
    match col
    case 0x0 => 0xca case 0x1 => 0x82 case 0x2 => 0xc9 case 0x3 => 0x7d
    case 0x4 => 0xfa case 0x5 => 0x59 case 0x6 => 0x47 case 0x7 => 0xf0
    case 0x8 => 0xad case 0x9 => 0xd4 case 0xa => 0xa2 case 0xb => 0xaf
    case 0xc => 0x9c case 0xd => 0xa4 case 0xe => 0x72 case _ => 0xc0
  }

  function SBoxRow2(col: bv8): bv8 {
    match col
    case 0x0 => 0xb7 case 0x1 => 0xfd case 0x2 => 0x93 case 0x3 => 0x26
    case 0x4 => 0x36 case 0x5 => 0x3f case 0x6 => 0xf7 case 0x7 => 0xcc
    case 0x8 => 0x34 case 0x9 => 0xa5 case 0xa => 0xe5 case 0xb => 0xf1
    case 0xc => 0x71 case 0xd => 0xd8 case 0xe => 0x31 case _ => 0x15
  }

  function SBoxRow3(col: bv8): bv8 {
    match col
    case 0x0 => 0x04 case 0x1 => 0xc7 case 0x2 => 0x23 case 0x3 => 0xc3
    case 0x4 => 0x18 case 0x5 => 0x96 case 0x6 => 0x05 case 0x7 => 0x9a
    case 0x8 => 0x07 case 0x9 => 0x12 case 0xa => 0x80 case 0xb => 0xe2
    case 0xc => 0xeb case 0xd => 0x27 case 0xe => 0xb2 case _ => 0x75
  }

  function SBoxRow4(col: bv8): bv8 {
    match col
    case 0x0 => 0x09 case 0x1 => 0x83 case 0x2 => 0x2c case 0x3 => 0x1a
    case 0x4 => 0x1b case 0x5 => 0x6e case 0x6 => 0x5a case 0x7 => 0xa0
    case 0x8 => 0x52 case 0x9 => 0x3b case 0xa => 0xd6 case 0xb => 0xb3
    case 0xc => 0x29 case 0xd => 0xe3 case 0xe => 0x2f case _ => 0x84
  }

  function SBoxRow5(col: bv8): bv8 {
    match col
    case 0x0 => 0x53 case 0x1 => 0xd1 case 0x2 => 0x00 case 0x3 => 0xed
    case 0x4 => 0x20 case 0x5 => 0xfc case 0x6 => 0xb1 case 0x7 => 0x5b
    case 0x8 => 0x6a case 0x9 => 0xcb case 0xa => 0xbe case 0xb => 0x39
    case 0xc => 0x4a case 0xd => 0x4c case 0xe => 0x58 case _ => 0xcf
  }

  function SBoxRow6(col: bv8): bv8 {
    match col
    case 0x0 => 0xd0 case 0x1 => 0xef case 0x2 => 0xaa case 0x3 => 0xfb
    case 0x4 => 0x43 case 0x5 => 0x4d case 0x6 => 0x33 case 0x7 => 0x85
    case 0x8 => 0x45 case 0x9 => 0xf9 case 0xa => 0x02 case 0xb => 0x7f
    case 0xc => 0x50 case 0xd => 0x3c case 0xe => 0x9f case _ => 0xa8
  }

  function SBoxRow7(col: bv8): bv8 {
    match col
    case 0x0 => 0x51 case 0x1 => 0xa3 case 0x2 => 0x40 case 0x3 => 0x8f
    case 0x4 => 0x92 case 0x5 => 0x9d case 0x6 => 0x38 case 0x7 => 0xf5
    case 0x8 => 0xbc case 0x9 => 0xb6 case 0xa => 0xda case 0xb => 0x21
    case 0xc => 0x10 case 0xd => 0xff case 0xe => 0xf3 case _ => 0xd2
  }

  function SBoxRow8(col: bv8): bv8 {
    match col
    case 0x0 => 0xcd case 0x1 => 0x0c case 0x2 => 0x13 case 0x3 => 0xec
    case 0x4 => 0x5f case 0x5 => 0x97 case 0x6 => 0x44 case 0x7 => 0x17
    case 0x8 => 0xc4 case 0x9 => 0xa7 case 0xa => 0x7e case 0xb => 0x3d
    case 0xc => 0x64 case 0xd => 0x5d case 0xe => 0x19 case _ => 0x73
  }

  function SBoxRow9(col: bv8): bv8 {
    match col
    case 0x0 => 0x60 case 0x1 => 0x81 case 0x2 => 0x4f case 0x3 => 0xdc
    case 0x4 => 0x22 case 0x5 => 0x2a case 0x6 => 0x90 case 0x7 => 0x88
    case 0x8 => 0x46 case 0x9 => 0xee case 0xa => 0xb8 case 0xb => 0x14
    case 0xc => 0xde case 0xd => 0x5e case 0xe => 0x0b case _ => 0xdb
  }

  function SBoxRowA(col: bv8): bv8 {
    match col
    case 0x0 => 0xe0 case 0x1 => 0x32 case 0x2 => 0x3a case 0x3 => 0x0a
    case 0x4 => 0x49 case 0x5 => 0x06 case 0x6 => 0x24 case 0x7 => 0x5c
    case 0x8 => 0xc2 case 0x9 => 0xd3 case 0xa => 0xac case 0xb => 0x62
    case 0xc => 0x91 case 0xd => 0x95 case 0xe => 0xe4 case _ => 0x79
  }

  function SBoxRowB(col: bv8): bv8 {
    match col
    case 0x0 => 0xe7 case 0x1 => 0xc8 case 0x2 => 0x37 case 0x3 => 0x6d
    case 0x4 => 0x8d case 0x5 => 0xd5 case 0x6 => 0x4e case 0x7 => 0xa9
    case 0x8 => 0x6c case 0x9 => 0x56 case 0xa => 0xf4 case 0xb => 0xea
    case 0xc => 0x65 case 0xd => 0x7a case 0xe => 0xae case _ => 0x08
  }

  function SBoxRowC(col: bv8): bv8 {
    match col
    case 0x0 => 0xba case 0x1 => 0x78 case 0x2 => 0x25 case 0x3 => 0x2e
    case 0x4 => 0x1c case 0x5 => 0xa6 case 0x6 => 0xb4 case 0x7 => 0xc6
    case 0x8 => 0xe8 case 0x9 => 0xdd case 0xa => 0x74 case 0xb => 0x1f
    case 0xc => 0x4b case 0xd => 0xbd case 0xe => 0x8b case _ => 0x8a
  }

  function SBoxRowD(col: bv8): bv8 {
    match col
    case 0x0 => 0x70 case 0x1 => 0x3e case 0x2 => 0xb5 case 0x3 => 0x66
    case 0x4 => 0x48 case 0x5 => 0x03 case 0x6 => 0xf6 case 0x7 => 0x0e
    case 0x8 => 0x61 case 0x9 => 0x35 case 0xa => 0x57 case 0xb => 0xb9
    case 0xc => 0x86 case 0xd => 0xc1 case 0xe => 0x1d case _ => 0x9e
  }

  function SBoxRowE(col: bv8): bv8 {
    match col
    case 0x0 => 0xe1 case 0x1 => 0xf8 case 0x2 => 0x98 case 0x3 => 0x11
    case 0x4 => 0x69 case 0x5 => 0xd9 case 0x6 => 0x8e case 0x7 => 0x94
    case 0x8 => 0x9b case 0x9 => 0x1e case 0xa => 0x87 case 0xb => 0xe9
    case 0xc => 0xce case 0xd => 0x55 case 0xe => 0x28 case _ => 0xdf
  }

  function SBoxRowF(col: bv8): bv8 {
    match col
    case 0x0 => 0x8c case 0x1 => 0xa1 case 0x2 => 0x89 case 0x3 => 0x0d
    case 0x4 => 0xbf case 0x5 => 0xe6 case 0x6 => 0x42 case 0x7 => 0x68
    case 0x8 => 0x41 case 0x9 => 0x99 case 0xa => 0x2d case 0xb => 0x0f
    case 0xc => 0xb0 case 0xd => 0x54 case 0xe => 0xbb case _ => 0x16
  }

  function SBoxAt(row: bv8, col: bv8): bv8 {
    match row
    case 0x0 => SBoxRow0(col) case 0x1 => SBoxRow1(col) case 0x2 => SBoxRow2(col) case 0x3 => SBoxRow3(col)
    case 0x4 => SBoxRow4(col) case 0x5 => SBoxRow5(col) case 0x6 => SBoxRow6(col) case 0x7 => SBoxRow7(col)
    case 0x8 => SBoxRow8(col) case 0x9 => SBoxRow9(col) case 0xa => SBoxRowA(col) case 0xb => SBoxRowB(col)
    case 0xc => SBoxRowC(col) case 0xd => SBoxRowD(col) case 0xe => SBoxRowE(col) case _ => SBoxRowF(col)
  }

  /** s_box */
  function SBox(x: bv8): bv8 { SBoxAt((x & 0xf0) >> 4, x & 0x0f) }

  lemma InRow(col: bv8)
    ensures SBoxAt(0x0, col) == SBoxRow0(col) && SBoxAt(0x1, col) == SBoxRow1(col)
            && SBoxAt(0x2, col) == SBoxRow2(col) && SBoxAt(0x3, col) == SBoxRow3(col)
            && SBoxAt(0x4, col) == SBoxRow4(col) && SBoxAt(0x5, col) == SBoxRow5(col)
            && SBoxAt(0x6, col) == SBoxRow6(col) && SBoxAt(0x7, col) == SBoxRow7(col)
            && SBoxAt(0x8, col) == SBoxRow8(col) && SBoxAt(0x9, col) == SBoxRow9(col)
            && SBoxAt(0xa, col) == SBoxRowA(col) && SBoxAt(0xb, col) == SBoxRowB(col)
            && SBoxAt(0xc, col) == SBoxRowC(col) && SBoxAt(0xd, col) == SBoxRowD(col)
            && SBoxAt(0xe, col) == SBoxRowE(col) && SBoxAt(0xf, col) == SBoxRowF(col)
  {
    hide SBoxRow0, SBoxRow1, SBoxRow2, SBoxRow3, SBoxRow4, SBoxRow5, SBoxRow6, SBoxRow7, SBoxRow8,
         SBoxRow9, SBoxRowA, SBoxRowB, SBoxRowC, SBoxRowD, SBoxRowE, SBoxRowF;
  }

  /** Every row of the table is where it belongs. */
  lemma RowsAre()
    ensures forall col: bv8 :: SBoxAt(0x0, col) == SBoxRow0(col)
    ensures forall col: bv8 :: SBoxAt(0x1, col) == SBoxRow1(col)
    ensures forall col: bv8 :: SBoxAt(0x2, col) == SBoxRow2(col)
    ensures forall col: bv8 :: SBoxAt(0x3, col) == SBoxRow3(col)
    ensures forall col: bv8 :: SBoxAt(0x4, col) == SBoxRow4(col)
    ensures forall col: bv8 :: SBoxAt(0x5, col) == SBoxRow5(col)
    ensures forall col: bv8 :: SBoxAt(0x6, col) == SBoxRow6(col)
    ensures forall col: bv8 :: SBoxAt(0x7, col) == SBoxRow7(col)
    ensures forall col: bv8 :: SBoxAt(0x8, col) == SBoxRow8(col)
    ensures forall col: bv8 :: SBoxAt(0x9, col) == SBoxRow9(col)
    ensures forall col: bv8 :: SBoxAt(0xa, col) == SBoxRowA(col)
    ensures forall col: bv8 :: SBoxAt(0xb, col) == SBoxRowB(col)
    ensures forall col: bv8 :: SBoxAt(0xc, col) == SBoxRowC(col)
    ensures forall col: bv8 :: SBoxAt(0xd, col) == SBoxRowD(col)
    ensures forall col: bv8 :: SBoxAt(0xe, col) == SBoxRowE(col)
    ensures forall col: bv8 :: SBoxAt(0xf, col) == SBoxRowF(col)
  {
    hide SBoxAt, SBoxRow0, SBoxRow1, SBoxRow2, SBoxRow3, SBoxRow4, SBoxRow5, SBoxRow6, SBoxRow7, SBoxRow8,
         SBoxRow9, SBoxRowA, SBoxRowB, SBoxRowC, SBoxRowD, SBoxRowE, SBoxRowF;
    forall col: bv8
      ensures SBoxAt(0x0, col) == SBoxRow0(col) && SBoxAt(0x1, col) == SBoxRow1(col)
              && SBoxAt(0x2, col) == SBoxRow2(col) && SBoxAt(0x3, col) == SBoxRow3(col)
              && SBoxAt(0x4, col) == SBoxRow4(col) && SBoxAt(0x5, col) == SBoxRow5(col)
              && SBoxAt(0x6, col) == SBoxRow6(col) && SBoxAt(0x7, col) == SBoxRow7(col)
              && SBoxAt(0x8, col) == SBoxRow8(col) && SBoxAt(0x9, col) == SBoxRow9(col)
              && SBoxAt(0xa, col) == SBoxRowA(col) && SBoxAt(0xb, col) == SBoxRowB(col)
              && SBoxAt(0xc, col) == SBoxRowC(col) && SBoxAt(0xd, col) == SBoxRowD(col)
              && SBoxAt(0xe, col) == SBoxRowE(col) && SBoxAt(0xf, col) == SBoxRowF(col)
    {
      InRow(col);
    }
  }

  function InvSBoxRow0(col: bv8): bv8 {
    match col
    case 0x0 => 0x52 case 0x1 => 0x09 case 0x2 => 0x6a case 0x3 => 0xd5
    case 0x4 => 0x30 case 0x5 => 0x36 case 0x6 => 0xa5 case 0x7 => 0x38
    case 0x8 => 0xbf case 0x9 => 0x40 case 0xa => 0xa3 case 0xb => 0x9e
    case 0xc => 0x81 case 0xd => 0xf3 case 0xe => 0xd7 case _ => 0xfb
  }

  function InvSBoxRow1(col: bv8): bv8 {
    match col
    case 0x0 => 0x7c case 0x1 => 0xe3 case 0x2 => 0x39 case 0x3 => 0x82
    case 0x4 => 0x9b case 0x5 => 0x2f case 0x6 => 0xff case 0x7 => 0x87
    case 0x8 => 0x34 case 0x9 => 0x8e case 0xa => 0x43 case 0xb => 0x44
    case 0xc => 0xc4 case 0xd => 0xde case 0xe => 0xe9 case _ => 0xcb
  }

  function InvSBoxRow2(col: bv8): bv8 {
    match col
    case 0x0 => 0x54 case 0x1 => 0x7b case 0x2 => 0x94 case 0x3 => 0x32
    case 0x4 => 0xa6 case 0x5 => 0xc2 case 0x6 => 0x23 case 0x7 => 0x3d
    case 0x8 => 0xee case 0x9 => 0x4c case 0xa => 0x95 case 0xb => 0x0b
    case 0xc => 0x42 case 0xd => 0xfa case 0xe => 0xc3 case _ => 0x4e
  }

  function InvSBoxRow3(col: bv8): bv8 {
    match col
    case 0x0 => 0x08 case 0x1 => 0x2e case 0x2 => 0xa1 case 0x3 => 0x66
    case 0x4 => 0x28 case 0x5 => 0xd9 case 0x6 => 0x24 case 0x7 => 0xb2
    case 0x8 => 0x76 case 0x9 => 0x5b case 0xa => 0xa2 case 0xb => 0x49
    case 0xc => 0x6d case 0xd => 0x8b case 0xe => 0xd1 case _ => 0x25
  }

  function InvSBoxRow4(col: bv8): bv8 {
    match col
    case 0x0 => 0x72 case 0x1 => 0xf8 case 0x2 => 0xf6 case 0x3 => 0x64
    case 0x4 => 0x86 case 0x5 => 0x68 case 0x6 => 0x98 case 0x7 => 0x16
    case 0x8 => 0xd4 case 0x9 => 0xa4 case 0xa => 0x5c case 0xb => 0xcc
    case 0xc => 0x5d case 0xd => 0x65 case 0xe => 0xb6 case _ => 0x92
  }

  function InvSBoxRow5(col: bv8): bv8 {
    match col
    case 0x0 => 0x6c case 0x1 => 0x70 case 0x2 => 0x48 case 0x3 => 0x50
    case 0x4 => 0xfd case 0x5 => 0xed case 0x6 => 0xb9 case 0x7 => 0xda
    case 0x8 => 0x5e case 0x9 => 0x15 case 0xa => 0x46 case 0xb => 0x57
    case 0xc => 0xa7 case 0xd => 0x8d case 0xe => 0x9d case _ => 0x84
  }

  function InvSBoxRow6(col: bv8): bv8 {
    match col
    case 0x0 => 0x90 case 0x1 => 0xd8 case 0x2 => 0xab case 0x3 => 0x00
    case 0x4 => 0x8c case 0x5 => 0xbc case 0x6 => 0xd3 case 0x7 => 0x0a
    case 0x8 => 0xf7 case 0x9 => 0xe4 case 0xa => 0x58 case 0xb => 0x05
    case 0xc => 0xb8 case 0xd => 0xb3 case 0xe => 0x45 case _ => 0x06
  }

  function InvSBoxRow7(col: bv8): bv8 {
    match col
    case 0x0 => 0xd0 case 0x1 => 0x2c case 0x2 => 0x1e case 0x3 => 0x8f
    case 0x4 => 0xca case 0x5 => 0x3f case 0x6 => 0x0f case 0x7 => 0x02
    case 0x8 => 0xc1 case 0x9 => 0xaf case 0xa => 0xbd case 0xb => 0x03
    case 0xc => 0x01 case 0xd => 0x13 case 0xe => 0x8a case _ => 0x6b
  }

  function InvSBoxRow8(col: bv8): bv8 {
    match col
    case 0x0 => 0x3a case 0x1 => 0x91 case 0x2 => 0x11 case 0x3 => 0x41
    case 0x4 => 0x4f case 0x5 => 0x67 case 0x6 => 0xdc case 0x7 => 0xea
    case 0x8 => 0x97 case 0x9 => 0xf2 case 0xa => 0xcf case 0xb => 0xce
    case 0xc => 0xf0 case 0xd => 0xb4 case 0xe => 0xe6 case _ => 0x73
  }

  function InvSBoxRow9(col: bv8): bv8 {
    match col
    case 0x0 => 0x96 case 0x1 => 0xac case 0x2 => 0x74 case 0x3 => 0x22
    case 0x4 => 0xe7 case 0x5 => 0xad case 0x6 => 0x35 case 0x7 => 0x85
    case 0x8 => 0xe2 case 0x9 => 0xf9 case 0xa => 0x37 case 0xb => 0xe8
    case 0xc => 0x1c case 0xd => 0x75 case 0xe => 0xdf case _ => 0x6e
  }

  function InvSBoxRowA(col: bv8): bv8 {
    match col
    case 0x0 => 0x47 case 0x1 => 0xf1 case 0x2 => 0x1a case 0x3 => 0x71
    case 0x4 => 0x1d case 0x5 => 0x29 case 0x6 => 0xc5 case 0x7 => 0x89
    case 0x8 => 0x6f case 0x9 => 0xb7 case 0xa => 0x62 case 0xb => 0x0e
    case 0xc => 0xaa case 0xd => 0x18 case 0xe => 0xbe case _ => 0x1b
  }

  function InvSBoxRowB(col: bv8): bv8 {
    match col
    case 0x0 => 0xfc case 0x1 => 0x56 case 0x2 => 0x3e case 0x3 => 0x4b
    case 0x4 => 0xc6 case 0x5 => 0xd2 case 0x6 => 0x79 case 0x7 => 0x20
    case 0x8 => 0x9a case 0x9 => 0xdb case 0xa => 0xc0 case 0xb => 0xfe
    case 0xc => 0x78 case 0xd => 0xcd case 0xe => 0x5a case _ => 0xf4
  }

  function InvSBoxRowC(col: bv8): bv8 {
    match col
    case 0x0 => 0x1f case 0x1 => 0xdd case 0x2 => 0xa8 case 0x3 => 0x33
    case 0x4 => 0x88 case 0x5 => 0x07 case 0x6 => 0xc7 case 0x7 => 0x31
    case 0x8 => 0xb1 case 0x9 => 0x12 case 0xa => 0x10 case 0xb => 0x59
    case 0xc => 0x27 case 0xd => 0x80 case 0xe => 0xec case _ => 0x5f
  }

  function InvSBoxRowD(col: bv8): bv8 {
    match col
    case 0x0 => 0x60 case 0x1 => 0x51 case 0x2 => 0x7f case 0x3 => 0xa9
    case 0x4 => 0x19 case 0x5 => 0xb5 case 0x6 => 0x4a case 0x7 => 0x0d
    case 0x8 => 0x2d case 0x9 => 0xe5 case 0xa => 0x7a case 0xb => 0x9f
    case 0xc => 0x93 case 0xd => 0xc9 case 0xe => 0x9c case _ => 0xef
  }

  function InvSBoxRowE(col: bv8): bv8 {
    match col
    case 0x0 => 0xa0 case 0x1 => 0xe0 case 0x2 => 0x3b case 0x3 => 0x4d
    case 0x4 => 0xae case 0x5 => 0x2a case 0x6 => 0xf5 case 0x7 => 0xb0
    case 0x8 => 0xc8 case 0x9 => 0xeb case 0xa => 0xbb case 0xb => 0x3c
    case 0xc => 0x83 case 0xd => 0x53 case 0xe => 0x99 case _ => 0x61
  }

  function InvSBoxRowF(col: bv8): bv8 {
    match col
    case 0x0 => 0x17 case 0x1 => 0x2b case 0x2 => 0x04 case 0x3 => 0x7e
    case 0x4 => 0xba case 0x5 => 0x77 case 0x6 => 0xd6 case 0x7 => 0x26
    case 0x8 => 0xe1 case 0x9 => 0x69 case 0xa => 0x14 case 0xb => 0x63
    case 0xc => 0x55 case 0xd => 0x21 case 0xe => 0x0c case _ => 0x7d
  }

  /** inv_s_box */
  function InvSBox(x: bv8): bv8 {
    var row, col := (x & 0xf0) >> 4, x & 0x0f;
    match row
    case 0x0 => InvSBoxRow0(col) case 0x1 => InvSBoxRow1(col) case 0x2 => InvSBoxRow2(col) case 0x3 => InvSBoxRow3(col)
    case 0x4 => InvSBoxRow4(col) case 0x5 => InvSBoxRow5(col) case 0x6 => InvSBoxRow6(col) case 0x7 => InvSBoxRow7(col)
    case 0x8 => InvSBoxRow8(col) case 0x9 => InvSBoxRow9(col) case 0xa => InvSBoxRowA(col) case 0xb => InvSBoxRowB(col)
    case 0xc => InvSBoxRowC(col) case 0xd => InvSBoxRowD(col) case 0xe => InvSBoxRowE(col) case _ => InvSBoxRowF(col)
  }

  // ---------- the tables are inverse to each other ----------

  lemma Undo(row: bv8, col: bv8)
    requires row < 16 && col < 16
    ensures InvSBox(SBoxAt(row, col)) == (row << 4) ^ col
  {
    match col
    case 0x0 => case 0x1 => case 0x2 => case 0x3 => case 0x4 => case 0x5 => case 0x6 => case 0x7 =>
    case 0x8 => case 0x9 => case 0xa => case 0xb => case 0xc => case 0xd => case 0xe => case _ =>
  }

  lemma Nibbles(x: bv8)
    ensures ((x & 0xf0) >> 4) < 16 && x & 0x0f < 16
    ensures (((x & 0xf0) >> 4) << 4) ^ (x & 0x0f) == x
  {
  }

  /** Substituting a byte can be undone. */
  lemma Unsubstitute(x: bv8)
    ensures InvSBox(SBox(x)) == x
  {
    var row, col := (x & 0xf0) >> 4, x & 0x0f;
    Nibbles(x);
    Undo(row, col);
  }

  // ---------- the substitution of section 5.1.1 of FIPS 197 ----------

  /** Each bit is added to the four bits above it, cyclically, and the constant {63}. */
  function Affine(y: bv8): bv8 {
    y ^ ((y << 1) | (y >> 7)) ^ ((y << 2) | (y >> 6)) ^ ((y << 3) | (y >> 5)) ^ ((y << 4) | (y >> 4)) ^ 0x63
  }

  function Unaffine(s: bv8): bv8 {
    ((s << 1) | (s >> 7)) ^ ((s << 3) | (s >> 5)) ^ ((s << 6) | (s >> 2)) ^ 0x05
  }

  lemma AffineUnaffine(s: bv8)
    ensures Affine(Unaffine(s)) == s
  {
  }

  /** Multiplicative inverse in GF(2^8), zero going to itself. */
  predicate IsInverse(x: bv8, y: bv8) { if x == 0 then y == 0 else Mul(x, y) == 1 }

  lemma {:induction false} InverseUnique(x: bv8, y: bv8, z: bv8)
    requires IsInverse(x, y) && IsInverse(x, z)
    ensures y == z
  {
    hide Steps;
    if x != 0 {
      MulOneLeft(y);
      MulOneLeft(z);
      MulComm(x, y);
      MulAssoc(y, x, z);
      MulComm(y, 1);
    }
  }

  /** Mul with its eight steps written out. */
  function Expanded(a: bv8, b: bv8): bv8 {
    var a1 := XTime(a);
    var a2 := XTime(a1);
    var a3 := XTime(a2);
    var a4 := XTime(a3);
    var a5 := XTime(a4);
    var a6 := XTime(a5);
    var a7 := XTime(a6);
    var h1 := Half(b);
    var h2 := Half(h1);
    var h3 := Half(h2);
    var h4 := Half(h3);
    var h5 := Half(h4);
    var h6 := Half(h5);
    var h7 := Half(h6);
    Add(Pick(a, b), Add(Pick(a1, h1), Add(Pick(a2, h2), Add(Pick(a3, h3),
    Add(Pick(a4, h4), Add(Pick(a5, h5), Add(Pick(a6, h6), Pick(a7, h7))))))))
  }

  lemma Inverts(row: bv8, col: bv8)
    requires row < 16 && col < 16 && (row == 0 ==> col != 0)
    ensures Expanded((row << 4) ^ col, Unaffine(SBoxAt(row, col))) == 1
  {
    match row
    case 0x0 => case 0x1 => case 0x2 => case 0x3 => case 0x4 => case 0x5 => case 0x6 => case 0x7 =>
    case 0x8 => case 0x9 => case 0xa => case 0xb => case 0xc => case 0xd => case 0xe => case _ =>
  }

  lemma ExpandedIsMul(a: bv8, b: bv8)
    ensures Expanded(a, b) == Mul(a, b)
  {
    hide Add, Half, Pick, XTime;
    AddZero(Pick(XTime(XTime(XTime(XTime(XTime(XTime(XTime(a))))))), Half(Half(Half(Half(Half(Half(Half(b)))))))));
  }

  /** The table is the affine image of the multiplicative inverse. */
  lemma SBoxMeaning(x: bv8)
    ensures IsInverse(x, Unaffine(SBox(x))) && SBox(x) == Affine(Unaffine(SBox(x)))
  {
    AffineUnaffine(SBox(x));
    if x != 0 {
      ExpandedIsMul(x, Unaffine(SBox(x)));
      SBoxInverts(x);
    }
  }

  lemma SBoxInverts(x: bv8)
    requires x != 0
    ensures Expanded(x, Unaffine(SBox(x))) == 1
  {
    var row, col := (x & 0xf0) >> 4, x & 0x0f;
    Nibbles(x);
    hide Expanded, Unaffine;
    Inverts(row, col);
  }
}
