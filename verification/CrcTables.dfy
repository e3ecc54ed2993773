/**
 The lookup tables of the two checksums, in rows of sixteen, and the shift register
 each of them tabulates.
 */
module CrcTables {
  // Entry 16 * row + column of the 16-bit table.
  function WideRow(row: bv8, column: bv8): bv16 {
    match row
    case 0 => (match column
      case 0 => 0x0000 case 1 => 0x1189 case 2 => 0x2312 case 3 => 0x329b
      case 4 => 0x4624 case 5 => 0x57ad case 6 => 0x6536 case 7 => 0x74bf
      case 8 => 0x8c48 case 9 => 0x9dc1 case 10 => 0xaf5a case 11 => 0xbed3
      case 12 => 0xca6c case 13 => 0xdbe5 case 14 => 0xe97e case _ => 0xf8f7)
    case 1 => (match column
      case 0 => 0x1081 case 1 => 0x0108 case 2 => 0x3393 case 3 => 0x221a
      case 4 => 0x56a5 case 5 => 0x472c case 6 => 0x75b7 case 7 => 0x643e
      case 8 => 0x9cc9 case 9 => 0x8d40 case 10 => 0xbfdb case 11 => 0xae52
      case 12 => 0xdaed case 13 => 0xcb64 case 14 => 0xf9ff case _ => 0xe876)
    case 2 => (match column
      case 0 => 0x2102 case 1 => 0x308b case 2 => 0x0210 case 3 => 0x1399
      case 4 => 0x6726 case 5 => 0x76af case 6 => 0x4434 case 7 => 0x55bd
      case 8 => 0xad4a case 9 => 0xbcc3 case 10 => 0x8e58 case 11 => 0x9fd1
      case 12 => 0xeb6e case 13 => 0xfae7 case 14 => 0xc87c case _ => 0xd9f5)
    case 3 => (match column
      case 0 => 0x3183 case 1 => 0x200a case 2 => 0x1291 case 3 => 0x0318
      case 4 => 0x77a7 case 5 => 0x662e case 6 => 0x54b5 case 7 => 0x453c
      case 8 => 0xbdcb case 9 => 0xac42 case 10 => 0x9ed9 case 11 => 0x8f50
      case 12 => 0xfbef case 13 => 0xea66 case 14 => 0xd8fd case _ => 0xc974)
    case 4 => (match column
      case 0 => 0x4204 case 1 => 0x538d case 2 => 0x6116 case 3 => 0x709f
      case 4 => 0x0420 case 5 => 0x15a9 case 6 => 0x2732 case 7 => 0x36bb
      case 8 => 0xce4c case 9 => 0xdfc5 case 10 => 0xed5e case 11 => 0xfcd7
      case 12 => 0x8868 case 13 => 0x99e1 case 14 => 0xab7a case _ => 0xbaf3)
    case 5 => (match column
      case 0 => 0x5285 case 1 => 0x430c case 2 => 0x7197 case 3 => 0x601e
      case 4 => 0x14a1 case 5 => 0x0528 case 6 => 0x37b3 case 7 => 0x263a
      case 8 => 0xdecd case 9 => 0xcf44 case 10 => 0xfddf case 11 => 0xec56
      case 12 => 0x98e9 case 13 => 0x8960 case 14 => 0xbbfb case _ => 0xaa72)
    case 6 => (match column
      case 0 => 0x6306 case 1 => 0x728f case 2 => 0x4014 case 3 => 0x519d
      case 4 => 0x2522 case 5 => 0x34ab case 6 => 0x0630 case 7 => 0x17b9
      case 8 => 0xef4e case 9 => 0xfec7 case 10 => 0xcc5c case 11 => 0xddd5
      case 12 => 0xa96a case 13 => 0xb8e3 case 14 => 0x8a78 case _ => 0x9bf1)
    case 7 => (match column
      case 0 => 0x7387 case 1 => 0x620e case 2 => 0x5095 case 3 => 0x411c
      case 4 => 0x35a3 case 5 => 0x242a case 6 => 0x16b1 case 7 => 0x0738
      case 8 => 0xffcf case 9 => 0xee46 case 10 => 0xdcdd case 11 => 0xcd54
      case 12 => 0xb9eb case 13 => 0xa862 case 14 => 0x9af9 case _ => 0x8b70)
    case 8 => (match column
      case 0 => 0x8408 case 1 => 0x9581 case 2 => 0xa71a case 3 => 0xb693
      case 4 => 0xc22c case 5 => 0xd3a5 case 6 => 0xe13e case 7 => 0xf0b7
      case 8 => 0x0840 case 9 => 0x19c9 case 10 => 0x2b52 case 11 => 0x3adb
      case 12 => 0x4e64 case 13 => 0x5fed case 14 => 0x6d76 case _ => 0x7cff)
    case 9 => (match column
      case 0 => 0x9489 case 1 => 0x8500 case 2 => 0xb79b case 3 => 0xa612
      case 4 => 0xd2ad case 5 => 0xc324 case 6 => 0xf1bf case 7 => 0xe036
      case 8 => 0x18c1 case 9 => 0x0948 case 10 => 0x3bd3 case 11 => 0x2a5a
      case 12 => 0x5ee5 case 13 => 0x4f6c case 14 => 0x7df7 case _ => 0x6c7e)
    case 10 => (match column
      case 0 => 0xa50a case 1 => 0xb483 case 2 => 0x8618 case 3 => 0x9791
      case 4 => 0xe32e case 5 => 0xf2a7 case 6 => 0xc03c case 7 => 0xd1b5
      case 8 => 0x2942 case 9 => 0x38cb case 10 => 0x0a50 case 11 => 0x1bd9
      case 12 => 0x6f66 case 13 => 0x7eef case 14 => 0x4c74 case _ => 0x5dfd)
    case 11 => (match column
      case 0 => 0xb58b case 1 => 0xa402 case 2 => 0x9699 case 3 => 0x8710
      case 4 => 0xf3af case 5 => 0xe226 case 6 => 0xd0bd case 7 => 0xc134
      case 8 => 0x39c3 case 9 => 0x284a case 10 => 0x1ad1 case 11 => 0x0b58
      case 12 => 0x7fe7 case 13 => 0x6e6e case 14 => 0x5cf5 case _ => 0x4d7c)
    case 12 => (match column
      case 0 => 0xc60c case 1 => 0xd785 case 2 => 0xe51e case 3 => 0xf497
      case 4 => 0x8028 case 5 => 0x91a1 case 6 => 0xa33a case 7 => 0xb2b3
      case 8 => 0x4a44 case 9 => 0x5bcd case 10 => 0x6956 case 11 => 0x78df
      case 12 => 0x0c60 case 13 => 0x1de9 case 14 => 0x2f72 case _ => 0x3efb)
    case 13 => (match column
      case 0 => 0xd68d case 1 => 0xc704 case 2 => 0xf59f case 3 => 0xe416
      case 4 => 0x90a9 case 5 => 0x8120 case 6 => 0xb3bb case 7 => 0xa232
      case 8 => 0x5ac5 case 9 => 0x4b4c case 10 => 0x79d7 case 11 => 0x685e
      case 12 => 0x1ce1 case 13 => 0x0d68 case 14 => 0x3ff3 case _ => 0x2e7a)
    case 14 => (match column
      case 0 => 0xe70e case 1 => 0xf687 case 2 => 0xc41c case 3 => 0xd595
      case 4 => 0xa12a case 5 => 0xb0a3 case 6 => 0x8238 case 7 => 0x93b1
      case 8 => 0x6b46 case 9 => 0x7acf case 10 => 0x4854 case 11 => 0x59dd
      case 12 => 0x2d62 case 13 => 0x3ceb case 14 => 0x0e70 case _ => 0x1ff9)
    case _ => (match column
      case 0 => 0xf78f case 1 => 0xe606 case 2 => 0xd49d case 3 => 0xc514
      case 4 => 0xb1ab case 5 => 0xa022 case 6 => 0x92b9 case 7 => 0x8330
      case 8 => 0x7bc7 case 9 => 0x6a4e case 10 => 0x58d5 case 11 => 0x495c
      case 12 => 0x3de3 case 13 => 0x2c6a case 14 => 0x1ef1 case _ => 0x0f78)
  }

  // Entry 16 * row + column of the 8-bit table.
  function NarrowRow(row: bv8, column: bv8): bv8 {
    match row
    case 0 => (match column
      case 0 => 0x00 case 1 => 0x5e case 2 => 0xbc case 3 => 0xe2
      case 4 => 0x61 case 5 => 0x3f case 6 => 0xdd case 7 => 0x83
      case 8 => 0xc2 case 9 => 0x9c case 10 => 0x7e case 11 => 0x20
      case 12 => 0xa3 case 13 => 0xfd case 14 => 0x1f case _ => 0x41)
    case 1 => (match column
      case 0 => 0x9d case 1 => 0xc3 case 2 => 0x21 case 3 => 0x7f
      case 4 => 0xfc case 5 => 0xa2 case 6 => 0x40 case 7 => 0x1e
      case 8 => 0x5f case 9 => 0x01 case 10 => 0xe3 case 11 => 0xbd
      case 12 => 0x3e case 13 => 0x60 case 14 => 0x82 case _ => 0xdc)
    case 2 => (match column
      case 0 => 0x23 case 1 => 0x7d case 2 => 0x9f case 3 => 0xc1
      case 4 => 0x42 case 5 => 0x1c case 6 => 0xfe case 7 => 0xa0
      case 8 => 0xe1 case 9 => 0xbf case 10 => 0x5d case 11 => 0x03
      case 12 => 0x80 case 13 => 0xde case 14 => 0x3c case _ => 0x62)
    case 3 => (match column
      case 0 => 0xbe case 1 => 0xe0 case 2 => 0x02 case 3 => 0x5c
      case 4 => 0xdf case 5 => 0x81 case 6 => 0x63 case 7 => 0x3d
      case 8 => 0x7c case 9 => 0x22 case 10 => 0xc0 case 11 => 0x9e
      case 12 => 0x1d case 13 => 0x43 case 14 => 0xa1 case _ => 0xff)
    case 4 => (match column
      case 0 => 0x46 case 1 => 0x18 case 2 => 0xfa case 3 => 0xa4
      case 4 => 0x27 case 5 => 0x79 case 6 => 0x9b case 7 => 0xc5
      case 8 => 0x84 case 9 => 0xda case 10 => 0x38 case 11 => 0x66
      case 12 => 0xe5 case 13 => 0xbb case 14 => 0x59 case _ => 0x07)
    case 5 => (match column
      case 0 => 0xdb case 1 => 0x85 case 2 => 0x67 case 3 => 0x39
      case 4 => 0xba case 5 => 0xe4 case 6 => 0x06 case 7 => 0x58
      case 8 => 0x19 case 9 => 0x47 case 10 => 0xa5 case 11 => 0xfb
      case 12 => 0x78 case 13 => 0x26 case 14 => 0xc4 case _ => 0x9a)
    case 6 => (match column
      case 0 => 0x65 case 1 => 0x3b case 2 => 0xd9 case 3 => 0x87
      case 4 => 0x04 case 5 => 0x5a case 6 => 0xb8 case 7 => 0xe6
      case 8 => 0xa7 case 9 => 0xf9 case 10 => 0x1b case 11 => 0x45
      case 12 => 0xc6 case 13 => 0x98 case 14 => 0x7a case _ => 0x24)
    case 7 => (match column
      case 0 => 0xf8 case 1 => 0xa6 case 2 => 0x44 case 3 => 0x1a
      case 4 => 0x99 case 5 => 0xc7 case 6 => 0x25 case 7 => 0x7b
      case 8 => 0x3a case 9 => 0x64 case 10 => 0x86 case 11 => 0xd8
      case 12 => 0x5b case 13 => 0x05 case 14 => 0xe7 case _ => 0xb9)
    case 8 => (match column
      case 0 => 0x8c case 1 => 0xd2 case 2 => 0x30 case 3 => 0x6e
      case 4 => 0xed case 5 => 0xb3 case 6 => 0x51 case 7 => 0x0f
      case 8 => 0x4e case 9 => 0x10 case 10 => 0xf2 case 11 => 0xac
      case 12 => 0x2f case 13 => 0x71 case 14 => 0x93 case _ => 0xcd)
    case 9 => (match column
      case 0 => 0x11 case 1 => 0x4f case 2 => 0xad case 3 => 0xf3
      case 4 => 0x70 case 5 => 0x2e case 6 => 0xcc case 7 => 0x92
      case 8 => 0xd3 case 9 => 0x8d case 10 => 0x6f case 11 => 0x31
      case 12 => 0xb2 case 13 => 0xec case 14 => 0x0e case _ => 0x50)
    case 10 => (match column
      case 0 => 0xaf case 1 => 0xf1 case 2 => 0x13 case 3 => 0x4d
      case 4 => 0xce case 5 => 0x90 case 6 => 0x72 case 7 => 0x2c
      case 8 => 0x6d case 9 => 0x33 case 10 => 0xd1 case 11 => 0x8f
      case 12 => 0x0c case 13 => 0x52 case 14 => 0xb0 case _ => 0xee)
    case 11 => (match column
      case 0 => 0x32 case 1 => 0x6c case 2 => 0x8e case 3 => 0xd0
      case 4 => 0x53 case 5 => 0x0d case 6 => 0xef case 7 => 0xb1
      case 8 => 0xf0 case 9 => 0xae case 10 => 0x4c case 11 => 0x12
      case 12 => 0x91 case 13 => 0xcf case 14 => 0x2d case _ => 0x73)
    case 12 => (match column
      case 0 => 0xca case 1 => 0x94 case 2 => 0x76 case 3 => 0x28
      case 4 => 0xab case 5 => 0xf5 case 6 => 0x17 case 7 => 0x49
      case 8 => 0x08 case 9 => 0x56 case 10 => 0xb4 case 11 => 0xea
      case 12 => 0x69 case 13 => 0x37 case 14 => 0xd5 case _ => 0x8b)
    case 13 => (match column
      case 0 => 0x57 case 1 => 0x09 case 2 => 0xeb case 3 => 0xb5
      case 4 => 0x36 case 5 => 0x68 case 6 => 0x8a case 7 => 0xd4
      case 8 => 0x95 case 9 => 0xcb case 10 => 0x29 case 11 => 0x77
      case 12 => 0xf4 case 13 => 0xaa case 14 => 0x48 case _ => 0x16)
    case 14 => (match column
      case 0 => 0xe9 case 1 => 0xb7 case 2 => 0x55 case 3 => 0x0b
      case 4 => 0x88 case 5 => 0xd6 case 6 => 0x34 case 7 => 0x6a
      case 8 => 0x2b case 9 => 0x75 case 10 => 0x97 case 11 => 0xc9
      case 12 => 0x4a case 13 => 0x14 case 14 => 0xf6 case _ => 0xa8)
    case _ => (match column
      case 0 => 0x74 case 1 => 0x2a case 2 => 0xc8 case 3 => 0x96
      case 4 => 0x15 case 5 => 0x4b case 6 => 0xa9 case 7 => 0xf7
      case 8 => 0xb6 case 9 => 0xe8 case 10 => 0x0a case 11 => 0x54
      case 12 => 0xd7 case 13 => 0x89 case 14 => 0x6b case _ => 0x35)
  }

  function WideTable(index: bv8): bv16 {
    WideRow(index >> 4, index & 15)
  }

  function NarrowTable(index: bv8): bv8 {
    NarrowRow(index >> 4, index & 15)
  }

  // One step of the 16-bit shift register with no input: x^16 + x^12 + x^5 + 1, low
  // bit first.
  function Shift(r: bv16): bv16 {
    if r & 1 == 1 then (r >> 1) ^ 0x8408 else r >> 1
  }

  // One step of the 8-bit register: x^8 + x^5 + x^4 + 1, low bit first.
  function Shift8(r: bv8): bv8 {
    if r & 1 == 1 then (r >> 1) ^ 0x8c else r >> 1
  }

  function EightShifts(r: bv16): bv16 {
    Shift(Shift(Shift(Shift(Shift(Shift(Shift(Shift(r))))))))
  }

  function EightShifts8(r: bv8): bv8 {
    Shift8(Shift8(Shift8(Shift8(Shift8(Shift8(Shift8(Shift8(r))))))))
  }

  lemma WideRowIsRegister(row: bv8, column: bv8)
    requires row < 16 && column < 16
    ensures WideRow(row, column) == EightShifts((row as bv16 << 4) ^ column as bv16)
  {
    match row
    case 0 => match column {
      case 0 => case 1 => case 2 => case 3 => case 4 => case 5 => case 6 => case 7 =>
      case 8 => case 9 => case 10 => case 11 => case 12 => case 13 => case 14 => case _ =>
    }
    case 1 => match column {
      case 0 => case 1 => case 2 => case 3 => case 4 => case 5 => case 6 => case 7 =>
      case 8 => case 9 => case 10 => case 11 => case 12 => case 13 => case 14 => case _ =>
    }
    case 2 => match column {
      case 0 => case 1 => case 2 => case 3 => case 4 => case 5 => case 6 => case 7 =>
      case 8 => case 9 => case 10 => case 11 => case 12 => case 13 => case 14 => case _ =>
    }
    case 3 => match column {
      case 0 => case 1 => case 2 => case 3 => case 4 => case 5 => case 6 => case 7 =>
      case 8 => case 9 => case 10 => case 11 => case 12 => case 13 => case 14 => case _ =>
    }
    case 4 => match column {
      case 0 => case 1 => case 2 => case 3 => case 4 => case 5 => case 6 => case 7 =>
      case 8 => case 9 => case 10 => case 11 => case 12 => case 13 => case 14 => case _ =>
    }
    case 5 => match column {
      case 0 => case 1 => case 2 => case 3 => case 4 => case 5 => case 6 => case 7 =>
      case 8 => case 9 => case 10 => case 11 => case 12 => case 13 => case 14 => case _ =>
    }
    case 6 => match column {
      case 0 => case 1 => case 2 => case 3 => case 4 => case 5 => case 6 => case 7 =>
      case 8 => case 9 => case 10 => case 11 => case 12 => case 13 => case 14 => case _ =>
    }
    case 7 => match column {
      case 0 => case 1 => case 2 => case 3 => case 4 => case 5 => case 6 => case 7 =>
      case 8 => case 9 => case 10 => case 11 => case 12 => case 13 => case 14 => case _ =>
    }
    case 8 => match column {
      case 0 => case 1 => case 2 => case 3 => case 4 => case 5 => case 6 => case 7 =>
      case 8 => case 9 => case 10 => case 11 => case 12 => case 13 => case 14 => case _ =>
    }
    case 9 => match column {
      case 0 => case 1 => case 2 => case 3 => case 4 => case 5 => case 6 => case 7 =>
      case 8 => case 9 => case 10 => case 11 => case 12 => case 13 => case 14 => case _ =>
    }
    case 10 => match column {
      case 0 => case 1 => case 2 => case 3 => case 4 => case 5 => case 6 => case 7 =>
      case 8 => case 9 => case 10 => case 11 => case 12 => case 13 => case 14 => case _ =>
    }
    case 11 => match column {
      case 0 => case 1 => case 2 => case 3 => case 4 => case 5 => case 6 => case 7 =>
      case 8 => case 9 => case 10 => case 11 => case 12 => case 13 => case 14 => case _ =>
    }
    case 12 => match column {
      case 0 => case 1 => case 2 => case 3 => case 4 => case 5 => case 6 => case 7 =>
      case 8 => case 9 => case 10 => case 11 => case 12 => case 13 => case 14 => case _ =>
    }
    case 13 => match column {
      case 0 => case 1 => case 2 => case 3 => case 4 => case 5 => case 6 => case 7 =>
      case 8 => case 9 => case 10 => case 11 => case 12 => case 13 => case 14 => case _ =>
    }
    case 14 => match column {
      case 0 => case 1 => case 2 => case 3 => case 4 => case 5 => case 6 => case 7 =>
      case 8 => case 9 => case 10 => case 11 => case 12 => case 13 => case 14 => case _ =>
    }
    case _ => match column {
      case 0 => case 1 => case 2 => case 3 => case 4 => case 5 => case 6 => case 7 =>
      case 8 => case 9 => case 10 => case 11 => case 12 => case 13 => case 14 => case _ =>
    }
  }

  lemma NarrowRowIsRegister(row: bv8, column: bv8)
    requires row < 16 && column < 16
    ensures NarrowRow(row, column) == EightShifts8((row << 4) ^ column)
  {
    match row
    case 0 => match column {
      case 0 => case 1 => case 2 => case 3 => case 4 => case 5 => case 6 => case 7 =>
      case 8 => case 9 => case 10 => case 11 => case 12 => case 13 => case 14 => case _ =>
    }
    case 1 => match column {
      case 0 => case 1 => case 2 => case 3 => case 4 => case 5 => case 6 => case 7 =>
      case 8 => case 9 => case 10 => case 11 => case 12 => case 13 => case 14 => case _ =>
    }
    case 2 => match column {
      case 0 => case 1 => case 2 => case 3 => case 4 => case 5 => case 6 => case 7 =>
      case 8 => case 9 => case 10 => case 11 => case 12 => case 13 => case 14 => case _ =>
    }
    case 3 => match column {
      case 0 => case 1 => case 2 => case 3 => case 4 => case 5 => case 6 => case 7 =>
      case 8 => case 9 => case 10 => case 11 => case 12 => case 13 => case 14 => case _ =>
    }
    case 4 => match column {
      case 0 => case 1 => case 2 => case 3 => case 4 => case 5 => case 6 => case 7 =>
      case 8 => case 9 => case 10 => case 11 => case 12 => case 13 => case 14 => case _ =>
    }
    case 5 => match column {
      case 0 => case 1 => case 2 => case 3 => case 4 => case 5 => case 6 => case 7 =>
      case 8 => case 9 => case 10 => case 11 => case 12 => case 13 => case 14 => case _ =>
    }
    case 6 => match column {
      case 0 => case 1 => case 2 => case 3 => case 4 => case 5 => case 6 => case 7 =>
      case 8 => case 9 => case 10 => case 11 => case 12 => case 13 => case 14 => case _ =>
    }
    case 7 => match column {
      case 0 => case 1 => case 2 => case 3 => case 4 => case 5 => case 6 => case 7 =>
      case 8 => case 9 => case 10 => case 11 => case 12 => case 13 => case 14 => case _ =>
    }
    case 8 => match column {
      case 0 => case 1 => case 2 => case 3 => case 4 => case 5 => case 6 => case 7 =>
      case 8 => case 9 => case 10 => case 11 => case 12 => case 13 => case 14 => case _ =>
    }
    case 9 => match column {
      case 0 => case 1 => case 2 => case 3 => case 4 => case 5 => case 6 => case 7 =>
      case 8 => case 9 => case 10 => case 11 => case 12 => case 13 => case 14 => case _ =>
    }
    case 10 => match column {
      case 0 => case 1 => case 2 => case 3 => case 4 => case 5 => case 6 => case 7 =>
      case 8 => case 9 => case 10 => case 11 => case 12 => case 13 => case 14 => case _ =>
    }
    case 11 => match column {
      case 0 => case 1 => case 2 => case 3 => case 4 => case 5 => case 6 => case 7 =>
      case 8 => case 9 => case 10 => case 11 => case 12 => case 13 => case 14 => case _ =>
    }
    case 12 => match column {
      case 0 => case 1 => case 2 => case 3 => case 4 => case 5 => case 6 => case 7 =>
      case 8 => case 9 => case 10 => case 11 => case 12 => case 13 => case 14 => case _ =>
    }
    case 13 => match column {
      case 0 => case 1 => case 2 => case 3 => case 4 => case 5 => case 6 => case 7 =>
      case 8 => case 9 => case 10 => case 11 => case 12 => case 13 => case 14 => case _ =>
    }
    case 14 => match column {
      case 0 => case 1 => case 2 => case 3 => case 4 => case 5 => case 6 => case 7 =>
      case 8 => case 9 => case 10 => case 11 => case 12 => case 13 => case 14 => case _ =>
    }
    case _ => match column {
      case 0 => case 1 => case 2 => case 3 => case 4 => case 5 => case 6 => case 7 =>
      case 8 => case 9 => case 10 => case 11 => case 12 => case 13 => case 14 => case _ =>
    }
  }

  // Every entry of the 16-bit table is what eight steps of the register make of its
  // index.
  lemma WideTableIsRegister(index: bv8)
    ensures WideTable(index) == EightShifts(index as bv16)
  {
    hide WideRow, EightShifts;
    WideRowIsRegister(index >> 4, index & 15);
    assert ((index >> 4) as bv16 << 4) ^ (index & 15) as bv16 == index as bv16;
  }

  lemma NarrowTableIsRegister(index: bv8)
    ensures NarrowTable(index) == EightShifts8(index)
  {
    hide NarrowRow, EightShifts8;
    NarrowRowIsRegister(index >> 4, index & 15);
    assert ((index >> 4) << 4) ^ (index & 15) == index;
  }
}
