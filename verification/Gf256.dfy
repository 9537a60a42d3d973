/** The byte arithmetic behind the AES-128 block cipher of proto_crypto.cpp: the two substitution
    tables, multiplication in GF(2^8), and the one-byte facts on which the cipher's inverse law rests. */
module Gf256 {
  import opened Bytes

  // ---- Substitution tables.  Each is a search tree over the index whose leaves, read from top to
  // ---- bottom, are the 256 table entries in order.

  /** AES_SBOX, the forward substitution box. */
  function Sbox(x: bv8): bv8 {
    if x < 0x80 then
      if x < 0x40 then
        if x < 0x20 then
          if x < 0x10 then
            if x < 0x08 then
              if x < 0x04 then
                if x < 0x02 then if x < 0x01 then 0x63 else 0x7C else if x < 0x03 then 0x77 else 0x7B
              else
                if x < 0x06 then if x < 0x05 then 0xF2 else 0x6B else if x < 0x07 then 0x6F else 0xC5
            else
              if x < 0x0C then
                if x < 0x0A then if x < 0x09 then 0x30 else 0x01 else if x < 0x0B then 0x67 else 0x2B
              else
                if x < 0x0E then if x < 0x0D then 0xFE else 0xD7 else if x < 0x0F then 0xAB else 0x76
          else
            if x < 0x18 then
              if x < 0x14 then
                if x < 0x12 then if x < 0x11 then 0xCA else 0x82 else if x < 0x13 then 0xC9 else 0x7D
              else
                if x < 0x16 then if x < 0x15 then 0xFA else 0x59 else if x < 0x17 then 0x47 else 0xF0
            else
              if x < 0x1C then
                if x < 0x1A then if x < 0x19 then 0xAD else 0xD4 else if x < 0x1B then 0xA2 else 0xAF
              else
                if x < 0x1E then if x < 0x1D then 0x9C else 0xA4 else if x < 0x1F then 0x72 else 0xC0
        else
          if x < 0x30 then
            if x < 0x28 then
              if x < 0x24 then
                if x < 0x22 then if x < 0x21 then 0xB7 else 0xFD else if x < 0x23 then 0x93 else 0x26
              else
                if x < 0x26 then if x < 0x25 then 0x36 else 0x3F else if x < 0x27 then 0xF7 else 0xCC
            else
              if x < 0x2C then
                if x < 0x2A then if x < 0x29 then 0x34 else 0xA5 else if x < 0x2B then 0xE5 else 0xF1
              else
                if x < 0x2E then if x < 0x2D then 0x71 else 0xD8 else if x < 0x2F then 0x31 else 0x15
          else
            if x < 0x38 then
              if x < 0x34 then
                if x < 0x32 then if x < 0x31 then 0x04 else 0xC7 else if x < 0x33 then 0x23 else 0xC3
              else
                if x < 0x36 then if x < 0x35 then 0x18 else 0x96 else if x < 0x37 then 0x05 else 0x9A
            else
              if x < 0x3C then
                if x < 0x3A then if x < 0x39 then 0x07 else 0x12 else if x < 0x3B then 0x80 else 0xE2
              else
                if x < 0x3E then if x < 0x3D then 0xEB else 0x27 else if x < 0x3F then 0xB2 else 0x75
      else
        if x < 0x60 then
          if x < 0x50 then
            if x < 0x48 then
              if x < 0x44 then
                if x < 0x42 then if x < 0x41 then 0x09 else 0x83 else if x < 0x43 then 0x2C else 0x1A
              else
                if x < 0x46 then if x < 0x45 then 0x1B else 0x6E else if x < 0x47 then 0x5A else 0xA0
            else
              if x < 0x4C then
                if x < 0x4A then if x < 0x49 then 0x52 else 0x3B else if x < 0x4B then 0xD6 else 0xB3
              else
                if x < 0x4E then if x < 0x4D then 0x29 else 0xE3 else if x < 0x4F then 0x2F else 0x84
          else
            if x < 0x58 then
              if x < 0x54 then
                if x < 0x52 then if x < 0x51 then 0x53 else 0xD1 else if x < 0x53 then 0x00 else 0xED
              else
                if x < 0x56 then if x < 0x55 then 0x20 else 0xFC else if x < 0x57 then 0xB1 else 0x5B
            else
              if x < 0x5C then
                if x < 0x5A then if x < 0x59 then 0x6A else 0xCB else if x < 0x5B then 0xBE else 0x39
              else
                if x < 0x5E then if x < 0x5D then 0x4A else 0x4C else if x < 0x5F then 0x58 else 0xCF
        else
          if x < 0x70 then
            if x < 0x68 then
              if x < 0x64 then
                if x < 0x62 then if x < 0x61 then 0xD0 else 0xEF else if x < 0x63 then 0xAA else 0xFB
              else
                if x < 0x66 then if x < 0x65 then 0x43 else 0x4D else if x < 0x67 then 0x33 else 0x85
            else
              if x < 0x6C then
                if x < 0x6A then if x < 0x69 then 0x45 else 0xF9 else if x < 0x6B then 0x02 else 0x7F
              else
                if x < 0x6E then if x < 0x6D then 0x50 else 0x3C else if x < 0x6F then 0x9F else 0xA8
          else
            if x < 0x78 then
              if x < 0x74 then
                if x < 0x72 then if x < 0x71 then 0x51 else 0xA3 else if x < 0x73 then 0x40 else 0x8F
              else
                if x < 0x76 then if x < 0x75 then 0x92 else 0x9D else if x < 0x77 then 0x38 else 0xF5
            else
              if x < 0x7C then
                if x < 0x7A then if x < 0x79 then 0xBC else 0xB6 else if x < 0x7B then 0xDA else 0x21
              else
                if x < 0x7E then if x < 0x7D then 0x10 else 0xFF else if x < 0x7F then 0xF3 else 0xD2
    else
      if x < 0xC0 then
        if x < 0xA0 then
          if x < 0x90 then
            if x < 0x88 then
              if x < 0x84 then
                if x < 0x82 then if x < 0x81 then 0xCD else 0x0C else if x < 0x83 then 0x13 else 0xEC
              else
                if x < 0x86 then if x < 0x85 then 0x5F else 0x97 else if x < 0x87 then 0x44 else 0x17
            else
              if x < 0x8C then
                if x < 0x8A then if x < 0x89 then 0xC4 else 0xA7 else if x < 0x8B then 0x7E else 0x3D
              else
                if x < 0x8E then if x < 0x8D then 0x64 else 0x5D else if x < 0x8F then 0x19 else 0x73
          else
            if x < 0x98 then
              if x < 0x94 then
                if x < 0x92 then if x < 0x91 then 0x60 else 0x81 else if x < 0x93 then 0x4F else 0xDC
              else
                if x < 0x96 then if x < 0x95 then 0x22 else 0x2A else if x < 0x97 then 0x90 else 0x88
            else
              if x < 0x9C then
                if x < 0x9A then if x < 0x99 then 0x46 else 0xEE else if x < 0x9B then 0xB8 else 0x14
              else
                if x < 0x9E then if x < 0x9D then 0xDE else 0x5E else if x < 0x9F then 0x0B else 0xDB
        else
          if x < 0xB0 then
            if x < 0xA8 then
              if x < 0xA4 then
                if x < 0xA2 then if x < 0xA1 then 0xE0 else 0x32 else if x < 0xA3 then 0x3A else 0x0A
              else
                if x < 0xA6 then if x < 0xA5 then 0x49 else 0x06 else if x < 0xA7 then 0x24 else 0x5C
            else
              if x < 0xAC then
                if x < 0xAA then if x < 0xA9 then 0xC2 else 0xD3 else if x < 0xAB then 0xAC else 0x62
              else
                if x < 0xAE then if x < 0xAD then 0x91 else 0x95 else if x < 0xAF then 0xE4 else 0x79
          else
            if x < 0xB8 then
              if x < 0xB4 then
                if x < 0xB2 then if x < 0xB1 then 0xE7 else 0xC8 else if x < 0xB3 then 0x37 else 0x6D
              else
                if x < 0xB6 then if x < 0xB5 then 0x8D else 0xD5 else if x < 0xB7 then 0x4E else 0xA9
            else
              if x < 0xBC then
                if x < 0xBA then if x < 0xB9 then 0x6C else 0x56 else if x < 0xBB then 0xF4 else 0xEA
              else
                if x < 0xBE then if x < 0xBD then 0x65 else 0x7A else if x < 0xBF then 0xAE else 0x08
      else
        if x < 0xE0 then
          if x < 0xD0 then
            if x < 0xC8 then
              if x < 0xC4 then
                if x < 0xC2 then if x < 0xC1 then 0xBA else 0x78 else if x < 0xC3 then 0x25 else 0x2E
              else
                if x < 0xC6 then if x < 0xC5 then 0x1C else 0xA6 else if x < 0xC7 then 0xB4 else 0xC6
            else
              if x < 0xCC then
                if x < 0xCA then if x < 0xC9 then 0xE8 else 0xDD else if x < 0xCB then 0x74 else 0x1F
              else
                if x < 0xCE then if x < 0xCD then 0x4B else 0xBD else if x < 0xCF then 0x8B else 0x8A
          else
            if x < 0xD8 then
              if x < 0xD4 then
                if x < 0xD2 then if x < 0xD1 then 0x70 else 0x3E else if x < 0xD3 then 0xB5 else 0x66
              else
                if x < 0xD6 then if x < 0xD5 then 0x48 else 0x03 else if x < 0xD7 then 0xF6 else 0x0E
            else
              if x < 0xDC then
                if x < 0xDA then if x < 0xD9 then 0x61 else 0x35 else if x < 0xDB then 0x57 else 0xB9
              else
                if x < 0xDE then if x < 0xDD then 0x86 else 0xC1 else if x < 0xDF then 0x1D else 0x9E
        else
          if x < 0xF0 then
            if x < 0xE8 then
              if x < 0xE4 then
                if x < 0xE2 then if x < 0xE1 then 0xE1 else 0xF8 else if x < 0xE3 then 0x98 else 0x11
              else
                if x < 0xE6 then if x < 0xE5 then 0x69 else 0xD9 else if x < 0xE7 then 0x8E else 0x94
            else
              if x < 0xEC then
                if x < 0xEA then if x < 0xE9 then 0x9B else 0x1E else if x < 0xEB then 0x87 else 0xE9
              else
                if x < 0xEE then if x < 0xED then 0xCE else 0x55 else if x < 0xEF then 0x28 else 0xDF
          else
            if x < 0xF8 then
              if x < 0xF4 then
                if x < 0xF2 then if x < 0xF1 then 0x8C else 0xA1 else if x < 0xF3 then 0x89 else 0x0D
              else
                if x < 0xF6 then if x < 0xF5 then 0xBF else 0xE6 else if x < 0xF7 then 0x42 else 0x68
            else
              if x < 0xFC then
                if x < 0xFA then if x < 0xF9 then 0x41 else 0x99 else if x < 0xFB then 0x2D else 0x0F
              else
                if x < 0xFE then if x < 0xFD then 0xB0 else 0x54 else if x < 0xFF then 0xBB else 0x16
  }

  /** AES_INV_SBOX, the inverse substitution box. */
  function InvSbox(x: bv8): bv8 {
    if x < 0x80 then
      if x < 0x40 then
        if x < 0x20 then
          if x < 0x10 then
            if x < 0x08 then
              if x < 0x04 then
                if x < 0x02 then if x < 0x01 then 0x52 else 0x09 else if x < 0x03 then 0x6A else 0xD5
              else
                if x < 0x06 then if x < 0x05 then 0x30 else 0x36 else if x < 0x07 then 0xA5 else 0x38
            else
              if x < 0x0C then
                if x < 0x0A then if x < 0x09 then 0xBF else 0x40 else if x < 0x0B then 0xA3 else 0x9E
              else
                if x < 0x0E then if x < 0x0D then 0x81 else 0xF3 else if x < 0x0F then 0xD7 else 0xFB
          else
            if x < 0x18 then
              if x < 0x14 then
                if x < 0x12 then if x < 0x11 then 0x7C else 0xE3 else if x < 0x13 then 0x39 else 0x82
              else
                if x < 0x16 then if x < 0x15 then 0x9B else 0x2F else if x < 0x17 then 0xFF else 0x87
            else
              if x < 0x1C then
                if x < 0x1A then if x < 0x19 then 0x34 else 0x8E else if x < 0x1B then 0x43 else 0x44
              else
                if x < 0x1E then if x < 0x1D then 0xC4 else 0xDE else if x < 0x1F then 0xE9 else 0xCB
        else
          if x < 0x30 then
            if x < 0x28 then
              if x < 0x24 then
                if x < 0x22 then if x < 0x21 then 0x54 else 0x7B else if x < 0x23 then 0x94 else 0x32
              else
                if x < 0x26 then if x < 0x25 then 0xA6 else 0xC2 else if x < 0x27 then 0x23 else 0x3D
            else
              if x < 0x2C then
                if x < 0x2A then if x < 0x29 then 0xEE else 0x4C else if x < 0x2B then 0x95 else 0x0B
              else
                if x < 0x2E then if x < 0x2D then 0x42 else 0xFA else if x < 0x2F then 0xC3 else 0x4E
          else
            if x < 0x38 then
              if x < 0x34 then
                if x < 0x32 then if x < 0x31 then 0x08 else 0x2E else if x < 0x33 then 0xA1 else 0x66
              else
                if x < 0x36 then if x < 0x35 then 0x28 else 0xD9 else if x < 0x37 then 0x24 else 0xB2
            else
              if x < 0x3C then
                if x < 0x3A then if x < 0x39 then 0x76 else 0x5B else if x < 0x3B then 0xA2 else 0x49
              else
                if x < 0x3E then if x < 0x3D then 0x6D else 0x8B else if x < 0x3F then 0xD1 else 0x25
      else
        if x < 0x60 then
          if x < 0x50 then
            if x < 0x48 then
              if x < 0x44 then
                if x < 0x42 then if x < 0x41 then 0x72 else 0xF8 else if x < 0x43 then 0xF6 else 0x64
              else
                if x < 0x46 then if x < 0x45 then 0x86 else 0x68 else if x < 0x47 then 0x98 else 0x16
            else
              if x < 0x4C then
                if x < 0x4A then if x < 0x49 then 0xD4 else 0xA4 else if x < 0x4B then 0x5C else 0xCC
              else
                if x < 0x4E then if x < 0x4D then 0x5D else 0x65 else if x < 0x4F then 0xB6 else 0x92
          else
            if x < 0x58 then
              if x < 0x54 then
                if x < 0x52 then if x < 0x51 then 0x6C else 0x70 else if x < 0x53 then 0x48 else 0x50
              else
                if x < 0x56 then if x < 0x55 then 0xFD else 0xED else if x < 0x57 then 0xB9 else 0xDA
            else
              if x < 0x5C then
                if x < 0x5A then if x < 0x59 then 0x5E else 0x15 else if x < 0x5B then 0x46 else 0x57
              else
                if x < 0x5E then if x < 0x5D then 0xA7 else 0x8D else if x < 0x5F then 0x9D else 0x84
        else
          if x < 0x70 then
            if x < 0x68 then
              if x < 0x64 then
                if x < 0x62 then if x < 0x61 then 0x90 else 0xD8 else if x < 0x63 then 0xAB else 0x00
              else
                if x < 0x66 then if x < 0x65 then 0x8C else 0xBC else if x < 0x67 then 0xD3 else 0x0A
            else
              if x < 0x6C then
                if x < 0x6A then if x < 0x69 then 0xF7 else 0xE4 else if x < 0x6B then 0x58 else 0x05
              else
                if x < 0x6E then if x < 0x6D then 0xB8 else 0xB3 else if x < 0x6F then 0x45 else 0x06
          else
            if x < 0x78 then
              if x < 0x74 then
                if x < 0x72 then if x < 0x71 then 0xD0 else 0x2C else if x < 0x73 then 0x1E else 0x8F
              else
                if x < 0x76 then if x < 0x75 then 0xCA else 0x3F else if x < 0x77 then 0x0F else 0x02
            else
              if x < 0x7C then
                if x < 0x7A then if x < 0x79 then 0xC1 else 0xAF else if x < 0x7B then 0xBD else 0x03
              else
                if x < 0x7E then if x < 0x7D then 0x01 else 0x13 else if x < 0x7F then 0x8A else 0x6B
    else
      if x < 0xC0 then
        if x < 0xA0 then
          if x < 0x90 then
            if x < 0x88 then
              if x < 0x84 then
                if x < 0x82 then if x < 0x81 then 0x3A else 0x91 else if x < 0x83 then 0x11 else 0x41
              else
                if x < 0x86 then if x < 0x85 then 0x4F else 0x67 else if x < 0x87 then 0xDC else 0xEA
            else
              if x < 0x8C then
                if x < 0x8A then if x < 0x89 then 0x97 else 0xF2 else if x < 0x8B then 0xCF else 0xCE
              else
                if x < 0x8E then if x < 0x8D then 0xF0 else 0xB4 else if x < 0x8F then 0xE6 else 0x73
          else
            if x < 0x98 then
              if x < 0x94 then
                if x < 0x92 then if x < 0x91 then 0x96 else 0xAC else if x < 0x93 then 0x74 else 0x22
              else
                if x < 0x96 then if x < 0x95 then 0xE7 else 0xAD else if x < 0x97 then 0x35 else 0x85
            else
              if x < 0x9C then
                if x < 0x9A then if x < 0x99 then 0xE2 else 0xF9 else if x < 0x9B then 0x37 else 0xE8
              else
                if x < 0x9E then if x < 0x9D then 0x1C else 0x75 else if x < 0x9F then 0xDF else 0x6E
        else
          if x < 0xB0 then
            if x < 0xA8 then
              if x < 0xA4 then
                if x < 0xA2 then if x < 0xA1 then 0x47 else 0xF1 else if x < 0xA3 then 0x1A else 0x71
              else
                if x < 0xA6 then if x < 0xA5 then 0x1D else 0x29 else if x < 0xA7 then 0xC5 else 0x89
            else
              if x < 0xAC then
                if x < 0xAA then if x < 0xA9 then 0x6F else 0xB7 else if x < 0xAB then 0x62 else 0x0E
              else
                if x < 0xAE then if x < 0xAD then 0xAA else 0x18 else if x < 0xAF then 0xBE else 0x1B
          else
            if x < 0xB8 then
              if x < 0xB4 then
                if x < 0xB2 then if x < 0xB1 then 0xFC else 0x56 else if x < 0xB3 then 0x3E else 0x4B
              else
                if x < 0xB6 then if x < 0xB5 then 0xC6 else 0xD2 else if x < 0xB7 then 0x79 else 0x20
            else
              if x < 0xBC then
                if x < 0xBA then if x < 0xB9 then 0x9A else 0xDB else if x < 0xBB then 0xC0 else 0xFE
              else
                if x < 0xBE then if x < 0xBD then 0x78 else 0xCD else if x < 0xBF then 0x5A else 0xF4
      else
        if x < 0xE0 then
          if x < 0xD0 then
            if x < 0xC8 then
              if x < 0xC4 then
                if x < 0xC2 then if x < 0xC1 then 0x1F else 0xDD else if x < 0xC3 then 0xA8 else 0x33
              else
                if x < 0xC6 then if x < 0xC5 then 0x88 else 0x07 else if x < 0xC7 then 0xC7 else 0x31
            else
              if x < 0xCC then
                if x < 0xCA then if x < 0xC9 then 0xB1 else 0x12 else if x < 0xCB then 0x10 else 0x59
              else
                if x < 0xCE then if x < 0xCD then 0x27 else 0x80 else if x < 0xCF then 0xEC else 0x5F
          else
            if x < 0xD8 then
              if x < 0xD4 then
                if x < 0xD2 then if x < 0xD1 then 0x60 else 0x51 else if x < 0xD3 then 0x7F else 0xA9
              else
                if x < 0xD6 then if x < 0xD5 then 0x19 else 0xB5 else if x < 0xD7 then 0x4A else 0x0D
            else
              if x < 0xDC then
                if x < 0xDA then if x < 0xD9 then 0x2D else 0xE5 else if x < 0xDB then 0x7A else 0x9F
              else
                if x < 0xDE then if x < 0xDD then 0x93 else 0xC9 else if x < 0xDF then 0x9C else 0xEF
        else
          if x < 0xF0 then
            if x < 0xE8 then
              if x < 0xE4 then
                if x < 0xE2 then if x < 0xE1 then 0xA0 else 0xE0 else if x < 0xE3 then 0x3B else 0x4D
              else
                if x < 0xE6 then if x < 0xE5 then 0xAE else 0x2A else if x < 0xE7 then 0xF5 else 0xB0
            else
              if x < 0xEC then
                if x < 0xEA then if x < 0xE9 then 0xC8 else 0xEB else if x < 0xEB then 0xBB else 0x3C
              else
                if x < 0xEE then if x < 0xED then 0x83 else 0x53 else if x < 0xEF then 0x99 else 0x61
          else
            if x < 0xF8 then
              if x < 0xF4 then
                if x < 0xF2 then if x < 0xF1 then 0x17 else 0x2B else if x < 0xF3 then 0x04 else 0x7E
              else
                if x < 0xF6 then if x < 0xF5 then 0xBA else 0x77 else if x < 0xF7 then 0xD6 else 0x26
            else
              if x < 0xFC then
                if x < 0xFA then if x < 0xF9 then 0xE1 else 0x69 else if x < 0xFB then 0x14 else 0x63
              else
                if x < 0xFE then if x < 0xFD then 0x55 else 0x21 else if x < 0xFF then 0x0C else 0x7D
  }

  /** Each table undoes the other, so SubBytes is a permutation of the byte values. */
  lemma SboxLeftInverse(x: byte)
    ensures InvSbox(Sbox(x)) == x
  {
  }

  lemma SboxRightInverse(x: byte)
    ensures Sbox(InvSbox(x)) == x
  {
  }

  // ---- Multiplication in GF(2^8)

  /** Multiplication by the polynomial x: shift left, reduce by 0x1B when a bit falls out. */
  function XTime(v: byte): byte {
    if v & 0x80 != 0 then (v << 1) ^ 0x1B else v << 1
  }

  /** The product computed by aes_mul: one conditional addition for every bit of `factor`. */
  function Mul(value: byte, factor: nat): byte
    decreases factor
  {
    if factor == 0 then 0
    else if factor % 2 != 0 then Xor(value, Mul(XTime(value), factor / 2))
    else Mul(XTime(value), factor / 2)
  }

  method AesMul(value: byte, factor: nat) returns (result: byte)
    ensures result == Mul(value, factor)
  {
    hide Xor;
    result := 0;
    var v, f := value, factor;
    XorZero(Mul(v, f));
    while f != 0
      invariant Xor(result, Mul(v, f)) == Mul(value, factor)
    {
      if f % 2 != 0 {
        XorAssoc(result, v, Mul(XTime(v), f / 2));
        result := Xor(result, v);
      }
      v := XTime(v);
      f := f / 2;
    }
    XorZero(result);
  }

  lemma ShiftXor(x: byte, y: byte)
    ensures (x ^ y) << 1 == (x << 1) ^ (y << 1)
    ensures ((x ^ y) & 0x80 != 0) == ((x & 0x80 != 0) != (y & 0x80 != 0))
  {
  }

  lemma XTimeXor(x: byte, y: byte)
    ensures XTime(Xor(x, y)) == Xor(XTime(x), XTime(y))
  {
    ShiftXor(x, y);
    if x & 0x80 != 0 {
      if y & 0x80 != 0 {
      } else {
      }
    } else {
    }
  }

  /** Multiplication distributes over addition, which is xor. */
  lemma {:induction false} MulXor(x: byte, y: byte, f: nat)
    ensures Mul(Xor(x, y), f) == Xor(Mul(x, f), Mul(y, f))
    decreases f
  {
    hide XTime, Xor;
    XorZero(0);
    if f != 0 {
      XTimeXor(x, y);
      MulXor(XTime(x), XTime(y), f / 2);
      if f % 2 != 0 {
        XorSwap(x, y, Mul(XTime(x), f / 2), Mul(XTime(y), f / 2));
      }
    }
  }

  /** The sum of four bytes, as MixColumns forms it. */
  function Xor4(a: byte, b: byte, c: byte, d: byte): byte {
    Xor(Xor(a, b), Xor(c, d))
  }

  lemma MulXor4(a: byte, b: byte, c: byte, d: byte, f: nat)
    ensures Mul(Xor4(a, b, c, d), f) == Xor4(Mul(a, f), Mul(b, f), Mul(c, f), Mul(d, f))
  {
    hide Mul, Xor;
    MulXor(a, b, f);
    MulXor(c, d, f);
    MulXor(Xor(a, b), Xor(c, d), f);
  }

  lemma {:induction false} MulXTime(x: byte, f: nat)
    ensures Mul(XTime(x), f) == XTime(Mul(x, f))
    decreases f
  {
    if f != 0 {
      hide XTime, Xor;
      MulXTime(XTime(x), f / 2);
      XTimeXor(x, Mul(XTime(x), f / 2));
    }
  }

  /** Two factors may be applied in either order. */
  lemma {:induction false} MulComm(x: byte, f: nat, g: nat)
    ensures Mul(Mul(x, f), g) == Mul(Mul(x, g), f)
    decreases f
  {
    hide XTime, Xor;
    if f == 0 {
      MulOfZero(g);
    } else {
      MulComm(XTime(x), f / 2, g);
      MulXTime(x, g);
      MulXor(x, Mul(XTime(x), f / 2), g);
    }
  }

  lemma {:induction false} MulOfZero(f: nat)
    ensures Mul(0, f) == 0
  {
    if f != 0 {
      MulOfZero(f / 2);
      XorZero(0);
    }
  }

  /** The factors 1, 2 and 3 of MixColumns in terms of XTime. */
  lemma MulSmall(x: byte)
    ensures Mul(x, 1) == x
    ensures Mul(x, 2) == XTime(x)
    ensures Mul(x, 3) == Xor(x, XTime(x))
  {
    hide XTime, Xor;
    XorZero(x);
    XorZero(XTime(x));
    assert Mul(XTime(x), 1) == XTime(x);
  }

  /** The factors 9, 11, 13 and 14 of InvMixColumns in terms of XTime. */
  lemma MulLarge(x: byte)
    ensures var t1 := XTime(x); var t2 := XTime(t1); var t3 := XTime(t2);
            && Mul(x, 0x09) == Xor(x, t3)
            && Mul(x, 0x0B) == Xor(x, Xor(t1, t3))
            && Mul(x, 0x0D) == Xor(x, Xor(t2, t3))
            && Mul(x, 0x0E) == Xor(t1, Xor(t2, t3))
  {
    hide XTime, Xor;
    var t1 := XTime(x);
    var t2 := XTime(t1);
    MulSmall(t2);
    assert Mul(t1, 4) == Mul(t2, 2);
    assert Mul(t1, 5) == Xor(t1, Mul(t2, 2));
    assert Mul(t1, 6) == Mul(t2, 3);
    assert Mul(t1, 7) == Xor(t1, Mul(t2, 3));
  }

  // ---- One byte of MixColumns and of its inverse

  /** A byte of a mixed column (section 5.1.3 of FIPS 197); `a0` is the byte in its own row. */
  function MixByte(a0: byte, a1: byte, a2: byte, a3: byte): byte {
    Xor4(Mul(a0, 2), Mul(a1, 3), a2, a3)
  }

  /** A byte of an inversely mixed column (section 5.3.3 of FIPS 197). */
  function InvMixByte(a0: byte, a1: byte, a2: byte, a3: byte): byte {
    Xor4(Mul(a0, 0x0E), Mul(a1, 0x0B), Mul(a2, 0x0D), Mul(a3, 0x09))
  }

  /** Four-by-four sums may be taken by rows or by columns. */
  lemma Transpose(a0: byte, a1: byte, a2: byte, a3: byte, b0: byte, b1: byte, b2: byte, b3: byte,
                  c0: byte, c1: byte, c2: byte, c3: byte, d0: byte, d1: byte, d2: byte, d3: byte)
    ensures Xor4(Xor4(a0, a1, a2, a3), Xor4(b0, b1, b2, b3), Xor4(c0, c1, c2, c3), Xor4(d0, d1, d2, d3))
         == Xor4(Xor4(a0, b0, c0, d0), Xor4(a1, b1, c1, d1), Xor4(a2, b2, c2, d2), Xor4(a3, b3, c3, d3))
  {
    hide Xor;
    Xor4Swap(a0, a1, a2, a3, b0, b1, b2, b3);
    Xor4Swap(c0, c1, c2, c3, d0, d1, d2, d3);
    Xor4Swap(Xor(a0, b0), Xor(a1, b1), Xor(a2, b2), Xor(a3, b3),
             Xor(c0, d0), Xor(c1, d1), Xor(c2, d2), Xor(c3, d3));
  }

  lemma Xor4Swap(a0: byte, a1: byte, a2: byte, a3: byte, b0: byte, b1: byte, b2: byte, b3: byte)
    ensures Xor(Xor4(a0, a1, a2, a3), Xor4(b0, b1, b2, b3))
         == Xor4(Xor(a0, b0), Xor(a1, b1), Xor(a2, b2), Xor(a3, b3))
  {
    hide Xor;
    XorSwap(Xor(a0, a1), Xor(a2, a3), Xor(b0, b1), Xor(b2, b3));
    XorSwap(a0, a1, b0, b1);
    XorSwap(a2, a3, b2, b3);
  }

  /** The sixteen products of the two coefficient polynomials, bit by bit: `t1` to `t4` stand for x
      multiplied by the first four powers of the generator, and all powers but one copy of x cancel. */
  lemma SumBits(x: byte, t1: byte, t2: byte, t3: byte, t4: byte, i: nat)
    requires i < 8
    ensures Bit(Xor4(Xor(t2, Xor(t3, t4)), Xor(x, Xor(t1, t3)), Xor(x, Xor(t2, t3)), Xor(Xor(x, t3), Xor(t1, t4))), i)
         == Bit(x, i)
    ensures !Bit(Xor4(Xor(Xor(t1, Xor(t2, t3)), Xor(t2, Xor(t3, t4))), Xor(t1, Xor(t2, t4)), Xor(x, Xor(t2, t3)),
                      Xor(x, t3)), i)
    ensures !Bit(Xor4(Xor(t1, Xor(t2, t3)), Xor(Xor(x, Xor(t1, t3)), Xor(t1, Xor(t2, t4))), Xor(t1, Xor(t3, t4)),
                      Xor(x, t3)), i)
    ensures !Bit(Xor4(Xor(t1, Xor(t2, t3)), Xor(x, Xor(t1, t3)), Xor(Xor(x, Xor(t2, t3)), Xor(t1, Xor(t3, t4))),
                      Xor(t1, t4)), i)
  {
    hide Xor, Bit;
    BitsXor(i);
  }

  /** What one byte of a column contributes to InvMixColumns after MixColumns: itself in its own row
      and nothing in the other three. */
  lemma Contribution(x: byte)
    ensures Xor4(Mul(Mul(x, 2), 0x0E), Mul(x, 0x0B), Mul(x, 0x0D), Mul(Mul(x, 3), 0x09)) == x
    ensures Xor4(Mul(Mul(x, 3), 0x0E), Mul(Mul(x, 2), 0x0B), Mul(x, 0x0D), Mul(x, 0x09)) == 0
    ensures Xor4(Mul(x, 0x0E), Mul(Mul(x, 3), 0x0B), Mul(Mul(x, 2), 0x0D), Mul(x, 0x09)) == 0
    ensures Xor4(Mul(x, 0x0E), Mul(x, 0x0B), Mul(Mul(x, 3), 0x0D), Mul(Mul(x, 2), 0x09)) == 0
  {
    hide Mul, XTime, Xor, Xor4, Bit;
    var t1 := XTime(x);
    MulSmall(x);
    MulLarge(x);
    MulLarge(t1);
    MulXor(x, t1, 0x09);
    MulXor(x, t1, 0x0B);
    MulXor(x, t1, 0x0D);
    MulXor(x, t1, 0x0E);
    var t2, t3 := XTime(t1), XTime(XTime(t1));
    forall i | 0 <= i < 8
      ensures Bit(Xor4(Mul(Mul(x, 2), 0x0E), Mul(x, 0x0B), Mul(x, 0x0D), Mul(Mul(x, 3), 0x09)), i) == Bit(x, i)
      ensures Bit(Xor4(Mul(Mul(x, 3), 0x0E), Mul(Mul(x, 2), 0x0B), Mul(x, 0x0D), Mul(x, 0x09)), i) == Bit(0, i)
      ensures Bit(Xor4(Mul(x, 0x0E), Mul(Mul(x, 3), 0x0B), Mul(Mul(x, 2), 0x0D), Mul(x, 0x09)), i) == Bit(0, i)
      ensures Bit(Xor4(Mul(x, 0x0E), Mul(x, 0x0B), Mul(Mul(x, 3), 0x0D), Mul(Mul(x, 2), 0x09)), i) == Bit(0, i)
    {
      BitsXor(i);
      SumBits(x, t1, t2, t3, XTime(t3), i);
    }
    BitsEqual(Xor4(Mul(Mul(x, 2), 0x0E), Mul(x, 0x0B), Mul(x, 0x0D), Mul(Mul(x, 3), 0x09)), x);
    BitsEqual(Xor4(Mul(Mul(x, 3), 0x0E), Mul(Mul(x, 2), 0x0B), Mul(x, 0x0D), Mul(x, 0x09)), 0);
    BitsEqual(Xor4(Mul(x, 0x0E), Mul(Mul(x, 3), 0x0B), Mul(Mul(x, 2), 0x0D), Mul(x, 0x09)), 0);
    BitsEqual(Xor4(Mul(x, 0x0E), Mul(x, 0x0B), Mul(Mul(x, 3), 0x0D), Mul(Mul(x, 2), 0x09)), 0);
  }

  /** InvMixColumns undoes MixColumns, one byte of the column at a time. */
  lemma InvMixMix(a0: byte, a1: byte, a2: byte, a3: byte)
    ensures InvMixByte(MixByte(a0, a1, a2, a3), MixByte(a1, a2, a3, a0),
                       MixByte(a2, a3, a0, a1), MixByte(a3, a0, a1, a2)) == a0
  {
    hide Mul, Xor, Xor4;
    MulXor4(Mul(a0, 2), Mul(a1, 3), a2, a3, 0x0E);
    MulXor4(Mul(a1, 2), Mul(a2, 3), a3, a0, 0x0B);
    MulXor4(Mul(a2, 2), Mul(a3, 3), a0, a1, 0x0D);
    MulXor4(Mul(a3, 2), Mul(a0, 3), a1, a2, 0x09);
    Xor4Rotate(Mul(Mul(a1, 2), 0x0B), Mul(Mul(a2, 3), 0x0B), Mul(a3, 0x0B), Mul(a0, 0x0B));
    Xor4Rotate(Mul(a0, 0x0D), Mul(a1, 0x0D), Mul(Mul(a2, 2), 0x0D), Mul(Mul(a3, 3), 0x0D));
    Xor4Rotate(Mul(a1, 0x09), Mul(a2, 0x09), Mul(Mul(a3, 2), 0x09), Mul(Mul(a0, 3), 0x09));
    Transpose(Mul(Mul(a0, 2), 0x0E), Mul(Mul(a1, 3), 0x0E), Mul(a2, 0x0E), Mul(a3, 0x0E),
              Mul(a0, 0x0B), Mul(Mul(a1, 2), 0x0B), Mul(Mul(a2, 3), 0x0B), Mul(a3, 0x0B),
              Mul(a0, 0x0D), Mul(a1, 0x0D), Mul(Mul(a2, 2), 0x0D), Mul(Mul(a3, 3), 0x0D),
              Mul(Mul(a0, 3), 0x09), Mul(a1, 0x09), Mul(a2, 0x09), Mul(Mul(a3, 2), 0x09));
    Contribution(a0);
    Contribution(a1);
    Contribution(a2);
    Contribution(a3);
    Xor4Single(a0);
  }

  lemma Xor4Perm(a: byte, b: byte, c: byte, d: byte)
    ensures Xor4(a, b, c, d) == Xor4(a, d, c, b) == Xor4(b, a, d, c) == Xor4(c, b, a, d) == Xor4(d, c, b, a)
  {
    hide Xor;
    XorSwap(a, b, c, d);
    XorComm(a, b);
    XorComm(c, d);
    XorComm(b, d);
    XorComm(a, c);
    XorSwap(c, b, a, d);
    XorSwap(a, d, c, b);
    XorComm(Xor(a, b), Xor(c, d));
    XorComm(Xor(a, c), Xor(b, d));
  }

  /** MixColumns undoes InvMixColumns, one byte of the column at a time. */
  lemma MixInvMix(a0: byte, a1: byte, a2: byte, a3: byte)
    ensures MixByte(InvMixByte(a0, a1, a2, a3), InvMixByte(a1, a2, a3, a0),
                    InvMixByte(a2, a3, a0, a1), InvMixByte(a3, a0, a1, a2)) == a0
  {
    hide Mul, Xor, Xor4;
    MulXor4(Mul(a0, 0x0E), Mul(a1, 0x0B), Mul(a2, 0x0D), Mul(a3, 0x09), 2);
    MulXor4(Mul(a1, 0x0E), Mul(a2, 0x0B), Mul(a3, 0x0D), Mul(a0, 0x09), 3);
    Xor4Rotate(Mul(Mul(a1, 0x0E), 3), Mul(Mul(a2, 0x0B), 3), Mul(Mul(a3, 0x0D), 3), Mul(Mul(a0, 0x09), 3));
    Xor4Rotate(Mul(a2, 0x0E), Mul(a3, 0x0B), Mul(a0, 0x0D), Mul(a1, 0x09));
    Xor4Rotate(Mul(a3, 0x0E), Mul(a0, 0x0B), Mul(a1, 0x0D), Mul(a2, 0x09));
    Transpose(Mul(Mul(a0, 0x0E), 2), Mul(Mul(a1, 0x0B), 2), Mul(Mul(a2, 0x0D), 2), Mul(Mul(a3, 0x09), 2),
              Mul(Mul(a0, 0x09), 3), Mul(Mul(a1, 0x0E), 3), Mul(Mul(a2, 0x0B), 3), Mul(Mul(a3, 0x0D), 3),
              Mul(a0, 0x0D), Mul(a1, 0x09), Mul(a2, 0x0E), Mul(a3, 0x0B),
              Mul(a0, 0x0B), Mul(a1, 0x0D), Mul(a2, 0x09), Mul(a3, 0x0E));
    InvContribution(a0);
    InvContribution(a1);
    InvContribution(a2);
    InvContribution(a3);
    Xor4Single(a0);
  }

  /** The same cancellations with the factors applied in the other order. */
  lemma InvContribution(x: byte)
    ensures Xor4(Mul(Mul(x, 0x0E), 2), Mul(Mul(x, 0x09), 3), Mul(x, 0x0D), Mul(x, 0x0B)) == x
    ensures Xor4(Mul(Mul(x, 0x0B), 2), Mul(Mul(x, 0x0E), 3), Mul(x, 0x09), Mul(x, 0x0D)) == 0
    ensures Xor4(Mul(Mul(x, 0x0D), 2), Mul(Mul(x, 0x0B), 3), Mul(x, 0x0E), Mul(x, 0x09)) == 0
    ensures Xor4(Mul(Mul(x, 0x09), 2), Mul(Mul(x, 0x0D), 3), Mul(x, 0x0B), Mul(x, 0x0E)) == 0
  {
    hide Mul, Xor, Xor4;
    Contribution(x);
    MulComm(x, 2, 0x0E);
    MulComm(x, 2, 0x0B);
    MulComm(x, 2, 0x0D);
    MulComm(x, 2, 0x09);
    MulComm(x, 3, 0x0E);
    MulComm(x, 3, 0x0B);
    MulComm(x, 3, 0x0D);
    MulComm(x, 3, 0x09);
    Xor4Perm(Mul(Mul(x, 2), 0x0E), Mul(x, 0x0B), Mul(x, 0x0D), Mul(Mul(x, 3), 0x09));
    Xor4Perm(Mul(Mul(x, 3), 0x0E), Mul(Mul(x, 2), 0x0B), Mul(x, 0x0D), Mul(x, 0x09));
    Xor4Perm(Mul(x, 0x0E), Mul(Mul(x, 3), 0x0B), Mul(Mul(x, 2), 0x0D), Mul(x, 0x09));
    Xor4Perm(Mul(x, 0x0E), Mul(x, 0x0B), Mul(Mul(x, 3), 0x0D), Mul(Mul(x, 2), 0x09));
  }

  lemma Xor4Rotate(a: byte, b: byte, c: byte, d: byte)
    ensures Xor4(a, b, c, d) == Xor4(b, c, d, a) == Xor4(c, d, a, b) == Xor4(d, a, b, c)
  {
    hide Xor;
    XorComm(a, b);
    XorComm(d, a);
    XorComm(c, d);
    XorComm(Xor(a, b), Xor(c, d));
    XorComm(Xor(b, c), Xor(d, a));
    XorSwap(b, a, c, d);
  }

  /** Four bytes added from left to right, as the source writes its sums. */
  function SumOfFour(a: byte, b: byte, c: byte, d: byte): byte {
    Xor(Xor(Xor(a, b), c), d)
  }

  lemma SumOfFourIsXor4(a: byte, b: byte, c: byte, d: byte)
    ensures SumOfFour(a, b, c, d) == Xor4(a, b, c, d)
  {
    hide Xor;
    XorAssoc(Xor(a, b), c, d);
  }

  lemma Xor4Single(a: byte)
    ensures Xor4(a, 0, 0, 0) == a
  {
  }

  // ---- The tables against their definition (sections 4.2 and 5.1.1 of FIPS 197)

  /** Doubling written without a branch. */
  function Double(v: byte): byte {
    ((v << 1) & 0xFE) ^ ((0 - (v >> 7)) & 0x1B)
  }

  lemma DoubleIsXTime(v: byte)
    ensures Double(v) == XTime(v)
  {
    if v & 0x80 != 0 {
    } else {
    }
  }

  /** The product of two bytes in the field: the doublings of `x` that the bits of `y` select, added up. */
  function Product(x: byte, y: byte): byte {
    var x1 := Double(x);
    var x2 := Double(x1);
    var x3 := Double(x2);
    var x4 := Double(x3);
    var x5 := Double(x4);
    var x6 := Double(x5);
    var x7 := Double(x6);
    ((0 - (y & 1)) & x) ^ ((0 - ((y >> 1) & 1)) & x1) ^ ((0 - ((y >> 2) & 1)) & x2) ^ ((0 - ((y >> 3) & 1)) & x3)
    ^ ((0 - ((y >> 4) & 1)) & x4) ^ ((0 - ((y >> 5) & 1)) & x5) ^ ((0 - ((y >> 6) & 1)) & x6)
    ^ ((0 - ((y >> 7) & 1)) & x7)
  }

  /** The affine map: every bit is the sum of five, and 0x63 is added. */
  function Affine(y: byte): byte {
    y ^ ((y << 1) | (y >> 7)) ^ ((y << 2) | (y >> 6)) ^ ((y << 3) | (y >> 5)) ^ ((y << 4) | (y >> 4)) ^ 0x63
  }

  function Unaffine(s: byte): byte {
    ((s << 1) | (s >> 7)) ^ ((s << 3) | (s >> 5)) ^ ((s << 6) | (s >> 2)) ^ 0x05
  }

  lemma AffineUnaffine(s: byte)
    ensures Affine(Unaffine(s)) == s
  {
  }

  /** The table, taken back through the affine map, gives the multiplicative inverse of the index. */
  predicate Inverted(x: byte) {
    x == 0 || Product(x, Unaffine(Sbox(x))) == 1
  }

  /** The sixteen indices that begin with the same four bits. */
  predicate RowInverted(r: byte) {
    && Inverted(r | 0x0) && Inverted(r | 0x1) && Inverted(r | 0x2) && Inverted(r | 0x3)
    && Inverted(r | 0x4) && Inverted(r | 0x5) && Inverted(r | 0x6) && Inverted(r | 0x7)
    && Inverted(r | 0x8) && Inverted(r | 0x9) && Inverted(r | 0xA) && Inverted(r | 0xB)
    && Inverted(r | 0xC) && Inverted(r | 0xD) && Inverted(r | 0xE) && Inverted(r | 0xF)
  }

  lemma Row0()
    ensures RowInverted(0x00)
  {
    assert Inverted(0x00) && Inverted(0x01) && Inverted(0x02) && Inverted(0x03) && Inverted(0x04)
           && Inverted(0x05) && Inverted(0x06) && Inverted(0x07) && Inverted(0x08) && Inverted(0x09)
           && Inverted(0x0A) && Inverted(0x0B) && Inverted(0x0C) && Inverted(0x0D) && Inverted(0x0E) && Inverted(0x0F);
    hide Inverted;
  }

  lemma Row1()
    ensures RowInverted(0x10)
  {
    assert Inverted(0x10) && Inverted(0x11) && Inverted(0x12) && Inverted(0x13) && Inverted(0x14)
           && Inverted(0x15) && Inverted(0x16) && Inverted(0x17) && Inverted(0x18) && Inverted(0x19)
           && Inverted(0x1A) && Inverted(0x1B) && Inverted(0x1C) && Inverted(0x1D) && Inverted(0x1E) && Inverted(0x1F);
    hide Inverted;
  }

  lemma Row2()
    ensures RowInverted(0x20)
  {
    assert Inverted(0x20) && Inverted(0x21) && Inverted(0x22) && Inverted(0x23) && Inverted(0x24)
           && Inverted(0x25) && Inverted(0x26) && Inverted(0x27) && Inverted(0x28) && Inverted(0x29)
           && Inverted(0x2A) && Inverted(0x2B) && Inverted(0x2C) && Inverted(0x2D) && Inverted(0x2E) && Inverted(0x2F);
    hide Inverted;
  }

  lemma Row3()
    ensures RowInverted(0x30)
  {
    assert Inverted(0x30) && Inverted(0x31) && Inverted(0x32) && Inverted(0x33) && Inverted(0x34)
           && Inverted(0x35) && Inverted(0x36) && Inverted(0x37) && Inverted(0x38) && Inverted(0x39)
           && Inverted(0x3A) && Inverted(0x3B) && Inverted(0x3C) && Inverted(0x3D) && Inverted(0x3E) && Inverted(0x3F);
    hide Inverted;
  }

  lemma Row4()
    ensures RowInverted(0x40)
  {
    assert Inverted(0x40) && Inverted(0x41) && Inverted(0x42) && Inverted(0x43) && Inverted(0x44)
           && Inverted(0x45) && Inverted(0x46) && Inverted(0x47) && Inverted(0x48) && Inverted(0x49)
           && Inverted(0x4A) && Inverted(0x4B) && Inverted(0x4C) && Inverted(0x4D) && Inverted(0x4E) && Inverted(0x4F);
    hide Inverted;
  }

  lemma Row5()
    ensures RowInverted(0x50)
  {
    assert Inverted(0x50) && Inverted(0x51) && Inverted(0x52) && Inverted(0x53) && Inverted(0x54)
           && Inverted(0x55) && Inverted(0x56) && Inverted(0x57) && Inverted(0x58) && Inverted(0x59)
           && Inverted(0x5A) && Inverted(0x5B) && Inverted(0x5C) && Inverted(0x5D) && Inverted(0x5E) && Inverted(0x5F);
    hide Inverted;
  }

  lemma Row6()
    ensures RowInverted(0x60)
  {
    assert Inverted(0x60) && Inverted(0x61) && Inverted(0x62) && Inverted(0x63) && Inverted(0x64)
           && Inverted(0x65) && Inverted(0x66) && Inverted(0x67) && Inverted(0x68) && Inverted(0x69)
           && Inverted(0x6A) && Inverted(0x6B) && Inverted(0x6C) && Inverted(0x6D) && Inverted(0x6E) && Inverted(0x6F);
    hide Inverted;
  }

  lemma Row7()
    ensures RowInverted(0x70)
  {
    assert Inverted(0x70) && Inverted(0x71) && Inverted(0x72) && Inverted(0x73) && Inverted(0x74)
           && Inverted(0x75) && Inverted(0x76) && Inverted(0x77) && Inverted(0x78) && Inverted(0x79)
           && Inverted(0x7A) && Inverted(0x7B) && Inverted(0x7C) && Inverted(0x7D) && Inverted(0x7E) && Inverted(0x7F);
    hide Inverted;
  }

  lemma Row8()
    ensures RowInverted(0x80)
  {
    assert Inverted(0x80) && Inverted(0x81) && Inverted(0x82) && Inverted(0x83) && Inverted(0x84)
           && Inverted(0x85) && Inverted(0x86) && Inverted(0x87) && Inverted(0x88) && Inverted(0x89)
           && Inverted(0x8A) && Inverted(0x8B) && Inverted(0x8C) && Inverted(0x8D) && Inverted(0x8E) && Inverted(0x8F);
    hide Inverted;
  }

  lemma Row9()
    ensures RowInverted(0x90)
  {
    assert Inverted(0x90) && Inverted(0x91) && Inverted(0x92) && Inverted(0x93) && Inverted(0x94)
           && Inverted(0x95) && Inverted(0x96) && Inverted(0x97) && Inverted(0x98) && Inverted(0x99)
           && Inverted(0x9A) && Inverted(0x9B) && Inverted(0x9C) && Inverted(0x9D) && Inverted(0x9E) && Inverted(0x9F);
    hide Inverted;
  }

  lemma RowA()
    ensures RowInverted(0xA0)
  {
    assert Inverted(0xA0) && Inverted(0xA1) && Inverted(0xA2) && Inverted(0xA3) && Inverted(0xA4)
           && Inverted(0xA5) && Inverted(0xA6) && Inverted(0xA7) && Inverted(0xA8) && Inverted(0xA9)
           && Inverted(0xAA) && Inverted(0xAB) && Inverted(0xAC) && Inverted(0xAD) && Inverted(0xAE) && Inverted(0xAF);
    hide Inverted;
  }

  lemma RowB()
    ensures RowInverted(0xB0)
  {
    assert Inverted(0xB0) && Inverted(0xB1) && Inverted(0xB2) && Inverted(0xB3) && Inverted(0xB4)
           && Inverted(0xB5) && Inverted(0xB6) && Inverted(0xB7) && Inverted(0xB8) && Inverted(0xB9)
           && Inverted(0xBA) && Inverted(0xBB) && Inverted(0xBC) && Inverted(0xBD) && Inverted(0xBE) && Inverted(0xBF);
    hide Inverted;
  }

  lemma RowC()
    ensures RowInverted(0xC0)
  {
    assert Inverted(0xC0) && Inverted(0xC1) && Inverted(0xC2) && Inverted(0xC3) && Inverted(0xC4)
           && Inverted(0xC5) && Inverted(0xC6) && Inverted(0xC7) && Inverted(0xC8) && Inverted(0xC9)
           && Inverted(0xCA) && Inverted(0xCB) && Inverted(0xCC) && Inverted(0xCD) && Inverted(0xCE) && Inverted(0xCF);
    hide Inverted;
  }

  lemma RowD()
    ensures RowInverted(0xD0)
  {
    assert Inverted(0xD0) && Inverted(0xD1) && Inverted(0xD2) && Inverted(0xD3) && Inverted(0xD4)
           && Inverted(0xD5) && Inverted(0xD6) && Inverted(0xD7) && Inverted(0xD8) && Inverted(0xD9)
           && Inverted(0xDA) && Inverted(0xDB) && Inverted(0xDC) && Inverted(0xDD) && Inverted(0xDE) && Inverted(0xDF);
    hide Inverted;
  }

  lemma RowE()
    ensures RowInverted(0xE0)
  {
    assert Inverted(0xE0) && Inverted(0xE1) && Inverted(0xE2) && Inverted(0xE3) && Inverted(0xE4)
           && Inverted(0xE5) && Inverted(0xE6) && Inverted(0xE7) && Inverted(0xE8) && Inverted(0xE9)
           && Inverted(0xEA) && Inverted(0xEB) && Inverted(0xEC) && Inverted(0xED) && Inverted(0xEE) && Inverted(0xEF);
    hide Inverted;
  }

  lemma RowF()
    ensures RowInverted(0xF0)
  {
    assert Inverted(0xF0) && Inverted(0xF1) && Inverted(0xF2) && Inverted(0xF3) && Inverted(0xF4)
           && Inverted(0xF5) && Inverted(0xF6) && Inverted(0xF7) && Inverted(0xF8) && Inverted(0xF9)
           && Inverted(0xFA) && Inverted(0xFB) && Inverted(0xFC) && Inverted(0xFD) && Inverted(0xFE) && Inverted(0xFF);
    hide Inverted;
  }

  lemma InRow(x: byte, r: byte)
    requires RowInverted(r) && x & 0xF0 == r
    ensures Inverted(x)
  {
    hide Inverted;
    InRowAt(x, r);
  }

  lemma InRowAt(x: byte, r: byte)
    requires x & 0xF0 == r
    ensures x in {r | 0x0, r | 0x1, r | 0x2, r | 0x3, r | 0x4, r | 0x5, r | 0x6, r | 0x7,
                  r | 0x8, r | 0x9, r | 0xA, r | 0xB, r | 0xC, r | 0xD, r | 0xE, r | 0xF}
  {
  }

  lemma InverseByTable(x: byte)
    requires x != 0
    ensures Product(x, Unaffine(Sbox(x))) == 1
  {
    hide RowInverted, Sbox, Product, Unaffine;
    var r := x & 0xF0;
    if r == 0x00 {
      Row0();
    } else if r == 0x10 {
      Row1();
    } else if r == 0x20 {
      Row2();
    } else if r == 0x30 {
      Row3();
    } else if r == 0x40 {
      Row4();
    } else if r == 0x50 {
      Row5();
    } else if r == 0x60 {
      Row6();
    } else if r == 0x70 {
      Row7();
    } else if r == 0x80 {
      Row8();
    } else if r == 0x90 {
      Row9();
    } else if r == 0xA0 {
      RowA();
    } else if r == 0xB0 {
      RowB();
    } else if r == 0xC0 {
      RowC();
    } else if r == 0xD0 {
      RowD();
    } else if r == 0xE0 {
      RowE();
    } else {
      RowF();
    }
    InRow(x, r);
  }

  /** Every entry of the table is the affine image of the multiplicative inverse of its index, and the
      entry of 0 is the image of 0. */
  lemma SboxIsAffineInverse(x: byte)
    ensures if x == 0 then Sbox(x) == Affine(0) else exists y :: Product(x, y) == 1 && Sbox(x) == Affine(y)
  {
    if x != 0 {
      hide Sbox, Product, Affine, Unaffine;
      InverseByTable(x);
      AffineUnaffine(Sbox(x));
    }
  }

  lemma ProductSmall(x: byte)
    ensures Product(x, 0x02) == Double(x)
    ensures Product(x, 0x03) == Xor(x, Double(x))
  {
    hide Double;
  }

  lemma Product09(x: byte)
    ensures Product(x, 0x09) == Xor(x, Double(Double(Double(x))))
  {
    hide Double;
  }

  lemma Product0B(x: byte)
    ensures Product(x, 0x0B) == Xor(x, Xor(Double(x), Double(Double(Double(x)))))
  {
    hide Double;
  }

  lemma Product0D(x: byte)
    ensures Product(x, 0x0D) == Xor(x, Xor(Double(Double(x)), Double(Double(Double(x)))))
  {
    hide Double;
  }

  lemma Product0E(x: byte)
    ensures Product(x, 0x0E) == Xor(Double(x), Xor(Double(Double(x)), Double(Double(Double(x)))))
  {
    hide Double;
  }

  /** aes_mul computes that product for every factor the round functions use. */
  lemma MulIsProduct(x: byte)
    ensures Mul(x, 0x02) == Product(x, 0x02) && Mul(x, 0x03) == Product(x, 0x03)
    ensures Mul(x, 0x09) == Product(x, 0x09) && Mul(x, 0x0B) == Product(x, 0x0B)
    ensures Mul(x, 0x0D) == Product(x, 0x0D) && Mul(x, 0x0E) == Product(x, 0x0E)
  {
    hide XTime, Double, Product, Xor;
    DoubleIsXTime(x);
    DoubleIsXTime(XTime(x));
    DoubleIsXTime(XTime(XTime(x)));
    MulSmall(x);
    MulLarge(x);
    ProductSmall(x);
    Product09(x);
    Product0B(x);
    Product0D(x);
    Product0E(x);
  }
}
