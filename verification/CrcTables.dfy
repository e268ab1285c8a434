/** The two literal lookup tables belong to their generators, so both shipped configurations
    compute what the bitwise engine would. */
module CrcTables {

  import opened Prelude
  import opened Words
  import opened CrcDriver
  import opened CrcEngines
  import opened CrcRemainder
  import opened CrcBursts

  function Crc32Entry0(i: nat): bv32 {
    match i {
      case 0 => 0x00000000 case 1 => 0x77073096 case 2 => 0xEE0E612C case 3 => 0x990951BA
      case 4 => 0x076DC419 case 5 => 0x706AF48F case 6 => 0xE963A535 case 7 => 0x9E6495A3
      case 8 => 0x0EDB8832 case 9 => 0x79DCB8A4 case 10 => 0xE0D5E91E case 11 => 0x97D2D988
      case 12 => 0x09B64C2B case 13 => 0x7EB17CBD case 14 => 0xE7B82D07 case 15 => 0x90BF1D91
      case 16 => 0x1DB71064 case 17 => 0x6AB020F2 case 18 => 0xF3B97148 case 19 => 0x84BE41DE
      case 20 => 0x1ADAD47D case 21 => 0x6DDDE4EB case 22 => 0xF4D4B551 case 23 => 0x83D385C7
      case 24 => 0x136C9856 case 25 => 0x646BA8C0 case 26 => 0xFD62F97A case 27 => 0x8A65C9EC
      case 28 => 0x14015C4F case 29 => 0x63066CD9 case 30 => 0xFA0F3D63 case _ => 0x8D080DF5
    }
  }

  function Crc32Entry1(i: nat): bv32 {
    match i {
      case 32 => 0x3B6E20C8 case 33 => 0x4C69105E case 34 => 0xD56041E4 case 35 => 0xA2677172
      case 36 => 0x3C03E4D1 case 37 => 0x4B04D447 case 38 => 0xD20D85FD case 39 => 0xA50AB56B
      case 40 => 0x35B5A8FA case 41 => 0x42B2986C case 42 => 0xDBBBC9D6 case 43 => 0xACBCF940
      case 44 => 0x32D86CE3 case 45 => 0x45DF5C75 case 46 => 0xDCD60DCF case 47 => 0xABD13D59
      case 48 => 0x26D930AC case 49 => 0x51DE003A case 50 => 0xC8D75180 case 51 => 0xBFD06116
      case 52 => 0x21B4F4B5 case 53 => 0x56B3C423 case 54 => 0xCFBA9599 case 55 => 0xB8BDA50F
      case 56 => 0x2802B89E case 57 => 0x5F058808 case 58 => 0xC60CD9B2 case 59 => 0xB10BE924
      case 60 => 0x2F6F7C87 case 61 => 0x58684C11 case 62 => 0xC1611DAB case _ => 0xB6662D3D
    }
  }

  function Crc32Entry2(i: nat): bv32 {
    match i {
      case 64 => 0x76DC4190 case 65 => 0x01DB7106 case 66 => 0x98D220BC case 67 => 0xEFD5102A
      case 68 => 0x71B18589 case 69 => 0x06B6B51F case 70 => 0x9FBFE4A5 case 71 => 0xE8B8D433
      case 72 => 0x7807C9A2 case 73 => 0x0F00F934 case 74 => 0x9609A88E case 75 => 0xE10E9818
      case 76 => 0x7F6A0DBB case 77 => 0x086D3D2D case 78 => 0x91646C97 case 79 => 0xE6635C01
      case 80 => 0x6B6B51F4 case 81 => 0x1C6C6162 case 82 => 0x856530D8 case 83 => 0xF262004E
      case 84 => 0x6C0695ED case 85 => 0x1B01A57B case 86 => 0x8208F4C1 case 87 => 0xF50FC457
      case 88 => 0x65B0D9C6 case 89 => 0x12B7E950 case 90 => 0x8BBEB8EA case 91 => 0xFCB9887C
      case 92 => 0x62DD1DDF case 93 => 0x15DA2D49 case 94 => 0x8CD37CF3 case _ => 0xFBD44C65
    }
  }

  function Crc32Entry3(i: nat): bv32 {
    match i {
      case 96 => 0x4DB26158 case 97 => 0x3AB551CE case 98 => 0xA3BC0074 case 99 => 0xD4BB30E2
      case 100 => 0x4ADFA541 case 101 => 0x3DD895D7 case 102 => 0xA4D1C46D case 103 => 0xD3D6F4FB
      case 104 => 0x4369E96A case 105 => 0x346ED9FC case 106 => 0xAD678846 case 107 => 0xDA60B8D0
      case 108 => 0x44042D73 case 109 => 0x33031DE5 case 110 => 0xAA0A4C5F case 111 => 0xDD0D7CC9
      case 112 => 0x5005713C case 113 => 0x270241AA case 114 => 0xBE0B1010 case 115 => 0xC90C2086
      case 116 => 0x5768B525 case 117 => 0x206F85B3 case 118 => 0xB966D409 case 119 => 0xCE61E49F
      case 120 => 0x5EDEF90E case 121 => 0x29D9C998 case 122 => 0xB0D09822 case 123 => 0xC7D7A8B4
      case 124 => 0x59B33D17 case 125 => 0x2EB40D81 case 126 => 0xB7BD5C3B case _ => 0xC0BA6CAD
    }
  }

  function Crc32Entry4(i: nat): bv32 {
    match i {
      case 128 => 0xEDB88320 case 129 => 0x9ABFB3B6 case 130 => 0x03B6E20C case 131 => 0x74B1D29A
      case 132 => 0xEAD54739 case 133 => 0x9DD277AF case 134 => 0x04DB2615 case 135 => 0x73DC1683
      case 136 => 0xE3630B12 case 137 => 0x94643B84 case 138 => 0x0D6D6A3E case 139 => 0x7A6A5AA8
      case 140 => 0xE40ECF0B case 141 => 0x9309FF9D case 142 => 0x0A00AE27 case 143 => 0x7D079EB1
      case 144 => 0xF00F9344 case 145 => 0x8708A3D2 case 146 => 0x1E01F268 case 147 => 0x6906C2FE
      case 148 => 0xF762575D case 149 => 0x806567CB case 150 => 0x196C3671 case 151 => 0x6E6B06E7
      case 152 => 0xFED41B76 case 153 => 0x89D32BE0 case 154 => 0x10DA7A5A case 155 => 0x67DD4ACC
      case 156 => 0xF9B9DF6F case 157 => 0x8EBEEFF9 case 158 => 0x17B7BE43 case _ => 0x60B08ED5
    }
  }

  function Crc32Entry5(i: nat): bv32 {
    match i {
      case 160 => 0xD6D6A3E8 case 161 => 0xA1D1937E case 162 => 0x38D8C2C4 case 163 => 0x4FDFF252
      case 164 => 0xD1BB67F1 case 165 => 0xA6BC5767 case 166 => 0x3FB506DD case 167 => 0x48B2364B
      case 168 => 0xD80D2BDA case 169 => 0xAF0A1B4C case 170 => 0x36034AF6 case 171 => 0x41047A60
      case 172 => 0xDF60EFC3 case 173 => 0xA867DF55 case 174 => 0x316E8EEF case 175 => 0x4669BE79
      case 176 => 0xCB61B38C case 177 => 0xBC66831A case 178 => 0x256FD2A0 case 179 => 0x5268E236
      case 180 => 0xCC0C7795 case 181 => 0xBB0B4703 case 182 => 0x220216B9 case 183 => 0x5505262F
      case 184 => 0xC5BA3BBE case 185 => 0xB2BD0B28 case 186 => 0x2BB45A92 case 187 => 0x5CB36A04
      case 188 => 0xC2D7FFA7 case 189 => 0xB5D0CF31 case 190 => 0x2CD99E8B case _ => 0x5BDEAE1D
    }
  }

  function Crc32Entry6(i: nat): bv32 {
    match i {
      case 192 => 0x9B64C2B0 case 193 => 0xEC63F226 case 194 => 0x756AA39C case 195 => 0x026D930A
      case 196 => 0x9C0906A9 case 197 => 0xEB0E363F case 198 => 0x72076785 case 199 => 0x05005713
      case 200 => 0x95BF4A82 case 201 => 0xE2B87A14 case 202 => 0x7BB12BAE case 203 => 0x0CB61B38
      case 204 => 0x92D28E9B case 205 => 0xE5D5BE0D case 206 => 0x7CDCEFB7 case 207 => 0x0BDBDF21
      case 208 => 0x86D3D2D4 case 209 => 0xF1D4E242 case 210 => 0x68DDB3F8 case 211 => 0x1FDA836E
      case 212 => 0x81BE16CD case 213 => 0xF6B9265B case 214 => 0x6FB077E1 case 215 => 0x18B74777
      case 216 => 0x88085AE6 case 217 => 0xFF0F6A70 case 218 => 0x66063BCA case 219 => 0x11010B5C
      case 220 => 0x8F659EFF case 221 => 0xF862AE69 case 222 => 0x616BFFD3 case _ => 0x166CCF45
    }
  }

  function Crc32Entry7(i: nat): bv32 {
    match i {
      case 224 => 0xA00AE278 case 225 => 0xD70DD2EE case 226 => 0x4E048354 case 227 => 0x3903B3C2
      case 228 => 0xA7672661 case 229 => 0xD06016F7 case 230 => 0x4969474D case 231 => 0x3E6E77DB
      case 232 => 0xAED16A4A case 233 => 0xD9D65ADC case 234 => 0x40DF0B66 case 235 => 0x37D83BF0
      case 236 => 0xA9BCAE53 case 237 => 0xDEBB9EC5 case 238 => 0x47B2CF7F case 239 => 0x30B5FFE9
      case 240 => 0xBDBDF21C case 241 => 0xCABAC28A case 242 => 0x53B39330 case 243 => 0x24B4A3A6
      case 244 => 0xBAD03605 case 245 => 0xCDD70693 case 246 => 0x54DE5729 case 247 => 0x23D967BF
      case 248 => 0xB3667A2E case 249 => 0xC4614AB8 case 250 => 0x5D681B02 case 251 => 0x2A6F2B94
      case 252 => 0xB40BBE37 case 253 => 0xC30C8EA1 case 254 => 0x5A05DF1B case _ => 0x2D02EF8D
    }
  }

  /** Entry i of the table. */
  function Crc32Entry(i: nat): bv32 {
    if i < 32 then Crc32Entry0(i) else if i < 64 then Crc32Entry1(i)
    else if i < 96 then Crc32Entry2(i) else if i < 128 then Crc32Entry3(i)
    else if i < 160 then Crc32Entry4(i) else if i < 192 then Crc32Entry5(i)
    else if i < 224 then Crc32Entry6(i) else Crc32Entry7(i)
  }

  function Crc16Entry0(i: nat): bv32 {
    match i {
      case 0 => 0x0000 case 1 => 0xC0C1 case 2 => 0xC181 case 3 => 0x0140
      case 4 => 0xC301 case 5 => 0x03C0 case 6 => 0x0280 case 7 => 0xC241
      case 8 => 0xC601 case 9 => 0x06C0 case 10 => 0x0780 case 11 => 0xC741
      case 12 => 0x0500 case 13 => 0xC5C1 case 14 => 0xC481 case 15 => 0x0440
      case 16 => 0xCC01 case 17 => 0x0CC0 case 18 => 0x0D80 case 19 => 0xCD41
      case 20 => 0x0F00 case 21 => 0xCFC1 case 22 => 0xCE81 case 23 => 0x0E40
      case 24 => 0x0A00 case 25 => 0xCAC1 case 26 => 0xCB81 case 27 => 0x0B40
      case 28 => 0xC901 case 29 => 0x09C0 case 30 => 0x0880 case _ => 0xC841
    }
  }

  function Crc16Entry1(i: nat): bv32 {
    match i {
      case 32 => 0xD801 case 33 => 0x18C0 case 34 => 0x1980 case 35 => 0xD941
      case 36 => 0x1B00 case 37 => 0xDBC1 case 38 => 0xDA81 case 39 => 0x1A40
      case 40 => 0x1E00 case 41 => 0xDEC1 case 42 => 0xDF81 case 43 => 0x1F40
      case 44 => 0xDD01 case 45 => 0x1DC0 case 46 => 0x1C80 case 47 => 0xDC41
      case 48 => 0x1400 case 49 => 0xD4C1 case 50 => 0xD581 case 51 => 0x1540
      case 52 => 0xD701 case 53 => 0x17C0 case 54 => 0x1680 case 55 => 0xD641
      case 56 => 0xD201 case 57 => 0x12C0 case 58 => 0x1380 case 59 => 0xD341
      case 60 => 0x1100 case 61 => 0xD1C1 case 62 => 0xD081 case _ => 0x1040
    }
  }

  function Crc16Entry2(i: nat): bv32 {
    match i {
      case 64 => 0xF001 case 65 => 0x30C0 case 66 => 0x3180 case 67 => 0xF141
      case 68 => 0x3300 case 69 => 0xF3C1 case 70 => 0xF281 case 71 => 0x3240
      case 72 => 0x3600 case 73 => 0xF6C1 case 74 => 0xF781 case 75 => 0x3740
      case 76 => 0xF501 case 77 => 0x35C0 case 78 => 0x3480 case 79 => 0xF441
      case 80 => 0x3C00 case 81 => 0xFCC1 case 82 => 0xFD81 case 83 => 0x3D40
      case 84 => 0xFF01 case 85 => 0x3FC0 case 86 => 0x3E80 case 87 => 0xFE41
      case 88 => 0xFA01 case 89 => 0x3AC0 case 90 => 0x3B80 case 91 => 0xFB41
      case 92 => 0x3900 case 93 => 0xF9C1 case 94 => 0xF881 case _ => 0x3840
    }
  }

  function Crc16Entry3(i: nat): bv32 {
    match i {
      case 96 => 0x2800 case 97 => 0xE8C1 case 98 => 0xE981 case 99 => 0x2940
      case 100 => 0xEB01 case 101 => 0x2BC0 case 102 => 0x2A80 case 103 => 0xEA41
      case 104 => 0xEE01 case 105 => 0x2EC0 case 106 => 0x2F80 case 107 => 0xEF41
      case 108 => 0x2D00 case 109 => 0xEDC1 case 110 => 0xEC81 case 111 => 0x2C40
      case 112 => 0xE401 case 113 => 0x24C0 case 114 => 0x2580 case 115 => 0xE541
      case 116 => 0x2700 case 117 => 0xE7C1 case 118 => 0xE681 case 119 => 0x2640
      case 120 => 0x2200 case 121 => 0xE2C1 case 122 => 0xE381 case 123 => 0x2340
      case 124 => 0xE101 case 125 => 0x21C0 case 126 => 0x2080 case _ => 0xE041
    }
  }

  function Crc16Entry4(i: nat): bv32 {
    match i {
      case 128 => 0xA001 case 129 => 0x60C0 case 130 => 0x6180 case 131 => 0xA141
      case 132 => 0x6300 case 133 => 0xA3C1 case 134 => 0xA281 case 135 => 0x6240
      case 136 => 0x6600 case 137 => 0xA6C1 case 138 => 0xA781 case 139 => 0x6740
      case 140 => 0xA501 case 141 => 0x65C0 case 142 => 0x6480 case 143 => 0xA441
      case 144 => 0x6C00 case 145 => 0xACC1 case 146 => 0xAD81 case 147 => 0x6D40
      case 148 => 0xAF01 case 149 => 0x6FC0 case 150 => 0x6E80 case 151 => 0xAE41
      case 152 => 0xAA01 case 153 => 0x6AC0 case 154 => 0x6B80 case 155 => 0xAB41
      case 156 => 0x6900 case 157 => 0xA9C1 case 158 => 0xA881 case _ => 0x6840
    }
  }

  function Crc16Entry5(i: nat): bv32 {
    match i {
      case 160 => 0x7800 case 161 => 0xB8C1 case 162 => 0xB981 case 163 => 0x7940
      case 164 => 0xBB01 case 165 => 0x7BC0 case 166 => 0x7A80 case 167 => 0xBA41
      case 168 => 0xBE01 case 169 => 0x7EC0 case 170 => 0x7F80 case 171 => 0xBF41
      case 172 => 0x7D00 case 173 => 0xBDC1 case 174 => 0xBC81 case 175 => 0x7C40
      case 176 => 0xB401 case 177 => 0x74C0 case 178 => 0x7580 case 179 => 0xB541
      case 180 => 0x7700 case 181 => 0xB7C1 case 182 => 0xB681 case 183 => 0x7640
      case 184 => 0x7200 case 185 => 0xB2C1 case 186 => 0xB381 case 187 => 0x7340
      case 188 => 0xB101 case 189 => 0x71C0 case 190 => 0x7080 case _ => 0xB041
    }
  }

  function Crc16Entry6(i: nat): bv32 {
    match i {
      case 192 => 0x5000 case 193 => 0x90C1 case 194 => 0x9181 case 195 => 0x5140
      case 196 => 0x9301 case 197 => 0x53C0 case 198 => 0x5280 case 199 => 0x9241
      case 200 => 0x9601 case 201 => 0x56C0 case 202 => 0x5780 case 203 => 0x9741
      case 204 => 0x5500 case 205 => 0x95C1 case 206 => 0x9481 case 207 => 0x5440
      case 208 => 0x9C01 case 209 => 0x5CC0 case 210 => 0x5D80 case 211 => 0x9D41
      case 212 => 0x5F00 case 213 => 0x9FC1 case 214 => 0x9E81 case 215 => 0x5E40
      case 216 => 0x5A00 case 217 => 0x9AC1 case 218 => 0x9B81 case 219 => 0x5B40
      case 220 => 0x9901 case 221 => 0x59C0 case 222 => 0x5880 case _ => 0x9841
    }
  }

  function Crc16Entry7(i: nat): bv32 {
    match i {
      case 224 => 0x8801 case 225 => 0x48C0 case 226 => 0x4980 case 227 => 0x8941
      case 228 => 0x4B00 case 229 => 0x8BC1 case 230 => 0x8A81 case 231 => 0x4A40
      case 232 => 0x4E00 case 233 => 0x8EC1 case 234 => 0x8F81 case 235 => 0x4F40
      case 236 => 0x8D01 case 237 => 0x4DC0 case 238 => 0x4C80 case 239 => 0x8C41
      case 240 => 0x4400 case 241 => 0x84C1 case 242 => 0x8581 case 243 => 0x4540
      case 244 => 0x8701 case 245 => 0x47C0 case 246 => 0x4680 case 247 => 0x8641
      case 248 => 0x8201 case 249 => 0x42C0 case 250 => 0x4380 case 251 => 0x8341
      case 252 => 0x4100 case 253 => 0x81C1 case 254 => 0x8081 case _ => 0x4040
    }
  }

  /** Entry i of the table. */
  function Crc16Entry(i: nat): bv32 {
    if i < 32 then Crc16Entry0(i) else if i < 64 then Crc16Entry1(i)
    else if i < 96 then Crc16Entry2(i) else if i < 128 then Crc16Entry3(i)
    else if i < 160 then Crc16Entry4(i) else if i < 192 then Crc16Entry5(i)
    else if i < 224 then Crc16Entry6(i) else Crc16Entry7(i)
  }

  // ---- literals as rows ----

  /** The word with bit i alone. */
  function Mask(i: nat): bv32
    requires i < 32
  {
    match i {
      case 0 => 0x0000_0001 case 1 => 0x0000_0002 case 2 => 0x0000_0004 case 3 => 0x0000_0008
      case 4 => 0x0000_0010 case 5 => 0x0000_0020 case 6 => 0x0000_0040 case 7 => 0x0000_0080
      case 8 => 0x0000_0100 case 9 => 0x0000_0200 case 10 => 0x0000_0400 case 11 => 0x0000_0800
      case 12 => 0x0000_1000 case 13 => 0x0000_2000 case 14 => 0x0000_4000 case 15 => 0x0000_8000
      case 16 => 0x0001_0000 case 17 => 0x0002_0000 case 18 => 0x0004_0000 case 19 => 0x0008_0000
      case 20 => 0x0010_0000 case 21 => 0x0020_0000 case 22 => 0x0040_0000 case 23 => 0x0080_0000
      case 24 => 0x0100_0000 case 25 => 0x0200_0000 case 26 => 0x0400_0000 case 27 => 0x0800_0000
      case 28 => 0x1000_0000 case 29 => 0x2000_0000 case 30 => 0x4000_0000 case _ => 0x8000_0000
    }
  }

  predicate Has(x: bv32, m: bv32) {
    x & m != 0
  }

  /** Bit i of a word. */
  predicate At(x: bv32, i: nat)
    requires i < 32
  {
    Has(x, Mask(i))
  }

  function Bits(x: bv32): Word {
    seq(32, i requires 0 <= i < 32 => At(x, i))
  }

  predicate Single(m: bv32) {
    m & (m - 1) == 0
  }

  predicate Doubled(m: bv32, m': bv32) {
    m' == m << 1
  }

  lemma LowMaskDoubled(i: nat)
    requires i < 16
    ensures Doubled(Mask(i), Mask(i + 1))
  {
    match i {
      case 0 => case 1 => case 2 => case 3 => case 4 => case 5 => case 6 => case 7 =>
      case 8 => case 9 => case 10 => case 11 => case 12 => case 13 => case 14 => case 15 =>
    }
  }

  lemma HighMaskDoubled(i: nat)
    requires 16 <= i < 31
    ensures Doubled(Mask(i), Mask(i + 1))
  {
    match i {
      case 16 => case 17 => case 18 => case 19 => case 20 => case 21 => case 22 => case 23 =>
      case 24 => case 25 => case 26 => case 27 => case 28 => case 29 => case 30 =>
    }
  }

  lemma MaskDoubled(i: nat, next: nat)
    requires next == i + 1 < 32
    ensures Doubled(Mask(i), Mask(next))
  {
    if i < 16 {
      LowMaskDoubled(i);
    } else {
      HighMaskDoubled(i);
    }
  }

  lemma DoubledSingle(m: bv32, m': bv32)
    requires Single(m) && Doubled(m, m')
    ensures Single(m')
  {
  }

  lemma FirstMask()
    ensures Single(Mask(0))
  {
  }

  lemma {:induction false} MaskSingle(i: nat)
    requires i < 32
    ensures Single(Mask(i))
  {
    hide Single, Doubled, Mask;
    if i == 0 {
      FirstMask();
    } else {
      MaskSingle(i - 1);
      MaskDoubled(i - 1, i);
      DoubledSingle(Mask(i - 1), Mask(i));
    }
  }

  lemma XorMasked(x: bv32, y: bv32, m: bv32)
    requires Single(m)
    ensures Has(x ^ y, m) == (Has(x, m) != Has(y, m))
  {
  }

  lemma ShiftMasked(x: bv32, m: bv32, m': bv32)
    requires Doubled(m, m')
    ensures Has(x >> 1, m) == Has(x, m')
  {
  }

  lemma BitsXor(x: bv32, y: bv32)
    ensures Bits(x ^ y) == Xor(Bits(x), Bits(y))
  {
    hide Mask, Has, Single;
    forall i | 0 <= i < 32
      ensures At(x ^ y, i) == (At(x, i) != At(y, i))
    {
      MaskSingle(i);
      XorMasked(x, y, Mask(i));
    }
  }

  lemma ShrAt(x: bv32, i: nat)
    requires i < 31
    ensures At(x >> 1, i) == At(x, i + 1)
  {
    hide Mask, Has, Doubled;
    MaskDoubled(i, i + 1);
    ShiftMasked(x, Mask(i), Mask(i + 1));
  }

  lemma TopShiftedOut(x: bv32)
    ensures !At(x >> 1, 31)
  {
    assert Mask(31) == 0x8000_0000;
  }

  lemma BitsShr(x: bv32)
    ensures Bits(x >> 1) == Shr(Bits(x), 1)
  {
    hide At;
    TopShiftedOut(x);
    forall i | 0 <= i < 31
      ensures Bits(x >> 1)[i] == Shr(Bits(x), 1)[i]
    {
      ShrAt(x, i);
    }
  }

  /** The reflected division step on a bit-vector. */
  function Step(q: bv32, x: bv32): bv32 {
    if x & 1 == 1 then (x >> 1) ^ q else x >> 1
  }

  lemma BitsStep(q: bv32, x: bv32)
    ensures Bits(Step(q, x)) == ShiftStep(Bits(q), Bits(x))
  {
    BitsShr(x);
    assert Bits(x)[0] == (x & 1 == 1);
    BitsXor(x >> 1, q);
  }

  // ---- entries for single bits, and entries for sums ----

  /** The highest power of two in n, for a byte value n. */
  function Top(n: nat): nat
    requires 1 <= n < 256
    ensures 1 <= Top(n) <= n < 2 * Top(n)
  {
    if n >= 128 then 128 else if n >= 64 then 64 else if n >= 32 then 32 else if n >= 16 then 16
    else if n >= 8 then 8 else if n >= 4 then 4 else if n >= 2 then 2 else 1
  }

  /** A table whose entry for 128 is q, whose entry for each smaller power of two is one step on
      from the one for its double, and whose other entries are sums. */
  ghost predicate Linear(e: seq<bv32>, q: bv32)
    requires |e| == 256
  {
    && e[0] == 0 && e[128] == q && e[64] == Step(q, e[128]) && e[32] == Step(q, e[64]) && e[16] == Step(q, e[32])
    && e[8] == Step(q, e[16]) && e[4] == Step(q, e[8]) && e[2] == Step(q, e[4]) && e[1] == Step(q, e[2])
    && forall n :: 1 <= n < 256 && n != Top(n) ==> e[n] == e[Top(n)] ^ e[n - Top(n)]
  }

  lemma UnitSteps(q: Word, k: nat)
    requires k < 8
    ensures ShiftSteps(q, Unit(k), 8) == ShiftSteps(q, q, 7 - k)
  {
    hide ShiftStep, Shr, Unit;
    UnitReachesEnd(q, k);
    StepsInRow(q, Unit(k), k + 1, 7 - k, 8);
  }

  lemma UnitReachesEnd(q: Word, k: nat)
    requires k < 32
    ensures ShiftSteps(q, Unit(k), k + 1) == q
  {
    ShiftStepsPlain(q, Unit(k), k);
    assert Shr(Unit(k), k) == Unit(0);
    assert Xor(Shr(Unit(0), 1), q) == q;
  }

  lemma {:induction false} PowerRow(k: nat, n: nat)
    requires k < n <= 32
    ensures ToRow(Pow2(k), n) == Unit(k)[..n]
    decreases k
  {
    if k == 0 {
      ZeroRow(n - 1);
    } else {
      PowerRow(k - 1, n - 1);
      assert Unit(k)[..n] == [false] + Unit(k - 1)[..n - 1];
    }
  }

  lemma {:induction false} ZeroRow(n: nat)
    ensures ToRow(0, n) == Zeros(n)
    decreases n
  {
    if n > 0 {
      ZeroRow(n - 1);
    }
  }

  lemma SumHalves(p: nat, m: nat)
    ensures (2 * p + m) / 2 == p + m / 2 && (2 * p + m) % 2 == m % 2 && 2 * p / 2 == p && 2 * p % 2 == 0
  {
  }

  lemma XorFirst(x: bool, r: Row, y: bool, s: Row)
    requires |r| == |s|
    ensures Xor([x] + r, [y] + s) == [x != y] + Xor(r, s)
  {
  }

  lemma {:induction false} SumRow(k: nat, m: nat, n: nat)
    requires m < Pow2(k)
    ensures ToRow(Pow2(k) + m, n) == Xor(ToRow(Pow2(k), n), ToRow(m, n))
    decreases n
  {
    if n > 0 {
      if k == 0 {
        ZeroRow(n - 1);
        assert ToRow(1, n) == [true] + Zeros(n - 1) && ToRow(0, n) == [false] + Zeros(n - 1);
      } else {
        SumRow(k - 1, m / 2, n - 1);
        SumHalves(Pow2(k - 1), m);
        XorFirst(Pow2(k) % 2 == 1, ToRow(Pow2(k - 1), n - 1), m % 2 == 1, ToRow(m / 2, n - 1));
      }
    }
  }

  lemma WidenRow(b: Byte)
    ensures ToRow(Value(b), 32) == Widen(b) && Value(b) < 256
  {
    ValueBound(b);
    assert Pow2(8) == 256;
    RowOfValueWide(b, 24);
  }

  lemma {:induction false} RowOfValueWide(r: Row, m: nat)
    ensures ToRow(Value(r), |r| + m) == r + Zeros(m)
    decreases |r|
  {
    if |r| == 0 {
      ZeroRow(m);
    } else {
      RowOfValueWide(r[1..], m);
      assert r + Zeros(m) == [r[0]] + (r[1..] + Zeros(m));
    }
  }

  /** The same about the rows of a table. */
  ghost predicate LinearRows(t: Table, q: Word) {
    && t[0] == Zeros(32) && t[128] == q
    && t[64] == ShiftStep(q, t[128]) && t[32] == ShiftStep(q, t[64]) && t[16] == ShiftStep(q, t[32])
    && t[8] == ShiftStep(q, t[16]) && t[4] == ShiftStep(q, t[8]) && t[2] == ShiftStep(q, t[4])
    && t[1] == ShiftStep(q, t[2])
    && forall n :: 1 <= n < 256 && n != Top(n) ==> t[n] == Xor(t[Top(n)], t[n - Top(n)])
  }

  lemma Powers()
    ensures Pow2(7) == 128 && Pow2(6) == 64 && Pow2(5) == 32 && Pow2(4) == 16
    ensures Pow2(3) == 8 && Pow2(2) == 4 && Pow2(1) == 2 && Pow2(0) == 1
  {
  }

  lemma HalfEntry(t: Table, q: Word, k: nat, next: nat)
    requires LinearRows(t, q) && k < 7 && next == k + 1
    ensures Pow2(next) < 256 && Pow2(k) < 256 && t[Pow2(k)] == ShiftStep(q, t[Pow2(next)])
  {
    hide ShiftStep;
    Powers();
    match k { case 0 => case 1 => case 2 => case 3 => case 4 => case 5 => case 6 => }
  }

  lemma TopEntry(t: Table, q: Word)
    requires LinearRows(t, q)
    ensures Pow2(7) == 128 && t[128] == q
  {
    Powers();
  }

  /** The entry for bit 7 - j is j steps from q. */
  lemma {:induction false} PowerEntry(t: Table, q: Word, j: nat)
    requires LinearRows(t, q) && j < 8
    ensures Pow2(7 - j) < 256 && t[Pow2(7 - j)] == ShiftSteps(q, q, j)
    decreases j
  {
    hide LinearRows, ShiftStep, Pow2;
    if j == 0 {
      TopEntry(t, q);
    } else {
      PowerEntry(t, q, j - 1);
      HalfEntry(t, q, 7 - j, 7 - (j - 1));
    }
  }

  lemma TopIsPower(n: nat) returns (k: nat)
    requires 1 <= n < 256
    ensures k < 8 && Top(n) == Pow2(k) <= n < 2 * Pow2(k)
  {
    Powers();
    k := if n >= 128 then 7 else if n >= 64 then 6 else if n >= 32 then 5 else if n >= 16 then 4
         else if n >= 8 then 3 else if n >= 4 then 2 else if n >= 2 then 1 else 0;
  }

  lemma ZeroEntry(t: Table, q: Word)
    requires LinearRows(t, q)
    ensures t[0] == ShiftSteps(q, ToRow(0, 32), 8)
  {
    ZeroRow(32);
    ShiftStepsPlain(q, Zeros(32), 8);
    assert Shr(Zeros(32), 8) == Zeros(32);
  }

  lemma PowerIsSteps(t: Table, q: Word, k: nat)
    requires LinearRows(t, q) && k < 8
    ensures Pow2(k) < 256 && t[Pow2(k)] == ShiftSteps(q, ToRow(Pow2(k), 32), 8)
  {
    hide LinearRows, ShiftSteps, ToRow, Pow2;
    PowerEntry(t, q, 7 - k);
    UnitSteps(q, k);
    PowerRow(k, 32);
    assert Unit(k)[..32] == Unit(k);
  }

  lemma SumIsSteps(q: Word, a: Word, b: Word, k: nat, m: nat)
    requires m < Pow2(k)
    requires a == ShiftSteps(q, ToRow(Pow2(k), 32), 8) && b == ShiftSteps(q, ToRow(m, 32), 8)
    ensures Xor(a, b) == ShiftSteps(q, ToRow(Pow2(k) + m, 32), 8)
  {
    SumRow(k, m, 32);
    ShiftStepsXor(q, ToRow(Pow2(k), 32), ToRow(m, 32), 8);
  }

  lemma TableSum(t: Table, q: Word, n: nat)
    requires LinearRows(t, q) && 1 <= n < 256 && n != Top(n)
    ensures Top(n) < n && t[n] == Xor(t[Top(n)], t[n - Top(n)])
  {
  }

  lemma SumCase(t: Table, q: Word, n: nat, k: nat)
    requires LinearRows(t, q) && 1 <= n < 256 && k < 8 && Top(n) == Pow2(k) < n < 2 * Pow2(k)
    requires t[n - Pow2(k)] == ShiftSteps(q, ToRow(n - Pow2(k), 32), 8)
    ensures t[n] == ShiftSteps(q, ToRow(n, 32), 8)
  {
    hide LinearRows;
    TableSum(t, q, n);
    PowerIsSteps(t, q, k);
    SumIsSteps(q, t[Pow2(k)], t[n - Pow2(k)], k, n - Pow2(k));
  }

  /** Entry n of such a table is what eight steps make of n. */
  lemma {:induction false} EntryIsSteps(t: Table, q: Word, n: nat)
    requires LinearRows(t, q) && n < 256
    ensures t[n] == ShiftSteps(q, ToRow(n, 32), 8)
    decreases n
  {
    hide LinearRows;
    if n == 0 {
      ZeroEntry(t, q);
    } else {
      var k := TopIsPower(n);
      if n == Pow2(k) {
        PowerIsSteps(t, q, k);
      } else {
        EntryIsSteps(t, q, n - Pow2(k));
        SumCase(t, q, n, k);
      }
    }
  }

  /** The table as the driver holds it. */
  function AsTable(e: seq<bv32>): Table
    requires |e| == 256
  {
    seq(256, i requires 0 <= i < 256 => Bits(e[i]))
  }

  lemma RowsAreLinear(e: seq<bv32>, q: bv32)
    requires |e| == 256 && Linear(e, q)
    ensures LinearRows(AsTable(e), Bits(q))
  {
    hide Bits, Step, ShiftStep, Xor;
    var t := AsTable(e);
    BitsZero();
    BitsStep(q, e[128]);
    BitsStep(q, e[64]);
    BitsStep(q, e[32]);
    BitsStep(q, e[16]);
    BitsStep(q, e[8]);
    BitsStep(q, e[4]);
    BitsStep(q, e[2]);
    forall n | 1 <= n < 256 && n != Top(n)
      ensures t[n] == Xor(t[Top(n)], t[n - Top(n)])
    {
      SumEntry(e, n, Top(n));
    }
  }

  lemma SumEntry(e: seq<bv32>, n: nat, h: nat)
    requires |e| == 256 && h <= n < 256 && e[n] == e[h] ^ e[n - h]
    ensures AsTable(e)[n] == Xor(AsTable(e)[h], AsTable(e)[n - h])
  {
    BitsXor(e[h], e[n - h]);
  }

  lemma BitsZero()
    ensures Bits(0) == Zeros(32)
  {
  }

  lemma LinearTable(e: seq<bv32>, q: bv32, poly: Word, w: nat)
    requires |e| == 256 && Linear(e, q) && w <= 32 && Bits(q) == Reflected(poly, w)
    ensures TableFor(AsTable(e), poly, w)
  {
    RowsAreLinear(e, q);
    forall b: Byte
      ensures Value(b) < 256 && AsTable(e)[Value(b)] == ShiftSteps(Reflected(poly, w), Widen(b), 8)
    {
      WidenRow(b);
      EntryIsSteps(AsTable(e), Bits(q), Value(b));
    }
  }

  lemma Crc32EntrySum0(n: nat)
    requires 1 <= n < 32 && n != Top(n)
    ensures Crc32Entry(n) == Crc32Entry(Top(n)) ^ Crc32Entry(n - Top(n))
  {
    match n {
      case 1 => case 2 => case 3 => case 4 => case 5 => case 6 => case 7 => case 8 => case 9 => case 10 =>
      case 11 => case 12 => case 13 => case 14 => case 15 =>
      case 16 => case 17 => case 18 => case 19 => case 20 => case 21 => case 22 => case 23 => case 24 =>
      case 25 => case 26 => case 27 => case 28 => case 29 => case 30 => case 31 =>
    }
  }

  lemma Crc32EntrySum1(n: nat)
    requires 33 <= n < 64 && n != Top(n)
    ensures Crc32Entry(n) == Crc32Entry(Top(n)) ^ Crc32Entry(n - Top(n))
  {
    match n {
      case 33 => case 34 => case 35 => case 36 => case 37 => case 38 => case 39 => case 40 => case 41 =>
      case 42 => case 43 => case 44 => case 45 => case 46 => case 47 =>
      case 48 => case 49 => case 50 => case 51 => case 52 => case 53 => case 54 => case 55 => case 56 =>
      case 57 => case 58 => case 59 => case 60 => case 61 => case 62 => case 63 =>
    }
  }

  lemma Crc32EntrySum2(n: nat)
    requires 65 <= n < 96 && n != Top(n)
    ensures Crc32Entry(n) == Crc32Entry(Top(n)) ^ Crc32Entry(n - Top(n))
  {
    match n {
      case 65 => case 66 => case 67 => case 68 => case 69 => case 70 => case 71 => case 72 => case 73 =>
      case 74 => case 75 => case 76 => case 77 => case 78 => case 79 =>
      case 80 => case 81 => case 82 => case 83 => case 84 => case 85 => case 86 => case 87 => case 88 =>
      case 89 => case 90 => case 91 => case 92 => case 93 => case 94 => case 95 =>
    }
  }

  lemma Crc32EntrySum3(n: nat)
    requires 96 <= n < 128 && n != Top(n)
    ensures Crc32Entry(n) == Crc32Entry(Top(n)) ^ Crc32Entry(n - Top(n))
  {
    match n {
      case 96 => case 97 => case 98 => case 99 => case 100 => case 101 => case 102 => case 103 => case 104 =>
      case 105 => case 106 => case 107 => case 108 => case 109 => case 110 => case 111 =>
      case 112 => case 113 => case 114 => case 115 => case 116 => case 117 => case 118 => case 119 =>
      case 120 => case 121 => case 122 => case 123 => case 124 => case 125 => case 126 => case 127 =>
    }
  }

  lemma Crc32EntrySum4(n: nat)
    requires 129 <= n < 160 && n != Top(n)
    ensures Crc32Entry(n) == Crc32Entry(Top(n)) ^ Crc32Entry(n - Top(n))
  {
    match n {
      case 129 => case 130 => case 131 => case 132 => case 133 => case 134 => case 135 => case 136 =>
      case 137 => case 138 => case 139 => case 140 => case 141 => case 142 => case 143 =>
      case 144 => case 145 => case 146 => case 147 => case 148 => case 149 => case 150 => case 151 =>
      case 152 => case 153 => case 154 => case 155 => case 156 => case 157 => case 158 => case 159 =>
    }
  }

  lemma Crc32EntrySum5(n: nat)
    requires 160 <= n < 192 && n != Top(n)
    ensures Crc32Entry(n) == Crc32Entry(Top(n)) ^ Crc32Entry(n - Top(n))
  {
    match n {
      case 160 => case 161 => case 162 => case 163 => case 164 => case 165 => case 166 => case 167 =>
      case 168 => case 169 => case 170 => case 171 => case 172 => case 173 => case 174 => case 175 =>
      case 176 => case 177 => case 178 => case 179 => case 180 => case 181 => case 182 => case 183 =>
      case 184 => case 185 => case 186 => case 187 => case 188 => case 189 => case 190 => case 191 =>
    }
  }

  lemma Crc32EntrySum6(n: nat)
    requires 192 <= n < 224 && n != Top(n)
    ensures Crc32Entry(n) == Crc32Entry(Top(n)) ^ Crc32Entry(n - Top(n))
  {
    match n {
      case 192 => case 193 => case 194 => case 195 => case 196 => case 197 => case 198 => case 199 =>
      case 200 => case 201 => case 202 => case 203 => case 204 => case 205 => case 206 => case 207 =>
      case 208 => case 209 => case 210 => case 211 => case 212 => case 213 => case 214 => case 215 =>
      case 216 => case 217 => case 218 => case 219 => case 220 => case 221 => case 222 => case 223 =>
    }
  }

  lemma Crc32EntrySum7(n: nat)
    requires 224 <= n < 256 && n != Top(n)
    ensures Crc32Entry(n) == Crc32Entry(Top(n)) ^ Crc32Entry(n - Top(n))
  {
    match n {
      case 224 => case 225 => case 226 => case 227 => case 228 => case 229 => case 230 => case 231 =>
      case 232 => case 233 => case 234 => case 235 => case 236 => case 237 => case 238 => case 239 =>
      case 240 => case 241 => case 242 => case 243 => case 244 => case 245 => case 246 => case 247 =>
      case 248 => case 249 => case 250 => case 251 => case 252 => case 253 => case 254 => case 255 =>
    }
  }

  lemma Crc16EntrySum0(n: nat)
    requires 1 <= n < 32 && n != Top(n)
    ensures Crc16Entry(n) == Crc16Entry(Top(n)) ^ Crc16Entry(n - Top(n))
  {
    match n {
      case 1 => case 2 => case 3 => case 4 => case 5 => case 6 => case 7 => case 8 => case 9 => case 10 =>
      case 11 => case 12 => case 13 => case 14 => case 15 =>
      case 16 => case 17 => case 18 => case 19 => case 20 => case 21 => case 22 => case 23 => case 24 =>
      case 25 => case 26 => case 27 => case 28 => case 29 => case 30 => case 31 =>
    }
  }

  lemma Crc16EntrySum1(n: nat)
    requires 33 <= n < 64 && n != Top(n)
    ensures Crc16Entry(n) == Crc16Entry(Top(n)) ^ Crc16Entry(n - Top(n))
  {
    match n {
      case 33 => case 34 => case 35 => case 36 => case 37 => case 38 => case 39 => case 40 => case 41 =>
      case 42 => case 43 => case 44 => case 45 => case 46 => case 47 =>
      case 48 => case 49 => case 50 => case 51 => case 52 => case 53 => case 54 => case 55 => case 56 =>
      case 57 => case 58 => case 59 => case 60 => case 61 => case 62 => case 63 =>
    }
  }

  lemma Crc16EntrySum2(n: nat)
    requires 65 <= n < 96 && n != Top(n)
    ensures Crc16Entry(n) == Crc16Entry(Top(n)) ^ Crc16Entry(n - Top(n))
  {
    match n {
      case 65 => case 66 => case 67 => case 68 => case 69 => case 70 => case 71 => case 72 => case 73 =>
      case 74 => case 75 => case 76 => case 77 => case 78 => case 79 =>
      case 80 => case 81 => case 82 => case 83 => case 84 => case 85 => case 86 => case 87 => case 88 =>
      case 89 => case 90 => case 91 => case 92 => case 93 => case 94 => case 95 =>
    }
  }

  lemma Crc16EntrySum3(n: nat)
    requires 96 <= n < 128 && n != Top(n)
    ensures Crc16Entry(n) == Crc16Entry(Top(n)) ^ Crc16Entry(n - Top(n))
  {
    match n {
      case 96 => case 97 => case 98 => case 99 => case 100 => case 101 => case 102 => case 103 => case 104 =>
      case 105 => case 106 => case 107 => case 108 => case 109 => case 110 => case 111 =>
      case 112 => case 113 => case 114 => case 115 => case 116 => case 117 => case 118 => case 119 =>
      case 120 => case 121 => case 122 => case 123 => case 124 => case 125 => case 126 => case 127 =>
    }
  }

  lemma Crc16EntrySum4(n: nat)
    requires 129 <= n < 160 && n != Top(n)
    ensures Crc16Entry(n) == Crc16Entry(Top(n)) ^ Crc16Entry(n - Top(n))
  {
    match n {
      case 129 => case 130 => case 131 => case 132 => case 133 => case 134 => case 135 => case 136 =>
      case 137 => case 138 => case 139 => case 140 => case 141 => case 142 => case 143 =>
      case 144 => case 145 => case 146 => case 147 => case 148 => case 149 => case 150 => case 151 =>
      case 152 => case 153 => case 154 => case 155 => case 156 => case 157 => case 158 => case 159 =>
    }
  }

  lemma Crc16EntrySum5(n: nat)
    requires 160 <= n < 192 && n != Top(n)
    ensures Crc16Entry(n) == Crc16Entry(Top(n)) ^ Crc16Entry(n - Top(n))
  {
    match n {
      case 160 => case 161 => case 162 => case 163 => case 164 => case 165 => case 166 => case 167 =>
      case 168 => case 169 => case 170 => case 171 => case 172 => case 173 => case 174 => case 175 =>
      case 176 => case 177 => case 178 => case 179 => case 180 => case 181 => case 182 => case 183 =>
      case 184 => case 185 => case 186 => case 187 => case 188 => case 189 => case 190 => case 191 =>
    }
  }

  lemma Crc16EntrySum6(n: nat)
    requires 192 <= n < 224 && n != Top(n)
    ensures Crc16Entry(n) == Crc16Entry(Top(n)) ^ Crc16Entry(n - Top(n))
  {
    match n {
      case 192 => case 193 => case 194 => case 195 => case 196 => case 197 => case 198 => case 199 =>
      case 200 => case 201 => case 202 => case 203 => case 204 => case 205 => case 206 => case 207 =>
      case 208 => case 209 => case 210 => case 211 => case 212 => case 213 => case 214 => case 215 =>
      case 216 => case 217 => case 218 => case 219 => case 220 => case 221 => case 222 => case 223 =>
    }
  }

  lemma Crc16EntrySum7(n: nat)
    requires 224 <= n < 256 && n != Top(n)
    ensures Crc16Entry(n) == Crc16Entry(Top(n)) ^ Crc16Entry(n - Top(n))
  {
    match n {
      case 224 => case 225 => case 226 => case 227 => case 228 => case 229 => case 230 => case 231 =>
      case 232 => case 233 => case 234 => case 235 => case 236 => case 237 => case 238 => case 239 =>
      case 240 => case 241 => case 242 => case 243 => case 244 => case 245 => case 246 => case 247 =>
      case 248 => case 249 => case 250 => case 251 => case 252 => case 253 => case 254 => case 255 =>
    }
  }

  const CRC32_TABLE: seq<bv32> := seq(256, i requires 0 <= i < 256 => Crc32Entry(i))
  const CRC16_TABLE: seq<bv32> := seq(256, i requires 0 <= i < 256 => Crc16Entry(i))

  /** crcsw_crc32_config */
  const CRC32_CONFIG := Config(32, Bits(0x04C1_1DB7), Bits(0xFFFF_FFFF), Bits(0xFFFF_FFFF), true, true,
                               Some(AsTable(CRC32_TABLE)))

  /** crcsw_crc16_config */
  const CRC16_CONFIG := Config(16, Bits(0x8005), Bits(0), Bits(0), true, true, Some(AsTable(CRC16_TABLE)))

  lemma Crc32EntrySum(n: nat)
    requires 1 <= n < 256 && n != Top(n)
    ensures Crc32Entry(n) == Crc32Entry(Top(n)) ^ Crc32Entry(n - Top(n))
  {
    hide Crc32Entry;
    if n < 32 {
      Crc32EntrySum0(n);
    } else if n < 64 {
      Crc32EntrySum1(n);
    } else if n < 96 {
      Crc32EntrySum2(n);
    } else if n < 128 {
      Crc32EntrySum3(n);
    } else if n < 160 {
      Crc32EntrySum4(n);
    } else if n < 192 {
      Crc32EntrySum5(n);
    } else if n < 224 {
      Crc32EntrySum6(n);
    } else {
      Crc32EntrySum7(n);
    }
  }

  lemma Crc32Powers()
    ensures var e, q := CRC32_TABLE, 0xEDB8_8320;
            && e[0] == 0 && e[128] == q && e[64] == Step(q, e[128]) && e[32] == Step(q, e[64])
            && e[16] == Step(q, e[32]) && e[8] == Step(q, e[16]) && e[4] == Step(q, e[8])
            && e[2] == Step(q, e[4]) && e[1] == Step(q, e[2])
  {
  }

  lemma Crc32Linear()
    ensures Linear(CRC32_TABLE, 0xEDB8_8320)
  {
    hide Crc32Entry, Step;
    var e := CRC32_TABLE;
    Crc32Powers();
    forall n | 1 <= n < 256 && n != Top(n)
      ensures e[n] == e[Top(n)] ^ e[n - Top(n)]
    {
      Crc32EntrySum(n);
    }
  }

  lemma Crc16EntrySum(n: nat)
    requires 1 <= n < 256 && n != Top(n)
    ensures Crc16Entry(n) == Crc16Entry(Top(n)) ^ Crc16Entry(n - Top(n))
  {
    hide Crc16Entry;
    if n < 32 {
      Crc16EntrySum0(n);
    } else if n < 64 {
      Crc16EntrySum1(n);
    } else if n < 96 {
      Crc16EntrySum2(n);
    } else if n < 128 {
      Crc16EntrySum3(n);
    } else if n < 160 {
      Crc16EntrySum4(n);
    } else if n < 192 {
      Crc16EntrySum5(n);
    } else if n < 224 {
      Crc16EntrySum6(n);
    } else {
      Crc16EntrySum7(n);
    }
  }

  lemma Crc16Powers()
    ensures var e, q := CRC16_TABLE, 0xA001;
            && e[0] == 0 && e[128] == q && e[64] == Step(q, e[128]) && e[32] == Step(q, e[64])
            && e[16] == Step(q, e[32]) && e[8] == Step(q, e[16]) && e[4] == Step(q, e[8])
            && e[2] == Step(q, e[4]) && e[1] == Step(q, e[2])
  {
  }

  lemma Crc16Linear()
    ensures Linear(CRC16_TABLE, 0xA001)
  {
    hide Crc16Entry, Step;
    var e := CRC16_TABLE;
    Crc16Powers();
    forall n | 1 <= n < 256 && n != Top(n)
      ensures e[n] == e[Top(n)] ^ e[n - Top(n)]
    {
      Crc16EntrySum(n);
    }
  }

  lemma Crc32MirrorLow(i: nat)
    requires i < 16
    ensures At(0xEDB8_8320, i) == At(0x04C1_1DB7, 31 - i) && At(0xFFFF_FFFF, i)
  {
    match i {
      case 0 => case 1 => case 2 => case 3 => case 4 => case 5 => case 6 => case 7 =>
      case 8 => case 9 => case 10 => case 11 => case 12 => case 13 => case 14 => case 15 =>
    }
  }

  lemma Crc32MirrorHigh(i: nat)
    requires 16 <= i < 32
    ensures At(0xEDB8_8320, i) == At(0x04C1_1DB7, 31 - i) && At(0xFFFF_FFFF, i)
  {
    match i {
      case 16 => case 17 => case 18 => case 19 => case 20 => case 21 => case 22 => case 23 =>
      case 24 => case 25 => case 26 => case 27 => case 28 => case 29 => case 30 => case 31 =>
    }
  }

  lemma Crc32Generator()
    ensures Bits(0xEDB8_8320) == Reflected(Bits(0x04C1_1DB7), 32)
    ensures Reflected(Bits(0xFFFF_FFFF), 32) == Bits(0xFFFF_FFFF)
  {
    hide At;
    forall i | 0 <= i < 32
      ensures At(0xEDB8_8320, i) == At(0x04C1_1DB7, 31 - i) && At(0xFFFF_FFFF, i)
    {
      if i < 16 {
        Crc32MirrorLow(i);
      } else {
        Crc32MirrorHigh(i);
      }
    }
  }

  lemma Crc16MirrorLow(i: nat)
    requires i < 16
    ensures At(0xA001, i) == At(0x8005, 15 - i)
  {
    match i {
      case 0 => case 1 => case 2 => case 3 => case 4 => case 5 => case 6 => case 7 =>
      case 8 => case 9 => case 10 => case 11 => case 12 => case 13 => case 14 => case 15 =>
    }
  }

  lemma Crc16ThirdByte(i: nat)
    requires 16 <= i < 24
    ensures !At(0xA001, i)
  {
    match i {
      case 16 => case 17 => case 18 => case 19 => case 20 => case 21 => case 22 => case 23 =>
    }
  }

  lemma Crc16FourthByte(i: nat)
    requires 24 <= i < 32
    ensures !At(0xA001, i)
  {
    match i {
      case 24 => case 25 => case 26 => case 27 => case 28 => case 29 => case 30 => case 31 =>
    }
  }

  lemma Crc16Generator()
    ensures Bits(0xA001) == Reflected(Bits(0x8005), 16)
    ensures Reflected(Bits(0), 16) == Bits(0)
  {
    hide At;
    BitsZero();
    forall i | 0 <= i < 32
      ensures At(0xA001, i) == (i < 16 && At(0x8005, 15 - i))
    {
      if i < 16 {
        Crc16MirrorLow(i);
      } else if i < 24 {
        Crc16ThirdByte(i);
      } else {
        Crc16FourthByte(i);
      }
    }
  }

  /** Both literal tables are the tables of their generators. */
  lemma LiteralTables()
    ensures TableFor(AsTable(CRC32_TABLE), Bits(0x04C1_1DB7), 32)
    ensures TableFor(AsTable(CRC16_TABLE), Bits(0x8005), 16)
  {
    Crc32Linear();
    Crc32Generator();
    LinearTable(CRC32_TABLE, 0xEDB8_8320, Bits(0x04C1_1DB7), 32);
    Crc16Linear();
    Crc16Generator();
    LinearTable(CRC16_TABLE, 0xA001, Bits(0x8005), 16);
  }

  /** The shipped table-driven checksums are the ones the bitwise engine computes. */
  lemma ShippedChecksums(msg: seq<Byte>)
    ensures Checksum(CRC32_CONFIG, msg) == Checksum(CRC32_CONFIG.(table := None), msg)
    ensures Checksum(CRC16_CONFIG, msg) == Checksum(CRC16_CONFIG.(table := None), msg)
  {
    LiteralTables();
    Crc32Generator();
    Crc16Generator();
    assert Mirrored(CRC32_CONFIG.(table := None), AsTable(CRC32_TABLE)) == CRC32_CONFIG;
    assert Mirrored(CRC16_CONFIG.(table := None), AsTable(CRC16_TABLE)) == CRC16_CONFIG;
    EnginesAgree(CRC32_CONFIG.(table := None), AsTable(CRC32_TABLE), msg);
    EnginesAgree(CRC16_CONFIG.(table := None), AsTable(CRC16_TABLE), msg);
  }

  lemma ShippedGeneratorsOdd()
    ensures Bits(0x04C1_1DB7)[0] && Bits(0x8005)[0]
  {
  }

  /** The shipped CRC-32 notices every error confined to 32 consecutive bits, low bit of each byte first. */
  lemma Crc32BitBursts(s: seq<Byte>, t: seq<Byte>, pre: Row, a: Row, b: Row, post: Row)
    requires MsgBits(CRC32_CONFIG, s) == pre + a + post && MsgBits(CRC32_CONFIG, t) == pre + b + post
    requires |a| == |b| <= 32 && a != b
    ensures Checksum(CRC32_CONFIG, s) != Checksum(CRC32_CONFIG, t)
  {
    hide Checksum;
    ShippedChecksums(s);
    ShippedChecksums(t);
    ShippedGeneratorsOdd();
    SameBits(CRC32_CONFIG, s);
    SameBits(CRC32_CONFIG, t);
    BitBurstDetected(CRC32_CONFIG.(table := None), s, t, pre, a, b, post);
  }

  /** The shipped CRC-16 notices every error confined to 16 consecutive bits. */
  lemma Crc16BitBursts(s: seq<Byte>, t: seq<Byte>, pre: Row, a: Row, b: Row, post: Row)
    requires MsgBits(CRC16_CONFIG, s) == pre + a + post && MsgBits(CRC16_CONFIG, t) == pre + b + post
    requires |a| == |b| <= 16 && a != b
    ensures Checksum(CRC16_CONFIG, s) != Checksum(CRC16_CONFIG, t)
  {
    hide Checksum;
    ShippedChecksums(s);
    ShippedChecksums(t);
    ShippedGeneratorsOdd();
    SameBits(CRC16_CONFIG, s);
    SameBits(CRC16_CONFIG, t);
    BitBurstDetected(CRC16_CONFIG.(table := None), s, t, pre, a, b, post);
  }

  /** The order of the bits does not depend on the engine. */
  lemma {:induction false} SameBits(c: Config, msg: seq<Byte>)
    ensures MsgBits(c.(table := None), msg) == MsgBits(c, msg)
    decreases |msg|
  {
    if |msg| > 0 {
      SameBits(c, msg[1..]);
    }
  }

  /** The shipped CRC-32 notices every error confined to 4 consecutive bytes. */
  lemma Crc32Bursts(pre: seq<Byte>, a: seq<Byte>, b: seq<Byte>, post: seq<Byte>)
    requires |a| == |b| <= 4 && a != b
    ensures Checksum(CRC32_CONFIG, pre + a + post) != Checksum(CRC32_CONFIG, pre + b + post)
  {
    ShippedChecksums(pre + a + post);
    ShippedChecksums(pre + b + post);
    ShippedGeneratorsOdd();
    BurstDetected(CRC32_CONFIG.(table := None), pre, a, b, post);
  }

  /** The shipped CRC-16 notices every error confined to 2 consecutive bytes. */
  lemma Crc16Bursts(pre: seq<Byte>, a: seq<Byte>, b: seq<Byte>, post: seq<Byte>)
    requires |a| == |b| <= 2 && a != b
    ensures Checksum(CRC16_CONFIG, pre + a + post) != Checksum(CRC16_CONFIG, pre + b + post)
  {
    ShippedChecksums(pre + a + post);
    ShippedChecksums(pre + b + post);
    ShippedGeneratorsOdd();
    BurstDetected(CRC16_CONFIG.(table := None), pre, a, b, post);
  }
}
