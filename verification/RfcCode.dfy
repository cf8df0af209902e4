/** The character column of inc/tbl/hpack_huffman.h, and the Huffman code of RFC 7541 itself. */
module RfcCode {
  import opened Common
  import opened HuffmanCode
  import opened HuffmanTables
  import opened Canonical
  import opened RfcList

  /** The octet of the code `i`. */
  function ChrAt(i: byte): byte {
    if i < 128 then
      if i < 64 then
        if i < 32 then
          if i < 16 then
            if i < 8 then
              if i < 4 then
                if i < 1 then 0x30 else if i < 2 then 0x31 else if i < 3 then 0x32 else 0x61
              else
                if i < 5 then 0x63 else if i < 6 then 0x65 else if i < 7 then 0x69 else 0x6f
            else
              if i < 12 then
                if i < 9 then 0x73 else if i < 10 then 0x74 else if i < 11 then 0x20 else 0x25
              else
                if i < 13 then 0x2d else if i < 14 then 0x2e else if i < 15 then 0x2f else 0x33
          else
            if i < 24 then
              if i < 20 then
                if i < 17 then 0x34 else if i < 18 then 0x35 else if i < 19 then 0x36 else 0x37
              else
                if i < 21 then 0x38 else if i < 22 then 0x39 else if i < 23 then 0x3d else 0x41
            else
              if i < 28 then
                if i < 25 then 0x5f else if i < 26 then 0x62 else if i < 27 then 0x64 else 0x66
              else
                if i < 29 then 0x67 else if i < 30 then 0x68 else if i < 31 then 0x6c else 0x6d
        else
          if i < 48 then
            if i < 40 then
              if i < 36 then
                if i < 33 then 0x6e else if i < 34 then 0x70 else if i < 35 then 0x72 else 0x75
              else
                if i < 37 then 0x3a else if i < 38 then 0x42 else if i < 39 then 0x43 else 0x44
            else
              if i < 44 then
                if i < 41 then 0x45 else if i < 42 then 0x46 else if i < 43 then 0x47 else 0x48
              else
                if i < 45 then 0x49 else if i < 46 then 0x4a else if i < 47 then 0x4b else 0x4c
          else
            if i < 56 then
              if i < 52 then
                if i < 49 then 0x4d else if i < 50 then 0x4e else if i < 51 then 0x4f else 0x50
              else
                if i < 53 then 0x51 else if i < 54 then 0x52 else if i < 55 then 0x53 else 0x54
            else
              if i < 60 then
                if i < 57 then 0x55 else if i < 58 then 0x56 else if i < 59 then 0x57 else 0x59
              else
                if i < 61 then 0x6a else if i < 62 then 0x6b else if i < 63 then 0x71 else 0x76
      else
        if i < 96 then
          if i < 80 then
            if i < 72 then
              if i < 68 then
                if i < 65 then 0x77 else if i < 66 then 0x78 else if i < 67 then 0x79 else 0x7a
              else
                if i < 69 then 0x26 else if i < 70 then 0x2a else if i < 71 then 0x2c else 0x3b
            else
              if i < 76 then
                if i < 73 then 0x58 else if i < 74 then 0x5a else if i < 75 then 0x21 else 0x22
              else
                if i < 77 then 0x28 else if i < 78 then 0x29 else if i < 79 then 0x3f else 0x27
          else
            if i < 88 then
              if i < 84 then
                if i < 81 then 0x2b else if i < 82 then 0x7c else if i < 83 then 0x23 else 0x3e
              else
                if i < 85 then 0x00 else if i < 86 then 0x24 else if i < 87 then 0x40 else 0x5b
            else
              if i < 92 then
                if i < 89 then 0x5d else if i < 90 then 0x7e else if i < 91 then 0x5e else 0x7d
              else
                if i < 93 then 0x3c else if i < 94 then 0x60 else if i < 95 then 0x7b else 0x5c
        else
          if i < 112 then
            if i < 104 then
              if i < 100 then
                if i < 97 then 0xc3 else if i < 98 then 0xd0 else if i < 99 then 0x80 else 0x82
              else
                if i < 101 then 0x83 else if i < 102 then 0xa2 else if i < 103 then 0xb8 else 0xc2
            else
              if i < 108 then
                if i < 105 then 0xe0 else if i < 106 then 0xe2 else if i < 107 then 0x99 else 0xa1
              else
                if i < 109 then 0xa7 else if i < 110 then 0xac else if i < 111 then 0xb0 else 0xb1
          else
            if i < 120 then
              if i < 116 then
                if i < 113 then 0xb3 else if i < 114 then 0xd1 else if i < 115 then 0xd8 else 0xd9
              else
                if i < 117 then 0xe3 else if i < 118 then 0xe5 else if i < 119 then 0xe6 else 0x81
            else
              if i < 124 then
                if i < 121 then 0x84 else if i < 122 then 0x85 else if i < 123 then 0x86 else 0x88
              else
                if i < 125 then 0x92 else if i < 126 then 0x9a else if i < 127 then 0x9c else 0xa0
    else
      if i < 192 then
        if i < 160 then
          if i < 144 then
            if i < 136 then
              if i < 132 then
                if i < 129 then 0xa3 else if i < 130 then 0xa4 else if i < 131 then 0xa9 else 0xaa
              else
                if i < 133 then 0xad else if i < 134 then 0xb2 else if i < 135 then 0xb5 else 0xb9
            else
              if i < 140 then
                if i < 137 then 0xba else if i < 138 then 0xbb else if i < 139 then 0xbd else 0xbe
              else
                if i < 141 then 0xc4 else if i < 142 then 0xc6 else if i < 143 then 0xe4 else 0xe8
          else
            if i < 152 then
              if i < 148 then
                if i < 145 then 0xe9 else if i < 146 then 0x01 else if i < 147 then 0x87 else 0x89
              else
                if i < 149 then 0x8a else if i < 150 then 0x8b else if i < 151 then 0x8c else 0x8d
            else
              if i < 156 then
                if i < 153 then 0x8f else if i < 154 then 0x93 else if i < 155 then 0x95 else 0x96
              else
                if i < 157 then 0x97 else if i < 158 then 0x98 else if i < 159 then 0x9b else 0x9d
        else
          if i < 176 then
            if i < 168 then
              if i < 164 then
                if i < 161 then 0x9e else if i < 162 then 0xa5 else if i < 163 then 0xa6 else 0xa8
              else
                if i < 165 then 0xae else if i < 166 then 0xaf else if i < 167 then 0xb4 else 0xb6
            else
              if i < 172 then
                if i < 169 then 0xb7 else if i < 170 then 0xbc else if i < 171 then 0xbf else 0xc5
              else
                if i < 173 then 0xe7 else if i < 174 then 0xef else if i < 175 then 0x09 else 0x8e
          else
            if i < 184 then
              if i < 180 then
                if i < 177 then 0x90 else if i < 178 then 0x91 else if i < 179 then 0x94 else 0x9f
              else
                if i < 181 then 0xab else if i < 182 then 0xce else if i < 183 then 0xd7 else 0xe1
            else
              if i < 188 then
                if i < 185 then 0xec else if i < 186 then 0xed else if i < 187 then 0xc7 else 0xcf
              else
                if i < 189 then 0xea else if i < 190 then 0xeb else if i < 191 then 0xc0 else 0xc1
      else
        if i < 224 then
          if i < 208 then
            if i < 200 then
              if i < 196 then
                if i < 193 then 0xc8 else if i < 194 then 0xc9 else if i < 195 then 0xca else 0xcd
              else
                if i < 197 then 0xd2 else if i < 198 then 0xd5 else if i < 199 then 0xda else 0xdb
            else
              if i < 204 then
                if i < 201 then 0xee else if i < 202 then 0xf0 else if i < 203 then 0xf2 else 0xf3
              else
                if i < 205 then 0xff else if i < 206 then 0xcb else if i < 207 then 0xcc else 0xd3
          else
            if i < 216 then
              if i < 212 then
                if i < 209 then 0xd4 else if i < 210 then 0xd6 else if i < 211 then 0xdd else 0xde
              else
                if i < 213 then 0xdf else if i < 214 then 0xf1 else if i < 215 then 0xf4 else 0xf5
            else
              if i < 220 then
                if i < 217 then 0xf6 else if i < 218 then 0xf7 else if i < 219 then 0xf8 else 0xfa
              else
                if i < 221 then 0xfb else if i < 222 then 0xfc else if i < 223 then 0xfd else 0xfe
        else
          if i < 240 then
            if i < 232 then
              if i < 228 then
                if i < 225 then 0x02 else if i < 226 then 0x03 else if i < 227 then 0x04 else 0x05
              else
                if i < 229 then 0x06 else if i < 230 then 0x07 else if i < 231 then 0x08 else 0x0b
            else
              if i < 236 then
                if i < 233 then 0x0c else if i < 234 then 0x0e else if i < 235 then 0x0f else 0x10
              else
                if i < 237 then 0x11 else if i < 238 then 0x12 else if i < 239 then 0x13 else 0x14
          else
            if i < 248 then
              if i < 244 then
                if i < 241 then 0x15 else if i < 242 then 0x17 else if i < 243 then 0x18 else 0x19
              else
                if i < 245 then 0x1a else if i < 246 then 0x1b else if i < 247 then 0x1c else 0x1d
            else
              if i < 252 then
                if i < 249 then 0x1e else if i < 250 then 0x1f else if i < 251 then 0x7f else 0xdc
              else
                if i < 253 then 0xf9 else if i < 254 then 0x0a else if i < 255 then 0x0d else 0x16
  }

  /** The position of the code of the octet `k`: the table of gen/hpack_huf_enc.c. */
  function EncAt(k: byte): byte {
    if k < 128 then
      if k < 64 then
        if k < 32 then
          if k < 16 then
            if k < 8 then
              if k < 4 then
                if k < 1 then 84 else if k < 2 then 145 else if k < 3 then 224 else 225
              else
                if k < 5 then 226 else if k < 6 then 227 else if k < 7 then 228 else 229
            else
              if k < 12 then
                if k < 9 then 230 else if k < 10 then 174 else if k < 11 then 253 else 231
              else
                if k < 13 then 232 else if k < 14 then 254 else if k < 15 then 233 else 234
          else
            if k < 24 then
              if k < 20 then
                if k < 17 then 235 else if k < 18 then 236 else if k < 19 then 237 else 238
              else
                if k < 21 then 239 else if k < 22 then 240 else if k < 23 then 255 else 241
            else
              if k < 28 then
                if k < 25 then 242 else if k < 26 then 243 else if k < 27 then 244 else 245
              else
                if k < 29 then 246 else if k < 30 then 247 else if k < 31 then 248 else 249
        else
          if k < 48 then
            if k < 40 then
              if k < 36 then
                if k < 33 then 10 else if k < 34 then 74 else if k < 35 then 75 else 82
              else
                if k < 37 then 85 else if k < 38 then 11 else if k < 39 then 68 else 79
            else
              if k < 44 then
                if k < 41 then 76 else if k < 42 then 77 else if k < 43 then 69 else 80
              else
                if k < 45 then 70 else if k < 46 then 12 else if k < 47 then 13 else 14
          else
            if k < 56 then
              if k < 52 then
                if k < 49 then 0 else if k < 50 then 1 else if k < 51 then 2 else 15
              else
                if k < 53 then 16 else if k < 54 then 17 else if k < 55 then 18 else 19
            else
              if k < 60 then
                if k < 57 then 20 else if k < 58 then 21 else if k < 59 then 36 else 71
              else
                if k < 61 then 92 else if k < 62 then 22 else if k < 63 then 83 else 78
      else
        if k < 96 then
          if k < 80 then
            if k < 72 then
              if k < 68 then
                if k < 65 then 86 else if k < 66 then 23 else if k < 67 then 37 else 38
              else
                if k < 69 then 39 else if k < 70 then 40 else if k < 71 then 41 else 42
            else
              if k < 76 then
                if k < 73 then 43 else if k < 74 then 44 else if k < 75 then 45 else 46
              else
                if k < 77 then 47 else if k < 78 then 48 else if k < 79 then 49 else 50
          else
            if k < 88 then
              if k < 84 then
                if k < 81 then 51 else if k < 82 then 52 else if k < 83 then 53 else 54
              else
                if k < 85 then 55 else if k < 86 then 56 else if k < 87 then 57 else 58
            else
              if k < 92 then
                if k < 89 then 72 else if k < 90 then 59 else if k < 91 then 73 else 87
              else
                if k < 93 then 95 else if k < 94 then 88 else if k < 95 then 90 else 24
        else
          if k < 112 then
            if k < 104 then
              if k < 100 then
                if k < 97 then 93 else if k < 98 then 3 else if k < 99 then 25 else 4
              else
                if k < 101 then 26 else if k < 102 then 5 else if k < 103 then 27 else 28
            else
              if k < 108 then
                if k < 105 then 29 else if k < 106 then 6 else if k < 107 then 60 else 61
              else
                if k < 109 then 30 else if k < 110 then 31 else if k < 111 then 32 else 7
          else
            if k < 120 then
              if k < 116 then
                if k < 113 then 33 else if k < 114 then 62 else if k < 115 then 34 else 8
              else
                if k < 117 then 9 else if k < 118 then 35 else if k < 119 then 63 else 64
            else
              if k < 124 then
                if k < 121 then 65 else if k < 122 then 66 else if k < 123 then 67 else 94
              else
                if k < 125 then 81 else if k < 126 then 91 else if k < 127 then 89 else 250
    else
      if k < 192 then
        if k < 160 then
          if k < 144 then
            if k < 136 then
              if k < 132 then
                if k < 129 then 98 else if k < 130 then 119 else if k < 131 then 99 else 100
              else
                if k < 133 then 120 else if k < 134 then 121 else if k < 135 then 122 else 146
            else
              if k < 140 then
                if k < 137 then 123 else if k < 138 then 147 else if k < 139 then 148 else 149
              else
                if k < 141 then 150 else if k < 142 then 151 else if k < 143 then 175 else 152
          else
            if k < 152 then
              if k < 148 then
                if k < 145 then 176 else if k < 146 then 177 else if k < 147 then 124 else 153
              else
                if k < 149 then 178 else if k < 150 then 154 else if k < 151 then 155 else 156
            else
              if k < 156 then
                if k < 153 then 157 else if k < 154 then 106 else if k < 155 then 125 else 158
              else
                if k < 157 then 126 else if k < 158 then 159 else if k < 159 then 160 else 179
        else
          if k < 176 then
            if k < 168 then
              if k < 164 then
                if k < 161 then 127 else if k < 162 then 107 else if k < 163 then 101 else 128
              else
                if k < 165 then 129 else if k < 166 then 161 else if k < 167 then 162 else 108
            else
              if k < 172 then
                if k < 169 then 163 else if k < 170 then 130 else if k < 171 then 131 else 180
              else
                if k < 173 then 109 else if k < 174 then 132 else if k < 175 then 164 else 165
          else
            if k < 184 then
              if k < 180 then
                if k < 177 then 110 else if k < 178 then 111 else if k < 179 then 133 else 112
              else
                if k < 181 then 166 else if k < 182 then 134 else if k < 183 then 167 else 168
            else
              if k < 188 then
                if k < 185 then 102 else if k < 186 then 135 else if k < 187 then 136 else 137
              else
                if k < 189 then 169 else if k < 190 then 138 else if k < 191 then 139 else 170
      else
        if k < 224 then
          if k < 208 then
            if k < 200 then
              if k < 196 then
                if k < 193 then 190 else if k < 194 then 191 else if k < 195 then 103 else 96
              else
                if k < 197 then 140 else if k < 198 then 171 else if k < 199 then 141 else 186
            else
              if k < 204 then
                if k < 201 then 192 else if k < 202 then 193 else if k < 203 then 194 else 205
              else
                if k < 205 then 206 else if k < 206 then 195 else if k < 207 then 181 else 187
          else
            if k < 216 then
              if k < 212 then
                if k < 209 then 97 else if k < 210 then 113 else if k < 211 then 196 else 207
              else
                if k < 213 then 208 else if k < 214 then 197 else if k < 215 then 209 else 182
            else
              if k < 220 then
                if k < 217 then 114 else if k < 218 then 115 else if k < 219 then 198 else 199
              else
                if k < 221 then 251 else if k < 222 then 210 else if k < 223 then 211 else 212
        else
          if k < 240 then
            if k < 232 then
              if k < 228 then
                if k < 225 then 104 else if k < 226 then 183 else if k < 227 then 105 else 116
              else
                if k < 229 then 142 else if k < 230 then 117 else if k < 231 then 118 else 172
            else
              if k < 236 then
                if k < 233 then 143 else if k < 234 then 144 else if k < 235 then 188 else 189
              else
                if k < 237 then 184 else if k < 238 then 185 else if k < 239 then 200 else 173
          else
            if k < 248 then
              if k < 244 then
                if k < 241 then 201 else if k < 242 then 213 else if k < 243 then 202 else 203
              else
                if k < 245 then 214 else if k < 246 then 215 else if k < 247 then 216 else 217
            else
              if k < 252 then
                if k < 249 then 218 else if k < 250 then 252 else if k < 251 then 219 else 220
              else
                if k < 253 then 221 else if k < 254 then 222 else if k < 255 then 223 else 204
  }

  lemma EncOfChrLow(i: byte)
    requires i < 128
    ensures EncAt(ChrAt(i)) == i
  {}

  lemma EncOfChrHigh(i: byte)
    requires i >= 128
    ensures EncAt(ChrAt(i)) == i
  {}

  lemma EncOfChr(i: byte)
    ensures EncAt(ChrAt(i)) == i
  {
    if i < 128 { EncOfChrLow(i); } else { EncOfChrHigh(i); }
    hide EncAt; hide ChrAt;
  }

  lemma ChrOfEncLow(k: byte)
    requires k < 128
    ensures ChrAt(EncAt(k)) == k
  {}

  lemma ChrOfEncHigh(k: byte)
    requires k >= 128
    ensures ChrAt(EncAt(k)) == k
  {}

  lemma ChrOfEnc(k: byte)
    ensures ChrAt(EncAt(k)) == k
  {
    if k < 128 { ChrOfEncLow(k); } else { ChrOfEncHigh(k); }
    hide EncAt; hide ChrAt;
  }

  function Chrs(): (s: seq<byte>)
    ensures |s| == 256
  {
    seq(256, i requires 0 <= i < 256 => ChrAt(i))
  }

  function Rfc7541(): Code {
    Code(Syms(Chrs()), seq(256, k requires 0 <= k < 256 => EncAt(k)))
  }

  /** The code of RFC 7541 is a prefix code that spares EOS, and the two tables printed from it invert each other. */
  lemma Rfc7541IsCode()
    ensures WfCode(Rfc7541()) && Inverse(Rfc7541().syms, Rfc7541().enc)
  {
    var c := Rfc7541();
    forall k: byte
      ensures c.syms[c.enc[k]].chr == k && c.enc[c.syms[k].chr] == k
    {
      EncOfChr(k);
      ChrOfEnc(k);
    }
    hide ChrAt; hide EncAt; hide SymAt;
    assert forall i :: 0 <= i < 256 ==> c.syms[i].chr == ChrAt(i);
    RfcIsCode(Chrs(), c.enc);
  }

  /** The decoding tables of the library. */
  method DecodingTables() returns (ts: Tables)
    ensures WfTables(Rfc7541(), ts)
  {
    Rfc7541IsCode();
    hide ChrAt; hide EncAt; hide Syms;
    ts := RfcTables(Chrs(), Rfc7541().enc);
  }
}
