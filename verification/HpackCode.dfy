/** The Huffman code of RFC 7541 Appendix B (src/fastapi_mojo_rs/src/bridge/hpack_huffman.rs):
    the code table, its inverse by length class, and the proof that it is a complete
    canonical code. */
module HpackCode {
  import opened Bits
  import opened CanonicalCode

  const EOS: nat := 256

  // ---------- the code table, sixteen symbols at a time ----------

  function Codes0(s: nat): Word {
    match s
    case 0 => Word(0x1ff8, 13) case 1 => Word(0x7fffd8, 23) case 2 => Word(0xfffffe2, 28) case 3 => Word(0xfffffe3, 28)
    case 4 => Word(0xfffffe4, 28) case 5 => Word(0xfffffe5, 28)
    case 6 => Word(0xfffffe6, 28) case 7 => Word(0xfffffe7, 28)
    case 8 => Word(0xfffffe8, 28) case 9 => Word(0xffffea, 24)
    case 10 => Word(0x3ffffffc, 30) case 11 => Word(0xfffffe9, 28)
    case 12 => Word(0xfffffea, 28) case 13 => Word(0x3ffffffd, 30)
    case 14 => Word(0xfffffeb, 28) case _ => Word(0xfffffec, 28)
  }

  function Codes16(s: nat): Word {
    match s
    case 16 => Word(0xfffffed, 28) case 17 => Word(0xfffffee, 28)
    case 18 => Word(0xfffffef, 28) case 19 => Word(0xffffff0, 28)
    case 20 => Word(0xffffff1, 28) case 21 => Word(0xffffff2, 28)
    case 22 => Word(0x3ffffffe, 30) case 23 => Word(0xffffff3, 28)
    case 24 => Word(0xffffff4, 28) case 25 => Word(0xffffff5, 28)
    case 26 => Word(0xffffff6, 28) case 27 => Word(0xffffff7, 28)
    case 28 => Word(0xffffff8, 28) case 29 => Word(0xffffff9, 28)
    case 30 => Word(0xffffffa, 28) case _ => Word(0xffffffb, 28)
  }

  function Codes32(s: nat): Word {
    match s
    case 32 => Word(0x14, 6) case 33 => Word(0x3f8, 10) case 34 => Word(0x3f9, 10) case 35 => Word(0xffa, 12)
    case 36 => Word(0x1ff9, 13) case 37 => Word(0x15, 6) case 38 => Word(0xf8, 8) case 39 => Word(0x7fa, 11)
    case 40 => Word(0x3fa, 10) case 41 => Word(0x3fb, 10) case 42 => Word(0xf9, 8) case 43 => Word(0x7fb, 11)
    case 44 => Word(0xfa, 8) case 45 => Word(0x16, 6) case 46 => Word(0x17, 6) case _ => Word(0x18, 6)
  }

  function Codes48(s: nat): Word {
    match s
    case 48 => Word(0x0, 5) case 49 => Word(0x1, 5) case 50 => Word(0x2, 5) case 51 => Word(0x19, 6)
    case 52 => Word(0x1a, 6) case 53 => Word(0x1b, 6) case 54 => Word(0x1c, 6) case 55 => Word(0x1d, 6)
    case 56 => Word(0x1e, 6) case 57 => Word(0x1f, 6) case 58 => Word(0x5c, 7) case 59 => Word(0xfb, 8)
    case 60 => Word(0x7ffc, 15) case 61 => Word(0x20, 6) case 62 => Word(0xffb, 12) case _ => Word(0x3fc, 10)
  }

  function Codes64(s: nat): Word {
    match s
    case 64 => Word(0x1ffa, 13) case 65 => Word(0x21, 6) case 66 => Word(0x5d, 7) case 67 => Word(0x5e, 7)
    case 68 => Word(0x5f, 7) case 69 => Word(0x60, 7) case 70 => Word(0x61, 7) case 71 => Word(0x62, 7)
    case 72 => Word(0x63, 7) case 73 => Word(0x64, 7) case 74 => Word(0x65, 7) case 75 => Word(0x66, 7)
    case 76 => Word(0x67, 7) case 77 => Word(0x68, 7) case 78 => Word(0x69, 7) case _ => Word(0x6a, 7)
  }

  function Codes80(s: nat): Word {
    match s
    case 80 => Word(0x6b, 7) case 81 => Word(0x6c, 7) case 82 => Word(0x6d, 7) case 83 => Word(0x6e, 7)
    case 84 => Word(0x6f, 7) case 85 => Word(0x70, 7) case 86 => Word(0x71, 7) case 87 => Word(0x72, 7)
    case 88 => Word(0xfc, 8) case 89 => Word(0x73, 7) case 90 => Word(0xfd, 8) case 91 => Word(0x1ffb, 13)
    case 92 => Word(0x7fff0, 19) case 93 => Word(0x1ffc, 13) case 94 => Word(0x3ffc, 14) case _ => Word(0x22, 6)
  }

  function Codes96(s: nat): Word {
    match s
    case 96 => Word(0x7ffd, 15) case 97 => Word(0x3, 5) case 98 => Word(0x23, 6) case 99 => Word(0x4, 5)
    case 100 => Word(0x24, 6) case 101 => Word(0x5, 5) case 102 => Word(0x25, 6) case 103 => Word(0x26, 6)
    case 104 => Word(0x27, 6) case 105 => Word(0x6, 5) case 106 => Word(0x74, 7) case 107 => Word(0x75, 7)
    case 108 => Word(0x28, 6) case 109 => Word(0x29, 6) case 110 => Word(0x2a, 6) case _ => Word(0x7, 5)
  }

  function Codes112(s: nat): Word {
    match s
    case 112 => Word(0x2b, 6) case 113 => Word(0x76, 7) case 114 => Word(0x2c, 6) case 115 => Word(0x8, 5)
    case 116 => Word(0x9, 5) case 117 => Word(0x2d, 6) case 118 => Word(0x77, 7) case 119 => Word(0x78, 7)
    case 120 => Word(0x79, 7) case 121 => Word(0x7a, 7) case 122 => Word(0x7b, 7) case 123 => Word(0x7ffe, 15)
    case 124 => Word(0x7fc, 11) case 125 => Word(0x3ffd, 14) case 126 => Word(0x1ffd, 13) case _ => Word(0xffffffc, 28)
  }

  function Codes128(s: nat): Word {
    match s
    case 128 => Word(0xfffe6, 20) case 129 => Word(0x3fffd2, 22)
    case 130 => Word(0xfffe7, 20) case 131 => Word(0xfffe8, 20)
    case 132 => Word(0x3fffd3, 22) case 133 => Word(0x3fffd4, 22)
    case 134 => Word(0x3fffd5, 22) case 135 => Word(0x7fffd9, 23)
    case 136 => Word(0x3fffd6, 22) case 137 => Word(0x7fffda, 23)
    case 138 => Word(0x7fffdb, 23) case 139 => Word(0x7fffdc, 23)
    case 140 => Word(0x7fffdd, 23) case 141 => Word(0x7fffde, 23)
    case 142 => Word(0xffffeb, 24) case _ => Word(0x7fffdf, 23)
  }

  function Codes144(s: nat): Word {
    match s
    case 144 => Word(0xffffec, 24) case 145 => Word(0xffffed, 24)
    case 146 => Word(0x3fffd7, 22) case 147 => Word(0x7fffe0, 23)
    case 148 => Word(0xffffee, 24) case 149 => Word(0x7fffe1, 23)
    case 150 => Word(0x7fffe2, 23) case 151 => Word(0x7fffe3, 23)
    case 152 => Word(0x7fffe4, 23) case 153 => Word(0x1fffdc, 21)
    case 154 => Word(0x3fffd8, 22) case 155 => Word(0x7fffe5, 23)
    case 156 => Word(0x3fffd9, 22) case 157 => Word(0x7fffe6, 23)
    case 158 => Word(0x7fffe7, 23) case _ => Word(0xffffef, 24)
  }

  function Codes160(s: nat): Word {
    match s
    case 160 => Word(0x3fffda, 22) case 161 => Word(0x1fffdd, 21)
    case 162 => Word(0xfffe9, 20) case 163 => Word(0x3fffdb, 22)
    case 164 => Word(0x3fffdc, 22) case 165 => Word(0x7fffe8, 23)
    case 166 => Word(0x7fffe9, 23) case 167 => Word(0x1fffde, 21)
    case 168 => Word(0x7fffea, 23) case 169 => Word(0x3fffdd, 22)
    case 170 => Word(0x3fffde, 22) case 171 => Word(0xfffff0, 24)
    case 172 => Word(0x1fffdf, 21) case 173 => Word(0x3fffdf, 22)
    case 174 => Word(0x7fffeb, 23) case _ => Word(0x7fffec, 23)
  }

  function Codes176(s: nat): Word {
    match s
    case 176 => Word(0x1fffe0, 21) case 177 => Word(0x1fffe1, 21)
    case 178 => Word(0x3fffe0, 22) case 179 => Word(0x1fffe2, 21)
    case 180 => Word(0x7fffed, 23) case 181 => Word(0x3fffe1, 22)
    case 182 => Word(0x7fffee, 23) case 183 => Word(0x7fffef, 23)
    case 184 => Word(0xfffea, 20) case 185 => Word(0x3fffe2, 22)
    case 186 => Word(0x3fffe3, 22) case 187 => Word(0x3fffe4, 22)
    case 188 => Word(0x7ffff0, 23) case 189 => Word(0x3fffe5, 22)
    case 190 => Word(0x3fffe6, 22) case _ => Word(0x7ffff1, 23)
  }

  function Codes192(s: nat): Word {
    match s
    case 192 => Word(0x3ffffe0, 26) case 193 => Word(0x3ffffe1, 26)
    case 194 => Word(0xfffeb, 20) case 195 => Word(0x7fff1, 19)
    case 196 => Word(0x3fffe7, 22) case 197 => Word(0x7ffff2, 23)
    case 198 => Word(0x3fffe8, 22) case 199 => Word(0x1ffffec, 25)
    case 200 => Word(0x3ffffe2, 26) case 201 => Word(0x3ffffe3, 26)
    case 202 => Word(0x3ffffe4, 26) case 203 => Word(0x7ffffde, 27)
    case 204 => Word(0x7ffffdf, 27) case 205 => Word(0x3ffffe5, 26)
    case 206 => Word(0xfffff1, 24) case _ => Word(0x1ffffed, 25)
  }

  function Codes208(s: nat): Word {
    match s
    case 208 => Word(0x7fff2, 19) case 209 => Word(0x1fffe3, 21)
    case 210 => Word(0x3ffffe6, 26) case 211 => Word(0x7ffffe0, 27)
    case 212 => Word(0x7ffffe1, 27) case 213 => Word(0x3ffffe7, 26)
    case 214 => Word(0x7ffffe2, 27) case 215 => Word(0xfffff2, 24)
    case 216 => Word(0x1fffe4, 21) case 217 => Word(0x1fffe5, 21)
    case 218 => Word(0x3ffffe8, 26) case 219 => Word(0x3ffffe9, 26)
    case 220 => Word(0xffffffd, 28) case 221 => Word(0x7ffffe3, 27)
    case 222 => Word(0x7ffffe4, 27) case _ => Word(0x7ffffe5, 27)
  }

  function Codes224(s: nat): Word {
    match s
    case 224 => Word(0xfffec, 20) case 225 => Word(0xfffff3, 24)
    case 226 => Word(0xfffed, 20) case 227 => Word(0x1fffe6, 21)
    case 228 => Word(0x3fffe9, 22) case 229 => Word(0x1fffe7, 21)
    case 230 => Word(0x1fffe8, 21) case 231 => Word(0x7ffff3, 23)
    case 232 => Word(0x3fffea, 22) case 233 => Word(0x3fffeb, 22)
    case 234 => Word(0x1ffffee, 25) case 235 => Word(0x1ffffef, 25)
    case 236 => Word(0xfffff4, 24) case 237 => Word(0xfffff5, 24)
    case 238 => Word(0x3ffffea, 26) case _ => Word(0x7ffff4, 23)
  }

  function Codes240(s: nat): Word {
    match s
    case 240 => Word(0x3ffffeb, 26) case 241 => Word(0x7ffffe6, 27)
    case 242 => Word(0x3ffffec, 26) case 243 => Word(0x3ffffed, 26)
    case 244 => Word(0x7ffffe7, 27) case 245 => Word(0x7ffffe8, 27)
    case 246 => Word(0x7ffffe9, 27) case 247 => Word(0x7ffffea, 27)
    case 248 => Word(0x7ffffeb, 27) case 249 => Word(0xffffffe, 28)
    case 250 => Word(0x7ffffec, 27) case 251 => Word(0x7ffffed, 27)
    case 252 => Word(0x7ffffee, 27) case 253 => Word(0x7ffffef, 27)
    case 254 => Word(0x7fffff0, 27) case _ => Word(0x3ffffee, 26)
  }

  /** The code word of a symbol; 256 is EOS. */
  function CodeOf(s: nat): Word
    requires s <= EOS
  {
    if s < 16 then Codes0(s)
    else if s < 32 then Codes16(s)
    else if s < 48 then Codes32(s)
    else if s < 64 then Codes48(s)
    else if s < 80 then Codes64(s)
    else if s < 96 then Codes80(s)
    else if s < 112 then Codes96(s)
    else if s < 128 then Codes112(s)
    else if s < 144 then Codes128(s)
    else if s < 160 then Codes144(s)
    else if s < 176 then Codes160(s)
    else if s < 192 then Codes176(s)
    else if s < 208 then Codes192(s)
    else if s < 224 then Codes208(s)
    else if s < 240 then Codes224(s)
    else if s < 256 then Codes240(s)
    else Word(0x3fffffff, 30)
  }

  /** How many code words each length has. */
  const COUNT: seq<nat> := [
    0, 0, 0, 0, 0, 10, 26, 32, 6, 0, 5, 3, 2, 6, 2, 3,
    0, 0, 0, 3, 8, 13, 26, 29, 12, 4, 15, 19, 29, 0, 4]

  /** The symbols of each length, in code order. */
  function SymbolsOf(len: nat): seq<nat> {
    match len
    case 5 => [48, 49, 50, 97, 99, 101, 105, 111, 115, 116]
    case 6 => [32, 37, 45, 46, 47, 51, 52, 53, 54, 55, 56, 57, 61, 65, 95, 98, 100, 102, 103, 104, 108, 109,
        110, 112, 114, 117]
    case 7 => [58, 66, 67, 68, 69, 70, 71, 72, 73, 74, 75, 76, 77, 78, 79, 80, 81, 82, 83, 84, 85, 86, 87, 89,
        106, 107, 113, 118, 119, 120, 121, 122]
    case 8 => [38, 42, 44, 59, 88, 90]
    case 10 => [33, 34, 40, 41, 63]
    case 11 => [39, 43, 124]
    case 12 => [35, 62]
    case 13 => [0, 36, 64, 91, 93, 126]
    case 14 => [94, 125]
    case 15 => [60, 96, 123]
    case 19 => [92, 195, 208]
    case 20 => [128, 130, 131, 162, 184, 194, 224, 226]
    case 21 => [153, 161, 167, 172, 176, 177, 179, 209, 216, 217, 227, 229, 230]
    case 22 => [129, 132, 133, 134, 136, 146, 154, 156, 160, 163, 164, 169, 170, 173, 178, 181, 185, 186, 187,
        189, 190, 196, 198, 228, 232, 233]
    case 23 => [1, 135, 137, 138, 139, 140, 141, 143, 147, 149, 150, 151, 152, 155, 157, 158, 165, 166, 168,
        174, 175, 180, 182, 183, 188, 191, 197, 231, 239]
    case 24 => [9, 142, 144, 145, 148, 159, 171, 206, 215, 225, 236, 237]
    case 25 => [199, 207, 234, 235]
    case 26 => [192, 193, 200, 201, 202, 205, 210, 213, 218, 219, 238, 240, 242, 243, 255]
    case 27 => [203, 204, 211, 212, 214, 221, 222, 223, 241, 244, 245, 246, 247, 248, 250, 251, 252, 253, 254]
    case 28 => [2, 3, 4, 5, 6, 7, 8, 11, 12, 14, 15, 16, 17, 18, 19, 20, 21, 23, 24, 25, 26, 27, 28, 29, 30,
        31, 127, 220, 249]
    case 30 => [10, 13, 22, 256]
    case _ => []
  }

  /** The first code of each length. */
  function StartOf(len: nat): nat {
    match len
    case 6 => 0x14 case 7 => 0x5c case 8 => 0xf8 case 9 => 0x1fc case 10 => 0x3f8 case 11 => 0x7fa
    case 12 => 0xffa case 13 => 0x1ff8 case 14 => 0x3ffc case 15 => 0x7ffc case 16 => 0xfffe case 17 => 0x1fffc
    case 18 => 0x3fff8 case 19 => 0x7fff0 case 20 => 0xfffe6 case 21 => 0x1fffdc case 22 => 0x3fffd2 case 23 => 0x7fffd8
    case 24 => 0xffffea case 25 => 0x1ffffec case 26 => 0x3ffffe0
    case 27 => 0x7ffffde case 28 => 0xfffffe2 case 29 => 0x1ffffffe
    case 30 => 0x3ffffffc
    case _ => 0
  }

  /** The word of symbol s is found in the inverse table, at s. */
  predicate Found(s: nat, w: Word) {
    && StartOf(w.len) <= w.code < StartOf(w.len) + |SymbolsOf(w.len)|
    && SymbolsOf(w.len)[w.code - StartOf(w.len)] == s
  }

  /** The j-th symbol of a length class has the j-th code of the class. */
  predicate Listed(len: nat, j: nat)
    requires j < |SymbolsOf(len)|
  {
    SymbolsOf(len)[j] <= EOS && CodeOf(SymbolsOf(len)[j]) == Word(StartOf(len) + j, len)
  }

  // ---------- the two tables are inverse, a few entries at a time ----------

  lemma Found0(s: nat) requires 0 <= s < 4 ensures Found(s, Codes0(s)) { }
  lemma Found4(s: nat) requires 4 <= s < 8 ensures Found(s, Codes0(s)) { }
  lemma Found8(s: nat) requires 8 <= s < 12 ensures Found(s, Codes0(s)) { }
  lemma Found12(s: nat) requires 12 <= s < 16 ensures Found(s, Codes0(s)) { }
  lemma Found16(s: nat) requires 16 <= s < 20 ensures Found(s, Codes16(s)) { }
  lemma Found20(s: nat) requires 20 <= s < 24 ensures Found(s, Codes16(s)) { }
  lemma Found24(s: nat) requires 24 <= s < 28 ensures Found(s, Codes16(s)) { }
  lemma Found28(s: nat) requires 28 <= s < 32 ensures Found(s, Codes16(s)) { }
  lemma Found32(s: nat) requires 32 <= s < 36 ensures Found(s, Codes32(s)) { }
  lemma Found36(s: nat) requires 36 <= s < 40 ensures Found(s, Codes32(s)) { }
  lemma Found40(s: nat) requires 40 <= s < 44 ensures Found(s, Codes32(s)) { }
  lemma Found44(s: nat) requires 44 <= s < 48 ensures Found(s, Codes32(s)) { }
  lemma Found48(s: nat) requires 48 <= s < 52 ensures Found(s, Codes48(s)) { }
  lemma Found52(s: nat) requires 52 <= s < 56 ensures Found(s, Codes48(s)) { }
  lemma Found56(s: nat) requires 56 <= s < 60 ensures Found(s, Codes48(s)) { }
  lemma Found60(s: nat) requires 60 <= s < 64 ensures Found(s, Codes48(s)) { }
  lemma Found64(s: nat) requires 64 <= s < 68 ensures Found(s, Codes64(s)) { }
  lemma Found68(s: nat) requires 68 <= s < 72 ensures Found(s, Codes64(s)) { }
  lemma Found72(s: nat) requires 72 <= s < 76 ensures Found(s, Codes64(s)) { }
  lemma Found76(s: nat) requires 76 <= s < 80 ensures Found(s, Codes64(s)) { }
  lemma Found80(s: nat) requires 80 <= s < 84 ensures Found(s, Codes80(s)) { }
  lemma Found84(s: nat) requires 84 <= s < 88 ensures Found(s, Codes80(s)) { }
  lemma Found88(s: nat) requires 88 <= s < 92 ensures Found(s, Codes80(s)) { }
  lemma Found92(s: nat) requires 92 <= s < 96 ensures Found(s, Codes80(s)) { }
  lemma Found96(s: nat) requires 96 <= s < 100 ensures Found(s, Codes96(s)) { }
  lemma Found100(s: nat) requires 100 <= s < 104 ensures Found(s, Codes96(s)) { }
  lemma Found104(s: nat) requires 104 <= s < 108 ensures Found(s, Codes96(s)) { }
  lemma Found108(s: nat) requires 108 <= s < 112 ensures Found(s, Codes96(s)) { }
  lemma Found112(s: nat) requires 112 <= s < 116 ensures Found(s, Codes112(s)) { }
  lemma Found116(s: nat) requires 116 <= s < 120 ensures Found(s, Codes112(s)) { }
  lemma Found120(s: nat) requires 120 <= s < 124 ensures Found(s, Codes112(s)) { }
  lemma Found124(s: nat) requires 124 <= s < 128 ensures Found(s, Codes112(s)) { }
  lemma Found128(s: nat) requires 128 <= s < 132 ensures Found(s, Codes128(s)) { }
  lemma Found132(s: nat) requires 132 <= s < 136 ensures Found(s, Codes128(s)) { }
  lemma Found136(s: nat) requires 136 <= s < 140 ensures Found(s, Codes128(s)) { }
  lemma Found140(s: nat) requires 140 <= s < 144 ensures Found(s, Codes128(s)) { }
  lemma Found144(s: nat) requires 144 <= s < 148 ensures Found(s, Codes144(s)) { }
  lemma Found148(s: nat) requires 148 <= s < 152 ensures Found(s, Codes144(s)) { }
  lemma Found152(s: nat) requires 152 <= s < 156 ensures Found(s, Codes144(s)) { }
  lemma Found156(s: nat) requires 156 <= s < 160 ensures Found(s, Codes144(s)) { }
  lemma Found160(s: nat) requires 160 <= s < 164 ensures Found(s, Codes160(s)) { }
  lemma Found164(s: nat) requires 164 <= s < 168 ensures Found(s, Codes160(s)) { }
  lemma Found168(s: nat) requires 168 <= s < 172 ensures Found(s, Codes160(s)) { }
  lemma Found172(s: nat) requires 172 <= s < 176 ensures Found(s, Codes160(s)) { }
  lemma Found176(s: nat) requires 176 <= s < 180 ensures Found(s, Codes176(s)) { }
  lemma Found180(s: nat) requires 180 <= s < 184 ensures Found(s, Codes176(s)) { }
  lemma Found184(s: nat) requires 184 <= s < 188 ensures Found(s, Codes176(s)) { }
  lemma Found188(s: nat) requires 188 <= s < 192 ensures Found(s, Codes176(s)) { }
  lemma Found192(s: nat) requires 192 <= s < 196 ensures Found(s, Codes192(s)) { }
  lemma Found196(s: nat) requires 196 <= s < 200 ensures Found(s, Codes192(s)) { }
  lemma Found200(s: nat) requires 200 <= s < 204 ensures Found(s, Codes192(s)) { }
  lemma Found204(s: nat) requires 204 <= s < 208 ensures Found(s, Codes192(s)) { }
  lemma Found208(s: nat) requires 208 <= s < 212 ensures Found(s, Codes208(s)) { }
  lemma Found212(s: nat) requires 212 <= s < 216 ensures Found(s, Codes208(s)) { }
  lemma Found216(s: nat) requires 216 <= s < 220 ensures Found(s, Codes208(s)) { }
  lemma Found220(s: nat) requires 220 <= s < 224 ensures Found(s, Codes208(s)) { }
  lemma Found224(s: nat) requires 224 <= s < 228 ensures Found(s, Codes224(s)) { }
  lemma Found228(s: nat) requires 228 <= s < 232 ensures Found(s, Codes224(s)) { }
  lemma Found232(s: nat) requires 232 <= s < 236 ensures Found(s, Codes224(s)) { }
  lemma Found236(s: nat) requires 236 <= s < 240 ensures Found(s, Codes224(s)) { }
  lemma Found240(s: nat) requires 240 <= s < 244 ensures Found(s, Codes240(s)) { }
  lemma Found244(s: nat) requires 244 <= s < 248 ensures Found(s, Codes240(s)) { }
  lemma Found248(s: nat) requires 248 <= s < 252 ensures Found(s, Codes240(s)) { }
  lemma Found252(s: nat) requires 252 <= s < 256 ensures Found(s, Codes240(s)) { }

  lemma Listed5(j: nat) requires j < 10 ensures Listed(5, j) { }
  lemma Listed6At0(j: nat) requires j < 16 ensures Listed(6, j) { }
  lemma Listed6At16(j: nat) requires 16 <= j < 26 ensures Listed(6, j) { }
  lemma Listed7At0(j: nat) requires j < 16 ensures Listed(7, j) { }
  lemma Listed7At16(j: nat) requires 16 <= j < 32 ensures Listed(7, j) { }
  lemma Listed8(j: nat) requires j < 6 ensures Listed(8, j) { }
  lemma Listed10(j: nat) requires j < 5 ensures Listed(10, j) { }
  lemma Listed11(j: nat) requires j < 3 ensures Listed(11, j) { }
  lemma Listed12(j: nat) requires j < 2 ensures Listed(12, j) { }
  lemma Listed13(j: nat) requires j < 6 ensures Listed(13, j) { }
  lemma Listed14(j: nat) requires j < 2 ensures Listed(14, j) { }
  lemma Listed15(j: nat) requires j < 3 ensures Listed(15, j) { }
  lemma Listed19(j: nat) requires j < 3 ensures Listed(19, j) { }
  lemma Listed20(j: nat) requires j < 8 ensures Listed(20, j) { }
  lemma Listed21(j: nat) requires j < 13 ensures Listed(21, j) { }
  lemma Listed22At0(j: nat) requires j < 16 ensures Listed(22, j) { }
  lemma Listed22At16(j: nat) requires 16 <= j < 26 ensures Listed(22, j) { }
  lemma Listed23At0(j: nat) requires j < 16 ensures Listed(23, j) { }
  lemma Listed23At16(j: nat) requires 16 <= j < 29 ensures Listed(23, j) { }
  lemma Listed24(j: nat) requires j < 12 ensures Listed(24, j) { }
  lemma Listed25(j: nat) requires j < 4 ensures Listed(25, j) { }
  lemma Listed26(j: nat) requires j < 15 ensures Listed(26, j) { }
  lemma Listed27At0(j: nat) requires j < 16 ensures Listed(27, j) { }
  lemma Listed27At16(j: nat) requires 16 <= j < 19 ensures Listed(27, j) { }
  lemma Listed28At0(j: nat) requires j < 16 ensures Listed(28, j) { }
  lemma Listed28At16(j: nat) requires 16 <= j < 29 ensures Listed(28, j) { }
  lemma Listed30(j: nat) requires j < 4 ensures Listed(30, j) { }

  lemma FoundEos()
    ensures Found(EOS, CodeOf(EOS))
  {
  }

  /** Every code word is found again in the inverse table. */
  lemma EveryCodeFound(s: nat)
    requires s <= EOS
    ensures Found(s, CodeOf(s))
  {
    hide Found, Codes0, Codes16, Codes32, Codes48, Codes64, Codes80, Codes96, Codes112,
         Codes128, Codes144, Codes160, Codes176, Codes192, Codes208, Codes224, Codes240;
    match s / 4 {
      case 0 => Found0(s);
      case 1 => Found4(s);
      case 2 => Found8(s);
      case 3 => Found12(s);
      case 4 => Found16(s);
      case 5 => Found20(s);
      case 6 => Found24(s);
      case 7 => Found28(s);
      case 8 => Found32(s);
      case 9 => Found36(s);
      case 10 => Found40(s);
      case 11 => Found44(s);
      case 12 => Found48(s);
      case 13 => Found52(s);
      case 14 => Found56(s);
      case 15 => Found60(s);
      case 16 => Found64(s);
      case 17 => Found68(s);
      case 18 => Found72(s);
      case 19 => Found76(s);
      case 20 => Found80(s);
      case 21 => Found84(s);
      case 22 => Found88(s);
      case 23 => Found92(s);
      case 24 => Found96(s);
      case 25 => Found100(s);
      case 26 => Found104(s);
      case 27 => Found108(s);
      case 28 => Found112(s);
      case 29 => Found116(s);
      case 30 => Found120(s);
      case 31 => Found124(s);
      case 32 => Found128(s);
      case 33 => Found132(s);
      case 34 => Found136(s);
      case 35 => Found140(s);
      case 36 => Found144(s);
      case 37 => Found148(s);
      case 38 => Found152(s);
      case 39 => Found156(s);
      case 40 => Found160(s);
      case 41 => Found164(s);
      case 42 => Found168(s);
      case 43 => Found172(s);
      case 44 => Found176(s);
      case 45 => Found180(s);
      case 46 => Found184(s);
      case 47 => Found188(s);
      case 48 => Found192(s);
      case 49 => Found196(s);
      case 50 => Found200(s);
      case 51 => Found204(s);
      case 52 => Found208(s);
      case 53 => Found212(s);
      case 54 => Found216(s);
      case 55 => Found220(s);
      case 56 => Found224(s);
      case 57 => Found228(s);
      case 58 => Found232(s);
      case 59 => Found236(s);
      case 60 => Found240(s);
      case 61 => Found244(s);
      case 62 => Found248(s);
      case 63 => Found252(s);
      case _ => FoundEos();
    }
  }

  /** Every word of every length class belongs to a symbol. */
  lemma EveryWordListed(len: nat, j: nat)
    requires j < |SymbolsOf(len)|
    ensures Listed(len, j)
  {
    hide CodeOf, Listed;
    match len {
      case 5 => Listed5(j);
      case 6 => if j < 16 { Listed6At0(j); } else { Listed6At16(j); }
      case 7 => if j < 16 { Listed7At0(j); } else { Listed7At16(j); }
      case 8 => Listed8(j);
      case 10 => Listed10(j);
      case 11 => Listed11(j);
      case 12 => Listed12(j);
      case 13 => Listed13(j);
      case 14 => Listed14(j);
      case 15 => Listed15(j);
      case 19 => Listed19(j);
      case 20 => Listed20(j);
      case 21 => Listed21(j);
      case 22 => if j < 16 { Listed22At0(j); } else { Listed22At16(j); }
      case 23 => if j < 16 { Listed23At0(j); } else { Listed23At16(j); }
      case 24 => Listed24(j);
      case 25 => Listed25(j);
      case 26 => Listed26(j);
      case 27 => if j < 16 { Listed27At0(j); } else { Listed27At16(j); }
      case 28 => if j < 16 { Listed28At0(j); } else { Listed28At16(j); }
      case 30 => Listed30(j);
      case _ =>
    }
  }


  // ---------- the code is canonical and complete ----------

  lemma ClassStep(k: nat)
    requires k < 30
    ensures StartOf(k + 1) == 2 * (StartOf(k) + COUNT[k])
  {
  }

  lemma {:induction false} FirstIsStart(k: nat)
    requires k <= 30
    ensures First(COUNT, k) == StartOf(k)
  {
    hide StartOf;
    if k > 0 {
      FirstIsStart(k - 1);
      ClassStep(k - 1);
    } else {
      assert StartOf(0) == 0 by { StartOfZero(); }
    }
  }

  lemma StartOfZero()
    ensures StartOf(0) == 0
  {
  }

  lemma CountIsClassSize(k: nat)
    requires k <= 30
    ensures COUNT[k] == |SymbolsOf(k)|
  {
  }

  lemma NoLongerClass(len: nat)
    ensures SymbolsOf(len) != [] ==> 0 < len <= 30
  {
  }

  function Book(): (book: seq<Word>)
    ensures |book| == EOS + 1
    ensures forall s :: 0 <= s <= EOS ==> book[s] == CodeOf(s)
  {
    seq(EOS + 1, s requires 0 <= s <= EOS => CodeOf(s))
  }

  lemma FoundIsWithin(s: nat)
    requires s <= EOS
    ensures CodeOf(s).len > 0 && WithinClass(CodeOf(s), COUNT)
  {
    hide CodeOf, StartOf, SymbolsOf;
    var w := CodeOf(s);
    EveryCodeFound(s);
    NoLongerClass(w.len);
    FirstIsStart(w.len);
    CountIsClassSize(w.len);
  }

  /** The code of RFC 7541 Appendix B is canonical, so it is prefix-free. */
  lemma BookIsCanonical()
    ensures IsCanonical(Book(), COUNT)
  {
    hide CodeOf, StartOf, SymbolsOf, Found, Listed, Book;
    var book := Book();
    forall s | 0 <= s < |book| && book[s].len != 0
      ensures WithinClass(book[s], COUNT)
    {
      FoundIsWithin(s);
    }
    forall s, t | 0 <= s < |book| && 0 <= t < |book| && book[s].len != 0 && book[s] == book[t]
      ensures s == t
    {
      SameCodeSameSymbol(s, t);
    }
    forall k, c | 0 < k < |COUNT| && First(COUNT, k) <= c < Past(COUNT, k)
      ensures Word(c, k) in book
    {
      var s := SymbolWithCode(k, c);
      assert book[s] == Word(c, k);
    }
  }

  lemma SameCodeSameSymbol(s: nat, t: nat)
    requires s <= EOS && t <= EOS && CodeOf(s) == CodeOf(t)
    ensures s == t
  {
    hide CodeOf, StartOf, SymbolsOf;
    EveryCodeFound(s);
    EveryCodeFound(t);
  }

  lemma SymbolWithCode(k: nat, c: nat) returns (s: nat)
    requires 0 < k <= 30 && First(COUNT, k) <= c < Past(COUNT, k)
    ensures s <= EOS && CodeOf(s) == Word(c, k)
  {
    hide CodeOf, StartOf, SymbolsOf, First;
    FirstIsStart(k);
    CountIsClassSize(k);
    EveryWordListed(k, c - StartOf(k));
    s := SymbolsOf(k)[c - StartOf(k)];
  }

  /** It is complete at 30 bits, and below 8 bits the all-ones string is past every word. */
  lemma BookIsComplete()
    ensures Past(COUNT, 30) == Pow2(30)
    ensures forall k :: 0 <= k <= 7 ==> Past(COUNT, k) < Pow2(k)
  {
    hide First;
    Pow2Small();
    Pow2Add(10, 10);
    Pow2Add(20, 10);
    FirstIsStart(30);
    forall k | 0 <= k <= 7
      ensures Past(COUNT, k) < Pow2(k)
    {
      FirstIsStart(k);
    }
  }
}
