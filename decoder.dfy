/** The opcode field extractors of `src/lib.rs` (`hex_nibble`, `lsb`,
    `gsb`, `left_truncate`): pure mask-and-shift functions on a 16-bit
    opcode. */
module Decoder {
  import opened Words

  /** The positional weight `16^n` of hexadecimal digit `n` of a 16-bit
      word. */
  function NibbleWeight(n: nat): nat
    requires n < 4
  {
    if n == 0 then 1 else if n == 1 then 0x10 else if n == 2 then 0x100 else 0x1000
  }

  /** `hex_nibble(opcode, nibble)`: mask out nibble `nibble` (0 = least
      significant) and shift it down. A shift amount of 16 or more would
      overflow, so the caller must ask for one of the four nibbles. */
  function HexNibble(opcode: word, nibble: nat): (r: word)
    requires nibble < 4
    ensures r < 16
    ensures r as int == (opcode as int / NibbleWeight(nibble)) % 16
  {
    var k := 4 * nibble;
    AndShifted(opcode as nat, 0xF, k);
    ShrShl(And(Shr(opcode as nat, k), 0xF), k);
    AndLowNibble(Shr(opcode as nat, k));
    ShrByNibbles(opcode as nat, nibble);
    Shr(And(opcode as nat, Shl(0xF, k)), k) as word
  }

  /** `lsb`: the least significant nibble. */
  function Lsb(opcode: word): (r: word)
    ensures r < 16 && r as int == opcode as int % 16
  {
    HexNibble(opcode, 0)
  }

  /** `gsb`: the most significant nibble, the instruction family. */
  function Gsb(opcode: word): (r: word)
    ensures r < 16 && r as int == opcode as int / 0x1000
  {
    HexNibble(opcode, 3)
  }

  /** `left_truncate(opcode, n)`: despite its name this shifts RIGHT, so it
      drops the `n` LOW nibbles and keeps the high ones. */
  function LeftTruncate(opcode: word, nibblesToDrop: nat): (r: word)
    requires nibblesToDrop < 4
    ensures r as int == opcode as int / NibbleWeight(nibblesToDrop)
  {
    ShrByNibbles(opcode as nat, nibblesToDrop);
    Shr(opcode as nat, 4 * nibblesToDrop) as word
  }

  /** The four nibbles reassemble the opcode, so the decoder loses nothing. */
  lemma NibblesReassemble(opcode: word)
    ensures opcode as int == Gsb(opcode) as int * 0x1000 + HexNibble(opcode, 2) as int * 0x100
                            + HexNibble(opcode, 1) as int * 0x10 + Lsb(opcode) as int
  {
    DigitSplit(opcode as int);
  }

  /** What the "address" and "immediate" operands really are: dropping one
      nibble keeps the family nibble, X and Y; dropping two keeps the
      family nibble and X, the high byte. */
  lemma TruncatedOperands(opcode: word)
    ensures LeftTruncate(opcode, 1) as int == Gsb(opcode) as int * 0x100 + HexNibble(opcode, 2) as int * 0x10
                                             + HexNibble(opcode, 1) as int
    ensures LeftTruncate(opcode, 2) as int == Gsb(opcode) as int * 0x10 + HexNibble(opcode, 2) as int
    ensures LeftTruncate(opcode, 2) < 0x100
  {
    DigitSplit(opcode as int);
  }

  /** Base-16 digit arithmetic for a 16-bit value. */
  lemma DigitSplit(a: int)
    requires 0 <= a < 0x1_0000
    ensures a / 16 == (a / 256) * 16 + (a / 16) % 16
    ensures a / 256 == (a / 4096) * 16 + (a / 256) % 16
    ensures a == (a / 16) * 16 + a % 16
    ensures a / 4096 < 16 && (a / 4096) % 16 == a / 4096
  {
  }

  /** A mask shifted up by `k` bits ANDs the bits of `a` above position `k`. */
  lemma {:induction false} AndShifted(a: nat, m: nat, k: nat)
    ensures And(a, Shl(m, k)) == Shl(And(Shr(a, k), m), k)
  {
    if k > 0 {
      AndShifted(a / 2, m, k - 1);
      var c := Shl(m, k - 1);
      if a == 0 || c == 0 {
        ShrZero(k - 1);
        ShlZero(m, k - 1);
        AndZero(Shr(a, k), m);
        ShlZero(And(Shr(a, k), m), k);
      } else {
        assert And(a, 2 * c) == 2 * And(a / 2, c);
      }
    }
  }

  lemma AndZero(a: nat, m: nat)
    requires a == 0 || m == 0
    ensures And(a, m) == 0
  {
  }

  lemma {:induction false} ShrZero(k: nat)
    ensures Shr(0, k) == 0
  {
    if k > 0 {
      ShrZero(k - 1);
    }
  }

  lemma {:induction false} ShlZero(m: nat, k: nat)
    ensures Shl(m, k) == 0 <==> m == 0
  {
    if k > 0 {
      ShlZero(m, k - 1);
    }
  }

  lemma {:induction false} ShrShl(a: nat, k: nat)
    ensures Shr(Shl(a, k), k) == a
  {
    if k > 0 {
      ShrShl(a, k - 1);
      ShrOfDouble(Shl(a, k - 1), k - 1);
    }
  }

  lemma {:induction false} ShrOfDouble(a: nat, k: nat)
    ensures Shr(2 * a, k + 1) == Shr(a, k)
  {
  }

  lemma {:induction false} ShrAdd(a: nat, j: nat, k: nat)
    ensures Shr(a, j + k) == Shr(Shr(a, j), k)
  {
    if j > 0 {
      ShrAdd(a / 2, j - 1, k);
    }
  }

  lemma ShrNibble(a: nat)
    ensures Shr(a, 4) == a / 16
  {
    assert Shr(a, 4) == Shr(a / 2, 3) == Shr(a / 2 / 2, 2) == Shr(a / 2 / 2 / 2, 1);
  }

  lemma ShrByNibbles(a: nat, n: nat)
    requires n < 4
    ensures Shr(a, 4 * n) == a / NibbleWeight(n)
  {
    if n == 1 {
      ShrNibble(a);
    } else if n == 2 {
      ShrAdd(a, 4, 4);
      ShrNibble(a);
      ShrNibble(a / 16);
      NibbleDivisions(a);
    } else if n == 3 {
      ShrAdd(a, 4, 4);
      ShrAdd(a, 8, 4);
      ShrNibble(a);
      ShrNibble(a / 16);
      ShrNibble(a / 256);
      NibbleDivisions(a);
    }
  }

  /** Dividing by 16 twice or three times divides by 0x100 or 0x1000. */
  lemma NibbleDivisions(a: nat)
    ensures a / 16 / 16 == a / 0x100 && a / 0x100 / 16 == a / 0x1000
  {
    var q1, q2, q3 := a / 16, a / 16 / 16, a / 16 / 16 / 16;
    assert a == 16 * q1 + a % 16 && q1 == 16 * q2 + q1 % 16;
    assert a == 0x100 * q2 + (16 * (q1 % 16) + a % 16) && 0 <= 16 * (q1 % 16) + a % 16 < 0x100;
    assert q2 == 16 * q3 + q2 % 16;
    assert a == 0x1000 * q3 + (0x100 * (q2 % 16) + 16 * (q1 % 16) + a % 16);
  }

  /** ANDing with `0xF` keeps the low four bits. */
  lemma AndLowNibble(a: nat)
    ensures And(a, 0xF) == a % 16
  {
    var a1, a2, a3 := a / 2, a / 4, a / 8;
    assert a2 == a1 / 2 && a3 == a2 / 2;
    assert And(a3, 1) == a3 % 2;
    assert And(a2, 3) == 2 * And(a3, 1) + a2 % 2;
    assert And(a1, 7) == 2 * And(a2, 3) + a1 % 2;
    assert And(a, 0xF) == 2 * And(a1, 7) + a % 2;
    HalfMod4(a2);
    HalfMod8(a1);
    HalfMod16(a);
  }

  /** The remainder modulo 4 in terms of the remainder of the half. */
  lemma HalfMod4(a: nat)
    ensures a % 4 == 2 * ((a / 2) % 2) + a % 2
  {
    var h, b := a / 2, a % 2;
    var k, t := h / 2, h % 2;
    assert a == 2 * h + b;
    assert h == 2 * k + t;
    assert a == 4 * k + (2 * t + b) && 0 <= 2 * t + b < 4;
  }

  /** The remainder modulo 8 in terms of the remainder of the half. */
  lemma HalfMod8(a: nat)
    ensures a % 8 == 2 * ((a / 2) % 4) + a % 2
  {
    var h, b := a / 2, a % 2;
    var k, t := h / 4, h % 4;
    assert a == 2 * h + b;
    assert h == 4 * k + t;
    assert a == 8 * k + (2 * t + b) && 0 <= 2 * t + b < 8;
  }

  /** The remainder modulo 16 in terms of the remainder of the half. */
  lemma HalfMod16(a: nat)
    ensures a % 16 == 2 * ((a / 2) % 8) + a % 2
  {
    var h, b := a / 2, a % 2;
    var k, t := h / 8, h % 8;
    assert a == 2 * h + b;
    assert h == 8 * k + t;
    assert a == 16 * k + (2 * t + b) && 0 <= 2 * t + b < 16;
  }
}
