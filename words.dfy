/** Fixed-width machine integers of the interpreter: `u8` and `u16` values
    as bounded integers, with the wrapping arithmetic the instructions use
    and the bitwise operators `&`, `|`, `^`, `<<`, `>>` defined on the
    binary digits of natural numbers. */
module Words {

  /** An unsigned 8-bit value (Rust `u8`). */
  newtype byte = x: int | 0 <= x < 0x100

  /** An unsigned 16-bit value (Rust `u16`). */
  newtype word = x: int | 0 <= x < 0x1_0000

  function Pow2(k: nat): (r: nat)
    ensures r >= 1
  {
    if k == 0 then 1 else 2 * Pow2(k - 1)
  }

  /** Wrapping 8-bit addition (`Wrapping<u8> + Wrapping<u8>`). */
  function Add8(a: byte, b: byte): byte
  {
    ((a as int + b as int) % 0x100) as byte
  }

  /** Wrapping 8-bit subtraction; Dafny's `%` is Euclidean, so a negative
      difference wraps the way `Wrapping<u8> - Wrapping<u8>` does. */
  function Sub8(a: byte, b: byte): byte
  {
    ((a as int - b as int) % 0x100) as byte
  }

  /** Wrapping 16-bit addition (a `u16` `+` with overflow checks off). */
  function Add16(a: int, b: int): word
  {
    ((a + b) % 0x1_0000) as word
  }

  /** Wrapping 16-bit subtraction. */
  function Sub16(a: int, b: int): word
  {
    ((a - b) % 0x1_0000) as word
  }

  /** Taking `k` off a 16-bit value and adding it back restores the value,
      whatever the wrap-around in between. */
  lemma SubAddCancels(a: int, k: int)
    requires 0 <= a < 0x1_0000
    ensures Add16(Sub16(a, k) as int, k) as int == a
  {
    var q := (a - k) / 0x1_0000;
    assert Sub16(a, k) as int + k == a - 0x1_0000 * q;
  }

  /** Two wrapping 16-bit additions in a row wrap the total once. */
  lemma AddAddWraps(a: int, j: int, k: int)
    ensures Add16(Add16(a, j) as int, k) as int == (a + j + k) % 0x1_0000
  {
    var q := (a + j) / 0x1_0000;
    assert Add16(a, j) as int + k == a + j + k - 0x1_0000 * q;
  }

  /** Bitwise AND of the binary expansions of `a` and `b`. */
  function And(a: nat, b: nat): nat
    decreases a
  {
    if a == 0 || b == 0 then 0
    else 2 * And(a / 2, b / 2) + (if a % 2 == 1 && b % 2 == 1 then 1 else 0)
  }

  /** Bitwise OR of the binary expansions of `a` and `b`. */
  function Or(a: nat, b: nat): nat
    decreases a + b
  {
    if a == 0 then b
    else if b == 0 then a
    else 2 * Or(a / 2, b / 2) + (if a % 2 == 1 || b % 2 == 1 then 1 else 0)
  }

  /** Bitwise XOR of the binary expansions of `a` and `b`. */
  function Xor(a: nat, b: nat): nat
    decreases a + b
  {
    if a == 0 then b
    else if b == 0 then a
    else 2 * Xor(a / 2, b / 2) + (if a % 2 != b % 2 then 1 else 0)
  }

  /** `a >> k`: `k` halvings. */
  function Shr(a: nat, k: nat): nat
  {
    if k == 0 then a else Shr(a / 2, k - 1)
  }

  /** `a << k`, before any truncation to a width: `k` doublings. */
  function Shl(a: nat, k: nat): nat
  {
    if k == 0 then a else 2 * Shl(a, k - 1)
  }

  /** Shifting left by eight or more clears the low byte, and truncating
      to 16 bits keeps it clear. */
  lemma {:induction false} ShlClearsLowByte(a: nat, k: nat)
    ensures 8 <= k ==> Shl(a, k) % 0x1_0000 % 0x100 == 0
  {
    if 8 <= k {
      ShlMultiple(a, k);
      var q := Shl(a, k) / 0x100;
      var w := q / 0x100;
      assert Shl(a, k) == 0x1_0000 * w + 0x100 * (q % 0x100);
    }
  }

  /** `a << k` for `k >= 8` is a multiple of 256. */
  lemma {:induction false} ShlMultiple(a: nat, k: nat)
    requires 8 <= k
    ensures Shl(a, k) % 0x100 == 0
  {
    if k == 8 {
      ShlEight(a);
    } else {
      ShlMultiple(a, k - 1);
      var q := Shl(a, k - 1) / 0x100;
      assert Shl(a, k) == 0x100 * (2 * q);
    }
  }

  lemma ShlEight(a: nat)
    ensures Shl(a, 8) == 0x100 * a
  {
    assert Shl(a, 1) == 2 * a;
    assert Shl(a, 2) == 4 * a;
    assert Shl(a, 3) == 8 * a;
    assert Shl(a, 4) == 16 * a;
    assert Shl(a, 5) == 32 * a;
    assert Shl(a, 6) == 64 * a;
    assert Shl(a, 7) == 128 * a;
  }

  /** Bit `k` of a bitwise AND, OR and XOR is the AND, OR and XOR of the
      operands' bits `k`. */
  lemma {:induction false} AndBit(a: nat, b: nat, k: nat)
    ensures (Shr(And(a, b), k) % 2 == 1) == (Shr(a, k) % 2 == 1 && Shr(b, k) % 2 == 1)
  {
    if k > 0 {
      AndBit(a / 2, b / 2, k - 1);
    }
  }

  lemma {:induction false} OrBit(a: nat, b: nat, k: nat)
    ensures (Shr(Or(a, b), k) % 2 == 1) == (Shr(a, k) % 2 == 1 || Shr(b, k) % 2 == 1)
  {
    if k > 0 {
      OrBit(a / 2, b / 2, k - 1);
    }
  }

  lemma {:induction false} XorBit(a: nat, b: nat, k: nat)
    ensures (Shr(Xor(a, b), k) % 2 == 1) == ((Shr(a, k) % 2 == 1) != (Shr(b, k) % 2 == 1))
  {
    if k > 0 {
      XorBit(a / 2, b / 2, k - 1);
    }
  }

  lemma {:induction false} AndBelow(a: nat, b: nat)
    ensures And(a, b) <= a
  {
    if a != 0 && b != 0 {
      AndBelow(a / 2, b / 2);
    }
  }

  lemma {:induction false} ShrBelow(a: nat, k: nat)
    ensures Shr(a, k) <= a
  {
    if k > 0 {
      ShrBelow(a / 2, k - 1);
    }
  }

  lemma {:induction false} OrBelow(a: nat, b: nat, n: nat)
    requires a < Pow2(n) && b < Pow2(n)
    ensures Or(a, b) < Pow2(n)
  {
    if a != 0 && b != 0 {
      OrBelow(a / 2, b / 2, n - 1);
    }
  }

  lemma {:induction false} XorBelow(a: nat, b: nat, n: nat)
    requires a < Pow2(n) && b < Pow2(n)
    ensures Xor(a, b) < Pow2(n)
  {
    if a != 0 && b != 0 {
      XorBelow(a / 2, b / 2, n - 1);
    }
  }

  /** Bitwise `&` on bytes: no larger than either operand. */
  function And8(a: byte, b: byte): (r: byte)
    ensures r <= a && r <= b
  {
    AndBelow(a as nat, b as nat);
    AndCommutes(a as nat, b as nat);
    AndBelow(b as nat, a as nat);
    And(a as nat, b as nat) as byte
  }

  /** Bitwise `|` on bytes. */
  function Or8(a: byte, b: byte): byte
  {
    OrBelow(a as nat, b as nat, 8);
    Or(a as nat, b as nat) as byte
  }

  /** Bitwise `^` on bytes. */
  function Xor8(a: byte, b: byte): byte
  {
    XorBelow(a as nat, b as nat, 8);
    Xor(a as nat, b as nat) as byte
  }

  /** The set bits of `a` are among the set bits of `m`. */
  predicate BitsWithin(a: nat, m: nat)
  {
    And(a, m) == a
  }

  /** Bit `k` (0 = least significant) of a byte is set: the character in
      position `7 - k` of its `{:08b}` rendering is `'1'`. */
  predicate Bit(b: byte, k: nat)
    requires k < 8
  {
    Shr(b as nat, k) % 2 == 1
  }

  /** `k` is at most 8 here, so the shift cannot overflow a byte. */
  function Shr8(a: byte, k: nat): (r: byte)
    requires k < 8
  {
    ShrBelow(a as nat, k);
    Shr(a as nat, k) as byte
  }

  lemma {:induction false} AndCommutes(a: nat, b: nat)
    ensures And(a, b) == And(b, a)
  {
    if a != 0 && b != 0 {
      AndCommutes(a / 2, b / 2);
    }
  }

  /** A bitwise AND keeps only bits of its second operand. */
  lemma {:induction false} AndWithin(a: nat, m: nat)
    ensures BitsWithin(And(a, m), m)
  {
    if a != 0 && m != 0 {
      AndWithin(a / 2, m / 2);
      var h := And(a / 2, m / 2);
      var low := if a % 2 == 1 && m % 2 == 1 then 1 else 0;
      assert (2 * h + low) / 2 == h && (2 * h + low) % 2 == low;
    }
  }
}
