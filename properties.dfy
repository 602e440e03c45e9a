/** Properties of the reference semantics: what each instruction family,
    the key handshake, the timer decay and the reset promise, stated over
    `Semantics.Exec` and its siblings. */
module Properties {
  import opened Words
  import opened Decoder
  import opened Semantics
  import opened Geometry

  // ---------------------------------------------------------------------
  // Lock handshake and the program counter

  /** While locked, `eval_opcode` changes nothing, not even `pc`. */
  lemma LockedIsFrozen(s: State, op: word, rnd: byte)
    requires WellFormed(s) && s.locked
    ensures NoPanic(s, op) && Exec(s, op, rnd) == s
  {
  }

  /** The families that do not touch `pc` or the stack end with exactly one
      `pc += 2`. */
  lemma PlainInstructionAdvancesPc(s: State, op: word, rnd: byte)
    requires WellFormed(s) && NoPanic(s, op) && !s.locked
    requires Gsb(op) in {0x6, 0x7, 0x8, 0xA, 0xC, 0xD, 0xF}
    ensures Exec(s, op, rnd).pc as int == (s.pc as int + 2) % 0x1_0000
    ensures Exec(s, op, rnd).stack == s.stack
  {
  }

  /** `FXNA` locks the machine on register X; nothing else runs until a
      key press, which writes the key into `v[X]` and unlocks. */
  lemma WaitForKey(s: State, op: word, rnd: byte, later: word, rnd2: byte, k: byte)
    requires WellFormed(s) && !s.locked && Gsb(op) == 0xF && LowNibble(op) == 0xA
    requires k as nat < KeyCount
    ensures NoPanic(s, op)
    ensures Exec(s, op, rnd) == s.(locked := true, lockedRegister := RegX(op) as byte, pc := Add16(s.pc as int, 2))
    ensures NoPanic(Exec(s, op, rnd), later) && Exec(Exec(s, op, rnd), later, rnd2) == Exec(s, op, rnd)
    ensures var t := Press(Exec(s, op, rnd), k);
            !t.locked && t.v[RegX(op)] == k && t.keys[k] && t.pc == Exec(s, op, rnd).pc
  {
  }

  /** An opcode no arm of `eval_opcode` handles only advances `pc`:
      `8XY8`..`8XYD` and `8XYF`; family E with a low nibble other than 1 and
      E; family F with an unlisted low nibble; and `F??5` with nibble 1 other
      than 1, 5 and 6. */
  lemma UnknownOnlyAdvances(s: State, op: word, rnd: byte)
    requires WellFormed(s) && !s.locked
    requires || (Gsb(op) == 0x8 && LowNibble(op) in {0x8, 0x9, 0xA, 0xB, 0xC, 0xD, 0xF})
             || (Gsb(op) == 0xE && LowNibble(op) != 0x1 && LowNibble(op) != 0xE)
             || (Gsb(op) == 0xF && LowNibble(op) in {0x0, 0x1, 0x2, 0x4, 0x6, 0xB, 0xC, 0xD, 0xF})
             || (Gsb(op) == 0xF && LowNibble(op) == 0x5 && RegY(op) !in {1, 5, 6})
    ensures NoPanic(s, op) && Exec(s, op, rnd) == s.(pc := Add16(s.pc as int, 2))
  {
  }

  /** `press_button(k)` sets `keys[k]`; when locked it also writes `k` into
      the locked register and clears the lock; nothing else changes. */
  lemma PressSetsKey(s: State, k: byte)
    requires WellFormed(s) && k as nat < KeyCount
    ensures Press(s, k).keys == s.keys[k := true]
    ensures !Press(s, k).locked
    ensures s.locked ==> Press(s, k).v == s.v[s.lockedRegister := k]
    ensures !s.locked ==> Press(s, k) == s.(keys := s.keys[k := true])
    ensures Press(s, k).(v := s.v, keys := s.keys, locked := s.locked) == s
  {
  }

  /** Releasing a key that a press put down restores the key array. */
  lemma ReleaseUndoesPress(s: State, k: byte)
    requires WellFormed(s) && k as nat < KeyCount && !s.keys[k]
    ensures Release(Press(s, k), k).keys == s.keys
    ensures !s.locked ==> Release(Press(s, k), k) == s
  {
  }

  /** `release_button(k)` changes `keys[k]` and nothing else. */
  lemma ReleaseOnlyKey(s: State, k: byte)
    requires WellFormed(s) && k as nat < KeyCount
    ensures !Release(s, k).keys[k]
    ensures forall j :: 0 <= j < KeyCount && j != k as nat ==> Release(s, k).keys[j] == s.keys[j]
    ensures Release(s, k).(keys := s.keys) == s
  {
  }

  // ---------------------------------------------------------------------
  // Jumps, calls and returns

  /** `1NNN` lands on `opcode >> 4` once the final `+2` is added. */
  lemma JumpTarget(s: State, op: word, rnd: byte)
    requires WellFormed(s) && !s.locked && Gsb(op) == 0x1
    ensures NoPanic(s, op)
    ensures Exec(s, op, rnd) == s.(pc := Exec(s, op, rnd).pc)
    ensures Exec(s, op, rnd).pc as int == op as int / 0x10
  {
    SubAddCancels(Address(op) as int, 2);
  }

  /** `2NNN` pushes the pre-call `pc` and lands on `opcode >> 4`. */
  lemma CallPushes(s: State, op: word, rnd: byte)
    requires WellFormed(s) && !s.locked && Gsb(op) == 0x2
    ensures NoPanic(s, op)
    ensures Exec(s, op, rnd).stack == s.stack + [s.pc]
    ensures Exec(s, op, rnd).pc as int == op as int / 0x10
    ensures Exec(s, op, rnd) == s.(stack := Exec(s, op, rnd).stack, pc := Exec(s, op, rnd).pc)
  {
    SubAddCancels(Address(op) as int, 2);
  }

  /** A return on a non-empty stack pops one entry and, with the final
      `+2`, lands exactly on the popped address; on an empty stack only the
      `+2` happens. */
  lemma ReturnPops(s: State, op: word, rnd: byte)
    requires WellFormed(s) && !s.locked && Gsb(op) == 0x0 && LowNibble(op) != 0
    ensures NoPanic(s, op)
    ensures |s.stack| > 0 ==>
      && Exec(s, op, rnd).stack == s.stack[..|s.stack| - 1]
      && Exec(s, op, rnd).pc == s.stack[|s.stack| - 1]
      && Exec(s, op, rnd) == s.(stack := s.stack[..|s.stack| - 1], pc := s.stack[|s.stack| - 1])
    ensures |s.stack| == 0 ==> Exec(s, op, rnd) == s.(pc := Add16(s.pc as int, 2))
  {
    assert Dispatch(s, op, rnd) == System(s, op);
    if |s.stack| > 0 {
      var top := s.stack[|s.stack| - 1];
      assert System(s, op) == s.(stack := s.stack[..|s.stack| - 1], pc := Sub16(top as int, 2));
      SubAddCancels(top as int, 2);
    }
  }

  /** As written, a call followed by a return undoes the call completely:
      the return lands on the address that was pushed, which is the call
      instruction itself, so the next step calls again. */
  lemma CallThenReturn(s: State, call: word, ret: word, rnd: byte)
    requires WellFormed(s) && !s.locked && Gsb(call) == 0x2 && Gsb(ret) == 0x0 && LowNibble(ret) != 0
    ensures NoPanic(s, call) && NoPanic(Exec(s, call, rnd), ret)
    ensures Exec(Exec(s, call, rnd), ret, rnd) == s
  {
    CallPushes(s, call, rnd);
    var t := Exec(s, call, rnd);
    ReturnPops(t, ret, rnd);
    assert t.stack[..|t.stack| - 1] == s.stack;
  }

  /** `BNNN` ends on `v[0] + (opcode >> 4) + 2`: no `-2` is taken first. */
  lemma OffsetJumpTarget(s: State, op: word, rnd: byte)
    requires WellFormed(s) && !s.locked && Gsb(op) == 0xB
    ensures NoPanic(s, op)
    ensures Exec(s, op, rnd) == s.(pc := Exec(s, op, rnd).pc)
    ensures Exec(s, op, rnd).pc as int == s.v[0] as int + op as int / 0x10 + 2
  {
    AddAddWraps(s.v[0] as int, Address(op) as int, 2);
  }

  /** `00E0` (any low nibble 0) switches every cell off. */
  lemma ClearScreenClears(s: State, op: word, rnd: byte)
    requires WellFormed(s) && !s.locked && Gsb(op) == 0x0 && LowNibble(op) == 0
    ensures NoPanic(s, op)
    ensures forall p :: 0 <= p < ScreenSize ==> !Exec(s, op, rnd).screen[p]
    ensures Exec(s, op, rnd) == s.(screen := Exec(s, op, rnd).screen, pc := Add16(s.pc as int, 2))
  {
  }

  // ---------------------------------------------------------------------
  // Skips

  /** `3XNN` skips iff `v[X]` equals the high byte `opcode >> 8`. */
  lemma SkipIfEqual(s: State, op: word, rnd: byte)
    requires WellFormed(s) && !s.locked && Gsb(op) == 0x3
    ensures NoPanic(s, op)
    ensures Exec(s, op, rnd) == s.(pc := Exec(s, op, rnd).pc)
    ensures Exec(s, op, rnd).pc as int ==
      (s.pc as int + if s.v[RegX(op)] as int == op as int / 0x100 then 4 else 2) % 0x1_0000
  {
    AddAddWraps(s.pc as int, 2, 2);
  }

  /** `4XNN` skips iff `v[X]` differs from the high byte. */
  lemma SkipIfNotEqual(s: State, op: word, rnd: byte)
    requires WellFormed(s) && !s.locked && Gsb(op) == 0x4
    ensures NoPanic(s, op)
    ensures Exec(s, op, rnd) == s.(pc := Exec(s, op, rnd).pc)
    ensures Exec(s, op, rnd).pc as int ==
      (s.pc as int + if s.v[RegX(op)] as int != op as int / 0x100 then 4 else 2) % 0x1_0000
  {
    AddAddWraps(s.pc as int, 2, 2);
  }

  /** `5XY?` compares the indices X and Y, not the registers. */
  lemma SkipIfSameIndex(s: State, op: word, rnd: byte)
    requires WellFormed(s) && !s.locked && Gsb(op) == 0x5
    ensures NoPanic(s, op)
    ensures Exec(s, op, rnd) == s.(pc := Exec(s, op, rnd).pc)
    ensures Exec(s, op, rnd).pc as int ==
      (s.pc as int + if (op as int / 0x100) % 0x10 == (op as int / 0x10) % 0x10 then 4 else 2) % 0x1_0000
  {
    AddAddWraps(s.pc as int, 2, 2);
  }

  /** `9XY?` skips iff `v[X] != v[Y]`. */
  lemma SkipIfRegistersDiffer(s: State, op: word, rnd: byte)
    requires WellFormed(s) && !s.locked && Gsb(op) == 0x9
    ensures NoPanic(s, op)
    ensures Exec(s, op, rnd) == s.(pc := Exec(s, op, rnd).pc)
    ensures Exec(s, op, rnd).pc as int ==
      (s.pc as int + if s.v[RegX(op)] != s.v[RegY(op)] then 4 else 2) % 0x1_0000
  {
    AddAddWraps(s.pc as int, 2, 2);
  }

  /** `EX?1` skips iff key `v[X]` is down, `EX?E` iff it is up. */
  lemma SkipOnKey(s: State, op: word, rnd: byte)
    requires WellFormed(s) && !s.locked && Gsb(op) == 0xE && (LowNibble(op) == 0x1 || LowNibble(op) == 0xE)
    requires s.v[RegX(op)] as nat < KeyCount
    ensures NoPanic(s, op)
    ensures Exec(s, op, rnd) == s.(pc := Exec(s, op, rnd).pc)
    ensures Exec(s, op, rnd).pc as int ==
      (s.pc as int + if s.keys[s.v[RegX(op)]] == (LowNibble(op) == 0x1) then 4 else 2) % 0x1_0000
  {
    AddAddWraps(s.pc as int, 2, 2);
  }

  // ---------------------------------------------------------------------
  // Immediates and the index register

  /** `ANNN` sets `i` to `opcode >> 4` (so `i` starts with the nibble A). */
  lemma LoadIndex(s: State, op: word, rnd: byte)
    requires WellFormed(s) && !s.locked && Gsb(op) == 0xA
    ensures NoPanic(s, op)
    ensures Exec(s, op, rnd).i as int == op as int / 0x10
    ensures 0xA00 <= Exec(s, op, rnd).i < 0xB00
    ensures Exec(s, op, rnd) == s.(i := Exec(s, op, rnd).i, pc := Add16(s.pc as int, 2))
  {
  }

  /** `6XNN` loads the HIGH byte `opcode >> 8` (0x60 .. 0x6F), not NN. */
  lemma LoadImmediate(s: State, op: word, rnd: byte)
    requires WellFormed(s) && !s.locked && Gsb(op) == 0x6
    ensures NoPanic(s, op)
    ensures Exec(s, op, rnd).v == s.v[RegX(op) := (op as int / 0x100) as byte]
    ensures Exec(s, op, rnd) == s.(v := Exec(s, op, rnd).v, pc := Add16(s.pc as int, 2))
  {
  }

  /** `7XNN` adds the high byte with 8-bit wrap-around and no flag. */
  lemma AddImmediate(s: State, op: word, rnd: byte)
    requires WellFormed(s) && !s.locked && Gsb(op) == 0x7
    ensures NoPanic(s, op)
    ensures Exec(s, op, rnd).v == s.v[RegX(op) := ((s.v[RegX(op)] as int + op as int / 0x100) % 0x100) as byte]
    ensures Exec(s, op, rnd) == s.(v := Exec(s, op, rnd).v, pc := Add16(s.pc as int, 2))
  {
  }

  /** `CXNN` stores a value whose set bits are among those of the high
      byte, whatever the random byte. */
  lemma RandomIsMasked(s: State, op: word, rnd: byte)
    requires WellFormed(s) && !s.locked && Gsb(op) == 0xC
    ensures NoPanic(s, op)
    ensures BitsWithin(Exec(s, op, rnd).v[RegX(op)] as nat, op as nat / 0x100)
    ensures Exec(s, op, rnd) == s.(v := Exec(s, op, rnd).v, pc := Add16(s.pc as int, 2))
    ensures forall r :: 0 <= r < RegisterCount && r != RegX(op) ==> Exec(s, op, rnd).v[r] == s.v[r]
  {
    var x, m := RegX(op), Immediate(op);
    assert Dispatch(s, op, rnd) == s.(v := s.v[x := And8(m, rnd)]);
    assert m as nat == op as nat / 0x100;
    AndWithin(rnd as nat, m as nat);
    AndCommutes(rnd as nat, m as nat);
  }

  /** `FX29` sets `i` to `v[X] * 5`, `FX1E` adds `v[X]` to `i` modulo 2^16. */
  lemma IndexArithmetic(s: State, op: word, rnd: byte)
    requires WellFormed(s) && !s.locked && Gsb(op) == 0xF && (LowNibble(op) == 0x9 || LowNibble(op) == 0xE)
    ensures NoPanic(s, op)
    ensures LowNibble(op) == 0x9 ==> Exec(s, op, rnd).i as int == s.v[RegX(op)] as int * 5
    ensures LowNibble(op) == 0xE ==> Exec(s, op, rnd).i as int == (s.i as int + s.v[RegX(op)] as int) % 0x1_0000
    ensures Exec(s, op, rnd) == s.(i := Exec(s, op, rnd).i, pc := Add16(s.pc as int, 2))
  {
  }

  /** The timer moves of family 0xF: `FX07` reads `delay`, `FX18` writes
      `sound`, and `F?15` (nibble 1 equal to 1, low nibble 5) writes
      `delay`. */
  lemma TimerRegisters(s: State, op: word, rnd: byte)
    requires WellFormed(s) && !s.locked && Gsb(op) == 0xF
    requires LowNibble(op) == 0x7 || LowNibble(op) == 0x8 || (LowNibble(op) == 0x5 && RegY(op) == 1)
    ensures NoPanic(s, op)
    ensures LowNibble(op) == 0x7 ==> Exec(s, op, rnd) == s.(v := s.v[RegX(op) := s.delay], pc := Add16(s.pc as int, 2))
    ensures LowNibble(op) == 0x8 ==> Exec(s, op, rnd) == s.(sound := s.v[RegX(op)], pc := Add16(s.pc as int, 2))
    ensures LowNibble(op) == 0x5 ==> Exec(s, op, rnd) == s.(delay := s.v[RegX(op)], pc := Add16(s.pc as int, 2))
  {
  }

  // ---------------------------------------------------------------------
  // Family 0x8

  /** The source's carry test `val < a || val < b` on the wrapped sum is
      exactly "the true sum is at least 256". */
  lemma CarryTest(a: byte, b: byte)
    ensures (Add8(a, b) < a || Add8(a, b) < b) <==> a as int + b as int >= 0x100
  {
  }

  /** `8XY4`: the wrapped sum with the carry flag; when X is 0xF the sum,
      written last, overwrites the flag. */
  lemma AddRegisters(s: State, op: word, rnd: byte)
    requires WellFormed(s) && !s.locked && Gsb(op) == 0x8 && LowNibble(op) == 0x4
    ensures NoPanic(s, op)
    ensures var a, b, t := s.v[RegX(op)] as int, s.v[RegY(op)] as int, Exec(s, op, rnd);
      && t.v[RegX(op)] as int == (a + b) % 0x100
      && (RegX(op) != Flag ==> t.v[Flag] <= 1 && (t.v[Flag] == 1 <==> a + b >= 0x100))
      && t == s.(v := t.v, pc := Add16(s.pc as int, 2))
      && (forall r :: 0 <= r < RegisterCount && r != RegX(op) && r != Flag ==> t.v[r] == s.v[r])
  {
    CarryTest(s.v[RegX(op)], s.v[RegY(op)]);
  }

  /** `8XY5`: the wrapped difference `a - b`; the flag test `val < a` holds
      exactly when `0 < b <= a`. */
  lemma SubRegisters(s: State, op: word, rnd: byte)
    requires WellFormed(s) && !s.locked && Gsb(op) == 0x8 && LowNibble(op) == 0x5
    ensures NoPanic(s, op)
    ensures var a, b, t := s.v[RegX(op)] as int, s.v[RegY(op)] as int, Exec(s, op, rnd);
      && t.v[RegX(op)] as int == (a - b) % 0x100
      && (RegX(op) != Flag ==> t.v[Flag] <= 1 && (t.v[Flag] == 1 <==> 0 < b <= a))
      && t == s.(v := t.v, pc := Add16(s.pc as int, 2))
      && (forall r :: 0 <= r < RegisterCount && r != RegX(op) && r != Flag ==> t.v[r] == s.v[r])
  {
  }

  /** `8XY7`: the wrapped difference `b - a`, flag iff `b > a`. */
  lemma SubRegistersReversed(s: State, op: word, rnd: byte)
    requires WellFormed(s) && !s.locked && Gsb(op) == 0x8 && LowNibble(op) == 0x7
    ensures NoPanic(s, op)
    ensures var a, b, t := s.v[RegX(op)] as int, s.v[RegY(op)] as int, Exec(s, op, rnd);
      && t.v[RegX(op)] as int == (b - a) % 0x100
      && (RegX(op) != Flag ==> t.v[Flag] <= 1 && (t.v[Flag] == 1 <==> b > a))
      && t == s.(v := t.v, pc := Add16(s.pc as int, 2))
      && (forall r :: 0 <= r < RegisterCount && r != RegX(op) && r != Flag ==> t.v[r] == s.v[r])
  {
  }

  /** `8XY6` and `8XYE` both shift RIGHT by one; `8XY6` flags the low bit,
      `8XYE` the top bit of the original value. */
  lemma ShiftRegister(s: State, op: word, rnd: byte)
    requires WellFormed(s) && !s.locked && Gsb(op) == 0x8 && (LowNibble(op) == 0x6 || LowNibble(op) == 0xE)
    ensures NoPanic(s, op)
    ensures var a, t := s.v[RegX(op)] as int, Exec(s, op, rnd);
      && t.v[RegX(op)] as int == a / 2
      && (RegX(op) != Flag && LowNibble(op) == 0x6 ==> t.v[Flag] as int == a % 2)
      && (RegX(op) != Flag && LowNibble(op) == 0xE ==> t.v[Flag] <= 1 && (t.v[Flag] == 1 <==> a >= 0x80))
      && t == s.(v := t.v, pc := Add16(s.pc as int, 2))
      && (forall r :: 0 <= r < RegisterCount && r != RegX(op) && r != Flag ==> t.v[r] == s.v[r])
  {
    var a := s.v[RegX(op)] as nat;
    ShrHalves(a);
    AndLowBit(a);
  }

  lemma ShrHalves(a: nat)
    requires a < 0x100
    ensures Shr(a, 1) == a / 2
    ensures Shr(a, 7) == a / 0x80 && Shr(a, 7) <= 1
  {
    assert Shr(a, 7) == Shr(a / 2, 6);
    assert Shr(a / 2, 6) == Shr(a / 2 / 2, 5);
    assert Shr(a / 2 / 2, 5) == Shr(a / 2 / 2 / 2, 4);
    assert Shr(a / 2 / 2 / 2, 4) == Shr(a / 2 / 2 / 2 / 2, 3);
    assert Shr(a / 2 / 2 / 2 / 2, 3) == Shr(a / 2 / 2 / 2 / 2 / 2, 2);
    assert Shr(a / 2 / 2 / 2 / 2 / 2, 2) == Shr(a / 2 / 2 / 2 / 2 / 2 / 2, 1);
    assert Shr(a / 2 / 2 / 2 / 2 / 2 / 2, 1) == a / 2 / 2 / 2 / 2 / 2 / 2 / 2;
  }

  lemma AndLowBit(a: nat)
    ensures And(a, 1) == a % 2
  {
  }

  /** `8XY0`..`8XY3` write `v[X]` and nothing else: `8XY0` copies `v[Y]`,
      and each bit of the result of `8XY1`, `8XY2` and `8XY3` is the OR,
      AND and XOR of the operands' bits. */
  lemma BitwiseOnlyWritesX(s: State, op: word, rnd: byte)
    requires WellFormed(s) && !s.locked && Gsb(op) == 0x8 && LowNibble(op) <= 0x3
    ensures NoPanic(s, op)
    ensures var t := Exec(s, op, rnd);
      && t == s.(v := s.v[RegX(op) := t.v[RegX(op)]], pc := Add16(s.pc as int, 2))
      && (LowNibble(op) == 0x0 ==> t.v[RegX(op)] == s.v[RegY(op)])
      && (LowNibble(op) == 0x2 ==> t.v[RegX(op)] <= s.v[RegX(op)] && t.v[RegX(op)] <= s.v[RegY(op)])
      && (forall k :: 0 <= k < 8 ==>
            && (LowNibble(op) == 0x1 ==> (Bit(t.v[RegX(op)], k) <==> Bit(s.v[RegX(op)], k) || Bit(s.v[RegY(op)], k)))
            && (LowNibble(op) == 0x2 ==> (Bit(t.v[RegX(op)], k) <==> Bit(s.v[RegX(op)], k) && Bit(s.v[RegY(op)], k)))
            && (LowNibble(op) == 0x3 ==> (Bit(t.v[RegX(op)], k) <==> Bit(s.v[RegX(op)], k) != Bit(s.v[RegY(op)], k))))
  {
    var a, b := s.v[RegX(op)] as nat, s.v[RegY(op)] as nat;
    forall k | 0 <= k < 8
      ensures Shr(Or(a, b), k) % 2 == 1 <==> Shr(a, k) % 2 == 1 || Shr(b, k) % 2 == 1
      ensures Shr(And(a, b), k) % 2 == 1 <==> Shr(a, k) % 2 == 1 && Shr(b, k) % 2 == 1
      ensures Shr(Xor(a, b), k) % 2 == 1 <==> (Shr(a, k) % 2 == 1) != (Shr(b, k) % 2 == 1)
    {
      OrBit(a, b, k);
      AndBit(a, b, k);
      XorBit(a, b, k);
    }
  }

  // ---------------------------------------------------------------------
  // Drawing

  /** The draw flag is 0 or 1, and 1 exactly when some cell the draw
      changed was on before. */
  lemma DrawFlagIsCollision(s: State, op: word, rnd: byte)
    requires WellFormed(s) && NoPanic(s, op) && !s.locked && Gsb(op) == 0xD
    ensures var t := Exec(s, op, rnd);
      && t.v[Flag] <= 1
      && (t.v[Flag] == 1 <==> exists p :: 0 <= p < ScreenSize && s.screen[p] && !t.screen[p])
  {
    var t := Exec(s, op, rnd);
    if t.v[Flag] == 1 {
      var p :| 0 <= p < ScreenSize && Touched(s, op, p) && s.screen[p];
      assert !t.screen[p];
    }
    if exists p :: 0 <= p < ScreenSize && s.screen[p] && !t.screen[p] {
      var p :| 0 <= p < ScreenSize && s.screen[p] && !t.screen[p];
      assert Touched(s, op, p);
    }
  }

  /** A draw changes only the screen, `v[0xF]` and `pc`. */
  lemma DrawFrame(s: State, op: word, rnd: byte)
    requires WellFormed(s) && NoPanic(s, op) && !s.locked && Gsb(op) == 0xD
    ensures var t := Exec(s, op, rnd);
      t == s.(screen := t.screen, v := s.v[Flag := t.v[Flag]], pc := Add16(s.pc as int, 2))
  {
  }

  /** The pixel of sprite row `row`, column `c` is XORed into cell
      `(row % 32) * 64 + (x + x + c) % 64`, from bit `7 - c` of
      `memory[i + row * 64 + x]`. */
  lemma DrawTogglesSpritePixel(s: State, op: word, rnd: byte, row: nat, c: nat)
    requires WellFormed(s) && NoPanic(s, op) && !s.locked && Gsb(op) == 0xD
    requires RegY(op) <= row < RegY(op) + LowNibble(op) && c < 8
    ensures var cell := DrawCell(RegX(op), row, c);
      && cell < ScreenSize
      && s.i as nat + row * ScreenWidth + RegX(op) < MemorySize
      && Exec(s, op, rnd).screen[cell] ==
           (s.screen[cell] != Bit(s.memory[s.i as nat + row * ScreenWidth + RegX(op)], 7 - c))
  {
    DrawCellInverse(RegX(op), row, c);
  }

  /** Cells outside rows Y .. Y+N-1, or not hit by one of the eight
      columns, are left alone. */
  lemma DrawLeavesOtherCells(s: State, op: word, rnd: byte, p: nat)
    requires WellFormed(s) && NoPanic(s, op) && !s.locked && Gsb(op) == 0xD && p < ScreenSize
    requires forall row, c :: RegY(op) <= row < RegY(op) + LowNibble(op) && 0 <= c < 8 ==> DrawCell(RegX(op), row, c) != p
    ensures Exec(s, op, rnd).screen[p] == s.screen[p]
  {
    if Touched(s, op, p) {
      var row, c := p / ScreenWidth, SpriteColumn(RegX(op), p);
      DrawCellUnique(RegX(op), row, c, p);
      assert false;
    }
  }

  /** Drawing the same sprite twice (memory and `i` unchanged in between,
      as a draw leaves them) restores the screen; the second flag reports
      whether any sprite cell was on after the first draw. */
  lemma DrawTwiceRestores(s: State, op: word, rnd: byte)
    requires WellFormed(s) && NoPanic(s, op) && !s.locked && Gsb(op) == 0xD
    ensures NoPanic(Exec(s, op, rnd), op)
    ensures Exec(Exec(s, op, rnd), op, rnd).screen == s.screen
    ensures var t := Exec(s, op, rnd);
      Exec(t, op, rnd).v[Flag] == 1 <==> exists p :: 0 <= p < ScreenSize && Touched(s, op, p) && t.screen[p]
  {
    var t := Exec(s, op, rnd);
    var u := Exec(t, op, rnd);
    assert t.memory == s.memory && t.i == s.i;
    forall p | 0 <= p < ScreenSize
      ensures Touched(t, op, p) == Touched(s, op, p)
    {
    }
    assert u.screen == s.screen;
  }

  // ---------------------------------------------------------------------
  // Memory instructions

  /** The three decimal digits are each at most 9 and spell the value. */
  lemma DecimalDigitsSpell(d: byte)
    ensures |DecimalDigits(d)| == 3
    ensures forall k :: 0 <= k < 3 ==> DecimalDigits(d)[k] <= 9
    ensures DecimalDigits(d)[0] as int * 100 + DecimalDigits(d)[1] as int * 10 + DecimalDigits(d)[2] as int == d as int
  {
  }

  /** `FX33` writes the digits of `v[X]` to `memory[i .. i+3]` and nothing
      else. */
  lemma StoreDecimal(s: State, op: word, rnd: byte)
    requires WellFormed(s) && NoPanic(s, op) && !s.locked && Gsb(op) == 0xF && LowNibble(op) == 0x3
    ensures var t, d := Exec(s, op, rnd), s.v[RegX(op)] as int;
      && t.memory[s.i] as int == d / 100
      && t.memory[s.i as nat + 1] as int == (d / 10) % 10
      && t.memory[s.i as nat + 2] as int == d % 10
      && (forall k :: 0 <= k < MemorySize && !(s.i as nat <= k < s.i as nat + 3) ==> t.memory[k] == s.memory[k])
      && t == s.(memory := t.memory, pc := Add16(s.pc as int, 2))
  {
  }

  /** The store (`F?55` with nibble 1 equal to 5) copies `v[0 .. X)`,
      EXCLUDING `v[X]`, to `memory[i .. i+X)` and changes nothing else. */
  lemma StoreBlock(s: State, op: word, rnd: byte)
    requires WellFormed(s) && NoPanic(s, op) && !s.locked && Gsb(op) == 0xF && LowNibble(op) == 0x5 && RegY(op) == 5
    ensures var t, x := Exec(s, op, rnd), RegX(op);
      && (forall k :: 0 <= k < x ==> t.memory[s.i as nat + k] == s.v[k])
      && (forall k :: 0 <= k < MemorySize && !(s.i as nat <= k < s.i as nat + x) ==> t.memory[k] == s.memory[k])
      && t == s.(memory := t.memory, pc := Add16(s.pc as int, 2))
  {
  }

  /** The load (`F?65`) copies `memory[i .. i+X)` back into `v[0 .. X)`. */
  lemma LoadBlock(s: State, op: word, rnd: byte)
    requires WellFormed(s) && NoPanic(s, op) && !s.locked && Gsb(op) == 0xF && LowNibble(op) == 0x5 && RegY(op) == 6
    ensures var t, x := Exec(s, op, rnd), RegX(op);
      && (forall k :: 0 <= k < x ==> t.v[k] == s.memory[s.i as nat + k])
      && (forall k :: x <= k < RegisterCount ==> t.v[k] == s.v[k])
      && t == s.(v := t.v, pc := Add16(s.pc as int, 2))
  {
  }

  /** A store followed by a load of the same block leaves the registers as
      they were, and the second instruction runs right after the first. */
  lemma StoreThenLoad(s: State, store: word, load: word, rnd: byte)
    requires WellFormed(s) && NoPanic(s, store) && !s.locked
    requires Gsb(store) == 0xF && LowNibble(store) == 0x5 && RegY(store) == 5
    requires Gsb(load) == 0xF && LowNibble(load) == 0x5 && RegY(load) == 6 && RegX(load) == RegX(store)
    ensures NoPanic(Exec(s, store, rnd), load)
    ensures Exec(Exec(s, store, rnd), load, rnd).v == s.v
    ensures Exec(Exec(s, store, rnd), load, rnd).pc == Add16(s.pc as int + 2, 2)
  {
    var t := Exec(s, store, rnd);
    StoreBlock(s, store, rnd);
    LoadBlock(t, load, rnd);
    AddAddWraps(s.pc as int, 2, 2);
    var u := Exec(t, load, rnd);
    assert t.i == s.i && t.v == s.v;
    assert forall k :: 0 <= k < RegisterCount ==> u.v[k] == s.v[k];
    assert u.v == s.v;
  }

  // ---------------------------------------------------------------------
  // Timers, reset, loading

  /** With `n` whole seconds elapsed: below one second nothing changes;
      beyond 255 both timers are forced to 0; otherwise each timer drops by
      `n`, stopping at 0. */
  lemma TimersDecay(s: State, n: int, now: int)
    ensures n < 1 ==> Decay(s, n, now) == s
    ensures n > 0xFF ==> Decay(s, n, now) == s.(delay := 0, sound := 0, lastTick := now)
    ensures 1 <= n <= 0xFF ==>
      && Decay(s, n, now).delay as int == Max(0, s.delay as int - n)
      && Decay(s, n, now).sound as int == Max(0, s.sound as int - n)
      && Decay(s, n, now) == s.(delay := Decay(s, n, now).delay, sound := Decay(s, n, now).sound, lastTick := now)
  {
  }

  function Max(a: int, b: int): int
  {
    if a < b then b else a
  }

  /** `reset_system` restores the initial machine: `pc = 0x200`, empty
      stack, zero registers and timers, screen off, keys up, unlocked, and
      memory holding only the font. */
  lemma ResetRestores(s: State, font: seq<byte>)
    requires |font| <= MemorySize
    ensures var t := Reset(s, font);
      && t.pc as nat == ProgramStart && t.stack == [] && t.i == 0
      && (forall r :: 0 <= r < RegisterCount ==> t.v[r] == 0)
      && (forall p :: 0 <= p < ScreenSize ==> !t.screen[p])
      && (forall k :: 0 <= k < KeyCount ==> !t.keys[k])
      && !t.locked && t.delay == 0 && t.sound == 0
      && t.memory[..|font|] == font
      && (forall k :: |font| <= k < MemorySize ==> t.memory[k] == 0)
  {
  }

  /** `load_rom` puts the program at 0x200 on top of a reset machine. */
  lemma LoadRomPlacesProgram(s: State, font: seq<byte>, data: seq<byte>)
    requires |font| <= MemorySize && |data| <= MemorySize - ProgramStart
    ensures var t := LoadRom(s, font, data);
      && t.memory[ProgramStart .. ProgramStart + |data|] == data
      && (forall k :: 0 <= k < MemorySize && !(ProgramStart <= k < ProgramStart + |data|) ==>
            t.memory[k] == Reset(s, font).memory[k])
      && t == Reset(s, font).(memory := t.memory)
  {
  }
}
