/** Two places where `src/lib.rs` evidently does not do what its authors
    meant, each shown on a concrete input, beside the corrected definition
    and the property it was meant to have. The interpreter itself keeps
    the behaviour as written. */
module Findings {
  import opened Words
  import opened Decoder
  import opened Semantics
  import opened Properties

  // ---------------------------------------------------------------------
  // The opcode fetch of `step`

  /** As written the fetch reads `memory[pc] << (8 + memory[pc + 2])`: the
      word 0x1234 followed by a zero byte is read as 0x1200, where the
      big-endian fetch reads 0x1234. */
  lemma FetchAsWrittenMisreads(memory: seq<byte>, pc: word)
    requires |memory| == MemorySize && pc as nat + 2 < MemorySize
    requires memory[pc] == 0x12 && memory[pc as nat + 1] == 0x34 && memory[pc as nat + 2] == 0
    ensures FetchAsWritten(memory, pc) == 0x1200
    ensures Fetch(memory, pc) == 0x1234
  {
    assert Shl(0x12, 8) == 0x1200;
  }

  /** As written the fetch never looks at `memory[pc + 1]`, the second byte
      of the instruction: two memories that differ only there fetch the
      same opcode. */
  lemma FetchAsWrittenIgnoresSecondByte(m1: seq<byte>, m2: seq<byte>, pc: word)
    requires |m1| == MemorySize && |m2| == MemorySize && pc as nat + 2 < MemorySize
    requires forall k :: 0 <= k < MemorySize && k != pc as nat + 1 ==> m1[k] == m2[k]
    ensures FetchAsWritten(m1, pc) == FetchAsWritten(m2, pc)
  {
    assert m1[pc] == m2[pc] && m1[pc as nat + 2] == m2[pc as nat + 2];
  }

  /** The intended fetch decodes the two bytes at `pc`: the family and X
      come from `memory[pc]`, Y and N from `memory[pc + 1]`. */
  lemma FetchDecodes(memory: seq<byte>, pc: word)
    requires |memory| == MemorySize && pc as nat + 1 < MemorySize
    ensures var op := Fetch(memory, pc);
      && Gsb(op) as int == memory[pc] as int / 0x10
      && RegX(op) == memory[pc] as int % 0x10
      && RegY(op) == memory[pc as nat + 1] as int / 0x10
      && LowNibble(op) == memory[pc as nat + 1] as int % 0x10
  {
    var op := Fetch(memory, pc);
    BigEndianDigits(memory[pc] as int, memory[pc as nat + 1] as int);
    assert op as int == memory[pc] as int * 0x100 + memory[pc as nat + 1] as int;
  }

  lemma BigEndianDigits(hi: int, lo: int)
    requires 0 <= hi < 0x100 && 0 <= lo < 0x100
    ensures (hi * 0x100 + lo) / 0x1000 == hi / 0x10
    ensures ((hi * 0x100 + lo) / 0x100) % 0x10 == hi % 0x10
    ensures ((hi * 0x100 + lo) / 0x10) % 0x10 == lo / 0x10
    ensures (hi * 0x100 + lo) % 0x10 == lo % 0x10
  {
    var w, h1, h0 := hi * 0x100 + lo, hi / 0x10, hi % 0x10;
    assert w == 0x1000 * h1 + (0x100 * h0 + lo) && 0 <= 0x100 * h0 + lo < 0x1000;
    assert w / 0x100 == hi;
    assert w == 0x10 * (0x10 * hi + lo / 0x10) + lo % 0x10;
    assert w / 0x10 == 0x10 * hi + lo / 0x10;
  }

  /** The three-instruction program `6005 6103 8014`, as `load_rom`
      leaves it. As written, the first fetch combines `0x60` with the byte
      `0x61` two past it: the shift amount `8 + 0x61` is 9 modulo 16, so
      the first opcode read is `0x60 << 9 = 0xC000` (a random-number
      instruction), where the intended fetch reads `0x6005`. */
  lemma AdditionProgramImage(s: State, font: seq<byte>)
    requires |font| <= MemorySize
    ensures var s0 := LoadRom(s, font, [0x60, 0x05, 0x61, 0x03, 0x80, 0x14]);
      && !s0.locked && s0.pc == 0x200 && s0.v[Flag] == 0
      && s0.memory[0x200] == 0x60 && s0.memory[0x201] == 0x05 && s0.memory[0x202] == 0x61
      && s0.memory[0x203] == 0x03 && s0.memory[0x204] == 0x80 && s0.memory[0x205] == 0x14
      && FetchAsWritten(s0.memory, s0.pc) == 0xC000
  {
    var s0 := LoadRom(s, font, [0x60, 0x05, 0x61, 0x03, 0x80, 0x14]);
    assert s0.memory[0x200] == 0x60 && s0.memory[0x202] == 0x61;
    assert Shl(0x60, 9) == 0xC000;
  }

  /** The same program run under the intended fetch from a state holding it
      at `0x200`: because `6XNN` loads the high byte, it leaves
      `v[0] = 0x60 + 0x61 = 0xC1`, `v[1] = 0x61` and no carry. */
  lemma AdditionProgramRuns(s0: State, rnd: byte) returns (s1: State, s2: State, s3: State)
    requires WellFormed(s0) && !s0.locked && s0.pc == 0x200
    requires s0.memory[0x200] == 0x60 && s0.memory[0x201] == 0x05 && s0.memory[0x202] == 0x61
    requires s0.memory[0x203] == 0x03 && s0.memory[0x204] == 0x80 && s0.memory[0x205] == 0x14
    ensures NoPanic(s0, Fetch(s0.memory, s0.pc))
    ensures s1 == Exec(s0, Fetch(s0.memory, s0.pc), rnd) && WellFormed(s1) && s1.pc == 0x202
    ensures NoPanic(s1, Fetch(s1.memory, s1.pc))
    ensures s2 == Exec(s1, Fetch(s1.memory, s1.pc), rnd) && WellFormed(s2) && s2.pc == 0x204
    ensures NoPanic(s2, Fetch(s2.memory, s2.pc))
    ensures s3 == Exec(s2, Fetch(s2.memory, s2.pc), rnd) && WellFormed(s3) && s3.pc == 0x206
    ensures s3.v[0] == 0xC1 && s3.v[1] == 0x61 && s3.v[Flag] == 0
  {
    s1 := LoadStep(s0, rnd, 0x60, 0x05);
    assert s1.memory == s0.memory && s1.v[0] == 0x60;
    s2 := LoadStep(s1, rnd, 0x61, 0x03);
    assert s2.memory == s0.memory && s2.v[0] == 0x60 && s2.v[1] == 0x61;
    s3 := AddStep(s2, rnd, 0x80, 0x14);
    assert s3.v[0] as int == (0x60 + 0x61) % 0x100;
  }

  /** One fetched `6XNN` step of the scenario. */
  lemma LoadStep(s: State, rnd: byte, hi: byte, lo: byte) returns (t: State)
    requires WellFormed(s) && !s.locked && s.pc as nat + 1 < MemorySize && hi / 0x10 == 6
    requires s.memory[s.pc] == hi && s.memory[s.pc as nat + 1] == lo
    ensures NoPanic(s, Fetch(s.memory, s.pc)) && t == Exec(s, Fetch(s.memory, s.pc), rnd) && WellFormed(t)
    ensures t.v == s.v[hi % 0x10 := hi] && t.pc as int == s.pc as int + 2
    ensures t == s.(v := t.v, pc := t.pc)
  {
    var op := Fetch(s.memory, s.pc);
    FetchDecodes(s.memory, s.pc);
    LoadImmediate(s, op, rnd);
    t := Exec(s, op, rnd);
  }

  /** One fetched `8XY4` step of the scenario. */
  lemma AddStep(s: State, rnd: byte, hi: byte, lo: byte) returns (t: State)
    requires WellFormed(s) && !s.locked && s.pc as nat + 1 < MemorySize && hi / 0x10 == 8 && lo % 0x10 == 4
    requires hi % 0x10 != Flag as byte
    requires s.memory[s.pc] == hi && s.memory[s.pc as nat + 1] == lo
    ensures NoPanic(s, Fetch(s.memory, s.pc)) && t == Exec(s, Fetch(s.memory, s.pc), rnd) && WellFormed(t)
    ensures var a, b := s.v[hi % 0x10] as int, s.v[lo / 0x10] as int;
      && t.v[hi % 0x10] as int == (a + b) % 0x100
      && (t.v[Flag] == 1 <==> a + b >= 0x100) && t.v[Flag] <= 1
      && t.pc as int == s.pc as int + 2
      && (forall r :: 0 <= r < RegisterCount && r != hi as int % 0x10 && r != Flag ==> t.v[r] == s.v[r])
  {
    var op := Fetch(s.memory, s.pc);
    FetchDecodes(s.memory, s.pc);
    AddRegisters(s, op, rnd);
    t := Exec(s, op, rnd);
  }

  // ---------------------------------------------------------------------
  // Subroutine return

  /** The return as evidently intended: pop the address of the call and
      resume at the instruction after it. Every other opcode is `Exec`. */
  function ExecWithIntendedReturn(s: State, op: word, rnd: byte): (t: State)
    requires WellFormed(s) && NoPanic(s, op)
    ensures WellFormed(t)
  {
    if !s.locked && Gsb(op) == 0x0 && LowNibble(op) != 0 && |s.stack| > 0 then
      s.(stack := s.stack[..|s.stack| - 1], pc := Add16(s.stack[|s.stack| - 1] as int, 2))
    else Exec(s, op, rnd)
  }

  /** With the intended return, a call followed by a return resumes right
      after the call, with the stack as it was; as written
      (`Properties.CallThenReturn`) it resumes on the call itself. */
  lemma IntendedReturnResumesAfterCall(s: State, call: word, ret: word, rnd: byte)
    requires WellFormed(s) && !s.locked && Gsb(call) == 0x2 && Gsb(ret) == 0x0 && LowNibble(ret) != 0
    ensures NoPanic(s, call) && NoPanic(Exec(s, call, rnd), ret)
    ensures ExecWithIntendedReturn(Exec(s, call, rnd), ret, rnd) == s.(pc := Add16(s.pc as int, 2))
    ensures Exec(Exec(s, call, rnd), ret, rnd).pc != ExecWithIntendedReturn(Exec(s, call, rnd), ret, rnd).pc
  {
    CallPushes(s, call, rnd);
    CallThenReturn(s, call, ret, rnd);
    var t := Exec(s, call, rnd);
    assert t.stack[..|t.stack| - 1] == s.stack;
  }
}
