/** The reference semantics of the interpreter in `src/lib.rs`, on values:
    a `State` snapshot of every field of `Chip8`, and one function per
    operation (`eval_opcode`, `press_button`, `release_button`,
    `reset_system`, `load_rom`, the timer part of `step`). They follow the
    source as written, including where it departs from the usual CHIP-8
    instruction set. The class in `interpreter.dfy` is proved to compute
    exactly these functions. */
module Semantics {
  import opened Words
  import opened Decoder

  const MemorySize: nat := 4096
  const ScreenWidth: nat := 64
  const ScreenHeight: nat := 32
  const ScreenSize: nat := 2048
  const RegisterCount: nat := 16
  const KeyCount: nat := 16
  /** Where `reset_system` puts `pc`, and where `load_rom` copies a program. */
  const ProgramStart: nat := 0x200
  /** `v[0xf]`, the carry/borrow/collision flag. */
  const Flag: nat := 0xF

  /** Every field of the `Chip8` struct. `lastTick` stands for the
      `time::Tm` of the last timer decay, as an abstract clock reading. */
  datatype State = State(
    memory: seq<byte>,
    v: seq<byte>,
    i: word,
    pc: word,
    stack: seq<word>,
    screen: seq<bool>,
    sound: byte,
    delay: byte,
    keys: seq<bool>,
    locked: bool,
    lockedRegister: byte,
    lastTick: int)

  /** The fixed array sizes of the struct, and a lock target that is a
      register (it is only ever set from a nibble, or to 0). */
  predicate WellFormed(s: State)
  {
    && |s.memory| == MemorySize
    && |s.v| == RegisterCount
    && |s.screen| == ScreenSize
    && |s.keys| == KeyCount
    && s.lockedRegister as nat < RegisterCount
  }

  // Operand fields, as `eval_opcode` decodes them.

  /** Register index X: nibble 2. */
  function RegX(op: word): nat { HexNibble(op, 2) as nat }

  /** Register index Y: nibble 1. */
  function RegY(op: word): nat { HexNibble(op, 1) as nat }

  /** The low nibble N (sub-operation, sprite height). */
  function LowNibble(op: word): nat { Lsb(op) as nat }

  /** The "immediate" `left_truncate(opcode, 2) as u8`: the HIGH byte. */
  function Immediate(op: word): byte { (LeftTruncate(op, 2) as int % 0x100) as byte }

  /** The "address" `left_truncate(opcode, 1)`: `opcode >> 4`. */
  function Address(op: word): word { LeftTruncate(op, 1) }

  /** No instruction of `op` indexes an array out of bounds (a panic in the
      source): sprite rows, the BCD digits and the register block must lie
      in memory, and a key test must name one of the 16 keys. */
  predicate NoPanic(s: State, op: word)
    requires WellFormed(s)
  {
    var x, y, n := RegX(op), RegY(op), LowNibble(op);
    || s.locked
    || match Gsb(op)
       case 0xD => n == 0 || s.i as nat + (y + n - 1) * ScreenWidth + x < MemorySize
       case 0xE => (n == 0x1 || n == 0xE) ==> s.v[x] as nat < KeyCount
       case 0xF =>
         && (n == 0x3 ==> s.i as nat + 2 < MemorySize)
         && (n == 0x5 && (y == 5 || y == 6) ==> x == 0 || s.i as nat + x <= MemorySize)
       case _ => true
  }

  /** The extra `pc += 2` of a taken skip. */
  function SkipIf(s: State, cond: bool): State
  {
    if cond then s.(pc := Add16(s.pc as int, 2)) else s
  }

  /** Family 0x0: low nibble 0 clears the screen; any other low nibble
      returns, popping the stack into `pc - 2` when there is something to
      pop. */
  function System(s: State, op: word): State
  {
    if LowNibble(op) == 0 then s.(screen := seq(ScreenSize, _ => false))
    else if |s.stack| > 0 then
      s.(stack := s.stack[..|s.stack| - 1], pc := Sub16(s.stack[|s.stack| - 1] as int, 2))
    else s
  }

  /** Family 0x8, the register-to-register operations. The flag is written
      before the result, so when X is 0xF the result overwrites it; both
      operands are read before either write. */
  function Arith(s: State, op: word): State
    requires WellFormed(s)
  {
    var x, y := RegX(op), RegY(op);
    var a, b := s.v[x], s.v[y];
    match LowNibble(op)
    case 0x0 => s.(v := s.v[x := b])
    case 0x1 => s.(v := s.v[x := Or8(a, b)])
    case 0x2 => s.(v := s.v[x := And8(a, b)])
    case 0x3 => s.(v := s.v[x := Xor8(a, b)])
    case 0x4 =>
      var val := Add8(a, b);
      s.(v := s.v[Flag := if val < a || val < b then 1 else 0][x := val])
    case 0x5 =>
      var val := Sub8(a, b);
      s.(v := s.v[Flag := if val < a then 1 else 0][x := val])
    case 0x6 => s.(v := s.v[Flag := And8(a, 1)][x := Shr8(a, 1)])
    case 0x7 =>
      var val := Sub8(b, a);
      s.(v := s.v[Flag := if b > a then 1 else 0][x := val])
    case 0xE => s.(v := s.v[Flag := Shr8(a, 7)][x := Shr8(a, 1)])
    case _ => s
  }

  /** Which of the eight sprite columns `c` a draw at nibble X puts on
      screen cell `p`: column `c` of a row lands on `(2x + c) % 64`, because
      `x_pos` starts at `x` and the cell is `(x + x_pos) % 64`. A result of
      8 or more means no column does. */
  function SpriteColumn(x: nat, p: nat): nat
  {
    ((p % ScreenWidth) as int - 2 * x) % ScreenWidth as int
  }

  /** The screen index the draw loop toggles for row `row` and column `c`. */
  function DrawCell(x: nat, row: nat, c: nat): nat
  {
    (row % ScreenHeight) * ScreenWidth + (x + (x + c)) % ScreenWidth
  }

  /** The sprite byte the draw loop reads for row `row`:
      `memory[i + row * 64 + x]` (X is the nibble, not `v[X]`). */
  function SpriteByte(s: State, x: nat, row: nat): byte
    requires WellFormed(s) && s.i as nat + row * ScreenWidth + x < MemorySize
  {
    s.memory[s.i as nat + row * ScreenWidth + x]
  }

  /** Screen cell `p` is toggled by the draw `op`: its row is one of rows
      Y .. Y+N-1, it is hit by one of the eight columns, and that column's
      bit (most significant first) of the row's sprite byte is set. */
  predicate Touched(s: State, op: word, p: nat)
    requires WellFormed(s)
  {
    var x, y, n := RegX(op), RegY(op), LowNibble(op);
    var row, c := p / ScreenWidth, SpriteColumn(x, p);
    && y <= row < y + n
    && c < 8
    && s.i as nat + row * ScreenWidth + x < MemorySize
    && Bit(SpriteByte(s, x, row), 7 - c)
  }

  /** Some toggled cell was on before the draw. */
  predicate Collision(s: State, op: word)
    requires WellFormed(s)
  {
    exists p | 0 <= p < ScreenSize :: Touched(s, op, p) && s.screen[p]
  }

  /** Family 0xD: XOR the sprite onto the screen and set the flag to the
      collision bit. */
  function Draw(s: State, op: word): State
    requires WellFormed(s)
  {
    s.(screen := seq(ScreenSize, p requires 0 <= p < ScreenSize => s.screen[p] != Touched(s, op, p)),
       v := s.v[Flag := if Collision(s, op) then 1 else 0])
  }

  /** Family 0xE: skip on key `v[X]` down (low nibble 1) or up (0xE). */
  function Keys(s: State, op: word): State
    requires WellFormed(s) && NoPanic(s, op) && !s.locked && Gsb(op) == 0xE
  {
    var x := RegX(op);
    match LowNibble(op)
    case 0x1 => SkipIf(s, s.keys[s.v[x]])
    case 0xE => SkipIf(s, !s.keys[s.v[x]])
    case _ => s
  }

  /** The three decimal digits of `d`, most significant first (the
      characters of `format!("{:03}", d)`). */
  function DecimalDigits(d: byte): seq<byte>
  {
    [(d / 100) as byte, ((d / 10) % 10) as byte, (d % 10) as byte]
  }

  /** `memory[i + a] = v[a]` for `a` in `0..x` (X itself is excluded). */
  function StoreRegisters(s: State, x: nat): seq<byte>
    requires WellFormed(s) && x < RegisterCount
  {
    seq(MemorySize, k requires 0 <= k < MemorySize =>
      if s.i as nat <= k < s.i as nat + x then s.v[k - s.i as nat] else s.memory[k])
  }

  /** `v[a] = memory[i + a]` for `a` in `0..x` (X itself is excluded). */
  function LoadRegisters(s: State, x: nat): seq<byte>
    requires WellFormed(s) && x < RegisterCount && (x == 0 || s.i as nat + x <= MemorySize)
  {
    seq(RegisterCount, k requires 0 <= k < RegisterCount =>
      if k < x then s.memory[s.i as nat + k] else s.v[k])
  }

  /** Family 0xF, dispatched on the low nibble; low nibble 5 is dispatched
      again on nibble 1. */
  function Misc(s: State, op: word): State
    requires WellFormed(s) && NoPanic(s, op) && !s.locked && Gsb(op) == 0xF
  {
    var x, y := RegX(op), RegY(op);
    match LowNibble(op)
    case 0x3 =>
      var d := DecimalDigits(s.v[x]);
      s.(memory := s.memory[s.i as nat := d[0]][s.i as nat + 1 := d[1]][s.i as nat + 2 := d[2]])
    case 0x5 =>
      (match y
       case 1 => s.(delay := s.v[x])
       case 5 => s.(memory := StoreRegisters(s, x))
       case 6 => s.(v := LoadRegisters(s, x))
       case _ => s)
    case 0x7 => s.(v := s.v[x := s.delay])
    case 0x8 => s.(sound := s.v[x])
    case 0x9 => s.(i := (s.v[x] as int * 5) as word)
    case 0xA => s.(locked := true, lockedRegister := x as byte)
    case 0xE => s.(i := Add16(s.i as int, s.v[x] as int))
    case _ => s
  }

  /** The body of `eval_opcode` before its final `pc += 2`. */
  function Dispatch(s: State, op: word, rnd: byte): State
    requires WellFormed(s) && NoPanic(s, op) && !s.locked
  {
    var x, y := RegX(op), RegY(op);
    match Gsb(op)
    case 0x0 => System(s, op)
    case 0x1 => s.(pc := Sub16(Address(op) as int, 2))
    case 0x2 => s.(stack := s.stack + [s.pc], pc := Sub16(Address(op) as int, 2))
    case 0x3 => SkipIf(s, s.v[x] == Immediate(op))
    case 0x4 => SkipIf(s, s.v[x] != Immediate(op))
    case 0x5 => SkipIf(s, x == y)
    case 0x6 => s.(v := s.v[x := Immediate(op)])
    case 0x7 => s.(v := s.v[x := Add8(s.v[x], Immediate(op))])
    case 0x8 => Arith(s, op)
    case 0x9 => SkipIf(s, s.v[x] != s.v[y])
    case 0xA => s.(i := Address(op))
    case 0xB => s.(pc := Add16(s.v[0] as int, Address(op) as int))
    case 0xC => s.(v := s.v[x := And8(Immediate(op), rnd)])
    case 0xD => Draw(s, op)
    case 0xE => Keys(s, op)
    case 0xF => Misc(s, op)
  }

  /** `eval_opcode(op)`, with `rnd` standing for the byte `rng.gen::<u8>()`
      would draw: nothing at all while locked, otherwise the instruction
      followed by one `pc += 2`. */
  function Exec(s: State, op: word, rnd: byte): (t: State)
    requires WellFormed(s) && NoPanic(s, op)
    ensures WellFormed(t)
  {
    if s.locked then s
    else
      var t := Dispatch(s, op, rnd);
      t.(pc := Add16(t.pc as int, 2))
  }

  /** `press_button(k)`. */
  function Press(s: State, k: byte): (t: State)
    requires WellFormed(s) && k as nat < KeyCount
    ensures WellFormed(t)
  {
    var t := s.(keys := s.keys[k := true]);
    if t.locked then t.(v := t.v[t.lockedRegister := k], locked := false) else t
  }

  /** `release_button(k)`. */
  function Release(s: State, k: byte): (t: State)
    requires WellFormed(s) && k as nat < KeyCount
    ensures WellFormed(t)
  {
    s.(keys := s.keys[k := false])
  }

  /** Memory as `load_font_system` leaves a zeroed memory: the font bytes
      from address 0, zero elsewhere. */
  function FontMemory(font: seq<byte>): (m: seq<byte>)
    requires |font| <= MemorySize
    ensures |m| == MemorySize
  {
    seq(MemorySize, k requires 0 <= k < MemorySize => if k < |font| then font[k] else 0)
  }

  /** `reset_system`: every field but `last_tick` back to its initial value,
      then the font reloaded. */
  function Reset(s: State, font: seq<byte>): (t: State)
    requires |font| <= MemorySize
    ensures WellFormed(t)
  {
    State(FontMemory(font), seq(RegisterCount, _ => 0), 0, ProgramStart as word, [],
          seq(ScreenSize, _ => false), 0, 0, seq(KeyCount, _ => false), false, 0, s.lastTick)
  }

  /** `load_rom` after reading the file into `data`: reset, then copy the
      bytes to `memory[0x200 ..]`. */
  function LoadRom(s: State, font: seq<byte>, data: seq<byte>): (t: State)
    requires |font| <= MemorySize && |data| <= MemorySize - ProgramStart
    ensures WellFormed(t)
  {
    var r := Reset(s, font);
    r.(memory := seq(MemorySize, k requires 0 <= k < MemorySize =>
      if ProgramStart <= k < ProgramStart + |data| then data[k - ProgramStart] else r.memory[k]))
  }

  /** The timer part of `step`: `elapsed` is the whole seconds
      `dur.num_seconds()` since `last_tick`, and `now` the second clock
      reading that becomes the new `last_tick`. */
  function Decay(s: State, elapsed: int, now: int): (t: State)
    ensures WellFormed(s) ==> WellFormed(t)
    ensures t.delay <= s.delay && t.sound <= s.sound
    ensures t == s.(delay := t.delay, sound := t.sound, lastTick := t.lastTick)
  {
    if elapsed >= 1 then
      if elapsed <= 0 || elapsed > 0xFF then s.(delay := 0, sound := 0, lastTick := now)
      else
        s.(delay := if elapsed > s.delay as int then 0 else s.delay - elapsed as byte,
           sound := if elapsed > s.sound as int then 0 else s.sound - elapsed as byte,
           lastTick := now)
    else s
  }

  /** The opcode fetch of `step` as written:
      `(memory[pc] as u16) << 8 + memory[pc + 2] as u16`. `+` binds tighter
      than `<<`, so this is `memory[pc] << (8 + memory[pc + 2])`; with
      overflow checks off the shift amount is taken modulo 16 and the bits
      shifted past bit 15 are lost. */
  function FetchAsWritten(memory: seq<byte>, pc: word): (op: word)
    requires |memory| == MemorySize && pc as nat + 2 < MemorySize
    ensures memory[pc as nat + 2] as nat % 16 < 8 ==> op as nat % 0x100 == 0
    ensures memory[pc as nat + 2] as nat % 16 == 8 ==> op == memory[pc] as word
  {
    var shift := (8 + memory[pc as nat + 2] as nat) % 16;
    ShlClearsLowByte(memory[pc] as nat, shift);
    (Shl(memory[pc] as nat, shift) % 0x1_0000) as word
  }

  /** The fetch the code evidently intends: the big-endian word at `pc`. */
  function Fetch(memory: seq<byte>, pc: word): (op: word)
    requires |memory| == MemorySize && pc as nat + 1 < MemorySize
    ensures op as int / 0x100 == memory[pc] as int && op as int % 0x100 == memory[pc as nat + 1] as int
  {
    (memory[pc] as int * 0x100 + memory[pc as nat + 1] as int) as word
  }
}
