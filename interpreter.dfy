/** The `Chip8` struct of `src/lib.rs` and its methods, as a class whose
    arrays and fields are updated in place. `EvalOpcode`, `Step`,
    `ResetSystem`, `LoadRom`, `PressButton`, `ReleaseButton`, `DecayTimers`
    and the family helpers `ExecArith`, `ExecMisc` and `DrawSprite` are
    proved to leave the machine in the state their `Semantics` function
    computes from the state before the call. `LoadFontSystem` and the loop
    helpers state the new array contents cell by cell. */
module Interpreter {
  import opened Words
  import opened Decoder
  import opened Semantics
  import opened Geometry

  /** The sprite pixels the draw loop has handled after finishing rows
      before `row` and columns before `c` of row `row`. */
  ghost predicate DrawnBefore(x: nat, p: nat, row: nat, c: nat)
  {
    p / ScreenWidth < row || (p / ScreenWidth == row && SpriteColumn(x, p) < c)
  }

  class Chip8 {
    const memory: array<byte>
    const v: array<byte>
    var i: word
    var pc: word
    var stack: seq<word>
    const screen: array<bool>
    var sound: byte
    var delay: byte
    const keys: array<bool>
    var locked: bool
    var lockedRegister: byte
    var lastTick: int
    /** The bytes `include_bytes!("chip8.rom")` embeds: the font table. */
    const font: seq<byte>

    ghost predicate Valid()
      reads this
    {
      && memory.Length == MemorySize
      && v.Length == RegisterCount
      && screen.Length == ScreenSize
      && keys.Length == KeyCount
      && memory != v
      && screen != keys
      && lockedRegister as nat < RegisterCount
      && |font| <= MemorySize
    }

    /** The value of every field. */
    ghost function Snapshot(): State
      reads this, memory, v, screen, keys
    {
      State(memory[..], v[..], i, pc, stack, screen[..], sound, delay, keys[..], locked, lockedRegister, lastTick)
    }

    /** `Chip8::new()`, with `now` standing for `time::now_utc()`. */
    constructor (font: seq<byte>, now: int)
      requires |font| <= MemorySize
      ensures Valid() && this.font == font
      ensures Snapshot() == Reset(Snapshot(), font).(lastTick := now)
      ensures fresh(memory) && fresh(v) && fresh(screen) && fresh(keys)
    {
      this.font := font;
      memory := new byte[MemorySize](_ => 0);
      v := new byte[RegisterCount](_ => 0);
      i, pc, stack := 0, ProgramStart as word, [];
      screen := new bool[ScreenSize](_ => false);
      sound, delay := 0, 0;
      keys := new bool[KeyCount](_ => false);
      locked, lockedRegister := false, 0;
      lastTick := now;
      new;
      LoadFontSystem();
    }

    /** `load_font_system`: copy the font to the start of memory. */
    method LoadFontSystem()
      requires Valid()
      modifies memory
      ensures forall k :: 0 <= k < MemorySize ==> memory[k] == if k < |font| then font[k] else old(memory[k])
    {
      for x := 0 to |font|
        invariant forall k :: 0 <= k < MemorySize ==> memory[k] == if k < x then font[k] else old(memory[k])
      {
        memory[x] := font[x];
      }
    }

    /** `reset_system`: clear every field, then reload the font. */
    method ResetSystem()
      requires Valid()
      modifies this, memory, v, screen, keys
      ensures Valid() && Snapshot() == Reset(old(Snapshot()), font)
    {
      ClearState();
      ghost var cleared := Snapshot();
      LoadFontSystem();
      assert memory[..] == FontMemory(font);
      assert Snapshot() == cleared.(memory := FontMemory(font));
    }

    /** The assignments of `reset_system` before the font is reloaded: the
        state `Reset` gives for an empty font. */
    method ClearState()
      requires Valid()
      modifies this, memory, v, screen, keys
      ensures Valid() && Snapshot() == Reset(old(Snapshot()), [])
    {
      forall k | 0 <= k < MemorySize {
        memory[k] := 0;
      }
      forall k | 0 <= k < RegisterCount {
        v[k] := 0;
      }
      i, pc, stack := 0, ProgramStart as word, [];
      forall k | 0 <= k < ScreenSize {
        screen[k] := false;
      }
      sound, delay := 0, 0;
      forall k | 0 <= k < KeyCount {
        keys[k] := false;
      }
      locked, lockedRegister := false, 0;
      assert memory[..] == FontMemory([]);
      assert v[..] == seq(RegisterCount, _ => 0);
      assert screen[..] == seq(ScreenSize, _ => false);
      assert keys[..] == seq(KeyCount, _ => false);
    }

    /** The copy loop of `load_rom`, given the bytes `read_to_end` returned. */
    method LoadRom(data: seq<byte>)
      requires Valid() && |data| <= MemorySize - ProgramStart
      modifies this, memory, v, screen, keys
      ensures Valid() && Snapshot() == Semantics.LoadRom(old(Snapshot()), font, data)
    {
      ResetSystem();
      ghost var r := memory[..];
      for offset := 0 to |data|
        modifies memory
        invariant forall k :: 0 <= k < MemorySize ==>
          memory[k] == if ProgramStart <= k < ProgramStart + offset then data[k - ProgramStart] else r[k]
      {
        memory[offset + ProgramStart] := data[offset];
      }
      assert memory[..] == Semantics.LoadRom(old(Snapshot()), font, data).memory;
    }

    /** `press_button(k)`. */
    method PressButton(k: byte)
      requires Valid() && k as nat < KeyCount
      modifies this, keys, v
      ensures Valid() && Snapshot() == Press(old(Snapshot()), k)
    {
      keys[k] := true;
      if locked {
        v[lockedRegister] := k;
        locked := false;
      }
    }

    /** `release_button(k)`. */
    method ReleaseButton(k: byte)
      requires Valid() && k as nat < KeyCount
      modifies keys
      ensures Valid() && Snapshot() == Release(old(Snapshot()), k)
    {
      keys[k] := false;
    }

    /** The screen-clearing loop of `00E0`. */
    method ClearScreen()
      requires Valid()
      modifies screen
      ensures screen[..] == seq(ScreenSize, _ => false)
    {
      for x := 0 to screen.Length
        invariant forall k :: 0 <= k < x ==> !screen[k]
      {
        screen[x] := false;
      }
    }

    /** Family 0xD: the row loop of the draw, one `DrawRow` per sprite row. */
    method DrawSprite(op: word)
      requires Valid() && NoPanic(Snapshot(), op) && !locked && Gsb(op) == 0xD
      modifies screen, v
      ensures Snapshot() == Draw(old(Snapshot()), op)
    {
      ghost var s := Snapshot();
      var x := HexNibble(op, 2);
      var y := HexNibble(op, 1);
      var height := HexNibble(op, 0);
      var turnedOff := false;
      var yLoc := y;
      while yLoc < y + height
        invariant y <= yLoc <= y + height
        invariant forall p :: 0 <= p < ScreenSize ==>
          screen[p] == (s.screen[p] != (Touched(s, op, p) && p / ScreenWidth < yLoc as nat))
        invariant turnedOff <==> exists p :: 0 <= p < ScreenSize && Touched(s, op, p) && p / ScreenWidth < yLoc as nat && s.screen[p]
        invariant Snapshot() == s.(screen := screen[..])
      {
        var val := memory[i as int + yLoc as int * ScreenWidth + x as int];
        turnedOff := DrawRow(s, op, yLoc, val, turnedOff);
        yLoc := yLoc + 1;
      }
      v[Flag] := 0;
      if turnedOff {
        v[Flag] := 1;
      }
      assert screen[..] == Draw(s, op).screen;
    }

    /** The bit loop of the draw for sprite row `yLoc`, whose byte is `val`:
        toggles the touched cells of that row and adds their collisions to
        `turnedOff`. */
    method DrawRow(ghost s: State, op: word, yLoc: word, val: byte, turnedOff: bool) returns (collided: bool)
      requires Valid() && WellFormed(s) && NoPanic(s, op) && !s.locked && Gsb(op) == 0xD
      requires RegY(op) <= yLoc as nat < RegY(op) + LowNibble(op)
      requires s.i as nat + yLoc as nat * ScreenWidth + RegX(op) as nat < MemorySize
      requires val == SpriteByte(s, RegX(op) as nat, yLoc as nat)
      requires forall p :: 0 <= p < ScreenSize ==>
        screen[p] == (s.screen[p] != (Touched(s, op, p) && p / ScreenWidth < yLoc as nat))
      requires turnedOff <==> exists p :: 0 <= p < ScreenSize && Touched(s, op, p) && p / ScreenWidth < yLoc as nat && s.screen[p]
      modifies screen
      ensures forall p :: 0 <= p < ScreenSize ==>
        screen[p] == (s.screen[p] != (Touched(s, op, p) && p / ScreenWidth <= yLoc as nat))
      ensures collided <==> exists p :: 0 <= p < ScreenSize && Touched(s, op, p) && p / ScreenWidth <= yLoc as nat && s.screen[p]
    {
      var x := HexNibble(op, 2);
      collided := turnedOff;
      var xPos: word := x;
      var c := 0;
      while c < 8
        invariant 0 <= c <= 8 && xPos as int == x as int + c
        invariant forall p :: 0 <= p < ScreenSize ==>
          screen[p] == (s.screen[p] != (Touched(s, op, p) && DrawnBefore(x as nat, p, yLoc as nat, c)))
        invariant collided <==> exists p :: 0 <= p < ScreenSize && Touched(s, op, p) && DrawnBefore(x as nat, p, yLoc as nat, c) && s.screen[p]
      {
        DrawCellInverse(x as nat, yLoc as nat, c);
        ghost var q := DrawCell(x as nat, yLoc as nat, c);
        forall p | 0 <= p < ScreenSize && p / ScreenWidth == yLoc as nat && SpriteColumn(x as nat, p) == c
          ensures p == q
        {
          DrawCellUnique(x as nat, yLoc as nat, c, p);
        }
        if Bit(val, 7 - c) {
          var cell := (yLoc as int % ScreenHeight) * ScreenWidth + (x as int + xPos as int) % ScreenWidth;
          assert cell == q;
          assert Touched(s, op, q);
          screen[cell] := !screen[cell];
          collided := collided || !screen[cell];
        } else {
          assert !Touched(s, op, q);
        }
        xPos := xPos + 1;
        c := c + 1;
      }
    }

    /** Family 0x8: register-to-register operations. */
    method ExecArith(opcode: word)
      requires Valid() && Gsb(opcode) == 0x8
      modifies v
      ensures Snapshot() == Arith(old(Snapshot()), opcode)
    {
      var id := Lsb(opcode);
      var vx := HexNibble(opcode, 2);
      var vy := HexNibble(opcode, 1);
      match id
      case 0x0 => v[vx] := v[vy];
      case 0x1 => v[vx] := Or8(v[vx], v[vy]);
      case 0x2 => v[vx] := And8(v[vx], v[vy]);
      case 0x3 => v[vx] := Xor8(v[vx], v[vy]);
      case 0x4 =>
        var val := Add8(v[vx], v[vy]);
        v[Flag] := if val < v[vx] || val < v[vy] then 1 else 0;
        v[vx] := val;
      case 0x5 =>
        var val := Sub8(v[vx], v[vy]);
        v[Flag] := if val < v[vx] then 1 else 0;
        v[vx] := val;
      case 0x6 =>
        var vxWrapping := v[vx];
        v[Flag] := And8(v[vx], 1);
        v[vx] := Shr8(vxWrapping, 1);
      case 0x7 =>
        var val := Sub8(v[vy], v[vx]);
        v[Flag] := if v[vy] > v[vx] then 1 else 0;
        v[vx] := val;
      case 0xE =>
        var vxWrapping := v[vx];
        v[Flag] := Shr8(v[vx], 7);
        v[vx] := Shr8(vxWrapping, 1);
      case _ =>
        // "Unknown Opcode" diagnostic only.
    }

    /** `F?33`: the digits of `format!("{:03}", v[X])`, one per cell from `i`. */
    method StoreDigits(x: nat)
      requires Valid() && x < RegisterCount && i as nat + 2 < MemorySize
      modifies memory
      ensures memory[..] == old(memory[..])[i as nat := DecimalDigits(v[x])[0]]
                                           [i as nat + 1 := DecimalDigits(v[x])[1]]
                                           [i as nat + 2 := DecimalDigits(v[x])[2]]
    {
      var digit := DecimalDigits(v[x]);
      for count := 0 to |digit|
        invariant forall k :: 0 <= k < MemorySize ==>
          memory[k] == if i as nat <= k < i as nat + count then digit[k - i as nat] else old(memory[k])
      {
        memory[i as int + count] := digit[count];
      }
    }

    /** `F?55`-style store: `memory[a + i] = v[a]` for `a` in `0..x`. */
    method StoreRegisterBlock(reg: nat)
      requires Valid() && reg < RegisterCount && (reg == 0 || i as nat + reg <= MemorySize)
      modifies memory
      ensures memory[..] == StoreRegisters(old(Snapshot()), reg)
    {
      var loc := i;
      for a := 0 to reg
        invariant forall k :: 0 <= k < MemorySize ==>
          memory[k] == if loc as nat <= k < loc as nat + a then v[k - loc as nat] else old(memory[k])
      {
        memory[a + loc as int] := v[a];
      }
    }

    /** `F?65`-style load: `v[a] = memory[a + i]` for `a` in `0..x`. */
    method LoadRegisterBlock(reg: nat)
      requires Valid() && reg < RegisterCount && (reg == 0 || i as nat + reg <= MemorySize)
      modifies v
      ensures v[..] == LoadRegisters(old(Snapshot()), reg)
    {
      var loc := i;
      for a := 0 to reg
        invariant forall k :: 0 <= k < RegisterCount ==>
          v[k] == if k < a then memory[loc as nat + k] else old(v[k])
      {
        v[a] := memory[a + loc as int];
      }
    }

    /** Family 0xF. */
    method ExecMisc(opcode: word)
      requires Valid() && NoPanic(Snapshot(), opcode) && !locked && Gsb(opcode) == 0xF
      modifies this, memory, v
      ensures Valid() && Snapshot() == Misc(old(Snapshot()), opcode)
    {
      var x := HexNibble(opcode, 2);
      match HexNibble(opcode, 0)
      case 0x3 => StoreDigits(x as nat);
      case 0x5 =>
        match HexNibble(opcode, 1) {
          case 1 => delay := v[x];
          case 5 => StoreRegisterBlock(x as nat);
          case 6 => LoadRegisterBlock(x as nat);
          case _ =>
            // "Unknown Opcode" diagnostic only.
        }
      case 0x7 => v[x] := delay;
      case 0x8 => sound := v[x];
      case 0x9 => i := (v[x] as int * 5) as word;
      case 0xA =>
        locked := true;
        lockedRegister := x as byte;
      case 0xE => i := Add16(i as int, v[x] as int);
      case _ =>
        // "Unknown Opcode" diagnostic only.
    }

    /** `eval_opcode(opcode)`; `rnd` is the byte `CXNN` draws. */
    method EvalOpcode(opcode: word, rnd: byte)
      requires Valid() && NoPanic(Snapshot(), opcode)
      modifies this, memory, v, screen
      ensures Valid() && Snapshot() == Exec(old(Snapshot()), opcode, rnd)
    {
      if !locked {
        ghost var s := Snapshot();
        match Gsb(opcode) {
          case 0x0 =>
            if HexNibble(opcode, 0) == 0x0 {
              ClearScreen();
            } else if |stack| > 0 {
              var top := stack[|stack| - 1];
              stack := stack[..|stack| - 1];
              pc := Sub16(top as int, 2);
            }
          case 0x1 => pc := Sub16(LeftTruncate(opcode, 1) as int, 2);
          case 0x2 =>
            stack := stack + [pc];
            pc := Sub16(LeftTruncate(opcode, 1) as int, 2);
          case 0x3 =>
            var register := HexNibble(opcode, 2);
            var num := (LeftTruncate(opcode, 2) as int % 0x100) as byte;
            if v[register] == num {
              pc := Add16(pc as int, 2);
            }
          case 0x4 =>
            var register := HexNibble(opcode, 2);
            var num := (LeftTruncate(opcode, 2) as int % 0x100) as byte;
            if v[register] != num {
              pc := Add16(pc as int, 2);
            }
          case 0x5 =>
            var vx := HexNibble(opcode, 2);
            var vy := HexNibble(opcode, 1);
            if vx == vy {
              pc := Add16(pc as int, 2);
            }
          case 0x6 =>
            var register := HexNibble(opcode, 2);
            var num := (LeftTruncate(opcode, 2) as int % 0x100) as byte;
            v[register] := num;
          case 0x7 =>
            var register := HexNibble(opcode, 2);
            var num := (LeftTruncate(opcode, 2) as int % 0x100) as byte;
            v[register] := Add8(v[register], num);
          case 0x8 => ExecArith(opcode);
          case 0x9 =>
            if v[HexNibble(opcode, 2)] != v[HexNibble(opcode, 1)] {
              pc := Add16(pc as int, 2);
            }
          case 0xA => i := LeftTruncate(opcode, 1);
          case 0xB => pc := Add16(v[0] as int, LeftTruncate(opcode, 1) as int);
          case 0xC =>
            v[HexNibble(opcode, 2)] := And8((LeftTruncate(opcode, 2) as int % 0x100) as byte, rnd);
          case 0xD => DrawSprite(opcode);
          case 0xE =>
            match HexNibble(opcode, 0) {
              case 0x1 =>
                if keys[v[HexNibble(opcode, 2)]] {
                  pc := Add16(pc as int, 2);
                }
              case 0xE =>
                if !keys[v[HexNibble(opcode, 2)]] {
                  pc := Add16(pc as int, 2);
                }
              case _ =>
                // "Unknown Opcode" diagnostic only.
            }
          case 0xF => ExecMisc(opcode);
        }
        assert Snapshot() == Dispatch(s, opcode, rnd);
        pc := Add16(pc as int, 2);
      }
    }

    /** The timer part of `step`: `elapsed` is `dur.num_seconds()` for
        `dur = time::now_utc() - last_tick`, `now` the later
        `time::now_utc()` stored as the new `last_tick`. */
    method DecayTimers(elapsed: int, now: int)
      modifies this
      ensures Snapshot() == Decay(old(Snapshot()), elapsed, now)
    {
      if elapsed >= 1 {
        var num := elapsed;
        if num <= 0 || num > 0xFF {
          delay := 0;
          sound := 0;
        } else {
          delay := if num > delay as int then 0 else delay - num as byte;
          sound := if num > sound as int then 0 else sound - num as byte;
        }
        lastTick := now;
      }
    }

    /** `step`: fetch as written, execute, decay the timers. */
    method Step(rnd: byte, elapsed: int, now: int)
      requires Valid() && pc as nat + 2 < MemorySize
      requires NoPanic(Snapshot(), FetchAsWritten(memory[..], pc))
      modifies this, memory, v, screen
      ensures Valid()
      ensures Snapshot() == Decay(Exec(old(Snapshot()), FetchAsWritten(old(memory[..]), old(pc)), rnd), elapsed, now)
    {
      var opcode := FetchAsWritten(memory[..], pc);
      EvalOpcode(opcode, rnd);
      DecayTimers(elapsed, now);
    }
}
}
