# CHIP-8 interpreter core, modelled in Dafny

This project models the interpreter state machine of the Rust crate
`chip_8` (`src/lib.rs`) and proves what it does. The model covers:

- the opcode field extractors `hex_nibble`, `lsb`, `gsb` and `left_truncate`;
- the `Chip8` struct;
- the instruction executor `eval_opcode`;
- `press_button`, which ends the `FXNA` lock, and `release_button`;
- `reset_system` and the copy loop of `load_rom`;
- the timer part of `step`.

The model follows the code **as written**, not the usual CHIP-8 instruction
set. The source departs from it in these places, and the contracts follow
the source:

- `left_truncate` shifts right. The "address" operand is therefore `opcode >> 4`, and the "immediate" is the high byte `opcode >> 8`. `ANNN` sets `i` to a value in `0xA00 .. 0xAFF`, and `6XNN` loads `0x60 + X`.
- `5XY?` compares the nibbles X and Y, not the registers.
- `BNNN` takes no `-2` before the final `+2`.
- `8XYE` shifts right, like `8XY6`, and flags bit 7.
- `F?55` is dispatched again on nibble 1:
  - 1 sets `delay`;
  - 5 stores `v[0 .. X)` at `i`, excluding `v[X]`;
  - 6 loads `v[0 .. X)` from `i`.
- The draw uses the nibbles X and Y as coordinates. It reads row `r` from `memory[i + r * 64 + X]`, and puts column `c` at `(2X + c) % 64`.
- Because `6XNN` loads the high byte, the usual reading of the program `6005 6103 8014` ("`v[0]` becomes 8") does not hold. Run under the intended fetch, this code leaves `v[0] = 0xC1` (`Findings.AdditionProgramRuns`).

## Layout

- `words.dfy` (`Words`): the types `byte` and `word`, wrapping 8- and 16-bit arithmetic, and bitwise and/or/xor/shift on naturals.
- `decoder.dfy` (`Decoder`): the four field extractors.
- `semantics.dfy` (`Semantics`): a value snapshot `State` of every field, and one function per operation. `Exec` is `eval_opcode`. The others are `Press`, `Release`, `Reset`, `LoadRom` and `Decay`.
- `geometry.dfy` (`Geometry`): where sprite pixels land on the screen.
- `interpreter.dfy` (`Interpreter`): the class `Chip8`, with the arrays and fields of the struct and one method per source function. `EvalOpcode`, `Step`, `ResetSystem`, `LoadRom`, `PressButton`, `ReleaseButton` and `DecayTimers` are proved to leave the object in the state their `Semantics` function computes from the state before the call. So are the instruction-family helpers `ExecArith`, `ExecMisc` and `DrawSprite`. `LoadFontSystem` and the loop helpers `ClearScreen`, `DrawRow`, `StoreDigits`, `StoreRegisterBlock` and `LoadRegisterBlock` state the new array contents cell by cell.
- `properties.dfy` (`Properties`): what each instruction family, the key handshake, the timer decay and the reset promise, stated over the `Semantics` functions.
- `findings.dfy` (`Findings`): two places where the code evidently does not do what was meant.

Choices about Rust's failure modes:

- Arithmetic follows a build with overflow checks off. `u8`/`u16` `+` and `-` wrap (the `-2` of jumps and returns, `+= 2`, `7XNN`, `FX1E`). An oversized shift amount is taken modulo 16 (the fetch of `step`).
- Array indexing out of bounds panics in every build, so it is excluded by preconditions:
  - `Semantics.NoPanic`: sprite rows, `FX33` and the register block lie in memory, and the key tested by `EX?1`/`EX?E` is below 16;
  - `k < 16` for `press_button` and `release_button`;
  - `pc + 2 < 4096` for `step`.

## Model

| member | source | states |
|---|---|---|
| Decoder.HexNibble | src/lib.rs:13-15 | the result is below 16 and is hexadecimal digit `nibble` of the opcode |
| Decoder.Lsb | src/lib.rs:17-19 | the least significant nibble, `opcode % 16` |
| Decoder.Gsb | src/lib.rs:21-23 | the most significant nibble, `opcode / 0x1000` |
| Decoder.LeftTruncate | src/lib.rs:25-27 | the result is `opcode >> 4n`: it drops the n LOW nibbles |
| Decoder.NibblesReassemble | src/lib.rs:13-23 | the four extracted nibbles weighted by 16^k give back the opcode |
| Decoder.TruncatedOperands | src/lib.rs:25-27 | `left_truncate(op, 1)` is family, X and Y; `left_truncate(op, 2)` is family and X, the high byte, below 0x100 |
| Semantics.Exec | src/lib.rs:69-284 | every instruction keeps the fixed array sizes and a lock target that is a register |
| Semantics.Press | src/lib.rs:286-292 | a press keeps the fixed array sizes and a register lock target; what it changes is in `Properties.PressSetsKey` |
| Semantics.Release | src/lib.rs:294-296 | a release keeps the fixed array sizes and a register lock target; what it changes is in `Properties.ReleaseOnlyKey` |
| Semantics.Reset | src/lib.rs:319-332 | the reset state is well formed, whatever the state before; its fields are listed in `Properties.ResetRestores` |
| Semantics.LoadRom | src/lib.rs:309-317 | the state after loading a ROM that fits above `0x200` is well formed; its contents are in `Properties.LoadRomPlacesProgram` |
| Semantics.Decay | src/lib.rs:338-356 | the timers never increase, only `delay`, `sound` and `last_tick` change, and a well-formed state stays well formed |
| Semantics.FetchAsWritten | src/lib.rs:335 | the as-written opcode is `memory[pc] << (8 + memory[pc + 2])`, with the shift amount taken mod 16 and the result cut to 16 bits. Its low byte is zero whenever `memory[pc + 2] % 16 < 8`, and it is `memory[pc]` itself when `memory[pc + 2] % 16 == 8` |
| Interpreter.Chip8.constructor | src/lib.rs:46-63 | a new machine is the reset state with the font loaded and `last_tick` the given clock reading |
| Interpreter.Chip8.LoadFontSystem | src/lib.rs:302-307 | memory starts with the font bytes; the rest of memory is unchanged |
| Interpreter.Chip8.ResetSystem | src/lib.rs:319-332 | the new state is `Reset` of the old one: every field cleared, then the font reloaded |
| Interpreter.Chip8.ClearState | src/lib.rs:320-330 | the field assignments of `reset_system` leave the state `Reset` gives for an empty font |
| Interpreter.Chip8.LoadRom | src/lib.rs:309-317 | reset, then `data[k]` copied to `memory[0x200 + k]`; equals `Semantics.LoadRom` |
| Interpreter.Chip8.PressButton | src/lib.rs:286-292 | the new state is `Press` of the old one |
| Interpreter.Chip8.ReleaseButton | src/lib.rs:294-296 | the new state is `Release` of the old one |
| Interpreter.Chip8.ClearScreen | src/lib.rs:74-77 | every screen cell is false after the loop |
| Interpreter.Chip8.DrawSprite | src/lib.rs:201-221 | the row loop and the flag write leave exactly the state `Draw` specifies |
| Interpreter.Chip8.DrawRow | src/lib.rs:207-215 | the bit loop toggles exactly the touched cells of one row and adds exactly their collisions to `turned_off` |
| Interpreter.Chip8.ExecArith | src/lib.rs:122-185 | the `8XY?` match leaves the state `Arith` specifies |
| Interpreter.Chip8.StoreDigits | src/lib.rs:239-246 | the digit loop writes the three decimal digits of `v[X]` to `memory[i .. i+3]` and nothing else |
| Interpreter.Chip8.StoreRegisterBlock | src/lib.rs:252-258 | memory becomes `StoreRegisters`: `v[a]` at `i + a` for `a < X`, the rest unchanged |
| Interpreter.Chip8.LoadRegisterBlock | src/lib.rs:259-265 | `v` becomes `LoadRegisters`: `memory[i + a]` in `v[a]` for `a < X`, the rest unchanged |
| Interpreter.Chip8.ExecMisc | src/lib.rs:237-279 | the `F???` match leaves the state `Misc` specifies |
| Interpreter.Chip8.EvalOpcode | src/lib.rs:69-284 | the in-place executor leaves exactly the state `Exec` computes from the state before |
| Interpreter.Chip8.DecayTimers | src/lib.rs:337-356 | the timer fields and `last_tick` end as `Decay` specifies |
| Interpreter.Chip8.Step | src/lib.rs:334-357 | one step is the as-written fetch, then `Exec`, then `Decay` |
| Properties.LockedIsFrozen | src/lib.rs:70 | while locked, `eval_opcode` changes nothing at all, not even `pc` |
| Properties.PlainInstructionAdvancesPc | src/lib.rs:282 | families 6, 7, 8, A, C, D and F, which neither jump nor skip, advance `pc` by exactly 2 (mod 2^16) and keep the stack |
| Properties.UnknownOnlyAdvances | src/lib.rs:183-280 | an opcode that falls into one of the `Unknown Opcode` arms changes nothing but `pc`, which advances by 2: `8XY8`..`8XYD`, `8XYF`, family E with a low nibble other than 1 and E, family F with an unlisted low nibble, and `F??5` with nibble 1 other than 1, 5 and 6 |
| Properties.WaitForKey | src/lib.rs:272-292 | `FXNA` sets `locked`, makes X the locked register, advances `pc` and changes nothing else; a locked machine ignores every opcode; a press writes the key into `v[X]`, sets it down and unlocks |
| Properties.PressSetsKey | src/lib.rs:286-292 | a press sets `keys[k]` and clears the lock; when locked it writes `k` into the locked register; nothing else changes |
| Properties.ReleaseUndoesPress | src/lib.rs:286-296 | releasing a key just pressed restores the keys, and the whole state when unlocked |
| Properties.ReleaseOnlyKey | src/lib.rs:294-296 | a release clears `keys[k]` and changes nothing else |
| Properties.JumpTarget | src/lib.rs:84-86 | `1NNN` ends with `pc = opcode >> 4` and changes nothing else |
| Properties.CallPushes | src/lib.rs:87-90 | `2NNN` pushes the pre-call `pc`, ends with `pc = opcode >> 4`, and changes nothing else |
| Properties.ReturnPops | src/lib.rs:78-82 | a return on a non-empty stack pops one entry and ends on the popped address; on an empty stack only the `+2` happens |
| Properties.CallThenReturn | src/lib.rs:78-90 | as written, a call followed by a return restores the state before the call, `pc` included, so the call runs again |
| Properties.OffsetJumpTarget | src/lib.rs:194-196 | `BNNN` ends with `pc = v[0] + (opcode >> 4) + 2` |
| Properties.ClearScreenClears | src/lib.rs:74-77 | a family-0 opcode with low nibble 0 switches every cell off |
| Properties.SkipIfEqual | src/lib.rs:91-97 | `3X??` skips iff `v[X]` equals the high byte |
| Properties.SkipIfNotEqual | src/lib.rs:98-104 | `4X??` skips iff `v[X]` differs from the high byte |
| Properties.SkipIfSameIndex | src/lib.rs:105-111 | `5XY?` skips iff the nibbles X and Y are equal |
| Properties.SkipIfRegistersDiffer | src/lib.rs:186-190 | `9XY?` skips iff `v[X] != v[Y]` |
| Properties.SkipOnKey | src/lib.rs:222-236 | `EX?1` skips iff key `v[X]` is down, `EX?E` iff it is up |
| Properties.LoadIndex | src/lib.rs:191-193 | `ANNN` sets `i = opcode >> 4`, which lies in `0xA00 .. 0xAFF` |
| Properties.LoadImmediate | src/lib.rs:112-116 | `6XNN` sets `v[X]` to the high byte and changes nothing else |
| Properties.AddImmediate | src/lib.rs:117-121 | `7XNN` adds the high byte to `v[X]` modulo 256, with no flag |
| Properties.RandomIsMasked | src/lib.rs:197-200 | whatever the random byte, `CXNN` stores a value whose bits are among those of the high byte, and writes only `v[X]` |
| Properties.IndexArithmetic | src/lib.rs:271-276 | `FX29` sets `i = 5 v[X]`; `FX1E` adds `v[X]` to `i` modulo 2^16 |
| Properties.TimerRegisters | src/lib.rs:249-270 | `FX07` reads `delay`, `FX18` sets `sound`, `F?15` with nibble 1 equal to 1 sets `delay` |
| Properties.CarryTest | src/lib.rs:136-142 | the test `val < a \|\| val < b` on the wrapped sum holds iff `a + b >= 256` |
| Properties.AddRegisters | src/lib.rs:132-144 | `8XY4`: `v[X] = (a+b) mod 256`; for X ≠ F the flag is 1 iff `a + b >= 256`; only `v[X]` and `v[F]` change |
| Properties.SubRegisters | src/lib.rs:145-156 | `8XY5`: `v[X] = (a-b) mod 256`; for X ≠ F the flag is 1 iff `0 < b <= a` |
| Properties.SubRegistersReversed | src/lib.rs:164-175 | `8XY7`: `v[X] = (b-a) mod 256`; for X ≠ F the flag is 1 iff `b > a` |
| Properties.ShiftRegister | src/lib.rs:157-182 | `8XY6` and `8XYE` both halve `v[X]`; the flag is the low bit for `6` and the top bit for `E` |
| Properties.BitwiseOnlyWritesX | src/lib.rs:127-130 | `8XY0`..`8XY3` write only `v[X]`; `8XY0` copies `v[Y]`; each bit of the result of `8XY1`, `8XY2` and `8XY3` is the OR, AND and XOR of the bits of `v[X]` and `v[Y]`, and the AND is at most either operand |
| Properties.DrawFlagIsCollision | src/lib.rs:205-220 | after a draw `v[F]` is 0 or 1, and 1 iff some cell that was on is now off |
| Properties.DrawFrame | src/lib.rs:201-221 | a draw changes only the screen, `v[F]` and `pc` |
| Properties.DrawTogglesSpritePixel | src/lib.rs:206-215 | the pixel of row `r`, column `c` XORs bit `7 - c` of `memory[i + 64r + X]` into cell `(r % 32) * 64 + (2X + c) % 64` |
| Properties.DrawLeavesOtherCells | src/lib.rs:206-215 | a cell no row/column pair of the sprite maps to is unchanged |
| Properties.DrawTwiceRestores | src/lib.rs:201-221 | the same draw twice restores the screen; the second flag reports whether a sprite cell was on after the first |
| Geometry.DrawCellInverse | src/lib.rs:211 | the toggled cell is on the screen, in screen row `r`, and determines the column `c` |
| Geometry.DrawCellUnique | src/lib.rs:211 | a cell in row `r` with column `c` is the one the loop toggles for `(r, c)` |
| Geometry.DrawCellInjective | src/lib.rs:206-215 | distinct row/column pairs of one draw toggle distinct cells, so no cell is toggled twice |
| Properties.DecimalDigitsSpell | src/lib.rs:240 | the three digits of `{:03}` are each at most 9 and spell the value |
| Properties.StoreDecimal | src/lib.rs:239-246 | `FX33` writes `v/100`, `(v/10)%10` and `v%10` at `i`, `i+1` and `i+2`, and nothing else |
| Properties.StoreBlock | src/lib.rs:252-258 | the store copies `v[0 .. X)` to `memory[i .. i+X)`, excluding `v[X]`, and changes nothing else |
| Properties.LoadBlock | src/lib.rs:259-265 | the load copies `memory[i .. i+X)` into `v[0 .. X)` and leaves `v[X ..]` |
| Properties.StoreThenLoad | src/lib.rs:252-265 | a store followed by a load of the same block leaves the registers unchanged |
| Properties.TimersDecay | src/lib.rs:338-356 | below one elapsed second nothing changes; beyond 255 both timers become 0; otherwise each becomes `max(0, t - n)` and `last_tick` is updated |
| Properties.ResetRestores | src/lib.rs:319-332 | reset gives `pc = 0x200`, an empty stack, zero registers and timers, screen off, keys up, unlocked, and memory holding only the font |
| Properties.LoadRomPlacesProgram | src/lib.rs:309-317 | the ROM bytes lie at `0x200 ..`; everything else is as reset leaves it |
| Semantics.Fetch | src/lib.rs:335 | the intended fetch: `memory[pc]` is the high byte and `memory[pc + 1]` the low byte of the opcode |
| Findings.FetchAsWrittenMisreads | src/lib.rs:335 | as written, the bytes `12 34 00` at `pc` are read as `0x1200`; the intended fetch reads `0x1234` |
| Findings.FetchAsWrittenIgnoresSecondByte | src/lib.rs:335 | as written, the fetched opcode never depends on `memory[pc + 1]` |
| Findings.FetchDecodes | src/lib.rs:335 | under the intended fetch, the family and X come from `memory[pc]`, and Y and N from `memory[pc + 1]` |
| Findings.AdditionProgramImage | src/lib.rs:309-335 | after loading `6005 6103 8014`, the as-written first fetch reads `0xC000`, not `0x6005` |
| Findings.AdditionProgramRuns | src/lib.rs:112-144 | under the intended fetch the program leaves `v[0] = 0xC1`, `v[1] = 0x61`, no carry and `pc = 0x206` |
| Findings.ExecWithIntendedReturn | src/lib.rs:78-82 | the corrected executor, where a return pops and resumes at the popped address plus 2, keeps the fixed array sizes and a register lock target |
| Findings.IntendedReturnResumesAfterCall | src/lib.rs:78-90 | with the return fixed, a call then a return restores the stack and resumes at the instruction after the call, where the as-written return does not |

## Left out

- File reading in `load_rom` (`File::open`, `read_to_end`): the bytes come in as a parameter. A precondition says they fit above `0x200`.
- The font behind `include_bytes!("chip8.rom")` is not part of this model. It is a byte-sequence parameter of the constructor, kept in the constant field `font`.
- `rand::thread_rng` in `CXNN`: the random byte is a parameter `rnd`.
- `time::now_utc` in `new` and `step`:
  - the whole seconds `dur.num_seconds()` come in as `elapsed`;
  - the clock reading stored in `last_tick` comes in as `now`;
  - `last_tick` is an abstract integer instead of a `time::Tm`.
- The `println!` diagnostics for unknown opcodes: they produce no output here. As in the source, the instruction then only advances `pc` by 2.
- `get_current_state` and `get_screen`: accessors that move the value and compute nothing.
- Debug-build panics on arithmetic overflow. The model wraps instead, as a build with overflow checks off does. This covers the `u8` `+=` of `7XNN`, the `u16` `-2` and `+= 2`, `i +=` of `FX1E`, and the oversized shift of the fetch.
- Semantics.NoPanic: for the draw it requires the sprite address `i + y_loc * 64 + x` (src/lib.rs:207) to lie in memory without 16-bit wrap-around. With overflow checks off, the source also accepts an `i` whose sum wraps back into memory, for example `i = 0xFFF0` with Y = 1 and X = 0, and the model excludes those inputs. For `FX33` (`i + count`) and the register block (`a + loc`) the condition is exact. Both loops index `memory[i]` first, so the source panics whenever `i >= 4096` and no wrapped sum is ever reached.
- Findings: the interpreter (`Interpreter.Chip8.Step`, `EvalOpcode`) keeps the behaviour as written for both findings, so that it matches the source. The corrected fetch and return are stated and proved beside it, in `Semantics.Fetch` and `Findings.ExecWithIntendedReturn`.

## Findings

| source | as written | input that shows it | evidently intended | confidence | as-written member | corrected member |
|---|---|---|---|---|---|---|
| src/lib.rs:335 | `+` binds tighter than `<<`, so the fetch shifts `memory[pc]` left by `8 + memory[pc + 2]`, and `memory[pc + 1]` is never read | bytes `12 34 00` at `pc` are fetched as `0x1200`; the program `6005 6103 8014` at `0x200` is first fetched as `0xC000` | the big-endian word `memory[pc] * 256 + memory[pc + 1]` | not executed | Findings.FetchAsWrittenMisreads | Findings.FetchDecodes |
| src/lib.rs:80 | a return sets `pc` to the popped address minus 2. The address pushed at line 88 is that of the call itself, so the final `+2` lands on the call again | `2NNN` followed by a return (`0x0` family, low nibble not 0) comes back to the same call, forever | resume at the instruction after the call, the popped address plus 2 | not executed | Properties.CallThenReturn | Findings.IntendedReturnResumesAfterCall |
