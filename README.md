# CHIP-8 interpreter core in Dafny

This project models the interpreter of the CHIP-8 emulator in `emu.c` and `emu.h`:

- the `chip8_t` machine record: 4 KiB of RAM, a 64×32 monochrome display, a 12-slot return stack and its stack pointer, the registers V0–VF, PC and I, the delay and sound timers, the key latches and the run state;
- `chip8_init`, which lays out the font, the ROM and the start state;
- `execute_instruction`: one fetch, decode and dispatch over the 35 original opcodes;
- `update_timers`;
- the two events of `user_input` that reach the record (key latch, quit) and the host loop's frame: a batch of instructions, then one timer tick.

It is built in two layers:

- **`Chip8State` and `Chip8Spec`** (`state.dfy`, `spec.dfy`) describe the record as a `Machine` value. Each opcode is a pure function on that value: `Exec` is one call of `execute_instruction`, `TickTimers` one call of `update_timers`, `Initial` and `Load` are `chip8_init`.
- **`Chip8Emu`** (`emulator.dfy`) is the interpreter as the C code runs it. The global record is a class whose arrays and fields are updated in place, with the same loops:
  - the font and ROM copy;
  - the row and column loops of DXYN;
  - the key scan of FX0A;
  - the copy loops of FX55 and FX65.

  Each method is proved to do to `Abs()`, the object read as a `Machine`, exactly what the `Chip8Spec` function says.

`Chip8Properties` (`properties.dfy`) proves what the opcodes promise about the `Chip8Spec` functions:

- closed forms of the drawing loops (pixel-wise XOR inside a rectangle clipped at the edges, collision iff a set bit lands on a lit pixel);
- drawing twice restores the display;
- carry, borrow and shift flags;
- call and return;
- BCD digits;
- register dump and load;
- key wait;
- timer countdown and tone duration;
- composition of runs.

`Chip8Findings` (`findings.dfy`) holds the as-declared array sizes of `emu.h` and the lemmas of the "Findings" section.

Conventions:

- Bytes and words are integer subtypes (`Byte` 0..255, `Word` 0..65535). The bitwise operators go through `bv8`.
- Every assignment to a `uint8_t` or `uint16_t` is reduced modulo 2^8 or 2^16 explicitly. Dafny's `%` is Euclidean, which matches C's unsigned wrap-around for the negative differences of 8XY5, 8XY7 and `PC -= 2`.
- The display is row-major: pixel (x, y) is `display[y * 64 + x]`.
- `stack_ptr` is kept as `sp`, its distance from `&stack[0]`.
- The value of `rand() % 256` is a parameter (`rnd`) of each step.
- Where a step of the C code has undefined behaviour, the model requires it not to happen. `Chip8Spec.Defined` collects those conditions:
  - an opcode fetch at or past 0xFFF, whose second byte lies outside RAM;
  - 00EE with an empty stack;
  - 2NNN with a full stack;
  - DXYN reading past RAM;
  - EX9E or EXA1 with VX ≥ 16;
  - FX33, FX55 or FX65 reaching past RAM.

Where the code departs from the usual CHIP-8 behaviour, or behaves in a way that is easy to miss, the model follows the code:

- **8XY4 leaves VF alone when there is no carry.** The usual CHIP-8 behaviour sets VF = 0 here. See `AddCarry`.
- **Each flag-setting ALU case writes VF before it computes the result.** So with X or Y = F the result reads the new VF (`FlagWrittenFirst`).
- **FX0A never lets the program continue.** PC is always moved back onto the FX0A: once a key is found, the code tests the same key again, and it is still pressed. The scan runs over `sizeof(chip8.keypad)`, the 15 latches 0x0–0xE that `emu.h` declares. VX receives the lowest pressed key among them, and key F on its own is never taken (`WaitKeyResult`, `WaitKeyStays`, `WaitKeyIdempotent`, and the keypad row of "Findings").
- **The tone of a tick is decided by the sound timer before it is decremented.**
- **The host loop does not look at the PAUSE state.** A frame always executes its batch.
- **5XY0 and 9XY0 ignore N.** 00E0 and 00EE look only at NN, so 0x01E0 also clears the screen.
- **An empty ROM file fails `chip8_init`.** The single-item `fread` of 0 bytes reports failure (`Load`).

## Model

| member | source | states |
|---|---|---|
| Chip8Spec.Fetch | emu.c:442 | the opcode is big-endian: its high byte is ram[PC] and its low byte ram[PC+1] |
| Chip8Spec.Decode | emu.c:445-449 | the masks and shifts split the opcode into nibbles: opcode = op·0x1000 + NNN, NNN = X·0x100 + NN, NN = Y·0x10 + N |
| Chip8Spec.Exec | emu.c:440-704 | one instruction keeps every array at its size (the 16 registers V0–VF included) and the stack pointer within the stack, and never changes the run state or the keypad |
| Chip8Spec.Dispatch | emu.c:456-702 | the opcode switch keeps the record well formed and leaves the run state and the keypad alone; what each case does is stated by SkipMovesPC, UnknownIsNoop, CallThenReturn, JumpOffset, ExecFrame and the ALU, draw and FXNN rows |
| Chip8Spec.Alu | emu.c:498-557 | 8XYN keeps the register file at 16 slots; its cases are stated by AddCarry, SubBorrow, ShiftRight, ReverseSubBorrow, ShiftLeft, FlagWrittenFirst, XorSelf and AluFrame |
| Chip8Spec.RowDrawn | emu.c:596-612 | the column loop keeps the display size; RowDrawnPixel and RowDrawnOutside state which pixels it XORs |
| Chip8Spec.Drawn | emu.c:591-615 | the row loop keeps the display size; DrawnPixel, DrawClipped and DrawnTwice state its pixels |
| Chip8Spec.RowHit | emu.c:596-612 | whether the column loop raises VF; RowHitExists states that it does iff a visited set bit lies over a lit pixel |
| Chip8Spec.Collides | emu.c:588-615 | whether the row loop leaves VF = 1; CollidesExists states that it does iff a set bit of the rectangle lies over a pixel lit before the draw |
| Chip8Spec.Draw | emu.c:578-616 | DXYN keeps the record well formed; DrawnPixel, CollidesExists, ExecDrawFlag and DrawTwiceRestores state what it draws and what VF becomes |
| Chip8Spec.Misc | emu.c:627-698 | FXNN keeps the record well formed; MiscFrame, DelayRoundTrip, FontAddress, BcdDigits, StoreRegsWrites, LoadAfterStore and WaitKeyResult state its cases |
| Chip8Spec.FirstPressed | emu.c:638-645 | the scan returns the lowest pressed key of the range, and reports none only when no key of the range is pressed |
| Chip8Spec.WaitKey | emu.c:634-654 | FX0A moves PC back by 2 and either keeps V or stores in VX a pressed key below 0xF, the 15 latches it scans |
| Chip8Spec.StoreBcd | emu.c:676-681 | FX33 keeps the record well formed; BcdDigits states the digits it stores |
| Chip8Spec.StoreRegs | emu.c:683-687 | FX55 keeps the record well formed and changes nothing but RAM; StoreRegsWrites states the bytes it writes |
| Chip8Spec.LoadRegs | emu.c:689-693 | FX65 keeps the record well formed and changes nothing but V; LoadAfterStore states that it reads back what FX55 wrote |
| Chip8Spec.Initial | emu.c:233-290 | the record after chip8_init is well formed; InitialLayout states its RAM |
| Chip8Spec.Load | emu.c:233-290 | chip8_init fails exactly on an empty ROM; otherwise the run state is RUNNING, PC is 0x200, the stack is empty, the font is at 0 and the ROM at 0x200 |
| Chip8Spec.TickTimers | emu.c:707-711 | update_timers counts both timers down; TicksCountDown states that k ticks take k off each timer, floored at 0, and change nothing else |
| Chip8Spec.ToneOn | emu.c:710-716 | the tone of a tick follows the sound timer before the decrement; ToneLasts states that it plays on exactly the first (sound timer) ticks |
| Chip8Spec.Run | main.c:28-30 | the batch of a frame, one execute_instruction per step; RunAppend and FirstStep state how batches compose and what the first step does |
| Chip8Properties.InitialLayout | emu.c:254-289 | after chip8_init every RAM byte is the font byte below 80, the ROM byte in 0x200..0x200+size, and 0 elsewhere |
| Chip8Properties.FetchFields | emu.c:442-449 | the opcode is big-endian: the operation and X come from ram[PC], NN = ram[PC+1] with Y and N its nibbles, NNN = X·0x100 + NN |
| Chip8Properties.SkipMovesPC | emu.c:477-625 | 3XNN, 4XNN and 5XY0 (emu.c:477-487), 9XY0 (emu.c:559-561), EX9E and EXA1 (emu.c:618-625) add 4 to PC when their condition holds and 2 otherwise, and change nothing else |
| Chip8Properties.UnknownIsNoop | emu.c:456-702 | every opcode the switch does not act on (0NNN, 8XY8–8XYD, 8XYF, other EXNN and FXNN) only advances PC |
| Chip8Properties.CallThenReturn | emu.c:460-475 | 2NNN jumps to NNN pushing one level; a 00EE there returns to the instruction after the call with the stack pointer restored |
| Chip8Properties.JumpOffset | emu.c:568-571 | BNNN sets PC to V0 + NNN, with no wrap-around and nothing else changed |
| Chip8Properties.AddCarry | emu.c:516-519 | 8XY4: VX + 256·carry = VX + VY; VF = 1 on a carry and unchanged otherwise; no other register or field changes |
| Chip8Properties.SubBorrow | emu.c:521-530 | 8XY5: VF = 1 iff VX ≥ VY; VX becomes VX − VY, plus 256 on a borrow; only VX and VF change |
| Chip8Properties.ReverseSubBorrow | emu.c:538-547 | 8XY7: VF = 1 iff VY ≥ VX; VX becomes VY − VX, plus 256 on a borrow; only VX and VF change |
| Chip8Properties.ShiftRight | emu.c:532-536 | 8XY6: VF is a bit and 2·VX' + VF = VX (VF is the bit shifted out); only VX and VF change |
| Chip8Properties.ShiftLeft | emu.c:549-552 | 8XYE: VF is a bit and VX' + 256·VF = 2·VX (VF is the top bit shifted out); only VX and VF change |
| Chip8Properties.FlagWrittenFirst | emu.c:516-552 | VF is written before the result: 8XF4 with a carry adds 1 instead of the old VF; 8XF5 and 8XF7 subtract with the new flag as VF; in 8FY4, 8FY5, 8FY7 the result overwrites the flag (8FY4 with a carry leaves 1 + VY, 8FF5 and 8FF7 leave 0); 8FY6 leaves 0 and 8FYE twice the old top bit of VF |
| Chip8Properties.FlagAsOperand | emu.c:516-547 | 8XF4 with a carry, 8XF5 and 8XF7 compute VX from the flag just written into VF |
| Chip8Properties.FlagOverwrittenByAdd | emu.c:516-519 | 8FY4 leaves the sum in VF: VF + VY without a carry, and with a carry 1 + VY (2 for 8FF4) |
| Chip8Properties.FlagOverwrittenBySub | emu.c:521-547 | 8FY5 and 8FY7 leave in VF the difference computed from the just-written no-borrow flag, and 0 when Y is F |
| Chip8Properties.FlagOverwrittenByShift | emu.c:532-552 | 8FY6 leaves 0 in VF and 8FYE twice the old top bit of VF |
| Chip8Properties.AddImmediateKeepsFlag | emu.c:494-496 | 7XNN adds NN modulo 256 and leaves VF as it was |
| Chip8Properties.XorSelf | emu.c:512-514 | 8XX3 clears VX |
| Chip8Properties.RowDrawnOutside | emu.c:593-612 | the column loop changes no pixel outside the columns it has visited on its row |
| Chip8Properties.RowDrawnPixel | emu.c:593-612 | the column loop XORs each visited pixel with its sprite bit (bit 7 − column) and leaves every other pixel alone |
| Chip8Properties.RowHitExists | emu.c:593-612 | the column loop sets VF iff some visited column has a set sprite bit over a lit pixel |
| Chip8Properties.DrawnPixel | emu.c:584-615 | DXYN XORs every pixel of the rectangle from (x0, y0), clipped at the right and bottom edges, with the sprite bit over it, and leaves all other pixels alone |
| Chip8Properties.CollidesExists | emu.c:588-615 | DXYN sets VF iff some set sprite bit in the clipped rectangle lies over a pixel that was lit before the instruction |
| Chip8Properties.CollidesWitness | emu.c:601-603 | a VF of 1 after the first k rows names a row and a column where a set bit met a lit pixel |
| Chip8Properties.WitnessCollides | emu.c:601-603 | any set bit of the first k rows over a pixel lit before the draw sets VF |
| Chip8Properties.DrawnTwice | emu.c:584-615 | drawing the same sprite twice at the same origin gives back the display |
| Chip8Properties.SecondDrawCollides | emu.c:588-615 | the second of two identical draws collides iff some set sprite bit lies over a pixel that was dark before the first |
| Chip8Properties.DrawTwiceRestores | emu.c:578-616 | two identical DXYN with X, Y ≠ F restore the whole record except VF |
| Chip8Properties.DrawClipped | emu.c:582-615 | DXYN does not wrap: no pixel left of column x0 or above row y0 changes |
| Chip8Properties.RightEdgeOneColumn | emu.c:607-612 | with VX mod 64 = 63 only the last column of the display can change |
| Chip8Properties.DrawOnBlank | emu.c:588-615 | on a blank display DXYN leaves VF = 0 |
| Chip8Properties.BcdDigits | emu.c:676-681 | FX33 stores three decimal digits, most significant first, whose value is VX; the rest of RAM and the record are unchanged |
| Chip8Properties.FontAddress | emu.c:671-674 | FX29 points I at the five glyph bytes of the hex digit in VX while the font is in place |
| Chip8Properties.DelayRoundTrip | emu.c:629-659 | FX15 then FY07 leaves VX in the delay timer and in VY |
| Chip8Properties.StoreRegsWrites | emu.c:683-687 | FX55 writes V0..V(X−1) to I..I+X−1 and no other byte, so VX itself is not saved; I, V and the rest of the record are unchanged |
| Chip8Properties.LoadAfterStore | emu.c:683-693 | FX65 right after FX55 with the same X and I changes nothing, so the pair leaves V, I and everything but the stored RAM bytes as before the FX55 |
| Chip8Properties.WaitKeyResult | emu.c:634-654 | FX0A: PC moves back by 2; if one of keys 0x0–0xE is down VX receives the lowest of them, else V is kept, whatever key F does; nothing else changes |
| Chip8Properties.WaitKeyStays | emu.c:634-654 | an FX0A step leaves PC on the FX0A; while none of keys 0x0–0xE is down it changes nothing at all |
| Chip8Properties.WaitKeyIdempotent | emu.c:634-654 | repeating an FX0A step with the same keypad changes nothing more |
| Chip8Properties.TicksCountDown | emu.c:707-717 | after k calls of update_timers each timer is its old value minus k, floored at 0, and nothing else changes |
| Chip8Properties.ToneLasts | emu.c:710-716 | the tone plays on the k-th call iff k is less than the sound timer |
| Chip8Properties.RunAppend | main.c:28-30 | executing a batch of a + b instructions is executing a and then b; an undefined step stops both |
| Chip8Properties.FirstStep | emu.c:489-492 | the first step of a ROM starting with 6005 leaves V0 = 5 and PC = 0x202 |
| Chip8Findings.ExecFrame | emu.c:456-702 | one instruction changes no register outside the ones its opcode writes |
| Chip8Findings.AluFrame | emu.c:498-557 | 8XYN leaves every register other than VX and, in the flag cases, VF as it was |
| Chip8Findings.MiscFrame | emu.c:627-698 | FXNN leaves every register as it was except VX for FX07 and FX0A and V0 .. V(X-1) for FX65 |
| Chip8Findings.ExecAluFlag | emu.c:516-552 | an 8XYN step with X ≠ F leaves in VF: for 8XY4 1 on a carry and the old VF otherwise, for 8XY5 VX ≥ VY, for 8XY6 the low bit of VX, for 8XY7 VY ≥ VX, for 8XYE the top bit of VX |
| Chip8Findings.ExecDrawFlag | emu.c:588-615 | a DXYN step leaves a bit in VF, 1 iff some set sprite bit of the clipped rectangle lies over a lit pixel |
| Chip8Findings.FlagPastDeclaredV | emu.h:48 | an 8014 step with V0 = 0xFF, V1 = 1, VF = 0 sets register 0xF, which lies past the 15 registers declared, to 1 and leaves V0 = 0 |
| Chip8Findings.WaitKeyAllKeys | emu.c:634-654 | the FX0A scan over all 16 keys moves PC back 2 and either keeps V or stores a pressed key in VX |
| Chip8Findings.WaitKeyAllKeysResult | emu.c:634-654 | the 16-key scan stores the lowest pressed key of 0x0–0xF in VX and changes nothing else but PC; with no key down only PC changes |
| Chip8Findings.KeyFIgnored | emu.c:638 | with only key F held, an FX0A step as written changes nothing, while the 16-key scan stores F in VX |
| Chip8Emu.Chip8.constructor | emu.c:233-290 | on a nonempty ROM the zeroed record with the font copied to 0 and the ROM to 0x200 is Initial(rom), the record Load(rom) succeeds with |
| Chip8Emu.Chip8.InitMemory | emu.c:254-277 | the zeroed RAM with the font memcpy'd to 0 and the ROM read to 0x200 is the RAM of Initial(rom) |
| Chip8Emu.Chip8.Step | emu.c:440-704 | fetch, PC += 2 and dispatch do to the record exactly what Exec says |
| Chip8Emu.Chip8.Execute | emu.c:456-702 | the switch does to the record what Dispatch says |
| Chip8Emu.Chip8.ClearDisplay | emu.c:458-461 | the memset leaves the blank display |
| Chip8Emu.Chip8.ExecAlu | emu.c:498-557 | the 8XYN switch does what Alu says, flag first |
| Chip8Emu.Chip8.ExecLogic | emu.c:500-514 | 8XY0 .. 8XY3 assign VY, VX or VY, VX and VY, VX xor VY to VX, as Alu says, and leave VF alone |
| Chip8Emu.Chip8.ExecArith | emu.c:516-555 | 8XY4 .. 8XYE write VF first and then VX, as Alu says; any other N changes nothing |
| Chip8Emu.Chip8.DrawSprite | emu.c:578-616 | the DXYN code does what Draw says |
| Chip8Emu.Chip8.DrawRows | emu.c:591-615 | the row loop draws the Drawn display and sets VF to Collides, stopping at the bottom edge |
| Chip8Emu.Chip8.DrawRow | emu.c:596-612 | the column loop j = 7..0 draws RowDrawn and raises VF on RowHit, stopping at the right edge |
| Chip8Emu.Chip8.XorPixel | emu.c:598-606 | VF becomes 1 exactly when the sprite bit meets a lit pixel (otherwise it is kept), and that pixel alone is XORed with the bit |
| Chip8Emu.Chip8.ExecMisc | emu.c:627-698 | the FXNN switch does what Misc says |
| Chip8Emu.Chip8.WaitForKey | emu.c:634-654 | the scan of the 15 declared keys and the PC rewind do what WaitKey says |
| Chip8Emu.Chip8.StoreRegisters | emu.c:683-687 | the FX55 loop does what StoreRegs says |
| Chip8Emu.Chip8.LoadRegisters | emu.c:689-693 | the FX65 loop does what LoadRegs says |
| Chip8Emu.Chip8.UpdateTimers | emu.c:707-717 | the timers are decremented as TickTimers says, and the tone is on iff the sound timer was nonzero |
| Chip8Emu.Chip8.RunFrame | main.c:28-33 | a frame runs the batch as Run says, then one timer tick |
| Chip8Emu.Chip8.KeyEvent | emu.c:148-193 | a key event sets or clears one key latch and nothing else |
| Chip8Emu.Chip8.QuitEvent | emu.c:144-146 | the quit event sets the run state to QUIT and nothing else |

## Findings

| source | as written | input that shows it | evidently intended | confidence | as-written member | corrected member |
|---|---|---|---|---|---|---|
| emu.h:48 | `uint8_t V[0xF]` declares 15 registers, yet VF is `V[0xF]` | 8014 with V0 = 0xFF, V1 = 1 writes V[15], one past the array | `uint8_t V[0x10]`, 16 registers V0–VF | high; not executed | Chip8Findings.FlagPastDeclaredV | Chip8Spec.Exec |
| emu.h:53, emu.c:638 | `bool keypad[0xF]` declares 15 latches; key F is `keypad[0xF]`, and FX0A scans only `sizeof(keypad)` = 15 keys | key F down and every other key up: FX0A keeps waiting without storing F | `bool keypad[0x10]`, with FX0A scanning all 16 keys | high; not executed | Chip8Findings.KeyFIgnored | Chip8Findings.WaitKeyAllKeysResult |

The register file of the model has the 16 slots the code indexes (`Chip8State.RegisterCount`), so `Exec` writes VF inside it. The keypad keeps the 16 latches that key events write (`Chip8State.KeyCount`), but `WaitKey` and `WaitForKey` scan only the 15 declared ones, as the code does; the 16-key scan is `Chip8Findings.WaitKeyAllKeys`. The declared sizes are `DeclaredRegisterCount` and `DeclaredKeyCount`.

## Left out

- SDL window, renderer and audio (`sdl_init`, `sdl_quit`, `clear_screen`, `update_screen`, `audio_callback`): host I/O with no effect on the record.
- `user_input`: the SDL event polling and the mapping of host keys to key numbers. Only its effect on the record is modelled (`KeyEvent`, `QuitEvent`).
- `config_init` and `get_instr_per_frame`: command-line parsing. The display size is fixed at the defaults 64×32, and the batch size is the length of the `rnds` list given to `RunFrame`.
- `main`: the host loop, its frame delay and clock. `RunFrame` models one iteration's batch and timer tick, with the screen update left out.
- `get_chip8_state`: a plain getter.
- `print_debug`: debug output.
- File I/O of `chip8_init` (`fopen`, `fseek`, `ftell`): the ROM is given as its bytes. The failure to open the file is not modelled; the constructor takes a ROM the file read delivers. `Load` models the empty-file failure.
- `rand()`: its value modulo 256 is a parameter of every step.
- `rom_path`: a field of the record that the interpreter never reads.
- Undefined behaviour: steps whose C code reads or writes outside an array are excluded by the precondition `Defined`, rather than given a meaning.
- Chip8Emu.Chip8.constructor: requires a ROM of at most 0xE00 bytes, because a larger file makes `fread` write past RAM. It also requires a nonempty ROM, the case where `chip8_init` succeeds; the failing empty ROM is `Load`'s `None`.
