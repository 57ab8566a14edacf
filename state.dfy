/** The CHIP-8 machine record of emu.h: sizes, word types, run states, the
    decoded instruction and the whole interpreter state as one value. */
module Chip8State {

  const RamSize := 0x1000          // 4 KiB of RAM
  const Width := 64                // display columns (config default)
  const Height := 32               // display rows (config default)
  const ScreenSize := Width * Height
  const StackSize := 12            // return-stack slots
  const RegisterCount := 16        // V0..VF
  const KeyCount := 16             // keys 0x0..0xF
  /** emu.h declares V[0xF] and keypad[0xF], one slot short of the registers
      V0..VF and keys 0..F that the code indexes; the model uses 16 of each. */
  const DeclaredRegisterCount := 0xF
  const DeclaredKeyCount := 0xF
  const ProgramStart := 0x200      // where the ROM is loaded and PC starts
  const MaxRomSize := RamSize - ProgramStart
  const FontSize := 80             // 16 glyphs of 5 bytes
  const Flag := 0xF                // VF, the side-flag register

  /** uint8_t and uint16_t. */
  type Byte = x: int | 0 <= x < 0x100
  type Word = x: int | 0 <= x < 0x10000
  /** 4-bit and 12-bit instruction fields. */
  type Nibble = x: int | 0 <= x < 0x10
  type Addr = x: int | 0 <= x < 0x1000

  datatype Option<T> = None | Some(value: T)

  /** emu_state_t. */
  datatype EmuState = Running | Pause | Quit

  /** instruction_t: the fetched opcode and its operand fields. */
  datatype Instruction = Instruction(opcode: Word, NNN: Addr, NN: Byte, N: Nibble, X: Nibble, Y: Nibble)
  {
    /** The top nibble, which selects the operation. */
    function Op(): Nibble { opcode / 0x1000 }
  }

  /** chip8_t (without the ROM path). The stack pointer stack_ptr is kept as
      its distance sp from &stack[0], i.e. the current call depth. */
  datatype Machine = Machine(
    state: EmuState,
    ram: seq<Byte>,
    display: seq<bool>,
    stack: seq<Word>,
    sp: nat,
    V: seq<Byte>,
    PC: Word,
    I: Word,
    delayTimer: Byte,
    soundTimer: Byte,
    keypad: seq<bool>)

  /** Every array has its declared size and the stack pointer lies between
      slot 0 and one past the last slot. */
  predicate WellFormed(m: Machine) {
    && |m.ram| == RamSize
    && |m.display| == ScreenSize
    && |m.stack| == StackSize
    && m.sp <= StackSize
    && |m.V| == RegisterCount
    && |m.keypad| == KeyCount
  }

  /** The 16 glyphs 0..F, 5 rows each, that chip8_init copies to address 0. */
  const Font: seq<Byte> := [
    0xF0, 0x90, 0x90, 0x90, 0xF0,  // 0
    0x20, 0x60, 0x20, 0x20, 0x70,  // 1
    0xF0, 0x10, 0xF0, 0x80, 0xF0,  // 2
    0xF0, 0x10, 0xF0, 0x10, 0xF0,  // 3
    0x90, 0x90, 0xF0, 0x10, 0x10,  // 4
    0xF0, 0x80, 0xF0, 0x10, 0xF0,  // 5
    0xF0, 0x80, 0xF0, 0x90, 0xF0,  // 6
    0xF0, 0x10, 0x20, 0x40, 0x40,  // 7
    0xF0, 0x90, 0xF0, 0x90, 0xF0,  // 8
    0xF0, 0x90, 0xF0, 0x10, 0xF0,  // 9
    0xF0, 0x90, 0xF0, 0x90, 0x90,  // A
    0xE0, 0x90, 0xE0, 0x90, 0xE0,  // B
    0xF0, 0x80, 0x80, 0x80, 0xF0,  // C
    0xE0, 0x90, 0x90, 0x90, 0xE0,  // D
    0xF0, 0x80, 0xF0, 0x80, 0xF0,  // E
    0xF0, 0x80, 0xF0, 0x80, 0x80   // F
  ]
}
