/** What one call of execute_instruction, update_timers and chip8_init (emu.c)
    does to the machine record, written as functions on Machine values. The
    class in emulator.dfy is proved to follow these functions step by step. */
module Chip8Spec {
  import opened Chip8State

  // ---------------------------------------------------------------- bytes

  /** The C bitwise operators on uint8_t. */
  function Or(a: Byte, b: Byte): Byte { ((a as bv8) | (b as bv8)) as int }
  function And(a: Byte, b: Byte): Byte { ((a as bv8) & (b as bv8)) as int }
  function Xor(a: Byte, b: Byte): Byte { ((a as bv8) ^ (b as bv8)) as int }

  /** Assignment of an int to a uint16_t: reduction modulo 2^16. */
  function Add16(a: int, b: int): Word { (a + b) % 0x10000 }

  // ------------------------------------------------------- fetch & decode

  /** The big-endian opcode at PC: ram[PC] << 8 | ram[PC + 1]. */
  function Fetch(m: Machine): (r: Word)
    requires WellFormed(m) && m.PC + 1 < RamSize
    ensures r / 0x100 == m.ram[m.PC] && r % 0x100 == m.ram[m.PC + 1]
  {
    var hi: int, lo: int := m.ram[m.PC], m.ram[m.PC + 1];
    assert hi * 0x100 <= 0xFF00;
    DivUnique(hi * 0x100 + lo, 0x100, hi, lo);
    hi * 0x100 + lo
  }

  /** The operand fields of an opcode (masks and shifts of emu.c). The four
      nibbles partition the word: NNN is X followed by NN, NN is Y followed by N. */
  function Decode(opcode: Word): (inst: Instruction)
    ensures inst.opcode == opcode
    ensures opcode == inst.Op() * 0x1000 + inst.NNN
    ensures inst.NNN == inst.X * 0x100 + inst.NN
    ensures inst.NN == inst.Y * 0x10 + inst.N
  {
    Nibbles(opcode);
    Instruction(opcode, opcode % 0x1000, opcode % 0x100, opcode % 0x10,
                (opcode / 0x100) % 0x10, (opcode / 0x10) % 0x10)
  }

  /** The three lower nibbles of a word, read by masking from the whole word
      or from its low byte, agree. */
  lemma Nibbles(op: Word)
    ensures op % 0x1000 == ((op / 0x100) % 0x10) * 0x100 + op % 0x100
    ensures op % 0x100 == ((op / 0x10) % 0x10) * 0x10 + op % 0x10
  {
    var m, d := op / 0x10, op % 0x10;
    DivUnique(op, 0x100, m / 0x10, (m % 0x10) * 0x10 + d);
    var h, l := op / 0x100, op % 0x100;
    DivUnique(op, 0x1000, h / 0x10, (h % 0x10) * 0x100 + l);
  }

  /** Euclidean division is unique: n = q·k + r with 0 <= r < k fixes q and r. */
  lemma DivUnique(n: int, k: int, q: int, r: int)
    requires 0 < k && 0 <= r < k && n == q * k + r
    ensures n / k == q && n % k == r
  {
    var q0, r0 := n / k, n % k;
    assert (q - q0) * k == q * k - q0 * k;
    MulAtLeast(q - q0, k);
  }

  /** A nonzero multiple of k is at least k away from 0. */
  lemma MulAtLeast(e: int, k: int)
    requires 0 < k
    ensures e >= 1 ==> e * k >= k
    ensures e <= -1 ==> e * k <= -k
  {
    if e >= 1 {
      assert e * k == k + (e - 1) * k;
    } else if e <= -1 {
      assert e * k == -k + (e + 1) * k;
    }
  }

  /** PC += 2, done before dispatch. */
  function Advance(m: Machine): Machine { m.(PC := Add16(m.PC, 2)) }

  /** The behaviour of the C code is defined for this step: the fetch and
      every memory, stack and keypad access of the selected opcode stay
      inside their arrays. */
  predicate Defined(m: Machine) {
    && WellFormed(m)
    && m.PC + 1 < RamSize
    && OpDefined(Advance(m), Decode(Fetch(m)))
  }

  /** The accesses the opcode makes are in bounds (m is the state after the
      PC advance). */
  predicate OpDefined(m: Machine, inst: Instruction)
    requires WellFormed(m)
  {
    match inst.Op()
    case 0x0 => inst.NN == 0xEE ==> 0 < m.sp
    case 0x2 => m.sp < StackSize
    case 0xD => DrawDefined(m, inst.Y, inst.N)
    case 0xE => (inst.NN == 0x9E || inst.NN == 0xA1) ==> m.V[inst.X] < KeyCount
    case 0xF =>
      && (inst.NN == 0x33 ==> m.I + 3 <= RamSize)
      && (inst.NN == 0x55 || inst.NN == 0x65 ==> inst.X == 0 || m.I + inst.X <= RamSize)
    case _ => true
  }

  // ------------------------------------------------------------- execute

  /** One call of execute_instruction; rnd stands for rand() % 256. */
  function Exec(m: Machine, rnd: Byte): (r: Machine)
    requires Defined(m)
    ensures WellFormed(r)
    ensures r.state == m.state && r.keypad == m.keypad
  {
    Dispatch(Advance(m), Decode(Fetch(m)), rnd)
  }

  function SetV(m: Machine, x: Nibble, v: Byte): Machine
    requires WellFormed(m)
  {
    m.(V := m.V[x := v])
  }

  /** The conditional skip: one more PC += 2. */
  function Skip(m: Machine, cond: bool): Machine {
    if cond then m.(PC := Add16(m.PC, 2)) else m
  }

  /** The switch on the top nibble (m is the state after the PC advance). */
  function Dispatch(m: Machine, inst: Instruction, rnd: Byte): (r: Machine)
    requires WellFormed(m) && OpDefined(m, inst)
    ensures WellFormed(r)
    ensures r.state == m.state && r.keypad == m.keypad
  {
    var x, y := inst.X, inst.Y;
    match inst.Op()
    case 0x0 =>
      if inst.NN == 0xE0 then m.(display := Blank())
      else if inst.NN == 0xEE then m.(sp := m.sp - 1, PC := m.stack[m.sp - 1])
      else m
    case 0x1 => m.(PC := inst.NNN)
    case 0x2 => m.(stack := m.stack[m.sp := m.PC], sp := m.sp + 1, PC := inst.NNN)
    case 0x3 => Skip(m, m.V[x] == inst.NN)
    case 0x4 => Skip(m, m.V[x] != inst.NN)
    case 0x5 => Skip(m, m.V[x] == m.V[y])
    case 0x6 => SetV(m, x, inst.NN)
    case 0x7 => SetV(m, x, (m.V[x] as int + inst.NN) % 0x100)
    case 0x8 => Alu(m, x, y, inst.N)
    case 0x9 => Skip(m, m.V[x] != m.V[y])
    case 0xA => m.(I := inst.NNN)
    case 0xB => m.(PC := Add16(m.V[0], inst.NNN))
    case 0xC => SetV(m, x, And(rnd, inst.NN))
    case 0xD => Draw(m, x, y, inst.N)
    case 0xE =>
      if inst.NN == 0x9E then Skip(m, m.keypad[m.V[x]])
      else if inst.NN == 0xA1 then Skip(m, !m.keypad[m.V[x]])
      else m
    case 0xF => Misc(m, x, inst.NN)
  }

  /** 8XYN. Each flag-setting case writes VF first and then computes the
      result from the registers as they are after that write. */
  function Alu(m: Machine, x: Nibble, y: Nibble, n: Nibble): (r: Machine)
    requires WellFormed(m)
    ensures WellFormed(r)
  {
    if n == 0x0 then SetV(m, x, m.V[y])
    else if n == 0x1 then SetV(m, x, Or(m.V[x], m.V[y]))
    else if n == 0x2 then SetV(m, x, And(m.V[x], m.V[y]))
    else if n == 0x3 then SetV(m, x, Xor(m.V[x], m.V[y]))
    else if n == 0x4 then
      // VF is set on a carry and left alone otherwise
      var f := if m.V[x] as int + m.V[y] > 0xFF then SetV(m, Flag, 1) else m;
      SetV(f, x, (f.V[x] as int + f.V[y]) % 0x100)
    else if n == 0x5 then
      var f := SetV(m, Flag, if m.V[x] >= m.V[y] then 1 else 0);
      SetV(f, x, (f.V[x] as int - f.V[y]) % 0x100)
    else if n == 0x6 then
      var f := SetV(m, Flag, And(m.V[x], 1));
      SetV(f, x, f.V[x] / 2)
    else if n == 0x7 then
      var f := SetV(m, Flag, if m.V[y] >= m.V[x] then 1 else 0);
      SetV(f, x, (f.V[y] as int - f.V[x]) % 0x100)
    else if n == 0xE then
      var f := SetV(m, Flag, And(m.V[x], 0x80) / 0x80);
      SetV(f, x, (f.V[x] as int * 2) % 0x100)
    else m
  }

  /** FXNN. */
  function Misc(m: Machine, x: Nibble, nn: Byte): (r: Machine)
    requires WellFormed(m)
    requires nn == 0x33 ==> m.I + 3 <= RamSize
    requires nn == 0x55 || nn == 0x65 ==> x == 0 || m.I + x <= RamSize
    ensures WellFormed(r)
  {
    if nn == 0x07 then SetV(m, x, m.delayTimer)
    else if nn == 0x0A then WaitKey(m, x)
    else if nn == 0x15 then m.(delayTimer := m.V[x])
    else if nn == 0x18 then m.(soundTimer := m.V[x])
    else if nn == 0x1E then m.(I := Add16(m.I, m.V[x]))
    else if nn == 0x29 then m.(I := m.V[x] as int * 5)
    else if nn == 0x33 then StoreBcd(m, x)
    else if nn == 0x55 then StoreRegs(m, x)
    else if nn == 0x65 then LoadRegs(m, x)
    else m
  }

  /** The lowest pressed key in [lo, hi), if any. */
  function FirstPressed(keys: seq<bool>, lo: nat, hi: nat): (r: Option<nat>)
    requires hi <= |keys|
    ensures r.Some? ==> lo <= r.value < hi && keys[r.value]
    ensures r.Some? ==> forall j :: lo <= j < r.value ==> !keys[j]
    ensures r.None? ==> forall j :: lo <= j < hi ==> !keys[j]
    decreases hi - lo
  {
    if lo >= hi then None
    else if keys[lo] then Some(lo)
    else FirstPressed(keys, lo + 1, hi)
  }

  /** FX0A: the lowest pressed key among 0x0 .. 0xE goes to VX, and PC is
      always put back on the FX0A (the branch that would let the program
      continue cannot be reached). The scan runs over sizeof(keypad), the 15
      keys emu.h declares, so key F is never taken. */
  function WaitKey(m: Machine, x: Nibble): (r: Machine)
    requires WellFormed(m)
    ensures WellFormed(r) && r.PC == Add16(m.PC, -2)
    ensures r.V == m.V || (r.V == m.V[x := r.V[x]] && r.V[x] < DeclaredKeyCount && m.keypad[r.V[x]])
  {
    var k := FirstPressed(m.keypad, 0, DeclaredKeyCount);
    var f := if k.Some? then SetV(m, x, k.value) else m;
    f.(PC := Add16(m.PC, -2))
  }

  /** FX33: the hundreds, tens and ones digits of VX at I, I+1, I+2. */
  function StoreBcd(m: Machine, x: Nibble): (r: Machine)
    requires WellFormed(m) && m.I + 3 <= RamSize
    ensures WellFormed(r)
  {
    var v := m.V[x];
    m.(ram := m.ram[m.I := (v % 1000) / 100][m.I + 1 := (v % 100) / 10][m.I + 2 := v % 10])
  }

  /** FX55: V0..V(X-1) become the bytes at I..I+X-1 (the loop bound excludes X). */
  function StoreRegs(m: Machine, x: Nibble): (r: Machine)
    requires WellFormed(m) && (x == 0 || m.I + x <= RamSize)
    ensures WellFormed(r) && r == m.(ram := r.ram)
  {
    if x == 0 then m else m.(ram := m.ram[..m.I] + m.V[..x] + m.ram[m.I + x..])
  }

  /** FX65: the bytes at I..I+X-1 become V0..V(X-1). */
  function LoadRegs(m: Machine, x: Nibble): (r: Machine)
    requires WellFormed(m) && (x == 0 || m.I + x <= RamSize)
    ensures WellFormed(r) && r == m.(V := r.V)
  {
    if x == 0 then m else m.(V := m.ram[m.I..m.I + x] + m.V[x..])
  }

  // ----------------------------------------------------------------- draw

  /** The display with every pixel off. */
  function Blank(): (d: seq<bool>)
    ensures |d| == ScreenSize && forall p :: 0 <= p < ScreenSize ==> !d[p]
  {
    seq(ScreenSize, _ => false)
  }

  /** How many sprite rows are drawn from row y0 on: the row loop stops
      after the bottom row of the display. */
  function SpriteRows(n: Nibble, y0: nat): nat
    requires y0 < Height
  {
    if n < Height - y0 then n else Height - y0
  }

  /** How many columns of each row are drawn from column x0 on: the column
      loop stops after the rightmost column. */
  function SpriteCols(x0: nat): nat
    requires x0 < Width
  {
    if 8 < Width - x0 then 8 else Width - x0
  }

  predicate DrawDefined(m: Machine, y: Nibble, n: Nibble)
    requires WellFormed(m)
  {
    var rows := SpriteRows(n, m.V[y] % Height);
    rows == 0 || m.I + rows <= RamSize
  }

  /** The sprite bytes that are read. */
  function SpriteData(m: Machine, rows: nat): (s: seq<Byte>)
    requires WellFormed(m) && (rows == 0 || m.I + rows <= RamSize)
    ensures |s| == rows
  {
    if rows == 0 then [] else m.ram[m.I..m.I + rows]
  }

  /** Column c (0 is the leftmost) of a sprite row: bit 7 - c of the byte. */
  predicate SpriteBit(b: Byte, c: nat)
    requires c < 8
  {
    (b as bv8) & ((1 as bv8) << (7 - c)) != 0
  }

  /** The sprite row b sits on display row y, columns x0 .. x0+cols-1. */
  predicate RowFits(x0: nat, y: nat, cols: nat) {
    cols <= 8 && x0 + cols <= Width && y < Height
  }

  /** Display d after the first w columns of sprite row b have been XORed
      in at (x0, y), left to right (the column loop of DXYN). */
  function RowDrawn(d: seq<bool>, b: Byte, x0: nat, y: nat, w: nat): (r: seq<bool>)
    requires |d| == ScreenSize && RowFits(x0, y, w)
    ensures |r| == ScreenSize
  {
    if w == 0 then d
    else
      var p := y * Width + x0 + w - 1;
      RowDrawn(d, b, x0, y, w - 1)[p := d[p] != SpriteBit(b, w - 1)]
  }

  /** Column c of sprite row b is set and lands on a lit pixel of d. */
  predicate PixelHit(d: seq<bool>, b: Byte, x0: nat, y: nat, c: nat)
    requires |d| == ScreenSize && RowFits(x0, y, c + 1)
  {
    SpriteBit(b, c) && d[y * Width + x0 + c]
  }

  /** Some set bit among the first w columns of row b meets a lit pixel of d. */
  predicate RowHit(d: seq<bool>, b: Byte, x0: nat, y: nat, w: nat)
    requires |d| == ScreenSize && RowFits(x0, y, w)
  {
    if w == 0 then false
    else RowHit(d, b, x0, y, w - 1) || PixelHit(d, b, x0, y, w - 1)
  }

  predicate SpriteFits(sprite: seq<Byte>, x0: nat, y0: nat, cols: nat) {
    cols <= 8 && x0 + cols <= Width && y0 + |sprite| <= Height
  }

  /** The display after the first k rows of the sprite have been drawn in
      order, each under the previous one (the row loop of DXYN). */
  function Drawn(d: seq<bool>, sprite: seq<Byte>, x0: nat, y0: nat, cols: nat, k: nat): (r: seq<bool>)
    requires |d| == ScreenSize && SpriteFits(sprite, x0, y0, cols) && k <= |sprite|
    ensures |r| == ScreenSize
  {
    if k == 0 then d
    else RowDrawn(Drawn(d, sprite, x0, y0, cols, k - 1), sprite[k - 1], x0, y0 + k - 1, cols)
  }

  /** VF after the first k rows: some row hit a lit pixel of the display as
      it was when that row was drawn. */
  predicate Collides(d: seq<bool>, sprite: seq<Byte>, x0: nat, y0: nat, cols: nat, k: nat)
    requires |d| == ScreenSize && SpriteFits(sprite, x0, y0, cols) && k <= |sprite|
  {
    if k == 0 then false
    else
      Collides(d, sprite, x0, y0, cols, k - 1)
      || RowHit(Drawn(d, sprite, x0, y0, cols, k - 1), sprite[k - 1], x0, y0 + k - 1, cols)
  }

  /** DXYN: the origin is taken from VX and VY before VF is cleared. */
  function Draw(m: Machine, x: Nibble, y: Nibble, n: Nibble): (r: Machine)
    requires WellFormed(m) && DrawDefined(m, y, n)
    ensures WellFormed(r)
  {
    var x0, y0 := m.V[x] % Width, m.V[y] % Height;
    var sprite := SpriteData(m, SpriteRows(n, y0));
    var cols := SpriteCols(x0);
    m.(display := Drawn(m.display, sprite, x0, y0, cols, |sprite|),
       V := m.V[Flag := if Collides(m.display, sprite, x0, y0, cols, |sprite|) then 1 else 0])
  }

  // --------------------------------------------------------------- timers

  function Decrement(t: Byte): Byte { if t > 0 then t - 1 else 0 }

  /** update_timers: both timers count down towards 0. */
  function TickTimers(m: Machine): Machine {
    m.(delayTimer := Decrement(m.delayTimer), soundTimer := Decrement(m.soundTimer))
  }

  /** update_timers plays the tone for this tick when the sound timer is
      nonzero before it is decremented, and pauses it otherwise. */
  predicate ToneOn(m: Machine) { m.soundTimer > 0 }

  // ----------------------------------------------------------------- load

  function Zeros(n: nat): seq<Byte> { seq(n, _ => 0) }

  /** The record after chip8_init: the all-zero static record with the font
      copied to address 0 and the ROM to ProgramStart. */
  function Initial(rom: seq<Byte>): (m: Machine)
    requires |rom| <= MaxRomSize
    ensures WellFormed(m)
  {
    Machine(
      state := Running,
      ram := Font + Zeros(ProgramStart - FontSize) + rom + Zeros(MaxRomSize - |rom|),
      display := Blank(),
      stack := seq(StackSize, _ => 0),
      sp := 0,
      V := Zeros(RegisterCount),
      PC := ProgramStart,
      I := 0,
      delayTimer := 0,
      soundTimer := 0,
      keypad := seq(KeyCount, _ => false))
  }

  /** chip8_init on the bytes of the ROM file: an empty file fails the
      single-item fread, anything else is loaded. */
  function Load(rom: seq<Byte>): (r: Option<Machine>)
    requires |rom| <= MaxRomSize
    ensures r.Some? <==> |rom| > 0
    ensures r.Some? ==> WellFormed(r.value)
    ensures r.Some? ==> r.value.state == Running && r.value.PC == ProgramStart && r.value.sp == 0
    ensures r.Some? ==> r.value.ram[..FontSize] == Font
    ensures r.Some? ==> r.value.ram[ProgramStart..ProgramStart + |rom|] == rom
  {
    if |rom| == 0 then None
    else
      var m := Initial(rom);
      assert m.ram[..FontSize] == Font;
      assert m.ram[ProgramStart..ProgramStart + |rom|] == rom;
      Some(m)
  }

  // ---------------------------------------------------------------- frame

  /** Executes one step per random byte, as long as every step is defined. */
  function Run(m: Machine, rnds: seq<Byte>): Option<Machine>
    decreases |rnds|
  {
    if rnds == [] then Some(m)
    else if Defined(m) then Run(Exec(m, rnds[0]), rnds[1..])
    else None
  }
}
