/** The interpreter of emu.c as it runs: the global chip8 record becomes an
    object whose arrays and registers execute_instruction, update_timers and
    chip8_init update in place. Abs() reads the object as a Machine value, and
    every method is proved to do to that value what Chip8Spec says. */
module Chip8Emu {
  import opened Chip8State
  import opened Chip8Spec
  import Chip8Properties

  class Chip8 {
    var state: EmuState
    const ram: array<Byte>
    const display: array<bool>
    const stack: array<Word>
    var sp: nat                  // stack_ptr - &stack[0]
    const V: array<Byte>
    var PC: Word
    var I: Word
    var delayTimer: Byte
    var soundTimer: Byte
    const keypad: array<bool>

    /** The arrays have the sizes of chip8_t (with 16 registers and 16 key
        flags) and the stack pointer stays within the stack. */
    ghost predicate Valid()
      reads this
    {
      && ram.Length == RamSize
      && display.Length == ScreenSize
      && stack.Length == StackSize
      && sp <= StackSize
      && V.Length == RegisterCount
      && keypad.Length == KeyCount
      && ram != V
      && display != keypad
    }

    /** The record as a value. */
    ghost function Abs(): (m: Machine)
      reads this, ram, display, stack, V, keypad
      requires Valid()
      ensures WellFormed(m)
    {
      Machine(state, ram[..], display[..], stack[..], sp, V[..], PC, I,
              delayTimer, soundTimer, keypad[..])
    }

    /** chip8_init on a ROM image already read from its file, on the path
        where it succeeds; an empty or missing ROM is Load's None. */
    constructor (rom: seq<Byte>)
      requires 0 < |rom| <= MaxRomSize
      ensures Valid() && Abs() == Initial(rom) && Load(rom) == Some(Abs())
      ensures fresh(ram) && fresh(display) && fresh(stack) && fresh(V) && fresh(keypad)
    {
      var mem := InitMemory(rom);
      ram := mem;
      display := new bool[ScreenSize](_ => false);
      stack := new Word[StackSize](_ => 0);
      V := new Byte[RegisterCount](_ => 0);
      keypad := new bool[KeyCount](_ => false);
      state := Running;
      sp := 0;
      PC := ProgramStart;
      I, delayTimer, soundTimer := 0, 0, 0;
      new;
      assert display[..] == Blank();
    }

    /** The RAM of chip8_init: the record is a zero-initialised global, the
        font is copied to address 0 and the ROM is read to ProgramStart. */
    static method InitMemory(rom: seq<Byte>) returns (mem: array<Byte>)
      requires |rom| <= MaxRomSize
      ensures fresh(mem) && mem[..] == Initial(rom).ram
    {
      mem := new Byte[RamSize](_ => 0);
      // memcpy of the font to address 0
      for a := 0 to FontSize
        invariant forall b :: 0 <= b < RamSize ==> mem[b] == if b < a then Font[b] else 0
      {
        mem[a] := Font[a];
      }
      // fread of the ROM to ProgramStart
      for a := 0 to |rom|
        invariant forall b :: 0 <= b < RamSize ==>
          mem[b] ==
            if b < FontSize then Font[b]
            else if ProgramStart <= b < ProgramStart + a then rom[b - ProgramStart]
            else 0
      {
        mem[ProgramStart + a] := rom[a];
      }
      Chip8Properties.InitialLayout(rom);
      assert mem[..] == Initial(rom).ram;
    }

    /** execute_instruction: fetch, advance PC, dispatch. */
    method Step(rnd: Byte)
      requires Valid() && Defined(Abs())
      modifies this, ram, display, stack, V
      ensures Valid() && Abs() == Exec(old(Abs()), rnd)
    {
      var opcode: Word := ram[PC] as int * 0x100 + ram[PC + 1];
      assert opcode == Fetch(old(Abs()));
      PC := Add16(PC, 2);
      assert Abs() == Advance(old(Abs()));
      var inst := Decode(opcode);
      Execute(inst, rnd);
    }

    /** The switch on the top nibble of the opcode. */
    method Execute(inst: Instruction, rnd: Byte)
      requires Valid() && OpDefined(Abs(), inst)
      modifies this, ram, display, stack, V
      ensures Valid() && Abs() == Dispatch(old(Abs()), inst, rnd)
    {
      var x, y := inst.X, inst.Y;
      match inst.Op()
      case 0x0 =>
        if inst.NN == 0xE0 {
          ClearDisplay();
        } else if inst.NN == 0xEE {
          sp := sp - 1;            // PC = *--stack_ptr
          PC := stack[sp];
        }
      case 0x1 =>
        PC := inst.NNN;
      case 0x2 =>
        stack[sp] := PC;           // *stack_ptr++ = PC
        sp := sp + 1;
        PC := inst.NNN;
      case 0x3 =>
        if V[x] == inst.NN { PC := Add16(PC, 2); }
      case 0x4 =>
        if V[x] != inst.NN { PC := Add16(PC, 2); }
      case 0x5 =>
        if V[x] == V[y] { PC := Add16(PC, 2); }
      case 0x6 =>
        V[x] := inst.NN;
      case 0x7 =>
        V[x] := (V[x] as int + inst.NN) % 0x100;
      case 0x8 =>
        ExecAlu(x, y, inst.N);
      case 0x9 =>
        if V[x] != V[y] { PC := Add16(PC, 2); }
      case 0xA =>
        I := inst.NNN;
      case 0xB =>
        PC := Add16(V[0], inst.NNN);
      case 0xC =>
        V[x] := And(rnd, inst.NN);
      case 0xD =>
        DrawSprite(x, y, inst.N);
      case 0xE =>
        if inst.NN == 0x9E {
          if keypad[V[x]] { PC := Add16(PC, 2); }
        } else if inst.NN == 0xA1 {
          if !keypad[V[x]] { PC := Add16(PC, 2); }
        }
      case 0xF =>
        ExecMisc(x, inst.NN);
    }

    /** 00E0: memset of the display to false. */
    method ClearDisplay()
      requires Valid()
      modifies display
      ensures Valid() && Abs() == old(Abs()).(display := Blank())
    {
      for p := 0 to ScreenSize
        invariant forall q :: 0 <= q < p ==> !display[q]
      {
        display[p] := false;
      }
      assert display[..] == Blank();
    }

    /** 8XYN. */
    method ExecAlu(x: Nibble, y: Nibble, n: Nibble)
      requires Valid()
      modifies V
      ensures Valid() && Abs() == Alu(old(Abs()), x, y, n)
    {
      if n <= 0x3 {
        ExecLogic(x, y, n);
      } else {
        ExecArith(x, y, n);
      }
    }

    /** 8XY0 .. 8XY3: assignment and the bitwise operators; VF is not touched. */
    method ExecLogic(x: Nibble, y: Nibble, n: Nibble)
      requires Valid() && n <= 0x3
      modifies V
      ensures Valid() && Abs() == Alu(old(Abs()), x, y, n)
    {
      if n == 0x0 {
        V[x] := V[y];
      } else if n == 0x1 {
        V[x] := Or(V[x], V[y]);
      } else if n == 0x2 {
        V[x] := And(V[x], V[y]);
      } else {
        V[x] := Xor(V[x], V[y]);
      }
    }

    /** 8XY4 .. 8XYE: the operations that report in VF, which is written first. */
    method ExecArith(x: Nibble, y: Nibble, n: Nibble)
      requires Valid() && n > 0x3
      modifies V
      ensures Valid() && Abs() == Alu(old(Abs()), x, y, n)
    {
      if n == 0x4 {
        if V[x] as int + V[y] > 0xFF { V[Flag] := 1; }
        V[x] := (V[x] as int + V[y]) % 0x100;
      } else if n == 0x5 {
        V[Flag] := if V[x] >= V[y] then 1 else 0;
        V[x] := (V[x] as int - V[y]) % 0x100;
      } else if n == 0x6 {
        V[Flag] := And(V[x], 1);
        V[x] := V[x] / 2;
      } else if n == 0x7 {
        V[Flag] := if V[y] >= V[x] then 1 else 0;
        V[x] := (V[y] as int - V[x]) % 0x100;
      } else if n == 0xE {
        V[Flag] := And(V[x], 0x80) / 0x80;
        V[x] := (V[x] as int * 2) % 0x100;
      }
    }

    /** DXYN: XOR an n-row sprite from I onto the display at (VX, VY),
        clipped at the right and bottom edges; VF tells whether a lit pixel
        was hit. */
    method DrawSprite(x: Nibble, y: Nibble, n: Nibble)
      requires Valid() && DrawDefined(Abs(), y, n)
      modifies display, V
      ensures Valid() && Abs() == Draw(old(Abs()), x, y, n)
    {
      ghost var m := Abs();
      var x0 := V[x] % Width;
      var y0 := V[y] % Height;
      ghost var sprite := SpriteData(m, SpriteRows(n, y0));
      V[Flag] := 0;
      DrawRows(x0, y0, n, sprite);
      assert V[..] == m.V[Flag := V[Flag]];
    }

    /** The row loop of DXYN: rows y0, y0+1, ... until n rows are drawn or
        the bottom edge is reached. */
    method DrawRows(x0: nat, y0: nat, n: Nibble, ghost sprite: seq<Byte>)
      requires Valid() && x0 < Width && y0 < Height && V[Flag] == 0
      requires |sprite| == SpriteRows(n, y0)
      requires |sprite| > 0 ==> I + |sprite| <= RamSize && sprite == ram[I..I + |sprite|]
      modifies display, V
      ensures display[..] == Drawn(old(display[..]), sprite, x0, y0, SpriteCols(x0), |sprite|)
      ensures V[..] == old(V[..])[Flag := if Collides(old(display[..]), sprite, x0, y0, SpriteCols(x0), |sprite|) then 1 else 0]
    {
      ghost var d0, v0 := display[..], V[..];
      ghost var cols := SpriteCols(x0);
      ghost var cur, hit := d0, false;
      var row := y0;
      var i := 0;
      while i < n
        invariant 0 <= i <= |sprite| && row == y0 + i < Height
        invariant cur == Drawn(d0, sprite, x0, y0, cols, i) && hit == Collides(d0, sprite, x0, y0, cols, i)
        invariant display[..] == cur
        invariant V[..] == v0[Flag := if hit then 1 else 0]
      {
        var spriteData := ram[I + i];
        assert spriteData == sprite[i];
        DrawRow(spriteData, x0, row);
        Chip8Properties.RowsStep(d0, sprite, x0, y0, cols, i + 1);
        hit := hit || RowHit(cur, spriteData, x0, row, cols);
        cur := RowDrawn(cur, spriteData, x0, row, cols);
        row := row + 1;
        i := i + 1;
        if row >= Height {
          break;
        }
      }
      assert i == |sprite|;
      assert cur == Drawn(d0, sprite, x0, y0, cols, |sprite|);
      assert d0 == old(display[..]) && v0 == old(V[..]);
    }

    /** One row of DXYN: the column loop j = 7 .. 0 over the bits of b. */
    method DrawRow(b: Byte, x0: nat, y: nat)
      requires display.Length == ScreenSize && V.Length == RegisterCount && x0 < Width && y < Height
      modifies display, V
      ensures display[..] == RowDrawn(old(display[..]), b, x0, y, SpriteCols(x0))
      ensures V[..] == old(V[..])[Flag := if RowHit(old(display[..]), b, x0, y, SpriteCols(x0)) then 1 else old(V[Flag])]
    {
      ghost var d1, v1 := display[..], V[..];
      ghost var cur, hit, w := d1, false, 0;
      var x := x0;
      var j := 7;
      while j >= 0
        invariant -1 <= j <= 7 && x0 <= x < Width && w == x - x0 == 7 - j
        invariant cur == RowDrawn(d1, b, x0, y, w) && hit == RowHit(d1, b, x0, y, w)
        invariant display[..] == cur
        invariant V[..] == v1[Flag := if hit then 1 else v1[Flag]]
      {
        var p := y * Width + x;
        Chip8Properties.RowStep(d1, b, x0, y, w);
        var spriteBit := SpriteBit(b, 7 - j);
        XorPixel(p, spriteBit);
        hit := hit || (spriteBit && cur[p]);
        cur := cur[p := cur[p] != spriteBit];
        w := w + 1;
        x := x + 1;
        if x >= Width {
          break;
        }
        j := j - 1;
      }
      assert w == SpriteCols(x0);
      assert cur == RowDrawn(d1, b, x0, y, SpriteCols(x0)) && hit == RowHit(d1, b, x0, y, SpriteCols(x0));
      assert d1 == old(display[..]) && v1 == old(V[..]);
    }

    /** One pixel of DXYN: VF = 1 if the sprite bit meets a lit pixel, then
        the pixel is XORed with the bit. */
    method XorPixel(p: nat, spriteBit: bool)
      requires display.Length == ScreenSize && V.Length == RegisterCount && p < ScreenSize
      modifies display, V
      ensures display[..] == old(display[..])[p := old(display[p]) != spriteBit]
      ensures V[..] == if spriteBit && old(display[p]) then old(V[..])[Flag := 1] else old(V[..])
    {
      if spriteBit && display[p] {
        V[Flag] := 1;
      }
      display[p] := display[p] != spriteBit;
    }

    /** FXNN. */
    method ExecMisc(x: Nibble, nn: Byte)
      requires Valid()
      requires nn == 0x33 ==> I + 3 <= RamSize
      requires nn == 0x55 || nn == 0x65 ==> x == 0 || I + x <= RamSize
      modifies this, ram, V
      ensures Valid() && Abs() == Misc(old(Abs()), x, nn)
    {
      if nn == 0x07 {
        V[x] := delayTimer;
      } else if nn == 0x0A {
        WaitForKey(x);
      } else if nn == 0x15 {
        delayTimer := V[x];
      } else if nn == 0x18 {
        soundTimer := V[x];
      } else if nn == 0x1E {
        I := Add16(I, V[x]);
      } else if nn == 0x29 {
        I := V[x] as int * 5;
      } else if nn == 0x33 {
        var v := V[x];
        ram[I] := (v % 1000) / 100;
        ram[I + 1] := (v % 100) / 10;
        ram[I + 2] := v % 10;
      } else if nn == 0x55 {
        StoreRegisters(x);
      } else if nn == 0x65 {
        LoadRegisters(x);
      }
    }

    /** FX0A: scan the sizeof(keypad) = 15 declared keys for the first one
        pressed. */
    method WaitForKey(x: Nibble)
      requires Valid()
      modifies this, V
      ensures Valid() && Abs() == WaitKey(old(Abs()), x)
    {
      var anyKeyPressed := false;
      var key := -1;
      var i := 0;
      while i < DeclaredKeyCount
        invariant 0 <= i <= DeclaredKeyCount
        invariant forall j :: 0 <= j < i ==> !keypad[j]
        invariant !anyKeyPressed && V[..] == old(V[..])
      {
        if keypad[i] {
          V[x] := i;
          key := i;
          anyKeyPressed := true;
          break;
        }
        i := i + 1;
      }
      if !anyKeyPressed {
        PC := Add16(PC, -2);
      } else if keypad[key] {
        PC := Add16(PC, -2);
      } else {
        // the key was found pressed a moment ago
        assert false;
      }
    }

    /** FX55: the loop for i in [0, X) writing ram[I + i] = V[i]. */
    method StoreRegisters(x: Nibble)
      requires Valid() && (x == 0 || I + x <= RamSize)
      modifies ram
      ensures Valid() && Abs() == StoreRegs(old(Abs()), x)
    {
      for i := 0 to x
        invariant forall a :: 0 <= a < RamSize ==>
          ram[a] == if I <= a < I + i then V[a - I] else old(ram[a])
      {
        ram[I + i] := V[i];
      }
      if x != 0 {
        assert ram[..] == old(ram[..])[..I] + V[..x] + old(ram[..])[I + x..];
      }
    }

    /** FX65: the loop for i in [0, X) writing V[i] = ram[I + i]. */
    method LoadRegisters(x: Nibble)
      requires Valid() && (x == 0 || I + x <= RamSize)
      modifies V
      ensures Valid() && Abs() == LoadRegs(old(Abs()), x)
    {
      for i := 0 to x
        invariant forall r :: 0 <= r < RegisterCount ==>
          V[r] == if r < i then ram[I + r] else old(V[r])
      {
        V[i] := ram[I + i];
      }
      if x != 0 {
        assert V[..] == ram[I..I + x] + old(V[..])[x..];
      }
    }

    /** update_timers; the result says whether the tone plays for this tick. */
    method UpdateTimers() returns (toneOn: bool)
      requires Valid()
      modifies this
      ensures Valid() && Abs() == TickTimers(old(Abs()))
      ensures toneOn == ToneOn(old(Abs()))
    {
      if delayTimer > 0 {
        delayTimer := delayTimer - 1;
      }
      if soundTimer > 0 {
        soundTimer := soundTimer - 1;
        toneOn := true;
      } else {
        toneOn := false;
      }
    }

    /** One frame of the host loop: one instruction per random byte, then
        one timer tick. */
    method RunFrame(rnds: seq<Byte>) returns (toneOn: bool)
      requires Valid() && Run(Abs(), rnds).Some?
      modifies this, ram, display, stack, V
      ensures Valid() && Abs() == TickTimers(Run(old(Abs()), rnds).value)
      ensures toneOn == ToneOn(Run(old(Abs()), rnds).value)
    {
      for i := 0 to |rnds|
        invariant Valid() && Run(Abs(), rnds[i..]) == Run(old(Abs()), rnds)
      {
        assert rnds[i..][1..] == rnds[i + 1..];
        Step(rnds[i]);
      }
      assert rnds[|rnds|..] == [];
      toneOn := UpdateTimers();
    }

    /** A key-down or key-up event: the latch of key k is set or cleared. */
    method KeyEvent(k: Nibble, pressed: bool)
      requires Valid()
      modifies keypad
      ensures Valid() && Abs() == old(Abs()).(keypad := old(Abs()).keypad[k := pressed])
    {
      keypad[k] := pressed;
    }

    /** The window-close event: the only way the run state becomes Quit. */
    method QuitEvent()
      requires Valid()
      modifies this
      ensures Valid() && Abs() == old(Abs()).(state := Quit)
    {
      state := Quit;
    }
  }
}
