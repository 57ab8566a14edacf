/** Properties of the interpreter: what each opcode promises, stated about
    the functions of Chip8Spec for every machine state. */
module Chip8Properties {
  import opened Chip8State
  import opened Chip8Spec

  // ----------------------------------------------------------------- load

  /** After chip8_init, RAM holds the font at 0, the ROM at 0x200 and zero
      everywhere else. */
  lemma InitialLayout(rom: seq<Byte>)
    requires |rom| <= MaxRomSize
    ensures forall a :: 0 <= a < RamSize ==>
      Initial(rom).ram[a] ==
        if a < FontSize then Font[a]
        else if ProgramStart <= a < ProgramStart + |rom| then rom[a - ProgramStart]
        else 0
  {
    var low := Font + Zeros(ProgramStart - FontSize);
    assert |low| == ProgramStart;
    var ram := low + rom + Zeros(MaxRomSize - |rom|);
    assert Initial(rom).ram == ram;
    forall a | 0 <= a < RamSize
      ensures ram[a] ==
        if a < FontSize then Font[a]
        else if ProgramStart <= a < ProgramStart + |rom| then rom[a - ProgramStart]
        else 0
    {
      if a < ProgramStart {
        assert ram[a] == low[a];
      } else if a < ProgramStart + |rom| {
        assert ram[a] == (low + rom)[a];
      }
    }
  }

  // ----------------------------------------------------------------- draw

  /** Pixel (x, y) sits at index y * Width + x of the row-major display. */
  lemma PixelIndex(y: int, x: int)
    requires 0 <= y && 0 <= x < Width
    ensures (y * Width + x) / Width == y && (y * Width + x) % Width == x
  {
  }

  /** One column step of a row: RowDrawn and RowHit of w + 1 columns in terms
      of those of w columns and the pixel at column x0 + w. */
  lemma RowStep(d: seq<bool>, b: Byte, x0: nat, y: nat, w: nat)
    requires |d| == ScreenSize && RowFits(x0, y, w + 1)
    ensures var p := y * Width + x0 + w; var cur := RowDrawn(d, b, x0, y, w);
      RowDrawn(d, b, x0, y, w + 1) == cur[p := cur[p] != SpriteBit(b, w)] &&
      RowHit(d, b, x0, y, w + 1) == (RowHit(d, b, x0, y, w) || (SpriteBit(b, w) && cur[p]))
  {
    PixelIndex(y, x0 + w);
    RowDrawnOutside(d, b, x0, y, w, y * Width + x0 + w);
  }

  /** One row step of a sprite: Drawn and Collides of k rows in terms of those
      of k - 1 rows and row k - 1 drawn on top. */
  lemma RowsStep(d: seq<bool>, sprite: seq<Byte>, x0: nat, y0: nat, cols: nat, k: nat)
    requires |d| == ScreenSize && SpriteFits(sprite, x0, y0, cols) && 0 < k <= |sprite|
    ensures var cur := Drawn(d, sprite, x0, y0, cols, k - 1);
      Drawn(d, sprite, x0, y0, cols, k) == RowDrawn(cur, sprite[k - 1], x0, y0 + k - 1, cols) &&
      Collides(d, sprite, x0, y0, cols, k) == (Collides(d, sprite, x0, y0, cols, k - 1) || RowHit(cur, sprite[k - 1], x0, y0 + k - 1, cols))
  {
  }

  /** A row changes only its own pixels: the first w columns of row y. */
  lemma {:induction false} RowDrawnOutside(d: seq<bool>, b: Byte, x0: nat, y: nat, w: nat, p: int)
    requires |d| == ScreenSize && RowFits(x0, y, w) && 0 <= p < ScreenSize
    requires !(p / Width == y && x0 <= p % Width < x0 + w)
    ensures RowDrawn(d, b, x0, y, w)[p] == d[p]
  {
    if w > 0 {
      PixelIndex(y, x0 + w - 1);
      RowDrawnOutside(d, b, x0, y, w - 1, p);
    }
  }

  /** Closed form of a row: pixel p is XORed with its sprite bit when it lies
      in the first w columns from x0 on row y, and is unchanged otherwise. */
  lemma {:induction false} RowDrawnPixel(d: seq<bool>, b: Byte, x0: nat, y: nat, w: nat, p: int)
    requires |d| == ScreenSize && RowFits(x0, y, w) && 0 <= p < ScreenSize
    ensures RowDrawn(d, b, x0, y, w)[p] ==
      if p / Width == y && x0 <= p % Width < x0 + w then d[p] != SpriteBit(b, p % Width - x0)
      else d[p]
  {
    if w > 0 {
      var q := y * Width + x0 + w - 1;
      PixelIndex(y, x0 + w - 1);
      if p != q {
        RowDrawnPixel(d, b, x0, y, w - 1, p);
        assert p / Width == y && p % Width == x0 + w - 1 ==> p == q;
      }
    }
  }

  /** Closed form of the row's collision test. */
  lemma {:induction false} RowHitExists(d: seq<bool>, b: Byte, x0: nat, y: nat, w: nat)
    requires |d| == ScreenSize && RowFits(x0, y, w)
    ensures RowHit(d, b, x0, y, w) <==> exists c :: 0 <= c < w && PixelHit(d, b, x0, y, c)
  {
    if w > 0 {
      RowHitExists(d, b, x0, y, w - 1);
    }
  }

  /** The pixel p lies in the clipped rectangle of a sprite placed at (x0, y0). */
  predicate Covered(p: int, x0: nat, y0: nat, rows: nat, cols: nat) {
    0 <= p && y0 <= p / Width < y0 + rows && x0 <= p % Width < x0 + cols
  }

  /** The sprite bit that lands on a covered pixel p. */
  predicate SpritePixel(sprite: seq<Byte>, x0: nat, y0: nat, cols: nat, p: int)
    requires Covered(p, x0, y0, |sprite|, cols) && cols <= 8
  {
    SpriteBit(sprite[p / Width - y0], p % Width - x0)
  }

  /** Closed form of the first k rows of DXYN: every covered pixel is XORed
      with the sprite bit over it, every other pixel is left alone. */
  lemma {:induction false} DrawnPixel(d: seq<bool>, sprite: seq<Byte>, x0: nat, y0: nat, cols: nat, k: nat, p: int)
    requires |d| == ScreenSize && SpriteFits(sprite, x0, y0, cols) && k <= |sprite| && 0 <= p < ScreenSize
    ensures Drawn(d, sprite, x0, y0, cols, k)[p] ==
      if Covered(p, x0, y0, k, cols) then d[p] != SpritePixel(sprite, x0, y0, cols, p)
      else d[p]
  {
    if k > 0 {
      DrawnPixel(d, sprite, x0, y0, cols, k - 1, p);
      RowDrawnPixel(Drawn(d, sprite, x0, y0, cols, k - 1), sprite[k - 1], x0, y0 + k - 1, cols, p);
    }
  }

  /** DrawnPixel at column c of sprite row r. */
  lemma DrawnAt(d: seq<bool>, sprite: seq<Byte>, x0: nat, y0: nat, cols: nat, k: nat, r: nat, c: nat)
    requires |d| == ScreenSize && SpriteFits(sprite, x0, y0, cols) && k <= |sprite| && c < cols
    requires r < |sprite|
    ensures (y0 + r) * Width + x0 + c < ScreenSize
    ensures Drawn(d, sprite, x0, y0, cols, k)[(y0 + r) * Width + x0 + c] ==
      if r < k then d[(y0 + r) * Width + x0 + c] != SpriteBit(sprite[r], c)
      else d[(y0 + r) * Width + x0 + c]
  {
    var p := (y0 + r) * Width + x0 + c;
    PixelIndex(y0 + r, x0 + c);
    DrawnPixel(d, sprite, x0, y0, cols, k, p);
  }

  /** Bit c of sprite row r is set and lands on a lit pixel of d. */
  predicate SpriteHit(d: seq<bool>, sprite: seq<Byte>, x0: nat, y0: nat, cols: nat, r: nat, c: nat)
    requires |d| == ScreenSize && SpriteFits(sprite, x0, y0, cols) && r < |sprite| && c < cols
  {
    PixelHit(d, sprite[r], x0, y0 + r, c)
  }

  /** A set bit over a lit pixel in the first w columns makes RowHit true. */
  lemma {:induction false} RowHitAt(d: seq<bool>, b: Byte, x0: nat, y: nat, w: nat, c: nat)
    requires |d| == ScreenSize && RowFits(x0, y, w) && c < w && PixelHit(d, b, x0, y, c)
    ensures RowHit(d, b, x0, y, w)
  {
    if c < w - 1 {
      RowHitAt(d, b, x0, y, w - 1, c);
    }
  }

  /** Row k is not among the first k rows, so drawing those leaves the pixels
      under row k as they were. */
  lemma LastRowUnchanged(d: seq<bool>, sprite: seq<Byte>, x0: nat, y0: nat, cols: nat, k: nat)
    requires |d| == ScreenSize && SpriteFits(sprite, x0, y0, cols) && k < |sprite|
    ensures forall c :: 0 <= c < cols ==>
      PixelHit(Drawn(d, sprite, x0, y0, cols, k), sprite[k], x0, y0 + k, c) == SpriteHit(d, sprite, x0, y0, cols, k, c)
  {
    forall c | 0 <= c < cols
      ensures PixelHit(Drawn(d, sprite, x0, y0, cols, k), sprite[k], x0, y0 + k, c) == SpriteHit(d, sprite, x0, y0, cols, k, c)
    {
      DrawnAt(d, sprite, x0, y0, cols, k, k, c);
    }
  }

  /** Closed form of the collision flag: some set bit of the first k rows
      lies over a pixel that was lit before the instruction (the rows do not
      overlap, so no row sees a pixel an earlier row changed). */
  lemma CollidesExists(d: seq<bool>, sprite: seq<Byte>, x0: nat, y0: nat, cols: nat, k: nat)
    requires |d| == ScreenSize && SpriteFits(sprite, x0, y0, cols) && k <= |sprite|
    ensures Collides(d, sprite, x0, y0, cols, k) <==>
      exists r, c :: 0 <= r < k && 0 <= c < cols && SpriteHit(d, sprite, x0, y0, cols, r, c)
  {
    if Collides(d, sprite, x0, y0, cols, k) {
      CollidesWitness(d, sprite, x0, y0, cols, k);
    }
    if exists r, c :: 0 <= r < k && 0 <= c < cols && SpriteHit(d, sprite, x0, y0, cols, r, c) {
      var r, c :| 0 <= r < k && 0 <= c < cols && SpriteHit(d, sprite, x0, y0, cols, r, c);
      WitnessCollides(d, sprite, x0, y0, cols, k, r, c);
    }
  }

  /** A collision of the first k rows comes from some set bit over a lit pixel. */
  lemma {:induction false} CollidesWitness(d: seq<bool>, sprite: seq<Byte>, x0: nat, y0: nat, cols: nat, k: nat)
    requires |d| == ScreenSize && SpriteFits(sprite, x0, y0, cols) && k <= |sprite|
    requires Collides(d, sprite, x0, y0, cols, k)
    ensures exists r, c :: 0 <= r < k && 0 <= c < cols && SpriteHit(d, sprite, x0, y0, cols, r, c)
  {
    var last := k - 1;
    RowsStep(d, sprite, x0, y0, cols, k);
    if Collides(d, sprite, x0, y0, cols, last) {
      CollidesWitness(d, sprite, x0, y0, cols, last);
      var r, c :| 0 <= r < last && 0 <= c < cols && SpriteHit(d, sprite, x0, y0, cols, r, c);
      assert 0 <= r < k;
    } else {
      var e, b, y := Drawn(d, sprite, x0, y0, cols, last), sprite[last], y0 + last;
      RowHitExists(e, b, x0, y, cols);
      LastRowUnchanged(d, sprite, x0, y0, cols, last);
      var c :| 0 <= c < cols && PixelHit(e, b, x0, y, c);
      assert SpriteHit(d, sprite, x0, y0, cols, last, c);
    }
  }

  /** A set bit of one of the first k rows over a lit pixel sets the flag. */
  lemma {:induction false} WitnessCollides(d: seq<bool>, sprite: seq<Byte>, x0: nat, y0: nat, cols: nat, k: nat, r: nat, c: nat)
    requires |d| == ScreenSize && SpriteFits(sprite, x0, y0, cols) && k <= |sprite|
    requires r < k && c < cols && SpriteHit(d, sprite, x0, y0, cols, r, c)
    ensures Collides(d, sprite, x0, y0, cols, k)
  {
    RowsStep(d, sprite, x0, y0, cols, k);
    if r < k - 1 {
      WitnessCollides(d, sprite, x0, y0, cols, k - 1, r, c);
    } else {
      HitInLastRow(d, sprite, x0, y0, cols, k - 1, c);
    }
  }

  /** A set bit of row k over a pixel lit before the draw is still over a lit
      pixel once rows 0 .. k-1 are drawn, so row k hits. */
  lemma HitInLastRow(d: seq<bool>, sprite: seq<Byte>, x0: nat, y0: nat, cols: nat, k: nat, c: nat)
    requires |d| == ScreenSize && SpriteFits(sprite, x0, y0, cols) && k < |sprite|
    requires c < cols && SpriteHit(d, sprite, x0, y0, cols, k, c)
    ensures RowHit(Drawn(d, sprite, x0, y0, cols, k), sprite[k], x0, y0 + k, cols)
  {
    var e := Drawn(d, sprite, x0, y0, cols, k);
    DrawnAt(d, sprite, x0, y0, cols, k, k, c);
    assert PixelHit(e, sprite[k], x0, y0 + k, c);
    RowHitAt(e, sprite[k], x0, y0 + k, cols, c);
  }

  /** XOR is its own inverse: drawing the same sprite twice at the same place
      gives back the display. */
  lemma DrawnTwice(d: seq<bool>, sprite: seq<Byte>, x0: nat, y0: nat, cols: nat)
    requires |d| == ScreenSize && SpriteFits(sprite, x0, y0, cols)
    ensures Drawn(Drawn(d, sprite, x0, y0, cols, |sprite|), sprite, x0, y0, cols, |sprite|) == d
  {
    var e := Drawn(d, sprite, x0, y0, cols, |sprite|);
    forall p | 0 <= p < ScreenSize
      ensures Drawn(e, sprite, x0, y0, cols, |sprite|)[p] == d[p]
    {
      DrawnPixel(d, sprite, x0, y0, cols, |sprite|, p);
      DrawnPixel(e, sprite, x0, y0, cols, |sprite|, p);
    }
  }

  /** The second of two identical draws collides exactly where the first one
      lit a pixel: some set bit lies over a pixel that was dark before both. */
  lemma SecondDrawCollides(d: seq<bool>, sprite: seq<Byte>, x0: nat, y0: nat, cols: nat)
    requires |d| == ScreenSize && SpriteFits(sprite, x0, y0, cols)
    ensures Collides(Drawn(d, sprite, x0, y0, cols, |sprite|), sprite, x0, y0, cols, |sprite|) <==>
      exists r, c :: 0 <= r < |sprite| && 0 <= c < cols && SpriteBit(sprite[r], c)
        && !SpriteHit(d, sprite, x0, y0, cols, r, c)
  {
    var e := Drawn(d, sprite, x0, y0, cols, |sprite|);
    CollidesExists(e, sprite, x0, y0, cols, |sprite|);
    forall r, c | 0 <= r < |sprite| && 0 <= c < cols
      ensures SpriteHit(e, sprite, x0, y0, cols, r, c) ==
        (SpriteBit(sprite[r], c) && !SpriteHit(d, sprite, x0, y0, cols, r, c))
    {
      DrawnAt(d, sprite, x0, y0, cols, |sprite|, r, c);
    }
  }

  /** DXYN twice with the same operands (X and Y not VF, so the origin is
      read again unchanged) gives back the display; only VF may differ. */
  lemma DrawTwiceRestores(m: Machine, x: Nibble, y: Nibble, n: Nibble)
    requires WellFormed(m) && DrawDefined(m, y, n) && x != Flag && y != Flag
    ensures DrawDefined(Draw(m, x, y, n), y, n)
    ensures var r := Draw(Draw(m, x, y, n), x, y, n); r == m.(V := m.V[Flag := r.V[Flag]])
  {
    var x0, y0 := m.V[x] % Width, m.V[y] % Height;
    var rows, cols := SpriteRows(n, y0), SpriteCols(x0);
    var sprite := SpriteData(m, rows);
    var m1 := Draw(m, x, y, n);
    assert m1.V[x] == m.V[x] && m1.V[y] == m.V[y];
    assert m1.ram == m.ram && m1.I == m.I;
    assert SpriteData(m1, rows) == sprite;
    var r := Draw(m1, x, y, n);
    assert r.display == Drawn(m1.display, sprite, x0, y0, cols, |sprite|);
    DrawnTwice(m.display, sprite, x0, y0, cols);
    assert r.V == m.V[Flag := r.V[Flag]];
  }

  /** DXYN clips instead of wrapping: only pixels in the rectangle from the
      origin to the right and bottom edges can change. */
  lemma DrawClipped(m: Machine, x: Nibble, y: Nibble, n: Nibble, p: int)
    requires WellFormed(m) && DrawDefined(m, y, n) && 0 <= p < ScreenSize
    requires p % Width < m.V[x] % Width || p / Width < m.V[y] % Height
    ensures Draw(m, x, y, n).display[p] == m.display[p]
  {
    var x0, y0 := m.V[x] % Width, m.V[y] % Height;
    var sprite := SpriteData(m, SpriteRows(n, y0));
    DrawnPixel(m.display, sprite, x0, y0, SpriteCols(x0), |sprite|, p);
  }

  /** A sprite at the last column draws only its leftmost bit column. */
  lemma RightEdgeOneColumn(m: Machine, x: Nibble, y: Nibble, n: Nibble, p: int)
    requires WellFormed(m) && DrawDefined(m, y, n) && 0 <= p < ScreenSize
    requires m.V[x] % Width == Width - 1 && p % Width != Width - 1
    ensures Draw(m, x, y, n).display[p] == m.display[p]
  {
    var x0, y0 := m.V[x] % Width, m.V[y] % Height;
    var sprite := SpriteData(m, SpriteRows(n, y0));
    DrawnPixel(m.display, sprite, x0, y0, SpriteCols(x0), |sprite|, p);
  }

  /** On a blank display DXYN never reports a collision. */
  lemma DrawOnBlank(m: Machine, x: Nibble, y: Nibble, n: Nibble)
    requires WellFormed(m) && DrawDefined(m, y, n) && m.display == Blank()
    ensures Draw(m, x, y, n).V[Flag] == 0
  {
    var x0, y0 := m.V[x] % Width, m.V[y] % Height;
    var sprite, cols := SpriteData(m, SpriteRows(n, y0)), SpriteCols(x0);
    CollidesExists(m.display, sprite, x0, y0, cols, |sprite|);
    forall r, c | 0 <= r < |sprite| && 0 <= c < cols
      ensures !SpriteHit(m.display, sprite, x0, y0, cols, r, c)
    {
      PixelIndex(y0 + r, x0 + c);
    }
  }

  // -------------------------------------------------------- fetch & decode

  /** The instruction at PC. */
  function InstAt(m: Machine): Instruction
    requires WellFormed(m) && m.PC + 1 < RamSize
  {
    Decode(Fetch(m))
  }

  /** The opcode is big-endian: the first byte holds the operation and X, the
      second holds NN, that is Y and N. */
  lemma FetchFields(m: Machine)
    requires WellFormed(m) && m.PC + 1 < RamSize
    ensures InstAt(m).Op() == m.ram[m.PC] / 0x10 && InstAt(m).X == m.ram[m.PC] % 0x10
    ensures InstAt(m).NN == m.ram[m.PC + 1]
    ensures InstAt(m).Y == m.ram[m.PC + 1] / 0x10 && InstAt(m).N == m.ram[m.PC + 1] % 0x10
    ensures InstAt(m).NNN == (m.ram[m.PC] as int % 0x10) * 0x100 + m.ram[m.PC + 1]
  {
    var hi: int, lo: int := m.ram[m.PC], m.ram[m.PC + 1];
    var op := Fetch(m);
    assert op == hi * 0x100 + lo;
    assert op / 0x100 == hi && op % 0x100 == lo;
    assert op / 0x1000 == hi / 0x10;
    assert op / 0x10 == hi * 0x10 + lo / 0x10;
  }

  // ---------------------------------------------------------- control flow

  /** The conditional-skip opcodes: 3XNN, 4XNN, 5XY0, 9XY0, EX9E, EXA1. */
  predicate IsSkip(inst: Instruction) {
    inst.Op() in {0x3, 0x4, 0x5, 0x9} || (inst.Op() == 0xE && inst.NN in {0x9E, 0xA1})
  }

  /** The condition under which a skip opcode skips. */
  predicate SkipTaken(m: Machine, inst: Instruction)
    requires WellFormed(m) && IsSkip(inst)
    requires inst.Op() == 0xE ==> m.V[inst.X] < KeyCount
  {
    match inst.Op()
    case 0x3 => m.V[inst.X] == inst.NN
    case 0x4 => m.V[inst.X] != inst.NN
    case 0x5 => m.V[inst.X] == m.V[inst.Y]
    case 0x9 => m.V[inst.X] != m.V[inst.Y]
    case _ => m.keypad[m.V[inst.X]] == (inst.NN == 0x9E)
  }

  /** A skip moves PC on by 4 when its condition holds and by 2 otherwise, and
      changes nothing else. */
  lemma SkipMovesPC(m: Machine, rnd: Byte)
    requires Defined(m) && IsSkip(InstAt(m))
    ensures Exec(m, rnd) == m.(PC := Add16(m.PC, if SkipTaken(m, InstAt(m)) then 4 else 2))
  {
  }

  /** The opcodes that execute_instruction acts on. */
  predicate Implemented(inst: Instruction) {
    match inst.Op()
    case 0x0 => inst.NN in {0xE0, 0xEE}
    case 0x8 => inst.N <= 0x7 || inst.N == 0xE
    case 0xE => inst.NN in {0x9E, 0xA1}
    case 0xF => inst.NN in {0x07, 0x0A, 0x15, 0x18, 0x1E, 0x29, 0x33, 0x55, 0x65}
    case _ => true
  }

  /** Any other opcode (0NNN among them) only advances PC. */
  lemma UnknownIsNoop(m: Machine, rnd: Byte)
    requires Defined(m) && !Implemented(InstAt(m))
    ensures Exec(m, rnd) == Advance(m)
  {
  }

  /** 2NNN followed by a 00EE at NNN comes back to the instruction after the
      call with the stack pointer restored; the slot keeps the return address. */
  lemma CallThenReturn(m: Machine, rnd1: Byte, rnd2: Byte)
    requires Defined(m) && InstAt(m).Op() == 0x2
    requires Defined(Exec(m, rnd1)) && Fetch(Exec(m, rnd1)) == 0x00EE
    ensures Exec(m, rnd1).PC == InstAt(m).NNN && Exec(m, rnd1).sp == m.sp + 1
    ensures Exec(Exec(m, rnd1), rnd2) ==
      m.(PC := Add16(m.PC, 2), stack := m.stack[m.sp := Add16(m.PC, 2)])
  {
    var m1 := Exec(m, rnd1);
    assert Decode(Fetch(m1)).Op() == 0 && Decode(Fetch(m1)).NN == 0xEE;
  }

  /** BNNN adds V0 to NNN without wrapping. */
  lemma JumpOffset(m: Machine, rnd: Byte)
    requires Defined(m) && InstAt(m).Op() == 0xB
    ensures Exec(m, rnd) == m.(PC := m.V[0] + InstAt(m).NNN)
  {
  }

  // ------------------------------------------------------------------ ALU

  /** 8XY4: VX gets the low byte of the sum; VF is 1 on a carry and keeps its
      value otherwise; no other register changes. */
  lemma AddCarry(m: Machine, x: Nibble, y: Nibble)
    requires WellFormed(m) && x != Flag && y != Flag
    ensures var r := Alu(m, x, y, 0x4); var carry := m.V[x] as int + m.V[y] > 0xFF;
      && r.V[x] as int + (if carry then 0x100 else 0) == m.V[x] as int + m.V[y]
      && r.V[Flag] == (if carry then 1 else m.V[Flag])
      && (forall i :: 0 <= i < RegisterCount && i != x && i != Flag ==> r.V[i] == m.V[i])
      && r == m.(V := r.V)
  {
  }

  /** 8XY5: VF is the no-borrow bit and VX the difference modulo 256. */
  lemma SubBorrow(m: Machine, x: Nibble, y: Nibble)
    requires WellFormed(m) && x != Flag && y != Flag
    ensures var r := Alu(m, x, y, 0x5);
      && r.V[Flag] == (if m.V[x] >= m.V[y] then 1 else 0)
      && r.V[x] == m.V[x] as int - m.V[y] + (if m.V[x] < m.V[y] then 0x100 else 0)
      && r == m.(V := m.V[Flag := r.V[Flag]][x := r.V[x]])
  {
  }

  /** 8XY7: the same with the operands swapped. */
  lemma ReverseSubBorrow(m: Machine, x: Nibble, y: Nibble)
    requires WellFormed(m) && x != Flag && y != Flag
    ensures var r := Alu(m, x, y, 0x7);
      && r.V[Flag] == (if m.V[y] >= m.V[x] then 1 else 0)
      && r.V[x] == m.V[y] as int - m.V[x] + (if m.V[y] < m.V[x] then 0x100 else 0)
      && r == m.(V := m.V[Flag := r.V[Flag]][x := r.V[x]])
  {
  }

  /** Masking with 1 and 0x80 reads the low and the high bit. */
  lemma LowHighBits(a: Byte)
    ensures And(a, 1) == a % 2
    ensures And(a, 0x80) == (a / 0x80) * 0x80
    ensures And(a, 0x80) / 0x80 == a / 0x80
  {
    var v := a as bv8;
    assert v & 1 == v % 2;
    assert v & 0x80 == (v / 0x80) * 0x80;
    if a < 0x80 {
      assert And(a, 0x80) == 0;
    } else {
      assert And(a, 0x80) == 0x80;
    }
  }

  /** 8XY6: the bit shifted out goes to VF; VF and the new VX together make
      the old VX. */
  lemma ShiftRight(m: Machine, x: Nibble, y: Nibble)
    requires WellFormed(m) && x != Flag
    ensures var r := Alu(m, x, y, 0x6);
      && r.V[Flag] <= 1 && 2 * r.V[x] as int + r.V[Flag] == m.V[x]
      && r == m.(V := m.V[Flag := r.V[Flag]][x := r.V[x]])
  {
    LowHighBits(m.V[x]);
  }

  /** 8XYE: the bit shifted out of the top goes to VF. */
  lemma ShiftLeft(m: Machine, x: Nibble, y: Nibble)
    requires WellFormed(m) && x != Flag
    ensures var r := Alu(m, x, y, 0xE);
      && r.V[Flag] <= 1 && r.V[x] as int + 0x100 * (r.V[Flag] as int) == 2 * (m.V[x] as int)
      && r == m.(V := m.V[Flag := r.V[Flag]][x := r.V[x]])
  {
    var v: int := m.V[x];
    LowHighBits(v);
    DoubleSplit(v);
    var r := Alu(m, x, y, 0xE);
    assert r.V == m.V[Flag := v / 0x80][x := (v * 2) % 0x100];
  }

  /** Doubling a byte: the low byte of the result and the carried-out top bit. */
  lemma DoubleSplit(v: int)
    requires 0 <= v < 0x100
    ensures v / 0x80 <= 1 && (v * 2) % 0x100 + 0x100 * (v / 0x80) == 2 * v
  {
    if v < 0x80 {
      assert v / 0x80 == 0 && (v * 2) % 0x100 == 2 * v;
    } else {
      assert v / 0x80 == 1 && (v * 2) % 0x100 == 2 * v - 0x100;
    }
  }

  /** When X or Y is F, the flag-setting cases read VF after the flag has
      been written into it: 8XF4, 8XF5 and 8XF7 compute VX from the new flag,
      and in 8FY4, 8FY5, 8FY6, 8FY7 and 8FYE the result overwrites the flag. */
  lemma FlagWrittenFirst(m: Machine, x: Nibble, y: Nibble)
    requires WellFormed(m) && x != Flag
    ensures var vx, vy, vf := m.V[x] as int, m.V[y] as int, m.V[Flag] as int;
      && (vx + vf > 0xFF ==> Alu(m, x, Flag, 0x4).V[x] == (vx + 1) % 0x100)
      && Alu(m, x, Flag, 0x5).V[x] == (vx - (if vx >= vf then 1 else 0)) % 0x100
      && Alu(m, x, Flag, 0x7).V[x] == ((if vf >= vx then 1 else 0) - vx) % 0x100
      && Alu(m, Flag, y, 0x4).V[Flag] ==
           (if vf + vy <= 0xFF then vf + vy else if y == Flag then 2 else (1 + vy) % 0x100)
      && Alu(m, Flag, y, 0x5).V[Flag] ==
           (if y == Flag then 0 else ((if vf >= vy then 1 else 0) - vy) % 0x100)
      && Alu(m, Flag, y, 0x6).V[Flag] == 0
      && Alu(m, Flag, y, 0x7).V[Flag] ==
           (if y == Flag then 0 else (vy - (if vy >= vf then 1 else 0)) % 0x100)
      && Alu(m, Flag, y, 0xE).V[Flag] == 2 * (vf / 0x80)
  {
    FlagAsOperand(m, x);
    FlagOverwrittenByAdd(m, y);
    FlagOverwrittenBySub(m, y);
    FlagOverwrittenByShift(m, y);
  }

  /** 8XF4, 8XF5 and 8XF7: VX is computed from the flag just written. */
  lemma FlagAsOperand(m: Machine, x: Nibble)
    requires WellFormed(m) && x != Flag
    ensures var vx, vf := m.V[x] as int, m.V[Flag] as int;
      && (vx + vf > 0xFF ==> Alu(m, x, Flag, 0x4).V[x] == (vx + 1) % 0x100)
      && Alu(m, x, Flag, 0x5).V[x] == (vx - (if vx >= vf then 1 else 0)) % 0x100
      && Alu(m, x, Flag, 0x7).V[x] == ((if vf >= vx then 1 else 0) - vx) % 0x100
  {
  }

  /** 8FY4: the sum lands on top of the carry flag. */
  lemma FlagOverwrittenByAdd(m: Machine, y: Nibble)
    requires WellFormed(m)
    ensures var vy, vf := m.V[y] as int, m.V[Flag] as int;
      Alu(m, Flag, y, 0x4).V[Flag] ==
        if vf + vy <= 0xFF then vf + vy else if y == Flag then 2 else (1 + vy) % 0x100
  {
  }

  /** 8FY5 and 8FY7: the difference lands on top of the no-borrow flag. */
  lemma FlagOverwrittenBySub(m: Machine, y: Nibble)
    requires WellFormed(m)
    ensures var vy, vf := m.V[y] as int, m.V[Flag] as int;
      && Alu(m, Flag, y, 0x5).V[Flag] ==
           (if y == Flag then 0 else ((if vf >= vy then 1 else 0) - vy) % 0x100)
      && Alu(m, Flag, y, 0x7).V[Flag] ==
           (if y == Flag then 0 else (vy - (if vy >= vf then 1 else 0)) % 0x100)
  {
  }

  /** 8FY6 and 8FYE: the shifted bit is shifted again. */
  lemma FlagOverwrittenByShift(m: Machine, y: Nibble)
    requires WellFormed(m)
    ensures Alu(m, Flag, y, 0x6).V[Flag] == 0
    ensures Alu(m, Flag, y, 0xE).V[Flag] == 2 * (m.V[Flag] / 0x80)
  {
    LowHighBits(m.V[Flag]);
  }

  /** 7XNN adds modulo 256 and, unlike 8XY4, never touches VF. */
  lemma AddImmediateKeepsFlag(m: Machine, rnd: Byte)
    requires Defined(m) && InstAt(m).Op() == 0x7 && InstAt(m).X != Flag
    ensures Exec(m, rnd).V[Flag] == m.V[Flag]
    ensures Exec(m, rnd).V[InstAt(m).X] == (m.V[InstAt(m).X] as int + InstAt(m).NN) % 0x100
  {
  }

  /** 8XX3 clears VX. */
  lemma XorSelf(m: Machine, x: Nibble)
    requires WellFormed(m)
    ensures Alu(m, x, x, 0x3).V[x] == 0
  {
    var v := m.V[x] as bv8;
    assert v ^ v == 0;
  }

  // ---------------------------------------------------------------- FXNN

  /** FX33: the three bytes at I are the decimal digits of VX, most
      significant first; the rest of RAM is unchanged. */
  lemma BcdDigits(m: Machine, x: Nibble)
    requires WellFormed(m) && m.I + 3 <= RamSize
    ensures var r := StoreBcd(m, x);
      && r.ram[m.I] < 10 && r.ram[m.I + 1] < 10 && r.ram[m.I + 2] < 10
      && 100 * r.ram[m.I] as int + 10 * r.ram[m.I + 1] as int + r.ram[m.I + 2] == m.V[x]
      && (forall a :: 0 <= a < RamSize && !(m.I <= a < m.I + 3) ==> r.ram[a] == m.ram[a])
      && r == m.(ram := r.ram)
  {
    var v := m.V[x];
    assert v % 1000 == v;
    assert v == 100 * (v / 100) + 10 * ((v % 100) / 10) + v % 10;
  }

  /** FX29 points I at the five glyph bytes of the hex digit in VX, as long
      as the font chip8_init put at address 0 is still there. */
  lemma FontAddress(m: Machine, x: Nibble)
    requires WellFormed(m) && m.V[x] < 0x10 && m.ram[..FontSize] == Font
    ensures var r := Misc(m, x, 0x29);
      r.I + 5 <= FontSize && r.ram[r.I..r.I + 5] == Font[5 * m.V[x]..5 * m.V[x] + 5]
  {
    var i := 5 * m.V[x];
    assert m.ram[i..i + 5] == m.ram[..FontSize][i..i + 5];
  }

  /** FX15 then FY07 copies VX to VY through the delay timer. */
  lemma DelayRoundTrip(m: Machine, x: Nibble, y: Nibble)
    requires WellFormed(m)
    ensures Misc(Misc(m, x, 0x15), y, 0x07).V[y] == m.V[x]
    ensures Misc(Misc(m, x, 0x15), y, 0x07).delayTimer == m.V[x]
  {
  }

  /** FX55 writes V0..V(X-1) to I..I+X-1 and leaves the rest of RAM (the byte
      for VX at I+X included) and the rest of the record alone. */
  lemma StoreRegsWrites(m: Machine, x: Nibble, a: int)
    requires WellFormed(m) && (x == 0 || m.I + x <= RamSize) && 0 <= a < RamSize
    ensures StoreRegs(m, x).ram[a] == if m.I <= a < m.I + x then m.V[a - m.I] else m.ram[a]
    ensures StoreRegs(m, x) == m.(ram := StoreRegs(m, x).ram)
  {
    if x != 0 {
      var r := StoreRegs(m, x).ram;
      if a < m.I {
        assert r[a] == m.ram[..m.I][a];
      } else if a < m.I + x {
        assert r[a] == (m.ram[..m.I] + m.V[..x])[a];
      } else {
        assert r[a] == m.ram[m.I + x..][a - m.I - x];
      }
    }
  }

  /** FX65 right after FX55 with the same X and I reads back the registers it
      saved and so changes nothing: the pair changes only the stored bytes. */
  lemma LoadAfterStore(m: Machine, x: Nibble)
    requires WellFormed(m) && (x == 0 || m.I + x <= RamSize)
    ensures LoadRegs(StoreRegs(m, x), x) == StoreRegs(m, x)
    ensures LoadRegs(StoreRegs(m, x), x) == m.(ram := StoreRegs(m, x).ram)
  {
    if x != 0 {
      var s := StoreRegs(m, x);
      assert s.ram[m.I..m.I + x] == m.V[..x];
      assert m.V[..x] + m.V[x..] == m.V;
    }
  }

  /** FX0A on its own: PC goes back by two; if one of keys 0x0 .. 0xE is
      down, VX receives the lowest of them and nothing else changes; if none
      of them is down, only PC changes, whatever key F does. */
  lemma WaitKeyResult(m: Machine, x: Nibble)
    requires WellFormed(m)
    ensures var r := WaitKey(m, x);
      && r.PC == Add16(m.PC, -2)
      && ((exists k :: 0 <= k < DeclaredKeyCount && m.keypad[k]) ==>
          r.V[x] < DeclaredKeyCount && m.keypad[r.V[x]]
          && (forall k :: 0 <= k < r.V[x] ==> !m.keypad[k])
          && r == m.(PC := r.PC, V := m.V[x := r.V[x]]))
      && ((forall k :: 0 <= k < DeclaredKeyCount ==> !m.keypad[k]) ==> r == m.(PC := r.PC))
  {
    var k := FirstPressed(m.keypad, 0, DeclaredKeyCount);
    if k.None? {
      assert forall j :: 0 <= j < DeclaredKeyCount ==> !m.keypad[j];
    }
  }

  /** An FX0A step leaves PC on the FX0A itself; while none of keys
      0x0 .. 0xE is down it changes nothing at all. */
  lemma WaitKeyStays(m: Machine, rnd: Byte)
    requires Defined(m) && InstAt(m).Op() == 0xF && InstAt(m).NN == 0x0A
    ensures Exec(m, rnd).PC == m.PC
    ensures (forall k :: 0 <= k < DeclaredKeyCount ==> !m.keypad[k]) ==> Exec(m, rnd) == m
  {
    var a := Advance(m);
    ExecWaitKey(m, rnd);
    WaitKeyResult(a, InstAt(m).X);
    assert Add16(a.PC, -2) == m.PC;
  }

  /** An FX0A step is WaitKey on the advanced state. */
  lemma ExecWaitKey(m: Machine, rnd: Byte)
    requires Defined(m) && InstAt(m).Op() == 0xF && InstAt(m).NN == 0x0A
    ensures Exec(m, rnd) == WaitKey(Advance(m), InstAt(m).X)
  {
  }

  /** Repeating an FX0A step with the keypad unchanged changes nothing more:
      the interpreter waits on the same instruction. */
  lemma WaitKeyIdempotent(m: Machine, rnd1: Byte, rnd2: Byte)
    requires Defined(m) && InstAt(m).Op() == 0xF && InstAt(m).NN == 0x0A
    ensures Defined(Exec(m, rnd1)) && Exec(Exec(m, rnd1), rnd2) == Exec(m, rnd1)
  {
    var x := InstAt(m).X;
    ExecWaitKey(m, rnd1);
    var m1 := WaitKey(Advance(m), x);
    WaitKeyResult(Advance(m), x);
    assert m1.PC == m.PC && m1.ram == m.ram && m1.keypad == m.keypad;
    assert Fetch(m1) == Fetch(m);
    assert Defined(m1);
    ExecWaitKey(m1, rnd2);
    WaitKeyResult(Advance(m1), x);
  }

  // --------------------------------------------------------------- timers

  /** k calls of update_timers. */
  function Ticks(m: Machine, k: nat): Machine
    decreases k
  {
    if k == 0 then m else TickTimers(Ticks(m, k - 1))
  }

  /** Each timer goes down by one per tick until it reaches 0, and nothing
      else changes. */
  lemma {:induction false} TicksCountDown(m: Machine, k: nat)
    ensures Ticks(m, k).delayTimer == if m.delayTimer > k then m.delayTimer - k else 0
    ensures Ticks(m, k).soundTimer == if m.soundTimer > k then m.soundTimer - k else 0
    ensures Ticks(m, k) == m.(delayTimer := Ticks(m, k).delayTimer, soundTimer := Ticks(m, k).soundTimer)
  {
    if k > 0 {
      TicksCountDown(m, k - 1);
    }
  }

  /** FX18 with value v makes the tone play for exactly the next v ticks. */
  lemma ToneLasts(m: Machine, k: nat)
    ensures ToneOn(Ticks(m, k)) <==> k < m.soundTimer
  {
    TicksCountDown(m, k);
  }

  // ----------------------------------------------------------------- frame

  /** Running a + b steps is running a steps and then b more. */
  lemma {:induction false} RunAppend(m: Machine, a: seq<Byte>, b: seq<Byte>)
    ensures Run(m, a + b) == if Run(m, a).Some? then Run(Run(m, a).value, b) else None
    decreases |a|
  {
    if a == [] {
      assert a + b == b;
    } else {
      assert (a + b)[0] == a[0] && (a + b)[1..] == a[1..] + b;
      if Defined(m) {
        var m1 := Exec(m, a[0]);
        assert Run(m, a + b) == Run(m1, a[1..] + b);
        assert Run(m, a) == Run(m1, a[1..]);
        RunAppend(m1, a[1..], b);
      }
    }
  }

  /** A ROM whose first instruction is 6005 (V0 := 5): after one step V0 is 5
      and PC is at the next instruction. */
  lemma FirstStep(rom: seq<Byte>, rnd: Byte)
    requires 2 <= |rom| <= MaxRomSize && rom[0] == 0x60 && rom[1] == 0x05
    ensures Defined(Initial(rom))
    ensures Exec(Initial(rom), rnd).PC == 0x202 && Exec(Initial(rom), rnd).V[0] == 5
  {
    InitialLayout(rom);
    var m := Initial(rom);
    assert m.ram[ProgramStart] == 0x60 && m.ram[ProgramStart + 1] == 0x05;
    assert Fetch(m) == 0x6005;
  }
}
