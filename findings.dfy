/** The register file and the keypad latch as emu.h declares them: V[0xF] and
    keypad[0xF], 15 slots each, while the code indexes both with 0x0 .. 0xF.
    The model gives V its 16 slots (Chip8State.RegisterCount), the flag
    register VF included; for the keypad it keeps the 16 latches that key
    events write but scans only the 15 declared ones in FX0A, as the code
    does. The lemmas here show where the declared sizes fall short, and the
    16-key scan the FX0A loop evidently means. */
module Chip8Findings {
  import opened Chip8State
  import opened Chip8Spec
  import opened Chip8Properties

  /** The registers an instruction assigns, read off execute_instruction. */
  function RegistersWritten(inst: Instruction): set<nat>
  {
    match inst.Op()
    case 0x6 => {inst.X}
    case 0x7 => {inst.X}
    case 0xC => {inst.X}
    case 0x8 =>
      if inst.N <= 0x3 then {inst.X}
      else if inst.N <= 0x7 || inst.N == 0xE then {inst.X, Flag}
      else {}
    case 0xD => {Flag}
    case 0xF =>
      if inst.NN == 0x07 || inst.NN == 0x0A then {inst.X}
      else if inst.NN == 0x65 then Below(inst.X)
      else {}
    case _ => {}
  }

  /** The indices 0 .. n-1. */
  function Below(n: nat): (r: set<nat>)
    ensures forall i :: i in r <==> 0 <= i < n
  {
    if n == 0 then {} else Below(n - 1) + {n - 1}
  }

  /** Every register outside RegistersWritten keeps its value. */
  lemma ExecFrame(m: Machine, rnd: Byte, i: nat)
    requires Defined(m) && i < RegisterCount && i !in RegistersWritten(InstAt(m))
    ensures Exec(m, rnd).V[i] == m.V[i]
  {
    var inst := InstAt(m);
    var a := Advance(m);
    assert Exec(m, rnd) == Dispatch(a, inst, rnd);
    if inst.Op() == 0x8 {
      AluFrame(a, inst.X, inst.Y, inst.N, i);
    } else if inst.Op() == 0xF {
      MiscFrame(a, inst.X, inst.NN, i);
    }
  }

  /** 8XYN assigns VX and, in the flag-setting cases, VF. */
  lemma AluFrame(m: Machine, x: Nibble, y: Nibble, n: Nibble, i: nat)
    requires WellFormed(m) && i < RegisterCount
    requires n <= 0x7 || n == 0xE ==> i != x
    requires n in {0x4, 0x5, 0x6, 0x7, 0xE} ==> i != Flag
    ensures Alu(m, x, y, n).V[i] == m.V[i]
  {
  }

  /** FXNN assigns VX (FX07, FX0A) or V0 .. V(X-1) (FX65). */
  lemma MiscFrame(m: Machine, x: Nibble, nn: Byte, i: nat)
    requires WellFormed(m) && i < RegisterCount
    requires nn == 0x33 ==> m.I + 3 <= RamSize
    requires nn == 0x55 || nn == 0x65 ==> x == 0 || m.I + x <= RamSize
    requires nn == 0x07 || nn == 0x0A ==> i != x
    requires nn == 0x65 ==> i >= x
    ensures Misc(m, x, nn).V[i] == m.V[i]
  {
    if nn == 0x65 && x != 0 {
      assert LoadRegs(m, x).V[i] == (m.ram[m.I..m.I + x] + m.V[x..])[i];
    }
  }

  /** 8XYN with X other than F: the value every flag-setting case leaves in
      VF, computed from the registers before the step. */
  lemma ExecAluFlag(m: Machine, rnd: Byte)
    requires Defined(m) && InstAt(m).Op() == 0x8 && InstAt(m).X != Flag
    ensures var inst, r := InstAt(m), Exec(m, rnd);
      var vx, vy := m.V[inst.X], m.V[inst.Y];
      && (inst.N == 0x4 ==> r.V[Flag] == if vx as int + vy > 0xFF then 1 else m.V[Flag])
      && (inst.N == 0x5 ==> r.V[Flag] == if vx >= vy then 1 else 0)
      && (inst.N == 0x6 ==> r.V[Flag] == vx % 2)
      && (inst.N == 0x7 ==> r.V[Flag] == if vy >= vx then 1 else 0)
      && (inst.N == 0xE ==> r.V[Flag] == vx / 0x80)
  {
    var inst, a := InstAt(m), Advance(m);
    assert Exec(m, rnd) == Alu(a, inst.X, inst.Y, inst.N);
    LowHighBits(m.V[inst.X]);
  }

  /** DXYN: VF is 1 exactly when a set sprite bit lands on a lit pixel, and 0
      otherwise. */
  lemma ExecDrawFlag(m: Machine, rnd: Byte)
    requires Defined(m) && InstAt(m).Op() == 0xD
    ensures var inst, r := InstAt(m), Exec(m, rnd);
      var x0, y0 := m.V[inst.X] % Width, m.V[inst.Y] % Height;
      var sprite, cols := SpriteData(m, SpriteRows(inst.N, y0)), SpriteCols(x0);
      && r.V[Flag] <= 1
      && (r.V[Flag] == 1 <==>
          exists row, c :: 0 <= row < |sprite| && 0 <= c < cols
            && SpriteHit(m.display, sprite, x0, y0, cols, row, c))
  {
    var inst, a := InstAt(m), Advance(m);
    var x0, y0 := m.V[inst.X] % Width, m.V[inst.Y] % Height;
    var sprite, cols := SpriteData(m, SpriteRows(inst.N, y0)), SpriteCols(x0);
    assert SpriteData(a, SpriteRows(inst.N, y0)) == sprite;
    assert Exec(m, rnd) == Draw(a, inst.X, inst.Y, inst.N);
    CollidesExists(m.display, sprite, x0, y0, cols, |sprite|);
  }

  /** With V declared as V[0xF], the flag is written one past the end of the
      array: 8014 with V0 = 0xFF, V1 = 1 and VF = 0 carries, so the step
      sets VF, register index 0xF, to 1 and leaves 0 in V0. */
  lemma FlagPastDeclaredV(m: Machine, rnd: Byte)
    requires Defined(m) && m.ram[m.PC] == 0x80 && m.ram[m.PC + 1] == 0x14
    requires m.V[0] == 0xFF && m.V[1] == 1 && m.V[Flag] == 0
    ensures Exec(m, rnd).V[Flag] == 1 && Flag >= DeclaredRegisterCount
    ensures Exec(m, rnd).V[0] == 0
  {
    FetchFields(m);
    ExecAluFlag(m, rnd);
    assert Exec(m, rnd) == Alu(Advance(m), 0, 1, 0x4);
  }

  /** FX0A as the loop evidently means it: the scan runs over all 16 keys,
      so the lowest pressed key of 0x0 .. 0xF goes to VX. */
  function WaitKeyAllKeys(m: Machine, x: Nibble): (r: Machine)
    requires WellFormed(m)
    ensures WellFormed(r) && r.PC == Add16(m.PC, -2)
    ensures r.V == m.V || (r.V == m.V[x := r.V[x]] && r.V[x] < KeyCount && m.keypad[r.V[x]])
  {
    var k := FirstPressed(m.keypad, 0, KeyCount);
    var f := if k.Some? then SetV(m, x, k.value) else m;
    f.(PC := Add16(m.PC, -2))
  }

  /** The 16-key scan: if any key is down VX receives the lowest one and
      nothing else but PC changes; if none is, only PC changes. */
  lemma WaitKeyAllKeysResult(m: Machine, x: Nibble)
    requires WellFormed(m)
    ensures var r := WaitKeyAllKeys(m, x);
      && ((exists k :: 0 <= k < KeyCount && m.keypad[k]) ==>
          r.V[x] < KeyCount && m.keypad[r.V[x]]
          && (forall k :: 0 <= k < r.V[x] ==> !m.keypad[k])
          && r == m.(PC := r.PC, V := m.V[x := r.V[x]]))
      && ((forall k :: 0 <= k < KeyCount ==> !m.keypad[k]) ==> r == m.(PC := r.PC))
  {
    var k := FirstPressed(m.keypad, 0, KeyCount);
    if k.None? {
      assert forall j :: 0 <= j < KeyCount ==> !m.keypad[j];
    }
  }

  /** With only key F held down, the FX0A step as written keeps waiting and
      changes nothing, while the 16-key scan stores F in VX. */
  lemma KeyFIgnored(m: Machine, rnd: Byte)
    requires Defined(m) && InstAt(m).Op() == 0xF && InstAt(m).NN == 0x0A
    requires m.keypad[0xF] && forall k :: 0 <= k < 0xF ==> !m.keypad[k]
    ensures Exec(m, rnd) == m
    ensures WaitKeyAllKeys(Advance(m), InstAt(m).X).V[InstAt(m).X] == 0xF
  {
    WaitKeyStays(m, rnd);
    WaitKeyAllKeysResult(Advance(m), InstAt(m).X);
  }
}
