/** The gamepad application: the 2-bit D-pad mode and the 1-bit table
    selector kept in `flags`, the table-driven translation of the eight
    physical buttons and the D-pad into an input report, and the two
    hold-to-switch gestures. Button levels and the Timer0 tick flag are
    hardware inputs and come in as parameters. */
module DeviceGamepad {
  import Mapping

  // ---------------------------------------------------------------------
  // Usages and the two button bytes

  /** Index of one of the two button bytes. */
  type ButtonByte = i: nat | i < 2

  /** usageByte[u]: the report byte usage `u` lives in; index 0 is unused. */
  const USAGE_BYTE: seq<ButtonByte> := [0, 0, 0, 0, 0, 0, 0, 0, 0, 1, 1, 1, 1, 1, 1]
  /** usageMask[u]: the bit usage `u` sets in that byte. */
  const USAGE_MASK: seq<bv8> :=
    [0x00, 0x01, 0x02, 0x04, 0x08, 0x10, 0x20, 0x40, 0x80, 0x01, 0x02, 0x04, 0x08, 0x10, 0x20]
  /** Usages 1..14 are defined; 0 and 15 and above are ignored. */
  const USAGE_COUNT: nat := 15

  /** Usage `u` names a report bit. */
  predicate Defined(u: bv8)
  {
    0 < u as int < USAGE_COUNT
  }

  /** The byte test the loop makes, `!usage || usage >= 15`, rejects
      exactly the undefined usages. */
  lemma DefinedTest(u: bv8)
    ensures !(u == 0 || u >= 15) <==> Defined(u)
  {
  }

  /** The single-bit mask 1 << k of a byte. */
  function BitMask(k: nat): bv8
  {
    if k == 0 then 0x01 else if k == 1 then 0x02 else if k == 2 then 0x04 else if k == 3 then 0x08
    else if k == 4 then 0x10 else if k == 5 then 0x20 else if k == 6 then 0x40 else if k == 7 then 0x80
    else 0x00
  }

  /** The byte a defined usage lives in: usages 1..8 in byte 0, 9..14 in byte 1. */
  function UsageByte(u: nat): ButtonByte
  {
    if u < 9 then 0 else 1
  }

  /** The bit a defined usage sets: bit u-1 of byte 0, or bit u-9 of byte 1. */
  function UsageMask(u: nat): bv8
    requires 0 < u
  {
    if u < 9 then BitMask(u - 1) else BitMask(u - 9)
  }

  /** The two tables encode exactly that layout. */
  lemma UsageLayout(u: nat)
    requires 0 < u < USAGE_COUNT
    ensures USAGE_BYTE[u] == UsageByte(u) && USAGE_MASK[u] == UsageMask(u)
  {
    if u == 1 {} else if u == 2 {} else if u == 3 {} else if u == 4 {} else if u == 5 {}
    else if u == 6 {} else if u == 7 {} else if u == 8 {} else if u == 9 {} else if u == 10 {}
    else if u == 11 {} else if u == 12 {} else if u == 13 {} else {}
  }

  lemma BitMasksDisjoint(a: nat, b: nat)
    requires a < 8 && b < 8 && BitMask(a) & BitMask(b) != 0
    ensures a == b
  {
  }

  /** No two defined usages share a bit. */
  lemma MaskUnique(u: nat, w: nat)
    requires 0 < u < USAGE_COUNT && 0 < w < USAGE_COUNT
    requires UsageByte(u) == UsageByte(w) && UsageMask(u) & UsageMask(w) != 0
    ensures u == w
  {
    if u < 9 {
      BitMasksDisjoint(u - 1, w - 1);
    } else {
      BitMasksDisjoint(u - 9, w - 9);
    }
  }

  /** The loop counter over the physical buttons does not wrap. */
  lemma NextButton(phys: bv8)
    requires phys < 8
    ensures (phys + 1) as int == phys as int + 1
  {
  }

  /** The levels of the twelve buttons, as BUTTON_IsPressed reports them. */
  datatype Buttons = Buttons(
    a: bool, b: bool, x: bool, y: bool, tl: bool, tr: bool, start: bool, select: bool,
    up: bool, down: bool, left: bool, right: bool)

  /** isPhysPressed: the hardware button behind each physical index; an
      index past the eight buttons never reads pressed. */
  function IsPhysPressed(b: Buttons, phys: int): (pressed: bool)
    ensures pressed ==> 0 <= phys < Mapping.NUM_BUTTONS
  {
    if phys == Mapping.PHYS_BTN_A then b.a
    else if phys == Mapping.PHYS_BTN_B then b.b
    else if phys == Mapping.PHYS_BTN_X then b.x
    else if phys == Mapping.PHYS_BTN_Y then b.y
    else if phys == Mapping.PHYS_BTN_L then b.tl
    else if phys == Mapping.PHYS_BTN_R then b.tr
    else if phys == Mapping.PHYS_BTN_START then b.start
    else if phys == Mapping.PHYS_BTN_SELECT then b.select
    else false
  }

  /** Each of the eight indices reads its own button: what the indices
      read determines all eight buttons. */
  lemma PhysIndicesDistinct(b1: Buttons, b2: Buttons)
    requires forall p :: 0 <= p < Mapping.NUM_BUTTONS ==> IsPhysPressed(b1, p) == IsPhysPressed(b2, p)
    ensures b1.a == b2.a && b1.b == b2.b && b1.x == b2.x && b1.y == b2.y
    ensures b1.tl == b2.tl && b1.tr == b2.tr && b1.start == b2.start && b1.select == b2.select
  {
    assert IsPhysPressed(b1, Mapping.PHYS_BTN_A) == IsPhysPressed(b2, Mapping.PHYS_BTN_A);
    assert IsPhysPressed(b1, Mapping.PHYS_BTN_B) == IsPhysPressed(b2, Mapping.PHYS_BTN_B);
    assert IsPhysPressed(b1, Mapping.PHYS_BTN_X) == IsPhysPressed(b2, Mapping.PHYS_BTN_X);
    assert IsPhysPressed(b1, Mapping.PHYS_BTN_Y) == IsPhysPressed(b2, Mapping.PHYS_BTN_Y);
    assert IsPhysPressed(b1, Mapping.PHYS_BTN_L) == IsPhysPressed(b2, Mapping.PHYS_BTN_L);
    assert IsPhysPressed(b1, Mapping.PHYS_BTN_R) == IsPhysPressed(b2, Mapping.PHYS_BTN_R);
    assert IsPhysPressed(b1, Mapping.PHYS_BTN_START) == IsPhysPressed(b2, Mapping.PHYS_BTN_START);
    assert IsPhysPressed(b1, Mapping.PHYS_BTN_SELECT) == IsPhysPressed(b2, Mapping.PHYS_BTN_SELECT);
  }

  /** The table App_DeviceGamepadAct looks usages up in: the normal table
      for selector 0, the special one for 1. */
  function Usages(record: seq<bv8>, mode: bv1): (t: seq<bv8>)
    requires |record| == Mapping.MAP_SIZE
    ensures |t| == Mapping.NUM_BUTTONS
  {
    if mode == 0 then Mapping.NormalTable(record) else Mapping.SpecialTable(record)
  }

  /** Physical button `p` contributes a bit. */
  predicate Contributes(b: Buttons, table: seq<bv8>, p: int)
    requires |table| == Mapping.NUM_BUTTONS && 0 <= p < Mapping.NUM_BUTTONS
  {
    IsPhysPressed(b, p) && Defined(table[p])
  }

  /** One step of the loop, val[usageByte[u]] |= usageMask[u], written
      with the layout UsageLayout proves the tables hold. */
  function SetUsage(v: seq<bv8>, u: nat): (w: seq<bv8>)
    requires |v| == 2 && 0 < u
    ensures |w| == 2
  {
    v[UsageByte(u) := v[UsageByte(u)] | UsageMask(u)]
  }

  /** The two button bytes after the loop has looked at buttons 0..n-1. */
  function Bitmap(b: Buttons, table: seq<bv8>, n: nat): (v: seq<bv8>)
    requires |table| == Mapping.NUM_BUTTONS && n <= Mapping.NUM_BUTTONS
    ensures |v| == 2
  {
    if n == 0 then [0, 0]
    else if Contributes(b, table, n - 1) then SetUsage(Bitmap(b, table, n - 1), table[n - 1] as int)
    else Bitmap(b, table, n - 1)
  }

  /** The usages the pressed buttons among the first `n` select. */
  function SelectedUsages(b: Buttons, table: seq<bv8>, n: nat): (s: set<nat>)
    requires |table| == Mapping.NUM_BUTTONS && n <= Mapping.NUM_BUTTONS
    ensures forall u :: u in s <==> exists p :: 0 <= p < n && Contributes(b, table, p) && table[p] as int == u
    ensures forall u :: u in s ==> 0 < u < USAGE_COUNT
  {
    set p | 0 <= p < n && Contributes(b, table, p) :: table[p] as int
  }

  /** A selected, defined usage. */
  predicate Has(s: set<nat>, u: nat)
  {
    u in s && 0 < u < USAGE_COUNT
  }

  /** The byte holding usages base..base+7: bit j is set when usage
      base+j is selected. */
  function ByteOf(s: set<nat>, base: nat): bv8
  {
    (if Has(s, base) then 0x01 else 0) | (if Has(s, base + 1) then 0x02 else 0)
    | (if Has(s, base + 2) then 0x04 else 0) | (if Has(s, base + 3) then 0x08 else 0)
    | (if Has(s, base + 4) then 0x10 else 0) | (if Has(s, base + 5) then 0x20 else 0)
    | (if Has(s, base + 6) then 0x40 else 0) | (if Has(s, base + 7) then 0x80 else 0)
  }

  /** The reference encoding of a set of usages as the two button bytes:
      usage u is bit u-1 of the little-endian pair. */
  function Encode(s: set<nat>): (v: seq<bv8>)
    ensures |v| == 2
  {
    [ByteOf(s, 1), ByteOf(s, 9)]
  }

  /** Bit j of the byte is the membership of usage base+j. */
  lemma ByteBit(s: set<nat>, base: nat, j: nat, u: nat)
    requires j < 8 && u == base + j
    ensures ByteOf(s, base) & BitMask(j) != 0 <==> Has(s, u)
  {
    if j == 0 {} else if j == 1 {} else if j == 2 {} else if j == 3 {}
    else if j == 4 {} else if j == 5 {} else if j == 6 {} else {}
  }

  /** Adding usage base+j sets bit j of the byte. */
  lemma ByteAdd(s: set<nat>, base: nat, j: nat, u: nat)
    requires j < 8 && u == base + j && 0 < u < USAGE_COUNT
    ensures ByteOf(s + {u}, base) == ByteOf(s, base) | BitMask(j)
  {
    if j == 0 {} else if j == 1 {} else if j == 2 {} else if j == 3 {}
    else if j == 4 {} else if j == 5 {} else if j == 6 {} else {}
  }

  /** Adding a usage outside base..base+7 leaves the byte alone. */
  lemma ByteAddOther(s: set<nat>, base: nat, u: nat)
    requires u < base || base + 8 <= u
    ensures ByteOf(s + {u}, base) == ByteOf(s, base)
  {
    var t := s + {u};
    assert Has(t, base) == Has(s, base) && Has(t, base + 1) == Has(s, base + 1);
    assert Has(t, base + 2) == Has(s, base + 2) && Has(t, base + 3) == Has(s, base + 3);
    assert Has(t, base + 4) == Has(s, base + 4) && Has(t, base + 5) == Has(s, base + 5);
    assert Has(t, base + 6) == Has(s, base + 6) && Has(t, base + 7) == Has(s, base + 7);
  }

  lemma EncodeAddLow(s: set<nat>, u: nat)
    requires 0 < u < 9
    ensures Encode(s + {u}) == [ByteOf(s, 1) | BitMask(u - 1), ByteOf(s, 9)]
  {
    ByteAdd(s, 1, u - 1, u);
    ByteAddOther(s, 9, u);
  }

  lemma EncodeAddHigh(s: set<nat>, u: nat)
    requires 9 <= u < USAGE_COUNT
    ensures Encode(s + {u}) == [ByteOf(s, 1), ByteOf(s, 9) | BitMask(u - 9)]
  {
    ByteAdd(s, 9, u - 9, u);
    ByteAddOther(s, 1, u);
  }

  /** Adding a usage to the set is one step of the loop on its encoding. */
  lemma EncodeAdd(s: set<nat>, u: nat)
    requires 0 < u < USAGE_COUNT
    ensures Encode(s + {u}) == SetUsage(Encode(s), u)
  {
    if u < 9 {
      EncodeAddLow(s, u);
    } else {
      EncodeAddHigh(s, u);
    }
  }

  /** Looking at one more button adds its usage, if it contributes one. */
  lemma SelectedStep(b: Buttons, table: seq<bv8>, n: nat)
    requires |table| == Mapping.NUM_BUTTONS && 0 < n <= Mapping.NUM_BUTTONS
    ensures SelectedUsages(b, table, n) ==
      if Contributes(b, table, n - 1) then SelectedUsages(b, table, n - 1) + {table[n - 1] as int}
      else SelectedUsages(b, table, n - 1)
  {
  }

  /** Bitmap is the encoding of the usages selected so far. */
  lemma {:induction false} BitmapEncodes(b: Buttons, table: seq<bv8>, n: nat)
    requires |table| == Mapping.NUM_BUTTONS && n <= Mapping.NUM_BUTTONS
    ensures Bitmap(b, table, n) == Encode(SelectedUsages(b, table, n))
  {
    if n == 0 {
      assert SelectedUsages(b, table, 0) == {};
      assert ByteOf({}, 1) == 0 && ByteOf({}, 9) == 0;
    } else {
      BitmapEncodes(b, table, n - 1);
      SelectedStep(b, table, n);
      if Contributes(b, table, n - 1) {
        EncodeAdd(SelectedUsages(b, table, n - 1), table[n - 1] as int);
      }
    }
  }

  lemma EncodeBitLow(s: set<nat>, u: nat)
    requires 0 < u < 9
    ensures Encode(s)[UsageByte(u)] & UsageMask(u) != 0 <==> u in s
  {
    assert UsageByte(u) == 0 && UsageMask(u) == BitMask(u - 1);
    ByteBit(s, 1, u - 1, u);
  }

  lemma EncodeBitHigh(s: set<nat>, u: nat)
    requires 9 <= u < USAGE_COUNT
    ensures Encode(s)[UsageByte(u)] & UsageMask(u) != 0 <==> u in s
  {
    assert UsageByte(u) == 1 && UsageMask(u) == BitMask(u - 9);
    ByteBit(s, 9, u - 9, u);
  }

  /** The bit of usage `u` in the encoding is set exactly when `u` is in the set. */
  lemma EncodeBit(s: set<nat>, u: nat)
    requires 0 < u < USAGE_COUNT
    ensures Encode(s)[UsageByte(u)] & UsageMask(u) != 0 <==> u in s
  {
    if u < 9 {
      EncodeBitLow(s, u);
    } else {
      EncodeBitHigh(s, u);
    }
  }

  /** Bits 6 and 7 of the second byte are never set. */
  lemma EncodeHighBitsClear(s: set<nat>)
    ensures Encode(s)[1] & 0xC0 == 0
  {
  }

  /** Equal bytes decode to the same set of defined usages. */
  lemma EncodeInjective(s: set<nat>, t: set<nat>)
    requires forall u :: u in s ==> 0 < u < USAGE_COUNT
    requires forall u :: u in t ==> 0 < u < USAGE_COUNT
    requires Encode(s) == Encode(t)
    ensures s == t
  {
    forall u | u in s
      ensures u in t
    {
      EncodeBit(s, u);
      EncodeBit(t, u);
    }
    forall u | u in t
      ensures u in s
    {
      EncodeBit(s, u);
      EncodeBit(t, u);
    }
  }

  /** After all eight buttons, usage `u`'s bit is set exactly when some
      pressed button maps to `u`. */
  lemma BitmapBit(b: Buttons, table: seq<bv8>, u: nat)
    requires |table| == Mapping.NUM_BUTTONS && 0 < u < USAGE_COUNT
    ensures Bitmap(b, table, Mapping.NUM_BUTTONS)[UsageByte(u)] & UsageMask(u) != 0
      <==> exists p :: 0 <= p < Mapping.NUM_BUTTONS && IsPhysPressed(b, p) && table[p] as int == u
  {
    BitmapEncodes(b, table, Mapping.NUM_BUTTONS);
    EncodeBit(SelectedUsages(b, table, Mapping.NUM_BUTTONS), u);
    if exists p :: 0 <= p < Mapping.NUM_BUTTONS && IsPhysPressed(b, p) && table[p] as int == u {
      var p :| 0 <= p < Mapping.NUM_BUTTONS && IsPhysPressed(b, p) && table[p] as int == u;
      assert Contributes(b, table, p);
    }
  }

  /** Bits 6 and 7 of the second button byte are never set. */
  lemma BitmapHighBitsClear(b: Buttons, table: seq<bv8>)
    requires |table| == Mapping.NUM_BUTTONS
    ensures Bitmap(b, table, Mapping.NUM_BUTTONS)[1] & 0xC0 == 0
  {
    BitmapEncodes(b, table, Mapping.NUM_BUTTONS);
    EncodeHighBitsClear(SelectedUsages(b, table, Mapping.NUM_BUTTONS));
  }

  /** The button bytes depend only on which usages are selected: not on
      which buttons select them, how many do, or the loop's order; and two
      selections that give the same bytes are the same selection. */
  lemma BitmapDependsOnUsagesOnly(b1: Buttons, t1: seq<bv8>, b2: Buttons, t2: seq<bv8>)
    requires |t1| == Mapping.NUM_BUTTONS && |t2| == Mapping.NUM_BUTTONS
    ensures Bitmap(b1, t1, Mapping.NUM_BUTTONS) == Bitmap(b2, t2, Mapping.NUM_BUTTONS)
      <==> SelectedUsages(b1, t1, Mapping.NUM_BUTTONS) == SelectedUsages(b2, t2, Mapping.NUM_BUTTONS)
  {
    BitmapEncodes(b1, t1, Mapping.NUM_BUTTONS);
    BitmapEncodes(b2, t2, Mapping.NUM_BUTTONS);
    var s1, s2 := SelectedUsages(b1, t1, Mapping.NUM_BUTTONS), SelectedUsages(b2, t2, Mapping.NUM_BUTTONS);
    if Encode(s1) == Encode(s2) {
      EncodeInjective(s1, s2);
    }
  }

  /** A button that contributes nothing, because it is not pressed or its
      entry is 0 or 15 and above, can have its entry replaced by any other
      such entry without changing the report. */
  lemma IgnoredEntry(b: Buttons, table: seq<bv8>, p: nat, e: bv8)
    requires |table| == Mapping.NUM_BUTTONS && p < Mapping.NUM_BUTTONS
    requires !Contributes(b, table, p) && !Contributes(b, table[p := e], p)
    ensures Bitmap(b, table, Mapping.NUM_BUTTONS) == Bitmap(b, table[p := e], Mapping.NUM_BUTTONS)
  {
    var t := table[p := e];
    forall q | 0 <= q < Mapping.NUM_BUTTONS && q != p
      ensures Contributes(b, table, q) == Contributes(b, t, q) && table[q] == t[q]
    {
    }
    var s1, s2 := SelectedUsages(b, table, Mapping.NUM_BUTTONS), SelectedUsages(b, t, Mapping.NUM_BUTTONS);
    forall u
      ensures u in s1 <==> u in s2
    {
      if u in s1 {
        var q :| 0 <= q < Mapping.NUM_BUTTONS && Contributes(b, table, q) && table[q] as int == u;
        assert Contributes(b, t, q) && t[q] as int == u;
      }
      if u in s2 {
        var q :| 0 <= q < Mapping.NUM_BUTTONS && Contributes(b, t, q) && t[q] as int == u;
        assert Contributes(b, table, q) && table[q] as int == u;
      }
    }
    assert s1 == s2;
    BitmapDependsOnUsagesOnly(b, table, b, t);
  }

  // ---------------------------------------------------------------------
  // The directional fields

  /** The hat switch field; HAT_SWITCH_NULL is 8. */
  datatype Hat = North | NorthEast | East | SouthEast | South | SouthWest | West | NorthWest | Null

  /** The report fields the D-pad drives. */
  datatype Directional = Directional(hat: Hat, x: bv8, y: bv8, z: bv8, rz: bv8)

  const CENTER: bv8 := 0x80
  const NEUTRAL := Directional(Null, CENTER, CENTER, CENTER, CENTER)

  /** One axis from a pair of opposite buttons: the negative one wins. */
  function Axis(neg: bool, pos: bool): bv8
  {
    if neg then 0x00 else if pos then 0xFF else CENTER
  }

  /** The hat value: diagonals first, then N, E, S, W, else NULL. */
  function HatOf(up: bool, down: bool, left: bool, right: bool): Hat
  {
    if up && left then NorthWest
    else if up && right then NorthEast
    else if down && left then SouthWest
    else if down && right then SouthEast
    else if up then North
    else if right then East
    else if down then South
    else if left then West
    else Null
  }

  /** The directional fields for crosskey mode `mode`: 0 analog X/Y,
      1 hat switch, 2 Z/Rz, 3 (no case in the switch) all neutral. */
  function Directions(mode: bv2, b: Buttons): (d: Directional)
  {
    if mode == 0 then NEUTRAL.(x := Axis(b.left, b.right), y := Axis(b.up, b.down))
    else if mode == 1 then NEUTRAL.(hat := HatOf(b.up, b.down, b.left, b.right))
    else if mode == 2 then NEUTRAL.(z := Axis(b.left, b.right), rz := Axis(b.up, b.down))
    else NEUTRAL
  }

  /** The compass vector of a hat value: east and north positive. */
  function HatVector(h: Hat): (int, int)
  {
    match h
    case North => (0, 1)
    case NorthEast => (1, 1)
    case East => (1, 0)
    case SouthEast => (1, -1)
    case South => (0, -1)
    case SouthWest => (-1, -1)
    case West => (-1, 0)
    case NorthWest => (-1, 1)
    case Null => (0, 0)
  }

  /** The direction an axis value points: 0x00 negative, 0xFF positive. */
  function AxisSign(a: bv8): int
  {
    if a == 0x00 then -1 else if a == 0xFF then 1 else 0
  }

  /** The three modes report the same direction, except that the hat lets
      right win over left when neither up nor down is held, while the axes
      let left win. */
  lemma DirectionsAgree(b: Buttons)
    ensures AxisSign(Directions(0, b).x) == AxisSign(Directions(2, b).z)
    ensures AxisSign(Directions(0, b).y) == AxisSign(Directions(2, b).rz)
    ensures !(b.left && b.right && !b.up && !b.down) ==>
      HatVector(Directions(1, b).hat) == (AxisSign(Directions(0, b).x), -AxisSign(Directions(0, b).y))
    ensures b.left && b.right && !b.up && !b.down ==>
      Directions(1, b).hat == East && Directions(0, b).x == 0x00
  {
  }

  /** The D-pad presses that produce each hat value. */
  function Presses(h: Hat): (bool, bool, bool, bool)
  {
    var (dx, dy) := HatVector(h);
    (dy > 0, dy < 0, dx < 0, dx > 0)
  }

  /** Every hat value is produced by exactly its own presses, and every
      input without an opposite pair is recovered from its hat value:
      the nine possible inputs and the nine values are in one-to-one
      correspondence. */
  lemma HatBijective(h: Hat, up: bool, down: bool, left: bool, right: bool)
    ensures var (u, d, l, r) := Presses(h); HatOf(u, d, l, r) == h
    ensures !(up && down) && !(left && right) ==> Presses(HatOf(up, down, left, right)) == (up, down, left, right)
    ensures HatOf(up, down, left, right) == Null <==> !up && !down && !left && !right
  {
  }

  // ---------------------------------------------------------------------
  // The hold-to-switch gestures

  /** What one evaluation of a button condition sees: the levels of the
      three buttons involved and the Timer0 tick flag at that moment. */
  datatype Sample = Sample(start: bool, tl: bool, tr: bool, tick: bool)

  /** Start+R switches the table; Start+L advances the crosskey mode. */
  datatype Combo = StartR | StartL

  predicate Held(c: Combo, x: Sample)
  {
    match c
    case StartR => x.start && x.tr
    case StartL => x.start && x.tl
  }

  /** Ticks the routine must count while the pair is held. */
  const HOLD_TICKS: nat := 250

  /** Where the routine is when it next evaluates the button condition:
      the counting loop with `count` ticks so far, or the wait for release
      after a switch. */
  datatype Phase = Holding(count: nat) | Releasing

  /** The number of switches the routine makes from phase `p` on the
      samples `s`; the end of the trace reads as released. */
  function Run(c: Combo, p: Phase, s: seq<Sample>): nat
    decreases |s|
  {
    if |s| == 0 then 0
    else
      match p
      case Holding(n) =>
        if !Held(c, s[0]) then 0
        else if s[0].tick && n + 1 >= HOLD_TICKS then 1 + Run(c, Releasing, s[1..])
        else Run(c, Holding(if s[0].tick then n + 1 else n), s[1..])
      case Releasing =>
        if Held(c, s[0]) then Run(c, Releasing, s[1..]) else Run(c, Holding(0), s[1..])
  }

  /** The number of switches one call makes: none unless the pair is held
      at entry. */
  function Gesture(c: Combo, s: seq<Sample>): nat
  {
    if |s| == 0 || !Held(c, s[0]) then 0 else Run(c, Holding(0), s[1..])
  }

  /** The samples on which the pair is held and the tick flag is set. */
  function HeldTicks(c: Combo, s: seq<Sample>): nat
  {
    if |s| == 0 then 0 else (if Held(c, s[0]) && s[0].tick then 1 else 0) + HeldTicks(c, s[1..])
  }

  /** Every switch is paid for by 250 held ticks. */
  lemma {:induction false} RunNeedsTicks(c: Combo, p: Phase, s: seq<Sample>)
    requires p.Holding? ==> p.count < HOLD_TICKS
    ensures HOLD_TICKS * Run(c, p, s) <= (if p.Holding? then p.count else 0) + HeldTicks(c, s)
    decreases |s|
  {
    if |s| > 0 {
      match p
      case Holding(n) =>
        if Held(c, s[0]) {
          if s[0].tick && n + 1 >= HOLD_TICKS {
            RunNeedsTicks(c, Releasing, s[1..]);
          } else {
            RunNeedsTicks(c, Holding(if s[0].tick then n + 1 else n), s[1..]);
          }
        }
      case Releasing =>
        if Held(c, s[0]) {
          RunNeedsTicks(c, Releasing, s[1..]);
        } else {
          RunNeedsTicks(c, Holding(0), s[1..]);
        }
    }
  }

  /** A call switches at most once per 250 held ticks, so a release before
      250 ticks changes nothing. */
  lemma GestureNeedsTicks(c: Combo, s: seq<Sample>)
    ensures HOLD_TICKS * Gesture(c, s) <= HeldTicks(c, s)
    ensures HeldTicks(c, s) < HOLD_TICKS ==> Gesture(c, s) == 0
  {
    if |s| > 0 && Held(c, s[0]) {
      RunNeedsTicks(c, Holding(0), s[1..]);
    }
  }

  /** The pair held with the tick flag set on every sample. */
  predicate Ticking(c: Combo, s: seq<Sample>)
  {
    forall i :: 0 <= i < |s| ==> Held(c, s[i]) && s[i].tick
  }

  lemma {:induction false} RunFires(c: Combo, n: nat, s: seq<Sample>)
    requires n < HOLD_TICKS && HOLD_TICKS - n <= |s| && Ticking(c, s[..HOLD_TICKS - n])
    ensures Run(c, Holding(n), s) >= 1
    decreases HOLD_TICKS - n
  {
    assert Held(c, s[0]) && s[0].tick;
    if n + 1 < HOLD_TICKS {
      assert s[1..][..HOLD_TICKS - (n + 1)] == s[1..HOLD_TICKS - n];
      RunFires(c, n + 1, s[1..]);
    }
  }

  /** Holding the pair through 250 ticks at the start of the call switches. */
  lemma GestureFires(c: Combo, s: seq<Sample>)
    requires |s| > HOLD_TICKS && Held(c, s[0]) && Ticking(c, s[1..HOLD_TICKS + 1])
    ensures Gesture(c, s) >= 1
  {
    assert s[1..][..HOLD_TICKS] == s[1..HOLD_TICKS + 1];
    RunFires(c, 0, s[1..]);
  }

  /** The pair held on every sample. */
  predicate AllHeld(c: Combo, s: seq<Sample>)
  {
    forall i :: 0 <= i < |s| ==> Held(c, s[i])
  }

  lemma {:induction false} RunOncePerHold(c: Combo, p: Phase, s: seq<Sample>)
    requires AllHeld(c, s)
    ensures Run(c, p, s) <= (if p.Holding? then 1 else 0)
    decreases |s|
  {
    if |s| > 0 {
      assert AllHeld(c, s[1..]);
      match p
      case Holding(n) =>
        if s[0].tick && n + 1 >= HOLD_TICKS {
          RunOncePerHold(c, Releasing, s[1..]);
        } else {
          RunOncePerHold(c, Holding(if s[0].tick then n + 1 else n), s[1..]);
        }
      case Releasing =>
        RunOncePerHold(c, Releasing, s[1..]);
    }
  }

  /** Without a release, a call switches at most once however long the
      pair is held. */
  lemma GestureOncePerHold(c: Combo, s: seq<Sample>)
    requires AllHeld(c, s)
    ensures Gesture(c, s) <= 1
  {
    if |s| > 0 {
      assert AllHeld(c, s[1..]);
      RunOncePerHold(c, Holding(0), s[1..]);
    }
  }

  /** `sw_flag = ~sw_flag` applied `k` times. */
  function Toggled(f: bv1, k: nat): bv1
  {
    if k % 2 == 0 then f else !f
  }

  /** The crosskey switch: 0 -> 1 -> 2 -> 0; 3 has no case. */
  function Advance(f: bv2): bv2
  {
    if f == 0 then 1 else if f == 1 then 2 else if f == 2 then 0 else f
  }

  function Advanced(f: bv2, k: nat): bv2
  {
    if k == 0 then f else Advance(Advanced(f, k - 1))
  }

  /** The crosskey mode cycles through 0, 1, 2, and 3 stays 3. */
  lemma {:induction false} AdvancedCycles(f: bv2, k: nat)
    ensures f != 3 ==> Advanced(f, k) as int == (f as int + k) % 3
    ensures f == 3 ==> Advanced(f, k) == 3
  {
    if k > 0 {
      AdvancedCycles(f, k - 1);
    }
  }

  // ---------------------------------------------------------------------
  // The report and the application state

  /** INPUT_CONTROLS: the two button bytes and the directional fields. */
  class InputControls {
    const val: array<bv8>
    var hat: Hat
    var x: bv8
    var y: bv8
    var z: bv8
    var rz: bv8

    constructor ()
      ensures fresh(val) && val.Length == 2
    {
      val := new bv8[2];
    }

    function Fields(): Directional
      reads this
    {
      Directional(hat, x, y, z, rz)
    }
  }

  /** The `flags` bitfield and the record store Act reads its tables from. */
  class Gamepad {
    var crosskeyFlag: bv2
    var swFlag: bv1
    const store: Mapping.Store

    constructor (store: Mapping.Store)
      ensures this.store == store && crosskeyFlag == 0 && swFlag == 0
    {
      this.store := store;
      crosskeyFlag, swFlag := 0, 0;
    }

    /** App_DeviceGamepadInit. */
    method Init()
      modifies this`crosskeyFlag, this`swFlag
      ensures crosskeyFlag == 0 && swFlag == 0
    {
      crosskeyFlag := 0;
      swFlag := 0;
    }

    /** ChangeSWMode_Button_Start: while Start+R stays held, count ticks;
        at 250 flip the table selector, then wait for the release. One
        sample is consumed per evaluation of the button condition. */
    method ChangeSWModeButtonStart(samples: seq<Sample>)
      modifies this`swFlag
      ensures swFlag == Toggled(old(swFlag), Gesture(StartR, samples))
    {
      ghost var fired := 0;
      if |samples| > 0 && Held(StartR, samples[0]) {
        var i := 1;
        var cnt: nat := 0;
        while i < |samples| && Held(StartR, samples[i])
          invariant i <= |samples| && cnt < HOLD_TICKS
          invariant fired + Run(StartR, Holding(cnt), samples[i..]) == Gesture(StartR, samples)
          invariant swFlag == Toggled(old(swFlag), fired)
          decreases |samples| - i
        {
          var tick := samples[i].tick;
          i := i + 1;
          if tick {
            cnt := cnt + 1;
            if cnt >= HOLD_TICKS {
              swFlag := !swFlag;
              fired := fired + 1;
              cnt := 0;
              while i < |samples| && Held(StartR, samples[i])
                invariant i <= |samples|
                invariant fired + Run(StartR, Releasing, samples[i..]) == Gesture(StartR, samples)
                decreases |samples| - i
              {
                i := i + 1;
              }
              if i < |samples| {
                i := i + 1;
              }
            }
          }
        }
      }
    }

    /** ChangeSWMode_Button_Select: the same hold on Start+L advances the
        crosskey mode instead. */
    method ChangeSWModeButtonSelect(samples: seq<Sample>)
      modifies this`crosskeyFlag
      ensures crosskeyFlag == Advanced(old(crosskeyFlag), Gesture(StartL, samples))
    {
      ghost var fired := 0;
      if |samples| > 0 && Held(StartL, samples[0]) {
        var i := 1;
        var cnt: nat := 0;
        while i < |samples| && Held(StartL, samples[i])
          invariant i <= |samples| && cnt < HOLD_TICKS
          invariant fired + Run(StartL, Holding(cnt), samples[i..]) == Gesture(StartL, samples)
          invariant crosskeyFlag == Advanced(old(crosskeyFlag), fired)
          decreases |samples| - i
        {
          var tick := samples[i].tick;
          i := i + 1;
          if tick {
            cnt := cnt + 1;
            if cnt >= HOLD_TICKS {
              if crosskeyFlag == 0 {
                crosskeyFlag := 1;
              } else if crosskeyFlag == 1 {
                crosskeyFlag := 2;
              } else if crosskeyFlag == 2 {
                crosskeyFlag := 0;
              }
              fired := fired + 1;
              cnt := 0;
              while i < |samples| && Held(StartL, samples[i])
                invariant i <= |samples|
                invariant fired + Run(StartL, Releasing, samples[i..]) == Gesture(StartL, samples)
                decreases |samples| - i
              {
                i := i + 1;
              }
              if i < |samples| {
                i := i + 1;
              }
            }
          }
        }
      }
    }

    /** App_DeviceGamepadAct: zero the report, OR in the bit of every
        pressed button's usage from the active table, then fill the
        directional fields for the crosskey mode. */
    method Act(b: Buttons, input: InputControls)
      requires store.record.Length == Mapping.MAP_SIZE && input.val.Length == 2
      requires input.val != store.record
      modifies input, input.val
      ensures input.val[..] == Bitmap(b, Usages(store.record[..], swFlag), Mapping.NUM_BUTTONS)
      ensures input.Fields() == Directions(crosskeyFlag, b)
    {
      input.val[0], input.val[1] := 0, 0;
      SetButtons(b, input.val);
      SetDirections(b, input);
    }

    /** The table-driven loop over the eight physical buttons. */
    method SetButtons(b: Buttons, val: array<bv8>)
      requires store.record.Length == Mapping.MAP_SIZE && val.Length == 2 && val != store.record
      requires val[..] == [0, 0]
      modifies val
      ensures val[..] == Bitmap(b, Usages(store.record[..], swFlag), Mapping.NUM_BUTTONS)
    {
      ghost var table := Usages(store.record[..], swFlag);
      var phys: bv8 := 0;
      while phys < 8
        invariant phys <= 8 && val[..] == Bitmap(b, table, phys as int)
      {
        MapButton(b, val, phys, table, phys as int);
        NextButton(phys);
        phys := phys + 1;
      }
    }

    /** One pass of the loop body: skip an unpressed button or an undefined
        usage, otherwise set the usage's bit. `table` is the active table
        and `n` the button index as a number. */
    method MapButton(b: Buttons, val: array<bv8>, phys: bv8, ghost table: seq<bv8>, ghost n: nat)
      requires store.record.Length == Mapping.MAP_SIZE && val.Length == 2 && val != store.record
      requires table == Usages(store.record[..], swFlag) && n == phys as int < Mapping.NUM_BUTTONS
      requires val[..] == Bitmap(b, table, n)
      modifies val
      ensures val[..] == Bitmap(b, table, n + 1)
    {
      if IsPhysPressed(b, phys as int) {
        var usage := store.GetUsage(phys, swFlag as bv8);
        assert usage == table[n];
        DefinedTest(usage);
        if !(usage == 0 || usage >= 15) {
          SetBit(val, usage as int);
        }
      }
    }

    /** val[usageByte[u]] |= usageMask[u]. */
    static method SetBit(val: array<bv8>, u: nat)
      requires val.Length == 2 && 0 < u < USAGE_COUNT
      modifies val
      ensures val[..] == SetUsage(old(val[..]), u)
    {
      UsageLayout(u);
      var idx, mask := USAGE_BYTE[u], USAGE_MASK[u];
      val[idx] := val[idx] | mask;
    }

    /** The crosskey switch; every field starts neutral. */
    method SetDirections(b: Buttons, input: InputControls)
      modifies input
      ensures input.Fields() == Directions(crosskeyFlag, b)
    {
      input.hat := Null;
      input.x, input.y := CENTER, CENTER;
      input.z, input.rz := CENTER, CENTER;
      if crosskeyFlag == 0 {
        if b.left {
          input.x := 0x00;
        } else if b.right {
          input.x := 0xFF;
        }
        if b.up {
          input.y := 0x00;
        } else if b.down {
          input.y := 0xFF;
        }
      } else if crosskeyFlag == 1 {
        input.hat := HatOf(b.up, b.down, b.left, b.right);
      } else if crosskeyFlag == 2 {
        input.z := Axis(b.left, b.right);
        input.rz := Axis(b.up, b.down);
      }
    }
  }
}
