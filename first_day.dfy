/** Day 1: a combination dial numbered 0..99, turned left or right by
    instructions such as "L68" or "R14". The dial counts how often it comes
    to rest on 0 and how often a click points at 0 during a rotation. */
module FirstDay {
  import opened Common

  datatype Direction = Left | Right

  datatype Instruction = Instruction(direction: Direction, distance: nat)

  /** The source's parsing errors, and `SlicePanic` for the panic of its
      byte slice `[0..1]`: on an empty line, and on a line whose first
      character takes more than one byte in UTF-8 (byte 1 is then not a
      character boundary). */
  datatype InstructionError =
    | InvalidDirection(got: string)
    | InvalidDistance
    | SlicePanic

  /** A character UTF-8 encodes in one byte. */
  predicate OneByte(c: char) { c <= '\U{7F}' }

  /** `RotationInstruction::new`: the first character is the direction, the
      rest a `usize` distance. */
  function ParseInstruction(s: string): (r: Result<Instruction, InstructionError>)
    ensures r == Err(SlicePanic) <==> |s| == 0 || !OneByte(s[0])
    ensures r.Err? && r.error.InvalidDirection? <==> |s| >= 1 && OneByte(s[0]) && s[0] != 'L' && s[0] != 'R'
    ensures r.Err? && r.error.InvalidDirection? ==> r.error.got == s[..1]
    ensures r.Err? && r.error.InvalidDistance? <==>
              |s| >= 1 && (s[0] == 'L' || s[0] == 'R') && ParseUnsigned(s[1..], USIZE_MAX).None?
    ensures r.Ok? ==> s[0] in "LR" && r.value.direction == (if s[0] == 'L' then Left else Right)
                      && Some(r.value.distance) == ParseUnsigned(s[1..], USIZE_MAX)
  {
    if |s| == 0 || !OneByte(s[0]) then Err(SlicePanic)
    else
      var direction :=
        if s[0] == 'L' then Ok(Left)
        else if s[0] == 'R' then Ok(Right)
        else Err(InvalidDirection(s[..1]));
      if direction.Err? then Err(direction.error)
      else
        match ParseUnsigned(s[1..], USIZE_MAX)
        case None => Err(InvalidDistance)
        case Some(d) => Ok(Instruction(direction.value, d))
  }

  /** The text form of an instruction, as the puzzle input writes it. */
  function FormatInstruction(ins: Instruction): string
  {
    [if ins.direction == Left then 'L' else 'R'] + NatToString(ins.distance)
  }

  /** Every instruction with a `usize` distance survives printing and parsing. */
  lemma ParseFormatRoundTrip(ins: Instruction)
    requires ins.distance <= USIZE_MAX
    ensures ParseInstruction(FormatInstruction(ins)) == Ok(ins)
  {
    var s := FormatInstruction(ins);
    assert s[1..] == NatToString(ins.distance);
    ParseUnsignedOfNatToString(ins.distance, USIZE_MAX);
  }

  // ---------------------------------------------------------------------
  // Fixed-width arithmetic of `rotate`

  /** `n as i16`: keeps the low 16 bits, read as two's complement. */
  function AsI16(n: nat): (r: int)
    ensures -0x8000 <= r <= I16_MAX
    ensures n <= I16_MAX ==> r == n
  {
    var low := n % 0x1_0000;
    if low <= I16_MAX then low else low - 0x1_0000
  }

  /** Rust's `a % 100` on integers: the remainder takes the sign of the
      dividend. */
  function RustRem100(a: int): (r: int)
    ensures -100 < r < 100
    ensures a >= 0 ==> r == a % 100
    ensures a <= 0 ==> r <= 0
  {
    if a >= 0 then a % 100 else -((-a) % 100)
  }

  /** The truncated remainder differs from the dividend by a multiple of 100. */
  lemma RemCongruent(a: int)
    ensures (RustRem100(a) - a) % 100 == 0
  {
    if a < 0 {
      var q := (-a) / 100;
      assert -a == 100 * q + (-a) % 100;
      assert RustRem100(a) - a == 100 * q;
    }
  }

  /** The `i16` position after adding or subtracting the distance. */
  function AbsolutePosition(position: nat, ins: Instruction): int
  {
    match ins.direction
    case Left => AsI16(position) - AsI16(ins.distance)
    case Right => AsI16(position) + AsI16(ins.distance)
  }

  /** What `rotate` needs to finish without an overflow panic: the
      subtraction or addition stays in `i16`, and `abs()` does not meet
      `i16::MIN`. */
  predicate RotationFits(position: nat, ins: Instruction)
  {
    -0x8000 < AbsolutePosition(position, ins) <= I16_MAX
  }

  datatype DialState = DialState(position: nat, landed: nat, passed: nat)

  /** The zero passings that `rotate` adds for one instruction. */
  function PassIncrement(position: nat, ins: Instruction): nat
  {
    var a := AbsolutePosition(position, ins);
    if a <= 0 then (if a < 0 then -a else a) / 100 + (if position != 0 then 1 else 0)
    else if a >= 100 then a / 100
    else 0
  }

  /** The effect of `Dial::rotate` on the three counters. */
  function Rotation(st: DialState, ins: Instruction): (r: DialState)
    ensures r.position < 100
    ensures r.landed == st.landed + (if r.position == 0 then 1 else 0)
    ensures r.passed == st.passed + PassIncrement(st.position, ins)
  {
    var a := AbsolutePosition(st.position, ins);
    var position := (100 + RustRem100(a)) % 100;
    DialState(position, st.landed + (if position == 0 then 1 else 0),
              st.passed + PassIncrement(st.position, ins))
  }

  class Dial {
    var position: nat
    var landed: nat
    var passed: nat

    function State(): DialState
      reads this
    {
      DialState(position, landed, passed)
    }

    /** `Dial::new`. */
    constructor(start: nat)
      ensures State() == DialState(start, 0, 0)
    {
      position := start;
      landed := 0;
      passed := 0;
    }

    /** `Dial::rotate`. */
    method Rotate(ins: Instruction)
      requires RotationFits(position, ins)
      modifies this
      ensures State() == Rotation(old(State()), ins)
    {
      var a := AbsolutePosition(position, ins);
      if a <= 0 {
        var passes: nat := (if a < 0 then -a else a) / 100;
        if position != 0 {
          passes := passes + 1;
        }
        passed := passed + passes;
      }
      if a >= 100 {
        passed := passed + a / 100;
      }
      position := (100 + RustRem100(a)) % 100;
      if position == 0 {
        landed := landed + 1;
      }
    }
  }

  // ---------------------------------------------------------------------
  // What the counters mean

  /** The dial reading `k` clicks into the rotation. */
  function Reading(position: nat, direction: Direction, k: nat): int
  {
    match direction
    case Left => (position - k) % 100
    case Right => (position + k) % 100
  }

  /** The number of clicks 1..d that point at 0. */
  function ZeroClicks(position: nat, direction: Direction, d: nat): nat
  {
    if d == 0 then 0
    else ZeroClicks(position, direction, d - 1) + (if Reading(position, direction, d) == 0 then 1 else 0)
  }

  /** Floor division by 100 steps up by one exactly at multiples of 100. */
  lemma DivStep(n: int)
    ensures n / 100 - (n - 1) / 100 == (if n % 100 == 0 then 1 else 0)
  {
    var q := n / 100;
    var r := n % 100;
    assert n == 100 * q + r;
    if r == 0 {
      assert n - 1 == 100 * (q - 1) + 99;
    } else {
      assert n - 1 == 100 * q + (r - 1);
    }
  }

  lemma {:induction false} ZeroClicksRight(p: nat, d: nat)
    ensures ZeroClicks(p, Right, d) == (p + d) / 100 - p / 100
  {
    if d > 0 {
      ZeroClicksRight(p, d - 1);
      DivStep(p + d);
    }
  }

  lemma {:induction false} ZeroClicksLeft(p: nat, d: nat)
    ensures ZeroClicks(p, Left, d) == (p - 1) / 100 - (p - d - 1) / 100
  {
    if d > 0 {
      ZeroClicksLeft(p, d - 1);
      DivStep(p - d);
    }
  }

  /** The passings counter of `rotate` counts exactly the clicks that point
      at 0, landing included, for a dial reading 0..99 and a distance that
      fits `i16`. */
  lemma PassIncrementCountsZeroClicks(p: nat, ins: Instruction)
    requires p < 100 && ins.distance <= I16_MAX
    requires RotationFits(p, ins)
    ensures PassIncrement(p, ins) == ZeroClicks(p, ins.direction, ins.distance)
  {
    var d := ins.distance;
    var a := AbsolutePosition(p, ins);
    if ins.direction == Right {
      ZeroClicksRight(p, d);
      assert a == p + d;
    } else {
      ZeroClicksLeft(p, d);
      assert a == p - d;
      if a <= 0 {
        var q := (-a) / 100;
        var r := (-a) % 100;
        assert -a == 100 * q + r;
        assert a - 1 == 100 * (-q - 1) + (99 - r);
        assert (a - 1) / 100 == -q - 1;
        if p == 0 {
          assert (p - 1) / 100 == -1;
        } else {
          assert (p - 1) / 100 == 0;
        }
      } else {
        assert 0 <= a - 1 < 100;
        assert (p - 1) / 100 == 0;
      }
    }
  }

  /** After a rotation the dial reads the start reading moved by the
      distance, modulo 100, and `landed` grows exactly when that is 0. */
  lemma RotationReading(st: DialState, ins: Instruction)
    requires st.position < 100 && ins.distance <= I16_MAX
    requires RotationFits(st.position, ins)
    ensures Rotation(st, ins).position == Reading(st.position, ins.direction, ins.distance)
    ensures Rotation(st, ins).landed == st.landed + (if Reading(st.position, ins.direction, ins.distance) == 0 then 1 else 0)
  {
    var a := AbsolutePosition(st.position, ins);
    var r := RustRem100(a);
    assert (100 + r) % 100 == a % 100 by {
      RemCongruent(a);
      assert (100 + r - a) % 100 == 0;
    }
  }

  /** Scenarios of the source's tests: one click left from 0 wraps to 99
      without passing 0. */
  lemma OneLeftFromZeroExample()
    ensures Rotation(DialState(0, 0, 0), Instruction(Left, 1)) == DialState(99, 0, 0)
  {
  }

  /** Five full turns left from 0, then one click more, pass 0 five times. */
  lemma LeftFromZeroExample()
    ensures Rotation(DialState(0, 0, 0), Instruction(Left, 501)) == DialState(99, 0, 5)
  {
  }

  /** Turning right from 0 past one multiple of 100. */
  lemma OneTurnRightFromZeroExample()
    ensures Rotation(DialState(0, 0, 0), Instruction(Right, 110)) == DialState(10, 0, 1)
  {
  }

  /** Turning right from 0 past two multiples of 100. */
  lemma RightFromZeroExample()
    ensures Rotation(DialState(0, 0, 0), Instruction(Right, 210)) == DialState(10, 0, 2)
  {
  }

  /** Small turns that stay clear of 0. */
  lemma SmallRightExample()
    ensures Rotation(DialState(90, 0, 0), Instruction(Right, 9)) == DialState(99, 0, 0)
  {
  }

  lemma SmallLeftExample()
    ensures Rotation(DialState(90, 0, 0), Instruction(Left, 9)) == DialState(81, 0, 0)
  {
  }

  /** Landing on 0 counts one passing; leaving 0 to the left adds none. */
  lemma LandOnZeroExample()
    ensures Rotation(DialState(1, 0, 0), Instruction(Right, 99)) == DialState(0, 1, 1)
  {
  }

  lemma LeaveZeroExample()
    ensures Rotation(DialState(0, 1, 1), Instruction(Left, 2)) == DialState(98, 1, 1)
  {
  }
}
