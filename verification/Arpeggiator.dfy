/** Which of the pressed keys, and in which octave, the arpeggiator plays next. */
module Arpeggiator {
  import opened Arithmetic
  import opened Bytes

  datatype Direction = Up | Down | UpDown | AsPlayed | Random | Chord

  /** `heading` is `arp_direction_`: +1 or -1; all three are 8-bit signed in the firmware. */
  datatype State = State(heading: int, step: int, octave: int)

  function Wrap8(x: int): (r: int)
    ensures -128 <= r < 128 && (-128 <= x < 128 ==> r == x)
  {
    (x + 128) % 256 - 128
  }

  ghost predicate InRange(s: State, notes: nat, octaves: nat) {
    (s.heading == 1 || s.heading == -1) && 0 <= s.step < notes && 0 <= s.octave < octaves
  }

  /** Where a sweep in the given heading begins. */
  function Start(heading: int, notes: nat, octaves: nat): State {
    if heading == 1 then State(heading, 0, 0) else State(heading, Wrap8(notes - 1), Wrap8(octaves - 1))
  }

  /** The next step leaves the played range. */
  predicate Leaves(s: State, notes: nat, octaves: nat) {
    var step := Wrap8(s.step + s.heading);
    var octave := Wrap8(s.octave + s.heading);
    (step >= notes || step < 0) && (octave >= octaves || octave < 0)
  }

  /** One step of the melodic directions.  The reflection of UP & DOWN steps again, and never twice. */
  function Advance(direction: Direction, notes: nat, octaves: nat, s: State): (r: State)
    requires 0 < notes <= 127 && 0 < octaves <= 127 && (s.heading == 1 || s.heading == -1)
    ensures 0 <= r.step < notes && (r.heading == 1 || r.heading == -1)
    ensures InRange(s, notes, octaves) ==> InRange(r, notes, octaves)
    decreases if Leaves(s, notes, octaves) then 1 else 0
  {
    var step := Wrap8(s.step + s.heading);
    if 0 <= step < notes then s.(step := step)
    else
      var octave := Wrap8(s.octave + s.heading);
      if 0 <= octave < octaves then State(s.heading, if step >= notes then 0 else notes - 1, octave)
      else if !direction.UpDown? then Start(s.heading, notes, octaves)
      else if notes > 1 || octaves > 1 then Advance(direction, notes, octaves, Start(-s.heading, notes, octaves))
      else Start(-s.heading, notes, octaves)
  }

  // ---- The walk along the line of all notes in all octaves ----

  function Position(s: State, notes: nat): int {
    s.octave * notes + s.step
  }

  lemma OctaveBounds(octave: nat, octaves: nat, notes: nat)
    requires octave < octaves
    ensures octave * notes + notes <= notes * octaves
    ensures octave + 1 == octaves ==> octave * notes + notes == notes * octaves
    ensures octave + 1 < octaves ==> octave * notes + 2 * notes <= notes * octaves
    ensures octave > 0 ==> octave * notes >= notes
  {
    Distribute(octave, notes);
    Distribute(octave + 1, notes);
    MulMonotone(octave + 1, octaves, notes);
    if octave + 1 < octaves {
      MulMonotone(octave + 2, octaves, notes);
    }
    if octave > 0 {
      MulMonotone(1, octave, notes);
    }
  }

  lemma PositionInRange(s: State, notes: nat, octaves: nat)
    requires InRange(s, notes, octaves)
    ensures 0 <= Position(s, notes) < notes * octaves
    ensures Position(s, notes) == 0 <==> s.step == 0 && s.octave == 0
    ensures Position(s, notes) == notes * octaves - 1 <==> s.step == notes - 1 && s.octave == octaves - 1
  {
    OctaveBounds(s.octave, octaves, notes);
    assert s.octave == 0 ==> s.octave * notes == 0;
  }

  /** Inside the range a step moves by one along the line, whatever the direction. */
  lemma InnerStepMovesByOne(direction: Direction, notes: nat, octaves: nat, s: State)
    requires 0 < notes <= 127 && 0 < octaves <= 127 && InRange(s, notes, octaves) && !Leaves(s, notes, octaves)
    ensures Advance(direction, notes, octaves, s).heading == s.heading
    ensures Position(Advance(direction, notes, octaves, s), notes) == Position(s, notes) + s.heading
  {
    Distribute(s.octave, notes);
    Distribute(s.octave - 1, notes);
  }

  ghost predicate AtEnd(s: State, notes: nat, octaves: nat) {
    Position(s, notes) == if s.heading == 1 then notes * octaves - 1 else 0
  }

  lemma LeavesOnlyAtEnd(s: State, notes: nat, octaves: nat)
    requires 0 < notes <= 127 && 0 < octaves <= 127 && InRange(s, notes, octaves)
    ensures Leaves(s, notes, octaves) <==> AtEnd(s, notes, octaves)
  {
    PositionInRange(s, notes, octaves);
  }

  /** UP and AS PLAYED move on by one and DOWN moves back by one; at the end they start over. */
  lemma SweepMovesByOne(direction: Direction, notes: nat, octaves: nat, s: State)
    requires 0 < notes <= 127 && 0 < octaves <= 127 && InRange(s, notes, octaves) && !direction.UpDown?
    ensures var r := Advance(direction, notes, octaves, s);
            && r.heading == s.heading
            && Position(r, notes) == if !AtEnd(s, notes, octaves) then Position(s, notes) + s.heading
                                     else if s.heading == 1 then 0 else notes * octaves - 1
  {
    LeavesOnlyAtEnd(s, notes, octaves);
    if Leaves(s, notes, octaves) {
      PositionInRange(Start(s.heading, notes, octaves), notes, octaves);
    } else {
      InnerStepMovesByOne(direction, notes, octaves, s);
    }
  }

  /** A sweep starts at one end of the line and, unless it is a single note, has room to move. */
  lemma StartIsFarEnd(heading: int, notes: nat, octaves: nat)
    requires 0 < notes <= 127 && 0 < octaves <= 127 && (heading == 1 || heading == -1)
    ensures InRange(Start(heading, notes, octaves), notes, octaves)
    ensures Position(Start(heading, notes, octaves), notes) == if heading == 1 then 0 else notes * octaves - 1
    ensures notes > 1 || octaves > 1 ==> !Leaves(Start(heading, notes, octaves), notes, octaves)
  {
    PositionInRange(Start(heading, notes, octaves), notes, octaves);
  }

  /** Leaving the range means a step from the far end in the other heading. */
  lemma TurnsAround(notes: nat, octaves: nat, s: State)
    requires 0 < notes <= 127 && 0 < octaves <= 127 && InRange(s, notes, octaves) && (notes > 1 || octaves > 1)
    requires Leaves(s, notes, octaves)
    ensures Start(-s.heading, notes, octaves).heading == -s.heading && (s.heading == 1 || s.heading == -1)
    ensures !Leaves(Start(-s.heading, notes, octaves), notes, octaves)
    ensures Advance(UpDown, notes, octaves, s) == Advance(UpDown, notes, octaves, Start(-s.heading, notes, octaves))
  {
  }

  lemma EndIs(s: State, notes: nat, octaves: nat)
    ensures AtEnd(s, notes, octaves) <==> Position(s, notes) == if s.heading == 1 then notes * octaves - 1 else 0
  {
  }

  /** UP & DOWN turns around at both ends and does not repeat them. */
  lemma UpDownReflects(notes: nat, octaves: nat, s: State)
    requires 0 < notes <= 127 && 0 < octaves <= 127 && InRange(s, notes, octaves) && (notes > 1 || octaves > 1)
    ensures var r := Advance(UpDown, notes, octaves, s);
            && r.heading == (if AtEnd(s, notes, octaves) then -s.heading else s.heading)
            && Position(r, notes) == Position(s, notes) + r.heading
  {
    hide *;
    LeavesOnlyAtEnd(s, notes, octaves);
    if Leaves(s, notes, octaves) {
      EndIs(s, notes, octaves);
      TurnsAround(notes, octaves, s);
      StartIsFarEnd(-s.heading, notes, octaves);
      InnerStepMovesByOne(UpDown, notes, octaves, Start(-s.heading, notes, octaves));
    } else {
      InnerStepMovesByOne(UpDown, notes, octaves, s);
    }
  }

  function AfterSteps(direction: Direction, notes: nat, octaves: nat, s: State, t: nat): (r: State)
    requires 0 < notes <= 127 && 0 < octaves <= 127 && (s.heading == 1 || s.heading == -1)
    ensures r.heading == 1 || r.heading == -1
    ensures InRange(s, notes, octaves) ==> InRange(r, notes, octaves)
  {
    if t == 0 then s else Advance(direction, notes, octaves, AfterSteps(direction, notes, octaves, s, t - 1))
  }

  /** The upward sweep after t steps, in closed form. */
  lemma {:induction false} UpSweep(direction: Direction, notes: nat, octaves: nat, s: State, t: nat)
    requires 0 < notes <= 127 && 0 < octaves <= 127 && InRange(s, notes, octaves)
    requires (direction.Up? || direction.AsPlayed?) && s.heading == 1
    ensures AfterSteps(direction, notes, octaves, s, t).heading == 1
    ensures Position(AfterSteps(direction, notes, octaves, s, t), notes) == (Position(s, notes) + t) % (notes * octaves)
  {
    PositionInRange(s, notes, octaves);
    if t == 0 {
      RemainderStep(Position(s, notes) - 1, notes * octaves);
    } else {
      UpSweep(direction, notes, octaves, s, t - 1);
      SweepMovesByOne(direction, notes, octaves, AfterSteps(direction, notes, octaves, s, t - 1));
      RemainderStep(Position(s, notes) + t - 1, notes * octaves);
    }
  }

  /** The downward sweep likewise. */
  lemma {:induction false} DownSweep(notes: nat, octaves: nat, s: State, t: nat)
    requires 0 < notes <= 127 && 0 < octaves <= 127 && InRange(s, notes, octaves) && s.heading == -1
    ensures AfterSteps(Down, notes, octaves, s, t).heading == -1
    ensures Position(AfterSteps(Down, notes, octaves, s, t), notes) == (Position(s, notes) - t) % (notes * octaves)
  {
    PositionInRange(s, notes, octaves);
    if t == 0 {
      RemainderStep(Position(s, notes) - 1, notes * octaves);
    } else {
      DownSweep(notes, octaves, s, t - 1);
      var before := AfterSteps(Down, notes, octaves, s, t - 1);
      PositionInRange(before, notes, octaves);
      SweepMovesByOne(Down, notes, octaves, before);
      RemainderStep(Position(s, notes) - t, notes * octaves);
    }
  }

  /** The triangle wave of period 2n - 2. */
  function Triangle(phase: nat, n: nat): int {
    if phase < n then phase else 2 * n - 2 - phase
  }

  /** On the triangle wave at time t, heading up on its first half and down on its second; at the turns either way. */
  ghost predicate OnTriangle(s: State, notes: nat, n: nat, t: nat)
    requires n > 1
  {
    var phase := t % (2 * n - 2);
    && Position(s, notes) == Triangle(phase, n)
    && (0 < phase < n - 1 ==> s.heading == 1)
    && (phase > n - 1 ==> s.heading == -1)
  }

  lemma TriangleStep(notes: nat, octaves: nat, s: State, t: nat, n: nat)
    requires 0 < notes <= 127 && 0 < octaves <= 127 && (notes > 1 || octaves > 1) && InRange(s, notes, octaves)
    requires n == notes * octaves > 1 && OnTriangle(s, notes, n, t)
    ensures OnTriangle(Advance(UpDown, notes, octaves, s), notes, n, t + 1)
  {
    UpDownReflects(notes, octaves, s);
    RemainderStep(t, 2 * n - 2);
    hide Advance, Position, Leaves;
  }

  /** Where on the triangle wave a state is. */
  function Phase(s: State, notes: nat, n: nat): int {
    var position := Position(s, notes);
    if s.heading == 1 || position == 0 then position else 2 * n - 2 - position
  }

  lemma LineIsLong(notes: nat, octaves: nat)
    requires 0 < notes && 0 < octaves && (notes > 1 || octaves > 1)
    ensures notes * octaves > 1
  {
    OctaveBounds(octaves - 1, octaves, notes);
    if octaves > 1 {
      OctaveBounds(0, octaves, notes);
    }
  }

  lemma PhaseOnTriangle(s: State, notes: nat, n: nat)
    requires n > 1 && (s.heading == 1 || s.heading == -1) && 0 <= Position(s, notes) < n
    ensures 0 <= Phase(s, notes, n) < 2 * n - 2 && OnTriangle(s, notes, n, Phase(s, notes, n))
  {
    hide Position;
    RemainderCases(Phase(s, notes, n), 2 * n - 2);
  }

  lemma StartsOnTriangle(notes: nat, octaves: nat, s: State)
    requires 0 < notes <= 127 && 0 < octaves <= 127 && (notes > 1 || octaves > 1) && InRange(s, notes, octaves)
    requires s.heading == 1 || s.heading == -1
    ensures var n := notes * octaves;
            n > 1 && 0 <= Phase(s, notes, n) < 2 * n - 2 && OnTriangle(s, notes, n, Phase(s, notes, n))
  {
    hide *;
    LineIsLong(notes, octaves);
    PositionInRange(s, notes, octaves);
    PhaseOnTriangle(s, notes, notes * octaves);
  }

  lemma OneStepMore(direction: Direction, notes: nat, octaves: nat, s: State, t: nat)
    requires 0 < notes <= 127 && 0 < octaves <= 127 && InRange(s, notes, octaves)
    ensures s.heading == 1 || s.heading == -1
    ensures InRange(AfterSteps(direction, notes, octaves, s, t), notes, octaves)
    ensures AfterSteps(direction, notes, octaves, s, t) ==
            if t == 0 then s else Advance(direction, notes, octaves, AfterSteps(direction, notes, octaves, s, t - 1))
  {
    hide Advance;
  }

  /** From any state in range UP & DOWN is the triangle wave: every inner note twice a period, both ends once. */
  lemma {:induction false} UpDownIsTriangle(notes: nat, octaves: nat, s: State, t: nat)
    requires 0 < notes <= 127 && 0 < octaves <= 127 && (notes > 1 || octaves > 1) && InRange(s, notes, octaves)
    ensures var n := notes * octaves;
            && n > 1 && 0 <= Phase(s, notes, n) < 2 * n - 2
            && OnTriangle(AfterSteps(UpDown, notes, octaves, s, t), notes, n, Phase(s, notes, n) + t)
  {
    hide *;
    OneStepMore(UpDown, notes, octaves, s, t);
    StartsOnTriangle(notes, octaves, s);
    if t > 0 {
      var n := notes * octaves;
      OneStepMore(UpDown, notes, octaves, s, t - 1);
      UpDownIsTriangle(notes, octaves, s, t - 1);
      TriangleStep(notes, octaves, AfterSteps(UpDown, notes, octaves, s, t - 1), Phase(s, notes, n) + t - 1, n);
    }
  }

  class Arpeggio {
    var heading: int
    var step: int
    var octave: int

    ghost function Abs(): State
      reads this
    {
      State(heading, step, octave)
    }

    constructor ()
      ensures Abs() == State(1, 0, 0)
    {
      heading, step, octave := 1, 0, 0;
    }

    method StartArpeggio(notes: byte, octaves: byte)
      modifies this
      ensures Abs() == Start(old(heading), notes, octaves)
    {
      if heading == 1 {
        octave := 0;
        step := 0;
      } else {
        step := Wrap8(notes as int - 1);
        octave := Wrap8(octaves as int - 1);
      }
    }

    /** The subtraction loop that brings a random nibble into range. */
    static method Reduce(value: byte, bound: byte) returns (r: int)
      requires bound > 0
      ensures 0 <= r < bound as int && r == value as int % bound as int
    {
      r := value as int;
      ghost var q := 0;
      while r >= bound as int
        invariant 0 <= r && value as int == q * bound as int + r
      {
        r := r - bound as int;
        Distribute(q, bound as nat);
        q := q + 1;
      }
      QuotientUnique(value as int, bound as nat, q, r);
    }

    method StepArpeggio(direction: Direction, notes: byte, octaves: byte, random: byte)
      requires 0 < notes <= 127 && 0 < octaves <= 127 && (heading == 1 || heading == -1)
      modifies this
      ensures heading == 1 || heading == -1
      ensures 0 <= step < notes as int
      ensures direction.Random? ==> 0 <= octave < octaves as int && heading == old(heading)
      ensures direction.Random? ==>
              step == (random / 16) as int % notes as int && octave == (random % 16) as int % octaves as int
      ensures !direction.Random? ==> Abs() == Advance(direction, notes, octaves, old(Abs()))
      decreases if Leaves(Abs(), notes, octaves) then 1 else 0
    {
      hide Wrap8;
      if direction.Random? {
        octave := Reduce(random % 16, octaves);
        step := Reduce(random / 16, notes);
      } else {
        step := Wrap8(step + heading);
        var changeOctave := false;
        if step >= notes as int {
          step := 0;
          changeOctave := true;
        } else if step < 0 {
          step := notes as int - 1;
          changeOctave := true;
        }
        if changeOctave {
          octave := Wrap8(octave + heading);
          if octave >= octaves as int || octave < 0 {
            if direction.UpDown? {
              heading := -heading;
              StartArpeggio(notes, octaves);
              if notes > 1 || octaves > 1 {
                StepArpeggio(direction, notes, octaves, random);
              }
            } else {
              StartArpeggio(notes, octaves);
            }
          }
        }
      }
    }
  }
}
