/** Portamento: every note start sets a target, and every audio block moves the pitch towards it. */
module Portamento {
  import opened Arithmetic

  /** `int16_t`. */
  type int16 = x: int | -0x8000 <= x < 0x8000

  function Wrap16(x: int): (r: int16)
    ensures -0x8000 <= x < 0x8000 ==> r == x
    ensures 0x8000 <= x < 0x18000 ==> r == x - 0x1_0000
    ensures -0x18000 <= x < -0x8000 ==> r == x + 0x1_0000
  {
    (x + 0x8000) % 0x1_0000 - 0x8000
  }

  /** The upper half of a 32-bit number. */
  function HighWord(x: int): int16 {
    Wrap16(x % 0x1_0000_0000 / 0x1_0000)
  }

  datatype Glide = Glide(value: int16, target: int16, increment: int16)

  /** `restart`: the part plays legato and this note does not. */
  function Triggered(g: Glide, note: nat, restart: bool, rate: nat): Glide
    requires note < 0x1_0000 && rate < 0x1_0000
  {
    var target := Wrap16(note);
    if g.value == 0 || restart then Glide(target, target, 1)
    else
      var delta := Wrap16(target - g.value);
      var increment := HighWord(delta * rate);
      Glide(g.value, target, if increment != 0 then increment else if delta < 0 then -1 else 1)
  }

  /** The sum has arrived at the target or gone past it. */
  predicate Crosses(g: Glide, sum: int) {
    (g.increment > 0) != (sum < g.target)
  }

  function Block(g: Glide): Glide {
    var sum := Wrap16(g.value + g.increment);
    if Crosses(g, sum) then Glide(g.target, g.target, 0) else g.(value := sum)
  }

  function After(g: Glide, blocks: nat): Glide
    decreases blocks
  {
    if blocks == 0 then g else After(Block(g), blocks - 1)
  }

  // ---- The increment ----

  /** The fixed-point product is a fraction of the distance, rounded down. */
  lemma FractionOfDistance(delta: int16, rate: nat)
    requires rate < 0x1_0000
    ensures delta > 0 ==> 0 <= HighWord(delta * rate) < delta
    ensures delta == 0 ==> HighWord(delta * rate) == 0
    ensures delta < 0 ==> delta <= HighWord(delta * rate) <= 0
    ensures delta < 0 && rate > 0 ==> HighWord(delta * rate) < 0
  {
    var d: int := delta;
    if d > 0 {
      MulBounds(d, rate);
      Halves(d * rate);
    } else if d < 0 {
      MulBounds(-d, rate);
      assert d * rate == -((-d) * rate);
      Halves(d * rate);
    }
  }

  lemma MulBounds(a: nat, rate: nat)
    requires rate < 0x1_0000 && a > 0
    ensures 0 <= a * rate <= a * 0xffff
    ensures rate > 0 ==> a * rate >= a
  {
  }

  lemma Halves(x: int)
    requires -0x8000_0000 <= x < 0x8000_0000
    ensures HighWord(x) as int == x / 0x1_0000
  {
    if x < 0 {
      assert x % 0x1_0000_0000 == x + 0x1_0000_0000;
      assert (x + 0x1_0000_0000) / 0x1_0000 == x / 0x1_0000 + 0x1_0000;
    }
  }

  /** Never 0, and with the sign of the distance, of which it is at most the whole. */
  lemma IncrementHasSignOfDelta(g: Glide, note: nat, rate: nat)
    requires note < 0x1_0000 && rate < 0x1_0000 && g.value != 0
    ensures var delta, increment := Wrap16(Wrap16(note) - g.value), Triggered(g, note, false, rate).increment;
            && increment != 0
            && (delta > 0 ==> 0 < increment <= delta)
            && (delta < 0 ==> delta <= increment < 0)
            && (delta == 0 ==> increment == 1)
  {
    FractionOfDistance(Wrap16(Wrap16(note) - g.value), rate);
  }

  // ---- The glide ----

  predicate Towards(g: Glide) {
    (g.increment > 0 && g.value <= g.target) || (g.increment < 0 && g.value >= g.target)
  }

  function Distance(g: Glide): nat {
    if g.value < g.target then g.target - g.value else g.value - g.target
  }

  ghost predicate Between(a: int, x: int, b: int) {
    a <= x <= b || b <= x <= a
  }

  /** Every block moves the pitch towards the target, not past it; within distance + 1 blocks it is there, to stay. */
  ghost predicate GlidesHome(g: Glide) {
    forall n: nat ::
      && Between(After(g, n).value, After(g, n + 1).value, g.target)
      && (n > Distance(g) ==> After(g, n) == Glide(g.target, g.target, 0))
  }

  function Speed(g: Glide): nat {
    if g.increment < 0 then -(g.increment as int) else g.increment
  }

  /** The number of blocks to the first sum that is on the target or, going down, past it. */
  function BlocksToCross(g: Glide): (k: nat)
    requires Towards(g)
    ensures 0 < k
  {
    if g.increment < 0 then Quotient(Distance(g), Speed(g)) + 1
    else if g.value == g.target then 1
    else Quotient(Distance(g) - 1, Speed(g)) + 1
  }

  function Quotient(a: nat, b: nat): nat
    requires b > 0
  {
    a / b
  }

  /** That sum, in unbounded arithmetic; the first one when the increment leads away from the target. */
  function CrossingSum(g: Glide): int {
    if Towards(g) then g.value + BlocksToCross(g) * g.increment else g.value + g.increment
  }

  /** The crossing sum is a 16-bit number, or its wrap-around happens to hit the target. */
  predicate Notices(g: Glide) {
    -0x8000 <= CrossingSum(g) < 0x8000 || (!Towards(g) && Wrap16(CrossingSum(g)) == g.target)
  }

  /** One block less to go. */
  lemma CrossingSumStays(g: Glide)
    requires Towards(g) && !Crosses(g, g.value + g.increment)
    ensures var next := g.(value := g.value + g.increment);
            && Towards(next) && BlocksToCross(g) == BlocksToCross(next) + 1 && CrossingSum(next) == CrossingSum(g)
            && Distance(next) == Distance(g) - Speed(g) && Block(g) == next
  {
    var next := g.(value := g.value + g.increment);
    OneLess(if g.increment > 0 then Distance(g) - 1 else Distance(g), Speed(g));
    Distribute(BlocksToCross(next), g.increment);
  }

  lemma OneLess(d: nat, i: nat)
    requires 0 < i <= d
    ensures Quotient(d, i) == Quotient(d - i, i) + 1
  {
    var q, r := (d - i) / i, (d - i) % i;
    assert d - i == q * i + r;
    Distribute(q, i);
    QuotientUnique(d, i, q + 1, r);
  }

  lemma SmallQuotient(a: nat, b: nat)
    requires a < b
    ensures Quotient(a, b) == 0
  {
  }

  lemma CrossesNow(g: Glide)
    requires Towards(g) && Crosses(g, g.value + g.increment)
    ensures BlocksToCross(g) == 1 && CrossingSum(g) == g.value + g.increment
  {
    if g.increment < 0 {
      SmallQuotient(Distance(g), Speed(g));
    } else if Distance(g) > 0 {
      SmallQuotient(Distance(g) - 1, Speed(g));
    }
  }

  /** Where the crossing sum lies: not a whole increment past the target. */
  lemma {:induction false} CrossingSumBounds(g: Glide)
    requires Towards(g)
    ensures BlocksToCross(g) <= Distance(g) + 1
    ensures g.increment > 0 ==>
              || g.target <= CrossingSum(g) < g.target + g.increment
              || (g.value == g.target && CrossingSum(g) == g.value + g.increment)
    ensures g.increment < 0 ==> g.target + g.increment <= CrossingSum(g) < g.target
    decreases Distance(g), if g.value == g.target && g.increment < 0 then 0 else 1
  {
    if Crosses(g, g.value + g.increment) {
      CrossesNow(g);
    } else {
      CrossingSumStays(g);
      hide CrossingSum, BlocksToCross;
      CrossingSumBounds(g.(value := g.value + g.increment));
    }
  }

  lemma {:induction false} Resting(target: int16, n: nat)
    ensures After(Glide(target, target, 0), n) == Glide(target, target, 0)
  {
    if n > 0 {
      Resting(target, n - 1);
    }
  }

  lemma AfterOne(g: Glide, n: nat)
    ensures After(g, n + 1) == After(Block(g), n) && After(g, 0) == g && After(g, 1) == Block(g)
  {
    assert After(Block(g), 0) == Block(g);
  }

  /** A crossing sum of 16 bits is noticed, and the glide comes to rest. */
  lemma {:induction false} GlideProgress(g: Glide, n: nat)
    requires Towards(g) && -0x8000 <= CrossingSum(g) < 0x8000
    ensures Between(After(g, n).value, After(g, n + 1).value, g.target)
    ensures n >= BlocksToCross(g) ==> After(g, n) == Glide(g.target, g.target, 0)
    decreases n
  {
    AfterOne(g, n);
    if Crosses(g, g.value + g.increment) {
      CrossesNow(g);
      hide CrossingSum, BlocksToCross;
      Resting(g.target, n);
      if n > 0 {
        AfterOne(g, n - 1);
        Resting(g.target, n - 1);
      }
    } else {
      CrossingSumStays(g);
      hide CrossingSum, BlocksToCross;
      if n > 0 {
        AfterOne(g, n - 1);
        GlideProgress(g.(value := g.value + g.increment), n - 1);
      }
    }
  }

  /** It comes to rest with the block that crosses, and not before. */
  lemma {:induction false} RestsExactly(g: Glide, n: nat)
    requires Towards(g) && -0x8000 <= CrossingSum(g) < 0x8000
    ensures After(g, n) == Glide(g.target, g.target, 0) <==> n >= BlocksToCross(g)
    decreases n
  {
    GlideProgress(g, n);
    if n > 0 {
      AfterOne(g, n - 1);
      if Crosses(g, g.value + g.increment) {
        CrossesNow(g);
      } else {
        CrossingSumStays(g);
        hide CrossingSum, BlocksToCross;
        RestsExactly(g.(value := g.value + g.increment), n - 1);
      }
    }
  }

  /** The increment is the given fraction of the distance, rounded down, and never 0. */
  lemma IncrementIsFraction(g: Glide, note: nat, rate: nat)
    requires note < 0x1_0000 && rate < 0x1_0000 && g.value != 0
    ensures var (delta, increment) :=
            (Wrap16(Wrap16(note) - g.value), Triggered(g, note, false, rate).increment as int);
            && (rate == 0 || 0 <= delta * rate < 0x1_0000 ==> increment == if delta < 0 then -1 else 1)
            && (!(rate == 0 || 0 <= delta * rate < 0x1_0000) ==>
                  0x1_0000 * increment <= delta * rate < 0x1_0000 * (increment + 1))
  {
    hide HighWord, Wrap16;
    var delta: int := Wrap16(Wrap16(note) - g.value);
    ProductFits(delta, rate);
    Halves(delta * rate);
  }

  lemma ProductFits(delta: int, rate: nat)
    requires -0x8000 <= delta < 0x8000 && rate < 0x1_0000
    ensures -0x8000_0000 <= delta * rate < 0x8000_0000
    ensures delta >= 0 || rate == 0 ==> delta * rate >= 0
    ensures delta < 0 && rate > 0 ==> delta * rate < 0
  {
    ProductIsSmall(rate);
    if delta >= 0 {
      MulMonotone(delta, 0x7fff, rate);
    } else {
      MulMonotone(-delta, 0x8000, rate);
      Negated(-delta, 0, rate);
    }
  }

  lemma ProductIsSmall(rate: nat)
    requires rate < 0x1_0000
    ensures 0x7fff * rate < 0x8000_0000 && 0x8000 * rate <= 0x8000_0000
  {
  }

  /** Going up takes at least, and going down at most, as many blocks as the rate fits into 16 bits. */
  lemma GlideTakesItsTime(g: Glide, note: nat, rate: nat)
    requires note < 0x1_0000 && 0 < rate < 0x1_0000 && g.value != 0
    requires -0x8000 <= Wrap16(note) - g.value < 0x8000
    ensures var start := Triggered(g, note, false, rate);
            && Towards(start)
            && (Wrap16(note) > g.value && Distance(start) * rate >= 0x1_0000 ==>
                  BlocksToCross(start) * rate >= 0x1_0000)
            && (Wrap16(note) < g.value ==> (BlocksToCross(start) - 1) * rate <= 0x1_0000)
  {
    hide *;
    StartOf(g, note, rate);
    IncrementIsFraction(g, note, rate);
    var start := Triggered(g, note, false, rate);
    ToCross(start);
    if Wrap16(note) > g.value {
      if Distance(start) * rate >= 0x1_0000 {
        RisingTime(Distance(start), Speed(start), BlocksToCross(start), rate);
      }
    } else if Wrap16(note) < g.value {
      Negated(Distance(start), Speed(start), rate);
      FallingTime(Distance(start), Speed(start), BlocksToCross(start) - 1, rate);
    }
  }

  lemma StartOf(g: Glide, note: nat, rate: nat)
    requires note < 0x1_0000 && 0 < rate < 0x1_0000 && g.value != 0
    requires -0x8000 <= Wrap16(note) - g.value < 0x8000
    ensures var start := Triggered(g, note, false, rate);
            && start.value == g.value && start.target == Wrap16(note) && Towards(start) && start.increment != 0
            && Wrap16(Wrap16(note) - g.value) as int == start.target as int - start.value as int
  {
    IncrementHasSignOfDelta(g, note, rate);
    hide HighWord;
  }

  lemma ToCross(g: Glide)
    requires Towards(g)
    ensures g.value < g.target ==>
              && Distance(g) as int == g.target as int - g.value as int > 0 && Speed(g) as int == g.increment as int > 0
              && BlocksToCross(g) == Quotient(Distance(g) - 1, Speed(g)) + 1
    ensures g.value > g.target ==>
              && Distance(g) as int == g.value as int - g.target as int > 0
              && Speed(g) as int == -(g.increment as int) > 0
              && BlocksToCross(g) == Quotient(Distance(g), Speed(g)) + 1
  {
    hide Quotient;
  }

  lemma Negated(distance: nat, speed: nat, rate: nat)
    ensures (-(distance as int)) * rate == -(distance * rate)
    ensures 0x1_0000 * (-(speed as int)) == -(0x1_0000 * speed)
    ensures distance > 0 && rate > 0 ==> distance * rate > 0
  {
  }

  lemma QuotientTimes(a: nat, b: nat)
    requires b > 0
    ensures Quotient(a, b) * b <= a < Quotient(a, b) * b + b
  {
  }

  lemma RisingTime(distance: nat, speed: nat, blocks: nat, rate: nat)
    requires 0 < speed && 0 < distance && blocks == Quotient(distance - 1, speed) + 1
    requires 0x1_0000 * speed <= distance * rate
    ensures blocks * rate >= 0x1_0000
  {
    QuotientTimes(distance - 1, speed);
    Distribute(Quotient(distance - 1, speed), speed);
    assert blocks * speed >= distance;
    MulMonotone(distance, blocks * speed, rate);
    Regroup(blocks, speed, rate);
    MulCancel(0x1_0000, blocks * rate, speed);
  }

  lemma FallingTime(distance: nat, speed: nat, whole: nat, rate: nat)
    requires 0 < speed && 0 < distance && whole == Quotient(distance, speed)
    requires 0x1_0000 * speed >= distance * rate
    ensures whole * rate <= 0x1_0000
  {
    QuotientTimes(distance, speed);
    MulMonotone(whole * speed, distance, rate);
    Regroup(whole, rate, speed);
    MulCancel(whole * rate, 0x1_0000, speed);
  }

  /** A crossing sum of more bits wraps around and is not noticed. */
  lemma {:induction false} OverflowGoesUnnoticed(g: Glide)
    requires Towards(g) && !(-0x8000 <= CrossingSum(g) < 0x8000)
    ensures After(g, BlocksToCross(g)).value == Wrap16(CrossingSum(g))
    ensures After(g, BlocksToCross(g) - 1).value == CrossingSum(g) - g.increment
    ensures Between(g.value, CrossingSum(g) - g.increment, g.target)
    decreases Distance(g), if g.value == g.target && g.increment < 0 then 0 else 1
  {
    AfterOne(g, 0);
    if Crosses(g, g.value + g.increment) {
      CrossesNow(g);
      UnnoticedNow(g);
    } else {
      CrossingSumStays(g);
      var next := Block(g);
      hide CrossingSum, BlocksToCross, Block, Wrap16, After;
      AfterOne(g, BlocksToCross(next));
      AfterOne(g, BlocksToCross(next) - 1);
      OverflowGoesUnnoticed(next);
    }
  }

  lemma UnnoticedNow(g: Glide)
    requires Towards(g) && Crosses(g, g.value + g.increment) && !(-0x8000 <= g.value + g.increment < 0x8000)
    ensures Block(g).value == Wrap16(g.value + g.increment)
  {
  }

  /** A glide towards its target comes home exactly when the crossing sum is a 16-bit number. */
  lemma TowardsGlidesHome(g: Glide)
    requires Towards(g)
    ensures GlidesHome(g) <==> Notices(g)
  {
    CrossingSumBounds(g);
    hide BlocksToCross, CrossingSum;
    if Notices(g) {
      forall n: nat
        ensures Between(After(g, n).value, After(g, n + 1).value, g.target)
        ensures n > Distance(g) ==> After(g, n) == Glide(g.target, g.target, 0)
      {
        GlideProgress(g, n);
      }
    } else {
      OverflowGoesUnnoticed(g);
      var last := BlocksToCross(g) - 1;
      assert !Between(After(g, last).value, After(g, last + 1).value, g.target);
    }
  }

  /** The distance does not fit 16 bits: the increment leads away, and only the first sum can cross. */
  lemma AwayGlidesHome(g: Glide)
    requires !Towards(g) && g.increment != 0
    requires g.increment > 0 ==> g.value + g.increment - 0x1_0000 <= g.target
    requires g.increment < 0 ==> g.value + g.increment + 0x1_0000 >= g.target
    ensures GlidesHome(g) <==> Notices(g)
  {
    AfterOne(g, 0);
    var next := Block(g);
    if next == Glide(g.target, g.target, 0) {
      forall n: nat
        ensures Between(After(g, n).value, After(g, n + 1).value, g.target)
        ensures n > Distance(g) ==> After(g, n) == Glide(g.target, g.target, 0)
      {
        AfterOne(g, n);
        Resting(g.target, n);
        if n > 0 {
          AfterOne(g, n - 1);
          Resting(g.target, n - 1);
        }
      }
    } else if next.value == g.target {
      TargetIsPassed(g);
    } else {
      assert !Between(After(g, 0).value, After(g, 1).value, g.target);
    }
  }

  lemma PassedNext(g: Glide)
    requires !Towards(g) && g.increment < 0 && Block(g) == g.(value := g.target) && g.target >= 0
    ensures var next := Block(g);
            && Towards(next) && next.value == next.target == g.target
            && -0x8000 <= CrossingSum(next) < 0x8000 && BlocksToCross(next) == 1
            && Distance(g) > 0
  {
    CrossesNow(Block(g));
  }

  /** Going down, a sum right on the target is not noticed; the next one is. */
  lemma TargetIsPassed(g: Glide)
    requires !Towards(g) && g.increment < 0 && Block(g) == g.(value := g.target) && g.target >= 0
    ensures GlidesHome(g)
  {
    var next := Block(g);
    PassedNext(g);
    hide Block, Towards, CrossingSum, BlocksToCross, Crosses, Wrap16;
    AfterOne(g, 0);
    forall n: nat
      ensures Between(After(g, n).value, After(g, n + 1).value, g.target)
      ensures n > Distance(g) ==> After(g, n) == Glide(g.target, g.target, 0)
    {
      AfterOne(g, n);
      if n > 0 {
        AfterOne(g, n - 1);
        GlideProgress(next, n - 1);
      }
    }
  }

  /**
   For every note start at any pitch, near or far and whatever the portamento time: the pitch glides home
   exactly when the crossing sum, which is known before the first block, is noticed.
   */
  lemma NoteStartGlides(g: Glide, note: nat, restart: bool, rate: nat)
    requires note < 0x1_0000 && rate < 0x1_0000
    ensures var start := Triggered(g, note, restart, rate);
            start.target == Wrap16(note) && (GlidesHome(start) <==> Notices(start))
  {
    var start := Triggered(g, note, restart, rate);
    if g.value != 0 && !restart {
      IncrementHasSignOfDelta(g, note, rate);
    }
    if Towards(start) {
      TowardsGlidesHome(start);
    } else {
      AwayGlidesHome(start);
    }
  }

  // ---- The pitches that the controller sends ----

  /** `TuneNote` and the spread of the voice; `raga` is the scale's shift for the note. */
  function SentPitch(note: nat, octave: int, raga: int, tuning: int, drift: nat): int {
    var n := note + 12 * octave;
    128 * (if n < 0 then 0 else if n > 127 then 127 else n) + raga + tuning + drift
  }

  /** Neighbouring notes of the keyboard are 128 apart, and an octave is twelve of them. */
  lemma PitchScale(note: nat, octave: int, raga: int, tuning: int, drift: nat)
    requires 0 <= note + 12 * octave < 127
    ensures SentPitch(note + 1, octave, raga, tuning, drift) == SentPitch(note, octave, raga, tuning, drift) + 128
    ensures SentPitch(note + 12, octave - 1, raga, tuning, drift) == SentPitch(note, octave, raga, tuning, drift)
    ensures SentPitch(0, 0, raga, tuning, drift) == raga + tuning + drift
  {
  }

  const LOWEST_PITCH := -191
  const HIGHEST_PITCH := 16605
  /** Portamento time 0, and the next rate of the table. */
  const FASTEST := 65535
  const SECOND_FASTEST := 18904

  lemma SentPitchRange(note: nat, octave: int, raga: int, tuning: int, drift: nat)
    requires -64 <= raga <= 22 && -127 <= tuning <= 127 && drift <= 5 * 40
    ensures LOWEST_PITCH <= SentPitch(note, octave, raga, tuning, drift) <= HIGHEST_PITCH
  {
  }

  /** Between any pitches a controller can send, a glide fails exactly at portamento time 0 and far enough upwards. */
  lemma SentPitchesGlide(g: Glide, pitch: int, restart: bool, rate: nat)
    requires LOWEST_PITCH <= pitch <= HIGHEST_PITCH && LOWEST_PITCH <= g.value as int <= HIGHEST_PITCH
    requires rate == FASTEST || rate <= SECOND_FASTEST
    ensures GlidesHome(Triggered(g, pitch % 0x1_0000, restart, rate)) <==>
            rate <= SECOND_FASTEST || g.value == 0 || restart || 2 * pitch - g.value < 0x8002
  {
    NoteStartGlides(g, pitch % 0x1_0000, restart, rate);
    hide GlidesHome, Notices, Triggered;
    var start := Triggered(g, pitch % 0x1_0000, restart, rate);
    SentStart(g, pitch, restart, rate);
    SentStartNotices(start, FallsShort(start));
  }

  /** The increment of the fastest upward glide. */
  predicate FallsShort(g: Glide) {
    g.increment > 1 && g.increment as int == Distance(g) - 1
  }

  lemma SentStartNotices(start: Glide, fast: bool)
    requires LOWEST_PITCH <= start.value as int <= HIGHEST_PITCH && LOWEST_PITCH <= start.target as int <= HIGHEST_PITCH
    requires Towards(start) && fast == FallsShort(start)
    requires fast ||
             (start.increment as int + Distance(start) >= -1 && start.increment as int <= 1 + Distance(start) / 3)
    ensures Notices(start) <==> !fast || 2 * start.target - start.value < 0x8002
  {
    CrossingSumBounds(start);
    hide BlocksToCross, CrossingSum;
    if fast {
      FastestCrossing(start);
    }
  }

  lemma SentStart(g: Glide, pitch: int, restart: bool, rate: nat)
    requires LOWEST_PITCH <= pitch <= HIGHEST_PITCH && LOWEST_PITCH <= g.value as int <= HIGHEST_PITCH
    requires rate == FASTEST || rate <= SECOND_FASTEST
    ensures var start := Triggered(g, pitch % 0x1_0000, restart, rate);
            && start.target == pitch && Towards(start)
            && start.value == (if g.value == 0 || restart then pitch else g.value)
            && (FallsShort(start) <==> rate == FASTEST && g.value != 0 && !restart && pitch - g.value > 2)
            && (FallsShort(start) ||
               (start.increment as int + Distance(start) >= -1 && start.increment as int <= 1 + Distance(start) / 3))
  {
    if g.value != 0 && !restart {
      SentIncrement(pitch - g.value, rate);
      IncrementHasSignOfDelta(g, pitch % 0x1_0000, rate);
    }
  }

  /** At portamento time 0 the increment is one less than the distance upwards, and the whole of it downwards. */
  lemma SentIncrement(d: int, rate: nat)
    requires -0x8000 <= d < 0x8000 && (rate == FASTEST || rate <= SECOND_FASTEST)
    ensures rate == FASTEST ==> HighWord(d * rate) as int == if d > 0 then d - 1 else d
    ensures rate <= SECOND_FASTEST && d > 0 ==> 0 <= HighWord(d * rate) as int <= d / 3
    ensures rate <= SECOND_FASTEST && d <= 0 ==> d <= HighWord(d * rate) as int <= 0
  {
    FractionOfDistance(d, rate);
    if rate == FASTEST {
      Halves(d * 65535);
      assert d * 65535 == d * 0x1_0000 - d;
    } else if d > 0 {
      ThirdAtMost(d, rate);
      Halves(d * rate);
    }
  }

  lemma ThirdAtMost(d: nat, rate: nat)
    requires rate <= SECOND_FASTEST
    ensures 0 <= d * rate <= d * SECOND_FASTEST
  {
  }

  lemma FastestCrossing(g: Glide)
    requires Distance(g) > 1 && g.value < g.target && g.increment as int == Distance(g) - 1
    ensures CrossingSum(g) == 2 * g.target - g.value - 2
  {
    QuotientUnique(Distance(g) - 1, Speed(g), 1, 0);
  }

  /**
   That far is in reach: from note 0 to note 127, with a tuning of 127, on the sixth voice of a part with
   a spread of 40, the second block lands far below the start.
   */
  lemma TopNoteOverflows()
    ensures var (from, to) := (SentPitch(0, 0, 0, 127, 5 * 40), SentPitch(127, 0, 0, 127, 5 * 40));
            && from == 327 && to == 16583
            && var start := Triggered(Glide(327, 327, 0), 16583, false, FASTEST);
               After(start, 1).value == 16582 && After(start, 2).value == -32699 && !GlidesHome(start)
  {
    var start := Triggered(Glide(327, 327, 0), 16583, false, FASTEST);
    assert start == Glide(327, 16583, 16255);
    var one := Block(start);
    assert one == start.(value := 16582);
    AfterOne(start, 0);
    AfterOne(start, 1);
    AfterOne(one, 0);
    assert !Between(After(start, 1).value, After(start, 1 + 1).value, start.target);
  }

  // ---- The voice ----

  class Voice {
    var pitchValue: int16
    var pitchTarget: int16
    var pitchIncrement: int16

    ghost function Abs(): Glide
      reads this
    {
      Glide(pitchValue, pitchTarget, pitchIncrement)
    }

    constructor ()
      ensures Abs() == Glide(0, 0, 0)
    {
      pitchValue, pitchTarget, pitchIncrement := 0, 0, 0;
    }

    method Trigger(note: nat, restart: bool, rate: nat)
      requires note < 0x1_0000 && rate < 0x1_0000
      modifies this
      ensures Abs() == Triggered(old(Abs()), note, restart, rate)
      ensures pitchTarget == Wrap16(note)
      ensures pitchValue == if old(pitchValue) == 0 || restart then pitchTarget else old(pitchValue)
    {
      pitchTarget := Wrap16(note);
      if pitchValue == 0 || restart {
        pitchValue := pitchTarget;
        pitchIncrement := 1;
      } else {
        var delta := Wrap16(pitchTarget - pitchValue);
        pitchIncrement := HighWord(delta * rate);
        if pitchIncrement == 0 {
          if delta < 0 {
            pitchIncrement := -1;
          } else {
            pitchIncrement := 1;
          }
        }
      }
    }

    /** The part of `RenderOscillators` that moves the pitch. */
    method ApplyPortamento()
      modifies this
      ensures Abs() == Block(old(Abs()))
    {
      var basePitch := Wrap16(pitchValue + pitchIncrement);
      if (pitchIncrement > 0) != (basePitch < pitchTarget) {
        basePitch := pitchTarget;
        pitchIncrement := 0;
      }
      pitchValue := basePitch;
    }
  }
}
