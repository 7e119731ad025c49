/**
 The envelope: segments from where the value is to the target of a stage, one after the other.
 The shape of a segment comes from a table, of which only its being a table of bytes is used.
 */
module Envelope {
  import opened Bytes
  import opened Arithmetic

  const ATTACK := 0
  const DECAY := 1
  const SUSTAIN := 2
  const RELEASE := 3
  const DEAD := 4
  const NUM_STAGES := 5
  const CURVE_SIZE := 257
  const MAX_TIME := 127

  /** `uint16_t`. */
  type word = x: int | 0 <= x < 0x1_0000

  // ---- Mixing ----

  /** `U8MixU16`. */
  function Mix(a: byte, b: byte, balance: byte): (r: word)
    ensures 255 * Least(a, b) <= r <= 255 * Greatest(a, b)
  {
    MixBounds(a, b, balance);
    a * (255 - balance) + b * balance
  }

  function Least(a: byte, b: byte): nat {
    if a < b then a else b
  }

  function Greatest(a: byte, b: byte): nat {
    if a < b then b else a
  }

  lemma MixBounds(a: byte, b: byte, balance: byte)
    ensures 255 * Least(a, b) <= a as int * (255 - balance as int) + b as int * balance as int <= 255 * Greatest(a, b)
  {
    var lo, hi, w, v := Least(a, b), Greatest(a, b), balance as nat, 255 - balance as nat;
    MulMonotone(lo, a, v);
    MulMonotone(lo, b, w);
    MulMonotone(a, hi, v);
    MulMonotone(b, hi, w);
    assert lo * v + lo * w == lo * (v + w) && hi * v + hi * w == hi * (v + w);
  }

  lemma MixFull(a: byte, b: byte)
    ensures Mix(a, b, 255) == 255 * b
  {
  }

  /** `InterpolateSample`. */
  function Interpolate(curve: seq<byte>, phase: word): byte
    requires |curve| == CURVE_SIZE
  {
    (Mix(curve[phase / 256], curve[phase / 256 + 1], phase % 256) / 256) as byte
  }

  // ---- The envelope as a value ----

  /** `start` and `end` are those of the current segment; `increments` and `targets` have one entry per stage. */
  datatype Env = Env(
    stage: nat, start: byte, end: byte, increment: word, phase: word, value: word, increments: seq<word>,
    targets: seq<byte>)

  /** The entries that `Init` sets never change. */
  ghost predicate Tabled(e: Env) {
    && |e.increments| == NUM_STAGES == |e.targets|
    && e.targets[ATTACK] == 255 && e.targets[RELEASE] == 0 == e.targets[DEAD]
    && e.increments[SUSTAIN] == 0 == e.increments[DEAD]
  }

  ghost predicate WellFormed(e: Env) {
    && Tabled(e) && e.stage < NUM_STAGES
    && (e.increment > 0 ==> e.stage != SUSTAIN && e.stage != DEAD)
    && (e.stage == DEAD ==> e.value == 0 && e.start == 0 && e.end == 0)
  }

  function Triggered(e: Env, stage: nat): (r: Env)
    requires Tabled(e) && stage < NUM_STAGES
    ensures WellFormed(r)
  {
    var value := if stage == DEAD then 0 else e.value;
    Env(stage, value / 256, e.targets[stage], e.increments[stage], 0, value, e.increments, e.targets)
  }

  function Updated(e: Env, attack: word, decay: word, sustain: byte, release: word): (r: Env)
    requires WellFormed(e)
    ensures WellFormed(r)
  {
    var target: byte := 2 * sustain % 256;
    e.(increments := e.increments[ATTACK := attack][DECAY := decay][RELEASE := release],
       targets := e.targets[DECAY := target][SUSTAIN := target])
  }

  /** The phase runs over: the segment ends on its target and the next stage begins. */
  predicate Ends(e: Env) {
    e.phase + e.increment >= 0x1_0000
  }

  function Advanced(e: Env): (r: Env)
    requires WellFormed(e)
    ensures WellFormed(r)
  {
    if Ends(e) then Triggered(e.(value := 255 * e.end), e.stage + 1) else e.(phase := e.phase + e.increment)
  }

  function Rendered(e: Env, curve: seq<byte>): (r: Env)
    requires WellFormed(e) && |curve| == CURVE_SIZE
    ensures WellFormed(r)
  {
    var a := Advanced(e);
    if a.increment > 0 then a.(value := Mix(a.start, a.end, Interpolate(curve, a.phase))) else a
  }

  // ---- How long a segment lasts ----

  function AfterRenders(e: Env, n: nat, curve: seq<byte>): (r: Env)
    requires WellFormed(e) && |curve| == CURVE_SIZE
    ensures WellFormed(r)
    decreases n
  {
    if n == 0 then e else AfterRenders(Rendered(e, curve), n - 1, curve)
  }

  lemma OneRender(e: Env, curve: seq<byte>)
    requires WellFormed(e) && |curve| == CURVE_SIZE
    ensures var r := Rendered(e, curve);
            && r.increments == e.increments && r.targets == e.targets
            && r.stage == (if Ends(e) then e.stage + 1 else e.stage)
            && r.phase == (if Ends(e) then 0 else e.phase + e.increment)
            && (!Ends(e) ==> r.increment == e.increment && r.start == e.start && r.end == e.end)
  {
    hide Mix, Interpolate;
  }

  /** A segment is left by the render that completes its phase, and stages are never gone back to. */
  lemma {:induction false} SegmentLasts(e: Env, n: nat, curve: seq<byte>)
    requires WellFormed(e) && |curve| == CURVE_SIZE
    ensures AfterRenders(e, n, curve).stage >= e.stage
    ensures e.increment > 0 ==>
              (AfterRenders(e, n, curve).stage == e.stage <==> e.phase + n * e.increment < 0x1_0000)
    decreases n
  {
    hide Rendered;
    if n > 0 {
      OneRender(e, curve);
      SegmentLasts(Rendered(e, curve), n - 1, curve);
      Distribute(n - 1, e.increment);
      Longer(e.increment, n - 1);
    }
  }

  lemma Longer(increment: word, n: nat)
    ensures n * increment >= 0
  {
  }

  /** The time that a stage was last given. */
  function TimeOf(stage: nat, attack: byte, decay: byte, release: byte): byte
    requires stage == ATTACK || stage == DECAY || stage == RELEASE
  {
    if stage == ATTACK then attack else if stage == DECAY then decay else release
  }

  /**
   After an update the attack, the decay and the release each last until as many increments of their own time have
   filled the phase, and head for full level, the sustain level and silence.
   */
  lemma StagesTakeTheirTime(
      e: Env, a: byte, d: byte, s: byte, r: byte, table: seq<word>, curve: seq<byte>, stage: nat, n: nat)
    requires WellFormed(e) && IsTable(table) && Fits(Update(a, d, s, r)) && |curve| == CURVE_SIZE
    requires stage == ATTACK || stage == DECAY || stage == RELEASE
    ensures var start := Triggered(Updated(e, table[a], table[d], s, table[r]), stage);
            && start.stage == stage
            && start.end as int ==
               (if stage == ATTACK then 255 else if stage == DECAY then 2 * s as int % 256 else 0)
            && TimeOf(stage, a, d, r) as int < |table|
            && (AfterRenders(start, n, curve).stage == stage <==> n * table[TimeOf(stage, a, d, r)] < 0x1_0000)
            && AfterRenders(start, n, curve).stage >= stage
  {
    SegmentLasts(Triggered(Updated(e, table[a], table[d], s, table[r]), stage), n, curve);
    hide AfterRenders, Rendered, Mix, Interpolate;
  }

  // ---- The shape of a segment ----

  lemma MixIsMonotone(a: byte, b: byte, x: byte, y: byte)
    requires x <= y
    ensures a <= b ==> 255 * a <= Mix(a, b, x) <= Mix(a, b, y) <= 255 * b
    ensures b <= a ==> 255 * b <= Mix(a, b, y) <= Mix(a, b, x) <= 255 * a
  {
    if a <= b {
      MulMonotone(x as nat, y as nat, (b - a) as nat);
    } else {
      MulMonotone(x as nat, y as nat, (a - b) as nat);
    }
    MixIs(a, b, x);
    MixIs(a, b, y);
    hide Mix;
  }

  lemma MixIs(a: byte, b: byte, x: byte)
    ensures Mix(a, b, x) as int == 255 * a as int + x as int * (b as int - a as int)
  {
  }

  ghost predicate Rises(curve: seq<byte>) {
    forall i, j :: 0 <= i <= j < |curve| ==> curve[i] <= curve[j]
  }

  /** On its knots an interpolated curve is the curve, and in between it lies between them. */
  lemma InterpolateIsBetween(curve: seq<byte>, phase: word)
    requires |curve| == CURVE_SIZE
    ensures var (a, b) := (curve[phase / 256], curve[phase / 256 + 1]);
            && 255 * Least(a, b) <= 256 * Interpolate(curve, phase) as int + 255
            && 256 * Interpolate(curve, phase) as int <= 255 * Greatest(a, b)
            && (phase % 256 == 0 ==> Interpolate(curve, phase) as int == 255 * a as int / 256)
  {
    MixIs(curve[phase / 256], curve[phase / 256 + 1], 0);
  }

  lemma InterpolateIsMonotone(curve: seq<byte>, p: word, q: word)
    requires |curve| == CURVE_SIZE && Rises(curve) && p <= q
    ensures Interpolate(curve, p) <= Interpolate(curve, q)
  {
    var i, j := p / 256, q / 256;
    MixIsMonotone(curve[i], curve[i + 1], p % 256, 255);
    MixIsMonotone(curve[j], curve[j + 1], 0, q % 256);
    if i == j {
      MixIsMonotone(curve[i], curve[i + 1], p % 256, q % 256);
    } else {
      assert curve[i + 1] <= curve[j];
    }
    hide Mix;
  }

  /** With a curve that rises, a segment moves from its start to its end without turning back. */
  lemma SegmentIsMonotone(e: Env, curve: seq<byte>)
    requires WellFormed(e) && |curve| == CURVE_SIZE && Rises(curve) && e.increment > 0
    requires !Ends(e) && !Ends(Rendered(e, curve))
    ensures var (one, two) := (Rendered(e, curve), Rendered(Rendered(e, curve), curve));
            && one.start == two.start == e.start && one.end == two.end == e.end
            && (e.start <= e.end ==> 255 * e.start <= one.value <= two.value <= 255 * e.end)
            && (e.end <= e.start ==> 255 * e.end <= two.value <= one.value <= 255 * e.start)
  {
    OneRender(e, curve);
    OneRender(Rendered(e, curve), curve);
    var p, q := e.phase + e.increment, e.phase + 2 * e.increment;
    InterpolateIsMonotone(curve, p, q);
    MixIsMonotone(e.start, e.end, Interpolate(curve, p), Interpolate(curve, q));
    hide Mix, Interpolate;
  }

  // ---- Where the value lies ----

  ghost predicate InSegment(e: Env) {
    255 * Least(e.start, e.end) <= e.value <= 255 * Greatest(e.start, e.end)
  }

  /** A trigger makes no jump: what the new segment renders at its start is at most 510 below the value, never above. */
  lemma SegmentStartsAtValue(e: Env, stage: nat)
    requires WellFormed(e) && stage < NUM_STAGES && stage != DEAD
    ensures var r := Triggered(e, stage);
            && r.value == e.value && r.phase == 0
            && Mix(r.start, r.end, 0) <= e.value <= Mix(r.start, r.end, 0) + 510
  {
    var r := Triggered(e, stage);
    assert Mix(r.start, r.end, 0) == 255 * r.start;
  }

  /** While a segment moves, every rendered value lies between its ends; so it does when the envelope is dead. */
  lemma MovingIsInSegment(e: Env, curve: seq<byte>)
    requires WellFormed(e) && |curve| == CURVE_SIZE
    ensures var r := Rendered(e, curve); r.increment > 0 || r.stage == DEAD ==> InSegment(r)
  {
  }

  /**
   The value with which the decay arrives lies between the ends of the sustain segment exactly when the
   sustain level has not been lowered since the decay began.
   */
  lemma SustainIsInSegment(e: Env, curve: seq<byte>)
    requires WellFormed(e) && |curve| == CURVE_SIZE && e.stage == DECAY && Ends(e)
    ensures var r := Rendered(e, curve);
            && r.stage == SUSTAIN && r.value == 255 * e.end
            && (InSegment(r) <==> e.end <= e.targets[SUSTAIN])
  {
    var r := Rendered(e, curve);
    assert r.value == 255 * e.end && r.start == r.value / 256 && r.end == e.targets[SUSTAIN];
    assert r.start == if e.end == 0 then 0 else e.end - 1;
  }

  // ---- Every run ----

  datatype Event = Update(attack: byte, decay: byte, sustain: byte, release: byte) | Render | Trigger(stage: nat)

  /** The increments come from a table of positive entries, one for every time. */
  ghost predicate IsTable(table: seq<word>) {
    |table| == MAX_TIME + 1 && forall i :: 0 <= i < |table| ==> table[i] > 0
  }

  ghost predicate Fits(event: Event) {
    match event
    case Update(a, d, s, r) => a as int <= MAX_TIME && d as int <= MAX_TIME && r as int <= MAX_TIME
    case Render => true
    case Trigger(stage) => stage < NUM_STAGES
  }

  function Applied(e: Env, event: Event, table: seq<word>, curve: seq<byte>): (r: Env)
    requires WellFormed(e) && IsTable(table) && |curve| == CURVE_SIZE && Fits(event)
    ensures WellFormed(r)
  {
    match event
    case Update(a, d, s, r) => Updated(e, table[a], table[d], s, table[r])
    case Render => Rendered(e, curve)
    case Trigger(stage) => Triggered(e, stage)
  }

  function AppliedAll(e: Env, events: seq<Event>, table: seq<word>, curve: seq<byte>): (r: Env)
    requires WellFormed(e) && IsTable(table) && |curve| == CURVE_SIZE && forall event :: event in events ==> Fits(event)
    ensures WellFormed(r)
    decreases |events|
  {
    if events == [] then e else AppliedAll(Applied(e, events[0], table, curve), events[1..], table, curve)
  }

  function Renders(events: seq<Event>): nat {
    if events == [] then 0 else (if events[0].Render? then 1 else 0) + Renders(events[1..])
  }

  /** At rest: nothing but a trigger moves the envelope on. */
  predicate Resting(e: Env) {
    e.stage == SUSTAIN || e.stage == DEAD
  }

  /** An upper bound on the renders until the envelope rests. */
  function Remaining(e: Env): nat {
    if Resting(e) then 0 else 0x1_0000 - e.phase + if e.stage == ATTACK then 0x1_0000 else 0
  }

  /** On its way: the current segment moves, and so will the one after it. */
  ghost predicate Moving(e: Env) {
    WellFormed(e) && (!Resting(e) ==> e.increment > 0) && e.increments[DECAY] > 0
  }

  /** Where a stage leads without a trigger. */
  function Rest(stage: nat): nat {
    if stage <= SUSTAIN then SUSTAIN else DEAD
  }

  lemma StepTowardsRest(e: Env, event: Event, table: seq<word>, curve: seq<byte>)
    requires Moving(e) && IsTable(table) && |curve| == CURVE_SIZE && Fits(event) && !event.Trigger?
    ensures var r := Applied(e, event, table, curve);
            && Moving(r) && Rest(r.stage) == Rest(e.stage)
            && Remaining(r) <= Remaining(e)
            && (event.Render? && Remaining(e) > 0 ==> Remaining(r) < Remaining(e))
            && (Resting(e) ==> r.stage == e.stage && r.value == e.value)
  {
    hide Mix, Interpolate;
  }

  /**
   Whatever updates come between, an attack ends in a constant sustain and a release in silence, after
   finitely many renders.
   */
  lemma {:induction false} EnvelopeRests(e: Env, events: seq<Event>, table: seq<word>, curve: seq<byte>)
    requires Moving(e) && IsTable(table) && |curve| == CURVE_SIZE
    requires forall event :: event in events ==> Fits(event) && !event.Trigger?
    ensures var r := AppliedAll(e, events, table, curve);
            && Moving(r) && Rest(r.stage) == Rest(e.stage)
            && (Renders(events) >= Remaining(e) ==> r.stage == Rest(e.stage))
            && (r.stage == DEAD ==> r.value == 0)
            && (Resting(e) ==> r.value == e.value)
    decreases |events|
  {
    hide Applied;
    if events != [] {
      StepTowardsRest(e, events[0], table, curve);
      EnvelopeRests(Applied(e, events[0], table, curve), events[1..], table, curve);
    }
  }

  /** What `Init` and the `Kill` after it leave. */
  const INITIAL := Env(DEAD, 0, 0, 0, 0, 0, [0, 0, 0, 0, 0], [255, 0, 0, 0, 0])

  /**
   The value is never below its segment and at most 508 above it: a trigger starts the segment from the
   high byte of the value and forgets the low byte.
   */
  ghost predicate NearSegment(e: Env) {
    && e.value <= 255 * 255 && e.start <= 254
    && 255 * Least(e.start, e.end) <= e.value <= 255 * Greatest(e.start, e.end) + 508
  }

  /**
   After a trigger the value is in the new segment exactly when it is 0 or the target leaves room for its low
   byte.
   */
  lemma TriggerIsInSegment(e: Env, stage: nat)
    requires WellFormed(e) && e.value <= 255 * 255 && stage < NUM_STAGES && stage != DEAD
    ensures var (r, high, low) := (Triggered(e, stage), e.value / 256, e.value % 256);
            && NearSegment(r)
            && (InSegment(r) <==>
               e.value == 0 || r.end as int > high + 1 || (r.end as int == high + 1 && high + low <= 255))
  {
  }

  lemma AppliedIsNear(e: Env, event: Event, table: seq<word>, curve: seq<byte>)
    requires WellFormed(e) && NearSegment(e) && IsTable(table) && |curve| == CURVE_SIZE && Fits(event)
    ensures var r := Applied(e, event, table, curve);
            NearSegment(r) && (event.Render? && (r.increment > 0 || r.stage == DEAD) ==> InSegment(r))
  {
    match event
    case Update(_, _, _, _) =>
    case Trigger(stage) =>
      if stage != DEAD {
        TriggerIsInSegment(e, stage);
      }
    case Render =>
      var ended := e.(value := 255 * e.end);
      if Ends(e) && e.stage + 1 != DEAD {
        TriggerIsInSegment(ended, e.stage + 1);
      }
      MovingIsInSegment(e, curve);
      hide Mix, Interpolate;
  }

  lemma {:induction false} RunStaysNear(e: Env, events: seq<Event>, table: seq<word>, curve: seq<byte>)
    requires WellFormed(e) && NearSegment(e) && IsTable(table) && |curve| == CURVE_SIZE
    requires forall event :: event in events ==> Fits(event)
    ensures var r := AppliedAll(e, events, table, curve);
            && r.stage < NUM_STAGES && NearSegment(r)
            && (events != [] && events[|events| - 1].Render? && (r.increment > 0 || r.stage == DEAD) ==> InSegment(r))
    decreases |events|
  {
    hide Applied, NearSegment, InSegment;
    if events != [] {
      AppliedIsNear(e, events[0], table, curve);
      RunStaysNear(Applied(e, events[0], table, curve), events[1..], table, curve);
    }
  }

  /**
   Over any run of triggers, updates and renders from the start the value stays near its segment; what a
   render of a moving or dead envelope leaves lies in it.
   */
  lemma RunIsNearSegment(events: seq<Event>, table: seq<word>, curve: seq<byte>)
    requires IsTable(table) && |curve| == CURVE_SIZE && forall event :: event in events ==> Fits(event)
    ensures WellFormed(INITIAL)
    ensures var r := AppliedAll(INITIAL, events, table, curve);
            && r.stage < NUM_STAGES && NearSegment(r)
            && (events != [] && events[|events| - 1].Render? && (r.increment > 0 || r.stage == DEAD) ==> InSegment(r))
  {
    assert WellFormed(INITIAL) && NearSegment(INITIAL);
    RunStaysNear(INITIAL, events, table, curve);
  }

  /**
   A level lowered from 200 to 100 during the decay: the sustain segment is 100 to 199, and the value stays
   at 255 times 200.  The times are the shortest; the first entry of the table is the one for them.
   */
  lemma LoweredSustainLeavesSegment(table: seq<word>, curve: seq<byte>)
    requires IsTable(table) && table[0] == 65535 && |curve| == CURVE_SIZE
    ensures var events := [Update(0, 0, 100, 0), Trigger(ATTACK), Render, Render, Update(0, 0, 50, 0), Render, Render];
            var r := AppliedAll(INITIAL, events, table, curve);
            r.stage == SUSTAIN && r.start == 199 && r.end == 100 && r.value == 51000 && !InSegment(r)
  {
    hide Mix, Interpolate;
    var later := [Update(0, 0, 50, 0), Render, Render];
    var decay := AppliedAll(INITIAL, [Update(0, 0, 100, 0), Trigger(ATTACK), Render, Render], table, curve);
    ToDecay(table, curve);
    Lowered(decay, table, curve);
    AppliedInTwo(INITIAL, [Update(0, 0, 100, 0), Trigger(ATTACK), Render, Render], later, table, curve);
    assert [Update(0, 0, 100, 0), Trigger(ATTACK), Render, Render] + later ==
           [Update(0, 0, 100, 0), Trigger(ATTACK), Render, Render, Update(0, 0, 50, 0), Render, Render];
  }

  lemma {:induction false} AppliedInTwo(e: Env, a: seq<Event>, b: seq<Event>, table: seq<word>, curve: seq<byte>)
    requires WellFormed(e) && IsTable(table) && |curve| == CURVE_SIZE && forall event :: event in a + b ==> Fits(event)
    ensures forall event :: event in a ==> Fits(event)
    ensures forall event :: event in b ==> Fits(event)
    ensures AppliedAll(e, a + b, table, curve) == AppliedAll(AppliedAll(e, a, table, curve), b, table, curve)
    decreases |a|
  {
    assert forall event :: event in a ==> event in a + b;
    assert forall event :: event in b ==> event in a + b;
    if a == [] {
      assert a + b == b;
    } else {
      assert (a + b)[1..] == a[1..] + b;
      AppliedInTwo(Applied(e, a[0], table, curve), a[1..], b, table, curve);
    }
  }

  lemma Single(e: Env, event: Event, table: seq<word>, curve: seq<byte>)
    requires WellFormed(e) && IsTable(table) && |curve| == CURVE_SIZE && Fits(event)
    ensures AppliedAll(e, [event], table, curve) == Applied(e, event, table, curve)
  {
    assert [event][1..] == [];
  }

  /** Two renders at the greatest increment end a segment. */
  lemma TwoRenders(e: Env, table: seq<word>, curve: seq<byte>)
    requires WellFormed(e) && IsTable(table) && |curve| == CURVE_SIZE && e.phase == 0 && e.increment == 65535
    ensures var (ended, r) :=
            (Triggered(e.(value := 255 * e.end), e.stage + 1), AppliedAll(e, [Render, Render], table, curve));
            r == if ended.increment > 0 then ended.(value := r.value) else ended
  {
    hide Mix, Interpolate;
    var one := Applied(e, Render, table, curve);
    Single(one, Render, table, curve);
    assert [Render, Render][1..] == [Render];
    assert one == e.(phase := 65535, value := one.value);
  }

  lemma ToDecay(table: seq<word>, curve: seq<byte>)
    requires IsTable(table) && table[0] == 65535 && |curve| == CURVE_SIZE
    ensures var events := [Update(0, 0, 100, 0), Trigger(ATTACK), Render, Render];
            var r := AppliedAll(INITIAL, events, table, curve);
            r == Env(DECAY, 254, 200, 65535, 0, r.value, [65535, 65535, 0, 65535, 0], [255, 200, 200, 0, 0])
  {
    hide Mix, Interpolate;
    var updated := Applied(INITIAL, Update(0, 0, 100, 0), table, curve);
    var attack := Applied(updated, Trigger(ATTACK), table, curve);
    assert attack == Env(ATTACK, 0, 255, 65535, 0, 0, [65535, 65535, 0, 65535, 0], [255, 200, 200, 0, 0]);
    TwoRenders(attack, table, curve);
    assert [Update(0, 0, 100, 0), Trigger(ATTACK), Render, Render][1..] == [Trigger(ATTACK), Render, Render];
    assert [Trigger(ATTACK), Render, Render][1..] == [Render, Render];
  }

  lemma Lowered(e: Env, table: seq<word>, curve: seq<byte>)
    requires IsTable(table) && table[0] == 65535 && |curve| == CURVE_SIZE
    requires e == Env(DECAY, 254, 200, 65535, 0, e.value, [65535, 65535, 0, 65535, 0], [255, 200, 200, 0, 0])
    ensures AppliedAll(e, [Update(0, 0, 50, 0), Render, Render], table, curve) ==
            Env(SUSTAIN, 199, 100, 0, 0, 51000, [65535, 65535, 0, 65535, 0], [255, 100, 100, 0, 0])
  {
    hide *;
    LevelLowered(e, table, curve);
    TwoRenders(e.(targets := [255, 100, 100, 0, 0]), table, curve);
    assert [Update(0, 0, 50, 0), Render, Render] == [Update(0, 0, 50, 0)] + [Render, Render];
    AppliedFirst(e, Update(0, 0, 50, 0), [Render, Render], table, curve);
  }

  lemma AppliedFirst(e: Env, event: Event, events: seq<Event>, table: seq<word>, curve: seq<byte>)
    requires WellFormed(e) && IsTable(table) && |curve| == CURVE_SIZE && forall event :: event in events ==> Fits(event)
    requires Fits(event)
    ensures AppliedAll(e, [event] + events, table, curve) ==
            AppliedAll(Applied(e, event, table, curve), events, table, curve)
  {
    assert ([event] + events)[1..] == events;
  }

  lemma LevelLowered(e: Env, table: seq<word>, curve: seq<byte>)
    requires IsTable(table) && table[0] == 65535 && |curve| == CURVE_SIZE
    requires e == Env(DECAY, 254, 200, 65535, 0, e.value, [65535, 65535, 0, 65535, 0], [255, 200, 200, 0, 0])
    ensures WellFormed(e) && Fits(Update(0, 0, 50, 0)) && Fits(Render)
    ensures var updated := e.(targets := [255, 100, 100, 0, 0]);
            && Applied(e, Update(0, 0, 50, 0), table, curve) == updated
            && WellFormed(updated)
            && Triggered(updated.(value := 255 * e.end), e.stage + 1) ==
               Env(SUSTAIN, 199, 100, 0, 0, 51000, updated.increments, updated.targets)
  {
    hide Mix, Interpolate, Rendered;
  }

  /** The table's increments, once set, stay positive: after any update a trigger starts a moving envelope. */
  lemma TriggerMoves(e: Env, stage: nat, a: byte, d: byte, s: byte, r: byte, table: seq<word>)
    requires WellFormed(e) && stage < NUM_STAGES && IsTable(table) && Fits(Update(a, d, s, r))
    ensures Moving(Triggered(Updated(e, table[a], table[d], s, table[r]), stage))
  {
  }

  // ---- The envelope in place ----

  class Envelope {
    const increments: array<word>
    const targets: array<byte>
    var stage: nat
    var start: byte
    var end: byte
    var increment: word
    var phase: word
    var value: word

    ghost predicate Valid()
      reads this, increments, targets
    {
      WellFormed(Abs())
    }

    ghost function Abs(): Env
      reads this, increments, targets
    {
      Env(stage, start, end, increment, phase, value, increments[..], targets[..])
    }

    /** `Init`, on cleared memory, and the `Kill` that follows it. */
    constructor ()
      ensures Valid() && fresh(increments) && fresh(targets) && Abs() == INITIAL
    {
      increments := new word[NUM_STAGES](i => 0);
      targets := new byte[NUM_STAGES](i => if i == ATTACK then 255 else 0);
      stage, start, end, increment, phase, value := DEAD, 0, 0, 0, 0, 0;
    }

    method Trigger(s: nat)
      requires Tabled(Abs()) && s < NUM_STAGES
      modifies this
      ensures Valid() && Abs() == Triggered(old(Abs()), s)
    {
      if s == DEAD {
        value := 0;
      }
      start := value / 256;
      end := targets[s];
      stage := s;
      phase := 0;
      increment := increments[s];
    }

    method Update(attack: byte, decay: byte, sustain: byte, release: byte, table: seq<word>)
      requires Valid() && IsTable(table) && Fits(Event.Update(attack, decay, sustain, release))
      modifies increments, targets
      ensures Valid() && Abs() == Updated(old(Abs()), table[attack], table[decay], sustain, table[release])
      ensures increments[ATTACK] == table[attack] && increments[DECAY] == table[decay]
      ensures increments[RELEASE] == table[release]
      ensures targets[SUSTAIN] as int == 2 * sustain as int % 256 == targets[DECAY] as int
    {
      increments[ATTACK] := table[attack];
      increments[DECAY] := table[decay];
      increments[RELEASE] := table[release];
      targets[DECAY] := sustain * 2 % 256;
      targets[SUSTAIN] := targets[DECAY];
    }

    method Advance()
      requires Valid()
      modifies this
      ensures Valid() && Abs() == Advanced(old(Abs()))
    {
      hide Mix;
      phase := (phase + increment) % 0x1_0000;
      if phase < increment {
        MixFull(start, end);
        value := Mix(start, end, 255);
        stage := stage + 1;
        Trigger(stage);
      }
    }

    method Render(curve: seq<byte>) returns (r: byte)
      requires Valid() && |curve| == CURVE_SIZE
      modifies this
      ensures Valid() && Abs() == Rendered(old(Abs()), curve) && r == value / 256
    {
      hide Mix, Interpolate, Advanced;
      Advance();
      if increment > 0 {
        var step := Interpolate(curve, phase);
        value := Mix(start, end, step);
      }
      r := value / 256;
    }
  }
}
