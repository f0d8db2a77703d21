/** The game overlay: a pure function of the elapsed time since the game
    started that draws, into the upper half of the canvas, a countdown, the
    target pictogram (large, or small next to a round counter) or a closing
    iris. Canvas calls are returned as abstract commands. */
module RenderUI {
  import Arith

  /** Length of the countdown before the first round. */
  const CountdownTime: nat := 3000
  /** `INTERVAL_TIME`: length of one slot of a round. */
  const IntervalTime: nat := 800
  /** `SPLIT_NUM`: slots per round. */
  const SplitNum: nat := 5
  /** `multi`: length of one round. */
  const RoundTime: nat := IntervalTime * SplitNum
  /** The counter's denominator, and the number of rounds with a big pictogram. */
  const MaxRounds: nat := 6

  /** Text drawn by the overlay: the countdown digit or the `count/max` counter. */
  datatype Label = Digit(n: int) | Fraction(num: int, den: int)

  /** The drawing calls the overlay makes, with their geometry. `Iris` is the
      focus effect: a black `w × h` rectangle with a circle of `radius` around
      `(cx, cy)` cut out of it, composited at the canvas origin. */
  datatype UICmd =
    | ClearRect(x: real, y: real, w: real, h: real)
    | FillRect(x: real, y: real, w: real, h: real)
    | FillText(text: Label, x: real, y: real)
    | DrawImage(src: string, x: real, y: real, w: real, h: real)
    | Iris(w: real, h: real, cx: real, cy: real, radius: real)

  /** Canvas dimensions; the overlay owns the half above `height / 2`. */
  datatype Screen = Screen(width: real, height: real)

  ghost predicate ValidScreen(s: Screen) {
    s.width >= 0.0 && s.height >= 0.0
  }

  /** The upper half of the canvas, as a rectangle command would cover it. */
  ghost predicate CoversUpperHalf(s: Screen, c: UICmd) {
    match c
    case ClearRect(x, y, w, h) => x == 0.0 && y == 0.0 && w == s.width && h == s.height / 2.0
    case FillRect(x, y, w, h) => x == 0.0 && y == 0.0 && w == s.width && h == s.height / 2.0
    case _ => false
  }

  // ---------------------------------------------------------------------
  // Time arithmetic, written as the source computes it.

  /** `Math.floor(4 - time / 1000)`. */
  function CountdownDigit(t: nat): int {
    (4.0 - t as real / 1000.0).Floor
  }

  /** `Math.floor(elapsedTime / INTERVAL_TIME / 5)`: the round number. */
  function RoundOf(e: nat): int {
    (e as real / IntervalTime as real / 5.0).Floor
  }

  /** `Math.floor(elapsedTime / INTERVAL_TIME) % 5`: the slot within the round. */
  function SlotOf(e: nat): int {
    (e as real / IntervalTime as real).Floor % 5
  }

  /** `(elapsedTime % multi) / multi`: progress through the current round. */
  function SplitOf(e: nat): real {
    (e % RoundTime) as real / RoundTime as real
  }

  /** Flooring an exact quotient of naturals is integer division. */
  lemma FloorOfQuotient(e: nat, d: nat)
    requires d > 0
    ensures (e as real / d as real).Floor == e / d
  {
    var q, r := e / d, e % d;
    assert e == d * q + r;
    var x := e as real / d as real;
    assert x == q as real + r as real / d as real;
    assert 0.0 <= r as real / d as real < 1.0;
  }

  /** The countdown digit is `4 - ceil(t / 1000)`: 4 only at the very start,
      then 3, 2 and 1 for the three following seconds (up to and including
      each full second). */
  lemma CountdownDigitIsCeiling(t: nat)
    ensures CountdownDigit(t) == 4 - (t + 999) / 1000
    ensures t < CountdownTime ==> 1 <= CountdownDigit(t) <= 4
    ensures t < CountdownTime ==> (CountdownDigit(t) == 4 <==> t == 0)
  {
    var c := (t + 999) / 1000;
    assert t + 999 == 1000 * c + (t + 999) % 1000;
    var x := 4.0 - t as real / 1000.0;
    assert (4 - c) as real <= x < (4 - c) as real + 1.0;
  }

  /** The source's floors are integer divisions: the round is the number of
      whole 4000 ms periods since the countdown, the slot the number of whole
      800 ms periods within the current one, and the progress is the
      fraction of the current round already elapsed. */
  lemma {:induction false} TimingIsDivision(e: nat)
    ensures RoundOf(e) == e / RoundTime
    ensures SlotOf(e) == (e / IntervalTime) % SplitNum
    ensures SlotOf(e) == (e % RoundTime) / IntervalTime
    ensures 0 <= SlotOf(e) < SplitNum
    ensures 0.0 <= SplitOf(e) < 1.0
  {
    assert e as real / 800.0 / 5.0 == e as real / 4000.0;
    FloorOfQuotient(e, 4000);
    FloorOfQuotient(e, 800);
    var k := e / 800;
    assert e == 800 * k + e % 800;
    var q := k / 5;
    var s := k % 5;
    assert k == 5 * q + s;
    assert e == 4000 * q + (800 * s + e % 800);
    Arith.ModUnique(e, 4000, q, 800 * s + e % 800);
    assert e % 4000 == 800 * s + e % 800;
    assert (800 * s + e % 800) / 800 == s;
  }

  /** Slot and round pin the time down to one 800 ms window, and back. */
  lemma SlotWindow(e: nat, round: nat, slot: nat)
    requires slot < SplitNum
    ensures (RoundOf(e) == round && SlotOf(e) == slot) <==>
            (RoundTime * round + IntervalTime * slot <= e < RoundTime * round + IntervalTime * (slot + 1))
  {
    TimingIsDivision(e);
    var lo := RoundTime * round + IntervalTime * slot;
    if RoundOf(e) == round && SlotOf(e) == slot {
      assert e == 4000 * round + e % 4000;
      assert e % 4000 == 800 * slot + (e % 4000) % 800;
    }
    if lo <= e < lo + IntervalTime {
      Arith.ModUnique(e, 4000, round, e - 4000 * round);
      assert e / 4000 == round;
      assert e % 4000 == 800 * slot + (e - lo);
      assert (e % 4000) / 800 == slot;
    }
  }

  /** The round counter never decreases as time goes on. */
  lemma RoundMonotone(e1: nat, e2: nat)
    requires e1 <= e2
    ensures RoundOf(e1) <= RoundOf(e2)
  {
    TimingIsDivision(e1);
    TimingIsDivision(e2);
    Arith.DivMono(e1, e2, RoundTime);
  }

  /** The round counter is the same throughout each 4000 ms round. */
  lemma RoundConstantInCycle(e: nat, round: nat)
    requires RoundTime * round <= e < RoundTime * (round + 1)
    ensures RoundOf(e) == round
  {
    TimingIsDivision(e);
    Arith.ModUnique(e, RoundTime, round, e - RoundTime * round);
  }

  // ---------------------------------------------------------------------
  // Drawing routines.

  /** `'/pictograms/' + pictograms[index]`; an index past the end reads
      `undefined`, which JavaScript concatenates as the text "undefined". */
  function PictogramSrc(index: nat, pictograms: seq<string>): (src: string)
    ensures index < |pictograms| ==> src == "/pictograms/" + pictograms[index]
    ensures index >= |pictograms| ==> src == "/pictograms/undefined"
  {
    "/pictograms/" + (if index < |pictograms| then pictograms[index] else "undefined")
  }

  /** `drawCountDownUI(time)`. */
  function DrawCountDownUI(s: Screen, t: nat): seq<UICmd> {
    [ ClearRect(0.0, 0.0, s.width, s.height / 2.0),
      FillRect(0.0, 0.0, s.width, s.height / 2.0),
      FillText(Digit(CountdownDigit(t)), s.width / 2.0 - 100.0, (s.height - 100.0) / 2.0) ]
  }

  /** `drawBigPictogramUI(index, pictograms)`. */
  function DrawBigPictogramUI(s: Screen, index: nat, pictograms: seq<string>): seq<UICmd> {
    [ ClearRect(0.0, 0.0, s.width, s.height / 2.0),
      FillRect(0.0, 0.0, s.width, s.height / 2.0),
      DrawImage(PictogramSrc(index, pictograms), s.width / 8.0, s.height / 32.0, s.width * 0.75, s.width * 0.75) ]
  }

  /** `drawSmallPictogramUI(index, pictograms)`: bottom-left corner of the
      overlay, a quarter of the width wide, without clearing. */
  function DrawSmallPictogramUI(s: Screen, index: nat, pictograms: seq<string>): seq<UICmd> {
    [ DrawImage(PictogramSrc(index, pictograms), 0.0, s.height / 2.0 - s.width * 0.25, s.width * 0.25, s.width * 0.25) ]
  }

  /** `drawCountUpUI(count, max)`: the counter `count/max`, with the count
      clamped to `max`. */
  function DrawCountUpUI(s: Screen, count: int, max: int): (r: seq<UICmd>)
    ensures |r| == 1 && r[0].FillText? && r[0].text.Fraction?
    ensures r[0].text.num <= max && r[0].text.den == max
    ensures r[0].text.num == count || (count > max && r[0].text.num == max)
  {
    var shown := if count > max then max else count;
    [ FillText(Fraction(shown, max), s.width * 0.75, s.height / 2.0 - 40.0) ]
  }

  /** `drawFocusUI(time)`: the iris, centred in the overlay, with radius
      `width - width * 0.5 * time`. */
  function DrawFocusUI(s: Screen, time: real): seq<UICmd> {
    [ Iris(s.width, s.height / 2.0, s.width / 2.0, s.height / 4.0, s.width - s.width * 0.5 * time) ]
  }

  /** `drawGameUI(time, pictograms)`: the countdown before 3000 ms, then per
      800 ms slot of each 4000 ms round: the big pictogram in slots 0 and 1
      (only for the first six rounds), the small pictogram and the counter in
      slots 2 and 3, the iris in slot 4. */
  function DrawGameUI(s: Screen, t: nat, pictograms: seq<string>): (r: seq<UICmd>)
    requires ValidScreen(s)
    ensures forall c :: c in r && (c.ClearRect? || c.FillRect?) ==> CoversUpperHalf(s, c)
    ensures forall c :: c in r && c.FillText? && c.text.Fraction? ==> 1 <= c.text.num <= c.text.den == MaxRounds
    ensures forall c :: c in r && c.FillText? && c.text.Digit? ==> 1 <= c.text.n <= 4
  {
    if t < CountdownTime then
      CountdownDigitIsCeiling(t);
      DrawCountDownUI(s, t)
    else
      var elapsed: nat := t - CountdownTime;
      var count := RoundOf(elapsed);
      var index := SlotOf(elapsed);
      var splitTime := SplitOf(elapsed);
      TimingIsDivision(elapsed);
      if index < 2 then
        if count < SplitNum + 1 then DrawBigPictogramUI(s, count, pictograms) else []
      else if index == 4 then
        DrawFocusUI(s, splitTime)
      else
        DrawSmallPictogramUI(s, count, pictograms) + DrawCountUpUI(s, count + 1, MaxRounds)
  }

  // ---------------------------------------------------------------------
  // Properties of the overlay over time.

  /** Before 3000 ms only the countdown is drawn: the upper half is cleared and
      filled, then the digit is written. */
  lemma CountdownPhase(s: Screen, t: nat, pictograms: seq<string>)
    requires ValidScreen(s) && t < CountdownTime
    ensures var r := DrawGameUI(s, t, pictograms);
      && |r| == 3
      && CoversUpperHalf(s, r[0]) && r[0].ClearRect?
      && CoversUpperHalf(s, r[1]) && r[1].FillRect?
      && r[2] == FillText(Digit(4 - (t + 999) / 1000), s.width / 2.0 - 100.0, (s.height - 100.0) / 2.0)
  {
    CountdownDigitIsCeiling(t);
  }

  /** Slots 0 and 1 of the first six rounds clear the upper half and show that
      round's pictogram large; of later rounds, they draw nothing. */
  lemma RevealPhase(s: Screen, t: nat, pictograms: seq<string>, round: nat, slot: nat)
    requires ValidScreen(s) && slot < 2
    requires t >= CountdownTime + RoundTime * round + IntervalTime * slot
    requires t < CountdownTime + RoundTime * round + IntervalTime * (slot + 1)
    ensures var r := DrawGameUI(s, t, pictograms);
      && (round < MaxRounds ==>
            && |r| == 3
            && CoversUpperHalf(s, r[0]) && r[0].ClearRect?
            && CoversUpperHalf(s, r[1]) && r[1].FillRect?
            && r[2].DrawImage? && r[2].src == PictogramSrc(round, pictograms)
            && r[2].w == s.width * 0.75)
      && (round >= MaxRounds ==> r == [])
  {
    SlotWindow(t - CountdownTime, round, slot);
  }

  /** Slots 2 and 3 draw the round's pictogram small, over the live image (no
      clearing), and the counter `round + 1` over 6, clamped at 6. An index
      past the end of the list yields the "undefined" image path. */
  lemma ChallengePhase(s: Screen, t: nat, pictograms: seq<string>, round: nat, slot: nat)
    requires ValidScreen(s) && 2 <= slot < 4
    requires t >= CountdownTime + RoundTime * round + IntervalTime * slot
    requires t < CountdownTime + RoundTime * round + IntervalTime * (slot + 1)
    ensures var r := DrawGameUI(s, t, pictograms);
      && |r| == 2
      && r[0].DrawImage? && r[0].w == s.width * 0.25
      && (round < |pictograms| ==> r[0].src == "/pictograms/" + pictograms[round])
      && (round >= |pictograms| ==> r[0].src == "/pictograms/undefined")
      && r[1].FillText?
      && r[1].text == Fraction(if round + 1 > MaxRounds then MaxRounds else round + 1, MaxRounds)
      && forall c :: c in r ==> !c.ClearRect? && !c.FillRect?
  {
    SlotWindow(t - CountdownTime, round, slot);
  }

  /** The iris radius of the focus slot, as a function of the elapsed time. */
  function FocusRadius(s: Screen, e: nat): real {
    s.width - s.width * 0.5 * SplitOf(e)
  }

  /** In slot 4 the round's progress `splitTime` lies in [0.8, 1). */
  lemma FocusProgress(e: nat, round: nat)
    requires RoundTime * round + IntervalTime * 4 <= e < RoundTime * (round + 1)
    ensures 0.8 <= SplitOf(e) < 1.0
  {
    Arith.ModUnique(e, RoundTime, round, e - RoundTime * round);
    assert 3200 <= e % RoundTime < 4000;
    assert SplitOf(e) * 4000.0 == (e % RoundTime) as real;
  }

  lemma IrisBounds(w: real, sp: real)
    requires w > 0.0 && 0.8 <= sp < 1.0
    ensures 0.5 * w < w - w * 0.5 * sp <= 0.6 * w
  {
    assert w - w * 0.5 * sp == w * (1.0 - 0.5 * sp);
  }

  /** Slot 4 draws only the iris; the round's progress is in [0.8, 1), so the
      radius lies in (0.5 × width, 0.6 × width]. */
  lemma FocusPhase(s: Screen, t: nat, pictograms: seq<string>, round: nat)
    requires ValidScreen(s) && s.width > 0.0
    requires t >= CountdownTime + RoundTime * round + IntervalTime * 4
    requires t < CountdownTime + RoundTime * (round + 1)
    ensures var e := t - CountdownTime;
      && 0.8 <= SplitOf(e) < 1.0
      && DrawGameUI(s, t, pictograms) == [Iris(s.width, s.height / 2.0, s.width / 2.0, s.height / 4.0, FocusRadius(s, e))]
      && 0.5 * s.width < FocusRadius(s, e) <= 0.6 * s.width
  {
    var e := t - CountdownTime;
    SlotWindow(e, round, 4);
    FocusDraw(s, t, pictograms);
    FocusProgress(e, round);
    var sp := SplitOf(e);
    IrisBounds(s.width, sp);
    assert FocusRadius(s, e) == s.width - s.width * 0.5 * sp;
  }

  lemma FocusDraw(s: Screen, t: nat, pictograms: seq<string>)
    requires ValidScreen(s) && t >= CountdownTime && SlotOf(t - CountdownTime) == 4
    ensures DrawGameUI(s, t, pictograms) == DrawFocusUI(s, SplitOf(t - CountdownTime))
  {
  }

  lemma PositiveProduct(a: real, b: real)
    requires a > 0.0 && b > 0.0
    ensures a * b > 0.0
  {
  }

  /** Within one focus slot the iris keeps closing: later means smaller. */
  lemma FocusShrinks(s: Screen, t1: nat, t2: nat, round: nat)
    requires ValidScreen(s) && s.width > 0.0
    requires CountdownTime + RoundTime * round + IntervalTime * 4 <= t1 < t2
    requires t2 < CountdownTime + RoundTime * (round + 1)
    ensures FocusRadius(s, t2 - CountdownTime) < FocusRadius(s, t1 - CountdownTime)
  {
    var e1, e2 := t1 - CountdownTime, t2 - CountdownTime;
    Arith.ModUnique(e1, RoundTime, round, e1 - RoundTime * round);
    Arith.ModUnique(e2, RoundTime, round, e2 - RoundTime * round);
    assert e1 % RoundTime < e2 % RoundTime;
    var d := SplitOf(e2) - SplitOf(e1);
    assert d * 4000.0 == (e2 % RoundTime - e1 % RoundTime) as real;
    assert d > 0.0;
    PositiveProduct(s.width * 0.5, d);
    assert FocusRadius(s, e1) - FocusRadius(s, e2) == s.width * 0.5 * d;
  }

  /** Past the countdown exactly one of the three slot kinds applies, and the
      big pictogram is only ever drawn for rounds 0 to 5. */
  lemma SlotsPartitionRound(s: Screen, t: nat, pictograms: seq<string>)
    requires ValidScreen(s) && t >= CountdownTime
    ensures var slot := SlotOf(t - CountdownTime);
      && 0 <= slot < SplitNum
      && (if slot < 2 then 1 else 0) + (if slot == 4 then 1 else 0) + (if 2 <= slot < 4 then 1 else 0) == 1
    ensures forall c :: c in DrawGameUI(s, t, pictograms) && c.DrawImage? && c.w == s.width * 0.75 && s.width > 0.0 ==>
              exists k :: 0 <= k < MaxRounds && c.src == PictogramSrc(k, pictograms)
  {
    var e := t - CountdownTime;
    TimingIsDivision(e);
    var r := DrawGameUI(s, t, pictograms);
    var round := RoundOf(e);
    forall c | c in r && c.DrawImage? && c.w == s.width * 0.75 && s.width > 0.0
      ensures exists k :: 0 <= k < MaxRounds && c.src == PictogramSrc(k, pictograms)
    {
      assert SlotOf(e) < 2;
      assert c.src == PictogramSrc(round, pictograms);
    }
  }
}
