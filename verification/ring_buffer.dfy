/** The keypoint smoothing buffer: a ring of the last `2^bitLength` frames
    together with a per-joint running sum of x, y and score, kept in step with
    the ring by subtracting the evicted frame and adding the new one. The
    trailing mean of the ring is read off the running sums. */
module RingBuffer {
  import opened Pose
  import opened Bits
  import opened Arith

  /** One entry of the running sum: the summed coordinates and score of one
      joint, and the name of that joint in the last frame added. */
  datatype Accum = Accum(name: string, x: real, y: real, score: real)

  /** The buffer's fields. A ring slot is `None` until it is first written
      (the holes of a freshly allocated array). */
  datatype Buffer = Buffer(
    bitLength: nat,
    width: nat,
    size: nat,
    mask: nat,
    idx: nat,
    count: nat,
    ring: seq<Option<Frame>>,
    sums: seq<Accum>)

  function Min(a: int, b: int): int {
    if a <= b then a else b
  }

  /** The shape every buffer keeps: consistent sizes, a cursor inside the ring,
      a fill count that saturates at the capacity, and every slot that can be
      read back already written. Before the ring is full the cursor equals the
      fill count. */
  ghost predicate Valid(b: Buffer) {
    && b.bitLength % 32 < 31
    && b.size == Pow2(b.bitLength % 32)
    && b.mask == b.size - 1
    && |b.ring| == b.size
    && |b.sums| == b.width
    && b.idx < b.size
    && b.count <= b.size
    && (b.count < b.size ==> b.idx == b.count)
    && (forall j :: 0 <= j < b.size && b.ring[j].Some? ==> |b.ring[j].value| == b.width)
    && (forall j :: 0 <= j < b.size && (b.count == b.size || j < b.count) ==> b.ring[j].Some?)
  }

  /** `new KeypointsRingBuffer(width, bitLength)`. The capacity is
      `1 << bitLength` with JavaScript's 32-bit shift; when that is negative
      the array allocation throws, modelled as `None`. */
  function New(width: nat, bitLength: nat): (r: Option<Buffer>)
    ensures r.None? <==> bitLength % 32 == 31
    ensures r.Some? ==> Valid(r.value) && r.value.width == width
    ensures r.Some? ==> r.value.size == Pow2(bitLength % 32)
    ensures r.Some? ==> r.value.count == 0 && r.value.idx == 0
    ensures r.Some? ==> forall i :: 0 <= i < width ==> r.value.sums[i] == Accum("", 0.0, 0.0, 0.0)
  {
    var size := ShiftOne(bitLength);
    if size < 0 then None
    else
      Some(Buffer(bitLength, width, size, size - 1, 0, 0,
                  seq(size, _ => None),
                  seq(width, _ => Accum("", 0.0, 0.0, 0.0))))
  }

  /** The contribution of one keypoint's field to the running sum; a missing
      score contributes 0. */
  datatype Field = X | Y | Score

  function Value(k: Keypoint, fld: Field): real {
    match fld
    case X => k.x
    case Y => k.y
    case Score => ScoreOrZero(k.score)
  }

  function Get(a: Accum, fld: Field): real {
    match fld
    case X => a.x
    case Y => a.y
    case Score => a.score
  }

  /** First loop of `add` when the ring is full: take the frame about to be
      overwritten out of the sums. Names are left alone. */
  function Evict(sums: seq<Accum>, evicted: Frame): (r: seq<Accum>)
    requires |evicted| >= |sums|
    ensures |r| == |sums|
    ensures forall i, fld :: 0 <= i < |sums| ==> Get(r[i], fld) == Get(sums[i], fld) - Value(evicted[i], fld)
    ensures forall i :: 0 <= i < |sums| ==> r[i].name == sums[i].name
  {
    seq(|sums|, i requires 0 <= i < |sums| =>
      Accum(sums[i].name,
            sums[i].x - evicted[i].x,
            sums[i].y - evicted[i].y,
            sums[i].score - ScoreOrZero(evicted[i].score)))
  }

  /** Second loop of `add`: put the new frame into the sums and take over its
      joint names. */
  function Accumulate(sums: seq<Accum>, f: Frame): (r: seq<Accum>)
    requires |f| >= |sums|
    ensures |r| == |sums|
    ensures forall i, fld :: 0 <= i < |sums| ==> Get(r[i], fld) == Get(sums[i], fld) + Value(f[i], fld)
    ensures forall i :: 0 <= i < |sums| ==> r[i].name == f[i].name
  {
    seq(|sums|, i requires 0 <= i < |sums| =>
      Accum(f[i].name,
            sums[i].x + f[i].x,
            sums[i].y + f[i].y,
            sums[i].score + ScoreOrZero(f[i].score)))
  }

  /** Writing a full-width frame at the cursor, moving the cursor on by one
      and counting one more frame up to the capacity keeps a buffer valid. */
  lemma StepKeepsValid(b: Buffer, stored: Frame, r: Buffer)
    requires Valid(b) && |stored| == b.width
    requires r.bitLength == b.bitLength && r.width == b.width && r.size == b.size && r.mask == b.mask
    requires r.idx == (b.idx + 1) % b.size
    requires r.count == Min(b.count + 1, b.size)
    requires r.ring == b.ring[b.idx := Some(stored)]
    requires |r.sums| == b.width
    ensures Valid(r)
  {
    if r.count < r.size {
      ModSmall(b.idx + 1, b.size);
    }
    forall j | 0 <= j < r.size && r.ring[j].Some?
      ensures |r.ring[j].value| == r.width
    {
      if j != b.idx { assert r.ring[j] == b.ring[j]; }
    }
    forall j | 0 <= j < r.size && (r.count == r.size || j < r.count)
      ensures r.ring[j].Some?
    {
      if j != b.idx { assert r.ring[j] == b.ring[j]; }
    }
  }

  /** `add(keypoints)`: evict the oldest frame when full (otherwise count one
      more), store the first `width` keypoints at the cursor, add them into the
      sums and advance the cursor with `(idx + 1) & mask`. Reading `width`
      entries of the argument needs at least that many. */
  function Add(b: Buffer, f: Frame): (r: Buffer)
    requires Valid(b) && |f| >= b.width
    ensures Valid(r)
    ensures r.width == b.width && r.size == b.size && r.bitLength == b.bitLength
    ensures r.count == Min(b.count + 1, b.size)
    ensures r.idx == (b.idx + 1) % b.size
    ensures r.ring == b.ring[b.idx := Some(f[..b.width])]
    ensures forall i :: 0 <= i < b.width ==> r.sums[i].name == f[i].name
    ensures b.count < b.size ==>
              forall i, fld :: 0 <= i < b.width ==> Get(r.sums[i], fld) == Get(b.sums[i], fld) + Value(f[i], fld)
    ensures b.count == b.size ==>
              forall i, fld :: 0 <= i < b.width ==>
                Get(r.sums[i], fld) == Get(b.sums[i], fld) - Value(b.ring[b.idx].value[i], fld) + Value(f[i], fld)
  {
    var full := b.count >= b.size;
    var base := if full then Evict(b.sums, b.ring[b.idx].value) else b.sums;
    var stored := f[..b.width];
    MaskIsMod(b.idx + 1, b.bitLength % 32);
    var r := Buffer(b.bitLength, b.width, b.size, b.mask,
                    And(b.idx + 1, b.mask),
                    if full then b.count else b.count + 1,
                    b.ring[b.idx := Some(stored)],
                    Accumulate(base, stored));
    StepKeepsValid(b, stored, r);
    r
  }

  /** `clear()` as written: only the fill count and the cursor are reset; the
      sums and the ring keep their contents. */
  function Clear(b: Buffer): (r: Buffer)
    requires Valid(b)
    ensures Valid(r)
    ensures r.count == 0 && r.idx == 0
    ensures r.sums == b.sums && r.ring == b.ring
  {
    b.(count := 0, idx := 0)
  }

  /** `clear()` as evidently intended: the sums are zeroed as well, so the
      buffer is indistinguishable from a fresh one as far as averages go. */
  function ClearReset(b: Buffer): (r: Buffer)
    requires Valid(b)
    ensures Valid(r)
    ensures r.count == 0 && r.idx == 0 && r.width == b.width
    ensures forall i :: 0 <= i < r.width ==> r.sums[i] == Accum("", 0.0, 0.0, 0.0)
  {
    b.(count := 0, idx := 0, sums := seq(b.width, _ => Accum("", 0.0, 0.0, 0.0)))
  }

  /** `getAverage()`: each joint's sums divided by the fill count, keeping the
      last name. `point.score && point.score / count` leaves a zero score sum
      at 0, which is also what the division gives. Dividing by a zero count
      yields NaN in the source, so the model asks for at least one frame. */
  function GetAverage(b: Buffer): (r: Frame)
    requires Valid(b) && b.count > 0
    ensures |r| == b.width
    ensures forall i :: 0 <= i < b.width ==>
              && r[i].name == b.sums[i].name
              && r[i].x == b.sums[i].x / b.count as real
              && r[i].y == b.sums[i].y / b.count as real
              && r[i].score == Some(b.sums[i].score / b.count as real)
  {
    var c := b.count as real;
    seq(b.width, i requires 0 <= i < b.width =>
      var s := b.sums[i];
      Keypoint(s.name, s.x / c, s.y / c, Some(if s.score == 0.0 then 0.0 else s.score / c)))
  }

  // ---------------------------------------------------------------------
  // The running-sum invariant, stated against the history of added frames.

  /** Sum of one field of joint `i` over a run of frames, accumulated from the
      most recent frame backwards. */
  function Total(fs: seq<Frame>, i: nat, fld: Field): real
    requires forall n :: 0 <= n < |fs| ==> i < |fs[n]|
  {
    if |fs| == 0 then 0.0
    else Total(fs[..|fs| - 1], i, fld) + Value(fs[|fs| - 1][i], fld)
  }

  /** The last `n` frames of a history. */
  function Window(h: seq<Frame>, n: nat): seq<Frame>
    requires n <= |h|
  {
    h[|h| - n..]
  }

  ghost predicate WideEnough(h: seq<Frame>, width: nat) {
    forall n :: 0 <= n < |h| ==> |h[n]| >= width
  }

  /** The slots of the ring hold the last `count` frames of `h`, frame `n`
      (cut to the buffer's width) in slot `n mod size`. */
  ghost predicate RingHolds(b: Buffer, h: seq<Frame>)
    requires Valid(b) && WideEnough(h, b.width)
  {
    forall n :: 0 <= n < |h| && |h| - b.count <= n ==> b.ring[n % b.size] == Some(h[n][..b.width])
  }

  /** Every running sum equals the total over the last `count` frames of `h`. */
  ghost predicate SumsHold(b: Buffer, h: seq<Frame>)
    requires Valid(b) && WideEnough(h, b.width) && b.count <= |h|
  {
    forall i, fld :: 0 <= i < b.width ==> Get(b.sums[i], fld) == Total(Window(h, b.count), i, fld)
  }

  /** Every joint name is the one in the latest frame, or empty before any. */
  ghost predicate NamesHold(b: Buffer, h: seq<Frame>)
    requires Valid(b) && WideEnough(h, b.width)
  {
    forall i :: 0 <= i < b.width ==> b.sums[i].name == if |h| == 0 then "" else h[|h| - 1][i].name
  }

  /** `b` is the state reached by adding the frames of `h`, in order, to a
      fresh buffer, with no `clear` in between: the fill count is
      `min(|h|, size)`, the cursor is `|h| mod size`, the last `count` frames
      sit in their slots, and every running sum equals the sum over those
      frames. */
  ghost predicate Tracks(b: Buffer, h: seq<Frame>) {
    && Valid(b)
    && WideEnough(h, b.width)
    && b.count == Min(|h|, b.size)
    && b.idx == |h| % b.size
    && RingHolds(b, h)
    && SumsHold(b, h)
    && NamesHold(b, h)
  }

  /** The total of one field of joint `i` over the frames whose sums a
      tracking buffer holds. */
  ghost function WindowTotal(b: Buffer, h: seq<Frame>, i: nat, fld: Field): real
    requires Tracks(b, h) && i < b.width
  {
    var w := Window(h, b.count);
    assert forall n :: 0 <= n < |w| ==> w[n] == h[|h| - b.count + n];
    Total(w, i, fld)
  }

  /** A freshly constructed buffer tracks the empty history. */
  lemma NewTracks(width: nat, bitLength: nat)
    requires bitLength % 32 < 31
    ensures New(width, bitLength).Some? && Tracks(New(width, bitLength).value, [])
  {
  }

  /** Taking the oldest frame off the front of a run removes exactly its
      contribution. */
  lemma {:induction false} TotalFront(fs: seq<Frame>, i: nat, fld: Field)
    requires |fs| > 0 && forall n :: 0 <= n < |fs| ==> i < |fs[n]|
    ensures Total(fs, i, fld) == Value(fs[0][i], fld) + Total(fs[1..], i, fld)
    decreases |fs|
  {
    if |fs| > 1 {
      var init := fs[..|fs| - 1];
      TotalFront(init, i, fld);
      assert init[1..] == fs[1..][..|fs[1..]| - 1];
      assert init[0] == fs[0];
    } else {
      assert fs[..0] == [];
      assert fs[1..] == [];
    }
  }

  /** Adding a frame to the end of a run adds exactly its contribution. */
  lemma TotalBack(fs: seq<Frame>, f: Frame, i: nat, fld: Field)
    requires forall n :: 0 <= n < |fs| ==> i < |fs[n]|
    requires i < |f|
    ensures Total(fs + [f], i, fld) == Total(fs, i, fld) + Value(f[i], fld)
  {
    assert (fs + [f])[..|fs|] == fs;
  }

  lemma WideEnoughSnoc(h: seq<Frame>, f: Frame, width: nat)
    requires WideEnough(h, width) && |f| >= width
    ensures WideEnough(h + [f], width)
  {
    forall n | 0 <= n < |h| + 1 ensures |(h + [f])[n]| >= width {
      if n < |h| { assert (h + [f])[n] == h[n]; }
    }
  }

  /** When the ring is full, the slot under the cursor holds the oldest frame
      of the window: the one `add` is about to overwrite. */
  lemma CursorHoldsOldest(b: Buffer, h: seq<Frame>)
    requires Tracks(b, h) && b.count == b.size
    ensures |h| >= b.size
    ensures b.ring[b.idx] == Some(h[|h| - b.size][..b.width])
  {
    ModSubModulus(|h|, b.size);
  }

  /** `add` keeps the ring holding the window of the extended history. */
  lemma AddKeepsRing(b: Buffer, h: seq<Frame>, f: Frame)
    requires Tracks(b, h) && |f| >= b.width
    ensures WideEnough(h + [f], b.width)
    ensures RingHolds(Add(b, f), h + [f])
  {
    var r := Add(b, f);
    var h' := h + [f];
    WideEnoughSnoc(h, f, b.width);
    forall n | 0 <= n < |h'| && |h'| - r.count <= n
      ensures r.ring[n % r.size] == Some(h'[n][..r.width])
    {
      if n == |h| {
        assert n % b.size == b.idx;
      } else {
        ModDistinct(n, |h|, b.size);
        assert h'[n] == h[n];
      }
    }
  }

  /** One joint's sum after `add`, when the ring was full: the oldest frame
      leaves the window and the new one joins it. */
  lemma SumStepFull(w: seq<Frame>, f: Frame, i: nat, fld: Field, before: real, after: real)
    requires |w| > 0 && (forall n :: 0 <= n < |w| ==> i < |w[n]|) && i < |f|
    requires before == Total(w, i, fld)
    requires after == before - Value(w[0][i], fld) + Value(f[i], fld)
    ensures after == Total(w[1..] + [f], i, fld)
  {
    TotalFront(w, i, fld);
    TotalBack(w[1..], f, i, fld);
  }

  /** `add` on a full ring keeps every running sum equal to the total over
      the window, which slides by one frame. */
  lemma AddKeepsSumsFull(b: Buffer, h: seq<Frame>, f: Frame)
    requires Tracks(b, h) && |f| >= b.width && b.count == b.size
    requires WideEnough(h + [f], b.width)
    ensures SumsHold(Add(b, f), h + [f])
  {
    var r := Add(b, f);
    var w := Window(h, b.count);
    var w' := Window(h + [f], r.count);
    CursorHoldsOldest(b, h);
    var evicted := b.ring[b.idx].value;
    assert w' == w[1..] + [f];
    forall i, fld | 0 <= i < b.width
      ensures Get(r.sums[i], fld) == Total(w', i, fld)
    {
      assert evicted[i] == w[0][i];
      SumStepFull(w, f, i, fld, Get(b.sums[i], fld), Get(r.sums[i], fld));
    }
  }

  /** `add` on a ring still filling keeps every running sum equal to the total
      over the whole history, which grows by one frame. */
  lemma AddKeepsSumsFilling(b: Buffer, h: seq<Frame>, f: Frame)
    requires Tracks(b, h) && |f| >= b.width && b.count < b.size
    requires WideEnough(h + [f], b.width)
    ensures SumsHold(Add(b, f), h + [f])
  {
    var r := Add(b, f);
    assert Window(h, b.count) == h;
    assert Window(h + [f], r.count) == h + [f];
    forall i, fld | 0 <= i < b.width
      ensures Get(r.sums[i], fld) == Total(h + [f], i, fld)
    {
      TotalBack(h, f, i, fld);
    }
  }

  /** `add` keeps every running sum equal to the total over the window. */
  lemma AddKeepsSums(b: Buffer, h: seq<Frame>, f: Frame)
    requires Tracks(b, h) && |f| >= b.width
    ensures WideEnough(h + [f], b.width)
    ensures Add(b, f).count <= |h| + 1
    ensures SumsHold(Add(b, f), h + [f])
  {
    WideEnoughSnoc(h, f, b.width);
    if b.count == b.size {
      AddKeepsSumsFull(b, h, f);
    } else {
      AddKeepsSumsFilling(b, h, f);
    }
  }

  /** The running-sum invariant survives `add`: the slot at the cursor holds
      the oldest frame of the window whenever the ring is full, so subtracting
      it and adding the new frame yields the sums over the new window. */
  lemma AddTracks(b: Buffer, h: seq<Frame>, f: Frame)
    requires Tracks(b, h) && |f| >= b.width
    ensures Tracks(Add(b, f), h + [f])
  {
    ModSucc(|h|, b.size);
    AddKeepsRing(b, h, f);
    AddKeepsSums(b, h, f);
  }

  lemma ConcatShift(h: seq<Frame>, more: seq<Frame>)
    requires |more| > 0
    ensures h + [more[0]] + more[1..] == h + more
  {
  }

  /** Adding a whole history to a fresh buffer yields a buffer that tracks it. */
  lemma {:induction false} AddAllTracks(b: Buffer, h: seq<Frame>, more: seq<Frame>)
    requires Tracks(b, h) && WideEnough(more, b.width)
    ensures Tracks(AddAll(b, more), h + more)
    decreases |more|
  {
    if |more| > 0 {
      AddTracks(b, h, more[0]);
      WideEnoughTail(more, b.width);
      AddAllTracks(Add(b, more[0]), h + [more[0]], more[1..]);
      ConcatShift(h, more);
    } else {
      assert h + more == h;
    }
  }

  lemma WideEnoughTail(fs: seq<Frame>, width: nat)
    requires |fs| > 0 && WideEnough(fs, width)
    ensures WideEnough(fs[1..], width)
  {
    forall n | 0 <= n < |fs| - 1 ensures |fs[1..][n]| >= width {
      assert fs[1..][n] == fs[n + 1];
    }
  }

  /** `add` applied to each frame in turn. */
  function AddAll(b: Buffer, fs: seq<Frame>): (r: Buffer)
    requires Valid(b) && WideEnough(fs, b.width)
    ensures Valid(r) && r.width == b.width && r.size == b.size
    decreases |fs|
  {
    if |fs| == 0 then b
    else
      WideEnoughTail(fs, b.width);
      AddAll(Add(b, fs[0]), fs[1..])
  }

  /** `getAverage` after a clear-free history is the trailing mean of the last
      `min(|h|, size)` frames, joint by joint, with the latest joint names. */
  lemma AverageIsTrailingMean(b: Buffer, h: seq<Frame>)
    requires Tracks(b, h) && |h| > 0
    ensures b.count == Min(|h|, b.size) && b.count > 0
    ensures forall i :: 0 <= i < b.width ==>
              var avg := GetAverage(b)[i];
              var w := Window(h, b.count);
              && avg.name == h[|h| - 1][i].name
              && avg.x == Total(w, i, X) / b.count as real
              && avg.y == Total(w, i, Y) / b.count as real
              && avg.score == Some(Total(w, i, Score) / b.count as real)
  {
    var avg := GetAverage(b);
    forall i | 0 <= i < b.width
      ensures avg[i].x == Total(Window(h, b.count), i, X) / b.count as real
      ensures avg[i].y == Total(Window(h, b.count), i, Y) / b.count as real
      ensures avg[i].score == Some(Total(Window(h, b.count), i, Score) / b.count as real)
    {
      assert Get(b.sums[i], X) == Total(Window(h, b.count), i, X);
      assert Get(b.sums[i], Y) == Total(Window(h, b.count), i, Y);
      assert Get(b.sums[i], Score) == Total(Window(h, b.count), i, Score);
    }
  }

  /** One `add` after the source's `clear` counts one frame, moves the
      cursor to slot 1 and leaves the new frame in slot 0. */
  lemma ClearThenAddRing(b: Buffer, f: Frame)
    requires Valid(b) && |f| >= b.width
    ensures WideEnough([f], b.width)
    ensures Add(Clear(b), f).count == Min(1, b.size)
    ensures Add(Clear(b), f).idx == 1 % b.size
    ensures RingHolds(Add(Clear(b), f), [f])
    ensures NamesHold(Add(Clear(b), f), [f])
  {
    var r := Add(Clear(b), f);
    ModSmall(0, b.size);
    forall n | 0 <= n < 1 && 1 - r.count <= n
      ensures r.ring[n % r.size] == Some([f][n][..r.width])
    {
      assert n == 0;
    }
  }

  /** One `add` after the source's `clear` adds the new values on top of the
      stale sums. */
  lemma ClearThenAddSums(b: Buffer, f: Frame)
    requires Valid(b) && |f| >= b.width
    ensures forall i, fld :: 0 <= i < b.width ==>
              Get(Add(Clear(b), f).sums[i], fld) == Get(b.sums[i], fld) + Value(f[i], fld)
  {
    assert Clear(b).count < Clear(b).size;
  }

  lemma TotalSingle(f: Frame, i: nat, fld: Field)
    requires i < |f|
    ensures Total([f], i, fld) == Value(f[i], fld)
  {
    assert [f][..0] == [];
  }

  /** After the source's `clear`, the next `add` tracks the one-frame history
      exactly when every stale sum was already zero: otherwise the leftover
      sums stay mixed into every later average. */
  lemma ClearThenAdd(b: Buffer, f: Frame)
    requires Valid(b) && |f| >= b.width
    ensures Tracks(Add(Clear(b), f), [f]) <==>
              forall i, fld :: 0 <= i < b.width ==> Get(b.sums[i], fld) == 0.0
  {
    ClearThenAddRing(b, f);
    ClearThenAddSums(b, f);
    assert Window([f], 1) == [f];
    forall i, fld | 0 <= i < b.width
      ensures Total(Window([f], 1), i, fld) == Value(f[i], fld)
    {
      TotalSingle(f, i, fld);
    }
  }

  /** Hence the source's `clear` breaks the running-sum invariant: once some
      joint's window had a non-zero x sum (say a one-slot buffer that saw
      x = 1), clearing and adding a frame (x = 2) leaves that sum plus the new
      value (3) in the running sum, and the buffer no longer tracks the
      frames added since the clear. */
  lemma ClearLeavesStaleSums(b: Buffer, h: seq<Frame>, f: Frame, i: nat)
    requires Tracks(b, h) && |f| >= b.width
    requires i < b.width && WindowTotal(b, h, i, X) != 0.0
    ensures Add(Clear(b), f).sums[i].x == WindowTotal(b, h, i, X) + f[i].x
    ensures !Tracks(Add(Clear(b), f), [f])
  {
    assert Get(b.sums[i], X) == WindowTotal(b, h, i, X);
    StaleSumBreaksTracking(b, f, i);
  }

  lemma StaleSumBreaksTracking(b: Buffer, f: Frame, i: nat)
    requires Valid(b) && |f| >= b.width && i < b.width && b.sums[i].x != 0.0
    ensures Add(Clear(b), f).sums[i].x == b.sums[i].x + f[i].x
    ensures !Tracks(Add(Clear(b), f), [f])
  {
    ClearThenAddSums(b, f);
    ClearThenAdd(b, f);
    assert Get(b.sums[i], X) != 0.0;
    assert Get(Add(Clear(b), f).sums[i], X) == Get(b.sums[i], X) + Value(f[i], X);
  }

  /** With the intended `clear`, a cleared buffer tracks the empty history
      again, and after any further frames it tracks exactly those frames, so
      averages after a clear cover only the frames added since. */
  lemma ClearResetTracks(b: Buffer, fs: seq<Frame>)
    requires Valid(b) && WideEnough(fs, b.width)
    ensures Tracks(ClearReset(b), [])
    ensures Tracks(AddAll(ClearReset(b), fs), fs)
  {
    assert Tracks(ClearReset(b), []);
    AddAllTracks(ClearReset(b), [], fs);
    assert [] + fs == fs;
  }
}
