/** Downsampling of audio by averaging windows, over real numbers. */
module Downsampling {
  import opened Options

  datatype Unsupported = Upsampling

  /** JavaScript's `Math.round`: halves go up. */
  function Round(x: real): int {
    (x + 0.5).Floor
  }

  /** Multiplication, under a name that proofs about linear facts can hide. */
  function Times(x: real, y: real): real {
    x * y
  }

  /** Where window `j` starts, and window `j - 1` ends. */
  function Bound(j: nat, ratio: real): int {
    Round(Times(j as real, ratio))
  }

  function NewLength(length: nat, ratio: real): int
    requires ratio > 0.0
  {
    Round(length as real / ratio)
  }

  function Sum(s: seq<real>): real {
    if s == [] then 0.0 else Sum(s[..|s| - 1]) + s[|s| - 1]
  }

  function Min(a: int, b: int): int {
    if a < b then a else b
  }

  /** Window `j`, cut off at the end of the input. */
  function Window(input: seq<real>, j: nat, ratio: real): seq<real>
    requires 0 <= Bound(j, ratio) <= Bound(j + 1, ratio)
  {
    input[Min(Bound(j, ratio), |input|)..Min(Bound(j + 1, ratio), |input|)]
  }

  // ------------------------------------------------------------------------- the windows

  lemma RoundBounds(x: real)
    ensures x - 0.5 < Round(x) as real <= x + 0.5
  {
  }

  lemma RoundGrows(x: real, y: real)
    requires y >= x + 1.0
    ensures Round(y) >= Round(x) + 1
  {
  }

  lemma Distribute(x: real, y: real, ratio: real)
    ensures Times(x + y, ratio) == Times(x, ratio) + Times(y, ratio)
    ensures Times(x - y, ratio) == Times(x, ratio) - Times(y, ratio)
    ensures Times(1.0, ratio) == ratio && Times(0.5, ratio) == ratio / 2.0 && Times(0.0, ratio) == 0.0
  {
  }

  lemma Scale(x: real, y: real, ratio: real)
    requires ratio > 0.0
    ensures x <= y ==> Times(x, ratio) <= Times(y, ratio)
    ensures x < y ==> Times(x, ratio) < Times(y, ratio)
  {
  }

  lemma Quotient(x: real, ratio: real)
    requires ratio > 0.0
    ensures Times(x / ratio, ratio) == x
    ensures x >= 0.0 ==> x / ratio >= 0.0
  {
  }

  lemma BoundsGrow(j: nat, ratio: real)
    requires ratio > 1.0
    ensures 0 <= Bound(j, ratio) < Bound(j + 1, ratio)
    ensures Bound(0, ratio) == 0
  {
    Distribute(j as real, 1.0, ratio);
    Scale(0.0, j as real, ratio);
    hide Times;
    RoundGrows(Times(j as real, ratio), Times((j + 1) as real, ratio));
  }

  lemma LengthBounds(length: nat, ratio: real)
    requires ratio > 1.0
    ensures NewLength(length, ratio) >= 0
    ensures var taken := Times(NewLength(length, ratio) as real, ratio);
      length as real - ratio / 2.0 < taken <= length as real + ratio / 2.0
  {
    Quotient(length as real, ratio);
    var q, n := length as real / ratio, NewLength(length, ratio);
    assert n == Round(q);
    hide NewLength, Times;
    RoundBounds(q);
    Scale(q - 0.5, n as real, ratio);
    Scale(n as real, q + 0.5, ratio);
    Distribute(q, 0.5, ratio);
  }

  /** Each window of the result starts within the input, so that it is never empty. */
  lemma WindowsStartInside(length: nat, ratio: real, j: nat)
    requires ratio > 1.0 && j < NewLength(length, ratio)
    ensures Bound(j, ratio) < length
  {
    hide NewLength, Round, Times;
    LengthBounds(length, ratio);
    var n := NewLength(length, ratio) as real;
    Scale(j as real, n - 1.0, ratio);
    Distribute(n, 1.0, ratio);
    RoundBounds(Times(j as real, ratio));
  }

  /** The windows leave out fewer than `ratio / 2 + 1 / 2` samples at the end. */
  lemma FewSamplesDropped(length: nat, ratio: real)
    requires ratio > 1.0
    ensures NewLength(length, ratio) >= 0
    ensures length as real - Bound(NewLength(length, ratio), ratio) as real < ratio / 2.0 + 0.5
  {
    hide NewLength, Round, Times;
    LengthBounds(length, ratio);
    RoundBounds(Times(NewLength(length, ratio) as real, ratio));
  }

  // ------------------------------------------------------------------------- the averages

  ghost predicate Within(s: seq<real>, low: real, high: real) {
    forall i :: 0 <= i < |s| ==> low <= s[i] <= high
  }

  lemma {:induction false} SumWithin(s: seq<real>, low: real, high: real)
    requires Within(s, low, high)
    ensures Times(|s| as real, low) <= Sum(s) <= Times(|s| as real, high)
  {
    if s != [] {
      SumWithin(s[..|s| - 1], low, high);
      Distribute(|s[..|s| - 1]| as real, 1.0, low);
      Distribute(|s[..|s| - 1]| as real, 1.0, high);
    } else {
      Distribute(0.0, 1.0, low);
      Distribute(0.0, 1.0, high);
    }
    hide Times;
  }

  function Mean(s: seq<real>): real
    requires s != []
  {
    Sum(s) / |s| as real
  }

  /** An average lies between any bounds of what is averaged. */
  lemma MeanWithin(s: seq<real>, low: real, high: real)
    requires s != [] && Within(s, low, high)
    ensures low <= Mean(s) <= high
  {
    SumWithin(s, low, high);
    Divide(Sum(s), |s| as real, low, high);
  }

  lemma Divide(sum: real, n: real, low: real, high: real)
    requires n > 0.0 && Times(n, low) <= sum <= Times(n, high)
    ensures low <= sum / n <= high
  {
    var q := sum / n;
    Quotient(sum, n);
    assert Times(n, low) == Times(low, n) && Times(n, high) == Times(high, n);
    hide Times;
    Scale(q, low, n);
    Scale(high, q, n);
  }

  /** The windows follow each other from the start of the input without gap or overlap, and none is empty. */
  lemma WindowsTile(input: seq<real>, ratio: real, j: nat)
    requires ratio > 1.0 && j < NewLength(|input|, ratio)
    ensures 0 <= Bound(j, ratio) < Bound(j + 1, ratio) && Bound(0, ratio) == 0
    ensures Window(input, j, ratio) != []
    ensures Window(input, j, ratio) == input[Bound(j, ratio)..Min(Bound(j + 1, ratio), |input|)]
    ensures j + 1 < NewLength(|input|, ratio) ==> Bound(j + 1, ratio) < |input|
  {
    BoundsGrow(j, ratio);
    WindowsStartInside(|input|, ratio, j);
    if j + 1 < NewLength(|input|, ratio) {
      WindowsStartInside(|input|, ratio, j + 1);
    }
    hide Bound, NewLength;
  }

  /** Window `j` starts at the sample next to `j * ratio`. */
  lemma BoundIsNearest(j: nat, ratio: real)
    ensures j as real * ratio - 0.5 < Bound(j, ratio) as real <= j as real * ratio + 0.5
  {
    RoundBounds(Times(j as real, ratio));
    hide Round;
  }

  // ------------------------------------------------------------------------- conservation

  lemma {:induction false} SumOfParts(a: seq<real>, b: seq<real>)
    ensures Sum(a + b) == Sum(a) + Sum(b)
  {
    if b == [] {
      assert a + b == a;
    } else {
      var n := |b| - 1;
      assert (a + b)[..|a + b| - 1] == a + b[..n];
      SumOfParts(a, b[..n]);
    }
  }

  lemma MeanTimesLength(s: seq<real>)
    requires s != []
    ensures Times(|s| as real, Mean(s)) == Sum(s)
  {
    Quotient(Sum(s), |s| as real);
  }

  /** The first `n` outputs, each as often as its window is long. */
  function Weighted(input: seq<real>, ratio: real, n: nat): real
    requires ratio > 1.0 && n <= NewLength(|input|, ratio)
  {
    if n == 0 then 0.0 else
    WindowsTile(input, ratio, n - 1);
    var window := Window(input, n - 1, ratio);
    Weighted(input, ratio, n - 1) + Times(|window| as real, Mean(window))
  }

  /** Averaging loses nothing of what it covers: weighted with the lengths of their windows, the outputs sum up to
    * the samples from the start of the input to the end of the last window. */
  lemma {:induction false} WeightedIsSum(input: seq<real>, ratio: real, n: nat)
    requires ratio > 1.0 && n <= NewLength(|input|, ratio)
    ensures 0 <= Bound(n, ratio)
    ensures Weighted(input, ratio, n) == Sum(input[..Min(Bound(n, ratio), |input|)])
  {
    BoundsGrow(n, ratio);
    if n > 0 {
      WeightedIsSum(input, ratio, n - 1);
      WindowsTile(input, ratio, n - 1);
      var window := Window(input, n - 1, ratio);
      MeanTimesLength(window);
      WindowsStartInside(|input|, ratio, n - 1);
      hide Times, Bound, NewLength, Mean, Sum;
      var from, to := Bound(n - 1, ratio), Min(Bound(n, ratio), |input|);
      assert input[..to] == input[..from] + window;
      SumOfParts(input[..from], window);
    }
  }

  /** `x` is the average of window `j`, which is not empty. */
  ghost predicate Averages(input: seq<real>, j: nat, ratio: real, x: real) {
    && 0 <= Bound(j, ratio) <= Bound(j + 1, ratio)
    && Window(input, j, ratio) != []
    && x == Mean(Window(input, j, ratio))
  }

  /** Averages the input in windows of `fromRate / toRate` samples. */
  method DownsampleBuffer(input: array<real>, fromRate: real, toRate: real)
    returns (r: Result<array<real>, Unsupported>)
    requires fromRate > 0.0 && toRate > 0.0
    ensures r.Err? <==> toRate > fromRate
    ensures toRate == fromRate ==> r == Ok(input)
    ensures toRate < fromRate ==>
      && fresh(r.value) && r.value.Length == NewLength(input.Length, fromRate / toRate)
      && forall j :: 0 <= j < r.value.Length ==> Averages(input[..], j, fromRate / toRate, r.value[j])
  {
    if toRate == fromRate {
      return Ok(input);
    }
    if toRate > fromRate {
      return Err(Upsampling);
    }
    var ratio := fromRate / toRate;
    RatioExceedsOne(fromRate, toRate);
    var newLength := Round(input.Length as real / ratio);
    LengthBounds(input.Length, ratio);
    assert newLength == NewLength(input.Length, ratio);
    BoundsGrow(0, ratio);
    hide Times, Round, NewLength, Averages;
    var result := new real[newLength];
    var offsetResult, offsetInput := 0, 0;
    while offsetResult < newLength
      invariant 0 <= offsetResult <= newLength && offsetInput == Bound(offsetResult, ratio)
      invariant forall j :: 0 <= j < offsetResult ==> Averages(input[..], j, ratio, result[j])
    {
      BoundsGrow(offsetResult, ratio);
      WindowsStartInside(input.Length, ratio, offsetResult);
      var nextOffset := Round(Times((offsetResult + 1) as real, ratio));
      var accum, count := WindowSum(input, offsetInput, nextOffset);
      IsAverage(input[..], offsetResult, ratio, accum, count);
      result[offsetResult] := if count > 0 then accum / count as real else 0.0;
      offsetResult, offsetInput := offsetResult + 1, nextOffset;
    }
    r := Ok(result);
  }

  /** The samples from `start` to `end`, as far as there are any. */
  method WindowSum(input: array<real>, start: int, end: int) returns (accum: real, count: nat)
    requires 0 <= start < input.Length && start < end
    ensures count == Min(end, input.Length) - start && accum == Sum(input[start..Min(end, input.Length)])
  {
    accum, count := 0.0, 0;
    var i := start;
    while i < end && i < input.Length
      invariant start <= i <= Min(end, input.Length)
      invariant count == i - start && accum == Sum(input[start..i])
    {
      SumSnoc(input[start..i + 1], input[start..i], input[i]);
      accum := accum + input[i];
      count := count + 1;
      i := i + 1;
    }
  }

  lemma IsAverage(input: seq<real>, j: nat, ratio: real, accum: real, count: nat)
    requires 0 <= Bound(j, ratio) < Bound(j + 1, ratio) && Bound(j, ratio) < |input|
    requires count == Min(Bound(j + 1, ratio), |input|) - Bound(j, ratio)
    requires accum == Sum(input[Bound(j, ratio)..Min(Bound(j + 1, ratio), |input|)])
    ensures count > 0 && Averages(input, j, ratio, accum / count as real)
  {
    hide Bound, Sum;
  }

  lemma SumSnoc(longer: seq<real>, s: seq<real>, x: real)
    requires longer == s + [x]
    ensures Sum(longer) == Sum(s) + x
  {
    assert longer[..|longer| - 1] == s;
  }

  lemma RatioExceedsOne(fromRate: real, toRate: real)
    requires 0.0 < toRate < fromRate
    ensures fromRate / toRate > 1.0
  {
    var ratio := fromRate / toRate;
    Quotient(fromRate, toRate);
    Scale(ratio, 1.0, toRate);
    Distribute(1.0, 1.0, toRate);
    hide Times;
  }
}
