/**
 * The download progress observer: how `on_progress` turns a callback into a
 * percentage, and which percentages reach the progress bar.
 */
module Progress {
  import opened Catalog

  /** Python's `int(...)` of a quotient: truncation toward zero. */
  function TruncDiv(a: int, b: int): (q: int)
    requires b > 0
    ensures a >= 0 ==> 0 <= q * b <= a < (q + 1) * b
    ensures a < 0 ==> (q - 1) * b < a <= q * b <= 0
  {
    if a >= 0 then
      DivBounds(a, b);
      a / b
    else
      DivBounds(-a, b);
      var m := (-a) / b;
      assert (-m - 1) * b == -((m + 1) * b) && -m * b == -(m * b);
      -m
  }

  /** Euclidean division of a natural number brackets it between two multiples. */
  lemma DivBounds(a: nat, b: int)
    requires b > 0
    ensures 0 <= (a / b) * b <= a < (a / b + 1) * b
  {
    assert a == b * (a / b) + a % b;
    assert (a / b + 1) * b == (a / b) * b + b;
  }

  /**
   * `percent = int(downloaded / total * 100)` with `downloaded = total -
   * bytes_remaining`, computed exactly instead of in floating point: the
   * whole part of the downloaded share in percent.
   */
  function Percent(total: nat, bytesRemaining: int): (p: int)
    requires total > 0
    ensures 0 <= bytesRemaining <= total ==> p * total <= (total - bytesRemaining) * 100 < (p + 1) * total
    ensures 0 <= bytesRemaining <= total ==> 0 <= p <= 100
    ensures bytesRemaining == 0 ==> p == 100
    ensures bytesRemaining == total ==> p == 0
  {
    PercentFacts(total, bytesRemaining);
    TruncDiv((total - bytesRemaining) * 100, total)
  }

  lemma PercentFacts(total: nat, rem: int)
    requires total > 0
    ensures 0 <= rem <= total ==> 0 <= TruncDiv((total - rem) * 100, total) <= 100
    ensures rem == 0 ==> TruncDiv((total - rem) * 100, total) == 100
    ensures rem == total ==> TruncDiv((total - rem) * 100, total) == 0
  {
    if 0 <= rem <= total {
      var a := (total - rem) * 100;
      var p := TruncDiv(a, total);
      assert 0 <= p * total <= a < (p + 1) * total;
      MulOrder(total - rem, total, 100);
      assert a <= total * 100;
      MulOrder(p, 100, total);
      MulOrder(0, p, total);
      if rem == 0 {
        MulOrder(p + 1, 100, total);
      }
      if rem == total {
        MulOrder(p + 1, 0, total);
      }
    }
  }

  /** Multiplying by a positive number keeps the order of two integers. */
  lemma MulOrder(x: int, y: int, b: int)
    requires b > 0
    ensures x <= y <==> x * b <= y * b
  {
    assert y * b - x * b == b * (y - x);
    MulBounds(y - x, b);
  }

  /** A multiple of a positive number by a non-zero integer is at least that number away from 0. */
  lemma MulBounds(x: int, b: int)
    requires b >= 0
    ensures x >= 1 ==> b * x >= b
    ensures x <= -1 ==> b * x <= -b
  {
    assert b * x == b * (x - 1) + b;
    assert b * x == b * (x + 1) - b;
  }

  /** `total = stream.filesize or stream.filesize_approx`: the approximation stands in only for an unknown size. */
  function TotalSize(s: StreamDescriptor): (total: nat)
    ensures s.filesize != 0 ==> total == s.filesize
    ensures total == 0 <==> s.filesize == 0 && s.filesizeApprox == 0
  {
    if s.filesize != 0 then s.filesize else s.filesizeApprox
  }

  /**
   * The percentages `on_progress` computes for a stream from the successive
   * `bytes_remaining` values of its callbacks; none when the total is 0.
   */
  function Percents(s: StreamDescriptor, remaining: seq<int>): (ps: seq<int>)
    ensures TotalSize(s) == 0 ==> ps == []
    ensures TotalSize(s) > 0 ==> |ps| == |remaining|
  {
    if TotalSize(s) == 0 || remaining == [] then []
    else Percents(s, remaining[..|remaining| - 1]) + [Percent(TotalSize(s), remaining[|remaining| - 1])]
  }

  /** With a total, the observer computes one percentage per callback, from that callback's `bytes_remaining`. */
  lemma {:induction false} PercentsAt(s: StreamDescriptor, remaining: seq<int>)
    requires TotalSize(s) > 0
    ensures |Percents(s, remaining)| == |remaining|
    ensures forall i :: 0 <= i < |remaining| ==> Percents(s, remaining)[i] == Percent(TotalSize(s), remaining[i])
  {
    if remaining != [] {
      var init := remaining[..|remaining| - 1];
      PercentsAt(s, init);
      forall i | 0 <= i < |init| ensures remaining[i] == init[i] { }
    }
  }

  lemma PercentsSnoc(s: StreamDescriptor, remaining: seq<int>, r: int)
    ensures Percents(s, remaining + [r]) ==
      Percents(s, remaining) + (if TotalSize(s) == 0 then [] else [Percent(TotalSize(s), r)])
  {
    assert (remaining + [r])[..|remaining|] == remaining;
  }

  /** The value of `last_percent` after the observer has seen `ps`, starting from `last`. */
  function ThrottleLast(last: int, ps: seq<int>): int
    decreases |ps|
  {
    if ps == [] then last else ThrottleLast(if ps[0] > last then ps[0] else last, ps[1..])
  }

  /**
   * `last_percent` never decreases, ends at least as large as every value
   * seen, and is its starting value or one of them.
   */
  lemma {:induction false} ThrottleLastBounds(last: int, ps: seq<int>)
    ensures ThrottleLast(last, ps) >= last
    ensures forall i :: 0 <= i < |ps| ==> ps[i] <= ThrottleLast(last, ps)
    ensures ThrottleLast(last, ps) == last || ThrottleLast(last, ps) in ps
    decreases |ps|
  {
    if ps != [] {
      var next := if ps[0] > last then ps[0] else last;
      ThrottleLastBounds(next, ps[1..]);
      forall i | 0 <= i < |ps| ensures ps[i] <= ThrottleLast(last, ps) {
        if i > 0 { assert ps[i] == ps[1..][i - 1]; }
      }
    }
  }

  predicate StrictlyIncreasing(xs: seq<int>)
  {
    forall i, j :: 0 <= i < j < |xs| ==> xs[i] < xs[j]
  }

  /**
   * The percentages the observer passes to the progress bar: each one that
   * strictly exceeds every value seen before it (and `last`).
   */
  function Throttle(last: int, ps: seq<int>): seq<int>
    decreases |ps|
  {
    if ps == [] then []
    else if ps[0] > last then [ps[0]] + Throttle(ps[0], ps[1..])
    else Throttle(last, ps[1..])
  }

  /**
   * What reaches the bar only goes up, and each value is one of the
   * computed percentages above the starting value.
   */
  lemma {:induction false} ThrottleIncreasing(last: int, ps: seq<int>)
    ensures StrictlyIncreasing(Throttle(last, ps))
    ensures forall x :: x in Throttle(last, ps) ==> x in ps && x > last
    decreases |ps|
  {
    if ps != [] {
      if ps[0] > last {
        ThrottleIncreasing(ps[0], ps[1..]);
        var rest := Throttle(ps[0], ps[1..]);
        assert Throttle(last, ps) == [ps[0]] + rest;
        assert forall k :: 0 <= k < |rest| ==> rest[k] > ps[0] by {
          forall k | 0 <= k < |rest| ensures rest[k] > ps[0] { assert rest[k] in rest; }
        }
      } else {
        ThrottleIncreasing(last, ps[1..]);
      }
    }
  }

  /** The last value shown is the final `last_percent`; nothing is shown when it stays put. */
  lemma {:induction false} ThrottleEndsAtLast(last: int, ps: seq<int>)
    ensures Throttle(last, ps) == [] ==> ThrottleLast(last, ps) == last
    ensures Throttle(last, ps) != [] ==> Throttle(last, ps)[|Throttle(last, ps)| - 1] == ThrottleLast(last, ps)
    decreases |ps|
  {
    if ps != [] {
      if ps[0] > last {
        ThrottleEndsAtLast(ps[0], ps[1..]);
      } else {
        ThrottleEndsAtLast(last, ps[1..]);
      }
    }
  }

  /** Observing two runs of callbacks is observing the first, then the second from where it left off. */
  lemma {:induction false} ThrottleAppend(last: int, a: seq<int>, b: seq<int>)
    ensures Throttle(last, a + b) == Throttle(last, a) + Throttle(ThrottleLast(last, a), b)
    ensures ThrottleLast(last, a + b) == ThrottleLast(ThrottleLast(last, a), b)
    decreases |a|
  {
    if a != [] {
      assert (a + b)[0] == a[0];
      assert (a + b)[1..] == a[1..] + b;
      ThrottleAppend(if a[0] > last then a[0] else last, a[1..], b);
    } else {
      assert a + b == b;
    }
  }

  /** One more callback: the new value is shown exactly when it exceeds the current one. */
  lemma ThrottleStep(last: int, ps: seq<int>, p: int)
    ensures var cur := ThrottleLast(last, ps);
      && Throttle(last, ps + [p]) == Throttle(last, ps) + (if p > cur then [p] else [])
      && ThrottleLast(last, ps + [p]) == (if p > cur then p else cur)
  {
    ThrottleAppend(last, ps, [p]);
  }

  /**
   * One more callback for a stream: when the stream has a total, its
   * percentage is shown exactly when it exceeds the current value; without
   * one nothing changes.
   */
  lemma ObserveCallback(last: int, s: StreamDescriptor, remaining: seq<int>, r: int)
    ensures var cur := ThrottleLast(last, Percents(s, remaining));
      var shown := Throttle(last, Percents(s, remaining));
      if TotalSize(s) == 0 then
        && ThrottleLast(last, Percents(s, remaining + [r])) == cur
        && Throttle(last, Percents(s, remaining + [r])) == shown
      else
        var p := Percent(TotalSize(s), r);
        && ThrottleLast(last, Percents(s, remaining + [r])) == (if p > cur then p else cur)
        && Throttle(last, Percents(s, remaining + [r])) == shown + (if p > cur then [p] else [])
  {
    PercentsSnoc(s, remaining, r);
    if TotalSize(s) > 0 {
      ThrottleStep(last, Percents(s, remaining), Percent(TotalSize(s), r));
    }
  }

  /** The observer starting at 0 shows only values above 0; from a reset, none is shown twice. */
  lemma ThrottleFromReset(ps: seq<int>)
    ensures forall x :: x in Throttle(0, ps) ==> 0 < x
    ensures forall i :: 0 <= i < |ps| ==> ps[i] <= ThrottleLast(0, ps)
  {
    ThrottleIncreasing(0, ps);
    ThrottleLastBounds(0, ps);
  }

  /** A Streamlit progress bar, as the sequence of values passed to its `progress(...)`. */
  class ProgressBar {
    var shown: seq<int>

    constructor ()
      ensures shown == []
    {
      shown := [];
    }

    method Progress(percent: int)
      modifies this
      ensures shown == old(shown) + [percent]
    {
      shown := shown + [percent];
    }
  }
}
