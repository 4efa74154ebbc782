/** The console progress bar the demo-data generator draws while it fills
    the store. */
module Progress {
  import opened Results

  /** Python's `a // b`: the quotient rounded towards minus infinity, for
      either sign of `b`. */
  function FloorDiv(a: int, b: int): (q: int)
    requires b != 0
    ensures b > 0 ==> q * b <= a < q * b + b
    ensures b < 0 ==> q * b >= a > q * b + b
  {
    if b > 0 then a / b else (-a) / (-b)
  }

  /** Python's `c * n` for a one-character string: `n` copies, none when
      `n` is not positive. */
  function Repeat(c: char, n: int): (r: string)
    ensures |r| == if n > 0 then n else 0
    ensures forall i :: 0 <= i < |r| ==> r[i] == c
    decreases if n > 0 then n else 0
  {
    if n <= 0 then [] else [c] + Repeat(c, n - 1)
  }

  /** How many of the `length` cells are filled. */
  function FilledLength(length: int, current: int, total: int): int
    requires total != 0
  {
    FloorDiv(length * current, total)
  }

  /** The bar: the filled cells as '█', then the rest as '-'. */
  function Bar(length: int, current: int, total: int): string
    requires total != 0
  {
    var filled := FilledLength(length, current, total);
    Repeat('█', filled) + Repeat('-', length - filled)
  }

  /** What one update computes besides the bar: the percentage done. */
  datatype Frame = Frame(bar: string, percent: real)

  class ProgressBar {
    var total: int
    var prefix: string
    var length: int
    var current: int

    /** A new bar has made no progress. */
    constructor (total: int, prefix: string, length: int)
      ensures this.total == total && this.prefix == prefix && this.length == length
      ensures current == 0
    {
      this.total := total;
      this.prefix := prefix;
      this.length := length;
      current := 0;
    }

    /** `update(step)`: advance by `step`, then compute the percentage and
        the bar; with a total of 0 the division fails after the counter has
        moved, which is the `None` result. */
    method Update(step: int) returns (frame: Option<Frame>)
      modifies this
      ensures current == old(current) + step
      ensures total == old(total) && prefix == old(prefix) && length == old(length)
      ensures total == 0 ==> frame.None?
      ensures total != 0 ==> frame == Some(Frame(Bar(length, current, total), current as real / total as real * 100.0))
    {
      current := current + step;
      if total == 0 {
        return None;
      }
      var percent := current as real / total as real * 100.0;
      var filled := FloorDiv(length * current, total);
      var bar := Repeat('█', filled) + Repeat('-', length - filled);
      frame := Some(Frame(bar, percent));
    }
  }

  /** Between no progress and completion the filled part fits the bar. */
  lemma FilledWithin(length: int, current: int, total: int)
    requires total > 0 && length >= 0 && 0 <= current <= total
    ensures 0 <= FilledLength(length, current, total) <= length
  {
    var q := FilledLength(length, current, total);
    assert length * current <= length * total by {
      assert length * (total - current) >= 0;
    }
  }

  /** While progress is between 0 and the total the bar has exactly
      `length` cells, filled ones first. */
  lemma BarShape(length: int, current: int, total: int)
    requires total > 0 && length >= 0 && 0 <= current <= total
    ensures |Bar(length, current, total)| == length
    ensures forall i :: 0 <= i < length ==>
      Bar(length, current, total)[i] == if i < FilledLength(length, current, total) then '█' else '-'
  {
    FilledWithin(length, current, total);
  }

  /** Dividing a multiple of `b` by `b` gives the factor back. */
  lemma FloorDivMultiple(k: int, b: int)
    requires b != 0
    ensures FloorDiv(k * b, b) == k
  {
    var q := FloorDiv(k * b, b);
    if b > 0 {
      assert (k - q) * b == k * b - q * b;
      SmallMultiple(k - q, b);
    } else {
      assert (k - q) * -b == q * b - k * b;
      SmallMultiple(k - q, -b);
    }
  }

  /** A multiple of a positive `b` lying in `0..b-1` is 0 times `b`. */
  lemma SmallMultiple(x: int, b: int)
    requires b > 0 && 0 <= x * b < b
    ensures x == 0
  {
  }

  /** A finished bar is all '█'. */
  lemma BarComplete(length: int, total: int)
    requires total != 0 && length >= 0
    ensures Bar(length, total, total) == Repeat('█', length)
  {
    FloorDivMultiple(length, total);
  }

  /** A bar with no progress is all '-'. */
  lemma BarEmpty(length: int, total: int)
    requires total != 0
    ensures Bar(length, 0, total) == Repeat('-', length)
  {
    assert FilledLength(length, 0, total) == 0;
  }

  /** More progress never fills fewer cells. */
  lemma FilledMonotone(length: int, c1: int, c2: int, total: int)
    requires total > 0 && length >= 0 && c1 <= c2
    ensures FilledLength(length, c1, total) <= FilledLength(length, c2, total)
  {
    var q1, q2 := FilledLength(length, c1, total), FilledLength(length, c2, total);
    assert length * c1 <= length * c2 by {
      assert length * (c2 - c1) >= 0;
    }
    assert q1 * total < (q2 + 1) * total by {
      assert (q2 + 1) * total == q2 * total + total;
    }
    CancelFactor(q1, q2 + 1, total);
  }

  /** A positive factor can be cancelled from a strict inequality. */
  lemma CancelFactor(x: int, y: int, b: int)
    requires b > 0 && x * b < y * b
    ensures x < y
  {
  }
}
