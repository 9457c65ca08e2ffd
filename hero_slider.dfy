/** The hero slider of the home page (js/script.js): a fixed list of slides,
    each with or without the `active` class, and the index of the current
    slide, advanced by a timer that is started only when there is a slide. */
module HeroSlider {

  /** The slide after `current` among `n` slides, wrapping from the last
      slide back to the first. */
  function Next(current: int, n: int): (r: int)
    requires 0 <= current < n
    ensures 0 <= r < n
    ensures r == if current == n - 1 then 0 else current + 1
  {
    (current + 1) % n
  }

  /** Exactly the slide at `k` carries the active class. */
  predicate OnlyActive(flags: seq<bool>, k: int)
  {
    0 <= k < |flags| && forall j :: 0 <= j < |flags| ==> flags[j] == (j == k)
  }

  /** The active flags after one step from `current`: the class is removed from
      the current slide, then added to the next one. Only those two slides
      change: the new one ends active, the old one inactive unless it is also
      the new one (a single slide stays active). */
  function Rotate(flags: seq<bool>, current: int): (r: seq<bool>)
    requires 0 <= current < |flags|
    ensures |r| == |flags|
    ensures r[Next(current, |flags|)]
    ensures current != Next(current, |flags|) ==> !r[current]
    ensures forall j :: 0 <= j < |flags| && j != current && j != Next(current, |flags|) ==> r[j] == flags[j]
  {
    flags[current := false][Next(current, |flags|) := true]
  }

  /** If exactly the current slide was active, exactly the new current slide
      is active after a step. */
  lemma RotateKeepsOneActive(flags: seq<bool>, current: int)
    requires OnlyActive(flags, current)
    ensures OnlyActive(Rotate(flags, current), Next(current, |flags|))
  {
  }

  /** The current index after `k` steps. */
  function Advance(current: int, n: int, k: nat): (r: int)
    requires 0 <= current < n
    ensures 0 <= r < n
  {
    if k == 0 then current else Next(Advance(current, n, k - 1), n)
  }

  lemma MulAtLeast(d: int, n: int)
    requires d >= 1 && n > 0
    ensures d * n >= n
  {
  }

  /** Euclidean remainder is determined by any quotient-remainder split. */
  lemma ModUnique(a: int, n: int, q: int, r: int)
    requires 0 < n && 0 <= r < n && a == q * n + r
    ensures a % n == r
  {
    var q', r' := a / n, a % n;
    assert a == q' * n + r';
    if q > q' {
      MulAtLeast(q - q', n);
      assert false;
    } else if q < q' {
      MulAtLeast(q' - q, n);
      assert false;
    }
  }

  /** One more step from a reduced index is the reduced successor. */
  lemma ModSucc(a: int, n: int)
    requires 0 <= a && 0 < n
    ensures Next(a % n, n) == (a + 1) % n
  {
    var q, r := a / n, a % n;
    assert a == q * n + r;
    if r == n - 1 {
      ModUnique(a + 1, n, q + 1, 0);
    } else {
      ModUnique(a + 1, n, q, r + 1);
    }
  }

  /** `k` steps advance the index by `k` modulo the number of slides. */
  lemma {:induction false} AdvanceIsModular(current: int, n: int, k: nat)
    requires 0 <= current < n
    ensures Advance(current, n, k) == (current + k) % n
  {
    if k > 0 {
      AdvanceIsModular(current, n, k - 1);
      ModSucc(current + k - 1, n);
    }
  }

  /** `n` steps bring the index back to where it started. */
  lemma FullCycle(current: int, n: int)
    requires 0 <= current < n
    ensures Advance(current, n, n) == current
  {
    AdvanceIsModular(current, n, n);
    ModUnique(current + n, n, 1, current);
  }

  class Slider {
    /** The `active` class of each slide, in document order. */
    const slides: array<bool>
    /** The index of the current slide. */
    var current: int

    ghost predicate Valid()
      reads this
    {
      0 <= current && (current < slides.Length || current == 0)
    }

    constructor (flags: seq<bool>)
      ensures Valid() && fresh(slides)
      ensures slides[..] == flags && current == 0
    {
      slides := new bool[|flags|](i requires 0 <= i < |flags| => flags[i]);
      current := 0;
    }

    /** One timer tick: the active class moves from the current slide to the
        next one, wrapping around. Called only once a slide exists. */
    method NextSlide()
      requires Valid() && slides.Length > 0
      modifies slides, this`current
      ensures Valid()
      ensures current == Next(old(current), slides.Length)
      ensures slides[..] == Rotate(old(slides[..]), old(current))
    {
      slides[current] := false;
      current := (current + 1) % slides.Length;
      slides[current] := true;
    }

    /** Start-up and `ticks` timer ticks: the timer is started only when there
        is at least one slide, so a tick never indexes an empty list. */
    method Run(ticks: nat) returns (started: bool)
      requires Valid()
      modifies slides, this`current
      ensures Valid()
      ensures started <==> slides.Length > 0
      ensures !started ==> current == old(current) && slides[..] == old(slides[..])
      ensures started ==> current == (old(current) + ticks) % slides.Length
      ensures OnlyActive(old(slides[..]), old(current)) ==> OnlyActive(slides[..], current)
    {
      started := slides.Length > 0;
      if !started {
        return;
      }
      ghost var start := current;
      var i := 0;
      while i < ticks
        invariant 0 <= i <= ticks
        invariant Valid()
        invariant current == Advance(start, slides.Length, i)
        invariant OnlyActive(old(slides[..]), start) ==> OnlyActive(slides[..], current)
      {
        ghost var before, was := slides[..], current;
        NextSlide();
        if OnlyActive(old(slides[..]), start) {
          RotateKeepsOneActive(before, was);
        }
        i := i + 1;
      }
      AdvanceIsModular(start, slides.Length, ticks);
    }
  }
}
