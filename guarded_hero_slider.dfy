/** The hero slider of the frontend copy (frontend/js/script.js): the same
    slider, whose step first returns when there are no slides. */
module GuardedHeroSlider {
  import opened HeroSlider

  class GuardedSlider {
    /** The `active` class of each slide, in document order. */
    const slides: array<bool>
    /** The index of the current slide. */
    var current: int

    ghost predicate Valid()
      reads this
    {
      0 <= current && (current < slides.Length || current == 0)
    }

    constructor (flags: seq<bool>)
      ensures Valid() && fresh(slides)
      ensures slides[..] == flags && current == 0
    {
      slides := new bool[|flags|](i requires 0 <= i < |flags| => flags[i]);
      current := 0;
    }

    /** One timer tick. With no slides it returns at once; otherwise the
        active class moves from the current slide to the next, wrapping
        around. */
    method NextSlide()
      requires Valid()
      modifies slides, this`current
      ensures Valid()
      ensures slides.Length == 0 ==> current == old(current) && slides[..] == old(slides[..])
      ensures slides.Length > 0 ==>
        current == Next(old(current), slides.Length) &&
        slides[..] == Rotate(old(slides[..]), old(current))
    {
      if slides.Length == 0 {
        return;
      }
      slides[current] := false;
      current := (current + 1) % slides.Length;
      slides[current] := true;
    }

    /** Start-up and `ticks` timer ticks: the timer is started only when at
        least one slide exists. */
    method Run(ticks: nat) returns (started: bool)
      requires Valid()
      modifies slides, this`current
      ensures Valid()
      ensures started <==> slides.Length > 0
      ensures !started ==> current == old(current) && slides[..] == old(slides[..])
      ensures started ==> current == (old(current) + ticks) % slides.Length
      ensures OnlyActive(old(slides[..]), old(current)) ==> OnlyActive(slides[..], current)
    {
      started := slides.Length > 0;
      if !started {
        return;
      }
      ghost var start := current;
      var i := 0;
      while i < ticks
        invariant 0 <= i <= ticks
        invariant Valid()
        invariant current == Advance(start, slides.Length, i)
        invariant OnlyActive(old(slides[..]), start) ==> OnlyActive(slides[..], current)
      {
        ghost var before, was := slides[..], current;
        NextSlide();
        if OnlyActive(old(slides[..]), start) {
          RotateKeepsOneActive(before, was);
        }
        i := i + 1;
      }
      AdvanceIsModular(start, slides.Length, ticks);
    }
  }
}
