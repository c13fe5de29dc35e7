/** The self-advancing showcase carousel: an active slide index and a progress
    percentage derived from the time elapsed since the slide became active.
    The browser's animation-frame and timeout callbacks become discrete events
    (`Frame`, `FireTimer`), each given the current time in milliseconds. */
module Carousel {
  import opened Wrappers

  /** Number of slides in the showcase list. */
  const SlideCount: nat := 5
  /** Dwell time of one slide, in milliseconds. */
  const DisplayDuration: nat := 8000
  /** Delay between a full progress bar and the move to the next slide. */
  const AdvanceDelay: nat := 200

  /** Percentage shown for `elapsed` milliseconds on the current slide:
      `min(elapsed / DisplayDuration * 100, 100)`. */
  function Progress(elapsed: int): (p: real)
    ensures p <= 100.0
    ensures elapsed >= 0 ==> p >= 0.0
    ensures p == 100.0 <==> elapsed >= DisplayDuration
  {
    var value := (elapsed as real / DisplayDuration as real) * 100.0;
    if value < 100.0 then value else 100.0
  }

  /** Progress never decreases while the clock moves forward. */
  lemma ProgressMonotone(e1: int, e2: int)
    requires e1 <= e2
    ensures Progress(e1) <= Progress(e2)
  {
  }

  /** Slide index after one automatic advance. */
  function Next(idx: nat): (r: nat)
    requires idx < SlideCount
    ensures r < SlideCount
    ensures r == if idx == SlideCount - 1 then 0 else idx + 1
  {
    (idx + 1) % SlideCount
  }

  /** Slide index after `k` automatic advances starting from `idx`. */
  function Advance(idx: nat, k: nat): (r: nat)
    requires idx < SlideCount
    ensures r < SlideCount
  {
    if k == 0 then idx else Next(Advance(idx, k - 1))
  }

  /** `k` automatic advances move the index `k` places around the cycle. */
  lemma {:induction false} AdvanceRotates(idx: nat, k: nat)
    requires idx < SlideCount
    ensures Advance(idx, k) == (idx + k) % SlideCount
  {
    if k > 0 {
      AdvanceRotates(idx, k - 1);
      var q, p := (idx + k - 1) / SlideCount, (idx + k - 1) % SlideCount;
      assert idx + k - 1 == SlideCount * q + p;
      if p == SlideCount - 1 {
        assert idx + k == SlideCount * (q + 1);
      } else {
        assert idx + k == SlideCount * q + (p + 1);
      }
    }
  }

  /** A full round of automatic advances returns to the slide it started from. */
  lemma FullCycleReturns(idx: nat)
    requires idx < SlideCount
    ensures Advance(idx, SlideCount) == idx
    ensures forall k :: 0 < k < SlideCount ==> Advance(idx, k) != idx
  {
    AdvanceRotates(idx, SlideCount);
    forall k | 0 < k < SlideCount
      ensures Advance(idx, k) != idx
    {
      AdvanceRotates(idx, k);
    }
  }

  /** The mounted showcase section. `frameRequested` stands for a pending
      animation-frame handle and `timerDue` for a pending advance timeout
      (with the time it is due); `start` is the elapsed-time baseline of the
      current slide visit and `sampledAt` the time of the last frame. */
  class ShowcaseCarousel {
    var activeIdx: nat
    var progress: real
    var start: nat
    var sampledAt: nat
    var clock: nat
    var frameRequested: bool
    var timerDue: Option<nat>
    var mounted: bool

    ghost predicate Valid()
      reads this
    {
      && activeIdx < SlideCount
      && start <= sampledAt <= clock
      && progress == Progress(sampledAt - start)
      // at most one callback of the current visit is pending, and while the
      // section is mounted exactly one is
      && !(frameRequested && timerDue.Some?)
      && (mounted <==> frameRequested || timerDue.Some?)
      && (frameRequested ==> progress < 100.0)
      && (timerDue.Some? ==> progress == 100.0 && timerDue.value == sampledAt + AdvanceDelay)
    }

    /** Mounting shows slide 0 with an empty bar and requests the first frame. */
    constructor Mount(now: nat)
      ensures Valid()
      ensures activeIdx == 0 && progress == 0.0
      ensures start == now && clock == now
      ensures mounted && frameRequested && timerDue == None
    {
      activeIdx, progress := 0, 0.0;
      start, sampledAt, clock := now, now, now;
      frameRequested, timerDue, mounted := true, None, true;
    }

    /** The effect that runs whenever the active index changes: cancel the
        previous visit's frame and timeout, restart the baseline, reset the
        bar and request a frame. */
    method StartVisit(idx: nat, now: nat)
      requires Valid() && mounted
      requires idx < SlideCount && idx != activeIdx && now >= clock
      modifies this
      ensures Valid() && mounted
      ensures activeIdx == idx && progress == 0.0
      ensures start == now && sampledAt == now && clock == now
      ensures frameRequested && timerDue == None
    {
      frameRequested, timerDue := false, None;
      activeIdx := idx;
      start, sampledAt, clock := now, now, now;
      progress := 0.0;
      frameRequested := true;
    }

    /** An animation frame at time `now`: the bar is recomputed from the
        elapsed time; below 100% another frame is requested, at 100% the single
        advance timeout is scheduled instead. Without a pending frame (after a
        slide change or teardown) nothing happens. */
    method Frame(now: nat)
      requires Valid() && now >= clock
      modifies this
      ensures Valid() && clock == now
      ensures activeIdx == old(activeIdx) && start == old(start) && mounted == old(mounted)
      ensures progress >= old(progress)
      ensures !old(frameRequested) ==>
        progress == old(progress) && frameRequested == old(frameRequested) && timerDue == old(timerDue)
      ensures old(frameRequested) ==> progress == Progress(now - start) && sampledAt == now
      ensures old(frameRequested) && progress < 100.0 ==> frameRequested && timerDue == None
      ensures old(frameRequested) && progress == 100.0 ==>
        !frameRequested && timerDue == Some(now + AdvanceDelay)
    {
      ProgressMonotone(sampledAt - start, now - start);
      clock := now;
      if frameRequested {
        var value := Progress(now - start);
        progress := value;
        sampledAt := now;
        if value < 100.0 {
          frameRequested := true;
        } else {
          frameRequested := false;
          timerDue := Some(now + AdvanceDelay);
        }
      }
    }

    /** The advance timeout firing at time `now`: when it is pending and due,
        the carousel moves to the next slide and a new visit starts. */
    method FireTimer(now: nat)
      requires Valid() && now >= clock
      modifies this
      ensures Valid() && clock == now && mounted == old(mounted)
      ensures old(timerDue).Some? && now >= old(timerDue).value ==>
        activeIdx == Next(old(activeIdx)) && progress == 0.0 && start == now
        && frameRequested && timerDue == None
      ensures !(old(timerDue).Some? && now >= old(timerDue).value) ==>
        activeIdx == old(activeIdx) && progress == old(progress) && start == old(start)
        && frameRequested == old(frameRequested) && timerDue == old(timerDue)
    {
      if timerDue.Some? && now >= timerDue.value {
        StartVisit(Next(activeIdx), now);
      } else {
        clock := now;
      }
    }

    /** A click on slide `index`: a different slide becomes active at once and
        its visit starts; a click on the active slide changes nothing. */
    method Select(index: nat, now: nat)
      requires Valid() && mounted
      requires index < SlideCount && now >= clock
      modifies this
      ensures Valid() && mounted && clock == now && activeIdx == index
      ensures index != old(activeIdx) ==>
        progress == 0.0 && start == now && frameRequested && timerDue == None
      ensures index == old(activeIdx) ==>
        progress == old(progress) && start == old(start)
        && frameRequested == old(frameRequested) && timerDue == old(timerDue)
    {
      if index != activeIdx {
        StartVisit(index, now);
      } else {
        clock := now;
      }
    }

    /** Teardown cancels the pending frame and timeout; afterwards no event
        changes the index or the bar. */
    method Unmount()
      requires Valid()
      modifies this
      ensures Valid() && !mounted && !frameRequested && timerDue == None
      ensures activeIdx == old(activeIdx) && progress == old(progress)
      ensures start == old(start) && sampledAt == old(sampledAt) && clock == old(clock)
    {
      frameRequested, timerDue := false, None;
      mounted := false;
    }
  }

  /** After teardown, stray frame and timer events leave the state alone, and a
      visit interrupted by a click never receives its old advance. */
  method TeardownAndOverrideScenario(now: nat)
  {
    var c := new ShowcaseCarousel.Mount(now);
    c.Frame(now + 3200);
    assert c.progress == 40.0;
    c.Select(3, now + 3200);
    assert c.activeIdx == 3 && c.progress == 0.0 && c.timerDue == None;
    c.Unmount();
    c.FireTimer(now + 20000);
    c.Frame(now + 20000);
    assert c.activeIdx == 3 && c.progress == 0.0;
  }
}
