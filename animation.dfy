/** The banner-height animation shared by the theme view
    (src/renderer/pages/extensionbeta/route/extensionview.tsx) and the profile
    modal (src/renderer/components/userProfileModal/index.tsx): every 5 ms the
    updater below runs on the current height, until it returns the target and
    clears its interval. */
module HeightAnimation {

  function Target(expanded: bool, openHeight: int, closedHeight: int): int {
    if expanded then openHeight else closedHeight
  }

  function Dist(a: int, b: int): nat {
    if a >= b then a - b else b - a
  }

  /** One tick: `step` is -1 when expanded and +1 otherwise; once the height is
      on the target's side of the step the target is returned (and the
      interval cleared), else the height moves by the step. */
  function Step(prev: int, expanded: bool, openHeight: int, closedHeight: int): (r: int)
    // Never past the target, never away from it.
    ensures var t := Target(expanded, openHeight, closedHeight);
      (prev <= r <= t) || (t <= r <= prev)
    // Either the target is reached or the distance shrinks by exactly one.
    ensures var t := Target(expanded, openHeight, closedHeight);
      r == t || Dist(r, t) == Dist(prev, t) - 1
  {
    var target := Target(expanded, openHeight, closedHeight);
    var step := if expanded then -1 else 1;
    if (step < 0 && prev <= target) || (step > 0 && prev >= target) then target
    else prev + step
  }

  /** The height after `n` ticks. */
  function Ticks(h: int, n: nat, expanded: bool, openHeight: int, closedHeight: int): int
    decreases n
  {
    if n == 0 then h else Ticks(Step(h, expanded, openHeight, closedHeight), n - 1, expanded, openHeight, closedHeight)
  }

  /** At the target, a tick changes nothing: the height stays there. */
  lemma {:induction false} StaysAtTarget(n: nat, expanded: bool, openHeight: int, closedHeight: int)
    ensures var t := Target(expanded, openHeight, closedHeight);
      Ticks(t, n, expanded, openHeight, closedHeight) == t
    decreases n
  {
    if n > 0 {
      StaysAtTarget(n - 1, expanded, openHeight, closedHeight);
    }
  }

  /** From any height the target is reached within as many ticks as it is
      away, and kept from then on. */
  lemma {:induction false} ReachesTarget(h: int, n: nat, expanded: bool, openHeight: int, closedHeight: int)
    requires n >= Dist(h, Target(expanded, openHeight, closedHeight))
    ensures Ticks(h, n, expanded, openHeight, closedHeight) == Target(expanded, openHeight, closedHeight)
    decreases n
  {
    var t := Target(expanded, openHeight, closedHeight);
    if h == t {
      StaysAtTarget(n, expanded, openHeight, closedHeight);
    } else {
      var h' := Step(h, expanded, openHeight, closedHeight);
      if h' == t {
        StaysAtTarget(n - 1, expanded, openHeight, closedHeight);
      } else {
        ReachesTarget(h', n - 1, expanded, openHeight, closedHeight);
      }
    }
  }

  /** As written, `step` points away from the target whenever the open height
      is the larger one: from either resting height the very first tick
      returns the other one, so the height state reaches its target in one
      tick and the one-pixel stepping never runs. */
  lemma StepJumpsAtOnce(openHeight: int, closedHeight: int)
    requires openHeight > closedHeight + 1
    ensures Step(closedHeight, true, openHeight, closedHeight) == openHeight
    ensures Step(openHeight, false, openHeight, closedHeight) == closedHeight
  {
  }

  /** The tick as evidently intended: the step points toward the larger open
      height when expanding and back down when collapsing. */
  function IntendedStep(prev: int, expanded: bool, openHeight: int, closedHeight: int): (r: int)
    ensures var t := Target(expanded, openHeight, closedHeight);
      (prev <= r <= t) || (t <= r <= prev)
  {
    var target := Target(expanded, openHeight, closedHeight);
    var step := if expanded then 1 else -1;
    if (step < 0 && prev <= target) || (step > 0 && prev >= target) then target
    else prev + step
  }

  function IntendedTicks(h: int, n: nat, expanded: bool, openHeight: int, closedHeight: int): int
    decreases n
  {
    if n == 0 then h
    else IntendedTicks(IntendedStep(h, expanded, openHeight, closedHeight), n - 1, expanded, openHeight, closedHeight)
  }

  /** With the intended step the height state moves one pixel per tick
      between the resting heights, in both directions, and arrives after
      exactly as many ticks as the heights are apart. */
  lemma {:induction false} IntendedStepAnimates(h: int, k: nat, openHeight: int, closedHeight: int)
    requires closedHeight <= h <= openHeight && k <= openHeight - h
    ensures IntendedTicks(h, k, true, openHeight, closedHeight) == h + k
    ensures h - k >= closedHeight ==> IntendedTicks(h, k, false, openHeight, closedHeight) == h - k
    decreases k
  {
    if k > 0 {
      IntendedStepAnimates(h + 1, k - 1, openHeight, closedHeight);
      if h - k >= closedHeight {
        IntendedStepDown(h - 1, k - 1, openHeight, closedHeight);
      }
    }
  }

  lemma {:induction false} IntendedStepDown(h: int, k: nat, openHeight: int, closedHeight: int)
    requires h - k >= closedHeight
    ensures IntendedTicks(h, k, false, openHeight, closedHeight) == h - k
    decreases k
  {
    if k > 0 {
      IntendedStepDown(h - 1, k - 1, openHeight, closedHeight);
    }
  }
}
