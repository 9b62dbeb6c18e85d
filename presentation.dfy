/**
 * Presentation mode (presentation.js): a cursor `currentStep` over the slides, an `isActive`
 * flag, and the parts of the overlay that depend on the cursor (dot indicator, counter,
 * the previous button's visibility and the next button's label).
 */
module Presentation {
  import opened Options
  import opened JsString

  datatype DotState = Pending | Completed | Active

  datatype NextLabel = Next | Finish

  /** The class `updateIndicator` gives dot `i` when the cursor is at `current`. */
  function DotAt(i: nat, current: int): DotState {
    if i < current then Completed else if i == current then Active else Pending
  }

  function Dots(count: nat, current: int): seq<DotState> {
    seq(count, i requires 0 <= i < count => DotAt(i, current))
  }

  /**
   * `updateIndicator()`: reset every dot's class, then mark the completed ones and the active
   * one. Dot i ends up completed exactly when it comes before the cursor and active exactly
   * when it is the cursor, so with the cursor on a slide exactly one dot is active.
   */
  method UpdateIndicator(count: nat, current: int) returns (dots: seq<DotState>)
    ensures |dots| == count
    ensures forall i :: 0 <= i < count ==> (dots[i] == Completed <==> i < current)
    ensures forall i :: 0 <= i < count ==> (dots[i] == Active <==> i == current)
    ensures 0 <= current < count ==> dots[current] == Active
    ensures forall i, j :: (0 <= i < count && 0 <= j < count && dots[i] == Active && dots[j] == Active) ==> i == j
    ensures dots == Dots(count, current)
  {
    dots := [];
    var i := 0;
    while i < count
      invariant i <= count && |dots| == i
      invariant forall j :: 0 <= j < i ==> dots[j] == DotAt(j, current)
    {
      var dot := Pending;
      if i < current { dot := Completed; }
      if i == current { dot := Active; }
      dots := dots + [dot];
      i := i + 1;
    }
  }

  /** The counter text `${currentStep + 1} / ${PRESENTATION_STEPS.length}`. */
  function Counter(step: nat, count: nat): string {
    NatToString(step + 1) + " / " + NatToString(count)
  }

  /** The counter tells the slides apart: two slides of one presentation never show the same counter. */
  lemma CounterDeterminesStep(a: nat, b: nat, count: nat)
    requires Counter(a, count) == Counter(b, count)
    ensures a == b
  {
    var x, y := NatToString(a + 1), NatToString(b + 1);
    var c := Counter(a, count);
    assert c == x + (" / " + NatToString(count));
    assert c == y + (" / " + NatToString(count));
    assert x == c[..|x|] == y;
    NatToStringInjective(a + 1, b + 1);
  }

  class Presenter {
    /** `PRESENTATION_STEPS.length`. */
    const stepCount: nat
    var currentStep: nat
    var isActive: bool
    /** The indicator's dots; none before the first opening. */
    var dots: seq<DotState>
    /** The slide whose title and description are on screen, if any. */
    var shown: Option<nat>
    var prevHidden: bool
    var nextLabel: NextLabel
    var counter: string

    /** Everything `renderStep` draws shows slide `step`. */
    predicate Shows(step: nat) reads this {
      && shown == Some(step)
      && prevHidden == (step == 0)
      && (nextLabel == Finish <==> step == stepCount - 1)
      && dots == Dots(|dots|, step)
      && counter == Counter(step, stepCount)
    }

    /**
     * The cursor is on a slide (or at 0 when there are none), the indicator has one dot per
     * slide, and only an existing slide is ever drawn.
     */
    ghost predicate InRange() reads this {
      && (currentStep == 0 || currentStep < stepCount)
      && (dots == [] || |dots| == stepCount)
      && (shown.Some? ==> shown.value < stepCount)
    }

    /** Whatever is drawn shows the slide under the cursor. */
    ghost predicate Valid() reads this {
      InRange() && (shown.Some? ==> Shows(currentStep))
    }

    constructor (count: nat)
      ensures Valid() && stepCount == count
      ensures currentStep == 0 && !isActive && dots == [] && shown == None
    {
      stepCount := count;
      currentStep := 0;
      isActive := false;
      dots := [];
      shown := None;
      prevHidden := false;
      nextLabel := Next;
      counter := "";
    }

    /** `renderStep()`: nothing when the cursor has no slide; otherwise draw slide `currentStep`. */
    method RenderStep()
      requires InRange()
      modifies this
      ensures Valid()
      ensures currentStep == old(currentStep) && isActive == old(isActive) && |dots| == old(|dots|)
      ensures currentStep < stepCount ==> Shows(currentStep)
      ensures currentStep >= stepCount ==>
                && shown == old(shown) && dots == old(dots) && counter == old(counter)
                && prevHidden == old(prevHidden) && nextLabel == old(nextLabel)
    {
      if currentStep >= stepCount {
        return;
      }
      shown := Some(currentStep);
      counter := Counter(currentStep, stepCount);
      prevHidden := currentStep == 0;
      nextLabel := if currentStep == stepCount - 1 then Finish else Next;
      dots := UpdateIndicator(|dots|, currentStep);
    }

    /** `openPresentation()`: activate at the first slide, rebuild the dots and draw. */
    method Open()
      requires Valid()
      modifies this
      ensures Valid()
      ensures isActive && currentStep == 0 && |dots| == stepCount
      ensures stepCount > 0 ==> Shows(0)
    {
      isActive := true;
      currentStep := 0;
      dots := seq(stepCount, i requires 0 <= i < stepCount => if i == 0 then Active else Pending);
      RenderStep();
    }

    /** `closePresentation()`: deactivate; the cursor and what is drawn stay as they are. */
    method Close()
      requires Valid()
      modifies this
      ensures Valid()
      ensures !isActive && currentStep == old(currentStep)
      ensures dots == old(dots) && shown == old(shown)
      ensures counter == old(counter) && prevHidden == old(prevHidden) && nextLabel == old(nextLabel)
    {
      isActive := false;
    }

    /** `nextStep()`: advance below the last slide, close at (or beyond) it. */
    method NextStep()
      requires Valid()
      modifies this
      ensures Valid()
      ensures old(currentStep) + 1 < stepCount ==>
                currentStep == old(currentStep) + 1 && isActive == old(isActive) && Shows(currentStep)
      ensures old(currentStep) + 1 >= stepCount ==>
                currentStep == old(currentStep) && !isActive && shown == old(shown) && dots == old(dots)
      ensures |dots| == old(|dots|)
    {
      if currentStep < stepCount - 1 {
        currentStep := currentStep + 1;
        RenderStep();
      } else {
        Close();
      }
    }

    /** `prevStep()`: go back one slide; nothing at the first. */
    method PrevStep()
      requires Valid()
      modifies this
      ensures Valid()
      ensures isActive == old(isActive)
      ensures old(currentStep) > 0 ==> currentStep == old(currentStep) - 1 && Shows(currentStep)
      ensures old(currentStep) == 0 ==> currentStep == 0 && shown == old(shown) && dots == old(dots)
      ensures |dots| == old(|dots|)
    {
      if currentStep > 0 {
        currentStep := currentStep - 1;
        RenderStep();
      }
    }

    /** The click handler of dot `i`: jump to slide `i` and draw it. */
    method ClickDot(i: nat)
      requires Valid() && i < |dots|
      modifies this
      ensures Valid()
      ensures currentStep == i && isActive == old(isActive) && Shows(i)
      ensures |dots| == old(|dots|)
    {
      currentStep := i;
      RenderStep();
    }

    /**
     * The keydown listener: ignored while inactive; otherwise Escape closes, ArrowRight or
     * Space advances, ArrowLeft goes back, and any other key does nothing.
     */
    method KeyDown(key: string)
      requires Valid()
      modifies this
      ensures Valid()
      ensures !old(isActive) ==> currentStep == old(currentStep) && !isActive && shown == old(shown) && dots == old(dots)
      ensures old(isActive) && key == "Escape" ==>
                !isActive && currentStep == old(currentStep) && shown == old(shown) && dots == old(dots)
      ensures old(isActive) && (key == "ArrowRight" || key == " ") ==>
                if old(currentStep) + 1 < stepCount then isActive && currentStep == old(currentStep) + 1 && Shows(currentStep)
                else !isActive && currentStep == old(currentStep) && shown == old(shown) && dots == old(dots)
      ensures old(isActive) && key == "ArrowLeft" ==>
                isActive && currentStep == (if old(currentStep) > 0 then old(currentStep) - 1 else 0)
                && (old(currentStep) > 0 ==> Shows(currentStep))
                && (old(currentStep) == 0 ==> shown == old(shown) && dots == old(dots))
      ensures old(isActive) && key !in {"Escape", "ArrowRight", " ", "ArrowLeft"} ==>
                isActive && currentStep == old(currentStep) && shown == old(shown) && dots == old(dots)
      ensures |dots| == old(|dots|)
    {
      if !isActive {
        return;
      }
      if key == "Escape" {
        Close();
      }
      if key == "ArrowRight" || key == " " {
        NextStep();
      }
      if key == "ArrowLeft" {
        PrevStep();
      }
    }
  }

  /** The six slides of the demo: opening and pressing ArrowRight five times reaches "Finish"; once more closes. */
  method WalkThrough() returns (lastLabel: NextLabel, activeAfterLast: bool, stepAfterLast: nat)
    ensures lastLabel == Finish && !activeAfterLast && stepAfterLast == 5
  {
    var p := new Presenter(6);
    p.Open();
    var k := 0;
    while k < 5
      invariant 0 <= k <= 5
      invariant p.Valid() && p.stepCount == 6 && p.isActive && p.currentStep == k && p.Shows(k)
    {
      p.KeyDown("ArrowRight");
      k := k + 1;
    }
    lastLabel := p.nextLabel;
    p.KeyDown("ArrowRight");
    activeAfterLast := p.isActive;
    stepAfterLast := p.currentStep;
  }
}
