/** The step counter of one `AttractionMatrixValueView` cell: an integer in
    `-maxStep...maxStep` moved one unit at a time, or set outright. The
    view's `didSet` notifies its delegate whenever an assignment changes
    the value; each transition reports whether that happened.
 */
module ValueSteppers {
  import Torus

  /** `maxStep` is a positive constant defined with the matrix view. */
  datatype Stepper = Stepper(maxStep: int, step: int)

  predicate Valid(s: Stepper)
  {
    s.maxStep > 0 && -s.maxStep <= s.step <= s.maxStep
  }

  /** The stepper after an operation, whether the operation succeeded, and
      whether the delegate was notified. */
  datatype Outcome = Outcome(stepper: Stepper, succeeded: bool, notified: bool)

  /** `setup()`: the step starts at 0. */
  function Init(maxStep: int): (s: Stepper)
    requires maxStep > 0
    ensures Valid(s) && s.maxStep == maxStep && s.step == 0
  {
    Stepper(maxStep, 0)
  }

  /** `increment()`: refuses at the upper bound, otherwise steps up by one. */
  function Increment(s: Stepper): (o: Outcome)
    requires Valid(s)
    ensures Valid(o.stepper) && o.stepper.maxStep == s.maxStep
    ensures o.succeeded <==> s.step < s.maxStep
    ensures o.stepper.step == if o.succeeded then s.step + 1 else s.step
    ensures o.notified <==> o.stepper.step != s.step
  {
    if s.step >= s.maxStep then Outcome(s, false, false)
    else Outcome(s.(step := s.step + 1), true, true)
  }

  /** `decrement()`: refuses at the lower bound, otherwise steps down by
      one. */
  function Decrement(s: Stepper): (o: Outcome)
    requires Valid(s)
    ensures Valid(o.stepper) && o.stepper.maxStep == s.maxStep
    ensures o.succeeded <==> s.step > -s.maxStep
    ensures o.stepper.step == if o.succeeded then s.step - 1 else s.step
    ensures o.notified <==> o.stepper.step != s.step
  {
    if s.step <= -s.maxStep then Outcome(s, false, false)
    else Outcome(s.(step := s.step - 1), true, true)
  }

  /** `setStep(_:)`, whose `assert` demands a value within the bounds; the
      delegate hears of it only when the value differs. */
  function SetStep(s: Stepper, v: int): (o: Outcome)
    requires Valid(s) && -s.maxStep <= v <= s.maxStep
    ensures Valid(o.stepper) && o.stepper.maxStep == s.maxStep && o.stepper.step == v
    ensures o.succeeded
    ensures o.notified <==> v != s.step
  {
    Outcome(s.(step := v), true, v != s.step)
  }

  /** A successful step up is undone by a step down, and vice versa. */
  lemma IncrementDecrementInverse(s: Stepper)
    requires Valid(s)
    ensures Increment(s).succeeded ==> Decrement(Increment(s).stepper).stepper == s
    ensures Decrement(s).succeeded ==> Increment(Decrement(s).stepper).stepper == s
  {
  }

  /** `attractionValue`: the step as a fraction of `maxStep`. */
  function AttractionValue(s: Stepper): (v: real)
    requires Valid(s)
    ensures -1.0 <= v <= 1.0
    ensures v * s.maxStep as real == s.step as real
  {
    var m := s.maxStep as real;
    var a := s.step as real;
    Torus.DivLowerBound(a, -1.0, m);
    Torus.DivLowerBound(-a, -1.0, m);
    assert (-a) / m == -(a / m);
    a / m
  }

  /** `startMouseHold(_:)` with `increment` (`up`) or `decrement`: the
      operation runs once at once and then again while it succeeds, until
      the release cancels the hold after `calls` invocations in all. The
      step moves towards the bound by one per success, so a hold succeeds
      at most `2*maxStep` times. */
  method Hold(s: Stepper, up: bool, calls: nat) returns (r: Stepper, successes: nat)
    requires Valid(s)
    ensures Valid(r) && r.maxStep == s.maxStep
    ensures successes <= calls
    ensures up ==> r.step == s.step + successes && successes <= s.maxStep - s.step
    ensures !up ==> r.step == s.step - successes && successes <= s.maxStep + s.step
    ensures successes < calls ==> r.step == if up then s.maxStep else -s.maxStep
    ensures successes <= 2 * s.maxStep
  {
    r := s;
    successes := 0;
    var made := 0;
    var ok := true;
    while made < calls && ok
      invariant Valid(r) && r.maxStep == s.maxStep
      invariant successes <= made <= calls
      invariant up ==> r.step == s.step + successes
      invariant !up ==> r.step == s.step - successes
      invariant ok ==> successes == made
      invariant !ok ==> r.step == if up then s.maxStep else -s.maxStep
      decreases calls - made
    {
      var o := if up then Increment(r) else Decrement(r);
      r := o.stepper;
      ok := o.succeeded;
      made := made + 1;
      if ok {
        successes := successes + 1;
      }
    }
  }
}
