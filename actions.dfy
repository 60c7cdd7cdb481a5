/** The input `Action` state machine (code/anker/core/anker_actions.hpp and
    code/anker/core/anker_actions.cpp). Floats are reals; the platform's
    `inputValue` is passed in as a function. */
module Actions {
  import opened Wrappers

  /** `InputAnalogToDigitalThreshold` and `InputHoldThreshold`. */
  const AnalogToDigitalThreshold: real := 0.3
  const HoldThreshold: real := 0.3

  /** Keys/mouse buttons and gamepad buttons, by their enumerator index. */
  type MkbInput = nat
  type GamepadInput = nat

  /** `clamp01`. */
  function Clamp01(x: real): (r: real)
    ensures 0.0 <= r <= 1.0
    ensures 0.0 <= x <= 1.0 ==> r == x
  {
    if x < 0.0 then 0.0 else if x > 1.0 then 1.0 else x
  }

  /** The contribution of one optional binding: its input value, or 0 when
      the slot is unbound. */
  function Slot<I>(binding: Option<I>, inputValue: I -> real): real {
    match binding
    case Some(b) => inputValue(b)
    case None => 0.0
  }

  class Action {
    var bindingMkb1: Option<MkbInput>
    var bindingMkb2: Option<MkbInput>
    var bindingGamepad1: Option<GamepadInput>
    var bindingGamepad2: Option<GamepadInput>
    var value: real
    var currentTime: real
    var previousTime: real
    var consumed: bool

    /** `Action()`: no bindings, all times and the value 0. */
    constructor ()
      ensures bindingMkb1 == None && bindingMkb2 == None
      ensures bindingGamepad1 == None && bindingGamepad2 == None
      ensures value == 0.0 && currentTime == 0.0 && previousTime == 0.0 && !consumed
    {
      bindingMkb1, bindingMkb2, bindingGamepad1, bindingGamepad2 := None, None, None, None;
      value, currentTime, previousTime, consumed := 0.0, 0.0, 0.0, false;
    }

    /** `Action(bindingMkb)` and `Action(bindingMkb, bindingGamepad)`: the
        first slots bound, the rest as in the default constructor. */
    constructor Bound(mkb: MkbInput, gamepad: Option<GamepadInput>)
      ensures bindingMkb1 == Some(mkb) && bindingMkb2 == None
      ensures bindingGamepad1 == gamepad && bindingGamepad2 == None
      ensures value == 0.0 && currentTime == 0.0 && previousTime == 0.0 && !consumed
    {
      bindingMkb1, bindingMkb2, bindingGamepad1, bindingGamepad2 := Some(mkb), None, gamepad, None;
      value, currentTime, previousTime, consumed := 0.0, 0.0, 0.0, false;
    }

    /** `value()`: reads as 0 while consumed. */
    function Value(): (v: real)
      reads this
      ensures consumed ==> v == 0.0
      ensures !consumed ==> v == value
    {
      if consumed then 0.0 else value
    }

    predicate Down() reads this { Value() > AnalogToDigitalThreshold }
    predicate DownThisFrame() reads this { Down() && previousTime == 0.0 }
    predicate Up() reads this { Value() == 0.0 }
    predicate UpThisFrame() reads this { Up() && previousTime > 0.0 }
    predicate Tapped() reads this { UpThisFrame() && previousTime < HoldThreshold }
    predicate Holding() reads this { Down() && currentTime >= HoldThreshold }
    predicate HoldingThisFrame() reads this { Holding() && previousTime < HoldThreshold }

    /** `explicit operator bool`: the same as `downThisFrame()`. */
    predicate AsBool() reads this { DownThisFrame() }

    /** How the queries relate: down and up exclude each other; each
        "this frame" query implies its plain one; tapping is a kind of
        release, and holding a kind of being down. A consumed action is up. */
    lemma QueryRelations()
      ensures !(Down() && Up())
      ensures DownThisFrame() ==> Down()
      ensures UpThisFrame() ==> Up()
      ensures Tapped() ==> UpThisFrame() && 0.0 < previousTime < HoldThreshold
      ensures HoldingThisFrame() ==> Holding()
      ensures Holding() ==> Down()
      ensures AsBool() <==> DownThisFrame()
      ensures consumed ==> Up() && !Down()
    {
    }

    /** `consume()`: only `consumed` changes. */
    method Consume()
      modifies this
      ensures consumed
      ensures value == old(value) && currentTime == old(currentTime) && previousTime == old(previousTime)
      ensures Up() && !Down()
    {
      consumed := true;
    }

    /** The value the bound inputs report this frame, before clamping. */
    function BoundSum(mkbValue: MkbInput -> real, gamepadValue: GamepadInput -> real): real
      reads this
    {
      Slot(bindingMkb1, mkbValue) + Slot(bindingMkb2, mkbValue)
      + Slot(bindingGamepad1, gamepadValue) + Slot(bindingGamepad2, gamepadValue)
    }

    /** `tick(dt)`. The value becomes the clamped sum of the bound inputs.
        `down()` is then evaluated while `consumed` still holds its previous
        value: if it is down, the previous time takes the old current time and
        the current time grows by `dt`; otherwise both are reset to 0. Only
        then is `consumed` cleared. As a consequence the state a tick leaves
        behind never reports a release: either the action is down, or the
        previous time was reset to 0, so `upThisFrame()` and `tapped()` are
        false after every tick. */
    method Tick(dt: real, mkbValue: MkbInput -> real, gamepadValue: GamepadInput -> real)
      modifies this
      ensures value == Clamp01(old(BoundSum(mkbValue, gamepadValue)))
      ensures var wasDown := !old(consumed) && value > AnalogToDigitalThreshold;
              && (wasDown ==> previousTime == old(currentTime) && currentTime == old(currentTime) + dt)
              && (!wasDown ==> previousTime == 0.0 && currentTime == 0.0)
      ensures !consumed
      ensures bindingMkb1 == old(bindingMkb1) && bindingMkb2 == old(bindingMkb2)
      ensures bindingGamepad1 == old(bindingGamepad1) && bindingGamepad2 == old(bindingGamepad2)
      ensures !UpThisFrame() && !Tapped()
    {
      var sum := 0.0;
      if bindingMkb1.Some? {
        sum := sum + mkbValue(bindingMkb1.value);
      }
      if bindingMkb2.Some? {
        sum := sum + mkbValue(bindingMkb2.value);
      }
      if bindingGamepad1.Some? {
        sum := sum + gamepadValue(bindingGamepad1.value);
      }
      if bindingGamepad2.Some? {
        sum := sum + gamepadValue(bindingGamepad2.value);
      }
      assert sum == BoundSum(mkbValue, gamepadValue);
      value := Clamp01(sum);

      if Down() {
        previousTime := currentTime;
        currentTime := currentTime + dt;
      } else {
        previousTime := 0.0;
        currentTime := 0.0;
      }

      consumed := false;
    }

    /** A tick of a consumed action resets its timers even when the input is
        held, so the next tick reports `downThisFrame()` again. */
    lemma ConsumedTickRestarts(oldConsumed: bool)
      requires oldConsumed && !consumed
      requires previousTime == 0.0 && currentTime == 0.0
      requires value > AnalogToDigitalThreshold
      ensures DownThisFrame() && !Holding()
    {
    }

    /** `tick` as evidently intended: on release the previous time keeps the
        length of the press, so the release frame reports `upThisFrame()`
        (and `tapped()` for a short press). */
    method TickReportingRelease(dt: real, mkbValue: MkbInput -> real, gamepadValue: GamepadInput -> real)
      modifies this
      ensures value == Clamp01(old(BoundSum(mkbValue, gamepadValue)))
      ensures var wasDown := !old(consumed) && value > AnalogToDigitalThreshold;
              && (wasDown ==> previousTime == old(currentTime) && currentTime == old(currentTime) + dt)
              && (!wasDown ==> previousTime == old(currentTime) && currentTime == 0.0)
      ensures !consumed
      ensures bindingMkb1 == old(bindingMkb1) && bindingMkb2 == old(bindingMkb2)
      ensures bindingGamepad1 == old(bindingGamepad1) && bindingGamepad2 == old(bindingGamepad2)
      ensures old(currentTime) > 0.0 && value == 0.0 ==>
                UpThisFrame() && (Tapped() <==> old(currentTime) < HoldThreshold)
    {
      value := Clamp01(BoundSum(mkbValue, gamepadValue));
      if Down() {
        previousTime := currentTime;
        currentTime := currentTime + dt;
      } else {
        previousTime := currentTime;
        currentTime := 0.0;
      }
      consumed := false;
    }
  }
}
