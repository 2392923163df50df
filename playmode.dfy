/**
 * The play-mode switch (components/PlayModeToggle.tsx): a stateless control
 * whose click asks for the other mode and whose `aria-checked` state and
 * knob position follow the current mode.
 */
module PlayModeToggle {

  datatype PlayMode = Hover | All

  /** Line 13. */
  predicate IsAll(value: PlayMode)
  {
    value == All
  }

  /** The mode passed to onChange on a click, line 25. */
  function Toggled(value: PlayMode): (next: PlayMode)
    ensures next != value
    ensures value == Hover ==> next == All
    ensures value == All ==> next == Hover
  {
    if IsAll(value) then Hover else All
  }

  /** `aria-checked`, line 26. */
  function AriaChecked(value: PlayMode): bool
  {
    IsAll(value)
  }

  /** The knob's x offset in pixels, line 32. */
  function KnobOffset(value: PlayMode): nat
  {
    if IsAll(value) then 20 else 0
  }

  /** Two clicks restore the mode; each click flips the switch state and moves the knob across. */
  lemma ToggleTwice(value: PlayMode)
    ensures Toggled(Toggled(value)) == value
    ensures AriaChecked(Toggled(value)) == !AriaChecked(value)
    ensures KnobOffset(value) + KnobOffset(Toggled(value)) == 20
  {
  }

  /** The switch reads checked exactly in "all" mode, with the knob at 20 then and at 0 otherwise. */
  lemma KnobFollowsChecked(value: PlayMode)
    ensures AriaChecked(value) <==> value == All
    ensures KnobOffset(value) == (if AriaChecked(value) then 20 else 0)
  {
  }
}
