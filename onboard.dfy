/**
 * The onboarding greeting (components/onboard/OnboardFlow.tsx): a greeting
 * that rotates through eleven languages on a timer, pauses while hovered,
 * and gives way to the name form when clicked.
 *
 * React's state cells become fields of a class; the rotation timeout held
 * in `intervalRef` becomes the `timer` field; the timeouts started by
 * `handleSubscribeComplete` become a count of pending completions. Every
 * browser event (hover, click, a timeout expiring) is one method. The effect
 * at lines 36-50 re-runs, as React does, only after a render in which one of
 * its dependencies changed.
 */
module Onboard {

  /** The greetings, lines 7-19. */
  const HelloMessages: seq<string> := [
    "hello",
    "h\U{f3}la",
    "salut",
    "hallo",
    "bonjour",
    "ciao",
    "ol\U{e1}",
    "merhaba",
    "\U{3053}\U{3093}\U{306b}\U{3061}\U{306f}",
    "\U{c548}\U{b155}\U{d558}\U{c138}\U{c694}",
    "\U{4f60}\U{597d}"
  ]

  /** The table holds eleven non-empty greetings; letters are code points (`[...message]`). */
  lemma HelloMessagesTable()
    ensures |HelloMessages| == 11
    ensures forall i | 0 <= i < |HelloMessages| :: 2 <= |HelloMessages[i]| <= 7
    ensures |HelloMessages[0]| == 5 && |HelloMessages[1]| == 4 && |HelloMessages[10]| == 2
  {
  }

  // ---------------------------------------------------------------------------
  // Rotation, line 45

  /** The next greeting: `(i + 1) % helloMessages.length`. */
  function Next(i: nat): (j: nat)
    ensures j < |HelloMessages|
  {
    (i + 1) % |HelloMessages|
  }

  /** The greeting after k rotations. */
  function Advance(i: nat, k: nat): nat
  {
    if k == 0 then i else Next(Advance(i, k - 1))
  }

  /** One more step of the count modulo eleven. */
  lemma NextOfRemainder(x: nat)
    ensures Next(x % 11) == (x + 1) % 11
  {
    var q, m := x / 11, x % 11;
    if m + 1 < 11 {
      assert x + 1 == q * 11 + (m + 1);
    } else {
      assert x + 1 == (q + 1) * 11;
    }
  }

  /** A number written as q elevens and r < 11 leaves remainder r. */
  lemma RemainderOf(q: nat, r: nat, x: nat)
    requires r < 11 && x == q * 11 + r
    ensures x % 11 == r
  {
  }

  lemma {:induction false} AdvanceIsAddition(i: nat, k: nat)
    requires i < |HelloMessages|
    ensures Advance(i, k) == (i + k) % |HelloMessages|
  {
    if k > 0 {
      AdvanceIsAddition(i, k - 1);
      NextOfRemainder(i + k - 1);
    }
  }

  /** Rotations bring the index back to its start exactly when their number is a multiple of eleven. */
  lemma RotationPeriod(i: nat, k: nat)
    requires i < |HelloMessages|
    ensures Advance(i, k) == i <==> k % |HelloMessages| == 0
  {
    AdvanceIsAddition(i, k);
    var q, m := k / 11, k % 11;
    if i + m < 11 {
      RemainderOf(q, i + m, i + k);
    } else {
      RemainderOf(q + 1, i + m - 11, i + k);
    }
  }

  // ---------------------------------------------------------------------------
  // Delays, lines 38-42 (milliseconds) and 96, 108, 116 (seconds)

  /** The rotation delay for a greeting of n letters, as exact whole milliseconds. */
  function RotationDelayMs(n: nat): (ms: nat)
    ensures ms as real == (0.4 + (n as real - 1.0) * 0.1 + 0.5) * 1000.0 + 3000.0
    ensures n >= 1 ==> ms == 3900 + 100 * (n - 1)
  {
    3800 + 100 * n
  }

  /** Letter i starts its entrance after 0.4 s, staggered by 0.1 s. */
  function EnterDelay(i: nat): real
  {
    0.4 + i as real * 0.1
  }

  /** Letter i of n starts its exit after (n - 1 - i) * 0.1 s. */
  function ExitDelay(i: nat, n: nat): real
    requires i < n
  {
    (n - 1 - i) as real * 0.1
  }

  /** The word fades to half opacity after n * 0.1 s. */
  function WordExitDelay(n: nat): real
  {
    n as real * 0.1
  }

  /** Letters leave in the reverse of the order they arrive: the last letter leaves first. */
  lemma StaggerReversed(i: nat, j: nat, n: nat)
    requires i < j < n
    ensures EnterDelay(i) < EnterDelay(j)
    ensures ExitDelay(j, n) < ExitDelay(i, n)
    ensures ExitDelay(n - 1, n) == 0.0
    ensures ExitDelay(i, n) == EnterDelay(n - 1 - i) - 0.4
    ensures ExitDelay(i, n) < WordExitDelay(n) && ExitDelay(j, n) < WordExitDelay(n)
  {
  }

  /** The rotation waits for the last letter's 0.5 s entrance and then shows the word for 3 s. */
  lemma RotationWaitsForLastLetter(n: nat)
    requires n >= 1
    ensures RotationDelayMs(n) as real == (EnterDelay(n - 1) + 0.5) * 1000.0 + 3000.0
  {
  }

  // ---------------------------------------------------------------------------
  // The state machine, lines 24-67

  /** The rotation timeout held in `intervalRef`: none, or one pending with its delay. */
  datatype Timer = NoTimer | Pending(delayMs: nat)

  /** What the effect leaves in `intervalRef` for a given state. */
  function ScheduledTimer(index: nat, hovered: bool, formShown: bool): Timer
    requires index < |HelloMessages|
  {
    if !hovered && !formShown then Pending(RotationDelayMs(|HelloMessages[index]|)) else NoTimer
  }

  /** The rotation is scheduled exactly when neither hovered nor showing the form. */
  lemma ScheduledOnlyWhenIdle(index: nat, hovered: bool, formShown: bool)
    requires index < |HelloMessages|
    ensures ScheduledTimer(index, hovered, formShown).Pending? <==> !hovered && !formShown
    ensures ScheduledTimer(index, hovered, formShown).Pending? ==>
              4000 <= ScheduledTimer(index, hovered, formShown).delayMs <= 4500
  {
    HelloMessagesTable();
  }

  class OnboardFlow {
    var currentIndex: nat
    var isHovered: bool
    var showForm: bool
    var timer: Timer
    /** Completion timeouts started by handleSubscribeComplete that have not fired yet. */
    var pendingCompletions: nat

    ghost predicate Valid()
      reads this
    {
      currentIndex < |HelloMessages|
      && timer == ScheduledTimer(currentIndex, isHovered, showForm)
    }

    /** Mounting: the initial state, then the effect's first run schedules the first rotation. */
    constructor ()
      ensures Valid()
      ensures currentIndex == 0 && !isHovered && !showForm && pendingCompletions == 0
      ensures timer == Pending(RotationDelayMs(5))
    {
      currentIndex := 0;
      isHovered := false;
      showForm := false;
      timer := NoTimer;
      pendingCompletions := 0;
      new;
      RunEffect();
    }

    /** stopAutoRotate, lines 29-34: clear the pending rotation, if any. */
    method StopAutoRotate()
      modifies this`timer
      ensures timer == NoTimer
    {
      if timer.Pending? {
        timer := NoTimer;
      }
    }

    /** The effect, lines 36-50: the previous run's cleanup, then a new timeout when idle. */
    method RunEffect()
      requires currentIndex < |HelloMessages|
      modifies this`timer
      ensures timer == ScheduledTimer(currentIndex, isHovered, showForm)
    {
      StopAutoRotate();
      if !isHovered && !showForm {
        var letters := HelloMessages[currentIndex];
        timer := Pending(RotationDelayMs(|letters|));
      }
    }

    /** Render after an event: re-run the effect only if a dependency changed. */
    method Rerender(index0: nat, hovered0: bool, form0: bool)
      requires currentIndex < |HelloMessages|
      modifies this`timer
      ensures if (currentIndex, isHovered, showForm) != (index0, hovered0, form0)
              then timer == ScheduledTimer(currentIndex, isHovered, showForm)
              else timer == old(timer)
    {
      if (currentIndex, isHovered, showForm) != (index0, hovered0, form0) {
        RunEffect();
      }
    }

    /** onMouseEnter, line 76: hovering pauses the rotation. */
    method MouseEnter()
      requires Valid()
      modifies this
      ensures Valid()
      ensures isHovered && timer == NoTimer
      ensures currentIndex == old(currentIndex) && showForm == old(showForm)
      ensures pendingCompletions == old(pendingCompletions)
    {
      var index0, hovered0, form0 := currentIndex, isHovered, showForm;
      isHovered := true;
      Rerender(index0, hovered0, form0);
    }

    /** onMouseLeave, line 77: leaving restarts the rotation unless the form is shown. */
    method MouseLeave()
      requires Valid()
      modifies this
      ensures Valid()
      ensures !isHovered && (timer.Pending? <==> !showForm)
      ensures currentIndex == old(currentIndex) && showForm == old(showForm)
      ensures pendingCompletions == old(pendingCompletions)
    {
      var index0, hovered0, form0 := currentIndex, isHovered, showForm;
      isHovered := false;
      Rerender(index0, hovered0, form0);
    }

    /** handleClick, lines 52-58: open the form; a click while it is open changes nothing. */
    method Click()
      requires Valid()
      modifies this
      ensures Valid()
      ensures currentIndex == old(currentIndex) && pendingCompletions == old(pendingCompletions)
      ensures old(showForm) ==> isHovered == old(isHovered) && showForm && timer == old(timer)
      ensures !old(showForm) ==> showForm && !isHovered && timer == NoTimer
    {
      var index0, hovered0, form0 := currentIndex, isHovered, showForm;
      if !showForm {
        StopAutoRotate();
        isHovered := false;
        showForm := true;
      }
      Rerender(index0, hovered0, form0);
    }

    /** The rotation timeout expires, lines 44-47: show the next greeting and schedule its rotation. */
    method RotationTimerFires()
      requires Valid() && timer.Pending?
      modifies this
      ensures Valid()
      ensures currentIndex == Next(old(currentIndex))
      ensures timer == Pending(RotationDelayMs(|HelloMessages[currentIndex]|))
      ensures isHovered == old(isHovered) && showForm == old(showForm)
      ensures pendingCompletions == old(pendingCompletions)
    {
      var index0, hovered0, form0 := currentIndex, isHovered, showForm;
      timer := NoTimer;
      currentIndex := (currentIndex + 1) % |HelloMessages|;
      Rerender(index0, hovered0, form0);
    }

    /** handleSubscribeComplete, lines 60-65: start the two-second completion timeout. */
    method SubscribeComplete()
      requires Valid()
      modifies this
      ensures Valid()
      ensures pendingCompletions == old(pendingCompletions) + 1
      ensures currentIndex == old(currentIndex) && isHovered == old(isHovered)
      ensures showForm == old(showForm) && timer == old(timer)
    {
      pendingCompletions := pendingCompletions + 1;
    }

    /** The completion timeout expires, lines 61-64: back to the greeting, which rotates again. */
    method CompletionTimerFires()
      requires Valid() && pendingCompletions > 0
      modifies this
      ensures Valid()
      ensures !showForm && !isHovered && currentIndex == old(currentIndex)
      ensures pendingCompletions == old(pendingCompletions) - 1
      ensures timer == Pending(RotationDelayMs(|HelloMessages[currentIndex]|))
    {
      var index0, hovered0, form0 := currentIndex, isHovered, showForm;
      pendingCompletions := pendingCompletions - 1;
      showForm := false;
      isHovered := false;
      Rerender(index0, hovered0, form0);
    }

    /** The letters on screen, line 67. */
    method Greeting() returns (letters: string)
      requires Valid()
      ensures letters == HelloMessages[currentIndex]
      ensures 2 <= |letters| <= 7
    {
      HelloMessagesTable();
      letters := HelloMessages[currentIndex];
    }
  }
}
