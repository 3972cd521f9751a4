/** The passcode dialog in front of the control panel
    (src/components/EnhancedDashboard.tsx), as a state machine over whether
    the dialog is open, whether the code was accepted, and the typed code.
    It is modelled as the component behaves, not as a security mechanism. */
module Gate {

  /** The code the dialog accepts. */
  const Passcode: string := "123"

  /** `isControlPanelOpen`, `isAuthenticated` and `passwordInput`. */
  datatype Gate = Gate(open: bool, authenticated: bool, input: string)

  /** The state when the dashboard mounts. */
  const Initial: Gate := Gate(false, false, "")

  /** The passcode field's `onChange`. */
  function TypeInput(g: Gate, text: string): (r: Gate)
    ensures r.input == text
    ensures r.open == g.open && r.authenticated == g.authenticated
  {
    g.(input := text)
  }

  /** `handlePasswordSubmit`: the right code authenticates; a wrong one
      clears the field and changes nothing else. */
  function Submit(g: Gate): (r: Gate)
    ensures r.open == g.open
    ensures r.authenticated <==> g.authenticated || g.input == Passcode
    ensures g.input == Passcode ==> r.input == g.input
    ensures g.input != Passcode ==> r.input == "" && r.authenticated == g.authenticated
  {
    if g.input == Passcode then g.(authenticated := true) else g.(input := "")
  }

  /** The dialog's `onOpenChange(open)`: closing it forgets both the
      authentication and the typed code; opening it keeps them. */
  function OpenChange(g: Gate, open: bool): (r: Gate)
    ensures r.open == open
    ensures !open ==> !r.authenticated && r.input == ""
    ensures open ==> r.authenticated == g.authenticated && r.input == g.input
  {
    if open then g.(open := true) else Gate(false, false, "")
  }

  /** What the dialog shows. */
  datatype View = Hidden | PasscodeForm | SettingsEditor

  /** The dialog's content: nothing while closed, the passcode form until
      the code is accepted, then the settings editor. */
  function ViewOf(g: Gate): (r: View)
    ensures r == Hidden <==> !g.open
    ensures r == SettingsEditor <==> g.open && g.authenticated
    ensures r == PasscodeForm <==> g.open && !g.authenticated
  {
    if !g.open then Hidden else if g.authenticated then SettingsEditor else PasscodeForm
  }

  // ---------------------------------------------------------------------
  // Runs of events
  // ---------------------------------------------------------------------

  datatype Event = Type(text: string) | SubmitCode | SetOpen(open: bool)

  function Step(g: Gate, e: Event): Gate {
    match e
    case Type(text) => TypeInput(g, text)
    case SubmitCode => Submit(g)
    case SetOpen(open) => OpenChange(g, open)
  }

  /** The state after the events of `es`, in order. */
  function Run(g: Gate, es: seq<Event>): Gate {
    if es == [] then g else Step(Run(g, es[..|es| - 1]), es[|es| - 1])
  }

  /** The events the page can deliver in state `g`: the field and the button
      exist only in the passcode form; the dialog can always be opened or
      closed. */
  predicate Enabled(g: Gate, e: Event) {
    match e
    case Type(_) => ViewOf(g) == PasscodeForm
    case SubmitCode => ViewOf(g) == PasscodeForm
    case SetOpen(_) => true
  }

  /** A closed dialog holds no authentication and no typed code. */
  predicate Inv(g: Gate) {
    !g.open ==> !g.authenticated && g.input == ""
  }

  /** Every event the page can deliver keeps `Inv`. */
  lemma StepKeepsInv(g: Gate, e: Event)
    requires Inv(g) && Enabled(g, e)
    ensures Inv(Step(g, e))
  {
  }

  /** `Inv` holds initially, so the settings editor is never reachable while
      the dialog is closed. */
  lemma InitialInv()
    ensures Inv(Initial) && ViewOf(Initial) == Hidden
  {
  }

  /** Every event of `es` was one the page could deliver at that point. */
  predicate EnabledRun(es: seq<Event>) {
    forall i :: 0 <= i < |es| ==> Enabled(Run(Initial, es[..i]), es[i])
  }

  /** Along any run the page can produce, a closed dialog holds neither the
      authentication nor a typed code. */
  lemma {:induction false} ReachableInv(es: seq<Event>)
    requires EnabledRun(es)
    ensures Inv(Run(Initial, es))
  {
    if es != [] {
      var n := |es| - 1;
      var front := es[..n];
      assert EnabledRun(front) by {
        forall i | 0 <= i < |front| ensures Enabled(Run(Initial, front[..i]), front[i]) {
          assert front[..i] == es[..i] && front[i] == es[i];
        }
      }
      ReachableInv(front);
      assert Enabled(Run(Initial, es[..n]), es[n]);
      StepKeepsInv(Run(Initial, front), es[n]);
    }
  }

  /** The submit at position `i` of `es` met the right code and the dialog
      was not closed after it. */
  predicate UnlockedAt(es: seq<Event>, i: nat)
    requires i < |es|
  {
    && es[i] == SubmitCode
    && Run(Initial, es[..i]).input == Passcode
    && forall j :: i < j < |es| ==> es[j] != SetOpen(false)
  }

  /** Some submit unlocked the dialog and no close came after it. */
  predicate Unlocked(es: seq<Event>) {
    exists i :: 0 <= i < |es| && UnlockedAt(es, i)
  }

  /** The gate is authenticated after a run from the initial state exactly
      when some submit since the last close carried the right code. */
  lemma {:induction false} AuthenticatedIffUnlocked(es: seq<Event>)
    ensures Run(Initial, es).authenticated <==> Unlocked(es)
  {
    if es != [] {
      var n := |es| - 1;
      var front, e := es[..n], es[n];
      AuthenticatedIffUnlocked(front);
      assert es[..n] == front;
      var g := Run(Initial, front);
      forall i | 0 <= i < n
        ensures UnlockedAt(es, i) <==> UnlockedAt(front, i) && e != SetOpen(false)
      {
        assert es[..i] == front[..i];
        assert forall j :: i < j < n ==> es[j] == front[j];
      }
      if e == SubmitCode && g.input == Passcode {
        assert UnlockedAt(es, n);
      } else {
        assert !UnlockedAt(es, n);
      }
    }
  }

  /** A wrong code never opens the editor: submitting anything but the code
      from the passcode form leaves the form shown, with the field cleared. */
  lemma WrongCodeStaysLocked(g: Gate)
    requires ViewOf(g) == PasscodeForm && g.input != Passcode
    ensures ViewOf(Submit(g)) == PasscodeForm && Submit(g).input == ""
  {
  }

  /** Closing and reopening always asks for the code again. */
  lemma ReopenAsksAgain(g: Gate)
    ensures ViewOf(OpenChange(OpenChange(g, false), true)) == PasscodeForm
  {
  }
}
