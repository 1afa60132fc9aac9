/** The microphone-permission state: whether the permission is held, whether the
    explanation dialog is shown, and whether a request is in flight, with the
    operations that read the platform, launch a request, take its result and
    dismiss the dialog. */
module SpeechPermission {

  datatype State = State(permissionGranted: bool, showPermissionDialog: bool, shouldRequestPermission: bool)

  /** All three flags start down. */
  const Initial := State(false, false, false)

  lemma InitialFlagsDown()
    ensures !Initial.permissionGranted && !Initial.showPermissionDialog && !Initial.shouldRequestPermission
  {
  }

  /** Read the platform's grant and remember it; the answer is what was remembered. */
  function CheckPermission(s: State, platformGranted: bool): (r: (State, bool))
    ensures r.0.permissionGranted == r.1
    ensures r.1 == platformGranted
    ensures r.0.showPermissionDialog == s.showPermissionDialog
    ensures r.0.shouldRequestPermission == s.shouldRequestPermission
  {
    (s.(permissionGranted := platformGranted), platformGranted)
  }

  /** Launch a request unless one is in flight; the second component says whether
      the launcher was called. Afterwards a request is in flight either way. */
  function RequestPermission(s: State): (r: (State, bool))
    ensures r.1 <==> !s.shouldRequestPermission
    ensures r.0.shouldRequestPermission
    ensures r.0.permissionGranted == s.permissionGranted
    ensures r.0.showPermissionDialog == s.showPermissionDialog
    ensures s.shouldRequestPermission ==> r.0 == s
  {
    if !s.shouldRequestPermission then (s.(shouldRequestPermission := true), true)
    else (s, false)
  }

  /** The launcher's answer: the grant becomes the answer, a denial raises the
      dialog, a grant leaves the dialog as it was, and no request is in flight. */
  function OnPermissionResult(s: State, isGranted: bool): (r: State)
    ensures r.permissionGranted == isGranted
    ensures !r.shouldRequestPermission
    ensures !isGranted ==> r.showPermissionDialog
    ensures isGranted ==> r.showPermissionDialog == s.showPermissionDialog
  {
    State(isGranted, if !isGranted then true else s.showPermissionDialog, false)
  }

  /** Hide the dialog; nothing else changes. */
  function DismissDialog(s: State): (r: State)
    ensures !r.showPermissionDialog
    ensures r.permissionGranted == s.permissionGranted
    ensures r.shouldRequestPermission == s.shouldRequestPermission
  {
    s.(showPermissionDialog := false)
  }

  // ---------------------------------------------------------------------------
  // Runs

  datatype Input = Check(platformGranted: bool) | Request | Result(isGranted: bool) | Dismiss

  /** The state after one input, and whether the launcher was called. */
  function Apply(s: State, i: Input): (State, bool)
  {
    match i
    case Check(g) => (CheckPermission(s, g).0, false)
    case Request => RequestPermission(s)
    case Result(g) => (OnPermissionResult(s, g), false)
    case Dismiss => (DismissDialog(s), false)
  }

  /** The state after a sequence of inputs, and how many times the launcher was called. */
  function Run(s: State, inputs: seq<Input>): (State, nat)
    decreases |inputs|
  {
    if |inputs| == 0 then (s, 0)
    else
      var before := Run(s, inputs[..|inputs| - 1]);
      var last := Apply(before.0, inputs[|inputs| - 1]);
      (last.0, before.1 + if last.1 then 1 else 0)
  }

  /** Until a result arrives the launcher is called at most once, and not at all
      when a request was already in flight; a request is in flight afterwards
      exactly when one was before or the launcher was called. */
  lemma {:induction false} OneLaunchPerResult(s: State, inputs: seq<Input>)
    requires forall i :: 0 <= i < |inputs| ==> !inputs[i].Result?
    ensures Run(s, inputs).1 <= (if s.shouldRequestPermission then 0 else 1)
    ensures Run(s, inputs).0.shouldRequestPermission <==> s.shouldRequestPermission || Run(s, inputs).1 == 1
    decreases |inputs|
  {
    if |inputs| > 0 {
      var prefix := inputs[..|inputs| - 1];
      assert forall i :: 0 <= i < |prefix| ==> prefix[i] == inputs[i];
      OneLaunchPerResult(s, prefix);
    }
  }
}
