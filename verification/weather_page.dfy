/** The search screen's controller: the handlers behind the search field, the
    location button, the microphone button, the permission dialogs and the
    speech helper's callbacks, acting on the screen state.

    Requests the screen makes of the view-model, the navigator, the snackbar, the
    keyboard and the platform appear as effects in the order they are made. The
    speech helper and the microphone permission state are the models of their
    own modules; the helper's callbacks are fed straight back into the screen's
    handlers, as they are in the program. */
module WeatherPage {
  import opened Text
  import SR = SpeechRecognizer
  import SP = SpeechPermission
  import CL = CurrentLocation

  datatype Screen = Screen(
    city: string,
    isSpeechRecognitionActive: bool,
    isLoadingLocation: bool,
    locationError: Option<string>,
    permission: SP.State,
    speech: SR.Session)

  datatype Effect =
    | GetData(query: string)          // a weather request to the view-model
    | SearchComplete                  // the screen's completion callback (navigates back)
    | HideKeyboard
    | ShowSnackbar(message: string)
    | LaunchMicPermission             // the microphone permission request is launched
    | LaunchLocationPermission        // the fine and coarse location request is launched
    | Recognizer(call: SR.Effect)     // a call the speech helper makes into the platform
    | LocationRequest                 // a request to the platform's location service

  datatype Step = Step(screen: Screen, effects: seq<Effect>)

  /** What the platform's location service answers when the lookup runs. */
  datatype LocationEnv = LocationEnv(fineGranted: bool, coarseGranted: bool, outcome: CL.Outcome)

  datatype LocationPermission = Fine | Coarse

  const EmptyQueryMessage := "Please enter a location"
  const LocationDeniedMessage := "Location permission denied"

  // ---------------------------------------------------------------------------
  // The speech helper's callbacks

  /** One thing the speech helper did, as the screen sees it. A final result
      becomes the query, is fetched, ends the voice search and completes the
      screen; a partial result only overwrites the query; any error turns the
      microphone permission off, ends the voice search and is shown. */
  function OnSpeechEffect(sc: Screen, e: SR.Effect): (r: Step)
    ensures e.OnResult? ==>
      r.screen == sc.(city := e.text, isSpeechRecognitionActive := false) &&
      r.effects == [GetData(e.text), SearchComplete]
    ensures e.OnPartialResult? ==> r.screen == sc.(city := e.text) && r.effects == []
    ensures e.OnError? ==>
      && !r.screen.permission.permissionGranted
      && !r.screen.isSpeechRecognitionActive
      && r.screen.city == sc.city
      && r.screen == sc.(permission := sc.permission.(permissionGranted := false), isSpeechRecognitionActive := false)
      && r.effects == [ShowSnackbar(e.message)]
    ensures !SR.IsCallback(e) ==> r == Step(sc, [Recognizer(e)])
    ensures r.effects == Shown(e)
  {
    match e
    case OnResult(result) =>
      Step(sc.(city := result, isSpeechRecognitionActive := false), [GetData(result), SearchComplete])
    case OnPartialResult(partial) => Step(sc.(city := partial), [])
    case OnError(error) =>
      Step(sc.(permission := sc.permission.(permissionGranted := false), isSpeechRecognitionActive := false),
           [ShowSnackbar(error)])
    case _ => Step(sc, [Recognizer(e)])
  }

  /** How one thing the helper did appears among the screen's effects; it does
      not depend on the screen. */
  function Shown(e: SR.Effect): seq<Effect>
  {
    match e
    case OnResult(text) => [GetData(text), SearchComplete]
    case OnPartialResult(_) => []
    case OnError(message) => [ShowSnackbar(message)]
    case _ => [Recognizer(e)]
  }

  function ShownAll(effects: seq<SR.Effect>): seq<Effect>
    decreases |effects|
  {
    if |effects| == 0 then [] else Shown(effects[0]) + ShownAll(effects[1..])
  }

  /** Every platform call the helper makes reaches the platform, and every error
      it reports becomes a snackbar with the same text; nothing else does. */
  lemma {:induction false} ShownAllMembers(effects: seq<SR.Effect>)
    ensures forall c :: Recognizer(c) in ShownAll(effects) <==> c in effects && !SR.IsCallback(c)
    ensures forall m :: ShowSnackbar(m) in ShownAll(effects) <==> SR.OnError(m) in effects
    decreases |effects|
  {
    if |effects| > 0 {
      ShownAllMembers(effects[1..]);
      assert effects == [effects[0]] + effects[1..];
    }
  }

  predicate HasError(effects: seq<SR.Effect>)
  {
    exists i :: 0 <= i < |effects| && effects[i].OnError?
  }

  predicate HasResult(effects: seq<SR.Effect>)
  {
    exists i :: 0 <= i < |effects| && effects[i].OnResult?
  }

  /** Whether any callback writes the query. */
  predicate HasText(effects: seq<SR.Effect>)
  {
    exists i :: 0 <= i < |effects| && (effects[i].OnResult? || effects[i].OnPartialResult?)
  }

  lemma SplitFirst(effects: seq<SR.Effect>)
    requires |effects| > 0
    ensures HasError(effects) <==> effects[0].OnError? || HasError(effects[1..])
    ensures HasResult(effects) <==> effects[0].OnResult? || HasResult(effects[1..])
    ensures HasText(effects) <==>
      effects[0].OnResult? || effects[0].OnPartialResult? || HasText(effects[1..])
  {
    var tail := effects[1..];
    assert forall i :: 0 <= i < |tail| ==> tail[i] == effects[i + 1];
    if HasError(effects) && !effects[0].OnError? {
      var i :| 0 <= i < |effects| && effects[i].OnError?;
      assert tail[i - 1].OnError?;
    }
    if HasResult(effects) && !effects[0].OnResult? {
      var i :| 0 <= i < |effects| && effects[i].OnResult?;
      assert tail[i - 1].OnResult?;
    }
    if HasText(effects) && !(effects[0].OnResult? || effects[0].OnPartialResult?) {
      var i :| 0 <= i < |effects| && (effects[i].OnResult? || effects[i].OnPartialResult?);
      assert tail[i - 1].OnResult? || tail[i - 1].OnPartialResult?;
    }
  }

  /** Feed everything the helper did, in order, through the screen. Only the
      callbacks touch the screen: an error anywhere leaves the microphone
      permission off, an error or a final result leaves the voice search ended
      (nothing here starts one), only results write the query, and the location
      state, the dialog, the pending request and the helper stay as they were. */
  function Route(sc: Screen, effects: seq<SR.Effect>): (r: Step)
    ensures r.screen.isLoadingLocation == sc.isLoadingLocation
    ensures r.screen.locationError == sc.locationError
    ensures r.screen.speech == sc.speech
    ensures r.screen.permission.showPermissionDialog == sc.permission.showPermissionDialog
    ensures r.screen.permission.shouldRequestPermission == sc.permission.shouldRequestPermission
    ensures r.screen.permission.permissionGranted <==>
      sc.permission.permissionGranted && !HasError(effects)
    ensures r.screen.isSpeechRecognitionActive <==>
      sc.isSpeechRecognitionActive && !HasError(effects) && !HasResult(effects)
    ensures !HasText(effects) ==> r.screen.city == sc.city
    ensures r.effects == ShownAll(effects)
    decreases |effects|
  {
    if |effects| == 0 then Step(sc, [])
    else
      var first := OnSpeechEffect(sc, effects[0]);
      var rest := Route(first.screen, effects[1..]);
      SplitFirst(effects);
      Step(rest.screen, first.effects + rest.effects)
  }

  lemma RouteSingle(sc: Screen, e: SR.Effect)
    ensures Route(sc, [e]) == OnSpeechEffect(sc, e)
  {
    assert [e][1..] == [];
  }

  /** The helper takes its new state, then its callbacks run on the screen. */
  function WithSpeech(sc: Screen, step: SR.Step): Step
  {
    Route(sc.(speech := step.session), step.effects)
  }

  // ---------------------------------------------------------------------------
  // Construction

  /** The screen as first composed: an empty query, nothing active, the permission
      flags down and the speech helper constructed (its construction error, if
      any, already handled); then the microphone permission is read. */
  function Open(init: SR.InitOutcome, micGranted: bool): (r: Step)
    ensures r.screen.city == ""
    ensures !r.screen.isSpeechRecognitionActive && !r.screen.isLoadingLocation
    ensures r.screen.locationError.None?
    ensures r.screen.permission == SP.State(micGranted, false, false)
    ensures r.screen.speech == SR.Init(init).session
    ensures init.Available? ==> r.effects == []
    ensures init.Unavailable? ==>
      r.effects == [ShowSnackbar("Speech recognition not available on this device")]
    ensures init.InitThrows? ==>
      r.effects == [ShowSnackbar("Failed to initialize speech recognizer: " + Render(init.message))]
  {
    var blank := Screen("", false, false, None, SP.Initial, SR.Session(SR.Absent, false));
    var composed := WithSpeech(blank, SR.Init(init));
    OpenReportsInitError(blank, init);
    var checked := SP.CheckPermission(composed.screen.permission, micGranted).0;
    Step(composed.screen.(permission := checked), composed.effects)
  }

  lemma OpenReportsInitError(blank: Screen, init: SR.InitOutcome)
    ensures !init.Available? ==>
      WithSpeech(blank, SR.Init(init)).effects == [ShowSnackbar(SR.Init(init).effects[0].message)]
  {
    if !init.Available? {
      RouteSingle(blank.(speech := SR.Init(init).session), SR.Init(init).effects[0]);
    }
  }

  // ---------------------------------------------------------------------------
  // Handlers

  /** Search: a blank query is refused with a message and nothing else; any other
      query is fetched, the keyboard hidden and the screen completed. */
  function OnSearch(sc: Screen): (r: Step)
    ensures r.screen == sc
    ensures IsBlank(sc.city) ==> r.effects == [ShowSnackbar(EmptyQueryMessage)]
    ensures !IsBlank(sc.city) ==> r.effects == [GetData(sc.city), HideKeyboard, SearchComplete]
  {
    if !IsBlank(sc.city) then Step(sc, [GetData(sc.city), HideKeyboard, SearchComplete])
    else Step(sc, [ShowSnackbar(EmptyQueryMessage)])
  }

  /** The lookup run once permission is held: the loading indicator goes off
      whatever happens; a fix becomes the query, is fetched and completes the
      screen; an error is recorded and nothing is fetched. */
  function LocationAfterPermission(sc: Screen, env: LocationEnv): (r: Step)
    ensures !r.screen.isLoadingLocation
    ensures r.screen.isSpeechRecognitionActive == sc.isSpeechRecognitionActive
    ensures r.screen.permission == sc.permission && r.screen.speech == sc.speech
    ensures var lookup := CL.GetCurrentLocation(env.fineGranted, env.coarseGranted, env.outcome);
      && (LocationRequest in r.effects <==> lookup.requested)
      && (lookup.callback.OnLocationReady? ==>
            && r.screen.city == lookup.callback.latLon
            && r.screen.locationError == sc.locationError
            && |r.effects| >= 2
            && r.effects[|r.effects| - 2..] == [GetData(lookup.callback.latLon), SearchComplete])
      && (lookup.callback.OnError? ==>
            && r.screen.city == sc.city
            && r.screen.locationError == Some(lookup.callback.message)
            && forall i :: 0 <= i < |r.effects| ==> !r.effects[i].GetData?)
    ensures var lookup := CL.GetCurrentLocation(env.fineGranted, env.coarseGranted, env.outcome);
      r.effects == (if lookup.requested then [LocationRequest] else []) +
                   (if lookup.callback.OnLocationReady? then [GetData(lookup.callback.latLon), SearchComplete] else [])
  {
    var lookup := CL.GetCurrentLocation(env.fineGranted, env.coarseGranted, env.outcome);
    var asked := if lookup.requested then [LocationRequest] else [];
    match lookup.callback
    case OnLocationReady(latLon) =>
      Step(sc.(isLoadingLocation := false, city := latLon), asked + [GetData(latLon), SearchComplete])
    case OnError(message) =>
      Step(sc.(isLoadingLocation := false, locationError := Some(message)), asked)
  }

  /** The location button: the indicator goes on and the old error is cleared; with
      permission the lookup runs, without it the permission request is launched
      and the indicator stays on until its answer. */
  function OnGetLocation(sc: Screen, hasPermission: bool, env: LocationEnv): (r: Step)
    ensures !hasPermission ==>
      r == Step(sc.(isLoadingLocation := true, locationError := None), [LaunchLocationPermission])
    ensures hasPermission ==> !r.screen.isLoadingLocation && LaunchLocationPermission !in r.effects
    ensures hasPermission ==> r == LocationAfterPermission(sc.(isLoadingLocation := true, locationError := None), env)
  {
    var started := sc.(isLoadingLocation := true, locationError := None);
    if hasPermission then LocationAfterPermission(started, env)
    else Step(started, [LaunchLocationPermission])
  }

  predicate Granted(grants: map<LocationPermission, bool>, p: LocationPermission)
  {
    p in grants && grants[p]
  }

  /** The answer to the location permission request: fine or coarse is enough to
      run the lookup; otherwise the indicator goes off and the denial is recorded. */
  function OnLocationPermissionResult(sc: Screen, grants: map<LocationPermission, bool>, env: LocationEnv): (r: Step)
    ensures Granted(grants, Fine) || Granted(grants, Coarse) ==> r == LocationAfterPermission(sc, env)
    ensures !(Granted(grants, Fine) || Granted(grants, Coarse)) ==>
      r == Step(sc.(isLoadingLocation := false, locationError := Some(LocationDeniedMessage)), [])
  {
    if Granted(grants, Fine) || Granted(grants, Coarse) then LocationAfterPermission(sc, env)
    else Step(sc.(isLoadingLocation := false, locationError := Some(LocationDeniedMessage)), [])
  }

  /** The microphone button. Without permission it only asks for it. With
      permission it toggles: an active voice search is stopped and ended; an
      inactive one is begun with an empty query and the helper is started. Each
      platform call the start makes reaches the platform, and a start failure ends
      the voice search again, turns the permission off and is shown, through the
      error callback. The location state is never touched. */
  function OnMicClick(sc: Screen, availability: SR.Availability, call: SR.CallOutcome, stopRaises: bool): (r: Step)
    ensures !sc.permission.permissionGranted ==>
      && r.screen == sc.(permission := SP.RequestPermission(sc.permission).0)
      && r.effects == (if SP.RequestPermission(sc.permission).1 then [LaunchMicPermission] else [])
    ensures sc.permission.permissionGranted && sc.isSpeechRecognitionActive ==>
      && r.screen == sc.(isSpeechRecognitionActive := false,
                         speech := SR.StopListening(sc.speech, stopRaises).session)
      && r.effects == (if sc.speech.isListening && !sc.speech.recognizer.Absent?
                       then [Recognizer(SR.StopCall)] else [])
    ensures sc.permission.permissionGranted && !sc.isSpeechRecognitionActive ==>
      var start := SR.StartListening(sc.speech, availability, call);
      var failed := HasError(start.effects);
      && r.screen == sc.(city := "", isSpeechRecognitionActive := !failed,
                         permission := sc.permission.(permissionGranted := !failed))
      && r.effects == ShownAll(start.effects)
      && (Recognizer(SR.StartCall) in r.effects <==> SR.StartCall in start.effects)
      && (forall m :: ShowSnackbar(m) in r.effects <==> SR.OnError(m) in start.effects)
  {
    if sc.permission.permissionGranted then
      if sc.isSpeechRecognitionActive then
        var stopped := WithSpeech(sc, SR.StopListening(sc.speech, stopRaises));
        StopRoutesCall(sc, stopRaises);
        StopWritesNothing(SR.StopListening(sc.speech, stopRaises).effects);
        Step(stopped.screen.(isSpeechRecognitionActive := false), stopped.effects)
      else
        var start := SR.StartListening(sc.speech, availability, call);
        StartWritesNoText(sc.speech, availability, call);
        ShownAllMembers(start.effects);
        WithSpeech(sc.(isSpeechRecognitionActive := true, city := ""), start)
    else
      var (permission, launched) := SP.RequestPermission(sc.permission);
      Step(sc.(permission := permission), if launched then [LaunchMicPermission] else [])
  }

  lemma StopWritesNothing(effects: seq<SR.Effect>)
    requires SR.NoCallbacks(effects)
    ensures !HasError(effects) && !HasResult(effects) && !HasText(effects)
  {
  }

  lemma StopRoutesCall(sc: Screen, raises: bool)
    ensures WithSpeech(sc, SR.StopListening(sc.speech, raises)).effects ==
      (if sc.speech.isListening && !sc.speech.recognizer.Absent? then [Recognizer(SR.StopCall)] else [])
  {
    var stop := SR.StopListening(sc.speech, raises);
    if sc.speech.isListening && !sc.speech.recognizer.Absent? {
      RouteSingle(sc.(speech := stop.session), SR.StopCall);
    }
  }

  lemma StartWritesNoText(s: SR.Session, availability: SR.Availability, call: SR.CallOutcome)
    ensures !HasText(SR.StartListening(s, availability, call).effects)
  {
    var effects := SR.StartListening(s, availability, call).effects;
    if HasText(effects) {
      var i :| 0 <= i < |effects| && (effects[i].OnResult? || effects[i].OnPartialResult?);
      assert false;
    }
  }

  /** The dialog's grant button hides the dialog and asks again; its cancel button
      and a dismissal only hide it. */
  function OnDialogGrant(sc: Screen): (r: Step)
    ensures r.screen == sc.(permission := r.screen.permission)
    ensures r.screen.permission.permissionGranted == sc.permission.permissionGranted
    ensures !r.screen.permission.showPermissionDialog && r.screen.permission.shouldRequestPermission
    ensures r.effects == (if sc.permission.shouldRequestPermission then [] else [LaunchMicPermission])
  {
    var (permission, launched) := SP.RequestPermission(SP.DismissDialog(sc.permission));
    Step(sc.(permission := permission), if launched then [LaunchMicPermission] else [])
  }

  /** Once a recorded location error has been shown it is cleared. */
  function OnLocationErrorShown(sc: Screen): (r: Step)
    ensures r.screen == sc.(locationError := None)
    ensures sc.locationError.Some? ==> r.effects == [ShowSnackbar(sc.locationError.value)]
    ensures sc.locationError.None? ==> r == Step(sc, [])
  {
    match sc.locationError
    case Some(message) => Step(sc.(locationError := None), [ShowSnackbar(message)])
    case None => Step(sc, [])
  }

  // ---------------------------------------------------------------------------
  // Runs

  datatype Event =
    | CityChanged(text: string)
    | Search
    | GetLocation(hasPermission: bool, env: LocationEnv)
    | LocationPermissionResult(grants: map<LocationPermission, bool>, env: LocationEnv)
    | MicClick(availability: SR.Availability, call: SR.CallOutcome, stopRaises: bool)
    | MicPermissionResult(isGranted: bool)
    | DialogGrant
    | DialogDismiss
    | Recognition(event: SR.Event)
    | LocationErrorShown
    | Disposed(cancelRaises: bool)

  /** One screen event. The handlers above do the work; the rest is wiring done
      inline: an edit of the field replaces the query, the microphone launcher's
      answer and the dialog's dismissal reach the permission state, the
      recognizer's events go through the helper, and leaving the screen tears
      the helper down. */
  function Apply(sc: Screen, e: Event): (r: Step)
    ensures e.CityChanged? ==> r == Step(sc.(city := e.text), [])
    ensures e.MicPermissionResult? ==>
      && r.screen == sc.(permission := r.screen.permission)
      && r.screen.permission.permissionGranted == e.isGranted
      && !r.screen.permission.shouldRequestPermission
      && (r.screen.permission.showPermissionDialog <==> !e.isGranted || sc.permission.showPermissionDialog)
      && r.effects == []
    ensures e.DialogDismiss? ==>
      r == Step(sc.(permission := sc.permission.(showPermissionDialog := false)), [])
    ensures e.Disposed? ==>
      && r.screen == sc.(speech := SR.Destroy(sc.speech, e.cancelRaises).session)
      && r.effects == (if sc.speech.recognizer.Absent? then []
                       else [Recognizer(SR.CancelCall), Recognizer(SR.DestroyCall)])
    ensures e.Recognition? ==>
      && r.screen.speech == SR.OnEvent(sc.speech, e.event).session
      && r.screen.locationError == sc.locationError
      && r.screen.isLoadingLocation == sc.isLoadingLocation
      && r.effects == ShownAll(SR.OnEvent(sc.speech, e.event).effects)
      && r == Route(sc.(speech := SR.OnEvent(sc.speech, e.event).session), SR.OnEvent(sc.speech, e.event).effects)
  {
    match e
    case CityChanged(text) => Step(sc.(city := text), [])
    case Search => OnSearch(sc)
    case GetLocation(hasPermission, env) => OnGetLocation(sc, hasPermission, env)
    case LocationPermissionResult(grants, env) => OnLocationPermissionResult(sc, grants, env)
    case MicClick(availability, call, stopRaises) => OnMicClick(sc, availability, call, stopRaises)
    case MicPermissionResult(isGranted) =>
      Step(sc.(permission := SP.OnPermissionResult(sc.permission, isGranted)), [])
    case DialogGrant => OnDialogGrant(sc)
    case DialogDismiss => Step(sc.(permission := SP.DismissDialog(sc.permission)), [])
    case Recognition(event) => WithSpeech(sc, SR.OnEvent(sc.speech, event))
    case LocationErrorShown => OnLocationErrorShown(sc)
    case Disposed(cancelRaises) =>
      var teardown := SR.Destroy(sc.speech, cancelRaises);
      assert ShownAll([SR.DestroyCall]) == [Recognizer(SR.DestroyCall)];
      assert ShownAll([SR.CancelCall, SR.DestroyCall]) == [Recognizer(SR.CancelCall), Recognizer(SR.DestroyCall)] by {
        assert [SR.CancelCall, SR.DestroyCall][1..] == [SR.DestroyCall];
      }
      WithSpeech(sc, teardown)
  }

  function Run(sc: Screen, events: seq<Event>): Step
    decreases |events|
  {
    if |events| == 0 then Step(sc, [])
    else
      var before := Run(sc, events[..|events| - 1]);
      var last := Apply(before.screen, events[|events| - 1]);
      Step(last.screen, before.effects + last.effects)
  }

  /** At position `i`: a weather request is followed by the completion (with at
      most the keyboard hidden in between), and a completion is preceded by a
      request in the same way. */
  predicate PairedAt(effects: seq<Effect>, i: nat)
    requires i < |effects|
  {
    && (effects[i].GetData? ==>
          || (i + 1 < |effects| && effects[i + 1] == SearchComplete)
          || (i + 2 < |effects| && effects[i + 1] == HideKeyboard && effects[i + 2] == SearchComplete))
    && (effects[i] == SearchComplete ==>
          || (1 <= i && effects[i - 1].GetData?)
          || (2 <= i && effects[i - 1] == HideKeyboard && effects[i - 2].GetData?))
  }

  /** The screen completes right after it has asked for weather, and only then. */
  predicate FetchThenComplete(effects: seq<Effect>)
  {
    forall i: nat :: i < |effects| ==> PairedAt(effects, i)
  }

  lemma FetchThenCompleteJoin(a: seq<Effect>, b: seq<Effect>)
    requires FetchThenComplete(a) && FetchThenComplete(b)
    ensures FetchThenComplete(a + b)
  {
    var ab := a + b;
    forall i: nat | i < |ab|
      ensures PairedAt(ab, i)
    {
      if i < |a| {
        assert PairedAt(a, i);
        assert forall j :: 0 <= j < |a| ==> ab[j] == a[j];
      } else {
        var k: nat := i - |a|;
        assert PairedAt(b, k);
        assert forall j :: 0 <= j < |b| ==> ab[|a| + j] == b[j];
      }
    }
  }

  /** Effects with neither a request nor a completion in them. */
  lemma QuietPaired(effects: seq<Effect>)
    requires forall i :: 0 <= i < |effects| ==> !effects[i].GetData? && effects[i] != SearchComplete
    ensures FetchThenComplete(effects)
  {
  }

  lemma {:induction false} RouteFetchThenComplete(sc: Screen, effects: seq<SR.Effect>)
    ensures FetchThenComplete(Route(sc, effects).effects)
    decreases |effects|
  {
    if |effects| > 0 {
      var first := OnSpeechEffect(sc, effects[0]);
      RouteFetchThenComplete(first.screen, effects[1..]);
      if effects[0].OnResult? {
        assert PairedAt(first.effects, 0) && PairedAt(first.effects, 1);
      } else {
        QuietPaired(first.effects);
      }
      FetchThenCompleteJoin(first.effects, Route(first.screen, effects[1..]).effects);
    }
  }

  lemma LocationFetchThenComplete(sc: Screen, env: LocationEnv)
    ensures FetchThenComplete(LocationAfterPermission(sc, env).effects)
  {
    var lookup := CL.GetCurrentLocation(env.fineGranted, env.coarseGranted, env.outcome);
    var asked := if lookup.requested then [LocationRequest] else [];
    QuietPaired(asked);
    if lookup.callback.OnLocationReady? {
      var tail := [GetData(lookup.callback.latLon), SearchComplete];
      assert PairedAt(tail, 0) && PairedAt(tail, 1);
      FetchThenCompleteJoin(asked, tail);
    }
  }

  lemma SearchFetchThenComplete(sc: Screen)
    ensures FetchThenComplete(OnSearch(sc).effects)
  {
    var effects := OnSearch(sc).effects;
    if !IsBlank(sc.city) {
      assert PairedAt(effects, 0) && PairedAt(effects, 1) && PairedAt(effects, 2);
    } else {
      QuietPaired(effects);
    }
  }

  lemma MicFetchThenComplete(sc: Screen, availability: SR.Availability, call: SR.CallOutcome, stopRaises: bool)
    ensures FetchThenComplete(OnMicClick(sc, availability, call, stopRaises).effects)
  {
    if !sc.permission.permissionGranted {
      QuietPaired(OnMicClick(sc, availability, call, stopRaises).effects);
    } else if sc.isSpeechRecognitionActive {
      var stop := SR.StopListening(sc.speech, stopRaises);
      RouteFetchThenComplete(sc.(speech := stop.session), stop.effects);
    } else {
      var start := SR.StartListening(sc.speech, availability, call);
      RouteFetchThenComplete(sc.(isSpeechRecognitionActive := true, city := "", speech := start.session),
                             start.effects);
    }
  }

  lemma WithSpeechFetchThenComplete(sc: Screen, step: SR.Step)
    ensures FetchThenComplete(WithSpeech(sc, step).effects)
  {
    RouteFetchThenComplete(sc.(speech := step.session), step.effects);
  }

  lemma ApplyFetchThenComplete(sc: Screen, e: Event)
    ensures FetchThenComplete(Apply(sc, e).effects)
  {
    match e
    case Search => SearchFetchThenComplete(sc);
    case GetLocation(hasPermission, env) =>
      LocationFetchThenComplete(sc.(isLoadingLocation := true, locationError := None), env);
    case LocationPermissionResult(grants, env) => LocationFetchThenComplete(sc, env);
    case MicClick(availability, call, stopRaises) => MicFetchThenComplete(sc, availability, call, stopRaises);
    case Recognition(event) => WithSpeechFetchThenComplete(sc, SR.OnEvent(sc.speech, event));
    case Disposed(cancelRaises) => WithSpeechFetchThenComplete(sc, SR.Destroy(sc.speech, cancelRaises));
    case DialogGrant => QuietPaired(OnDialogGrant(sc).effects);
    case LocationErrorShown => QuietPaired(OnLocationErrorShown(sc).effects);
    case CityChanged(_) =>
    case MicPermissionResult(_) =>
    case DialogDismiss =>
  }

  /** Over any sequence of events, weather requests and completions come in pairs. */
  lemma {:induction false} RunFetchThenComplete(sc: Screen, events: seq<Event>)
    ensures FetchThenComplete(Run(sc, events).effects)
    decreases |events|
  {
    if |events| > 0 {
      var before := Run(sc, events[..|events| - 1]);
      RunFetchThenComplete(sc, events[..|events| - 1]);
      ApplyFetchThenComplete(before.screen, events[|events| - 1]);
      FetchThenCompleteJoin(before.effects, Apply(before.screen, events[|events| - 1]).effects);
    }
  }

  // ---------------------------------------------------------------------------
  // Scenarios

  /** A speech error of any kind turns the microphone permission off, so the next
      click on the microphone asks for the permission again instead of listening. */
  lemma SpeechErrorRevokesMicrophone(sc: Screen, code: int, availability: SR.Availability, call: SR.CallOutcome,
                                     stopRaises: bool)
    requires !sc.permission.shouldRequestPermission
    ensures var after := Apply(sc, Recognition(SR.RecognitionError(code)));
      && !after.screen.permission.permissionGranted
      && !after.screen.isSpeechRecognitionActive
      && after.effects == [ShowSnackbar(SR.ErrorMessage(code))]
      && Apply(after.screen, MicClick(availability, call, stopRaises)).effects == [LaunchMicPermission]
  {
    var step := SR.OnEvent(sc.speech, SR.RecognitionError(code));
    RouteSingle(sc.(speech := step.session), step.effects[0]);
  }

  /** Stopping before the recognizer is ready does not reach it: the listening flag
      is still down, so the stop is ignored, and a result that arrives later is
      still fetched and completes the screen although the voice search was ended. */
  lemma StopBeforeReadyStillSearches(sc: Screen, query: string)
    requires sc.permission.permissionGranted && !sc.isSpeechRecognitionActive
    requires sc.speech == SR.Session(SR.Live, false)
    ensures var clicked := Apply(sc, MicClick(SR.Answers(true), SR.Returns, false));
      && clicked.effects == [Recognizer(SR.StartCall)]
      && clicked.screen.isSpeechRecognitionActive
      && var stopped := Apply(clicked.screen, MicClick(SR.Answers(true), SR.Returns, false));
      && stopped.effects == []
      && !stopped.screen.isSpeechRecognitionActive
      && var ready := Apply(stopped.screen, Recognition(SR.ReadyForSpeech));
      && var heard := Apply(ready.screen, Recognition(SR.Results(SR.List([query]))));
      && heard.effects == [GetData(query), SearchComplete]
      && heard.screen.city == query
  {
    var begun := sc.(isSpeechRecognitionActive := true, city := "");
    RouteSingle(begun, SR.StartCall);
    var clicked := Apply(sc, MicClick(SR.Answers(true), SR.Returns, false));
    assert clicked.screen == begun;
    var stopped := Apply(clicked.screen, MicClick(SR.Answers(true), SR.Returns, false));
    var ready := Apply(stopped.screen, Recognition(SR.ReadyForSpeech));
    assert ready.screen.speech.isListening;
    var heard := SR.OnEvent(ready.screen.speech, SR.Results(SR.List([query])));
    RouteSingle(ready.screen.(speech := heard.session), SR.OnResult(query));
  }

  /** The emptiness check belongs to the typed search only: a blank query typed
      and searched is refused, while the same text recognised as speech is
      fetched and completes the screen. */
  lemma BlankVoiceResultIsFetched(sc: Screen)
    ensures Apply(sc.(city := " "), Search).effects == [ShowSnackbar(EmptyQueryMessage)]
    ensures Apply(sc, Recognition(SR.Results(SR.List([" "])))).effects == [GetData(" "), SearchComplete]
  {
    assert IsWhitespace(" "[0]);
    assert IsBlank(" ");
    var heard := SR.OnEvent(sc.speech, SR.Results(SR.List([" "])));
    RouteSingle(sc.(speech := heard.session), SR.OnResult(" "));
  }

  /** A refused location request ends the indicator and records the denial, which
      is shown once and then cleared. */
  lemma DeniedLocationIsReportedOnce(sc: Screen, env: LocationEnv)
    ensures var asked := Apply(sc, GetLocation(false, env));
      && asked.screen.isLoadingLocation && asked.effects == [LaunchLocationPermission]
      && var denied := Apply(asked.screen, LocationPermissionResult(map[Fine := false], env));
      && !denied.screen.isLoadingLocation && denied.effects == []
      && var shown := Apply(denied.screen, LocationErrorShown);
      && shown.effects == [ShowSnackbar(LocationDeniedMessage)]
      && Apply(shown.screen, LocationErrorShown).effects == []
  {
  }
}
