/** The voice-input session: a wrapper around the platform speech recognizer that
    keeps an "is listening" flag, forwards recognizer events to three callbacks
    (final result, partial result, error) and turns every platform failure into an
    error callback.

    The platform is reduced to inputs: whether recognition is available, whether a
    call into the recognizer raises, and the events the recognizer delivers. What
    the helper does is an output trace of platform calls and callbacks. */
module SpeechRecognizer {
  import opened Text

  // Error codes of the platform's android.speech.SpeechRecognizer.
  const ERROR_NETWORK_TIMEOUT := 1
  const ERROR_NETWORK := 2
  const ERROR_AUDIO := 3
  const ERROR_SERVER := 4
  const ERROR_CLIENT := 5
  const ERROR_SPEECH_TIMEOUT := 6
  const ERROR_NO_MATCH := 7
  const ERROR_RECOGNIZER_BUSY := 8
  const ERROR_INSUFFICIENT_PERMISSIONS := 9

  /** The recognizer handle: never created, created, or created and then released
      by destroy (the helper keeps its reference after releasing it). */
  datatype Recognizer = Absent | Live | Released

  datatype Session = Session(recognizer: Recognizer, isListening: bool)

  datatype Exception =
    | SecurityException(message: Option<string>)
    | OtherException(message: Option<string>)

  /** What a call into the recognizer does: return, or raise. */
  datatype CallOutcome = Returns | Throws(exception: Exception)

  /** What the availability check made when starting says: an answer, or an
      exception raised by the check itself. */
  datatype Availability = Answers(available: bool) | CheckThrows(exception: Exception)

  /** How construction goes: recognition available, reported unavailable, or the
      availability check or the creation of the recognizer raised. */
  datatype InitOutcome = Available | Unavailable | InitThrows(message: Option<string>)

  /** The recognition list in a results bundle: missing (no bundle or no entry),
      present, or failing to be read. */
  datatype Hypotheses = NoList | List(matches: seq<string>) | Unreadable

  /** The events of the platform's recognition listener. */
  datatype Event =
    | ReadyForSpeech
    | BeginningOfSpeech
    | RmsChanged
    | BufferReceived
    | EndOfSpeech
    | RecognitionError(code: int)
    | Results(results: Hypotheses)
    | PartialResults(partial: Hypotheses)
    | OtherEvent

  /** Platform calls the helper makes, and callbacks it fires. */
  datatype Effect =
    | StartCall
    | StopCall
    | CancelCall
    | DestroyCall
    | OnResult(text: string)
    | OnPartialResult(text: string)
    | OnError(message: string)

  predicate IsCallback(e: Effect)
  {
    e.OnResult? || e.OnPartialResult? || e.OnError?
  }

  predicate NoCallbacks(effects: seq<Effect>)
  {
    forall i :: 0 <= i < |effects| ==> !IsCallback(effects[i])
  }

  datatype Step = Step(session: Session, effects: seq<Effect>)

  // ---------------------------------------------------------------------------
  // Messages

  predicate KnownErrorCode(code: int)
  {
    || code == ERROR_AUDIO || code == ERROR_CLIENT || code == ERROR_INSUFFICIENT_PERMISSIONS
    || code == ERROR_NETWORK || code == ERROR_NETWORK_TIMEOUT || code == ERROR_NO_MATCH
    || code == ERROR_RECOGNIZER_BUSY || code == ERROR_SERVER || code == ERROR_SPEECH_TIMEOUT
  }

  const UnknownErrorPrefix := "Lỗi không xác định: "

  /** The message an error event is reported with. Known codes have fixed messages;
      any other code is reported with the prefix above followed by the code, which
      can be read back from the message. */
  function ErrorMessage(code: int): (m: string)
    ensures KnownErrorCode(code) <==> !StartsWith(m, UnknownErrorPrefix)
    ensures !KnownErrorCode(code) ==> m == UnknownErrorPrefix + IntToString(code)
    ensures !KnownErrorCode(code) ==>
      StripPrefix(m, UnknownErrorPrefix).Some? &&
      ParseInt(StripPrefix(m, UnknownErrorPrefix).value) == Some(code)
  {
    if code == ERROR_AUDIO then "Lỗi ghi âm"
    else if code == ERROR_CLIENT then "Lỗi client"
    else if code == ERROR_INSUFFICIENT_PERMISSIONS then "Không đủ quyền"
    else if code == ERROR_NETWORK then "Lỗi mạng"
    else if code == ERROR_NETWORK_TIMEOUT then "Timeout mạng"
    else if code == ERROR_NO_MATCH then
      var m := "Không nhận diện được giọng nói";
      assert m[..|UnknownErrorPrefix|][1] != UnknownErrorPrefix[1];
      m
    else if code == ERROR_RECOGNIZER_BUSY then
      var m := "Trình nhận diện đang bận";
      assert m[..|UnknownErrorPrefix|][0] != UnknownErrorPrefix[0];
      m
    else if code == ERROR_SERVER then "Lỗi server"
    else if code == ERROR_SPEECH_TIMEOUT then "Không có giọng nói"
    else
      StripPrefixJoin(UnknownErrorPrefix, IntToString(code));
      UnknownErrorPrefix + IntToString(code)
  }

  /** Distinct error codes are reported with distinct messages. */
  lemma ErrorMessageInjective(a: int, b: int)
    requires ErrorMessage(a) == ErrorMessage(b)
    ensures a == b
  {
    if !KnownErrorCode(a) && !KnownErrorCode(b) {
      var m := ErrorMessage(a);
      assert Some(a) == ParseInt(StripPrefix(m, UnknownErrorPrefix).value) == Some(b);
    }
  }

  const NoSpeechMessage := "Không nhận diện được giọng nói"

  /** A results event without hypotheses is reported exactly like a no-match error,
      so the error callback cannot tell the two apart. */
  lemma NoMatchReadsLikeEmptyResults()
    ensures ErrorMessage(ERROR_NO_MATCH) == NoSpeechMessage
  {
  }

  // ---------------------------------------------------------------------------
  // Construction

  /** Construction: a recognizer is held exactly when recognition is available;
      otherwise one error callback says why. Nothing is listening yet. */
  function Init(outcome: InitOutcome): (r: Step)
    ensures !r.session.isListening
    ensures r.session.recognizer.Live? <==> outcome.Available?
    ensures r.session.recognizer.Released? == false
    ensures outcome.Available? ==> r.effects == []
    ensures outcome.Unavailable? ==>
      r.effects == [OnError("Speech recognition not available on this device")]
    ensures outcome.InitThrows? ==>
      r.effects == [OnError("Failed to initialize speech recognizer: " + Render(outcome.message))]
  {
    match outcome
    case Available => Step(Session(Live, false), [])
    case Unavailable =>
      Step(Session(Absent, false), [OnError("Speech recognition not available on this device")])
    case InitThrows(message) =>
      Step(Session(Absent, false), [OnError("Failed to initialize speech recognizer: " + Render(message))])
  }

  // ---------------------------------------------------------------------------
  // Listener events

  /** One recognizer event. Ready is the only event that sets the listening flag;
      end of speech, errors and final results clear it; every other event leaves
      it alone. No event reaches the platform, and each fires at most one callback. */
  function OnEvent(s: Session, e: Event): (r: Step)
    ensures r.session.recognizer == s.recognizer
    ensures e.ReadyForSpeech? ==> r.session.isListening
    ensures e.EndOfSpeech? || e.RecognitionError? || e.Results? ==> !r.session.isListening
    ensures !(e.ReadyForSpeech? || e.EndOfSpeech? || e.RecognitionError? || e.Results?) ==>
      r.session == s
    ensures |r.effects| <= 1
    ensures forall i :: 0 <= i < |r.effects| ==> IsCallback(r.effects[i])
    ensures e.BeginningOfSpeech? ==> r.effects == [OnPartialResult("")]
    ensures e.RecognitionError? ==> r.effects == [OnError(ErrorMessage(e.code))]
    ensures e.Results? && e.results.List? && |e.results.matches| > 0 ==>
      r.effects == [OnResult(e.results.matches[0])]
    ensures e.Results? && (e.results.NoList? || e.results == List([])) ==>
      r.effects == [OnError(NoSpeechMessage)]
    ensures e.Results? && e.results.Unreadable? ==> r.effects == [OnError("Lỗi xử lý kết quả")]
    ensures e.PartialResults? && e.partial.List? && |e.partial.matches| > 0 ==>
      r.effects == [OnPartialResult(e.partial.matches[0])]
    ensures e.PartialResults? && !(e.partial.List? && |e.partial.matches| > 0) ==> r.effects == []
    ensures e.RmsChanged? || e.BufferReceived? || e.OtherEvent? || e.EndOfSpeech? || e.ReadyForSpeech? ==>
      r.effects == []
  {
    match e
    case ReadyForSpeech => Step(s.(isListening := true), [])
    case BeginningOfSpeech => Step(s, [OnPartialResult("")])
    case RmsChanged => Step(s, [])
    case BufferReceived => Step(s, [])
    case EndOfSpeech => Step(s.(isListening := false), [])
    case RecognitionError(code) => Step(s.(isListening := false), [OnError(ErrorMessage(code))])
    case Results(results) =>
      var cleared := s.(isListening := false);
      (match results
       case List(matches) =>
         if |matches| > 0 then Step(cleared, [OnResult(matches[0])])
         else Step(cleared, [OnError(NoSpeechMessage)])
       case NoList => Step(cleared, [OnError(NoSpeechMessage)])
       case Unreadable => Step(cleared, [OnError("Lỗi xử lý kết quả")]))
    case PartialResults(partial) =>
      if partial.List? && |partial.matches| > 0 then Step(s, [OnPartialResult(partial.matches[0])])
      else Step(s, [])
    case OtherEvent => Step(s, [])
  }

  // ---------------------------------------------------------------------------
  // Operations

  /** Start a recognition request. It never changes the session: the listening
      flag is only raised by the ready event. While listening it does nothing at
      all. Otherwise availability is checked first; the recognizer is called only
      when the check says yes and a recognizer is held; and each way of failing (the
      check raising, the check saying no, the call raising) is reported by one error
      callback. A check that raises is reported before any call is made, whether or
      not a recognizer is held. */
  function StartListening(s: Session, availability: Availability, call: CallOutcome): (r: Step)
    ensures r.session == s
    ensures s.isListening ==> r.effects == []
    ensures StartCall in r.effects <==>
      !s.isListening && availability == Answers(true) && !s.recognizer.Absent?
    ensures |r.effects| <= 2
    ensures !s.isListening && availability.CheckThrows? ==>
      r.effects == [OnError(StartFailure(availability.exception))]
    ensures !s.isListening && availability == Answers(false) ==>
      r.effects == [OnError("Trình nhận diện giọng nói không khả dụng")]
    ensures !s.isListening && availability == Answers(true) && !s.recognizer.Absent? ==>
      r.effects == [StartCall] + match call
        case Returns => []
        case Throws(e) => [OnError(StartFailure(e))]
    ensures !s.isListening && availability == Answers(true) && s.recognizer.Absent? ==> r.effects == []
  {
    if s.isListening then Step(s, [])
    else
      match availability
      case CheckThrows(e) => Step(s, [OnError(StartFailure(e))])
      case Answers(available) =>
        if !available then Step(s, [OnError("Trình nhận diện giọng nói không khả dụng")])
        else if s.recognizer.Absent? then Step(s, [])
        else
          match call
          case Returns => Step(s, [StartCall])
          case Throws(e) => Step(s, [StartCall, OnError(StartFailure(e))])
  }

  /** The message a failed start is reported with: a security exception means the
      microphone permission is missing; any other exception carries its message. */
  function StartFailure(e: Exception): (m: string)
    ensures e.SecurityException? <==> m == "Cần quyền truy cập micro"
    ensures e.OtherException? ==>
      StripPrefix(m, "Lỗi khởi động nhận diện giọng nói: ") == Some(Render(e.message))
  {
    match e
    case SecurityException(_) => "Cần quyền truy cập micro"
    case OtherException(message) =>
      var m := "Lỗi khởi động nhận diện giọng nói: " + Render(message);
      StripPrefixJoin("Lỗi khởi động nhận diện giọng nói: ", Render(message));
      assert m[0] != "Cần quyền truy cập micro"[0];
      m
  }

  /** Stop gracefully. Not listening: nothing happens. Listening: the recognizer
      is asked to stop and the flag is cleared, unless that call raises, in which
      case the flag stays up. Never fires a callback. */
  function StopListening(s: Session, raises: bool): (r: Step)
    ensures !s.isListening ==> r == Step(s, [])
    ensures r.session.recognizer == s.recognizer
    ensures NoCallbacks(r.effects)
    ensures r.effects == (if s.isListening && !s.recognizer.Absent? then [StopCall] else [])
    ensures s.isListening ==> (r.session.isListening <==> raises && !s.recognizer.Absent?)
  {
    if !s.isListening then Step(s, [])
    else if s.recognizer.Absent? then Step(s.(isListening := false), [])
    else if raises then Step(s, [StopCall])
    else Step(s.(isListening := false), [StopCall])
  }

  /** Abort. The flag is cleared unless the recognizer's cancel call raises.
      Never fires a callback. */
  function Cancel(s: Session, raises: bool): (r: Step)
    ensures r.session.recognizer == s.recognizer
    ensures NoCallbacks(r.effects)
    ensures r.effects == (if s.recognizer.Absent? then [] else [CancelCall])
    ensures r.session.isListening <==> s.isListening && raises && !s.recognizer.Absent?
  {
    if s.recognizer.Absent? then Step(s.(isListening := false), [])
    else if raises then Step(s, [CancelCall])
    else Step(s.(isListening := false), [CancelCall])
  }

  /** Tear down: cancel, then release the recognizer. Whatever the platform does,
      no failure escapes and no callback fires. */
  function Destroy(s: Session, cancelRaises: bool): (r: Step)
    ensures NoCallbacks(r.effects)
    ensures r.session.recognizer == (if s.recognizer.Absent? then Absent else Released)
    ensures r.effects == (if s.recognizer.Absent? then [] else [CancelCall, DestroyCall])
    ensures r.session.isListening <==> s.isListening && cancelRaises && !s.recognizer.Absent?
  {
    var cancelled := Cancel(s, cancelRaises);
    if s.recognizer.Absent? then cancelled
    else Step(cancelled.session.(recognizer := Released), cancelled.effects + [DestroyCall])
  }

  // ---------------------------------------------------------------------------
  // Runs

  datatype Input =
    | Start(availability: Availability, call: CallOutcome)
    | Stop(raises: bool)
    | CancelRequest(raises: bool)
    | DestroyRequest(cancelRaises: bool)
    | Deliver(event: Event)

  function Apply(s: Session, i: Input): Step
  {
    match i
    case Start(availability, call) => StartListening(s, availability, call)
    case Stop(raises) => StopListening(s, raises)
    case CancelRequest(raises) => Cancel(s, raises)
    case DestroyRequest(cancelRaises) => Destroy(s, cancelRaises)
    case Deliver(e) => OnEvent(s, e)
  }

  /** The session after a sequence of inputs, with everything the helper did. */
  function Run(s: Session, inputs: seq<Input>): Step
    decreases |inputs|
  {
    if |inputs| == 0 then Step(s, [])
    else
      var before := Run(s, inputs[..|inputs| - 1]);
      var last := Apply(before.session, inputs[|inputs| - 1]);
      Step(last.session, before.effects + last.effects)
  }

  /** Whether an input leaves the flag down whatever it was before; `held` says
      whether a recognizer is held. */
  predicate Clears(held: bool, i: Input)
  {
    match i
    case Deliver(e) => e.EndOfSpeech? || e.RecognitionError? || e.Results?
    case Stop(raises) => !raises || !held
    case CancelRequest(raises) => !raises || !held
    case DestroyRequest(cancelRaises) => !cancelRaises || !held
    case Start(_, _) => false
  }

  /** Whether a recognizer is held never changes after construction. */
  lemma {:induction false} RunKeepsHandlePresence(s: Session, inputs: seq<Input>)
    ensures Run(s, inputs).session.recognizer.Absent? <==> s.recognizer.Absent?
    decreases |inputs|
  {
    if |inputs| > 0 {
      RunKeepsHandlePresence(s, inputs[..|inputs| - 1]);
    }
  }

  /** What one input does to the flag: the ready event raises it, a clearing
      input lowers it, and any other input leaves it. */
  lemma ApplyFlag(s: Session, x: Input)
    ensures x == Deliver(ReadyForSpeech) ==> Apply(s, x).session.isListening
    ensures Clears(!s.recognizer.Absent?, x) ==> !Apply(s, x).session.isListening
    ensures x != Deliver(ReadyForSpeech) && !Clears(!s.recognizer.Absent?, x) ==>
      Apply(s, x).session.isListening == s.isListening
  {
  }

  /** The listening flag is up after a run exactly when a ready event arrived and
      nothing cleared the flag since, or it was up to begin with and nothing has
      cleared it. Starting a request, in particular, never raises it. */
  lemma {:induction false} ListeningOnlyAfterReady(s: Session, inputs: seq<Input>)
    ensures Run(s, inputs).session.isListening <==>
      || (exists i :: 0 <= i < |inputs| && inputs[i] == Deliver(ReadyForSpeech) &&
            forall j :: i < j < |inputs| ==> !Clears(!s.recognizer.Absent?, inputs[j]))
      || (s.isListening && forall j :: 0 <= j < |inputs| ==> !Clears(!s.recognizer.Absent?, inputs[j]))
    decreases |inputs|
  {
    var held := !s.recognizer.Absent?;
    if |inputs| > 0 {
      var n := |inputs| - 1;
      var prefix := inputs[..n];
      var x := inputs[n];
      ListeningOnlyAfterReady(s, prefix);
      RunKeepsHandlePresence(s, prefix);
      var before := Run(s, prefix).session;
      assert before.recognizer.Absent? <==> !held;
      ApplyFlag(before, x);
      assert Run(s, inputs).session == Apply(before, x).session;
      assert forall k :: 0 <= k < n ==> prefix[k] == inputs[k];
      if x == Deliver(ReadyForSpeech) {
        assert Run(s, inputs).session.isListening;
      } else if Clears(held, x) {
        assert !Run(s, inputs).session.isListening;
      } else {
        assert Run(s, inputs).session.isListening == before.isListening;
        if before.isListening {
          if exists i :: 0 <= i < n && prefix[i] == Deliver(ReadyForSpeech) &&
               forall j :: i < j < n ==> !Clears(held, prefix[j]) {
            var i :| 0 <= i < n && prefix[i] == Deliver(ReadyForSpeech) &&
               forall j :: i < j < n ==> !Clears(held, prefix[j]);
            assert inputs[i] == Deliver(ReadyForSpeech);
          }
        } else {
          forall i | 0 <= i < |inputs| && inputs[i] == Deliver(ReadyForSpeech)
            ensures exists j :: i < j < |inputs| && Clears(held, inputs[j])
          {
            assert i < n;
            assert prefix[i] == Deliver(ReadyForSpeech);
          }
          if s.isListening {
            assert exists j :: 0 <= j < n && Clears(held, prefix[j]);
          }
        }
      }
    }
  }

  /** Before the ready event, a second start request still reaches the recognizer:
      the guard against starting twice has nothing to go on yet. */
  lemma TwoStartsBeforeReady(s: Session)
    requires !s.isListening && !s.recognizer.Absent?
    ensures Run(s, [Start(Answers(true), Returns), Start(Answers(true), Returns)]).effects == [StartCall, StartCall]
  {
    assert [Start(Answers(true), Returns), Start(Answers(true), Returns)][..1] == [Start(Answers(true), Returns)];
  }

  /** After the ready event a start request does nothing at all. */
  lemma StartAfterReadyIgnored(s: Session, availability: Availability, call: CallOutcome)
    ensures Run(s, [Deliver(ReadyForSpeech), Start(availability, call)]).effects == []
  {
    var inputs := [Deliver(ReadyForSpeech), Start(availability, call)];
    assert inputs[..1] == [Deliver(ReadyForSpeech)];
    assert Run(s, inputs[..1]).session == OnEvent(s, ReadyForSpeech).session;
  }

  /** Destroying twice is safe: the second teardown calls the released recognizer
      again, fires no callback and leaves it released. */
  lemma DestroyTwice(s: Session, first: bool, second: bool)
    requires !s.recognizer.Absent?
    ensures Run(s, [DestroyRequest(first), DestroyRequest(second)]).effects ==
      [CancelCall, DestroyCall, CancelCall, DestroyCall]
    ensures Run(s, [DestroyRequest(first), DestroyRequest(second)]).session.recognizer == Released
  {
    var inputs := [DestroyRequest(first), DestroyRequest(second)];
    assert inputs[..1] == [DestroyRequest(first)];
    assert Run(s, inputs[..1]) == Step(Destroy(s, first).session, [] + Destroy(s, first).effects);
  }
}
