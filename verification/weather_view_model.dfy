/** The weather view-model: one published result, overwritten by every request
    and by every completion of a request.

    A request sets the result to Loading at once and leaves a fetch pending; the
    fetch completes later with an outcome chosen by the network. Fetches may
    complete in any order, so a completion is addressed by its position among
    the pending fetches. */
module WeatherViewModel {
  import opened Text
  import opened WeatherModel

  /** Retrofit's `Response.isSuccessful`: a 2xx status. */
  predicate IsSuccessful(code: int)
  {
    200 <= code <= 299
  }

  /** How a fetch ends: a response (with its body, possibly null), or an exception. */
  datatype FetchOutcome = Response(code: int, body: Option<Weather>) | Thrown(message: Option<string>)

  /** `weatherResult` is None until the first request. `pending` holds the queries
      of the fetches that have not completed. */
  datatype ViewModel = ViewModel(weatherResult: Option<NetworkResponse>, pending: seq<string>)

  const Initial := ViewModel(None, [])

  /** What a completion writes, or None when it writes nothing. */
  function Written(o: FetchOutcome): (w: Option<NetworkResponse>)
    ensures o.Response? && IsSuccessful(o.code) && o.body.Some? <==> w.Some? && w.value.Success?
    ensures w.Some? && w.value.Success? ==> w.value.data == o.body.value
    ensures w.None? <==> o.Response? && IsSuccessful(o.code) && o.body.None?
    ensures o.Response? && !IsSuccessful(o.code) ==> w == Some(Error("Failed to load data: " + IntToString(o.code)))
    ensures o.Thrown? ==> w == Some(Error("Error: " + Render(o.message)))
  {
    match o
    case Response(code, body) =>
      if IsSuccessful(code) then
        (match body
         case Some(weather) => Some(Success(weather))
         case None => None)
      else Some(Error("Failed to load data: " + IntToString(code)))
    case Thrown(message) => Some(Error("Error: " + Render(message)))
  }

  /** A request: Loading is published before anything else, and one more fetch is pending. */
  function GetData(vm: ViewModel, city: string): (r: ViewModel)
    ensures r.weatherResult == Some(Loading)
    ensures r.pending == vm.pending + [city]
  {
    ViewModel(Some(Loading), vm.pending + [city])
  }

  /** The completion of the pending fetch at position `k` (a position with no
      pending fetch changes nothing). A completion that writes overwrites the
      result whatever it was; a successful response without a body leaves it. */
  function Complete(vm: ViewModel, k: nat, o: FetchOutcome): (r: ViewModel)
    ensures k >= |vm.pending| ==> r == vm
    ensures k < |vm.pending| ==> r.pending == vm.pending[..k] + vm.pending[k + 1..]
    ensures k < |vm.pending| ==>
      r.weatherResult == (if Written(o).Some? then Written(o) else vm.weatherResult)
  {
    if k >= |vm.pending| then vm
    else
      var rest := vm.pending[..k] + vm.pending[k + 1..];
      match Written(o)
      case Some(response) => ViewModel(Some(response), rest)
      case None => ViewModel(vm.weatherResult, rest)
  }

  // ---------------------------------------------------------------------------
  // Runs

  datatype Input = Request(city: string) | Completion(k: nat, outcome: FetchOutcome)

  function Apply(vm: ViewModel, i: Input): ViewModel
  {
    match i
    case Request(city) => GetData(vm, city)
    case Completion(k, o) => Complete(vm, k, o)
  }

  function Run(vm: ViewModel, inputs: seq<Input>): ViewModel
    decreases |inputs|
  {
    if |inputs| == 0 then vm
    else Apply(Run(vm, inputs[..|inputs| - 1]), inputs[|inputs| - 1])
  }

  /** While a fetch is pending, a result has been published. */
  predicate Valid(vm: ViewModel)
  {
    |vm.pending| > 0 ==> vm.weatherResult.Some?
  }

  lemma ApplyKeepsValid(vm: ViewModel, i: Input)
    requires Valid(vm)
    ensures Valid(Apply(vm, i))
    ensures vm.weatherResult.Some? ==> Apply(vm, i).weatherResult.Some?
  {
  }

  predicate NoRequest(inputs: seq<Input>)
  {
    forall i :: 0 <= i < |inputs| ==> !inputs[i].Request?
  }

  lemma NoRequestSnoc(inputs: seq<Input>)
    requires |inputs| > 0
    ensures NoRequest(inputs) <==>
      NoRequest(inputs[..|inputs| - 1]) && !inputs[|inputs| - 1].Request?
  {
    var prefix := inputs[..|inputs| - 1];
    assert forall i :: 0 <= i < |prefix| ==> prefix[i] == inputs[i];
  }

  /** From the initial state the result is still None after a run exactly when the
      run contains no request: nothing ever sets it back to None. */
  lemma {:induction false} NoneUntilFirstRequest(inputs: seq<Input>)
    ensures Valid(Run(Initial, inputs))
    ensures Run(Initial, inputs).weatherResult.None? <==> NoRequest(inputs)
    ensures NoRequest(inputs) ==> Run(Initial, inputs).pending == []
    decreases |inputs|
  {
    if |inputs| > 0 {
      var n := |inputs| - 1;
      NoneUntilFirstRequest(inputs[..n]);
      ApplyKeepsValid(Run(Initial, inputs[..n]), inputs[n]);
      NoRequestSnoc(inputs);
    }
  }

  /** The last completion wins: a completion that writes leaves the same result
      whichever request it belongs to and whatever came before it. */
  lemma LastCompletionWins(a: ViewModel, j: nat, b: ViewModel, k: nat, o: FetchOutcome)
    requires j < |a.pending| && k < |b.pending|
    requires Written(o).Some?
    ensures Complete(a, j, o).weatherResult == Complete(b, k, o).weatherResult == Written(o)
  {
  }

  /** A successful response without a body, right after its request, leaves Loading. */
  lemma EmptyBodyStaysLoading(vm: ViewModel, city: string, code: int)
    requires IsSuccessful(code)
    ensures Complete(GetData(vm, city), |vm.pending|, Response(code, None)).weatherResult == Some(Loading)
  {
  }

  /** Two requests whose fetches complete in the opposite order: the older query's
      answer is what stays published. */
  lemma StaleAnswerOverwritesNewer(first: Weather, second: Weather)
    ensures Run(Initial, [Request("A"), Request("B"),
                          Completion(1, Response(200, Some(second))),
                          Completion(0, Response(200, Some(first)))]).weatherResult == Some(Success(first))
  {
    var inputs := [Request("A"), Request("B"),
                   Completion(1, Response(200, Some(second))),
                   Completion(0, Response(200, Some(first)))];
    assert inputs[..1] == [Request("A")] && inputs[..1][..0] == [];
    assert inputs[..2] == [Request("A"), Request("B")] && inputs[..2][..1] == inputs[..1];
    assert inputs[..3][..2] == inputs[..2] && inputs[..4] == inputs;
    var v1 := Run(Initial, inputs[..1]);
    assert Run(Initial, inputs[..1][..0]) == Initial;
    assert v1 == GetData(Initial, "A") == ViewModel(Some(Loading), ["A"]);
    var v2 := Run(Initial, inputs[..2]);
    assert v2 == Apply(v1, Request("B")) == ViewModel(Some(Loading), ["A", "B"]);
    var v3 := Run(Initial, inputs[..3]);
    assert v3 == Apply(v2, inputs[2]);
    assert v3.pending == ["A"];
  }
}
