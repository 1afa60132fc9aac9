# RealtimeWeather in Dafny

A model of the core of RealtimeWeather, an Android weather app. Its core is:

- the voice-input session: `SpeechRecognizerHelper`, a wrapper around the platform speech recognizer;
- the microphone permission state;
- the weather view-model, which publishes Loading for each request and then at most one more `NetworkResponse` (none for a successful response without a body);
- the one-shot current-location lookup;
- the search screen's handlers: typed search, location button, microphone button, permission dialog, speech callbacks and teardown;
- the home screen, which picks a view for the published result and formats the weather details.

Every component is immutable data and pure functions. The transitions of `SpeechRecognizer` and `WeatherPage` return the new state and an ordered trace of what the component asked of the outside world: platform calls, callbacks, weather requests, snackbars, the completion callback. `WeatherViewModel`'s transitions return only the new view-model. `SpeechPermission.RequestPermission` returns the new flags and whether a launch is made. `CurrentLocation` and `HomeScreen` are stateless functions. Whatever the platform decides becomes an input:

- whether recognition is available;
- whether a call into the recognizer raises, and with which exception;
- the recognizer's events;
- the permission answers;
- the location fix;
- the HTTP status, body or exception of a fetch.

Modules:

- `Text`: Kotlin string behaviour the app relies on.
  - A null `${e.message}` prints `null`.
  - Int templates print in decimal; this has a parse-back round trip.
  - `isBlank` uses the Java whitespace set.
  - `String.replace` replaces every occurrence, left to right.
  - There are also a first-occurrence split and prefix and suffix stripping, used to read the formatted strings back.
- `WeatherModel`: the payload fields the app reads, and `NetworkResponse`.
- `SpeechRecognizer`: the helper. `Init`, the listener events, `StartListening`, `StopListening`, `Cancel`, `Destroy` and runs over them.
- `SpeechPermission`: the three flags and `checkPermission`, `requestPermission`, the launcher's result handler and `dismissDialog`.
- `WeatherViewModel`: `getData` and the completion of each fetch. Fetches can complete in any order.
- `CurrentLocation`: `getCurrentLocation`.
- `WeatherPage`: the search screen, composing `SpeechRecognizer`, `SpeechPermission` and `CurrentLocation`. Its weather requests are `GetData` effects; they are not composed with the `WeatherViewModel` model.
- `HomeScreen`: the view selection and the details strings.

Where the code and the described behaviour differ, the model follows the code:

- `cancel()` and `stopListening()` clear the listening flag only after their platform call returns. When that call raises, the flag stays as it was.
- The text for `ERROR_NO_MATCH` is the same string as the one for a results bundle without matches. So the two cases cannot be told apart from the callback (`SpeechRecognizer.NoMatchReadsLikeEmptyResults`).

## Model

| member | source | states |
|---|---|---|
| Text.Render | app/src/main/java/com/example/realtimeweather/utils/SpeechRecognizerUtils.kt:39 | A nullable message in a template prints as itself, and a null message prints as "null". This is also how SpeechRecognizerUtils.kt:147, WeatherViewModel.kt:35 and getCurrentLocation.kt:40 print exception messages. |
| Text.IntToString | app/src/main/java/com/example/realtimeweather/screen/HomeScreen.kt:175 | An Int printed in a template is its shortest decimal text. A minus sign appears exactly for negative numbers, and no digit run starts with 0 unless the number is 0 ("0"). The text parses back to the same number, so together these fix the text uniquely. |
| Text.NatToString | app/src/main/java/com/example/realtimeweather/screen/HomeScreen.kt:175 | A natural number prints as a non-empty run of decimal digits with its value, and the run starts with 0 exactly when the number is 0. |
| Text.IntToStringInjective | app/src/main/java/com/example/realtimeweather/WeatherViewModel.kt:32 | Different status codes give different printed texts, so the failure message identifies the code. |
| Text.IsBlank | app/src/main/java/com/example/realtimeweather/WeatherPage.kt:227 | Kotlin `isBlank` holds exactly when every character is whitespace in the JVM sense, so it holds for the empty text. |
| Text.Cut | app/src/main/java/com/example/realtimeweather/screen/HomeScreen.kt:135 | Splitting at the first separator gives two parts that recompose the input. The first part contains no earlier separator. No separator means no split. |
| Text.CutJoin | app/src/main/java/com/example/realtimeweather/screen/HomeScreen.kt:135 | Joining two texts around a separator whose first character is absent from the left text splits back into the same two texts. |
| Text.StripSuffix | app/src/main/java/com/example/realtimeweather/screen/HomeScreen.kt:146 | Removing a unit suffix succeeds exactly when the text ends with it, and the rest plus the suffix is the text. |
| Text.StripSuffixJoin | app/src/main/java/com/example/realtimeweather/screen/HomeScreen.kt:176 | A value with a unit appended gives the value back when the unit is removed. |
| Text.StripPrefix | app/src/main/java/com/example/realtimeweather/screen/HomeScreen.kt:189 | Removing a label prefix succeeds exactly when the text starts with it, and the prefix plus the rest is the text. |
| Text.StripPrefixJoin | app/src/main/java/com/example/realtimeweather/screen/HomeScreen.kt:189 | A label put in front of a value gives the value back when it is removed. |
| Text.ReplaceAllAbsent | app/src/main/java/com/example/realtimeweather/screen/HomeScreen.kt:153 | Replacing a pattern that does not occur leaves the text unchanged. |
| Text.ReplaceAllPrefix | app/src/main/java/com/example/realtimeweather/screen/HomeScreen.kt:153 | A leading part without the pattern's first character passes through the replacement untouched. |
| Text.ReplaceAllKeepsPrefix | app/src/main/java/com/example/realtimeweather/screen/HomeScreen.kt:153 | A prefix of the rewritten text that contains no first character of the replacement was already a prefix of the original text. |
| Text.ReplaceAllLeavesNone | app/src/main/java/com/example/realtimeweather/screen/HomeScreen.kt:153 | After replacing every occurrence, the pattern no longer occurs, provided the replacement cannot help form it. |
| Text.NoOccurrenceAfterPrefix | app/src/main/java/com/example/realtimeweather/screen/HomeScreen.kt:153 | Putting a prefix without the pattern's first character in front of a pattern-free text creates no occurrence. |
| Text.ReplaceAll | app/src/main/java/com/example/realtimeweather/screen/HomeScreen.kt:153 | Kotlin `String.replace`: the empty text stays empty, and a replacement as long as the target keeps the text's length. Its meaning is pinned down by ReplaceAllAtFirst and ReplaceAllAbsent. |
| Text.ReplaceAllAtFirst | app/src/main/java/com/example/realtimeweather/screen/HomeScreen.kt:153 | When the first occurrence of the target is at position k, the result is the text before k, then the replacement, then the rest after the occurrence rewritten the same way. This is the left-to-right, non-overlapping rule. |
| HomeScreen.IconUrl | app/src/main/java/com/example/realtimeweather/screen/HomeScreen.kt:153 | The icon address starts with "https:", holds no "64x64" anywhere, and is the scheme put in front of the icon path with each small size swapped for the large one. A path without "64x64" only gains the scheme. |
| HomeScreen.WeatherDetails | app/src/main/java/com/example/realtimeweather/screen/HomeScreen.kt:134-189 | Each detail string gives its payload field back once its label or unit is removed. The header, for any name, is the name plus ", " followed by the country; when the name has no comma it also splits at its first ", ". The same holds for temperature, wind, rain and the last-updated time. Humidity is its shortest decimal text plus "%", which also parses back to the Int. Condition and UV are shown as they are, and the icon goes through IconUrl. |
| HomeScreen.SelectView | app/src/main/java/com/example/realtimeweather/screen/HomeScreen.kt:70-92 | Each of the four result states picks its own view, in both directions: none gives the welcome view, Loading the loading view, an error the error view with its message unchanged, and a success the details of its payload. |
| HomeScreen.HomeFollowsViewModel | app/src/main/java/com/example/realtimeweather/screen/HomeScreen.kt:70-92 | The home screen follows the view-model: it shows the welcome view before any request and the loading view right after one. A failed response shows "Failed to load data: <code>" with "Try Again". |
| SpeechRecognizer.Init | app/src/main/java/com/example/realtimeweather/utils/SpeechRecognizerUtils.kt:27-41 | A recognizer is held exactly when recognition is available. Otherwise a single error callback names the reason: unavailable, or the exception's message, which prints "null" when absent. |
| SpeechRecognizer.ErrorMessage | app/src/main/java/com/example/realtimeweather/utils/SpeechRecognizerUtils.kt:69-80 | A known error code gives its own message, and only unknown codes get the "unknown error" prefix. For an unknown code, the message is exactly the prefix plus the code's shortest decimal text, and the code can be read back from it. |
| SpeechRecognizer.ErrorMessageInjective | app/src/main/java/com/example/realtimeweather/utils/SpeechRecognizerUtils.kt:69-80 | Different error codes give different messages. |
| SpeechRecognizer.NoMatchReadsLikeEmptyResults | app/src/main/java/com/example/realtimeweather/utils/SpeechRecognizerUtils.kt:75 | The no-match error text is exactly the text sent for a results bundle without matches. |
| SpeechRecognizer.OnEvent | app/src/main/java/com/example/realtimeweather/utils/SpeechRecognizerUtils.kt:46-117 | Only "ready" raises the listening flag. End of speech, errors and final results clear it, and the other events leave the session alone. Each event fires at most one callback, as follows. Beginning of speech clears the text. A non-empty result list sends its first match. A missing or empty list sends the no-speech error. An unreadable list sends the processing error. Partial results send their first match or nothing. |
| SpeechRecognizer.StartListening | app/src/main/java/com/example/realtimeweather/utils/SpeechRecognizerUtils.kt:121-148 | Starting never changes the session and does nothing while listening. Otherwise availability is checked first, and a check that raises is reported before any recognizer call, whether or not a recognizer is held. The recognizer is called exactly when the check says yes and a recognizer is held. "Unavailable" and a raising call each give one error. |
| SpeechRecognizer.StartFailure | app/src/main/java/com/example/realtimeweather/utils/SpeechRecognizerUtils.kt:142-147 | A security exception, and only that, gives "Cần quyền truy cập micro". Any other exception gives the start-failure prefix followed by its message, which can be read back ("null" when absent). |
| SpeechRecognizer.StopListening | app/src/main/java/com/example/realtimeweather/utils/SpeechRecognizerUtils.kt:151-161 | Stopping acts only while listening and calls the recognizer only if one is held. The flag stays up only when that call raises. No callback fires. |
| SpeechRecognizer.Cancel | app/src/main/java/com/example/realtimeweather/utils/SpeechRecognizerUtils.kt:163-171 | Cancel calls a held recognizer, and the flag is cleared unless that call raises. No callback fires. |
| SpeechRecognizer.Destroy | app/src/main/java/com/example/realtimeweather/utils/SpeechRecognizerUtils.kt:173-181 | Teardown cancels and then releases a held recognizer. It fires no callback, and with no recognizer it makes no call. |
| SpeechRecognizer.RunKeepsHandlePresence | app/src/main/java/com/example/realtimeweather/utils/SpeechRecognizerUtils.kt:19-41 | Whether a recognizer is held is fixed at construction and never changes over any run. |
| SpeechRecognizer.ListeningOnlyAfterReady | app/src/main/java/com/example/realtimeweather/utils/SpeechRecognizerUtils.kt:46-171 | Over any run, the flag is up exactly when a ready event arrived and nothing cleared the flag since, or when it was up at the start and nothing cleared it. |
| SpeechRecognizer.TwoStartsBeforeReady | app/src/main/java/com/example/realtimeweather/utils/SpeechRecognizerUtils.kt:121-137 | The "already listening" guard does not stop a second start before the ready event. |
| SpeechRecognizer.StartAfterReadyIgnored | app/src/main/java/com/example/realtimeweather/utils/SpeechRecognizerUtils.kt:121-125 | After the ready event, a start request does nothing. |
| SpeechRecognizer.DestroyTwice | app/src/main/java/com/example/realtimeweather/utils/SpeechRecognizerUtils.kt:173-181 | A second teardown calls the released recognizer again and fires no callback. |
| SpeechPermission.InitialFlagsDown | app/src/main/java/com/example/realtimeweather/permission/SpeechPermissionUtils.kt:20-22 | All three permission flags start down. |
| SpeechPermission.CheckPermission | app/src/main/java/com/example/realtimeweather/permission/SpeechPermissionUtils.kt:51-60 | The platform's grant is stored and returned, and the other flags are kept. |
| SpeechPermission.RequestPermission | app/src/main/java/com/example/realtimeweather/permission/SpeechPermissionUtils.kt:62-68 | The launcher is called exactly when no request is in flight. Afterwards a request is in flight, and nothing else changes. |
| SpeechPermission.OnPermissionResult | app/src/main/java/com/example/realtimeweather/permission/SpeechPermissionUtils.kt:26-31 | The answer becomes the grant and no request is in flight. A denial raises the dialog, and a grant leaves the dialog as it was. |
| SpeechPermission.DismissDialog | app/src/main/java/com/example/realtimeweather/permission/SpeechPermissionUtils.kt:70-72 | Only the dialog flag goes down. |
| SpeechPermission.OneLaunchPerResult | app/src/main/java/com/example/realtimeweather/permission/SpeechPermissionUtils.kt:26-68 | Between two results, the launcher is called at most once, and not at all when a request was already in flight. |
| WeatherViewModel.Written | app/src/main/java/com/example/realtimeweather/WeatherViewModel.kt:24-36 | A fetch publishes Success exactly for a 2xx response with a body, and nothing for a 2xx response without one. A non-2xx response publishes "Failed to load data: <code>", and an exception publishes "Error: <message>". |
| WeatherViewModel.GetData | app/src/main/java/com/example/realtimeweather/WeatherViewModel.kt:21-23 | A request publishes Loading at once and adds one pending fetch for its query. |
| WeatherViewModel.Complete | app/src/main/java/com/example/realtimeweather/WeatherViewModel.kt:23-37 | A completion removes its fetch from the pending ones. It overwrites the result whatever the result was, except that a bodiless 2xx response leaves it. |
| WeatherViewModel.ApplyKeepsValid | app/src/main/java/com/example/realtimeweather/WeatherViewModel.kt:18-37 | While a fetch is pending, some result is published, and once a result is published it is never null again. |
| WeatherViewModel.NoneUntilFirstRequest | app/src/main/java/com/example/realtimeweather/WeatherViewModel.kt:18-22 | From the start, the result is null after a run exactly when the run made no request. |
| WeatherViewModel.LastCompletionWins | app/src/main/java/com/example/realtimeweather/WeatherViewModel.kt:28-35 | A completion that writes leaves the same result, whichever request it belongs to and whatever was published before it. |
| WeatherViewModel.EmptyBodyStaysLoading | app/src/main/java/com/example/realtimeweather/WeatherViewModel.kt:26-30 | A 2xx response without a body, right after its request, leaves Loading on screen. |
| WeatherViewModel.StaleAnswerOverwritesNewer | app/src/main/java/com/example/realtimeweather/WeatherViewModel.kt:21-37 | When two fetches complete in reverse order, the older query's answer is what stays. |
| CurrentLocation.GetCurrentLocation | app/src/main/java/com/example/realtimeweather/utils/getCurrentLocation.kt:10-42 | The platform is asked exactly when fine or coarse permission is held; without either, the error names the missing permission. A fix, and only a fix, gives "<latitude>,<longitude>". No fix and a failure each give their own error. |
| CurrentLocation.EitherPermissionSuffices | app/src/main/java/com/example/realtimeweather/utils/getCurrentLocation.kt:16-24 | Fine alone, coarse alone and both together give the same lookup. |
| CurrentLocation.LatLonRoundTrip | app/src/main/java/com/example/realtimeweather/utils/getCurrentLocation.kt:33 | Splitting the coordinates string at its comma gives back the latitude and the longitude. |
| CurrentLocation.ErrorsDistinguishable | app/src/main/java/com/example/realtimeweather/utils/getCurrentLocation.kt:25-40 | The three error messages differ, and only a platform failure carries the "Location error: " prefix. |
| WeatherPage.OnSpeechEffect | app/src/main/java/com/example/realtimeweather/WeatherPage.kt:114-136 | A final result becomes the query, is fetched, ends voice search and completes the screen. A partial result only changes the query. An error turns the microphone permission off, ends voice search and is shown, and nothing else on the screen changes. Platform calls pass through. |
| WeatherPage.Route | app/src/main/java/com/example/realtimeweather/WeatherPage.kt:114-136 | After a run of helper callbacks, the permission is off exactly when some error fired. Voice search is still on exactly when it was on and no error or final result fired. Only results write the query. The location state, the dialog and the helper are untouched, and the effects depend on the helper's trace alone, not on the screen. |
| WeatherPage.ShownAllMembers | app/src/main/java/com/example/realtimeweather/WeatherPage.kt:126-135 | Each platform call the helper makes reaches the platform, and each error it reports becomes a snackbar with the same text; no other effect is a platform call or a snackbar. |
| WeatherPage.Open | app/src/main/java/com/example/realtimeweather/WeatherPage.kt:86-158 | The screen opens with an empty query and every flag down. The helper is constructed, and a construction failure is shown as a snackbar. The microphone grant is then read from the platform. |
| WeatherPage.OnSearch | app/src/main/java/com/example/realtimeweather/WeatherPage.kt:226-239 | A blank query only gets "Please enter a location". Any other query is fetched, the keyboard is hidden and the screen completes, in that order. |
| WeatherPage.LocationAfterPermission | app/src/main/java/com/example/realtimeweather/WeatherPage.kt:398-421 | The indicator goes off in every case. The platform is asked exactly when a location permission is held. A fix becomes the query, is fetched and completes the screen. An error is recorded and nothing is fetched. The trace is exactly the location request, if made, then for a fix the fetch and the completion. |
| WeatherPage.OnGetLocation | app/src/main/java/com/example/realtimeweather/WeatherPage.kt:240-260 | The indicator goes on and the old error is cleared. With permission, the lookup runs and the indicator ends once the platform answers, which here is within the handler. Without permission, only the fine+coarse request is launched and the indicator stays on. |
| WeatherPage.OnLocationPermissionResult | app/src/main/java/com/example/realtimeweather/WeatherPage.kt:94-112 | Fine or coarse granted runs the lookup. Otherwise the indicator goes off and "Location permission denied" is recorded. |
| WeatherPage.OnMicClick | app/src/main/java/com/example/realtimeweather/WeatherPage.kt:261-274 | Without permission it only asks for it. With permission, an active voice search is stopped and ended, and nothing else changes. An inactive one clears the query and starts the helper. The effects are exactly the helper's start trace as the screen shows it: each start call reaches the recognizer, each start error becomes its snackbar, and nothing else is emitted. Voice search stays on, with the permission kept, exactly when no error was reported. The location state is never touched. |
| WeatherPage.OnDialogGrant | app/src/main/java/com/example/realtimeweather/WeatherPage.kt:172-176 | The grant button hides the dialog and requests again, launching only if no request is in flight. The grant itself and the rest of the screen stay as they were. |
| WeatherPage.OnLocationErrorShown | app/src/main/java/com/example/realtimeweather/WeatherPage.kt:160-165 | A recorded location error is shown once and cleared, and nothing else on the screen changes. |
| WeatherPage.Apply | app/src/main/java/com/example/realtimeweather/WeatherPage.kt:152-153 | The inline wiring of one screen event. Leaving the screen tears the helper down: a held recognizer is cancelled, then destroyed, and nothing else changes. An edit of the field replaces the query (WeatherPage.kt:225). The dialog's dismissal only hides it (WeatherPage.kt:169). The microphone launcher's answer sets the grant, ends the request and raises the dialog on a denial (SpeechPermissionUtils.kt:24-31). A recognizer event goes through the helper, and the screen follows its callbacks exactly as Route states (the query, voice search and the microphone grant); the location state is left alone. |
| WeatherPage.RunFetchThenComplete | app/src/main/java/com/example/realtimeweather/WeatherPage.kt:114-421 | Over any sequence of screen events, each weather request is followed by the completion callback, with at most the keyboard hidden in between. Each completion is preceded by a request. |
| WeatherPage.SpeechErrorRevokesMicrophone | app/src/main/java/com/example/realtimeweather/WeatherPage.kt:126-135 | After any speech error, the next microphone click asks for the permission instead of listening. |
| WeatherPage.StopBeforeReadyStillSearches | app/src/main/java/com/example/realtimeweather/WeatherPage.kt:261-270 | A stop clicked before the recognizer is ready never reaches it, and a later result is still fetched and completes the screen. |
| WeatherPage.BlankVoiceResultIsFetched | app/src/main/java/com/example/realtimeweather/WeatherPage.kt:117-122 | Only typed search has the blank check: a blank typed query is refused, while the same text heard as speech is fetched. |
| WeatherPage.DeniedLocationIsReportedOnce | app/src/main/java/com/example/realtimeweather/WeatherPage.kt:94-112 | A refused location request ends the indicator and records the denial, which is shown once and then cleared. |

## Left out

- Compose layout, theming and the microphone pulse animation (`WeatherPage.kt:139-149`, `WeatherSearchBar`) are not modelled. They affect only what is drawn, not the state.
- Navigation is not modelled. The screen's completion callback and the home screen's buttons are recorded as effects or not at all.
- The api package (`WeatherModel`, `NetworkResponse`, `RetrofitInstance`, `Constant`) is not part of this model. The payload fields are taken from their uses, and the HTTP call becomes a fetch outcome chosen by the network.
- Coroutine scheduling is reduced to completions arriving in any order. This covers `viewModelScope.launch` and `scope.launch` around the snackbars. The location lookup's callbacks run within the handler that starts it, although on the device they arrive later.
- WeatherPage.OnSearch: the keyboard controller is taken to be present, so a fetched query always emits `HideKeyboard`. When no controller is provided, `keyboardController?.hide()` (WeatherPage.kt:229) does nothing.
- WeatherPage.OnGetLocation: the platform's answer is applied within the click handler. On the device the indicator stays on until the answer arrives, and other events can happen in between. For example, a late fix can overwrite a query typed meanwhile and complete the screen a second time; this model does not show that interleaving.
- WeatherPage.LocationAfterPermission: states the outcome of one lookup with its answer, not the time between the request and the answer.
- The platform is represented only by inputs and effects: the recognizer, the fused location client, `ContextCompat.checkSelfPermission`, and the activity-result launchers. `hasLocationPermission` lives in the permission package, which is not part of this model; it is an input.
- The values of the platform's speech error constants come from Android's `SpeechRecognizer`.
- CurrentLocation.GetCurrentLocation: coordinates are given as the platform's rendered strings. Kotlin's `Double.toString` formatting is not modelled.
- The UV index comes already rendered as text, because the float rendering of `uv.toString()` is not modelled.
- Logging is not modelled, and neither are the recognizer intent extras (language, prompt, partial results).
- `SpeechRecognizerHelper.isListening()` is not modelled separately: it is the session's `isListening` field.
- A callback that itself throws inside `onResults` is not modelled. The helper would report "Lỗi xử lý kết quả" after the callback had partly run.
- The dialog's cancel button and its dismissal are the same transition, `SpeechPermission.DismissDialog`, and have no row of their own.
