# RNOneSignal: the local logic of the React Native bridge to the OneSignal Android SDK

`RNOneSignal` is the Android native module that exposes the OneSignal SDK to
React Native. Most of its methods only forward to `OneSignal.*`. This
project models the parts that keep state or build data themselves, and
proves what they promise:

- **Initialisation latch** (`init`). The SDK is initialised once, with the
  current activity or, when there is none, the application context. The
  first call starts waiting for privacy consent when consent is required.
- **One-shot callback slots** for `getTags` and `getUserDevice`.
- **Cold-start buffers** for the notification-opened and
  in-app-message-clicked handlers. An event that arrives before the
  application calls the "init params" operation is kept, replacing an
  earlier one. The "init params" call marks the handler ready and delivers
  the kept event once. After that, events go straight to the stored callback.
- **`postNotification` payload assembly.** It builds a JSON object from the
  contents, optional player ids, optional data and optional raw parameters,
  which are merged in key by key. A `hidden: true` raw parameter is also
  written into `data`. Any JSONException means nothing is posted.

Modules:

- `Wrappers`: an `Option` type. It stands for Java's nullable references and
  for "an exception was caught".
- `Json`: JSON values (RFC 8259) and the org.json operations the module uses.
  These are `new JSONObject(text)`, `new JSONArray(text)`, `getBoolean` and
  `getJSONObject`. Parsing JSON text is a parameter (`Parser`), not a model.
- `JavaText`: `String.trim()`.
- `Notification`: the payload as a declarative function (`Build`) and as the
  source's step-by-step construction (`Assemble`, `MergeInto`), proved equal.
  `NotificationProperties` holds the lemmas about `Build`.
- `ColdStart`: the buffer-then-flush state machine of one handler kind, as a
  step function, with lemmas over whole traces of calls.
- `TagSlot`: the `getTags` slot, as a step function, with lemmas over traces.
- `Bridge`: the class `RNOneSignal` with the source's fields. Each method
  states its new state outright and ties it to the step functions above.
  Ghost logs record what the module hands out: SDK initialisations, callback
  invocations and posted notifications.

Notes on the code as written:

- `hidden` is copied to the top level with the other raw parameters, and it
  is also set inside `data`. `HiddenRelocated` states both.
- A raw `data` parameter replaces the `{p2p_notification: ...}` object built
  from the data argument.
- Nothing in the file sets `hasSetRequiresPrivacyConsent`:
  `setRequiresUserPrivacyConsent` only forwards to the SDK. So
  `waitingForUserPrivacyConsent` stays false. The model keeps both fields and
  proves the rule `init` applies.
- `init(appId)` does not use `appId`.
- A callback passed to `getTags` while an earlier one is pending is dropped
  and never invoked. `TagSlot.LaterCallbackDropped` states this.
- A React Native bridge `Callback` may be invoked once only (lines 95-98).
  The opened and clicked handlers still invoke their stored callback for
  every event once ready, so a second event throws. The class states this
  rule as a precondition, like the missing-callback case. The trace lemmas
  of `ColdStart` describe the intended delivery to a handler that accepts
  any number of events. See "## Findings".

## Model

| member | source | states |
|---|---|---|
| Json.ParseObject | android/src/main/java/com/geektime/rnonesignalandroid/RNOneSignal.java:336 | `new JSONObject(text)` succeeds exactly when the text parses to a JSON object, and yields that object's members |
| Json.ParseArray | android/src/main/java/com/geektime/rnonesignalandroid/RNOneSignal.java:339 | `new JSONArray(text)` succeeds exactly when the text parses to a JSON array, and yields its items |
| Json.GetBoolean | android/src/main/java/com/geektime/rnonesignalandroid/RNOneSignal.java:357 | `getBoolean` needs the key; it returns a boolean member as it is, and throws on a missing key or on a null, number, array or object member |
| Json.GetBooleanOfString | android/src/main/java/com/geektime/rnonesignalandroid/RNOneSignal.java:357 | a string member reads as true exactly when it equals "true" ignoring case, and as false exactly when it equals "false" ignoring case |
| Json.GetObject | android/src/main/java/com/geektime/rnonesignalandroid/RNOneSignal.java:358 | `getJSONObject` succeeds exactly when the member exists and is an object, and returns that object |
| JavaText.TrimStart | android/src/main/java/com/geektime/rnonesignalandroid/RNOneSignal.java:349 | the first kept character of `trim`: every character before it is at most U+0020, and it is not |
| JavaText.TrimEnd | android/src/main/java/com/geektime/rnonesignalandroid/RNOneSignal.java:349 | the end of the kept part of `trim`: every character after it is at most U+0020, and the last kept one is not |
| JavaText.Trim | android/src/main/java/com/geektime/rnonesignalandroid/RNOneSignal.java:349-350 | `trim()` is the slice between the blank prefix and the blank suffix; it is empty exactly when the string is blank, and otherwise starts and ends with a kept character |
| JavaText.TrimIdempotent | android/src/main/java/com/geektime/rnonesignalandroid/RNOneSignal.java:349-350 | trimming twice is trimming once |
| Notification.MergeInto | android/src/main/java/com/geektime/rnonesignalandroid/RNOneSignal.java:351-355 | the key-by-key merge loop, in any iteration order, yields the union of the keys; raw parameters win, and other members are kept |
| Notification.HiddenRequested | android/src/main/java/com/geektime/rnonesignalandroid/RNOneSignal.java:357 | `has("hidden") && getBoolean("hidden")`: false without the member, the boolean of a boolean member, a failure for a null, number, array or object member; true only when the member exists |
| Notification.MarkHidden | android/src/main/java/com/geektime/rnonesignalandroid/RNOneSignal.java:358 | `getJSONObject("data").put("hidden", true)` succeeds exactly when `data` exists and is an object; it then adds `hidden: true` to `data` and keeps every other member of `data` and of the payload |
| Notification.Build | android/src/main/java/com/geektime/rnonesignalandroid/RNOneSignal.java:332-379 | a posted notification needs the contents to parse to an object and has `contents`; no argument that is given may be malformed |
| Notification.Assemble | android/src/main/java/com/geektime/rnonesignalandroid/RNOneSignal.java:334-360 | the step-by-step construction with its early exits on JSONException posts exactly what `Build` describes: the base payload with the raw parameters merged over it and `hidden` recorded in `data` |
| NotificationProperties.ContentsPresent | android/src/main/java/com/geektime/rnonesignalandroid/RNOneSignal.java:335-336 | a posted notification always has `contents`, whose text must have parsed to an object; unless a raw parameter replaces it, it is that object |
| NotificationProperties.PlayerIdsPresentIff | android/src/main/java/com/geektime/rnonesignalandroid/RNOneSignal.java:338-341 | unless a raw parameter supplies it, `include_player_ids` is posted if and only if `playerId` is not null, and it is the parsed array |
| NotificationProperties.DataPresentIff | android/src/main/java/com/geektime/rnonesignalandroid/RNOneSignal.java:343-347 | unless a raw parameter supplies `data` or asks for a hidden notification, `data` is posted if and only if the data argument is not null, and it is `{p2p_notification: <parsed data>}` |
| NotificationProperties.RawParametersMerged | android/src/main/java/com/geektime/rnonesignalandroid/RNOneSignal.java:349-355 | every raw parameter other than `data` is posted with its own value, replacing a member of the same name; a raw `data` replaces the data argument's object unless a hidden notification is asked for; the only other members are contents, player ids and data |
| NotificationProperties.HiddenRelocated | android/src/main/java/com/geektime/rnonesignalandroid/RNOneSignal.java:357-359 | a raw `hidden` that reads as true gives `data.hidden = true` and keeps the other members of `data`; the raw `hidden` also stays at the top level |
| NotificationProperties.NothingPostedIff | android/src/main/java/com/geektime/rnonesignalandroid/RNOneSignal.java:334-378 | nothing is posted if and only if the contents, player ids, data or raw parameters are malformed, the raw `hidden` is not a boolean, or `hidden` is true while the merged `data` is missing or not an object |
| NotificationProperties.HiddenWithoutDataDropped | android/src/main/java/com/geektime/rnonesignalandroid/RNOneSignal.java:357-378 | a hidden notification with no data argument and no raw `data` is silently dropped |
| NotificationProperties.BlankParametersIgnored | android/src/main/java/com/geektime/rnonesignalandroid/RNOneSignal.java:349 | raw parameters that are blank after trimming have the same effect as null ones |
| NotificationProperties.ParametersTrimmed | android/src/main/java/com/geektime/rnonesignalandroid/RNOneSignal.java:349-350 | blanks around the raw parameters make no difference to what is posted |
| ColdStart.FirstInit | android/src/main/java/com/geektime/rnonesignalandroid/RNOneSignal.java:438-439 | the position of the first "init params" call of a trace, the first call that sets the ready flag: no earlier call is one |
| ColdStart.Step | android/src/main/java/com/geektime/rnonesignalandroid/RNOneSignal.java:432-453 | one call: storing a callback replaces it and changes nothing else; "init params" makes the handler ready, empties the buffer, keeps the callback and delivers the buffered event once; an event before ready replaces the buffer and changes nothing else; an event after ready goes to the stored callback and changes nothing; at most one delivery, always to the stored callback |
| TagSlot.Step | android/src/main/java/com/geektime/rnonesignalandroid/RNOneSignal.java:168-180 | one call: `getTags` puts its own callback into an empty slot and keeps a pending one, delivering nothing; a result empties the slot and invokes the pending callback, if any, once with the tags |
| ColdStart.RunShape | android/src/main/java/com/geektime/rnonesignalandroid/RNOneSignal.java:432-453 | after any trace the handler is ready exactly when "init params" has been called; until then the buffer holds the latest event and nothing has been delivered; afterwards the buffer is empty; the callback is the last one set |
| ColdStart.RunDeliversExpected | android/src/main/java/com/geektime/rnonesignalandroid/RNOneSignal.java:432-453 | for a handler that accepts any number of events (the intended behaviour), a trace delivers exactly this: nothing before the first "init params"; then the latest earlier event once; then every later event once, in order |
| ColdStart.ReadyFirstDeliversAll | android/src/main/java/com/geektime/rnonesignalandroid/RNOneSignal.java:500-521 | for a handler that accepts any number of events (the intended behaviour), a handler set and ready before any event buffers nothing and receives every event directly, once, in order |
| ColdStart.SecondDirectEventThrows | android/src/main/java/com/geektime/rnonesignalandroid/RNOneSignal.java:95-98 | as written with a single-use bridge Callback: after the first direct event reaches callback c, the second one would invoke c again, so the trace throws, though it is fine without the single-use rule |
| ColdStart.OneShotInvokesEachOnce | android/src/main/java/com/geektime/rnonesignalandroid/RNOneSignal.java:446-453 | as written: in every trace that does not throw under the single-use rule, no callback is invoked twice |
| TagSlot.AtMostOncePerRequest | android/src/main/java/com/geektime/rnonesignalandroid/RNOneSignal.java:168-182 | over any trace, however often the SDK reports tags: deliveries plus a still-pending callback never outnumber the `getTags` calls, and every stored or invoked callback came from a `getTags` call |
| TagSlot.DistinctRequestsInvokedOnce | android/src/main/java/com/geektime/rnonesignalandroid/RNOneSignal.java:95-98 | the single-invocation rule for the slot: when each `getTags` call passes its own callback, no callback is invoked twice, whatever the SDK reports, and a callback still pending has not been invoked yet |
| TagSlot.SecondResultDeliversNothing | android/src/main/java/com/geektime/rnonesignalandroid/RNOneSignal.java:175-180 | one `getTags` call and two results invoke the callback once, with the first tags; the second result finds the slot empty and delivers nothing |
| TagSlot.LaterCallbackDropped | android/src/main/java/com/geektime/rnonesignalandroid/RNOneSignal.java:170-171 | a callback passed while another is pending is never invoked: with two `getTags` calls and two results, only the first callback is invoked, with the first tags |
| Bridge.RNOneSignal.constructor | android/src/main/java/com/geektime/rnonesignalandroid/RNOneSignal.java:84-102 | a new module has every flag false and every slot and buffer empty, and satisfies the invariant |
| Bridge.RNOneSignal.Init | android/src/main/java/com/geektime/rnonesignalandroid/RNOneSignal.java:133-156 | the latch is set; the first call initialises the SDK with the activity or else the application context; a later call changes nothing; the first call waits for consent exactly when consent is required, and otherwise keeps the flag |
| Bridge.RNOneSignal.GetTags | android/src/main/java/com/geektime/rnonesignalandroid/RNOneSignal.java:168-173 | the callback is stored only when the slot is empty; a pending one is kept |
| Bridge.RNOneSignal.TagsAvailable | android/src/main/java/com/geektime/rnonesignalandroid/RNOneSignal.java:175-180 | for any result, including a repeated one: the pending callback, if any, is invoked once with the tags; the slot is empty afterwards; with no pending callback nothing is invoked |
| Bridge.RNOneSignal.GetUserDevice | android/src/main/java/com/geektime/rnonesignalandroid/RNOneSignal.java:184-188 | the callback is stored only when the slot is empty; a stored callback is never cleared |
| Bridge.RNOneSignal.PostNotification | android/src/main/java/com/geektime/rnonesignalandroid/RNOneSignal.java:332-379 | the notification `Build` describes is handed to the SDK once; nothing is handed over when a JSONException is caught |
| Bridge.RNOneSignal.SetNotificationOpenedHandler | android/src/main/java/com/geektime/rnonesignalandroid/RNOneSignal.java:432-435 | the stored callback is replaced; nothing else changes |
| Bridge.RNOneSignal.InitNotificationOpenedHandlerParams | android/src/main/java/com/geektime/rnonesignalandroid/RNOneSignal.java:437-444 | the handler becomes ready; the buffered notification, if any, is delivered once to the stored callback; the buffer is empty afterwards; with nothing buffered nothing is delivered |
| Bridge.RNOneSignal.NotificationOpened | android/src/main/java/com/geektime/rnonesignalandroid/RNOneSignal.java:446-453 | before ready, the notification replaces the buffered one and nothing is delivered; once ready, it is delivered directly to the stored callback, which must not have been invoked before, and the buffer is untouched |
| Bridge.RNOneSignal.SetInAppMessageClickHandler | android/src/main/java/com/geektime/rnonesignalandroid/RNOneSignal.java:500-503 | the stored callback is replaced; nothing else changes |
| Bridge.RNOneSignal.InitInAppMessageClickHandlerParams | android/src/main/java/com/geektime/rnonesignalandroid/RNOneSignal.java:505-512 | the handler becomes ready; the buffered click, if any, is delivered once to the stored callback; the buffer is empty afterwards; with nothing buffered nothing is delivered |
| Bridge.RNOneSignal.InAppMessageClicked | android/src/main/java/com/geektime/rnonesignalandroid/RNOneSignal.java:514-521 | before ready, the click replaces the buffered one and nothing is delivered; once ready, it is delivered directly to the stored callback, which must not have been invoked before, and the buffer is untouched |

## Left out

- The SDK forwarders are not modelled. These include `sendTag(s)`, `deleteTag`, `enableVibrate`, `enableSound`, `setSubscription`, `promptLocation`, `syncHashedEmail`, `setLogLevel`, `setLocationShared`, `inFocusDisplaying`, `clearOneSignalNotifications`, `cancelNotification`, the privacy-consent setters and getter, `setExternalUserId`, `removeExternalUserId`, `setEmail`, `logoutEmail`, the trigger operations, `pauseInAppMessages` and the `sendOutcome*` family. They only call into the SDK and keep no state of their own. (`sendOutcomeWithValue` also carries a float.)
- Event emission is not modelled: `sendEvent`, `idsAvailable`, `notificationReceived` and `setNotificationWillShowInForegroundHandler`. Neither are `getPermissionSubscriptionState`, which only copies SDK getters into a map, manifest reading, or logging. The RNUtils conversions between bridge maps and JSON are not part of this model. Delivered events and tags are recorded as JSON objects.
- The constructor's call to a no-argument `init()`, and `onHostResume`'s call to `initOneSignal()`, refer to methods the file does not define. They are not modelled: the constructor only sets Java's field defaults.
- Bridge.RNOneSignal.GetUserDevice: only the slot is modelled. The device lookup and the callback invocation use an `OSDevice` type that the file does not import.
- Bridge.RNOneSignal.NotificationOpened: a delivery with no callback stored would throw a NullPointerException. A second invocation of the same single-use Callback would throw too. A precondition rules out both cases instead of modelling the exceptions, so the model does not say what happens after such an exception.
- Bridge.RNOneSignal.InAppMessageClicked: the same two preconditions as NotificationOpened, for the same reason.
- Bridge.RNOneSignal.InitNotificationOpenedHandlerParams: requires a stored callback when an event is buffered (NullPointerException otherwise). The same holds for InitInAppMessageClickHandlerParams. Their one invocation is always the callback's first, so the single-use rule is proved rather than required.
- ColdStart.RunDeliversExpected: proved for a handler that accepts any number of events, the intended behaviour. With the source's single-use Callback, a trace with a second direct event throws instead (ColdStart.SecondDirectEventThrows).
- ColdStart.ReadyFirstDeliversAll: same as RunDeliversExpected. With a single-use Callback, only the first direct event gets through.
- Concurrency is not modelled. SDK callback threads and bridge calls are treated as one sequence of calls.
- JSON text parsing is a parameter, not a model. Numbers are integers, and objects are maps, so the insertion order of org.json's objects is not kept. The merge loop is proved for every iteration order.
- A null `contents` argument is not modelled: `new JSONObject(null)` throws a NullPointerException, which the catch does not handle.
- Case-insensitive comparison is modelled only against the lower-case words "true" and "false". That covers ASCII letters and U+017F, whose upper case is 'S'. It is not a general Unicode case fold.

## Findings

| source | as written | input that shows it | evidently intended | confidence | as-written member | corrected member |
|---|---|---|---|---|---|---|
| android/src/main/java/com/geektime/rnonesignalandroid/RNOneSignal.java:452 | once the handler is ready, every opened notification invokes the same stored bridge Callback, which may be invoked once only (lines 95-98) | `setNotificationOpenedHandler(c)`, `initNotificationOpenedHandlerParams()`, then two notifications opened: the second invokes `c` again and throws | every notification opened after the handler is ready reaches the application | medium, not executed | ColdStart.SecondDirectEventThrows | ColdStart.RunDeliversExpected |
| android/src/main/java/com/geektime/rnonesignalandroid/RNOneSignal.java:520 | once the handler is ready, every in-app message click invokes the same stored bridge Callback, which may be invoked once only (lines 95-98) | `setInAppMessageClickHandler(c)`, `initInAppMessageClickHandlerParams()`, then two clicks: the second invokes `c` again and throws | every click after the handler is ready reaches the application | medium, not executed | ColdStart.SecondDirectEventThrows | ColdStart.ReadyFirstDeliversAll |
