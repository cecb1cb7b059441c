# Google TTS backend: the `POST /api/speak` decision path

This project models the request handler of a small Express service. The
service forwards text to Google Cloud Text-to-Speech and returns the MP3
audio. The handler does the following, in order:

1. It reads `text`, `languageCode` (default `"en-US"`), `gender` (default
   `"NEUTRAL"`) and `voiceName` from the JSON body.
2. If `text` is falsy, it answers 400 with `Missing "text" in request body.`.
3. It reads the premium-voice flag `ENABLE_WAVENET` from the environment. The
   flag is on unless the variable is exactly `"false"`.
4. If `voiceName` is falsy, it picks a name from an eight-row table keyed by
   the flag, "language is `en-IN`" and "gender is `FEMALE`".
5. If the start-up code produced no client, it answers 500 with
   `TTS Client not initialized. Check server logs.`.
6. It builds the synthesis request and calls the provider.
7. On success it answers with the audio, `Content-Type: audio/mpeg` and a
   `Content-Length` equal to the byte count. On failure it answers 500 with
   `Error generating speech: ` followed by the error message.

The model has three modules:

- `Wrappers` holds the `Option` type. It stands for a body field the client
  left out and for an unset environment variable.
- `Speak` holds the data model and the decision path. `Handle` is the whole
  handler. It returns the request it built, if any, together with the
  response. The handler's inputs are modelled as parameters: the body, whether
  a client exists, the value of `ENABLE_WAVENET`, and the remote call's result.
- `Decimal` models how the `Content-Length` value is written as text.
  Express writes header values with JavaScript's `String`, so the byte count
  goes out as a decimal numeral. The module proves that reading the numeral
  gives back the count, and that the values the header can take are exactly
  the well-formed numerals.

`SpeakProperties` holds the lemmas: the table rows, which strings the table
tells apart, the precedence of an explicit voice name, the order of the early
exits, the fields of the built request, the response, and the worked
scenarios.

Three details of the code shape the model:

- `gender` is any string (index.js:42, 54). It is passed verbatim as
  `ssmlGender`, and only the exact value `"FEMALE"` selects the female column.
- A default replaces only an absent field (index.js:42). This is how JavaScript default
  destructuring works. An explicit `"languageCode": ""` stays `""` and then
  resolves in the US column.
- `ENABLE_WAVENET` is read inside the handler, on every request (index.js:49). The model
  therefore takes it as a parameter of `Handle`.

## Model

| member | source | states |
|---|---|---|
| `Speak.WithDefault` | index.js:42 | An absent field becomes the default. A present field, the empty string included, is kept as given. |
| `SpeakProperties.WavenetOnUnlessLiteralFalse` | index.js:49 | The premium flag is on when the variable is unset and for every value except exactly `"false"`. |
| `Speak.ResolveVoice` | index.js:53-70 | The chosen name is always one of the eight table names. Its prefix is `en-IN-` exactly when the language is `"en-IN"`, and `en-US-` otherwise. |
| `SpeakProperties.ResolveVoiceMatchesTable` | index.js:56-70 | For every language, gender and flag, the chosen name is the table entry for the row (flag, language is `"en-IN"`, gender is `"FEMALE"`). |
| `SpeakProperties.ResolveVoiceOnlyExactStrings` | index.js:53-54 | Any language other than `"en-IN"` resolves like `"en-US"`. Any gender other than `"FEMALE"` resolves like `"MALE"`. |
| `SpeakProperties.ResolveVoiceRowsDistinct` | index.js:56-70 | Two inputs that give the same voice name fall in the same table row, so the eight rows give eight distinct names. |
| `Speak.VoiceNamesListed` | index.js:56-70 | The table's values are exactly the eight voice names. |
| `SpeakProperties.ResolveVoiceCoversAllNames` | index.js:56-70 | Every one of the eight names is produced by some input. |
| `Speak.ChooseVoice` | index.js:52-71 | A truthy body `voiceName` is used unchanged. A falsy one (absent or `""`) is replaced by the table entry for the row (flag, language is `"en-IN"`, gender is `"FEMALE"`). |
| `Speak.Respond` | index.js:90-104 | On success the response carries the same bytes, `audio/mpeg`, and a `Content-Length` that reads back as the byte count. On failure it is 500 with `Error generating speech: ` followed by the message. |
| `Speak.Handle` | index.js:42-104 | A request is built exactly when the text is truthy and the client exists. When it is built, the response is the one the remote result determines. |
| `SpeakProperties.MissingTextIsBadRequest` | index.js:44-46 | An absent or empty `text` gives 400 with the fixed message and no request. A truthy `text` never gives 400. |
| `SpeakProperties.AbsentClientIsServerError` | index.js:73-75 | With a truthy text and no client, the answer is 500 with the fixed initialisation message and no request. |
| `SpeakProperties.TextCheckPrecedesClientCheck` | index.js:44-75 | With no text and no client, the answer is 400, because the text check runs first. |
| `SpeakProperties.EarlyExitsMakeNoRemoteCall` | index.js:44-90 | On both early exits no request is built, and the answer does not depend on the remote result. |
| `SpeakProperties.BuiltRequestFields` | index.js:77-88 | The request carries the original text, the defaulted language, the gender verbatim as `ssmlGender`, and `MP3`. Its voice name is the body's truthy name, or else the table entry. |
| `SpeakProperties.ExplicitVoicePassesThrough` | index.js:52-85 | A non-empty body `voiceName` is the request's voice name, whatever the language, gender and flag. |
| `SpeakProperties.EmptyVoiceNameUsesTable` | index.js:52 | A `voiceName` of `""` gives the same result as an absent one. |
| `SpeakProperties.DefaultsGiveUsWavenetD` | index.js:42-61 | A body holding only a non-empty text, with the flag on, gives the request (text, `en-US`, `NEUTRAL`, `en-US-Wavenet-D`, `MP3`). |
| `SpeakProperties.ResponseFollowsRemoteResult` | index.js:90-104 | Once the request is built, success gives 200 with the bytes, `audio/mpeg` and a matching `Content-Length`. Failure gives 500 with the message appended. |
| `SpeakProperties.SuccessExactly` | index.js:44-104 | The status is 200 exactly when the text is truthy, the client exists and the call succeeds; 400 exactly when the text is falsy; 500 exactly when the text is truthy and the client is missing or the call fails. |
| `SpeakProperties.ContentLengthDeterminesSize` | index.js:95-98 | Two audio responses with the same `Content-Length` carry the same number of bytes. |
| `Decimal.Render` | index.js:97 | The header value is a well-formed decimal numeral: digits only, no leading zero. It is a single digit exactly when the count is below 10, and it starts with `0` only when the count is 0. |
| `Decimal.Parse` | index.js:97 | Reading succeeds exactly on a non-empty string of digits. |
| `Decimal.ParseRender` | index.js:97 | Reading the rendered `Content-Length` gives back the byte count. |
| `Decimal.RenderParse` | index.js:97 | Every well-formed numeral is the rendering of the number it reads as. |
| `Decimal.RenderInjective` | index.js:97 | Different byte counts give different `Content-Length` values. |
| `SpeakProperties.ScenarioHelloDefaults` | index.js:42-100 | `{"text":"Hello"}` with the flag unset and a successful call gives voice `en-US-Wavenet-D` and 200 with the audio. |
| `SpeakProperties.ScenarioIndianFemaleStandard` | index.js:49-66 | `{"text":"Hello","languageCode":"en-IN","gender":"FEMALE"}` with `ENABLE_WAVENET=false` gives voice `en-IN-Standard-D`. |
| `SpeakProperties.ScenarioEmptyBody` | index.js:42-46 | `{}` gives 400 with `Missing "text" in request body.`. |
| `SpeakProperties.ScenarioNoClient` | index.js:73-75 | With no client, `{"text":"Hi"}` gives 500 with `TTS Client not initialized. Check server logs.`. |
| `SpeakProperties.ScenarioQuotaExceeded` | index.js:102-104 | A call failing with `Quota exceeded` gives 500 with `Error generating speech: Quota exceeded`. |

## Left out

- Express set-up, CORS, JSON body parsing, `app.listen`, the `GET /` banner and the module export (index.js:1-11, 36-38, 108-115): these are framework and hosting plumbing with no decision in them.
- Credential start-up (index.js:17-34): parsing `GOOGLE_CREDENTIALS_JSON` and constructing the `TextToSpeechClient` are SDK calls. Their only effect on the handler is whether a client exists, which is the `clientPresent` parameter of `Handle`.
- The `synthesizeSpeech` call (index.js:90): it is a remote call and an `await` point. Its result is the `RemoteResult` input, either the audio bytes or the thrown error's message.
- Console logging (index.js:26, 30, 33, 103): it is a side effect with no effect on the response.
- Full JavaScript falsiness: `text` and `voiceName` are modelled as optional strings, so absent and `""` are the only falsy values. Non-string values such as `0`, `false` or `null` are not modelled, and neither is a `null` language or gender (which default destructuring would keep as `null`).
- Other faults inside the `try` block: a response with no `audioContent`, or an error with no `message`, would also reach the 500 branch. The model covers only faults of the remote call, which carry a message string.
- The content type that Express sets on the plain-text 400 and 500 answers: the model records only the status code (`Speak.StatusCode`) and the message text.
