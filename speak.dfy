/** The decision path of the `POST /api/speak` handler: default the body's
    optional fields, reject a missing text, derive the premium-voice flag
    from the environment, pick a voice name when none was given, refuse
    when the synthesis client was never initialised, build the synthesis
    request, and turn the remote call's result into the response.

    The remote synthesis call is not modelled; its result is an input
    (`RemoteResult`). The client handle, set once at start-up, is a
    boolean "present" input. */
module Speak {
  import opened Wrappers
  import Decimal

  newtype byte = x: int | 0 <= x < 256

  /** The JSON body. A field the client left out is `None`. */
  datatype Body = Body(
    text: Option<string>,
    languageCode: Option<string>,
    gender: Option<string>,
    voiceName: Option<string>)

  /** The request sent to the synthesis provider: the input text, the voice
      (language, SSML gender, name) and the audio configuration. */
  datatype SynthRequest = SynthRequest(
    text: string,
    languageCode: string,
    ssmlGender: string,
    name: string,
    audioEncoding: string)

  /** What the remote synthesis call returned: the audio bytes, or the
      message of the error it threw. */
  datatype RemoteResult = Ok(audio: seq<byte>) | Err(message: string)

  /** The response the handler writes. `Audio` carries the body and the two
      header values, `Content-Type` and `Content-Length`, as text. */
  datatype Outcome =
    | BadRequest(message: string)
    | ServerError(message: string)
    | Audio(bytes: seq<byte>, contentType: string, contentLength: string)

  /** The request built (if the handler got that far) and the response. */
  datatype Handled = Handled(request: Option<SynthRequest>, outcome: Outcome)

  const DefaultLanguageCode := "en-US"
  const DefaultGender := "NEUTRAL"
  const MissingTextMessage := "Missing \"text\" in request body."
  const ClientMissingMessage := "TTS Client not initialized. Check server logs."
  const SpeechErrorPrefix := "Error generating speech: "
  const AudioEncoding := "MP3"
  const AudioContentType := "audio/mpeg"

  /** The HTTP status a response is sent with. */
  function StatusCode(o: Outcome): nat {
    match o
    case BadRequest(_) => 400
    case ServerError(_) => 500
    case Audio(_, _, _) => 200
  }

  /** JavaScript truthiness of an optional string field: it is falsy when
      absent and when it is the empty string. */
  predicate Truthy(field: Option<string>) {
    field.Some? && field.value != ""
  }

  /** Default destructuring: the default replaces only a field that is
      absent, so an explicit empty string is kept. */
  function WithDefault(field: Option<string>, default: string): (r: string)
    ensures field.None? ==> r == default
    ensures field.Some? ==> r == field.value
  {
    field.GetOr(default)
  }

  /** The premium-voice flag, read from `ENABLE_WAVENET` on each request:
      on unless the variable holds exactly "false". */
  function WavenetEnabled(env: Option<string>): bool {
    env != Some("false")
  }

  /** The voice name the table picks when the body names none. Only the
      exact language "en-IN" and the exact gender "FEMALE" are told apart;
      every other value takes the US or the non-female column. */
  function ResolveVoice(languageCode: string, gender: string, wavenet: bool): (name: string)
    ensures name in VoiceNames()
    ensures name[..6] == if languageCode == "en-IN" then "en-IN-" else "en-US-"
  {
    VoiceNamesListed();
    var isIndian := languageCode == "en-IN";
    var isFemale := gender == "FEMALE";
    if wavenet then
      if isIndian then
        (if isFemale then "en-IN-Wavenet-D" else "en-IN-Wavenet-C")
      else
        (if isFemale then "en-US-Wavenet-F" else "en-US-Wavenet-D")
    else
      if isIndian then
        (if isFemale then "en-IN-Standard-D" else "en-IN-Standard-C")
      else
        (if isFemale then "en-US-Standard-E" else "en-US-Standard-D")
  }

  /** The eight voice names the table can produce. */
  function VoiceNames(): set<string> {
    VoiceTable().Values
  }

  /** The table's values are exactly the eight names. */
  lemma VoiceNamesListed()
    ensures VoiceNames() == { "en-IN-Wavenet-D", "en-IN-Wavenet-C", "en-US-Wavenet-F", "en-US-Wavenet-D",
                              "en-IN-Standard-D", "en-IN-Standard-C", "en-US-Standard-E", "en-US-Standard-D" }
  {
    var t := VoiceTable();
    assert t[(true, true, true)] == "en-IN-Wavenet-D";
    assert t[(true, true, false)] == "en-IN-Wavenet-C";
    assert t[(true, false, true)] == "en-US-Wavenet-F";
    assert t[(true, false, false)] == "en-US-Wavenet-D";
    assert t[(false, true, true)] == "en-IN-Standard-D";
    assert t[(false, true, false)] == "en-IN-Standard-C";
    assert t[(false, false, true)] == "en-US-Standard-E";
    assert t[(false, false, false)] == "en-US-Standard-D";
  }

  /** The voice-selection table written as data, one entry per row, keyed by
      (premium flag, Indian English, female). */
  function VoiceTable(): map<(bool, bool, bool), string> {
    map[
      (true, true, true) := "en-IN-Wavenet-D",
      (true, true, false) := "en-IN-Wavenet-C",
      (true, false, true) := "en-US-Wavenet-F",
      (true, false, false) := "en-US-Wavenet-D",
      (false, true, true) := "en-IN-Standard-D",
      (false, true, false) := "en-IN-Standard-C",
      (false, false, true) := "en-US-Standard-E",
      (false, false, false) := "en-US-Standard-D"
    ]
  }

  /** The voice name that goes into the request: the body's own name when it
      is truthy, the table's otherwise. */
  function ChooseVoice(voiceName: Option<string>, languageCode: string, gender: string, wavenet: bool): (name: string)
    ensures Truthy(voiceName) ==> name == voiceName.value
    ensures !Truthy(voiceName) ==> name in VoiceNames()
    ensures !Truthy(voiceName) ==> name == VoiceTable()[(wavenet, languageCode == "en-IN", gender == "FEMALE")]
  {
    if Truthy(voiceName) then voiceName.value
    else ResolveVoice(languageCode, gender, wavenet)
  }

  /** The response to a remote call's result. */
  function Respond(remote: RemoteResult): (o: Outcome)
    ensures remote.Ok? ==> o.Audio? && o.bytes == remote.audio && o.contentType == AudioContentType
    ensures remote.Ok? ==> Decimal.Parse(o.contentLength) == Some(|remote.audio|)
    ensures remote.Err? ==> o == ServerError(SpeechErrorPrefix + remote.message)
  {
    match remote
    case Ok(audio) =>
      Decimal.ParseRender(|audio|);
      Audio(audio, AudioContentType, Decimal.Render(|audio|))
    case Err(message) => ServerError(SpeechErrorPrefix + message)
  }

  /** The whole handler. `clientPresent` says whether the start-up code
      produced a client; `env` is `ENABLE_WAVENET`; `remote` is what the
      synthesis call would return if it were made. */
  function Handle(body: Body, clientPresent: bool, env: Option<string>, remote: RemoteResult): (h: Handled)
    ensures h.request.Some? <==> Truthy(body.text) && clientPresent
    ensures h.request.Some? ==> h.outcome == Respond(remote)
  {
    var languageCode := WithDefault(body.languageCode, DefaultLanguageCode);
    var gender := WithDefault(body.gender, DefaultGender);
    if !Truthy(body.text) then
      Handled(None, BadRequest(MissingTextMessage))
    else
      var wavenet := WavenetEnabled(env);
      var voiceName := ChooseVoice(body.voiceName, languageCode, gender, wavenet);
      if !clientPresent then
        Handled(None, ServerError(ClientMissingMessage))
      else
        var request := SynthRequest(body.text.value, languageCode, gender, voiceName, AudioEncoding);
        Handled(Some(request), Respond(remote))
  }
}
