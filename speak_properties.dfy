/** Properties of the `POST /api/speak` decision path: the eight table rows,
    which strings the table tells apart, the precedence of an explicit voice
    name, the order of the early exits, the request that is built and the
    agreement of `Content-Length` with the audio. */
module SpeakProperties {
  import opened Wrappers
  import opened Speak
  import Decimal

  // ---------------------------------------------------------------------
  // Premium-voice flag
  // ---------------------------------------------------------------------

  /** The flag is on when the variable is unset and for every value other
      than exactly "false" (so "False", "0" and "" leave it on). */
  lemma WavenetOnUnlessLiteralFalse(env: Option<string>)
    ensures WavenetEnabled(None)
    ensures !WavenetEnabled(Some("false"))
    ensures WavenetEnabled(env) <==> (env.None? || env.value != "false")
  {
  }

  // ---------------------------------------------------------------------
  // Voice-resolution table
  // ---------------------------------------------------------------------

  /** The table picks exactly the entry of `VoiceTable` for the row given
      by the flag, "is the language en-IN" and "is the gender FEMALE". */
  lemma ResolveVoiceMatchesTable(languageCode: string, gender: string, wavenet: bool)
    ensures (wavenet, languageCode == "en-IN", gender == "FEMALE") in VoiceTable()
    ensures ResolveVoice(languageCode, gender, wavenet)
         == VoiceTable()[(wavenet, languageCode == "en-IN", gender == "FEMALE")]
  {
  }

  /** Only the exact strings "en-IN" and "FEMALE" matter: any other language
      resolves like "en-US" and any other gender (such as "MALE", "NEUTRAL"
      or "xyz") resolves like "MALE". */
  lemma ResolveVoiceOnlyExactStrings(languageCode: string, gender: string, wavenet: bool)
    ensures ResolveVoice(languageCode, gender, wavenet)
         == ResolveVoice(if languageCode == "en-IN" then "en-IN" else "en-US",
                         if gender == "FEMALE" then "FEMALE" else "MALE",
                         wavenet)
  {
  }

  /** Different rows of the table give different voices, so the voice name
      alone tells which row was taken. */
  lemma ResolveVoiceRowsDistinct(l1: string, g1: string, w1: bool, l2: string, g2: string, w2: bool)
    requires ResolveVoice(l1, g1, w1) == ResolveVoice(l2, g2, w2)
    ensures w1 == w2
    ensures (l1 == "en-IN") == (l2 == "en-IN")
    ensures (g1 == "FEMALE") == (g2 == "FEMALE")
  {
  }

  /** The table reaches every one of the eight names. */
  lemma ResolveVoiceCoversAllNames(name: string)
    requires name in VoiceNames()
    ensures exists l: string, g: string, w: bool :: ResolveVoice(l, g, w) == name
  {
    if name == "en-IN-Wavenet-D" {
      assert ResolveVoice("en-IN", "FEMALE", true) == name;
    } else if name == "en-IN-Wavenet-C" {
      assert ResolveVoice("en-IN", "MALE", true) == name;
    } else if name == "en-US-Wavenet-F" {
      assert ResolveVoice("en-US", "FEMALE", true) == name;
    } else if name == "en-US-Wavenet-D" {
      assert ResolveVoice("en-US", "MALE", true) == name;
    } else if name == "en-IN-Standard-D" {
      assert ResolveVoice("en-IN", "FEMALE", false) == name;
    } else if name == "en-IN-Standard-C" {
      assert ResolveVoice("en-IN", "MALE", false) == name;
    } else if name == "en-US-Standard-E" {
      assert ResolveVoice("en-US", "FEMALE", false) == name;
    } else {
      assert ResolveVoice("en-US", "MALE", false) == name;
    }
  }

  // ---------------------------------------------------------------------
  // Early exits, in their order
  // ---------------------------------------------------------------------

  /** A body whose text is absent or empty gets 400 with the fixed message
      and no request is built; a truthy text never gets 400. */
  lemma MissingTextIsBadRequest(body: Body, clientPresent: bool, env: Option<string>, remote: RemoteResult)
    ensures !Truthy(body.text) ==> Handle(body, clientPresent, env, remote) == Handled(None, BadRequest(MissingTextMessage))
    ensures Handle(body, clientPresent, env, remote).outcome.BadRequest? <==> !Truthy(body.text)
  {
  }

  /** With a truthy text and no client, the answer is 500 with the fixed
      message and no request is built. */
  lemma AbsentClientIsServerError(body: Body, env: Option<string>, remote: RemoteResult)
    requires Truthy(body.text)
    ensures Handle(body, false, env, remote) == Handled(None, ServerError(ClientMissingMessage))
    ensures StatusCode(Handle(body, false, env, remote).outcome) == 500
  {
  }

  /** The text check comes first: with no text and no client the answer is
      the 400, not the 500. */
  lemma TextCheckPrecedesClientCheck(body: Body, env: Option<string>, remote: RemoteResult)
    requires !Truthy(body.text)
    ensures StatusCode(Handle(body, false, env, remote).outcome) == 400
  {
  }

  /** On both early exits the remote call is not made: the result does not
      depend on what the call would have returned. */
  lemma EarlyExitsMakeNoRemoteCall(body: Body, clientPresent: bool, env: Option<string>, r1: RemoteResult, r2: RemoteResult)
    requires !(Truthy(body.text) && clientPresent)
    ensures Handle(body, clientPresent, env, r1) == Handle(body, clientPresent, env, r2)
    ensures Handle(body, clientPresent, env, r1).request.None?
  {
  }

  // ---------------------------------------------------------------------
  // The synthesis request
  // ---------------------------------------------------------------------

  /** The request carries the original text, the defaulted language, the
      gender string verbatim, the chosen voice and MP3 encoding; the voice is
      the body's own name when truthy and the table's entry otherwise. */
  lemma BuiltRequestFields(body: Body, env: Option<string>, remote: RemoteResult)
    requires Truthy(body.text)
    ensures var h := Handle(body, true, env, remote);
      var languageCode := if body.languageCode.Some? then body.languageCode.value else "en-US";
      var gender := if body.gender.Some? then body.gender.value else "NEUTRAL";
      && h.request.Some?
      && h.request.value.text == body.text.value
      && h.request.value.languageCode == languageCode
      && h.request.value.ssmlGender == gender
      && h.request.value.audioEncoding == "MP3"
      && h.request.value.name
         == if Truthy(body.voiceName) then body.voiceName.value
            else VoiceTable()[(WavenetEnabled(env), languageCode == "en-IN", gender == "FEMALE")]
  {
  }

  /** A non-empty voice name in the body goes into the request unchanged,
      whatever the language, the gender and the flag. */
  lemma ExplicitVoicePassesThrough(body: Body, env: Option<string>, remote: RemoteResult)
    requires Truthy(body.text) && Truthy(body.voiceName)
    ensures Handle(body, true, env, remote).request.Some?
    ensures Handle(body, true, env, remote).request.value.name == body.voiceName.value
  {
  }

  /** An empty voice name is falsy, so the table is consulted as if the
      field were absent. */
  lemma EmptyVoiceNameUsesTable(body: Body, env: Option<string>, remote: RemoteResult)
    requires Truthy(body.text) && body.voiceName == Some("")
    ensures Handle(body, true, env, remote) == Handle(body.(voiceName := None), true, env, remote)
  {
  }

  /** With only a text in the body and the flag on, the language defaults to
      "en-US", the gender to "NEUTRAL", and the voice is "en-US-Wavenet-D". */
  lemma DefaultsGiveUsWavenetD(t: string, env: Option<string>, remote: RemoteResult)
    requires t != "" && WavenetEnabled(env)
    ensures var h := Handle(Body(Some(t), None, None, None), true, env, remote);
      h.request == Some(SynthRequest(t, "en-US", "NEUTRAL", "en-US-Wavenet-D", "MP3"))
  {
  }

  // ---------------------------------------------------------------------
  // The response
  // ---------------------------------------------------------------------

  /** A request that reaches the remote call gets 200 with `audio/mpeg` and
      a `Content-Length` that reads back as the exact byte count when the
      call succeeds, and 500 with the error message appended when it fails. */
  lemma ResponseFollowsRemoteResult(body: Body, env: Option<string>, remote: RemoteResult)
    requires Truthy(body.text)
    ensures var o := Handle(body, true, env, remote).outcome;
      && (remote.Ok? ==> StatusCode(o) == 200 && o.bytes == remote.audio
                         && o.contentType == "audio/mpeg"
                         && Decimal.Parse(o.contentLength) == Some(|o.bytes|))
      && (remote.Err? ==> o == ServerError("Error generating speech: " + remote.message))
  {
  }

  /** The handler answers 200 exactly when the text is truthy, the client is
      present and the remote call succeeds; 400 exactly when the text is
      falsy; and 500 exactly when the text is truthy but the client is
      missing or the remote call fails. */
  lemma SuccessExactly(body: Body, clientPresent: bool, env: Option<string>, remote: RemoteResult)
    ensures StatusCode(Handle(body, clientPresent, env, remote).outcome) == 200
        <==> Truthy(body.text) && clientPresent && remote.Ok?
    ensures StatusCode(Handle(body, clientPresent, env, remote).outcome) == 400
        <==> !Truthy(body.text)
    ensures StatusCode(Handle(body, clientPresent, env, remote).outcome) == 500
        <==> Truthy(body.text) && (!clientPresent || remote.Err?)
  {
  }

  /** Every audio response's `Content-Length` is the canonical numeral of its
      byte count, so two responses of different lengths never share one. */
  lemma ContentLengthDeterminesSize(h1: Handled, h2: Handled, b1: Body, b2: Body,
                                    e1: Option<string>, e2: Option<string>, r1: RemoteResult, r2: RemoteResult)
    requires h1 == Handle(b1, true, e1, r1) && h2 == Handle(b2, true, e2, r2)
    requires h1.outcome.Audio? && h2.outcome.Audio?
    requires h1.outcome.contentLength == h2.outcome.contentLength
    ensures |h1.outcome.bytes| == |h2.outcome.bytes|
  {
  }

  // ---------------------------------------------------------------------
  // Worked scenarios
  // ---------------------------------------------------------------------

  /** `{"text":"Hello"}`, flag on, call succeeds: voice "en-US-Wavenet-D",
      200 with the audio. */
  lemma ScenarioHelloDefaults(audio: seq<byte>)
    ensures var h := Handle(Body(Some("Hello"), None, None, None), true, None, Ok(audio));
      && h.request.Some? && h.request.value.name == "en-US-Wavenet-D"
      && StatusCode(h.outcome) == 200 && h.outcome.bytes == audio
  {
  }

  /** `{"text":"Hello","languageCode":"en-IN","gender":"FEMALE"}` with
      `ENABLE_WAVENET=false`: voice "en-IN-Standard-D". */
  lemma ScenarioIndianFemaleStandard(remote: RemoteResult)
    ensures var h := Handle(Body(Some("Hello"), Some("en-IN"), Some("FEMALE"), None), true, Some("false"), remote);
      h.request.Some? && h.request.value.name == "en-IN-Standard-D"
  {
  }

  /** `{}`: 400 with `Missing "text" in request body.`. */
  lemma ScenarioEmptyBody(clientPresent: bool, env: Option<string>, remote: RemoteResult)
    ensures Handle(Body(None, None, None, None), clientPresent, env, remote).outcome
         == BadRequest("Missing \"text\" in request body.")
  {
  }

  /** No client, `{"text":"Hi"}`: 500 with the initialisation message. */
  lemma ScenarioNoClient(env: Option<string>, remote: RemoteResult)
    ensures Handle(Body(Some("Hi"), None, None, None), false, env, remote).outcome
         == ServerError("TTS Client not initialized. Check server logs.")
  {
  }

  /** The call fails with "Quota exceeded": 500 with
      `Error generating speech: Quota exceeded`. */
  lemma ScenarioQuotaExceeded(env: Option<string>)
    ensures Handle(Body(Some("Hi"), None, None, None), true, env, Err("Quota exceeded")).outcome
         == ServerError("Error generating speech: Quota exceeded")
  {
  }
}
