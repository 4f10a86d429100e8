/**
  The stage-status request executor of the GoCD notification plugin.

  `SendNotification` models `sendNotification()`: the settings gate, the
  "failed" classification of the stage state, the formatting of the title,
  the link to the run and the JSON body of the webhook, and the hand-over of
  that body to the HTTP client. `Execute` models `execute()`: whatever
  `sendNotification()` did becomes a status object with code 200.

  The network is not modelled: the request the executor builds is returned as
  a `Post` value, and the HTTP client's answer is an input (`Transport`).
 */
module StageStatusRequestExecutor {

  import opened Wrappers
  import opened JavaString

  // ---------------------------------------------------------------- inputs

  /** The plugin settings; each field may be null. */
  datatype PluginSettings = PluginSettings(
    apiUrl: Option<string>,
    apiUser: Option<string>,
    goServerUrl: Option<string>)

  /** The stage inside a stage-status request; every field may be null. */
  datatype Stage = Stage(name: Option<string>, counter: Option<string>, state: Option<string>)

  /** The pipeline of a stage-status request; the stage may be null. */
  datatype Pipeline = Pipeline(name: Option<string>, counter: Option<string>, stage: Option<Stage>)

  /** The stage-status request the host sends; the pipeline may be null. */
  datatype StageStatusRequest = StageStatusRequest(pipeline: Option<Pipeline>)

  /**
    What the HTTP client makes of the endpoint and of the request it is handed.
    Whether `apiUrl` is a well-formed URI is not modelled: `InvalidUrl` says so.
   */
  datatype Transport =
    | InvalidUrl(message: Option<string>) // `new HttpPost(apiUrl)` rejects the endpoint: no request is built
    | Delivered                           // the POST went through and its response was consumed
    | IoFailure                           // an IOException (connect, timeout, close, ...)
    | Fault(message: Option<string>)      // any other exception once the request is handed over

  // --------------------------------------------------------------- outputs

  /** The POST request the executor hands to the HTTP client. */
  datatype Post = Post(url: string, contentType: string, body: string)

  /** How `sendNotification()` ended: normally, or by throwing with a message (possibly null). */
  datatype SendOutcome = Completed | Threw(message: Option<string>)

  /** What one `sendNotification()` call did: the POST it attempted, if any, and how it ended. */
  datatype SendResult = SendResult(post: Option<Post>, outcome: SendOutcome)

  /** A value of the response map: the status string or the list of messages. */
  datatype JsonValue = JStr(s: string) | JList(items: seq<Option<string>>)

  /** The plugin API response: a code and the map that is serialised as its body. */
  datatype Response = Response(code: int, json: map<string, JsonValue>)

  // --------------------------------------------------------- the settings gate

  /** All three settings are non-null and non-empty. */
  predicate SettingsComplete(settings: PluginSettings)
  {
    !IsNullOrEmpty(settings.goServerUrl)
    && !IsNullOrEmpty(settings.apiUrl)
    && !IsNullOrEmpty(settings.apiUser)
  }

  /** The stage state, when the chain `pipeline.stage.state` has no null in it. */
  function StateOf(request: StageStatusRequest): Option<string>
  {
    match request.pipeline
    case None => None
    case Some(p) =>
      match p.stage
      case None => None
      case Some(st) => st.state
  }

  /** The state, lower-cased, contains `failed`. */
  predicate IsFailedState(state: string)
    ensures IsFailedState(state) ==> |state| >= 6
  {
    Contains(ToLowerAscii(state), "failed")
  }

  // ------------------------------------------------------------ formatting

  /** The fixed message appended to the sender in the `text` field. */
  const FixText: string := "Go to fix it please!"

  /** `text` field: `"<apiUser> - Go to fix it please!"`. */
  function Text(apiUser: string): string
  {
    apiUser + " - " + FixText
  }

  /** `Pipeline %s stage %s %s` with the pipeline name, stage name and state. */
  function Title(pipelineName: Option<string>, stageName: Option<string>, state: string): (r: string)
    ensures "Pipeline " <= r
    ensures |r| >= |state| && r[|r| - |state|..] == state
  {
    "Pipeline " + Show(pipelineName) + " stage " + Show(stageName) + " " + state
  }

  /** `%s/go/pipelines/%s/%s/%s/%s`: the link to the stage run on the Go server. */
  function MessageUrl(goServerUrl: string, p: Pipeline, st: Stage): (r: string)
    ensures goServerUrl + "/go/pipelines/" <= r
  {
    goServerUrl + "/go/pipelines/" + Show(p.name) + "/" + Show(p.counter)
    + "/" + Show(st.name) + "/" + Show(st.counter)
  }

  // The constant pieces of the body template, between the spliced values.
  const BodyHead: string := "{\n    \"msgtype\": \"link\",\n    \"link\": {\n        \"text\": \""
  const BeforeTitle: string := "\",\n        \"title\": \""
  const BeforePicUrl: string := "\",\n        \"picUrl\": \""
  const BeforeMessageUrl: string := "\",\n        \"messageUrl\": \""
  const BodyTail: string := "\"\n    }\n}"

  /** The link-type JSON body, values spliced in verbatim (no escaping), `picUrl` empty. */
  function Body(text: string, title: string, messageUrl: string): (r: string)
    ensures BodyHead <= r
    ensures |r| >= |BodyTail| && r[|r| - |BodyTail|..] == BodyTail
    ensures |r| == |BodyHead| + |text| + |BeforeTitle| + |title| + |BeforePicUrl|
                 + |BeforeMessageUrl| + |messageUrl| + |BodyTail|
  {
    BodyHead + text + BeforeTitle + title + BeforePicUrl + "" + BeforeMessageUrl + messageUrl + BodyTail
  }

  // ---------------------------------------------------------- sendNotification

  /**
    `sendNotification()`: returns without a request when a setting is missing
    (before the request is even looked at); throws the null-pointer message
    when the state cannot be reached; returns without a request when the state
    does not contain `failed`; throws without a request when the endpoint is
    not a URI; otherwise hands a JSON POST to the HTTP client, where an
    IOException is swallowed and any other exception escapes.
   */
  function SendNotification(settings: PluginSettings, request: StageStatusRequest,
                            nullMessage: Option<string>, transport: Transport): (r: SendResult)
    // a POST is attempted exactly when the settings are complete, the state says "failed"
    // and the endpoint is accepted as a URI
    ensures r.post.Some? <==>
      SettingsComplete(settings) && StateOf(request).Some? && IsFailedState(StateOf(request).value)
      && !transport.InvalidUrl?
    // the POST goes to the configured endpoint as JSON
    ensures r.post.Some? ==>
      settings.apiUrl == Some(r.post.value.url) && r.post.value.contentType == "application/json"
    // the body is the template filled with the sender's text, the title and the link, unescaped
    ensures r.post.Some? ==>
      var p := request.pipeline.value;
      var st := p.stage.value;
      r.post.value.body == Body(Text(settings.apiUser.value), Title(p.name, st.name, st.state.value),
                                MessageUrl(settings.goServerUrl.value, p, st))
    // missing settings: nothing is read from the request and nothing can fail
    ensures !SettingsComplete(settings) ==> r.outcome == Completed
    // an exception escapes only from a null on the path to the state, a rejected endpoint,
    // or a non-IO fault of the HTTP client; an IOException is swallowed
    ensures r.outcome.Threw? <==>
      SettingsComplete(settings)
      && (StateOf(request).None?
          || (IsFailedState(StateOf(request).value) && (transport.InvalidUrl? || transport.Fault?)))
    ensures r.outcome.Threw? && StateOf(request).None? ==> r.outcome.message == nullMessage
    ensures r.outcome.Threw? && StateOf(request).Some? ==> r.outcome.message == transport.message
  {
    if IsNullOrEmpty(settings.goServerUrl) || IsNullOrEmpty(settings.apiUrl) || IsNullOrEmpty(settings.apiUser) then
      SendResult(None, Completed)
    else if request.pipeline.None? || request.pipeline.value.stage.None?
         || request.pipeline.value.stage.value.state.None? then
      SendResult(None, Threw(nullMessage))
    else
      var p := request.pipeline.value;
      var st := p.stage.value;
      var state := st.state.value;
      if !IsFailedState(state) then
        SendResult(None, Completed)
      else
        var title := Title(p.name, st.name, state);
        var url := MessageUrl(settings.goServerUrl.value, p, st);
        if transport.InvalidUrl? then
          SendResult(None, Threw(transport.message))
        else
          var body := Body(Text(settings.apiUser.value), title, url);
          var post := Post(settings.apiUrl.value, "application/json", body);
          match transport
          case Delivered => SendResult(Some(post), Completed)
          case IoFailure => SendResult(Some(post), Completed)
          case Fault(m) => SendResult(Some(post), Threw(m))
  }

  // ------------------------------------------------------------------ execute

  /** The try/catch of `execute()`: a status map, with the message list only on failure. */
  function Envelope(outcome: SendOutcome): (r: Response)
    ensures r.code == 200
    ensures "status" in r.json
    ensures r.json["status"] == JStr("success") <==> outcome.Completed?
    ensures r.json["status"] == JStr("failure") <==> outcome.Threw?
    ensures "messages" in r.json <==> outcome.Threw?
    ensures outcome.Threw? ==> r.json["messages"] == JList([outcome.message])
    ensures r.json.Keys <= {"status", "messages"}
  {
    match outcome
    case Completed => Response(200, map["status" := JStr("success")])
    case Threw(m) => Response(200, map["status" := JStr("failure"), "messages" := JList([m])])
  }

  /** `execute()`: run `sendNotification()` and wrap its outcome. */
  function Execute(settings: PluginSettings, request: StageStatusRequest,
                   nullMessage: Option<string>, transport: Transport): (r: Response)
    ensures r.code == 200
    // incomplete settings succeed whatever the request holds, even a null stage
    ensures !SettingsComplete(settings) ==> r.json == map["status" := JStr("success")]
    // a lost notification (IOException) still reports success
    ensures transport == IoFailure && StateOf(request).Some? ==>
      r.json == map["status" := JStr("success")]
    // a failure carries exactly one message
    ensures "messages" in r.json ==> exists m :: r.json["messages"] == JList([m])
  {
    Envelope(SendNotification(settings, request, nullMessage, transport).outcome)
  }

}
