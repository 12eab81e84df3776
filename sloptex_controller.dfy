// The SlopTex HTTP handlers: the feature gate, API-key save and delete,
// the client-error message parser and the generate endpoint's mapping of
// outcomes to status codes. The user's stored settings are passed in and
// the updated settings are returned.
module SloptexController {
  import opened Wrappers
  import opened Text
  import opened SloptexService

  /** The `sloptex` sub-document of a user. */
  datatype UserSloptex = UserSloptex(apiKeyEncrypted: Option<Sealed>, enabled: Option<bool>,
                                     updatedAt: Option<int>)

  datatype Body = EnabledFalse | StatusBody(status: SloptexStatus) | OkBody
                | MessageBody(message: string) | ContentBody(content: string)

  /** A JSON reply, or an error handed to `next` (answered as a server
      error by the framework). */
  datatype Response = Reply(status: int, body: Body) | NextError(message: string)

  const Disabled := Reply(404, EnabledFalse)

  /** `assertFeatureEnabled`: the 404 reply when the feature is off. */
  function AssertFeatureEnabled(config: Config): (r: Option<Response>)
    ensures r.None? <==> IsEnabled(config)
    ensures r.Some? ==> r.value == Disabled
  {
    if !IsEnabled(config) then Some(Disabled) else None
  }

  /** `getStatus`. */
  function GetStatus(config: Config, user: UserSloptex): (r: Response)
    ensures !IsEnabled(config) ==> r == Disabled
    ensures IsEnabled(config) ==> (r.Reply? && r.status == 200 && r.body.StatusBody?
              && r.body.status.enabled && (r.body.status.hasApiKey <==> user.apiKeyEncrypted.Some?))
  {
    match AssertFeatureEnabled(config)
    case Some(disabled) => disabled
    case None => Reply(200, StatusBody(GetSloptexStatus(config, user.apiKeyEncrypted)))
  }

  const MaxKeyLength := 400

  /** `saveApiKey`: `apiKey` is None when the body has no string key. The
      trimmed key is sealed and stored, and the feature switched on for
      the user. */
  function SaveApiKey(config: Config, apiKey: Option<string>, user: UserSloptex, now: int)
    : (r: (Response, UserSloptex))
    ensures r.0 == Reply(200, OkBody) <==>
              IsEnabled(config) && apiKey.Some? && !AllWhiteSpace(apiKey.value)
              && |Trim(apiKey.value)| <= MaxKeyLength
    ensures r.0 == Reply(200, OkBody) ==>
              r.1 == UserSloptex(Some(Sealed(Trim(apiKey.value))), Some(true), Some(now))
    ensures r.0 != Reply(200, OkBody) ==> r.1 == user
  {
    if !IsEnabled(config) then (Disabled, user)
    else if apiKey.None? || apiKey.value == "" || Trim(apiKey.value) == "" then
      TrimEmptyIff(if apiKey.Some? then apiKey.value else "");
      (NextError("Missing apiKey"), user)
    else
      TrimEmptyIff(apiKey.value);
      var trimmedKey := Trim(apiKey.value);
      if |trimmedKey| > MaxKeyLength then (NextError("API key is too long"), user)
      else
        match EncryptApiKey(config, trimmedKey)
        case Failure(message) => (NextError(message), user)
        case Success(encrypted) =>
          (Reply(200, OkBody), user.(apiKeyEncrypted := Some(encrypted), enabled := Some(true),
                                     updatedAt := Some(now)))
  }

  /** `deleteApiKey`: the key is removed and the feature switched off for
      the user. */
  function DeleteApiKey(config: Config, user: UserSloptex, now: int): (r: (Response, UserSloptex))
    ensures !IsEnabled(config) ==> r == (Disabled, user)
    ensures IsEnabled(config) ==> r == (Reply(200, OkBody), UserSloptex(None, Some(false), Some(now)))
  {
    if !IsEnabled(config) then (Disabled, user)
    else (Reply(200, OkBody), user.(apiKeyEncrypted := None, enabled := Some(false), updatedAt := Some(now)))
  }

  /** The fields of a parsed error body that matter: `error.message` (""
      when absent) and `error.code`. */
  datatype ApiErrorField = ApiErrorField(message: string, code: Option<int>)

  /** What `JSON.parse` made of an error message. */
  datatype Parsed = NotJson | Json(error: Option<ApiErrorField>)

  const OverloadedMessage := "The model is overloaded. Please try again later."

  /** `parseApiErrorMessage`: `parsed` is the message parsed as JSON. */
  function ParseApiErrorMessage(errorMessage: string, parsed: Parsed): (r: string)
    ensures parsed.Json? && parsed.error.Some? && parsed.error.value.message != ""
            ==> r == parsed.error.value.message
    ensures (parsed.NotJson? || parsed.error.None?) ==> r == errorMessage
    ensures parsed.Json? && parsed.error.Some? && parsed.error.value.message == "" ==>
              r == (if parsed.error.value.code == Some(503) then OverloadedMessage else errorMessage)
    ensures r == errorMessage || r == OverloadedMessage
            || (parsed.Json? && parsed.error.Some? && r == parsed.error.value.message)
  {
    match parsed
    case NotJson => errorMessage
    case Json(error) =>
      if error.Some? && error.value.message != "" then error.value.message
      else if error.Some? && error.value.code == Some(503) then OverloadedMessage
      else errorMessage
  }

  /** `generate`: `operation` is None when the body has no string
      operation; `parsed` is the client error's message parsed as JSON. */
  function Generate(config: Config, user: UserSloptex, operation: Option<string>, text: string,
                    options: Options, reply: ModelReply, parsed: Parsed): (r: Response)
  {
    if !IsEnabled(config) then Disabled
    else if operation.None? || operation.value == "" then Reply(400, MessageBody("Missing operation"))
    else
      match DecryptApiKey(config, user.apiKeyEncrypted)
      case Failure(message) => Reply(400, MessageBody(message))
      case Success(None) => Reply(400, MessageBody("Missing configured API key"))
      case Success(Some(apiKey)) =>
        match GenerateResponse(config, apiKey, operation.value, text, options, reply)
        case Generated(_, _, content) => Reply(200, ContentBody(content))
        case Invalid(message) => Reply(400, MessageBody(message))
        case ClientError(message) =>
          if message != "" then Reply(503, MessageBody(ParseApiErrorMessage(message, parsed)))
          else NextError(message)
  }

  /** How `generate` answers: 404 exactly when the feature is off; 200
      exactly when there is an operation, a stored key, a prompt and an
      answer; 503 exactly for a client error with a message; and every
      other failure is a 400 except a client error without a message. */
  lemma {:induction false} GenerateStatus(config: Config, user: UserSloptex, operation: Option<string>,
                                          text: string, options: Options, reply: ModelReply, parsed: Parsed)
    ensures var r := Generate(config, user, operation, text, options, reply, parsed);
            && (r == Disabled <==> !IsEnabled(config))
            && (r.Reply? && r.status == 200 <==>
                  IsEnabled(config) && operation.Some? && operation.value != ""
                  && user.apiKeyEncrypted.Some? && user.apiKeyEncrypted.value.apiKey != ""
                  && BuildPrompt(operation.value, text, options).Success? && reply.Answer?)
            && (r.Reply? && r.status == 503 <==>
                  IsEnabled(config) && operation.Some? && operation.value != ""
                  && user.apiKeyEncrypted.Some? && user.apiKeyEncrypted.value.apiKey != ""
                  && BuildPrompt(operation.value, text, options).Success?
                  && reply.CallFailed? && reply.message != "")
            && (IsEnabled(config) && (operation.None? || operation.value == "")
                ==> r == Reply(400, MessageBody("Missing operation")))
            && (IsEnabled(config) && operation.Some? && operation.value != ""
                && (user.apiKeyEncrypted.None? || user.apiKeyEncrypted.value.apiKey == "")
                ==> r == Reply(400, MessageBody("Missing configured API key")))
  {
    var r := Generate(config, user, operation, text, options, reply, parsed);
    if IsEnabled(config) && operation.Some? && operation.value != "" && user.apiKeyEncrypted.Some?
       && user.apiKeyEncrypted.value.apiKey != "" {
      var key := user.apiKeyEncrypted.value.apiKey;
      assert DecryptApiKey(config, user.apiKeyEncrypted) == Success(Some(key));
      var g := GenerateResponse(config, key, operation.value, text, options, reply);
      assert r == match g
        case Generated(_, _, content) => Reply(200, ContentBody(content))
        case Invalid(message) => Reply(400, MessageBody(message))
        case ClientError(message) =>
          if message != "" then Reply(503, MessageBody(ParseApiErrorMessage(message, parsed)))
          else NextError(message);
    }
  }

  /** With the feature off, every handler answers 404 and changes nothing. */
  lemma DisabledAnswers404(config: Config, user: UserSloptex, apiKey: Option<string>, now: int,
                           operation: Option<string>, text: string, options: Options,
                           reply: ModelReply, parsed: Parsed)
    requires !IsEnabled(config)
    ensures GetStatus(config, user) == Disabled
    ensures SaveApiKey(config, apiKey, user, now) == (Disabled, user)
    ensures DeleteApiKey(config, user, now) == (Disabled, user)
    ensures Generate(config, user, operation, text, options, reply, parsed) == Disabled
  {
  }

  /** A saved key is the one `generate` then uses: the trimmed key. */
  lemma SavedKeyIsUsed(config: Config, apiKey: string, user: UserSloptex, now: int)
    requires SaveApiKey(config, Some(apiKey), user, now).0 == Reply(200, OkBody)
    ensures DecryptApiKey(config, SaveApiKey(config, Some(apiKey), user, now).1.apiKeyEncrypted)
            == Success(Some(Trim(apiKey)))
  {
    TrimEmptyIff(apiKey);
  }

  /** After deleting the key, `generate` answers that no key is configured. */
  lemma DeletedKeyNotUsed(config: Config, user: UserSloptex, now: int, operation: string, text: string,
                          options: Options, reply: ModelReply, parsed: Parsed)
    requires IsEnabled(config) && operation != ""
    ensures Generate(config, DeleteApiKey(config, user, now).1, Some(operation), text, options, reply, parsed)
            == Reply(400, MessageBody("Missing configured API key"))
  {
  }
}
