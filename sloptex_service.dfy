// The SlopTex assistant service: input sanitising, the prompt built for
// each operation, the enabled check, API-key sealing and the preconditions
// of a generation request. The encryptor and the Gemini client are
// foreign: a sealed key is modelled as a value holding the key, and the
// model's reply arrives as a parameter.
module SloptexService {
  import opened Wrappers
  import opened Text

  /** The deployment's `sloptex` settings and whether an encryptor was
      configured. `enabled` is None when the setting is absent;
      `defaultModel` is "" when it is absent. */
  datatype Config = Config(enabled: Option<bool>, defaultModel: string, hasEncryptor: bool)

  /** `isEnabled`: not switched off, and an encryptor exists. */
  predicate IsEnabled(config: Config)
  {
    config.enabled != Some(false) && config.hasEncryptor
  }

  function DefaultModel(config: Config): (m: string)
    ensures m != ""
    ensures config.defaultModel != "" ==> m == config.defaultModel
  {
    if config.defaultModel != "" then config.defaultModel else "gemini-2.5-flash-lite"
  }

  // ---------------------------------------------------------------------
  // Sanitising and prompts
  // ---------------------------------------------------------------------

  const MaxInput := 8000

  /** `sanitizeInput`: trimmed, then cut to its first 8000 characters. */
  function Sanitize(value: string): (r: string)
    ensures |r| <= MaxInput && |r| <= |Trim(value)|
    ensures r == Trim(value)[..|r|]
    ensures |Trim(value)| <= MaxInput ==> r == Trim(value)
    ensures r == [] <==> AllWhiteSpace(value)
  {
    TrimEmptyIff(value);
    var t := Trim(value);
    if |t| <= MaxInput then t else t[..MaxInput]
  }

  /** The request options; "" stands for an absent or falsy value. */
  datatype Options = Options(text: string, prompt: string, targetLanguage: string, style: string,
                             model: string)

  const NoOptions := Options("", "", "", "", "")

  const BaseInstructions := "You are SlopTex, an Overleaf assistant that writes in Markdown compatible with LaTeX. Give concise answers and do not add any extra text. Respond with plain text and never modify LaTeX commands unless explicitly instructed."

  /** What every prompt starts with. */
  const Preamble := BaseInstructions + "\n\n"

  /** The operations `buildPrompt` knows, and any other name. */
  datatype Operation = Assist | Title | Abstract | Paraphrase | Translate | Style | SplitText
                     | JoinText | Summarize | Explain | FixLatex | Unknown(name: string)
  {
    /** All but `assist` work on the given text. */
    predicate OnText()
    {
      !Assist? && !Unknown?
    }
  }

  /** The `case` label an operation name selects. */
  function OperationOf(name: string): (op: Operation)
    ensures op.Unknown? ==> op.name == name
  {
    if name == "assist" then Assist
    else if name == "title" then Title
    else if name == "abstract" then Abstract
    else if name == "paraphrase" then Paraphrase
    else if name == "translate" then Translate
    else if name == "style" then Style
    else if name == "split" then SplitText
    else if name == "join" then JoinText
    else if name == "summarize" then Summarize
    else if name == "explain" then Explain
    else if name == "fix_latex" then FixLatex
    else Unknown(name)
  }

  /** The text the prompt is built from: `text`, else `options.text`. */
  function PromptInput(text: string, options: Options): string
  {
    Sanitize(if text != "" then text else options.text)
  }

  /** The message thrown by a text operation given blank input. */
  function BlankInputMessage(op: Operation): string
  {
    match op
    case Title => "Provide some context to generate a title"
    case Abstract => "Provide content to generate an abstract"
    case Paraphrase => "Select text to paraphrase"
    case Translate => "Select text to translate"
    case Style => "Select text to restyle"
    case SplitText => "Select text to split"
    case JoinText => "Select text to join"
    case Summarize => "Select text to summarize"
    case Explain => "Select text to explain"
    case FixLatex => "Select LaTeX code to fix"
    case Assist => "Missing question for AI assistance"
    case Unknown(name) => "Unknown SlopTex operation '" + name + "'"
  }

  // The instructions of the text operations, each up to the ":" that
  // precedes the text.
  const TitleInstruction := "Generate three publication-ready paper titles (no numbering) that reflect the following notes"
  const AbstractInstruction := "Write a concise academic abstract (max 200 words) that summarizes the following material"
  const ParaphraseInstruction := "Paraphrase the following text while preserving meaning"
  const TranslateBefore := "Translate the following text into "
  const TranslateAfter := " while keeping LaTeX commands untouched"
  const StyleBefore := "Rewrite the following text in a "
  const StyleAfter := " tone while preserving mathematical notation"
  const SplitInstruction := "Split the text into shorter paragraphs that read naturally"
  const JoinInstruction := "Combine the following paragraphs into one cohesive paragraph"
  const SummarizeInstruction := "Summarize the following text in 3 sentences"
  const ExplainInstruction := "Explain the following text step by step in plain language"
  const FixLatexInstruction := "Fix and improve the following LaTeX code. Do not modify any text outside of LaTeX commands. Correct any syntax errors, improve formatting, and make it more readable while preserving the original meaning"

  /** The instruction of a text operation; translate fills in the target
      language (default English) and style the tone (default scientific). */
  function Instruction(op: Operation, options: Options): string
    requires op.OnText()
  {
    match op
    case Title => TitleInstruction
    case Abstract => AbstractInstruction
    case Paraphrase => ParaphraseInstruction
    case Translate =>
      var targetLanguage := if options.targetLanguage != "" then options.targetLanguage else "English";
      TranslateBefore + targetLanguage + TranslateAfter
    case Style =>
      var style := if options.style != "" then options.style else "scientific";
      StyleBefore + style + StyleAfter
    case SplitText => SplitInstruction
    case JoinText => JoinInstruction
    case Summarize => SummarizeInstruction
    case Explain => ExplainInstruction
    case FixLatex => FixLatexInstruction
  }

  /** The `case` body of a known or unknown operation, given the
      sanitised text. */
  function PromptFor(op: Operation, sanitized: string, options: Options): Result<string>
  {
    match op
    case Assist =>
      var question := Sanitize(if options.prompt != "" then options.prompt else sanitized);
      if question == "" then Failure(BlankInputMessage(op))
      else Success(Preamble + "User request:\n" + question)
    case Unknown(_) => Failure(BlankInputMessage(op))
    case _ =>
      if sanitized == "" then Failure(BlankInputMessage(op))
      else Success(Preamble + Instruction(op, options) + ":\n" + sanitized)
  }

  /** `buildPrompt`: a failure is the message of the `OError` thrown. The
      operation's `case` is chosen first; each then rejects blank input
      before building its prompt. */
  function BuildPrompt(operation: string, text: string, options: Options): Result<string>
  {
    PromptFor(OperationOf(operation), PromptInput(text, options), options)
  }

  predicate EndsWith(s: string, suffix: string)
  {
    |suffix| <= |s| && s[|s| - |suffix|..] == suffix
  }

  lemma ConcatEnds(a: string, b: string, c: string)
    ensures StartsWith(a + b + c, a)
    ensures EndsWith(a + b + c, b + c)
  {
    assert (a + b + c)[..|a|] == a;
    assert (a + b + c)[|a|..] == b + c;
  }

  /** Every prompt starts with the base instructions and a blank line. */
  lemma PromptStartsWithBase(operation: string, text: string, options: Options)
    requires BuildPrompt(operation, text, options).Success?
    ensures StartsWith(BuildPrompt(operation, text, options).value, Preamble)
  {
    CaseStartsWithBase(OperationOf(operation), PromptInput(text, options), options);
  }

  lemma CaseStartsWithBase(op: Operation, sanitized: string, options: Options)
    requires PromptFor(op, sanitized, options).Success?
    ensures StartsWith(PromptFor(op, sanitized, options).value, Preamble)
  {
    if op.Assist? {
      AssistStartsWithBase(sanitized, options);
    } else {
      TextPromptStartsWithBase(op, sanitized, options);
    }
  }

  lemma AssistStartsWithBase(sanitized: string, options: Options)
    requires PromptFor(Assist, sanitized, options).Success?
    ensures StartsWith(PromptFor(Assist, sanitized, options).value, Preamble)
  {
    ConcatEnds(Preamble, "User request:\n", Sanitize(if options.prompt != "" then options.prompt else sanitized));
  }

  lemma TextPromptStartsWithBase(op: Operation, sanitized: string, options: Options)
    requires op.OnText() && PromptFor(op, sanitized, options).Success?
    ensures StartsWith(PromptFor(op, sanitized, options).value, Preamble)
  {
    PrefixOfConcat4(Preamble, Instruction(op, options), ":\n", sanitized);
  }

  lemma PrefixOfConcat4(a: string, b: string, c: string, d: string)
    ensures StartsWith(a + b + c + d, a)
  {
    assert (a + b + c + d)[..|a|] == a;
  }

  /** A text operation fails exactly when its input is blank, with that
      operation's message, and its prompt ends with ":\n" and the
      sanitised input. */
  lemma TextOperationPrompt(operation: string, text: string, options: Options)
    requires OperationOf(operation).OnText()
    ensures BuildPrompt(operation, text, options).Failure?
            <==> AllWhiteSpace(if text != "" then text else options.text)
    ensures BuildPrompt(operation, text, options).Failure? ==>
              BuildPrompt(operation, text, options).error == BlankInputMessage(OperationOf(operation))
    ensures BuildPrompt(operation, text, options).Success? ==>
              EndsWith(BuildPrompt(operation, text, options).value, ":\n" + PromptInput(text, options))
  {
    var op := OperationOf(operation);
    ConcatEnds(Preamble + Instruction(op, options), ":\n", PromptInput(text, options));
  }

  /** `assist` asks the sanitised `options.prompt` when there is one, else
      the sanitised text, and fails when that is blank. */
  lemma AssistPrompt(text: string, options: Options)
    ensures var question := Sanitize(if options.prompt != "" then options.prompt else PromptInput(text, options));
            BuildPrompt("assist", text, options)
              == if question == "" then Failure("Missing question for AI assistance")
                 else Success(Preamble + "User request:\n" + question)
  {
  }

  /** Any other operation is rejected by name. */
  lemma UnknownOperationRejected(operation: string, text: string, options: Options)
    requires OperationOf(operation).Unknown?
    ensures BuildPrompt(operation, text, options) == Failure("Unknown SlopTex operation '" + operation + "'")
  {
    var op := OperationOf(operation);
    assert op == Unknown(operation);
    assert PromptFor(op, PromptInput(text, options), options) == Failure(BlankInputMessage(op));
  }

  /** An empty `text` falls back to `options.text`. */
  lemma TextFallsBackToOptions(operation: string, options: Options)
    ensures BuildPrompt(operation, "", options) == BuildPrompt(operation, options.text, options)
  {
    assert PromptInput("", options) == PromptInput(options.text, options);
  }

  /** translate defaults to English and style to a scientific tone. */
  lemma TranslateDefault(text: string, options: Options)
    ensures BuildPrompt("translate", text, options.(targetLanguage := ""))
            == BuildPrompt("translate", text, options.(targetLanguage := "English"))
  {
    assert OperationOf("translate") == Translate;
    assert Instruction(Translate, options.(targetLanguage := ""))
           == Instruction(Translate, options.(targetLanguage := "English"));
  }

  lemma StyleDefault(text: string, options: Options)
    ensures BuildPrompt("style", text, options.(style := ""))
            == BuildPrompt("style", text, options.(style := "scientific"))
  {
    assert OperationOf("style") == Style;
    assert Instruction(Style, options.(style := "")) == Instruction(Style, options.(style := "scientific"));
  }

  // ---------------------------------------------------------------------
  // API keys
  // ---------------------------------------------------------------------

  /** What `encryptJson({apiKey})` produces, with the key it seals. */
  datatype Sealed = Sealed(apiKey: string)

  /** `encryptApiKey`. */
  function EncryptApiKey(config: Config, apiKey: string): (r: Result<Sealed>)
    ensures r.Success? <==> config.hasEncryptor
  {
    if !config.hasEncryptor then Failure("SlopTex encryption is not configured")
    else Success(Sealed(apiKey))
  }

  /** `decryptApiKey`: nothing stored gives no key; a key is never "". */
  function DecryptApiKey(config: Config, encrypted: Option<Sealed>): (r: Result<Option<string>>)
    ensures encrypted.None? ==> r == Success(None)
    ensures r.Success? && r.value.Some? ==> r.value.value != ""
    ensures r.Failure? <==> encrypted.Some? && !config.hasEncryptor
  {
    match encrypted
    case None => Success(None)
    case Some(sealed) =>
      if !config.hasEncryptor then Failure("SlopTex encryption is not configured")
      else if sealed.apiKey == "" then Success(None)
      else Success(Some(sealed.apiKey))
  }

  /** Sealing then unsealing gives the key back. */
  lemma DecryptEncrypt(config: Config, apiKey: string)
    requires config.hasEncryptor && apiKey != ""
    ensures DecryptApiKey(config, Some(EncryptApiKey(config, apiKey).value)) == Success(Some(apiKey))
  {
  }

  // ---------------------------------------------------------------------
  // Generation and status
  // ---------------------------------------------------------------------

  /** The model client's answer: its text ("" when it has none), or the
      message of the error it threw ("" when it has none). */
  datatype ModelReply = Answer(text: string) | CallFailed(message: string)

  /** The outcome of `generateResponse`: the request sent and the text
      returned, an `OError` (`Invalid`), or an error from the client. */
  datatype Generation = Generated(model: string, prompt: string, text: string)
                      | Invalid(message: string)
                      | ClientError(message: string)

  /** `generateResponse`: enabled, then a key, then a prompt, before the
      model is asked. */
  function GenerateResponse(config: Config, apiKey: string, operation: string, text: string,
                            options: Options, reply: ModelReply): (g: Generation)
    ensures !IsEnabled(config) ==> g == Invalid("SlopTex is not enabled")
    ensures IsEnabled(config) && apiKey == "" ==> g == Invalid("Missing Gemini API key")
    ensures g.Generated? <==> IsEnabled(config) && apiKey != ""
                              && BuildPrompt(operation, text, options).Success? && reply.Answer?
    ensures g.Generated? ==> g.prompt == BuildPrompt(operation, text, options).value
                             && g.model == (if options.model != "" then options.model else DefaultModel(config))
  {
    if !IsEnabled(config) then Invalid("SlopTex is not enabled")
    else if apiKey == "" then Invalid("Missing Gemini API key")
    else
      match BuildPrompt(operation, text, options)
      case Failure(message) => Invalid(message)
      case Success(prompt) =>
        var model := if options.model != "" then options.model else DefaultModel(config);
        match reply
        case Answer(answer) => Generated(model, prompt, answer)
        case CallFailed(message) => ClientError(message)
  }

  datatype SloptexStatus = SloptexStatus(enabled: bool, hasApiKey: bool, defaultModel: string)

  /** `getSloptexStatus`. */
  function GetSloptexStatus(config: Config, stored: Option<Sealed>): (s: SloptexStatus)
    ensures s.enabled <==> IsEnabled(config)
    ensures s.hasApiKey <==> stored.Some?
    ensures s.defaultModel == DefaultModel(config)
  {
    SloptexStatus(IsEnabled(config), stored.Some?, DefaultModel(config))
  }
}
