// The SlopTex toolbar under the editor: starting and running an action
// from the prompt panel, and the inline edit proposed for a selection
// that the user accepts or rejects.
module SloptexActionBar {
  import opened Wrappers
  import opened Text
  import opened SloptexActions
  import opened SloptexUtils
  import SloptexSelectionOverlay
  import SloptexService

  /** The translation keys of the two error messages. */
  const SelectTextError := "sloptex_select_text"
  const ActionFailedError := "sloptex_action_failed"

  /** One request to the server's `generate` endpoint. */
  datatype GenerateCall = GenerateCall(actionId: ActionId, text: string, options: Option<map<string, string>>)

  /** How a request ends: the generated text, or an error message (empty
      when the error has none). */
  datatype Reply = Output(text: string) | Failed(message: string)

  function FailureMessage(message: string): (r: string)
    ensures r != ""
    ensures message != "" ==> r == message
  {
    if message != "" then message else ActionFailedError
  }

  datatype InlineStatus = Loading | Ready(result: string, diff: seq<SloptexSelectionOverlay.DiffPart>) | Errored(error: string)

  /** An edit proposed in place of the selection `from..to`, whose text
      was `original` when it was requested. */
  datatype InlineEdit = InlineEdit(id: int, actionId: ActionId, from: nat, to: nat, original: string,
                                   status: InlineStatus)

  class ActionBar {
    /** Whether the user has an API key stored (from the SlopTex status). */
    const hasApiKey: bool
    var settingsOpened: bool
    var activeAction: Option<ActionId>
    var promptText: string
    var result: Option<string>
    var actionOptions: Option<map<string, string>>
    var isRunning: bool
    var error: Option<string>
    var inlineEdit: Option<InlineEdit>
    /** Requests sent to the server, oldest first. */
    var requests: seq<GenerateCall>

    constructor (apiKeyStored: bool)
      ensures hasApiKey == apiKeyStored && !settingsOpened && activeAction.None? && promptText == []
      ensures result.None? && actionOptions.None? && !isRunning && error.None? && inlineEdit.None?
      ensures requests == []
    {
      hasApiKey := apiKeyStored;
      settingsOpened := false;
      activeAction := None;
      promptText := [];
      result := None;
      actionOptions := None;
      isRunning := false;
      error := None;
      inlineEdit := None;
      requests := [];
    }

    /** `checkMissingApiKey`: without a key, open the settings. */
    method CheckMissingApiKey() returns (missing: bool)
      modifies this`settingsOpened
      ensures missing <==> !hasApiKey
      ensures settingsOpened == (old(settingsOpened) || missing)
    {
      if !hasApiKey {
        settingsOpened := true;
        return true;
      }
      return false;
    }

    /** `startAction`: open the prompt panel for an action, pre-filled
        with `initialOverride` or else the selected text. An action that
        needs a selection gets an error when there is neither. */
    method StartAction(actionId: ActionId, options: Option<map<string, string>>, initialOverride: Option<string>,
                       view: EditorView)
      requires view.Valid()
      modifies this`settingsOpened, this`activeAction, this`promptText, this`result, this`actionOptions, this`error
      ensures settingsOpened == (old(settingsOpened) || !hasApiKey)
      ensures !hasApiKey ==>
                activeAction == old(activeAction) && promptText == old(promptText) && result == old(result)
                && actionOptions == old(actionOptions) && error == old(error)
      ensures hasApiKey ==>
                var config := Config(actionId);
                var selected := GetPrimarySelection(view);
                if config.requiresSelection && selected.None?
                   && (initialOverride.None? || Trim(initialOverride.value) == "") then
                  error == Some(SelectTextError) && activeAction.None?
                  && promptText == old(promptText) && result == old(result) && actionOptions == old(actionOptions)
                else
                  activeAction == Some(actionId) && actionOptions == options && result.None? && error.None?
                  && promptText == (if initialOverride.Some? then initialOverride.value
                                    else if config.requiresSelection && selected.Some? then selected.value.text
                                    else "")
    {
      var missing := CheckMissingApiKey();
      if missing {
        return;
      }
      var config := Config(actionId);
      var selected := GetPrimarySelection(view);
      if config.requiresSelection && selected.None? && (initialOverride.None? || Trim(initialOverride.value) == "") {
        error := Some(SelectTextError);
        activeAction := None;
        return;
      }
      var initialText := if initialOverride.Some? then initialOverride.value
                         else if config.requiresSelection && selected.Some? then selected.value.text
                         else "";
      actionOptions := options;
      promptText := initialText;
      activeAction := Some(actionId);
      result := None;
      error := None;
    }

    /** The overlay's ask box: start the assistant on the given text. */
    method PromptAction(call: SloptexSelectionOverlay.PromptCall, view: EditorView)
      requires view.Valid()
      modifies this`settingsOpened, this`activeAction, this`promptText, this`result, this`actionOptions, this`error
      ensures hasApiKey && (Trim(call.text) != "" || !Config(call.actionId).requiresSelection || !view.Empty()) ==>
                activeAction == Some(call.actionId) && promptText == call.text && actionOptions.None?
                && result.None? && error.None?
      ensures hasApiKey && Trim(call.text) == "" && Config(call.actionId).requiresSelection && view.Empty() ==>
                error == Some(SelectTextError) && activeAction.None?
    {
      StartAction(call.actionId, None, Some(call.text), view);
    }

    /** `handleRun`: send the active action with the panel's text and
        options, and write the answer into the document: over the
        selection for a replacing action, on lines of its own at the
        cursor for an inserting one. `reply` is how the request ends. */
    method HandleRun(view: EditorView, reply: Reply)
      requires view.Valid()
      modifies this`settingsOpened, this`result, this`isRunning, this`error, this`requests, view
      ensures view.Valid()
      ensures settingsOpened == (old(settingsOpened) || (old(activeAction).Some? && !hasApiKey))
      ensures var sent := old(activeAction).Some? && hasApiKey
                          && !(Config(old(activeAction).value).requiresSelection && old(view.Empty()));
              && (!sent ==>
                    result == old(result) && isRunning == old(isRunning) && requests == old(requests)
                    && view.doc == old(view.doc) && view.anchor == old(view.anchor) && view.head == old(view.head)
                    && error == (if old(activeAction).Some? && hasApiKey then Some(SelectTextError) else old(error)))
              && (sent ==>
                    var config := Config(old(activeAction).value);
                    && requests == old(requests) + [GenerateCall(old(activeAction).value, promptText, actionOptions)]
                    && !isRunning
                    && (reply.Failed? ==>
                          error == Some(FailureMessage(reply.message)) && result == old(result)
                          && view.doc == old(view.doc))
                    && (reply.Output? && config.target == Replace ==>
                          error.None? && result == Some(reply.text)
                          && view.doc == Splice(old(view.doc), old(view.From()), old(view.To()), reply.text))
                    && (reply.Output? && config.target == Insert ==>
                          error.None? && result == Some(reply.text)
                          && view.doc == Splice(old(view.doc), old(view.head), old(view.head), "\n" + reply.text + "\n")))
    {
      if activeAction.None? {
        return;
      }
      var missing := CheckMissingApiKey();
      if missing {
        return;
      }
      var actionId := activeAction.value;
      var config := Config(actionId);
      if config.requiresSelection {
        var selected := GetPrimarySelection(view);
        if selected.None? {
          error := Some(SelectTextError);
          return;
        }
      }
      isRunning := true;
      error := None;
      requests := requests + [GenerateCall(actionId, promptText, actionOptions)];
      TakeReply(view, config.target, reply);
      isRunning := false;
    }

    /** The end of `handleRun`: record the answer and write it into the
        document, or record the error. */
    method TakeReply(view: EditorView, target: Target, reply: Reply)
      requires view.Valid() && error.None?
      modifies this`result, this`error, view
      ensures view.Valid()
      ensures reply.Failed? ==>
                error == Some(FailureMessage(reply.message)) && result == old(result) && view.doc == old(view.doc)
      ensures reply.Output? ==> error.None? && result == Some(reply.text)
      ensures reply.Output? && target == Replace ==>
                view.doc == Splice(old(view.doc), old(view.From()), old(view.To()), reply.text)
      ensures reply.Output? && target == Insert ==>
                view.doc == Splice(old(view.doc), old(view.head), old(view.head), "\n" + reply.text + "\n")
    {
      match reply {
        case Output(output) =>
          result := Some(output);
          if target == Replace {
            ReplaceSelection(view, output, false);
          } else if target == Insert {
            ReplaceSelection(view, "\n" + output + "\n", true);
          }
        case Failed(message) =>
          error := Some(FailureMessage(message));
      }
    }

    /** `handleInlineAction`: for an action on the selection, propose an
        edit of it and request the new text; any other action opens the
        prompt panel instead. `now` is the clock reading that identifies
        the request. */
    method HandleInlineAction(actionId: ActionId, view: EditorView, now: int)
      requires view.Valid()
      modifies this`settingsOpened, this`activeAction, this`promptText, this`result, this`actionOptions,
               this`error, this`inlineEdit, this`requests
      ensures settingsOpened == (old(settingsOpened) || !hasApiKey)
      ensures !hasApiKey ==>
                inlineEdit == old(inlineEdit) && requests == old(requests) && error == old(error)
                && activeAction == old(activeAction)
      ensures hasApiKey && !Config(actionId).requiresSelection ==>
                activeAction == Some(actionId) && promptText == "" && actionOptions.None?
                && inlineEdit == old(inlineEdit) && requests == old(requests)
      ensures hasApiKey && Config(actionId).requiresSelection && view.Empty() ==>
                error == Some(SelectTextError) && inlineEdit == old(inlineEdit) && requests == old(requests)
                && activeAction == old(activeAction)
      ensures hasApiKey && Config(actionId).requiresSelection && !view.Empty() ==>
                var text := view.doc[view.From()..view.To()];
                inlineEdit == Some(InlineEdit(now, actionId, view.From(), view.To(), text, Loading))
                && requests == old(requests) + [GenerateCall(actionId, text, None)]
                && error == old(error) && activeAction == old(activeAction)
    {
      var missing := CheckMissingApiKey();
      if missing {
        return;
      }
      var config := Config(actionId);
      if !config.requiresSelection {
        StartAction(actionId, None, None, view);
        return;
      }
      var selection := GetPrimarySelection(view);
      if selection.None? {
        error := Some(SelectTextError);
        return;
      }
      var s := selection.value;
      inlineEdit := Some(InlineEdit(now, actionId, s.from, s.to, s.text, Loading));
      requests := requests + [GenerateCall(actionId, s.text, None)];
    }

    /** The overlay's inline handler: only the action is passed on, so a
        chosen language or style is dropped. */
    method InlineAction(call: SloptexSelectionOverlay.InlineCall, view: EditorView, now: int)
      requires view.Valid()
      modifies this`settingsOpened, this`activeAction, this`promptText, this`result, this`actionOptions,
               this`error, this`inlineEdit, this`requests
      ensures forall k :: |old(requests)| <= k < |requests| ==> requests[k].options.None?
      ensures requests == old(requests) || |requests| == |old(requests)| + 1
    {
      HandleInlineAction(call.actionId, view, now);
    }

    /** The answer to the inline request `inlineId` arrives; `diff` is the
        line diff of the original against the output. An answer for an
        edit no longer shown is dropped. */
    method InlineSettled(inlineId: int, reply: Reply, diff: seq<SloptexSelectionOverlay.DiffPart>)
      modifies this`inlineEdit
      ensures old(inlineEdit).None? || old(inlineEdit).value.id != inlineId ==> inlineEdit == old(inlineEdit)
      ensures old(inlineEdit).Some? && old(inlineEdit).value.id == inlineId ==>
                inlineEdit == Some(old(inlineEdit).value.(status := Settled(reply, diff)))
    {
      if inlineEdit.Some? && inlineEdit.value.id == inlineId {
        inlineEdit := Some(inlineEdit.value.(status := Settled(reply, diff)));
      }
    }

    /** `handleInlineAccept`: write a ready, non-empty result over the
        range it was proposed for and select it. If the range no longer
        fits the document the editor throws and the edit stays. */
    method HandleInlineAccept(view: EditorView)
      requires view.Valid()
      modifies this`inlineEdit, view`doc, view`anchor, view`head
      ensures view.Valid()
      ensures var e := old(inlineEdit);
              var ready := e.Some? && e.value.status.Ready? && e.value.status.result != "";
              && (!ready ==> inlineEdit == e && unchanged(view))
              && (ready ==>
                    var r := e.value.status.result;
                    var fits := e.value.from <= e.value.to <= |old(view.doc)|;
                    && (fits ==>
                          inlineEdit.None? && view.doc == Splice(old(view.doc), e.value.from, e.value.to, r)
                          && view.anchor == e.value.from && view.head == e.value.from + |r|)
                    && (!fits ==> inlineEdit == e && unchanged(view)))
    {
      if inlineEdit.None? || !inlineEdit.value.status.Ready? || inlineEdit.value.status.result == "" {
        return;
      }
      var e := inlineEdit.value;
      var r := e.status.result;
      var applied := view.Dispatch(e.from, e.to, r, e.from, e.from + |r|);
      if applied {
        inlineEdit := None;
      }
    }

    /** `handleInlineReject`. */
    method HandleInlineReject()
      modifies this`inlineEdit
      ensures inlineEdit.None?
    {
      inlineEdit := None;
    }
  }

  /** The status an inline edit takes when its answer arrives. */
  function Settled(reply: Reply, diff: seq<SloptexSelectionOverlay.DiffPart>): (s: InlineStatus)
    ensures s.Loading? == false
    ensures s.Ready? <==> reply.Output?
    ensures s.Ready? ==> s.result == reply.text && s.diff == diff
    ensures s.Errored? ==> s.error == FailureMessage(reply.message)
  {
    match reply
    case Output(text) => Ready(text, diff)
    case Failed(message) => Errored(FailureMessage(message))
  }

  /** Accepting an edit of text that is still in place can be undone by
      writing the original back over the result. */
  lemma AcceptIsUndoable(doc: string, e: InlineEdit)
    requires e.status.Ready? && e.from <= e.to <= |doc| && doc[e.from..e.to] == e.original
    ensures var accepted := Splice(doc, e.from, e.to, e.status.result);
            Splice(accepted, e.from, e.from + |e.status.result|, e.original) == doc
  {
    SpliceUndo(doc, e.from, e.to, e.status.result);
  }

  // ---------------------------------------------------------------------
  // What the server makes of the options a request carries
  // ---------------------------------------------------------------------

  function Lookup(m: map<string, string>, key: string): string
  {
    if key in m then m[key] else ""
  }

  /** The service's options from a request body's `options` object: it
      reads `text`, `prompt`, `targetLanguage`, `style` and `model`. */
  function ServiceOptions(options: Option<map<string, string>>): (o: SloptexService.Options)
    ensures options.None? ==> o == SloptexService.NoOptions
    ensures options.Some? ==> o.targetLanguage == Lookup(options.value, "targetLanguage")
                              && o.style == Lookup(options.value, "style")
  {
    match options
    case None => SloptexService.NoOptions
    case Some(m) =>
      SloptexService.Options(Lookup(m, "text"), Lookup(m, "prompt"), Lookup(m, "targetLanguage"),
                             Lookup(m, "style"), Lookup(m, "model"))
  }

  /** A language picked in the overlay's translate submenu never reaches
      the prompt: the inline request carries no options, and even the
      submenu's own options name the language under a key the service
      does not read, so every inline translation is into English. */
  lemma TranslateLanguageIgnored(text: string, code: string)
    ensures var chosen := ServiceOptions(Some(SloptexSelectionOverlay.SubmenuOptions(Translate, code)));
            var sent := ServiceOptions(None);
            && chosen.targetLanguage == ""
            && SloptexService.BuildPrompt("translate", text, sent)
               == SloptexService.BuildPrompt("translate", text, SloptexService.NoOptions.(targetLanguage := "English"))
  {
    SubmenuLanguageUnread(code);
    InlineTranslationEnglish(text);
  }

  lemma SubmenuLanguageUnread(code: string)
    ensures ServiceOptions(Some(SloptexSelectionOverlay.SubmenuOptions(Translate, code))).targetLanguage == ""
  {
  }

  lemma InlineTranslationEnglish(text: string)
    ensures SloptexService.BuildPrompt("translate", text, ServiceOptions(None))
            == SloptexService.BuildPrompt("translate", text, SloptexService.NoOptions.(targetLanguage := "English"))
  {
    SloptexService.TranslateDefault(text, SloptexService.NoOptions);
    assert SloptexService.NoOptions.(targetLanguage := "") == SloptexService.NoOptions;
  }

  /** A style picked in the overlay's style submenu is named under the key
      the service reads, but the inline request drops it, so every inline
      restyling is scientific. */
  lemma StyleChoiceDropped(text: string, styleName: string)
    requires styleName != ""
    ensures ServiceOptions(Some(SloptexSelectionOverlay.SubmenuOptions(Style, styleName))).style == styleName
    ensures SloptexService.BuildPrompt("style", text, ServiceOptions(None))
            == SloptexService.BuildPrompt("style", text, SloptexService.NoOptions.(style := "scientific"))
  {
    SubmenuStyleRead(styleName);
    InlineStyleScientific(text);
  }

  lemma SubmenuStyleRead(styleName: string)
    requires styleName != ""
    ensures ServiceOptions(Some(SloptexSelectionOverlay.SubmenuOptions(Style, styleName))).style == styleName
  {
  }

  lemma InlineStyleScientific(text: string)
    ensures SloptexService.BuildPrompt("style", text, ServiceOptions(None))
            == SloptexService.BuildPrompt("style", text, SloptexService.NoOptions.(style := "scientific"))
  {
    SloptexService.StyleDefault(text, SloptexService.NoOptions);
    assert SloptexService.NoOptions.(style := "") == SloptexService.NoOptions;
  }
}
