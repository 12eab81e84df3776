// The bubble SlopTex shows next to a text selection: a menu of inline
// actions, two of which open a submenu (languages, styles), driven by the
// keyboard; the ask box; and the line-by-line view of a proposed edit.
module SloptexSelectionOverlay {
  import opened Wrappers
  import opened Text
  import opened SloptexActions
  import SloptexUtils

  /** The main menu: six direct actions, then the two with submenus. */
  const InlineActions: seq<ActionId> := [Paraphrase, Summarize, Explain, SplitText, JoinText, FixLatex]
  const SubmenuActions: seq<ActionId> := [Translate, Style]
  const TotalActions: int := 8

  const LanguageCodes: seq<string> := ["en", "es", "fr", "de", "it", "pt", "zh", "ja", "ko", "ru"]
  const Styles: seq<string> := ["scientific", "concise", "punchy"]

  /** The options of a submenu. */
  function SubmenuItems(actionId: ActionId): (items: seq<string>)
    ensures |items| == if actionId == Translate then 10 else 3
    ensures forall i :: 0 <= i < |items| ==> items[i] != ""
  {
    if actionId == Translate then LanguageCodes else Styles
  }

  /** The action at a main-menu position. */
  function MenuAction(i: int): (a: ActionId)
    requires 0 <= i < TotalActions
    ensures a in SubmenuActions <==> i >= |InlineActions|
  {
    if i < |InlineActions| then InlineActions[i] else SubmenuActions[i - |InlineActions|]
  }

  /** ArrowDown: the next position, wrapping to the first. */
  function NextIndex(i: int, maxIndex: nat): (r: int)
    requires -1 <= i <= maxIndex
    ensures 0 <= r <= maxIndex
    ensures r == if i < maxIndex then i + 1 else 0
  {
    if i < maxIndex then i + 1 else 0
  }

  /** ArrowUp: the previous position, wrapping to the last. */
  function PrevIndex(i: int, maxIndex: nat): (r: int)
    requires -1 <= i <= maxIndex
    ensures 0 <= r <= maxIndex
    ensures r == if i > 0 then i - 1 else maxIndex
  {
    if i > 0 then i - 1 else maxIndex
  }

  /** Up undoes down and down undoes up on every real position. */
  lemma UpDownInverse(i: int, maxIndex: nat)
    requires 0 <= i <= maxIndex
    ensures PrevIndex(NextIndex(i, maxIndex), maxIndex) == i
    ensures NextIndex(PrevIndex(i, maxIndex), maxIndex) == i
  {
  }

  /** `k` presses of ArrowDown move `k` places round the menu, so
      `maxIndex + 1` presses come back to the start. */
  lemma {:induction false} DownCycles(i: int, maxIndex: nat, k: nat)
    requires 0 <= i <= maxIndex && k <= maxIndex + 1
    ensures Repeat(i, maxIndex, k) == if i + k <= maxIndex then i + k else i + k - (maxIndex + 1)
  {
    if k > 0 {
      DownCycles(i, maxIndex, k - 1);
    }
  }

  function Repeat(i: int, maxIndex: nat, k: nat): (r: int)
    requires 0 <= i <= maxIndex
    ensures 0 <= r <= maxIndex
  {
    if k == 0 then i else NextIndex(Repeat(i, maxIndex, k - 1), maxIndex)
  }

  datatype Submenu = Submenu(actionId: ActionId, focusedIndex: int)

  /** A call of the action bar's inline handler; `None` for no options. */
  datatype InlineCall = InlineCall(actionId: ActionId, options: Option<map<string, string>>)

  /** A call of the action bar's prompt handler. */
  datatype PromptCall = PromptCall(actionId: ActionId, text: string)

  /** The options a submenu choice sends. */
  function SubmenuOptions(actionId: ActionId, option: string): (options: map<string, string>)
    ensures actionId == Translate && option != "" ==> options == map["language" := option]
    ensures actionId == Style && option != "" ==> options == map["style" := option]
    ensures actionId !in SubmenuActions || option == "" ==> options == map[]
  {
    if actionId == Translate && option != "" then map["language" := option]
    else if actionId == Style && option != "" then map["style" := option]
    else map[]
  }

  class Overlay {
    var showPanel: bool
    var askValue: string
    var focusedIndex: int
    var submenu: Option<Submenu>
    /** Calls made to the action bar, oldest first. */
    var inlineCalls: seq<InlineCall>
    var promptCalls: seq<PromptCall>

    ghost predicate Valid()
      reads this
    {
      -1 <= focusedIndex < TotalActions
      && (submenu.Some? ==>
            submenu.value.actionId in SubmenuActions
            && -1 <= submenu.value.focusedIndex < |SubmenuItems(submenu.value.actionId)|)
    }

    constructor ()
      ensures Valid() && !showPanel && askValue == [] && focusedIndex == -1 && submenu.None?
      ensures inlineCalls == [] && promptCalls == []
    {
      showPanel := false;
      askValue := [];
      focusedIndex := -1;
      submenu := None;
      inlineCalls := [];
      promptCalls := [];
    }

    /** `handleActionClick`: a submenu action opens its submenu at its
        first item; any other action is sent and the panel is reset. */
    method HandleActionClick(actionId: ActionId)
      requires Valid()
      modifies this
      ensures Valid() && askValue == old(askValue) && promptCalls == old(promptCalls)
      ensures actionId in SubmenuActions ==>
                submenu == Some(Submenu(actionId, 0)) && focusedIndex == -1
                && showPanel == old(showPanel) && inlineCalls == old(inlineCalls)
      ensures actionId !in SubmenuActions ==>
                inlineCalls == old(inlineCalls) + [InlineCall(actionId, None)]
                && !showPanel && focusedIndex == -1 && submenu.None?
    {
      if actionId in SubmenuActions {
        submenu := Some(Submenu(actionId, 0));
        focusedIndex := -1;
        return;
      }
      inlineCalls := inlineCalls + [InlineCall(actionId, None)];
      showPanel := false;
      focusedIndex := -1;
      submenu := None;
    }

    /** `handleSubmenuAction`: send the action with the chosen option and
        close everything. */
    method HandleSubmenuAction(actionId: ActionId, option: string)
      requires Valid()
      modifies this
      ensures Valid() && askValue == old(askValue) && promptCalls == old(promptCalls)
      ensures inlineCalls == old(inlineCalls) + [InlineCall(actionId, Some(SubmenuOptions(actionId, option)))]
      ensures submenu.None? && !showPanel && focusedIndex == -1
    {
      inlineCalls := inlineCalls + [InlineCall(actionId, Some(SubmenuOptions(actionId, option)))];
      submenu := None;
      showPanel := false;
      focusedIndex := -1;
    }

    /** Pointer focus on a main-menu item. */
    method FocusItem(i: int)
      requires Valid() && 0 <= i < TotalActions
      modifies this`focusedIndex
      ensures Valid() && focusedIndex == i
    {
      focusedIndex := i;
    }

    /** Pointer focus on a submenu item; with the submenu closed nothing
        changes. */
    method FocusSubmenuItem(k: int)
      requires Valid()
      requires submenu.Some? ==> 0 <= k < |SubmenuItems(submenu.value.actionId)|
      modifies this`submenu
      ensures Valid()
      ensures submenu == if old(submenu).Some? then Some(old(submenu).value.(focusedIndex := k)) else None
    {
      if submenu.Some? {
        submenu := Some(submenu.value.(focusedIndex := k));
      }
    }

    /** Focus on the submenu's Back button: no submenu item is focused. */
    method FocusBack()
      requires Valid()
      modifies this`submenu
      ensures Valid()
      ensures submenu == if old(submenu).Some? then Some(old(submenu).value.(focusedIndex := -1)) else None
    {
      if submenu.Some? {
        submenu := Some(submenu.value.(focusedIndex := -1));
      }
    }

    /** What `handleKeyDown` does with `key`, from the state before the
        keypress to the state after it; `prevented` is whether the key's
        default action was cancelled. */
    twostate predicate KeyDownEffect(key: string, view: SloptexUtils.EditorView, prevented: bool)
      requires old(Valid())
      reads this, view
    {
      // submenu open
      && (old(submenu).Some? ==>
            var s := old(submenu).value;
            var maxIndex := |SubmenuItems(s.actionId)| - 1;
            && (key == "Escape" || key == "ArrowLeft" ==>
                  submenu.None? && focusedIndex == |InlineActions| + (if s.actionId == Translate then 0 else 1)
                  && showPanel == old(showPanel) && inlineCalls == old(inlineCalls) && prevented)
            && (key == "ArrowDown" ==>
                  submenu == Some(s.(focusedIndex := NextIndex(s.focusedIndex, maxIndex)))
                  && focusedIndex == old(focusedIndex) && showPanel == old(showPanel)
                  && inlineCalls == old(inlineCalls) && prevented)
            && (key == "ArrowUp" ==>
                  submenu == Some(s.(focusedIndex := PrevIndex(s.focusedIndex, maxIndex)))
                  && focusedIndex == old(focusedIndex) && showPanel == old(showPanel)
                  && inlineCalls == old(inlineCalls) && prevented)
            && (key == "Enter" || key == " " ==>
                  prevented
                  && if 0 <= s.focusedIndex then
                       var option := SubmenuItems(s.actionId)[s.focusedIndex];
                       inlineCalls == old(inlineCalls) + [InlineCall(s.actionId, Some(SubmenuOptions(s.actionId, option)))]
                       && submenu.None? && !showPanel && focusedIndex == -1
                     else
                       inlineCalls == old(inlineCalls) && submenu == old(submenu)
                       && showPanel == old(showPanel) && focusedIndex == old(focusedIndex))
            && (key !in {"Escape", "ArrowLeft", "ArrowDown", "ArrowUp", "Enter", " "} ==>
                  !prevented && submenu == old(submenu) && focusedIndex == old(focusedIndex)
                  && showPanel == old(showPanel) && inlineCalls == old(inlineCalls)))
      // main menu
      && (old(submenu).None? ==>
            var i := old(focusedIndex);
            && (key == "Escape" ==>
                  prevented && !showPanel && focusedIndex == -1 && submenu.None? && view.hasFocus
                  && inlineCalls == old(inlineCalls))
            && (key == "ArrowDown" ==>
                  prevented && focusedIndex == NextIndex(i, TotalActions - 1)
                  && submenu.None? && showPanel == old(showPanel) && inlineCalls == old(inlineCalls))
            && (key == "ArrowUp" ==>
                  prevented && focusedIndex == PrevIndex(i, TotalActions - 1)
                  && submenu.None? && showPanel == old(showPanel) && inlineCalls == old(inlineCalls))
            && (key == "Enter" && i >= 0 && MenuAction(i) in SubmenuActions ==>
                  prevented && submenu == Some(Submenu(MenuAction(i), 0)) && focusedIndex == -1
                  && showPanel == old(showPanel) && inlineCalls == old(inlineCalls))
            && (key == "Enter" && i >= 0 && MenuAction(i) !in SubmenuActions ==>
                  prevented && inlineCalls == old(inlineCalls) + [InlineCall(MenuAction(i), None)]
                  && !showPanel && focusedIndex == -1 && submenu.None?)
            && (key == "ArrowRight" && i >= 0 && MenuAction(i) in SubmenuActions ==>
                  prevented && submenu == Some(Submenu(MenuAction(i), 0)) && focusedIndex == i
                  && showPanel == old(showPanel) && inlineCalls == old(inlineCalls))
            && (key !in {"Escape", "ArrowDown", "ArrowUp"} && !(key == "Enter" && i >= 0)
                && !(key == "ArrowRight" && i >= 0 && MenuAction(i) in SubmenuActions) ==>
                  !prevented && submenu.None? && focusedIndex == i && showPanel == old(showPanel)
                  && inlineCalls == old(inlineCalls)))
    }

    /** `handleKeyDown`; `prevented` is whether the key's default action
        was cancelled. */
    method HandleKeyDown(key: string, view: SloptexUtils.EditorView)
      returns (prevented: bool)
      requires Valid()
      modifies this, view`hasFocus
      ensures Valid() && askValue == old(askValue) && promptCalls == old(promptCalls)
      ensures KeyDownEffect(key, view, prevented)
    {
      prevented := false;
      if submenu.Some? {
        var s := submenu.value;
        var items := SubmenuItems(s.actionId);
        var maxIndex := |items| - 1;
        if key == "Escape" || key == "ArrowLeft" {
          prevented := true;
          submenu := None;
          focusedIndex := |InlineActions| + (if s.actionId == Translate then 0 else 1);
          return;
        }
        if key == "ArrowDown" {
          prevented := true;
          submenu := Some(s.(focusedIndex := NextIndex(s.focusedIndex, maxIndex)));
          return;
        }
        if key == "ArrowUp" {
          prevented := true;
          submenu := Some(s.(focusedIndex := PrevIndex(s.focusedIndex, maxIndex)));
          return;
        }
        if key == "Enter" || key == " " {
          prevented := true;
          if 0 <= s.focusedIndex {
            HandleSubmenuAction(s.actionId, items[s.focusedIndex]);
          }
          return;
        }
        return;
      }
      if key == "Escape" {
        prevented := true;
        showPanel := false;
        focusedIndex := -1;
        submenu := None;
        view.Focus();
        return;
      }
      if key == "ArrowDown" {
        prevented := true;
        focusedIndex := NextIndex(focusedIndex, TotalActions - 1);
        return;
      }
      if key == "ArrowUp" {
        prevented := true;
        focusedIndex := PrevIndex(focusedIndex, TotalActions - 1);
        return;
      }
      if key == "Enter" && focusedIndex >= 0 {
        prevented := true;
        HandleActionClick(MenuAction(focusedIndex));
        return;
      }
      if key == "ArrowRight" && focusedIndex >= 0 {
        var actionId := MenuAction(focusedIndex);
        if actionId in SubmenuActions {
          prevented := true;
          submenu := Some(Submenu(actionId, 0));
          return;
        }
      }
    }

    /** `handleSearchSubmit`: ask about the trimmed input, or else about
        the selected text; with neither, nothing happens. */
    method HandleSearchSubmit(view: SloptexUtils.EditorView)
      requires Valid() && view.Valid()
      modifies this
      ensures Valid() && inlineCalls == old(inlineCalls)
      ensures var fallback := if view.Empty() then "" else view.doc[view.From()..view.To()];
              var value := if Trim(old(askValue)) != "" then Trim(old(askValue)) else fallback;
              && (value == "" ==>
                    promptCalls == old(promptCalls) && askValue == old(askValue)
                    && showPanel == old(showPanel) && focusedIndex == old(focusedIndex)
                    && submenu == old(submenu))
              && (value != "" ==>
                    promptCalls == old(promptCalls) + [PromptCall(Assist, value)]
                    && askValue == "" && !showPanel && focusedIndex == -1 && submenu.None?)
    {
      var fallback := if view.Empty() then "" else view.doc[view.From()..view.To()];
      var trimmed := Trim(askValue);
      var value := if trimmed != "" then trimmed else fallback;
      if value == "" {
        return;
      }
      promptCalls := promptCalls + [PromptCall(Assist, value)];
      askValue := "";
      showPanel := false;
      focusedIndex := -1;
      submenu := None;
    }

    /** The bubble's button: the panel opens or closes, with no item
        focused and no submenu. */
    method ToggleBubble()
      requires Valid()
      modifies this`showPanel, this`focusedIndex, this`submenu
      ensures Valid() && showPanel == !old(showPanel) && focusedIndex == -1 && submenu.None?
    {
      showPanel := !showPanel;
      focusedIndex := -1;
      submenu := None;
    }

    /** Typing in the ask box replaces its value. */
    method SetAskValue(value: string)
      modifies this`askValue
      ensures askValue == value
    {
      askValue := value;
    }

    /** A key pressed in the ask box. The box's own handler runs first:
        Enter without Shift submits the question and stops the event there;
        ArrowDown focuses the first action. Every other key, and ArrowDown
        too, then bubbles up to the panel's `handleKeyDown`, which sees the
        state from before the keypress. Its focus change is the later one
        and wins; where it sets none (ArrowDown in a submenu), the first
        action stays focused. */
    method AskKeyDown(key: string, shift: bool, view: SloptexUtils.EditorView)
      returns (prevented: bool)
      requires Valid() && view.Valid()
      modifies this, view`hasFocus
      ensures Valid()
      ensures key == "Enter" && !shift ==>
                var fallback := if view.Empty() then "" else view.doc[view.From()..view.To()];
                var value := if Trim(old(askValue)) != "" then Trim(old(askValue)) else fallback;
                && prevented && inlineCalls == old(inlineCalls) && view.hasFocus == old(view.hasFocus)
                && (value == "" ==>
                      promptCalls == old(promptCalls) && askValue == old(askValue) && showPanel == old(showPanel)
                      && focusedIndex == old(focusedIndex) && submenu == old(submenu))
                && (value != "" ==>
                      promptCalls == old(promptCalls) + [PromptCall(Assist, value)]
                      && askValue == "" && !showPanel && focusedIndex == -1 && submenu.None?)
      ensures !(key == "Enter" && !shift) ==>
                askValue == old(askValue) && promptCalls == old(promptCalls)
      ensures !(key == "Enter" && !shift) && key != "ArrowDown" ==>
                KeyDownEffect(key, view, prevented)
      ensures key == "ArrowDown" ==>
                prevented && showPanel == old(showPanel) && inlineCalls == old(inlineCalls)
                && (old(submenu).None? ==>
                      focusedIndex == NextIndex(old(focusedIndex), TotalActions - 1) && submenu.None?)
                && (old(submenu).Some? ==>
                      var s := old(submenu).value;
                      focusedIndex == 0
                      && submenu == Some(s.(focusedIndex := NextIndex(s.focusedIndex, |SubmenuItems(s.actionId)| - 1))))
    {
      if key == "Enter" && !shift {
        HandleSearchSubmit(view);
        prevented := true;
        return;
      }
      var inSubmenu := submenu.Some?;
      prevented := HandleKeyDown(key, view);
      if key == "ArrowDown" {
        prevented := true;
        if inSubmenu {
          focusedIndex := 0;
        }
      }
    }
  }

  // ---------------------------------------------------------------------
  // The proposed-edit view
  // ---------------------------------------------------------------------

  /** One part of a line diff. */
  datatype DiffPart = DiffPart(value: string, added: bool, removed: bool)

  /** One displayed line: its key (part, line), its sign and its text. */
  datatype Row = Row(part: nat, line: nat, sign: char, text: string)

  function Sign(p: DiffPart): (c: char)
    ensures c == '+' <==> p.added
    ensures c == '-' <==> !p.added && p.removed
  {
    if p.added then '+' else if p.removed then '-' else ' '
  }

  /** The lines of a part: its pieces between newlines, without the empty
      piece after a final newline. */
  function PartLines(value: string): (lines: seq<string>)
    ensures forall k :: 0 <= k < |lines| ==> !Contains(lines[k], "\n")
  {
    var pieces := Split(value, "\n");
    SplitPiecesFree(value, "\n");
    if pieces[|pieces| - 1] == "" then pieces[..|pieces| - 1] else pieces
  }

  /** The rows of one part. */
  function PartRows(index: nat, p: DiffPart): (rows: seq<Row>)
    ensures |rows| == |PartLines(p.value)|
    ensures forall k :: 0 <= k < |rows| ==> rows[k] == Row(index, k, Sign(p), PartLines(p.value)[k])
  {
    var lines := PartLines(p.value);
    seq(|lines|, k requires 0 <= k < |lines| => Row(index, k, Sign(p), lines[k]))
  }

  /** All rows, part by part. */
  function Rows(parts: seq<DiffPart>): seq<Row>
  {
    if parts == [] then []
    else Rows(parts[..|parts| - 1]) + PartRows(|parts| - 1, parts[|parts| - 1])
  }

  /** `diffRows`: walks every part and every line, skipping only an empty
      last line. */
  method DiffRows(parts: seq<DiffPart>) returns (rows: seq<Row>)
    ensures rows == Rows(parts)
  {
    rows := [];
    var i := 0;
    while i < |parts|
      invariant 0 <= i <= |parts|
      invariant rows == Rows(parts[..i])
    {
      var partRows := PartRowsOf(i, parts[i]);
      RowsStep(parts, i);
      rows := rows + partRows;
      i := i + 1;
    }
    assert parts[..i] == parts;
  }

  /** The inner loop of `diffRows`: the rows of one part, line by line. */
  method PartRowsOf(index: nat, part: DiffPart) returns (rows: seq<Row>)
    ensures rows == PartRows(index, part)
  {
    var lines := Split(part.value, "\n");
    ghost var kept := PartLines(part.value);
    ghost var all := PartRows(index, part);
    PartLinesOfPieces(part.value);
    rows := [];
    var j := 0;
    while j < |lines|
      invariant 0 <= j <= |lines|
      invariant j <= |kept| || j == |lines|
      invariant j <= |kept| ==> rows == all[..j]
      invariant j > |kept| ==> rows == all
    {
      if lines[j] == "" && j == |lines| - 1 {
        assert j == |kept| && all[..j] == all;
        j := j + 1;
        continue;
      }
      PartRowsStep(index, part, j);
      rows := rows + [Row(index, j, Sign(part), lines[j])];
      j := j + 1;
    }
    assert all[..|kept|] == all;
  }

  lemma RowsStep(parts: seq<DiffPart>, i: nat)
    requires i < |parts|
    ensures Rows(parts[..i + 1]) == Rows(parts[..i]) + PartRows(i, parts[i])
  {
    assert parts[..i + 1][..i] == parts[..i];
  }

  /** The kept lines are the pieces, less an empty last one. */
  lemma PartLinesOfPieces(value: string)
    ensures var pieces, kept := Split(value, "\n"), PartLines(value);
            kept == pieces[..|kept|]
            && (|kept| == |pieces| || (|kept| + 1 == |pieces| && pieces[|kept|] == ""))
            && (|kept| + 1 == |pieces| ==> pieces[|pieces| - 1] == "")
  {
  }

  /** One more kept line adds one row. */
  lemma PartRowsStep(index: nat, p: DiffPart, j: nat)
    requires j < |Split(p.value, "\n")|
    requires !(Split(p.value, "\n")[j] == "" && j == |Split(p.value, "\n")| - 1)
    ensures j < |PartLines(p.value)|
    ensures PartRows(index, p)[..j + 1] == PartRows(index, p)[..j] + [Row(index, j, Sign(p), Split(p.value, "\n")[j])]
  {
    PartLinesOfPieces(p.value);
  }

  /** The lines of a part, joined with newlines, give its text back, up to
      the dropped final newline. */
  lemma PartLinesRoundTrip(value: string)
    ensures var lines := PartLines(value);
            Join(lines, "\n") == value
            || (|lines| > 0 && Join(lines, "\n") + "\n" == value)
            || (lines == [] && value == "")
  {
    var pieces := Split(value, "\n");
    JoinSplit(value, "\n");
    if pieces[|pieces| - 1] == "" && |pieces| > 1 {
      JoinLast(pieces[..|pieces| - 1], "", "\n");
      assert pieces[..|pieces| - 1] + [""] == pieces;
    }
  }

  /** Joining with one more piece appends the separator and the piece. */
  lemma {:induction false} JoinLast(parts: seq<string>, last: string, sep: string)
    requires |parts| > 0
    ensures Join(parts + [last], sep) == Join(parts, sep) + sep + last
  {
    if |parts| > 1 {
      assert (parts + [last])[1..] == parts[1..] + [last];
      JoinLast(parts[1..], last, sep);
    }
  }
}
