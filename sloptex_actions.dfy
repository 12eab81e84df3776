// The SlopTex action table of the editor: each action's label key, target
// and requirements, the toolbar sections and the translated labels.
module SloptexActions {
  datatype ActionId =
    | Assist | Title | AbstractText | Paraphrase | Translate | Style
    | SplitText | JoinText | Summarize | Explain | FixLatex

  /** The action's id as the code spells it. */
  function IdName(id: ActionId): string
  {
    match id
    case Assist => "assist"
    case Title => "title"
    case AbstractText => "abstract"
    case Paraphrase => "paraphrase"
    case Translate => "translate"
    case Style => "style"
    case SplitText => "split"
    case JoinText => "join"
    case Summarize => "summarize"
    case Explain => "explain"
    case FixLatex => "fix_latex"
  }

  /** Where an action's output goes. */
  datatype Target = Insert | Replace | NoTarget

  datatype ActionConfig = ActionConfig(
    id: ActionId,
    labelKey: string,
    requiresSelection: bool,
    requiresInput: bool,
    target: Target,
    icon: string)

  /** An action that writes at the cursor and needs typed input. */
  function InsertAction(id: ActionId, labelKey: string, icon: string): ActionConfig
  {
    ActionConfig(id, labelKey, false, true, Insert, icon)
  }

  /** An action that rewrites the selection. */
  function ReplaceAction(id: ActionId, labelKey: string, icon: string): ActionConfig
  {
    ActionConfig(id, labelKey, true, false, Replace, icon)
  }

  /** `SLOPTEX_ACTIONS`. */
  function Config(id: ActionId): (r: ActionConfig)
    ensures r.id == id && r.target != NoTarget
  {
    match id
    case Assist => InsertAction(Assist, "sloptex_action_assist", "auto_awesome")
    case Title => InsertAction(Title, "sloptex_action_title", "title")
    case AbstractText => InsertAction(AbstractText, "sloptex_action_abstract", "description")
    case Paraphrase => ReplaceAction(Paraphrase, "sloptex_action_paraphrase", "sync")
    case Translate => ReplaceAction(Translate, "sloptex_action_translate", "translate")
    case Style => ReplaceAction(Style, "sloptex_action_style", "format_paint")
    case SplitText => ReplaceAction(SplitText, "sloptex_action_split", "call_split")
    case JoinText => ReplaceAction(JoinText, "sloptex_action_join", "merge_type")
    case Summarize => ReplaceAction(Summarize, "sloptex_action_summarize", "short_text")
    case Explain => ReplaceAction(Explain, "sloptex_action_explain", "lightbulb")
    case FixLatex => ReplaceAction(FixLatex, "sloptex_action_fix_latex", "build")
  }

  /** Every entry is keyed by its own id and labelled `sloptex_action_<id>`;
      selection is required exactly for replacing actions, input exactly
      for inserting ones, and no action has no target. */
  lemma ConfigConsistent(id: ActionId)
    ensures Config(id).id == id
    ensures Config(id).labelKey == "sloptex_action_" + IdName(id)
    ensures Config(id).requiresSelection <==> Config(id).target == Replace
    ensures Config(id).requiresInput <==> Config(id).target == Insert
    ensures Config(id).target != NoTarget
    ensures Config(id).target == Insert <==> id in {Assist, Title, AbstractText}
  {
    match id {
      case Assist => assert "sloptex_action_" + "assist" == "sloptex_action_assist";
      case Title => assert "sloptex_action_" + "title" == "sloptex_action_title";
      case AbstractText => assert "sloptex_action_" + "abstract" == "sloptex_action_abstract";
      case Paraphrase => assert "sloptex_action_" + "paraphrase" == "sloptex_action_paraphrase";
      case Translate => assert "sloptex_action_" + "translate" == "sloptex_action_translate";
      case Style => assert "sloptex_action_" + "style" == "sloptex_action_style";
      case SplitText => assert "sloptex_action_" + "split" == "sloptex_action_split";
      case JoinText => assert "sloptex_action_" + "join" == "sloptex_action_join";
      case Summarize => assert "sloptex_action_" + "summarize" == "sloptex_action_summarize";
      case Explain => assert "sloptex_action_" + "explain" == "sloptex_action_explain";
      case FixLatex => assert "sloptex_action_" + "fix_latex" == "sloptex_action_fix_latex";
    }
  }

  /** Different actions have different names. */
  lemma IdNameInjective(a: ActionId, b: ActionId)
    requires IdName(a) == IdName(b)
    ensures a == b
  {
    var na, nb := IdName(a), IdName(b);
    assert na[0] == nb[0] && |na| == |nb|;
    if na[0] == 's' {
      assert na[1] == nb[1];
    }
  }

  datatype SectionItem = ActionItem(action: ActionId) | Settings

  /** `SLOPTEX_SECTIONS`. */
  const Sections: seq<seq<SectionItem>> := [
    [ActionItem(Assist), ActionItem(Title), ActionItem(AbstractText)],
    [ActionItem(Paraphrase), ActionItem(Translate), ActionItem(Style), ActionItem(SplitText),
     ActionItem(JoinText), ActionItem(Summarize), ActionItem(Explain), ActionItem(FixLatex)],
    [Settings]
  ]

  function Flatten(sections: seq<seq<SectionItem>>): seq<SectionItem>
  {
    if sections == [] then [] else sections[0] + Flatten(sections[1..])
  }

  function Occurrences(items: seq<SectionItem>, x: SectionItem): nat
  {
    if items == [] then 0 else (if items[0] == x then 1 else 0) + Occurrences(items[1..], x)
  }

  /** The toolbar lists every action exactly once and the settings button
      once, alone in the last section. */
  lemma SectionsListEachOnce(x: SectionItem)
    ensures Occurrences(Flatten(Sections), x) == 1
    ensures Sections[|Sections| - 1] == [Settings]
  {
    var all := Flatten(Sections);
    assert all == Sections[0] + Sections[1] + Sections[2] + [] by {
      assert Sections[1..][1..][1..] == [];
    }
    assert all == [ActionItem(Assist), ActionItem(Title), ActionItem(AbstractText),
                   ActionItem(Paraphrase), ActionItem(Translate), ActionItem(Style),
                   ActionItem(SplitText), ActionItem(JoinText), ActionItem(Summarize),
                   ActionItem(Explain), ActionItem(FixLatex), Settings];
    OccurrencesDistinct(all, x);
    assert x.Settings? || x.action.Assist? || x.action.Title? || x.action.AbstractText?
           || x.action.Paraphrase? || x.action.Translate? || x.action.Style? || x.action.SplitText?
           || x.action.JoinText? || x.action.Summarize? || x.action.Explain? || x.action.FixLatex?;
  }

  /** In a list without repeats an item occurs once or not at all. */
  lemma {:induction false} OccurrencesDistinct(items: seq<SectionItem>, x: SectionItem)
    requires forall i, j :: 0 <= i < j < |items| ==> items[i] != items[j]
    ensures Occurrences(items, x) == if x in items then 1 else 0
  {
    if items != [] {
      OccurrencesDistinct(items[1..], x);
      if items[0] == x {
        assert x !in items[1..];
      }
    }
  }

  /** `buildSloptexActionLabels`: the translation of each label key. */
  function BuildLabels(t: string -> string): (labels: map<ActionId, string>)
    ensures forall id: ActionId :: id in labels && labels[id] == t(Config(id).labelKey)
  {
    var all := AllActions();
    var labels := map id: ActionId | id in all :: t(Config(id).labelKey);
    assert forall id: ActionId :: id in labels && labels[id] == t(Config(id).labelKey) by {
      forall id: ActionId
        ensures id in labels && labels[id] == t(Config(id).labelKey)
      {
        assert id in all;
      }
    }
    labels
  }

  function AllActions(): (r: set<ActionId>)
    ensures forall id: ActionId :: id in r
  {
    var all := {Assist, Title, AbstractText, Paraphrase, Translate, Style, SplitText, JoinText,
                Summarize, Explain, FixLatex};
    assert forall id: ActionId :: id in all by {
      forall id: ActionId
        ensures id in all
      {
        assert id.Assist? || id.Title? || id.AbstractText? || id.Paraphrase? || id.Translate?
               || id.Style? || id.SplitText? || id.JoinText? || id.Summarize? || id.Explain?
               || id.FixLatex?;
      }
    }
    all
  }
}
