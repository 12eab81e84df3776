// The two editor helpers of SlopTex: reading the main selection and
// writing text over it (or at the cursor). The editor is reduced to its
// document and one selection range.
module SloptexUtils {
  import opened Wrappers

  /** The editor state SlopTex touches: the document and the main
      selection range, from `anchor` to `head` in either direction. */
  class EditorView {
    var doc: string
    var anchor: nat
    var head: nat
    var hasFocus: bool

    ghost predicate Valid()
      reads this
    {
      anchor <= |doc| && head <= |doc|
    }

    constructor (text: string, selectionAnchor: nat, selectionHead: nat)
      requires selectionAnchor <= |text| && selectionHead <= |text|
      ensures Valid() && doc == text && anchor == selectionAnchor && head == selectionHead && !hasFocus
    {
      doc := text;
      anchor := selectionAnchor;
      head := selectionHead;
      hasFocus := false;
    }

    function From(): nat
      reads this
    {
      if anchor <= head then anchor else head
    }

    function To(): nat
      reads this
    {
      if anchor <= head then head else anchor
    }

    predicate Empty()
      reads this
    {
      anchor == head
    }

    /** `view.dispatch` of one change with a new selection. A range outside
        the document makes the editor throw, and nothing changes. */
    method Dispatch(from: nat, to: nat, insert: string, newAnchor: nat, newHead: nat) returns (applied: bool)
      requires Valid()
      modifies this`doc, this`anchor, this`head
      ensures Valid()
      ensures applied <==> from <= to <= |old(doc)| && newAnchor <= |old(doc)| - (to - from) + |insert|
                           && newHead <= |old(doc)| - (to - from) + |insert|
      ensures applied ==> doc == Splice(old(doc), from, to, insert) && anchor == newAnchor && head == newHead
      ensures !applied ==> doc == old(doc) && anchor == old(anchor) && head == old(head)
    {
      var newLength := |doc| - (to - from) + |insert|;
      if from <= to <= |doc| && newAnchor <= newLength && newHead <= newLength {
        doc := Splice(doc, from, to, insert);
        anchor, head := newAnchor, newHead;
        applied := true;
      } else {
        applied := false;
      }
    }

    /** `view.focus()`. */
    method Focus()
      modifies this`hasFocus
      ensures hasFocus
    {
      hasFocus := true;
    }
  }

  /** `doc[0..from) + text + doc[to..)`. */
  function Splice(doc: string, from: nat, to: nat, text: string): (r: string)
    requires from <= to <= |doc|
    ensures |r| == |doc| - (to - from) + |text|
    ensures r[..from] == doc[..from]
    ensures r[from..from + |text|] == text
    ensures r[from + |text|..] == doc[to..]
  {
    doc[..from] + text + doc[to..]
  }

  /** A splice is undone by splicing the removed text back. */
  lemma SpliceUndo(doc: string, from: nat, to: nat, text: string)
    requires from <= to <= |doc|
    ensures Splice(Splice(doc, from, to, text), from, from + |text|, doc[from..to]) == doc
  {
    var once := Splice(doc, from, to, text);
    assert once[..from] == doc[..from] && once[from + |text|..] == doc[to..];
    assert doc == doc[..from] + doc[from..to] + doc[to..];
  }

  datatype Selection = Selection(from: nat, to: nat, text: string)

  /** `getPrimarySelection`: nothing without an editor or for an empty
      selection, otherwise the range and its text. */
  function GetPrimarySelection(view: EditorView?): (r: Option<Selection>)
    reads view
    requires view != null ==> view.Valid()
    ensures view == null || view.Empty() <==> r.None?
    ensures r.Some? ==> r.value.from == view.From() && r.value.to == view.To()
                        && r.value.from < r.value.to <= |view.doc|
                        && r.value.text == view.doc[r.value.from..r.value.to]
  {
    if view == null then None
    else if view.Empty() then None
    else Some(Selection(view.From(), view.To(), view.doc[view.From()..view.To()]))
  }

  /** `replaceSelection`: overwrite the selection with `text`, or insert
      it at the cursor head, leaving the cursor just after it. */
  method ReplaceSelection(view: EditorView?, text: string, insertAtCursor: bool)
    requires view != null ==> view.Valid()
    modifies view
    ensures view != null ==> view.Valid()
    ensures view != null ==>
              var start := if insertAtCursor then old(view.head) else old(view.From());
              var end := if insertAtCursor then old(view.head) else old(view.To());
              view.doc == Splice(old(view.doc), start, end, text)
              && view.anchor == view.head == start + |text|
              && view.hasFocus
  {
    if view == null {
      return;
    }
    var start := if insertAtCursor then view.head else view.From();
    var end := if insertAtCursor then view.head else view.To();
    var applied := view.Dispatch(start, end, text, start + |text|, start + |text|);
    view.Focus();
  }

  /** Inserting at the cursor removes nothing: the old document is the
      result with the inserted text taken out. */
  lemma InsertDeletesNothing(doc: string, pos: nat, text: string)
    requires pos <= |doc|
    ensures var r := Splice(doc, pos, pos, text);
            |r| == |doc| + |text| && r[..pos] + r[pos + |text|..] == doc
  {
    var r := Splice(doc, pos, pos, text);
    assert r[..pos] == doc[..pos] && r[pos + |text|..] == doc[pos..];
    assert doc == doc[..pos] + doc[pos..];
  }
}
