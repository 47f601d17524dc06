/** The host editor as the commands see it: a document whose nodes are
    addressed by position, a selection, transactions made of
    position-addressed attribute rewrites, and the dispatch that commits
    them. */
module Editor {
  import opened Attrs

  /** A node of the document tree, flattened: its absolute start position,
      its size in the flat addressing space, its type name and its
      attribute bag. */
  datatype Node = Node(pos: int, size: nat, typeName: string, attrs: Bag)

  /** The document's nodes in document order (a pre-order walk of the tree). */
  type Doc = seq<Node>

  datatype Selection = Selection(from: int, to: int)

  /** `tr.setNodeMarkup(pos, undefined, attrs)`: replace the attribute bag
      of the node that starts at `pos`, keeping its type. */
  datatype Edit = Edit(pos: int, attrs: Bag)

  /** A transaction: the selection it carries and its edits, in the order
      they were added. */
  datatype Transaction = Transaction(selection: Selection, steps: seq<Edit>)

  /** Nodes of a pre-order walk start at strictly ascending positions, so a
      position names at most one node. */
  ghost predicate ValidDoc(doc: Doc) {
    forall i, j :: 0 <= i < j < |doc| ==> doc[i].pos < doc[j].pos
  }

  /** Two documents with the same nodes at the same positions, with the same
      sizes and types: they differ at most in attributes. */
  ghost predicate SameShape(a: Doc, b: Doc) {
    |a| == |b| &&
    forall i :: 0 <= i < |a| ==>
      a[i].pos == b[i].pos && a[i].size == b[i].size && a[i].typeName == b[i].typeName
  }

  /** `nodesBetween(from, to)` visits a node when any part of it lies in the
      range: it starts before `to` and ends after `from`. A collapsed
      selection (`from == to`) strictly inside a node thus visits that node. */
  predicate Touches(n: Node, sel: Selection): (visited: bool)
    ensures sel.from <= sel.to && n.pos < sel.from < n.pos + n.size ==> visited
    ensures sel.from <= n.pos < sel.to && 0 < n.size ==> visited
    ensures n.pos + n.size <= sel.from ==> !visited
    ensures sel.to <= n.pos ==> !visited
  {
    n.pos < sel.to && sel.from < n.pos + n.size
  }

  /** Applies one edit: the node starting at `e.pos` gets `e.attrs`. */
  function ApplyEdit(doc: Doc, e: Edit): (r: Doc)
    ensures SameShape(doc, r)
    ensures forall i :: 0 <= i < |doc| && doc[i].pos == e.pos ==> r[i].attrs == e.attrs
    ensures forall i :: 0 <= i < |doc| && doc[i].pos != e.pos ==> r[i] == doc[i]
  {
    seq(|doc|, i requires 0 <= i < |doc| =>
      if doc[i].pos == e.pos then doc[i].(attrs := e.attrs) else doc[i])
  }

  /** Applies a transaction's edits in order, each addressed against the
      same positions: attribute rewrites never change a node's size, so no
      position shifts while the transaction is applied. */
  function Apply(doc: Doc, steps: seq<Edit>): (r: Doc)
    ensures SameShape(doc, r)
    decreases |steps|
  {
    if steps == [] then doc
    else ApplyEdit(Apply(doc, steps[..|steps| - 1]), steps[|steps| - 1])
  }

  /** Edits addressed elsewhere leave a trailing node alone. */
  lemma {:induction false} ApplyPastEnd(doc: Doc, n: Node, steps: seq<Edit>)
    requires forall k :: 0 <= k < |steps| ==> steps[k].pos != n.pos
    ensures Apply(doc + [n], steps) == Apply(doc, steps) + [n]
    decreases |steps|
  {
    if steps != [] {
      var m := |steps| - 1;
      ApplyPastEnd(doc, n, steps[..m]);
      var a := Apply(doc, steps[..m]);
      assert ApplyEdit(a + [n], steps[m]) == ApplyEdit(a, steps[m]) + [n];
    }
  }

  /** A rewrite that keeps every node's position keeps the document
      well-formed. */
  lemma SameShapeKeepsValid(a: Doc, b: Doc)
    requires ValidDoc(a) && SameShape(a, b)
    ensures ValidDoc(b)
  {
    forall i, j | 0 <= i < j < |b| ensures b[i].pos < b[j].pos {
      assert a[i].pos < a[j].pos;
    }
  }

  /** The host's editor state: the document, the selection, and how many
      transactions have been dispatched to it. */
  class EditorState {
    var doc: Doc
    var selection: Selection
    var dispatched: nat

    constructor (doc: Doc, selection: Selection)
      ensures this.doc == doc && this.selection == selection && dispatched == 0
    {
      this.doc := doc;
      this.selection := selection;
      dispatched := 0;
    }

    /** `dispatch(tr)`: the whole transaction is committed at once and its
        selection becomes the editor's. */
    method Dispatch(tr: Transaction)
      modifies this
      ensures doc == Apply(old(doc), tr.steps)
      ensures selection == tr.selection
      ensures dispatched == old(dispatched) + 1
    {
      doc := Apply(doc, tr.steps);
      selection := tr.selection;
      dispatched := dispatched + 1;
    }
  }
}
