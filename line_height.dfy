/** The line-height extension: a `lineHeight` attribute on block nodes
    (paragraphs and headings by default), its inline-style render and parse
    rules, and the two commands that rewrite it on every block the selection
    touches. */
module LineHeight {
  import opened Attrs
  import opened InlineStyle
  import opened Editor

  /** The attribute's name in a node's attribute bag. */
  const LineHeightAttr := "lineHeight"
  /** The CSS property it is rendered to and parsed from. */
  const LineHeightProperty := "line-height"

  /** The extension's options: the node types it governs, and the default
      line height. That default serves three roles: it is the `lineHeight`
      attribute's declared default (where font size declares null, see
      `FontSize.FontSizeDefault`), the value an element without a line
      height parses to, and the value unset writes. */
  datatype Options = Options(types: seq<string>, defaultLineHeight: string)

  function DefaultOptions(): Options {
    Options(["paragraph", "heading"], "normal")
  }

  /** `renderHTML`: no style for a falsy line height, otherwise exactly the
      declaration `line-height: <value>`. */
  function RenderLineHeight(lineHeight: Value): (style: Option<string>)
    ensures style.None? <==> !Truthy(lineHeight)
    ensures style.Some? ==> style.value == "line-height: " + lineHeight.value
  {
    Render(LineHeightProperty, lineHeight)
  }

  /** `parseHTML`: the element's line height when it has a non-empty one,
      the configured default otherwise. */
  function ParseLineHeight(opts: Options, element: Value): (lineHeight: string)
    ensures Truthy(element) ==> lineHeight == element.value
    ensures !Truthy(element) ==> lineHeight == opts.defaultLineHeight
    ensures opts.defaultLineHeight != "" ==> lineHeight != ""
  {
    OrElse(element, opts.defaultLineHeight)
  }

  /** A node the commands rewrite: visited for the selection and of a
      governed type. */
  predicate Targeted(n: Node, sel: Selection, types: seq<string>): (targeted: bool)
    ensures targeted ==> Touches(n, sel) && n.typeName in types
    ensures n.typeName !in types ==> !targeted
    ensures sel.from <= n.pos < sel.to && 0 < n.size && n.typeName in types ==> targeted
  {
    Touches(n, sel) && n.typeName in types
  }

  /** Two bags that agree on every attribute except `key`. */
  ghost predicate AgreeExcept(a: Bag, b: Bag, key: string) {
    forall k :: k != key ==> (k in a <==> k in b) && (k in a ==> a[k] == b[k])
  }

  /** The bag `{ ...node.attrs, lineHeight: value }`: a copy that holds the
      new line height and agrees with the original everywhere else. */
  function WithLineHeight(attrs: Bag, value: string): (r: Bag)
    ensures LineHeightAttr in r && r[LineHeightAttr] == Some(value)
    ensures AgreeExcept(r, attrs, LineHeightAttr)
  {
    attrs[LineHeightAttr := Some(value)]
  }

  function RewriteNode(n: Node, sel: Selection, types: seq<string>, value: string): Node {
    if Targeted(n, sel, types) then n.(attrs := WithLineHeight(n.attrs, value)) else n
  }

  /** The document after the walk-and-rewrite, as a reference definition:
      every node in document order, each targeted one with its line height
      replaced. */
  function Rewrite(doc: Doc, sel: Selection, types: seq<string>, value: string): (r: Doc)
    ensures SameShape(doc, r)
    decreases |doc|
  {
    if doc == [] then []
    else Rewrite(doc[..|doc| - 1], sel, types, value) + [RewriteNode(doc[|doc| - 1], sel, types, value)]
  }

  /** The edits the walk queues, as a reference definition: one per
      targeted node, in document order, each addressed by the node's
      position and holding its attributes with the line height overwritten. */
  function Edits(doc: Doc, sel: Selection, types: seq<string>, value: string): seq<Edit>
    decreases |doc|
  {
    if doc == [] then []
    else
      var n := doc[|doc| - 1];
      Edits(doc[..|doc| - 1], sel, types, value) +
        (if Targeted(n, sel, types) then [Edit(n.pos, WithLineHeight(n.attrs, value))] else [])
  }

  /** The walk shared by both commands: starting from a transaction that
      carries the selection, visit the nodes in document order and queue
      one edit per targeted node, addressed by its position in the original
      document. Applying the queued edits yields the rewritten document. */
  method CollectEdits(doc: Doc, sel: Selection, types: seq<string>, value: string)
    returns (tr: Transaction)
    requires ValidDoc(doc)
    ensures tr.selection == sel
    ensures tr.steps == Edits(doc, sel, types, value)
    ensures Apply(doc, tr.steps) == Rewrite(doc, sel, types, value)
    ensures InDocumentOrder(tr.steps)
    ensures forall k :: 0 <= k < |tr.steps| ==> RewritesTarget(doc, sel, types, value, tr.steps[k])
  {
    var steps: seq<Edit> := [];
    var i: nat := 0;
    while i < |doc|
      invariant i <= |doc|
      invariant steps == Edits(doc[..i], sel, types, value)
    {
      assert doc[..i + 1][..i] == doc[..i];
      if Targeted(doc[i], sel, types) {
        steps := steps + [Edit(doc[i].pos, WithLineHeight(doc[i].attrs, value))];
      }
      i := i + 1;
    }
    assert doc[..|doc|] == doc;
    ApplyEditsIsRewrite(doc, sel, types, value);
    EditsRewriteTargetsInOrder(doc, sel, types, value);
    tr := Transaction(sel, steps);
  }

  /** Applying the queued edits, each against the original positions,
      yields the rewritten document: no edit shifts a later position, and
      each position names one node. */
  lemma {:induction false} ApplyEditsIsRewrite(doc: Doc, sel: Selection, types: seq<string>, value: string)
    requires ValidDoc(doc)
    ensures Apply(doc, Edits(doc, sel, types, value)) == Rewrite(doc, sel, types, value)
    decreases |doc|
  {
    if doc != [] {
      var m := |doc| - 1;
      assert ValidDoc(doc[..m]);
      ApplyEditsIsRewrite(doc[..m], sel, types, value);
      PriorEditsSkipLast(doc, sel, types, value);
      if Targeted(doc[m], sel, types) {
        LastTargetedStep(doc, sel, types, value);
      } else {
        var es := Edits(doc[..m], sel, types, value);
        assert Edits(doc, sel, types, value) == es + [];
        assert es + [] == es;
      }
    }
  }

  /** The edits queued for all but the last node leave the last node alone
      and, by the induction hypothesis, rewrite the nodes before it. */
  lemma PriorEditsSkipLast(doc: Doc, sel: Selection, types: seq<string>, value: string)
    requires ValidDoc(doc) && doc != []
    requires Apply(doc[..|doc| - 1], Edits(doc[..|doc| - 1], sel, types, value))
      == Rewrite(doc[..|doc| - 1], sel, types, value)
    ensures Apply(doc, Edits(doc[..|doc| - 1], sel, types, value))
      == Rewrite(doc[..|doc| - 1], sel, types, value) + [doc[|doc| - 1]]
  {
    var m := |doc| - 1;
    var init, n := doc[..m], doc[m];
    assert doc == init + [n];
    EditsBefore(doc, sel, types, value, m);
    ApplyPastEnd(init, n, Edits(init, sel, types, value));
  }

  /** The step for a targeted last node: its edit, queued last, rewrites
      it alone. */
  lemma LastTargetedStep(doc: Doc, sel: Selection, types: seq<string>, value: string)
    requires ValidDoc(doc) && doc != [] && Targeted(doc[|doc| - 1], sel, types)
    requires Apply(doc, Edits(doc[..|doc| - 1], sel, types, value))
      == Rewrite(doc[..|doc| - 1], sel, types, value) + [doc[|doc| - 1]]
    ensures Apply(doc, Edits(doc, sel, types, value)) == Rewrite(doc, sel, types, value)
  {
    var m := |doc| - 1;
    var n := doc[m];
    var es := Edits(doc[..m], sel, types, value);
    var r := Rewrite(doc[..m], sel, types, value);
    var e := Edit(n.pos, WithLineHeight(n.attrs, value));
    assert (es + [e])[..|es|] == es;
    forall j | 0 <= j < m ensures r[j].pos != e.pos {
      assert r[j].pos == doc[j].pos < doc[m].pos;
    }
    ApplyLastEdit(r, n, e);
    assert Edits(doc, sel, types, value) == es + [e];
    assert Apply(doc, es + [e]) == ApplyEdit(r + [n], e);
  }

  /** An edit addressed to a trailing node, and to no node before it,
      rewrites that node alone. */
  lemma ApplyLastEdit(r: Doc, n: Node, e: Edit)
    requires e.pos == n.pos
    requires forall j :: 0 <= j < |r| ==> r[j].pos != e.pos
    ensures ApplyEdit(r + [n], e) == r + [n.(attrs := e.attrs)]
  {
    var a, b := ApplyEdit(r + [n], e), r + [n.(attrs := e.attrs)];
    forall j | 0 <= j < |a| ensures a[j] == b[j] {
      if j < |r| {
        assert (r + [n])[j] == r[j];
      }
    }
  }

  /** The edits queued for the nodes before node `i` address positions
      before node `i`'s. */
  lemma EditsBefore(doc: Doc, sel: Selection, types: seq<string>, value: string, i: nat)
    requires ValidDoc(doc) && i < |doc|
    ensures forall k :: 0 <= k < |Edits(doc[..i], sel, types, value)| ==>
      Edits(doc[..i], sel, types, value)[k].pos < doc[i].pos
  {
    var init := doc[..i];
    var es := Edits(init, sel, types, value);
    assert ValidDoc(init);
    EditsRewriteTargetsInOrder(init, sel, types, value);
    forall k | 0 <= k < |es| ensures es[k].pos < doc[i].pos {
      var j :| RewritesNode(init, sel, types, value, es[k], j);
      assert doc[j].pos < doc[i].pos;
    }
  }

  /** Positions of the edits strictly ascend: they are queued in document
      order. */
  ghost predicate InDocumentOrder(steps: seq<Edit>) {
    forall k, l :: 0 <= k < l < |steps| ==> steps[k].pos < steps[l].pos
  }

  /** The edit for node `i`, when node `i` is targeted. */
  ghost predicate RewritesNode(doc: Doc, sel: Selection, types: seq<string>, value: string, e: Edit, i: int) {
    0 <= i < |doc| && Targeted(doc[i], sel, types) &&
    e == Edit(doc[i].pos, WithLineHeight(doc[i].attrs, value))
  }

  /** The edit rewrites some targeted node of `doc`. */
  ghost predicate RewritesTarget(doc: Doc, sel: Selection, types: seq<string>, value: string, e: Edit) {
    exists i :: RewritesNode(doc, sel, types, value, e, i)
  }

  /** Every queued edit is the rewrite of some targeted node, and the edits
      are in document order. */
  lemma {:induction false} EditsRewriteTargetsInOrder(doc: Doc, sel: Selection, types: seq<string>, value: string)
    requires ValidDoc(doc)
    ensures forall k :: 0 <= k < |Edits(doc, sel, types, value)| ==>
      RewritesTarget(doc, sel, types, value, Edits(doc, sel, types, value)[k])
    ensures InDocumentOrder(Edits(doc, sel, types, value))
    decreases |doc|
  {
    if doc != [] {
      var m := |doc| - 1;
      var init := doc[..m];
      var es := Edits(init, sel, types, value);
      EditsRewriteTargetsInOrder(init, sel, types, value);
      forall k | 0 <= k < |es| ensures exists i :: RewritesNode(doc, sel, types, value, es[k], i) && i < m {
        var i :| RewritesNode(init, sel, types, value, es[k], i);
        assert RewritesNode(doc, sel, types, value, es[k], i);
      }
      forall k | 0 <= k < |es| ensures es[k].pos < doc[m].pos {
        var i :| RewritesNode(doc, sel, types, value, es[k], i) && i < m;
        assert doc[i].pos < doc[m].pos;
      }
      var all := Edits(doc, sel, types, value);
      assert forall k :: 0 <= k < |es| ==> all[k] == es[k];
      assert |all| == |es| || (|all| == |es| + 1 && RewritesNode(doc, sel, types, value, all[|es|], m));
      forall k | 0 <= k < |all| ensures RewritesTarget(doc, sel, types, value, all[k]) {
        if k == |es| {
          assert RewritesNode(doc, sel, types, value, all[k], m);
        } else {
          var i :| RewritesNode(doc, sel, types, value, es[k], i) && i < m;
          assert RewritesNode(doc, sel, types, value, all[k], i);
        }
      }
      forall k, l | 0 <= k < l < |all| ensures all[k].pos < all[l].pos {
        if l == |es| {
          assert all[l].pos == doc[m].pos;
        }
      }
    }
  }

  /** The shared body of both commands: walk, then dispatch once when the
      host asks for it, and report success in every case. Without dispatch
      (a dry run) the editor is left as it was. */
  method ApplyLineHeight(editor: EditorState, types: seq<string>, value: string, dispatch: bool)
    returns (ok: bool)
    requires ValidDoc(editor.doc)
    modifies editor
    ensures ok
    ensures ValidDoc(editor.doc) && editor.selection == old(editor.selection)
    ensures dispatch ==>
      editor.doc == Rewrite(old(editor.doc), old(editor.selection), types, value) &&
      editor.dispatched == old(editor.dispatched) + 1
    ensures !dispatch ==>
      editor.doc == old(editor.doc) && editor.dispatched == old(editor.dispatched)
  {
    var tr := CollectEdits(editor.doc, editor.selection, types, value);
    if dispatch {
      SameShapeKeepsValid(editor.doc, Apply(editor.doc, tr.steps));
      editor.Dispatch(tr);
    }
    ok := true;
  }

  /** `setLineHeight(lineHeight)`. */
  method SetLineHeight(opts: Options, editor: EditorState, lineHeight: string, dispatch: bool)
    returns (ok: bool)
    requires ValidDoc(editor.doc)
    modifies editor
    ensures ok
    ensures ValidDoc(editor.doc) && editor.selection == old(editor.selection)
    ensures dispatch ==>
      editor.doc == Rewrite(old(editor.doc), old(editor.selection), opts.types, lineHeight) &&
      editor.dispatched == old(editor.dispatched) + 1
    ensures !dispatch ==>
      editor.doc == old(editor.doc) && editor.dispatched == old(editor.dispatched)
  {
    ok := ApplyLineHeight(editor, opts.types, lineHeight, dispatch);
  }

  /** `unsetLineHeight()`: the configured default is written, not null. */
  method UnsetLineHeight(opts: Options, editor: EditorState, dispatch: bool)
    returns (ok: bool)
    requires ValidDoc(editor.doc)
    modifies editor
    ensures ok
    ensures ValidDoc(editor.doc) && editor.selection == old(editor.selection)
    ensures dispatch ==>
      editor.doc == Rewrite(old(editor.doc), old(editor.selection), opts.types, opts.defaultLineHeight) &&
      editor.dispatched == old(editor.dispatched) + 1
    ensures !dispatch ==>
      editor.doc == old(editor.doc) && editor.dispatched == old(editor.dispatched)
  {
    ok := ApplyLineHeight(editor, opts.types, opts.defaultLineHeight, dispatch);
  }

  // ----- What the rewrite does, node by node -----

  lemma {:induction false} RewriteAt(doc: Doc, sel: Selection, types: seq<string>, value: string, i: nat)
    requires i < |doc|
    ensures Rewrite(doc, sel, types, value)[i] == RewriteNode(doc[i], sel, types, value)
    decreases |doc|
  {
    var m := |doc| - 1;
    if i < m {
      RewriteAt(doc[..m], sel, types, value, i);
    }
  }

  /** Every node the walk visits whose type is governed ends up with the
      written line height. */
  lemma TargetsTakeValue(doc: Doc, sel: Selection, types: seq<string>, value: string)
    ensures forall i :: 0 <= i < |doc| && Targeted(doc[i], sel, types) ==>
      LineHeightAttr in Rewrite(doc, sel, types, value)[i].attrs &&
      Rewrite(doc, sel, types, value)[i].attrs[LineHeightAttr] == Some(value)
  {
    forall i | 0 <= i < |doc| {
      RewriteAt(doc, sel, types, value, i);
    }
  }

  /** A rewritten node keeps its type and every attribute other than the
      line height. */
  lemma OtherAttributesKept(doc: Doc, sel: Selection, types: seq<string>, value: string)
    ensures forall i :: 0 <= i < |doc| ==>
      Rewrite(doc, sel, types, value)[i].typeName == doc[i].typeName &&
      AgreeExcept(Rewrite(doc, sel, types, value)[i].attrs, doc[i].attrs, LineHeightAttr)
  {
    forall i | 0 <= i < |doc| {
      RewriteAt(doc, sel, types, value, i);
    }
  }

  /** Nodes the walk does not visit, and visited nodes of other types, are
      left exactly as they were. */
  lemma UntargetedUnchanged(doc: Doc, sel: Selection, types: seq<string>, value: string)
    ensures forall i :: 0 <= i < |doc| && !Targeted(doc[i], sel, types) ==>
      Rewrite(doc, sel, types, value)[i] == doc[i]
  {
    forall i | 0 <= i < |doc| {
      RewriteAt(doc, sel, types, value, i);
    }
  }

  /** A selection that touches no node of a governed type (an empty
      document included) leaves the document unchanged. */
  lemma {:induction false} NoTargetNoChange(doc: Doc, sel: Selection, types: seq<string>, value: string)
    requires forall i :: 0 <= i < |doc| ==> !Targeted(doc[i], sel, types)
    ensures Rewrite(doc, sel, types, value) == doc
    decreases |doc|
  {
    if doc != [] {
      var m := |doc| - 1;
      NoTargetNoChange(doc[..m], sel, types, value);
      assert doc[..m] + [doc[m]] == doc;
    }
  }

  /** A collapsed selection strictly inside a node of a governed type (a
      cursor with no text selected) still rewrites that node. */
  lemma CollapsedSelectionApplies(doc: Doc, p: int, types: seq<string>, value: string, i: nat)
    requires i < |doc| && doc[i].typeName in types
    requires doc[i].pos < p < doc[i].pos + doc[i].size
    ensures LineHeightAttr in Rewrite(doc, Selection(p, p), types, value)[i].attrs
    ensures Rewrite(doc, Selection(p, p), types, value)[i].attrs[LineHeightAttr] == Some(value)
  {
    RewriteAt(doc, Selection(p, p), types, value, i);
  }

  /** Rewriting the same selection twice: the second value wins, whatever
      the first was, because the first rewrite moves no node and changes no
      type, so the second visits the same nodes. */
  lemma {:induction false} LastRewriteWins(doc: Doc, sel: Selection, types: seq<string>, v: string, w: string)
    ensures Rewrite(Rewrite(doc, sel, types, v), sel, types, w) == Rewrite(doc, sel, types, w)
    decreases |doc|
  {
    if doc != [] {
      var m := |doc| - 1;
      var n := doc[m];
      var once := Rewrite(doc, sel, types, v);
      assert once[..m] == Rewrite(doc[..m], sel, types, v);
      assert once[m] == RewriteNode(n, sel, types, v);
      RewriteNodeTwice(n, sel, types, v, w);
      calc {
        Rewrite(once, sel, types, w);
        Rewrite(once[..m], sel, types, w) + [RewriteNode(once[m], sel, types, w)];
        { LastRewriteWins(doc[..m], sel, types, v, w); }
        Rewrite(doc[..m], sel, types, w) + [RewriteNode(n, sel, types, w)];
      }
    }
  }

  lemma RewriteNodeTwice(n: Node, sel: Selection, types: seq<string>, v: string, w: string)
    ensures RewriteNode(RewriteNode(n, sel, types, v), sel, types, w) == RewriteNode(n, sel, types, w)
  {
    if Targeted(n, sel, types) {
      assert WithLineHeight(WithLineHeight(n.attrs, v), w) == WithLineHeight(n.attrs, w);
    }
  }

  /** Repeating a command with the same value changes nothing further. */
  lemma {:induction false} RewriteIdempotent(doc: Doc, sel: Selection, types: seq<string>, value: string)
    ensures Rewrite(Rewrite(doc, sel, types, value), sel, types, value) == Rewrite(doc, sel, types, value)
  {
    LastRewriteWins(doc, sel, types, value, value);
  }

  /** setLineHeight(v) then unsetLineHeight() on the same selection: every
      targeted node holds the configured default (not null), every other
      node is as it was before both. */
  lemma UnsetAfterSet(opts: Options, doc: Doc, sel: Selection, v: string)
    ensures forall i :: 0 <= i < |doc| && Targeted(doc[i], sel, opts.types) ==>
      LineHeightAttr in Rewrite(Rewrite(doc, sel, opts.types, v), sel, opts.types, opts.defaultLineHeight)[i].attrs &&
      Rewrite(Rewrite(doc, sel, opts.types, v), sel, opts.types, opts.defaultLineHeight)[i].attrs[LineHeightAttr]
        == Some(opts.defaultLineHeight)
    ensures forall i :: 0 <= i < |doc| && !Targeted(doc[i], sel, opts.types) ==>
      Rewrite(Rewrite(doc, sel, opts.types, v), sel, opts.types, opts.defaultLineHeight)[i] == doc[i]
  {
    LastRewriteWins(doc, sel, opts.types, v, opts.defaultLineHeight);
    TargetsTakeValue(doc, sel, opts.types, opts.defaultLineHeight);
    UntargetedUnchanged(doc, sel, opts.types, opts.defaultLineHeight);
  }

  /** A paragraph and a heading under the selection take the new line
      height; an image under it, and a paragraph past its end, do not
      change. */
  lemma ScopedExample()
    ensures
      var a := Node(0, 4, "paragraph", map[LineHeightAttr := Some("normal")]);
      var b := Node(4, 5, "heading", map[LineHeightAttr := Some("normal"), "level" := Some("1")]);
      var c := Node(9, 1, "image", map[]);
      var d := Node(10, 4, "paragraph", map[]);
      var r := Rewrite([a, b, c, d], Selection(1, 10), DefaultOptions().types, "2");
      r == [a.(attrs := map[LineHeightAttr := Some("2")]),
            b.(attrs := map[LineHeightAttr := Some("2"), "level" := Some("1")]),
            c, d]
  {
    var a := Node(0, 4, "paragraph", map[LineHeightAttr := Some("normal")]);
    var b := Node(4, 5, "heading", map[LineHeightAttr := Some("normal"), "level" := Some("1")]);
    var c := Node(9, 1, "image", map[]);
    var d := Node(10, 4, "paragraph", map[]);
    var sel, types := Selection(1, 10), DefaultOptions().types;
    var a', b' := RewriteNode(a, sel, types, "2"), RewriteNode(b, sel, types, "2");
    assert a' == a.(attrs := map[LineHeightAttr := Some("2")]);
    assert b' == b.(attrs := map[LineHeightAttr := Some("2"), "level" := Some("1")]);
    assert RewriteNode(c, sel, types, "2") == c && RewriteNode(d, sel, types, "2") == d;
    var doc := [a, b, c, d];
    forall i | 0 <= i < 4 {
      RewriteAt(doc, sel, types, "2", i);
    }
  }

  // ----- Render and parse -----

  /** The defaults: paragraphs and headings are governed and nothing else,
      and an element without a line height parses to "normal", so a parsed
      line height is never empty and always renders a style. */
  lemma DefaultOptionsBehaviour(typeName: string, element: Value)
    ensures typeName in DefaultOptions().types <==> typeName == "paragraph" || typeName == "heading"
    ensures ParseLineHeight(DefaultOptions(), element) != ""
    ensures !Truthy(element) ==>
      RenderLineHeight(Some(ParseLineHeight(DefaultOptions(), element))) == Some("line-height: normal")
  {
    assert LineHeightProperty + ": " + "normal" == "line-height: normal";
  }

  /** Render, read the element back, parse, render again: a truthy line
      height comes back unchanged; a falsy one comes back as the default,
      because parsing falls back where rendering emitted nothing. */
  lemma LineHeightRoundTrip(opts: Options, v: Value)
    ensures Truthy(v) ==>
      RenderLineHeight(Some(ParseLineHeight(opts, ElementProperty(LineHeightProperty, RenderLineHeight(v)))))
        == RenderLineHeight(v)
    ensures !Truthy(v) ==>
      RenderLineHeight(Some(ParseLineHeight(opts, ElementProperty(LineHeightProperty, RenderLineHeight(v)))))
        == RenderLineHeight(Some(opts.defaultLineHeight))
  {
    if Truthy(v) {
      ReadDeclaration(LineHeightProperty, v.value);
    }
  }

  /** A parsed line height survives rendering and parsing again. */
  lemma ParseRenderParse(opts: Options, element: Value)
    ensures
      var lineHeight := ParseLineHeight(opts, element);
      ParseLineHeight(opts, ElementProperty(LineHeightProperty, RenderLineHeight(Some(lineHeight)))) == lineHeight
  {
    var lineHeight := ParseLineHeight(opts, element);
    if lineHeight != "" {
      ReadDeclaration(LineHeightProperty, lineHeight);
    }
  }
}
