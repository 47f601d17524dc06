/** The two extensions reset their attributes differently: a node's line
    height goes back to the configured default, a mark's font size to null.
    This module sets the two side by side; neither extension depends on the
    other. */
module ResetValues {
  import opened Attrs
  import opened Editor
  import LineHeight
  import FontSize

  /** After `unsetLineHeight()` every rewritten node carries the configured
      default, which renders a `line-height` style whenever that default is
      non-empty; after `unsetFontSize()` the mark carries null, which renders
      no font-size style at all. */
  lemma UnsetDiffers(opts: LineHeight.Options, doc: Doc, sel: Selection)
    requires opts.defaultLineHeight != ""
    ensures forall i :: 0 <= i < |doc| && LineHeight.Targeted(doc[i], sel, opts.types) ==>
      var attrs := LineHeight.Rewrite(doc, sel, opts.types, opts.defaultLineHeight)[i].attrs;
      LineHeight.LineHeightAttr in attrs &&
      LineHeight.RenderLineHeight(attrs[LineHeight.LineHeightAttr])
        == Some("line-height: " + opts.defaultLineHeight)
    ensures FontSize.RenderFontSize(FontSize.UnsetFontSize().attrs[FontSize.FontSizeAttr]).None?
  {
    forall i | 0 <= i < |doc| && LineHeight.Targeted(doc[i], sel, opts.types) {
      LineHeight.RewriteAt(doc, sel, opts.types, opts.defaultLineHeight, i);
    }
  }
}
