/** The font-size extension: a `fontSize` attribute on the `textStyle`
    mark, its inline-style render and parse rules, and what its two
    commands hand to the editor's mark commands. */
module FontSize {
  import opened Attrs
  import opened InlineStyle

  /** The attribute's name in the mark's attribute bag. */
  const FontSizeAttr := "fontSize"
  /** The CSS property it is rendered to and parsed from. */
  const FontSizeProperty := "font-size"
  /** The one mark type the extension governs by default. */
  const TextStyle := "textStyle"

  /** The attribute's declared default: null, the absence value. */
  const FontSizeDefault: Value := None

  /** `renderHTML`: no style for a falsy font size, otherwise exactly the
      declaration `font-size: <value>`. */
  function RenderFontSize(fontSize: Value): (style: Option<string>)
    ensures style.None? <==> !Truthy(fontSize)
    ensures style.Some? ==> style.value == "font-size: " + fontSize.value
  {
    Render(FontSizeProperty, fontSize)
  }

  /** `parseHTML`: the element's font size as it is, with no fallback; an
      element without one reads as the empty string. */
  function ParseFontSize(element: Value): (fontSize: Value)
    ensures fontSize.Some?
    ensures element.Some? ==> fontSize == element
    ensures element.None? ==> fontSize == Some("")
    ensures Truthy(fontSize) <==> Truthy(element)
  {
    match element
    case Some(s) => Some(s)
    case None => Some("")
  }

  /** What a font-size command asks of the editor: `setMark(markType,
      attrs)`, followed by `removeEmptyTextStyle()` when the flag is set. */
  datatype MarkUpdate = MarkUpdate(markType: string, attrs: Bag, removeEmptyTextStyle: bool)

  /** `setFontSize(size)`: the size goes into the `textStyle` mark as it is,
      unvalidated, so it survives rendering and parsing back verbatim. */
  function SetFontSize(size: string): (u: MarkUpdate)
    ensures u.markType == TextStyle && u.attrs.Keys == {FontSizeAttr} && !u.removeEmptyTextStyle
    ensures u.attrs[FontSizeAttr] == Some(size)
    ensures ParseFontSize(ElementProperty(FontSizeProperty, RenderFontSize(u.attrs[FontSizeAttr]))) == Some(size)
  {
    MarkUpdate(TextStyle, map[FontSizeAttr := Some(size)], false)
  }

  /** `unsetFontSize()`: null, the absence value, goes into the `textStyle`
      mark, which then renders no font size, and removal of the mark is
      requested should nothing else remain on it. */
  function UnsetFontSize(): (u: MarkUpdate)
    ensures u.markType == TextStyle && u.attrs.Keys == {FontSizeAttr} && u.removeEmptyTextStyle
    ensures u.attrs[FontSizeAttr] == FontSizeDefault
    ensures RenderFontSize(u.attrs[FontSizeAttr]).None?
  {
    MarkUpdate(TextStyle, map[FontSizeAttr := FontSizeDefault], true)
  }

  /** A `textStyle` mark with no explicit size renders no font-size style,
      and an element without a font size parses to a value that renders
      nothing either: the absence round trip adds no style. */
  lemma AbsenceRendersNothing()
    ensures RenderFontSize(FontSizeDefault).None?
    ensures RenderFontSize(ParseFontSize(None)).None?
  {
  }

  /** Render, read the element back, parse, render again: the same style,
      for every value. */
  lemma FontSizeRoundTrip(v: Value)
    ensures RenderFontSize(ParseFontSize(ElementProperty(FontSizeProperty, RenderFontSize(v)))) == RenderFontSize(v)
  {
    if Truthy(v) {
      ReadDeclaration(FontSizeProperty, v.value);
    }
  }
}
