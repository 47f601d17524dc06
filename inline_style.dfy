/** A single inline-style declaration `"<property>: <value>"`, the external
    representation both extensions write into an element's `style` attribute,
    and the reading of one property back from it. */
module InlineStyle {
  import opened Attrs

  /** The text `"<property>: <value>"`. */
  function Declaration(property: string, value: string): string {
    property + ": " + value
  }

  /** Reads the value of `property` from a style text holding one declaration;
      `None` when the text declares something else. */
  function ReadProperty(property: string, style: string): (r: Value)
    ensures r.Some? ==> style == Declaration(property, r.value)
  {
    var n := |property| + 2;
    if n <= |style| && style[..n] == property + ": " then
      assert style == style[..n] + style[n..];
      Some(style[n..])
    else
      None
  }

  /** The render rule shared by both attributes: a falsy value emits no
      style at all, any other value exactly one declaration carrying it. */
  function Render(property: string, v: Value): (style: Option<string>)
    ensures style.None? <==> !Truthy(v)
    ensures style.Some? ==> ReadProperty(property, style.value) == v
  {
    if Truthy(v) then Some(Declaration(property, v.value)) else None
  }

  /** What `element.style.<property>` sees on an element produced from a
      rendered style: nothing when no style was emitted. */
  function ElementProperty(property: string, style: Option<string>): (r: Value)
    ensures style.None? ==> r.None?
    ensures style.Some? && r.Some? ==> style.value == Declaration(property, r.value)
  {
    match style
    case None => None
    case Some(s) => ReadProperty(property, s)
  }

  /** Reading back what was written: a declaration yields exactly its value. */
  lemma ReadDeclaration(property: string, v: string)
    ensures ReadProperty(property, Declaration(property, v)) == Some(v)
  {
    var style, n := Declaration(property, v), |property| + 2;
    assert style[..n] == property + ": ";
    assert style[n..] == v;
  }

  /** An element rendered with one declaration of `property` shows exactly
      the declared value for that property. */
  lemma ElementShowsDeclaredValue(property: string, v: string)
    ensures ElementProperty(property, Some(Declaration(property, v))) == Some(v)
  {
    ReadDeclaration(property, v);
  }
}
