/** Attribute values as the editor stores them: a value is a string or null,
    and a node or mark carries a bag of named values. */
module Attrs {

  datatype Option<+T> = None | Some(value: T)

  /** An attribute value: `None` is JavaScript's `null`. */
  type Value = Option<string>

  /** An attribute bag, `node.attrs` or the attributes of a mark. */
  type Bag = map<string, Value>

  /** JavaScript truthiness of an attribute value that is a string or null:
      both `null` and `""` are falsy, every other string is truthy. */
  predicate Truthy(v: Value): (truthy: bool)
    ensures v == None ==> !truthy
    ensures v == Some("") ==> !truthy
    ensures v.Some? && |v.value| > 0 ==> truthy
  {
    v.Some? && v.value != ""
  }

  /** `a || b` for a string-or-null `a` and a string fallback `b`. */
  function OrElse(a: Value, b: string): (r: string)
    ensures Truthy(a) ==> r == a.value
    ensures !Truthy(a) ==> r == b
  {
    if Truthy(a) then a.value else b
  }
}
