/**
 * The attribute lists the internal pages edit: the schema attributes an
 * issuer types in one at a time (`handleAddAttribute`,
 * `handleRemoveAttribute`), and the check boxes of a proof configuration
 * (`handleTempAttributeToggle`). Each handler hands React the new list.
 */
module AttributeList {
  import opened Text
  import Lists

  /** `handleAddAttribute`: the new list and the new contents of the input
      box. The trimmed input joins the end of the list, and the box is
      cleared, when it is non-empty and not yet listed. */
  function AddAttribute(attributes: seq<string>, input: string): (r: (seq<string>, string))
    ensures r.0 == attributes || r.0 == attributes + [Trim(input)]
    ensures forall a :: a in r.0 <==> a in attributes || (a == Trim(input) && a != "")
    ensures r.1 == (if r.0 == attributes then input else "")
    ensures Lists.NoDuplicates(attributes) ==> Lists.NoDuplicates(r.0)
  {
    var name := Trim(input);
    if name != "" && name !in attributes then (attributes + [name], "") else (attributes, input)
  }

  predicate IsNot(attribute: string, a: string) {
    a != attribute
  }

  /** `handleRemoveAttribute`: the list without the attribute, the others
      in their order. */
  function RemoveAttribute(attributes: seq<string>, attribute: string): (r: seq<string>)
    ensures forall a :: a in r <==> a in attributes && a != attribute
    ensures Lists.NoDuplicates(attributes) ==> Lists.NoDuplicates(r)
  {
    Lists.FilterKeepsDistinct(attributes, a => IsNot(attribute, a));
    Lists.Filter(attributes, a => IsNot(attribute, a))
  }

  /** Removing the attribute just added gives back the list as it was. */
  lemma RemoveUndoesAdd(attributes: seq<string>, input: string)
    requires Trim(input) != "" && Trim(input) !in attributes
    ensures RemoveAttribute(AddAttribute(attributes, input).0, Trim(input)) == attributes
  {
    var name := Trim(input);
    var keep := a => IsNot(name, a);
    Lists.FilterAppend(attributes, [name], keep);
    Lists.FilterKeepsAll(attributes, keep);
    assert Lists.Filter([name], keep) == [];
  }

  /** `handleTempAttributeToggle`: an unchecked attribute is appended, a
      checked one is taken out. */
  function Toggle(selected: seq<string>, attribute: string): (r: seq<string>)
    ensures attribute in r <==> attribute !in selected
    ensures forall a :: a != attribute ==> (a in r <==> a in selected)
    ensures Lists.NoDuplicates(selected) ==> Lists.NoDuplicates(r)
  {
    if attribute in selected then RemoveAttribute(selected, attribute) else selected + [attribute]
  }

  /** Checking and then unchecking an attribute restores the selection. */
  lemma ToggleTwice(selected: seq<string>, attribute: string)
    requires attribute !in selected
    ensures Toggle(Toggle(selected, attribute), attribute) == selected
  {
    var keep := a => IsNot(attribute, a);
    Lists.FilterAppend(selected, [attribute], keep);
    Lists.FilterKeepsAll(selected, keep);
    assert Lists.Filter([attribute], keep) == [];
  }
}
