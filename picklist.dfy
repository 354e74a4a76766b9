/**
 * The part of a Salesforce object's metadata the tools reconcile: each
 * picklist `<value>` element with its first `<fullName>` (the API name) and
 * first `<label>` child, as `find` returns them.
 */
module Picklist {
  import opened Outcomes

  /** An XML element reduced to its text; `None` is an element without text. */
  datatype Elem = Elem(text: Option<string>)

  /**
   * One picklist `<value>`: its `<fullName>` and `<label>` children, `None`
   * where `find` returns no element.
   */
  datatype PicklistValue = PicklistValue(fullName: Option<Elem>, labelEl: Option<Elem>)

  /** Python's truth value of an element's text: present and non-empty. */
  predicate HasText(e: Elem) {
    e.text.Some? && e.text.value != ""
  }
}
