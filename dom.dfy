/** The slice of the browser DOM that the mount wrapper touches, as values.
    Element identity is a handle; the selector engine is a map from selector to
    the element it matches (absent: the query yields `null`). */
module Dom {

  datatype Option<+T> = None | Some(value: T)

  /** JavaScript truthiness of an optional string: `null`/`undefined` and the
      empty string are falsy, every other string is truthy. */
  predicate IsTruthy(o: Option<string>)
  {
    o.Some? && o.value != ""
  }

  /** An element as far as this layer sees it: an identity, its inner markup
      and its native `outerHTML` accessor, which may be missing (`undefined`,
      as for SVG elements on old engines) or empty. */
  datatype Element = Element(handle: nat, innerHTML: string, outerHTML: Option<string>)

  /** The document: its `<body>` and its root `<html>` element, either of which
      is `null` while it does not exist yet (`document.body` before `<body>` is
      parsed), and what `querySelector` returns for each selector that matches
      something. */
  datatype Document = Document(body: Option<Element>, documentElement: Option<Element>, selectors: map<string, Element>)

  /** The DOM query collaborator: the matched element, or `null`. */
  function Query(doc: Document, selector: string): (r: Option<Element>)
    ensures r.Some? <==> selector in doc.selectors
    ensures r.Some? ==> r.value == doc.selectors[selector]
  {
    if selector in doc.selectors then Some(doc.selectors[selector]) else None
  }

  /** `getOuterHTML`: the native `outerHTML` when it is truthy; otherwise the
      `innerHTML` of a detached `<div>` whose only child is a deep clone of
      `el`, which `containerHTML` stands for. `el` is a value, so neither branch
      can change it. */
  function GetOuterHTML(el: Element, containerHTML: Element -> string): (r: string)
    ensures IsTruthy(el.outerHTML) ==> r == el.outerHTML.value && r != ""
    ensures !IsTruthy(el.outerHTML) ==> r == containerHTML(el)
  {
    if IsTruthy(el.outerHTML) then el.outerHTML.value else containerHTML(el)
  }
}
