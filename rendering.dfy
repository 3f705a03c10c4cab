/** The two element classifications the collection steps consult: whether an element is
    being rendered (the hidden-elements rules of the HTML rendering section, as far as the
    code implements them) and whether it is block level. Names are compared lower-cased. */
module Rendering {
  import opened Dom

  /** Elements that are never rendered. */
  const NonRendered: set<string> := {
    "area", "base", "basefont", "datalist", "head", "link", "meta", "noembed", "noframes",
    "param", "rp", "script", "source", "style", "template", "track", "title"
  }

  /** Parents under which a form element is not rendered. */
  const TableParts: set<string> := {"table", "thead", "tbody", "tfoot", "tr"}

  /** Block-level elements. */
  const BlockLevel: set<string> := {
    "address", "article", "aside", "blockquote", "details", "dialog", "dd", "div", "dl", "dt",
    "fieldset", "figcaption", "figure", "footer", "form", "h1", "h2", "h3", "h4", "h5", "h6",
    "header", "hgroup", "hr", "li", "main", "nav", "ol", "p", "pre", "section", "table", "ul"
  }

  /** isBeingRendered for an element with tag `tag`, attributes `attrs` and parent element
      tag `parent` (None when the element has no parent element). The checks run in the
      code's order; the first one that applies decides. */
  predicate IsBeingRendered(tag: string, attrs: map<string, string>, parent: Option<string>)
  {
    var name := Lower(tag);
    if name in NonRendered then false
    else if HasAttr(attrs, "hidden") && name != "embed" then false
    else if name == "input" && Lower(GetAttr(attrs, "type")) == "hidden" then false
    else if name == "dialog" && !HasAttr(attrs, "open") then false
    else if name == "form" && parent.Some? && Lower(parent.value) in TableParts then false
    else true
  }

  /** isBlockLevel */
  predicate IsBlockLevel(tag: string)
  {
    Lower(tag) in BlockLevel
  }

  /** The five reasons an element is not rendered, and nothing else, make it unrendered. */
  lemma {:induction false} RenderedIff(tag: string, attrs: map<string, string>, parent: Option<string>)
    ensures var name := Lower(tag);
            !IsBeingRendered(tag, attrs, parent) <==>
              name in NonRendered
              || ("hidden" in attrs && name != "embed")
              || (name == "input" && "type" in attrs && Lower(attrs["type"]) == "hidden")
              || (name == "dialog" && "open" !in attrs)
              || (name == "form" && parent.Some? && Lower(parent.value) in TableParts)
  {
  }

  /** Both classifications look at the tag name only through its lower-cased form, so the
      letter case of a tag never matters. */
  lemma {:induction false} ClassesIgnoreCase(tag: string, attrs: map<string, string>, parent: Option<string>)
    ensures IsBlockLevel(tag) == IsBlockLevel(Lower(tag))
    ensures IsBeingRendered(tag, attrs, parent) == IsBeingRendered(Lower(tag), attrs, parent)
  {
    LowerIdempotent(tag);
  }
}
