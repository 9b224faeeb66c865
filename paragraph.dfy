/**
 * `UIParagraph`: a wrapper around a `p` node whose `text` property writes the
 * node's text, replacing what was there, each time it is assigned.
 */
module Paragraphs {
  import opened Catalog
  import opened Node

  /** The `p` tag: a container, opened as `<p >` by a render and closed by `</p>`. */
  lemma ParagraphTag()
    ensures RawValue(P) == "p" && !IsSingleTag(P)
    ensures OpenTag(RawValue(P), []) == "<p >"
  {
    OpenTagShape("p", []);
  }

  /** A new `p` node holding the escaped text, nothing else. */
  method NewParagraphNode(text: string) returns (e: UIElement)
    ensures fresh(e) && e.Valid() && e.Repr == {e}
    ensures e.element == P && !e.isSingleTag && e.end == "</p>"
    ensures e.text == SafetyHtmlEncoded(text)
    ensures e.attributes == [] && e.children == [] && e.rawElements == []
  {
    ParagraphTag();
    e := new UIElement(P);
    e.AddText(text);
  }

  class UIParagraph {
    const p: UIElement
    var text: string

    /** The wrapped node is a valid `p` container, as the initializer builds it. */
    ghost predicate Valid()
      reads p, p.Repr
    {
      p.Valid() && p.element == P && !p.isSingleTag
    }

    /** `init(text:)`: the paragraph holds the escaped text and has no attributes or children. */
    constructor (text: string)
      ensures Valid() && fresh(p) && p.Repr == {p}
      ensures p.end == "</p>" && this.text == text
      ensures p.text == SafetyHtmlEncoded(text)
      ensures p.attributes == [] && p.children == [] && p.rawElements == []
    {
      var e := NewParagraphNode(text);
      p := e;
      this.text := text;
    }

    /** Assigning `text`: the paragraph's text becomes the new value, escaped, replacing the old one. */
    method SetText(value: string)
      requires Valid()
      modifies this, p
      ensures Valid() && text == value
      ensures p.text == SafetyHtmlEncoded(value)
      ensures p.attributes == old(p.attributes) && p.children == old(p.children)
      ensures p.rawElements == old(p.rawElements) && p.Repr == old(p.Repr)
    {
      text := value;
      p.AddText(value);
    }

    function TopLevelElement(): (e: UIElement)
      ensures e == p
    {
      p
    }
  }

  /**
   * A paragraph renders as `<p >`, its escaped text and `</p>`; after a second
   * assignment only the last text is shown.
   */
  method RenderRetexted(first: string, last: string) returns (html: string)
    ensures html == "<p >" + SafetyHtmlEncoded(last) + "</p>"
  {
    var para := new UIParagraph(first);
    para.SetText(last);
    LeafHtml(para.p);
    html := para.p.Render();
    ParagraphTag();
  }
}
