/**
 * `UIAnchor`: a wrapper around an `a` node. Its initializer writes the
 * `href` attribute and the text itself, because Swift does not run the
 * `didSet` observers of `title` and `link` for assignments made in the
 * type's own initializer; later assignments go through the observers.
 */
module Anchors {
  import opened Catalog

  /** The closing tag of an anchor, spelled out. */
  lemma AnchorClosingTag()
    ensures "</" + RawValue(A) + ">" == "</a>"
  {
  }
  import opened Node

  /** A new `a` node holding the escaped title and an `href`, nothing else. */
  method NewAnchorNode(title: string, link: string) returns (e: UIElement)
    ensures fresh(e) && e.Valid() && e.Repr == {e}
    ensures e.element == A && !e.isSingleTag
    ensures e.attributes == [Attr("href", link)]
    ensures e.text == SafetyHtmlEncoded(title)
    ensures e.children == [] && e.rawElements == []
    ensures e.end == "</a>"
  {
    ContainerKind(A);
    e := NewElement(A);
    AnchorClosingTag();
    AddAttribute(e, "href", link);
    e.AddText(title);
  }

  class UIAnchor {
    const anchor: UIElement
    var title: string
    var link: string

    /** The wrapped node is a valid `a` container, as the initializer builds it. */
    ghost predicate Valid()
      reads anchor, anchor.Repr
    {
      anchor.Valid() && anchor.element == A && !anchor.isSingleTag
    }

    /** `init(title:link:)`: the anchor links to `link` and shows the escaped title. */
    constructor (title: string, link: string)
      ensures Valid() && fresh(anchor) && anchor.Repr == {anchor}
      ensures anchor.element == A && !anchor.isSingleTag
      ensures this.title == title && this.link == link
      ensures anchor.attributes == [Attr("href", link)]
      ensures anchor.text == SafetyHtmlEncoded(title)
      ensures anchor.children == [] && anchor.rawElements == []
      ensures anchor.end == "</a>"
    {
      var e := NewAnchorNode(title, link);
      anchor := e;
      this.title := title;
      this.link := link;
    }

    /** Assigning `title`: the anchor's text becomes the new title, escaped, replacing the old one. */
    method SetTitle(value: string)
      requires Valid()
      modifies this, anchor
      ensures Valid() && title == value && link == old(link)
      ensures anchor.text == SafetyHtmlEncoded(value)
      ensures anchor.attributes == old(anchor.attributes) && anchor.children == old(anchor.children)
      ensures anchor.rawElements == old(anchor.rawElements) && anchor.Repr == old(anchor.Repr)
    {
      title := value;
      anchor.AddText(value);
    }

    /** Assigning `link`: only the `href` attribute changes. */
    method SetLink(value: string)
      requires Valid()
      modifies this, anchor
      ensures Valid() && link == value && title == old(title)
      ensures anchor.attributes == Assign(old(anchor.attributes), "href", value)
      ensures AttrMap(anchor.attributes) == AttrMap(old(anchor.attributes))["href" := value]
      ensures anchor.text == old(anchor.text) && anchor.children == old(anchor.children)
      ensures anchor.rawElements == old(anchor.rawElements) && anchor.Repr == old(anchor.Repr)
    {
      link := value;
      anchor.SetAttribute("href", value);
    }

    function TopLevelElement(): (e: UIElement)
      ensures e == anchor
    {
      anchor
    }
  }

  /**
   * Retitling and relinking an anchor leaves it as if it had been created
   * with the new values: one `href` attribute and the new title as text.
   */
  method Retarget(title: string, link: string, title': string, link': string) returns (a: UIAnchor)
    ensures fresh(a.anchor) && a.anchor.Valid()
    ensures a.anchor.attributes == [Attr("href", link')]
    ensures a.anchor.text == SafetyHtmlEncoded(title')
    ensures a.anchor.children == [] && a.anchor.rawElements == []
  {
    a := new UIAnchor(title, link);
    a.SetTitle(title');
    a.SetLink(link');
  }

  /** A new anchor renders as `<a href="link" >`, the escaped title and `</a>`. */
  method RenderNewAnchor(title: string, link: string) returns (html: string)
    ensures html == OpenTag("a", [Attr("href", link)]) + SafetyHtmlEncoded(title) + "</a>"
  {
    var a := new UIAnchor(title, link);
    LeafHtml(a.anchor);
    html := a.anchor.Render();
  }
}
