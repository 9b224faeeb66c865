/**
 * `UILink`: a wrapper around a void `link` node whose `rel` and `href`
 * properties write the node's attributes when they are assigned.
 *
 * Swift does not run a property's `didSet` observer for assignments made in
 * the type's own initializer, so the initializer stores `href` and `rel`
 * without writing any attribute.
 */
module Links {
  import opened Catalog
  import opened Node

  /** A new `link` node: single-tag, with no attributes. */
  method NewLinkNode() returns (e: UIElement)
    ensures fresh(e) && e.Valid() && e.Repr == {e}
    ensures e.element == Link && e.isSingleTag
    ensures e.attributes == [] && e.text == "" && e.children == [] && e.rawElements == []
  {
    VoidKind(Link);
    e := NewElement(Link);
  }

  class UILink {
    const link: UIElement
    var rel: string
    var href: string

    /** `init(href:rel:)`: both values are stored; the node gets no attribute. */
    constructor (href: string, rel: string)
      ensures fresh(link) && link.Valid() && link.Repr == {link}
      ensures link.element == Link && link.isSingleTag
      ensures this.href == href && this.rel == rel
      ensures link.attributes == []
    {
      var e := NewLinkNode();
      link := e;
      this.href := href;
      this.rel := rel;
    }

    /** Assigning `rel`: the observer sets the node's `rel` attribute and leaves every other key alone. */
    method SetRel(value: string)
      requires link.Valid()
      modifies this, link
      ensures link.Valid() && rel == value && href == old(href)
      ensures link.attributes == Assign(old(link.attributes), "rel", value)
      ensures AttrMap(link.attributes) == AttrMap(old(link.attributes))["rel" := value]
      ensures link.text == old(link.text) && link.children == old(link.children)
      ensures link.Repr == old(link.Repr)
    {
      rel := value;
      link.SetAttribute("rel", value);
    }

    /** Assigning `href`: the observer sets the node's `href` attribute and leaves every other key alone. */
    method SetHref(value: string)
      requires link.Valid()
      modifies this, link
      ensures link.Valid() && href == value && rel == old(rel)
      ensures link.attributes == Assign(old(link.attributes), "href", value)
      ensures AttrMap(link.attributes) == AttrMap(old(link.attributes))["href" := value]
      ensures link.text == old(link.text) && link.children == old(link.children)
      ensures link.Repr == old(link.Repr)
    {
      href := value;
      link.SetAttribute("href", value);
    }

    function TopLevelElement(): (e: UIElement)
      ensures e == link
    {
      link
    }
  }

  /**
   * A link fresh from its initializer renders as a bare opening tag with no
   * attributes, whatever `href` and `rel` were passed.
   */
  method RenderNewLink(href: string, rel: string) returns (html: string)
    ensures html == "<link >"
  {
    var l := new UILink(href, rel);
    html := l.link.Render();
    SingleTagHtml(l.link);
    OpenTagShape(RawValue(Link), []);
  }

  /** A link whose `href` and then `rel` were assigned after initialization. */
  method AssignedLink(href: string, rel: string) returns (l: UILink)
    ensures fresh(l.link) && l.link.Valid() && l.link.Repr == {l.link}
    ensures l.link.element == Link && l.link.isSingleTag
    ensures l.link.attributes == [Attr("href", href), Attr("rel", rel)]
  {
    l := new UILink("", "");
    l.SetHref(href);
    l.SetRel(rel);
  }

  /**
   * After both observers have run, the link renders as its opening tag with
   * both attributes, in the order they were first assigned.
   */
  method RenderAssignedLink(href: string, rel: string) returns (html: string)
    ensures html == OpenTag("link", [Attr("href", href), Attr("rel", rel)])
  {
    var l := AssignedLink(href, rel);
    html := l.link.Render();
    SingleTagHtml(l.link);
  }
}
