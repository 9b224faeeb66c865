/**
 * Client code for the element node: concrete trees built with the public
 * mutators, and what rendering them yields.
 */
module NodeScenarios {
  import opened Catalog
  import opened Node

  lemma ParagraphKind()
    ensures RawValue(P) == "p" && !IsSingleTag(P)
  {
  }

  lemma DivKind()
    ensures RawValue(Div) == "div" && !IsSingleTag(Div)
    ensures OpenTag(RawValue(Div), []) == "<div >"
  {
    OpenTagShape("div", []);
  }

  lemma SectionKind()
    ensures RawValue(Section) == "section" && !IsSingleTag(Section)
    ensures OpenTag(RawValue(Section), []) == "<section >"
  {
    OpenTagShape("section", []);
  }

  lemma ImageKind()
    ensures RawValue(Img) == "img" && IsSingleTag(Img)
  {
  }

  lemma AltImageTag()
    ensures OpenTag(RawValue(Img), [Attr("alt", "")]) == "<img alt=\"\" >"
  {
    ImageKind();
  }

  /** A fresh empty paragraph, and the string it renders to. */
  method EmptyParagraph() returns (p: UIElement)
    ensures fresh(p) && p.Valid() && p.Repr == {p} && !p.isSingleTag
    ensures p.element == P && p.end == "</p>"
    ensures p.attributes == [] && p.text == "" && p.rawElements == [] && p.children == []
    ensures p.Html() == "<p ></p>"
  {
    ParagraphKind();
    p := new UIElement(P);
  }

  /**
   * An empty paragraph renders with the space that `appendAttributes` always
   * writes before `>`.
   */
  method RenderEmptyParagraph() returns (html: string)
    ensures html == "<p ></p>"
  {
    var p := EmptyParagraph();
    html := p.Render();
  }

  /** Renders a node that has no fragments and no children. */
  method RenderLeaf(e: UIElement) returns (html: string)
    requires e.Valid() && e.rawElements == [] && e.children == []
    modifies e.Repr`start
    ensures html == OpenTag(RawValue(e.element), e.attributes) + e.text + e.end
  {
    LeafHtml(e);
    html := e.Render();
  }

  /** `<name >inner</name>`: a container without attributes around `inner`. */
  function Wrap(name: string, inner: string): string
  {
    "<" + name + " >" + inner + ("</" + name + ">")
  }

  /** A container of the given kind with no attributes or fragments. */
  ghost predicate Plain(e: UIElement, kind: Element)
    reads e
  {
    && e.element == kind && !e.isSingleTag && e.end == "</" + RawValue(kind) + ">"
    && e.attributes == [] && e.rawElements == []
  }

  /** A plain container without children renders its text, wrapped. */
  lemma WrapLeaf(e: UIElement, kind: Element)
    requires e.Valid() && Plain(e, kind) && e.children == []
    ensures e.Html() == Wrap(RawValue(kind), e.text)
  {
    OpenTagShape(RawValue(kind), []);
    LeafHtml(e);
  }

  /** A plain container without text and with one child renders that child, wrapped. */
  lemma WrapOne(e: UIElement, kind: Element)
    requires e.Valid() && Plain(e, kind) && e.text == "" && |e.children| == 1
    ensures e.Html() == Wrap(RawValue(kind), e.children[0].Html())
  {
    OpenTagShape(RawValue(kind), []);
    OneChildHtml(e);
    assert OpenTag(RawValue(kind), []) + "" == OpenTag(RawValue(kind), []);
  }

  /** A fresh container of a given kind. */
  method NewPlain(kind: Element) returns (e: UIElement)
    requires !IsSingleTag(kind)
    ensures fresh(e) && e.Valid() && e.Repr == {e}
    ensures Plain(e, kind) && e.text == "" && e.children == []
  {
    e := new UIElement(kind);
  }

  /**
   * A tree filled top-down: the section gets its div first, and the div gets
   * its paragraph afterwards. The ghost `Adopt` brings the section's
   * footprint up to date, and the whole tree renders.
   */
  method TopDownTree() returns (html: string)
    ensures html == Wrap(RawValue(Section), Wrap(RawValue(Div), Wrap(RawValue(P), "")))
  {
    var s, d, p := BuildTopDown();
    html := s.Render();
  }

  /** What the top-down tree renders to, spelled out. */
  lemma TopDownText()
    ensures Wrap(RawValue(Section), Wrap(RawValue(Div), Wrap(RawValue(P), "")))
         == "<section >" + ("<div >" + "<p ></p>" + "</div>") + "</section>"
  {
    ParagraphText();
    DivText("<p ></p>");
    SectionText("<div ><p ></p></div>");
  }

  lemma ParagraphText()
    ensures Wrap(RawValue(P), "") == "<p ></p>"
  {
    ParagraphKind();
  }

  lemma DivText(inner: string)
    ensures Wrap(RawValue(Div), inner) == "<div >" + inner + "</div>"
  {
    DivKind();
  }

  lemma SectionText(inner: string)
    ensures Wrap(RawValue(Section), inner) == "<section >" + inner + "</section>"
  {
    SectionKind();
  }

  /** The section, its div and the div's paragraph, added in that order. */
  method BuildTopDown() returns (s: UIElement, d: UIElement, p: UIElement)
    ensures fresh(s) && fresh(d) && fresh(p) && s.Repr == {s, d, p} && s.Valid()
    ensures s.Html() == Wrap(RawValue(Section), Wrap(RawValue(Div), Wrap(RawValue(P), "")))
  {
    s, d := SectionWithDiv();
    p := GrowDiv(s, d);
    ghost var inner := d.Html();
    RefreshSection(s, d);
    assert d.Html() == inner;
  }

  /** An empty section holding an empty div. */
  method SectionWithDiv() returns (s: UIElement, d: UIElement)
    ensures fresh(s) && fresh(d) && s != d
    ensures s.Valid() && Plain(s, Section) && s.text == "" && s.children == [d]
    ensures d.Valid() && Plain(d, Div) && d.text == "" && d.children == [] && d.Repr == {d}
  {
    ContainerKind(Section);
    ContainerKind(Div);
    s := NewPlain(Section);
    d := NewPlain(Div);
    s.AddChild(d);
  }

  /** The div, already the section's child, gains an empty paragraph. */
  method GrowDiv(s: UIElement, d: UIElement) returns (p: UIElement)
    requires s != d && d.Valid() && Plain(d, Div) && d.text == "" && d.children == [] && d.Repr == {d}
    modifies d
    ensures fresh(p) && d.Repr == {d, p}
    ensures d.Valid() && d.Html() == Wrap(RawValue(Div), Wrap(RawValue(P), ""))
  {
    ContainerKind(P);
    p := NewPlain(P);
    WrapLeaf(p, P);
    ghost var inner := p.Html();
    assert inner == Wrap(RawValue(P), "");
    d.AddChild(p);
    assert p.Html() == inner;
    WrapOne(d, Div);
  }

  /**
   * The section's footprint predates its div's new child; `Adopt` brings it
   * up to date, after which the section renders around the div.
   */
  ghost method RefreshSection(s: UIElement, d: UIElement)
    requires Plain(s, Section) && s.text == "" && s.children == [d]
    requires d.Valid() && s !in d.Repr
    modifies s`Repr
    ensures s.Valid() && s.Repr == {s} + d.Repr
    ensures s.Html() == Wrap(RawValue(Section), d.Html())
  {
    s.Adopt();
    assert Below([d]) == Below([]) + d.Repr;
    WrapOne(s, Section);
  }

  /**
   * Text added to a container is stored escaped: the paragraph renders it
   * between its tags, and no `<` or `>` appears there to open a tag.
   */
  method EscapedParagraph(t: string) returns (html: string)
    ensures html == Wrap(RawValue(P), SafetyHtmlEncoded(t))
    ensures '<' !in SafetyHtmlEncoded(t) && '>' !in SafetyHtmlEncoded(t)
  {
    ContainerKind(P);
    var p := NewPlain(P);
    p.AddText(t);
    WrapLeaf(p, P);
    html := p.Render();
  }

  /**
   * A single-tag node keeps its attributes but ignores text, fragments and
   * children: it renders as its opening tag alone.
   */
  method SingleTagIgnoresContent(text: string, raw: string) returns (html: string)
    ensures html == "<img alt=\"\" >"
  {
    var img := AltImage();
    FeedContent(img, text, raw);
    html := RenderLeaf(img);
    AltImageTag();
  }

  /** Gives a single-tag node a text, a fragment and a child, none of which it keeps. */
  method FeedContent(e: UIElement, text: string, raw: string)
    requires e.Valid() && e.isSingleTag
    modifies e
    ensures e.Valid() && e.Repr == old(e.Repr)
    ensures e.attributes == old(e.attributes)
    ensures e.text == "" && e.end == "" && e.rawElements == [] && e.children == []
  {
    e.AddText(text);
    e.Inject(raw);
    var p := EmptyParagraph();
    e.AddChild(p);
  }

  /** A fresh `img` node with an empty `alt` attribute. */
  method AltImage() returns (img: UIElement)
    ensures fresh(img) && img.Valid() && img.Repr == {img} && img.isSingleTag
    ensures img.element == Img && img.attributes == [Attr("alt", "")]
  {
    ImageKind();
    img := new UIElement(Img);
    img.SetAttribute("alt", "");
    assert img.attributes == [Attr("alt", "")];
  }

  /** Rendering twice without mutation in between gives the same string. */
  method RenderTwice(e: UIElement) returns (first: string, second: string)
    requires e.Valid()
    modifies e.Repr`start
    ensures first == second
  {
    first := e.Render();
    second := e.Render();
  }
}
