/**
 * A web page: a head, a header, a section and a footer, plus the list of
 * front-end dependencies it loads. Rendering injects the CSS tags of every
 * dependency into the head as raw fragments, then writes the doctype, the
 * head, `<body>`, the three body parts, the JavaScript tags and `</body>`.
 */
module WebPage {
  import opened Catalog
  import opened Node
  import opened Dependencies

  /** The closing tags of the head and the header of a page, spelled out. */
  lemma HeadClosingTags()
    ensures "</" + RawValue(Head) + ">" == "</head>"
    ensures "</" + RawValue(Header) + ">" == "</header>"
  {
  }

  /** The closing tags of the section and the footer of a page, spelled out. */
  lemma BodyClosingTags()
    ensures "</" + RawValue(Section) + ">" == "</section>"
    ensures "</" + RawValue(Footer) + ">" == "</footer>"
  {
  }

  /** Appending runs of fragments is associative. */
  lemma FragmentsAssoc(a: seq<string>, b: seq<string>, c: seq<string>)
    ensures (a + b) + c == a + (b + c)
  {
  }

  /** The texts of a run of tags, appended one after the other. */
  lemma TextsAppend(a: seq<Tag>, b: seq<Tag>)
    ensures Texts(a + b) == Texts(a) + Texts(b)
  {
  }

  /** One more dependency adds the texts of its tags of that kind at the end. */
  lemma AllTextsStep(deps: seq<Dependency>, i: nat, kind: DependencyType)
    requires i < |deps|
    ensures Texts(AllTags(deps[..i + 1], kind)) == Texts(AllTags(deps[..i], kind)) + Texts(TagsOf(deps[i], kind))
  {
    assert deps[..i + 1] == deps[..i] + [deps[i]];
    AllTagsAppend(deps[..i], deps[i], kind);
    TextsAppend(AllTags(deps[..i], kind), TagsOf(deps[i], kind));
  }

  /** One more dependency appends the texts of its tags of that kind. */
  lemma JoinedStep(deps: seq<Dependency>, i: nat, kind: DependencyType)
    requires i < |deps|
    ensures Joined(AllTags(deps[..i + 1], kind)) == Joined(AllTags(deps[..i], kind)) + Joined(TagsOf(deps[i], kind))
  {
    assert deps[..i + 1] == deps[..i] + [deps[i]];
    AllTagsAppend(deps[..i], deps[i], kind);
    JoinedAppend(AllTags(deps[..i], kind), TagsOf(deps[i], kind));
  }

  /** One more tag appends its text. */
  lemma JoinedTagStep(tags: seq<Tag>, j: nat)
    requires j < |tags|
    ensures Joined(tags[..j + 1]) == Joined(tags[..j]) + TagText(tags[j])
  {
    assert tags[..j + 1][..j] == tags[..j];
  }

  /**
   * Writing the tags out one by one gives the same string as injecting
   * their texts as fragments and rendering those.
   */
  lemma {:induction false} JoinedIsConcat(tags: seq<Tag>)
    ensures Joined(tags) == Concat(Texts(tags))
    decreases |tags|
  {
    if tags != [] {
      var t := tags[..|tags| - 1];
      JoinedIsConcat(t);
      assert Texts(tags) == Texts(t) + [TagText(tags[|tags| - 1])];
      ConcatAppend(Texts(t), [TagText(tags[|tags| - 1])]);
    }
  }

  /** The inner CSS loop of `render()`: inject each tag text into the head, in order. */
  method InjectTexts(head: UIElement, texts: seq<string>)
    requires head.Valid()
    modifies head
    ensures head.Valid()
    ensures head.rawElements == old(head.rawElements) + (if head.isSingleTag then [] else texts)
    ensures head.attributes == old(head.attributes) && head.text == old(head.text)
    ensures head.children == old(head.children)
    ensures head.start == old(head.start) && head.Repr == old(head.Repr)
  {
    var j := 0;
    while j < |texts|
      invariant 0 <= j <= |texts|
      invariant head.Valid()
      invariant head.rawElements == old(head.rawElements) + (if head.isSingleTag then [] else texts[..j])
      invariant head.attributes == old(head.attributes) && head.text == old(head.text)
      invariant head.children == old(head.children)
      invariant head.start == old(head.start) && head.Repr == old(head.Repr)
    {
      assert texts[..j + 1] == texts[..j] + [texts[j]];
      FragmentsAssoc(old(head.rawElements), texts[..j], [texts[j]]);
      head.Inject(texts[j]);
      j := j + 1;
    }
    assert texts[..j] == texts;
  }

  /** One step of the CSS loop: the CSS tags of one dependency, if it has any. */
  method InjectDependency(head: UIElement, d: Dependency)
    requires head.Valid()
    modifies head
    ensures head.Valid()
    ensures head.rawElements == old(head.rawElements) + (if head.isSingleTag then [] else Texts(TagsOf(d, Css)))
    ensures head.attributes == old(head.attributes) && head.text == old(head.text)
    ensures head.children == old(head.children)
    ensures head.start == old(head.start) && head.Repr == old(head.Repr)
  {
    var table := HtmlTags(d);
    if Css in table {
      InjectTexts(head, Texts(table[Css]));
    }
  }

  /** One turn of the CSS loop: the next dependency's tags join the ones injected so far. */
  method InjectNext(head: UIElement, deps: seq<Dependency>, i: nat, ghost base: seq<string>)
    requires i < |deps| && head.Valid()
    requires head.rawElements == base + (if head.isSingleTag then [] else Texts(AllTags(deps[..i], Css)))
    modifies head
    ensures head.Valid()
    ensures head.rawElements == base + (if head.isSingleTag then [] else Texts(AllTags(deps[..i + 1], Css)))
    ensures head.attributes == old(head.attributes) && head.text == old(head.text)
    ensures head.children == old(head.children)
    ensures head.start == old(head.start) && head.Repr == old(head.Repr)
  {
    AllTextsStep(deps, i, Css);
    FragmentsAssoc(base, Texts(AllTags(deps[..i], Css)), Texts(TagsOf(deps[i], Css)));
    InjectDependency(head, deps[i]);
  }

  /**
   * The CSS loop of `render()`: every CSS tag of every dependency goes into
   * the head's raw fragments, in dependency order and then table order.
   */
  method InjectCss(head: UIElement, deps: seq<Dependency>)
    requires head.Valid()
    modifies head
    ensures head.Valid()
    ensures head.rawElements == old(head.rawElements) + (if head.isSingleTag then [] else Texts(AllTags(deps, Css)))
    ensures head.attributes == old(head.attributes) && head.text == old(head.text)
    ensures head.children == old(head.children)
    ensures head.start == old(head.start) && head.Repr == old(head.Repr)
  {
    var i := 0;
    while i < |deps|
      invariant 0 <= i <= |deps|
      invariant head.Valid()
      invariant head.rawElements == old(head.rawElements) + (if head.isSingleTag then [] else Texts(AllTags(deps[..i], Css)))
      invariant head.attributes == old(head.attributes) && head.text == old(head.text)
      invariant head.children == old(head.children)
      invariant head.start == old(head.start) && head.Repr == old(head.Repr)
    {
      InjectNext(head, deps, i, old(head.rawElements));
      i := i + 1;
    }
    assert deps[..i] == deps;
  }

  /**
   * The JavaScript loop of `render()`: every JavaScript tag of every
   * dependency, in dependency order and then table order.
   */
  method AppendJavaScript(html0: string, deps: seq<Dependency>) returns (html: string)
    ensures html == html0 + Joined(AllTags(deps, JavaScript))
  {
    html := html0;
    var i := 0;
    while i < |deps|
      invariant 0 <= i <= |deps|
      invariant html == html0 + Joined(AllTags(deps[..i], JavaScript))
    {
      JoinedStep(deps, i, JavaScript);
      AppendAssoc(html0, Joined(AllTags(deps[..i], JavaScript)), Joined(TagsOf(deps[i], JavaScript)));
      var table := HtmlTags(deps[i]);
      if JavaScript in table {
        var tags := table[JavaScript];
        ghost var before := html;
        var j := 0;
        while j < |tags|
          invariant 0 <= j <= |tags|
          invariant html == before + Joined(tags[..j])
        {
          JoinedTagStep(tags, j);
          AppendAssoc(before, Joined(tags[..j]), TagText(tags[j]));
          html := html + TagText(tags[j]);
          j := j + 1;
        }
        assert tags[..j] == tags;
      } else {
        assert Joined(TagsOf(deps[i], JavaScript)) == "";
      }
      i := i + 1;
    }
    assert deps[..i] == deps;
  }


  /** The JavaScript loop beside the four parts of a page, which it leaves as they were. */
  method JavaScriptAmong(deps: seq<Dependency>, head: UIElement, a: UIElement, b: UIElement, c: UIElement)
    returns (js: string)
    requires head.Valid() && a.Valid() && b.Valid() && c.Valid()
    requires head !in a.Repr && head !in b.Repr && head !in c.Repr
    ensures js == Joined(AllTags(deps, JavaScript))
    ensures head.Valid() && a.Valid() && b.Valid() && c.Valid()
    ensures head !in a.Repr && head !in b.Repr && head !in c.Repr
    ensures a.Html() == old(a.Html()) && b.Html() == old(b.Html()) && c.Html() == old(c.Html())
    ensures head.rawElements == old(head.rawElements) && head.attributes == old(head.attributes)
    ensures head.text == old(head.text) && head.children == old(head.children)
    ensures head.Repr == old(head.Repr)
  {
    js := AppendJavaScript("", deps);
  }

  /**
   * The CSS loop beside the three body parts: the head lies in none of
   * their subtrees, so their renderings stay as they were.
   */
  method InjectCssAmong(head: UIElement, deps: seq<Dependency>, a: UIElement, b: UIElement, c: UIElement)
    requires head.Valid() && a.Valid() && b.Valid() && c.Valid()
    requires head !in a.Repr && head !in b.Repr && head !in c.Repr
    modifies head
    ensures head.Valid() && a.Valid() && b.Valid() && c.Valid()
    ensures head.rawElements == old(head.rawElements) + (if head.isSingleTag then [] else Texts(AllTags(deps, Css)))
    ensures head.attributes == old(head.attributes) && head.text == old(head.text)
    ensures head.children == old(head.children) && head.Repr == old(head.Repr)
    ensures a.Html() == old(a.Html()) && b.Html() == old(b.Html()) && c.Html() == old(c.Html())
  {
    InjectCss(head, deps);
  }

  /**
   * `e.parse()` beside three other nodes: the result is `e`'s rendering, and
   * as rendering only rebuilds opening tags, no node's rendering changes.
   */
  method ParseAmong(e: UIElement, a: UIElement, b: UIElement, c: UIElement) returns (h: string)
    requires e.Valid() && a.Valid() && b.Valid() && c.Valid()
    modifies e.Repr`start
    ensures h == e.Html() && e.Html() == old(e.Html())
    ensures e.Valid() && a.Valid() && b.Valid() && c.Valid()
    ensures a.Html() == old(a.Html()) && b.Html() == old(b.Html()) && c.Html() == old(c.Html())
  {
    h := e.Parse();
  }

  /**
   * The middle of `render()`, after the CSS tags are injected: the doctype,
   * the parsed head, `<body>`, then the parsed header, section and footer.
   * Parsing only rebuilds opening tags, so every node keeps its rendering.
   */
  method Assemble(head: UIElement, header: UIElement, section: UIElement, footer: UIElement)
    returns (html: string)
    requires head.Valid() && header.Valid() && section.Valid() && footer.Valid()
    modifies head.Repr`start, header.Repr`start, section.Repr`start, footer.Repr`start
    ensures head.Valid() && header.Valid() && section.Valid() && footer.Valid()
    ensures head.Html() == old(head.Html()) && header.Html() == old(header.Html())
    ensures section.Html() == old(section.Html()) && footer.Html() == old(footer.Html())
    ensures html == "<!DOCTYPE html>" + head.Html() + "<body>" + header.Html() + section.Html() + footer.Html()
  {
    html := "<!DOCTYPE html>";
    var h := ParseAmong(head, header, section, footer);
    html := html + h;
    html := html + "<body>";
    h := ParseAmong(header, head, section, footer);
    html := html + h;
    h := ParseAmong(section, head, header, footer);
    html := html + h;
    h := ParseAmong(footer, head, header, section);
    html := html + h;
  }

  /**
   * The string-building part of `render()` over the page's four nodes: the
   * CSS tags are injected into the head, then the page is the doctype, the
   * head, `<body>`, header, section and footer, the JavaScript tags and
   * `</body>`. The head lies in no body part's subtree, so injecting into it
   * changes no body part. The JavaScript loop reads only the dependency list
   * and the doctype is a constant, so building the script text first and
   * writing the doctype after the injection gives the same string.
   */
  method RenderParts(head: UIElement, header: UIElement, section: UIElement, footer: UIElement,
                     deps: seq<Dependency>, js: string)
    returns (html: string)
    requires js == Joined(AllTags(deps, JavaScript))
    requires head.Valid() && header.Valid() && section.Valid() && footer.Valid()
    requires head !in header.Repr && head !in section.Repr && head !in footer.Repr
    modifies head, head.Repr`start, header.Repr`start, section.Repr`start, footer.Repr`start
    ensures head.Valid() && header.Valid() && section.Valid() && footer.Valid()
    ensures head.rawElements == old(head.rawElements) + (if head.isSingleTag then [] else Texts(AllTags(deps, Css)))
    ensures head.attributes == old(head.attributes) && head.text == old(head.text)
    ensures head.children == old(head.children) && head.Repr == old(head.Repr)
    ensures header.Html() == old(header.Html()) && section.Html() == old(section.Html())
    ensures footer.Html() == old(footer.Html())
    ensures html == "<!DOCTYPE html>" + head.Html() + "<body>" + header.Html() + section.Html() + footer.Html()
                    + Joined(AllTags(deps, JavaScript)) + "</body>"
  {
    InjectCssAmong(head, deps, header, section, footer);
    html := Assemble(head, header, section, footer);
    html := html + js;
    html := html + "</body>";
  }

  /** A fresh, empty container node of the given kind. */
  method NewContainer(kind: Element) returns (e: UIElement)
    requires !IsSingleTag(kind)
    ensures fresh(e) && e.Repr == {e}
    ensures e.element == kind && !e.isSingleTag && e.end == "</" + RawValue(kind) + ">"
    ensures e.attributes == [] && e.text == "" && e.rawElements == [] && e.children == []
  {
    e := new UIElement(kind);
  }

  /** A container node with nothing in it but its own tags is valid. */
  lemma EmptyIsValid(e: UIElement)
    requires !e.isSingleTag && e.Repr == {e} && e.attributes == [] && e.children == []
    requires e.text == "" && e.rawElements == []
    ensures e.Valid()
  {
  }

  /** The four fresh, empty parts of a new page. */
  method NewParts() returns (head: UIElement, header: UIElement, section: UIElement, footer: UIElement)
    ensures fresh(head) && fresh(header) && fresh(section) && fresh(footer)
    ensures head.Valid() && header.Valid() && section.Valid() && footer.Valid()
    ensures head.Repr == {head} && header.Repr == {header} && section.Repr == {section} && footer.Repr == {footer}
    ensures head.element == Head && header.element == Header
    ensures section.element == Section && footer.element == Footer
    ensures !head.isSingleTag && !header.isSingleTag && !section.isSingleTag && !footer.isSingleTag
    ensures head.attributes == [] && head.text == "" && head.rawElements == [] && head.children == []
    ensures head.end == "</head>" && header.end == "</header>"
    ensures section.end == "</section>" && footer.end == "</footer>"
  {
    PageParts();
    head := NewContainer(Head);
    header := NewContainer(Header);
    section := NewContainer(Section);
    footer := NewContainer(Footer);
    HeadClosingTags();
    BodyClosingTags();
    EmptyIsValid(head);
    EmptyIsValid(header);
    EmptyIsValid(section);
    EmptyIsValid(footer);
  }

  class UIWebPage {
    var head: UIElement
    var header: UIElement
    var section: UIElement
    var footer: UIElement
    /** The dependencies, in import order. */
    var dependancies: seq<Dependency>

    /**
     * The page invariant: its four nodes are valid and the head lies in no
     * body part's subtree.
     */
    ghost predicate Valid()
      reads this`head, this`header, this`section, this`footer
      reads head`Repr, head.Repr`attributes, head.Repr`text, head.Repr`children, head.Repr`rawElements, head.Repr`Repr
      reads header`Repr, header.Repr`attributes, header.Repr`text, header.Repr`children, header.Repr`rawElements, header.Repr`Repr
      reads section`Repr, section.Repr`attributes, section.Repr`text, section.Repr`children, section.Repr`rawElements, section.Repr`Repr
      reads footer`Repr, footer.Repr`attributes, footer.Repr`text, footer.Repr`children, footer.Repr`rawElements, footer.Repr`Repr
    {
      && head.Valid() && header.Valid() && section.Valid() && footer.Valid()
      && head !in header.Repr && head !in section.Repr && head !in footer.Repr
    }

    /** `init()`: four fresh, empty container nodes and no dependencies. */
    constructor ()
      ensures Valid() && dependancies == []
      ensures fresh(head) && fresh(header) && fresh(section) && fresh(footer)
      ensures head.element == Head && header.element == Header
      ensures section.element == Section && footer.element == Footer
      ensures !head.isSingleTag && !header.isSingleTag && !section.isSingleTag && !footer.isSingleTag
      ensures head.Repr == {head} && header.Repr == {header} && section.Repr == {section} && footer.Repr == {footer}
      ensures head.attributes == [] && head.text == "" && head.rawElements == [] && head.children == []
      ensures head.end == "</head>" && header.end == "</header>"
      ensures section.end == "</section>" && footer.end == "</footer>"
    {
      var h, hd, s, f := NewParts();
      head, header, section, footer := h, hd, s, f;
      dependancies := [];
    }

    /** `import(_:)`: the dependency goes at the end of the list. */
    method Import(d: Dependency)
      modifies this`dependancies
      ensures dependancies == old(dependancies) + [d]
    {
      dependancies := dependancies + [d];
    }

    /**
     * `render()`: the page's string, built from its nodes and dependencies;
     * the head keeps the injected CSS tags afterwards. Each rendered node's
     * `start` is scratch space that rendering rebuilds before reading it, so
     * the contract leaves it unstated.
     */
    method Render() returns (html: string)
      requires Valid()
      modifies head, head.Repr`start, header.Repr`start, section.Repr`start, footer.Repr`start
      ensures Valid()
      ensures head.rawElements == old(head.rawElements) + (if head.isSingleTag then [] else Texts(AllTags(dependancies, Css)))
      ensures head.attributes == old(head.attributes) && head.text == old(head.text)
      ensures head.children == old(head.children) && head.Repr == old(head.Repr)
      ensures header.Html() == old(header.Html()) && section.Html() == old(section.Html())
      ensures footer.Html() == old(footer.Html())
      ensures html == "<!DOCTYPE html>" + head.Html() + "<body>" + header.Html() + section.Html() + footer.Html()
                      + Joined(AllTags(dependancies, JavaScript)) + "</body>"
    {
      var js := JavaScriptAmong(dependancies, head, header, section, footer);
      html := RenderParts(head, header, section, footer, dependancies, js);
    }
  }
}
