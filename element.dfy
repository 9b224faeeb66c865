/**
 * The element node and its serializer: Swift's `UIElement` class, with its
 * attribute dictionary, text, raw fragments and children, the mutators that are
 * ignored on single-tag nodes, and the recursive `render`.
 */
module Node {
  import opened Catalog
  import opened Optional

  // ---------------------------------------------------------------------------
  // Attributes: Swift's `[String: String]` as a key-unique sequence.
  // Assignment to an existing key overwrites that entry in place; a new key is
  // appended. Rendering walks the sequence in order.
  // ---------------------------------------------------------------------------

  datatype Attr = Attr(key: string, value: string)

  /** The keys present in an attribute sequence. */
  function KeySet(attrs: seq<Attr>): (ks: set<string>)
    ensures forall i :: 0 <= i < |attrs| ==> attrs[i].key in ks
  {
    if |attrs| == 0 then {} else {attrs[0].key} + KeySet(attrs[1..])
  }

  /** No key occurs twice: the sequence is a faithful dictionary. */
  predicate UniqueKeys(attrs: seq<Attr>)
  {
    |attrs| == 0 || (attrs[0].key !in KeySet(attrs[1..]) && UniqueKeys(attrs[1..]))
  }

  /** The dictionary that an attribute sequence stands for. */
  function AttrMap(attrs: seq<Attr>): (m: map<string, string>)
    ensures m.Keys == KeySet(attrs)
  {
    if |attrs| == 0 then map[] else AttrMap(attrs[1..])[attrs[0].key := attrs[0].value]
  }

  /**
   * `attributes[key] = value`: the dictionary gains or overwrites exactly that
   * key, and a key that was absent is appended at the end.
   */
  function Assign(attrs: seq<Attr>, key: string, value: string): (r: seq<Attr>)
    ensures AttrMap(r) == AttrMap(attrs)[key := value]
    ensures key !in KeySet(attrs) ==> r == attrs + [Attr(key, value)]
  {
    if |attrs| == 0 then [Attr(key, value)]
    else if attrs[0].key == key then [Attr(key, value)] + attrs[1..]
    else [attrs[0]] + Assign(attrs[1..], key, value)
  }

  /** Assignment keeps the keys unique. */
  lemma {:induction false} AssignKeepsKeysUnique(attrs: seq<Attr>, key: string, value: string)
    requires UniqueKeys(attrs)
    ensures UniqueKeys(Assign(attrs, key, value))
  {
    if |attrs| > 0 && attrs[0].key != key {
      AssignKeepsKeysUnique(attrs[1..], key, value);
      assert Assign(attrs, key, value)[1..] == Assign(attrs[1..], key, value);
    } else if |attrs| > 0 {
      assert Assign(attrs, key, value)[1..] == attrs[1..];
    }
  }

  /** Overwriting an existing key changes that one entry where it stands. */
  lemma {:induction false} AssignInPlace(attrs: seq<Attr>, key: string, value: string)
    requires UniqueKeys(attrs) && key in KeySet(attrs)
    ensures |Assign(attrs, key, value)| == |attrs|
    ensures forall i :: 0 <= i < |attrs| ==>
      Assign(attrs, key, value)[i] == (if attrs[i].key == key then Attr(key, value) else attrs[i])
  {
    var r := Assign(attrs, key, value);
    if attrs[0].key != key {
      AssignInPlace(attrs[1..], key, value);
    } else {
      assert forall i :: 1 <= i < |attrs| ==> attrs[i].key == attrs[1..][i - 1].key;
    }
  }

  /** One rendered attribute: `key="value" `, neither part escaped. */
  function AttrPair(a: Attr): string
  {
    a.key + "=\"" + a.value + "\" "
  }

  /** The attribute text of an opening tag: every pair in order. */
  function AttrText(attrs: seq<Attr>): string
  {
    if |attrs| == 0 then "" else AttrText(attrs[..|attrs| - 1]) + AttrPair(attrs[|attrs| - 1])
  }

  /** The opening tag that `appendAttributes` writes into `start`. */
  function OpenTag(name: string, attrs: seq<Attr>): string
  {
    "<" + name + " " + AttrText(attrs) + ">"
  }

  /**
   * An opening tag always has a space after the name and a space before `>`,
   * so it is never written in the self-closed `/>` form.
   */
  lemma OpenTagShape(name: string, attrs: seq<Attr>)
    ensures |OpenTag(name, attrs)| >= |name| + 3
    ensures OpenTag(name, attrs)[..|name| + 2] == "<" + name + " "
    ensures OpenTag(name, attrs)[|OpenTag(name, attrs)| - 2..] == " >"
    ensures attrs == [] ==> OpenTag(name, attrs) == "<" + name + " >"
  {
    var a := AttrText(attrs);
    assert |attrs| > 0 ==> |a| > 0 && a[|a| - 1] == ' ';
  }

  /** Appending is associative; used where a long proof context hides it. */
  lemma AppendAssoc(a: string, b: string, c: string)
    ensures (a + b) + c == a + (b + c)
  {
  }

  /** Concatenation of a sequence of strings, in order. */
  function Concat(parts: seq<string>): string
  {
    if |parts| == 0 then "" else Concat(parts[..|parts| - 1]) + parts[|parts| - 1]
  }

  /** Concatenating two runs of parts concatenates their concatenations. */
  lemma {:induction false} ConcatAppend(a: seq<string>, b: seq<string>)
    ensures Concat(a + b) == Concat(a) + Concat(b)
    decreases |b|
  {
    if b != [] {
      var b' := b[..|b| - 1];
      assert (a + b)[..|a + b| - 1] == a + b';
      assert (a + b)[|a + b| - 1] == b[|b| - 1];
      ConcatAppend(a, b');
      calc {
        Concat(a + b);
        Concat(a + b') + b[|b| - 1];
        Concat(a) + Concat(b') + b[|b| - 1];
        Concat(a) + Concat(b);
      }
    } else {
      assert a + b == a;
    }
  }

  // ---------------------------------------------------------------------------
  // Text escaping
  // ---------------------------------------------------------------------------

  /** The characters that the escaping replaces by entities. */
  predicate IsSpecial(c: char)
  {
    c == '&' || c == '<' || c == '>' || c == '"' || c == '\''
  }

  function EscapeChar(c: char): string
  {
    match c
    case '&' => "&amp;"
    case '<' => "&lt;"
    case '>' => "&gt;"
    case '"' => "&quot;"
    case '\'' => "&#39;"
    case _ => [c]
  }

  /**
   * `safetyHTMLEncoded()`: entity escaping of the markup-significant characters.
   * The result never contains a tag delimiter, and text without special
   * characters is left as it is.
   */
  function SafetyHtmlEncoded(s: string): (r: string)
    ensures forall i :: 0 <= i < |r| ==> r[i] != '<' && r[i] != '>'
    ensures (forall i :: 0 <= i < |s| ==> !IsSpecial(s[i])) ==> r == s
  {
    if |s| == 0 then ""
    else
      var head, tail := EscapeChar(s[0]), SafetyHtmlEncoded(s[1..]);
      assert forall i :: 0 <= i < |head| ==> head[i] != '<' && head[i] != '>';
      head + tail
  }

  // ---------------------------------------------------------------------------
  // Construction: the initializer's switch
  // ---------------------------------------------------------------------------

  datatype TagForm = TagForm(start: string, end: string, single: bool)

  /**
   * The initializer's switch: the fifteen listed kinds get the self-closed
   * `<name/>` and no closing tag, every other kind a matching pair. The flag it
   * chooses agrees case by case with the catalogue's `isSingleTag`.
   */
  function InitialTags(e: Element): (r: TagForm)
    ensures r.single == IsSingleTag(e)
    ensures r.single ==> r.start == "<" + RawValue(e) + "/>" && r.end == ""
    ensures !r.single ==> r.start == "<" + RawValue(e) + ">" && r.end == "</" + RawValue(e) + ">"
  {
    var name := RawValue(e);
    match e
    case Area | Base | Br | Col | Colgroup | Embed | Hr | Img | Input | Link | Meta | Param
      | Source | Track | Wbr =>
      TagForm("<" + name + "/>", "", true)
    case _ =>
      TagForm("<" + name + ">", "</" + name + ">", false)
  }

  // ---------------------------------------------------------------------------
  // The node
  // ---------------------------------------------------------------------------

  class UIElement {
    /**
     * The kind. The library declares it reassignable, but this model fixes it
     * at construction (see "Left out" in the README).
     */
    const element: Element
    /** Whether the node is single-tag; set by the initializer alone. */
    const isSingleTag: bool
    /** The opening tag; overwritten by every render. */
    var start: string
    /**
     * The closing tag: `</name>` for a container, nothing for a single-tag
     * node. The library declares it reassignable, but this model fixes it at
     * construction.
     */
    const end: string
    var attributes: seq<Attr>
    var text: string
    /** The children, each the top-level element of what was added. */
    var children: seq<UIElement>
    /** Pre-rendered fragments, emitted verbatim before all children. */
    var rawElements: seq<string>
    /** The nodes of this subtree. */
    ghost var Repr: set<UIElement>

    /**
     * The node invariant: a single-tag node holds no text, fragments, children
     * or closing tag; attribute keys are unique; no child's subtree contains
     * this node, so the structure has no cycle. A node may be the child of
     * several parents, as a reference can be added twice.
     */
    ghost predicate Valid()
      reads this`Repr, Repr`attributes, Repr`text, Repr`children, Repr`rawElements, Repr`Repr
      decreases Repr
    {
      && this in Repr
      && (isSingleTag ==> text == "" && rawElements == [] && children == [] && end == "")
      && UniqueKeys(attributes)
      && (forall k :: 0 <= k < |children| ==>
            && children[k] in Repr
            && children[k].Repr <= Repr
            && this !in children[k].Repr
            && children[k].Valid())
    }

    /** What `render()` returns for the current state. */
    ghost function Html(): string
      requires Valid()
      reads this`Repr, Repr`attributes, Repr`text, Repr`children, Repr`rawElements, Repr`Repr
      decreases Repr, 1
    {
      OpenTag(RawValue(element), attributes) + text + Concat(rawElements) + ChildrenHtml(|children|) + end
    }

    /** The renderings of the first `n` children, in order. */
    ghost function ChildrenHtml(n: nat): string
      requires Valid() && n <= |children|
      reads this`Repr, Repr`attributes, Repr`text, Repr`children, Repr`rawElements, Repr`Repr
      decreases Repr, 0, n
    {
      if n == 0 then "" else ChildrenHtml(n - 1) + children[n - 1].Html()
    }

    /** `init(element:)`. */
    constructor (element: Element)
      ensures Valid() && fresh(Repr) && Repr == {this}
      ensures this.element == element && isSingleTag == IsSingleTag(element)
      ensures isSingleTag ==> start == "<" + RawValue(element) + "/>" && end == ""
      ensures !isSingleTag ==> start == "<" + RawValue(element) + ">" && end == "</" + RawValue(element) + ">"
      ensures attributes == [] && text == "" && children == [] && rawElements == []
    {
      var form := InitialTags(element);
      this.element := element;
      start := form.start;
      end := form.end;
      isSingleTag := form.single;
      attributes := [];
      text := "";
      children := [];
      rawElements := [];
      Repr := {this};
    }

    /** The node itself is its own top-level element. */
    function TopLevelElement(): (e: UIElement)
      ensures e == this
    {
      this
    }

    /** `attributes[key] = value`; allowed on single-tag nodes too. */
    method SetAttribute(key: string, value: string)
      requires Valid()
      modifies this
      ensures Valid()
      ensures attributes == Assign(old(attributes), key, value)
      ensures AttrMap(attributes) == AttrMap(old(attributes))[key := value]
      ensures text == old(text) && children == old(children) && rawElements == old(rawElements)
      ensures start == old(start) && Repr == old(Repr)
    {
      AssignKeepsKeysUnique(attributes, key, value);
      attributes := Assign(attributes, key, value);
    }

    /**
     * `add(_ text:)`: on a container the text becomes the escaped argument,
     * replacing what was there; on a single-tag node nothing changes.
     */
    method AddText(t: string)
      requires Valid()
      modifies this
      ensures Valid()
      ensures text == (if isSingleTag then old(text) else SafetyHtmlEncoded(t))
      ensures attributes == old(attributes) && children == old(children) && rawElements == old(rawElements)
      ensures start == old(start) && Repr == old(Repr)
    {
      if !isSingleTag {
        text := SafetyHtmlEncoded(t);
      }
    }

    /**
     * `safelyAdd(_:)`: on a container the text becomes the percent-encoded
     * argument when the encoding succeeds; a failed encoding, or a single-tag
     * node, leaves the text alone. The encoder is a parameter.
     */
    method SafelyAdd(t: string, percentEncode: string -> Option<string>)
      requires Valid()
      modifies this
      ensures Valid()
      ensures text == (if !isSingleTag && percentEncode(t).Some? then percentEncode(t).value else old(text))
      ensures attributes == old(attributes) && children == old(children) && rawElements == old(rawElements)
      ensures start == old(start) && Repr == old(Repr)
    {
      if !isSingleTag {
        var encoded := percentEncode(t);
        if encoded.Some? {
          text := encoded.value;
        }
      }
    }

    /**
     * `add(_ child:)`: a container gains exactly one child, at the end; a
     * single-tag node ignores the call. The child's subtree must not contain
     * this node, which would make rendering loop forever.
     */
    method AddChild(child: UIElement)
      requires Valid()
      requires !isSingleTag ==> child.Valid() && this !in child.Repr
      modifies this
      ensures Valid()
      ensures children == (if isSingleTag then old(children) else old(children) + [child])
      ensures Repr == (if isSingleTag then old(Repr) else old(Repr) + child.Repr)
      ensures attributes == old(attributes) && text == old(text) && rawElements == old(rawElements)
      ensures start == old(start)
    {
      if !isSingleTag {
        children := children + [child];
        Repr := Repr + child.Repr;
      }
    }

    /**
     * A ghost step with no counterpart in the library. `Repr` grows only when
     * this node itself gains a child, so once a descendant gains children
     * this node's footprint is out of date. Rebuilding it from the children's
     * current footprints makes a tree filled top-down valid again, provided
     * it has no cycle. Only the ghost footprint changes.
     */
    ghost method Adopt()
      requires isSingleTag ==> text == "" && rawElements == [] && children == [] && end == ""
      requires UniqueKeys(attributes)
      requires forall k :: 0 <= k < |children| ==> children[k].Valid() && this !in children[k].Repr
      modifies this`Repr
      ensures Valid() && Repr == {this} + Below(children)
    {
      forall k | 0 <= k < |children|
        ensures children[k] != this
      {
        assert children[k] in children[k].Repr;
      }
      BelowCovers(children);
      Repr := {this} + Below(children);
    }

    /**
     * `inject(_:)`: a container gains the fragment, unescaped, at the end of
     * its raw fragments; a single-tag node ignores the call.
     */
    method Inject(fragment: string)
      requires Valid()
      modifies this
      ensures Valid()
      ensures rawElements == (if isSingleTag then old(rawElements) else old(rawElements) + [fragment])
      ensures attributes == old(attributes) && text == old(text) && children == old(children)
      ensures start == old(start) && Repr == old(Repr)
    {
      if !isSingleTag {
        rawElements := rawElements + [fragment];
      }
    }

    /** `appendAttributes()`: rebuilds `start` from the attributes alone. */
    method AppendAttributes()
      modifies this`start
      ensures start == OpenTag(RawValue(element), attributes)
    {
      var attr := "";
      var i := 0;
      while i < |attributes|
        invariant 0 <= i <= |attributes|
        invariant attr == AttrText(attributes[..i])
      {
        assert attributes[..i + 1][..i] == attributes[..i];
        attr := attr + AttrPair(attributes[i]);
        i := i + 1;
      }
      assert attributes[..i] == attributes;
      start := "<" + RawValue(element) + " " + attr + ">";
    }

    /**
     * `render()`: the rebuilt opening tag, the text, every raw fragment, every
     * child's rendering, then the closing tag. Only `start` fields change, so
     * rendering again without mutation gives the same string.
     */
    method Render() returns (html: string)
      requires Valid()
      modifies Repr`start
      decreases Repr, 2
      ensures html == Html()
      ensures start == OpenTag(RawValue(element), attributes)
    {
      AppendAttributes();
      html := start;
      html := html + text;
      html := AppendRawElements(html);
      html := RenderChildren(html);
      html := html + end;
    }

    /** The fragment loop of `render()`: every raw fragment, in order. */
    method AppendRawElements(html0: string) returns (html: string)
      ensures html == html0 + Concat(rawElements)
    {
      html := html0;
      var i := 0;
      while i < |rawElements|
        invariant 0 <= i <= |rawElements|
        invariant html == html0 + Concat(rawElements[..i])
      {
        assert rawElements[..i + 1][..i] == rawElements[..i];
        html := html + rawElements[i];
        i := i + 1;
      }
      assert rawElements[..i] == rawElements;
    }

    /** The child loop of `render()`: every child rendered, in order. */
    method RenderChildren(html0: string) returns (html: string)
      requires Valid()
      modifies Repr`start
      decreases Repr, 1
      ensures start == old(start)
      ensures html == html0 + ChildrenHtml(|children|)
    {
      html := html0;
      var k := 0;
      while k < |children|
        invariant 0 <= k <= |children| && start == old(start)
        invariant Valid()
        invariant html == html0 + ChildrenHtml(k)
      {
        ghost var done := ChildrenHtml(k);
        var h := RenderChild(k);
        AppendAssoc(html0, done, h);
        html := html + h;
        k := k + 1;
      }
    }

    /** One step of the child loop: render child `k`. */
    method RenderChild(k: nat) returns (h: string)
      requires Valid() && k < |children|
      modifies Repr`start
      decreases Repr, 0
      ensures Valid() && start == old(start)
      ensures ChildrenHtml(k + 1) == old(ChildrenHtml(k)) + h
    {
      h := children[k].Render();
    }

    /** `parse()`: the deprecated name of `render()`, with the same result. */
    method Parse() returns (html: string)
      requires Valid()
      modifies Repr`start
      ensures html == Html()
      ensures start == OpenTag(RawValue(element), attributes)
    {
      html := Render();
    }
  }

  /** A single-tag node renders as its opening tag alone. */
  lemma SingleTagHtml(e: UIElement)
    requires e.Valid() && e.isSingleTag
    ensures e.Html() == OpenTag(RawValue(e.element), e.attributes)
  {
    assert e.ChildrenHtml(0) == "";
  }

  /** The nodes below a sequence of children: the union of their footprints. */
  ghost function Below(kids: seq<UIElement>): set<UIElement>
    reads set k | 0 <= k < |kids| :: kids[k]
  {
    if kids == [] then {} else Below(kids[..|kids| - 1]) + kids[|kids| - 1].Repr
  }

  /** No node of a valid tree is its own child. */
  lemma KidsApart(e: UIElement)
    requires e.Valid()
    ensures forall k :: 0 <= k < |e.children| ==> e.children[k] != e
  {
    forall k | 0 <= k < |e.children|
      ensures e.children[k] != e
    {
      assert e.children[k].Valid();
    }
  }

  lemma {:induction false} BelowCovers(kids: seq<UIElement>)
    ensures forall k :: 0 <= k < |kids| ==> kids[k].Repr <= Below(kids)
    decreases |kids|
  {
    if kids != [] {
      BelowCovers(kids[..|kids| - 1]);
      assert forall k :: 0 <= k < |kids| - 1 ==> kids[..|kids| - 1][k] == kids[k];
    }
  }

  /** A node with one child and no fragments renders its child between its text and its closing tag. */
  lemma OneChildHtml(e: UIElement)
    requires e.Valid() && e.rawElements == [] && |e.children| == 1
    ensures e.Html() == OpenTag(RawValue(e.element), e.attributes) + e.text + e.children[0].Html() + e.end
  {
    assert e.ChildrenHtml(1) == e.ChildrenHtml(0) + e.children[0].Html();
  }

  /** A node without fragments or children renders as tags around its text. */
  lemma LeafHtml(e: UIElement)
    requires e.Valid() && e.rawElements == [] && e.children == []
    ensures e.Html() == OpenTag(RawValue(e.element), e.attributes) + e.text + e.end
  {
    assert e.ChildrenHtml(0) == "";
  }

  /** `UIElement(element:)` as a client sees it: a fresh, empty, valid node of that kind. */
  method NewElement(kind: Element) returns (e: UIElement)
    ensures fresh(e) && e.Valid() && e.Repr == {e}
    ensures e.element == kind && e.isSingleTag == IsSingleTag(kind)
    ensures e.isSingleTag ==> e.end == ""
    ensures !e.isSingleTag ==> e.end == "</" + RawValue(kind) + ">"
    ensures e.attributes == [] && e.text == "" && e.children == [] && e.rawElements == []
  {
    e := new UIElement(kind);
  }

  /** A key that no entry carries is not among the keys. */
  lemma {:induction false} AbsentKey(attrs: seq<Attr>, key: string)
    requires forall i :: 0 <= i < |attrs| ==> attrs[i].key != key
    ensures key !in KeySet(attrs)
  {
    if |attrs| > 0 {
      AbsentKey(attrs[1..], key);
    }
  }

  /**
   * `attributes[key] = value` for a key the node does not have yet: the entry
   * goes at the end and nothing else changes.
   */
  method AddAttribute(e: UIElement, key: string, value: string)
    requires e.Valid()
    requires forall i :: 0 <= i < |e.attributes| ==> e.attributes[i].key != key
    modifies e
    ensures e.Valid()
    ensures e.attributes == old(e.attributes) + [Attr(key, value)]
    ensures e.text == old(e.text) && e.children == old(e.children) && e.rawElements == old(e.rawElements)
    ensures e.start == old(e.start) && e.Repr == old(e.Repr)
  {
    AbsentKey(e.attributes, key);
    e.SetAttribute(key, value);
  }
}
