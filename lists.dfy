/**
 * Lists: `UIOrderedList`, an `ol` node with a list of items, and
 * `UIListItem`, an `li` node holding either a text or a sequence of child
 * nodes.
 */
module Lists {
  import opened Catalog
  import opened Optional
  import opened Node

  /** The closing tags of the list kinds, spelled out. */
  lemma ListClosingTags()
    ensures "</" + RawValue(Ol) + ">" == "</ol>"
    ensures "</" + RawValue(Li) + ">" == "</li>"
  {
  }

  /** A new, empty container node of the given kind. */
  method NewListNode(kind: Element) returns (e: UIElement)
    requires kind == Ol || kind == Li
    ensures fresh(e) && e.Valid() && e.Repr == {e}
    ensures e.element == kind && !e.isSingleTag
    ensures e.attributes == [] && e.text == "" && e.children == [] && e.rawElements == []
    ensures e.end == (if kind == Ol then "</ol>" else "</li>")
  {
    ContainerKind(kind);
    e := NewElement(kind);
    ListClosingTags();
  }

  /** `UIOrderedList`: an empty `ol` and no items. */
  class UIOrderedList {
    const ol: UIElement
    var listItems: seq<UIElement>

    /** `init()`. */
    constructor ()
      ensures fresh(ol) && ol.Valid() && ol.Repr == {ol}
      ensures ol.element == Ol
      ensures ol.attributes == [] && ol.text == "" && ol.children == [] && ol.rawElements == []
      ensures listItems == []
      ensures ol.end == "</ol>"
    {
      var e := NewListNode(Ol);
      ol := e;
      listItems := [];
    }
  }

  /**
   * The loop of `UIListItem.init(with:)`: every node, in order, becomes a
   * child of `li`. None of the nodes may contain `li`.
   */
  method AddChildren(li: UIElement, nodes: seq<UIElement>)
    requires li.Valid() && !li.isSingleTag
    requires forall k :: 0 <= k < |nodes| ==> nodes[k].Valid() && li !in nodes[k].Repr
    modifies li
    ensures li.Valid()
    ensures li.children == old(li.children) + nodes
    ensures li.attributes == old(li.attributes) && li.text == old(li.text)
    ensures li.rawElements == old(li.rawElements)
  {
    var i := 0;
    while i < |nodes|
      invariant 0 <= i <= |nodes|
      invariant li.Valid()
      invariant li.children == old(li.children) + nodes[..i]
      invariant li.attributes == old(li.attributes) && li.text == old(li.text)
      invariant li.rawElements == old(li.rawElements)
      invariant forall k :: 0 <= k < |nodes| ==> nodes[k].Valid()
    {
      li.AddChild(nodes[i]);
      assert nodes[..i + 1] == nodes[..i] + [nodes[i]];
      i := i + 1;
    }
    assert nodes[..i] == nodes;
  }

  /** `UIListItem`: an `li` with a text or with child nodes. */
  class UIListItem {
    const li: UIElement
    var children: seq<UIElement>
    const text: Option<string>

    /** `init(text:)`: with a text, the `li` holds it escaped; without one, the `li` stays empty. */
    constructor (text: Option<string>)
      ensures fresh(li) && li.Valid() && li.Repr == {li}
      ensures li.element == Li
      ensures this.text == text && children == []
      ensures li.text == (if text.Some? then SafetyHtmlEncoded(text.value) else "")
      ensures li.attributes == [] && li.children == [] && li.rawElements == []
      ensures li.end == "</li>"
    {
      var e := NewListNode(Li);
      if text.Some? {
        e.AddText(text.value);
      }
      li := e;
      this.text := text;
      children := [];
    }

    /**
     * `init(with:)`: the nodes become the `li`'s children, in order, and it
     * has no text.
     */
    constructor WithChildren(nodes: seq<UIElement>)
      requires forall k :: 0 <= k < |nodes| ==> nodes[k].Valid()
      ensures fresh(li) && li.Valid() && li.element == Li
      ensures text == None && children == nodes && li.children == nodes
      ensures li.text == "" && li.attributes == [] && li.rawElements == []
      ensures li.end == "</li>"
    {
      var e := NewListNode(Li);
      AddChildren(e, nodes);
      li := e;
      text := None;
      children := nodes;
    }

    function TopLevelElement(): (e: UIElement)
      ensures e == li
    {
      li
    }
  }
}
