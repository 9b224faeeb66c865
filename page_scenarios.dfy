/**
 * Client code for the web page: what repeated rendering does to the
 * page's head.
 */
module PageScenarios {
  import opened Node
  import opened Dependencies
  import opened WebPage

  /**
   * Rendering is not idempotent: every call injects the CSS tags into the
   * head again, so after two calls the head holds them twice.
   */
  method RenderTwice(page: UIWebPage) returns (first: string, second: string)
    requires page.Valid()
    modifies page.head, page.head.Repr`start, page.header.Repr`start, page.section.Repr`start, page.footer.Repr`start
    ensures page.Valid()
    ensures var css := if page.head.isSingleTag then [] else Texts(AllTags(page.dependancies, Css));
      page.head.rawElements == old(page.head.rawElements) + css + css
  {
    first := page.Render();
    second := page.Render();
  }
}
