# UIWebKit in Dafny

A model of the core of UIWebKit, a Swift library that builds HTML pages in
code. Callers create element nodes, give them attributes, text, raw
fragments and children, and render the tree to a markup string. On top of
the node sit widget classes (forms, tables, lists, links, anchors,
paragraphs), a page that gathers a head, header, section and footer with
their CSS and JavaScript dependencies, and a small Markdown renderer made
of regular-expression passes.

The modules follow the library's own structure.

- `catalog.dfy` (module `Catalog`): the `Element` enum, its raw values and
  `isSingleTag`.
- `element.dfy` (module `Node`): the `UIElement` class. Its fields are
  updated in place by `add`, `inject`, attribute assignment and `render`.
  Attributes are a key-unique sequence. Assigning to an existing key
  overwrites that entry in place; a new key goes at the end. `Html()` is
  the ghost specification of what `render()` returns. `Valid()` keeps a
  ghost `Repr` footprint: no child's subtree contains its parent, so
  rendering terminates. A node may still be shared by several parents.
  The closing tag is a constant of the node, determined by its kind:
  `</name>` for a container and empty for a single-tag node.
  The ghost `Adopt` recomputes a node's footprint from its children's, so
  a tree whose nodes gain children after being added can be made valid
  again.
- `element_scenarios.dfy` (module `NodeScenarios`): small trees built
  through the public mutators, among them one filled top-down, and what
  they render to.
- `markdown.dfy` (module `Markdown`): the renderer's passes.
  - Each of the eight fixed patterns is one of four shapes (`Pattern`).
  - `MatchAt` is a hand-written scanner for each shape. `IsMatch` states
    declaratively which matches the regular expression has.
  - `MatchAtSound` and `MatchAtGreedy` tie the two together:
    `MatchAtGreedy` shows the scanner returns the match that greedy
    backtracking picks.
  - `Replace` is one `replaceMatches` pass over every leftmost,
    non-overlapping match, with the opening and closing text inserted
    literally around the group.
- `dependencies.dfy` (module `Dependencies`): the `htmlTags` table of each
  dependency, with the exact tag texts.
- `webpage.dfy` (module `WebPage`): the `UIWebPage` class, `import`, and
  the string building of `render`, including the CSS injection into the
  head. `page_scenarios.dfy` (module `PageScenarios`) shows that a second
  render injects the CSS tags again.
- `form.dfy`, `table.dfy`, `lists.dfy`, `link.dfy`, `anchor.dfy` and
  `paragraph.dfy`: the widget classes.
  - Each widget's initializer is a constructor. Its loops are methods
    with invariants.
  - Swift's property observers (`didSet`) become setter methods. Swift
    does not run them for assignments inside the type's own initializer,
    so the constructors write no attribute through them.
  - Every widget's `topLevelElement` is a function returning the node the
    widget wraps. A parent that is given a widget receives that node.
- `option.dfy` (module `Optional`): `Option`, standing for Swift's `T?`.

Where the renderer's documented intent and its code differ, the model
follows the code:

- The hash passes run from level 1 up to level 6, so `"## T"` becomes
  `"#<h1> T</h1>"`.
- The captured heading text keeps its leading space: `"# Title"` gives
  `"<h1> Title</h1>"`.
- A block quote is wrapped in `<h1>` tags.
- `replace` replaces every match, not only the first one that its doc
  comment mentions.

The two mistakes among these are under "## Findings", each with a
corrected definition.

## Model

| member | source | states |
|---|---|---|
| Catalog.RawValue | Sources/UIWebKit/Element.swift:24-357 | every case's raw value, the tag name it renders as, is non-empty |
| Catalog.IsSingleTag | Sources/UIWebKit/Element.swift:359-378 | true exactly for the fifteen kinds area, base, br, col, colgroup, embed, hr, img, input, link, meta, param, source, track and wbr; false for every other case |
| Catalog.SingleTagsVersusStandard | Sources/UIWebKit/Element.swift:359-378 | the single-tag names are the void elements of section 13.1.2 of the WHATWG HTML Living Standard plus `colgroup` and `param`, neither of which the standard lists |
| Catalog.PageParts | Sources/UIWebKit/UIWebPage.swift:49-52 | the four kinds a page is built from (head, header, section, footer) are containers |
| Node.Assign | Sources/UIWebKit/UIElement.swift:128-129 | `attributes[key] = value` on the sequence: the dictionary it stands for gains or overwrites exactly that key, and an absent key is appended at the end |
| Node.AssignKeepsKeysUnique | Sources/UIWebKit/UIElement.swift:128-129 | assignment keeps the keys unique, so the sequence stays a dictionary |
| Node.AssignInPlace | Sources/UIWebKit/UIElement.swift:128-129 | overwriting an existing key changes that one entry where it stands, and no other |
| Node.OpenTagShape | Sources/UIWebKit/UIElement.swift:225-231 | the rebuilt opening tag starts with `<name ` and ends with ` >`, so it is never the self-closed `/>` form; with no attributes it is `<name >` |
| Node.SafetyHtmlEncoded | Sources/UIWebKit/UIElement.swift:143-147 | the escaped text contains neither `<` nor `>`; text without markup characters is left as it is |
| Node.InitialTags | Sources/UIWebKit/UIElement.swift:43-126 | the initializer's switch: its single-tag flag equals `isSingleTag` case by case; single-tag kinds get `<name/>` and no closing tag, every other kind `<name>` and `</name>` |
| Node.UIElement.constructor | Sources/UIWebKit/UIElement.swift:43-138 | a fresh valid node of the kind, with `start` and `end` chosen by `isSingleTag`, and no attributes, text, children or fragments |
| Node.UIElement.SetAttribute | Sources/UIWebKit/UIElement.swift:128-129 | the attribute dictionary becomes the old one with `key` mapped to `value`; text, children, fragments and tags are unchanged; allowed on single-tag nodes too |
| Node.UIElement.AddText | Sources/UIWebKit/UIElement.swift:143-147 | on a container the text becomes the escaped argument, replacing the old text; on a single-tag node nothing changes; nothing else changes |
| Node.UIElement.SafelyAdd | Sources/UIWebKit/UIElement.swift:152-158 | on a container whose text encodes successfully the text becomes the encoding; a failed encoding or a single-tag node leaves the text; nothing else changes |
| Node.UIElement.AddChild | Sources/UIWebKit/UIElement.swift:163-167 | a container gains exactly one child, at the end; a single-tag node ignores the call; text, fragments and attributes are unchanged |
| Node.UIElement.Inject | Sources/UIWebKit/UIElement.swift:172-176 | a container appends the fragment unescaped to its fragments; a single-tag node ignores the call; nothing else changes |
| Node.UIElement.AppendAttributes | Sources/UIWebKit/UIElement.swift:225-231 | `start` becomes `<name `, then `key="value" ` for every attribute in order, then `>` |
| Node.UIElement.Render | Sources/UIWebKit/UIElement.swift:205-222 | the result is the rebuilt opening tag, the text, every fragment, every child's rendering in order, then the closing tag (`Html()`); `start` is left as the rebuilt tag |
| Node.UIElement.AppendRawElements | Sources/UIWebKit/UIElement.swift:210-214 | the fragment loop appends every fragment, in order |
| Node.UIElement.RenderChildren | Sources/UIWebKit/UIElement.swift:215-219 | the child loop appends every child's rendering, in order, and leaves this node's `start` alone |
| Node.UIElement.RenderChild | Sources/UIWebKit/UIElement.swift:217 | rendering child `k` extends the rendering of the first `k` children by exactly its result |
| Node.UIElement.Parse | Sources/UIWebKit/UIElement.swift:182-200 | the deprecated `parse()` returns the same string as `render()` |
| Node.UIElement.TopLevelElement | Sources/UIWebKit/UIElement.swift:240-243 | a plain node is its own top-level element |
| Node.SingleTagHtml | Sources/UIWebKit/UIElement.swift:205-231 | a single-tag node renders as its opening tag alone |
| Node.LeafHtml | Sources/UIWebKit/UIElement.swift:205-222 | a node without fragments or children renders as its tags around its text |
| NodeScenarios.RenderEmptyParagraph | Sources/UIWebKit/UIElement.swift:205-231 | an empty paragraph renders as `<p ></p>` |
| NodeScenarios.EscapedParagraph | Sources/UIWebKit/UIElement.swift:143-147 | text added to a paragraph renders as `<p >`, the escaped text and `</p>`; under this model's entity escaping the escaped text holds no `<` or `>`, so the text cannot open a tag |
| NodeScenarios.BuildTopDown | Sources/UIWebKit/UIElement.swift:163-167 | a section, div and paragraph filled top-down (the div gains its paragraph after it was added to the section) form a valid tree that renders as the three nested elements |
| NodeScenarios.TopDownTree | Sources/UIWebKit/UIElement.swift:205-222 | that tree renders as `<section >`, `<div >`, `<p ></p>`, `</div>`, `</section>`, spelled out by `NodeScenarios.TopDownText` |
| NodeScenarios.SingleTagIgnoresContent | Sources/UIWebKit/UIElement.swift:143-176 | an `img` with an empty `alt` renders as `<img alt="" >` whatever text, fragment and child it was given |
| NodeScenarios.RenderTwice | Sources/UIWebKit/UIElement.swift:205-231 | rendering a node twice without mutation in between gives the same string |
| Markdown.MatchAt | Sources/UIWebKit/MarkdownRenderer.swift:37-42 | a match found at `i` lies inside the string, is not empty, and has its group inside it |
| Markdown.MatchAtSound | Sources/UIWebKit/MarkdownRenderer.swift:37-42 | what the scanner finds at `i` is a match of the pattern there |
| Markdown.MatchAtGreedy | Sources/UIWebKit/MarkdownRenderer.swift:37-42 | whenever the pattern has a match at `i`, the scanner finds one, and every match at `i` precedes or equals the found one in greedy backtracking's order (longest group first) |
| Markdown.Replace | Sources/UIWebKit/MarkdownRenderer.swift:37-42 | one `replaceMatches` pass, with `start` and `end` inserted literally; where the pattern matches nowhere in the string, the string comes back unchanged |
| Markdown.ReplaceSkipsUnmatched | Sources/UIWebKit/MarkdownRenderer.swift:37-42 | text up to the next match is copied unchanged |
| Markdown.ReplaceMatchStep | Sources/UIWebKit/MarkdownRenderer.swift:37-42 | a match is replaced by `start + group + end`, and the pass resumes after it |
| Markdown.ReplaceWhole | Sources/UIWebKit/MarkdownRenderer.swift:37-42 | a match that covers the whole string is replaced as a whole |
| Markdown.ReplaceTwoMatches | Sources/UIWebKit/MarkdownRenderer.swift:37-42 | with two matches, both are replaced and the text between them is kept: the pass replaces every match, not only the first |
| Markdown.ReplaceAbsent | Sources/UIWebKit/MarkdownRenderer.swift:50-90 | a pass whose pattern needs a character the text lacks is the identity |
| Markdown.DelimitedMatchAt | Sources/UIWebKit/MarkdownRenderer.swift:50-62 | `d{w} x d{w}`, with `x` non-empty and free of `d`, is the match at its position, and its group is `x` |
| Markdown.DelimitedEveryMatch | Sources/UIWebKit/MarkdownRenderer.swift:50-62 | two delimited spans with delimiter-free text between them are both replaced, and the text between them is kept |
| Markdown.DelimitedWhole | Sources/UIWebKit/MarkdownRenderer.swift:50-62 | a string that is one delimited span becomes `start + x + end` |
| Markdown.ItalicsUnderscore | Sources/UIWebKit/MarkdownRenderer.swift:49-52 | `_x_` becomes `<em>x</em>` |
| Markdown.ItalicsStar | Sources/UIWebKit/MarkdownRenderer.swift:49-52 | `*x*` becomes `<em>x</em>` |
| Markdown.ReplaceItalics | Sources/UIWebKit/MarkdownRenderer.swift:49-52 | text with no `_` and no `*` is returned unchanged |
| Markdown.ItalicsEveryMatch | Sources/UIWebKit/MarkdownRenderer.swift:49-52 | `_x_ u _y_` becomes `<em>x</em> u <em>y</em>`: every italic span is rendered |
| Markdown.BoldUnderscore | Sources/UIWebKit/MarkdownRenderer.swift:60-63 | `__x__` becomes `<strong>x</strong>` |
| Markdown.ReplaceBold | Sources/UIWebKit/MarkdownRenderer.swift:60-63 | text with no `_` and no `*` is returned unchanged |
| Markdown.BoldStar | Sources/UIWebKit/MarkdownRenderer.swift:60-63 | `**x**` becomes `<strong>x</strong>` |
| Markdown.ReplaceHeaders | Sources/UIWebKit/MarkdownRenderer.swift:70-80 | one line of text with no `#` goes through all eight heading passes unchanged |
| Markdown.SetextUnchanged | Sources/UIWebKit/MarkdownRenderer.swift:72-73 | text without a newline goes through the two setext passes unchanged |
| Markdown.UnderlinedWhole | Sources/UIWebKit/MarkdownRenderer.swift:72-73 | a line, a newline and a run of the rule character is replaced as a whole, with the line as the group |
| Markdown.UnderlinedOtherRule | Sources/UIWebKit/MarkdownRenderer.swift:72-73 | a line underlined with a different character has no setext match anywhere |
| Markdown.SetextLevelOne | Sources/UIWebKit/MarkdownRenderer.swift:70-80 | a line underlined with `=` becomes `<h1>line</h1>` |
| Markdown.SetextLevelTwo | Sources/UIWebKit/MarkdownRenderer.swift:70-80 | a line underlined with `-` becomes `<h2>line</h2>` |
| Markdown.HashWhole | Sources/UIWebKit/MarkdownRenderer.swift:74-79 | `n` hashes followed by hash-free text to the end is replaced as a whole, with the text as the group |
| Markdown.HashTrailingDropped | Sources/UIWebKit/MarkdownRenderer.swift:74-79 | the trailing `#*` is consumed and dropped: `n` hashes, hash-free text `t` and any run of hashes become `open + t + close` |
| Markdown.ShortRunUnchanged | Sources/UIWebKit/MarkdownRenderer.swift:74-79 | the level-`k` pass leaves unchanged any text whose hashes all lie in its first `n` characters, for `n < k` |
| Markdown.HashPassesUnchanged | Sources/UIWebKit/MarkdownRenderer.swift:74-79 | the six hash passes leave hash-free text unchanged |
| Markdown.HashLevelOne | Sources/UIWebKit/MarkdownRenderer.swift:70-80 | `#` followed by hash-free text `t` on one line becomes `<h1>t</h1>`, so a leading space in `t` is kept |
| Markdown.HashLevelTwoAsWritten | Sources/UIWebKit/MarkdownRenderer.swift:74-75 | as written, `##` followed by `t` becomes `#<h1>t</h1>`: the level-1 pass fires first |
| Markdown.HashPassesDownHeading | Sources/UIWebKit/MarkdownRenderer.swift:74-79 | run from `level` down to 1, the hash passes turn a level-`n` heading (`n <= level`) into `<hn>t</hn>` |
| Markdown.HashHeadingFixed | Sources/UIWebKit/MarkdownRenderer.swift:70-80 | with the hash passes run from level 6 down to level 1, `n` hashes followed by `t` become `<hn>t</hn>` for every level |
| Markdown.QuoteWhole | Sources/UIWebKit/MarkdownRenderer.swift:90 | `>` followed by one line is replaced as a whole; one leading whitespace character is consumed |
| Markdown.RenderBlockQuotes | Sources/UIWebKit/MarkdownRenderer.swift:88-92 | text with no `>` is returned unchanged |
| Markdown.BlockQuoteAsWritten | Sources/UIWebKit/MarkdownRenderer.swift:88-92 | as written, `>` and a line become `<h1>line</h1>` |
| Markdown.BlockQuoteTakesNextLine | Sources/UIWebKit/MarkdownRenderer.swift:90 | the optional whitespace may be the newline itself, so `>` at the end of a line quotes the next line |
| Markdown.BlockQuoteFixed | Sources/UIWebKit/MarkdownRenderer.swift:83-92 | with the `<blockquote>` tags the documentation names, `>` and a line become `<blockquote>line</blockquote>` |
| Dependencies.BootstrapTags | Sources/UIWebKit/Dependencies.swift:61 | `bootstrap` has both keys, two CSS tags and one JavaScript tag |
| Dependencies.JQueryTags | Sources/UIWebKit/Dependencies.swift:62 | `jQuery` has only a JavaScript key, with one tag |
| Dependencies.UiKitTags | Sources/UIWebKit/Dependencies.swift:63 | `uiKit` has one CSS tag and one JavaScript tag |
| Dependencies.CustomCssTag | Sources/UIWebKit/Dependencies.swift:64 | `customCSS(p)` has only a CSS key, with one tag that is exactly `<link rel="stylesheet" href="` + p + `"`, with no closing `>` |
| Dependencies.CustomJavaScriptTag | Sources/UIWebKit/Dependencies.swift:65 | `customJavaScript(p)` has only a JavaScript key, with one tag that is exactly `<script src="` + p + `"></script>` |
| Dependencies.NormalizeTags | Sources/UIWebKit/Dependencies.swift:66 | `normalize` has only a CSS key, with one tag |
| Dependencies.HtmlTags | Sources/UIWebKit/Dependencies.swift:59-68 | every table has a CSS or a JavaScript key, and no key maps to an empty list of tags |
| Dependencies.TagKinds | Sources/UIWebKit/Dependencies.swift:59-68 | for every dependency, stylesheets are filed under CSS and scripts under JavaScript |
| Dependencies.AllTagsAppend | Sources/UIWebKit/UIWebPage.swift:66-72 | the tags of a list with one more dependency are the old ones followed by that dependency's tags |
| WebPage.InjectTexts | Sources/UIWebKit/UIWebPage.swift:68-70 | the inner CSS loop appends every tag text to the head's fragments, in order, and changes nothing else |
| WebPage.InjectDependency | Sources/UIWebKit/UIWebPage.swift:67-71 | one dependency's CSS tags, if it has any, are appended to the head's fragments |
| WebPage.InjectNext | Sources/UIWebKit/UIWebPage.swift:66-72 | one turn of the outer CSS loop extends the injected tags from the first `i` dependencies to the first `i + 1` |
| WebPage.InjectCss | Sources/UIWebKit/UIWebPage.swift:66-72 | the CSS loop appends to the head's fragments the CSS tags of every dependency, in dependency order and then table order |
| WebPage.AppendJavaScript | Sources/UIWebKit/UIWebPage.swift:78-84 | the JavaScript loop appends the JavaScript tags of every dependency, in dependency order and then table order |
| WebPage.JavaScriptAmong | Sources/UIWebKit/UIWebPage.swift:78-84 | the JavaScript text is built without touching the page's nodes |
| WebPage.InjectCssAmong | Sources/UIWebKit/UIWebPage.swift:66-72 | the injection changes only the head's fragments; header, section and footer render as before |
| WebPage.ParseAmong | Sources/UIWebKit/UIWebPage.swift:73-77 | parsing one part returns its rendering and changes no part's rendering |
| WebPage.Assemble | Sources/UIWebKit/UIWebPage.swift:65-77 | the doctype, the head, `<body>`, header, section and footer, each rendered, in that order |
| WebPage.RenderParts | Sources/UIWebKit/UIWebPage.swift:64-85 | the page string, given the JavaScript text: doctype, head with the CSS tags injected, `<body>`, the body parts, the JavaScript tags, `</body>`, with no `<html>` wrapper |
| WebPage.NewParts | Sources/UIWebKit/UIWebPage.swift:48-52 | four fresh, valid, empty container nodes tagged head, header, section and footer, closing with `</head>`, `</header>`, `</section>` and `</footer>` |
| WebPage.UIWebPage.constructor | Sources/UIWebKit/UIWebPage.swift:42-54 | four fresh, empty container nodes tagged head, header, section and footer, with their closing tags, and no dependencies |
| WebPage.UIWebPage.Import | Sources/UIWebKit/UIWebPage.swift:93-95 | the dependency is appended to the end of the list; nothing else changes |
| WebPage.UIWebPage.Render | Sources/UIWebKit/UIWebPage.swift:63-88 | the page string in the fixed order, and the head keeps the injected CSS tags afterwards: its fragments grow by the CSS tags of every dependency |
| PageScenarios.RenderTwice | Sources/UIWebKit/UIWebPage.swift:66-73 | rendering is not idempotent: after two renders the head holds every CSS tag twice more |
| Forms.Lowercased | Sources/UIWebKit/Components/UIForm.swift:124 | `lowercased()`, character by character, of the same length |
| Forms.LowercasedIsLower | Sources/UIWebKit/Components/UIForm.swift:124 | a lowercased string has no capital letter, and lowercasing it again changes nothing |
| Forms.Uppercased | Sources/UIWebKit/Components/UIForm.swift:123 | `uppercased()`, character by character, of the same length |
| Forms.CasedName | Sources/UIWebKit/Components/UIForm.swift:123 | the label text and placeholder: the first character uppercased, the rest lowercased; an empty name is excluded, as the code traps on it |
| Forms.ItemId | Sources/UIWebKit/Components/UIForm.swift:126-133 | the id is as long as the prefix and its dash, the lowercased name and the suffix together |
| Forms.ItemIdShape | Sources/UIWebKit/Components/UIForm.swift:126-133 | an id is the lowercased name and the suffix, behind `prefix-` when there is a prefix |
| Forms.ItemIdInjective | Sources/UIWebKit/Components/UIForm.swift:126-133 | for one prefix and suffix, two items share an id only if their lowercased names are equal |
| Forms.ItemIdsDiffer | Sources/UIWebKit/Components/UIForm.swift:126-133 | the div, label and input ids of one item are pairwise different |
| Forms.InputType | Sources/UIWebKit/Components/UIForm.swift:136-142 | `email` exactly for `email` or `e-mail`, `password` exactly for `password`, `text` otherwise |
| Forms.NewLabel | Sources/UIWebKit/Components/UIForm.swift:128-130 | the label gets `for` (the lowercased name) and then its id, and the escaped cased name as text; it closes with `</label>` |
| Forms.NewInput | Sources/UIWebKit/Components/UIForm.swift:132-142 | the single-tag input gets `name`, `id`, `placeholder` and `type`, in that order |
| Forms.NewWrapper | Sources/UIWebKit/Components/UIForm.swift:126 | an empty `div` whose only attribute is the item's id, closing with `</div>` |
| Forms.NewItem | Sources/UIWebKit/Components/UIForm.swift:119-145 | the body of the item initializer: the div holds exactly the label and then the input, with every attribute written; the div and the label close with `</div>` and `</label>` |
| Forms.UIFormElement.constructor | Sources/UIWebKit/Components/UIForm.swift:118-146 | the wrapper div's children are exactly [label, input]; ids, `for`, `name`, placeholder, text and input type derived from the name and prefix; the div and the label close with `</div>` and `</label>` |
| Forms.AddItem | Sources/UIWebKit/Components/UIForm.swift:47-49 | one turn of the item loop: the form gains the next item's div, with its id, after the earlier ones |
| Forms.ItemDiv | Sources/UIWebKit/Components/UIForm.swift:48 | the node a form receives for an item is a fresh `div` carrying the item's id |
| Forms.NewSubmitButton | Sources/UIWebKit/Components/UIForm.swift:50-53 | a `button` with `type="submit"`, the lowercased text as id, and the escaped text, closing with `</button>` |
| Forms.AddButton | Sources/UIWebKit/Components/UIForm.swift:50-54 | the form gains the submit button as its last child; its attributes, text and fragments are unchanged |
| Forms.PostTo | Sources/UIWebKit/Components/UIForm.swift:56-59 | with an action the form gets `action` and then `method="POST"`; without one it keeps no attribute; its children are unchanged |
| Forms.FinishForm | Sources/UIWebKit/Components/UIForm.swift:50-59 | the button goes last; with an action the form gets `action` and `method="POST"`, without one no attribute |
| Forms.BuildForm | Sources/UIWebKit/Components/UIForm.swift:46-60 | `items.count + 1` children: one div per item in order, then the submit button; attributes depend on the action; the form closes with `</form>` |
| Forms.UIForm.constructor | Sources/UIWebKit/Components/UIForm.swift:46-60 | as `BuildForm`, for the form the widget holds |
| Forms.UIForm.TopLevelElement | Sources/UIWebKit/Components/UIForm.swift:95-98 | a parent receives the widget's own `form` node, not a copy |
| Forms.UIFormElement.TopLevelElement | Sources/UIWebKit/Components/UIForm.swift:151-154 | a parent receives the item's own wrapper `div` |
| Forms.LoginItems | Sources/UIWebKit/Components/UIForm.swift:69-75 | the items are the credential (Email or Username), then Password |
| Forms.PresetIds | Sources/UIWebKit/Components/UIForm.swift:68-85 | the preset ids spelled out: `user-email`, `user-username`, `user-password`, and button ids `login` and `sign up` |
| Forms.LoginForm | Sources/UIWebKit/Components/UIForm.swift:68-78 | three children: a `div` for the credential (Email or Username) and one for Password, each with its `user-` id, then a `button` showing `Login` with id `login`; the form posts to the action |
| Forms.SignUpForm | Sources/UIWebKit/Components/UIForm.swift:83-85 | four children: a `div` each for Email, Username and Password with its `user-` id, then a `button` showing `Sign Up` with id `sign up`; no action or method |
| Tables.UITableCell.constructor | Sources/UIWebKit/Components/UITable.swift:139-142 | a `td` whose text is the escaped data, with no attributes or children, closing with `</td>` |
| Tables.UITableCellHeader.constructor | Sources/UIWebKit/Components/UITable.swift:124-127 | a `th` whose text is the escaped title, closing with `</th>` |
| Tables.AddCell | Sources/UIWebKit/Components/UITable.swift:83-87 | one turn of the row loop: the new cell is kept after the earlier cells and is the row's next child; the earlier cells are unchanged |
| Tables.AddCellHeader | Sources/UIWebKit/Components/UITable.swift:107-111 | as `AddCell`, with a `th` for the next title |
| Tables.BuildRow | Sources/UIWebKit/Components/UITable.swift:79-88 | the row loop: one `td` per string, in order, and `cells` matches the children one to one; the row closes with `</tr>` |
| Tables.BuildHeaderRow | Sources/UIWebKit/Components/UITable.swift:103-112 | the header loop: one `th` per title, in order; the row closes with `</tr>` |
| Tables.UITableRow.constructor | Sources/UIWebKit/Components/UITable.swift:79-88 | a `tr` with one `td` per string, in order, and `cells` matches the children one to one; it closes with `</tr>` |
| Tables.UITableRowHeader.constructor | Sources/UIWebKit/Components/UITable.swift:103-112 | a `tr` with one `th` per title, in order; it closes with `</tr>` |
| Tables.AddRow | Sources/UIWebKit/Components/UITable.swift:41-45 | one turn of the table loop: the new row is kept in `rows` and is the table's next child; earlier rows still show their data |
| Tables.AddRows | Sources/UIWebKit/Components/UITable.swift:41-45 | the table loop: one row per line of data, in order, after the children already there |
| Tables.UITable.constructor | Sources/UIWebKit/Components/UITable.swift:38-46 | one row per line of data, in order; `rows` mirrors the table's children; no header row; the table closes with `</table>` |
| Tables.UITableCell.TopLevelElement | Sources/UIWebKit/Components/UITable.swift:169-175 | a row receives the cell's own `td` node |
| Tables.UITableCellHeader.TopLevelElement | Sources/UIWebKit/Components/UITable.swift:161-167 | a header row receives the cell's own `th` node |
| Tables.UITableRow.TopLevelElement | Sources/UIWebKit/Components/UITable.swift:145-151 | a table receives the row's own `tr` node |
| Tables.UITableRowHeader.TopLevelElement | Sources/UIWebKit/Components/UITable.swift:153-159 | a table receives the header row's own `tr` node |
| Tables.HeaderTable | Sources/UIWebKit/Components/UITable.swift:55-59 | a fresh `table`, closing with `</table>`, whose only child is the header row, showing the titles in order, and which is not inside that row |
| Tables.UITable.WithHeader | Sources/UIWebKit/Components/UITable.swift:53-64 | the header row is the first child and shows the titles, followed by the data rows in order; the table closes with `</table>` |
| Lists.UIOrderedList.constructor | Sources/UIWebKit/Components/UILists.swift:24-32 | an empty `ol`, closing with `</ol>`, and no list items |
| Lists.AddChildren | Sources/UIWebKit/Components/UILists.swift:60 | the loop adds every node, in order, as the `li`'s children |
| Lists.UIListItem.constructor | Sources/UIWebKit/Components/UILists.swift:49-52 | with a text the `li` holds it escaped; without one it stays empty; it has no children and closes with `</li>` |
| Lists.UIListItem.TopLevelElement | Sources/UIWebKit/Components/UILists.swift:66-69 | a list receives the item's own `li` node |
| Lists.UIListItem.WithChildren | Sources/UIWebKit/Components/UILists.swift:57-61 | the `li`'s children are exactly the given nodes, in order, and the item has no text; it closes with `</li>` |
| Links.UILink.constructor | Sources/UIWebKit/Components/UILink.swift:48-51 | a single-tag `link` node; `href` and `rel` are stored but the node gets no attribute, as observers do not run in the initializer |
| Links.UILink.TopLevelElement | Sources/UIWebKit/Components/UILink.swift:56-59 | a parent receives the widget's own `link` node, so later `href` and `rel` assignments show in the parent's rendering |
| Links.UILink.SetRel | Sources/UIWebKit/Components/UILink.swift:30-34 | assigning `rel` sets the node's `rel` attribute and leaves every other key alone |
| Links.UILink.SetHref | Sources/UIWebKit/Components/UILink.swift:37-41 | assigning `href` sets the node's `href` attribute and leaves every other key alone |
| Links.RenderNewLink | Sources/UIWebKit/Components/UILink.swift:48-51 | a link fresh from its initializer renders as `<link >`, whatever `href` and `rel` were passed |
| Links.AssignedLink | Sources/UIWebKit/Components/UILink.swift:30-41 | after `href` and then `rel` are assigned, the node has exactly those two attributes, in that order |
| Links.RenderAssignedLink | Sources/UIWebKit/Components/UILink.swift:30-41 | such a link renders as its opening tag with both attributes and no closing tag |
| Anchors.UIAnchor.constructor | Sources/UIWebKit/Components/UIAnchor.swift:48-53 | an `a` node with `href` as its only attribute, the escaped title as text, no children, and `</a>` as closing tag |
| Anchors.UIAnchor.TopLevelElement | Sources/UIWebKit/Components/UIAnchor.swift:58-61 | a parent receives the widget's own `a` node |
| Anchors.UIAnchor.SetTitle | Sources/UIWebKit/Components/UIAnchor.swift:30-34 | assigning `title` replaces the anchor's text with the new title, escaped, rather than appending to it |
| Anchors.UIAnchor.SetLink | Sources/UIWebKit/Components/UIAnchor.swift:37-41 | assigning `link` overwrites only `href` |
| Anchors.RenderNewAnchor | Sources/UIWebKit/Components/UIAnchor.swift:48-53 | a new anchor renders as `<a href="link" >`, the escaped title and `</a>` |
| Anchors.Retarget | Sources/UIWebKit/Components/UIAnchor.swift:30-53 | a retitled and relinked anchor is as if created with the new values |
| Paragraphs.ParagraphTag | Sources/UIWebKit/Components/UIParagraph.swift:27 | `p` is a container, and a render opens it as `<p >` |
| Paragraphs.UIParagraph.constructor | Sources/UIWebKit/Components/UIParagraph.swift:39-42 | a `p` with the escaped text and no attributes or children |
| Paragraphs.UIParagraph.TopLevelElement | Sources/UIWebKit/Components/UIParagraph.swift:47-50 | a parent receives the widget's own `p` node |
| Paragraphs.UIParagraph.SetText | Sources/UIWebKit/Components/UIParagraph.swift:30-34 | assigning `text` overwrites the paragraph's text with the new value, escaped |
| Paragraphs.RenderRetexted | Sources/UIWebKit/Components/UIParagraph.swift:30-42 | after a second assignment only the last text is shown: `<p >` + escaped text + `</p>` |

## Left out

- Catalog.RawValue: it does not state that the raw values are pairwise distinct. Swift rejects an enum with duplicate raw values at compile time, and comparing 111 literal strings pairwise is beyond what the verifier does cheaply.
- Node.SafetyHtmlEncoded: `safetyHTMLEncoded()` is not part of this model. It is modelled as entity escaping of `& < > " '`, and the contract states only what rendering relies on: no `<` or `>` in the result, and no change to plain text.
- Node.UIElement.SafelyAdd: the Foundation percent-encoding is a parameter that may fail (`None`), not Foundation's algorithm.
- Forms.Lowercased: case mapping is ASCII-only; Unicode case mapping, which can change a string's length, is not modelled.
- Forms.Uppercased: as `Forms.Lowercased`. Unicode uppercasing can lengthen a string (`ß` becomes `SS`); the model keeps the length, and so does `Forms.CasedName`.
- Forms.UIForm.constructor: for each item it states the wrapper div's kind and id. The label and input inside each div are stated by `Forms.UIFormElement.constructor` and not repeated.
- Forms.LoginForm: the ids and texts are stated through `ShowsItems` and `ShowsButton`, that is through `ItemId`, `Lowercased` and `SafetyHtmlEncoded`; `Forms.PresetIds` spells the ids out.
- Forms.SignUpForm: as `Forms.LoginForm`.
- Tables.UITable.WithHeader: the fallback `?? UITableRowHeader(with: [])` is never taken, as the header row was assigned just before, so it is not modelled.
- WebPage.UIWebPage.Render: the page model builds the JavaScript text before the CSS injection and the parsing. That loop reads only the dependency list and writes no node, so the string is the same.
- Markdown.Replace: `start` and `end` are inserted literally around the group. Swift passes `start + "$1" + end` to `replaceMatches` as a template, where `$n` inside `start` or `end` also refers to a group and `\` escapes the next character. That expansion is not modelled. The eight passes all pass plain tags, which contain neither `$` nor `\`, so for them the result is the same.
- Attribute order: Swift's `Dictionary` iterates in an unspecified order. The model renders attributes in insertion order, and the widget contracts state the attribute sequence in that order. Only its map (`AttrMap`) is what Swift determines; `SetRel`, `SetHref` and `SetLink` state the map as well.
- Pattern options: the regular expressions are read with `allowCommentsAndWhitespace`. They contain no unescaped whitespace or `#`, so the option changes nothing and is not modelled. Compiling a pattern cannot fail with these literals, so the `throws` paths are left out.
- General regular expressions: only the eight fixed patterns are scanned, by hand-written scanners.
- ICU's `.` is modelled as any character but a line terminator (`\n`, `\v`, `\f`, `\r`, U+0085, U+2028, U+2029), and `\s` as tab, newline, form feed, carriage return and the `\p{Z}` spaces. The strings are sequences of Unicode scalars, while `NSString` indexes UTF-16 units.
- `ElementRenderable` is a protocol, which this model does not use. Every `topLevelElement` in the library returns a stored node, so a child is stored as that node when it is added.
- Node.UIElement.Render: only a tree whose ghost footprints are current can be rendered. When a node gains a child after it was itself added to a parent, the ancestors' footprints are refreshed with the ghost `Node.UIElement.Adopt`, bottom-up; `NodeScenarios.BuildTopDown` does this. The Swift code needs no such step and has no counterpart to it.
- WebPage.UIWebPage.Render: the page requires that the head lies in no body part's subtree. Swift also renders a page whose head was added under its header, section or footer: the head then appears twice, both times with the injected CSS, because the injection comes before every `parse()`. Such a page is outside this model.
- Reassigning a node's kind or tags: `element`, `start` and `end` are reassignable properties in Swift (Sources/UIWebKit/UIElement.swift:29-35). No widget reassigns them. A caller that changed `element` would get the new name in the rebuilt opening tag, while `end` and the single-tag flag kept the old kind. The model fixes `element` and `end` at construction (the initializer sets `end` to `</name>` for a container and to nothing for a single-tag node, and the widget constructors state it), and only rendering rewrites `start`.
- Cyclic trees: the Swift code lets a node be added to its own subtree, after which `render()` never returns. `Valid()` excludes this, and `AddChild` requires it.
- Printing and views: the deprecation `print` in `parse()`, Vapor's `View(bytes:)` at the end of the page's `render()`, and the empty overridable `configure()` are left out.
- Legacy and unused code: Sources/Package/UIElement.swift, Sources/Package/Enum.swift, Sources/UIWebKit/Enum.swift, Sources/UIWebKit/Error.swift, Sources/UIWebKit/Dependancies.swift and Package.swift are not part of this model.
- `UINavigation` is not part of this model. It depends on `UIUnorderedList`, which is defined in no file here, and takes its order from a dictionary.
- The SML helpers are not part of this model. They call an initializer that no file defines and run caller-supplied closures.
- `UIOrderedList.listItems` is never written by the library, and the model keeps it empty.

## Findings

| source | as written | input that shows it | evidently intended | confidence | as-written member | corrected member |
|---|---|---|---|---|---|---|
| Sources/UIWebKit/MarkdownRenderer.swift:74-79 | the hash passes run from level 1 to level 6, and the level-1 pattern `#([^#]+)#*` also matches the last hash of a longer run | `"## T"` becomes `"#<h1> T</h1>"` | a level-2 heading `<h2> T</h2>`: run the passes from level 6 down to level 1 | high; not executed | Markdown.HashLevelTwoAsWritten | Markdown.HashHeadingFixed |
| Sources/UIWebKit/MarkdownRenderer.swift:83-92 | `renderBlockQuotes` wraps the quoted line in `<h1>` tags | `"> q"` becomes `"<h1>q</h1>"` | `"<blockquote>q</blockquote>"`, as the function's documentation says | high; not executed | Markdown.BlockQuoteAsWritten | Markdown.BlockQuoteFixed |
