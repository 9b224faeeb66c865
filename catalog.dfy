/**
 * The closed catalogue of HTML element kinds: the Swift `Element` enum with its
 * string raw values and its `isSingleTag` classification.
 */
module Catalog {
  /** One constructor per case of the enum, in declaration order. */
  datatype Element =
    | A | Abbr | Address | Area | Article | Aside | Audio | B | Base | Bdi | Bdo | Blockquote
    | Body | Br | Button | Canvas | Caption | Cite | Code | Col | Colgroup | Data | Datalist
    | Dd | Del | Details | Dfn | Dialog | Div | Dl | Dt | Element | Em | Embed | Fieldset
    | Figcaption | Figure | Footer | Form | H1 | H2 | H3 | H4 | H5 | H6 | Head | Header | Hr
    | Html | I | Iframe | Img | Input | Ins | Kbd | Label | Legend | Li | Link | Main | Map
    | Mark | Menu | Menuitem | Meta | Meter | Nav | Noscript | Object | Ol | Optgroup | Option
    | Output | P | Param | Picture | Pre | Progress | Q | Rp | Rt | Rtc | Ruby | S | Samp
    | Script | Section | Select | Source | Small | Span | Strong | Style | Sub | Summary | Sup
    | Table | Tbody | Td | Template | Th | Thread | Time | Title | Tr | Track | U | Ul | Var
    | Video | Wbr

  /**
   * The enum's raw value: each case's own name (the escaped case `var` included).
   */
  function RawValue(e: Element): (name: string)
    ensures |name| > 0
  {
    match e
    case A => "a"
    case Abbr => "abbr"
    case Address => "address"
    case Area => "area"
    case Article => "article"
    case Aside => "aside"
    case Audio => "audio"
    case B => "b"
    case Base => "base"
    case Bdi => "bdi"
    case Bdo => "bdo"
    case Blockquote => "blockquote"
    case Body => "body"
    case Br => "br"
    case Button => "button"
    case Canvas => "canvas"
    case Caption => "caption"
    case Cite => "cite"
    case Code => "code"
    case Col => "col"
    case Colgroup => "colgroup"
    case Data => "data"
    case Datalist => "datalist"
    case Dd => "dd"
    case Del => "del"
    case Details => "details"
    case Dfn => "dfn"
    case Dialog => "dialog"
    case Div => "div"
    case Dl => "dl"
    case Dt => "dt"
    case Element => "element"
    case Em => "em"
    case Embed => "embed"
    case Fieldset => "fieldset"
    case Figcaption => "figcaption"
    case Figure => "figure"
    case Footer => "footer"
    case Form => "form"
    case H1 => "h1"
    case H2 => "h2"
    case H3 => "h3"
    case H4 => "h4"
    case H5 => "h5"
    case H6 => "h6"
    case Head => "head"
    case Header => "header"
    case Hr => "hr"
    case Html => "html"
    case I => "i"
    case Iframe => "iframe"
    case Img => "img"
    case Input => "input"
    case Ins => "ins"
    case Kbd => "kbd"
    case Label => "label"
    case Legend => "legend"
    case Li => "li"
    case Link => "link"
    case Main => "main"
    case Map => "map"
    case Mark => "mark"
    case Menu => "menu"
    case Menuitem => "menuitem"
    case Meta => "meta"
    case Meter => "meter"
    case Nav => "nav"
    case Noscript => "noscript"
    case Object => "object"
    case Ol => "ol"
    case Optgroup => "optgroup"
    case Option => "option"
    case Output => "output"
    case P => "p"
    case Param => "param"
    case Picture => "picture"
    case Pre => "pre"
    case Progress => "progress"
    case Q => "q"
    case Rp => "rp"
    case Rt => "rt"
    case Rtc => "rtc"
    case Ruby => "ruby"
    case S => "s"
    case Samp => "samp"
    case Script => "script"
    case Section => "section"
    case Select => "select"
    case Source => "source"
    case Small => "small"
    case Span => "span"
    case Strong => "strong"
    case Style => "style"
    case Sub => "sub"
    case Summary => "summary"
    case Sup => "sup"
    case Table => "table"
    case Tbody => "tbody"
    case Td => "td"
    case Template => "template"
    case Th => "th"
    case Thread => "thread"
    case Time => "time"
    case Title => "title"
    case Tr => "tr"
    case Track => "track"
    case U => "u"
    case Ul => "ul"
    case Var => "var"
    case Video => "video"
    case Wbr => "wbr"
  }

  /** The names of the kinds that render as a single (void) tag in this library. */
  const SingleTagNames: set<string> :=
    {"area", "base", "br", "col", "colgroup", "embed", "hr", "img", "input", "link", "meta", "param", "source", "track", "wbr"}

  /**
   * The void elements listed in section 13.1.2 ("Elements") of the WHATWG HTML
   * Living Standard.
   */
  const StandardVoidNames: set<string> :=
    {"area", "base", "br", "col", "embed", "hr", "img", "input", "link", "meta", "source", "track", "wbr"}

  /** The fifteen kinds that the library renders as a single tag. */
  const SingleTagKinds: set<Element> :=
    {Area, Base, Br, Col, Colgroup, Embed, Hr, Img, Input, Link, Meta, Param, Source, Track, Wbr}

  /** `isSingleTag`: true exactly for the members of `SingleTagKinds`, false for every other case. */
  function IsSingleTag(e: Element): (r: bool)
    ensures r <==> e in SingleTagKinds
    ensures r ==> RawValue(e) in SingleTagNames
  {
    match e
    case Area => true
    case Base => true
    case Br => true
    case Col => true
    case Colgroup => true
    case Embed => true
    case Hr => true
    case Img => true
    case Input => true
    case Link => true
    case Meta => true
    case Param => true
    case Source => true
    case Track => true
    case Wbr => true
    case _ => false
  }

  /**
   * The library's single-tag list is the standard's void list plus `colgroup` and
   * `param`, neither of which the standard lists.
   */
  lemma SingleTagsVersusStandard()
    ensures SingleTagNames == StandardVoidNames + {"colgroup", "param"}
    ensures "colgroup" !in StandardVoidNames && "param" !in StandardVoidNames
  {
  }

  /** The kinds the page and the widgets build on as containers. */
  lemma ContainerKind(e: Element)
    requires e in {Head, Header, Section, Footer, Form, Label, Div, Button, Table, Tr, Td, Th, Ol, Li, A, P}
    ensures !IsSingleTag(e)
  {
  }

  /** The kinds the widgets build on as single-tag nodes. */
  lemma VoidKind(e: Element)
    requires e in {Input, Link}
    ensures IsSingleTag(e)
  {
  }

  /** The four parts of a page are containers. */
  lemma PageParts()
    ensures !IsSingleTag(Head) && !IsSingleTag(Header) && !IsSingleTag(Section) && !IsSingleTag(Footer)
  {
  }
}
