/**
 * The dependency table of a page: for each front-end dependency, the CSS
 * tags that go into the page head and the JavaScript tags that go after the
 * footer, keyed by the kind of tag.
 *
 * A table entry is a `Tag` naming the string it stands for, and `TagText`
 * gives that string; the shape of the table (which kinds, how many tags) is
 * stated on tags, the text of the custom tags on `TagText`.
 */
module Dependencies {

  /** Whether a tag links CSS or JavaScript. */
  datatype DependencyType = JavaScript | Css

  /** A dependency a page loads. */
  datatype Dependency =
    | JQuery
    | Bootstrap
    | UiKit
    | Normalize
    | CustomCss(path: string)
    | CustomJavaScript(path: string)

  /** The fixed CDN tags of the built-in dependencies. */
  datatype CdnResource =
    | BootstrapCss
    | BootstrapThemeCss
    | BootstrapJs
    | JQueryJs
    | UiKitCss
    | UiKitJs
    | NormalizeCss

  /** An entry of the table. */
  datatype Tag =
    | Cdn(resource: CdnResource)
    | Stylesheet(path: string)
    | Script(path: string)

  /** The opening text of a stylesheet link. */
  const StylesheetPrefix: string := "<link rel=\"stylesheet\" href=\""

  /** The opening text of a script element. */
  const ScriptPrefix: string := "<script src=\""

  /** The closing text of a script element after its path. */
  const ScriptSuffix: string := "\"></script>"

  /** The text of a tag, as the page writes it out. */
  function TagText(t: Tag): string
  {
    match t
    case Stylesheet(path) => StylesheetPrefix + path + "\""
    case Script(path) => ScriptPrefix + path + ScriptSuffix
    case Cdn(r) =>
      match r
      case BootstrapCss =>
        "<link rel=\"stylesheet\" href=\"https://maxcdn.bootstrapcdn.com/bootstrap/3.3.7/css/bootstrap.min.css\" integrity=\"sha384-BVYiiSIFeK1dGmJRAkycuHAHRg32OmUcww7on3RYdg4Va+PmSTsz/K68vbdEjh4u\" crossorigin=\"anonymous\">"
      case BootstrapThemeCss =>
        "<link rel=\"stylesheet\" href=\"https://maxcdn.bootstrapcdn.com/bootstrap/3.3.7/css/bootstrap-theme.min.css\" integrity=\"sha384-rHyoN1iRsVXV4nD0JutlnGaslCJuC7uwjduW9SVrLvRYooPp2bWYgmgJQIXwl/Sp\" crossorigin=\"anonymous\">"
      case BootstrapJs =>
        "<script src=\"https://maxcdn.bootstrapcdn.com/bootstrap/3.3.7/js/bootstrap.min.js\" integrity=\"sha384-Tc5IQib027qvyjSMfHjOMaLkfuWVxZxUPnCJA7l2mCWNIpG9mGCD8wGNIcPD7Txa\" crossorigin=\"anonymous\"></script>"
      case JQueryJs =>
        "<script src=\"https://code.jquery.com/jquery-3.1.1.min.js\" integrity=\"sha256-hVVnYaiADRTO2PzUGmuLJr8BLUSjGIZsDYGmIJLv2b8=\"crossorigin=\"anonymous\"></script>"
      case UiKitCss =>
        "<link rel=\"stylesheet\" href=\"https://cdnjs.cloudflare.com/ajax/libs/uikit/3.0.0-beta.12/css/uikit.min.css\" />"
      case UiKitJs =>
        "<script src=\"https://cdnjs.cloudflare.com/ajax/libs/uikit/3.0.0-beta.12/js/uikit.min.js\"></script>"
      case NormalizeCss =>
        "<link rel=\"stylesheet\" href=\"https://cdnjs.cloudflare.com/ajax/libs/normalize/6.0.0/normalize.min.css.map\""
  }

  /**
   * `htmlTags`: the tags of a dependency, by kind. Every dependency has an
   * entry, and every entry it has holds at least one tag.
   */
  function HtmlTags(d: Dependency): (tags: map<DependencyType, seq<Tag>>)
    ensures Css in tags || JavaScript in tags
    ensures forall kind :: kind in tags ==> tags[kind] != []
  {
    match d
    case Bootstrap => map[Css := [Cdn(BootstrapCss), Cdn(BootstrapThemeCss)], JavaScript := [Cdn(BootstrapJs)]]
    case JQuery => map[JavaScript := [Cdn(JQueryJs)]]
    case UiKit => map[Css := [Cdn(UiKitCss)], JavaScript := [Cdn(UiKitJs)]]
    case CustomCss(path) => map[Css := [Stylesheet(path)]]
    case CustomJavaScript(path) => map[JavaScript := [Script(path)]]
    case Normalize => map[Css := [Cdn(NormalizeCss)]]
  }

  /** The tags of one kind, or none when the table has no entry for that kind. */
  function TagsOf(d: Dependency, kind: DependencyType): seq<Tag>
  {
    if kind in HtmlTags(d) then HtmlTags(d)[kind] else []
  }

  /** The tags of one kind of every dependency, in dependency order and then table order. */
  function AllTags(deps: seq<Dependency>, kind: DependencyType): seq<Tag>
  {
    if deps == [] then [] else AllTags(deps[..|deps| - 1], kind) + TagsOf(deps[|deps| - 1], kind)
  }

  lemma AllTagsAppend(deps: seq<Dependency>, d: Dependency, kind: DependencyType)
    ensures AllTags(deps + [d], kind) == AllTags(deps, kind) + TagsOf(d, kind)
  {
    assert (deps + [d])[..|deps|] == deps;
  }

  /** The texts of a sequence of tags, in order. */
  function Texts(tags: seq<Tag>): (r: seq<string>)
    ensures |r| == |tags| && forall i :: 0 <= i < |tags| ==> r[i] == TagText(tags[i])
  {
    if tags == [] then [] else Texts(tags[..|tags| - 1]) + [TagText(tags[|tags| - 1])]
  }

  /** The texts of a sequence of tags, written one after the other. */
  function Joined(tags: seq<Tag>): string
  {
    if tags == [] then "" else Joined(tags[..|tags| - 1]) + TagText(tags[|tags| - 1])
  }

  lemma {:induction false} JoinedAppend(a: seq<Tag>, b: seq<Tag>)
    ensures Joined(a + b) == Joined(a) + Joined(b)
    decreases |b|
  {
    if b == [] {
      assert a + b == a;
    } else {
      var b' := b[..|b| - 1];
      assert (a + b)[..|a + b| - 1] == a + b';
      JoinedAppend(a, b');
    }
  }

  lemma BootstrapTags()
    ensures HtmlTags(Bootstrap).Keys == {Css, JavaScript}
    ensures |HtmlTags(Bootstrap)[Css]| == 2 && |HtmlTags(Bootstrap)[JavaScript]| == 1
  {
  }

  lemma JQueryTags()
    ensures HtmlTags(JQuery).Keys == {JavaScript}
    ensures |HtmlTags(JQuery)[JavaScript]| == 1
  {
  }

  lemma UiKitTags()
    ensures HtmlTags(UiKit).Keys == {Css, JavaScript}
    ensures |HtmlTags(UiKit)[Css]| == 1 && |HtmlTags(UiKit)[JavaScript]| == 1
  {
  }

  lemma NormalizeTags()
    ensures HtmlTags(Normalize).Keys == {Css}
    ensures |HtmlTags(Normalize)[Css]| == 1
  {
  }

  /**
   * A custom stylesheet gives one CSS tag holding its path between quotes;
   * the tag is left without its closing `>`.
   */
  lemma CustomCssTag(path: string)
    ensures HtmlTags(CustomCss(path)).Keys == {Css}
    ensures HtmlTags(CustomCss(path))[Css] == [Stylesheet(path)]
    ensures var text := TagText(Stylesheet(path));
      text[..|StylesheetPrefix|] == StylesheetPrefix &&
      text[|StylesheetPrefix|..|text| - 1] == path &&
      text[|text| - 1] == '"'
  {
    var text := StylesheetPrefix + path + "\"";
    assert text[|StylesheetPrefix|..|text| - 1] == path;
  }

  /** A custom script gives one JavaScript tag holding its path between quotes. */
  lemma CustomJavaScriptTag(path: string)
    ensures HtmlTags(CustomJavaScript(path)).Keys == {JavaScript}
    ensures HtmlTags(CustomJavaScript(path))[JavaScript] == [Script(path)]
    ensures var text := TagText(Script(path));
      text[..|ScriptPrefix|] == ScriptPrefix &&
      text[|ScriptPrefix|..|text| - |ScriptSuffix|] == path &&
      text[|text| - |ScriptSuffix|..] == ScriptSuffix
  {
    var text := ScriptPrefix + path + ScriptSuffix;
    assert text[|ScriptPrefix|..|text| - |ScriptSuffix|] == path;
    assert text[|text| - |ScriptSuffix|..] == ScriptSuffix;
  }

  /** The CDN resources that are stylesheets. */
  predicate IsStylesheetResource(r: CdnResource)
  {
    r == BootstrapCss || r == BootstrapThemeCss || r == UiKitCss || r == NormalizeCss
  }

  /** Stylesheets are filed under CSS and scripts under JavaScript, for every dependency. */
  lemma TagKinds(d: Dependency)
    ensures forall t :: t in TagsOf(d, Css) ==> t.Stylesheet? || (t.Cdn? && IsStylesheetResource(t.resource))
    ensures forall t :: t in TagsOf(d, JavaScript) ==> t.Script? || (t.Cdn? && !IsStylesheetResource(t.resource))
  {
  }
}
