/**
 * Forms: `UIFormElement`, a wrapper `div` holding a label and an input for one
 * named item, and `UIForm`, a `form` holding one such item per name and a
 * submit button, with the login and sign-up presets.
 *
 * Case mapping is ASCII-only: `lowercased()` and `uppercased()` change the
 * letters A to Z and a to z and nothing else.
 */
module Forms {
  import opened Catalog
  import opened Optional
  import opened Node

  /** The closing tags of the form kinds, spelled out. */
  lemma FormClosingTags()
    ensures "</" + RawValue(Label) + ">" == "</label>"
    ensures "</" + RawValue(Div) + ">" == "</div>"
    ensures "</" + RawValue(Button) + ">" == "</button>"
    ensures "</" + RawValue(Form) + ">" == "</form>"
  {
  }

  // ---------------------------------------------------------------------------
  // Case mapping and derived names
  // ---------------------------------------------------------------------------

  predicate IsUpperLetter(c: char)
  {
    'A' <= c <= 'Z'
  }

  predicate IsLowerLetter(c: char)
  {
    'a' <= c <= 'z'
  }

  function LowerChar(c: char): char
  {
    if IsUpperLetter(c) then (c as int - 'A' as int + 'a' as int) as char else c
  }

  function UpperChar(c: char): char
  {
    if IsLowerLetter(c) then (c as int - 'a' as int + 'A' as int) as char else c
  }

  /** `lowercased()`, character by character. */
  function Lowercased(s: string): (r: string)
    ensures |r| == |s|
    ensures forall i :: 0 <= i < |s| ==> r[i] == LowerChar(s[i])
  {
    if s == [] then [] else [LowerChar(s[0])] + Lowercased(s[1..])
  }

  /** `uppercased()`, character by character. */
  function Uppercased(s: string): (r: string)
    ensures |r| == |s|
    ensures forall i :: 0 <= i < |s| ==> r[i] == UpperChar(s[i])
  {
    if s == [] then [] else [UpperChar(s[0])] + Uppercased(s[1..])
  }

  /** A lowercased string has no capital letter, and lowercasing it again changes nothing. */
  lemma LowercasedIsLower(s: string)
    ensures forall i :: 0 <= i < |s| ==> !IsUpperLetter(Lowercased(s)[i])
    ensures Lowercased(Lowercased(s)) == Lowercased(s)
  {
    var r := Lowercased(s);
    assert forall i :: 0 <= i < |s| ==> LowerChar(r[i]) == r[i];
  }

  /**
   * The label text and placeholder of an item: the first character
   * uppercased and the rest lowercased. An empty name has no first
   * character, and the code traps on it.
   */
  function CasedName(name: string): (r: string)
    requires |name| > 0
    ensures |r| == |name|
    ensures r[0] == UpperChar(name[0])
    ensures forall i :: 1 <= i < |name| ==> r[i] == LowerChar(name[i])
  {
    Uppercased(name[..1]) + Lowercased(name[1..])
  }

  /**
   * The id of one of an item's nodes: the lowercased name followed by the
   * node's suffix, behind `prefix-` when there is a prefix.
   */
  function ItemId(prefix: Option<string>, lower: string, suffix: string): (id: string)
    ensures |id| == (if prefix.Some? then |prefix.value| + 1 else 0) + |lower| + |suffix|
  {
    match prefix
    case None => lower + suffix
    case Some(p) => p + "-" + lower + suffix
  }

  /**
   * Every id ends with the name and the suffix and starts with the prefix and
   * a dash; so, for one prefix and one suffix, two items get the same id only
   * when their lowercased names are equal.
   */
  lemma ItemIdShape(prefix: Option<string>, lower: string, suffix: string)
    ensures var id := ItemId(prefix, lower, suffix);
      && id[|id| - |lower| - |suffix|..] == lower + suffix
      && (prefix.Some? ==> id[..|prefix.value| + 1] == prefix.value + "-")
      && (prefix.None? ==> id == lower + suffix)
  {
    var id := ItemId(prefix, lower, suffix);
    if prefix.Some? {
      var p := prefix.value;
      assert id == (p + "-") + (lower + suffix);
    }
  }

  lemma ItemIdInjective(prefix: Option<string>, a: string, b: string, suffix: string)
    requires ItemId(prefix, a, suffix) == ItemId(prefix, b, suffix)
    ensures a == b
  {
    var id := ItemId(prefix, a, suffix);
    ItemIdShape(prefix, a, suffix);
    ItemIdShape(prefix, b, suffix);
    var head := if prefix.Some? then |prefix.value| + 1 else 0;
    assert |id| == head + |a| + |suffix| == head + |b| + |suffix|;
    assert a == (a + suffix)[..|a|] == (b + suffix)[..|b|] == b;
  }

  /** The three ids of one item are pairwise different. */
  lemma ItemIdsDiffer(prefix: Option<string>, lower: string)
    ensures ItemId(prefix, lower, "") != ItemId(prefix, lower, "-label")
    ensures ItemId(prefix, lower, "") != ItemId(prefix, lower, "-input")
    ensures ItemId(prefix, lower, "-label") != ItemId(prefix, lower, "-input")
  {
    var l, i := ItemId(prefix, lower, "-label"), ItemId(prefix, lower, "-input");
    ItemIdShape(prefix, lower, "-label");
    ItemIdShape(prefix, lower, "-input");
    assert |l| == |i|;
    assert l[|l| - 1] == 'l' && i[|i| - 1] == 't';
  }

  /** The input type an item gets from its lowercased name. */
  function InputType(lower: string): (t: string)
    ensures t == "email" <==> lower == "email" || lower == "e-mail"
    ensures t == "password" <==> lower == "password"
    ensures t == "text" <==> lower != "email" && lower != "e-mail" && lower != "password"
  {
    if lower == "email" || lower == "e-mail" then "email"
    else if lower == "password" then "password"
    else "text"
  }

  // ---------------------------------------------------------------------------
  // One item: label, input and wrapper div
  // ---------------------------------------------------------------------------

  /** The label of an item: `for` and `id` attributes, and the cased name as text. */
  method NewLabel(prefix: Option<string>, lower: string, cased: string) returns (labelNode: UIElement)
    ensures fresh(labelNode) && labelNode.Valid() && labelNode.Repr == {labelNode}
    ensures labelNode.element == Label
    ensures labelNode.attributes == [Attr("for", lower), Attr("id", ItemId(prefix, lower, "-label"))]
    ensures labelNode.text == SafetyHtmlEncoded(cased)
    ensures labelNode.children == [] && labelNode.rawElements == []
    ensures labelNode.end == "</label>"
  {
    ContainerKind(Label);
    labelNode := NewElement(Label);
    FormClosingTags();
    AddAttribute(labelNode, "for", lower);
    AddAttribute(labelNode, "id", ItemId(prefix, lower, "-label"));
    labelNode.AddText(cased);
  }

  /** The input of an item: name, id, placeholder and type, in that order. */
  method NewInput(prefix: Option<string>, lower: string, cased: string, kind: string) returns (input: UIElement)
    ensures fresh(input) && input.Valid() && input.Repr == {input}
    ensures input.element == Input && input.isSingleTag
    ensures input.attributes == [Attr("name", lower), Attr("id", ItemId(prefix, lower, "-input")),
                                 Attr("placeholder", cased), Attr("type", kind)]
    ensures input.text == "" && input.children == [] && input.rawElements == []
  {
    VoidKind(Input);
    input := NewElement(Input);
    AddAttribute(input, "name", lower);
    AddAttribute(input, "id", ItemId(prefix, lower, "-input"));
    AddAttribute(input, "placeholder", cased);
    AddAttribute(input, "type", kind);
  }

  /** An empty `div` with the item's id. */
  method NewWrapper(prefix: Option<string>, lower: string) returns (div: UIElement)
    ensures fresh(div) && div.Valid() && div.Repr == {div}
    ensures div.element == Div && !div.isSingleTag
    ensures div.attributes == [Attr("id", ItemId(prefix, lower, ""))]
    ensures div.text == "" && div.children == [] && div.rawElements == []
    ensures div.end == "</div>"
  {
    ContainerKind(Div);
    div := NewElement(Div);
    FormClosingTags();
    AddAttribute(div, "id", ItemId(prefix, lower, ""));
  }

  /** `UIFormElement`: the label and the input of one named item, inside a `div`. */
  class UIFormElement {
    /** The item's `label` (a reserved word here). */
    const labelNode: UIElement
    const input: UIElement
    const elementWrapperDiv: UIElement

    /**
     * `init(with:and:)`. The name must not be empty: the code takes its
     * first character and traps when there is none.
     */
    constructor (name: string, idPrefix: Option<string>)
      requires |name| > 0
      ensures fresh(labelNode) && fresh(input) && fresh(elementWrapperDiv)
      ensures elementWrapperDiv.Valid() && elementWrapperDiv.Repr == {elementWrapperDiv, labelNode, input}
      ensures elementWrapperDiv.element == Div
      ensures elementWrapperDiv.attributes == [Attr("id", ItemId(idPrefix, Lowercased(name), ""))]
      ensures elementWrapperDiv.children == [labelNode, input]
      ensures elementWrapperDiv.text == "" && elementWrapperDiv.rawElements == []
      ensures labelNode.element == Label && input.element == Input
      ensures labelNode.attributes == [Attr("for", Lowercased(name)), Attr("id", ItemId(idPrefix, Lowercased(name), "-label"))]
      ensures labelNode.text == SafetyHtmlEncoded(CasedName(name))
      ensures input.attributes == [Attr("name", Lowercased(name)), Attr("id", ItemId(idPrefix, Lowercased(name), "-input")),
                                   Attr("placeholder", CasedName(name)), Attr("type", InputType(Lowercased(name)))]
      ensures elementWrapperDiv.end == "</div>" && labelNode.end == "</label>"
    {
      var lower := Lowercased(name);
      var div, l, i := NewItem(idPrefix, lower, CasedName(name), InputType(lower));
      labelNode, input, elementWrapperDiv := l, i, div;
    }

    /** The wrapper `div` is what a parent receives. */
    function TopLevelElement(): (e: UIElement)
      ensures e == elementWrapperDiv
    {
      elementWrapperDiv
    }
  }

  /**
   * The body of `UIFormElement.init`, given the lowercased name, the cased
   * name and the input type: build the three nodes and nest them.
   */
  method NewItem(prefix: Option<string>, lower: string, cased: string, kind: string)
    returns (div: UIElement, labelNode: UIElement, input: UIElement)
    ensures fresh(labelNode) && fresh(input) && fresh(div)
    ensures div.Valid() && div.Repr == {div, labelNode, input}
    ensures div.element == Div
    ensures div.attributes == [Attr("id", ItemId(prefix, lower, ""))]
    ensures div.children == [labelNode, input]
    ensures div.text == "" && div.rawElements == []
    ensures labelNode.element == Label && input.element == Input
    ensures labelNode.attributes == [Attr("for", lower), Attr("id", ItemId(prefix, lower, "-label"))]
    ensures labelNode.text == SafetyHtmlEncoded(cased)
    ensures input.attributes == [Attr("name", lower), Attr("id", ItemId(prefix, lower, "-input")),
                                 Attr("placeholder", cased), Attr("type", kind)]
    ensures div.end == "</div>" && labelNode.end == "</label>"
  {
    labelNode := NewLabel(prefix, lower, cased);
    input := NewInput(prefix, lower, cased, kind);
    div := NewWrapper(prefix, lower);
    div.AddChild(labelNode);
    div.AddChild(input);
  }

  // ---------------------------------------------------------------------------
  // The form
  // ---------------------------------------------------------------------------

  /** Which credential the login form asks for. */
  datatype LoginFormType = EmailLogin | UsernameLogin

  /**
   * One turn of the loop in `UIForm.init`: a new item for `items[i]`, added
   * to a form that already shows the first `i` items.
   */
  method AddItem(form: UIElement, items: seq<string>, prefix: Option<string>, i: nat)
    requires form.Valid() && !form.isSingleTag && form.element == Form
    requires i < |items| && |items[i]| > 0 && |form.children| == i
    requires ShowsItems(form.children, items, prefix)
    modifies form
    ensures form.Valid() && !form.isSingleTag && form.element == Form
    ensures |form.children| == i + 1 && ShowsItems(form.children, items, prefix)
    ensures form.attributes == old(form.attributes) && form.text == old(form.text)
    ensures form.rawElements == old(form.rawElements)
  {
    ghost var earlier := form.children;
    assert forall k :: 0 <= k < i ==> earlier[k] != form;
    var div := ItemDiv(items[i], prefix);
    form.AddChild(div);
    assert form.children == earlier + [div];
    assert ShowsItems(earlier, items, prefix);
    ShowsOneMore(earlier, div, items, prefix);
  }

  /** The form's children `kids` are the divs of the first `|kids|` items, each with its id. */
  ghost predicate ShowsItems(kids: seq<UIElement>, items: seq<string>, prefix: Option<string>)
    reads set k | 0 <= k < |kids| :: kids[k]
  {
    && |kids| <= |items|
    && forall k :: 0 <= k < |kids| ==>
         kids[k].element == Div && kids[k].attributes == [Attr("id", ItemId(prefix, Lowercased(items[k]), ""))]
  }

  lemma ShowsOneMore(kids: seq<UIElement>, div: UIElement, items: seq<string>, prefix: Option<string>)
    requires ShowsItems(kids, items, prefix) && |kids| < |items|
    requires div.element == Div && div.attributes == [Attr("id", ItemId(prefix, Lowercased(items[|kids|]), ""))]
    ensures ShowsItems(kids + [div], items, prefix)
  {
    assert forall k :: 0 <= k < |kids| ==> (kids + [div])[k] == kids[k];
  }

  /** The top-level node of a new `UIFormElement`: a fresh `div` carrying the item's id. */
  method ItemDiv(name: string, prefix: Option<string>) returns (div: UIElement)
    requires |name| > 0
    ensures fresh(div.Repr) && div.Valid()
    ensures div.element == Div && div.attributes == [Attr("id", ItemId(prefix, Lowercased(name), ""))]
  {
    var item := new UIFormElement(name, prefix);
    div := item.TopLevelElement();
  }

  /** `b` is the submit button for `submitText`: `type="submit"`, the lowercased text as id, and the text. */
  ghost predicate ShowsButton(b: UIElement, submitText: string)
    reads b
  {
    && b.element == Button
    && b.attributes == [Attr("type", "submit"), Attr("id", Lowercased(submitText))]
    && b.text == SafetyHtmlEncoded(submitText)
  }

  /** The submit button: `type="submit"`, the lowercased text as id, and the text. */
  method NewSubmitButton(submitText: string) returns (button: UIElement)
    ensures fresh(button) && button.Valid() && button.Repr == {button}
    ensures ShowsButton(button, submitText)
    ensures button.children == [] && button.rawElements == []
    ensures button.end == "</button>"
  {
    ContainerKind(Button);
    button := NewElement(Button);
    FormClosingTags();
    AddAttribute(button, "type", "submit");
    AddAttribute(button, "id", Lowercased(submitText));
    button.AddText(submitText);
  }

  /**
   * The body of `UIForm.init`: one item per name, in order, then the submit
   * button; with an action, the form posts to it, and without one the form
   * has no attributes.
   */
  method BuildForm(items: seq<string>, prefix: Option<string>, submitText: string, action: Option<string>)
    returns (form: UIElement)
    requires forall i :: 0 <= i < |items| ==> |items[i]| > 0
    ensures fresh(form) && form.Valid() && form.element == Form
    ensures |form.children| == |items| + 1
    ensures ShowsItems(form.children[..|items|], items, prefix)
    ensures ShowsButton(form.children[|items|], submitText)
    ensures form.attributes == (if action.None? then [] else [Attr("action", action.value), Attr("method", "POST")])
    ensures form.text == "" && form.rawElements == []
    ensures form.end == "</form>"
  {
    ContainerKind(Form);
    form := NewElement(Form);
    FormClosingTags();
    var i := 0;
    while i < |items|
      invariant 0 <= i <= |items|
      invariant form.Valid() && !form.isSingleTag && form.element == Form
      invariant |form.children| == i && ShowsItems(form.children, items, prefix)
      invariant form.attributes == [] && form.text == "" && form.rawElements == []
    {
      AddItem(form, items, prefix, i);
      i := i + 1;
    }
    FinishForm(form, items, prefix, submitText, action);
  }

  /**
   * The end of `UIForm.init`, on a form that shows every item: the submit
   * button, then the action and method when there is an action.
   */
  method FinishForm(form: UIElement, items: seq<string>, prefix: Option<string>, submitText: string, action: Option<string>)
    requires form.Valid() && !form.isSingleTag && form.element == Form && form.attributes == []
    requires |form.children| == |items| && ShowsItems(form.children, items, prefix)
    modifies form
    ensures form.Valid() && form.element == Form
    ensures |form.children| == |items| + 1
    ensures form.children[..|items|] == old(form.children) && ShowsItems(form.children[..|items|], items, prefix)
    ensures ShowsButton(form.children[|items|], submitText)
    ensures form.attributes == (if action.None? then [] else [Attr("action", action.value), Attr("method", "POST")])
    ensures form.text == old(form.text) && form.rawElements == old(form.rawElements)
  {
    ghost var kids := form.children;
    KidsApart(form);
    var button := AddButton(form, submitText);
    PostTo(form, action);
    assert form.children[..|items|] == kids;
  }

  /** Appends a new submit button for `submitText` to the form's children. */
  method AddButton(form: UIElement, submitText: string) returns (button: UIElement)
    requires form.Valid() && !form.isSingleTag
    modifies form
    ensures form.Valid() && form.children == old(form.children) + [button]
    ensures button != form && ShowsButton(button, submitText)
    ensures form.attributes == old(form.attributes) && form.text == old(form.text)
    ensures form.rawElements == old(form.rawElements)
  {
    button := NewSubmitButton(submitText);
    form.AddChild(button);
  }

  /** With an action, the form posts to it; without one its attributes stay empty. */
  method PostTo(form: UIElement, action: Option<string>)
    requires form.Valid() && form.attributes == []
    modifies form
    ensures form.Valid()
    ensures form.attributes == (if action.None? then [] else [Attr("action", action.value), Attr("method", "POST")])
    ensures form.children == old(form.children) && form.text == old(form.text)
    ensures form.rawElements == old(form.rawElements)
  {
    if action.Some? {
      AddAttribute(form, "action", action.value);
      AddAttribute(form, "method", "POST");
    }
  }

  /** `UIForm`: a `form` node built from a list of item names. */
  class UIForm {
    const form: UIElement

    /** `init(with:idPrefix:submitText:and:)`; every name must be non-empty. */
    constructor (items: seq<string>, idPrefix: Option<string>, submitText: string, action: Option<string>)
      requires forall i :: 0 <= i < |items| ==> |items[i]| > 0
      ensures fresh(form) && form.Valid() && form.element == Form && form.end == "</form>"
      ensures |form.children| == |items| + 1
      ensures ShowsItems(form.children[..|items|], items, idPrefix)
      ensures ShowsButton(form.children[|items|], submitText)
      ensures form.attributes == (if action.None? then [] else [Attr("action", action.value), Attr("method", "POST")])
      ensures form.text == "" && form.rawElements == []
    {
      var f := BuildForm(items, idPrefix, submitText, action);
      form := f;
    }

    /** The `form` node is what a parent receives. */
    function TopLevelElement(): (e: UIElement)
      ensures e == form
    {
      form
    }
  }

  /** The item names of `loginForm`: the credential, then the password. */
  method LoginItems(login: LoginFormType) returns (items: seq<string>)
    ensures items == [if login == EmailLogin then "Email" else "Username", "Password"]
  {
    items := [];
    match login {
      case EmailLogin => items := items + ["Email"];
      case UsernameLogin => items := items + ["Username"];
    }
    items := items + ["Password"];
  }

  /** The names the presets use, lowercased. */
  lemma LowerEmail()
    ensures Lowercased("Email") == "email"
  {
    var r := Lowercased("Email");
    assert forall i :: 0 <= i < 5 ==> r[i] == "email"[i];
  }

  lemma LowerUsername()
    ensures Lowercased("Username") == "username"
  {
    var r := Lowercased("Username");
    assert forall i :: 0 <= i < 8 ==> r[i] == "username"[i];
  }

  lemma LowerPassword()
    ensures Lowercased("Password") == "password"
  {
    var r := Lowercased("Password");
    assert forall i :: 0 <= i < 8 ==> r[i] == "password"[i];
  }

  lemma LowerLogin()
    ensures Lowercased("Login") == "login"
  {
    var r := Lowercased("Login");
    assert forall i :: 0 <= i < 5 ==> r[i] == "login"[i];
  }

  lemma LowerSignUp()
    ensures Lowercased("Sign Up") == "sign up"
  {
    var r := Lowercased("Sign Up");
    assert forall i :: 0 <= i < 7 ==> r[i] == "sign up"[i];
  }

  /** The ids of the preset items, under the `user` prefix. */
  lemma UserId(lower: string, id: string)
    requires |id| == 5 + |lower| && id[..5] == "user-" && id[5..] == lower
    ensures ItemId(Some("user"), lower, "") == id
  {
    assert id == id[..5] + id[5..];
  }

  /** The ids the presets give their items and buttons, spelled out. */
  lemma PresetIds()
    ensures ItemId(Some("user"), Lowercased("Email"), "") == "user-email"
    ensures ItemId(Some("user"), Lowercased("Username"), "") == "user-username"
    ensures ItemId(Some("user"), Lowercased("Password"), "") == "user-password"
    ensures Lowercased("Login") == "login" && Lowercased("Sign Up") == "sign up"
  {
    UserId("email", "user-email");
    UserId("username", "user-username");
    UserId("password", "user-password");
    LowerEmail();
    LowerUsername();
    LowerPassword();
    LowerLogin();
    LowerSignUp();
  }

  /**
   * `loginForm(with:and:)`: the credential and the password, under the
   * `user` prefix, a `Login` button, and posting to the action.
   * `PresetIds` spells the resulting ids out.
   */
  method LoginForm(login: LoginFormType, action: string) returns (f: UIForm)
    ensures fresh(f.form) && f.form.Valid() && |f.form.children| == 3
    ensures ShowsItems(f.form.children[..2], [if login == EmailLogin then "Email" else "Username", "Password"], Some("user"))
    ensures ShowsButton(f.form.children[2], "Login")
    ensures f.form.attributes == [Attr("action", action), Attr("method", "POST")]
  {
    var items := LoginItems(login);
    f := new UIForm(items, Some("user"), "Login", Some(action));
  }

  /**
   * `signUpForm()`: email, username and password under the `user` prefix,
   * a `Sign Up` button, and no action or method.
   */
  method SignUpForm() returns (f: UIForm)
    ensures fresh(f.form) && f.form.Valid() && |f.form.children| == 4
    ensures ShowsItems(f.form.children[..3], ["Email", "Username", "Password"], Some("user"))
    ensures ShowsButton(f.form.children[3], "Sign Up")
    ensures f.form.attributes == []
  {
    var items := ["Email", "Username", "Password"];
    f := new UIForm(items, Some("user"), "Sign Up", None);
  }
}
