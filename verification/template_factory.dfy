/**
 * `TemplateFactory` (js/src/util/template-factory.js): merges a configuration
 * over its defaults, type-checks it, and fills a markup skeleton with content
 * entries, one CSS selector at a time.
 *
 * The collaborators whose code is not part of this model are parameters,
 * gathered in `Host`: what a content function returns, selector matching,
 * markup parsing, `sanitizeHtml`, and JavaScript's `String(value)`.
 */
module Templates {
  import opened Options
  import opened Dom
  import opened JsValues
  import opened Strings

  /** `NAME`, the component name type errors report. */
  const Name := "TemplateFactory"

  /** The sanitizer's `DefaultAllowlist`, an object whose entries are not part of this model. */
  const DefaultAllowlist := HostObj("DefaultAllowlist")

  /** `Default`: the value an option takes when the caller's configuration leaves it out. */
  function Default(option: string): Value {
    match option
    case "extraClass" => Str("")
    case "template" => Str("<div></div>")
    case "content" => Obj([])
    case "html" => Bool(false)
    case "sanitize" => Bool(true)
    case "sanitizeFn" => Null
    case "allowList" => DefaultAllowlist
    case _ => Undefined
  }

  /** The keys of `DefaultType`, in the order they are checked. */
  const OptionNames: seq<string> := ["extraClass", "template", "content", "html", "sanitize", "sanitizeFn", "allowList"]

  /** `DefaultType`: the alternative types each option may have. */
  function DefaultType(option: string): set<JsType> {
    match option
    case "extraClass" => {TString, TFunction}
    case "template" => {TString}
    case "content" => {TObject}
    case "html" => {TBoolean}
    case "sanitize" => {TBoolean}
    case "sanitizeFn" => {TNull, TFunction}
    case "allowList" => {TObject}
    case _ => {}
  }

  /** `DefaultContentType.entry`: the types a content entry may have. */
  const EntryTypes: set<JsType> := {TString, TElement, TFunction, TNull}

  /** A merged configuration that passed the type check. */
  datatype Config = Config(
    extraClass: Value,                 // a string, or a function giving the classes
    template: string,
    content: seq<(string, Value)>,     // selector -> entry, in the object's order
    html: bool,
    sanitize: bool,
    sanitizeFn: Value,                 // null or a function
    allowList: Value,
    others: map<string, Value>)        // options outside `DefaultType`, passed through unchecked

  /** The `TypeError` a failed type check throws: component, option and the type found. */
  datatype ConfigError = ConfigTypeError(component: string, option: string, found: JsType)

  /** `{...Default, ...(typeof config === 'object' ? config : {})}[option]`: the caller's value wins. */
  function Merged(user: Value, option: string): Value {
    var given := Spread(user);
    if option in given then given[option] else Default(option)
  }

  predicate OptionOk(user: Value, option: string) {
    TypeOf(Merged(user, option)) in DefaultType(option)
  }

  /** The index of the first option, from `i` on, whose merged value has none of its allowed types. */
  function FirstIllTyped(user: Value, i: nat): (r: Option<nat>)
    requires i <= |OptionNames|
    ensures r.None? <==> forall j :: i <= j < |OptionNames| ==> OptionOk(user, OptionNames[j])
    ensures r.Some? ==> i <= r.value < |OptionNames| && !OptionOk(user, OptionNames[r.value])
    ensures r.Some? ==> forall j :: i <= j < r.value ==> OptionOk(user, OptionNames[j])
    decreases |OptionNames| - i
  {
    if i == |OptionNames| then None
    else if !OptionOk(user, OptionNames[i]) then Some(i)
    else FirstIllTyped(user, i + 1)
  }

  /** The index of the first content entry, from `i` on, that is not a string, element, function or null. */
  function FirstBadEntry(entries: seq<(string, Value)>, i: nat): (r: Option<nat>)
    requires i <= |entries|
    ensures r.None? <==> forall j :: i <= j < |entries| ==> TypeOf(entries[j].1) in EntryTypes
    ensures r.Some? ==> i <= r.value < |entries| && TypeOf(entries[r.value].1) !in EntryTypes
    ensures r.Some? ==> forall j :: i <= j < r.value ==> TypeOf(entries[j].1) in EntryTypes
    decreases |entries| - i
  {
    if i == |entries| then None
    else if TypeOf(entries[i].1) !in EntryTypes then Some(i)
    else FirstBadEntry(entries, i + 1)
  }

  predicate AllOptionsOk(user: Value) {
    forall j :: 0 <= j < |OptionNames| ==> OptionOk(user, OptionNames[j])
  }

  /** The typed configuration a well-typed merged object stands for. */
  function ConfigOf(user: Value): Config
    requires AllOptionsOk(user)
  {
    assert OptionOk(user, OptionNames[1]) && OptionOk(user, OptionNames[3]) && OptionOk(user, OptionNames[4]);
    Config(
      Merged(user, "extraClass"),
      Merged(user, "template").s,
      EntriesOf(Merged(user, "content")),
      Merged(user, "html").b,
      Merged(user, "sanitize").b,
      Merged(user, "sanitizeFn"),
      Merged(user, "allowList"),
      Spread(user) - {"extraClass", "template", "content", "html", "sanitize", "sanitizeFn", "allowList"})
  }

  /** An option of a typed configuration, read back as the value it was given. */
  function OptionValue(c: Config, option: string): Value {
    match option
    case "extraClass" => c.extraClass
    case "template" => Str(c.template)
    case "content" => Obj(c.content)
    case "html" => Bool(c.html)
    case "sanitize" => Bool(c.sanitize)
    case "sanitizeFn" => c.sanitizeFn
    case "allowList" => c.allowList
    case _ => Lookup(c.others, option)
  }

  /** `_getConfig(config)`: merge, check every option, then check every content entry. */
  function ResolveConfig(user: Value): Result<Config, ConfigError> {
    match FirstIllTyped(user, 0)
    case Some(i) => Err(ConfigTypeError(Name, OptionNames[i], TypeOf(Merged(user, OptionNames[i]))))
    case None =>
      var entries := EntriesOf(Merged(user, "content"));
      match FirstBadEntry(entries, 0)
      case Some(i) => Err(ConfigTypeError(Name, "entry", TypeOf(entries[i].1)))
      case None => Ok(ConfigOf(user))
  }

  /** The configuration every non-object argument yields: `Default` as it stands. */
  const DefaultConfig := Config(Str(""), "<div></div>", [], false, true, Null, DefaultAllowlist, map[])

  /** A configuration argument that is not an object yields exactly the defaults. */
  lemma ResolveNonObject(user: Value)
    requires !user.Obj?
    ensures ResolveConfig(user) == Ok(DefaultConfig)
  {
    forall j | 0 <= j < |OptionNames|
      ensures OptionOk(user, OptionNames[j])
    {
      assert OptionNames[j] in {"extraClass", "template", "content", "html", "sanitize", "sanitizeFn", "allowList"};
    }
  }

  /**
   * A resolved configuration takes each option from the caller's object when
   * it has one and from `Default` otherwise.
   */
  lemma ResolveOptions(user: Value, c: Config)
    requires ResolveConfig(user) == Ok(c)
    ensures forall option :: option in OptionNames && option != "content" ==>
      OptionValue(c, option) == if option in Spread(user) then Spread(user)[option] else Default(option)
    ensures c.content == EntriesOf(if "content" in Spread(user) then Spread(user)["content"] else Obj([]))
  {
    assert c == ConfigOf(user);
    forall option | option in OptionNames && option != "content"
      ensures OptionValue(c, option) == Merged(user, option)
    {
      OptionOfConfig(user, option);
    }
  }

  /** An option of the typed configuration is the merged value it was read from. */
  lemma OptionOfConfig(user: Value, option: string)
    requires AllOptionsOk(user) && option in OptionNames && option != "content"
    ensures OptionValue(ConfigOf(user), option) == Merged(user, option)
  {
    if option == "template" {
      assert OptionOk(user, OptionNames[1]);
    } else if option == "html" {
      assert OptionOk(user, OptionNames[3]);
    } else if option == "sanitize" {
      assert OptionOk(user, OptionNames[4]);
    }
  }

  /** Keys outside `DefaultType` are kept as the caller gave them. */
  lemma ResolveOthers(user: Value, c: Config)
    requires ResolveConfig(user) == Ok(c)
    ensures forall k :: k !in OptionNames ==> Lookup(c.others, k) == Lookup(Spread(user), k)
  {
    assert c == ConfigOf(user);
  }

  /**
   * Resolution fails exactly when some option has none of its allowed types or
   * some content entry is not a string, element, function or null; the error
   * names the first offending option in `DefaultType` order, or `entry`.
   */
  lemma ResolveFails(user: Value)
    ensures var entries := EntriesOf(Merged(user, "content"));
      ResolveConfig(user).Err? <==>
        (exists j :: 0 <= j < |OptionNames| && !OptionOk(user, OptionNames[j])) ||
        (exists j :: 0 <= j < |entries| && TypeOf(entries[j].1) !in EntryTypes)
    ensures ResolveConfig(user).Err? ==>
      if AllOptionsOk(user) then ResolveConfig(user).error.option == "entry"
      else ResolveConfig(user).error.option in OptionNames && !OptionOk(user, ResolveConfig(user).error.option)
  {
  }

  /** What `this` is inside `_resolvePossibleFunction`: `undefined`, or the factory with its configuration. */
  datatype Receiver = Unbound | Bound(config: Config)

  /** The collaborators the factory calls but whose code is not part of this model. */
  datatype Host = Host(
    call: (nat, Receiver) -> Value,                // what the function with this identity returns
    matches: (string, Node) -> bool,               // whether an element matches a selector
    parse: string -> Fragment,                     // what assigning markup to innerHTML creates
    sanitizeHtml: (string, Value, Value) -> string, // sanitizeHtml(markup, allowList, sanitizeFn)
    stringify: Value -> string)                    // String(value) for a value that is not a string

  /**
   * `_resolvePossibleFunction(arg)`: a function is called once, with `recv` as
   * its argument; any other value comes back as it is.
   */
  function Resolve(arg: Value, recv: Receiver, h: Host): Value {
    if arg.Fn? then h.call(arg.id, recv) else arg
  }

  /** Only a function depends on the receiver: every other value resolves to itself. */
  lemma ResolveNonFunction(arg: Value, recv: Receiver, h: Host)
    requires !arg.Fn?
    ensures Resolve(arg, recv, h) == arg
  {
  }

  /** A value as the DOM receives it when assigned as text or markup. */
  function Text(v: Value, h: Host): string {
    if v.Str? then v.s else h.stringify(v)
  }

  /** `_maybeSanitize(arg)`: the markup itself unless `sanitize` is on. */
  function MaybeSanitize(c: Config, h: Host, markup: string): string {
    if c.sanitize then h.sanitizeHtml(markup, c.allowList, c.sanitizeFn) else markup
  }

  /** `_putElementInTemplate(element, templateElement)` for the target at `p` of the wrapper `w`. */
  function PutElementInTemplate(c: Config, el: Node, w: Node, p: Path): Node
    requires ValidPath(w, p)
  {
    if !c.html then Replace(w, p, WithText(At(w, p), TextContent(el)))
    else if At(w, p) == el then w
    else Replace(w, p, At(w, p).(text := "", children := [el]))
  }

  /** `_setContent(template, content, selector)` on the wrapper `w`. */
  function SetContent(c: Config, h: Host, w: Node, selector: string, entry: Value): Node {
    match FindOne(h.matches, selector, w)
    case None => w
    case Some(p) =>
      var v := Resolve(entry, Bound(c), h);
      if !Truthy(v) then Remove(w, p)
      else if v.Elem? then PutElementInTemplate(c, v.node, w, p)
      else if c.html then Replace(w, p, WithInner(At(w, p), h.parse(MaybeSanitize(c, h, Text(v, h)))))
      else Replace(w, p, WithText(At(w, p), Text(v, h)))
  }

  /** A selector that matches nothing leaves the tree as it was. */
  lemma SetContentNoMatch(c: Config, h: Host, w: Node, selector: string, entry: Value)
    requires FindOne(h.matches, selector, w).None?
    ensures SetContent(c, h, w, selector, entry) == w
  {
  }

  /**
   * An entry that resolves falsy removes its target: the target's parent loses
   * exactly that child and keeps its tag, classes and text; its ancestors keep
   * theirs, and every other subtree is unchanged.
   */
  lemma SetContentRemovesFalsy(c: Config, h: Host, w: Node, selector: string, entry: Value)
    requires FindOne(h.matches, selector, w).Some?
    requires !Truthy(Resolve(entry, Bound(c), h))
    ensures var p := FindOne(h.matches, selector, w).value; var r := SetContent(c, h, w, selector, entry);
      var up, i := p[..|p| - 1], p[|p| - 1];
      && ValidPath(w, up) && ValidPath(r, up) && i < |At(w, up).children|
      && At(r, up).children == At(w, up).children[..i] + At(w, up).children[i + 1..]
      && At(r, up).tag == At(w, up).tag && At(r, up).classes == At(w, up).classes
      && At(r, up).text == At(w, up).text
      && ChangedOnlyAt(w, r, up)
      && (forall q :: ValidPath(w, q) && Apart(q, up) ==> ValidPath(r, q) && At(r, q) == At(w, q))
  {
    RemoveSpec(w, FindOne(h.matches, selector, w).value);
  }

  /**
   * With `html` off, a string (or any other non-element value) becomes the
   * target's literal text, neither parsed nor sanitised; only the target changes.
   */
  lemma SetContentText(c: Config, h: Host, w: Node, selector: string, entry: Value)
    requires FindOne(h.matches, selector, w).Some?
    requires !c.html
    requires var v := Resolve(entry, Bound(c), h); Truthy(v) && !v.Elem?
    ensures var p := FindOne(h.matches, selector, w).value; var r := SetContent(c, h, w, selector, entry);
      && ChangedOnlyAt(w, r, p)
      && At(r, p).tag == At(w, p).tag && At(r, p).classes == At(w, p).classes
      && TextContent(At(r, p)) == Text(Resolve(entry, Bound(c), h), h) && At(r, p).children == []
  {
    var p := FindOne(h.matches, selector, w).value;
    ReplaceOnlyAt(w, p, WithText(At(w, p), Text(Resolve(entry, Bound(c), h), h)));
  }

  /**
   * With `html` on, a string becomes the target's markup: what parsing it
   * yields, after `sanitizeHtml` exactly when `sanitize` is on.
   */
  lemma SetContentMarkup(c: Config, h: Host, w: Node, selector: string, entry: Value)
    requires FindOne(h.matches, selector, w).Some?
    requires c.html
    requires var v := Resolve(entry, Bound(c), h); Truthy(v) && !v.Elem?
    ensures var p := FindOne(h.matches, selector, w).value; var r := SetContent(c, h, w, selector, entry);
      var markup := Text(Resolve(entry, Bound(c), h), h);
      && ChangedOnlyAt(w, r, p)
      && At(r, p).tag == At(w, p).tag && At(r, p).classes == At(w, p).classes
      && var f := h.parse(if c.sanitize then h.sanitizeHtml(markup, c.allowList, c.sanitizeFn) else markup);
         At(r, p).text == f.text && At(r, p).children == f.children
  {
    var p := FindOne(h.matches, selector, w).value;
    var markup := Text(Resolve(entry, Bound(c), h), h);
    ReplaceOnlyAt(w, p, WithInner(At(w, p), h.parse(MaybeSanitize(c, h, markup))));
  }

  /**
   * An element entry: with `html` off only its text is copied into the target;
   * with `html` on an identical target is left alone, and otherwise the element
   * becomes the target's only child.
   */
  lemma PutElementCases(c: Config, el: Node, w: Node, p: Path)
    requires ValidPath(w, p)
    ensures var r := PutElementInTemplate(c, el, w, p);
      && (!c.html ==> ChangedOnlyAt(w, r, p) && At(r, p) == WithText(At(w, p), TextContent(el)))
      && (c.html && At(w, p) == el ==> r == w)
      && (c.html && At(w, p) != el ==>
            ChangedOnlyAt(w, r, p) && At(r, p).children == [el] && At(r, p).text == ""
            && At(r, p).tag == At(w, p).tag && At(r, p).classes == At(w, p).classes)
  {
    if !c.html {
      ReplaceOnlyAt(w, p, WithText(At(w, p), TextContent(el)));
    } else if At(w, p) != el {
      ReplaceOnlyAt(w, p, At(w, p).(text := "", children := [el]));
    }
  }

  /** The wrapper `div` after `templateWrapper.innerHTML = this._maybeSanitize(template)`. */
  function TemplateWrapper(c: Config, h: Host): Node {
    var f := h.parse(MaybeSanitize(c, h, c.template));
    Node("DIV", {}, f.text, f.children)
  }

  /** The wrapper after `_setContent` has run for each of `entries`, in order. */
  function ApplyContent(c: Config, h: Host, w: Node, entries: seq<(string, Value)>): Node
    decreases |entries|
  {
    if entries == [] then w
    else
      var last := entries[|entries| - 1];
      SetContent(c, h, ApplyContent(c, h, w, entries[..|entries| - 1]), last.0, last.1)
  }

  /** `templateWrapper.children[0]`. */
  function FirstElement(w: Node): Option<Node> {
    if w.children == [] then None else Some(w.children[0])
  }

  /** A token `classList.add` accepts: not empty and free of ASCII whitespace. */
  predicate ValidToken(t: string) {
    t != "" && forall ch :: ch in t ==> ch !in {' ', '\t', '\n', '\r', '\U{000C}'}
  }

  /** What `toHtml` can throw. */
  datatype RenderError =
    | NoRootElement      // `template.classList` on `undefined`
    | ExtraClassNotString // `extraClass.split` on a value that is not a string
    | BadClassToken      // `classList.add` given an empty token or one with whitespace

  /** `toHtml()`: the skeleton's first element after every content entry is applied and the extra classes added. */
  function Render(c: Config, h: Host): Result<Option<Node>, RenderError> {
    var w := ApplyContent(c, h, TemplateWrapper(c, h), c.content);
    var extra := Resolve(c.extraClass, Bound(c), h);
    if !Truthy(extra) then Ok(FirstElement(w))
    else if w.children == [] then Err(NoRootElement)
    else if !extra.Str? then Err(ExtraClassNotString)
    else
      var tokens := Split(extra.s, ' ');
      if exists t :: t in tokens && !ValidToken(t) then Err(BadClassToken)
      else Ok(Some(w.children[0].(classes := w.children[0].classes + set t | t in tokens)))
  }

  /**
   * With no content and no extra class, `toHtml` gives the first element of
   * the template, which is passed through `sanitizeHtml` exactly when
   * `sanitize` is on.
   */
  lemma RenderBareTemplate(c: Config, h: Host)
    requires c.content == [] && !Truthy(Resolve(c.extraClass, Bound(c), h))
    ensures var f := h.parse(if c.sanitize then h.sanitizeHtml(c.template, c.allowList, c.sanitizeFn) else c.template);
      Render(c, h) == Ok(if f.children == [] then None else Some(f.children[0]))
  {
  }

  /**
   * When the extra class resolves to a non-empty string and rendering succeeds,
   * the result is the wrapper's first element with every `' '`-separated token
   * of that string added to its classes, and nothing else about it changed.
   */
  lemma {:induction false} RenderExtraClass(c: Config, h: Host)
    requires Truthy(Resolve(c.extraClass, Bound(c), h)) && Render(c, h).Ok?
    ensures var extra := Resolve(c.extraClass, Bound(c), h);
      var w := ApplyContent(c, h, TemplateWrapper(c, h), c.content);
      && extra.Str? && w.children != [] && Render(c, h).value.Some?
      && var root, first := Render(c, h).value.value, w.children[0];
      && var tokens := Split(extra.s, ' ');
      && Join(tokens, " ") == extra.s
      && (forall t :: t in tokens ==> ValidToken(t) && t in root.classes)
      && root.classes == first.classes + set t | t in tokens
      && root.tag == first.tag && root.text == first.text && root.children == first.children
  {
    var extra := Resolve(c.extraClass, Bound(c), h);
    JoinSplit(extra.s, ' ');
  }

  /**
   * `toHtml` throws exactly when the extra class resolves truthy and the
   * skeleton has no element, or the extra class is not a string, or one of its
   * tokens is empty or holds whitespace; with a falsy extra class the result
   * is the wrapper's first element, if any.
   */
  lemma RenderFails(c: Config, h: Host)
    ensures var extra := Resolve(c.extraClass, Bound(c), h);
      var w := ApplyContent(c, h, TemplateWrapper(c, h), c.content);
      && (Render(c, h).Err? <==>
            Truthy(extra) && (w.children == [] || !extra.Str? || exists t :: t in Split(extra.s, ' ') && !ValidToken(t)))
      && (!Truthy(extra) ==> Render(c, h) == Ok(FirstElement(w)))
  {
  }

  /** The entries of `entries` resolved with `recv` as `this`, falsy results dropped. */
  function ContentValues(entries: seq<(string, Value)>, recv: Receiver, h: Host): (r: seq<Value>)
    ensures forall i :: 0 <= i < |r| ==> Truthy(r[i])
    ensures |r| <= |entries|
    ensures r == [] <==> forall i :: 0 <= i < |entries| ==> !Truthy(Resolve(entries[i].1, recv, h))
    decreases |entries|
  {
    if entries == [] then []
    else
      var v := Resolve(entries[0].1, recv, h);
      (if Truthy(v) then [v] else []) + ContentValues(entries[1..], recv, h)
  }

  /** A single entry contributes its resolved value when that is truthy, and nothing otherwise. */
  lemma ContentValuesSingle(e: (string, Value), recv: Receiver, h: Host)
    ensures var v := Resolve(e.1, recv, h); ContentValues([e], recv, h) == if Truthy(v) then [v] else []
  {
    assert [e][1..] == [];
  }

  /** Resolution keeps the content's order: the values of a concatenation are the concatenated values. */
  lemma {:induction false} ContentValuesAppend(a: seq<(string, Value)>, b: seq<(string, Value)>, recv: Receiver, h: Host)
    ensures ContentValues(a + b, recv, h) == ContentValues(a, recv, h) + ContentValues(b, recv, h)
    decreases |a|
  {
    if a != [] {
      ContentValuesAppend(a[1..], b, recv, h);
      var v := Resolve(a[0].1, recv, h);
      var first := if Truthy(v) then [v] else [];
      assert (a + b)[0] == a[0];
      assert (a + b)[1..] == a[1..] + b;
      assert ContentValues(a + b, recv, h) == first + ContentValues(a[1..] + b, recv, h);
      assert ContentValues(a, recv, h) == first + ContentValues(a[1..], recv, h);
    } else {
      assert a + b == b;
    }
  }

  /**
   * Content without function entries resolves the same whatever the receiver:
   * the unbound and the bound `getContent` can differ only on a function entry.
   */
  lemma {:induction false} ContentReceiverIrrelevant(entries: seq<(string, Value)>, r1: Receiver, r2: Receiver, h: Host)
    requires forall i :: 0 <= i < |entries| ==> !entries[i].1.Fn?
    ensures ContentValues(entries, r1, h) == ContentValues(entries, r2, h)
    decreases |entries|
  {
    if entries != [] {
      ResolveNonFunction(entries[0].1, r1, h);
      ResolveNonFunction(entries[0].1, r2, h);
      ContentReceiverIrrelevant(entries[1..], r1, r2, h);
    }
  }

  /**
   * The partner of `getContent` in rendering: for an entry whose selector
   * matches, `toHtml` removes the target (its parent loses a child) exactly
   * when the entry contributes nothing to the content list.
   */
  lemma ContentAgreesWithRender(c: Config, h: Host, w: Node, selector: string, entry: Value)
    requires FindOne(h.matches, selector, w).Some?
    ensures var p := FindOne(h.matches, selector, w).value; var r := SetContent(c, h, w, selector, entry);
      var up := p[..|p| - 1];
      && ValidPath(w, up) && ValidPath(r, up)
      && (|At(r, up).children| < |At(w, up).children| <==> ContentValues([(selector, entry)], Bound(c), h) == [])
  {
    var p := FindOne(h.matches, selector, w).value;
    var up := p[..|p| - 1];
    var v := Resolve(entry, Bound(c), h);
    ParentOf(w, p);
    assert IsPrefix(up, p) && up != p;
    if !Truthy(v) {
      SetContentRemovesFalsy(c, h, w, selector, entry);
    } else if v.Elem? {
      PutElementCases(c, v.node, w, p);
    } else if c.html {
      SetContentMarkup(c, h, w, selector, entry);
    } else {
      SetContentText(c, h, w, selector, entry);
    }
  }

  /**
   * `getContent` as the source has it calls a function entry with `undefined`
   * rather than the factory (the method is handed to `map` unbound), so an
   * entry that reads its argument is missing from the content list although
   * `toHtml` renders it.
   */
  lemma GetContentAsWrittenMissesEntry()
    ensures var h := ReceiverAwareHost(); var c := DemoConfig();
      && ContentValues(c.content, Unbound, h) == []
      && ContentValues(c.content, Bound(c), h) == [Str("shown")]
      && Render(c, h) == Ok(Some(Node("section", {}, "", [Node("div", {}, "shown", [])])))
  {
    var h := ReceiverAwareHost();
    var c := DemoConfig();
    var leaf := Node("div", {}, "", []);
    var section := Node("section", {}, "", [leaf]);
    var w := TemplateWrapper(c, h);
    assert w == Node("DIV", {}, "", [section]);
    assert h.matches("div", leaf) && !h.matches("div", section);
    assert FindFrom(h.matches, "div", section, 0) == Some([0]);
    assert FindOne(h.matches, "div", section) == Some([0]);
    assert [0] + [0] == [0, 0];
    assert FindFrom(h.matches, "div", w, 0) == Some([0, 0]);
    assert Resolve(Fn(0), Bound(c), h) == Str("shown");
    var filled := Replace(w, [0, 0], WithText(leaf, "shown"));
    assert [0, 0][1..] == [0] && [0][1..] == [];
    assert Replace(section, [0], WithText(leaf, "shown")) == Node("section", {}, "", [Node("div", {}, "shown", [])]);
    assert filled == Node("DIV", {}, "", [Node("section", {}, "", [Node("div", {}, "shown", [])])]);
    assert ApplyContent(c, h, w, c.content) == SetContent(c, h, w, "div", Fn(0));
    assert Resolve(c.extraClass, Bound(c), h) == Str("");
  }

  /**
   * `hasContent()` as written inherits the unbound call: on the same input it
   * says there is no content, where the intended one says there is.
   */
  lemma HasContentAsWrittenMisses(tf: TemplateFactory)
    requires tf.Current() == DemoConfig()
    ensures !tf.HasContentAsWritten(ReceiverAwareHost()) && tf.HasContent(ReceiverAwareHost())
  {
    GetContentAsWrittenMissesEntry();
  }

  /** A host whose only function returns a string when given the factory and `undefined` otherwise. */
  function ReceiverAwareHost(): Host {
    Host(
      (id: nat, recv: Receiver) => if recv.Bound? then Str("shown") else Undefined,
      (selector: string, n: Node) => n.tag == selector,
      (markup: string) => Fragment("", [Node("section", {}, "", [Node("div", {}, "", [])])]),
      (markup: string, allowList: Value, fn: Value) => markup,
      (v: Value) => "")
  }

  function DemoConfig(): Config {
    DefaultConfig.(template := "<section><div></div></section>", content := [("div", Fn(0))])
  }

  class TemplateFactory {
    /**
     * `_config` as the constructor resolved it. Of its properties only
     * `content` is ever reassigned, so that one is kept apart in `content`.
     */
    const resolved: Config
    var content: seq<(string, Value)>

    /** `_config` as it stands now. */
    function Current(): (c: Config)
      reads this
      ensures c.content == content
      ensures c.(content := resolved.content) == resolved
    {
      resolved.(content := content)
    }

    /** The factory once its configuration has been resolved. */
    constructor FromConfig(c: Config)
      ensures resolved == c && content == c.content
    {
      resolved := c;
      content := c.content;
    }

    /** `new TemplateFactory(config)`: resolves the configuration or throws its type error. */
    static method Create(user: Value) returns (r: Result<TemplateFactory, ConfigError>)
      ensures ResolveConfig(user).Err? ==> r == Err(ResolveConfig(user).error)
      ensures ResolveConfig(user).Ok? ==> r.Ok? && fresh(r.value) && r.value.resolved == ResolveConfig(user).value && r.value.content == ResolveConfig(user).value.content
    {
      var bad := FirstIllTyped(user, 0);
      if bad.Some? {
        r := Err(ConfigTypeError(Name, OptionNames[bad.value], TypeOf(Merged(user, OptionNames[bad.value]))));
      } else {
        var entries := EntriesOf(Merged(user, "content"));
        var i := 0;
        while i < |entries| && TypeOf(entries[i].1) in EntryTypes
          invariant i <= |entries|
          invariant FirstBadEntry(entries, i) == FirstBadEntry(entries, 0)
        {
          i := i + 1;
        }
        if i < |entries| {
          r := Err(ConfigTypeError(Name, "entry", TypeOf(entries[i].1)));
        } else {
          var tf := new TemplateFactory.FromConfig(ConfigOf(user));
          r := Ok(tf);
        }
      }
    }

    /**
     * `getContent()` exactly as written: each entry in content order resolved
     * once with `undefined` as the function argument, falsy results dropped.
     */
    function GetContentAsWritten(h: Host): (r: seq<Value>)
      reads this
      ensures forall i :: 0 <= i < |r| ==> Truthy(r[i])
      ensures |r| <= |Current().content|
      ensures r == [] <==> forall i :: 0 <= i < |Current().content| ==> !Truthy(Resolve(Current().content[i].1, Unbound, h))
    {
      ContentValues(Current().content, Unbound, h)
    }

    /**
     * `getContent()` as intended: each entry in content order resolved once
     * with the factory as argument, as `toHtml` resolves it, falsy results dropped.
     */
    function GetContent(h: Host): (r: seq<Value>)
      reads this
      ensures forall i :: 0 <= i < |r| ==> Truthy(r[i])
      ensures |r| <= |Current().content|
      ensures r == [] <==> forall i :: 0 <= i < |Current().content| ==> !Truthy(Resolve(Current().content[i].1, Bound(Current()), h))
    {
      ContentValues(Current().content, Bound(Current()), h)
    }

    /**
     * `hasContent()` exactly as written: it asks the unbound `getContent()`,
     * so function entries are called with `undefined`.
     */
    function HasContentAsWritten(h: Host): (b: bool)
      reads this
      ensures b <==> exists i :: 0 <= i < |Current().content| && Truthy(Resolve(Current().content[i].1, Unbound, h))
    {
      |GetContentAsWritten(h)| > 0
    }

    /** `hasContent()` as intended: some entry resolves, with the factory as argument, to a truthy value. */
    function HasContent(h: Host): (b: bool)
      reads this
      ensures b <==> exists i :: 0 <= i < |Current().content| && Truthy(Resolve(Current().content[i].1, Bound(Current()), h))
    {
      |GetContent(h)| > 0
    }

    /** `changeContent(content)`: replaces the whole content mapping and returns the same factory. */
    method ChangeContent(c: seq<(string, Value)>) returns (self: TemplateFactory)
      modifies this
      ensures self == this
      ensures content == c
      ensures Current() == old(Current()).(content := c)
    {
      content := c;
      return this;
    }

    /** `toHtml()`: fills a fresh wrapper entry by entry, then adds the extra classes to its first element. */
    method ToHtml(h: Host) returns (r: Result<Option<Node>, RenderError>)
      ensures r == Render(Current(), h)
    {
      var config := Current();
      var w := TemplateWrapper(config, h);
      ghost var w0 := w;
      var entries := config.content;
      var i := 0;
      while i < |entries|
        invariant i <= |entries|
        invariant w == ApplyContent(config, h, w0, entries[..i])
      {
        assert entries[..i + 1][..i] == entries[..i];
        w := SetContent(config, h, w, entries[i].0, entries[i].1);
        i := i + 1;
      }
      assert entries[..i] == entries;
      var extra := Resolve(config.extraClass, Bound(config), h);
      if !Truthy(extra) {
        return Ok(FirstElement(w));
      }
      if w.children == [] {
        return Err(NoRootElement);
      }
      if !extra.Str? {
        return Err(ExtraClassNotString);
      }
      var tokens := Split(extra.s, ' ');
      if exists t :: t in tokens && !ValidToken(t) {
        return Err(BadClassToken);
      }
      var root := w.children[0];
      return Ok(Some(root.(classes := root.classes + set t | t in tokens)));
    }
  }
}
