/**
 * `Messages` (js/src/forms/messages.js): a JavaScript `Map` from message key
 * to the `TemplateFactory` that renders the message, built from one shared
 * template configuration.
 */
module FormMessages {
  import opened Options
  import opened JsValues
  import opened Strings
  import opened OrderedMaps
  import opened Templates

  /** `{...templateConfig, ...{content: {div: message}}}`: the base options with `content` replaced. */
  function MessageConfig(base: Value, message: Value): (r: Value)
    ensures r.Obj?
    ensures Spread(r) == Spread(base)["content" := Obj([("div", message)])]
  {
    var props := if base.Obj? then base.props else [];
    var all := props + [("content", Obj([("div", message)]))];
    assert all[..|props|] == props;
    assert PropsMap(all) == PropsMap(props)["content" := Obj([("div", message)])];
    assert Spread(base) == PropsMap(props);
    Obj(props + [("content", Obj([("div", message)]))])
  }

  /**
   * The factory a message gets renders only that message into the template's
   * `div`: its content is exactly `{div: message}`, and every other option is
   * the base configuration's, or the default where the base leaves it out.
   */
  lemma MessageConfigResolves(base: Value, message: Value, c: Config)
    requires ResolveConfig(MessageConfig(base, message)) == Ok(c)
    ensures c.content == [("div", message)]
    ensures forall option :: option in OptionNames && option != "content" ==>
      OptionValue(c, option) == if option in Spread(base) then Spread(base)[option] else Default(option)
  {
    ResolveOptions(MessageConfig(base, message), c);
  }

  /**
   * Making a message's factory fails exactly when the message is not a
   * string, element, function or null, or some other option of the base
   * configuration has none of its allowed types.
   */
  lemma MessageConfigFails(base: Value, message: Value)
    ensures ResolveConfig(MessageConfig(base, message)).Err? <==>
      TypeOf(message) !in EntryTypes ||
      exists j :: 0 <= j < |OptionNames| && OptionNames[j] != "content" && !OptionOk(base, OptionNames[j])
  {
    var user := MessageConfig(base, message);
    var entries := EntriesOf(Merged(user, "content"));
    ResolveFails(user);
    assert entries == [("div", message)];
    assert (exists j :: 0 <= j < |entries| && TypeOf(entries[j].1) !in EntryTypes) <==> TypeOf(message) !in EntryTypes by {
      assert entries[0].1 == message;
    }
    forall j | 0 <= j < |OptionNames|
      ensures OptionOk(user, OptionNames[j]) <==> OptionNames[j] == "content" || OptionOk(base, OptionNames[j])
    {
      MessageConfigOption(base, message, OptionNames[j]);
    }
  }

  /** An option of a message's configuration: `content` always type-checks, every other is the base's. */
  lemma MessageConfigOption(base: Value, message: Value, option: string)
    ensures OptionOk(MessageConfig(base, message), option) <==> option == "content" || OptionOk(base, option)
  {
    if option == "content" {
      assert Merged(MessageConfig(base, message), option) == Obj([("div", message)]);
    } else {
      assert Merged(MessageConfig(base, message), option) == Merged(base, option);
    }
  }

  /** `String(v)` for every value of a list, as `join` converts them. */
  function Texts(vs: seq<Value>, h: Host): (r: seq<string>)
    ensures |r| == |vs| && forall i :: 0 <= i < |vs| ==> r[i] == Text(vs[i], h)
  {
    seq(|vs|, i requires 0 <= i < |vs| => Text(vs[i], h))
  }

  /**
   * A message that is a string comes back as exactly that string in the text
   * array: a non-empty one as the only content value, an empty one as no value
   * at all, which joins to the empty string too.
   */
  lemma MessageText(base: Value, message: string, c: Config, h: Host)
    requires ResolveConfig(MessageConfig(base, Str(message))) == Ok(c)
    ensures Join(Texts(ContentValues(c.content, Bound(c), h), h), ", ") == message
  {
    assert c.content == [("div", Str(message))] by {
      MessageConfigResolves(base, Str(message), c);
    }
    StringEntryText(c.content, message, Bound(c), h);
  }

  /** The only entry being the string `message`, the text of the content is `message`. */
  lemma StringEntryText(entries: seq<(string, Value)>, message: string, recv: Receiver, h: Host)
    requires entries == [("div", Str(message))]
    ensures Join(Texts(ContentValues(entries, recv, h), h), ", ") == message
  {
    ContentValuesSingle(entries[0], recv, h);
    if message != "" {
      assert Texts([Str(message)], h) == [message];
    }
  }

  class Messages {
    /** `_templateConfig`: the options every message's factory is built from. */
    const templateConfig: Value
    /** `_messages`: message key to factory, in insertion order. */
    var entries: JsMap<TemplateFactory>

    /** The factories the map holds. */
    ghost function Factories(): set<TemplateFactory>
      reads this
    {
      entries.values.Values
    }

    /** `new Messages(templateConfig)`: an empty map. */
    constructor(templateConfig: Value)
      ensures this.templateConfig == templateConfig && entries.keys == []
    {
      this.templateConfig := templateConfig;
      entries := Empty();
    }

    /**
     * `set(key, message)`: stores a new factory for the message at `key`, where
     * a key already present keeps its place and a new key goes last. When the
     * factory's configuration fails its type check, the error is thrown and
     * the map is left as it was.
     */
    method Set(key: string, message: Value) returns (r: Result<TemplateFactory, ConfigError>)
      modifies this
      ensures ResolveConfig(MessageConfig(templateConfig, message)).Err? ==>
        r == Err(ResolveConfig(MessageConfig(templateConfig, message)).error) && entries == old(entries)
      ensures ResolveConfig(MessageConfig(templateConfig, message)).Ok? ==>
        && r.Ok? && fresh(r.value)
        && r.value.resolved == ResolveConfig(MessageConfig(templateConfig, message)).value
        && r.value.content == r.value.resolved.content
        && entries == Put(old(entries), key, r.value)
    {
      var created := TemplateFactory.Create(MessageConfig(templateConfig, message));
      if created.Err? {
        return Err(created.error);
      }
      entries := Put(entries, key, created.value);
      return Ok(created.value);
    }

    /** `has(key)`. */
    function Has(key: string): (b: bool)
      reads this
      ensures b <==> key in entries.keys
    {
      key in entries.values
    }

    /** `get(key)`: the factory stored at `key`, `undefined` when there is none. */
    function GetAt(key: string): (r: Option<TemplateFactory>)
      reads this
      ensures r.Some? <==> key in entries.keys
      ensures r.Some? ==> r.value in Factories()
    {
      Get(entries, key)
    }

    /**
     * `getFirst()`: the factory at the earliest-inserted key, or `undefined`
     * on an empty map (the iterator result is always truthy, so `null` never comes back).
     */
    function GetFirst(): (r: Option<TemplateFactory>)
      reads this
      ensures r.None? <==> entries.keys == []
      ensures r.Some? ==> r == Get(entries, entries.keys[0])
    {
      if entries.keys == [] then None else Some(entries.values[entries.keys[0]])
    }

    /** `count()`: the map's size, which is the number of distinct keys stored. */
    function Count(): (n: nat)
      reads this
      ensures n == |entries.values|
    {
      SizeIsKeyCount(entries);
      |entries.keys|
    }

    /**
     * `getAllAsTextArray()`: for each key in insertion order, the values of
     * its factory's content joined with `', '`.
     */
    function GetAllAsTextArray(h: Host): (r: seq<string>)
      reads this, Factories()
      ensures |r| == Count()
      ensures forall i :: 0 <= i < |r| ==>
        r[i] == Join(Texts(entries.values[entries.keys[i]].GetContent(h), h), ", ")
    {
      seq(|entries.keys|, i requires 0 <= i < |entries.keys| reads this, Factories() =>
        Join(Texts(entries.values[entries.keys[i]].GetContent(h), h), ", "))
    }

    /**
     * `getAllAsTextArray()` exactly as written: each factory's content comes
     * from the unbound `getContent()`, so function entries see `undefined`.
     */
    function GetAllAsTextArrayAsWritten(h: Host): (r: seq<string>)
      reads this, Factories()
      ensures |r| == Count()
      ensures forall i :: 0 <= i < |r| ==>
        r[i] == Join(Texts(entries.values[entries.keys[i]].GetContentAsWritten(h), h), ", ")
    {
      seq(|entries.keys|, i requires 0 <= i < |entries.keys| reads this, Factories() =>
        Join(Texts(entries.values[entries.keys[i]].GetContentAsWritten(h), h), ", "))
    }

    /**
     * The two text arrays agree at every key whose factory has no function
     * entry, which includes every message `set` stores from a string.
     */
    lemma TextArraysAgree(h: Host, i: nat)
      requires i < |entries.keys|
      requires forall j :: 0 <= j < |entries.values[entries.keys[i]].content| ==> !entries.values[entries.keys[i]].content[j].1.Fn?
      ensures GetAllAsTextArrayAsWritten(h)[i] == GetAllAsTextArray(h)[i]
    {
      var tf := entries.values[entries.keys[i]];
      ContentReceiverIrrelevant(tf.content, Unbound, Bound(tf.Current()), h);
    }

    /**
     * With a function message that reads its argument, the text array as
     * written holds the empty string where the intended one holds the text
     * `toHtml` renders.
     */
    lemma TextArrayAsWrittenMisses()
      requires |entries.keys| == 1 && entries.values[entries.keys[0]].Current() == DemoConfig()
      ensures GetAllAsTextArrayAsWritten(ReceiverAwareHost()) == [""]
      ensures GetAllAsTextArray(ReceiverAwareHost()) == ["shown"]
    {
      var h := ReceiverAwareHost();
      var tf := entries.values[entries.keys[0]];
      GetContentAsWrittenMissesEntry();
      assert tf.GetContentAsWritten(h) == [] && tf.GetContent(h) == [Str("shown")];
      assert Texts([Str("shown")], h) == ["shown"];
      SizeIsKeyCount(entries);
    }

    /**
     * Reading the text array back: a key whose factory was made for the
     * string message `m` contributes exactly `m`, at its insertion position.
     */
    lemma TextArrayGivesMessages(h: Host, i: nat, m: string)
      requires i < |entries.keys|
      requires ResolveConfig(MessageConfig(templateConfig, Str(m))) == Ok(entries.values[entries.keys[i]].Current())
      ensures GetAllAsTextArray(h)[i] == m
    {
      MessageText(templateConfig, m, entries.values[entries.keys[i]].Current(), h);
    }
  }
}
