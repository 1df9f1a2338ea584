/**
 * `FormValidation` (js/src/forms/form-validation.js): the validation state of
 * one form element. It keeps the form's `was-validated` class, a field map
 * built lazily from the form's controls, and drives the fields' error and
 * success messages when the form is checked.
 *
 * Whether the form and each control pass `checkValidity()`, the controls'
 * `validity` flags and `validationMessage` are inputs; the data attributes of
 * the form element are a parameter.
 */
module FormValidations {
  import opened Options
  import opened JsValues
  import opened OrderedMaps
  import opened Templates
  import opened FormMessages
  import opened FormFields

  /** `NAME`, the component name type errors report. */
  const Name := "formValidation"
  /** `CLASS_VALIDATED`. */
  const ValidatedClass := "was-validated"
  /** `Default.type`. */
  const DefaultKind := "feedback"

  /** The resolved configuration: `type` (feedback or tooltip) and any other options, unchecked. */
  datatype FormConfig = FormConfig(kind: string, others: map<string, Value>)

  /** What the constructor can throw. */
  datatype FormError =
    | NotAForm(tagName: string)
    | FormConfigError(component: string, option: string, found: JsType)

  /** `{...Default, ...Manipulator.getDataAttributes(form), ...(typeof config === 'object' ? config : {})}`. */
  function MergedFormConfig(data: map<string, Value>, user: Value): map<string, Value> {
    map["type" := Str(DefaultKind)] + data + Spread(user)
  }

  /** `_getConfig(config)`: merge, then check that `type` is a string. */
  function ResolveFormConfig(data: map<string, Value>, user: Value): Result<FormConfig, FormError> {
    var m := MergedFormConfig(data, user);
    if !m["type"].Str? then Err(FormConfigError(Name, "type", TypeOf(m["type"])))
    else Ok(FormConfig(m["type"].s, m - {"type"}))
  }

  /**
   * `type` comes from the caller's object when it has one, else from the data
   * attributes, else it is `'feedback'`; resolution succeeds exactly when the
   * value chosen is a string. Other options follow the same precedence.
   */
  lemma FormConfigPrecedence(data: map<string, Value>, user: Value)
    ensures var t := if "type" in Spread(user) then Spread(user)["type"] else if "type" in data then data["type"] else Str(DefaultKind);
      && (t.Str? ==> ResolveFormConfig(data, user).Ok? && ResolveFormConfig(data, user).value.kind == t.s)
      && (!t.Str? ==> ResolveFormConfig(data, user) == Err(FormConfigError(Name, "type", TypeOf(t))))
    ensures ResolveFormConfig(data, user).Ok? ==> forall k :: k != "type" ==>
      Lookup(ResolveFormConfig(data, user).value.others, k) == if k in Spread(user) then Spread(user)[k] else Lookup(data, k)
  {
  }

  /** `_initializeFields()` as a value: each control's field set at its id, in control order. */
  function FieldsOf(controls: seq<Field>): (m: OrderedMap<Field>)
    ensures Wf(m)
    decreases |controls|
  {
    if controls == [] then Empty()
    else
      var last := controls[|controls| - 1];
      Put(FieldsOf(controls[..|controls| - 1]), last.control.id, last)
  }

  /** The last control whose id is `k`: the one the field map must hold at `k`. */
  function LastWithId(controls: seq<Field>, k: string): (r: Option<Field>)
    ensures r.Some? ==> r.value in controls && r.value.control.id == k
    ensures r.None? <==> forall i :: 0 <= i < |controls| ==> controls[i].control.id != k
    decreases |controls|
  {
    if controls == [] then None
    else if controls[|controls| - 1].control.id == k then Some(controls[|controls| - 1])
    else LastWithId(controls[..|controls| - 1], k)
  }

  /** The field map holds, at each id, the last control carrying that id, and nothing at any other key. */
  lemma {:induction false} FieldsOfGet(controls: seq<Field>, k: string)
    ensures Get(FieldsOf(controls), k) == LastWithId(controls, k)
    decreases |controls|
  {
    if controls != [] {
      FieldsOfGet(controls[..|controls| - 1], k);
    }
  }

  /** Each field the map holds is a control of the form, stored under that control's id. */
  lemma {:induction false} FieldsOfShape(controls: seq<Field>)
    ensures forall k :: k in FieldsOf(controls).values ==>
      FieldsOf(controls).values[k] in controls && FieldsOf(controls).values[k].control.id == k
    decreases |controls|
  {
    if controls != [] {
      var init := controls[..|controls| - 1];
      FieldsOfShape(init);
      forall k | k in FieldsOf(controls).values
        ensures FieldsOf(controls).values[k] in controls && FieldsOf(controls).values[k].control.id == k
      {
        if k != controls[|controls| - 1].control.id {
          assert Get(FieldsOf(controls), k) == Get(FieldsOf(init), k);
          assert FieldsOf(init).values[k] in init;
        }
      }
    }
  }

  /** Distinct keys of a field map whose fields carry their keys as ids hold distinct fields. */
  lemma FieldsInOrderDistinct(m: OrderedMap<Field>)
    requires Wf(m) && forall k :: k in m.values ==> m.values[k].control.id == k
    ensures forall i, j :: 0 <= i < j < |m.keys| ==> ValuesInOrder(m)[i] != ValuesInOrder(m)[j]
  {
  }

  /**
   * Distinct fields never share an error map, and no error map is any field's
   * success map: updating one field's errors leaves every other field alone.
   */
  predicate Separate(fs: seq<Field>) {
    && (forall f, g :: f in fs && g in fs && f != g ==> f.errors != g.errors)
    && (forall f, g :: f in fs && g in fs ==> f.errors != g.successes)
  }

  /**
   * `Separate`, position by position, for fields that are moreover distinct:
   * validating the field at one position touches no other position.
   */
  predicate DistinctFields(fs: seq<Field>) {
    && (forall a, b :: 0 <= a < |fs| && 0 <= b < |fs| && a != b ==> fs[a] != fs[b] && fs[a].errors != fs[b].errors)
    && (forall a, b :: 0 <= a < |fs| && 0 <= b < |fs| ==> fs[a].errors != fs[b].successes)
  }

  /** The fields of a field map built from separate controls are distinct and separate, in map order. */
  lemma FieldMapDistinct(m: OrderedMap<Field>, controls: seq<Field>)
    requires Wf(m) && Separate(controls)
    requires forall k :: k in m.values ==> m.values[k] in controls && m.values[k].control.id == k
    ensures DistinctFields(ValuesInOrder(m))
  {
    var fs := ValuesInOrder(m);
    FieldsInOrderDistinct(m);
    forall a | 0 <= a < |fs| ensures fs[a] in controls {
      assert fs[a] == m.values[m.keys[a]];
    }
  }

  /** The keys of the validity flags that are set, in enumeration order. */
  function TrueFlags(validity: seq<(string, bool)>): seq<string>
    decreases |validity|
  {
    if validity == [] then []
    else
      var last := validity[|validity| - 1];
      TrueFlags(validity[..|validity| - 1]) + if last.1 then [last.0] else []
  }

  /** A key is among the set flags exactly when some flag with that key is set. */
  lemma {:induction false} TrueFlagsHas(validity: seq<(string, bool)>)
    ensures forall k :: k in TrueFlags(validity) <==> (k, true) in validity
    decreases |validity|
  {
    if validity != [] {
      TrueFlagsHas(validity[..|validity| - 1]);
      assert validity == validity[..|validity| - 1] + [validity[|validity| - 1]];
    }
  }

  /** One error feedback per key, in order. */
  function ErrorFeedback(ks: seq<string>): seq<Feedback>
    decreases |ks|
  {
    if ks == [] then [] else ErrorFeedback(ks[..|ks| - 1]) + [Feedback(Error, ks[|ks| - 1])]
  }

  /** The error feedback of a list of keys is one `Error` per key, position by position. */
  lemma {:induction false} ErrorFeedbackAt(ks: seq<string>)
    ensures |ErrorFeedback(ks)| == |ks|
    ensures forall i :: 0 <= i < |ks| ==> ErrorFeedback(ks)[i] == Feedback(Error, ks[i])
    decreases |ks|
  {
    if ks != [] {
      ErrorFeedbackAt(ks[..|ks| - 1]);
    }
  }

  /** One more key: its feedback comes last. */
  lemma ErrorFeedbackStep(log: seq<Feedback>, ks: seq<string>, k: string)
    ensures log + ErrorFeedback(ks + [k]) == log + ErrorFeedback(ks) + [Feedback(Error, k)]
  {
    assert (ks + [k])[..|ks|] == ks;
  }

  /**
   * `v` is a factory `set` made from the configuration `made`: resolved to it,
   * and with its `content` not reassigned since, so that it renders and reports
   * exactly that configuration.
   */
  ghost predicate MadeFrom(v: TemplateFactory, made: Result<Config, ConfigError>)
    reads v
  {
    made.Ok? && v.resolved == made.value && v.Current() == made.value
  }

  /** Each factory stored by `puts` was resolved to the configuration `made` and is one of `vs`. */
  ghost predicate ResolvedAmong(puts: seq<(string, TemplateFactory)>, made: Result<Config, ConfigError>, vs: set<TemplateFactory>) {
    forall j :: 0 <= j < |puts| ==> made.Ok? && puts[j].1.resolved == made.value && puts[j].1 in vs
  }

  /**
   * One more factory `v` stored at `k` after those of `puts`: the map, its
   * keys and the feedback log each grow by that one step, and `v` joins the
   * factories resolved to `made`.
   */
  lemma PutsStep(m: OrderedMap<TemplateFactory>, puts: seq<(string, TemplateFactory)>, log: seq<Feedback>,
                 k: string, v: TemplateFactory, made: Result<Config, ConfigError>, vs: set<TemplateFactory>)
    requires Wf(m)
    requires ResolvedAmong(puts, made, vs) && made.Ok? && v.resolved == made.value
    ensures PutAll(m, puts + [(k, v)]) == Put(PutAll(m, puts), k, v)
    ensures Keys(puts + [(k, v)]) == Keys(puts) + [k]
    ensures log + ErrorFeedback(Keys(puts + [(k, v)])) == log + ErrorFeedback(Keys(puts)) + [Feedback(Error, k)]
    ensures ResolvedAmong(puts + [(k, v)], made, vs + {v})
  {
    PutAllSnoc(m, puts, k, v);
    assert Keys(puts + [(k, v)]) == Keys(puts) + [k];
    ErrorFeedbackStep(log, Keys(puts), k);
  }

  /** The set flags of one more property: its key is added when it is set. */
  lemma TrueFlagsStep(flags: seq<(string, bool)>, i: nat)
    requires i < |flags|
    ensures TrueFlags(flags[..i + 1]) == TrueFlags(flags[..i]) + if flags[i].1 then [flags[i].0] else []
  {
    assert flags[..i + 1][..i] == flags[..i];
  }

  /**
   * Factories all resolved to the configuration `made` and still as resolved,
   * stored at their keys: every key set holds one of them, so it shows `made`,
   * and every other key holds what it held.
   */
  lemma StoredConfigs(m: OrderedMap<TemplateFactory>, puts: seq<(string, TemplateFactory)>, made: Result<Config, ConfigError>,
                      vs: set<TemplateFactory>)
    requires Wf(m)
    requires ResolvedAmong(puts, made, vs) && AsResolved(vs)
    ensures forall k :: k !in Keys(puts) ==> Get(PutAll(m, puts), k) == Get(m, k)
    ensures forall k :: k in Keys(puts) ==>
      Get(PutAll(m, puts), k).Some? && Get(PutAll(m, puts), k).value in vs && MadeFrom(Get(PutAll(m, puts), k).value, made)
  {
    forall k
      ensures k !in Keys(puts) ==> Get(PutAll(m, puts), k) == Get(m, k)
      ensures k in Keys(puts) ==>
        Get(PutAll(m, puts), k).Some? && Get(PutAll(m, puts), k).value in vs && MadeFrom(Get(PutAll(m, puts), k).value, made)
    {
      PutAllGet(m, puts, k);
    }
  }

  /**
   * What `autoValidate` appends for one field of an invalid form: the first
   * success message of a valid field, if any; else the `default` error; else
   * one error per validity flag that is set.
   */
  function Expected(c: Control, successKeys: seq<string>, errorKeys: seq<string>): seq<Feedback> {
    if c.valid then (if successKeys == [] then [] else [Feedback(Success, successKeys[0])])
    else if "default" in errorKeys then [Feedback(Error, "default")]
    else ErrorFeedback(TrueFlags(c.validity))
  }

  /**
   * The feedback of a field: successes only for a valid control and at most
   * one of them, the earliest success message; errors only for an invalid
   * control, each keyed `default` or by a validity flag that is set, and the
   * `default` error alone whenever there is one.
   */
  lemma ExpectedShape(c: Control, successKeys: seq<string>, errorKeys: seq<string>)
    ensures var r := Expected(c, successKeys, errorKeys);
      && (forall i :: 0 <= i < |r| ==> (r[i].kind == Success <==> c.valid))
      && (c.valid ==> |r| <= 1 && (r != [] <==> successKeys != []) && (r != [] ==> r[0].key == successKeys[0]))
      && (!c.valid ==> forall i :: 0 <= i < |r| ==> r[i].key == "default" || (r[i].key, true) in c.validity)
      && (!c.valid && "default" in errorKeys ==> r == [Feedback(Error, "default")])
      && (!c.valid && "default" !in errorKeys ==> forall k :: (k, true) in c.validity ==> Feedback(Error, k) in r)
  {
    var r := Expected(c, successKeys, errorKeys);
    TrueFlagsHas(c.validity);
    ErrorFeedbackAt(TrueFlags(c.validity));
    if !c.valid && "default" !in errorKeys {
      forall k | (k, true) in c.validity
        ensures Feedback(Error, k) in r
      {
        var ks := TrueFlags(c.validity);
        var i :| 0 <= i < |ks| && ks[i] == k;
        assert r[i] == Feedback(Error, k);
      }
    }
  }

  /** The error keys a control of an invalid form sets: its set flags, unless it is valid or has a `default` error. */
  function SetKeys(c: Control, errorKeys: seq<string>): seq<string> {
    if c.valid || "default" in errorKeys then [] else TrueFlags(c.validity)
  }

  /** The configuration of the factory `set` makes for a field's validation message. */
  function ErrorConfigOf(f: Field): Result<Config, ConfigError> {
    ResolveConfig(MessageConfig(f.errors.templateConfig, Str(f.control.validationMessage)))
  }

  /** What `autoValidate`'s callback reads or changes of a field: its feedback log, its two maps and its count of clears. */
  datatype FieldState = FieldState(appended: seq<Feedback>, errors: JsMap<TemplateFactory>,
                                   successes: JsMap<TemplateFactory>, clears: nat)

  ghost function StateOf(f: Field): FieldState
    reads f, f.errors, f.successes
  {
    FieldState(f.appended, f.errors.entries, f.successes.entries, f.clears)
  }

  /**
   * The field `f`, in state `s`, makes its first `set` throw: it has flags to
   * report but its error template configuration is ill-typed.
   */
  predicate Rejected(f: Field, s: FieldState) {
    SetKeys(f.control, s.errors.keys) != [] && ErrorConfigOf(f).Err?
  }

  /**
   * A validation message is always a string, so only the error template's own
   * options can make `set` throw: a field rejects exactly when it has flags to
   * report and some option other than `content` of that template is ill-typed.
   */
  lemma RejectsOnBadTemplate(f: Field, s: FieldState)
    ensures Rejected(f, s) <==> (SetKeys(f.control, s.errors.keys) != [] &&
      exists j :: 0 <= j < |OptionNames| && OptionNames[j] != "content" && !OptionOk(f.errors.templateConfig, OptionNames[j]))
  {
    MessageConfigFails(f.errors.templateConfig, Str(f.control.validationMessage));
  }

  /**
   * An error map `after` that results from `before` when each of `ks` is
   * `set` to a factory of the configuration `made`: the keys are added to the
   * key order and hold such factories, and every other key holds what it held.
   */
  ghost predicate SetFrom(before: JsMap<TemplateFactory>, ks: seq<string>,
                          made: Result<Config, ConfigError>, after: JsMap<TemplateFactory>) {
    && after.keys == AddKeys(before.keys, ks)
    && (forall k :: k !in ks ==> Get(after, k) == Get(before, k))
    && (forall k :: k in ks ==> made.Ok? && Get(after, k).Some? && Get(after, k).value.resolved == made.value)
  }

  /**
   * The error map `m` holds, at each of `ks`, a factory made from the
   * configuration `made`: what the map renders and reports at those keys is
   * that configuration's message.
   */
  ghost predicate ShowsMessages(m: JsMap<TemplateFactory>, ks: seq<string>, made: Result<Config, ConfigError>)
    reads m.values.Values
  {
    forall k :: k in ks ==> Get(m, k).Some? && MadeFrom(Get(m, k).value, made)
  }

  /** Factories whose `content` has not been reassigned since they were resolved. */
  ghost predicate AsResolved(made: set<TemplateFactory>)
    reads made
  {
    forall v :: v in made ==> v.Current() == v.resolved
  }

  lemma AsResolvedUnion(a: set<TemplateFactory>, b: set<TemplateFactory>)
    requires AsResolved(a) && AsResolved(b)
    ensures AsResolved(a + b)
  {
  }

  /**
   * The keys the field `f` set going from `s0` to `s` hold factories among
   * `made`.
   */
  ghost predicate StoredAmong(f: Field, s0: FieldState, s: FieldState, made: set<TemplateFactory>) {
    forall k :: k in SetKeys(f.control, s0.errors.keys) ==> Get(s.errors, k).Some? && Get(s.errors, k).value in made
  }

  /** `StoredAmong` for each of the first `n` fields. */
  ghost predicate StoredPrefix(fs: seq<Field>, s0: seq<FieldState>, s1: seq<FieldState>, n: nat, made: set<TemplateFactory>) {
    && |s0| == |fs| && |s1| == |fs| && n <= |fs|
    && forall j :: 0 <= j < n ==> StoredAmong(fs[j], s0[j], s1[j], made)
  }

  /**
   * One more field validated into `x`, storing factories among `step`: the
   * prefix of validated fields grows by one.
   */
  lemma PrefixStep(fs: seq<Field>, s0: seq<FieldState>, s: seq<FieldState>, i: nat, x: FieldState,
                   made: set<TemplateFactory>, step: set<TemplateFactory>)
    requires ValidatedPrefix(fs, s0, s, i) && StoredPrefix(fs, s0, s, i, made) && i < |fs|
    requires ValidatedFrom(fs[i], s0[i], x) && StoredAmong(fs[i], s0[i], x, step)
    ensures ValidatedPrefix(fs, s0, s[i := x], i + 1) && StoredPrefix(fs, s0, s[i := x], i + 1, made + step)
  {
    forall j | 0 <= j < i
      ensures StoredAmong(fs[j], s0[j], s[i := x][j], made + step)
    {
      assert s[i := x][j] == s[j];
    }
  }

  /**
   * A validated field whose new factories are still as resolved shows its
   * validation message at every key it set.
   */
  lemma ValidatedShowsMessages(f: Field, s0: FieldState, s1: FieldState, made: set<TemplateFactory>)
    requires ValidatedFrom(f, s0, s1) && StoredAmong(f, s0, s1, made) && AsResolved(made)
    ensures ShowsMessages(s1.errors, SetKeys(f.control, s0.errors.keys), ErrorConfigOf(f))
  {
    forall k | k in SetKeys(f.control, s0.errors.keys)
      ensures Get(s1.errors, k).Some? && MadeFrom(Get(s1.errors, k).value, ErrorConfigOf(f))
    {
      assert Get(s1.errors, k).value in made;
    }
  }

  /**
   * Reading a validated field's error map back: at the position of each key
   * it set, `getAllAsTextArray()` gives the control's `validationMessage`.
   */
  lemma ReportedText(f: Field, s0: FieldState, s1: FieldState, made: set<TemplateFactory>, h: Host, i: nat)
    requires ValidatedFrom(f, s0, s1) && StoredAmong(f, s0, s1, made) && AsResolved(made)
    requires f.errors.entries == s1.errors
    requires i < |s1.errors.keys| && s1.errors.keys[i] in SetKeys(f.control, s0.errors.keys)
    ensures f.errors.GetAllAsTextArray(h)[i] == f.control.validationMessage
  {
    ValidatedShowsMessages(f, s0, s1, made);
    var k := s1.errors.keys[i];
    assert Get(s1.errors, k).Some? && MadeFrom(Get(s1.errors, k).value, ErrorConfigOf(f));
    f.errors.TextArrayGivesMessages(h, i, f.control.validationMessage);
  }

  /** The states of a list of fields, position by position. */
  ghost function States(fs: seq<Field>): (r: seq<FieldState>)
    reads set f | f in fs, set f | f in fs :: f.errors, set f | f in fs :: f.successes
    ensures |r| == |fs| && forall j :: 0 <= j < |fs| ==> r[j] == StateOf(fs[j])
  {
    seq(|fs|, j requires 0 <= j < |fs| reads set f | f in fs, set f | f in fs :: f.errors, set f | f in fs :: f.successes =>
      StateOf(fs[j]))
  }

  /** A field's state after `clearAppended()`: no feedback, one more clear, the maps as they were. */
  function Cleared(s: FieldState): FieldState {
    s.(appended := [], clears := s.clears + 1)
  }

  /**
   * `s1` is what `autoValidate`'s callback makes of the field `f` in state
   * `s0` without a throw: the field did not reject, its feedback grew by what
   * its maps called for, its error map holds the flags it set, and its
   * success map is as it was.
   */
  ghost predicate ValidatedFrom(f: Field, s0: FieldState, s1: FieldState) {
    && !Rejected(f, s0)
    && s1.appended == s0.appended + Expected(f.control, s0.successes.keys, s0.errors.keys)
    && s1.clears == s0.clears && s1.successes == s0.successes
    && SetFrom(s0.errors, SetKeys(f.control, s0.errors.keys), ErrorConfigOf(f), s1.errors)
  }

  /** `Cleared`, position by position. */
  function ClearedAll(s: seq<FieldState>): (r: seq<FieldState>)
    ensures |r| == |s| && forall j :: 0 <= j < |s| ==> r[j] == Cleared(s[j])
  {
    seq(|s|, j requires 0 <= j < |s| => Cleared(s[j]))
  }

  /**
   * The fields `fs`, in states `s0`, went through `autoValidate`'s `forEach`
   * until position `n`: those before it were validated into their states in
   * `s1`, the others are in `s1` as they were in `s0`.
   */
  ghost predicate ValidatedPrefix(fs: seq<Field>, s0: seq<FieldState>, s1: seq<FieldState>, n: nat) {
    && |s0| == |fs| && |s1| == |fs| && n <= |fs|
    && (forall j :: 0 <= j < n ==> ValidatedFrom(fs[j], s0[j], s1[j]))
    && (forall j :: n <= j < |fs| ==> s1[j] == s0[j])
  }

  /**
   * Validation stops at the first field that rejects: the fields before the
   * stop did not reject, and it runs to the end exactly when none rejects.
   */
  lemma StopsAtFirstRejecting(fs: seq<Field>, s0: seq<FieldState>, s1: seq<FieldState>, n: nat)
    requires ValidatedPrefix(fs, s0, s1, n) && (n < |fs| ==> Rejected(fs[n], s0[n]))
    ensures forall j :: 0 <= j < n ==> !Rejected(fs[j], s0[j])
    ensures n == |fs| <==> forall j :: 0 <= j < |fs| ==> !Rejected(fs[j], s0[j])
  {
  }

  /**
   * The feedback `autoValidate` leaves on each field, from the states before
   * its `clear()`: a validated field shows exactly what its maps called for,
   * a field after a throw shows nothing, and every field was cleared once.
   */
  lemma ValidatedFeedback(fs: seq<Field>, s: seq<FieldState>, s1: seq<FieldState>, n: nat)
    requires ValidatedPrefix(fs, ClearedAll(s), s1, n)
    ensures forall j :: 0 <= j < n ==> s1[j].appended == Expected(fs[j].control, s[j].successes.keys, s[j].errors.keys)
    ensures forall j :: 0 <= j < |fs| ==> s1[j].clears == s[j].clears + 1
    ensures forall j :: n <= j < |fs| ==> s1[j].appended == []
  {
  }

  /**
   * Validating a field a second time, when none of its set validity flags is
   * named `default`, sets the same keys and appends the same feedback as the
   * first time, and again does not throw.
   */
  lemma RevalidateSame(f: Field, s0: FieldState, s1: FieldState)
    requires ValidatedFrom(f, s0, s1)
    requires ("default", true) !in f.control.validity
    ensures SetKeys(f.control, s1.errors.keys) == SetKeys(f.control, s0.errors.keys)
    ensures Expected(f.control, s1.successes.keys, s1.errors.keys) == Expected(f.control, s0.successes.keys, s0.errors.keys)
    ensures !Rejected(f, s1)
  {
    TrueFlagsHas(f.control.validity);
    AddKeysHas(s0.errors.keys, SetKeys(f.control, s0.errors.keys));
  }

  /** The error maps of a set of fields. */
  ghost function ErrorsOf(fs: set<Field>): set<Messages> {
    set f | f in fs :: f.errors
  }

  /** The class list after `toggleValidateClass(add)`. */
  function Toggled(classes: set<string>, add: bool): (r: set<string>)
    ensures ValidatedClass in r <==> add
    ensures r - {ValidatedClass} == classes - {ValidatedClass}
  {
    if add then classes + {ValidatedClass} else classes - {ValidatedClass}
  }

  /** Toggling the same way twice is toggling once. */
  lemma ToggledIdempotent(classes: set<string>, add: bool)
    ensures Toggled(Toggled(classes, add), add) == Toggled(classes, add)
  {
  }

  class FormValidation {
    /** The form element's class list. */
    var classes: set<string>
    /** `form.elements`, each as the field `Field.getOrCreateInstance` gives for it. */
    const controls: seq<Field>
    /** `_config`. */
    const config: FormConfig
    /** `_formFields`: control id to field, in insertion order. */
    var formFields: OrderedMap<Field>

    /** The fields of the form's controls. */
    ghost function FieldObjects(): set<Field> {
      set f | f in controls
    }

    ghost predicate Valid()
      reads this
    {
      && Separate(controls)
      && Wf(formFields)
      && (forall k :: k in formFields.values ==> formFields.values[k] in controls && formFields.values[k].control.id == k)
    }

    constructor Init(classes: set<string>, controls: seq<Field>, config: FormConfig)
      ensures this.classes == classes && this.controls == controls && this.config == config
      ensures formFields == Empty()
    {
      this.classes := classes;
      this.controls := controls;
      this.config := config;
      formFields := Empty();
    }

    /**
     * `new FormValidation(element, config)`: throws unless the element is a
     * `FORM`, then resolves the configuration; the field map starts empty.
     */
    static method Create(tagName: string, classes: set<string>, controls: seq<Field>, data: map<string, Value>, user: Value)
      returns (r: Result<FormValidation, FormError>)
      requires Separate(controls)
      ensures tagName != "FORM" ==> r == Err(NotAForm(tagName))
      ensures tagName == "FORM" && ResolveFormConfig(data, user).Err? ==> r == Err(ResolveFormConfig(data, user).error)
      ensures tagName == "FORM" && ResolveFormConfig(data, user).Ok? ==>
        && r.Ok? && fresh(r.value) && r.value.Valid()
        && r.value.classes == classes && r.value.controls == controls
        && r.value.config == ResolveFormConfig(data, user).value && r.value.formFields == Empty()
    {
      if tagName != "FORM" {
        return Err(NotAForm(tagName));
      }
      var c := ResolveFormConfig(data, user);
      if c.Err? {
        return Err(c.error);
      }
      var fv := new FormValidation.Init(classes, controls, c.value);
      return Ok(fv);
    }

    /** `_initializeFields()`: each control's field set at the control's id, in control order. */
    method InitializeFields() returns (m: OrderedMap<Field>)
      ensures m == FieldsOf(controls)
    {
      m := Empty();
      var i := 0;
      while i < |controls|
        invariant i <= |controls|
        invariant m == FieldsOf(controls[..i])
      {
        assert controls[..i + 1][..i] == controls[..i];
        m := Put(m, controls[i].control.id, controls[i]);
        i := i + 1;
      }
      assert controls[..i] == controls;
    }

    /** `getFields()`: builds the field map while it is empty, and otherwise returns it unchanged. */
    method GetFields() returns (fields: OrderedMap<Field>)
      requires Valid()
      modifies this
      ensures Valid()
      ensures formFields == if old(formFields.keys) == [] then FieldsOf(controls) else old(formFields)
      ensures fields == formFields && classes == old(classes)
    {
      if formFields.keys == [] {
        formFields := InitializeFields();
        FieldsOfShape(controls);
      }
      return formFields;
    }

    /** `getField(name)`: the field stored at `name`, if any. */
    method GetField(name: string) returns (r: Option<Field>)
      requires Valid()
      modifies this
      ensures Valid() && classes == old(classes)
      ensures formFields == if old(formFields.keys) == [] then FieldsOf(controls) else old(formFields)
      ensures r == Get(formFields, name)
      ensures old(formFields.keys) == [] ==> r == LastWithId(controls, name)
    {
      var fields := GetFields();
      FieldsOfGet(controls, name);
      return Get(fields, name);
    }

    /** `toggleValidateClass(add)`: adds or removes `was-validated` and no other class. */
    method ToggleValidateClass(add: bool)
      modifies this
      ensures classes == Toggled(old(classes), add)
      ensures formFields == old(formFields)
    {
      if add {
        classes := classes + {ValidatedClass};
        return;
      }
      classes := classes - {ValidatedClass};
    }

    /**
     * `clear()`: removes `was-validated` and clears every field of the map
     * exactly once, in map order; a control whose field was displaced by a
     * later control with the same id is not touched.
     */
    method Clear()
      requires Valid()
      modifies this, FieldObjects()
      ensures Valid()
      ensures classes == Toggled(old(classes), false)
      ensures formFields == if old(formFields.keys) == [] then FieldsOf(controls) else old(formFields)
      ensures var fs := ValuesInOrder(formFields); States(fs) == ClearedAll(old(States(fs)))
      ensures forall f :: f in controls && f !in formFields.values.Values ==> StateOf(f) == old(StateOf(f))
    {
      ToggleValidateClass(false);
      var fields := GetFields();
      FieldMapDistinct(fields, controls);
      ClearAll(fields);
    }

    /** `fields.forEach(field => field.clearAppended())`: each field of the map is cleared once. */
    static method ClearAll(fields: OrderedMap<Field>)
      requires Wf(fields) && DistinctFields(ValuesInOrder(fields))
      modifies fields.values.Values
      ensures var fs := ValuesInOrder(fields); States(fs) == ClearedAll(old(States(fs)))
    {
      ghost var fs := ValuesInOrder(fields);
      ghost var s0 := States(fs);
      var i := 0;
      while i < |fields.keys|
        invariant i <= |fields.keys|
        invariant forall j :: 0 <= j < i ==> StateOf(fs[j]) == Cleared(s0[j])
        invariant forall j :: i <= j < |fs| ==> StateOf(fs[j]) == s0[j]
      {
        fields.values[fields.keys[i]].ClearAppended();
        i := i + 1;
      }
      assert States(fs) == ClearedAll(s0);
    }

    /**
     * `autoValidate()`: clears the form; when the form does not pass
     * `checkValidity()`, validates the fields of the map in map order and
     * then adds `was-validated`. `validated` counts the fields validated: none
     * for a valid form, all of them unless one throws, and otherwise those
     * before the field that threw, which with the rest is left cleared. After
     * a throw the class is not added.
     */
    method AutoValidate(formValid: bool) returns (r: Result<(), ConfigError>, ghost validated: nat, ghost made: set<TemplateFactory>)
      requires Valid()
      modifies this, FieldObjects(), ErrorsOf(FieldObjects())
      ensures Valid()
      ensures formFields == if old(formFields.keys) == [] then FieldsOf(controls) else old(formFields)
      ensures classes == Toggled(old(classes), !formValid && r.Ok?)
      ensures formValid ==> r.Ok? && validated == 0
      ensures !formValid ==> (r.Ok? <==> validated == |formFields.keys|)
      ensures var fs := ValuesInOrder(formFields); var cleared := ClearedAll(old(States(fs)));
        && ValidatedPrefix(fs, cleared, States(fs), validated)
        && StoredPrefix(fs, cleared, States(fs), validated, made)
        && (r.Err? ==> validated < |fs| && Rejected(fs[validated], cleared[validated]))
      ensures AsResolved(made)
      ensures forall f :: f in controls && f !in formFields.values.Values ==> StateOf(f) == old(StateOf(f))
    {
      Clear();
      if formValid {
        return Ok(()), 0, {};
      }
      r, validated, made := ValidateFields();
    }

    /**
     * `autoValidate()` past its early return, for a form that fails
     * `checkValidity()`: the fields of the map are validated in map order
     * until one throws, and when none does `was-validated` is added.
     */
    method ValidateFields() returns (r: Result<(), ConfigError>, ghost validated: nat, ghost made: set<TemplateFactory>)
      requires Valid()
      modifies this, FieldObjects(), ErrorsOf(FieldObjects())
      ensures Valid()
      ensures formFields == if old(formFields.keys) == [] then FieldsOf(controls) else old(formFields)
      ensures classes == if r.Ok? then Toggled(old(classes), true) else old(classes)
      ensures validated <= |formFields.keys| && (r.Ok? <==> validated == |formFields.keys|)
      ensures var fs := ValuesInOrder(formFields);
        && ValidatedPrefix(fs, old(States(fs)), States(fs), validated)
        && StoredPrefix(fs, old(States(fs)), States(fs), validated, made)
        && (r.Err? ==> validated < |fs| && Rejected(fs[validated], old(States(fs))[validated]))
      ensures AsResolved(made)
      ensures forall f :: f in controls && f !in formFields.values.Values ==> StateOf(f) == old(StateOf(f))
    {
      var fields := GetFields();
      ghost var fs := ValuesInOrder(fields);
      assert States(fs) == old(States(fs));
      r, validated, made := ValidateMap(fields, controls);
      ghost var after := States(fs);
      if r.Ok? {
        ToggleValidateClass(true);
      }
      assert States(fs) == after;
    }

    /**
     * `getFields().forEach(...)` on the map built from `controls`: `ValidateAll`,
     * where only the fields of the map change: a control whose field was
     * displaced by a later control with the same id is left as it was.
     */
    static method ValidateMap(fields: OrderedMap<Field>, controls: seq<Field>)
      returns (r: Result<(), ConfigError>, ghost stop: nat, ghost made: set<TemplateFactory>)
      requires Wf(fields) && Separate(controls)
      requires forall k :: k in fields.values ==> fields.values[k] in controls && fields.values[k].control.id == k
      modifies fields.values.Values, ErrorsOf(fields.values.Values)
      ensures forall f :: f in controls && f !in fields.values.Values ==> unchanged(f, f.errors, f.successes)
      ensures stop <= |fields.keys| && (r.Ok? <==> stop == |fields.keys|)
      ensures var fs := ValuesInOrder(fields);
        && ValidatedPrefix(fs, old(States(fs)), States(fs), stop)
        && StoredPrefix(fs, old(States(fs)), States(fs), stop, made)
        && (r.Err? ==> stop < |fs| && Rejected(fs[stop], old(States(fs))[stop]))
      ensures AsResolved(made)
    {
      ghost var fs := ValuesInOrder(fields);
      FieldMapDistinct(fields, controls);
      r, stop, made := ValidateAll(fields);
      ghost var after := States(fs);
      forall f | f in controls && f !in fields.values.Values ensures unchanged(f, f.errors, f.successes) {
        assert f.errors !in ErrorsOf(fields.values.Values);
        assert f.successes !in ErrorsOf(fields.values.Values);
      }
      assert States(fs) == after;
    }

    /**
     * The submit handler: a form that fails `checkValidity()` has its submit
     * cancelled (`preventDefault`), and either way `autoValidate()` runs.
     */
    method Submit(formValid: bool) returns (cancelled: bool, r: Result<(), ConfigError>)
      requires Valid()
      modifies this, FieldObjects(), ErrorsOf(FieldObjects())
      ensures Valid()
      ensures cancelled <==> !formValid
      ensures formValid ==> r.Ok?
      ensures classes == Toggled(old(classes), !formValid && r.Ok?)
    {
      cancelled := !formValid;
      ghost var validated;
      ghost var made;
      r, validated, made := AutoValidate(formValid);
    }

    /**
     * `getFields().forEach(...)` with `autoValidate`'s callback: the fields
     * are validated in map order until one throws. `stop` is the position of
     * the field that threw, or the number of fields when none did.
     */
    static method ValidateAll(fields: OrderedMap<Field>) returns (r: Result<(), ConfigError>, ghost stop: nat, ghost made: set<TemplateFactory>)
      requires Wf(fields) && DistinctFields(ValuesInOrder(fields))
      modifies fields.values.Values, ErrorsOf(fields.values.Values)
      ensures stop <= |fields.keys| && (r.Ok? <==> stop == |fields.keys|)
      ensures var fs := ValuesInOrder(fields);
        && ValidatedPrefix(fs, old(States(fs)), States(fs), stop)
        && (r.Err? ==> stop < |fs| && Rejected(fs[stop], old(States(fs))[stop]))
      ensures AsResolved(made)
      ensures var fs := ValuesInOrder(fields); StoredPrefix(fs, old(States(fs)), States(fs), stop, made)
    {
      ghost var fs := ValuesInOrder(fields);
      ghost var s0 := States(fs);
      ghost var s := s0;
      made := {};
      r := Ok(());
      var i := 0;
      while i < |fields.keys|
        invariant i <= |fs| && |s| == |fs| && r.Ok?
        invariant forall j :: 0 <= j < |fs| ==> StateOf(fs[j]) == s[j]
        invariant ValidatedPrefix(fs, s0, s, i) && StoredPrefix(fs, s0, s, i, made)
        invariant AsResolved(made)
      {
        ghost var step;
        ghost var before := s;
        r, s, step := ValidateStep(fields, i, fs, s0, s);
        assert AsResolved(made);
        if r.Err? {
          break;
        }
        PrefixStep(fs, s0, before, i, s[i], made, step);
        AsResolvedUnion(made, step);
        made := made + step;
        i := i + 1;
      }
      stop := i;
      assert States(fs) == s;
    }

    /**
     * One pass of `autoValidate`'s `forEach`: the field at position `i` of the
     * map is validated. `s` tracks the fields' states and `s0[i]` is where
     * that field started; only its state changes, and a throw changes nothing.
     */
    static method ValidateStep(fields: OrderedMap<Field>, i: nat, ghost fs: seq<Field>,
                               ghost s0: seq<FieldState>, ghost s: seq<FieldState>)
      returns (r: Result<(), ConfigError>, ghost s': seq<FieldState>, ghost made: set<TemplateFactory>)
      requires Wf(fields) && fs == ValuesInOrder(fields) && DistinctFields(fs)
      requires i < |fs| && |s| == |fs| && |s0| == |fs|
      requires forall j :: 0 <= j < |fs| ==> StateOf(fs[j]) == s[j]
      requires s[i] == s0[i]
      modifies fs[i], fs[i].errors
      ensures r.Err? ==> Rejected(fs[i], s0[i]) && s' == s
      ensures r.Ok? ==> |s'| == |s| && s' == s[i := s'[i]]
      ensures r.Ok? ==> ValidatedFrom(fs[i], s0[i], s'[i]) && StoredAmong(fs[i], s0[i], s'[i], made)
      ensures forall j :: 0 <= j < |fs| ==> StateOf(fs[j]) == s'[j]
      ensures AsResolved(made)
    {
      r, made := ValidateField(fields.values[fields.keys[i]], s[i]);
      s' := if r.Ok? then s[i := StateOf(fs[i])] else s;
    }

    /**
     * One field of an invalid form, as `autoValidate`'s callback handles it.
     * It throws, changing nothing, exactly when the field is `Rejected`.
     */
    static method ValidateField(f: Field, ghost s: FieldState) returns (r: Result<(), ConfigError>, ghost made: set<TemplateFactory>)
      requires f.errors != f.successes
      requires StateOf(f) == s
      modifies f, f.errors
      ensures r.Err? <==> Rejected(f, s)
      ensures r.Err? ==> StateOf(f) == s
      ensures r.Ok? ==> ValidatedFrom(f, s, StateOf(f))
      ensures r.Ok? ==> ShowsMessages(f.errors.entries, SetKeys(f.control, s.errors.keys), ErrorConfigOf(f))
      ensures AsResolved(made)
      ensures r.Ok? ==> forall k :: k in SetKeys(f.control, s.errors.keys) ==> Get(f.errors.entries, k).Some? && Get(f.errors.entries, k).value in made
    {
      made := {};
      if f.control.valid {
        var first := f.successes.GetFirst();
        if first.Some? {
          f.Append(Feedback(Success, f.successes.entries.keys[0]));
        }
        return Ok(()), {};
      }
      if f.errors.Has("default") {
        f.Append(Feedback(Error, "default"));
        return Ok(()), {};
      }
      ghost var entries0 := f.errors.entries;
      ghost var puts;
      r, puts, made := ReportFlags(f, ErrorConfigOf(f));
      if r.Ok? {
        PutAllKeys(entries0, puts);
        StoredConfigs(entries0, puts, ErrorConfigOf(f), made);
      }
    }

    /** `set(property, validationMessage)` on the field's errors, then `append()` of what was stored. */
    static method ReportFlag(f: Field, property: string, ghost made: Result<Config, ConfigError>) returns (r: Result<TemplateFactory, ConfigError>)
      requires made == ErrorConfigOf(f)
      modifies f, f.errors
      ensures f.clears == old(f.clears)
      ensures r.Err? <==> made.Err?
      ensures r.Err? ==> f.appended == old(f.appended) && f.errors.entries == old(f.errors.entries)
      ensures r.Ok? ==> && fresh(r.value) && MadeFrom(r.value, made)
                        && f.errors.entries == Put(old(f.errors.entries), property, r.value)
                        && f.appended == old(f.appended) + [Feedback(Error, property)]
    {
      r := f.errors.Set(property, Str(f.control.validationMessage));
      if r.Ok? {
        f.Append(Feedback(Error, property));
      }
    }

    /**
     * A set flag `k` reported with `ReportFlag`, on top of the factories
     * `puts` stored so far: the map and the log grow by `k` and the factory
     * `added` made for it, or the `set` throws and nothing changes.
     */
    static method ReportSet(f: Field, k: string, ghost made: Result<Config, ConfigError>,
                     ghost entries0: OrderedMap<TemplateFactory>, ghost log0: seq<Feedback>,
                     ghost puts: seq<(string, TemplateFactory)>, ghost vs: set<TemplateFactory>)
      returns (r: Result<(), ConfigError>, ghost puts': seq<(string, TemplateFactory)>, ghost added: set<TemplateFactory>)
      requires made == ErrorConfigOf(f) && Wf(entries0)
      requires f.errors.entries == PutAll(entries0, puts) && f.appended == log0 + ErrorFeedback(Keys(puts))
      requires ResolvedAmong(puts, made, vs)
      modifies f, f.errors
      ensures f.clears == old(f.clears)
      ensures r.Err? ==> made.Err? && puts == [] && f.appended == old(f.appended) && f.errors.entries == old(f.errors.entries)
      ensures r.Ok? ==> f.errors.entries == PutAll(entries0, puts') && Keys(puts') == Keys(puts) + [k]
      ensures r.Ok? ==> f.appended == log0 + ErrorFeedback(Keys(puts')) && ResolvedAmong(puts', made, vs + added)
      ensures AsResolved(added)
    {
      puts', added := puts, {};
      var put := ReportFlag(f, k, made);
      if put.Err? {
        return Err(put.error), puts', added;
      }
      PutsStep(entries0, puts, log0, k, put.value, made, vs);
      r, puts', added := Ok(()), puts + [(k, put.value)], {put.value};
    }

    /**
     * One pass of the flag loop: flag `i` of the control. A set flag is
     * reported with `ReportSet`; the state keeps matching the flags seen so
     * far, and a `set` that throws changes nothing.
     */
    static method ReportStep(f: Field, i: nat, ghost made: Result<Config, ConfigError>,
                      ghost entries0: OrderedMap<TemplateFactory>, ghost log0: seq<Feedback>,
                      ghost puts: seq<(string, TemplateFactory)>, ghost vs: set<TemplateFactory>)
      returns (r: Result<(), ConfigError>, ghost puts': seq<(string, TemplateFactory)>, ghost added: set<TemplateFactory>)
      requires i < |f.control.validity| && made == ErrorConfigOf(f) && Wf(entries0)
      requires f.errors.entries == PutAll(entries0, puts) && Keys(puts) == TrueFlags(f.control.validity[..i])
      requires f.appended == log0 + ErrorFeedback(Keys(puts))
      requires ResolvedAmong(puts, made, vs)
      modifies f, f.errors
      ensures f.clears == old(f.clears)
      ensures r.Err? ==> made.Err? && f.control.validity[i].1 && puts == []
      ensures r.Err? ==> f.appended == old(f.appended) && f.errors.entries == old(f.errors.entries)
      ensures r.Ok? ==> f.errors.entries == PutAll(entries0, puts') && Keys(puts') == TrueFlags(f.control.validity[..i + 1])
      ensures r.Ok? ==> f.appended == log0 + ErrorFeedback(Keys(puts'))
      ensures r.Ok? ==> ResolvedAmong(puts', made, vs + added)
      ensures AsResolved(added)
    {
      var flags := f.control.validity;
      TrueFlagsStep(flags, i);
      if flags[i].1 {
        r, puts', added := ReportSet(f, flags[i].0, made, entries0, log0, puts, vs);
      } else {
        assert Keys(puts) + [] == Keys(puts);
        r, puts', added := Ok(()), puts, {};
      }
    }

    /**
     * The `for (const property in element.validity)` loop: for each flag that
     * is set, `set` the flag's key to the validation message and append it.
     * The message is the same every time, so either the first `set` throws and
     * nothing has changed, or every `set` succeeds.
     */
    static method ReportFlags(f: Field, ghost made: Result<Config, ConfigError>)
      returns (r: Result<(), ConfigError>, ghost puts: seq<(string, TemplateFactory)>, ghost vs: set<TemplateFactory>)
      requires made == ErrorConfigOf(f)
      modifies f, f.errors
      ensures f.clears == old(f.clears)
      ensures r.Err? <==> TrueFlags(f.control.validity) != [] && made.Err?
      ensures r.Err? ==> f.appended == old(f.appended) && f.errors.entries == old(f.errors.entries)
      ensures r.Ok? ==> f.appended == old(f.appended) + ErrorFeedback(TrueFlags(f.control.validity))
      ensures r.Ok? ==> f.errors.entries == PutAll(old(f.errors.entries), puts) && Keys(puts) == TrueFlags(f.control.validity)
      ensures r.Ok? ==> ResolvedAmong(puts, made, vs)
      ensures AsResolved(vs)
    {
      ghost var entries0, log0 := f.errors.entries, f.appended;
      var flags := f.control.validity;
      puts, vs := [], {};
      var i := 0;
      while i < |flags|
        invariant i <= |flags| && f.clears == old(f.clears)
        invariant f.errors.entries == PutAll(entries0, puts) && Keys(puts) == TrueFlags(flags[..i])
        invariant f.appended == log0 + ErrorFeedback(Keys(puts))
        invariant ResolvedAmong(puts, made, vs) && AsResolved(vs)
      {
        ghost var added;
        r, puts, added := ReportStep(f, i, made, entries0, log0, puts, vs);
        AsResolvedUnion(vs, added);
        vs := vs + added;
        if r.Err? {
          TrueFlagsHas(flags);
          assert (flags[i].0, true) in flags;
          break;
        }
        i := i + 1;
      }
      if i == |flags| {
        assert flags[..i] == flags;
        r := Ok(());
      }
    }
  }
}
