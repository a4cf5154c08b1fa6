/** What an OpenAPI document says about validation: its schemas, operations and parsed extensions, the
    sites where something is declared, and what compiling a set of sites into a message map means. */
module ValidationDocument {
  import opened Common
  import Text

  // What the OpenAPI document says.

  type SchemaId = nat

  datatype NamedRule = NamedRule(name: string, message: string)

  datatype FieldExtension = FieldExtension(notBlank: bool, messages: map<string, string>, customRules: seq<NamedRule>)

  /** An x-validation extension after parsing. */
  datatype Parsed<+T> = Absent | Malformed | Present(value: T)

  /** A schema reference; value is the address of the schema it resolves to. */
  datatype SchemaRef = SchemaRef(value: Option<SchemaId>, extension: Parsed<FieldExtension>)

  datatype Schema = Schema(
    allOf: seq<Option<SchemaRef>>,
    properties: map<string, Option<SchemaRef>>,
    required: seq<string>,
    minLength: nat,
    maxLength: Option<nat>,
    pattern: string,
    format: string,
    enumSize: nat,
    min: Option<real>,
    max: Option<real>,
    extension: Parsed<FieldExtension>)

  type Schemas = map<SchemaId, Schema>

  predicate Resolves(g: Schemas, r: Option<SchemaRef>) {
    r.Some? && r.value.value.Some? ==> r.value.value.value in g
  }

  ghost predicate WellFormed(g: Schemas) {
    forall id :: id in g ==>
      && (forall i :: 0 <= i < |g[id].allOf| ==> Resolves(g, g[id].allOf[i]))
      && (forall name :: name in g[id].properties ==> Resolves(g, g[id].properties[name]))
  }

  // What a field or an operation declares.

  datatype MessageKey = MessageKey(operation: string, location: string, field: string, rule: string)

  datatype FieldKey = FieldKey(operation: string, location: string, field: string)

  datatype Entry = Entry(key: MessageKey, message: string)

  /** One thing the compiler looks at: a field at its place, or an operation's own messages. */
  datatype Site =
    | Field(key: FieldKey, ref: Option<SchemaRef>, required: bool)
    | Operation(operation: string, extension: Parsed<map<string, string>>)

  function TrimKey(k: MessageKey): MessageKey {
    MessageKey(Text.TrimSpace(k.operation), Text.TrimSpace(k.location), Text.TrimSpace(k.field), Text.TrimSpace(k.rule))
  }

  /** The extension on the reference wins over the one on the schema. */
  function ExtensionOf(g: Schemas, r: Option<SchemaRef>): Parsed<FieldExtension>
    requires Resolves(g, r)
  {
    if r.None? then Absent
    else if !r.value.extension.Absent? then r.value.extension
    else if r.value.value.None? then Absent
    else g[r.value.value.value].extension
  }

  function Lookup(m: map<string, string>, k: string): string { if k in m then m[k] else "" }

  function RulesOf(e: FieldExtension): seq<NamedRule> {
    (if e.notBlank then [NamedRule("notBlank", Lookup(e.messages, "notBlank"))] else []) + e.customRules
  }

  function NativeRules(s: Schema, required: bool): seq<string> {
    (if required then ["required"] else [])
    + (if s.minLength > 0 then ["minLength"] else [])
    + (if s.maxLength.Some? then ["maxLength"] else [])
    + (if Text.TrimSpace(s.pattern) != "" then ["pattern"] else [])
    + (if Text.TrimSpace(s.format) != "" then ["format"] else [])
    + (if s.enumSize > 0 then ["enum"] else [])
    + (if s.min.Some? then ["minimum"] else [])
    + (if s.max.Some? then ["maximum"] else [])
  }

  function EntryOf(p: (MessageKey, string)): Entry { Entry(TrimKey(p.0), p.1) }

  function RuleKey(k: FieldKey, rule: string): MessageKey { MessageKey(k.operation, k.location, k.field, rule) }

  function EntryAt(k: FieldKey, rule: string, message: string): Entry { EntryOf((RuleKey(k, rule), message)) }

  function OperationEntry(operation: string, rule: string, message: string): Entry {
    EntryOf((MessageKey(operation, "", "", rule), message))
  }

  /** The (key, message) pairs a site declares. */
  ghost function Declares(g: Schemas, v: Site): iset<Entry> {
    match v
    case Field(key, ref, _) =>
      if Resolves(g, ref) && ExtensionOf(g, ref).Present? then
        var e := ExtensionOf(g, ref).value;
        (iset rule | rule in e.messages :: EntryAt(key, rule, e.messages[rule]))
        + (iset i | 0 <= i < |RulesOf(e)| :: EntryAt(key, RulesOf(e)[i].name, RulesOf(e)[i].message))
      else iset{}
    case Operation(operation, ext) =>
      if ext.Present? then
        iset rule | rule in ext.value :: OperationEntry(operation, rule, ext.value[rule])
      else iset{}
  }

  predicate Blank(e: Entry) {
    e.key.operation == "" || e.key.rule == "" || Text.TrimSpace(e.message) == ""
  }

  /** A site that compiles on its own: its extension parses, it has an operation id, every native
      rule of an annotated field has a message, and nothing it declares is blank. */
  ghost predicate SiteOk(g: Schemas, v: Site) {
    NoneBlank(Declares(g, v)) && SiteChecks(g, v)
  }

  ghost predicate NoneBlank(entries: iset<Entry>) { forall e {:trigger Blank(e)} :: e in entries ==> !Blank(e) }

  predicate SiteChecks(g: Schemas, v: Site) {
    match v
    case Field(key, ref, required) =>
      Resolves(g, ref) && !ExtensionOf(g, ref).Malformed?
      && (ExtensionOf(g, ref).Present? ==>
            && key.operation != "" && ref.Some? && ref.value.value.Some?
            && NativeCovered(NativeRules(g[ref.value.value.value], required), ExtensionOf(g, ref).value.messages))
    case Operation(operation, ext) => !ext.Malformed? && (ext.Present? ==> operation != "")
  }

  predicate NativeCovered(native: seq<string>, messages: map<string, string>) {
    forall i :: 0 <= i < |native| ==> Text.TrimSpace(Lookup(messages, native[i])) != ""
  }

  datatype CrossFieldRule = CrossFieldRule(name: string, rule: string, left: string, right: string, message: string)

  datatype OperationExtension = OperationExtension(messages: map<string, string>, crossFields: seq<CrossFieldRule>)

  /** A parameter; content maps media types to their schemas. */
  datatype Parameter = Parameter(
    location: string, name: string, required: bool, schema: Option<SchemaRef>, content: map<string, Option<SchemaRef>>)

  /** An operation with the parameters of its path item; nil parameters are None. */
  datatype OperationDoc = OperationDoc(
    id: string,
    extension: Parsed<OperationExtension>,
    pathParameters: seq<Option<Parameter>>,
    parameters: seq<Option<Parameter>>,
    body: map<string, Option<SchemaRef>>)

  // The walks of the body compiler.

  datatype Edge = AllOf(i: nat) | Prop(name: string)

  /** The site at the end of a walk: it starts at ref, never meets a schema of `stack` or one it has
      met before, and ends with a property edge. */
  ghost function EndOf(g: Schemas, op: string, ref: Option<SchemaRef>, path: seq<string>, stack: set<SchemaId>,
                       walk: seq<Edge>)
    : Option<Site>
    decreases |walk|
  {
    if walk == [] || ref.None? || ref.value.value.None? then None
    else
      var id := ref.value.value.value;
      if id in stack || id !in g then None
      else match walk[0]
        case AllOf(i) =>
          if i < |g[id].allOf| then EndOf(g, op, g[id].allOf[i], path, stack + {id}, walk[1..]) else None
        case Prop(name) =>
          if name !in g[id].properties then None
          else if |walk| == 1 then Some(PropertySite(g, op, id, path, name))
          else EndOf(g, op, g[id].properties[name], path + [name], stack + {id}, walk[1..])
  }

  const BODY := "body"

  function PropertySite(g: Schemas, op: string, id: SchemaId, path: seq<string>, name: string): Site
    requires id in g && name in g[id].properties
  {
    Field(FieldKey(op, BODY, Text.Join(path + [name], '.')), g[id].properties[name], name in g[id].required)
  }

  /** All sites at ends of walks. */
  ghost function Sites(g: Schemas, op: string, ref: Option<SchemaRef>, path: seq<string>,
                       stack: set<SchemaId>): iset<Site> {
    iset walk | EndOf(g, op, ref, path, stack, walk).Some? :: EndOf(g, op, ref, path, stack, walk).value
  }

  /** The schemas a walk leaves through its edges, when every edge exists. */
  ghost function SchemasAlong(g: Schemas, ref: Option<SchemaRef>, walk: seq<Edge>): Option<seq<SchemaId>>
    decreases |walk|
  {
    if walk == [] then Some([])
    else if ref.None? || ref.value.value.None? || ref.value.value.value !in g then None
    else
      var id := ref.value.value.value;
      var next :=
        match walk[0]
        case AllOf(i) => if i < |g[id].allOf| then Some(g[id].allOf[i]) else None
        case Prop(name) => if name in g[id].properties then Some(g[id].properties[name]) else None;
      if next.None? then None
      else
        var rest := SchemasAlong(g, next.value, walk[1..]);
        if rest.None? then None else Some([id] + rest.value)
  }

  function Names(walk: seq<Edge>): seq<string> {
    if walk == [] then [] else (if walk[0].Prop? then [walk[0].name] else []) + Names(walk[1..])
  }

  ghost predicate RepeatFree(ids: seq<SchemaId>, stack: set<SchemaId>) {
    (forall i :: 0 <= i < |ids| ==> ids[i] !in stack) && forall i, j :: 0 <= i < j < |ids| ==> ids[i] != ids[j]
  }

  /** The walks that count are exactly the walks of the graph that end in a property edge and leave
      no schema twice. */
  lemma {:induction false} WalkEnds(g: Schemas, op: string, ref: Option<SchemaRef>, path: seq<string>,
                                    stack: set<SchemaId>, walk: seq<Edge>)
    ensures var ids := SchemasAlong(g, ref, walk);
            EndOf(g, op, ref, path, stack, walk).Some? <==>
              walk != [] && Last(walk).Prop? && ids.Some? && RepeatFree(ids.value, stack)
    decreases |walk|
  {
    if walk != [] && ref.Some? && ref.value.value.Some? && ref.value.value.value in g {
      var id := ref.value.value.value;
      var rest := walk[1..];
      assert rest != [] ==> Last(rest) == Last(walk);
      match walk[0]
      case AllOf(i) =>
        if i < |g[id].allOf| {
          WalkEnds(g, op, g[id].allOf[i], path, stack + {id}, rest);
          RepeatFreeStep(id, SchemasAlong(g, g[id].allOf[i], rest), stack);
        }
      case Prop(name) =>
        if name in g[id].properties {
          WalkEnds(g, op, g[id].properties[name], path + [name], stack + {id}, rest);
          RepeatFreeStep(id, SchemasAlong(g, g[id].properties[name], rest), stack);
        }
    }
  }

  lemma NamesNext(path: seq<string>, walk: seq<Edge>)
    requires walk != []
    ensures path + Names(walk) == path + (if walk[0].Prop? then [walk[0].name] else []) + Names(walk[1..])
  {
  }

  /** The site at the end of a walk is a body field, named by the dotted path of the walk's property
      names. */
  lemma {:induction false} WalkField(g: Schemas, op: string, ref: Option<SchemaRef>, path: seq<string>,
                                     stack: set<SchemaId>, walk: seq<Edge>)
    requires EndOf(g, op, ref, path, stack, walk).Some?
    ensures var site := EndOf(g, op, ref, path, stack, walk).value;
            site.Field? && site.key == FieldKey(op, BODY, Text.Join(path + Names(walk), '.'))
    decreases |walk|
  {
    var id := ref.value.value.value;
    var rest := walk[1..];
    NamesNext(path, walk);
    match walk[0]
    case AllOf(i) =>
      WalkField(g, op, g[id].allOf[i], path, stack + {id}, rest);
      assert EndOf(g, op, ref, path, stack, walk) == EndOf(g, op, g[id].allOf[i], path, stack + {id}, rest);
      assert path + [] == path;
    case Prop(name) =>
      if rest == [] {
        assert Names(rest) == [] && path + [name] + [] == path + [name];
      } else {
        WalkField(g, op, g[id].properties[name], path + [name], stack + {id}, rest);
        assert EndOf(g, op, ref, path, stack, walk)
            == EndOf(g, op, g[id].properties[name], path + [name], stack + {id}, rest);
      }
  }

  /** Its schema and whether it is required are what the schema that the walk leaves last says of the property. */
  lemma {:induction false} WalkProperty(g: Schemas, op: string, ref: Option<SchemaRef>, path: seq<string>,
                                        stack: set<SchemaId>, walk: seq<Edge>)
    requires EndOf(g, op, ref, path, stack, walk).Some?
    ensures walk != [] && Last(walk).Prop?
    ensures var site, ids := EndOf(g, op, ref, path, stack, walk).value, SchemasAlong(g, ref, walk);
            && ids.Some? && ids.value != []
            && var owner, name := Last(ids.value), Last(walk).name;
            && site.Field? && owner in g && name in g[owner].properties
            && site.ref == g[owner].properties[name] && (site.required <==> name in g[owner].required)
    decreases |walk|
  {
    var id, rest := ref.value.value.value, walk[1..];
    match walk[0]
    case AllOf(i) => WalkProperty(g, op, g[id].allOf[i], path, stack + {id}, rest);
    case Prop(name) =>
      if rest != [] {
        WalkProperty(g, op, g[id].properties[name], path + [name], stack + {id}, rest);
      }
  }

  lemma RepeatFreeTail(id: SchemaId, rest: seq<SchemaId>, stack: set<SchemaId>)
    requires RepeatFree([id] + rest, stack)
    ensures id !in stack && RepeatFree(rest, stack + {id})
  {
    var ids := [id] + rest;
    assert ids[0] == id;
    forall k | 0 <= k < |rest|
      ensures rest[k] != id && rest[k] !in stack
    {
      assert ids[k + 1] == rest[k] && ids[0] == id;
    }
    forall i, j | 0 <= i < j < |rest|
      ensures rest[i] != rest[j]
    {
      assert ids[i + 1] != ids[j + 1];
    }
  }

  lemma RepeatFreeCons(id: SchemaId, rest: seq<SchemaId>, stack: set<SchemaId>)
    requires id !in stack && RepeatFree(rest, stack + {id})
    ensures RepeatFree([id] + rest, stack)
  {
    var ids := [id] + rest;
    forall j | 0 <= j < |ids|
      ensures ids[j] !in stack
    {
      if j > 0 {
        assert ids[j] == rest[j - 1];
      }
    }
    forall i, j | 0 <= i < j < |ids|
      ensures ids[i] != ids[j]
    {
      assert ids[j] == rest[j - 1];
      if i > 0 {
        assert ids[i] == rest[i - 1];
      }
    }
  }

  lemma RepeatFreeStep(id: SchemaId, rest: Option<seq<SchemaId>>, stack: set<SchemaId>)
    ensures rest.Some? ==>
              (RepeatFree([id] + rest.value, stack) <==> id !in stack && RepeatFree(rest.value, stack + {id}))
  {
    if rest.Some? {
      if RepeatFree([id] + rest.value, stack) {
        RepeatFreeTail(id, rest.value, stack);
      } else if id !in stack && RepeatFree(rest.value, stack + {id}) {
        RepeatFreeCons(id, rest.value, stack);
      }
    }
  }

  // The catalog.

  type Messages = map<MessageKey, string>

  type Rules = map<FieldKey, seq<NamedRule>>

  ghost function Entries(messages: map<MessageKey, string>): iset<Entry> {
    iset k | k in messages :: Entry(k, messages[k])
  }

  ghost function DeclaredBy(g: Schemas, sites: iset<Site>): iset<Entry> {
    iset v, e | v in sites && e in Declares(g, v) :: e
  }

  predicate Agree(a: Entry, b: Entry) { a.key == b.key ==> a.message == b.message }

  ghost predicate Consistent(entries: iset<Entry>) {
    forall a, b {:trigger Agree(a, b)} :: a in entries && b in entries ==> Agree(a, b)
  }

  /** The custom rules a site stores, none if it has none. */
  function StoredRules(g: Schemas, v: Site): (rules: seq<NamedRule>)
    ensures rules != [] ==> v.Field?
  {
    if v.Field? && Resolves(g, v.ref) && ExtensionOf(g, v.ref).Present?
    then RulesOf(ExtensionOf(g, v.ref).value) else []
  }

  /** e is the extension in force at a reference: its own, or else that of the schema it leads to. */
  ghost predicate HasExtension(g: Schemas, r: Option<SchemaRef>, e: FieldExtension) {
    r.Some?
    && if r.value.extension.Absent?
       then r.value.value.Some? && r.value.value.value in g && g[r.value.value.value].extension == Present(e)
       else r.value.extension == Present(e)
  }

  // What a site declares and when it is fine, in the document's own terms.

  /** A rule and its message are in the extension's message map, or are its notBlank mark, or one of its
      custom rules. */
  ghost predicate Words(e: FieldExtension, rule: string, message: string) {
    || (rule in e.messages && e.messages[rule] == message)
    || (e.notBlank && rule == "notBlank" && message == Lookup(e.messages, "notBlank"))
    || exists i :: 0 <= i < |e.customRules| && e.customRules[i] == NamedRule(rule, message)
  }

  /** The pair under the trimmed key. */
  function Trimmed(operation: string, location: string, field: string, rule: string, message: string): Entry {
    Entry(MessageKey(Text.TrimSpace(operation), Text.TrimSpace(location), Text.TrimSpace(field), Text.TrimSpace(rule)),
          message)
  }

  lemma FieldDeclares(g: Schemas, v: Site, e: FieldExtension, x: Entry)
    requires v.Field? && Resolves(g, v.ref) && HasExtension(g, v.ref, e)
    ensures x in Declares(g, v) <==>
              exists rule, message :: Words(e, rule, message)
                && x == Trimmed(v.key.operation, v.key.location, v.key.field, rule, message)
  {
    var k := v.key;
    if x in Declares(g, v) {
      DeclaredIsWorded(g, v, e, x);
    }
    if rule, message :| Words(e, rule, message)
                        && x == Trimmed(k.operation, k.location, k.field, rule, message) {
      WordedIsDeclared(g, v, e, rule, message);
    }
  }

  lemma DeclaredIsWorded(g: Schemas, v: Site, e: FieldExtension, x: Entry)
    requires v.Field? && Resolves(g, v.ref) && HasExtension(g, v.ref, e) && x in Declares(g, v)
    ensures exists rule, message :: Words(e, rule, message)
              && x == Trimmed(v.key.operation, v.key.location, v.key.field, rule, message)
  {
    if rule :| rule in e.messages && x == EntryAt(v.key, rule, e.messages[rule]) {
      assert Words(e, rule, e.messages[rule]);
    } else {
      var i :| 0 <= i < |RulesOf(e)| && x == EntryAt(v.key, RulesOf(e)[i].name, RulesOf(e)[i].message);
      WordsAt(e, i);
      assert Words(e, RulesOf(e)[i].name, RulesOf(e)[i].message);
    }
  }

  lemma WordedIsDeclared(g: Schemas, v: Site, e: FieldExtension, rule: string, message: string)
    requires v.Field? && Resolves(g, v.ref) && HasExtension(g, v.ref, e) && Words(e, rule, message)
    ensures Trimmed(v.key.operation, v.key.location, v.key.field, rule, message) in Declares(g, v)
  {
    var x := EntryAt(v.key, rule, message);
    assert x == Trimmed(v.key.operation, v.key.location, v.key.field, rule, message);
    if !(rule in e.messages && e.messages[rule] == message) {
      var i := RuleAt(e, rule, message);
      assert x == EntryAt(v.key, RulesOf(e)[i].name, RulesOf(e)[i].message);
    }
  }

  lemma WordsAt(e: FieldExtension, i: nat)
    requires i < |RulesOf(e)|
    ensures Words(e, RulesOf(e)[i].name, RulesOf(e)[i].message)
  {
    var first := if e.notBlank then 1 else 0;
    if i >= first {
      assert RulesOf(e)[i] == e.customRules[i - first];
    }
  }

  lemma RuleAt(e: FieldExtension, rule: string, message: string) returns (i: nat)
    requires Words(e, rule, message) && !(rule in e.messages && e.messages[rule] == message)
    ensures i < |RulesOf(e)| && RulesOf(e)[i] == NamedRule(rule, message)
  {
    if e.notBlank && rule == "notBlank" && message == Lookup(e.messages, "notBlank") {
      i := 0;
    } else {
      var n :| 0 <= n < |e.customRules| && e.customRules[n] == NamedRule(rule, message);
      i := if e.notBlank then n + 1 else n;
    }
  }

  /** An operation declares its messages for every field; the place and field of their keys are empty. */
  lemma OperationDeclares(g: Schemas, v: Site, x: Entry)
    requires v.Operation?
    ensures x in Declares(g, v) <==>
              v.extension.Present?
              && exists rule :: rule in v.extension.value
                                && x == Trimmed(v.operation, "", "", rule, v.extension.value[rule])
  {
    assert Text.TrimSpace("") == "";
    if v.extension.Present? {
      forall rule | rule in v.extension.value
        ensures OperationEntry(v.operation, rule, v.extension.value[rule])
                == Trimmed(v.operation, "", "", rule, v.extension.value[rule])
      {
      }
    }
  }

  /** The message map has more than spaces for a rule. */
  ghost predicate HasMessage(e: FieldExtension, rule: string) {
    rule in e.messages && !Text.AllSpace(e.messages[rule])
  }

  /** Every constraint of a field that the OpenAPI schema itself states has its message. */
  ghost predicate NativeMessages(s: Schema, required: bool, e: FieldExtension) {
    && (required ==> HasMessage(e, "required"))
    && (s.minLength > 0 ==> HasMessage(e, "minLength")) && (s.maxLength.Some? ==> HasMessage(e, "maxLength"))
    && (!Text.AllSpace(s.pattern) ==> HasMessage(e, "pattern"))
    && (!Text.AllSpace(s.format) ==> HasMessage(e, "format"))
    && (s.enumSize > 0 ==> HasMessage(e, "enum"))
    && (s.min.Some? ==> HasMessage(e, "minimum")) && (s.max.Some? ==> HasMessage(e, "maximum"))
  }

  lemma CoveredOne(rule: string, e: FieldExtension)
    ensures NativeCovered([rule], e.messages) <==> HasMessage(e, rule)
    ensures NativeCovered([], e.messages)
  {
    Text.BlankExactly(Lookup(e.messages, rule));
    assert [rule][0] == rule;
  }

  lemma CoveredBoth(a: seq<string>, b: seq<string>, messages: map<string, string>)
    ensures NativeCovered(a + b, messages) <==> NativeCovered(a, messages) && NativeCovered(b, messages)
  {
    assert forall i :: 0 <= i < |a| ==> (a + b)[i] == a[i];
    assert forall i :: 0 <= i < |b| ==> (a + b)[|a| + i] == b[i];
  }

  /** One more constraint. */
  lemma CoveredMore(before: seq<string>, applies: bool, rule: string, e: FieldExtension)
    ensures NativeCovered(before + if applies then [rule] else [], e.messages)
            <==> NativeCovered(before, e.messages) && (applies ==> HasMessage(e, rule))
  {
    CoveredOne(rule, e);
    CoveredBoth(before, if applies then [rule] else [], e.messages);
  }

  lemma CoveredTwo(before: seq<string>, a: bool, x: string, b: bool, y: string, e: FieldExtension)
    ensures NativeCovered(before + (if a then [x] else []) + (if b then [y] else []), e.messages) <==>
              NativeCovered(before, e.messages) && (a ==> HasMessage(e, x)) && (b ==> HasMessage(e, y))
  {
    CoveredMore(before, a, x, e);
    CoveredMore(before + if a then [x] else [], b, y, e);
  }

  lemma CoveredFour(before: seq<string>, a: bool, b: bool, c: bool, d: bool, e: FieldExtension)
    ensures NativeCovered(before + (if a then ["format"] else []) + (if b then ["enum"] else [])
                          + (if c then ["minimum"] else []) + (if d then ["maximum"] else []), e.messages) <==>
              && NativeCovered(before, e.messages) && (a ==> HasMessage(e, "format")) && (b ==> HasMessage(e, "enum"))
              && (c ==> HasMessage(e, "minimum")) && (d ==> HasMessage(e, "maximum"))
  {
    CoveredTwo(before, a, "format", b, "enum", e);
    CoveredTwo(before + (if a then ["format"] else []) + (if b then ["enum"] else []), c, "minimum", d, "maximum", e);
  }

  lemma CoveredFirst(a: bool, b: bool, c: bool, d: bool, e: FieldExtension)
    ensures NativeCovered((if a then ["required"] else []) + (if b then ["minLength"] else [])
                          + (if c then ["maxLength"] else []) + (if d then ["pattern"] else []), e.messages) <==>
              && (a ==> HasMessage(e, "required")) && (b ==> HasMessage(e, "minLength"))
              && (c ==> HasMessage(e, "maxLength")) && (d ==> HasMessage(e, "pattern"))
  {
    CoveredOne("required", e);
    CoveredMore(if a then ["required"] else [], b, "minLength", e);
    CoveredTwo((if a then ["required"] else []) + (if b then ["minLength"] else []), c, "maxLength", d, "pattern", e);
  }

  lemma NativeCoveredExactly(s: Schema, required: bool, e: FieldExtension)
    ensures NativeCovered(NativeRules(s, required), e.messages) <==> NativeMessages(s, required, e)
  {
    Text.BlankExactly(s.pattern);
    Text.BlankExactly(s.format);
    var pattern, format := Text.TrimSpace(s.pattern) != "", Text.TrimSpace(s.format) != "";
    CoveredFirst(required, s.minLength > 0, s.maxLength.Some?, pattern, e);
    CoveredFour((if required then ["required"] else []) + (if s.minLength > 0 then ["minLength"] else [])
                + (if s.maxLength.Some? then ["maxLength"] else []) + (if pattern then ["pattern"] else []),
      format, s.enumSize > 0, s.min.Some?, s.max.Some?, e);
  }

  /** A field is fine on its own exactly when its extension, if it has one in force, is well formed, the
      operation has an id, the schema is there, every native constraint has a message, and no rule name
      or message that it declares is blank. */
  lemma FieldOkExactly(g: Schemas, v: Site)
    requires v.Field? && Resolves(g, v.ref)
    ensures (forall e :: !HasExtension(g, v.ref, e)) ==>
              (SiteOk(g, v) <==>
                 v.ref.None?
                 || if v.ref.value.extension.Absent? then
                      v.ref.value.value.None? || g[v.ref.value.value.value].extension.Absent?
                    else false)
    ensures forall e :: HasExtension(g, v.ref, e) ==>
              (SiteOk(g, v) <==>
                && v.key.operation != "" && v.ref.value.value.Some?
                && NativeMessages(g[v.ref.value.value.value], v.required, e)
                && forall rule, message :: Words(e, rule, message) ==>
                     !Text.AllSpace(v.key.operation) && !Text.AllSpace(rule) && !Text.AllSpace(message))
  {
    if ExtensionOf(g, v.ref).Present? {
      var e := ExtensionOf(g, v.ref).value;
      assert HasExtension(g, v.ref, e);
      FieldNoneBlank(g, v, e);
      if v.ref.value.value.Some? {
        NativeCoveredExactly(g[v.ref.value.value.value], v.required, e);
      }
    }
  }

  lemma FieldNoneBlank(g: Schemas, v: Site, e: FieldExtension)
    requires v.Field? && Resolves(g, v.ref) && HasExtension(g, v.ref, e)
    ensures NoneBlank(Declares(g, v)) <==>
              forall rule, message :: Words(e, rule, message) ==>
                !Text.AllSpace(v.key.operation) && !Text.AllSpace(rule) && !Text.AllSpace(message)
  {
    var k := v.key;
    forall rule, message | Words(e, rule, message)
      ensures var x := Trimmed(k.operation, k.location, k.field, rule, message);
              x in Declares(g, v)
              && (Blank(x) <==> Text.AllSpace(k.operation) || Text.AllSpace(rule) || Text.AllSpace(message))
    {
      FieldDeclares(g, v, e, Trimmed(k.operation, k.location, k.field, rule, message));
      Text.BlankExactly(k.operation);
      Text.BlankExactly(rule);
      Text.BlankExactly(message);
    }
    forall x | x in Declares(g, v)
      ensures exists rule, message :: Words(e, rule, message)
                && x == Trimmed(k.operation, k.location, k.field, rule, message)
    {
      FieldDeclares(g, v, e, x);
    }
  }

  /** The site is field k, with a notBlank mark or custom rules. */
  ghost predicate RuledAt(g: Schemas, v: Site, k: FieldKey) {
    v.Field? && v.key == k && exists e :: HasExtension(g, v.ref, e) && (e.notBlank || e.customRules != [])
  }

  /** A field stores its notBlank rule first, if it is marked so, and then its custom rules. */
  lemma StoredRulesExactly(g: Schemas, v: Site, e: FieldExtension)
    requires v.Field? && Resolves(g, v.ref) && HasExtension(g, v.ref, e)
    ensures var marked := [NamedRule("notBlank", Lookup(e.messages, "notBlank"))] + e.customRules;
            StoredRules(g, v) == if e.notBlank then marked else e.customRules
  {
    assert [] + e.customRules == e.customRules;
  }

  /** What storing a field's rules does. */
  lemma StoresAsMarked(g: Schemas, rules: Rules, v: Site, e: FieldExtension)
    requires v.Field? && Resolves(g, v.ref) && HasExtension(g, v.ref, e)
    ensures var marked := [NamedRule("notBlank", Lookup(e.messages, "notBlank"))] + e.customRules;
            (if StoredRules(g, v) != [] then rules[v.key := StoredRules(g, v)] else rules)
            == if e.notBlank then rules[v.key := marked]
               else if e.customRules != [] then rules[v.key := e.customRules] else rules
  {
    StoredRulesExactly(g, v, e);
  }

  lemma StoresExactly(g: Schemas, v: Site, k: FieldKey)
    requires v.Field? ==> Resolves(g, v.ref)
    ensures StoredRules(g, v) != [] && v.key == k <==> RuledAt(g, v, k)
  {
    if v.Field? && ExtensionOf(g, v.ref).Present? {
      assert HasExtension(g, v.ref, ExtensionOf(g, v.ref).value);
    }
  }

  ghost predicate AllOk(g: Schemas, sites: iset<Site>) {
    forall v {:trigger SiteOk(g, v)} :: v in sites ==> SiteOk(g, v)
  }

  /** What compiling a set of sites from some content may do. It succeeds exactly when every site is
      fine on its own and no two declarations disagree, with each other or with the content; then
      the messages are the old ones and all declared ones, and nothing else. */
  ghost predicate Compiles(g: Schemas, before: Messages, after: Messages, sites: iset<Site>, ok: bool) {
    && (ok <==> AllOk(g, sites) && Consistent(Entries(before) + DeclaredBy(g, sites)))
    && (ok ==> Entries(after) == Entries(before) + DeclaredBy(g, sites))
  }

  lemma EntriesConsistent(messages: map<MessageKey, string>)
    ensures Consistent(Entries(messages))
  {
  }

  lemma NothingToCompile(g: Schemas, c: Messages)
    ensures Compiles(g, c, c, iset{}, true)
  {
    EntriesConsistent(c);
    assert DeclaredBy(g, iset{}) == iset{};
    assert Entries(c) + iset{} == Entries(c);
  }

  /** Compiling one set of sites and then another is compiling their union. */
  lemma CompileThen(g: Schemas, a: Messages, b: Messages, c: Messages, first: iset<Site>, second: iset<Site>, ok: bool)
    requires Compiles(g, a, b, first, true) && Compiles(g, b, c, second, ok)
    ensures Compiles(g, a, c, first + second, ok)
  {
    assert DeclaredBy(g, first + second) == DeclaredBy(g, first) + DeclaredBy(g, second);
    assert Entries(a) + DeclaredBy(g, first + second) == Entries(b) + DeclaredBy(g, second);
  }

  /** Once some sites fail, more sites fail too. */
  lemma StaysFailed(g: Schemas, a: Messages, b: Messages, some: iset<Site>, all: iset<Site>)
    requires Compiles(g, a, b, some, false) && some <= all
    ensures Compiles(g, a, b, all, false)
  {
    assert DeclaredBy(g, some) <= DeclaredBy(g, all);
    assert Entries(a) + DeclaredBy(g, some) <= Entries(a) + DeclaredBy(g, all);
  }

  /** The step of every loop below: some sites are done, some more are compiled, all is the goal. */
  lemma CompileMore(g: Schemas, a: Messages, b: Messages, c: Messages, done: iset<Site>, more: iset<Site>,
                    all: iset<Site>, ok: bool)
    requires Compiles(g, a, b, done, true) && Compiles(g, b, c, more, ok) && done <= all && more <= all
    ensures ok ==> Compiles(g, a, c, done + more, true)
    ensures !ok ==> Compiles(g, a, c, all, false)
  {
    CompileThen(g, a, b, c, done, more, ok);
    if !ok {
      StaysFailed(g, a, c, done + more, all);
    }
  }

  // Families of site sets: what a loop compiles, key by key.

  ghost function Union<K(!new)>(family: map<K, iset<Site>>, keys: set<K>): iset<Site> {
    iset v: Site | InUnion(family, keys, v)
  }

  ghost predicate InUnion<K(!new)>(family: map<K, iset<Site>>, keys: set<K>, v: Site) {
    exists k :: k in keys && k in family && v in family[k]
  }

  lemma MemberOf<K(!new)>(family: map<K, iset<Site>>, keys: set<K>, v: Site) returns (k: K)
    requires v in Union(family, keys)
    ensures k in keys && k in family && v in family[k]
  {
    k :| k in keys && k in family && v in family[k];
  }

  lemma OneMore<K(!new)>(family: map<K, iset<Site>>, done: set<K>, k: K)
    requires done <= family.Keys && k in family
    ensures Union(family, done + {k}) == Union(family, done) + family[k]
    ensures Union(family, done + {k}) <= Union(family, family.Keys)
  {
    forall v | v in Union(family, done) + family[k]
      ensures v in Union(family, done + {k})
    {
      assert v in family[k] ==> InUnion(family, done + {k}, v);
    }
  }

  lemma NoneYet<K(!new)>(g: Schemas, family: map<K, iset<Site>>, c: Messages)
    ensures Compiles(g, c, c, Union(family, {}), true)
  {
    NothingToCompile(g, c);
    assert Union(family, {}) == iset{};
  }

  /** The step of every loop below. */
  lemma CompileNext<K(!new)>(g: Schemas, family: map<K, iset<Site>>, c0: Messages, c: Messages, c': Messages,
                             done: set<K>, k: K, ok: bool)
    requires done <= family.Keys && k in family
    requires Compiles(g, c0, c, Union(family, done), true) && Compiles(g, c, c', family[k], ok)
    ensures Compiles(g, c0, c', Union(family, if ok then done + {k} else family.Keys), ok)
  {
    OneMore(family, done, k);
    CompileMore(g, c0, c, c', Union(family, done), family[k], Union(family, family.Keys), ok);
  }

  /** The same for the loops that take the least of the names to do. */
  lemma CompileLeast(g: Schemas, family: map<string, iset<Site>>, c0: Messages, c: Messages, c': Messages,
                     todo: set<string>, k: string, ok: bool)
    requires todo <= family.Keys && k in todo
    requires Compiles(g, c0, c, Union(family, family.Keys - todo), true) && Compiles(g, c, c', family[k], ok)
    ensures Compiles(g, c0, c', Union(family, if ok then family.Keys - (todo - {k}) else family.Keys), ok)
  {
    assert family.Keys - (todo - {k}) == family.Keys - todo + {k};
    CompileNext(g, family, c0, c, c', family.Keys - todo, k, ok);
  }

  // One level of a body schema: its sites are those below its allOf children and its properties.

  ghost function AllOfFamily(g: Schemas, op: string, id: SchemaId, path: seq<string>, stack: set<SchemaId>)
    : (family: map<nat, iset<Site>>)
    requires id in g
    ensures family.Keys == Below(|g[id].allOf|)
  {
    map i: nat | i < |g[id].allOf| :: Sites(g, op, g[id].allOf[i], path, stack)
  }

  ghost function PropertyFamily(g: Schemas, op: string, id: SchemaId, path: seq<string>, stack: set<SchemaId>)
    : (family: map<string, iset<Site>>)
    requires id in g
    ensures family.Keys == g[id].properties.Keys
  {
    map name | name in g[id].properties :: PropertySites(g, op, id, path, stack, name)
  }

  ghost function PropertySites(g: Schemas, op: string, id: SchemaId, path: seq<string>, stack: set<SchemaId>,
                               name: string)
    : iset<Site>
    requires id in g && name in g[id].properties
  {
    iset{PropertySite(g, op, id, path, name)} + Sites(g, op, g[id].properties[name], path + [name], stack)
  }

  ghost function AllOfSites(g: Schemas, op: string, id: SchemaId, path: seq<string>, stack: set<SchemaId>,
                            n: nat): iset<Site>
    requires id in g && n <= |g[id].allOf|
  {
    Union(AllOfFamily(g, op, id, path, stack), Below(n))
  }

  function Below(n: nat): (below: set<nat>)
    ensures forall i: nat :: i in below <==> i < n
  {
    if n == 0 then {} else Below(n - 1) + {n - 1}
  }

  lemma OneMoreAllOf(g: Schemas, op: string, id: SchemaId, path: seq<string>, stack: set<SchemaId>, i: nat)
    requires id in g && i < |g[id].allOf|
    ensures AllOfSites(g, op, id, path, stack, i + 1)
            == AllOfSites(g, op, id, path, stack, i) + Sites(g, op, g[id].allOf[i], path, stack)
    ensures AllOfSites(g, op, id, path, stack, i + 1) <= AllOfSites(g, op, id, path, stack, |g[id].allOf|)
  {
    var family := AllOfFamily(g, op, id, path, stack);
    assert Below(i + 1) == Below(i) + {i};
    OneMore(family, Below(i), i);
  }

  lemma AllOfStep(g: Schemas, op: string, id: SchemaId, path: seq<string>, stack: set<SchemaId>,
                  c0: Messages, c: Messages, c': Messages, i: nat, ok: bool)
    requires id in g && i < |g[id].allOf|
    requires Compiles(g, c0, c, AllOfSites(g, op, id, path, stack, i), true)
    requires Compiles(g, c, c', Sites(g, op, g[id].allOf[i], path, stack), ok)
    ensures Compiles(g, c0, c', AllOfSites(g, op, id, path, stack, if ok then i + 1 else |g[id].allOf|), ok)
  {
    OneMoreAllOf(g, op, id, path, stack, i);
    CompileMore(g, c0, c, c', AllOfSites(g, op, id, path, stack, i), Sites(g, op, g[id].allOf[i], path, stack),
      AllOfSites(g, op, id, path, stack, |g[id].allOf|), ok);
  }

  ghost function AllPropertySites(g: Schemas, op: string, id: SchemaId, path: seq<string>, stack: set<SchemaId>)
    : iset<Site>
    requires id in g
  {
    Union(PropertyFamily(g, op, id, path, stack), g[id].properties.Keys)
  }

  lemma SitesOneLevel(g: Schemas, op: string, ref: Option<SchemaRef>, path: seq<string>, stack: set<SchemaId>)
    requires Resolves(g, ref) && ref.Some? && ref.value.value.Some? && ref.value.value.value !in stack
    ensures var id := ref.value.value.value;
            Sites(g, op, ref, path, stack) ==
              AllOfSites(g, op, id, path, stack + {id}, |g[id].allOf|)
              + AllPropertySites(g, op, id, path, stack + {id})
  {
    var id := ref.value.value.value;
    var below := stack + {id};
    forall v | v in Sites(g, op, ref, path, stack)
      ensures v in AllOfSites(g, op, id, path, below, |g[id].allOf|) + AllPropertySites(g, op, id, path, below)
    {
      var walk :| EndOf(g, op, ref, path, stack, walk) == Some(v);
      match walk[0]
      case AllOf(i) =>
        assert EndOf(g, op, g[id].allOf[i], path, below, walk[1..]) == Some(v);
        assert v in AllOfFamily(g, op, id, path, below)[i] && i in Below(|g[id].allOf|);
      case Prop(name) =>
        if |walk| > 1 {
          assert EndOf(g, op, g[id].properties[name], path + [name], below, walk[1..]) == Some(v);
          assert v in Sites(g, op, g[id].properties[name], path + [name], below);
        }
        assert v in PropertyFamily(g, op, id, path, below)[name];
    }
    forall v | v in AllOfSites(g, op, id, path, below, |g[id].allOf|)
      ensures v in Sites(g, op, ref, path, stack)
    {
      var i := MemberOf(AllOfFamily(g, op, id, path, below), Below(|g[id].allOf|), v);
      var walk :| EndOf(g, op, g[id].allOf[i], path, below, walk) == Some(v);
      ExtendWalk(AllOf(i), walk);
      assert EndOf(g, op, ref, path, stack, [AllOf(i)] + walk) == Some(v);
    }
    forall v | v in AllPropertySites(g, op, id, path, below)
      ensures v in Sites(g, op, ref, path, stack)
    {
      var name := MemberOf(PropertyFamily(g, op, id, path, below), g[id].properties.Keys, v);
      if v == PropertySite(g, op, id, path, name) {
        assert EndOf(g, op, ref, path, stack, [Prop(name)]) == Some(v);
      } else {
        var walk :| EndOf(g, op, g[id].properties[name], path + [name], below, walk) == Some(v);
        ExtendWalk(Prop(name), walk);
        assert EndOf(g, op, ref, path, stack, [Prop(name)] + walk) == Some(v);
      }
    }
  }

  lemma ExtendWalk(e: Edge, walk: seq<Edge>)
    ensures ([e] + walk)[1..] == walk && ([e] + walk)[0] == e
  {
  }

  lemma NoSitesOnStack(g: Schemas, op: string, ref: Option<SchemaRef>, path: seq<string>, stack: set<SchemaId>)
    requires ref.None? || ref.value.value.None? || ref.value.value.value in stack
    ensures Sites(g, op, ref, path, stack) == iset{}
  {
  }

  // The sites of parameters, bodies and operations.

  predicate ParameterResolves(g: Schemas, p: Parameter) {
    Resolves(g, p.schema) && forall m :: m in p.content ==> Resolves(g, p.content[m])
  }

  ghost predicate OperationResolves(g: Schemas, o: OperationDoc) {
    && (forall i :: 0 <= i < |o.pathParameters| && o.pathParameters[i].Some? ==>
      ParameterResolves(g, o.pathParameters[i].value))
    && (forall i :: 0 <= i < |o.parameters| && o.parameters[i].Some? ==> ParameterResolves(g, o.parameters[i].value))
    && (forall m :: m in o.body ==> Resolves(g, o.body[m]))
  }

  /** Unknown places count as query parameters. */
  function ParameterLocation(location: string): string {
    if location == "path" || location == "header" || location == "cookie" then location else "query"
  }

  function ParameterSite(op: string, p: Parameter, schema: Option<SchemaRef>): Site {
    Field(FieldKey(op, ParameterLocation(p.location), p.name), schema, p.required)
  }

  ghost function SchemaSites(op: string, p: Parameter, schema: Option<SchemaRef>): iset<Site> {
    if schema.Some? then iset{ParameterSite(op, p, schema)} else iset{}
  }

  ghost function ContentFamily(op: string, p: Parameter): (family: map<string, iset<Site>>)
    ensures family.Keys == p.content.Keys
  {
    map m | m in p.content :: SchemaSites(op, p, p.content[m])
  }

  ghost function ParameterSites(op: string, p: Parameter): iset<Site> {
    SchemaSites(op, p, p.schema) + Union(ContentFamily(op, p), p.content.Keys)
  }

  /** A parameter declares one field for its schema and for each schema of its media types, at its place, at
      the query if that is unknown, under its name, and required if it is. */
  lemma ParameterDeclares(op: string, p: Parameter, v: Site)
    ensures v in ParameterSites(op, p) <==>
              && v.Field? && v.ref.Some? && (v.ref == p.schema || exists m :: m in p.content && v.ref == p.content[m])
              && v.key.operation == op && v.key.field == p.name && (v.required <==> p.required)
              && v.key.location == if p.location in ["path", "header", "cookie"] then p.location else "query"
  {
    assert ["path", "header", "cookie"][0] == "path" && ["path", "header", "cookie"][1] == "header"
           && ["path", "header", "cookie"][2] == "cookie";
    if v.Field? && v == ParameterSite(op, p, v.ref) && v.ref.Some? {
      if m :| m in p.content && v.ref == p.content[m] {
        assert v in ContentFamily(op, p)[m];
      }
    }
    if v in Union(ContentFamily(op, p), p.content.Keys) {
      var m := MemberOf(ContentFamily(op, p), p.content.Keys, v);
      assert v.ref == p.content[m];
    }
  }

  function ParameterKey(p: Parameter): string { p.location + "\0" + p.name }

  /** A later parameter with the same place and name replaces an earlier one. */
  function Effective(ps: seq<Option<Parameter>>): map<string, Parameter> {
    if ps == [] then map[]
    else
      var before := Effective(ps[..|ps| - 1]);
      if Last(ps).None? then before else before[ParameterKey(Last(ps).value) := Last(ps).value]
  }

  /** Of the parameters with one place and name, places being free of the null character, the last is in
      force. */
  lemma {:induction false} EffectiveIsLast(ps: seq<Option<Parameter>>, p: Parameter)
    requires forall q :: Some(q) in ps + [Some(p)] ==> '\0' !in q.location
    ensures ParameterKey(p) in Effective(ps) && Effective(ps)[ParameterKey(p)] == p <==>
              exists i :: 0 <= i < |ps| && ps[i] == Some(p)
                          && forall j :: i < j < |ps| && ps[j].Some? ==>
                               ps[j].value.location != p.location || ps[j].value.name != p.name
    decreases |ps|
  {
    if ps != [] {
      var init, last := ps[..|ps| - 1], Last(ps);
      assert ps == init + [last] && forall n :: 0 <= n < |init| ==> init[n] == ps[n];
      assert forall q :: Some(q) in init + [Some(p)] ==> Some(q) in ps + [Some(p)];
      EffectiveIsLast(init, p);
      if last.Some? {
        assert last in ps + [Some(p)] && Some(p) in ps + [Some(p)];
        SameKey(last.value, p);
      }
      assert ps[|ps| - 1] == last;
    }
  }

  /** With null characters in the places two different parameters can clash. */
  lemma NullPlacesClash(a: Parameter, b: Parameter)
    requires a.location == "a\0b" && a.name == "c" && b.location == "a" && b.name == "b\0c"
    ensures ParameterKey(a) == ParameterKey(b) && a.location != b.location && a.name != b.name
  {
    assert "a\0b" + "\0" + "c" == "a\0b\0c" == "a" + "\0" + "b\0c";
    assert |a.location| != |b.location| && |a.name| != |b.name|;
  }

  lemma SameKey(a: Parameter, b: Parameter)
    requires '\0' !in a.location && '\0' !in b.location
    ensures ParameterKey(a) == ParameterKey(b) <==> a.location == b.location && a.name == b.name
  {
    Text.SplitHead(a.location, a.name, '\0');
    Text.SplitHead(b.location, b.name, '\0');
    assert ParameterKey(a) == a.location + ['\0'] + a.name && ParameterKey(b) == b.location + ['\0'] + b.name;
    if ParameterKey(a) == ParameterKey(b) {
      assert a.location == Text.Split(ParameterKey(a), '\0')[0] == b.location;
      assert a.name == ParameterKey(a)[|a.location| + 1..] == b.name;
    }
  }

  lemma EffectiveNext(ps: seq<Option<Parameter>>, i: nat)
    requires i < |ps|
    ensures Effective(ps[..i + 1]) ==
              if ps[i].None? then Effective(ps[..i]) else Effective(ps[..i])[ParameterKey(ps[i].value) := ps[i].value]
  {
    assert ps[..i + 1][..i] == ps[..i];
  }

  lemma {:induction false} EffectiveComesFrom(ps: seq<Option<Parameter>>)
    ensures forall k :: k in Effective(ps) ==> Some(Effective(ps)[k]) in ps
  {
    if ps != [] {
      EffectiveComesFrom(ps[..|ps| - 1]);
      assert Last(ps) in ps;
    }
  }

  ghost function ParameterFamily(op: string, effective: map<string, Parameter>): (family: map<string, iset<Site>>)
    ensures family.Keys == effective.Keys
  {
    map k | k in effective :: ParameterSites(op, effective[k])
  }

  ghost function ParametersSites(op: string, effective: map<string, Parameter>): iset<Site> {
    Union(ParameterFamily(op, effective), effective.Keys)
  }

  ghost function MediaFamily(g: Schemas, op: string, body: map<string, Option<SchemaRef>>)
    : (family: map<string, iset<Site>>)
    ensures family.Keys == body.Keys
  {
    map m | m in body :: Sites(g, op, body[m], [], {})
  }

  ghost function BodySites(g: Schemas, op: string, body: map<string, Option<SchemaRef>>): iset<Site> {
    Union(MediaFamily(g, op, body), body.Keys)
  }

  function OwnSite(o: OperationDoc): Site {
    Operation(Text.TrimSpace(o.id),
              match o.extension
              case Absent => Absent
              case Malformed => Malformed
              case Present(e) => Present(e.messages))
  }

  /** An operation's own messages are declared under its trimmed id. */
  lemma OwnDeclares(g: Schemas, o: OperationDoc, x: Entry)
    ensures x in Declares(g, OwnSite(o)) <==>
              o.extension.Present?
              && exists rule :: rule in o.extension.value.messages
                                && x == Trimmed(o.id, "", "", rule, o.extension.value.messages[rule])
    ensures SiteChecks(g, OwnSite(o)) <==>
              !o.extension.Malformed? && (o.extension.Present? ==> !Text.AllSpace(o.id))
  {
    Text.BlankExactly(o.id);
    OperationDeclares(g, OwnSite(o), x);
    Text.TrimIdempotent(o.id);
    if o.extension.Present? {
      assert forall rule :: rule in o.extension.value.messages ==>
               Trimmed(o.id, "", "", rule, o.extension.value.messages[rule])
               == Trimmed(OwnSite(o).operation, "", "", rule, OwnSite(o).extension.value[rule]);
    }
  }

  ghost function FieldSites(g: Schemas, op: string, o: OperationDoc): iset<Site> {
    ParametersSites(op, Effective(o.pathParameters + o.parameters)) + BodySites(g, op, o.body)
  }

  ghost function OperationSites(g: Schemas, o: OperationDoc): iset<Site> {
    iset{OwnSite(o)} + FieldSites(g, Text.TrimSpace(o.id), o)
  }

  ghost function CatalogSites(g: Schemas, ops: seq<Option<OperationDoc>>): iset<Site> {
    iset v: Site | InCatalog(g, ops, v)
  }

  ghost predicate InCatalog(g: Schemas, ops: seq<Option<OperationDoc>>, v: Site) {
    exists o :: o in ops && InOperation(g, o, v)
  }

  ghost function SitesOf(g: Schemas, o: Option<OperationDoc>): iset<Site> {
    iset v: Site | InOperation(g, o, v)
  }

  ghost predicate InOperation(g: Schemas, o: Option<OperationDoc>, v: Site) {
    o.Some? && v in OperationSites(g, o.value)
  }

  function WithCrossFields(before: map<string, seq<CrossFieldRule>>, o: OperationDoc)
    : map<string, seq<CrossFieldRule>>
  {
    if o.extension.Present? && |o.extension.value.crossFields| > 0
    then before[Text.TrimSpace(o.id) := o.extension.value.crossFields] else before
  }

  function AllCrossFields(before: map<string, seq<CrossFieldRule>>, ops: seq<Option<OperationDoc>>)
    : map<string, seq<CrossFieldRule>>
  {
    if ops == [] then before
    else
      var rest := AllCrossFields(before, ops[..|ops| - 1]);
      if Last(ops).None? then rest else WithCrossFields(rest, Last(ops).value)
  }

  /** The operation has cross-field rules and goes by the given id. */
  predicate CrossesAs(o: Option<OperationDoc>, id: string) {
    o.Some? && o.value.extension.Present? && |o.value.extension.value.crossFields| > 0
    && Text.TrimSpace(o.value.id) == id
  }

  /** The cross-field rules of an operation id are those of the last operation with that id that has any. */
  lemma {:induction false} LastOperationDecides(before: map<string, seq<CrossFieldRule>>,
                                                ops: seq<Option<OperationDoc>>, i: nat, id: string)
    requires i < |ops| && CrossesAs(ops[i], id) && forall j :: i < j < |ops| ==> !CrossesAs(ops[j], id)
    ensures var rules := AllCrossFields(before, ops);
            id in rules && rules[id] == ops[i].value.extension.value.crossFields
    decreases |ops|
  {
    var n := |ops| - 1;
    if i < n {
      LastOperationDecides(before, ops[..n], i, id);
      assert !CrossesAs(ops[n], id);
    }
  }

  /** And if there is none, those that were there before, if any. */
  lemma {:induction false} NoOperationDecides(before: map<string, seq<CrossFieldRule>>,
                                              ops: seq<Option<OperationDoc>>, id: string)
    requires forall i :: 0 <= i < |ops| ==> !CrossesAs(ops[i], id)
    ensures var rules := AllCrossFields(before, ops);
            (id in rules <==> id in before) && (id in before ==> rules[id] == before[id])
    decreases |ops|
  {
    if ops != [] {
      var n := |ops| - 1;
      NoOperationDecides(before, ops[..n], id);
      assert !CrossesAs(ops[n], id);
    }
  }

  lemma OneMoreOperation(g: Schemas, ops: seq<Option<OperationDoc>>, i: nat)
    requires i < |ops|
    ensures CatalogSites(g, ops[..i + 1]) == CatalogSites(g, ops[..i]) + SitesOf(g, ops[i])
    ensures SitesOf(g, ops[i]) <= CatalogSites(g, ops)
    ensures CatalogSites(g, ops[..i]) <= CatalogSites(g, ops)
  {
    PrefixMembers(ops, i);
  }

  lemma PrefixMembers(ops: seq<Option<OperationDoc>>, i: nat)
    requires i < |ops|
    ensures forall o :: o in ops[..i + 1] <==> o in ops[..i] || o == ops[i]
    ensures forall o :: o in ops[..i + 1] ==> o in ops
  {
    assert ops[..i + 1] == ops[..i] + [ops[i]];
  }

  lemma NothingDeclared(g: Schemas, c: Messages, v: Site)
    requires v.Operation? && v.extension.Absent?
    ensures Compiles(g, c, c, iset{v}, true)
  {
    EntriesConsistent(c);
    assert Entries(c) + iset{} == Entries(c);
    SiteCompiles(g, c, c, v, true);
  }

  lemma OperationEntries(g: Schemas, v: Site, names: seq<string>, todo: seq<(MessageKey, string)>)
    requires v.Operation? && v.extension.Present?
    requires (forall x :: x in names <==> x in v.extension.value)
    requires todo == seq(|names|,
               i requires 0 <= i < |names| => (MessageKey(v.operation, "", "", names[i]),
                 Lookup(v.extension.value, names[i])))
    ensures Declares(g, v) == EntriesOf(todo)
  {
    var declared := v.extension.value;
    forall x | x in Declares(g, v)
      ensures x in EntriesOf(todo)
    {
      var rule :| rule in declared && x == OperationEntry(v.operation, rule, declared[rule]);
      var i :| 0 <= i < |names| && names[i] == rule;
      assert todo[i] in todo && EntryOf(todo[i]) == x;
    }
    forall x | x in EntriesOf(todo)
      ensures x in Declares(g, v)
    {
      var i :| 0 <= i < |todo| && EntryOf(todo[i]) == x;
      assert names[i] in declared && x == OperationEntry(v.operation, names[i], declared[names[i]]);
    }
  }

  /** A field with an extension, on a schema that is there. */
  predicate Annotated(g: Schemas, v: Site) {
    v.Field? && Resolves(g, v.ref) && ExtensionOf(g, v.ref).Present? && v.ref.Some? && v.ref.value.value.Some?
  }

  lemma SmallerRest(all: set<SchemaId>, on: set<SchemaId>, id: SchemaId)
    requires id in all && id !in on
    ensures |all - (on + {id})| < |all - on|
  {
    assert all - on == (all - (on + {id})) + {id};
  }

  ghost predicate AddsEntries(before: map<MessageKey, string>, after: map<MessageKey, string>, entries: iset<Entry>,
                              ok: bool) {
    && (ok <==> NoneBlank(entries) && Consistent(Entries(before) + entries))
    && (ok ==> Entries(after) == Entries(before) + entries)
  }

  lemma SiteCompiles(g: Schemas, c0: Messages, c1: Messages, v: Site, ok: bool)
    requires SiteChecks(g, v) && (v.Field? && ExtensionOf(g, v.ref).Absent? ==> c1 == c0 && ok)
    requires !(v.Field? && ExtensionOf(g, v.ref).Absent?) ==> AddsEntries(c0, c1, Declares(g, v), ok)
    ensures Compiles(g, c0, c1, iset{v}, ok)
  {
    assert DeclaredBy(g, iset{v}) == Declares(g, v);
    assert SiteOk(g, v) <==> NoneBlank(Declares(g, v));
    if v.Field? && ExtensionOf(g, v.ref).Absent? {
      assert Entries(c0) + iset{} == Entries(c0);
      EntriesConsistent(c0);
    }
    assert v in iset{v};
  }

  lemma SiteFails(g: Schemas, c0: Messages, v: Site)
    requires !SiteChecks(g, v)
    ensures Compiles(g, c0, c0, iset{v}, false)
  {
    assert v in iset{v} && !SiteOk(g, v);
  }

  /** What a field declares is its message map, in any order, and then its custom rules. */
  lemma FieldEntries(g: Schemas, v: Site, names: seq<string>, first: seq<(MessageKey, string)>,
                     second: seq<(MessageKey, string)>)
    requires v.Field? && Resolves(g, v.ref) && ExtensionOf(g, v.ref).Present?
    requires var e := ExtensionOf(g, v.ref).value;
             && (forall x :: x in names <==> x in e.messages)
             && first == seq(|names|,
               i requires 0 <= i < |names| => (RuleKey(v.key, names[i]), Lookup(e.messages, names[i])))
             && second == seq(|RulesOf(e)|,
               i requires 0 <= i < |RulesOf(e)| => (RuleKey(v.key, RulesOf(e)[i].name), RulesOf(e)[i].message))
    ensures Declares(g, v) == EntriesOf(first) + EntriesOf(second)
  {
    var e := ExtensionOf(g, v.ref).value;
    MessageEntries(v.key, e.messages, names, first);
    RuleEntries(v.key, RulesOf(e), second);
  }

  lemma MessageEntries(key: FieldKey, messages: map<string, string>, names: seq<string>,
                       todo: seq<(MessageKey, string)>)
    requires forall x :: x in names <==> x in messages
    requires todo == seq(|names|, i requires 0 <= i < |names| => (RuleKey(key, names[i]), Lookup(messages, names[i])))
    ensures EntriesOf(todo) == iset rule | rule in messages :: EntryAt(key, rule, messages[rule])
  {
    forall rule | rule in messages
      ensures EntryAt(key, rule, messages[rule]) in EntriesOf(todo)
    {
      var i :| 0 <= i < |names| && names[i] == rule;
      assert todo[i] in todo && EntryOf(todo[i]) == EntryAt(key, rule, messages[rule]);
    }
    forall x | x in EntriesOf(todo)
      ensures exists rule :: rule in messages && x == EntryAt(key, rule, messages[rule])
    {
      var i :| 0 <= i < |todo| && EntryOf(todo[i]) == x;
      assert names[i] in messages && x == EntryAt(key, names[i], messages[names[i]]);
    }
  }

  lemma RuleEntries(key: FieldKey, rules: seq<NamedRule>, todo: seq<(MessageKey, string)>)
    requires todo == seq(|rules|, i requires 0 <= i < |rules| => (RuleKey(key, rules[i].name), rules[i].message))
    ensures EntriesOf(todo) == iset i | 0 <= i < |rules| :: EntryAt(key, rules[i].name, rules[i].message)
  {
    forall i | 0 <= i < |rules|
      ensures EntryAt(key, rules[i].name, rules[i].message) in EntriesOf(todo)
    {
      assert todo[i] in todo && EntryOf(todo[i]) == EntryAt(key, rules[i].name, rules[i].message);
    }
    forall x | x in EntriesOf(todo)
      ensures exists i :: 0 <= i < |rules| && x == EntryAt(key, rules[i].name, rules[i].message)
    {
      var i :| 0 <= i < |todo| && EntryOf(todo[i]) == x;
      assert x == EntryAt(key, rules[i].name, rules[i].message);
    }
  }

  lemma AddsBoth(m0: map<MessageKey, string>, m1: map<MessageKey, string>, m2: map<MessageKey, string>,
                 first: seq<(MessageKey, string)>, second: seq<(MessageKey, string)>, ok: bool)
    requires AddsEntries(m0, m1, EntriesOf(first), true) && AddsEntries(m1, m2, EntriesOf(second), ok)
    ensures AddsEntries(m0, m2, EntriesOf(first) + EntriesOf(second), ok)
  {
    assert Entries(m1) + EntriesOf(second) == Entries(m0) + (EntriesOf(first) + EntriesOf(second));
  }

  lemma AddsFirstFails(m0: map<MessageKey, string>, m1: map<MessageKey, string>,
                       first: seq<(MessageKey, string)>, second: seq<(MessageKey, string)>)
    requires AddsEntries(m0, m1, EntriesOf(first), false)
    ensures AddsEntries(m0, m1, EntriesOf(first) + EntriesOf(second), false)
  {
    assert Entries(m0) + EntriesOf(first) <= Entries(m0) + (EntriesOf(first) + EntriesOf(second));
  }

  predicate Refused(m: map<MessageKey, string>, e: Entry) {
    Blank(e) || (e.key in m && m[e.key] != e.message)
  }

  ghost function EntriesOf(todo: seq<(MessageKey, string)>): iset<Entry> {
    iset p | p in todo :: EntryOf(p)
  }

  ghost predicate Added(m0: map<MessageKey, string>, m: map<MessageKey, string>, todo: seq<(MessageKey, string)>,
                        i: nat) {
    && i <= |todo|
    && NoneBlank(EntriesOf(todo[..i])) && Entries(m) == Entries(m0) + EntriesOf(todo[..i])
  }

  lemma AddOne(m0: map<MessageKey, string>, m: map<MessageKey, string>, todo: seq<(MessageKey, string)>, i: nat)
    requires i < |todo| && Added(m0, m, todo, i) && !Refused(m, EntryOf(todo[i]))
    ensures Added(m0, m[TrimKey(todo[i].0) := todo[i].1], todo, i + 1)
  {
    var e := EntryOf(todo[i]);
    OneMoreEntry(todo, i);
    AddedEntry(m, e.key, e.message);
  }

  lemma AddFails(m0: map<MessageKey, string>, m: map<MessageKey, string>, todo: seq<(MessageKey, string)>, i: nat)
    requires i < |todo| && Added(m0, m, todo, i) && Refused(m, EntryOf(todo[i]))
    ensures !NoneBlank(EntriesOf(todo)) || !Consistent(Entries(m0) + EntriesOf(todo))
  {
    var e := EntryOf(todo[i]);
    assert todo[i] in todo && e in EntriesOf(todo);
    if !Blank(e) {
      var clash := Entry(e.key, m[e.key]);
      assert !Agree(e, clash);
      assert clash in Entries(m);
      assert EntriesOf(todo[..i]) <= EntriesOf(todo);
    }
  }

  lemma OneMoreEntry(todo: seq<(MessageKey, string)>, i: nat)
    requires i < |todo|
    ensures EntriesOf(todo[..i + 1]) == EntriesOf(todo[..i]) + iset{EntryOf(todo[i])}
  {
    assert todo[..i + 1] == todo[..i] + [todo[i]];
    assert forall p :: p in todo[..i + 1] <==> p in todo[..i] || p == todo[i];
  }

  lemma AddedEntry(m: map<MessageKey, string>, key: MessageKey, message: string)
    requires key in m ==> m[key] == message
    ensures Entries(m[key := message]) == Entries(m) + iset{Entry(key, message)}
  {
    var m' := m[key := message];
    forall x | x in Entries(m) + iset{Entry(key, message)}
      ensures x in Entries(m')
    {
      assert x.key in m' && x == Entry(x.key, m'[x.key]);
    }
    forall x | x in Entries(m')
      ensures x in Entries(m) + iset{Entry(key, message)}
    {
      assert x.key != key ==> x.key in m && x == Entry(x.key, m[x.key]);
    }
  }
}
