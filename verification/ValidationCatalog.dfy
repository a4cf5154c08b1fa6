/** Compiling the validation catalog: the walk over possibly cyclic schemas with a stack of its own, and
    the message map that refuses conflicting declarations. */
module ValidationCatalog {
  import opened Common
  import Text
  import opened ValidationDocument
  import opened CatalogOrder

  class Stack {
    var on: set<SchemaId>

    constructor ()
      ensures on == {}
    {
      on := {};
    }
  }

  class Catalog {
    var messages: Messages
    var fieldRules: Rules
    var crossFieldRules: map<string, seq<CrossFieldRule>>

    constructor ()
      ensures messages == map[] && fieldRules == map[] && crossFieldRules == map[]
    {
      messages, fieldRules, crossFieldRules := map[], map[], map[];
    }

    /** A stored message never changes; a blank or conflicting one is refused and nothing is stored. */
    method AddMessage(key: MessageKey, message: string) returns (ok: bool)
      modifies this`messages
      ensures var e := Entry(TrimKey(key), message);
              ok <==> !Blank(e) && (e.key in old(messages) ==> old(messages)[e.key] == message)
      ensures messages == if ok then old(messages)[TrimKey(key) := message] else old(messages)
    {
      var k := TrimKey(key);
      if k.operation == "" || k.rule == "" || Text.TrimSpace(message) == "" {
        return false;
      }
      if k in messages && messages[k] != message {
        return false;
      }
      messages := messages[k := message];
      ok := true;
    }

    /** Adds entries one by one, in the order given. */
    method AddAll(todo: seq<(MessageKey, string)>) returns (ok: bool)
      modifies this`messages
      ensures AddsEntries(old(messages), messages, EntriesOf(todo), ok)
    {
      ghost var m0 := messages;
      assert EntriesOf(todo[..0]) == iset{};
      for i := 0 to |todo|
        invariant Added(m0, messages, todo, i)
      {
        ghost var m := messages;
        ok := AddMessage(todo[i].0, todo[i].1);
        if !ok {
          AddFails(m0, m, todo, i);
          return;
        }
        AddOne(m0, m, todo, i);
      }
      assert todo[..|todo|] == todo;
      EntriesConsistent(messages);
      ok := true;
    }

    /** One field: its native rules must all have messages, then its messages and its custom rules
        go in. */
    method CompileField(g: Schemas, v: Site) returns (ok: bool)
      requires v.Field? && Resolves(g, v.ref)
      modifies this`messages, this`fieldRules
      ensures Compiles(g, old(messages), messages, iset{v}, ok)
      ensures ok ==> fieldRules == StoreOne(g, old(fieldRules), v)
      ensures ok ==>
                forall e :: HasExtension(g, v.ref, e) ==>
                  var marked := [NamedRule("notBlank", Lookup(e.messages, "notBlank"))] + e.customRules;
                  fieldRules == if e.notBlank then old(fieldRules)[v.key := marked]
                                else if e.customRules != [] then old(fieldRules)[v.key := e.customRules]
                                else old(fieldRules)
    {
      ghost var c0, rules := messages, fieldRules;
      forall e | HasExtension(g, v.ref, e)
        ensures var marked := [NamedRule("notBlank", Lookup(e.messages, "notBlank"))] + e.customRules;
                StoreOne(g, rules, v) == if e.notBlank then rules[v.key := marked]
                                         else if e.customRules != [] then rules[v.key := e.customRules] else rules
      {
        StoresAsMarked(g, rules, v, e);
      }
      ok := CheckField(g, v);
      if !ok {
        SiteFails(g, c0, v);
        return;
      }
      if ExtensionOf(g, v.ref).Present? {
        ok := AddDeclared(g, v);
      }
      SiteCompiles(g, c0, messages, v, ok);
    }

    method AddDeclared(g: Schemas, v: Site) returns (ok: bool)
      requires v.Field? && Resolves(g, v.ref) && ExtensionOf(g, v.ref).Present?
      modifies this`messages, this`fieldRules
      ensures AddsEntries(old(messages), messages, Declares(g, v), ok)
      ensures ok ==> fieldRules == StoreOne(g, old(fieldRules), v)
    {
      var e := ExtensionOf(g, v.ref).value;
      var names := SomeOrder(e.messages.Keys);
      var first := seq(|names|,
        i requires 0 <= i < |names| => (RuleKey(v.key, names[i]), Lookup(e.messages, names[i])));
      var rules := RulesOf(e);
      var second := seq(|rules|, i requires 0 <= i < |rules| => (RuleKey(v.key, rules[i].name), rules[i].message));
      FieldEntries(g, v, names, first, second);
      ghost var m0 := messages;
      ok := AddAll(first);
      if !ok {
        AddsFirstFails(m0, messages, first, second);
        return;
      }
      ghost var m1 := messages;
      if |rules| > 0 {
        fieldRules := fieldRules[v.key := rules];
      }
      ok := AddAll(second);
      AddsBoth(m0, m1, messages, first, second, ok);
    }

    /** Compiles every site below ref that a repeat-free walk reaches, and leaves the stack as it
        found it on every return. */
    method CompileBodySchema(g: Schemas, op: string, ref: Option<SchemaRef>, path: seq<string>, stack: Stack)
      returns (ok: bool)
      requires WellFormed(g) && Resolves(g, ref) && stack.on <= g.Keys
      modifies this`messages, this`fieldRules, stack
      ensures stack.on == old(stack.on)
      ensures Compiles(g, old(messages), messages, Sites(g, op, ref, path, old(stack.on)), ok)
      ensures ok ==> fieldRules == Store(g, old(fieldRules), BodyVisits(g, op, ref, path, old(stack.on)))
      decreases |g.Keys - stack.on|, 1
    {
      if ref.None? || ref.value.value.None? || ref.value.value.value in stack.on {
        NoSitesOnStack(g, op, ref, path, stack.on);
        NothingToCompile(g, messages);
        return true;
      }
      var id := ref.value.value.value;
      ghost var before, c0 := stack.on, messages;
      SitesOneLevel(g, op, ref, path, before);
      stack.on := stack.on + {id};
      SmallerRest(g.Keys, before, id);
      ok := CompileAllOf(g, op, id, path, stack);
      if ok {
        ghost var c1 := messages;
        ok := CompileProperties(g, op, id, path, stack);
        CompileThen(g, c0, c1, messages, AllOfSites(g, op, id, path, stack.on, |g[id].allOf|),
                    AllPropertySites(g, op, id, path, stack.on), ok);
        StoreThen(g, old(fieldRules), AllOfVisits(g, op, id, path, stack.on, |g[id].allOf|),
                  PropertyVisits(g, op, id, path, stack.on, g[id].properties.Keys));
      } else {
        StaysFailed(g, c0, messages, AllOfSites(g, op, id, path, stack.on, |g[id].allOf|),
          Sites(g, op, ref, path, before));
      }
      stack.on := stack.on - {id};
    }

    method CompileAllOf(g: Schemas, op: string, id: SchemaId, path: seq<string>, stack: Stack) returns (ok: bool)
      requires WellFormed(g) && id in g && stack.on <= g.Keys
      modifies this`messages, this`fieldRules, stack
      ensures stack.on == old(stack.on)
      ensures Compiles(g, old(messages), messages, AllOfSites(g, op, id, path, stack.on, |g[id].allOf|), ok)
      ensures ok ==> fieldRules == Store(g, old(fieldRules), AllOfVisits(g, op, id, path, stack.on, |g[id].allOf|))
      decreases |g.Keys - stack.on|, 3
    {
      ghost var on, c0, rules := stack.on, messages, fieldRules;
      NoneYet(g, AllOfFamily(g, op, id, path, on), c0);
      var i: nat := 0;
      ok := true;
      while ok && i < |g[id].allOf|
        invariant stack.on == on && i <= |g[id].allOf|
        invariant Compiles(g, c0, messages, AllOfSites(g, op, id, path, on, if ok then i else |g[id].allOf|), ok)
        invariant ok ==> fieldRules == Store(g, rules, AllOfVisits(g, op, id, path, on, i))
      {
        ok := CompileChild(g, op, id, path, i, stack, c0, rules);
        i := i + 1;
      }
      if ok {
        assert i == |g[id].allOf|;
      }
    }

    /** One more allOf child, when the first i of them have led here from messages c0 and from `rules`. */
    method CompileChild(g: Schemas, op: string, id: SchemaId, path: seq<string>, i: nat, stack: Stack,
                        ghost c0: Messages, ghost rules: Rules)
      returns (ok: bool)
      requires WellFormed(g) && id in g && stack.on <= g.Keys && i < |g[id].allOf|
      requires Compiles(g, c0, messages, AllOfSites(g, op, id, path, stack.on, i), true)
      requires fieldRules == Store(g, rules, AllOfVisits(g, op, id, path, stack.on, i))
      modifies this`messages, this`fieldRules, stack
      ensures stack.on == old(stack.on)
      ensures Compiles(g, c0, messages, AllOfSites(g, op, id, path, stack.on, if ok then i + 1 else |g[id].allOf|), ok)
      ensures ok ==> fieldRules == Store(g, rules, AllOfVisits(g, op, id, path, stack.on, i + 1))
      decreases |g.Keys - stack.on|, 2
    {
      ghost var on, c := stack.on, messages;
      ok := CompileBodySchema(g, op, g[id].allOf[i], path, stack);
      AllOfNext(g, rules, op, id, path, on, i);
      AllOfStep(g, op, id, path, on, c0, c, messages, i, ok);
    }

    method CompileProperties(g: Schemas, op: string, id: SchemaId, path: seq<string>, stack: Stack) returns (ok: bool)
      requires WellFormed(g) && id in g && stack.on <= g.Keys
      modifies this`messages, this`fieldRules, stack
      ensures stack.on == old(stack.on)
      ensures Compiles(g, old(messages), messages, AllPropertySites(g, op, id, path, stack.on), ok)
      ensures ok ==>
                fieldRules == Store(g, old(fieldRules),
                  PropertyVisits(g, op, id, path, stack.on, g[id].properties.Keys))
      decreases |g.Keys - stack.on|, 3
    {
      ghost var on, c0, rules := stack.on, messages, fieldRules;
      ghost var all, family := g[id].properties.Keys, PropertyFamily(g, op, id, path, on);
      NoneYet(g, family, c0);
      var todo := g[id].properties.Keys;
      assert family.Keys - todo == {};
      ok := true;
      while ok && todo != {}
        invariant stack.on == on && todo <= all
        invariant Compiles(g, c0, messages, Union(family, if ok then family.Keys - todo else family.Keys), ok)
        invariant ok ==> Store(g, fieldRules, PropertyVisits(g, op, id, path, on, todo))
                         == Store(g, rules, PropertyVisits(g, op, id, path, on, all))
        decreases |todo|
      {
        var name := Least(todo);
        ghost var c := messages;
        PropertyNext(g, fieldRules, op, id, path, on, todo);
        ok := CompileProperty(g, op, id, path, name, stack);
        CompileLeast(g, family, c0, c, messages, todo, name, ok);
        todo := todo - {name};
      }
      if ok {
        assert family.Keys - todo == family.Keys;
      }
    }

    method CompileProperty(g: Schemas, op: string, id: SchemaId, path: seq<string>, name: string, stack: Stack)
      returns (ok: bool)
      requires WellFormed(g) && id in g && stack.on <= g.Keys && name in g[id].properties
      modifies this`messages, this`fieldRules, stack
      ensures stack.on == old(stack.on)
      ensures Compiles(g, old(messages), messages, PropertySites(g, op, id, path, stack.on, name), ok)
      ensures ok ==> fieldRules == Store(g, old(fieldRules), PropertyVisit(g, op, id, path, stack.on, name))
      decreases |g.Keys - stack.on|, 2
    {
      ghost var c0 := messages;
      var site := PropertySite(g, op, id, path, name);
      ghost var below := Sites(g, op, g[id].properties[name], path + [name], stack.on);
      ok := CompileField(g, site);
      if !ok {
        StaysFailed(g, c0, messages, iset{site}, iset{site} + below);
        return;
      }
      ghost var c1 := messages;
      ok := CompileBodySchema(g, op, g[id].properties[name], path + [name], stack);
      CompileThen(g, c0, c1, messages, iset{site}, below, ok);
    }

    /** A field that is skipped when it has no schema at all. */
    method CompileIfAny(g: Schemas, op: string, p: Parameter, schema: Option<SchemaRef>) returns (ok: bool)
      requires Resolves(g, schema)
      modifies this`messages, this`fieldRules
      ensures Compiles(g, old(messages), messages, SchemaSites(op, p, schema), ok)
      ensures ok ==> fieldRules == Store(g, old(fieldRules), SchemaVisit(op, p, schema))
    {
      if schema.None? {
        NothingToCompile(g, messages);
        return true;
      }
      ok := CompileField(g, ParameterSite(op, p, schema));
    }

    /** A parameter declares through its schema and through each of its media types. */
    method CompileParameter(g: Schemas, op: string, p: Parameter) returns (ok: bool)
      requires ParameterResolves(g, p)
      modifies this`messages, this`fieldRules
      ensures Compiles(g, old(messages), messages, ParameterSites(op, p), ok)
      ensures ok ==> fieldRules == Store(g, old(fieldRules), ParameterVisits(op, p))
    {
      ghost var c0, own := messages, SchemaSites(op, p, p.schema);
      ok := CompileIfAny(g, op, p, p.schema);
      if !ok {
        StaysFailed(g, c0, messages, own, ParameterSites(op, p));
        return;
      }
      ghost var c1 := messages;
      ok := CompileContent(g, op, p);
      CompileThen(g, c0, c1, messages, own, Union(ContentFamily(op, p), p.content.Keys), ok);
      StoreThen(g, old(fieldRules), SchemaVisit(op, p, p.schema), ContentVisits(op, p, p.content.Keys));
    }

    method CompileContent(g: Schemas, op: string, p: Parameter) returns (ok: bool)
      requires ParameterResolves(g, p)
      modifies this`messages, this`fieldRules
      ensures Compiles(g, old(messages), messages, Union(ContentFamily(op, p), p.content.Keys), ok)
      ensures ok ==> fieldRules == Store(g, old(fieldRules), ContentVisits(op, p, p.content.Keys))
    {
      ghost var c0, rules, family := messages, fieldRules, ContentFamily(op, p);
      NoneYet(g, family, c0);
      var todo := p.content.Keys;
      assert family.Keys - todo == {};
      ok := true;
      while ok && todo != {}
        invariant todo <= p.content.Keys
        invariant Compiles(g, c0, messages, Union(family, if ok then family.Keys - todo else family.Keys), ok)
        invariant ok ==> Store(g, fieldRules, ContentVisits(op, p, todo))
                         == Store(g, rules, ContentVisits(op, p, p.content.Keys))
        decreases |todo|
      {
        var medium := Least(todo);
        ghost var c := messages;
        ContentNext(g, fieldRules, op, p, todo);
        ok := CompileIfAny(g, op, p, p.content[medium]);
        CompileLeast(g, family, c0, c, messages, todo, medium, ok);
        todo := todo - {medium};
      }
      if ok {
        assert family.Keys - todo == family.Keys;
      }
    }

    method CompileParameters(g: Schemas, op: string, pathParameters: seq<Option<Parameter>>,
                             parameters: seq<Option<Parameter>>)
      returns (ok: bool)
      requires forall i :: 0 <= i < |pathParameters| && pathParameters[i].Some? ==>
                 ParameterResolves(g, pathParameters[i].value)
      requires forall i :: 0 <= i < |parameters| && parameters[i].Some? ==> ParameterResolves(g, parameters[i].value)
      modifies this`messages, this`fieldRules
      ensures Compiles(g, old(messages), messages, ParametersSites(op, Effective(pathParameters + parameters)), ok)
      ensures ok ==>
                var effective := Effective(pathParameters + parameters);
                fieldRules == Store(g, old(fieldRules), ParametersVisits(op, effective, effective.Keys))
    {
      var effective := MergeParameters(pathParameters, parameters);
      EffectiveComesFrom(pathParameters + parameters);
      ok := CompileEffective(g, op, effective);
    }

    method CompileEffective(g: Schemas, op: string, effective: map<string, Parameter>) returns (ok: bool)
      requires forall k :: k in effective ==> ParameterResolves(g, effective[k])
      modifies this`messages, this`fieldRules
      ensures Compiles(g, old(messages), messages, ParametersSites(op, effective), ok)
      ensures ok ==> fieldRules == Store(g, old(fieldRules), ParametersVisits(op, effective, effective.Keys))
    {
      ghost var c0, rules, family := messages, fieldRules, ParameterFamily(op, effective);
      NoneYet(g, family, c0);
      var todo := effective.Keys;
      assert family.Keys - todo == {};
      ok := true;
      while ok && todo != {}
        invariant todo <= effective.Keys
        invariant Compiles(g, c0, messages, Union(family, if ok then family.Keys - todo else family.Keys), ok)
        invariant ok ==> Store(g, fieldRules, ParametersVisits(op, effective, todo))
                         == Store(g, rules, ParametersVisits(op, effective, effective.Keys))
        decreases |todo|
      {
        var key := Least(todo);
        ghost var c := messages;
        ParametersNext(g, fieldRules, op, effective, todo);
        ok := CompileParameter(g, op, effective[key]);
        CompileLeast(g, family, c0, c, messages, todo, key, ok);
        todo := todo - {key};
      }
      if ok {
        assert family.Keys - todo == family.Keys;
      }
    }

    /** One body schema, walked with a stack of its own. */
    method CompileBody(g: Schemas, op: string, ref: Option<SchemaRef>) returns (ok: bool)
      requires WellFormed(g) && Resolves(g, ref)
      modifies this`messages, this`fieldRules
      ensures Compiles(g, old(messages), messages, Sites(g, op, ref, [], {}), ok)
      ensures ok ==> fieldRules == Store(g, old(fieldRules), BodyVisits(g, op, ref, [], {}))
    {
      var stack := new Stack();
      ok := CompileBodySchema(g, op, ref, [], stack);
    }

    method CompileRequestBody(g: Schemas, op: string, body: map<string, Option<SchemaRef>>) returns (ok: bool)
      requires BodyOk(g, body)
      modifies this`messages, this`fieldRules
      ensures Compiles(g, old(messages), messages, BodySites(g, op, body), ok)
      ensures ok ==> fieldRules == Store(g, old(fieldRules), MediaVisits(g, op, body, body.Keys))
    {
      ghost var c0, rules, family := messages, fieldRules, MediaFamily(g, op, body);
      NoneYet(g, family, c0);
      var todo := body.Keys;
      assert family.Keys - todo == {};
      ok := true;
      while ok && todo != {}
        invariant todo <= body.Keys
        invariant Compiles(g, c0, messages, Union(family, if ok then family.Keys - todo else family.Keys), ok)
        invariant ok ==> Store(g, fieldRules, MediaVisits(g, op, body, todo))
                         == Store(g, rules, MediaVisits(g, op, body, body.Keys))
        decreases |todo|
      {
        var medium := Least(todo);
        ghost var c := messages;
        MediaNext(g, fieldRules, op, body, todo);
        ok := CompileBody(g, op, body[medium]);
        CompileLeast(g, family, c0, c, messages, todo, medium, ok);
        todo := todo - {medium};
      }
      if ok {
        assert family.Keys - todo == family.Keys;
      }
    }

    method CompileOwnMessages(g: Schemas, v: Site) returns (ok: bool)
      requires v.Operation?
      modifies this`messages
      ensures Compiles(g, old(messages), messages, iset{v}, ok)
    {
      ghost var c0 := messages;
      if v.extension.Malformed? || (v.extension.Present? && v.operation == "") {
        SiteFails(g, c0, v);
        return false;
      }
      if v.extension.Absent? {
        NothingDeclared(g, c0, v);
        return true;
      }
      var declared := v.extension.value;
      var names := SomeOrder(declared.Keys);
      var todo := seq(|names|,
        i requires 0 <= i < |names| => (MessageKey(v.operation, "", "", names[i]), Lookup(declared, names[i])));
      OperationEntries(g, v, names, todo);
      ok := AddAll(todo);
      SiteCompiles(g, c0, messages, v, ok);
    }

    method CompileOperation(g: Schemas, o: OperationDoc) returns (ok: bool)
      requires WellFormed(g) && OperationResolves(g, o)
      modifies this
      ensures Compiles(g, old(messages), messages, OperationSites(g, o), ok)
      ensures ok ==> fieldRules == Store(g, old(fieldRules), FieldVisits(g, Text.TrimSpace(o.id), o))
      ensures ok ==> crossFieldRules == WithCrossFields(old(crossFieldRules), o)
    {
      ghost var c0, all := messages, OperationSites(g, o);
      var op := Text.TrimSpace(o.id);
      var own := OwnSite(o);
      ok := CompileOwnMessages(g, own);
      if !ok {
        StaysFailed(g, c0, messages, iset{own}, all);
        return;
      }
      if o.extension.Present? && |o.extension.value.crossFields| > 0 {
        crossFieldRules := crossFieldRules[op := o.extension.value.crossFields];
      }
      ghost var c1 := messages;
      ok := CompileFields(g, op, o);
      CompileThen(g, c0, c1, messages, iset{own}, FieldSites(g, op, o), ok);
    }

    /** The fields of an operation: its parameters, then its body. */
    method CompileFields(g: Schemas, op: string, o: OperationDoc) returns (ok: bool)
      requires WellFormed(g) && OperationResolves(g, o)
      modifies this`messages, this`fieldRules
      ensures Compiles(g, old(messages), messages, FieldSites(g, op, o), ok)
      ensures ok ==> fieldRules == Store(g, old(fieldRules), FieldVisits(g, op, o))
    {
      ghost var c0, params := messages, ParametersSites(op, Effective(o.pathParameters + o.parameters));
      ok := CompileParameters(g, op, o.pathParameters, o.parameters);
      if !ok {
        StaysFailed(g, c0, messages, params, FieldSites(g, op, o));
        return;
      }
      ghost var c1 := messages;
      ok := CompileRequestBody(g, op, o.body);
      CompileThen(g, c0, c1, messages, params, BodySites(g, op, o.body), ok);
      ghost var effective := Effective(o.pathParameters + o.parameters);
      StoreThen(g, old(fieldRules), ParametersVisits(op, effective, effective.Keys),
        MediaVisits(g, op, o.body, o.body.Keys));
    }

    /** All operations, in the order given; nil operations are None. */
    method CompileAll(g: Schemas, ops: seq<Option<OperationDoc>>) returns (ok: bool)
      requires WellFormed(g) && AllResolve(g, ops)
      modifies this
      ensures Compiles(g, old(messages), messages, CatalogSites(g, ops), ok)
      ensures ok ==> fieldRules == Store(g, old(fieldRules), CatalogVisits(g, ops))
      ensures ok ==> crossFieldRules == AllCrossFields(old(crossFieldRules), ops)
    {
      ghost var c0, cross0 := messages, crossFieldRules;
      NothingToCompile(g, c0);
      assert CatalogSites(g, ops[..0]) == iset{};
      for i := 0 to |ops|
        invariant Compiles(g, c0, messages, CatalogSites(g, ops[..i]), true)
        invariant fieldRules == Store(g, old(fieldRules), CatalogVisits(g, ops[..i]))
        invariant crossFieldRules == AllCrossFields(cross0, ops[..i])
      {
        assert ops[..i + 1][..i] == ops[..i];
        ghost var c := messages;
        OneMoreOperation(g, ops, i);
        ok := CompileOne(g, ops[i]);
        CompileMore(g, c0, c, messages, CatalogSites(g, ops[..i]), SitesOf(g, ops[i]), CatalogSites(g, ops), ok);
        if !ok {
          return;
        }
        StoreThen(g, old(fieldRules), CatalogVisits(g, ops[..i]), OneVisits(g, ops[i]));
      }
      assert ops[..|ops|] == ops;
      ok := true;
    }

    /** A nil operation is skipped. */
    method CompileOne(g: Schemas, o: Option<OperationDoc>) returns (ok: bool)
      requires WellFormed(g) && (o.Some? ==> OperationResolves(g, o.value))
      modifies this
      ensures Compiles(g, old(messages), messages, SitesOf(g, o), ok)
      ensures ok ==> fieldRules == Store(g, old(fieldRules), OneVisits(g, o))
      ensures ok ==> crossFieldRules == if o.Some? then WithCrossFields(old(crossFieldRules), o.value)
                                        else old(crossFieldRules)
    {
      if o.None? {
        assert SitesOf(g, o) == iset{};
        NothingToCompile(g, messages);
        return true;
      }
      assert SitesOf(g, o) == OperationSites(g, o.value);
      ok := CompileOperation(g, o.value);
    }
  }

  /** Path parameters first, then the operation's own. */
  method MergeParameters(pathParameters: seq<Option<Parameter>>, parameters: seq<Option<Parameter>>)
    returns (effective: map<string, Parameter>)
    ensures effective == Effective(pathParameters + parameters)
  {
    effective := map[];
    ghost var ps := pathParameters + parameters;
    for i := 0 to |pathParameters|
      invariant effective == Effective(ps[..i])
    {
      EffectiveNext(ps, i);
      if pathParameters[i].Some? {
        effective := effective[ParameterKey(pathParameters[i].value) := pathParameters[i].value];
      }
    }
    for i := 0 to |parameters|
      invariant effective == Effective(ps[..|pathParameters| + i])
    {
      EffectiveNext(ps, |pathParameters| + i);
      if parameters[i].Some? {
        effective := effective[ParameterKey(parameters[i].value) := parameters[i].value];
      }
    }
    assert ps[..|ps|] == ps;
  }

  /** What the compiler returns. */
  datatype Compiled = Compiled(messages: Messages, fieldRules: Rules, crossFieldRules: map<string, seq<CrossFieldRule>>)

  /** compileValidationCatalog: no document is an error. Otherwise it succeeds exactly when every site is
      fine on its own and no two declarations disagree, whatever the order; then the messages are all
      declared pairs and nothing else, and the rules are those the visits in the sorted order leave. */
  method CompileValidationCatalog(document: Option<Document>) returns (compiled: Option<Compiled>)
    requires document.Some? ==> DocumentOk(document.value)
    ensures document.None? ==> compiled.None?
    ensures document.Some? ==>
              var g, ops := document.value.schemas, OperationsOf(document.value);
              && (compiled.Some? <==> AllOk(g, CatalogSites(g, ops)) && Consistent(DeclaredBy(g, CatalogSites(g, ops))))
              && (compiled.Some? ==>
                    && Entries(compiled.value.messages) == DeclaredBy(g, CatalogSites(g, ops))
                    && compiled.value.fieldRules == Store(g, map[], CatalogVisits(g, ops))
                    && compiled.value.crossFieldRules == AllCrossFields(map[], ops))
  {
    if document.None? {
      return None;
    }
    var g, ops := document.value.schemas, OperationsOf(document.value);
    var catalog := new Catalog();
    var ok := catalog.CompileAll(g, ops);
    assert Entries(map[]) + DeclaredBy(g, CatalogSites(g, ops)) == DeclaredBy(g, CatalogSites(g, ops));
    compiled := if ok then Some(Compiled(catalog.messages, catalog.fieldRules, catalog.crossFieldRules)) else None;
  }

  /** The catalog's lookup: the field's own message, else the operation's message for the rule. */
  function Message(messages: map<MessageKey, string>, operation: string, location: string, field: string,
                   rule: string): Option<string> {
    var k := TrimKey(MessageKey(operation, location, field, rule));
    if k in messages then Some(messages[k])
    else
      var fallback := MessageKey(k.operation, "", "", k.rule);
      if fallback in messages then Some(messages[fallback]) else None
  }

  /** After compiling, the lookup answers with what was declared: the field's own message if any site
      declares one, otherwise the operation's, otherwise nothing. */
  lemma MessageIsDeclared(g: Schemas, c: Messages, sites: iset<Site>, operation: string, location: string,
                          field: string,
                          rule: string, text: string)
    requires Entries(c) == DeclaredBy(g, sites)
    ensures var own := Trimmed(operation, location, field, rule, text);
            var k, general := own.key, Entry(MessageKey(own.key.operation, "", "", own.key.rule), text);
            Message(c, operation, location, field, rule) == Some(text) <==>
              || own in DeclaredBy(g, sites)
              || ((forall other :: other in DeclaredBy(g, sites) ==> other.key != k) && general in DeclaredBy(g, sites))
  {
    var k := TrimKey(MessageKey(operation, location, field, rule));
    if k in c {
      assert Entry(k, c[k]) in Entries(c);
    }
    var fallback := MessageKey(k.operation, "", "", k.rule);
    if fallback in c {
      assert Entry(fallback, c[fallback]) in Entries(c);
    }
  }

  /** Every native rule of every annotated field that compiled has a non-blank message, the one the
      field declares. */
  lemma NativeRuleHasMessage(g: Schemas, c: Messages, sites: iset<Site>, v: Site, rule: string)
    requires Entries(c) == DeclaredBy(g, sites)
    ensures v in sites && SiteOk(g, v) && Annotated(g, v)
            && rule in NativeRules(g[v.ref.value.value.value], v.required) ==>
              var m := Message(c, v.key.operation, v.key.location, v.key.field, rule);
              && m.Some? && Text.TrimSpace(m.value) != ""
              && m.value == Lookup(ExtensionOf(g, v.ref).value.messages, rule)
  {
    if v in sites && SiteOk(g, v) && Annotated(g, v) && rule in NativeRules(g[v.ref.value.value.value], v.required) {
      var messages := ExtensionOf(g, v.ref).value.messages;
      var native := NativeRules(g[v.ref.value.value.value], v.required);
      var i :| 0 <= i < |native| && native[i] == rule;
      assert Text.TrimSpace(Lookup(messages, native[i])) != "" && rule in messages;
      var entry := EntryAt(v.key, rule, messages[rule]);
      assert entry in Declares(g, v) && entry in DeclaredBy(g, sites);
      assert entry in Entries(c);
    }
  }

  /** The checks of a field that need no catalog, in the source's order. */
  method CheckField(g: Schemas, v: Site) returns (ok: bool)
    requires v.Field? && Resolves(g, v.ref)
    ensures ok <==> SiteChecks(g, v)
  {
    var parsed := ExtensionOf(g, v.ref);
    if !parsed.Present? {
      return parsed.Absent?;
    }
    if v.key.operation == "" || v.ref.None? || v.ref.value.value.None? {
      return false;
    }
    ok := CheckNative(NativeRules(g[v.ref.value.value.value], v.required), parsed.value.messages);
  }

  method CheckNative(native: seq<string>, messages: map<string, string>) returns (ok: bool)
    ensures ok <==> NativeCovered(native, messages)
  {
    for i := 0 to |native|
      invariant forall j :: 0 <= j < i ==> Text.TrimSpace(Lookup(messages, native[j])) != ""
    {
      if Text.TrimSpace(Lookup(messages, native[i])) == "" {
        return false;
      }
    }
    ok := true;
  }

  /** The elements of a set in some order; the source sorts them, and no result below depends on it. */
  method SomeOrder(s: set<string>) returns (q: seq<string>)
    ensures forall x :: x in q <==> x in s
  {
    q := [];
    var todo := s;
    while todo != {}
      invariant todo <= s
      invariant forall x :: x in q <==> x in s - todo
      decreases |todo|
    {
      var x :| x in todo;
      q, todo := q + [x], todo - {x};
    }
  }
}
