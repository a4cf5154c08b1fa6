/** The order in which the compiler visits its sites, all names sorted, and the custom rules that a
    visit leaves behind: the last site of a field decides. */
module CatalogOrder {
  import opened Common
  import Sorting
  import Text
  import opened ValidationDocument

  // The least of a set of names.

  predicate IsLeast(names: set<string>, x: string) {
    x in names && forall y :: y in names && y != x ==> Text.Less(x, y)
  }

  lemma LeastExists(names: set<string>)
    requires names != {}
    ensures exists x :: IsLeast(names, x)
  {
    TotalOnText(names);
    var x := Sorting.LeastExists(names, Text.Less);
    assert IsLeast(names, x);
  }

  lemma TotalOnText(names: set<string>)
    ensures Sorting.TotalOn(names, Text.Less)
  {
    forall x, y | x != y
      ensures Text.Less(x, y) || Text.Less(y, x)
    {
      Text.LessTotal(x, y);
    }
    forall x, y, z | Text.Less(x, y) && Text.Less(y, z)
      ensures Text.Less(x, z)
    {
      Text.LessTransitive(x, y, z);
    }
  }

  lemma LeastIsUnique(names: set<string>)
    ensures forall x, y :: IsLeast(names, x) && IsLeast(names, y) ==> x == y
  {
    forall x, y | IsLeast(names, x) && IsLeast(names, y)
      ensures x == y
    {
      Text.LessTotal(x, y);
    }
  }

  /** The name a loop over the sorted names takes next. */
  function Least(names: set<string>): (x: string)
    requires names != {}
    ensures IsLeast(names, x)
  {
    LeastIsUnique(names);
    LeastExists(names);
    var x :| IsLeast(names, x);
    x
  }

  // Visits.

  /** The sites below a body schema, in the order the compiler looks at them. */
  ghost function BodyVisits(g: Schemas, op: string, ref: Option<SchemaRef>, path: seq<string>,
                            stack: set<SchemaId>): seq<Site>
    requires WellFormed(g) && Resolves(g, ref) && stack <= g.Keys
    decreases |g.Keys - stack|, 1, 0
  {
    if ref.None? || ref.value.value.None? || ref.value.value.value in stack then []
    else
      var id := ref.value.value.value;
      SmallerRest(g.Keys, stack, id);
      AllOfVisits(g, op, id, path, stack + {id}, |g[id].allOf|)
      + PropertyVisits(g, op, id, path, stack + {id}, g[id].properties.Keys)
  }

  ghost function AllOfVisits(g: Schemas, op: string, id: SchemaId, path: seq<string>, stack: set<SchemaId>,
                             n: nat): seq<Site>
    requires WellFormed(g) && id in g && stack <= g.Keys && n <= |g[id].allOf|
    decreases |g.Keys - stack|, 2, n
  {
    if n == 0 then []
    else AllOfVisits(g, op, id, path, stack, n - 1) + BodyVisits(g, op, g[id].allOf[n - 1], path, stack)
  }

  /** A property itself, then what is below it, then the properties with greater names. */
  ghost function PropertyVisits(g: Schemas, op: string, id: SchemaId, path: seq<string>, stack: set<SchemaId>,
                                names: set<string>)
    : seq<Site>
    requires WellFormed(g) && id in g && stack <= g.Keys && names <= g[id].properties.Keys
    decreases |g.Keys - stack|, 2, |names|
  {
    if names == {} then []
    else
      var name := Least(names);
      PropertyVisit(g, op, id, path, stack, name)
      + PropertyVisits(g, op, id, path, stack, names - {name})
  }

  ghost function PropertyVisit(g: Schemas, op: string, id: SchemaId, path: seq<string>, stack: set<SchemaId>,
                               name: string)
    : seq<Site>
    requires WellFormed(g) && id in g && stack <= g.Keys && name in g[id].properties
    decreases |g.Keys - stack|, 1, 1
  {
    [PropertySite(g, op, id, path, name)] + BodyVisits(g, op, g[id].properties[name], path + [name], stack)
  }

  function SchemaVisit(op: string, p: Parameter, schema: Option<SchemaRef>): seq<Site> {
    if schema.Some? then [ParameterSite(op, p, schema)] else []
  }

  ghost function ContentVisits(op: string, p: Parameter, media: set<string>): seq<Site>
    requires media <= p.content.Keys
  {
    if media == {} then []
    else
      var m := Least(media);
      SchemaVisit(op, p, p.content[m]) + ContentVisits(op, p, media - {m})
  }

  ghost function ParameterVisits(op: string, p: Parameter): seq<Site> {
    SchemaVisit(op, p, p.schema) + ContentVisits(op, p, p.content.Keys)
  }

  ghost function ParametersVisits(op: string, effective: map<string, Parameter>, keys: set<string>): seq<Site>
    requires keys <= effective.Keys
  {
    if keys == {} then []
    else
      var k := Least(keys);
      ParameterVisits(op, effective[k]) + ParametersVisits(op, effective, keys - {k})
  }

  ghost predicate BodyOk(g: Schemas, body: map<string, Option<SchemaRef>>) {
    WellFormed(g) && forall m :: m in body ==> Resolves(g, body[m])
  }

  ghost function MediaVisits(g: Schemas, op: string, body: map<string, Option<SchemaRef>>,
                             media: set<string>): seq<Site>
    requires BodyOk(g, body) && media <= body.Keys
  {
    if media == {} then []
    else
      var m := Least(media);
      BodyVisits(g, op, body[m], [], {}) + MediaVisits(g, op, body, media - {m})
  }

  ghost function FieldVisits(g: Schemas, op: string, o: OperationDoc): seq<Site>
    requires WellFormed(g) && OperationResolves(g, o)
  {
    var effective := Effective(o.pathParameters + o.parameters);
    ParametersVisits(op, effective, effective.Keys) + MediaVisits(g, op, o.body, o.body.Keys)
  }

  ghost predicate AllResolve(g: Schemas, ops: seq<Option<OperationDoc>>) {
    forall o :: o in ops && o.Some? ==> OperationResolves(g, o.value)
  }

  ghost function OneVisits(g: Schemas, o: Option<OperationDoc>): seq<Site>
    requires WellFormed(g) && (o.Some? ==> OperationResolves(g, o.value))
  {
    if o.None? then [] else FieldVisits(g, Text.TrimSpace(o.value.id), o.value)
  }

  /** The fields of all operations, in the order of the operations. */
  ghost function CatalogVisits(g: Schemas, ops: seq<Option<OperationDoc>>): seq<Site>
    requires WellFormed(g) && AllResolve(g, ops)
  {
    if ops == [] then []
    else CatalogVisits(g, ops[..|ops| - 1]) + OneVisits(g, Last(ops))
  }

  // The operations of a document.

  /** A path item maps methods to operations; nil path items and operations are None. */
  type PathItem = map<string, Option<OperationDoc>>

  datatype Document = Document(schemas: Schemas, paths: map<string, Option<PathItem>>)

  /** The operations of a path item, by method. */
  function MethodsOf(item: PathItem, methods: set<string>): (ops: seq<Option<OperationDoc>>)
    requires methods <= item.Keys
    ensures forall o :: o in ops <==> exists m :: m in methods && item[m] == o
  {
    if methods == {} then []
    else
      var m := Least(methods);
      [item[m]] + MethodsOf(item, methods - {m})
  }

  /** By path, and then by method. */
  function PathsOf(paths: map<string, Option<PathItem>>, names: set<string>): (ops: seq<Option<OperationDoc>>)
    requires names <= paths.Keys
    ensures forall o :: o in ops <==>
              exists p :: p in names && paths[p].Some? && exists m :: m in paths[p].value && paths[p].value[m] == o
  {
    if names == {} then []
    else
      var p := Least(names);
      (if paths[p].Some? then MethodsOf(paths[p].value, paths[p].value.Keys) else []) + PathsOf(paths, names - {p})
  }

  function OperationsOf(document: Document): seq<Option<OperationDoc>> { PathsOf(document.paths, document.paths.Keys) }

  ghost predicate DocumentOk(document: Document) {
    WellFormed(document.schemas) && AllResolve(document.schemas, OperationsOf(document))
  }

  // What the visits store.

  function StoreOne(g: Schemas, rules: Rules, v: Site): Rules {
    if StoredRules(g, v) != [] then rules[v.key := StoredRules(g, v)] else rules
  }

  function Store(g: Schemas, rules: Rules, sites: seq<Site>): Rules
    decreases |sites|
  {
    if sites == [] then rules else Store(g, StoreOne(g, rules, sites[0]), sites[1..])
  }

  lemma {:induction false} StoreThen(g: Schemas, rules: Rules, a: seq<Site>, b: seq<Site>)
    ensures Store(g, rules, a + b) == Store(g, Store(g, rules, a), b)
    decreases |a|
  {
    if a == [] {
      assert a + b == b;
    } else {
      assert (a + b)[1..] == a[1..] + b;
      StoreThen(g, StoreOne(g, rules, a[0]), a[1..], b);
    }
  }

  // The rules after the next visit of each loop.

  lemma AllOfNext(g: Schemas, rules: Rules, op: string, id: SchemaId, path: seq<string>, stack: set<SchemaId>, i: nat)
    requires WellFormed(g) && id in g && stack <= g.Keys && i < |g[id].allOf|
    ensures Store(g, Store(g, rules, AllOfVisits(g, op, id, path, stack, i)),
                  BodyVisits(g, op, g[id].allOf[i], path, stack))
            == Store(g, rules, AllOfVisits(g, op, id, path, stack, i + 1))
  {
    StoreThen(g, rules, AllOfVisits(g, op, id, path, stack, i), BodyVisits(g, op, g[id].allOf[i], path, stack));
  }

  lemma PropertyNext(g: Schemas, rules: Rules, op: string, id: SchemaId, path: seq<string>, stack: set<SchemaId>,
                     names: set<string>)
    requires WellFormed(g) && id in g && stack <= g.Keys && names <= g[id].properties.Keys && names != {}
    ensures var name := Least(names);
            Store(g, rules, PropertyVisits(g, op, id, path, stack, names))
            == Store(g, Store(g, rules, PropertyVisit(g, op, id, path, stack, name)),
                     PropertyVisits(g, op, id, path, stack, names - {name}))
  {
    var name := Least(names);
    StoreThen(g, rules, PropertyVisit(g, op, id, path, stack, name),
      PropertyVisits(g, op, id, path, stack, names - {name}));
  }

  lemma ContentNext(g: Schemas, rules: Rules, op: string, p: Parameter, media: set<string>)
    requires media <= p.content.Keys && media != {}
    ensures var m := Least(media);
            Store(g, rules, ContentVisits(op, p, media))
            == Store(g, Store(g, rules, SchemaVisit(op, p, p.content[m])), ContentVisits(op, p, media - {m}))
  {
    var m := Least(media);
    StoreThen(g, rules, SchemaVisit(op, p, p.content[m]), ContentVisits(op, p, media - {m}));
  }

  lemma ParametersNext(g: Schemas, rules: Rules, op: string, effective: map<string, Parameter>, keys: set<string>)
    requires keys <= effective.Keys && keys != {}
    ensures var k := Least(keys);
            Store(g, rules, ParametersVisits(op, effective, keys))
            == Store(g, Store(g, rules, ParameterVisits(op, effective[k])), ParametersVisits(op, effective, keys - {k}))
  {
    var k := Least(keys);
    StoreThen(g, rules, ParameterVisits(op, effective[k]), ParametersVisits(op, effective, keys - {k}));
  }

  lemma MediaNext(g: Schemas, rules: Rules, op: string, body: map<string, Option<SchemaRef>>, media: set<string>)
    requires BodyOk(g, body) && media <= body.Keys && media != {}
    ensures var m := Least(media);
            Store(g, rules, MediaVisits(g, op, body, media))
            == Store(g, Store(g, rules, BodyVisits(g, op, body[m], [], {})), MediaVisits(g, op, body, media - {m}))
  {
    var m := Least(media);
    StoreThen(g, rules, BodyVisits(g, op, body[m], [], {}), MediaVisits(g, op, body, media - {m}));
  }

  predicate StoresAt(g: Schemas, v: Site, k: FieldKey) { StoredRules(g, v) != [] && v.key == k }

  lemma StoreLast(g: Schemas, rules: Rules, sites: seq<Site>)
    requires sites != []
    ensures Store(g, rules, sites) == StoreOne(g, Store(g, rules, sites[..|sites| - 1]), Last(sites))
  {
    var init := sites[..|sites| - 1];
    assert sites == init + [Last(sites)];
    StoreThen(g, rules, init, [Last(sites)]);
  }

  /** The rules of a field are those of the last visited site that has some under its key. */
  lemma {:induction false} LastSiteDecides(g: Schemas, rules: Rules, sites: seq<Site>, i: nat, k: FieldKey)
    requires i < |sites| && StoresAt(g, sites[i], k) && forall j :: i < j < |sites| ==> !StoresAt(g, sites[j], k)
    ensures k in Store(g, rules, sites) && Store(g, rules, sites)[k] == StoredRules(g, sites[i])
    decreases |sites|
  {
    StoreLast(g, rules, sites);
    if i < |sites| - 1 {
      var init := sites[..|sites| - 1];
      assert forall j :: i < j < |init| ==> init[j] == sites[j];
      LastSiteDecides(g, rules, init, i, k);
      assert !StoresAt(g, sites[|sites| - 1], k);
    }
  }

  /** And if there is none, those that were there before, if any. */
  lemma {:induction false} NoSiteDecides(g: Schemas, rules: Rules, sites: seq<Site>, k: FieldKey)
    requires forall i :: 0 <= i < |sites| ==> !StoresAt(g, sites[i], k)
    ensures k in Store(g, rules, sites) <==> k in rules
    ensures k in rules ==> Store(g, rules, sites)[k] == rules[k]
    decreases |sites|
  {
    if sites != [] {
      StoreLast(g, rules, sites);
      var init := sites[..|sites| - 1];
      assert forall j :: 0 <= j < |init| ==> init[j] == sites[j];
      NoSiteDecides(g, rules, init, k);
      assert !StoresAt(g, sites[|sites| - 1], k);
    }
  }

  // Visiting and declaring speak of the same sites.

  lemma {:induction false} BodyVisitsAreSites(g: Schemas, op: string, ref: Option<SchemaRef>, path: seq<string>,
                                              stack: set<SchemaId>, v: Site)
    requires WellFormed(g) && Resolves(g, ref) && stack <= g.Keys
    ensures v in BodyVisits(g, op, ref, path, stack) <==> v in Sites(g, op, ref, path, stack)
    decreases |g.Keys - stack|, 1, 0
  {
    if ref.None? || ref.value.value.None? || ref.value.value.value in stack {
      NoSitesOnStack(g, op, ref, path, stack);
    } else {
      var id := ref.value.value.value;
      SmallerRest(g.Keys, stack, id);
      SitesOneLevel(g, op, ref, path, stack);
      AllOfVisitsAreSites(g, op, id, path, stack + {id}, |g[id].allOf|, v);
      PropertyVisitsAreSites(g, op, id, path, stack + {id}, g[id].properties.Keys, v);
    }
  }

  lemma {:induction false} AllOfVisitsAreSites(g: Schemas, op: string, id: SchemaId, path: seq<string>,
                                               stack: set<SchemaId>, n: nat, v: Site)
    requires WellFormed(g) && id in g && stack <= g.Keys && n <= |g[id].allOf|
    ensures v in AllOfVisits(g, op, id, path, stack, n) <==> v in AllOfSites(g, op, id, path, stack, n)
    decreases |g.Keys - stack|, 2, n
  {
    if n > 0 {
      OneMoreAllOf(g, op, id, path, stack, n - 1);
      AllOfVisitsAreSites(g, op, id, path, stack, n - 1, v);
      BodyVisitsAreSites(g, op, g[id].allOf[n - 1], path, stack, v);
    }
  }

  lemma {:induction false} PropertyVisitsAreSites(g: Schemas, op: string, id: SchemaId, path: seq<string>,
                                                  stack: set<SchemaId>, names: set<string>, v: Site)
    requires WellFormed(g) && id in g && stack <= g.Keys && names <= g[id].properties.Keys
    ensures v in PropertyVisits(g, op, id, path, stack, names) <==>
              v in Union(PropertyFamily(g, op, id, path, stack), names)
    decreases |g.Keys - stack|, 2, |names|
  {
    if names == {} {
      assert v !in Union(PropertyFamily(g, op, id, path, stack), {});
    } else {
      var name := Least(names);
      PropertyVisitsAreSites(g, op, id, path, stack, names - {name}, v);
      OneMore(PropertyFamily(g, op, id, path, stack), names - {name}, name);
      assert names - {name} + {name} == names;
      BodyVisitsAreSites(g, op, g[id].properties[name], path + [name], stack, v);
    }
  }

  lemma {:induction false} ContentVisitsAreSites(op: string, p: Parameter, media: set<string>, v: Site)
    requires media <= p.content.Keys
    ensures v in ContentVisits(op, p, media) <==> v in Union(ContentFamily(op, p), media)
    decreases |media|
  {
    if media == {} {
      assert v !in Union(ContentFamily(op, p), {});
    } else {
      var m := Least(media);
      ContentVisitsAreSites(op, p, media - {m}, v);
      OneMore(ContentFamily(op, p), media - {m}, m);
      assert media - {m} + {m} == media;
    }
  }

  lemma {:induction false} ParametersVisitsAreSites(op: string, effective: map<string, Parameter>, keys: set<string>,
                                                    v: Site)
    requires keys <= effective.Keys
    ensures v in ParametersVisits(op, effective, keys) <==> v in Union(ParameterFamily(op, effective), keys)
    decreases |keys|
  {
    if keys == {} {
      assert v !in Union(ParameterFamily(op, effective), {});
    } else {
      var k := Least(keys);
      ParametersVisitsAreSites(op, effective, keys - {k}, v);
      OneMore(ParameterFamily(op, effective), keys - {k}, k);
      assert keys - {k} + {k} == keys;
      ContentVisitsAreSites(op, effective[k], effective[k].content.Keys, v);
    }
  }

  lemma {:induction false} MediaVisitsAreSites(g: Schemas, op: string, body: map<string, Option<SchemaRef>>,
                                               media: set<string>, v: Site)
    requires BodyOk(g, body) && media <= body.Keys
    ensures v in MediaVisits(g, op, body, media) <==> v in Union(MediaFamily(g, op, body), media)
    decreases |media|
  {
    if media == {} {
      assert v !in Union(MediaFamily(g, op, body), {});
    } else {
      var m := Least(media);
      MediaVisitsAreSites(g, op, body, media - {m}, v);
      OneMore(MediaFamily(g, op, body), media - {m}, m);
      assert media - {m} + {m} == media;
      BodyVisitsAreSites(g, op, body[m], [], {}, v);
    }
  }

  lemma FieldVisitsAreSites(g: Schemas, op: string, o: OperationDoc, v: Site)
    requires WellFormed(g) && OperationResolves(g, o)
    ensures v in FieldVisits(g, op, o) <==> v in FieldSites(g, op, o)
  {
    var effective := Effective(o.pathParameters + o.parameters);
    ParametersVisitsAreSites(op, effective, effective.Keys, v);
    MediaVisitsAreSites(g, op, o.body, o.body.Keys, v);
  }

  lemma FieldSitesAreFields(g: Schemas, op: string, o: OperationDoc, v: Site)
    ensures v in FieldSites(g, op, o) ==> v.Field?
  {
    var effective := Effective(o.pathParameters + o.parameters);
    if v in BodySites(g, op, o.body) {
      var m := MemberOf(MediaFamily(g, op, o.body), o.body.Keys, v);
      var walk :| EndOf(g, op, o.body[m], [], {}, walk) == Some(v);
      WalkField(g, op, o.body[m], [], {}, walk);
    } else if v in FieldSites(g, op, o) {
      var k := MemberOf(ParameterFamily(op, effective), effective.Keys, v);
      if v !in SchemaSites(op, effective[k], effective[k].schema) {
        var m := MemberOf(ContentFamily(op, effective[k]), effective[k].content.Keys, v);
      }
    }
  }

  /** The compiler visits exactly the fields of the catalog's sites. */
  lemma {:induction false} VisitsAreSites(g: Schemas, ops: seq<Option<OperationDoc>>, v: Site)
    requires WellFormed(g) && AllResolve(g, ops)
    ensures v in CatalogVisits(g, ops) <==> v.Field? && v in CatalogSites(g, ops)
    decreases |ops|
  {
    if ops != [] {
      var n := |ops| - 1;
      assert ops[..n + 1] == ops && Last(ops) == ops[n];
      VisitsAreSites(g, ops[..n], v);
      OneMoreOperation(g, ops, n);
      if ops[n].Some? {
        var o, op := ops[n].value, Text.TrimSpace(ops[n].value.id);
        FieldVisitsAreSites(g, op, o, v);
        FieldSitesAreFields(g, op, o, v);
      }
    }
  }

  /** Some site has rules under key k. */
  ghost predicate Ruled(g: Schemas, sites: iset<Site>, k: FieldKey) {
    exists v :: v in sites && StoresAt(g, v, k)
  }

  /** So the compiled rules are those of the catalog's sites: a key is there exactly when a site has rules
      under it, and then they are that of one of them. */
  lemma RulesComeFromSites(g: Schemas, ops: seq<Option<OperationDoc>>, k: FieldKey)
    requires WellFormed(g) && AllResolve(g, ops)
    ensures var rules := Store(g, map[], CatalogVisits(g, ops));
            && (k in rules <==> Ruled(g, CatalogSites(g, ops), k))
            && (k in rules ==>
              exists v :: v in CatalogSites(g, ops) && StoresAt(g, v, k) && rules[k] == StoredRules(g, v))
  {
    var visits := CatalogVisits(g, ops);
    if exists i :: 0 <= i < |visits| && StoresAt(g, visits[i], k) {
      var i := LastStoring(g, visits, k);
      LastSiteDecides(g, map[], visits, i, k);
      VisitsAreSites(g, ops, visits[i]);
      assert visits[i] in visits;
    } else {
      NoSiteDecides(g, map[], visits, k);
      forall v | v in CatalogSites(g, ops)
        ensures !StoresAt(g, v, k)
      {
        if StoresAt(g, v, k) {
          VisitsAreSites(g, ops, v);
        }
      }
    }
  }

  /** The visit i is of a field with extension e that has rules, and no later visit of the field has. */
  ghost predicate DecidedBy(g: Schemas, ops: seq<Option<OperationDoc>>, i: nat, e: FieldExtension)
    requires WellFormed(g) && AllResolve(g, ops)
  {
    var visits := CatalogVisits(g, ops);
    && i < |visits| && visits[i].Field? && HasExtension(g, visits[i].ref, e) && (e.notBlank || e.customRules != [])
    && forall j :: i < j < |visits| ==> !RuledAt(g, visits[j], visits[i].key)
  }

  /** After a successful compilation the rules of a field are what the extension of its last ruled site says: a
      notBlank mark is a first rule of that name with the declared message, and the custom rules follow. */
  lemma CompiledRules(g: Schemas, ops: seq<Option<OperationDoc>>, i: nat, e: FieldExtension)
    requires WellFormed(g) && AllResolve(g, ops)
    ensures AllOk(g, CatalogSites(g, ops)) && DecidedBy(g, ops, i, e) ==>
              var rules, key := Store(g, map[], CatalogVisits(g, ops)), CatalogVisits(g, ops)[i].key;
              && key in rules && (e.notBlank ==> "notBlank" in e.messages)
              && rules[key] == if e.notBlank then [NamedRule("notBlank", e.messages["notBlank"])] + e.customRules
                               else e.customRules
  {
    if AllOk(g, CatalogSites(g, ops)) && DecidedBy(g, ops, i, e) {
      var visits := CatalogVisits(g, ops);
      var v := visits[i];
      forall j | i <= j < |visits|
        ensures StoresAt(g, visits[j], v.key) <==> RuledAt(g, visits[j], v.key)
      {
        VisitIsOk(g, ops, visits[j]);
        StoresExactly(g, visits[j], v.key);
      }
      VisitIsOk(g, ops, v);
      StoredRulesExactly(g, v, e);
      LastSiteDecides(g, map[], visits, i, v.key);
      if e.notBlank {
        NotBlankHasMessage(g, v, e);
      }
    }
  }

  lemma VisitIsOk(g: Schemas, ops: seq<Option<OperationDoc>>, v: Site)
    requires WellFormed(g) && AllResolve(g, ops)
    ensures AllOk(g, CatalogSites(g, ops)) && v in CatalogVisits(g, ops) ==>
              SiteOk(g, v) && v.Field? && Resolves(g, v.ref)
  {
    VisitsAreSites(g, ops, v);
  }

  lemma NotBlankHasMessage(g: Schemas, v: Site, e: FieldExtension)
    requires SiteOk(g, v) && v.Field? && HasExtension(g, v.ref, e) && e.notBlank
    ensures "notBlank" in e.messages
  {
    var rule := RulesOf(e)[0];
    assert EntryAt(v.key, rule.name, rule.message) in Declares(g, v);
    assert !Blank(EntryAt(v.key, rule.name, rule.message));
  }

  lemma LastStoring(g: Schemas, sites: seq<Site>, k: FieldKey) returns (i: nat)
    requires exists j :: 0 <= j < |sites| && StoresAt(g, sites[j], k)
    ensures i < |sites| && StoresAt(g, sites[i], k) && forall j :: i < j < |sites| ==> !StoresAt(g, sites[j], k)
  {
    var hits := seq(|sites|, j requires 0 <= j < |sites| => StoresAt(g, sites[j], k));
    var j :| 0 <= j < |sites| && StoresAt(g, sites[j], k);
    assert hits[j];
    i := LastTrue(hits);
    forall j | i < j < |sites|
      ensures !StoresAt(g, sites[j], k)
    {
      assert !hits[j];
    }
  }

  lemma {:induction false} LastTrue(hits: seq<bool>) returns (i: nat)
    requires true in hits
    ensures i < |hits| && hits[i] && forall j :: i < j < |hits| ==> !hits[j]
    decreases |hits|
  {
    i := |hits| - 1;
    if !hits[i] {
      i := LastTrue(hits[..i]);
    }
  }
}
