/** The custom validation rules of a request: the order they are checked in, the values they see,
    and the violations they report. Time parsing and JSON decoding are parameters. */
module CustomRules {
  import opened Common
  import opened Sorting
  import Text
  import opened ValidationDocument
  import opened CatalogOrder
  import opened ValidationCatalog

  // The order of fields.

  function LocationOrder(location: string): nat {
    if location == "body" then 0
    else if location == "query" then 1
    else if location == "path" then 2
    else if location == "header" then 3
    else if location == "cookie" then 4
    else 5
  }

  predicate FieldLess(a: FieldKey, b: FieldKey) {
    if LocationOrder(a.location) != LocationOrder(b.location) then LocationOrder(a.location) < LocationOrder(b.location)
    else Text.Less(a.field, b.field)
  }

  /** What sort.Slice promises of the operation's keys, taken from the map in any order and sorted by
      any algorithm: the same keys, none twice, none before one that is less. */
  ghost predicate SortOf(rules: Rules, operation: string, fields: seq<FieldKey>) {
    && (forall k :: k in fields <==> k in rules && k.operation == Text.TrimSpace(operation))
    && Ordered(fields)
  }

  /** Neither key comes before the other. */
  predicate Ties(a: FieldKey, b: FieldKey) { a != b && !FieldLess(a, b) && !FieldLess(b, a) }

  ghost predicate NoTies(rules: Rules, operation: string) {
    forall a, b :: a in rules && b in rules && a.operation == Text.TrimSpace(operation) == b.operation ==> !Ties(a, b)
  }

  predicate KnownPlace(k: FieldKey) { LocationOrder(k.location) < 5 }

  /** Every key of the catalog has one of the five places a request can hold a value in. */
  ghost predicate PlacesKnown(rules: Rules) {
    forall k :: k in rules ==> KnownPlace(k)
  }

  lemma FieldLessAsymmetric()
    ensures Asymmetric(FieldLess)
  {
    forall a, b
      ensures !(FieldLess(a, b) && FieldLess(b, a))
    {
      Text.LessTotal(a.field, b.field);
    }
  }

  /** Keys of one operation tie exactly when they share the field and are at two unknown places. */
  lemma TiesExactly(a: FieldKey, b: FieldKey)
    requires a.operation == b.operation
    ensures Ties(a, b) <==> a.field == b.field && a.location != b.location && !KnownPlace(a) && !KnownPlace(b)
  {
    Text.LessTotal(a.field, b.field);
  }

  /** So a catalog with known places has no ties. */
  lemma KnownPlacesDoNotTie(rules: Rules, operation: string)
    requires PlacesKnown(rules)
    ensures NoTies(rules, operation)
  {
    forall a, b | a in rules && b in rules && a.operation == Text.TrimSpace(operation) == b.operation
      ensures !Ties(a, b)
    {
      TiesExactly(a, b);
    }
  }

  /** Without ties there is one possible answer, for every map order and every sort, stable or not. */
  lemma SortIsUnique(rules: Rules, operation: string, a: seq<FieldKey>, b: seq<FieldKey>)
    requires NoTies(rules, operation) && SortOf(rules, operation, a) && SortOf(rules, operation, b)
    ensures a == b
  {
    FieldLessAsymmetric();
    SortIsStrict(rules, operation, a);
    SortIsStrict(rules, operation, b);
    assert forall i :: 0 <= i < |a| ==> a[i] in a;
    assert forall i :: 0 <= i < |b| ==> b[i] in b;
    SortedUnique(a, b, FieldLess);
  }

  lemma SortIsStrict(rules: Rules, operation: string, fields: seq<FieldKey>)
    requires NoTies(rules, operation) && SortOf(rules, operation, fields)
    ensures StrictlySorted(fields, FieldLess)
  {
    forall i, j | 0 <= i < j < |fields|
      ensures FieldLess(fields[i], fields[j])
    {
      assert fields[i] in fields && fields[j] in fields;
      assert !Ties(fields[i], fields[j]);
    }
  }

  /** Two tied keys can change places. */
  lemma SwapKeepsOrder(fields: seq<FieldKey>, i: nat, j: nat)
    requires i < |fields| && j < |fields| && i != j && Ordered(fields)
    requires Ties(fields[i], fields[j]) && fields[i].operation == fields[j].operation
    ensures Ordered(fields[i := fields[j]][j := fields[i]])
  {
    TiesExactly(fields[i], fields[j]);
  }

  /** Tied keys leave a second sort. */
  lemma TiesAllowTwo(rules: Rules, operation: string, fields: seq<FieldKey>, a: FieldKey, b: FieldKey)
    returns (other: seq<FieldKey>)
    requires SortOf(rules, operation, fields) && a in rules && b in rules
    requires a.operation == Text.TrimSpace(operation) == b.operation && Ties(a, b)
    ensures SortOf(rules, operation, other) && other != fields
  {
    assert a in fields && b in fields;
    var i :| 0 <= i < |fields| && fields[i] == a;
    var j :| 0 <= j < |fields| && fields[j] == b;
    SwapKeepsOrder(fields, i, j);
    SwapKeepsElements(fields, i, j);
    other := fields[i := b][j := a];
    assert other[i] != fields[i];
  }

  /** The sort has one possible answer exactly when no two keys of the operation tie. */
  lemma SortUniqueExactly(rules: Rules, operation: string, fields: seq<FieldKey>)
    requires SortOf(rules, operation, fields)
    ensures (forall other :: SortOf(rules, operation, other) ==> other == fields) <==> NoTies(rules, operation)
  {
    if NoTies(rules, operation) {
      forall other | SortOf(rules, operation, other)
        ensures other == fields
      {
        SortIsUnique(rules, operation, other, fields);
      }
    } else {
      var a, b :| a in rules && b in rules && a.operation == Text.TrimSpace(operation) == b.operation && Ties(a, b);
      var other := TiesAllowTwo(rules, operation, fields, a, b);
    }
  }

  /** What the order is: body, query, path, header, cookie, then other places; within a place by name. */
  lemma PlacesInOrder(rules: Rules, operation: string, fields: seq<FieldKey>, i: nat, j: nat)
    requires SortOf(rules, operation, fields) && i < j < |fields|
    ensures var a, b := fields[i].location, fields[j].location;
            && (b == "body" ==> a == "body") && (b == "query" ==> a in ["body", "query"])
            && (b == "path" ==> a in ["body", "query", "path"])
            && (b == "header" ==> a in ["body", "query", "path", "header"])
            && (b == "cookie" ==> a in ["body", "query", "path", "header", "cookie"])
            && (a == b ==> Text.Less(fields[i].field, fields[j].field))
  {
    var x, y := fields[i], fields[j];
    assert x in fields && y in fields && !FieldLess(y, x) && x != y;
    assert x.operation == y.operation;
    if x.location == y.location {
      Text.LessTotal(x.field, y.field);
    }
    PlacesRanked(x.location);
    PlacesRanked(y.location);
  }

  lemma PlacesRanked(place: string)
    ensures LocationOrder(place) <= 0 <==> place == "body"
    ensures LocationOrder(place) <= 1 <==> place in ["body", "query"]
    ensures LocationOrder(place) <= 2 <==> place in ["body", "query", "path"]
    ensures LocationOrder(place) <= 3 <==> place in ["body", "query", "path", "header"]
    ensures LocationOrder(place) <= 4 <==> place in ["body", "query", "path", "header", "cookie"]
  {
  }

  lemma SwapKeepsElements(fields: seq<FieldKey>, i: nat, j: nat)
    requires i < |fields| && j < |fields| && i != j
    ensures forall k :: k in fields[i := fields[j]][j := fields[i]] <==> k in fields
  {
    var swapped := fields[i := fields[j]][j := fields[i]];
    forall k | k in fields
      ensures k in swapped
    {
      var n :| 0 <= n < |fields| && fields[n] == k;
      assert swapped[if n == i then j else if n == j then i else n] == k;
    }
  }

  /** How many of the sorted keys are at known places: they come first. */
  function KnownCount(fields: seq<FieldKey>): (n: nat)
    ensures n <= |fields|
  {
    if fields == [] then 0
    else if KnownPlace(Last(fields)) then |fields|
    else KnownCount(fields[..|fields| - 1])
  }

  lemma {:induction false} KnownComeFirst(fields: seq<FieldKey>)
    requires Ordered(fields)
    ensures forall i :: 0 <= i < |fields| ==> (KnownPlace(fields[i]) <==> i < KnownCount(fields))
  {
    if fields != [] && !KnownPlace(Last(fields)) {
      var init := fields[..|fields| - 1];
      KnownComeFirst(init);
      assert forall i :: 0 <= i < |init| ==> fields[i] == init[i];
    }
  }

  /** Whatever ties there are, two sorts agree on the keys at known places. */
  lemma KnownPartIsUnique(rules: Rules, operation: string, a: seq<FieldKey>, b: seq<FieldKey>)
    requires SortOf(rules, operation, a) && SortOf(rules, operation, b)
    ensures a[..KnownCount(a)] == b[..KnownCount(b)]
  {
    FieldLessAsymmetric();
    KnownPart(rules, operation, a);
    KnownPart(rules, operation, b);
    var x, y := a[..KnownCount(a)], b[..KnownCount(b)];
    assert forall i :: 0 <= i < |x| ==> x[i] in x;
    assert forall i :: 0 <= i < |y| ==> y[i] in y;
    SortedUnique(x, y, FieldLess);
  }

  lemma KnownPart(rules: Rules, operation: string, fields: seq<FieldKey>)
    requires SortOf(rules, operation, fields)
    ensures var known := fields[..KnownCount(fields)];
            && StrictlySorted(known, FieldLess)
            && forall k :: k in known <==> k in rules && k.operation == Text.TrimSpace(operation) && KnownPlace(k)
  {
    KnownComeFirst(fields);
    var known := fields[..KnownCount(fields)];
    forall i, j | 0 <= i < j < |known|
      ensures FieldLess(known[i], known[j])
    {
      assert fields[i] in fields && fields[j] in fields;
      TiesExactly(fields[i], fields[j]);
    }
    forall k | k in fields && KnownPlace(k)
      ensures k in known
    {
      var i :| 0 <= i < |fields| && fields[i] == k;
      assert known[i] == k;
    }
    forall k | k in known
      ensures k in fields && KnownPlace(k)
    {
      var i :| 0 <= i < |known| && known[i] == k;
      assert fields[i] == k;
    }
  }

  /** With places outside the five there are ties, so the sort depends on the map order. */
  lemma UnknownPlacesTie(rules: Rules, a: FieldKey, b: FieldKey)
    requires a == FieldKey("op", "matrix", "f") && b == FieldKey("op", "label", "f") && rules == map[a := [], b := []]
    ensures SortOf(rules, "op", [a, b]) && SortOf(rules, "op", [b, a]) && [a, b] != [b, a]
  {
    assert Text.TrimSpace("op") == "op" by { Text.TrimFixed("op"); }
    assert a.location[0] != b.location[0];
    Text.LessTotal("f", "f");
  }

  /** The compiler only stores keys with known places. */
  lemma CompiledPlacesAreKnown(g: Schemas, ops: seq<Option<OperationDoc>>)
    requires WellFormed(g) && AllResolve(g, ops)
    ensures PlacesKnown(Store(g, map[], CatalogVisits(g, ops)))
  {
    forall k | k in Store(g, map[], CatalogVisits(g, ops))
      ensures KnownPlace(k)
    {
      RulesComeFromSites(g, ops, k);
      var v :| v in CatalogSites(g, ops) && StoresAt(g, v, k);
      var o :| o in ops && InOperation(g, o, v);
      SitePlaceIsKnown(g, o.value, v);
    }
  }

  lemma SitePlaceIsKnown(g: Schemas, o: OperationDoc, v: Site)
    ensures v in OperationSites(g, o) && v.Field? ==> KnownPlace(v.key)
  {
    var op, effective := Text.TrimSpace(o.id), Effective(o.pathParameters + o.parameters);
    if v in BodySites(g, op, o.body) {
      var m := MemberOf(MediaFamily(g, op, o.body), o.body.Keys, v);
      BodyPlaceIsKnown(g, op, o.body[m], v);
    } else if v in ParametersSites(op, effective) {
      var k := MemberOf(ParameterFamily(op, effective), effective.Keys, v);
      ParameterPlaceIsKnown(op, effective[k], v);
    }
  }

  lemma BodyPlaceIsKnown(g: Schemas, op: string, ref: Option<SchemaRef>, v: Site)
    requires v in Sites(g, op, ref, [], {})
    ensures v.Field? && KnownPlace(v.key)
  {
    var walk :| EndOf(g, op, ref, [], {}, walk) == Some(v);
    WalkField(g, op, ref, [], {}, walk);
  }

  lemma ParameterPlaceIsKnown(op: string, p: Parameter, v: Site)
    requires v in ParameterSites(op, p)
    ensures v.Field? && KnownPlace(v.key)
  {
    if v !in SchemaSites(op, p, p.schema) {
      var m := MemberOf(ContentFamily(op, p), p.content.Keys, v);
    }
  }

  /** So with the rules a document compiles to, the keys of an operation have one sort. */
  lemma CompiledSortIsUnique(g: Schemas, ops: seq<Option<OperationDoc>>, operation: string, a: seq<FieldKey>,
                             b: seq<FieldKey>)
    requires WellFormed(g) && AllResolve(g, ops)
    requires var rules := Store(g, map[], CatalogVisits(g, ops));
             SortOf(rules, operation, a) && SortOf(rules, operation, b)
    ensures a == b
  {
    var rules := Store(g, map[], CatalogVisits(g, ops));
    CompiledPlacesAreKnown(g, ops);
    KnownPlacesDoNotTie(rules, operation);
    SortIsUnique(rules, operation, a, b);
  }

  /** customRuleFields: the keys of one operation, filtered out of the map and sorted. */
  method CustomRuleFields(rules: Rules, operation: string) returns (fields: seq<FieldKey>)
    ensures SortOf(rules, operation, fields)
  {
    fields := [];
    var todo := rules.Keys;
    ghost var seen: set<FieldKey> := {};
    while todo != {}
      invariant todo + seen == rules.Keys && todo !! seen
      invariant forall k :: k in fields <==> k in seen && k.operation == Text.TrimSpace(operation)
      invariant Ordered(fields)
      decreases |todo|
    {
      var k :| k in todo;
      if k.operation == Text.TrimSpace(operation) {
        assert k !in fields;
        fields := Insert(fields, k);
      }
      todo, seen := todo - {k}, seen + {k};
    }
  }

  method Insert(fields: seq<FieldKey>, k: FieldKey) returns (r: seq<FieldKey>)
    requires k !in fields && Ordered(fields)
    ensures forall x :: x in r <==> x in fields || x == k
    ensures Ordered(r)
  {
    var n: nat := |fields|;
    while n > 0 && FieldLess(k, fields[n - 1])
      invariant n <= |fields|
      invariant forall i :: n <= i < |fields| ==> FieldLess(k, fields[i])
    {
      n := n - 1;
    }
    assert fields == fields[..n] + fields[n..];
    forall i | 0 <= i < n
      ensures fields[i] != k && !FieldLess(k, fields[i])
    {
      assert fields[i] in fields;
      NotLessThanPrefix(fields, k, n, i);
    }
    forall i | n <= i < |fields|
      ensures fields[i] != k && !FieldLess(fields[i], k)
    {
      NotBothLess(k, fields[i]);
    }
    InsertKeepsOrder(fields[..n], k, fields[n..]);
    r := fields[..n] + [k] + fields[n..];
  }

  ghost predicate Ordered(fields: seq<FieldKey>) {
    forall i, j :: 0 <= i < j < |fields| ==> fields[i] != fields[j] && !FieldLess(fields[j], fields[i])
  }

  lemma NotLessThanPrefix(fields: seq<FieldKey>, k: FieldKey, n: nat, i: nat)
    requires i < n <= |fields| && Ordered(fields) && !FieldLess(k, fields[n - 1])
    ensures !FieldLess(k, fields[i])
  {
    if i < n - 1 {
      NotLessTransitive(fields[i], fields[n - 1], k);
    }
  }

  lemma NotBothLess(a: FieldKey, b: FieldKey)
    requires FieldLess(a, b)
    ensures !FieldLess(b, a) && a != b
  {
    Text.LessTotal(a.field, b.field);
  }

  /** Whatever the order is: an element put between a part it is not less than and a part it is less
      than keeps the sequence ordered. */
  lemma InsertKeepsOrder(before: seq<FieldKey>, k: FieldKey, after: seq<FieldKey>)
    requires Ordered(before + after)
    requires forall i :: 0 <= i < |before| ==> before[i] != k && !FieldLess(k, before[i])
    requires forall i :: 0 <= i < |after| ==> after[i] != k && !FieldLess(after[i], k)
    ensures Ordered(before + [k] + after)
  {
    var all, r, n := before + after, before + [k] + after, |before|;
    forall i, j | 0 <= i < j < |r|
      ensures r[i] != r[j] && !FieldLess(r[j], r[i])
    {
      if i == n {
        assert r[j] == after[j - n - 1];
      } else if j == n {
        assert r[i] == before[i];
      } else {
        var i', j' := if i < n then i else i - 1, if j < n then j else j - 1;
        assert r[i] == all[i'] && r[j] == all[j'];
      }
    }
  }

  /** If b is not less than a, and c is not less than b, then c is not less than a. */
  lemma NotLessTransitive(a: FieldKey, b: FieldKey, c: FieldKey)
    requires !FieldLess(b, a) && !FieldLess(c, b)
    ensures !FieldLess(c, a)
  {
    Text.LessTotal(a.field, b.field);
    Text.LessTotal(b.field, c.field);
    Text.LessTotal(a.field, c.field);
    if FieldLess(c, a) && LocationOrder(a.location) == LocationOrder(b.location) == LocationOrder(c.location) {
      if a.field != b.field && b.field != c.field {
        Text.LessTransitive(a.field, b.field, c.field);
      }
    }
  }

  // The values a request holds.

  type Byte = n: int | 0 <= n < 256

  datatype Json = JNull | JString(text: string) | JObject(members: map<string, Json>) | JOther

  /** A byte stream: what reading it to the end yields, or a failure. */
  datatype Stream = Stream(data: seq<Byte>, fails: bool)

  datatype ReadError = ReadFailed | DecodeFailed | CookieFailed

  /** The body of a request: None for nil or NoBody; getBody makes a new stream when it is set. */
  class Request {
    var body: Option<Stream>
    var getBody: Option<Result<Stream, ReadError>>
    var contentLength: int

    constructor (body: Option<Stream>, getBody: Option<Result<Stream, ReadError>>, contentLength: int)
      ensures this.body == body && this.getBody == getBody && this.contentLength == contentLength
    {
      this.body, this.getBody, this.contentLength := body, getBody, contentLength;
    }

    /** What a copy of the body would yield. */
    function Copy(): Result<seq<Byte>, ReadError>
      reads this
    {
      if body.None? then Ok([])
      else if getBody.Some? then
        if getBody.value.Err? || getBody.value.value.fails then Err(ReadFailed) else Ok(getBody.value.value.data)
      else if body.value.fails then Err(ReadFailed) else Ok(body.value.data)
    }

    /** requestBodyCopy: after a successful copy the body yields what it would have yielded before. */
    method RequestBodyCopy() returns (r: Result<seq<Byte>, ReadError>)
      modifies this
      ensures r == old(Copy())
      ensures r.Ok? ==> body == old(body)
      ensures r.Ok? && body.Some? ==> getBody.Some? && Copy() == r
      ensures r.Ok? && body.Some? && old(getBody).None? ==> contentLength == |r.value|
    {
      if body.None? {
        return Ok([]);
      }
      if getBody.Some? {
        var again := getBody.value;
        return if again.Err? || again.value.fails then Err(ReadFailed) else Ok(again.value.data);
      }
      var stream := body.value;
      body := Some(Stream([], stream.fails));
      if stream.fails {
        return Err(ReadFailed);
      }
      contentLength := |stream.data|;
      getBody := Some(Ok(Stream(stream.data, false)));
      body := Some(getBody.value.value);
      r := Ok(stream.data);
    }
  }

  type Decoder = seq<Byte> -> Option<Option<map<string, Json>>>

  /** The object a body decodes to; an empty body and a JSON null are no object. */
  function Decoded(decode: Decoder, copy: Result<seq<Byte>, ReadError>): Result<Option<map<string, Json>>, ReadError> {
    if copy.Err? then Err(ReadFailed)
    else if copy.value == [] then Ok(None)
    else if decode(copy.value).None? then Err(DecodeFailed) else Ok(decode(copy.value).value)
  }

  /** Following the segments of a dotted path through nested objects to a string. */
  function StringAt(j: Json, segments: seq<string>): Option<string> {
    if segments == [] then (if j.JString? then Some(j.text) else None)
    else if !j.JObject? || segments[0] !in j.members || j.members[segments[0]].JNull? then None
    else StringAt(j.members[segments[0]], segments[1..])
  }

  // Header names.

  /** A character of an HTTP token. */
  predicate IsTokenChar(c: char) {
    'A' <= c <= 'Z' || 'a' <= c <= 'z' || '0' <= c <= '9' || c in "!#$%&'*+-.^_`|~"
  }

  function Upper(c: char): char { if 'a' <= c <= 'z' then (c as int - 32) as char else c }

  function Lower(c: char): char { if 'A' <= c <= 'Z' then (c as int + 32) as char else c }

  /** The first letter and every letter after a hyphen in upper case, the others in lower case. */
  function Capitalised(name: string, first: bool): (r: string)
    ensures |r| == |name|
  {
    if name == "" then ""
    else [if first then Upper(name[0]) else Lower(name[0])] + Capitalised(name[1..], name[0] == '-')
  }

  /** textproto.CanonicalMIMEHeaderKey: anything that is not a token is left alone. */
  function CanonicalHeader(name: string): string {
    if forall i :: 0 <= i < |name| ==> IsTokenChar(name[i]) then Capitalised(name, true) else name
  }

  predicate SameUpToCase(a: string, b: string) {
    |a| == |b| && forall i :: 0 <= i < |a| ==> Lower(a[i]) == Lower(b[i])
  }

  lemma {:induction false} CapitalisedIgnoresCase(a: string, b: string, first: bool)
    requires SameUpToCase(a, b)
    ensures Capitalised(a, first) == Capitalised(b, first) && SameUpToCase(Capitalised(a, first), a)
  {
    if a != "" {
      assert Lower(a[0]) == Lower(b[0]);
      assert forall i :: 0 <= i < |a| - 1 ==> Lower(a[1..][i]) == Lower(b[1..][i]);
      CapitalisedIgnoresCase(a[1..], b[1..], a[0] == '-');
      var tail := Capitalised(a[1..], a[0] == '-');
      assert forall i :: 1 <= i < |a| ==> Capitalised(a, first)[i] == tail[i - 1];
    }
  }

  /** A token character is visible ASCII and no delimiter (section 5.6.2 of RFC 9110). */
  lemma TokenCharsExactly(c: char)
    ensures IsTokenChar(c) <==> '!' <= c <= '~' && c !in "\"(),/:;<=>?@[\\]{}"
  {
  }

  lemma {:induction false} CapitalisedShape(name: string, first: bool, i: nat)
    requires i < |name|
    ensures var up := if i == 0 then first else name[i - 1] == '-';
            Capitalised(name, first)[i] == if up then Upper(name[i]) else Lower(name[i])
    decreases i
  {
    if i > 0 {
      CapitalisedShape(name[1..], name[0] == '-', i - 1);
    }
  }

  /** The canonical form of a token: a letter that starts it or follows a hyphen is in upper case, any other
      in lower case, and nothing else changes. Other names are their own canonical form. */
  lemma CanonicalExactly(name: string, i: nat)
    requires i < |name|
    ensures var token := forall n :: 0 <= n < |name| ==> IsTokenChar(name[n]);
            var c, r, up := name[i], CanonicalHeader(name), i == 0 || name[i - 1] == '-';
            && |r| == |name|
            && if token && up && 'a' <= c <= 'z' then r[i] as int == c as int - 32
               else if token && !up && 'A' <= c <= 'Z' then r[i] as int == c as int + 32
               else r[i] == c
  {
    CapitalisedShape(name, true, i);
  }

  /** Header names that differ only in the case of their letters are looked up as one, and names that
      differ otherwise never are. */
  lemma HeaderNamesFold(a: string, b: string)
    requires forall i :: 0 <= i < |a| ==> IsTokenChar(a[i])
    requires forall i :: 0 <= i < |b| ==> IsTokenChar(b[i])
    ensures CanonicalHeader(a) == CanonicalHeader(b) <==> SameUpToCase(a, b)
  {
    CapitalisedIgnoresCase(a, a, true);
    CapitalisedIgnoresCase(b, b, true);
    if SameUpToCase(a, b) {
      CapitalisedIgnoresCase(a, b, true);
    }
  }

  /** The values of a request outside its body, headers under their canonical names; a cookie that cannot
      be read is an error. */
  datatype Outside = Outside(
    query: map<string, seq<string>>,
    path: map<string, string>,
    headers: map<string, seq<string>>,
    cookies: map<string, Option<string>>)

  function First(values: map<string, seq<string>>, name: string): Option<string> {
    if name in values && values[name] != [] then Some(values[name][0]) else None
  }

  /** The value a field has in a request, if any. */
  function ValueOf(out: Outside, body: Result<Option<map<string, Json>>, ReadError>,
                   k: FieldKey): Result<Option<string>, ReadError> {
    if k.location == "body" then
      if body.Err? then Err(body.error)
      else Ok(if body.value.None? then None else StringAt(JObject(body.value.value), Text.Split(k.field, '.')))
    else if k.location == "query" then Ok(First(out.query, k.field))
    else if k.location == "path" then Ok(if k.field in out.path then Some(out.path[k.field]) else None)
    else if k.location == "header" then Ok(First(out.headers, CanonicalHeader(k.field)))
    else if k.location == "cookie" then
      if k.field !in out.cookies then Ok(None)
      else if out.cookies[k.field].None? then Err(CookieFailed) else Ok(out.cookies[k.field])
    else Ok(None)
  }

  /** Where the value of a field outside the body is: the first of the query or header values of its name, the
      path value, or the cookie; a cookie that cannot be read is the only error. */
  lemma ValueIsFound(out: Outside, body: Result<Option<map<string, Json>>, ReadError>, k: FieldKey, x: string)
    ensures var r, header := ValueOf(out, body, k), CanonicalHeader(k.field);
            && (k.location == "query" ==>
                  (r == Ok(Some(x)) <==> k.field in out.query && |out.query[k.field]| > 0
                                         && out.query[k.field][0] == x))
            && (k.location == "header" ==>
                  (r == Ok(Some(x)) <==> header in out.headers && |out.headers[header]| > 0
                                         && out.headers[header][0] == x))
            && (k.location == "path" ==> (r == Ok(Some(x)) <==> k.field in out.path && out.path[k.field] == x))
            && (k.location == "cookie" ==>
                  && (r == Ok(Some(x)) <==> k.field in out.cookies && out.cookies[k.field] == Some(x))
                  && (r == Err(CookieFailed) <==> k.field in out.cookies && out.cookies[k.field] == None))
            && (k.location != "body" ==> r.Ok? || (k.location == "cookie" && r == Err(CookieFailed)))
            && (k.location !in ["body", "query", "header", "path", "cookie"] ==> r == Ok(None))
  {
  }

  /** Where the value of a body field is: nowhere in an empty body or a null, in an object at the end of its
      dotted path; a body that cannot be read, or is there and cannot be decoded, is an error. */
  lemma BodyIsSearched(out: Outside, decode: Decoder, copy: Result<seq<Byte>, ReadError>, k: FieldKey)
    requires k.location == "body"
    ensures var r := ValueOf(out, Decoded(decode, copy), k);
            && (r == Err(ReadFailed) <==> copy.Err?)
            && (r == Err(DecodeFailed) <==> copy.Ok? && |copy.value| > 0 && decode(copy.value) == None)
            && (copy == Ok([]) ==> r == Ok(None))
            && (copy.Ok? && |copy.value| > 0 && decode(copy.value) == Some(None) ==> r == Ok(None))
            && (copy.Ok? && |copy.value| > 0 && decode(copy.value).Some? && decode(copy.value).value.Some? ==>
                  forall x :: r == Ok(Some(x)) <==>
                                LeadsTo(JObject(decode(copy.value).value.value), Text.Split(k.field, '.'), JString(x)))
  {
    if copy.Ok? && |copy.value| > 0 && decode(copy.value).Some? && decode(copy.value).value.Some? {
      forall x
        ensures ValueOf(out, Decoded(decode, copy), k) == Ok(Some(x)) <==>
                  LeadsTo(JObject(decode(copy.value).value.value), Text.Split(k.field, '.'), JString(x))
      {
        StringAtExactly(JObject(decode(copy.value).value.value), Text.Split(k.field, '.'), x);
      }
    }
  }

  /** The segments name members of nested objects, from one value down to another. */
  ghost predicate LeadsTo(from: Json, segments: seq<string>, to: Json) {
    exists chain :: IsChain(chain, from, segments, to)
  }

  ghost predicate IsChain(chain: seq<Json>, from: Json, segments: seq<string>, to: Json) {
    && |chain| == |segments| + 1 && chain[0] == from && chain[|segments|] == to
    && forall i :: 0 <= i < |segments| ==>
        chain[i].JObject? && segments[i] in chain[i].members && chain[i].members[segments[i]] == chain[i + 1]
  }

  lemma {:induction false} StringAtExactly(j: Json, segments: seq<string>, x: string)
    ensures StringAt(j, segments) == Some(x) <==> LeadsTo(j, segments, JString(x))
    decreases |segments|
  {
    if segments == [] {
      assert j == JString(x) ==> IsChain([j], j, segments, JString(x));
    } else if j.JObject? && segments[0] in j.members {
      var next := j.members[segments[0]];
      StringAtExactly(next, segments[1..], x);
      LeadsThrough(j, next, segments, JString(x));
    }
  }

  lemma LeadsThrough(j: Json, next: Json, segments: seq<string>, to: Json)
    requires segments != [] && j.JObject? && segments[0] in j.members && j.members[segments[0]] == next
    ensures LeadsTo(j, segments, to) <==> LeadsTo(next, segments[1..], to)
  {
    if LeadsTo(j, segments, to) {
      var chain :| IsChain(chain, j, segments, to);
      assert IsChain(chain[1..], next, segments[1..], to);
    }
    if LeadsTo(next, segments[1..], to) {
      var chain :| IsChain(chain, next, segments[1..], to);
      ChainGrows(chain, j, next, segments, to);
    }
  }

  lemma ChainGrows(chain: seq<Json>, j: Json, next: Json, segments: seq<string>, to: Json)
    requires segments != [] && j.JObject? && segments[0] in j.members && j.members[segments[0]] == next
    requires IsChain(chain, next, segments[1..], to)
    ensures IsChain([j] + chain, j, segments, to)
  {
    var whole := [j] + chain;
    forall i | 0 <= i < |segments|
      ensures whole[i].JObject? && segments[i] in whole[i].members && whole[i].members[segments[i]] == whole[i + 1]
    {
      if i > 0 {
        assert segments[i] == segments[1..][i - 1] && whole[i] == chain[i - 1] && whole[i + 1] == chain[i];
      }
    }
  }

  /** The values with the body loaded at most once, on the first body field. */
  class RequestValues {
    const request: Request
    const out: Outside
    const decode: Decoder
    ghost const copy: Result<seq<Byte>, ReadError>
    var loaded: bool
    var body: Result<Option<map<string, Json>>, ReadError>

    ghost predicate Valid()
      reads this, request
    {
      if loaded then body == Decoded(decode, copy) else request.Copy() == copy
    }

    constructor (request: Request, out: Outside, decode: Decoder)
      ensures Valid() && this.request == request && this.out == out && this.decode == decode && copy == request.Copy()
      ensures !loaded
    {
      this.request, this.out, this.decode := request, out, decode;
      this.copy := request.Copy();
      loaded, body := false, Ok(None);
    }

    method LoadBody()
      requires Valid()
      modifies this, request
      ensures Valid() && loaded && body == Decoded(decode, copy)
      ensures body != Err(ReadFailed) ==> request.body == old(request.body)
      ensures old(loaded) ==> unchanged(this) && unchanged(request)
    {
      if loaded {
        return;
      }
      loaded := true;
      var data := request.RequestBodyCopy();
      body := Decoded(decode, data);
    }

    method BodyString(path: string) returns (r: Result<Option<string>, ReadError>)
      requires Valid()
      modifies this, request
      ensures Valid() && r == ValueOf(out, Decoded(decode, copy), FieldKey("", "body", path))
      ensures r != Err(ReadFailed) ==> request.body == old(request.body)
    {
      LoadBody();
      if body.Err? {
        return Err(body.error);
      }
      if body.value.None? {
        return Ok(None);
      }
      var current, segments := JObject(body.value.value), Text.Split(path, '.');
      for i := 0 to |segments|
        invariant StringAt(JObject(body.value.value), segments) == StringAt(current, segments[i..])
      {
        assert segments[i..][1..] == segments[i + 1..];
        if !current.JObject? || segments[i] !in current.members || current.members[segments[i]].JNull? {
          return Ok(None);
        }
        current := current.members[segments[i]];
      }
      assert segments[|segments|..] == [];
      r := Ok(if current.JString? then Some(current.text) else None);
    }

    method StringValue(k: FieldKey) returns (r: Result<Option<string>, ReadError>)
      requires Valid()
      modifies this, request
      ensures Valid() && r == ValueOf(out, Decoded(decode, copy), k)
      ensures r != Err(ReadFailed) ==> request.body == old(request.body)
    {
      if k.location == "body" {
        r := BodyString(k.field);
      } else {
        r := ValueOf(out, Ok(None), k);
      }
    }
  }

  // The violations.

  datatype Violation = Violation(location: string, field: string, path: string, rule: string, message: string)

  type TimeParser = string -> Option<int>

  predicate IsLetter(c: char) { 'A' <= c <= 'Z' || 'a' <= c <= 'z' }

  predicate IsDigit(c: char) { '0' <= c <= '9' }

  method ContainsLetterAndDigit(value: string) returns (r: bool)
    ensures r <==> HasLetterAndDigit(value)
  {
    var hasLetter, hasDigit := false, false;
    for i := 0 to |value|
      invariant hasLetter <==> exists j :: 0 <= j < i && IsLetter(value[j])
      invariant hasDigit <==> exists j :: 0 <= j < i && IsDigit(value[j])
    {
      if IsLetter(value[i]) {
        hasLetter := true;
      }
      if IsDigit(value[i]) {
        hasDigit := true;
      }
    }
    r := hasLetter && hasDigit;
  }

  predicate HasLetterAndDigit(value: string) {
    (exists j :: 0 <= j < |value| && IsLetter(value[j])) && exists j :: 0 <= j < |value| && IsDigit(value[j])
  }

  predicate Passes(parse: TimeParser, rule: string, value: string) {
    if rule == "notBlank" then Text.TrimSpace(value) != ""
    else if rule == "containsLetterAndDigit" then HasLetterAndDigit(value)
    else if rule == "localDateTime" then parse(value).Some?
    else true
  }

  /** The top-level name of a body field, the whole name elsewhere. */
  function ReportedField(k: FieldKey): string {
    if k.location == "body" then Text.Split(k.field, '.')[0] else k.field
  }

  function Report(k: FieldKey, r: NamedRule): Violation {
    Violation(k.location, ReportedField(k), k.field, r.name, r.message)
  }

  /** The left time of a pair of query parameters is after the right one. */
  predicate Reversed(parse: TimeParser, out: Outside, left: string, right: string) {
    var l, r := First(out.query, left), First(out.query, right);
    l.Some? && r.Some? && parse(Text.TrimSpace(l.value)).Some? && parse(Text.TrimSpace(r.value)).Some?
    && parse(Text.TrimSpace(l.value)).value > parse(Text.TrimSpace(r.value)).value
  }

  predicate Fires(parse: TimeParser, out: Outside, c: CrossFieldRule) {
    c.rule == "notAfter" && Reversed(parse, out, c.left, c.right)
  }

  function CrossReport(c: CrossFieldRule): Violation { Violation("query", c.left, c.left, c.rule, c.message) }

  function RuleViolations(parse: TimeParser, k: FieldKey, rules: seq<NamedRule>, value: string): seq<Violation> {
    if rules == [] then []
    else
      RuleViolations(parse, k, rules[..|rules| - 1], value)
      + if Passes(parse, Last(rules).name, value) then [] else [Report(k, Last(rules))]
  }

  function CrossViolations(parse: TimeParser, out: Outside, rules: seq<CrossFieldRule>): seq<Violation> {
    if rules == [] then []
    else
      var c := Last(rules);
      CrossViolations(parse, out, rules[..|rules| - 1])
      + if Fires(parse, out, c) then [CrossReport(c)] else []
  }

  /** The violations of fields in their order; the first value that cannot be read ends the check. */
  function FieldViolations(rules: Rules, parse: TimeParser, out: Outside,
                           body: Result<Option<map<string, Json>>, ReadError>,
                           fields: seq<FieldKey>): Result<seq<Violation>, ReadError>
    requires forall k :: k in fields ==> k in rules
  {
    if fields == [] then Ok([])
    else
      assert Last(fields) in fields;
      var before := FieldViolations(rules, parse, out, body, fields[..|fields| - 1]);
      var value := ValueOf(out, body, Last(fields));
      if before.Err? then before
      else if value.Err? then Err(value.error)
      else if value.value.None? then before
      else Ok(before.value + RuleViolations(parse, Last(fields), rules[Last(fields)], value.value.value))
  }

  /** The answer for a request whose body decodes to `body`, given the operation's fields in order. */
  function Verdict(rules: Rules, cross: map<string, seq<CrossFieldRule>>, parse: TimeParser, out: Outside,
                   body: Result<Option<map<string, Json>>, ReadError>, operation: string, fields: seq<FieldKey>)
    : Result<seq<Violation>, ReadError>
    requires forall k :: k in fields ==> k in rules
  {
    var own := FieldViolations(rules, parse, out, body, fields);
    if own.Err? then own else Ok(own.value + CrossViolations(parse, out, CrossOf(cross, operation)))
  }

  function CrossOf(cross: map<string, seq<CrossFieldRule>>, operation: string): seq<CrossFieldRule> {
    if Text.TrimSpace(operation) in cross then cross[Text.TrimSpace(operation)] else []
  }

  /** A key at an unknown place has no value, so it takes no part in the answer. */
  lemma {:induction false} UnknownPlacesAreSilent(rules: Rules, parse: TimeParser, out: Outside,
                                                  body: Result<Option<map<string, Json>>, ReadError>,
                                                  fields: seq<FieldKey>)
    requires forall k :: k in fields ==> k in rules
    ensures FieldViolations(rules, parse, out, body, fields)
            == FieldViolations(rules, parse, out, body, fields[..KnownCount(fields)])
  {
    if fields != [] {
      if KnownPlace(Last(fields)) {
        assert fields[..|fields|] == fields;
      } else {
        var init := fields[..|fields| - 1];
        UnknownPlacesAreSilent(rules, parse, out, body, init);
        assert fields[..KnownCount(fields)] == init[..KnownCount(init)];
        assert Last(fields) in fields;
      }
    }
  }

  /** So every sort of the keys leads to one verdict, even with ties. */
  lemma VerdictIsUnique(rules: Rules, cross: map<string, seq<CrossFieldRule>>, parse: TimeParser, out: Outside,
                        body: Result<Option<map<string, Json>>, ReadError>, operation: string, a: seq<FieldKey>,
                        b: seq<FieldKey>)
    requires SortOf(rules, operation, a) && SortOf(rules, operation, b)
    ensures Verdict(rules, cross, parse, out, body, operation, a)
            == Verdict(rules, cross, parse, out, body, operation, b)
  {
    UnknownPlacesAreSilent(rules, parse, out, body, a);
    UnknownPlacesAreSilent(rules, parse, out, body, b);
    KnownPartIsUnique(rules, operation, a, b);
  }

  /** validateCustomRules: the verdict on the operation's fields, whichever way they are sorted, and
      nothing for a blank operation; a body it loads stays readable downstream, whether it decodes or not. */
  method ValidateCustomRules(rules: Rules, cross: map<string, seq<CrossFieldRule>>, operation: string,
                             request: Request, out: Outside, decode: Decoder, parse: TimeParser)
    returns (r: Result<seq<Violation>, ReadError>)
    modifies request
    ensures Text.TrimSpace(operation) == "" ==> r == Ok([])
    ensures Text.TrimSpace(operation) != "" ==>
              forall fields :: SortOf(rules, operation, fields) ==>
                r == Verdict(rules, cross, parse, out, Decoded(decode, old(request.Copy())), operation, fields)
    ensures r != Err(ReadFailed) ==> request.body == old(request.body)
  {
    if Text.TrimSpace(operation) == "" {
      return Ok([]);
    }
    var values := new RequestValues(request, out, decode);
    ghost var body := Decoded(decode, values.copy);
    var keys := CustomRuleFields(rules, operation);
    forall fields | SortOf(rules, operation, fields)
      ensures Verdict(rules, cross, parse, out, body, operation, fields)
              == Verdict(rules, cross, parse, out, body, operation, keys)
    {
      VerdictIsUnique(rules, cross, parse, out, body, operation, keys, fields);
    }
    r := CheckFields(rules, keys, values, parse);
    if r.Err? {
      return;
    }
    var crossed := CheckCross(parse, out, CrossOf(cross, operation));
    r := Ok(r.value + crossed);
  }

  /** A document compiled and then used on a request: the verdict is a function of the document and the
      request alone, by the rules that the last visited site of each field leaves. */
  method CompileAndValidate(document: Document, operation: string, request: Request, out: Outside, decode: Decoder,
                            parse: TimeParser)
    returns (r: Option<Result<seq<Violation>, ReadError>>)
    requires DocumentOk(document)
    modifies request
    ensures var g, ops := document.schemas, OperationsOf(document);
            r.Some? <==> AllOk(g, CatalogSites(g, ops)) && Consistent(DeclaredBy(g, CatalogSites(g, ops)))
    ensures r.Some? && Text.TrimSpace(operation) == "" ==> r.value == Ok([])
    ensures r.Some? && Text.TrimSpace(operation) != "" ==>
              var rules := Store(document.schemas, map[], CatalogVisits(document.schemas, OperationsOf(document)));
              forall fields :: SortOf(rules, operation, fields) ==>
                r.value == Verdict(rules, AllCrossFields(map[], OperationsOf(document)), parse, out,
                                   Decoded(decode, old(request.Copy())), operation, fields)
    ensures r != Some(Err(ReadFailed)) ==> request.body == old(request.body)
  {
    var catalog := CompileValidationCatalog(Some(document));
    if catalog.None? {
      return None;
    }
    var verdict := ValidateCustomRules(catalog.value.fieldRules, catalog.value.crossFieldRules, operation, request, out,
                                       decode, parse);
    r := Some(verdict);
  }

  /** The loop over the fields; the first value that cannot be read ends it. */
  method CheckFields(rules: Rules, keys: seq<FieldKey>, values: RequestValues, parse: TimeParser)
    returns (r: Result<seq<Violation>, ReadError>)
    requires values.Valid() && forall k :: k in keys ==> k in rules
    modifies values, values.request
    ensures r == FieldViolations(rules, parse, values.out, Decoded(values.decode, values.copy), keys)
    ensures r != Err(ReadFailed) ==> values.request.body == old(values.request.body)
  {
    ghost var body := Decoded(values.decode, values.copy);
    var violations := [];
    for i := 0 to |keys|
      invariant values.Valid() && values.request.body == old(values.request.body)
      invariant FieldViolations(rules, parse, values.out, body, keys[..i]) == Ok(violations)
    {
      FieldViolationsNext(rules, parse, values.out, body, keys, i);
      var value := values.StringValue(keys[i]);
      if value.Err? {
        FieldViolationsFail(rules, parse, values.out, body, keys, i + 1);
        return Err(value.error);
      }
      if value.value.Some? {
        var own := CheckRules(parse, keys[i], rules[keys[i]], value.value.value);
        violations := violations + own;
      }
    }
    assert keys[..|keys|] == keys;
    r := Ok(violations);
  }

  /** The verdict is a clean bill exactly when every field of the operation can be read and passes all
      its rules when present, and no cross-field rule fires: the order of the fields drops out. */
  lemma NothingToReport(rules: Rules, cross: map<string, seq<CrossFieldRule>>, parse: TimeParser, out: Outside,
                        body: Result<Option<map<string, Json>>, ReadError>, operation: string, fields: seq<FieldKey>)
    requires SortOf(rules, operation, fields)
    ensures Verdict(rules, cross, parse, out, body, operation, fields) == Ok([]) <==>
              && (forall k :: k in rules && k.operation == Text.TrimSpace(operation) ==>
                CleanField(rules, parse, out, body, k))
              && (Text.TrimSpace(operation) in cross ==>
                    forall c :: c in cross[Text.TrimSpace(operation)] && c.rule == "notAfter" ==>
                      !OutOfOrder(parse, out, c.left, c.right))
  {
    NoFieldViolations(rules, parse, out, body, fields);
    NoCrossViolations(parse, out, CrossOf(cross, operation));
    var own := FieldViolations(rules, parse, out, body, fields);
    var crossed := CrossViolations(parse, out, CrossOf(cross, operation));
    assert own.Ok? ==> (own.value + crossed == [] <==> own.value == [] && crossed == []);
  }

  method CheckRules(parse: TimeParser, k: FieldKey, rules: seq<NamedRule>, value: string)
    returns (violations: seq<Violation>)
    ensures violations == RuleViolations(parse, k, rules, value)
  {
    violations := [];
    for i := 0 to |rules|
      invariant violations == RuleViolations(parse, k, rules[..i], value)
    {
      assert rules[..i + 1][..i] == rules[..i];
      if !Passes(parse, rules[i].name, value) {
        violations := violations + [Report(k, rules[i])];
      }
    }
    assert rules[..|rules|] == rules;
  }

  method CheckCross(parse: TimeParser, out: Outside, rules: seq<CrossFieldRule>) returns (violations: seq<Violation>)
    ensures violations == CrossViolations(parse, out, rules)
  {
    violations := [];
    for i := 0 to |rules|
      invariant violations == CrossViolations(parse, out, rules[..i])
    {
      assert rules[..i + 1][..i] == rules[..i];
      if Fires(parse, out, rules[i]) {
        violations := violations + [CrossReport(rules[i])];
      }
    }
    assert rules[..|rules|] == rules;
  }

  lemma FieldViolationsNext(rules: Rules, parse: TimeParser, out: Outside,
                            body: Result<Option<map<string, Json>>, ReadError>,
                            keys: seq<FieldKey>, i: nat)
    requires i < |keys| && forall k :: k in keys ==> k in rules
    ensures keys[i] in rules && keys[..i + 1][..i] == keys[..i] && Last(keys[..i + 1]) == keys[i]
    ensures forall k :: k in keys[..i] ==> k in rules
  {
    assert keys[i] in keys;
  }

  lemma {:induction false} FieldViolationsFail(rules: Rules, parse: TimeParser, out: Outside,
                                               body: Result<Option<map<string, Json>>, ReadError>,
                                               keys: seq<FieldKey>, n: nat)
    requires n <= |keys| && (forall k :: k in keys ==> k in rules)
    requires FieldViolations(rules, parse, out, body, keys[..n]).Err?
    ensures FieldViolations(rules, parse, out, body, keys) == FieldViolations(rules, parse, out, body, keys[..n])
    decreases |keys|
  {
    if n == |keys| {
      assert keys[..n] == keys;
    } else {
      var init := keys[..|keys| - 1];
      assert init[..n] == keys[..n];
      FieldViolationsFail(rules, parse, out, body, init, n);
    }
  }

  /** What each rule forbids; rules of other names forbid nothing. */
  ghost predicate Forbids(parse: TimeParser, rule: string, value: string) {
    || (rule == "notBlank" && forall i :: 0 <= i < |value| ==> Text.IsSpace(value[i]))
    || (rule == "containsLetterAndDigit"
        && forall i :: 0 <= i < |value| ==> !('A' <= value[i] <= 'Z' || 'a' <= value[i] <= 'z'))
    || (rule == "containsLetterAndDigit" && forall i :: 0 <= i < |value| ==> !('0' <= value[i] <= '9'))
    || (rule == "localDateTime" && parse(value).None?)
  }

  lemma PassesUnlessForbidden(parse: TimeParser, rule: string, value: string)
    ensures Passes(parse, rule, value) <==> !Forbids(parse, rule, value)
  {
    Text.BlankExactly(value);
  }

  /** The value of a field can be read and, if present, passes every rule of the field. */
  ghost predicate CleanField(rules: Rules, parse: TimeParser, out: Outside,
                       body: Result<Option<map<string, Json>>, ReadError>, k: FieldKey)
    requires k in rules
  {
    && ValueOf(out, body, k).Ok?
    && (ValueOf(out, body, k).value.Some? ==>
          forall n :: 0 <= n < |rules[k]| ==> !Forbids(parse, rules[k][n].name, ValueOf(out, body, k).value.value))
  }

  /** The field part of the list is empty exactly when every field is clean. */
  lemma {:induction false} NoFieldViolations(rules: Rules, parse: TimeParser, out: Outside,
                                             body: Result<Option<map<string, Json>>, ReadError>,
                                             fields: seq<FieldKey>)
    requires forall k :: k in fields ==> k in rules
    ensures FieldViolations(rules, parse, out, body, fields) == Ok([])
            <==> forall k :: k in fields ==> CleanField(rules, parse, out, body, k)
  {
    if fields != [] {
      var init, k := fields[..|fields| - 1], Last(fields);
      assert fields == init + [k];
      assert forall x :: x in fields <==> x in init || x == k;
      NoFieldViolations(rules, parse, out, body, init);
      LastField(rules, parse, out, body, fields);
    }
  }

  lemma LastField(rules: Rules, parse: TimeParser, out: Outside, body: Result<Option<map<string, Json>>, ReadError>,
                  fields: seq<FieldKey>)
    requires fields != [] && forall k :: k in fields ==> k in rules
    ensures Last(fields) in rules
    ensures FieldViolations(rules, parse, out, body, fields) == Ok([])
            <==> FieldViolations(rules, parse, out, body, fields[..|fields| - 1]) == Ok([])
                 && CleanField(rules, parse, out, body, Last(fields))
  {
    var k := Last(fields);
    assert k in fields;
    var value := ValueOf(out, body, k);
    if value.Ok? && value.value.Some? {
      NoRuleViolations(parse, k, rules[k], value.value.value);
      var before := FieldViolations(rules, parse, out, body, fields[..|fields| - 1]);
      var own := RuleViolations(parse, k, rules[k], value.value.value);
      assert before.Ok? ==> (before.value + own == [] <==> before.value == [] && own == []);
    }
  }

  // What the list holds.

  /** The reported field of a body value is the first segment of its path. */
  lemma ReportedFieldIsTopLevel(k: FieldKey)
    ensures k.location == "body" ==>
              '.' !in ReportedField(k) && (ReportedField(k) == k.field || ReportedField(k) + "." <= k.field)
    ensures k.location != "body" ==> ReportedField(k) == k.field
  {
    Text.JoinSplit(k.field, '.');
  }

  /** The violation v reports rule r of field k: its place and path, and as field the name, or of a body field
      the first segment of the path. */
  ghost predicate Reports(v: Violation, k: FieldKey, r: NamedRule) {
    && v == Violation(k.location, v.field, k.field, r.name, r.message)
    && if k.location == "body" then '.' !in v.field && (v.field == k.field || v.field + "." <= k.field)
       else v.field == k.field
  }

  lemma ReportsOnly(v: Violation, k: FieldKey, r: NamedRule)
    ensures Reports(v, k, r) <==> v == Report(k, r)
  {
    ReportedFieldIsTopLevel(k);
    if k.location == "body" && Reports(v, k, r) {
      FirstSegment(v.field, k.field);
    }
  }

  /** The part of a path before its first dot, or all of it, is its first segment. */
  lemma FirstSegment(a: string, path: string)
    requires '.' !in a && (a == path || a + "." <= path)
    ensures Text.Split(path, '.')[0] == a
  {
    if a == path {
      Text.SplitOne(a, '.');
    } else {
      var rest := path[|a| + 1..];
      assert path == a + ['.'] + rest;
      Text.SplitHead(a, rest, '.');
    }
  }

  lemma {:induction false} RuleReports(parse: TimeParser, k: FieldKey, rules: seq<NamedRule>, value: string,
                                       v: Violation)
    ensures v in RuleViolations(parse, k, rules, value)
            <==> exists n :: 0 <= n < |rules| && Forbids(parse, rules[n].name, value) && Reports(v, k, rules[n])
  {
    if rules != [] {
      var init, last := rules[..|rules| - 1], Last(rules);
      RuleReports(parse, k, init, value, v);
      PassesUnlessForbidden(parse, last.name, value);
      ReportsOnly(v, k, last);
      assert forall n :: 0 <= n < |init| ==> init[n] == rules[n];
    }
  }

  /** The first query value of a name, without the spaces around it, is a time. */
  ghost predicate HasTime(parse: TimeParser, out: Outside, name: string, t: int) {
    name in out.query && |out.query[name]| > 0 && parse(Text.TrimSpace(out.query[name][0])) == Some(t)
  }

  /** Both query values are times, the left one later than the right one. */
  ghost predicate OutOfOrder(parse: TimeParser, out: Outside, left: string, right: string) {
    exists l, r :: HasTime(parse, out, left, l) && HasTime(parse, out, right, r) && l > r
  }

  /** Never with equal times, and never both ways round. */
  lemma OneWayRound(parse: TimeParser, out: Outside, left: string, right: string)
    ensures OutOfOrder(parse, out, left, right) ==> !OutOfOrder(parse, out, right, left)
    ensures forall t :: HasTime(parse, out, left, t) && HasTime(parse, out, right, t) ==>
              !OutOfOrder(parse, out, left, right)
  {
  }

  lemma FiresExactly(parse: TimeParser, out: Outside, c: CrossFieldRule)
    ensures Fires(parse, out, c) <==> c.rule == "notAfter" && OutOfOrder(parse, out, c.left, c.right)
  {
    if Reversed(parse, out, c.left, c.right) {
      var l := parse(Text.TrimSpace(out.query[c.left][0])).value;
      var r := parse(Text.TrimSpace(out.query[c.right][0])).value;
      assert HasTime(parse, out, c.left, l) && HasTime(parse, out, c.right, r);
    }
  }

  lemma {:induction false} CrossReports(parse: TimeParser, out: Outside, rules: seq<CrossFieldRule>, v: Violation)
    ensures v in CrossViolations(parse, out, rules)
            <==> exists c :: c in rules && c.rule == "notAfter" && OutOfOrder(parse, out, c.left, c.right)
                             && v == Violation("query", c.left, c.left, "notAfter", c.message)
  {
    if rules != [] {
      var init, last := rules[..|rules| - 1], Last(rules);
      assert rules == init + [last];
      assert forall c :: c in rules <==> c in init || c == last;
      CrossReports(parse, out, init, v);
      FiresExactly(parse, out, last);
    }
  }

  /** Field k is present and breaks a rule that v reports. */
  ghost predicate Broken(rules: Rules, parse: TimeParser, out: Outside,
                         body: Result<Option<map<string, Json>>, ReadError>, k: FieldKey, v: Violation)
    requires k in rules
  {
    && ValueOf(out, body, k).Ok? && ValueOf(out, body, k).value.Some?
    && exists n :: 0 <= n < |rules[k]| && Forbids(parse, rules[k][n].name, ValueOf(out, body, k).value.value)
                   && Reports(v, k, rules[k][n])
  }

  lemma {:induction false} FieldReports(rules: Rules, parse: TimeParser, out: Outside,
                                        body: Result<Option<map<string, Json>>, ReadError>, fields: seq<FieldKey>,
                                        v: Violation)
    requires (forall k :: k in fields ==> k in rules) && FieldViolations(rules, parse, out, body, fields).Ok?
    ensures v in FieldViolations(rules, parse, out, body, fields).value
            <==> exists k :: k in fields && Broken(rules, parse, out, body, k, v)
  {
    if fields != [] {
      var init, k := fields[..|fields| - 1], Last(fields);
      assert fields == init + [k] && k in fields;
      assert forall x :: x in fields <==> x in init || x == k;
      FieldReports(rules, parse, out, body, init, v);
      var value := ValueOf(out, body, k);
      if value.value.Some? {
        RuleReports(parse, k, rules[k], value.value.value, v);
      }
    }
  }

  /** A violation is in the verdict exactly when a present value breaks the rule it reports, or the
      cross-field rule it reports fires. */
  lemma VerdictReports(rules: Rules, cross: map<string, seq<CrossFieldRule>>, parse: TimeParser, out: Outside,
                       body: Result<Option<map<string, Json>>, ReadError>, operation: string, fields: seq<FieldKey>,
                       v: Violation)
    requires SortOf(rules, operation, fields)
    requires Verdict(rules, cross, parse, out, body, operation, fields).Ok?
    ensures v in Verdict(rules, cross, parse, out, body, operation, fields).value <==>
              || (exists k :: k in rules && k.operation == Text.TrimSpace(operation)
                              && Broken(rules, parse, out, body, k, v))
              || (Text.TrimSpace(operation) in cross
                  && exists c :: c in cross[Text.TrimSpace(operation)] && c.rule == "notAfter"
                                 && OutOfOrder(parse, out, c.left, c.right)
                                 && v == Violation("query", c.left, c.left, "notAfter", c.message))
  {
    FieldReports(rules, parse, out, body, fields, v);
    CrossReports(parse, out, CrossOf(cross, operation), v);
  }

  /** A violation of rule r, which the extension e puts on field k, by a present value. */
  ghost predicate BreaksExtension(parse: TimeParser, e: FieldExtension, k: FieldKey, value: string, v: Violation) {
    || (e.notBlank && "notBlank" in e.messages && (forall n :: 0 <= n < |value| ==> Text.IsSpace(value[n]))
        && Reports(v, k, NamedRule("notBlank", e.messages["notBlank"])))
    || exists r :: r in e.customRules && Forbids(parse, r.name, value) && Reports(v, k, r)
  }

  /** From the document to the verdict: of a field with a present value exactly those violations are reported
      that break the extension of its last ruled site, a blank value its notBlank mark among them. */
  lemma CompiledFieldReports(g: Schemas, ops: seq<Option<OperationDoc>>, i: nat, e: FieldExtension,
                             cross: map<string, seq<CrossFieldRule>>, parse: TimeParser, out: Outside,
                             body: Result<Option<map<string, Json>>, ReadError>, operation: string,
                             fields: seq<FieldKey>, v: Violation)
    requires WellFormed(g) && AllResolve(g, ops)
    ensures var rules := Store(g, map[], CatalogVisits(g, ops));
            && AllOk(g, CatalogSites(g, ops)) && DecidedBy(g, ops, i, e) && SortOf(rules, operation, fields)
            && Verdict(rules, cross, parse, out, body, operation, fields).Ok? ==>
              var key := CatalogVisits(g, ops)[i].key;
              && key.operation == Text.TrimSpace(operation)
              && v.location == key.location && v.path == key.field && v.rule != "notAfter" ==>
                (v in Verdict(rules, cross, parse, out, body, operation, fields).value
                 <==> exists value :: ValueOf(out, body, key) == Ok(Some(value))
                                      && BreaksExtension(parse, e, key, value, v))
  {
    var rules := Store(g, map[], CatalogVisits(g, ops));
    if AllOk(g, CatalogSites(g, ops)) && DecidedBy(g, ops, i, e) && SortOf(rules, operation, fields)
       && Verdict(rules, cross, parse, out, body, operation, fields).Ok? {
      var key := CatalogVisits(g, ops)[i].key;
      CompiledRules(g, ops, i, e);
      VerdictReports(rules, cross, parse, out, body, operation, fields, v);
      BrokenExactly(rules, e, parse, out, body, key, v);
      assert forall k :: k in rules && Broken(rules, parse, out, body, k, v) ==>
               k.location == v.location && k.field == v.path;
    }
  }

  lemma BrokenExactly(rules: Rules, e: FieldExtension, parse: TimeParser, out: Outside,
                      body: Result<Option<map<string, Json>>, ReadError>, k: FieldKey, v: Violation)
    requires k in rules && (e.notBlank ==> "notBlank" in e.messages)
    requires rules[k] == if e.notBlank then [NamedRule("notBlank", e.messages["notBlank"])] + e.customRules
                         else e.customRules
    ensures Broken(rules, parse, out, body, k, v) <==>
              exists value :: ValueOf(out, body, k) == Ok(Some(value)) && BreaksExtension(parse, e, k, value, v)
  {
    forall value | ValueOf(out, body, k) == Ok(Some(value))
      ensures Broken(rules, parse, out, body, k, v) <==> BreaksExtension(parse, e, k, value, v)
    {
      BrokenInOrder(parse, e, rules[k], k, value, v);
    }
  }

  lemma BrokenInOrder(parse: TimeParser, e: FieldExtension, rules: seq<NamedRule>, k: FieldKey, value: string,
                      v: Violation)
    requires e.notBlank ==> "notBlank" in e.messages
    requires rules == if e.notBlank then [NamedRule("notBlank", e.messages["notBlank"])] + e.customRules
                      else e.customRules
    ensures (exists n :: 0 <= n < |rules| && Forbids(parse, rules[n].name, value) && Reports(v, k, rules[n]))
            <==> BreaksExtension(parse, e, k, value, v)
  {
    var first := if e.notBlank then 1 else 0;
    forall n | 0 <= n < |e.customRules|
      ensures rules[first + n] == e.customRules[n]
    {
    }
    if n :| 0 <= n < |rules| && Forbids(parse, rules[n].name, value) && Reports(v, k, rules[n]) {
      if n >= first {
        assert e.customRules[n - first] == rules[n];
      }
    }
    if r :| r in e.customRules && Forbids(parse, r.name, value) && Reports(v, k, r) {
      var n :| 0 <= n < |e.customRules| && e.customRules[n] == r;
      assert rules[first + n] == r;
    }
    if e.notBlank {
      assert rules[0] == NamedRule("notBlank", e.messages["notBlank"]);
    }
  }

  lemma {:induction false} NoRuleViolations(parse: TimeParser, k: FieldKey, rules: seq<NamedRule>, value: string)
    ensures RuleViolations(parse, k, rules, value) == []
            <==> forall n :: 0 <= n < |rules| ==> !Forbids(parse, rules[n].name, value)
  {
    if rules != [] {
      var init := rules[..|rules| - 1];
      NoRuleViolations(parse, k, init, value);
      PassesUnlessForbidden(parse, Last(rules).name, value);
      assert forall n :: 0 <= n < |init| ==> init[n] == rules[n];
    }
  }

  lemma {:induction false} NoCrossViolations(parse: TimeParser, out: Outside, rules: seq<CrossFieldRule>)
    ensures CrossViolations(parse, out, rules) == []
            <==> forall c :: c in rules && c.rule == "notAfter" ==> !OutOfOrder(parse, out, c.left, c.right)
  {
    if rules != [] {
      var init, last := rules[..|rules| - 1], Last(rules);
      assert rules == init + [last];
      assert forall c :: c in rules <==> c in init || c == last;
      NoCrossViolations(parse, out, init);
      FiresExactly(parse, out, last);
    }
  }
}
