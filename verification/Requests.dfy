/**
 What the engine's verdict means for a client: which requests an operation accepts, and when
 every request the old operation accepted is still accepted by the new one.
 */
module Requests {
  import opened Prelude
  import opened OpenApi
  import opened BreakingChanges
  import opened Exactness

  // The largest finite IEEE 754 single- and double-precision numbers.
  const MAX_FLOAT: real := 340282346638528859811704183484516925440.0
  const TWO_TO_THE_97: real := 158456325028528675187087900672.0
  const MAX_DOUBLE: real := 9007199254740991.0 * 2.0
    * TWO_TO_THE_97 * TWO_TO_THE_97 * TWO_TO_THE_97 * TWO_TO_THE_97 * TWO_TO_THE_97
    * TWO_TO_THE_97 * TWO_TO_THE_97 * TWO_TO_THE_97 * TWO_TO_THE_97 * TWO_TO_THE_97

  predicate Integral(r: real) {
    r.Floor as real == r
  }

  /** v is a value of the type or number format called t (OpenAPI Specification 3.0.3, section 4.4). */
  predicate HasType(t: string, v: Value) {
    match v
    case Null => t == "null"
    case Text(_) => t == "string"
    case Boolean(_) => t == "boolean"
    case List(_) => t == "array"
    case Record(_) => t == "object"
    case Number(r) =>
      || t == "number"
      || (t == "integer" && Integral(r))
      || (t == "int32" && Integral(r) && -2147483648.0 <= r <= 2147483647.0)
      || (t == "int64" && Integral(r) && -9223372036854775808.0 <= r <= 9223372036854775807.0)
      || (t == "float" && -MAX_FLOAT <= r <= MAX_FLOAT)
      || (t == "double" && -MAX_DOUBLE <= r <= MAX_DOUBLE)
  }

  datatype Body = Body(mediaType: string, fields: map<string, Value>)

  datatype Request = Request(parameters: map<string, Value>, body: Option<Body>)

  predicate TypeAdmits(schema: Schema, v: Value) {
    schema.types == [] || (exists t :: t in schema.types && HasType(t, v)) || (schema.nullable && v.Null?)
  }

  ghost predicate EnumAdmits(schema: Schema, v: Value) {
    schema.enumeration == [] || exists e :: e in schema.enumeration && e.value == v
  }

  ghost predicate SchemaAccepts(schema: Option<Schema>, v: Value) {
    schema.Some? ==> TypeAdmits(schema.value, v) && EnumAdmits(schema.value, v) && schema.value.allows(v)
  }

  /** The parameter p applies to op: op's own, or its path item's under a name op does not use. */
  ghost predicate Applies(op: Operation, p: Parameter) {
    Some(p) in op.parameters || (Some(p) in op.inherited && !Declares(op.parameters, p.name))
  }

  ghost predicate ParameterAccepts(p: Parameter, request: Request) {
    if p.name in request.parameters then SchemaAccepts(p.schema, request.parameters[p.name]) else !p.required
  }

  /** What a schema says about the object as a whole. */
  ghost predicate ObjectAdmits(schema: Schema, fields: map<string, Value>) {
    TypeAdmits(schema, Record(fields)) && EnumAdmits(schema, Record(fields)) && schema.allows(Record(fields))
  }

  ghost predicate FieldsAccepted(schema: Option<Schema>, fields: map<string, Value>) {
    schema.Some? ==>
      && (forall f :: f in schema.value.required ==> f in fields)
      && (forall f :: f in schema.value.properties && f in fields ==> SchemaAccepts(schema.value.properties[f], fields[f]))
      && ObjectAdmits(schema.value, fields)
  }

  ghost predicate BodyAccepts(body: Option<RequestBody>, sent: Option<Body>) {
    body.Some? ==>
      if sent.Some?
      then sent.value.mediaType in body.value.content
        && FieldsAccepted(body.value.content[sent.value.mediaType], sent.value.fields)
      else !body.value.required
  }

  ghost predicate Accepts(op: Operation, request: Request) {
    && (forall p :: Applies(op, p) ==> ParameterAccepts(p, request))
    && BodyAccepts(op.requestBody, request.body)
  }

  /** The request sends nothing the operation does not declare. */
  ghost predicate OnlyDeclared(op: Operation, request: Request) {
    && (forall name :: name in request.parameters ==> Declares(op.parameters, name) || Declares(op.inherited, name))
    && (request.body.Some? ==>
        && op.requestBody.Some?
        && HasSchema(op.requestBody.value.content, request.body.value.mediaType)
        && request.body.value.fields.Keys <= op.requestBody.value.content[request.body.value.mediaType].value.properties.Keys)
  }

  predicate HasSchema(content: Content, mt: string) {
    mt in content && content[mt].Some?
  }

  predicate Typed(schema: Option<Schema>) {
    schema.Some? && |schema.value.types| == 1
  }

  /** No two of an operation's own parameters share a name, nor two of its path item. */
  ghost predicate WellNamed(op: Operation) {
    UniqueNames(op.parameters) && UniqueNames(op.inherited)
  }

  /** The engine's own findings for one method of one path. */
  ghost predicate Silent(oldOp: Operation, newOp: Operation, verb: Verb) {
    forall f: Finding | !f.EndpointRemoved? && verb in MethodsOf(PassOf(f)) :: OperationCount(oldOp, newOp, f) == 0
  }

  // ---- What the engine does not look at ---------------------------------------------------

  /** A parameter both operations declare does not turn from optional to required. */
  ghost predicate StaysOptional(oldOp: Operation, newOp: Operation) {
    forall name, p, q | Named(oldOp.parameters, p, name) && Named(newOp.parameters, q, name) :: q.required ==> p.required
  }

  /** The new enum has every value the old schema accepted. */
  ghost predicate EnumKeeps(oldSchema: Option<Schema>, newSchema: Schema) {
    forall v | SchemaAccepts(oldSchema, v) :: EnumAdmits(newSchema, v)
  }

  /** The new schema lets v through by all but its enum and, unless v is null or the old schema has no type or several, its type. */
  ghost predicate RestAllows(oldSchema: Option<Schema>, newSchema: Schema, v: Value) {
    newSchema.allows(v) && (v.Null? || !Typed(oldSchema) ==> TypeAdmits(newSchema, v))
  }

  /** So it does for every value the old schema accepted. */
  ghost predicate RestKeeps(oldSchema: Option<Schema>, newSchema: Schema) {
    forall v | SchemaAccepts(oldSchema, v) :: RestAllows(oldSchema, newSchema, v)
  }

  /** A parameter without an enum does not get one that leaves out values it took. */
  ghost predicate NoEnumIntroduced(oldOp: Operation, newOp: Operation) {
    forall name, p, q | Named(oldOp.parameters, p, name) && Named(newOp.parameters, q, name) ::
      !HasEnum(p) && q.schema.Some? ==> EnumKeeps(p.schema, q.schema.value)
  }

  /**
   Where both have an enum, a member the old parameter took whose printed text is still listed is itself
   listed: the engine compares the texts Go prints, and different values can print alike.
   */
  ghost predicate EnumsKept(oldOp: Operation, newOp: Operation) {
    forall name, p, q | Named(oldOp.parameters, p, name) && Named(newOp.parameters, q, name) && HasEnum(p) && HasEnum(q) ::
      forall e | e in p.schema.value.enumeration && SchemaAccepts(p.schema, e.value) && e.printed in q.schema.value.PrintedEnum() ::
        EnumAdmits(q.schema.value, e.value)
  }

  /** A parameter's bounds, patterns, nullability and the like do not get tighter, nor does its type where it had none or several. */
  ghost predicate KeywordsKept(oldOp: Operation, newOp: Operation) {
    forall name, p, q | Named(oldOp.parameters, p, name) && Named(newOp.parameters, q, name) ::
      q.schema.Some? ==> RestKeeps(p.schema, q.schema.value)
  }

  /** Both operations themselves declare the name, which is the case the engine looks at. */
  ghost predicate ComparedByEngine(oldOp: Operation, newOp: Operation, q: Parameter) {
    Some(q) in newOp.parameters && Declares(oldOp.parameters, q.name)
  }

  /** Parameters declared on a path item, before or after, take what they took, and a new one is optional. */
  ghost predicate InheritedKept(oldOp: Operation, newOp: Operation) {
    forall q | Applies(newOp, q) && !ComparedByEngine(oldOp, newOp, q) ::
      && (forall p | Applies(oldOp, p) && p.name == q.name ::
            (q.required ==> p.required) && forall v | SchemaAccepts(p.schema, v) :: SchemaAccepts(q.schema, v))
      && ((forall p | Applies(oldOp, p) :: p.name != q.name) ==> !q.required)
  }

  /** The body does not become mandatory. */
  predicate BodyStaysOptional(oldOp: Operation, newOp: Operation) {
    newOp.requestBody.Some? && newOp.requestBody.value.required ==> oldOp.requestBody.Some? && oldOp.requestBody.value.required
  }

  /** The media types the old body could be sent in are kept, with what their schemas say beyond types. */
  ghost predicate BodyKept(oldOp: Operation, newOp: Operation, verb: Verb) {
    oldOp.requestBody.Some? && newOp.requestBody.Some? ==>
      forall mt, fields | HasSchema(oldOp.requestBody.value.content, mt) && Sends(oldOp.requestBody.value.content[mt].value, fields) ::
        && mt in newOp.requestBody.value.content
        && (newOp.requestBody.value.content[mt].Some? ==>
              ContentTakes(oldOp.requestBody.value.content, mt, newOp.requestBody.value.content[mt].value, verb, fields))
  }

  /** An object of declared fields that the schema accepts. */
  ghost predicate Sends(schema: Schema, fields: map<string, Value>) {
    FieldsAccepted(Some(schema), fields) && fields.Keys <= schema.properties.Keys
  }

  /** Requiring f of media type mt goes unseen: the engine skips the method's bodies, or another old media type required f. */
  ghost predicate RequiredUnseen(oldContent: Content, mt: string, f: string, verb: Verb) {
    verb !in BODY_METHODS || exists mt' :: mt' != mt && mt' in oldContent && RequiresField(oldContent, mt', f)
  }

  /** Of what the engine does not look at, nothing in the new schema keeps out an object the old one took. */
  ghost predicate ContentTakes(oldContent: Content, mt: string, newSchema: Schema, verb: Verb, fields: map<string, Value>)
    requires HasSchema(oldContent, mt) && fields.Keys <= oldContent[mt].value.properties.Keys
  {
    && (forall f :: f in newSchema.required && RequiredUnseen(oldContent, mt, f, verb) ==> f in fields)
    && (forall f | f in fields && HasProperty(newSchema, f) ::
          EnumAdmits(newSchema.properties[f].value, fields[f])
          && RestAllows(oldContent[mt].value.properties[f], newSchema.properties[f].value, fields[f]))
    && ObjectAdmits(newSchema, fields)
  }

  ghost predicate ContentKept(oldContent: Content, mt: string, newSchema: Schema, verb: Verb)
    requires HasSchema(oldContent, mt)
  {
    forall fields | Sends(oldContent[mt].value, fields) :: ContentTakes(oldContent, mt, newSchema, verb, fields)
  }

  /** None of the tightenings the engine does not look for. */
  ghost predicate NoHiddenTightening(oldOp: Operation, newOp: Operation, verb: Verb) {
    && StaysOptional(oldOp, newOp)
    && NoEnumIntroduced(oldOp, newOp)
    && EnumsKept(oldOp, newOp)
    && KeywordsKept(oldOp, newOp)
    && InheritedKept(oldOp, newOp)
    && BodyStaysOptional(oldOp, newOp)
    && BodyKept(oldOp, newOp, verb)
  }

  /** Every request the old operation accepted is still accepted. */
  ghost predicate KeepsClients(oldOp: Operation, newOp: Operation) {
    forall request :: Accepts(oldOp, request) && OnlyDeclared(oldOp, request) ==> Accepts(newOp, request)
  }

  // ---- Types ------------------------------------------------------------------------------

  /** The widening table denotes type inclusion. */
  lemma WideningIsInclusion(oldType: string, newType: string, v: Value)
    requires !Changed(oldType, newType) && HasType(oldType, v)
    ensures HasType(newType, v)
  {
  }

  const NUMERIC_TYPES: seq<string> := ["integer", "number", "int32", "int64", "float", "double"]

  /** Inclusions of numeric types the table refuses. */
  predicate RefusedThoughWider(oldType: string, newType: string) {
    || (oldType == "int64" && newType in ["integer", "float", "double"])
    || (oldType == "int32" && newType in ["float", "double"])
    || (oldType == "double" && newType == "number")
  }

  /** A value of the old type that a narrower new type lacks. */
  function Lost(oldType: string, newType: string): Value {
    if oldType == "int64" then Number(2147483648.0)
    else if oldType == "double" && newType == "float" then Number(MAX_DOUBLE)
    else if oldType in ["number", "float", "double"] && newType !in ["float", "double"] then Number(0.5)
    else if newType in ["float", "double"] then Number((MAX_DOUBLE.Floor + 1) as real)
    else Number(9223372036854775808.0)
  }

  lemma LostIsLost(oldType: string, newType: string)
    requires oldType in NUMERIC_TYPES && newType in NUMERIC_TYPES
    requires Changed(oldType, newType) && !RefusedThoughWider(oldType, newType)
    ensures HasType(oldType, Lost(oldType, newType)) && !HasType(newType, Lost(oldType, newType))
  {
    assert Integral(2147483648.0) && Integral(9223372036854775808.0) && !Integral(0.5);
    assert MAX_FLOAT < MAX_DOUBLE < (MAX_DOUBLE.Floor + 1) as real;
  }

  lemma RefusedIsWider(oldType: string, newType: string, v: Value)
    requires RefusedThoughWider(oldType, newType) && HasType(oldType, v)
    ensures HasType(newType, v)
  {
    assert 9223372036854775808.0 <= MAX_FLOAT <= MAX_DOUBLE;
  }

  /** On the numeric types the table is inclusion itself, but for the inclusions it refuses. */
  lemma TableIsInclusion(oldType: string, newType: string)
    requires oldType in NUMERIC_TYPES && newType in NUMERIC_TYPES
    ensures (forall v :: HasType(oldType, v) ==> HasType(newType, v))
       <==> !Changed(oldType, newType) || RefusedThoughWider(oldType, newType)
  {
    if Changed(oldType, newType) && !RefusedThoughWider(oldType, newType) {
      LostIsLost(oldType, newType);
    } else {
      forall v | HasType(oldType, v) ensures HasType(newType, v) {
        if RefusedThoughWider(oldType, newType) {
          RefusedIsWider(oldType, newType, v);
        } else {
          WideningIsInclusion(oldType, newType, v);
        }
      }
    }
  }

  // ---- Enums ------------------------------------------------------------------------------

  /** Every value of type t is in the enum of schema. */
  ghost predicate EnumCovers(schema: Schema, t: string) {
    forall v :: HasType(t, v) ==> EnumAdmits(schema, v)
  }

  /** A schema of one type and no other keyword. */
  ghost predicate Plain(schema: Schema, t: string) {
    schema.types == [t] && schema.enumeration == [] && !schema.nullable && forall v :: schema.allows(v)
  }

  /** For such a schema an enum introduced keeps all it took exactly when it covers the type. */
  lemma PlainEnumKeepsIff(oldSchema: Schema, newSchema: Schema, t: string)
    requires Plain(oldSchema, t)
    ensures EnumKeeps(Some(oldSchema), newSchema) <==> EnumCovers(newSchema, t)
  {
    forall v ensures SchemaAccepts(Some(oldSchema), v) <==> HasType(t, v) {
      assert t in oldSchema.types;
    }
  }

  function EnumValues(enumeration: seq<EnumValue>): (values: set<Value>)
    ensures |values| <= |enumeration|
    ensures forall e :: e in enumeration ==> e.value in values
  {
    if enumeration == [] then {} else {enumeration[0].value} + EnumValues(enumeration[1..])
  }

  /** An enum admits no more values than it lists. */
  lemma EnumIsFinite(schema: Schema, candidates: set<Value>)
    requires schema.enumeration != [] && |candidates| > |schema.enumeration|
    ensures exists v :: v in candidates && !EnumAdmits(schema, v)
  {
    if forall v | v in candidates :: EnumAdmits(schema, v) {
      assert candidates <= EnumValues(schema.enumeration);
      SubsetIsSmaller(candidates, EnumValues(schema.enumeration));
    }
  }

  /** The i-th of infinitely many values of a type. */
  function Sample(t: string, i: nat): Value {
    match t
    case "string" => Text(seq(i, _ => 'x'))
    case "array" => List(seq(i, _ => Null))
    case "object" => Record(map["x" := Number(i as real)])
    case "float" => Number(1.0 / (i + 1) as real)
    case "double" => Number(1.0 / (i + 1) as real)
    case _ => Number(i as real)
  }

  const UNBOUNDED_TYPES: seq<string> := ["string", "number", "integer", "array", "object", "float", "double"]

  lemma SamplesDiffer(t: string, i: nat, j: nat)
    requires i != j
    ensures Sample(t, i) != Sample(t, j)
  {
    if t == "object" {
      assert Sample(t, i).fields["x"] != Sample(t, j).fields["x"];
    } else if t == "float" || t == "double" {
      if Sample(t, i) == Sample(t, j) {
        ReciprocalsDiffer((i + 1) as real, (j + 1) as real);
      }
    } else if t == "string" {
      assert |Sample(t, i).text| == i && |Sample(t, j).text| == j;
    } else if t == "array" {
      assert |Sample(t, i).items| == i && |Sample(t, j).items| == j;
    }
  }

  lemma ReciprocalsDiffer(a: real, b: real)
    requires a > 0.0 && b > 0.0 && 1.0 / a == 1.0 / b
    ensures a == b
  {
    var x := 1.0 / a;
    assert x * a == 1.0 && x * b == 1.0;
    assert a == a * (x * b) == (a * x) * b;
  }

  lemma {:induction false} SamplesAre(t: string, n: nat)
    ensures var samples := set i | 0 <= i < n :: Sample(t, i); |samples| == n
  {
    if n > 0 {
      SamplesAre(t, n - 1);
      var before := set i | 0 <= i < n - 1 :: Sample(t, i);
      if Sample(t, n - 1) in before {
        var i :| 0 <= i < n - 1 && Sample(t, i) == Sample(t, n - 1);
        SamplesDiffer(t, i, n - 1);
      }
      assert (set i | 0 <= i < n :: Sample(t, i)) == before + {Sample(t, n - 1)};
    }
  }

  lemma SampleHasType(t: string, i: nat)
    requires t in UNBOUNDED_TYPES
    ensures HasType(t, Sample(t, i))
  {
    var r := 1.0 / (i + 1) as real;
    assert r * (i + 1) as real == 1.0;
    assert 0.0 <= r <= 1.0;
  }

  lemma UnboundedNeedsNoEnum(schema: Schema, t: string)
    requires t in UNBOUNDED_TYPES
    ensures EnumCovers(schema, t) <==> schema.enumeration == []
  {
    if schema.enumeration != [] {
      var n := |schema.enumeration| + 1;
      SamplesAre(t, n);
      EnumIsFinite(schema, set i | 0 <= i < n :: Sample(t, i));
      var v :| v in (set i | 0 <= i < n :: Sample(t, i)) && !EnumAdmits(schema, v);
      var i :| 0 <= i < n && v == Sample(t, i);
      SampleHasType(t, i);
    }
  }

  function Whole(i: int): Value {
    Number(i as real)
  }

  /** It lists every integer of the range. */
  ghost predicate ListsAll(schema: Schema, lo: int, hi: int) {
    forall i: int | lo <= i <= hi :: EnumAdmits(schema, Whole(i))
  }

  /**
   An enum covers an unbounded type, or one with infinitely many values, only when there is none; it covers
   booleans, null and the sized integers exactly when it lists all of them, which takes 2^32 or 2^64 members.
   */
  lemma EnumCoversIff(schema: Schema)
    ensures forall t | t in UNBOUNDED_TYPES :: EnumCovers(schema, t) <==> schema.enumeration == []
    ensures EnumCovers(schema, "boolean") <==> EnumAdmits(schema, Boolean(true)) && EnumAdmits(schema, Boolean(false))
    ensures EnumCovers(schema, "null") <==> EnumAdmits(schema, Null)
    ensures EnumCovers(schema, "int32") <==> ListsAll(schema, -2147483648, 2147483647)
    ensures EnumCovers(schema, "int64") <==> ListsAll(schema, -9223372036854775808, 9223372036854775807)
    ensures EnumCovers(schema, "int32") ==> schema.enumeration == [] || |schema.enumeration| >= 4294967296
    ensures EnumCovers(schema, "int64") ==> schema.enumeration == [] || |schema.enumeration| >= 18446744073709551616
  {
    forall t | t in UNBOUNDED_TYPES ensures EnumCovers(schema, t) <==> schema.enumeration == [] {
      UnboundedNeedsNoEnum(schema, t);
    }
    assert HasType("boolean", Boolean(true)) && HasType("boolean", Boolean(false)) && HasType("null", Null);
    SizedCoversIff(schema, "int32", -2147483648, 2147483647);
    SizedCoversIff(schema, "int64", -9223372036854775808, 9223372036854775807);
  }

  lemma {:induction false} RangeHas(lo: int, n: nat)
    ensures |set i: int | lo <= i < lo + n :: Whole(i)| == n
  {
    if n > 0 {
      RangeHas(lo, n - 1);
      assert (set i: int | lo <= i < lo + n :: Whole(i))
        == (set i: int | lo <= i < lo + (n - 1) :: Whole(i)) + {Whole(lo + n - 1)};
    }
  }

  lemma SizedCoversIff(schema: Schema, t: string, lo: int, hi: int)
    requires lo <= hi && (forall v :: HasType(t, v) <==> v.Number? && Integral(v.number) && lo as real <= v.number <= hi as real)
    ensures EnumCovers(schema, t) <==> ListsAll(schema, lo, hi)
    ensures EnumCovers(schema, t) ==> schema.enumeration == [] || |schema.enumeration| >= hi - lo + 1
  {
    if EnumCovers(schema, t) {
      forall i: int | lo <= i <= hi ensures EnumAdmits(schema, Whole(i)) {
        assert HasType(t, Whole(i));
      }
      if schema.enumeration != [] && |schema.enumeration| < hi - lo + 1 {
        RangeHas(lo, hi - lo + 1);
        EnumIsFinite(schema, set i: int | lo <= i < lo + (hi - lo + 1) :: Whole(i));
      }
    }
    if ListsAll(schema, lo, hi) {
      forall v | HasType(t, v) ensures EnumAdmits(schema, v) {
        assert v == Whole(v.number.Floor);
      }
    }
  }

  // ---- Soundness --------------------------------------------------------------------------

  lemma SilentMeansUnbroken(oldOp: Operation, newOp: Operation, verb: Verb, f: Finding)
    requires Silent(oldOp, newOp, verb) && UniqueNames(oldOp.parameters)
    requires !f.EndpointRemoved? && verb in MethodsOf(PassOf(f))
    ensures !Violates(oldOp, newOp, f)
  {
    CountsAreViolations(oldOp, newOp, f);
  }

  /** A value the old parameter allowed is allowed by the new one of that name, both the operations' own. */
  lemma ValueStillAllowed(oldOp: Operation, newOp: Operation, verb: Verb, p: Parameter, q: Parameter, v: Value)
    requires verb in CHECKED_METHODS && Silent(oldOp, newOp, verb) && WellNamed(oldOp)
    requires NoEnumIntroduced(oldOp, newOp) && EnumsKept(oldOp, newOp) && KeywordsKept(oldOp, newOp)
    requires Some(p) in oldOp.parameters && Some(q) in newOp.parameters && p.name == q.name
    requires SchemaAccepts(p.schema, v)
    ensures SchemaAccepts(q.schema, v)
  {
    var name := p.name;
    assert Named(oldOp.parameters, p, name) && Named(newOp.parameters, q, name);
    if q.schema.Some? {
      TypeStillAllowed(oldOp, newOp, verb, p, q, v);
      EnumStillAllowed(oldOp, newOp, verb, p, q, v);
      assert RestKeeps(p.schema, q.schema.value);
    }
  }

  lemma TypeStillAllowed(oldOp: Operation, newOp: Operation, verb: Verb, p: Parameter, q: Parameter, v: Value)
    requires verb in CHECKED_METHODS && Silent(oldOp, newOp, verb) && WellNamed(oldOp)
    requires KeywordsKept(oldOp, newOp)
    requires Named(oldOp.parameters, p, p.name) && Named(newOp.parameters, q, p.name) && q.schema.Some?
    requires SchemaAccepts(p.schema, v)
    ensures TypeAdmits(q.schema.value, v)
  {
    assert RestKeeps(p.schema, q.schema.value);
    if Typed(p.schema) && !v.Null? {
      var oldType := p.schema.value.types[0];
      var newType := if TypeOf(q).Some? then TypeOf(q).value else "";
      SilentMeansUnbroken(oldOp, newOp, verb, ParameterTypeChanged(p.name, oldType, newType));
      assert TypeOf(p) == Some(oldType) && !Changed(oldType, newType);
      assert HasType(oldType, v);
      WideningIsInclusion(oldType, newType, v);
    }
  }

  lemma EnumStillAllowed(oldOp: Operation, newOp: Operation, verb: Verb, p: Parameter, q: Parameter, v: Value)
    requires verb in CHECKED_METHODS && Silent(oldOp, newOp, verb) && UniqueNames(oldOp.parameters)
    requires NoEnumIntroduced(oldOp, newOp) && EnumsKept(oldOp, newOp)
    requires Named(oldOp.parameters, p, p.name) && Named(newOp.parameters, q, p.name) && q.schema.Some?
    requires SchemaAccepts(p.schema, v)
    ensures EnumAdmits(q.schema.value, v)
  {
    if HasEnum(q) && HasEnum(p) {
      var missing := p.schema.value.PrintedEnum() - q.schema.value.PrintedEnum();
      SilentMeansUnbroken(oldOp, newOp, verb, EnumValuesRemoved(p.name, missing));
      assert missing == {};
      var e :| e in p.schema.value.enumeration && e.value == v;
      assert e.printed in p.schema.value.PrintedEnum() && e.printed !in missing;
    } else if HasEnum(q) {
      assert EnumKeeps(p.schema, q.schema.value);
    }
  }

  lemma OwnParameterStillAccepted(oldOp: Operation, newOp: Operation, verb: Verb, request: Request, q: Parameter)
    requires verb in CHECKED_METHODS && Silent(oldOp, newOp, verb) && WellNamed(oldOp)
    requires NoHiddenTightening(oldOp, newOp, verb)
    requires Accepts(oldOp, request) && ComparedByEngine(oldOp, newOp, q)
    ensures ParameterAccepts(q, request)
  {
    var d :| d in oldOp.parameters && d.Some? && d.value.name == q.name;
    var p := d.value;
    assert Named(newOp.parameters, q, q.name) && Named(oldOp.parameters, p, q.name);
    assert Applies(oldOp, p) && ParameterAccepts(p, request);
    if q.name in request.parameters {
      ValueStillAllowed(oldOp, newOp, verb, p, q, request.parameters[q.name]);
    }
  }

  lemma DeclaredApplies(op: Operation, name: string) returns (p: Parameter)
    requires Declares(op.parameters, name) || Declares(op.inherited, name)
    ensures Applies(op, p) && p.name == name
  {
    if Declares(op.parameters, name) {
      var d :| d in op.parameters && d.Some? && d.value.name == name;
      p := d.value;
    } else {
      var d :| d in op.inherited && d.Some? && d.value.name == name;
      p := d.value;
    }
  }

  lemma ParametersStillAccepted(oldOp: Operation, newOp: Operation, verb: Verb, request: Request, q: Parameter)
    requires verb in CHECKED_METHODS && Silent(oldOp, newOp, verb) && WellNamed(oldOp)
    requires NoHiddenTightening(oldOp, newOp, verb)
    requires Accepts(oldOp, request) && OnlyDeclared(oldOp, request) && Applies(newOp, q)
    ensures ParameterAccepts(q, request)
  {
    if ComparedByEngine(oldOp, newOp, q) {
      OwnParameterStillAccepted(oldOp, newOp, verb, request, q);
    } else if p :| Applies(oldOp, p) && p.name == q.name {
      assert ParameterAccepts(p, request);
    } else if q.name in request.parameters {
      var p := DeclaredApplies(oldOp, q.name);
      assert false;
    }
  }

  /** The old body schema's fields, accepted by the new one. */
  lemma FieldsStillAccepted(oldOp: Operation, newOp: Operation, verb: Verb, mt: string, fields: map<string, Value>)
    requires verb in CHECKED_METHODS && Silent(oldOp, newOp, verb) && WellNamed(oldOp)
    requires oldOp.requestBody.Some? && newOp.requestBody.Some? && BodyKept(oldOp, newOp, verb)
    requires HasSchema(oldOp.requestBody.value.content, mt) && Sends(oldOp.requestBody.value.content[mt].value, fields)
    ensures mt in newOp.requestBody.value.content && FieldsAccepted(newOp.requestBody.value.content[mt], fields)
  {
    var oldContent, newContent := oldOp.requestBody.value.content, newOp.requestBody.value.content;
    assert mt in newContent;
    if newContent[mt].Some? {
      var old', new' := oldContent[mt].value, newContent[mt].value;
      assert ContentTakes(oldContent, mt, new', verb, fields);
      forall f | f in new'.required ensures f in fields {
        if !RequiredUnseen(oldContent, mt, f, verb) {
          SilentMeansUnbroken(oldOp, newOp, verb, RequiredFieldAdded(f));
          assert RequiresField(newContent, mt, f);
          var mt' :| mt' in oldContent && RequiresField(oldContent, mt', f);
          assert mt' == mt;
        }
      }
      forall f | f in new'.properties && f in fields ensures SchemaAccepts(new'.properties[f], fields[f]) {
        if new'.properties[f].Some? {
          PropertyStillAccepted(oldOp, newOp, verb, mt, f, fields[f]);
        }
      }
    }
  }

  lemma PropertyStillAccepted(oldOp: Operation, newOp: Operation, verb: Verb, mt: string, f: string, v: Value)
    requires verb in CHECKED_METHODS && Silent(oldOp, newOp, verb) && UniqueNames(oldOp.parameters)
    requires oldOp.requestBody.Some? && newOp.requestBody.Some?
    requires HasSchema(oldOp.requestBody.value.content, mt) && HasSchema(newOp.requestBody.value.content, mt)
    requires f in oldOp.requestBody.value.content[mt].value.properties && HasProperty(newOp.requestBody.value.content[mt].value, f)
    requires SchemaAccepts(oldOp.requestBody.value.content[mt].value.properties[f], v)
    requires var new' := newOp.requestBody.value.content[mt].value.properties[f].value;
      EnumAdmits(new', v) && RestAllows(oldOp.requestBody.value.content[mt].value.properties[f], new', v)
    ensures SchemaAccepts(newOp.requestBody.value.content[mt].value.properties[f], v)
  {
    var oldContent, newContent := oldOp.requestBody.value.content, newOp.requestBody.value.content;
    var old', new' := oldContent[mt].value.properties[f], newContent[mt].value.properties[f].value;
    if Typed(old') && new'.types != [] && !v.Null? {
      var oldType, newType := old'.value.types[0], new'.types[0];
      assert HasType(oldType, v);
      SilentMeansUnbroken(oldOp, newOp, verb, BodyFieldTypeChanged(f, oldType, newType));
      assert FieldHasType(oldContent, mt, f, oldType) && FieldHasType(newContent, mt, f, newType);
      WideningIsInclusion(oldType, newType, v);
    }
  }

  /**
   Soundness of a silent engine: absent the tightenings it does not look for, old clients keep working.
   */
  lemma SilentKeepsClients(oldOp: Operation, newOp: Operation, verb: Verb)
    requires verb in CHECKED_METHODS && Silent(oldOp, newOp, verb) && WellNamed(oldOp)
    requires NoHiddenTightening(oldOp, newOp, verb)
    ensures KeepsClients(oldOp, newOp)
  {
    forall request | Accepts(oldOp, request) && OnlyDeclared(oldOp, request) ensures Accepts(newOp, request) {
      forall q | Applies(newOp, q) ensures ParameterAccepts(q, request) {
        ParametersStillAccepted(oldOp, newOp, verb, request, q);
      }
      if newOp.requestBody.Some? && request.body.Some? {
        FieldsStillAccepted(oldOp, newOp, verb, request.body.value.mediaType, request.body.value.fields);
      }
    }
  }

  // ---- Necessity --------------------------------------------------------------------------

  lemma OneParameterNamed(op: Operation, p: Parameter, q: Parameter)
    requires UniqueNames(op.parameters) && UniqueNames(op.inherited) && Applies(op, p) && Applies(op, q) && p.name == q.name
    ensures p == q
  {
    if Some(p) in op.parameters {
      assert Declares(op.parameters, p.name);
    }
    if Some(q) in op.parameters {
      assert Declares(op.parameters, q.name);
    }
  }

  /** Leaving out an optional parameter, or giving it another allowed value, keeps a request acceptable. */
  lemma RequestWith(op: Operation, p: Parameter, request: Request, request': Request)
    requires UniqueNames(op.parameters) && UniqueNames(op.inherited) && Applies(op, p)
    requires Accepts(op, request) && OnlyDeclared(op, request) && ParameterAccepts(p, request')
    requires request'.body == request.body
    requires request'.parameters - {p.name} == request.parameters - {p.name}
    ensures Accepts(op, request') && OnlyDeclared(op, request')
  {
    forall d | Applies(op, d) ensures ParameterAccepts(d, request') {
      if d.name == p.name {
        OneParameterNamed(op, d, p);
      } else {
        assert d.name in request'.parameters <==> d.name in request'.parameters - {p.name};
        assert d.name in request.parameters <==> d.name in request.parameters - {p.name};
        assert d.name in request.parameters ==>
          request'.parameters[d.name] == (request'.parameters - {p.name})[d.name];
        assert d.name in request.parameters ==>
          request.parameters[d.name] == (request.parameters - {p.name})[d.name];
        assert ParameterAccepts(d, request);
      }
    }
    forall name | name in request'.parameters ensures Declares(op.parameters, name) || Declares(op.inherited, name) {
      if name != p.name {
        assert name in request'.parameters - {p.name};
      } else {
        assert Some(p) in op.parameters ==> Declares(op.parameters, name);
        assert Some(p) in op.inherited ==> Declares(op.inherited, name);
      }
    }
  }

  /** What a new parameter has to put up with: every value the old one of its name took, and its absence. */
  lemma ParameterPutsUp(oldOp: Operation, newOp: Operation, base: Request, p: Parameter, q: Parameter)
    requires WellNamed(oldOp) && Accepts(oldOp, base) && OnlyDeclared(oldOp, base)
    requires KeepsClients(oldOp, newOp) && Applies(oldOp, p) && Applies(newOp, q) && p.name == q.name
    ensures q.required ==> p.required
    ensures forall v | SchemaAccepts(p.schema, v) :: SchemaAccepts(q.schema, v)
  {
    if !p.required {
      var without := base.(parameters := base.parameters - {p.name});
      assert without.parameters - {p.name} == base.parameters - {p.name};
      RequestWith(oldOp, p, base, without);
      assert Accepts(newOp, without) && ParameterAccepts(q, without);
    }
    forall v | SchemaAccepts(p.schema, v) ensures SchemaAccepts(q.schema, v) {
      var with := base.(parameters := base.parameters[p.name := v]);
      assert with.parameters - {p.name} == base.parameters - {p.name};
      RequestWith(oldOp, p, base, with);
      assert Accepts(newOp, with) && ParameterAccepts(q, with);
    }
  }

  lemma ParameterTighteningBreaks(oldOp: Operation, newOp: Operation, base: Request)
    requires WellNamed(oldOp) && Accepts(oldOp, base) && OnlyDeclared(oldOp, base)
    requires KeepsClients(oldOp, newOp)
    ensures StaysOptional(oldOp, newOp) && NoEnumIntroduced(oldOp, newOp) && EnumsKept(oldOp, newOp) && KeywordsKept(oldOp, newOp)
  {
    forall name, p, q | Named(oldOp.parameters, p, name) && Named(newOp.parameters, q, name)
      ensures q.required ==> p.required
      ensures q.schema.Some? ==> EnumKeeps(p.schema, q.schema.value) && RestKeeps(p.schema, q.schema.value)
    {
      ParameterPutsUp(oldOp, newOp, base, p, q);
    }
  }

  lemma InheritedTighteningBreaks(oldOp: Operation, newOp: Operation, base: Request)
    requires WellNamed(oldOp) && Accepts(oldOp, base) && OnlyDeclared(oldOp, base)
    requires KeepsClients(oldOp, newOp)
    ensures InheritedKept(oldOp, newOp)
  {
    forall q | Applies(newOp, q) && !ComparedByEngine(oldOp, newOp, q)
      ensures forall p | Applies(oldOp, p) && p.name == q.name ::
        (q.required ==> p.required) && forall v | SchemaAccepts(p.schema, v) :: SchemaAccepts(q.schema, v)
      ensures (forall p | Applies(oldOp, p) :: p.name != q.name) ==> !q.required
    {
      forall p | Applies(oldOp, p) && p.name == q.name
        ensures (q.required ==> p.required) && forall v | SchemaAccepts(p.schema, v) :: SchemaAccepts(q.schema, v)
      {
        ParameterPutsUp(oldOp, newOp, base, p, q);
      }
      assert Accepts(newOp, base) && ParameterAccepts(q, base);
      if q.name in base.parameters {
        var p := DeclaredApplies(oldOp, q.name);
      }
    }
  }

  lemma MandatoryBodyBreaks(oldOp: Operation, newOp: Operation, base: Request)
    requires Accepts(oldOp, base) && OnlyDeclared(oldOp, base)
    requires KeepsClients(oldOp, newOp)
    ensures BodyStaysOptional(oldOp, newOp)
  {
    if !(oldOp.requestBody.Some? && oldOp.requestBody.value.required) {
      var bodiless := base.(body := None);
      assert Accepts(oldOp, bodiless) && OnlyDeclared(oldOp, bodiless) by {
        assert forall p | Applies(oldOp, p) :: ParameterAccepts(p, base) && ParameterAccepts(p, bodiless);
      }
      assert Accepts(newOp, bodiless);
    }
  }

  /** A request is only judged on its body by itself: replacing it keeps the parameters acceptable. */
  lemma FieldsWith(oldOp: Operation, newOp: Operation, base: Request, mt: string, fields: map<string, Value>)
    requires Accepts(oldOp, base) && OnlyDeclared(oldOp, base) && KeepsClients(oldOp, newOp)
    requires oldOp.requestBody.Some? && newOp.requestBody.Some?
    requires HasSchema(oldOp.requestBody.value.content, mt) && Sends(oldOp.requestBody.value.content[mt].value, fields)
    ensures mt in newOp.requestBody.value.content && FieldsAccepted(newOp.requestBody.value.content[mt], fields)
  {
    var with := base.(body := Some(Body(mt, fields)));
    forall p | Applies(oldOp, p) ensures ParameterAccepts(p, with) {
      assert ParameterAccepts(p, base);
    }
    assert Accepts(oldOp, with) && OnlyDeclared(oldOp, with);
    assert Accepts(newOp, with);
  }

  lemma BodyTighteningBreaks(oldOp: Operation, newOp: Operation, verb: Verb, base: Request)
    requires Accepts(oldOp, base) && OnlyDeclared(oldOp, base) && KeepsClients(oldOp, newOp)
    ensures BodyKept(oldOp, newOp, verb)
  {
    if oldOp.requestBody.Some? && newOp.requestBody.Some? {
      var oldContent, newContent := oldOp.requestBody.value.content, newOp.requestBody.value.content;
      forall mt, fields | HasSchema(oldContent, mt) && Sends(oldContent[mt].value, fields)
        ensures mt in newContent
        ensures newContent[mt].Some? ==> ContentTakes(oldContent, mt, newContent[mt].value, verb, fields)
      {
        FieldsWith(oldOp, newOp, base, mt, fields);
        if newContent[mt].Some? {
          var new' := newContent[mt].value;
          forall f | f in fields && HasProperty(new', f)
            ensures EnumAdmits(new'.properties[f].value, fields[f])
            ensures RestAllows(oldContent[mt].value.properties[f], new'.properties[f].value, fields[f])
          {
            assert SchemaAccepts(new'.properties[f], fields[f]);
          }
        }
      }
    }
  }

  /**
   For operations the engine is silent about, old clients keep working exactly when none of the
   tightenings it does not look for has happened. base is any request the old operation accepts.
   */
  lemma KeepsClientsIff(oldOp: Operation, newOp: Operation, verb: Verb, base: Request)
    requires verb in CHECKED_METHODS && Silent(oldOp, newOp, verb) && WellNamed(oldOp)
    requires Accepts(oldOp, base) && OnlyDeclared(oldOp, base)
    ensures KeepsClients(oldOp, newOp) <==> NoHiddenTightening(oldOp, newOp, verb)
  {
    if NoHiddenTightening(oldOp, newOp, verb) {
      SilentKeepsClients(oldOp, newOp, verb);
    }
    if KeepsClients(oldOp, newOp) {
      ParameterTighteningBreaks(oldOp, newOp, base);
      InheritedTighteningBreaks(oldOp, newOp, base);
      MandatoryBodyBreaks(oldOp, newOp, base);
      BodyTighteningBreaks(oldOp, newOp, verb, base);
    }
  }

  /** Field by field: nothing becomes required unseen, and each property keeps its enum and its other keywords. */
  ghost predicate FieldsKept(oldContent: Content, mt: string, newSchema: Schema, verb: Verb)
    requires HasSchema(oldContent, mt)
  {
    var oldSchema := oldContent[mt].value;
    && (forall f :: f in newSchema.required && RequiredUnseen(oldContent, mt, f, verb) ==> f in oldSchema.required)
    && (forall f | f in oldSchema.properties && HasProperty(newSchema, f) ::
          EnumKeeps(oldSchema.properties[f], newSchema.properties[f].value) && RestKeeps(oldSchema.properties[f], newSchema.properties[f].value))
    && (forall fields | Sends(oldSchema, fields) :: ObjectAdmits(newSchema, fields))
  }

  /** When the old body schema says nothing about the object as a whole, its hidden tightenings can be read field by field. */
  lemma ContentKeptIff(oldContent: Content, mt: string, newSchema: Schema, verb: Verb, sent: map<string, Value>)
    requires HasSchema(oldContent, mt)
    requires (forall fields :: ObjectAdmits(oldContent[mt].value, fields)) && Sends(oldContent[mt].value, sent)
    ensures ContentKept(oldContent, mt, newSchema, verb) <==> FieldsKept(oldContent, mt, newSchema, verb)
  {
    var oldSchema := oldContent[mt].value;
    if ContentKept(oldContent, mt, newSchema, verb) {
      forall f | f in newSchema.required && RequiredUnseen(oldContent, mt, f, verb) ensures f in oldSchema.required {
        if f !in oldSchema.required {
          assert Sends(oldSchema, sent - {f});
        }
      }
      forall f | f in oldSchema.properties && HasProperty(newSchema, f)
        ensures EnumKeeps(oldSchema.properties[f], newSchema.properties[f].value) && RestKeeps(oldSchema.properties[f], newSchema.properties[f].value)
      {
        forall v | SchemaAccepts(oldSchema.properties[f], v)
          ensures EnumAdmits(newSchema.properties[f].value, v) && RestAllows(oldSchema.properties[f], newSchema.properties[f].value, v)
        {
          assert Sends(oldSchema, sent[f := v]);
          assert ContentTakes(oldContent, mt, newSchema, verb, sent[f := v]) && sent[f := v][f] == v;
        }
      }
    }
  }

  // ---- Parameters of the path item, read off their schemas --------------------------------

  const TYPE_NAMES: seq<string> := ["null", "string", "boolean", "array", "object"] + NUMERIC_TYPES

  /** By the table, its missing inclusions added, the old type's values are among the new type's. */
  predicate TypeWithin(oldType: string, newType: string) {
    || oldType !in TYPE_NAMES || oldType == newType
    || (oldType in NUMERIC_TYPES && newType in NUMERIC_TYPES && (!Changed(oldType, newType) || RefusedThoughWider(oldType, newType)))
  }

  lemma TypeWithinIff(oldType: string, newType: string)
    ensures (forall v :: HasType(oldType, v) ==> HasType(newType, v)) <==> TypeWithin(oldType, newType)
  {
    if oldType in NUMERIC_TYPES && newType in NUMERIC_TYPES {
      TableIsInclusion(oldType, newType);
    } else if oldType in TYPE_NAMES && oldType != newType {
      var v := if oldType == "null" then Null else if oldType == "string" then Text("") else if oldType == "boolean" then Boolean(true)
               else if oldType == "array" then List([]) else if oldType == "object" then Record(map[]) else Number(0.0);
      assert HasType(oldType, v) && !HasType(newType, v);
    }
  }

  /** One type, perhaps an enum, and no other keyword. */
  ghost predicate Simple(schema: Option<Schema>) {
    schema.Some? && |schema.value.types| == 1 && !schema.value.nullable && forall v :: schema.value.allows(v)
  }

  ghost predicate SimpleWithin(oldSchema: Schema, newSchema: Schema)
    requires Simple(Some(oldSchema)) && Simple(Some(newSchema))
  {
    var oldType, newType := oldSchema.types[0], newSchema.types[0];
    if oldSchema.enumeration == [] then TypeWithin(oldType, newType) && (oldType !in TYPE_NAMES || EnumCovers(newSchema, oldType))
    else forall e | e in oldSchema.enumeration && HasType(oldType, e.value) :: HasType(newType, e.value) && EnumAdmits(newSchema, e.value)
  }

  lemma SimpleWithinIff(oldSchema: Schema, newSchema: Schema)
    requires Simple(Some(oldSchema)) && Simple(Some(newSchema))
    ensures (forall v | SchemaAccepts(Some(oldSchema), v) :: SchemaAccepts(Some(newSchema), v)) <==> SimpleWithin(oldSchema, newSchema)
  {
    var oldType, newType := oldSchema.types[0], newSchema.types[0];
    TypeWithinIff(oldType, newType);
    forall v ensures SchemaAccepts(Some(oldSchema), v) <==> HasType(oldType, v) && EnumAdmits(oldSchema, v) {
      assert oldType in oldSchema.types;
    }
    forall v ensures SchemaAccepts(Some(newSchema), v) <==> HasType(newType, v) && EnumAdmits(newSchema, v) {
      assert newType in newSchema.types;
    }
    if oldSchema.enumeration != [] && !SimpleWithin(oldSchema, newSchema) {
      var e :| e in oldSchema.enumeration && HasType(oldType, e.value) && !(HasType(newType, e.value) && EnumAdmits(newSchema, e.value));
      assert SchemaAccepts(Some(oldSchema), e.value);
    }
  }

  ghost predicate SimplyDeclared(op: Operation) {
    forall p | Applies(op, p) :: Simple(p.schema)
  }

  /** Where all parameters are simple, the condition on those of the path item is read off types, enums and required flags. */
  lemma InheritedKeptIff(oldOp: Operation, newOp: Operation)
    requires SimplyDeclared(oldOp) && SimplyDeclared(newOp)
    ensures InheritedKept(oldOp, newOp) <==>
      forall q | Applies(newOp, q) && !ComparedByEngine(oldOp, newOp, q) ::
        && (forall p | Applies(oldOp, p) && p.name == q.name ::
              (q.required ==> p.required) && SimpleWithin(p.schema.value, q.schema.value))
        && ((forall p | Applies(oldOp, p) :: p.name != q.name) ==> !q.required)
  {
    forall p, q | Applies(oldOp, p) && Applies(newOp, q)
      ensures (forall v | SchemaAccepts(p.schema, v) :: SchemaAccepts(q.schema, v)) <==> SimpleWithin(p.schema.value, q.schema.value)
    {
      assert p.schema == Some(p.schema.value) && q.schema == Some(q.schema.value);
      SimpleWithinIff(p.schema.value, q.schema.value);
    }
  }

  // ---- The engine's blind spots, concretely -----------------------------------------------

  function Saying(types: seq<string>, required: seq<string>, properties: map<string, Option<Schema>>, allows: Value -> bool): Schema {
    Schema(types, [], required, properties, false, allows)
  }

  function Plainly(t: string): Schema {
    Saying([t], [], map[], _ => true)
  }

  function Taking(own: seq<Option<Parameter>>, inherited: seq<Option<Parameter>>): Operation {
    Operation(own, inherited, None, None)
  }

  function Id(required: bool, schema: Schema): seq<Option<Parameter>> {
    [Some(Parameter("id", required, Some(schema)))]
  }

  const BARE := Request(map[], None)

  lemma TakesBare(parameters: seq<Option<Parameter>>)
    requires forall p :: Some(p) in parameters ==> !p.required
    ensures Accepts(Taking(parameters, []), BARE) && OnlyDeclared(Taking(parameters, []), BARE)
  {
  }

  /** An optional parameter turned required is not reported, and breaks the clients that left it out. */
  lemma RequiredTurnGoesUnseen()
    ensures forall verb :: Silent(Taking(Id(false, Plainly("string")), []), Taking(Id(true, Plainly("string")), []), verb)
    ensures !KeepsClients(Taking(Id(false, Plainly("string")), []), Taking(Id(true, Plainly("string")), []))
  {
    var old', new' := Taking(Id(false, Plainly("string")), []), Taking(Id(true, Plainly("string")), []);
    forall f: Finding | !f.EndpointRemoved? ensures OperationCount(old', new', f) == 0 {
      CountsAreViolations(old', new', f);
      assert Named(old'.parameters, old'.parameters[0].value, "id");
    }
    TakesBare(old'.parameters);
    assert Applies(new', new'.parameters[0].value) && !ParameterAccepts(new'.parameters[0].value, BARE);
  }

  function OneOf(value: Value): Schema {
    Plainly("array").(enumeration := [EnumValue(value, "[a b]")])
  }

  /** An enum of the list "a b" replaced by one of the list "a", "b": both print as [a b], so nothing is reported. */
  lemma PrintedTwinsGoUnseen()
    ensures forall verb :: Silent(Taking(Id(false, OneOf(List([Text("a b")]))), []), Taking(Id(false, OneOf(List([Text("a"), Text("b")]))), []), verb)
    ensures !KeepsClients(Taking(Id(false, OneOf(List([Text("a b")]))), []), Taking(Id(false, OneOf(List([Text("a"), Text("b")]))), []))
  {
    var one, two := List([Text("a b")]), List([Text("a"), Text("b")]);
    var old', new' := Taking(Id(false, OneOf(one)), []), Taking(Id(false, OneOf(two)), []);
    var p, q := old'.parameters[0].value, new'.parameters[0].value;
    assert p.schema.value.PrintedEnum() == q.schema.value.PrintedEnum();
    forall f: Finding | !f.EndpointRemoved? ensures OperationCount(old', new', f) == 0 {
      CountsAreViolations(old', new', f);
    }
    var request := Request(map["id" := one], None);
    assert HasType("array", one) && EnumValue(one, "[a b]") in p.schema.value.enumeration;
    assert ParameterAccepts(p, request) && Some(p) in old'.parameters && Declares(old'.parameters, "id");
    assert Accepts(old', request) && OnlyDeclared(old', request);
    assert |one.items| != |two.items|;
    assert Applies(new', q) && !ParameterAccepts(q, request);
  }

  function AtMost(max: real): Schema {
    Saying(["number"], [], map[], (v: Value) => v.Number? && v.number <= max)
  }

  /** A maximum added to a parameter is not reported either. */
  lemma NewMaximumGoesUnseen()
    ensures forall verb :: Silent(Taking(Id(false, Plainly("number")), []), Taking(Id(false, AtMost(10.0)), []), verb)
    ensures !KeepsClients(Taking(Id(false, Plainly("number")), []), Taking(Id(false, AtMost(10.0)), []))
  {
    var old', new' := Taking(Id(false, Plainly("number")), []), Taking(Id(false, AtMost(10.0)), []);
    forall f: Finding | !f.EndpointRemoved? ensures OperationCount(old', new', f) == 0 {
      CountsAreViolations(old', new', f);
    }
    var eleven := Request(map["id" := Number(11.0)], None);
    var p, q := old'.parameters[0].value, new'.parameters[0].value;
    assert HasType("number", Number(11.0)) && ParameterAccepts(p, eleven);
    assert forall d | Applies(old', d) :: d == p;
    assert Some(p) in old'.parameters && Declares(old'.parameters, "id");
    assert Accepts(old', eleven) && OnlyDeclared(old', eleven);
    assert Applies(new', q) && !ParameterAccepts(q, eleven);
  }

  /** Nor is a required parameter added to the path item. */
  lemma PathParameterGoesUnseen()
    ensures forall verb :: Silent(Taking([], []), Taking([], Id(true, Plainly("string"))), verb)
    ensures !KeepsClients(Taking([], []), Taking([], Id(true, Plainly("string"))))
  {
    var old', new' := Taking([], []), Taking([], Id(true, Plainly("string")));
    forall f: Finding | !f.EndpointRemoved? ensures OperationCount(old', new', f) == 0 {
      CountsAreViolations(old', new', f);
    }
    TakesBare([]);
    assert Applies(new', new'.inherited[0].value) && !ParameterAccepts(new'.inherited[0].value, BARE);
  }

  function Deleting(required: seq<string>): Operation {
    Operation([], [], Some(RequestBody(false, map["application/json" :=
      Some(Saying(["object"], required, map["reason" := Some(Plainly("string"))], _ => true))])), None)
  }

  /** A field made required in the body of a DELETE is not reported, and breaks the clients that left it out. */
  lemma DeleteBodyGoesUnseen()
    ensures Silent(Deleting([]), Deleting(["reason"]), DELETE)
    ensures !KeepsClients(Deleting([]), Deleting(["reason"]))
  {
    var old', new' := Deleting([]), Deleting(["reason"]);
    forall f: Finding | !f.EndpointRemoved? && DELETE in MethodsOf(PassOf(f)) ensures OperationCount(old', new', f) == 0 {
      CountsAreViolations(old', new', f);
    }
    var empty := Request(map[], Some(Body("application/json", map[])));
    var schema := old'.requestBody.value.content["application/json"].value;
    assert schema.types[0] == "object" && HasType("object", Record(map[]));
    assert Accepts(old', empty) && OnlyDeclared(old', empty);
    assert "reason" in new'.requestBody.value.content["application/json"].value.required;
    assert !Accepts(new', empty);
  }
}
