/**
 Exactly when compatible steps compose: for every continuation if and only if the first step keeps what
 the engine compares by, and for every beginning if and only if the last turns no optional parameter required.
 */
module Transitivity {
  import opened Prelude
  import opened OpenApi
  import opened BreakingChanges
  import opened Exactness
  import opened Requests
  import opened Versions

  /** Whatever follows b without breaking it, or turning its optional parameters required, does not break a. */
  ghost predicate LeadsOn(a: Operation, b: Operation, verb: Verb) {
    forall c | Unbroken(b, c, verb) && StaysOptional(b, c) :: Unbroken(a, c, verb)
  }

  /** A type that any change to is reported. */
  function Other(t: string): (t': string)
    ensures Changed(t, t')
  {
    if t == "" then "x" else ""
  }

  // ---- Parameters -------------------------------------------------------------------------

  lemma OptionalParameterIsUnbroken(b: Operation, r: Parameter, verb: Verb)
    requires !r.required && r.schema.Some?
    requires forall q | Named(b.parameters, q, r.name) ::
      && (TypeOf(q).Some? ==> !Changed(TypeOf(q).value, if TypeOf(r).Some? then TypeOf(r).value else ""))
      && !(HasEnum(q) && HasEnum(r))
    ensures Unbroken(b, Own([Some(r)]), verb) && StaysOptional(b, Own([Some(r)]))
  {
    var c := Own([Some(r)]);
    assert forall q, name | Named(c.parameters, q, name) :: q == r;
  }

  lemma TypedIsNeeded(a: Operation, b: Operation, verb: Verb, name: string, p: Parameter)
    requires verb in CHECKED_METHODS && Named(a.parameters, p, name) && TypeOf(p).Some?
    ensures LeadsOn(a, b, verb) ==> StillTyped(b, name)
  {
    if !StillTyped(b, name) {
      var t := TypeOf(p).value;
      var r := Parameter(name, false, Some(Plainly(Other(t))));
      OptionalParameterIsUnbroken(b, r, verb);
      var c := Own([Some(r)]);
      assert Named(c.parameters, r, name) && TypeOf(r) == Some(Other(t));
      assert Violates(a, c, ParameterTypeChanged(name, t, Other(t)));
    }
  }

  lemma SameType(parameters: seq<Option<Parameter>>, p: Parameter, q: Parameter)
    requires UniqueNames(parameters) && Some(p) in parameters && Some(q) in parameters && p.name == q.name
    ensures p == q
  {
  }

  lemma EnumIsNeeded(a: Operation, b: Operation, verb: Verb, name: string, p: Parameter)
    requires verb in CHECKED_METHODS && UniqueNames(b.parameters)
    requires Named(a.parameters, p, name) && HasEnum(p)
    ensures LeadsOn(a, b, verb) ==> StillEnumerated(b, name)
  {
    if !StillEnumerated(b, name) {
      var first := p.schema.value.enumeration[0];
      var unlisted := EnumValue(Null, if first.printed == "x" then "y" else "x");
      var t := if q :| Named(b.parameters, q, name) && TypeOf(q).Some? then TypeOf(q).value else "";
      var r := Parameter(name, false, Some(Plainly(t).(enumeration := [unlisted])));
      forall q | Named(b.parameters, q, name) && TypeOf(q).Some? ensures TypeOf(q) == Some(t) {
        forall q' | Named(b.parameters, q', name) ensures q' == q {
          SameType(b.parameters, q, q');
        }
      }
      OptionalParameterIsUnbroken(b, r, verb);
      var c := Own([Some(r)]);
      assert Named(c.parameters, r, name) && unlisted in r.schema.value.enumeration;
      var removed := p.schema.value.PrintedEnum() - r.schema.value.PrintedEnum();
      assert first in p.schema.value.enumeration && first.printed in removed;
      assert Violates(a, c, EnumValuesRemoved(name, removed));
    }
  }

  // ---- Bodies -----------------------------------------------------------------------------

  lemma FieldTypeIsNeeded(a: Operation, b: Operation, verb: Verb, field: string, t: string)
    requires verb in CHECKED_METHODS && SomewhereTyped(ContentOf(a.requestBody), field, t)
    ensures LeadsOn(a, b, verb) ==> exists t' :: SomewhereTyped(ContentOf(b.requestBody), field, t')
  {
    if !exists t' :: SomewhereTyped(ContentOf(b.requestBody), field, t') {
      PostingIsUnbroken(b, verb, field, Other(t));
      assert FieldHasType(Fields(map[field := Some(Plainly(Other(t)))]), "application/json", field, Other(t));
      assert Violates(a, Posting(map[field := Some(Plainly(Other(t)))]), BodyFieldTypeChanged(field, t, Other(t)));
    }
  }

  lemma PostingIsUnbroken(b: Operation, verb: Verb, field: string, t: string)
    requires forall t' :: !SomewhereTyped(ContentOf(b.requestBody), field, t')
    ensures var c := Posting(map[field := Some(Plainly(t))]); Unbroken(b, c, verb) && StaysOptional(b, c)
  {
    var content := Fields(map[field := Some(Plainly(t))]);
    assert forall f, t' | SomewhereTyped(content, f, t') :: f == field;
    assert forall f :: !SomewhereRequired(content, f);
  }

  // ---- Responses --------------------------------------------------------------------------

  /** An operation that declares nothing but responses breaks at most a rule about these. */
  lemma OnlyResponsesMatter(b: Operation, responses: ResponseMap, verb: Verb)
    requires forall f: Finding | PassOfResponses(f) :: !Violates(b, Answering(Some(responses)), f)
    ensures Unbroken(b, Answering(Some(responses)), verb) && StaysOptional(b, Answering(Some(responses)))
  {
  }

  predicate PassOfResponses(f: Finding) {
    f.StatusRemoved? || f.ResponseFieldRemoved? || f.ResponseFieldTypeChanged?
  }

  lemma ResponsesAreNeeded(a: Operation, b: Operation, verb: Verb, code: string)
    requires verb in CHECKED_METHODS && Answers(a, code)
    ensures LeadsOn(a, b, verb) ==> b.responses.Some?
  {
    if b.responses.None? {
      OnlyResponsesMatter(b, map[], verb);
      assert Violates(a, Answering(Some(map[])), StatusRemoved(code));
    }
  }

  lemma ResponseIsNeeded(a: Operation, b: Operation, verb: Verb, code: string)
    requires verb in CHECKED_METHODS && Answers(a, code) && b.responses.Some? && code in b.responses.value
    ensures LeadsOn(a, b, verb) ==> Answers(b, code)
  {
    if b.responses.value[code].None? {
      var rest := b.responses.value - {code};
      OnlyResponsesMatter(b, rest, verb);
      assert Violates(a, Answering(Some(rest)), StatusRemoved(code));
    }
  }

  /** b's responses with one media type alone, of the given schema, under code. */
  function Replying(responses: ResponseMap, code: string, mt: string, schema: Schema): ResponseMap {
    responses[code := Some(Response(map[mt := Some(schema)]))]
  }

  lemma ReplyingIsUnbroken(b: Operation, verb: Verb, code: string, mt: string, schema: Schema)
    requires Answers(b, code)
    requires var content := b.responses.value[code].value.content;
      forall f: Finding | f.ResponseFieldRemoved? || f.ResponseFieldTypeChanged? ::
        mt in content ==> !SchemaShows(content[mt], Some(schema), f)
    ensures var c := Answering(Some(Replying(b.responses.value, code, mt, schema)));
      Unbroken(b, c, verb) && StaysOptional(b, c)
  {
    OnlyResponsesMatter(b, Replying(b.responses.value, code, mt, schema), verb);
  }

  lemma SchemaIsNeeded(a: Operation, b: Operation, verb: Verb, code: string, mt: string, field: string)
    requires verb in CHECKED_METHODS && Answers(a, code) && Answers(b, code)
    requires var content := a.responses.value[code].value.content; HasSchema(content, mt) && HasProperty(content[mt].value, field)
    ensures LeadsOn(a, b, verb) ==> HasSchema(b.responses.value[code].value.content, mt)
  {
    if !HasSchema(b.responses.value[code].value.content, mt) {
      var blank := Saying([], [], map[], _ => true);
      ReplyingIsUnbroken(b, verb, code, mt, blank);
      var c := Answering(Some(Replying(b.responses.value, code, mt, blank)));
      var f := ResponseFieldRemoved(code, field);
      assert ResponseMediaShows(a, c, code, mt, f);
      assert Violates(a, c, f);
    }
  }

  lemma ResponseTypeIsNeeded(a: Operation, b: Operation, verb: Verb, code: string, mt: string, field: string)
    requires verb in CHECKED_METHODS && Answers(a, code) && Answers(b, code)
    requires var content := a.responses.value[code].value.content;
      HasSchema(content, mt) && HasProperty(content[mt].value, field) && content[mt].value.properties[field].value.FirstType().Some?
    requires var content := b.responses.value[code].value.content; HasSchema(content, mt) && HasProperty(content[mt].value, field)
    ensures LeadsOn(a, b, verb) ==> b.responses.value[code].value.content[mt].value.properties[field].value.FirstType().Some?
  {
    var t := a.responses.value[code].value.content[mt].value.properties[field].value.FirstType().value;
    var schema := b.responses.value[code].value.content[mt].value;
    if schema.properties[field].value.FirstType().None? {
      var retyped := schema.(properties := schema.properties[field := Some(Plainly(Other(t)))]);
      ReplyingIsUnbroken(b, verb, code, mt, retyped);
      var c := Answering(Some(Replying(b.responses.value, code, mt, retyped)));
      var f := ResponseFieldTypeChanged(code, field, t, Other(t));
      assert ResponseMediaShows(a, c, code, mt, f);
      assert Violates(a, c, f);
    }
  }

  // ---- Operations -------------------------------------------------------------------------

  /** A step leads on, to every continuation there is, exactly when it keeps what the engine compares by. */
  lemma LeadsOnIff(a: Operation, b: Operation, verb: Verb)
    requires verb in CHECKED_METHODS && Unbroken(a, b, verb) && UniqueNames(b.parameters)
    ensures LeadsOn(a, b, verb) <==> Keeps(a, b)
  {
    if Keeps(a, b) {
      forall c | Unbroken(b, c, verb) && StaysOptional(b, c) ensures Unbroken(a, c, verb) {
        UnbrokenCarries(a, b, c, verb);
      }
    }
    if LeadsOn(a, b, verb) {
      forall name, p | Named(a.parameters, p, name)
        ensures (TypeOf(p).Some? ==> StillTyped(b, name)) && (HasEnum(p) ==> StillEnumerated(b, name))
      {
        if TypeOf(p).Some? { TypedIsNeeded(a, b, verb, name, p); }
        if HasEnum(p) { EnumIsNeeded(a, b, verb, name, p); }
      }
      forall f, t | SomewhereTyped(ContentOf(a.requestBody), f, t) ensures exists t' :: SomewhereTyped(ContentOf(b.requestBody), f, t') {
        FieldTypeIsNeeded(a, b, verb, f, t);
      }
      LeadsOnKeepsResponses(a, b, verb);
    }
  }

  lemma LeadsOnKeepsResponses(a: Operation, b: Operation, verb: Verb)
    requires verb in CHECKED_METHODS && LeadsOn(a, b, verb)
    ensures KeepsResponses(a, b)
  {
    forall code | Answers(a, code)
      ensures b.responses.Some?
      ensures code in b.responses.value ==>
        Answers(b, code) && KeepsContent(a.responses.value[code].value.content, b.responses.value[code].value.content)
    {
      ResponsesAreNeeded(a, b, verb, code);
      if code in b.responses.value {
        ResponseIsNeeded(a, b, verb, code);
        LeadsOnKeepsContent(a, b, verb, code);
      }
    }
  }

  lemma LeadsOnKeepsContent(a: Operation, b: Operation, verb: Verb, code: string)
    requires verb in CHECKED_METHODS && LeadsOn(a, b, verb) && Answers(a, code) && Answers(b, code)
    ensures KeepsContent(a.responses.value[code].value.content, b.responses.value[code].value.content)
  {
    var old', new' := a.responses.value[code].value.content, b.responses.value[code].value.content;
    forall mt, f | HasSchema(old', mt) && HasProperty(old'[mt].value, f)
      ensures HasSchema(new', mt)
      ensures HasProperty(new'[mt].value, f) && old'[mt].value.properties[f].value.FirstType().Some? ==>
        new'[mt].value.properties[f].value.FirstType().Some?
    {
      SchemaIsNeeded(a, b, verb, code, mt, f);
      if HasProperty(new'[mt].value, f) && old'[mt].value.properties[f].value.FirstType().Some? {
        ResponseTypeIsNeeded(a, b, verb, code, mt, f);
      }
    }
  }

  // ---- What comes before ------------------------------------------------------------------

  function Without(parameters: seq<Option<Parameter>>, name: string): seq<Option<Parameter>> {
    if parameters == [] then [] else
      var last := parameters[|parameters| - 1];
      Without(parameters[..|parameters| - 1], name) + if last.Some? && last.value.name == name then [] else [last]
  }

  lemma {:induction false} WithoutOne(parameters: seq<Option<Parameter>>, name: string)
    ensures forall p: Parameter :: Some(p) in Without(parameters, name) <==> Some(p) in parameters && p.name != name
    ensures UniqueNames(parameters) ==> UniqueNames(Without(parameters, name))
  {
    if parameters != [] {
      var rest, last := parameters[..|parameters| - 1], parameters[|parameters| - 1];
      WithoutOne(rest, name);
      assert parameters == rest + [last];
      if UniqueNames(parameters) && last.Some? {
        assert UniqueNames(rest);
        forall d | Some(d) in rest ensures d.name != last.value.name {
          var i :| 0 <= i < |rest| && rest[i] == Some(d);
        }
      }
    }
  }

  /** The fields a body requires, and nothing about them. */
  function Requiring(content: Content): Content {
    map mt | mt in content :: if content[mt].Some? then Some(content[mt].value.(properties := map[])) else None
  }

  /** What op asks of its callers but for one parameter, without types for the body or any response. */
  function Before(op: Operation, name: string): Operation {
    Operation(Without(op.parameters, name), [],
              if op.requestBody.Some? then Some(RequestBody(op.requestBody.value.required, Requiring(op.requestBody.value.content))) else None,
              None)
  }

  lemma RequiringKeepsRequired(content: Content, field: string)
    ensures SomewhereRequired(Requiring(content), field) <==> SomewhereRequired(content, field)
    ensures forall t :: !SomewhereTyped(Requiring(content), field, t)
  {
    if mt :| mt in content && RequiresField(content, mt, field) {
      assert RequiresField(Requiring(content), mt, field);
    }
    if mt :| mt in Requiring(content) && RequiresField(Requiring(content), mt, field) {
      assert RequiresField(content, mt, field);
    }
  }

  lemma BeforeIsUnbroken(op: Operation, name: string, verb: Verb)
    requires UniqueNames(op.parameters) && forall q | Named(op.parameters, q, name) :: !q.required
    ensures Unbroken(Before(op, name), op, verb) && Keeps(Before(op, name), op)
  {
    var a := Before(op, name);
    WithoutOne(op.parameters, name);
    forall n, p, q | Named(a.parameters, p, n) && Named(op.parameters, q, n) ensures p == q {
      SameType(op.parameters, p, q);
    }
    forall f: Finding | !f.EndpointRemoved? ensures !Violates(a, op, f) {
      match f
      case RequiredFieldAdded(field) => RequiringKeepsRequired(ContentOf(op.requestBody), field);
      case BodyFieldTypeChanged(field, _, _) => RequiringKeepsRequired(ContentOf(op.requestBody), field);
      case RequiredParameterAdded(n) =>
        if q :| Named(op.parameters, q, n) && q.required {
          assert Named(a.parameters, q, n);
        }
      case _ =>
    }
    forall f, t ensures !SomewhereTyped(ContentOf(a.requestBody), f, t) {
      RequiringKeepsRequired(ContentOf(op.requestBody), f);
    }
    forall n, p | Named(a.parameters, p, n) ensures Named(op.parameters, p, n) {
    }
  }

  /** b's own step to c goes on from every beginning that leads to b. */
  ghost predicate GoesOn(b: Operation, c: Operation, verb: Verb) {
    forall a | Unbroken(a, b, verb) && Keeps(a, b) :: Unbroken(a, c, verb)
  }

  /** A step goes on from every beginning exactly when it turns no optional parameter required. */
  lemma GoesOnIff(b: Operation, c: Operation, verb: Verb)
    requires verb in CHECKED_METHODS && Unbroken(b, c, verb) && UniqueNames(b.parameters)
    ensures GoesOn(b, c, verb) <==> StaysOptional(b, c)
  {
    if StaysOptional(b, c) {
      forall a | Unbroken(a, b, verb) && Keeps(a, b) ensures Unbroken(a, c, verb) {
        UnbrokenCarries(a, b, c, verb);
      }
    } else {
      var name, q, r :| Named(b.parameters, q, name) && Named(c.parameters, r, name) && r.required && !q.required;
      TurnedRequiredShows(b, c, verb, name, q, r);
    }
  }

  lemma TurnedRequiredShows(b: Operation, c: Operation, verb: Verb, name: string, q: Parameter, r: Parameter)
    requires verb in CHECKED_METHODS && UniqueNames(b.parameters)
    requires Named(b.parameters, q, name) && Named(c.parameters, r, name) && r.required && !q.required
    ensures Unbroken(Before(b, name), b, verb) && Keeps(Before(b, name), b) && !Unbroken(Before(b, name), c, verb)
  {
    forall q' | Named(b.parameters, q', name) ensures q' == q {
      SameType(b.parameters, q, q');
    }
    BeforeIsUnbroken(b, name, verb);
    WithoutOne(b.parameters, name);
    assert Violates(Before(b, name), c, RequiredParameterAdded(name));
  }

  // ---- Documents --------------------------------------------------------------------------

  const SILENT_OPERATION := Operation([], [], None, None)

  /** Every operation doc serves, declaring nothing, but for the one given. */
  function Declaring(doc: Document, path: string, verb: Verb, op: Operation): Document {
    Document(doc.version,
             if doc.paths.None? then None
             else Some(map p | p in doc.paths.value ::
                         map v | v in doc.paths.value[p] :: if p == path && v == verb then op else SILENT_OPERATION))
  }

  lemma UnbrokenIsUncounted(oldOp: Operation, newOp: Operation, verb: Verb, f: Finding)
    requires Unbroken(oldOp, newOp, verb) && !f.EndpointRemoved? && verb in MethodsOf(PassOf(f))
    ensures OperationCount(oldOp, newOp, f) == 0
  {
    CountsAreViolations(oldOp, newOp, f);
  }

  lemma DeclaringServes(b: Document, path: string, verb: Verb, op: Operation, p: string, v: Verb)
    ensures var c := Declaring(b, path, verb, op);
      && (c.Serves(p, v) <==> b.Serves(p, v))
      && (c.Serves(p, v) ==> c.OperationAt(p, v) == if p == path && v == verb then op else SILENT_OPERATION)
  {
  }

  lemma SilentIsUnbroken(op: Operation, verb: Verb)
    ensures Unbroken(op, SILENT_OPERATION, verb) && StaysOptional(op, SILENT_OPERATION)
  {
  }

  lemma DeclaringIsCompatible(b: Document, path: string, verb: Verb, op: Operation)
    requires b.Serves(path, verb) && verb in CHECKED_METHODS
    requires Unbroken(b.OperationAt(path, verb), op, verb) && StaysOptional(b.OperationAt(path, verb), op)
    ensures Compatible(b, Declaring(b, path, verb, op)) && OptionalKept(b, Declaring(b, path, verb, op))
  {
    var c := Declaring(b, path, verb, op);
    forall p, v | b.Serves(p, v)
      ensures c.Serves(p, v) && Unbroken(b.OperationAt(p, v), c.OperationAt(p, v), v) && StaysOptional(b.OperationAt(p, v), c.OperationAt(p, v))
    {
      DeclaringServes(b, path, verb, op, p, v);
      SilentIsUnbroken(b.OperationAt(p, v), v);
    }
    forall change: BreakingChange ensures Count(b, c, change) == 0 {
      UnbrokenDocsAreUncounted(b, c, change);
    }
  }

  lemma UnbrokenDocsAreUncounted(b: Document, c: Document, change: BreakingChange)
    requires b.Serves(change.path, change.verb) ==>
      c.Serves(change.path, change.verb)
      && Unbroken(b.OperationAt(change.path, change.verb), c.OperationAt(change.path, change.verb), change.verb)
    ensures Count(b, c, change) == 0
  {
    if b.Serves(change.path, change.verb) && !change.finding.EndpointRemoved? && change.verb in MethodsOf(PassOf(change.finding)) {
      UnbrokenIsUncounted(b.OperationAt(change.path, change.verb), c.OperationAt(change.path, change.verb), change.verb, change.finding);
    }
  }

  /** Compatibility with b reaches to every continuation that keeps parameters optional exactly when the step to b was steady. */
  lemma CompatibleCarriesIff(a: Document, b: Document)
    requires Compatible(a, b) && UniquelyNamed(a) && UniquelyNamed(b)
    ensures (forall c | Compatible(b, c) && OptionalKept(b, c) :: Compatible(a, c)) <==> Steady(a, b)
  {
    if Steady(a, b) {
      forall c | Compatible(b, c) && OptionalKept(b, c) ensures Compatible(a, c) {
        CompatibleCarries(a, b, c);
      }
    }
    if forall c | Compatible(b, c) && OptionalKept(b, c) :: Compatible(a, c) {
      forall path, verb | verb in CHECKED_METHODS && a.Serves(path, verb) && b.Serves(path, verb)
        ensures Keeps(a.OperationAt(path, verb), b.OperationAt(path, verb))
      {
        CompatibleMeansUnbroken(a, b, path, verb);
        LeadsOnIff(a.OperationAt(path, verb), b.OperationAt(path, verb), verb);
        forall op | Unbroken(b.OperationAt(path, verb), op, verb) && StaysOptional(b.OperationAt(path, verb), op)
          ensures Unbroken(a.OperationAt(path, verb), op, verb)
        {
          DeclaringIsCompatible(b, path, verb, op);
          CompatibleMeansUnbroken(a, Declaring(b, path, verb, op), path, verb);
        }
      }
    }
  }

  /** A step goes on from every steady history exactly when it turns no optional parameter required. */
  lemma OptionalKeptIff(b: Document, c: Document)
    requires Compatible(b, c) && UniquelyNamed(b)
    ensures (forall a | UniquelyNamed(a) && Compatible(a, b) && Steady(a, b) :: Compatible(a, c)) <==> OptionalKept(b, c)
  {
    if OptionalKept(b, c) {
      forall a | UniquelyNamed(a) && Compatible(a, b) && Steady(a, b) ensures Compatible(a, c) {
        CompatibleCarries(a, b, c);
      }
    } else {
      var path, verb :| verb in CHECKED_METHODS && b.Serves(path, verb) && c.Serves(path, verb)
                        && !StaysOptional(b.OperationAt(path, verb), c.OperationAt(path, verb));
      TurnedRequiredShowsIn(b, c, path, verb);
    }
  }

  lemma TurnedRequiredShowsIn(b: Document, c: Document, path: string, verb: Verb)
    requires UniquelyNamed(b) && verb in CHECKED_METHODS && b.Serves(path, verb) && c.Serves(path, verb)
    requires !StaysOptional(b.OperationAt(path, verb), c.OperationAt(path, verb))
    ensures exists a :: UniquelyNamed(a) && Compatible(a, b) && Steady(a, b) && !Compatible(a, c)
  {
    var old', new' := b.OperationAt(path, verb), c.OperationAt(path, verb);
    var name, q, r :| Named(old'.parameters, q, name) && Named(new'.parameters, r, name) && r.required && !q.required;
    assert UniqueNames(old'.parameters);
    TurnedRequiredShows(old', new', verb, name, q, r);
    WithoutOne(old'.parameters, name);
    BeginsCompatible(b, c, path, verb, Before(old', name));
  }

  function Only(path: string, verb: Verb, op: Operation): Document {
    Document("", Some(map[path := map[verb := op]]))
  }

  lemma BeginsCompatible(b: Document, c: Document, path: string, verb: Verb, op: Operation)
    requires verb in CHECKED_METHODS && b.Serves(path, verb) && c.Serves(path, verb) && UniqueNames(op.parameters)
    requires Unbroken(op, b.OperationAt(path, verb), verb) && Keeps(op, b.OperationAt(path, verb))
    requires !Unbroken(op, c.OperationAt(path, verb), verb)
    ensures var a := Only(path, verb, op);
      UniquelyNamed(a) && Compatible(a, b) && Steady(a, b) && !Compatible(a, c)
  {
    var a := Only(path, verb, op);
    forall p, v ensures a.Serves(p, v) <==> p == path && v == verb {
    }
    assert a.OperationAt(path, verb) == op;
    forall change: BreakingChange ensures Count(a, b, change) == 0 {
      if change.path == path && change.verb == verb && !change.finding.EndpointRemoved? && verb in MethodsOf(PassOf(change.finding)) {
        UnbrokenIsUncounted(op, b.OperationAt(path, verb), verb, change.finding);
      }
    }
    assert UniquelyNamed(a);
    var f: Finding :| !f.EndpointRemoved? && verb in MethodsOf(PassOf(f)) && Violates(op, c.OperationAt(path, verb), f);
    CountsAreViolations(op, c.OperationAt(path, verb), f);
    assert Count(a, c, BreakingChange(path, verb, f)) > 0;
  }
}
