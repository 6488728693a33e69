/**
 "Compatible" as a relation between versions: when a document is compatible with itself, so that
 skipping the engine on equal hashes changes nothing, and when compatibility carries along a
 history of versions.
 */
module Versions {
  import opened Prelude
  import opened OpenApi
  import opened BreakingChanges
  import opened Exactness
  import opened Requests

  // ---- Reflexivity ------------------------------------------------------------------------

  /** Parameters of one name, and one property in several media types, would not be reported against each other. */
  ghost predicate SelfConsistent(op: Operation, verb: Verb) {
    && (forall p | Some(p) in op.parameters :: ParameterSelfConsistent(op.parameters, p))
    && (verb in CHECKED_METHODS ==>
          forall f, t, t' | SomewhereTyped(ContentOf(op.requestBody), f, t) && SomewhereTyped(ContentOf(op.requestBody), f, t') ::
            !Changed(t, t'))
  }

  predicate ParameterSelfConsistent(parameters: seq<Option<Parameter>>, p: Parameter) {
    && (p.schema.Some? && LastType(parameters, p.name).Some? ==>
          !Changed(LastType(parameters, p.name).value, if TypeOf(p).Some? then TypeOf(p).value else ""))
    && (HasEnum(p) && LastEnum(parameters, p.name).Some? ==>
          LastEnum(parameters, p.name).value <= p.schema.value.PrintedEnum())
  }

  lemma SilentOnItselfIff(op: Operation, verb: Verb)
    requires verb in CHECKED_METHODS
    ensures Silent(op, op, verb) <==> SelfConsistent(op, verb)
  {
    if SelfConsistent(op, verb) {
      forall f: Finding | !f.EndpointRemoved? ensures OperationCount(op, op, f) == 0 {
        CountsAreViolations(op, op, f);
        ParameterCountPositive(op.parameters, op.parameters, f);
        forall p | Some(p) in op.parameters ensures !ParameterShows(op.parameters, p, f) {
          assert ParameterSelfConsistent(op.parameters, p);
        }
      }
    }
    if Silent(op, op, verb) {
      forall p | Some(p) in op.parameters ensures ParameterSelfConsistent(op.parameters, p) {
        SilentOnParameter(op, verb, p);
      }
      forall f, t, t' | SomewhereTyped(ContentOf(op.requestBody), f, t) && SomewhereTyped(ContentOf(op.requestBody), f, t')
        ensures !Changed(t, t')
      {
        BodyRule(op, op, BodyFieldTypeChanged(f, t, t'));
        assert OperationCount(op, op, BodyFieldTypeChanged(f, t, t')) == 0;
      }
    }
  }

  lemma SilentOnParameter(op: Operation, verb: Verb, p: Parameter)
    requires verb in CHECKED_METHODS && Silent(op, op, verb) && Some(p) in op.parameters
    ensures ParameterSelfConsistent(op.parameters, p)
  {
    var lastType, lastEnum := LastType(op.parameters, p.name), LastEnum(op.parameters, p.name);
    if p.schema.Some? && lastType.Some? {
      var f := ParameterTypeChanged(p.name, lastType.value, if TypeOf(p).Some? then TypeOf(p).value else "");
      ParameterCountPositive(op.parameters, op.parameters, f);
      assert OperationCount(op, op, f) == 0;
      assert !ParameterShows(op.parameters, p, f);
    }
    if HasEnum(p) && lastEnum.Some? {
      var f := EnumValuesRemoved(p.name, lastEnum.value - p.schema.value.PrintedEnum());
      ParameterCountPositive(op.parameters, op.parameters, f);
      assert OperationCount(op, op, f) == 0;
      assert !ParameterShows(op.parameters, p, f);
      assert f.values == {};
      forall v | v in lastEnum.value ensures v in p.schema.value.PrintedEnum() {
        assert v !in f.values;
      }
    }
  }

  /** A document is compatible with itself exactly when its checked operations are self-consistent. */
  lemma CompatibleWithItselfIff(doc: Document)
    ensures Compatible(doc, doc)
       <==> forall path, verb | doc.Serves(path, verb) && verb in CHECKED_METHODS :: SelfConsistent(doc.OperationAt(path, verb), verb)
  {
    if Compatible(doc, doc) {
      forall path, verb | doc.Serves(path, verb) && verb in CHECKED_METHODS
        ensures SelfConsistent(doc.OperationAt(path, verb), verb)
      {
        var op := doc.OperationAt(path, verb);
        forall f: Finding | !f.EndpointRemoved? && verb in MethodsOf(PassOf(f)) ensures OperationCount(op, op, f) == 0 {
          assert Count(doc, doc, BreakingChange(path, verb, f)) == 0;
        }
        SilentOnItselfIff(op, verb);
      }
    } else {
      var c :| Count(doc, doc, c) != 0;
      var op := doc.OperationAt(c.path, c.verb);
      assert c.verb in CHECKED_METHODS && OperationCount(op, op, c.finding) != 0;
      assert !Silent(op, op, c.verb);
      SilentOnItselfIff(op, c.verb);
    }
  }

  /** With unique parameter names and agreeing media types, equal documents are compatible. */
  lemma EqualDocumentsAreCompatible(doc: Document)
    requires UniquelyNamed(doc) && AgreeingMedia(doc)
    ensures Compatible(doc, doc)
  {
    forall path, verb | doc.Serves(path, verb) && verb in CHECKED_METHODS
      ensures SelfConsistent(doc.OperationAt(path, verb), verb)
    {
      var op := doc.OperationAt(path, verb);
      assert UniqueNames(op.parameters);
      forall p | Some(p) in op.parameters ensures ParameterSelfConsistent(op.parameters, p) {
        LastTypeIsDeclared(op.parameters, p.name);
        LastEnumIsDeclared(op.parameters, p.name);
      }
      assert AgreeingContent(ContentOf(op.requestBody));
    }
    CompatibleWithItselfIff(doc);
  }

  function Located(t: string): Option<Parameter> {
    Some(Parameter("id", false, Some(Plainly(t))))
  }

  function TwoIds(): Document {
    Document("1", Some(map["/users" := map[GET := Taking([Located("string"), Located("integer")], [])]]))
  }

  /** Two parameters of one name and different types make the engine report a document against itself. */
  lemma DuplicateNamesDisagree()
    ensures Count(TwoIds(), TwoIds(), BreakingChange("/users", GET, ParameterTypeChanged("id", "integer", "string"))) > 0
    ensures !Compatible(TwoIds(), TwoIds())
  {
    var doc := TwoIds();
    var parameters := [Located("string"), Located("integer")];
    assert doc.Serves("/users", GET) && doc.OperationAt("/users", GET).parameters == parameters;
    var f := ParameterTypeChanged("id", "integer", "string");
    assert LastType(parameters, "id") == Some("integer");
    ParameterCountPositive(parameters, parameters, f);
    assert Some(parameters[0].value) in parameters && ParameterShows(parameters, parameters[0].value, f);
  }

  // ---- Transitivity -----------------------------------------------------------------------

  ghost predicate StillTyped(op: Operation, name: string) {
    exists q :: Named(op.parameters, q, name) && TypeOf(q).Some?
  }

  ghost predicate StillEnumerated(op: Operation, name: string) {
    exists q :: Named(op.parameters, q, name) && HasEnum(q)
  }

  /** A typed parameter keeps a typed namesake, and one with an enum a namesake with an enum. */
  ghost predicate KeepsParameters(oldOp: Operation, newOp: Operation) {
    forall name, p | Named(oldOp.parameters, p, name) ::
      (TypeOf(p).Some? ==> StillTyped(newOp, name)) && (HasEnum(p) ==> StillEnumerated(newOp, name))
  }

  /** A typed body property stays typed in some media type. */
  ghost predicate KeepsFields(oldOp: Operation, newOp: Operation) {
    forall f, t | SomewhereTyped(ContentOf(oldOp.requestBody), f, t) :: exists t' :: SomewhereTyped(ContentOf(newOp.requestBody), f, t')
  }

  /** A declared status code keeps a responses map and, where it is still listed, its response. */
  ghost predicate KeepsResponses(oldOp: Operation, newOp: Operation) {
    forall code | Answers(oldOp, code) ::
      && newOp.responses.Some?
      && (code in newOp.responses.value ==>
            && newOp.responses.value[code].Some?
            && KeepsContent(oldOp.responses.value[code].value.content, newOp.responses.value[code].value.content))
  }

  predicate Answers(op: Operation, code: string) {
    op.responses.Some? && code in op.responses.value && op.responses.value[code].Some?
  }

  /** A response property keeps the schema it stands in, and a type if it had one. */
  ghost predicate KeepsContent(oldContent: Content, newContent: Content) {
    forall mt, f | HasSchema(oldContent, mt) && HasProperty(oldContent[mt].value, f) ::
      && HasSchema(newContent, mt)
      && (HasProperty(newContent[mt].value, f) && oldContent[mt].value.properties[f].value.FirstType().Some? ==>
            newContent[mt].value.properties[f].value.FirstType().Some?)
  }

  /** What the engine compares by, newOp keeps; all of it can be read off the two operations. */
  ghost predicate Keeps(oldOp: Operation, newOp: Operation) {
    KeepsParameters(oldOp, newOp) && KeepsFields(oldOp, newOp) && KeepsResponses(oldOp, newOp)
  }

  /** No rule is broken from oldOp to newOp. */
  ghost predicate Unbroken(oldOp: Operation, newOp: Operation, verb: Verb) {
    forall f: Finding | !f.EndpointRemoved? && verb in MethodsOf(PassOf(f)) :: !Violates(oldOp, newOp, f)
  }

  lemma UnchangedIsTransitive(a: string, b: string, c: string)
    requires !Changed(a, b) && !Changed(b, c)
    ensures !Changed(a, c)
  {
  }

  lemma TypesCarry(a: Operation, b: Operation, c: Operation, name: string, oldType: string, newType: string)
    requires Keeps(a, b)
    requires forall t :: !Violates(a, b, ParameterTypeChanged(name, oldType, t))
    requires forall t :: !Violates(b, c, ParameterTypeChanged(name, t, newType))
    ensures !Violates(a, c, ParameterTypeChanged(name, oldType, newType))
  {
    if p, r :| && Named(a.parameters, p, name) && TypeOf(p) == Some(oldType)
               && Named(c.parameters, r, name) && r.schema.Some? && newType == if TypeOf(r).Some? then TypeOf(r).value else "" {
      assert StillTyped(b, name);
      var q :| Named(b.parameters, q, name) && TypeOf(q).Some?;
      assert !Violates(a, b, ParameterTypeChanged(name, oldType, TypeOf(q).value));
      assert !Violates(b, c, ParameterTypeChanged(name, TypeOf(q).value, newType));
      UnchangedIsTransitive(oldType, TypeOf(q).value, newType);
    }
  }

  lemma NothingRemoved(a: Operation, b: Operation, name: string, p: Parameter, q: Parameter)
    requires forall vs :: !Violates(a, b, EnumValuesRemoved(name, vs))
    requires Named(a.parameters, p, name) && HasEnum(p) && Named(b.parameters, q, name) && HasEnum(q)
    ensures p.schema.value.PrintedEnum() <= q.schema.value.PrintedEnum()
  {
    var removed := p.schema.value.PrintedEnum() - q.schema.value.PrintedEnum();
    assert !Violates(a, b, EnumValuesRemoved(name, removed));
    forall v | v in p.schema.value.PrintedEnum() ensures v in q.schema.value.PrintedEnum() {
      assert v !in removed;
    }
  }

  lemma EnumsCarry(a: Operation, b: Operation, c: Operation, name: string, values: set<string>)
    requires Keeps(a, b)
    requires forall vs :: !Violates(a, b, EnumValuesRemoved(name, vs)) && !Violates(b, c, EnumValuesRemoved(name, vs))
    ensures !Violates(a, c, EnumValuesRemoved(name, values))
  {
    forall p, r | Named(a.parameters, p, name) && HasEnum(p) && Named(c.parameters, r, name) && HasEnum(r)
      ensures p.schema.value.PrintedEnum() - r.schema.value.PrintedEnum() == {}
    {
      assert StillEnumerated(b, name);
      var q :| Named(b.parameters, q, name) && HasEnum(q);
      NothingRemoved(a, b, name, p, q);
      NothingRemoved(b, c, name, q, r);
    }
  }

  lemma RequirednessCarries(a: Operation, b: Operation, c: Operation, name: string)
    requires StaysOptional(b, c)
    requires !Violates(a, b, RequiredParameterAdded(name)) && !Violates(b, c, RequiredParameterAdded(name))
    ensures !Violates(a, c, RequiredParameterAdded(name))
  {
    if r :| Named(c.parameters, r, name) && r.required {
      var q :| Named(b.parameters, q, name);
      assert q.required;
    }
  }

  lemma ParametersCarry(a: Operation, b: Operation, c: Operation, verb: Verb, f: Finding)
    requires verb in CHECKED_METHODS
    requires Unbroken(a, b, verb) && Unbroken(b, c, verb) && Keeps(a, b) && StaysOptional(b, c)
    requires f.RequiredParameterAdded? || f.ParameterTypeChanged? || f.EnumValuesRemoved?
    ensures !Violates(a, c, f)
  {
    match f
    case RequiredParameterAdded(name) => RequirednessCarries(a, b, c, name);
    case ParameterTypeChanged(name, oldType, newType) => TypesCarry(a, b, c, name, oldType, newType);
    case EnumValuesRemoved(name, values) => EnumsCarry(a, b, c, name, values);
  }

  lemma BodyCarries(a: Operation, b: Operation, c: Operation, verb: Verb, f: Finding)
    requires verb in CHECKED_METHODS
    requires Unbroken(a, b, verb) && Unbroken(b, c, verb) && Keeps(a, b)
    requires f.BodyFieldTypeChanged? || (f.RequiredFieldAdded? && verb in BODY_METHODS)
    ensures !Violates(a, c, f)
  {
    assert !Violates(a, b, f) && !Violates(b, c, f);
    if f.BodyFieldTypeChanged? && Violates(a, c, f) {
      var t :| SomewhereTyped(ContentOf(b.requestBody), f.field, t);
      assert !Violates(a, b, BodyFieldTypeChanged(f.field, f.oldType, t));
      assert !Violates(b, c, BodyFieldTypeChanged(f.field, t, f.newType));
      UnchangedIsTransitive(f.oldType, t, f.newType);
    }
  }

  lemma ResponsesCarry(a: Operation, b: Operation, c: Operation, verb: Verb, f: Finding)
    requires verb in CHECKED_METHODS
    requires Unbroken(a, b, verb) && Unbroken(b, c, verb) && Keeps(a, b)
    requires f.StatusRemoved? || f.ResponseFieldRemoved? || f.ResponseFieldTypeChanged?
    ensures !Violates(a, c, f)
  {
    assert !Violates(a, b, f) && !Violates(b, c, f);
    if Violates(a, c, f) {
      assert Answers(a, f.code) && c.responses.Some?;
      assert !Violates(a, b, StatusRemoved(f.code));
      if !f.StatusRemoved? {
        var mt :| ResponseMediaShows(a, c, f.code, mt, f);
        ResponseMediaCarries(a, b, c, verb, f, mt);
      }
    }
  }

  lemma ResponseMediaCarries(a: Operation, b: Operation, c: Operation, verb: Verb, f: Finding, mt: string)
    requires verb in CHECKED_METHODS && Unbroken(a, b, verb) && Unbroken(b, c, verb) && Keeps(a, b)
    requires f.ResponseFieldRemoved? || f.ResponseFieldTypeChanged?
    requires a.responses.Some? && f.code in a.responses.value && a.responses.value[f.code].Some?
    requires HasSchema(a.responses.value[f.code].value.content, mt) && HasProperty(a.responses.value[f.code].value.content[mt].value, f.field)
    requires b.responses.Some? && f.code in b.responses.value
    ensures !ResponseMediaShows(a, c, f.code, mt, f)
  {
    assert Answers(a, f.code);
    var p := a.responses.value[f.code].value.content[mt];
    var q := b.responses.value[f.code].value.content[mt];
    var gone := ResponseFieldRemoved(f.code, f.field);
    assert !Violates(a, b, gone) && !ResponseMediaShows(a, b, f.code, mt, gone);
    assert HasProperty(q.value, f.field);
    assert !Violates(b, c, f) && !ResponseMediaShows(b, c, f.code, mt, f);
    if f.ResponseFieldTypeChanged? && PropertyHasType(p.value, f.field, f.oldType) {
      var t := q.value.properties[f.field].value.FirstType().value;
      var moved := ResponseFieldTypeChanged(f.code, f.field, f.oldType, t);
      assert !Violates(a, b, moved) && !ResponseMediaShows(a, b, f.code, mt, moved);
      assert t == f.oldType;
    }
  }

  lemma UnbrokenCarries(a: Operation, b: Operation, c: Operation, verb: Verb)
    requires verb in CHECKED_METHODS
    requires Unbroken(a, b, verb) && Unbroken(b, c, verb) && Keeps(a, b) && StaysOptional(b, c)
    ensures Unbroken(a, c, verb)
  {
    forall f: Finding | !f.EndpointRemoved? && verb in MethodsOf(PassOf(f)) ensures !Violates(a, c, f) {
      match PassOf(f)
      case AddedParameters => ParametersCarry(a, b, c, verb, f);
      case RemovedEnums => ParametersCarry(a, b, c, verb, f);
      case AddedFields => BodyCarries(a, b, c, verb, f);
      case Responses => ResponsesCarry(a, b, c, verb, f);
      case TypeChanges =>
        if f.BodyFieldTypeChanged? { BodyCarries(a, b, c, verb, f); } else { ParametersCarry(a, b, c, verb, f); }
    }
  }

  /** Checked operations two versions share keep what the engine compares by, and their optional parameters optional. */
  ghost predicate Steady(oldDoc: Document, newDoc: Document) {
    forall path, verb | verb in CHECKED_METHODS && oldDoc.Serves(path, verb) && newDoc.Serves(path, verb) ::
      Keeps(oldDoc.OperationAt(path, verb), newDoc.OperationAt(path, verb))
  }

  ghost predicate OptionalKept(oldDoc: Document, newDoc: Document) {
    forall path, verb | verb in CHECKED_METHODS && oldDoc.Serves(path, verb) && newDoc.Serves(path, verb) ::
      StaysOptional(oldDoc.OperationAt(path, verb), newDoc.OperationAt(path, verb))
  }

  lemma CompatibleMeansUnbroken(oldDoc: Document, newDoc: Document, path: string, verb: Verb)
    requires Compatible(oldDoc, newDoc) && UniquelyNamed(oldDoc)
    requires oldDoc.Serves(path, verb) && verb in CHECKED_METHODS
    ensures newDoc.Serves(path, verb) && Unbroken(oldDoc.OperationAt(path, verb), newDoc.OperationAt(path, verb), verb)
  {
    assert Count(oldDoc, newDoc, BreakingChange(path, verb, EndpointRemoved)) == 0;
    var a, b := oldDoc.OperationAt(path, verb), newDoc.OperationAt(path, verb);
    forall f: Finding | !f.EndpointRemoved? && verb in MethodsOf(PassOf(f)) ensures !Violates(a, b, f) {
      assert Count(oldDoc, newDoc, BreakingChange(path, verb, f)) == 0;
      CountsAreViolations(a, b, f);
    }
  }

  lemma EndpointsCarry(a: Document, b: Document, path: string, verb: Verb)
    requires Compatible(a, b) && a.Serves(path, verb) && verb in ENDPOINT_METHODS
    ensures b.Serves(path, verb)
  {
    assert Count(a, b, BreakingChange(path, verb, EndpointRemoved)) == 0;
  }

  lemma CompatibleCarries(a: Document, b: Document, c: Document)
    requires UniquelyNamed(a) && UniquelyNamed(b)
    requires Compatible(a, b) && Compatible(b, c) && Steady(a, b) && OptionalKept(b, c)
    ensures Compatible(a, c)
  {
    forall change: BreakingChange ensures Count(a, c, change) == 0 {
      var path, verb := change.path, change.verb;
      if a.Serves(path, verb) && verb in ENDPOINT_METHODS {
        EndpointsCarry(a, b, path, verb);
        EndpointsCarry(b, c, path, verb);
        if verb in CHECKED_METHODS && !change.finding.EndpointRemoved? {
          CompatibleMeansUnbroken(a, b, path, verb);
          CompatibleMeansUnbroken(b, c, path, verb);
          UnbrokenCarries(a.OperationAt(path, verb), b.OperationAt(path, verb), c.OperationAt(path, verb), verb);
          CountsAreViolations(a.OperationAt(path, verb), c.OperationAt(path, verb), change.finding);
        }
      }
    }
  }

  lemma OptionalityCarries(a: Document, b: Document, c: Document)
    requires Compatible(a, b) && Compatible(b, c) && UniquelyNamed(b) && OptionalKept(a, b) && OptionalKept(b, c)
    ensures OptionalKept(a, c)
  {
    forall path, verb | verb in CHECKED_METHODS && a.Serves(path, verb) && c.Serves(path, verb)
      ensures StaysOptional(a.OperationAt(path, verb), c.OperationAt(path, verb))
    {
      EndpointsCarry(a, b, path, verb);
      CompatibleMeansUnbroken(b, c, path, verb);
      var x, y, z := a.OperationAt(path, verb), b.OperationAt(path, verb), c.OperationAt(path, verb);
      forall name, p, r | Named(x.parameters, p, name) && Named(z.parameters, r, name) && r.required ensures p.required {
        assert !Violates(y, z, RequiredParameterAdded(name));
        var q :| Named(y.parameters, q, name);
        assert StaysOptional(y, z) && StaysOptional(x, y);
      }
    }
  }

  /** A version history checked step by step. */
  ghost predicate CheckedHistory(history: seq<Document>) {
    && (forall i | 0 <= i < |history| :: UniquelyNamed(history[i]))
    && (forall i | 0 <= i < |history| - 1 ::
          Compatible(history[i], history[i + 1]) && Steady(history[i], history[i + 1]) && OptionalKept(history[i], history[i + 1]))
  }

  /** Step-by-step compatibility reaches across the whole history. */
  lemma {:induction false} HistoryIsCompatible(history: seq<Document>, i: nat, j: nat)
    requires CheckedHistory(history) && i < j < |history|
    ensures Compatible(history[i], history[j]) && OptionalKept(history[i], history[j])
    decreases j - i
  {
    if i + 1 < j {
      HistoryIsCompatible(history, i + 1, j);
      CompatibleCarries(history[i], history[i + 1], history[j]);
      OptionalityCarries(history[i], history[i + 1], history[j]);
    }
  }

  // ---- What retention and optionality are needed for ---------------------------------------

  /** Compatible step by step, incompatible end to end. */
  ghost predicate ChainBreaks(a: Operation, b: Operation, c: Operation, f: Finding) {
    Unbroken(a, b, POST) && Unbroken(b, c, POST) && !f.EndpointRemoved? && POST in MethodsOf(PassOf(f)) && Violates(a, c, f)
  }

  function Own(parameters: seq<Option<Parameter>>): Operation {
    Taking(parameters, [])
  }

  /** Drop a parameter, then bring it back with another type. */
  lemma DroppedParameterBreaksTheChain()
    ensures ChainBreaks(Own([Located("string")]), Own([]), Own([Located("integer")]), ParameterTypeChanged("id", "string", "integer"))
  {
    var p, r := Located("string").value, Located("integer").value;
    assert Named([Some(p)], p, "id") && Named([Some(r)], r, "id");
    assert !r.required;
  }

  /** Two parameters of one name break nothing unless both have a schema. */
  lemma SchemalessIsUnbroken(p: Parameter, q: Parameter)
    requires p.name == q.name && (p.schema.None? || q.schema.None?)
    ensures Unbroken(Own([Some(p)]), Own([Some(q)]), POST)
  {
    assert Named([Some(p)], p, p.name);
  }

  /** Drop a parameter's schema, then give it another type. */
  lemma DroppedSchemaBreaksTheChain()
    ensures ChainBreaks(Own([Located("string")]), Own([Some(Parameter("id", false, None))]), Own([Located("integer")]),
                        ParameterTypeChanged("id", "string", "integer"))
  {
    var p, q, r := Located("string").value, Parameter("id", false, None), Located("integer").value;
    SchemalessIsUnbroken(p, q);
    SchemalessIsUnbroken(q, r);
    assert Named([Some(p)], p, "id") && Named([Some(r)], r, "id");
  }

  /** Add an optional parameter, then require it. */
  lemma TurnedRequiredBreaksTheChain()
    ensures ChainBreaks(Own([]), Own(Id(false, Plainly("string"))), Own(Id(true, Plainly("string"))), RequiredParameterAdded("id"))
  {
    var q, r := Parameter("id", false, Some(Plainly("string"))), Parameter("id", true, Some(Plainly("string")));
    assert Named(Id(false, Plainly("string")), q, "id") && Named(Id(true, Plainly("string")), r, "id");
    assert forall name, p | Named([], p, name) :: false;
  }

  const X := EnumValue(Text("x"), "x")
  const Y := EnumValue(Text("y"), "y")

  function Choosing(values: seq<EnumValue>): Parameter {
    Parameter("id", false, Some(Plainly("string").(enumeration := values)))
  }

  lemma ChoicesPrint()
    ensures Choosing([X, Y]).schema.value.PrintedEnum() == {"x", "y"}
    ensures Choosing([X]).schema.value.PrintedEnum() == {"x"}
  {
    var both, one := Choosing([X, Y]).schema.value, Choosing([X]).schema.value;
    assert X in both.enumeration && Y in both.enumeration && X in one.enumeration;
  }

  /** Two optional parameters of one type break nothing unless both have an enum. */
  lemma ChoosingIsUnbroken(values: seq<EnumValue>, values': seq<EnumValue>)
    requires values == [] || values' == []
    ensures Unbroken(Own([Some(Choosing(values))]), Own([Some(Choosing(values'))]), POST)
  {
    assert Named([Some(Choosing(values))], Choosing(values), "id");
  }

  /** Lift an enum, then bring it back shorter. */
  lemma LiftedEnumBreaksTheChain()
    ensures ChainBreaks(Own([Some(Choosing([X, Y]))]), Own([Some(Choosing([]))]), Own([Some(Choosing([X]))]), EnumValuesRemoved("id", {"y"}))
  {
    ChoosingIsUnbroken([X, Y], []);
    ChoosingIsUnbroken([], [X]);
    ChoicesPrint();
    assert Named([Some(Choosing([X, Y]))], Choosing([X, Y]), "id") && Named([Some(Choosing([X]))], Choosing([X]), "id");
  }

  function Fields(properties: map<string, Option<Schema>>): Content {
    map["application/json" := Some(Saying(["object"], [], properties, _ => true))]
  }

  function Posting(properties: map<string, Option<Schema>>): Operation {
    Operation([], [], Some(RequestBody(false, Fields(properties))), None)
  }

  /** Drop a body property, then bring it back with another type. */
  lemma DroppedPropertyBreaksTheChain()
    ensures ChainBreaks(Posting(map["f" := Some(Plainly("string"))]), Posting(map[]), Posting(map["f" := Some(Plainly("integer"))]),
                        BodyFieldTypeChanged("f", "string", "integer"))
  {
    assert FieldHasType(Fields(map["f" := Some(Plainly("string"))]), "application/json", "f", "string");
    assert FieldHasType(Fields(map["f" := Some(Plainly("integer"))]), "application/json", "f", "integer");
  }

  function Answering(responses: Option<ResponseMap>): Operation {
    Operation([], [], None, responses)
  }

  /** Drop the responses, then bring them back without a status code. */
  lemma DroppedResponsesBreakTheChain()
    ensures ChainBreaks(Answering(Some(map["200" := Some(Response(map[]))])), Answering(None), Answering(Some(map[])), StatusRemoved("200"))
  {
  }

  /** Drop a response's content, then bring it back without a field. */
  lemma DroppedContentBreaksTheChain()
    ensures ChainBreaks(Answering(Some(map["200" := Some(Response(Fields(map["f" := Some(Plainly("string"))])))])),
                        Answering(Some(map["200" := Some(Response(map[]))])),
                        Answering(Some(map["200" := Some(Response(Fields(map[])))])), ResponseFieldRemoved("200", "f"))
  {
    var a := Answering(Some(map["200" := Some(Response(Fields(map["f" := Some(Plainly("string"))])))]));
    var c := Answering(Some(map["200" := Some(Response(Fields(map[])))]));
    assert ResponseMediaShows(a, c, "200", "application/json", ResponseFieldRemoved("200", "f"));
  }
}
