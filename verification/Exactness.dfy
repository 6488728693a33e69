/**
 The six rules read declaratively, with quantifiers over the two operations instead of tables
 filled by loops, and the proof that the engine's counts are exactly their violations.
 */
module Exactness {
  import opened Prelude
  import opened OpenApi
  import opened BreakingChanges
  import opened CompatibilityEngine

  /** No two parameters share a name. OpenAPI tells them apart by name and location; the engine by name. */
  ghost predicate UniqueNames(parameters: seq<Option<Parameter>>) {
    forall i, j | 0 <= i < j < |parameters| && parameters[i].Some? && parameters[j].Some? ::
      parameters[i].value.name != parameters[j].value.name
  }

  ghost predicate Named(parameters: seq<Option<Parameter>>, p: Parameter, name: string) {
    Some(p) in parameters && p.name == name
  }

  /** Going from oldOp to newOp breaks one of the rules in the way finding says. */
  ghost predicate Violates(oldOp: Operation, newOp: Operation, finding: Finding) {
    match finding
    case EndpointRemoved => false
    case RequiredParameterAdded(name) =>
      && (exists p :: Named(newOp.parameters, p, name) && p.required)
      && !exists p :: Named(oldOp.parameters, p, name)
    case ParameterTypeChanged(name, oldType, newType) =>
      && Changed(oldType, newType)
      && (exists p :: Named(oldOp.parameters, p, name) && TypeOf(p) == Some(oldType))
      && exists p :: Named(newOp.parameters, p, name) && p.schema.Some? && newType == if TypeOf(p).Some? then TypeOf(p).value else ""
    case EnumValuesRemoved(name, values) =>
      exists p, q ::
        && Named(oldOp.parameters, p, name) && HasEnum(p)
        && Named(newOp.parameters, q, name) && HasEnum(q)
        && values == p.schema.value.PrintedEnum() - q.schema.value.PrintedEnum()
        && values != {}
    case RequiredFieldAdded(field) =>
      SomewhereRequired(ContentOf(newOp.requestBody), field) && !SomewhereRequired(ContentOf(oldOp.requestBody), field)
    case BodyFieldTypeChanged(field, oldType, newType) =>
      && Changed(oldType, newType)
      && SomewhereTyped(ContentOf(oldOp.requestBody), field, oldType)
      && SomewhereTyped(ContentOf(newOp.requestBody), field, newType)
    case StatusRemoved(code) =>
      && oldOp.responses.Some? && newOp.responses.Some?
      && code in oldOp.responses.value && oldOp.responses.value[code].Some?
      && code !in newOp.responses.value
    case ResponseFieldRemoved(code, _) => exists mt :: ResponseMediaShows(oldOp, newOp, code, mt, finding)
    case ResponseFieldTypeChanged(code, _, _, _) => exists mt :: ResponseMediaShows(oldOp, newOp, code, mt, finding)
  }

  ghost predicate ResponseMediaShows(oldOp: Operation, newOp: Operation, code: string, mt: string, finding: Finding) {
    && oldOp.responses.Some? && newOp.responses.Some?
    && var old', new' := oldOp.responses.value, newOp.responses.value;
    && code in old' && old'[code].Some? && code in new' && new'[code].Some?
    && mt in old'[code].value.content && mt in new'[code].value.content
    && SchemaShows(old'[code].value.content[mt], new'[code].value.content[mt], finding)
  }

  lemma LastTypeIsDeclared(parameters: seq<Option<Parameter>>, name: string)
    ensures var t := LastType(parameters, name);
      t.Some? ==> exists p :: Named(parameters, p, name) && TypeOf(p) == t
  {
    if parameters != [] {
      var rest, last := parameters[..|parameters| - 1], parameters[|parameters| - 1];
      LastTypeIsDeclared(rest, name);
      if last.Some? && last.value.name == name && TypeOf(last.value).Some? {
        assert Named(parameters, last.value, name);
      } else if p :| Named(rest, p, name) && TypeOf(p) == LastType(parameters, name) {
        assert Named(parameters, p, name);
      }
    }
  }

  lemma LastEnumIsDeclared(parameters: seq<Option<Parameter>>, name: string)
    ensures var e := LastEnum(parameters, name);
      e.Some? ==> exists p :: Named(parameters, p, name) && HasEnum(p) && p.schema.value.PrintedEnum() == e.value
  {
    if parameters != [] {
      var rest, last := parameters[..|parameters| - 1], parameters[|parameters| - 1];
      LastEnumIsDeclared(rest, name);
      if last.Some? && last.value.name == name && HasEnum(last.value) {
        assert Named(parameters, last.value, name);
      } else if p :| Named(rest, p, name) && HasEnum(p) && Some(p.schema.value.PrintedEnum()) == LastEnum(parameters, name) {
        assert Named(parameters, p, name);
      }
    }
  }

  lemma TheTypeIsLast(parameters: seq<Option<Parameter>>, p: Parameter)
    requires UniqueNames(parameters) && Some(p) in parameters && TypeOf(p).Some?
    ensures LastType(parameters, p.name) == TypeOf(p)
  {
    var rest, last := parameters[..|parameters| - 1], parameters[|parameters| - 1];
    if last != Some(p) {
      assert parameters == rest + [last] && Some(p) in rest;
      TheTypeIsLast(rest, p);
    }
  }

  lemma TheEnumIsLast(parameters: seq<Option<Parameter>>, p: Parameter)
    requires UniqueNames(parameters) && Some(p) in parameters && HasEnum(p)
    ensures LastEnum(parameters, p.name) == Some(p.schema.value.PrintedEnum())
  {
    var rest, last := parameters[..|parameters| - 1], parameters[|parameters| - 1];
    if last != Some(p) {
      assert parameters == rest + [last] && Some(p) in rest;
      TheEnumIsLast(rest, p);
    }
  }

  lemma ParameterCountPositive(oldParameters: seq<Option<Parameter>>, newParameters: seq<Option<Parameter>>, finding: Finding)
    ensures ParameterCount(oldParameters, newParameters, finding) > 0
       <==> exists p :: Some(p) in newParameters && ParameterShows(oldParameters, p, finding)
  {
    if newParameters != [] {
      var rest, last := newParameters[..|newParameters| - 1], newParameters[|newParameters| - 1];
      assert newParameters == rest + [last];
      ParameterCountPositive(oldParameters, rest, finding);
    }
  }

  /** A parameter shows a finding exactly when the rule is broken there. */
  lemma ParameterRule(oldOp: Operation, newOp: Operation, finding: Finding)
    requires finding.RequiredParameterAdded? || finding.ParameterTypeChanged? || finding.EnumValuesRemoved?
    ensures ParameterCount(oldOp.parameters, newOp.parameters, finding) > 0 ==> Violates(oldOp, newOp, finding)
    ensures UniqueNames(oldOp.parameters) && Violates(oldOp, newOp, finding)
      ==> ParameterCount(oldOp.parameters, newOp.parameters, finding) > 0
  {
    var olds, news := oldOp.parameters, newOp.parameters;
    ParameterCountPositive(olds, news, finding);
    LastTypeIsDeclared(olds, finding.name);
    LastEnumIsDeclared(olds, finding.name);
    if q :| Some(q) in news && ParameterShows(olds, q, finding) {
      assert Named(news, q, finding.name);
      assert forall p :: Named(olds, p, finding.name) ==> Some(p) in olds;
    }
    if UniqueNames(olds) && Violates(oldOp, newOp, finding) {
      match finding
      case RequiredParameterAdded(name) =>
        var q :| Named(news, q, name) && q.required;
        assert forall p :: p in olds && p.Some? && p.value.name == name ==> Named(olds, p.value, name);
        assert ParameterShows(olds, q, finding);
      case ParameterTypeChanged(name, oldType, newType) =>
        var p :| Named(olds, p, name) && TypeOf(p) == Some(oldType);
        TheTypeIsLast(olds, p);
        var q :| Named(news, q, name) && q.schema.Some? && newType == if TypeOf(q).Some? then TypeOf(q).value else "";
        assert ParameterShows(olds, q, finding);
      case EnumValuesRemoved(name, values) =>
        var p, q :| && Named(olds, p, name) && HasEnum(p) && Named(news, q, name) && HasEnum(q)
          && values == p.schema.value.PrintedEnum() - q.schema.value.PrintedEnum() && values != {};
        TheEnumIsLast(olds, p);
        assert ParameterShows(olds, q, finding);
    }
  }

  lemma ResponseRule(oldOp: Operation, newOp: Operation, finding: Finding)
    requires finding.ResponseFieldRemoved? || finding.ResponseFieldTypeChanged?
    ensures OperationCount(oldOp, newOp, finding) > 0 <==> Violates(oldOp, newOp, finding)
  {
    var code := finding.code;
    if oldOp.responses.Some? && newOp.responses.Some? {
      var old', new' := oldOp.responses.value, newOp.responses.value;
      if code in old' && old'[code].Some? && code in new' && new'[code].Some? {
        var a, b := old'[code].value.content, new'[code].value.content;
        var showing := MediaShowing(a, b, a.Keys, finding);
        assert OperationCount(oldOp, newOp, finding) == |showing|;
        if mt :| ResponseMediaShows(oldOp, newOp, code, mt, finding) {
          assert mt in showing;
        } else {
          assert forall mt :: mt in showing ==> ResponseMediaShows(oldOp, newOp, code, mt, finding);
          assert showing == {};
        }
      }
    }
  }

  lemma BodyRule(oldOp: Operation, newOp: Operation, finding: Finding)
    requires finding.RequiredFieldAdded? || finding.BodyFieldTypeChanged?
    ensures BodyCount(oldOp.requestBody, newOp.requestBody, finding) > 0 <==> Violates(oldOp, newOp, finding)
  {
    var content := ContentOf(newOp.requestBody);
    match finding
    case RequiredFieldAdded(field) =>
      TimesRequiredPositive(content, content.Keys, field);
    case BodyFieldTypeChanged(field, oldType, newType) =>
      var typed := set mt | mt in content && FieldHasType(content, mt, field, newType);
      if mt :| mt in content && FieldHasType(content, mt, field, newType) {
        assert mt in typed;
      }
  }

  /** Every report has a witness, and with unique parameter names every violation is reported. */
  lemma CountsAreViolations(oldOp: Operation, newOp: Operation, finding: Finding)
    requires !finding.EndpointRemoved?
    ensures OperationCount(oldOp, newOp, finding) > 0 ==> Violates(oldOp, newOp, finding)
    ensures UniqueNames(oldOp.parameters) && Violates(oldOp, newOp, finding) ==> OperationCount(oldOp, newOp, finding) > 0
  {
    match finding
    case RequiredParameterAdded(_) => ParameterRule(oldOp, newOp, finding);
    case ParameterTypeChanged(_, _, _) => ParameterRule(oldOp, newOp, finding);
    case EnumValuesRemoved(_, _) => ParameterRule(oldOp, newOp, finding);
    case RequiredFieldAdded(_) => BodyRule(oldOp, newOp, finding);
    case BodyFieldTypeChanged(_, _, _) =>
      BodyRule(oldOp, newOp, finding);
      ParameterCountPositive(oldOp.parameters, newOp.parameters, finding);
    case StatusRemoved(_) =>
    case ResponseFieldRemoved(_, _) => ResponseRule(oldOp, newOp, finding);
    case ResponseFieldTypeChanged(_, _, _, _) => ResponseRule(oldOp, newOp, finding);
  }

  /** The change c is due: an endpoint is gone, or an operation both documents serve breaks a rule checked for its method. */
  ghost predicate Breaks(oldDoc: Document, newDoc: Document, c: BreakingChange) {
    && oldDoc.Serves(c.path, c.verb)
    && if c.finding.EndpointRemoved? then
         c.verb in ENDPOINT_METHODS && !newDoc.Serves(c.path, c.verb)
       else
         && newDoc.Serves(c.path, c.verb) && c.verb in MethodsOf(PassOf(c.finding))
         && Violates(oldDoc.OperationAt(c.path, c.verb), newDoc.OperationAt(c.path, c.verb), c.finding)
  }

  ghost predicate UniquelyNamed(doc: Document) {
    forall path, verb | doc.Serves(path, verb) :: UniqueNames(doc.OperationAt(path, verb).parameters)
  }

  lemma CountIffBreaks(oldDoc: Document, newDoc: Document, c: BreakingChange)
    ensures Count(oldDoc, newDoc, c) > 0 ==> Breaks(oldDoc, newDoc, c)
    ensures UniquelyNamed(oldDoc) && Breaks(oldDoc, newDoc, c) ==> Count(oldDoc, newDoc, c) > 0
  {
    if !c.finding.EndpointRemoved? && oldDoc.Serves(c.path, c.verb) && newDoc.Serves(c.path, c.verb) {
      CountsAreViolations(oldDoc.OperationAt(c.path, c.verb), newDoc.OperationAt(c.path, c.verb), c.finding);
    }
  }

  /** What a run of the engine reports is exactly what breaks. */
  lemma ReportedIffBroken(changes: seq<BreakingChange>, oldDoc: Document, newDoc: Document, c: BreakingChange)
    requires Complete(changes, oldDoc, newDoc)
    ensures c in changes ==> Breaks(oldDoc, newDoc, c)
    ensures UniquelyNamed(oldDoc) && AgreeingMedia(oldDoc) && Breaks(oldDoc, newDoc, c) ==> c in changes
  {
    CountIffBreaks(oldDoc, newDoc, c);
    assert Settled(multiset(changes)[c], Count(oldDoc, newDoc, c), PinnedAt(oldDoc, c));
    assert c in changes <==> c in multiset(changes);
  }
}
