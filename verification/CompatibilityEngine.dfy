/**
 The server's compatibility engine: six checks that loop over paths, methods, parameters and
 media types and append what they find. Go's map iteration order is an arbitrary choice of the
 next key. Each check is proved against BreakingChanges.Count, change by change, and the one check
 that order can show in against the order in which it visited the old media types.
 */
module CompatibilityEngine {
  import opened Prelude
  import opened OpenApi
  import opened BreakingChanges

  /** The reports owed for one pair of operations, found at path and verb in one pass. */
  ghost predicate Owed(changes: seq<BreakingChange>, oldOp: Operation, newOp: Operation, pass: Pass, path: string, verb: Verb) {
    forall c: BreakingChange ::
      var here := c.path == path && c.verb == verb && !c.finding.EndpointRemoved? && PassOf(c.finding) == pass;
      && (!here ==> multiset(changes)[c] == 0)
      && (here ==> Settled(multiset(changes)[c], OperationCount(oldOp, newOp, c.finding), Pinned(oldOp, c.finding)))
  }

  /** Exactly count reports, or at most count where media types disagree. */
  predicate Settled(reports: nat, count: nat, pinned: bool) {
    reports <= count && (pinned ==> reports == count)
  }

  /** The old operation pins down the reports of finding: only disagreeing media types leave a choice. */
  ghost predicate Pinned(oldOp: Operation, finding: Finding) {
    finding.BodyFieldTypeChanged? ==> AgreeingContent(ContentOf(oldOp.requestBody))
  }

  /** The reports of one pass on the paths in done. */
  ghost predicate Visited(changes: seq<BreakingChange>, oldDoc: Document, newDoc: Document, pass: Pass, done: set<string>) {
    forall c: BreakingChange ::
      var here := !c.finding.EndpointRemoved? && PassOf(c.finding) == pass && c.path in done;
      && (!here ==> multiset(changes)[c] == 0)
      && (here ==> Settled(multiset(changes)[c], Count(oldDoc, newDoc, c), PinnedAt(oldDoc, c)))
  }

  /** The reports of one pass on one path and the methods seen so far. */
  ghost predicate OnPath(changes: seq<BreakingChange>, oldDoc: Document, newDoc: Document, pass: Pass, path: string, seen: seq<Verb>) {
    forall c: BreakingChange ::
      var here := !c.finding.EndpointRemoved? && PassOf(c.finding) == pass && c.path == path && c.verb in seen;
      && (!here ==> multiset(changes)[c] == 0)
      && (here ==> Settled(multiset(changes)[c], Count(oldDoc, newDoc, c), PinnedAt(oldDoc, c)))
  }

  ghost predicate PinnedAt(oldDoc: Document, c: BreakingChange) {
    oldDoc.Serves(c.path, c.verb) ==> Pinned(oldDoc.OperationAt(c.path, c.verb), c.finding)
  }

  /** What one whole pass reports. */
  ghost predicate Reports(changes: seq<BreakingChange>, oldDoc: Document, newDoc: Document, pass: Pass) {
    forall c: BreakingChange ::
      var here := !c.finding.EndpointRemoved? && PassOf(c.finding) == pass;
      && (!here ==> multiset(changes)[c] == 0)
      && (here ==> Settled(multiset(changes)[c], Count(oldDoc, newDoc, c), PinnedAt(oldDoc, c)))
  }

  // ---- Parameters -------------------------------------------------------------------------

  /** The lookup table of parameter names. */
  method ParameterNames(parameters: seq<Option<Parameter>>) returns (names: set<string>)
    ensures forall name :: name in names <==> Declares(parameters, name)
  {
    names := {};
    for i := 0 to |parameters|
      invariant forall name :: name in names <==> Declares(parameters[..i], name)
    {
      assert parameters[..i + 1] == parameters[..i] + [parameters[i]];
      if parameters[i].Some? {
        names := names + {parameters[i].value.name};
      }
    }
    assert parameters[..|parameters|] == parameters;
  }

  method AddedRequiredParameters(oldOp: Operation, newOp: Operation, path: string, verb: Verb)
    returns (changes: seq<BreakingChange>)
    ensures Owed(changes, oldOp, newOp, AddedParameters, path, verb)
  {
    changes := [];
    var oldNames := ParameterNames(oldOp.parameters);
    for i := 0 to |newOp.parameters|
      invariant forall c: BreakingChange ::
        multiset(changes)[c] ==
          if c.path == path && c.verb == verb && c.finding.RequiredParameterAdded?
          then ParameterCount(oldOp.parameters, newOp.parameters[..i], c.finding) else 0
    {
      assert newOp.parameters[..i + 1][..i] == newOp.parameters[..i];
      var change := RequiredChange(oldOp.parameters, oldNames, newOp.parameters[i], path, verb);
      changes := changes + change;
    }
    assert newOp.parameters[..|newOp.parameters|] == newOp.parameters;
  }

  /** The report on one new parameter, if any. */
  method RequiredChange(ghost oldParameters: seq<Option<Parameter>>, oldNames: set<string>, p: Option<Parameter>,
                        path: string, verb: Verb)
    returns (change: seq<BreakingChange>)
    requires forall name :: name in oldNames <==> Declares(oldParameters, name)
    ensures forall c: BreakingChange ::
      multiset(change)[c] ==
        if c.path == path && c.verb == verb && c.finding.RequiredParameterAdded? && p.Some?
           && ParameterShows(oldParameters, p.value, c.finding)
        then 1 else 0
  {
    change := [];
    if p.Some? && p.value.required && p.value.name !in oldNames {
      change := [BreakingChange(path, verb, RequiredParameterAdded(p.value.name))];
    }
  }

  method TypeTable(parameters: seq<Option<Parameter>>) returns (types: map<string, string>)
    ensures forall name :: LastType(parameters, name) == if name in types then Some(types[name]) else None
  {
    types := map[];
    for i := 0 to |parameters|
      invariant forall name :: LastType(parameters[..i], name) == if name in types then Some(types[name]) else None
    {
      var p := parameters[i];
      assert parameters[..i + 1][..i] == parameters[..i];
      if p.Some? && TypeOf(p.value).Some? {
        types := types[p.value.name := TypeOf(p.value).value];
      }
    }
    assert parameters[..|parameters|] == parameters;
  }

  method ParameterTypeChanges(oldOp: Operation, newOp: Operation, path: string, verb: Verb)
    returns (changes: seq<BreakingChange>)
    ensures forall c: BreakingChange ::
      multiset(changes)[c] ==
        if c.path == path && c.verb == verb && c.finding.ParameterTypeChanged?
        then ParameterCount(oldOp.parameters, newOp.parameters, c.finding) else 0
  {
    changes := [];
    var oldTypes := TypeTable(oldOp.parameters);
    for i := 0 to |newOp.parameters|
      invariant forall c: BreakingChange ::
        multiset(changes)[c] ==
          if c.path == path && c.verb == verb && c.finding.ParameterTypeChanged?
          then ParameterCount(oldOp.parameters, newOp.parameters[..i], c.finding) else 0
    {
      assert newOp.parameters[..i + 1][..i] == newOp.parameters[..i];
      var change := TypeChange(oldOp.parameters, oldTypes, newOp.parameters[i], path, verb);
      changes := changes + change;
    }
    assert newOp.parameters[..|newOp.parameters|] == newOp.parameters;
  }

  method TypeChange(ghost oldParameters: seq<Option<Parameter>>, oldTypes: map<string, string>, p: Option<Parameter>,
                    path: string, verb: Verb)
    returns (change: seq<BreakingChange>)
    requires forall name :: LastType(oldParameters, name) == if name in oldTypes then Some(oldTypes[name]) else None
    ensures forall c: BreakingChange ::
      multiset(change)[c] ==
        if c.path == path && c.verb == verb && c.finding.ParameterTypeChanged? && p.Some?
           && ParameterShows(oldParameters, p.value, c.finding)
        then 1 else 0
  {
    change := [];
    if p.Some? && p.value.schema.Some? && p.value.name in oldTypes {
      var oldType := oldTypes[p.value.name];
      var newType := if TypeOf(p.value).Some? then TypeOf(p.value).value else "";
      if oldType != newType && !CompatibleTypeChange(oldType, newType) {
        change := [BreakingChange(path, verb, ParameterTypeChanged(p.value.name, oldType, newType))];
      }
    }
  }

  method EnumTable(parameters: seq<Option<Parameter>>) returns (enums: map<string, set<string>>)
    ensures forall name :: LastEnum(parameters, name) == if name in enums then Some(enums[name]) else None
  {
    enums := map[];
    for i := 0 to |parameters|
      invariant forall name :: LastEnum(parameters[..i], name) == if name in enums then Some(enums[name]) else None
    {
      var p := parameters[i];
      assert parameters[..i + 1][..i] == parameters[..i];
      if p.Some? && HasEnum(p.value) {
        enums := enums[p.value.name := p.value.schema.value.PrintedEnum()];
      }
    }
    assert parameters[..|parameters|] == parameters;
  }

  method ParameterEnumChanges(oldOp: Operation, newOp: Operation, path: string, verb: Verb)
    returns (changes: seq<BreakingChange>)
    ensures Owed(changes, oldOp, newOp, RemovedEnums, path, verb)
  {
    changes := [];
    var oldEnums := EnumTable(oldOp.parameters);
    for i := 0 to |newOp.parameters|
      invariant forall c: BreakingChange ::
        multiset(changes)[c] ==
          if c.path == path && c.verb == verb && c.finding.EnumValuesRemoved?
          then ParameterCount(oldOp.parameters, newOp.parameters[..i], c.finding) else 0
    {
      assert newOp.parameters[..i + 1][..i] == newOp.parameters[..i];
      var change := EnumChange(oldOp.parameters, oldEnums, newOp.parameters[i], path, verb);
      changes := changes + change;
    }
    assert newOp.parameters[..|newOp.parameters|] == newOp.parameters;
  }

  /** compareEnumValues for one new parameter. */
  method EnumChange(ghost oldParameters: seq<Option<Parameter>>, oldEnums: map<string, set<string>>, p: Option<Parameter>,
                    path: string, verb: Verb)
    returns (change: seq<BreakingChange>)
    requires forall name :: LastEnum(oldParameters, name) == if name in oldEnums then Some(oldEnums[name]) else None
    ensures forall c: BreakingChange ::
      multiset(change)[c] ==
        if c.path == path && c.verb == verb && c.finding.EnumValuesRemoved? && p.Some? && ParameterShows(oldParameters, p.value, c.finding)
        then 1 else 0
  {
    change := [];
    if p.Some? && HasEnum(p.value) && p.value.name in oldEnums {
      var removed := oldEnums[p.value.name] - p.value.schema.value.PrintedEnum();
      OnlyEnumShown(oldParameters, p.value, removed);
      if removed != {} {
        change := [BreakingChange(path, verb, EnumValuesRemoved(p.value.name, removed))];
      }
    }
  }

  lemma OnlyEnumShown(oldParameters: seq<Option<Parameter>>, p: Parameter, removed: set<string>)
    requires HasEnum(p) && LastEnum(oldParameters, p.name).Some?
    requires removed == LastEnum(oldParameters, p.name).value - p.schema.value.PrintedEnum()
    ensures forall f: Finding | f.EnumValuesRemoved? ::
      ParameterShows(oldParameters, p, f) <==> f == EnumValuesRemoved(p.name, removed) && removed != {}
  {
  }

  // ---- Request bodies ---------------------------------------------------------------------

  /** The required fields of every media type. */
  method RequiredFields(content: Content) returns (fields: set<string>)
    ensures forall f :: f in fields <==> SomewhereRequired(content, f)
  {
    fields := {};
    var todo := content.Keys;
    while todo != {}
      invariant todo <= content.Keys
      invariant forall f :: f in fields <==> exists mt :: mt in content.Keys - todo && RequiresField(content, mt, f)
    {
      ghost var was := content.Keys - todo;
      var mt :| mt in todo;
      todo := todo - {mt};
      assert content.Keys - todo == was + {mt};
      if content[mt].Some? {
        fields := fields + set f | f in content[mt].value.required;
      }
    }
    assert content.Keys - todo == content.Keys;
  }

  method CompareRequestBodies(oldBody: Option<RequestBody>, newBody: Option<RequestBody>, path: string, verb: Verb)
    returns (changes: seq<BreakingChange>)
    ensures forall c: BreakingChange ::
      multiset(changes)[c] ==
        if c.path == path && c.verb == verb && c.finding.RequiredFieldAdded?
        then BodyCount(oldBody, newBody, c.finding) else 0
  {
    changes := [];
    if newBody.None? {
      return;
    }
    var content := newBody.value.content;
    var oldRequired := RequiredFields(ContentOf(oldBody));
    var todo := content.Keys;
    while todo != {}
      invariant todo <= content.Keys
      invariant forall c: BreakingChange ::
        multiset(changes)[c] ==
          if c.path == path && c.verb == verb && c.finding.RequiredFieldAdded? && c.finding.field !in oldRequired
          then TimesRequired(content, content.Keys - todo, c.finding.field) else 0
    {
      ghost var done := content.Keys - todo;
      var mt :| mt in todo;
      todo := todo - {mt};
      assert content.Keys - todo == done + {mt} && done + {mt} - {mt} == done;
      forall f ensures TimesRequired(content, done + {mt}, f) == TimesRequiredBy(content, mt, f) + TimesRequired(content, done, f) {
        TimesRequiredAny(content, done + {mt}, f, mt);
      }
      if content[mt].Some? {
        var found := AddedFieldsOf(content[mt].value.required, oldRequired, path, verb);
        changes := changes + found;
      }
    }
    assert content.Keys - todo == content.Keys;
  }

  method AddedFieldsOf(required: seq<string>, oldRequired: set<string>, path: string, verb: Verb)
    returns (changes: seq<BreakingChange>)
    ensures forall c: BreakingChange ::
      multiset(changes)[c] ==
        if c.path == path && c.verb == verb && c.finding.RequiredFieldAdded? && c.finding.field !in oldRequired
        then multiset(required)[c.finding.field] else 0
  {
    changes := [];
    for i := 0 to |required|
      invariant forall c: BreakingChange ::
        multiset(changes)[c] ==
          if c.path == path && c.verb == verb && c.finding.RequiredFieldAdded? && c.finding.field !in oldRequired
          then multiset(required[..i])[c.finding.field] else 0
    {
      assert required[..i + 1] == required[..i] + [required[i]];
      if required[i] !in oldRequired {
        changes := changes + [BreakingChange(path, verb, RequiredFieldAdded(required[i]))];
      }
    }
    assert required[..|required|] == required;
  }

  function TypesIn(content: Content, mt: string): map<string, string>
    requires mt in content
  {
    if content[mt].None? then map[] else
      var properties := content[mt].value.properties;
      map f | f in properties && properties[f].Some? && properties[f].value.FirstType().Some? :: properties[f].value.FirstType().value
  }

  /** The table of body property types the media types give in that order: the last one to type a property wins. */
  function TypesAlong(content: Content, order: seq<string>): map<string, string>
    requires forall mt | mt in order :: mt in content
  {
    if order == [] then map[] else TypesAlong(content, order[..|order| - 1]) + TypesIn(content, order[|order| - 1])
  }

  /** Each media type once, in some order. */
  ghost predicate Visits(content: Content, order: seq<string>) {
    (forall mt :: mt in order <==> mt in content) && forall i, j | 0 <= i < j < |order| :: order[i] != order[j]
  }

  lemma {:induction false} TypesAlongAreTyped(content: Content, order: seq<string>)
    requires forall mt | mt in order :: mt in content
    ensures forall f | f in TypesAlong(content, order) :: SomewhereTyped(content, f, TypesAlong(content, order)[f])
    ensures forall mt, f, t | mt in order && FieldHasType(content, mt, f, t) :: f in TypesAlong(content, order)
  {
    if order != [] {
      var rest, last := order[..|order| - 1], order[|order| - 1];
      assert order == rest + [last] && last in order;
      TypesAlongAreTyped(content, rest);
      assert forall f | f in TypesIn(content, last) :: FieldHasType(content, last, f, TypesIn(content, last)[f]);
    }
  }

  method PropertyTypes(content: Content) returns (types: map<string, string>, ghost order: seq<string>)
    ensures Visits(content, order) && types == TypesAlong(content, order)
    ensures forall f :: f in types ==> SomewhereTyped(content, f, types[f])
    ensures forall f, t :: SomewhereTyped(content, f, t) ==> f in types
  {
    types, order := map[], [];
    var todo := content.Keys;
    while todo != {}
      invariant todo <= content.Keys
      invariant forall mt :: mt in order <==> mt in content && mt !in todo
      invariant forall i, j | 0 <= i < j < |order| :: order[i] != order[j]
      invariant types == TypesAlong(content, order)
    {
      var mt :| mt in todo;
      todo := todo - {mt};
      assert (order + [mt])[..|order|] == order;
      order := order + [mt];
      if content[mt].Some? {
        var properties := content[mt].value.properties;
        types := types + map f | f in properties && properties[f].Some? && properties[f].value.FirstType().Some?
                          :: properties[f].value.FirstType().value;
      }
    }
    TypesAlongAreTyped(content, order);
  }

  /** The body properties of another type than the table says, once per media type. */
  method MovedTypes(content: Content, oldTypes: map<string, string>, path: string, verb: Verb) returns (changes: seq<BreakingChange>)
    ensures forall c: BreakingChange ::
      multiset(changes)[c] ==
        if c.path == path && c.verb == verb && TypeMoved(oldTypes, c.finding)
        then |TypedMedia(content, content.Keys, c.finding.field, c.finding.newType)| else 0
  {
    changes := [];
    var todo := content.Keys;
    while todo != {}
      invariant todo <= content.Keys
      invariant forall c: BreakingChange ::
        multiset(changes)[c] ==
          if c.path == path && c.verb == verb && TypeMoved(oldTypes, c.finding)
          then |TypedMedia(content, content.Keys - todo, c.finding.field, c.finding.newType)| else 0
    {
      ghost var done := content.Keys - todo;
      var mt :| mt in todo;
      todo := todo - {mt};
      assert content.Keys - todo == done + {mt};
      forall f, t ensures |TypedMedia(content, done + {mt}, f, t)|
        == |TypedMedia(content, done, f, t)| + if FieldHasType(content, mt, f, t) then 1 else 0
      {
        TypedMediaGrows(content, done, mt, f, t);
      }
      if content[mt].Some? {
        var found := MovedTypesOf(content[mt].value.properties, oldTypes, path, verb);
        changes := changes + found;
      }
    }
    assert content.Keys - todo == content.Keys;
  }

  /** The reports due of finding when the old media types were visited in that order. */
  function MovedCount(oldContent: Content, content: Content, order: seq<string>, finding: Finding): nat
    requires forall mt | mt in order :: mt in oldContent
  {
    if TypeMoved(TypesAlong(oldContent, order), finding) then |TypedMedia(content, content.Keys, finding.field, finding.newType)| else 0
  }

  ghost predicate MovedAlong(changes: seq<BreakingChange>, oldContent: Content, content: Content, order: seq<string>, path: string, verb: Verb) {
    && Visits(oldContent, order)
    && forall c: BreakingChange | c.path == path && c.verb == verb && c.finding.BodyFieldTypeChanged? ::
      multiset(changes)[c] == MovedCount(oldContent, content, order, c.finding)
  }

  /** The body type changes reported for one pair of operations are those of some visiting order. */
  ghost predicate Ordered(changes: seq<BreakingChange>, oldOp: Operation, newOp: Operation, path: string, verb: Verb) {
    oldOp.requestBody.Some? && newOp.requestBody.Some? ==>
      exists order :: MovedAlong(changes, oldOp.requestBody.value.content, newOp.requestBody.value.content, order, path, verb)
  }

  ghost predicate OrderedAt(changes: seq<BreakingChange>, oldDoc: Document, newDoc: Document, path: string, verb: Verb) {
    oldDoc.Serves(path, verb) && newDoc.Serves(path, verb) ==>
      Ordered(changes, oldDoc.OperationAt(path, verb), newDoc.OperationAt(path, verb), path, verb)
  }

  /** Reports of anything else do not matter to that. */
  lemma OrderedStays(changes: seq<BreakingChange>, changes': seq<BreakingChange>, oldOp: Operation, newOp: Operation, path: string, verb: Verb)
    requires Ordered(changes, oldOp, newOp, path, verb)
    requires forall c: BreakingChange | c.path == path && c.verb == verb && c.finding.BodyFieldTypeChanged? ::
      multiset(changes')[c] == multiset(changes)[c]
    ensures Ordered(changes', oldOp, newOp, path, verb)
  {
    if oldOp.requestBody.Some? && newOp.requestBody.Some? {
      var order :| MovedAlong(changes, oldOp.requestBody.value.content, newOp.requestBody.value.content, order, path, verb);
      assert MovedAlong(changes', oldOp.requestBody.value.content, newOp.requestBody.value.content, order, path, verb);
    }
  }

  /** Exact for some visiting order of the old media types, and for every one of them where these agree. */
  method RequestBodyTypeChanges(oldBody: Option<RequestBody>, newBody: Option<RequestBody>, path: string, verb: Verb)
    returns (changes: seq<BreakingChange>)
    ensures forall c: BreakingChange ::
      if c.path == path && c.verb == verb && c.finding.BodyFieldTypeChanged?
      then Settled(multiset(changes)[c], BodyCount(oldBody, newBody, c.finding), AgreeingContent(ContentOf(oldBody)))
      else multiset(changes)[c] == 0
    ensures oldBody.Some? && newBody.Some? ==>
      exists order :: MovedAlong(changes, oldBody.value.content, newBody.value.content, order, path, verb)
  {
    changes := [];
    if oldBody.None? || newBody.None? {
      return;
    }
    var oldTypes, order := PropertyTypes(oldBody.value.content);
    changes := MovedTypes(newBody.value.content, oldTypes, path, verb);
    assert MovedAlong(changes, oldBody.value.content, newBody.value.content, order, path, verb);
    forall f, t ensures TypedMedia(newBody.value.content, newBody.value.content.Keys, f, t)
      == set mt | mt in newBody.value.content && FieldHasType(newBody.value.content, mt, f, t)
    {
    }
  }

  function TypedMedia(content: Content, media: set<string>, field: string, t: string): set<string> {
    set mt | mt in media && FieldHasType(content, mt, field, t)
  }

  lemma TypedMediaGrows(content: Content, media: set<string>, mt: string, field: string, t: string)
    requires mt !in media
    ensures |TypedMedia(content, media + {mt}, field, t)|
      == |TypedMedia(content, media, field, t)| + if FieldHasType(content, mt, field, t) then 1 else 0
  {
    assert TypedMedia(content, media + {mt}, field, t)
      == TypedMedia(content, media, field, t) + if FieldHasType(content, mt, field, t) then {mt} else {};
  }

  predicate TypeMoved(oldTypes: map<string, string>, finding: Finding) {
    && finding.BodyFieldTypeChanged? && finding.field in oldTypes
    && oldTypes[finding.field] == finding.oldType && Changed(finding.oldType, finding.newType)
  }

  method MovedTypesOf(properties: map<string, Option<Schema>>, oldTypes: map<string, string>, path: string, verb: Verb)
    returns (changes: seq<BreakingChange>)
    ensures forall c: BreakingChange ::
      multiset(changes)[c] ==
        if && c.path == path && c.verb == verb && TypeMoved(oldTypes, c.finding)
           && c.finding.field in properties && properties[c.finding.field].Some?
           && properties[c.finding.field].value.FirstType() == Some(c.finding.newType)
        then 1 else 0
  {
    changes := [];
    var todo := properties.Keys;
    while todo != {}
      invariant todo <= properties.Keys
      invariant forall c: BreakingChange ::
        multiset(changes)[c] ==
          if && c.path == path && c.verb == verb && TypeMoved(oldTypes, c.finding)
             && c.finding.field in properties && c.finding.field !in todo && properties[c.finding.field].Some?
             && properties[c.finding.field].value.FirstType() == Some(c.finding.newType)
          then 1 else 0
    {
      var f :| f in todo;
      todo := todo - {f};
      if properties[f].Some? && properties[f].value.FirstType().Some? && f in oldTypes {
        var newType := properties[f].value.FirstType().value;
        if oldTypes[f] != newType && !CompatibleTypeChange(oldTypes[f], newType) {
          changes := changes + [BreakingChange(path, verb, BodyFieldTypeChanged(f, oldTypes[f], newType))];
        }
      }
    }
  }

  method OperationTypeChanges(oldOp: Operation, newOp: Operation, path: string, verb: Verb)
    returns (changes: seq<BreakingChange>)
    ensures Owed(changes, oldOp, newOp, TypeChanges, path, verb) && Ordered(changes, oldOp, newOp, path, verb)
  {
    var parameterChanges := ParameterTypeChanges(oldOp, newOp, path, verb);
    var bodyChanges := RequestBodyTypeChanges(oldOp.requestBody, newOp.requestBody, path, verb);
    changes := parameterChanges + bodyChanges;
    forall c: BreakingChange | c.finding.ParameterTypeChanged?
      ensures BodyCount(oldOp.requestBody, newOp.requestBody, c.finding) == 0
    {
    }
    forall c: BreakingChange | c.finding.BodyFieldTypeChanged?
      ensures ParameterCount(oldOp.parameters, newOp.parameters, c.finding) == 0
    {
      NoParameterShows(oldOp.parameters, newOp.parameters, c.finding);
    }
    TypeChangesOrdered(parameterChanges, bodyChanges, oldOp, newOp, path, verb);
  }

  lemma TypeChangesOrdered(parameterChanges: seq<BreakingChange>, bodyChanges: seq<BreakingChange>, oldOp: Operation, newOp: Operation,
                           path: string, verb: Verb)
    requires Ordered(bodyChanges, oldOp, newOp, path, verb)
    requires forall c: BreakingChange | c.finding.BodyFieldTypeChanged? :: multiset(parameterChanges)[c] == 0
    ensures Ordered(parameterChanges + bodyChanges, oldOp, newOp, path, verb)
  {
    OrderedStays(bodyChanges, parameterChanges + bodyChanges, oldOp, newOp, path, verb);
  }

  lemma NoParameterShows(oldParameters: seq<Option<Parameter>>, newParameters: seq<Option<Parameter>>, finding: Finding)
    requires !finding.RequiredParameterAdded? && !finding.ParameterTypeChanged? && !finding.EnumValuesRemoved?
    ensures ParameterCount(oldParameters, newParameters, finding) == 0
  {
  }

  // ---- Responses --------------------------------------------------------------------------

  method CompareResponseSchemas(oldSchema: Option<Schema>, newSchema: Option<Schema>, path: string, verb: Verb, code: string)
    returns (changes: seq<BreakingChange>)
    ensures forall c: BreakingChange ::
      multiset(changes)[c] ==
        if c.path == path && c.verb == verb && AboutCode(c.finding, code) && SchemaShows(oldSchema, newSchema, c.finding)
        then 1 else 0
  {
    changes := [];
    if oldSchema.None? || newSchema.None? {
      return;
    }
    var old', new' := oldSchema.value, newSchema.value;
    var todo := old'.properties.Keys;
    while todo != {}
      invariant todo <= old'.properties.Keys
      invariant forall c: BreakingChange ::
        multiset(changes)[c] ==
          if && c.path == path && c.verb == verb && AboutCode(c.finding, code)
             && c.finding.field !in todo && SchemaShows(oldSchema, newSchema, c.finding)
          then 1 else 0
    {
      var f :| f in todo;
      todo := todo - {f};
      if HasProperty(old', f) {
        if !HasProperty(new', f) {
          changes := changes + [BreakingChange(path, verb, ResponseFieldRemoved(code, f))];
        } else {
          var oldType, newType := old'.properties[f].value.FirstType(), new'.properties[f].value.FirstType();
          if oldType.Some? && newType.Some? && oldType != newType {
            changes := changes + [BreakingChange(path, verb, ResponseFieldTypeChanged(code, f, oldType.value, newType.value))];
          }
        }
      }
    }
  }

  predicate AboutCode(finding: Finding, code: string) {
    (finding.ResponseFieldRemoved? || finding.ResponseFieldTypeChanged?) && finding.code == code
  }

  method CompareResponseContents(oldContent: Content, newContent: Content, path: string, verb: Verb, code: string)
    returns (changes: seq<BreakingChange>)
    ensures forall c: BreakingChange ::
      multiset(changes)[c] ==
        if c.path == path && c.verb == verb && AboutCode(c.finding, code)
        then |MediaShowing(oldContent, newContent, oldContent.Keys, c.finding)| else 0
  {
    changes := [];
    var todo := oldContent.Keys;
    while todo != {}
      invariant todo <= oldContent.Keys
      invariant forall c: BreakingChange ::
        multiset(changes)[c] ==
          if c.path == path && c.verb == verb && AboutCode(c.finding, code)
          then |MediaShowing(oldContent, newContent, oldContent.Keys - todo, c.finding)| else 0
    {
      ghost var done := oldContent.Keys - todo;
      var mt :| mt in todo;
      todo := todo - {mt};
      assert oldContent.Keys - todo == done + {mt};
      forall f ensures |MediaShowing(oldContent, newContent, done + {mt}, f)|
        == |MediaShowing(oldContent, newContent, done, f)|
           + if mt in newContent && SchemaShows(oldContent[mt], newContent[mt], f) then 1 else 0
      {
        MediaShowingGrows(oldContent, newContent, done, mt, f);
      }
      if mt in newContent {
        var found := CompareResponseSchemas(oldContent[mt], newContent[mt], path, verb, code);
        changes := changes + found;
      }
    }
    assert oldContent.Keys - todo == oldContent.Keys;
  }

  lemma MediaShowingGrows(oldContent: Content, newContent: Content, media: set<string>, mt: string, finding: Finding)
    requires mt !in media && mt in oldContent
    ensures |MediaShowing(oldContent, newContent, media + {mt}, finding)|
      == |MediaShowing(oldContent, newContent, media, finding)|
         + if mt in newContent && SchemaShows(oldContent[mt], newContent[mt], finding) then 1 else 0
  {
    var before, after := MediaShowing(oldContent, newContent, media, finding), MediaShowing(oldContent, newContent, media + {mt}, finding);
    if mt in newContent && SchemaShows(oldContent[mt], newContent[mt], finding) {
      assert after == before + {mt} && mt !in before;
    } else {
      assert after == before;
    }
  }

  method CompareResponses(oldOp: Operation, newOp: Operation, path: string, verb: Verb)
    returns (changes: seq<BreakingChange>)
    ensures Owed(changes, oldOp, newOp, Responses, path, verb)
  {
    changes := [];
    if oldOp.responses.None? || newOp.responses.None? {
      return;
    }
    var old', new' := oldOp.responses.value, newOp.responses.value;
    var todo := old'.Keys;
    while todo != {}
      invariant todo <= old'.Keys
      invariant forall c: BreakingChange ::
        multiset(changes)[c] ==
          if c.path == path && c.verb == verb && AboutResponses(c.finding) && c.finding.code !in todo
          then ResponseCount(old', new', c.finding) else 0
    {
      var code :| code in todo;
      todo := todo - {code};
      if old'[code].Some? {
        if code !in new' {
          changes := changes + [BreakingChange(path, verb, StatusRemoved(code))];
        } else if new'[code].Some? {
          var found := CompareResponseContents(old'[code].value.content, new'[code].value.content, path, verb, code);
          changes := changes + found;
        }
      }
    }
  }

  predicate AboutResponses(finding: Finding) {
    finding.StatusRemoved? || finding.ResponseFieldRemoved? || finding.ResponseFieldTypeChanged?
  }

  // ---- Documents --------------------------------------------------------------------------

  method CheckRemovedEndpoints(oldDoc: Document, newDoc: Document) returns (changes: seq<BreakingChange>)
    ensures forall c: BreakingChange ::
      multiset(changes)[c] == if c.finding.EndpointRemoved? then Count(oldDoc, newDoc, c) else 0
  {
    changes := [];
    if oldDoc.paths.None? {
      return;
    }
    var todo := oldDoc.paths.value.Keys;
    while todo != {}
      invariant todo <= oldDoc.paths.value.Keys
      invariant forall c: BreakingChange ::
        multiset(changes)[c] == if c.finding.EndpointRemoved? && c.path !in todo then Count(oldDoc, newDoc, c) else 0
    {
      var path :| path in todo;
      todo := todo - {path};
      var oldItem, newItem := oldDoc.paths.value[path], newDoc.Find(path);
      for i := 0 to |ENDPOINT_METHODS|
        invariant forall c: BreakingChange ::
          multiset(changes)[c] ==
            if c.finding.EndpointRemoved? && (if c.path == path then c.verb in ENDPOINT_METHODS[..i] else c.path !in todo)
            then Count(oldDoc, newDoc, c) else 0
      {
        var verb := ENDPOINT_METHODS[i];
        assert verb !in ENDPOINT_METHODS[..i];
        assert ENDPOINT_METHODS[..i + 1] == ENDPOINT_METHODS[..i] + [verb];
        if verb in oldItem && !(newItem.Some? && verb in newItem.value) {
          changes := changes + [BreakingChange(path, verb, EndpointRemoved)];
        }
      }
    }
  }

  method ComparePass(oldOp: Operation, newOp: Operation, pass: Pass, path: string, verb: Verb)
    returns (changes: seq<BreakingChange>)
    ensures Owed(changes, oldOp, newOp, pass, path, verb)
    ensures pass.TypeChanges? ==> Ordered(changes, oldOp, newOp, path, verb)
  {
    match pass
    case AddedParameters => changes := AddedRequiredParameters(oldOp, newOp, path, verb);
    case AddedFields => changes := CompareRequestBodies(oldOp.requestBody, newOp.requestBody, path, verb);
    case TypeChanges => changes := OperationTypeChanges(oldOp, newOp, path, verb);
    case RemovedEnums => changes := ParameterEnumChanges(oldOp, newOp, path, verb);
    case Responses => changes := CompareResponses(oldOp, newOp, path, verb);
  }

  /** The loop the five remaining checks share: every path of the new document the old one also has. */
  method CheckCommonPaths(oldDoc: Document, newDoc: Document, pass: Pass) returns (changes: seq<BreakingChange>)
    ensures Reports(changes, oldDoc, newDoc, pass)
    ensures pass.TypeChanges? ==> AllOrdered(changes, oldDoc, newDoc)
  {
    changes := [];
    if oldDoc.paths.None? || newDoc.paths.None? {
      return;
    }
    var todo := newDoc.paths.value.Keys;
    while todo != {}
      invariant todo <= newDoc.paths.value.Keys
      invariant Visited(changes, oldDoc, newDoc, pass, newDoc.paths.value.Keys - todo)
      invariant pass.TypeChanges? ==>
        forall path, verb | path in newDoc.paths.value.Keys - todo && verb in CHECKED_METHODS :: OrderedAt(changes, oldDoc, newDoc, path, verb)
    {
      var path :| path in todo;
      ghost var done := newDoc.paths.value.Keys - todo;
      todo := todo - {path};
      assert newDoc.paths.value.Keys - todo == done + {path};
      var found := CheckPath(oldDoc, newDoc, pass, path);
      PathSeen(changes, found, oldDoc, newDoc, pass, done, path);
      if pass.TypeChanges? {
        PathOrdered(changes, found, oldDoc, newDoc, done, path);
      }
      changes := changes + found;
    }
  }

  /** One more path of a pass. */
  lemma PathSeen(changes: seq<BreakingChange>, found: seq<BreakingChange>, oldDoc: Document, newDoc: Document,
                 pass: Pass, done: set<string>, path: string)
    requires Visited(changes, oldDoc, newDoc, pass, done) && path !in done
    requires OnPath(found, oldDoc, newDoc, pass, path, MethodsOf(pass))
    ensures Visited(changes + found, oldDoc, newDoc, pass, done + {path})
  {
    forall c: BreakingChange
      ensures var here := !c.finding.EndpointRemoved? && PassOf(c.finding) == pass && c.path in done + {path};
        && (!here ==> multiset(changes + found)[c] == 0)
        && (here ==> Settled(multiset(changes + found)[c], Count(oldDoc, newDoc, c), PinnedAt(oldDoc, c)))
    {
      assert multiset(changes + found)[c] == multiset(changes)[c] + multiset(found)[c];
    }
  }

  lemma PathOrdered(changes: seq<BreakingChange>, found: seq<BreakingChange>, oldDoc: Document, newDoc: Document, done: set<string>, path: string)
    requires Visited(changes, oldDoc, newDoc, TypeChanges, done) && path !in done
    requires OnPath(found, oldDoc, newDoc, TypeChanges, path, CHECKED_METHODS)
    requires forall p, v | p in done && v in CHECKED_METHODS :: OrderedAt(changes, oldDoc, newDoc, p, v)
    requires forall v | v in CHECKED_METHODS :: OrderedAt(found, oldDoc, newDoc, path, v)
    ensures forall p, v | p in done + {path} && v in CHECKED_METHODS :: OrderedAt(changes + found, oldDoc, newDoc, p, v)
  {
    forall p, v | p in done + {path} && v in CHECKED_METHODS ensures OrderedAt(changes + found, oldDoc, newDoc, p, v) {
      JoinedOrdered(changes, found, oldDoc, newDoc, p, v);
    }
  }

  /** Joining reports keeps the order of either part where the other has none of these. */
  lemma JoinedOrdered(changes: seq<BreakingChange>, found: seq<BreakingChange>, oldDoc: Document, newDoc: Document, path: string, verb: Verb)
    ensures OrderedAt(changes, oldDoc, newDoc, path, verb)
      && (forall c: BreakingChange | c.path == path && c.verb == verb && c.finding.BodyFieldTypeChanged? :: multiset(found)[c] == 0)
      ==> OrderedAt(changes + found, oldDoc, newDoc, path, verb)
    ensures OrderedAt(found, oldDoc, newDoc, path, verb)
      && (forall c: BreakingChange | c.path == path && c.verb == verb && c.finding.BodyFieldTypeChanged? :: multiset(changes)[c] == 0)
      ==> OrderedAt(changes + found, oldDoc, newDoc, path, verb)
  {
    if oldDoc.Serves(path, verb) && newDoc.Serves(path, verb) {
      var a, b := oldDoc.OperationAt(path, verb), newDoc.OperationAt(path, verb);
      forall c ensures multiset(changes + found)[c] == multiset(changes)[c] + multiset(found)[c] {
      }
      if Ordered(changes, a, b, path, verb)
         && forall c: BreakingChange | c.path == path && c.verb == verb && c.finding.BodyFieldTypeChanged? :: multiset(found)[c] == 0 {
        OrderedStays(changes, changes + found, a, b, path, verb);
      }
      if Ordered(found, a, b, path, verb)
         && forall c: BreakingChange | c.path == path && c.verb == verb && c.finding.BodyFieldTypeChanged? :: multiset(changes)[c] == 0 {
        OrderedStays(found, changes + found, a, b, path, verb);
      }
    }
  }

  /** One more method on a path. */
  lemma MethodSeen(changes: seq<BreakingChange>, found: seq<BreakingChange>, oldDoc: Document, newDoc: Document,
                   pass: Pass, path: string, seen: seq<Verb>, verb: Verb)
    requires OnPath(changes, oldDoc, newDoc, pass, path, seen) && verb !in seen && verb in MethodsOf(pass)
    requires if oldDoc.Serves(path, verb) && newDoc.Serves(path, verb)
             then Owed(found, oldDoc.OperationAt(path, verb), newDoc.OperationAt(path, verb), pass, path, verb)
             else found == []
    ensures OnPath(changes + found, oldDoc, newDoc, pass, path, seen + [verb])
  {
    forall c: BreakingChange
      ensures var here := !c.finding.EndpointRemoved? && PassOf(c.finding) == pass && c.path == path && c.verb in seen + [verb];
        && (!here ==> multiset(changes + found)[c] == 0)
        && (here ==> Settled(multiset(changes + found)[c], Count(oldDoc, newDoc, c), PinnedAt(oldDoc, c)))
    {
      assert multiset(changes + found)[c] == multiset(changes)[c] + multiset(found)[c];
    }
  }

  lemma MethodOrdered(changes: seq<BreakingChange>, found: seq<BreakingChange>, oldDoc: Document, newDoc: Document,
                      path: string, seen: seq<Verb>, verb: Verb)
    requires OnPath(changes, oldDoc, newDoc, TypeChanges, path, seen) && verb !in seen
    requires forall v | v in seen :: OrderedAt(changes, oldDoc, newDoc, path, v)
    requires if oldDoc.Serves(path, verb) && newDoc.Serves(path, verb)
             then var a, b := oldDoc.OperationAt(path, verb), newDoc.OperationAt(path, verb);
                  Owed(found, a, b, TypeChanges, path, verb) && Ordered(found, a, b, path, verb)
             else found == []
    ensures forall v | v in seen + [verb] :: OrderedAt(changes + found, oldDoc, newDoc, path, v)
  {
    forall v | v in seen + [verb] ensures OrderedAt(changes + found, oldDoc, newDoc, path, v) {
      JoinedOrdered(changes, found, oldDoc, newDoc, path, v);
    }
  }

  method CheckPath(oldDoc: Document, newDoc: Document, pass: Pass, path: string) returns (changes: seq<BreakingChange>)
    requires newDoc.Find(path).Some?
    ensures OnPath(changes, oldDoc, newDoc, pass, path, MethodsOf(pass))
    ensures pass.TypeChanges? ==> forall verb | verb in CHECKED_METHODS :: OrderedAt(changes, oldDoc, newDoc, path, verb)
  {
    changes := [];
    var oldItem := oldDoc.Find(path);
    if oldItem.None? {
      return;
    }
    var newItem := newDoc.Find(path).value;
    var verbs := MethodsOf(pass);
    for i := 0 to |verbs|
      invariant OnPath(changes, oldDoc, newDoc, pass, path, verbs[..i])
      invariant pass.TypeChanges? ==> forall verb | verb in verbs[..i] :: OrderedAt(changes, oldDoc, newDoc, path, verb)
    {
      var verb := verbs[i];
      assert verb !in verbs[..i] && verbs[..i + 1] == verbs[..i] + [verb];
      var found := [];
      if verb in oldItem.value && verb in newItem {
        found := ComparePass(oldItem.value[verb], newItem[verb], pass, path, verb);
      }
      MethodSeen(changes, found, oldDoc, newDoc, pass, path, verbs[..i], verb);
      if pass.TypeChanges? {
        MethodOrdered(changes, found, oldDoc, newDoc, path, verbs[..i], verb);
      }
      changes := changes + found;
    }
    assert verbs[..|verbs|] == verbs;
  }

  ghost predicate AllOrdered(changes: seq<BreakingChange>, oldDoc: Document, newDoc: Document) {
    forall path, verb | verb in CHECKED_METHODS :: OrderedAt(changes, oldDoc, newDoc, path, verb)
  }

  ghost predicate NoneMoved(changes: seq<BreakingChange>) {
    forall c: BreakingChange | c.finding.BodyFieldTypeChanged? :: multiset(changes)[c] == 0
  }

  lemma JoinedAllOrdered(changes: seq<BreakingChange>, found: seq<BreakingChange>, oldDoc: Document, newDoc: Document)
    ensures AllOrdered(changes, oldDoc, newDoc) && NoneMoved(found) ==> AllOrdered(changes + found, oldDoc, newDoc)
    ensures NoneMoved(changes) && AllOrdered(found, oldDoc, newDoc) ==> AllOrdered(changes + found, oldDoc, newDoc)
  {
    forall path, verb | verb in CHECKED_METHODS
      ensures OrderedAt(changes, oldDoc, newDoc, path, verb) && NoneMoved(found) ==> OrderedAt(changes + found, oldDoc, newDoc, path, verb)
      ensures NoneMoved(changes) && OrderedAt(found, oldDoc, newDoc, path, verb) ==> OrderedAt(changes + found, oldDoc, newDoc, path, verb)
    {
      JoinedOrdered(changes, found, oldDoc, newDoc, path, verb);
    }
  }

  /** The whole engine: its reports, change by change, and the verdict drawn from them. */
  method CompareSchemas(oldDoc: Document, newDoc: Document) returns (changes: seq<BreakingChange>, compatible: bool)
    ensures Complete(changes, oldDoc, newDoc)
    ensures AgreeingMedia(oldDoc) ==> forall c :: multiset(changes)[c] == Count(oldDoc, newDoc, c)
    ensures compatible <==> changes == []
    ensures Compatible(oldDoc, newDoc) ==> compatible
    ensures AgreeingMedia(oldDoc) && compatible ==> Compatible(oldDoc, newDoc)
  {
    changes := CheckRemovedEndpoints(oldDoc, newDoc);
    ghost var removed := changes;
    var parameters := CheckCommonPaths(oldDoc, newDoc, AddedParameters);
    changes := changes + parameters;
    var fields := CheckCommonPaths(oldDoc, newDoc, AddedFields);
    changes := changes + fields;
    var types := CheckCommonPaths(oldDoc, newDoc, TypeChanges);
    changes := changes + types;
    var enums := CheckCommonPaths(oldDoc, newDoc, RemovedEnums);
    changes := changes + enums;
    var responses := CheckCommonPaths(oldDoc, newDoc, Responses);
    changes := changes + responses;
    compatible := |changes| == 0;
    JoinedCounts(removed, parameters, fields, types, enums, responses, oldDoc, newDoc);
    OtherPassesMoveNone(parameters, oldDoc, newDoc, AddedParameters);
    OtherPassesMoveNone(fields, oldDoc, newDoc, AddedFields);
    OtherPassesMoveNone(enums, oldDoc, newDoc, RemovedEnums);
    OtherPassesMoveNone(responses, oldDoc, newDoc, Responses);
    JoinedOrder(removed + parameters + fields, types, enums, responses, oldDoc, newDoc);
    CompatibleIsSilent(changes, oldDoc, newDoc);
  }

  lemma JoinedCounts(removed: seq<BreakingChange>, parameters: seq<BreakingChange>, fields: seq<BreakingChange>, types: seq<BreakingChange>,
                     enums: seq<BreakingChange>, responses: seq<BreakingChange>, oldDoc: Document, newDoc: Document)
    requires forall c: BreakingChange :: multiset(removed)[c] == if c.finding.EndpointRemoved? then Count(oldDoc, newDoc, c) else 0
    requires Reports(parameters, oldDoc, newDoc, AddedParameters) && Reports(fields, oldDoc, newDoc, AddedFields)
    requires Reports(types, oldDoc, newDoc, TypeChanges) && Reports(enums, oldDoc, newDoc, RemovedEnums)
    requires Reports(responses, oldDoc, newDoc, Responses)
    ensures forall c :: Settled(multiset(removed + parameters + fields + types + enums + responses)[c], Count(oldDoc, newDoc, c), PinnedAt(oldDoc, c))
  {
    forall c
      ensures Settled(multiset(removed + parameters + fields + types + enums + responses)[c], Count(oldDoc, newDoc, c), PinnedAt(oldDoc, c))
    {
      assert multiset(removed + parameters + fields + types + enums + responses)[c]
        == multiset(removed)[c] + multiset(parameters)[c] + multiset(fields)[c] + multiset(types)[c] + multiset(enums)[c] + multiset(responses)[c];
    }
  }

  lemma OtherPassesMoveNone(changes: seq<BreakingChange>, oldDoc: Document, newDoc: Document, pass: Pass)
    requires Reports(changes, oldDoc, newDoc, pass) && !pass.TypeChanges?
    ensures NoneMoved(changes)
  {
  }

  lemma JoinedOrder(before: seq<BreakingChange>, types: seq<BreakingChange>, enums: seq<BreakingChange>, responses: seq<BreakingChange>,
                    oldDoc: Document, newDoc: Document)
    requires NoneMoved(before) && AllOrdered(types, oldDoc, newDoc) && NoneMoved(enums) && NoneMoved(responses)
    ensures AllOrdered(before + types + enums + responses, oldDoc, newDoc)
  {
    JoinedAllOrdered(before, types, oldDoc, newDoc);
    JoinedAllOrdered(before + types, enums, oldDoc, newDoc);
    JoinedAllOrdered(before + types + enums, responses, oldDoc, newDoc);
  }

  /**
   Every change is reported as often as it is due, but that of body type changes those are reported which
   are due in some order of visiting the old media types.
   */
  ghost predicate Complete(changes: seq<BreakingChange>, oldDoc: Document, newDoc: Document) {
    && (forall c :: Settled(multiset(changes)[c], Count(oldDoc, newDoc, c), PinnedAt(oldDoc, c)))
    && AllOrdered(changes, oldDoc, newDoc)
  }

  lemma CompatibleIsSilent(changes: seq<BreakingChange>, oldDoc: Document, newDoc: Document)
    requires Complete(changes, oldDoc, newDoc)
    ensures AgreeingMedia(oldDoc) ==> forall c :: multiset(changes)[c] == Count(oldDoc, newDoc, c)
    ensures Compatible(oldDoc, newDoc) ==> changes == []
    ensures AgreeingMedia(oldDoc) && changes == [] ==> Compatible(oldDoc, newDoc)
  {
    if changes != [] {
      assert changes[0] in multiset(changes);
    }
  }
}
