/**
 The engine's rules once more, written out in the documents' own fields, with every method name and
 every widening spelled out. Nothing here is shared with the engine or its counts, and both engines
 are shown to report each change exactly once for every place these rules find it at.
 */
module ReportRules {
  import opened Prelude
  import opened OpenApi
  import opened BreakingChanges
  import opened CompatibilityEngine
  import Cli = CliEngine

  /** Where a change shows: the operation as a whole, a new parameter, a new media type, or an entry of one's required list. */
  datatype Place = Whole | ParameterAt(index: nat) | MediaType(mt: string) | RequiredAt(mt: string, index: nat)

  /** A change of type that only widens it. */
  predicate Widens(t: string, t': string) {
    || (t == "integer" && t' == "number")
    || (t == "int32" && t' == "int64") || (t == "int32" && t' == "integer") || (t == "int32" && t' == "number")
    || (t == "int64" && t' == "number")
    || (t == "float" && t' == "double") || (t == "float" && t' == "number")
  }

  predicate TypedAs(p: Option<Parameter>, name: string, t: string) {
    p.Some? && p.value.name == name && p.value.schema.Some? && p.value.schema.value.types != [] && p.value.schema.value.types[0] == t
  }

  predicate Enumerated(p: Option<Parameter>, name: string) {
    p.Some? && p.value.name == name && p.value.schema.Some? && p.value.schema.value.enumeration != []
  }

  ghost predicate Prints(p: Option<Parameter>, text: string) {
    p.Some? && p.value.schema.Some? && exists e :: e in p.value.schema.value.enumeration && e.printed == text
  }

  /** Of the parameters called name with a type, the last is the one at i, and its type is t. */
  ghost predicate LastTyped(parameters: seq<Option<Parameter>>, i: int, name: string, t: string) {
    && 0 <= i < |parameters| && TypedAs(parameters[i], name, t)
    && forall j, u | i < j < |parameters| :: !TypedAs(parameters[j], name, u)
  }

  /** Of the parameters called name with an enum, the last is the one at i. */
  ghost predicate LastEnumerated(parameters: seq<Option<Parameter>>, i: int, name: string) {
    0 <= i < |parameters| && Enumerated(parameters[i], name) && forall j | i < j < |parameters| :: !Enumerated(parameters[j], name)
  }

  /** The body has media type mt, whose schema gives the field t as its first type. */
  predicate BodyTypes(body: Option<RequestBody>, mt: string, field: string, t: string) {
    && body.Some? && mt in body.value.content && body.value.content[mt].Some?
    && SchemaTypes(body.value.content[mt].value, field, t)
  }

  predicate SchemaTypes(schema: Schema, field: string, t: string) {
    && field in schema.properties && schema.properties[field].Some?
    && schema.properties[field].value.types != [] && schema.properties[field].value.types[0] == t
  }

  predicate BodyRequires(body: Option<RequestBody>, mt: string, field: string) {
    && body.Some? && mt in body.value.content && body.value.content[mt].Some?
    && field in body.value.content[mt].value.required
  }

  /** The operation answers code with media type mt, described by schema. */
  ghost predicate AnswersWith(op: Operation, code: string, mt: string, schema: Schema) {
    && op.responses.Some? && code in op.responses.value && op.responses.value[code].Some?
    && mt in op.responses.value[code].value.content && op.responses.value[code].value.content[mt] == Some(schema)
  }

  /** The two operations show the finding at that place. */
  ghost predicate Shows(oldOp: Operation, newOp: Operation, finding: Finding, place: Place) {
    match finding
    case EndpointRemoved => false
    case RequiredParameterAdded(name) =>
      && place.ParameterAt? && place.index < |newOp.parameters|
      && var p := newOp.parameters[place.index];
      && p.Some? && p.value.name == name && p.value.required
      && forall q | Some(q) in oldOp.parameters :: q.name != name
    case ParameterTypeChanged(name, t, t') =>
      && place.ParameterAt? && place.index < |newOp.parameters|
      && var p := newOp.parameters[place.index];
      && p.Some? && p.value.name == name && p.value.schema.Some?
      && t' == (if p.value.schema.value.types == [] then "" else p.value.schema.value.types[0])
      && (exists i :: LastTyped(oldOp.parameters, i, name, t))
      && t != t' && !Widens(t, t')
    case EnumValuesRemoved(name, values) =>
      && place.ParameterAt? && place.index < |newOp.parameters|
      && var p := newOp.parameters[place.index];
      && Enumerated(p, name) && values != {}
      && exists i :: LastEnumerated(oldOp.parameters, i, name)
           && forall v :: v in values <==> Prints(oldOp.parameters[i], v) && !Prints(p, v)
    case RequiredFieldAdded(field) =>
      && place.RequiredAt? && newOp.requestBody.Some?
      && var content := newOp.requestBody.value.content;
      && place.mt in content && content[place.mt].Some? && place.index < |content[place.mt].value.required|
      && content[place.mt].value.required[place.index] == field
      && forall mt :: !BodyRequires(oldOp.requestBody, mt, field)
    case BodyFieldTypeChanged(field, t, t') =>
      && place.MediaType? && BodyTypes(newOp.requestBody, place.mt, field, t')
      && (exists mt :: BodyTypes(oldOp.requestBody, mt, field, t))
      && t != t' && !Widens(t, t')
    case StatusRemoved(code) =>
      && place == Whole && oldOp.responses.Some? && newOp.responses.Some?
      && code in oldOp.responses.value && oldOp.responses.value[code].Some? && code !in newOp.responses.value
    case ResponseFieldRemoved(code, field) =>
      && place.MediaType?
      && exists a, b :: AnswersWith(oldOp, code, place.mt, a) && AnswersWith(newOp, code, place.mt, b)
           && field in a.properties && a.properties[field].Some?
           && !(field in b.properties && b.properties[field].Some?)
    case ResponseFieldTypeChanged(code, field, t, t') =>
      && place.MediaType? && t != t'
      && exists a, b :: AnswersWith(oldOp, code, place.mt, a) && AnswersWith(newOp, code, place.mt, b)
           && SchemaTypes(a, field, t) && SchemaTypes(b, field, t')
  }

  predicate Offers(doc: Document, path: string, verb: Verb) {
    doc.paths.Some? && path in doc.paths.value && verb in doc.paths.value[path]
  }

  /** The change is due at that place. */
  ghost predicate Due(oldDoc: Document, newDoc: Document, c: BreakingChange, place: Place) {
    && Offers(oldDoc, c.path, c.verb)
    && if c.finding.EndpointRemoved? then
         && place == Whole && !Offers(newDoc, c.path, c.verb)
         && (c.verb == GET || c.verb == POST || c.verb == PUT || c.verb == DELETE || c.verb == PATCH || c.verb == HEAD || c.verb == OPTIONS)
       else
         && Offers(newDoc, c.path, c.verb)
         && (c.verb == POST || c.verb == PUT || c.verb == PATCH
             || (!c.finding.RequiredFieldAdded? && (c.verb == GET || c.verb == DELETE)))
         && Shows(oldDoc.paths.value[c.path][c.verb], newDoc.paths.value[c.path][c.verb], c.finding, place)
  }

  /** The old body's media types disagree on the type of a property. */
  ghost predicate Disagrees(doc: Document, path: string, verb: Verb) {
    && Offers(doc, path, verb)
    && exists mt, mt', f, t, t' :: t != t'
         && BodyTypes(doc.paths.value[path][verb].requestBody, mt, f, t)
         && BodyTypes(doc.paths.value[path][verb].requestBody, mt', f, t')
  }

  /** In no operation of the document do they. */
  ghost predicate Undisputed(doc: Document) {
    forall path, verb :: !Disagrees(doc, path, verb)
  }

  // ---- Parameters -------------------------------------------------------------------------

  lemma {:induction false} LastTypeIff(parameters: seq<Option<Parameter>>, name: string, t: string)
    ensures LastType(parameters, name) == Some(t) <==> exists i :: LastTyped(parameters, i, name, t)
  {
    if parameters != [] {
      var n := |parameters| - 1;
      LastTypeIff(parameters[..n], name, t);
      if u :| TypedAs(parameters[n], name, u) {
        assert LastTyped(parameters, n, name, u);
        assert forall i | LastTyped(parameters, i, name, t) :: i == n;
      } else {
        var p := parameters[n];
        assert p.Some? && TypeOf(p.value).Some? ==> TypedAs(p, p.value.name, TypeOf(p.value).value);
        assert forall j | 0 <= j < n :: parameters[..n][j] == parameters[j];
        if i :| LastTyped(parameters[..n], i, name, t) {
          assert LastTyped(parameters, i, name, t);
        }
        if i :| LastTyped(parameters, i, name, t) {
          assert LastTyped(parameters[..n], i, name, t);
        }
      }
    }
  }

  lemma {:induction false} LastEnumIff(parameters: seq<Option<Parameter>>, name: string)
    ensures LastEnum(parameters, name).Some? ==>
      exists i :: LastEnumerated(parameters, i, name) && forall v :: v in LastEnum(parameters, name).value <==> Prints(parameters[i], v)
    ensures LastEnum(parameters, name).None? ==> forall i :: !LastEnumerated(parameters, i, name)
  {
    if parameters != [] {
      var n := |parameters| - 1;
      LastEnumIff(parameters[..n], name);
      if Enumerated(parameters[n], name) {
        assert LastEnumerated(parameters, n, name);
        assert forall v :: v in LastEnum(parameters, name).value <==> Prints(parameters[n], v);
      } else {
        assert forall j | 0 <= j < n :: parameters[..n][j] == parameters[j];
        assert forall i :: LastEnumerated(parameters, i, name) ==> LastEnumerated(parameters[..n], i, name);
        if LastEnum(parameters, name).Some? {
          var i :| LastEnumerated(parameters[..n], i, name)
            && forall v :: v in LastEnum(parameters, name).value <==> Prints(parameters[..n][i], v);
          assert LastEnumerated(parameters, i, name);
        }
      }
    }
  }

  lemma LastEnumeratedIsOne(parameters: seq<Option<Parameter>>, i: int, j: int, name: string)
    requires LastEnumerated(parameters, i, name) && LastEnumerated(parameters, j, name)
    ensures i == j
  {
  }

  /** A new parameter shows a finding by these rules exactly when it does by the engine's. */
  lemma ParameterShowsIff(oldOp: Operation, newOp: Operation, finding: Finding, i: nat)
    requires finding.RequiredParameterAdded? || finding.ParameterTypeChanged? || finding.EnumValuesRemoved?
    requires i < |newOp.parameters|
    ensures newOp.parameters[i].Some? && ParameterShows(oldOp.parameters, newOp.parameters[i].value, finding)
      <==> Shows(oldOp, newOp, finding, ParameterAt(i))
  {
    var p := newOp.parameters[i];
    match finding
    case RequiredParameterAdded(name) =>
      assert Declares(oldOp.parameters, name) <==> exists q :: Some(q) in oldOp.parameters && q.name == name;
    case ParameterTypeChanged(name, t, t') =>
      LastTypeIff(oldOp.parameters, name, t);
      assert Widens(t, t') <==> CompatibleTypeChange(t, t');
    case EnumValuesRemoved(name, values) =>
      LastEnumIff(oldOp.parameters, name);
      EnumShowsIff(oldOp, newOp, name, values, i);
  }

  lemma EnumShowsIff(oldOp: Operation, newOp: Operation, name: string, values: set<string>, i: nat)
    requires i < |newOp.parameters|
    ensures newOp.parameters[i].Some? && ParameterShows(oldOp.parameters, newOp.parameters[i].value, EnumValuesRemoved(name, values))
      <==> Shows(oldOp, newOp, EnumValuesRemoved(name, values), ParameterAt(i))
  {
    var p, olds := newOp.parameters[i], oldOp.parameters;
    LastEnumIff(olds, name);
    if LastEnum(olds, name).Some? && Enumerated(p, name) {
      var k :| LastEnumerated(olds, k, name) && forall v :: v in LastEnum(olds, name).value <==> Prints(olds[k], v);
      var removed := LastEnum(olds, name).value - p.value.schema.value.PrintedEnum();
      assert forall v :: v in removed <==> Prints(olds[k], v) && !Prints(p, v);
      forall j | LastEnumerated(olds, j, name) ensures j == k {
        LastEnumeratedIsOne(olds, j, k, name);
      }
    }
  }

  ghost function ShownAt(oldOp: Operation, newOp: Operation, finding: Finding): nat -> bool {
    (i: nat) => Shows(oldOp, newOp, finding, ParameterAt(i))
  }

  /** The indexes below n that have the property. */
  ghost function Below(shown: nat -> bool, n: nat): set<nat> {
    set i: nat | i < n && shown(i)
  }

  lemma OneMoreBelow(shown: nat -> bool, n: nat)
    ensures |Below(shown, n + 1)| == |Below(shown, n)| + if shown(n) then 1 else 0
  {
    assert Below(shown, n + 1) == Below(shown, n) + if shown(n) then {n} else {};
  }

  lemma {:induction false} ParameterCountIsShown(oldOp: Operation, newOp: Operation, finding: Finding, n: nat)
    requires finding.RequiredParameterAdded? || finding.ParameterTypeChanged? || finding.EnumValuesRemoved?
    requires n <= |newOp.parameters|
    ensures |Below(ShownAt(oldOp, newOp, finding), n)| == ParameterCount(oldOp.parameters, newOp.parameters[..n], finding)
  {
    if n > 0 {
      ParameterCountIsShown(oldOp, newOp, finding, n - 1);
      assert newOp.parameters[..n][..n - 1] == newOp.parameters[..n - 1];
      ParameterShowsIff(oldOp, newOp, finding, n - 1);
      OneMoreBelow(ShownAt(oldOp, newOp, finding), n - 1);
    }
  }

  lemma {:induction false} IndexPlaces(indexes: set<nat>) returns (places: set<Place>)
    ensures forall place :: place in places <==> place.ParameterAt? && place.index in indexes
    ensures |places| == |indexes|
  {
    places := {};
    if indexes != {} {
      var i :| i in indexes;
      places := IndexPlaces(indexes - {i});
      places := places + {ParameterAt(i)};
    }
  }

  lemma ParameterPlaces(oldOp: Operation, newOp: Operation, finding: Finding) returns (places: set<Place>)
    requires finding.RequiredParameterAdded? || finding.ParameterTypeChanged? || finding.EnumValuesRemoved?
    ensures forall place :: place in places <==> Shows(oldOp, newOp, finding, place)
    ensures |places| == ParameterCount(oldOp.parameters, newOp.parameters, finding)
  {
    var n := |newOp.parameters|;
    ParameterCountIsShown(oldOp, newOp, finding, n);
    assert newOp.parameters[..n] == newOp.parameters;
    places := IndexPlaces(Below(ShownAt(oldOp, newOp, finding), n));
    assert forall place | Shows(oldOp, newOp, finding, place) :: place.ParameterAt? && place.index < n;
  }

  // ---- Bodies and responses ---------------------------------------------------------------

  lemma {:induction false} EntryPlaces(mt: string, required: seq<string>, field: string) returns (places: set<Place>)
    ensures forall place :: place in places <==> place.RequiredAt? && place.mt == mt && place.index < |required| && required[place.index] == field
    ensures |places| == multiset(required)[field]
  {
    places := {};
    if required != [] {
      var n := |required| - 1;
      places := EntryPlaces(mt, required[..n], field);
      assert required == required[..n] + [required[n]];
      if required[n] == field {
        places := places + {RequiredAt(mt, n)};
      }
    }
  }

  lemma {:induction false} RequiredPlaces(content: Content, media: set<string>, field: string) returns (places: set<Place>)
    requires media <= content.Keys
    ensures forall place :: place in places <==>
      && place.RequiredAt? && place.mt in media && content[place.mt].Some?
      && place.index < |content[place.mt].value.required| && content[place.mt].value.required[place.index] == field
    ensures |places| == TimesRequired(content, media, field)
  {
    places := {};
    if media != {} {
      var mt :| mt in media;
      TimesRequiredAny(content, media, field, mt);
      places := RequiredPlaces(content, media - {mt}, field);
      if content[mt].Some? {
        var here := EntryPlaces(mt, content[mt].value.required, field);
        assert places !! here;
        places := places + here;
      }
    }
  }

  lemma {:induction false} MediaPlaces(media: set<string>) returns (places: set<Place>)
    ensures forall place :: place in places <==> place.MediaType? && place.mt in media
    ensures |places| == |media|
  {
    places := {};
    if media != {} {
      var mt :| mt in media;
      places := MediaPlaces(media - {mt});
      places := places + {MediaType(mt)};
    }
  }

  lemma RequiredFieldPlaces(oldOp: Operation, newOp: Operation, field: string) returns (places: set<Place>)
    ensures forall place :: place in places <==> Shows(oldOp, newOp, RequiredFieldAdded(field), place)
    ensures |places| == BodyCount(oldOp.requestBody, newOp.requestBody, RequiredFieldAdded(field))
  {
    var old', content := ContentOf(oldOp.requestBody), ContentOf(newOp.requestBody);
    assert forall mt :: RequiresField(old', mt, field) <==> BodyRequires(oldOp.requestBody, mt, field);
    if SomewhereRequired(old', field) {
      places := {};
    } else {
      assert forall mt :: !RequiresField(old', mt, field);
      places := RequiredPlaces(content, content.Keys, field);
    }
  }

  lemma TypedFieldPlaces(oldOp: Operation, newOp: Operation, finding: Finding) returns (places: set<Place>)
    requires finding.BodyFieldTypeChanged?
    ensures forall place :: place in places <==> Shows(oldOp, newOp, finding, place)
    ensures |places| == BodyCount(oldOp.requestBody, newOp.requestBody, finding)
  {
    var field, t, t' := finding.field, finding.oldType, finding.newType;
    var old', content := ContentOf(oldOp.requestBody), ContentOf(newOp.requestBody);
    assert forall mt :: FieldHasType(old', mt, field, t) <==> BodyTypes(oldOp.requestBody, mt, field, t);
    assert forall mt :: FieldHasType(content, mt, field, t') <==> BodyTypes(newOp.requestBody, mt, field, t');
    assert Widens(t, t') <==> CompatibleTypeChange(t, t');
    if SomewhereTyped(old', field, t) && Changed(t, t') {
      places := MediaPlaces(set mt | mt in content && FieldHasType(content, mt, field, t'));
    } else {
      places := {};
    }
  }

  lemma ResponseShowsIff(oldOp: Operation, newOp: Operation, finding: Finding, mt: string)
    requires finding.ResponseFieldRemoved? || finding.ResponseFieldTypeChanged?
    ensures Shows(oldOp, newOp, finding, MediaType(mt)) <==>
      exists a, b :: AnswersWith(oldOp, finding.code, mt, a) && AnswersWith(newOp, finding.code, mt, b) && SchemaShows(Some(a), Some(b), finding)
  {
  }

  lemma ResponsePlaces(oldOp: Operation, newOp: Operation, finding: Finding) returns (places: set<Place>)
    requires finding.ResponseFieldRemoved? || finding.ResponseFieldTypeChanged?
    ensures forall place :: place in places <==> Shows(oldOp, newOp, finding, place)
    ensures |places| == OperationCount(oldOp, newOp, finding)
  {
    var media := {};
    if oldOp.responses.Some? && newOp.responses.Some? {
      var old', new', code := oldOp.responses.value, newOp.responses.value, finding.code;
      if code in old' && old'[code].Some? && code in new' && new'[code].Some? {
        var a, b := old'[code].value.content, new'[code].value.content;
        media := MediaShowing(a, b, a.Keys, finding);
        forall mt | mt in media ensures Shows(oldOp, newOp, finding, MediaType(mt)) {
          assert AnswersWith(oldOp, code, mt, a[mt].value) && AnswersWith(newOp, code, mt, b[mt].value);
          ResponseShowsIff(oldOp, newOp, finding, mt);
        }
      }
    }
    forall mt | Shows(oldOp, newOp, finding, MediaType(mt)) ensures mt in media {
      ResponseShowsIff(oldOp, newOp, finding, mt);
    }
    places := MediaPlaces(media);
  }

  // ---- Documents --------------------------------------------------------------------------

  /** The engine's count for a pair of operations is the number of places. */
  lemma OperationPlaces(oldOp: Operation, newOp: Operation, finding: Finding) returns (places: set<Place>)
    requires !finding.EndpointRemoved?
    ensures forall place :: place in places <==> Shows(oldOp, newOp, finding, place)
    ensures |places| == OperationCount(oldOp, newOp, finding)
  {
    if finding.RequiredParameterAdded? || finding.ParameterTypeChanged? || finding.EnumValuesRemoved? {
      places := ParameterPlaces(oldOp, newOp, finding);
    } else if finding.RequiredFieldAdded? {
      places := RequiredFieldPlaces(oldOp, newOp, finding.field);
    } else if finding.BodyFieldTypeChanged? {
      places := TypedFieldPlaces(oldOp, newOp, finding);
      NoParameterShows(oldOp.parameters, newOp.parameters, finding);
    } else if finding.StatusRemoved? {
      places := if Shows(oldOp, newOp, finding, Whole) then {Whole} else {};
    } else {
      places := ResponsePlaces(oldOp, newOp, finding);
    }
  }

  /** How often a change is due is the number of places it is due at. */
  lemma CountIsPlaces(oldDoc: Document, newDoc: Document, c: BreakingChange) returns (places: set<Place>)
    ensures forall place :: place in places <==> Due(oldDoc, newDoc, c, place)
    ensures |places| == Count(oldDoc, newDoc, c)
  {
    places := {};
    if c.finding.EndpointRemoved? {
      if Due(oldDoc, newDoc, c, Whole) {
        places := {Whole};
      }
    } else if Offers(oldDoc, c.path, c.verb) && Offers(newDoc, c.path, c.verb) {
      var here := OperationPlaces(oldDoc.paths.value[c.path][c.verb], newDoc.paths.value[c.path][c.verb], c.finding);
      if c.verb in MethodsOf(PassOf(c.finding)) {
        places := here;
      }
    }
  }

  /**
   Whatever order Go visits its maps in, the engine reports a change once for each place it is due at;
   only of body type changes, and only where the old media types disagree, it may leave some out.
   */
  lemma ReportsPerPlace(changes: seq<BreakingChange>, oldDoc: Document, newDoc: Document, c: BreakingChange) returns (places: set<Place>)
    requires Complete(changes, oldDoc, newDoc)
    ensures forall place :: place in places <==> Due(oldDoc, newDoc, c, place)
    ensures multiset(changes)[c] <= |places|
    ensures !(c.finding.BodyFieldTypeChanged? && Disagrees(oldDoc, c.path, c.verb)) ==> multiset(changes)[c] == |places|
  {
    places := CountIsPlaces(oldDoc, newDoc, c);
    assert Settled(multiset(changes)[c], Count(oldDoc, newDoc, c), PinnedAt(oldDoc, c));
    if oldDoc.Serves(c.path, c.verb) && !Disagrees(oldDoc, c.path, c.verb) {
      var body := oldDoc.OperationAt(c.path, c.verb).requestBody;
      assert forall mt, f, t :: FieldHasType(ContentOf(body), mt, f, t) <==> BodyTypes(body, mt, f, t);
    }
  }

  /** The same for the CLI, which looks for five methods' endpoints and for no body types and no response fields. */
  lemma CliReportsPerPlace(changes: seq<BreakingChange>, oldDoc: Document, newDoc: Document, c: BreakingChange) returns (places: set<Place>)
    requires Cli.SeenReports(changes, oldDoc, newDoc)
    ensures forall place :: place in places <==> Due(oldDoc, newDoc, c, place)
    ensures multiset(changes)[c] ==
      if c.finding.BodyFieldTypeChanged? || c.finding.ResponseFieldRemoved? || c.finding.ResponseFieldTypeChanged?
         || (c.finding.EndpointRemoved? && (c.verb == HEAD || c.verb == OPTIONS))
      then 0 else |places|
  {
    places := CountIsPlaces(oldDoc, newDoc, c);
  }

  /** A change is reported exactly when it is due somewhere. */
  lemma ReportedIffDue(changes: seq<BreakingChange>, oldDoc: Document, newDoc: Document, c: BreakingChange)
    requires Complete(changes, oldDoc, newDoc)
    ensures c in changes ==> exists place :: Due(oldDoc, newDoc, c, place)
    ensures !(c.finding.BodyFieldTypeChanged? && Disagrees(oldDoc, c.path, c.verb)) && (exists place :: Due(oldDoc, newDoc, c, place)) ==>
      c in changes
  {
    var places := ReportsPerPlace(changes, oldDoc, newDoc, c);
    assert c in changes <==> c in multiset(changes);
    if c in changes {
      assert places != {};
      var place :| place in places;
    }
  }
  /** taken gives each property the old body types one of its types there, and no other property any. */
  ghost predicate TakesOneOf(taken: map<string, string>, oldBody: Option<RequestBody>) {
    && (forall f | f in taken :: exists mt :: BodyTypes(oldBody, mt, f, taken[f]))
    && forall mt, f, t | BodyTypes(oldBody, mt, f, t) :: f in taken
  }

  lemma OrderTakesOneOf(body: RequestBody, order: seq<string>)
    requires Visits(body.content, order)
    ensures TakesOneOf(TypesAlong(body.content, order), Some(body))
  {
    var taken := TypesAlong(body.content, order);
    TypesAlongAreTyped(body.content, order);
    forall f | f in taken ensures exists mt :: BodyTypes(Some(body), mt, f, taken[f]) {
      assert SomewhereTyped(body.content, f, taken[f]);
      var mt :| mt in body.content && FieldHasType(body.content, mt, f, taken[f]);
      assert BodyTypes(Some(body), mt, f, taken[f]);
    }
    forall mt, f, t | BodyTypes(Some(body), mt, f, t) ensures f in taken {
      assert FieldHasType(body.content, mt, f, t);
    }
  }

  lemma MovedIff(oldContent: Content, newBody: RequestBody, order: seq<string>, f: string, t: string, t': string)
    requires Visits(oldContent, order)
    ensures MovedCount(oldContent, newBody.content, order, BodyFieldTypeChanged(f, t, t')) > 0 <==>
      var taken := TypesAlong(oldContent, order);
      f in taken && taken[f] == t && t != t' && !Widens(t, t') && exists mt :: BodyTypes(Some(newBody), mt, f, t')
  {
    var typed := TypedMedia(newBody.content, newBody.content.Keys, f, t');
    assert forall mt :: mt in typed <==> BodyTypes(Some(newBody), mt, f, t');
    assert Widens(t, t') <==> CompatibleTypeChange(t, t');
    if typed != {} {
      var mt :| mt in typed;
    }
  }

  /** Where they disagree, the engine takes one of the old types of each property, and reports every change from that one. */
  lemma OneTypeIsTaken(changes: seq<BreakingChange>, oldDoc: Document, newDoc: Document, path: string, verb: Verb)
    returns (taken: map<string, string>)
    requires Complete(changes, oldDoc, newDoc) && Offers(oldDoc, path, verb) && Offers(newDoc, path, verb)
    requires verb == GET || verb == POST || verb == PUT || verb == DELETE || verb == PATCH
    requires oldDoc.paths.value[path][verb].requestBody.Some? && newDoc.paths.value[path][verb].requestBody.Some?
    ensures TakesOneOf(taken, oldDoc.paths.value[path][verb].requestBody)
    ensures forall f, t, t' :: BreakingChange(path, verb, BodyFieldTypeChanged(f, t, t')) in changes <==>
      && f in taken && taken[f] == t && t != t' && !Widens(t, t')
      && exists mt :: BodyTypes(newDoc.paths.value[path][verb].requestBody, mt, f, t')
  {
    var old', new' := oldDoc.paths.value[path][verb].requestBody.value, newDoc.paths.value[path][verb].requestBody.value;
    assert OrderedAt(changes, oldDoc, newDoc, path, verb);
    var order :| MovedAlong(changes, old'.content, new'.content, order, path, verb);
    taken := TypesAlong(old'.content, order);
    OrderTakesOneOf(old', order);
    forall f, t, t' ensures BreakingChange(path, verb, BodyFieldTypeChanged(f, t, t')) in changes <==>
      f in taken && taken[f] == t && t != t' && !Widens(t, t') && exists mt :: BodyTypes(Some(new'), mt, f, t')
    {
      var c := BreakingChange(path, verb, BodyFieldTypeChanged(f, t, t'));
      assert c in changes <==> multiset(changes)[c] > 0;
      assert multiset(changes)[c] == MovedCount(old'.content, new'.content, order, c.finding);
      MovedIff(old'.content, new', order, f, t, t');
    }
  }

  /** The engine has nothing to report exactly when nothing is due anywhere. */
  lemma CompatibleIffNoneDue(oldDoc: Document, newDoc: Document)
    ensures Compatible(oldDoc, newDoc) <==> forall c, place :: !Due(oldDoc, newDoc, c, place)
  {
    forall c ensures Count(oldDoc, newDoc, c) == 0 <==> forall place :: !Due(oldDoc, newDoc, c, place) {
      var places := CountIsPlaces(oldDoc, newDoc, c);
      if places != {} {
        var place :| place in places;
        assert Due(oldDoc, newDoc, c, place);
      }
    }
    if !Compatible(oldDoc, newDoc) {
      var c :| Count(oldDoc, newDoc, c) != 0;
      var place :| Due(oldDoc, newDoc, c, place);
    } else {
      forall c, place ensures !Due(oldDoc, newDoc, c, place) {
        assert Count(oldDoc, newDoc, c) == 0;
      }
    }
  }

  lemma UndisputedAgree(doc: Document)
    ensures Undisputed(doc) ==> AgreeingMedia(doc)
  {
    if Undisputed(doc) {
      forall path, verb | doc.Serves(path, verb) ensures AgreeingContent(ContentOf(doc.OperationAt(path, verb).requestBody)) {
        var body := doc.OperationAt(path, verb).requestBody;
        assert forall mt, f, t :: FieldHasType(ContentOf(body), mt, f, t) ==> BodyTypes(body, mt, f, t);
        assert !Disagrees(doc, path, verb);
      }
    }
  }
}
