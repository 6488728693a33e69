/**
 What the server's compatibility engine promises to report, stated without its loops:
 how often each finding is due for a pair of documents, and when two documents are compatible.
 */
module BreakingChanges {
  import opened Prelude
  import opened OpenApi

  /**
   What a pb.BreakingChange says besides its path and method. Its Type, OldValue, NewValue
   and Description are determined by these fields; removed enum values are read as a set.
   */
  datatype Finding =
    | EndpointRemoved
    | RequiredParameterAdded(name: string)
    | RequiredFieldAdded(field: string)
    | ParameterTypeChanged(name: string, oldType: string, newType: string)
    | BodyFieldTypeChanged(field: string, oldType: string, newType: string)
    | EnumValuesRemoved(name: string, values: set<string>)
    | StatusRemoved(code: string)
    | ResponseFieldRemoved(code: string, field: string)
    | ResponseFieldTypeChanged(code: string, field: string, oldType: string, newType: string)

  datatype BreakingChange = BreakingChange(path: string, verb: Verb, finding: Finding)

  /** The five checks that visit every path both documents have. */
  datatype Pass = AddedParameters | AddedFields | TypeChanges | RemovedEnums | Responses

  const ENDPOINT_METHODS: seq<Verb> := [GET, POST, PUT, DELETE, PATCH, HEAD, OPTIONS]
  const CHECKED_METHODS: seq<Verb> := [GET, POST, PUT, DELETE, PATCH]
  const BODY_METHODS: seq<Verb> := [POST, PUT, PATCH]

  /** Type widenings the engine lets through. */
  predicate CompatibleTypeChange(oldType: string, newType: string) {
    || (oldType == "integer" && newType == "number")
    || (oldType == "int32" && newType in ["int64", "integer", "number"])
    || (oldType == "int64" && newType == "number")
    || (oldType == "float" && newType in ["double", "number"])
  }

  predicate Changed(oldType: string, newType: string) {
    oldType != newType && !CompatibleTypeChange(oldType, newType)
  }

  // ---- Parameters -------------------------------------------------------------------------

  ghost predicate Declares(parameters: seq<Option<Parameter>>, name: string) {
    exists p :: p in parameters && p.Some? && p.value.name == name
  }

  function TypeOf(p: Parameter): Option<string> {
    if p.schema.Some? then p.schema.value.FirstType() else None
  }

  predicate HasEnum(p: Parameter) {
    p.schema.Some? && |p.schema.value.enumeration| > 0
  }

  /** The type of the last typed parameter called name. */
  function LastType(parameters: seq<Option<Parameter>>, name: string): Option<string> {
    if parameters == [] then None else
      var p := parameters[|parameters| - 1];
      if p.Some? && p.value.name == name && TypeOf(p.value).Some? then TypeOf(p.value)
      else LastType(parameters[..|parameters| - 1], name)
  }

  /** The enum of the last parameter called name that has one. */
  function LastEnum(parameters: seq<Option<Parameter>>, name: string): Option<set<string>> {
    if parameters == [] then None else
      var p := parameters[|parameters| - 1];
      if p.Some? && p.value.name == name && HasEnum(p.value) then Some(p.value.schema.value.PrintedEnum())
      else LastEnum(parameters[..|parameters| - 1], name)
  }

  /** The new parameter p is a reason to report finding. */
  ghost predicate ParameterShows(oldParameters: seq<Option<Parameter>>, p: Parameter, finding: Finding) {
    match finding
    case RequiredParameterAdded(name) =>
      p.name == name && p.required && !Declares(oldParameters, name)
    case ParameterTypeChanged(name, oldType, newType) =>
      && p.name == name && p.schema.Some?
      && LastType(oldParameters, name) == Some(oldType)
      && newType == (if TypeOf(p).Some? then TypeOf(p).value else "")
      && Changed(oldType, newType)
    case EnumValuesRemoved(name, values) =>
      && p.name == name && HasEnum(p)
      && LastEnum(oldParameters, name).Some?
      && values == LastEnum(oldParameters, name).value - p.schema.value.PrintedEnum()
      && values != {}
    case _ => false
  }

  ghost function ParameterCount(oldParameters: seq<Option<Parameter>>, newParameters: seq<Option<Parameter>>, finding: Finding): nat {
    if newParameters == [] then 0 else
      var p := newParameters[|newParameters| - 1];
      ParameterCount(oldParameters, newParameters[..|newParameters| - 1], finding)
      + if p.Some? && ParameterShows(oldParameters, p.value, finding) then 1 else 0
  }

  // ---- Bodies -----------------------------------------------------------------------------

  function ContentOf(body: Option<RequestBody>): Content {
    if body.Some? then body.value.content else map[]
  }

  predicate HasProperty(schema: Schema, field: string) {
    field in schema.properties && schema.properties[field].Some?
  }

  predicate PropertyHasType(schema: Schema, field: string, t: string) {
    HasProperty(schema, field) && schema.properties[field].value.FirstType() == Some(t)
  }

  /** The schema of media type mt lists field with first type t. */
  predicate FieldHasType(content: Content, mt: string, field: string, t: string) {
    mt in content && content[mt].Some? && PropertyHasType(content[mt].value, field, t)
  }

  predicate RequiresField(content: Content, mt: string, field: string) {
    mt in content && content[mt].Some? && field in content[mt].value.required
  }

  predicate SomewhereRequired(content: Content, field: string) {
    exists mt :: mt in content && RequiresField(content, mt, field)
  }

  predicate SomewhereTyped(content: Content, field: string, t: string) {
    exists mt :: mt in content && FieldHasType(content, mt, field, t)
  }

  /** How often field stands in the required list of media type mt. */
  function TimesRequiredBy(content: Content, mt: string, field: string): nat {
    if mt in content && content[mt].Some? then multiset(content[mt].value.required)[field] else 0
  }

  ghost function TimesRequired(content: Content, media: set<string>, field: string): nat {
    if media == {} then 0 else
      var mt :| mt in media;
      TimesRequiredBy(content, mt, field) + TimesRequired(content, media - {mt}, field)
  }

  ghost function BodyCount(oldBody: Option<RequestBody>, newBody: Option<RequestBody>, finding: Finding): nat {
    match finding
    case RequiredFieldAdded(field) =>
      var content := ContentOf(newBody);
      if SomewhereRequired(ContentOf(oldBody), field) then 0 else TimesRequired(content, content.Keys, field)
    case BodyFieldTypeChanged(field, oldType, newType) =>
      var content := ContentOf(newBody);
      if SomewhereTyped(ContentOf(oldBody), field, oldType) && Changed(oldType, newType)
      then |set mt | mt in content && FieldHasType(content, mt, field, newType)|
      else 0
    case _ => 0
  }

  /** No two media types give a property different types. */
  ghost predicate AgreeingContent(content: Content) {
    forall mt, mt', field, t, t' ::
      FieldHasType(content, mt, field, t) && FieldHasType(content, mt', field, t') ==> t == t'
  }

  // ---- Responses --------------------------------------------------------------------------

  type ResponseMap = map<string, Option<Response>>

  /** Comparing two response schemas is a reason to report finding. */
  predicate SchemaShows(oldSchema: Option<Schema>, newSchema: Option<Schema>, finding: Finding) {
    && oldSchema.Some? && newSchema.Some?
    && match finding
       case ResponseFieldRemoved(_, field) =>
         HasProperty(oldSchema.value, field) && !HasProperty(newSchema.value, field)
       case ResponseFieldTypeChanged(_, field, oldType, newType) =>
         && PropertyHasType(oldSchema.value, field, oldType)
         && PropertyHasType(newSchema.value, field, newType)
         && oldType != newType
       case _ => false
  }

  function MediaShowing(oldContent: Content, newContent: Content, media: set<string>, finding: Finding): set<string> {
    set mt | mt in media && mt in oldContent && mt in newContent && SchemaShows(oldContent[mt], newContent[mt], finding)
  }

  function ResponseCount(oldResponses: ResponseMap, newResponses: ResponseMap, finding: Finding): nat {
    match finding
    case StatusRemoved(code) =>
      if code in oldResponses && oldResponses[code].Some? && code !in newResponses then 1 else 0
    case ResponseFieldRemoved(code, _) => MediaCount(oldResponses, newResponses, code, finding)
    case ResponseFieldTypeChanged(code, _, _, _) => MediaCount(oldResponses, newResponses, code, finding)
    case _ => 0
  }

  function MediaCount(oldResponses: ResponseMap, newResponses: ResponseMap, code: string, finding: Finding): nat {
    if code in oldResponses && oldResponses[code].Some? && code in newResponses && newResponses[code].Some? then
      var oldContent := oldResponses[code].value.content;
      var newContent := newResponses[code].value.content;
      |MediaShowing(oldContent, newContent, oldContent.Keys, finding)|
    else 0
  }

  // ---- Operations and documents -----------------------------------------------------------

  function PassOf(finding: Finding): Pass
    requires !finding.EndpointRemoved?
  {
    match finding
    case RequiredParameterAdded(_) => AddedParameters
    case RequiredFieldAdded(_) => AddedFields
    case ParameterTypeChanged(_, _, _) => TypeChanges
    case BodyFieldTypeChanged(_, _, _) => TypeChanges
    case EnumValuesRemoved(_, _) => RemovedEnums
    case StatusRemoved(_) => Responses
    case ResponseFieldRemoved(_, _) => Responses
    case ResponseFieldTypeChanged(_, _, _, _) => Responses
  }

  function MethodsOf(pass: Pass): seq<Verb> {
    if pass == AddedFields then BODY_METHODS else CHECKED_METHODS
  }

  /** How often comparing two operations has to report finding. */
  ghost function OperationCount(oldOp: Operation, newOp: Operation, finding: Finding): nat
    requires !finding.EndpointRemoved?
  {
    match PassOf(finding)
    case AddedParameters => ParameterCount(oldOp.parameters, newOp.parameters, finding)
    case RemovedEnums => ParameterCount(oldOp.parameters, newOp.parameters, finding)
    case AddedFields => BodyCount(oldOp.requestBody, newOp.requestBody, finding)
    case TypeChanges =>
      ParameterCount(oldOp.parameters, newOp.parameters, finding)
      + BodyCount(oldOp.requestBody, newOp.requestBody, finding)
    case Responses =>
      if oldOp.responses.Some? && newOp.responses.Some?
      then ResponseCount(oldOp.responses.value, newOp.responses.value, finding)
      else 0
  }

  /** How often comparing two documents has to report the change c. */
  ghost function Count(oldDoc: Document, newDoc: Document, c: BreakingChange): nat {
    if !oldDoc.Serves(c.path, c.verb) then 0
    else if c.finding.EndpointRemoved? then
      if c.verb in ENDPOINT_METHODS && !newDoc.Serves(c.path, c.verb) then 1 else 0
    else if newDoc.Serves(c.path, c.verb) && c.verb in MethodsOf(PassOf(c.finding)) then
      OperationCount(oldDoc.OperationAt(c.path, c.verb), newDoc.OperationAt(c.path, c.verb), c.finding)
    else 0
  }

  /** The documents give the engine nothing to report. */
  ghost predicate Compatible(oldDoc: Document, newDoc: Document) {
    forall c :: Count(oldDoc, newDoc, c) == 0
  }

  /** In every operation of doc the body's media types agree on property types. */
  ghost predicate AgreeingMedia(doc: Document) {
    forall path, verb | doc.Serves(path, verb) ::
      AgreeingContent(ContentOf(doc.OperationAt(path, verb).requestBody))
  }

  lemma TimesRequiredAny(content: Content, media: set<string>, field: string, mt: string)
    requires mt in media
    ensures TimesRequired(content, media, field)
         == TimesRequiredBy(content, mt, field) + TimesRequired(content, media - {mt}, field)
  {
    var first :| first in media && TimesRequired(content, media, field)
      == TimesRequiredBy(content, first, field) + TimesRequired(content, media - {first}, field);
    if first != mt {
      TimesRequiredAny(content, media - {first}, field, mt);
      TimesRequiredAny(content, media - {mt}, field, first);
      assert media - {first} - {mt} == media - {mt} - {first};
    }
  }

  lemma TimesRequiredPositive(content: Content, media: set<string>, field: string)
    requires media <= content.Keys
    ensures TimesRequired(content, media, field) > 0 <==> exists mt :: mt in media && RequiresField(content, mt, field)
  {
    if mt :| mt in media && RequiresField(content, mt, field) {
      TimesRequiredAny(content, media, field, mt);
    } else if media != {} {
      var mt :| mt in media;
      TimesRequiredAny(content, media, field, mt);
      assert !RequiresField(content, mt, field);
      TimesRequiredPositive(content, media - {mt}, field);
    }
  }
}
