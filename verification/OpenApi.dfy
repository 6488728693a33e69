/**
 The parsed API documents the engine compares, and the JSON values their schemas describe.
 A Go reference that is nil, or whose Value is nil, is None; a nil map is the empty map
 wherever the code only ranges over it.
 */
module OpenApi {
  import opened Prelude

  datatype Value =
    | Null
    | Text(text: string)
    | Number(number: real)
    | Boolean(flag: bool)
    | List(items: seq<Value>)
    | Record(fields: map<string, Value>)

  /** An enum member, with the text Go's fmt.Sprint gives it. */
  datatype EnumValue = EnumValue(value: Value, printed: string)

  /**
   allows says which values the remaining keywords let through: bounds, patterns, lengths,
   additional properties, and whatever a nested schema says.
   */
  datatype Schema = Schema(
    types: seq<string>,
    enumeration: seq<EnumValue>,
    required: seq<string>,
    properties: map<string, Option<Schema>>,
    nullable: bool,
    allows: Value -> bool)
  {
    function FirstType(): Option<string> {
      if |types| > 0 then Some(types[0]) else None
    }

    function PrintedEnum(): set<string> {
      set e | e in enumeration :: e.printed
    }
  }

  datatype Parameter = Parameter(name: string, required: bool, schema: Option<Schema>)

  /** Media type -> schema. */
  type Content = map<string, Option<Schema>>

  datatype RequestBody = RequestBody(required: bool, content: Content)

  datatype Response = Response(content: Content)

  /** inherited are the parameters of the path item the operation stands under. */
  datatype Operation = Operation(
    parameters: seq<Option<Parameter>>,
    inherited: seq<Option<Parameter>>,
    requestBody: Option<RequestBody>,
    responses: Option<map<string, Option<Response>>>)

  datatype Verb = GET | POST | PUT | DELETE | PATCH | HEAD | OPTIONS | TRACE | CONNECT
  {
    function Name(): string {
      match this
      case GET => "GET"
      case POST => "POST"
      case PUT => "PUT"
      case DELETE => "DELETE"
      case PATCH => "PATCH"
      case HEAD => "HEAD"
      case OPTIONS => "OPTIONS"
      case TRACE => "TRACE"
      case CONNECT => "CONNECT"
    }
  }

  type PathItem = map<Verb, Operation>

  datatype Document = Document(version: string, paths: Option<map<string, PathItem>>)
  {
    function Find(path: string): Option<PathItem> {
      if paths.Some? && path in paths.value then Some(paths.value[path]) else None
    }

    predicate Serves(path: string, verb: Verb) {
      Find(path).Some? && verb in Find(path).value
    }

    function OperationAt(path: string, verb: Verb): Operation
      requires Serves(path, verb)
    {
      Find(path).value[verb]
    }
  }
}
