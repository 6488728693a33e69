/**
 Generating a fixture value from a schema: a depth-bounded recursion over a schema graph that may be
 cyclic, drawing from a random stream.
 */
module FixtureGenerator {
  import opened Prelude
  import opened Strings

  datatype Value =
    | Null
    | Bool(b: bool)
    | Int(i: int)
    | Num(r: real)
    | Str(s: string)
    | Array(items: seq<Value>)
    | Object(members: map<string, Value>)

  /** A schema is referred to by number; a number without a schema is a nil reference. */
  type Ref = nat

  /** An enum member and what fmt prints for it. */
  datatype Literal = Literal(value: Value, printed: string)

  datatype Schema = Schema(
    types: seq<string>,
    properties: map<string, Ref>,
    required: set<string>,
    additional: Option<Ref>,
    closed: bool,
    items: Option<Ref>,
    minItems: nat,
    enumeration: seq<Literal>,
    min: Option<real>,
    max: Option<real>,
    format: string,
    pattern: string,
    allOf: seq<Ref>,
    oneOf: seq<Ref>,
    anyOf: seq<Ref>,
    example: Option<Value>)

  type Schemas = map<Ref, Schema>

  const MIN_INT64 := -0x8000_0000_0000_0000
  const MAX_INT64 := 0x7fff_ffff_ffff_ffff

  type Int64 = i: int | MIN_INT64 <= i <= MAX_INT64

  /**
   The random stream, by position: what each kind of draw yields there, before it is brought into range;
   and what the platform makes of converting a number that no 64-bit integer can hold.
   */
  datatype Source = Source(
    ints: nat -> Int64, reals: nat -> real, bools: nat -> bool, words: (nat, string) -> string,
    overflow: real -> Int64)

  datatype Context = Context(schemas: Schemas, source: Source, useExamples: bool)

  const MAX_DEPTH := 10
  const SAMPLE_KEYS: seq<string> := ["key1", "key2", "key3"]

  /** The only listing of a set of names in ascending order. */
  ghost function Sorted(names: set<string>): (r: seq<string>)
    ensures Ascending(r) && Elements(r) == names
  {
    SomeOrder(names);
    var r :| Ascending(r) && Elements(r) == names;
    r
  }

  lemma {:induction false} SomeOrder(names: set<string>)
    ensures exists r :: Ascending(r) && Elements(r) == names
  {
    if names == {} {
      assert Ascending([]) && Elements([]) == names;
    } else {
      var n :| n in names;
      SomeOrder(names - {n});
      var r :| Ascending(r) && Elements(r) == names - {n};
      assert n in r ==> n in Elements(r);
      InsertedIsAscending(r, n);
      assert Elements(Inserted(r, n)) == names;
    }
  }

  // ---- Scalars ----------------------------------------------------------------------------

  /** r without its fraction, toward zero. */
  function Truncated(r: real): int {
    if r >= 0.0 then r.Floor else -((-r).Floor)
  }

  predicate Representable(r: real) {
    MIN_INT64 <= Truncated(r) <= MAX_INT64
  }

  /** Go's conversion of a float to a 64-bit integer. */
  function ToInt64(source: Source, r: real): Int64 {
    if Representable(r) then Truncated(r) else source.overflow(r)
  }

  /** Addition as 64-bit integers do it. */
  function Plus(i: Int64, n: nat): Int64
    requires n <= MAX_INT64
  {
    if i + n <= MAX_INT64 then i + n else i + n - 0x1_0000_0000_0000_0000
  }

  /** The range drawn from, given the bounds as converted. */
  function Bounds(s: Schema, min: Int64, max: Int64): (Int64, Int64) {
    var lo := if s.min.Some? then min else 1;
    (lo, if s.max.Some? then max else if s.min.Some? then Plus(lo, 1000) else 1000)
  }

  function Converted(source: Source, bound: Option<real>): Int64 {
    if bound.Some? then ToInt64(source, bound.value) else 0
  }

  function IntBounds(source: Source, s: Schema): (Int64, Int64) {
    Bounds(s, Converted(source, s.min), Converted(source, s.max))
  }

  function NumBounds(s: Schema): (real, real) {
    var lo := if s.min.Some? then s.min.value else 0.01;
    (lo, if s.max.Some? then s.max.value else if s.min.Some? then lo + 1000.0 else 999.99)
  }

  /** A draw in the range asked for; for an empty range, whatever the library makes of it. */
  function IntDraw(source: Source, pos: nat, lo: Int64, hi: Int64): Int64 {
    var v := source.ints(pos);
    if lo <= hi && !(lo <= v <= hi) then lo else v
  }

  function NumDraw(source: Source, pos: nat, lo: real, hi: real): real {
    var v := source.reals(pos);
    if lo <= hi && !(lo <= v <= hi) then lo else v
  }

  const DRAWN_FORMATS: set<string> :=
    {"date", "date-time", "email", "uri", "url", "uuid", "hostname", "ipv4", "ipv6", "byte"}

  function StringOf(source: Source, s: Schema, pos: nat): (Value, nat) {
    if s.enumeration != [] then (Str(s.enumeration[0].printed), pos)
    else if s.format in DRAWN_FORMATS then (Str(source.words(pos, s.format)), pos + 1)
    else if s.format == "binary" then (Str("binary-data"), pos)
    else if s.format == "password" then (Str("********"), pos)
    else if s.pattern != "" then (Str("pattern-value"), pos)
    else (Str(source.words(pos, "")), pos + 1)
  }

  function IntegerOf(source: Source, s: Schema, pos: nat): (Value, nat) {
    if s.enumeration != [] && s.enumeration[0].value.Num? then (Int(ToInt64(source, s.enumeration[0].value.r)), pos)
    else (Int(IntDraw(source, pos, IntBounds(source, s).0, IntBounds(source, s).1)), pos + 1)
  }

  function NumberOf(source: Source, s: Schema, pos: nat): (Value, nat) {
    if s.enumeration != [] && s.enumeration[0].value.Num? then (s.enumeration[0].value, pos)
    else (Num(NumDraw(source, pos, NumBounds(s).0, NumBounds(s).1)), pos + 1)
  }

  function BooleanOf(source: Source, s: Schema, pos: nat): (Value, nat) {
    if s.enumeration != [] && s.enumeration[0].value.Bool? then (s.enumeration[0].value, pos)
    else (Bool(source.bools(pos)), pos + 1)
  }

  // ---- The value a schema yields ----------------------------------------------------------

  function Left(depth: nat): nat {
    if depth <= MAX_DEPTH + 1 then MAX_DEPTH + 1 - depth else 0
  }

  function ItemCount(s: Schema): nat {
    if s.minItems > 1 then s.minItems else 1
  }

  /** The value generated at a depth and stream position, and the position after it. */
  ghost function ValueOf(c: Context, ref: Ref, depth: nat, pos: nat): (Value, nat)
    decreases Left(depth), 2
  {
    if depth > MAX_DEPTH || ref !in c.schemas then (Null, pos)
    else
      var s := c.schemas[ref];
      if c.useExamples && s.example.Some? then (s.example.value, pos)
      else if s.allOf != [] then
        var (members, next) := MergedOf(c, s.allOf, depth, pos);
        (Object(members), next)
      else if s.oneOf != [] then ValueOf(c, s.oneOf[0], depth + 1, pos)
      else if s.anyOf != [] then ValueOf(c, s.anyOf[0], depth + 1, pos)
      else if s.types == [] then (if s.properties != map[] then ObjectOf(c, s, depth, pos) else (Null, pos))
      else if s.types[0] == "object" then ObjectOf(c, s, depth, pos)
      else if s.types[0] == "array" then ArrayOf(c, s, depth, pos)
      else if s.types[0] == "string" then StringOf(c.source, s, pos)
      else if s.types[0] == "integer" then IntegerOf(c.source, s, pos)
      else if s.types[0] == "number" then NumberOf(c.source, s, pos)
      else if s.types[0] == "boolean" then BooleanOf(c.source, s, pos)
      else if s.properties != map[] then ObjectOf(c, s, depth, pos)
      else (Null, pos)
  }

  ghost function ObjectOf(c: Context, s: Schema, depth: nat, pos: nat): (Value, nat)
    requires depth <= MAX_DEPTH
    decreases Left(depth), 1
  {
    var (members, next) :=
      if s.properties != map[] || s.additional.None?
      then MembersOf(c, s.properties, Sorted(s.properties.Keys), depth, pos)
      else MembersOf(c, map k | k in SAMPLE_KEYS :: s.additional.value, SAMPLE_KEYS, depth, pos);
    (Object(members), next)
  }

  /** The members for names, drawn in that order. */
  ghost function MembersOf(c: Context, refs: map<string, Ref>, names: seq<string>, depth: nat, pos: nat): (map<string, Value>, nat)
    requires depth <= MAX_DEPTH && forall n | n in names :: n in refs
    decreases Left(depth), 0, |names|
  {
    if names == [] then (map[], pos)
    else
      var last := names[|names| - 1];
      var (members, next) := MembersOf(c, refs, names[..|names| - 1], depth, pos);
      var (value, end) := ValueOf(c, refs[last], depth + 1, next);
      (members[last := value], end)
  }

  ghost function ArrayOf(c: Context, s: Schema, depth: nat, pos: nat): (Value, nat)
    requires depth <= MAX_DEPTH
    decreases Left(depth), 1
  {
    if s.items.None? then (Array([]), pos)
    else
      var (items, next) := ItemsOf(c, s.items.value, ItemCount(s), depth, pos);
      (Array(items), next)
  }

  ghost function ItemsOf(c: Context, ref: Ref, count: nat, depth: nat, pos: nat): (seq<Value>, nat)
    requires depth <= MAX_DEPTH
    decreases Left(depth), 0, count
  {
    if count == 0 then ([], pos)
    else
      var (items, next) := ItemsOf(c, ref, count - 1, depth, pos);
      var (value, end) := ValueOf(c, ref, depth + 1, next);
      (items + [value], end)
  }

  /** The members of all the objects among the values, a later one taking over an earlier one's names. */
  ghost function MergedOf(c: Context, refs: seq<Ref>, depth: nat, pos: nat): (map<string, Value>, nat)
    requires depth <= MAX_DEPTH
    decreases Left(depth), 0, |refs|
  {
    if refs == [] then (map[], pos)
    else
      var (members, next) := MergedOf(c, refs[..|refs| - 1], depth, pos);
      var (value, end) := ValueOf(c, refs[|refs| - 1], depth + 1, next);
      (if value.Object? then members + value.members else members, end)
  }

  // ---- The generator ----------------------------------------------------------------------

  lemma MembersOfStep(c: Context, refs: map<string, Ref>, names: seq<string>, i: nat, depth: nat, pos: nat)
    requires depth <= MAX_DEPTH && i < |names| && forall n | n in names :: n in refs
    ensures (forall n | n in names[..i] :: n in refs) && (forall n | n in names[..i + 1] :: n in refs)
    ensures var (members, next) := MembersOf(c, refs, names[..i], depth, pos);
      var (value, end) := ValueOf(c, refs[names[i]], depth + 1, next);
      MembersOf(c, refs, names[..i + 1], depth, pos) == (members[names[i] := value], end)
  {
    assert names[..i + 1][..i] == names[..i];
  }

  lemma MergedOfStep(c: Context, refs: seq<Ref>, i: nat, depth: nat, pos: nat)
    requires depth <= MAX_DEPTH && i < |refs|
    ensures var (members, next) := MergedOf(c, refs[..i], depth, pos);
      var (value, end) := ValueOf(c, refs[i], depth + 1, next);
      MergedOf(c, refs[..i + 1], depth, pos) == (if value.Object? then members + value.members else members, end)
  {
    assert refs[..i + 1][..i] == refs[..i];
  }

  /** A generator holds the faker, whose state is how far its stream has been drawn. */
  class Generator {
    const context: Context
    var drawn: nat

    constructor (context: Context)
      ensures this.context == context && drawn == 0
    {
      this.context, drawn := context, 0;
    }

    method GenerateValue(ref: Ref, depth: nat) returns (value: Value)
      modifies this`drawn
      ensures (value, drawn) == ValueOf(context, ref, depth, old(drawn))
      decreases Left(depth), 2
    {
      if depth > MAX_DEPTH || ref !in context.schemas {
        return Null;
      }
      var s := context.schemas[ref];
      if context.useExamples && s.example.Some? {
        return s.example.value;
      }
      if |s.allOf| > 0 {
        var members := GenerateAllOf(s.allOf, depth);
        return Object(members);
      }
      if |s.oneOf| > 0 {
        value := GenerateValue(s.oneOf[0], depth + 1);
        return;
      }
      if |s.anyOf| > 0 {
        value := GenerateValue(s.anyOf[0], depth + 1);
        return;
      }
      if |s.types| == 0 {
        if s.properties != map[] {
          value := GenerateObject(s, depth);
          return;
        }
        return Null;
      }
      match s.types[0] {
        case "object" => value := GenerateObject(s, depth);
        case "array" => value := GenerateArray(s, depth);
        case "string" => value := GenerateString(s);
        case "integer" => value := GenerateInteger(s);
        case "number" => value := GenerateNumber(s);
        case "boolean" => value := GenerateBoolean(s);
        case _ =>
          if s.properties != map[] {
            value := GenerateObject(s, depth);
          } else {
            value := Null;
          }
      }
    }

    /** Whatever order the map yields its names in, they are drawn for in ascending order. */
    method GenerateObject(s: Schema, depth: nat) returns (value: Value)
      requires depth <= MAX_DEPTH
      modifies this`drawn
      ensures (value, drawn) == ObjectOf(context, s, depth, old(drawn))
      decreases Left(depth), 1
    {
      var names := SortKeys(s.properties.Keys);
      AscendingIsUnique(names, Sorted(s.properties.Keys));
      EmptyElements(names);
      assert forall n | n in names :: n in Elements(names);
      var result := GenerateMembers(s.properties, names, depth);
      if |s.properties| == 0 && s.additional.Some? {
        result := GenerateMembers(map k | k in SAMPLE_KEYS :: s.additional.value, SAMPLE_KEYS, depth);
      }
      value := Object(result);
    }

    method GenerateMembers(refs: map<string, Ref>, names: seq<string>, depth: nat) returns (result: map<string, Value>)
      requires depth <= MAX_DEPTH && forall n | n in names :: n in refs
      modifies this`drawn
      ensures (result, drawn) == MembersOf(context, refs, names, depth, old(drawn))
      decreases Left(depth), 0
    {
      result := map[];
      for i := 0 to |names|
        invariant forall n | n in names[..i] :: n in refs
        invariant (result, drawn) == MembersOf(context, refs, names[..i], depth, old(drawn))
      {
        MembersOfStep(context, refs, names, i, depth, old(drawn));
        var value := GenerateValue(refs[names[i]], depth + 1);
        result := result[names[i] := value];
      }
      assert names[..|names|] == names;
    }

    method GenerateArray(s: Schema, depth: nat) returns (value: Value)
      requires depth <= MAX_DEPTH
      modifies this`drawn
      ensures (value, drawn) == ArrayOf(context, s, depth, old(drawn))
      decreases Left(depth), 1
    {
      if s.items.None? {
        return Array([]);
      }
      var count := 1;
      if s.minItems > 0 && count < s.minItems {
        count := s.minItems;
      }
      var result: seq<Value> := [];
      for i := 0 to count
        invariant (result, drawn) == ItemsOf(context, s.items.value, i, depth, old(drawn))
      {
        var item := GenerateValue(s.items.value, depth + 1);
        result := result + [item];
      }
      value := Array(result);
    }

    method GenerateString(s: Schema) returns (value: Value)
      modifies this`drawn
      ensures (value, drawn) == StringOf(context.source, s, old(drawn))
      ensures value.Str? && old(drawn) <= drawn <= old(drawn) + 1
      ensures s.enumeration != [] ==> value.s == s.enumeration[0].printed && drawn == old(drawn)
    {
      if |s.enumeration| > 0 {
        return Str(s.enumeration[0].printed);
      }
      if s.format in DRAWN_FORMATS {
        value := Str(context.source.words(drawn, s.format));
        drawn := drawn + 1;
        return;
      }
      if s.format == "binary" { return Str("binary-data"); }
      if s.format == "password" { return Str("********"); }
      if s.pattern != "" { return Str("pattern-value"); }
      value := Str(context.source.words(drawn, ""));
      drawn := drawn + 1;
    }

    method GenerateInteger(s: Schema) returns (value: Value)
      modifies this`drawn
      ensures (value, drawn) == IntegerOf(context.source, s, old(drawn))
      ensures value.Int? && MIN_INT64 <= value.i <= MAX_INT64 && old(drawn) <= drawn <= old(drawn) + 1
      ensures s.enumeration != [] && s.enumeration[0].value.Num? && Representable(s.enumeration[0].value.r) ==>
        value.i == Truncated(s.enumeration[0].value.r) && drawn == old(drawn)
      ensures s.enumeration == [] && IntBounds(context.source, s).0 <= IntBounds(context.source, s).1 ==>
        IntBounds(context.source, s).0 <= value.i <= IntBounds(context.source, s).1
    {
      if |s.enumeration| > 0 && s.enumeration[0].value.Num? {
        return Int(ToInt64(context.source, s.enumeration[0].value.r));
      }
      var min: Int64, max: Int64 := 1, 1000;
      if s.min.Some? { min := ToInt64(context.source, s.min.value); }
      if s.max.Some? {
        max := ToInt64(context.source, s.max.value);
      } else if s.min.Some? {
        max := Plus(min, 1000);
      }
      value := Int(IntDraw(context.source, drawn, min, max));
      drawn := drawn + 1;
    }

    method GenerateNumber(s: Schema) returns (value: Value)
      modifies this`drawn
      ensures (value, drawn) == NumberOf(context.source, s, old(drawn))
      ensures value.Num? && old(drawn) <= drawn <= old(drawn) + 1
      ensures s.enumeration != [] && s.enumeration[0].value.Num? ==> value == s.enumeration[0].value && drawn == old(drawn)
      ensures s.enumeration == [] && NumBounds(s).0 <= NumBounds(s).1 ==> NumBounds(s).0 <= value.r <= NumBounds(s).1
    {
      if |s.enumeration| > 0 && s.enumeration[0].value.Num? {
        return s.enumeration[0].value;
      }
      var min, max := 0.01, 999.99;
      if s.min.Some? { min := s.min.value; }
      if s.max.Some? {
        max := s.max.value;
      } else if s.min.Some? {
        max := min + 1000.0;
      }
      value := Num(NumDraw(context.source, drawn, min, max));
      drawn := drawn + 1;
    }

    method GenerateBoolean(s: Schema) returns (value: Value)
      modifies this`drawn
      ensures (value, drawn) == BooleanOf(context.source, s, old(drawn))
      ensures value.Bool? && old(drawn) <= drawn <= old(drawn) + 1
      ensures s.enumeration != [] && s.enumeration[0].value.Bool? ==> value == s.enumeration[0].value && drawn == old(drawn)
    {
      if |s.enumeration| > 0 && s.enumeration[0].value.Bool? {
        return s.enumeration[0].value;
      }
      value := Bool(context.source.bools(drawn));
      drawn := drawn + 1;
    }

    method GenerateAllOf(refs: seq<Ref>, depth: nat) returns (result: map<string, Value>)
      requires depth <= MAX_DEPTH
      modifies this`drawn
      ensures (result, drawn) == MergedOf(context, refs, depth, old(drawn))
      decreases Left(depth), 0
    {
      result := map[];
      for i := 0 to |refs|
        invariant (result, drawn) == MergedOf(context, refs[..i], depth, old(drawn))
      {
        MergedOfStep(context, refs, i, depth, old(drawn));
        var value := GenerateValue(refs[i], depth + 1);
        if value.Object? {
          result := result + value.members;
        }
      }
      assert refs[..|refs|] == refs;
    }
  }
}
