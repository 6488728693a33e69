/**
 What generated fixtures promise: bounded nesting on any schema graph, and conformance to the schema
 on a fragment of schema trees.
 */
module Conformance {
  import opened Prelude
  import opened Strings
  import opened FixtureGenerator

  // ---- Where members and items come from --------------------------------------------------

  /** v is generated from ref at that depth, at some point of the stream. */
  ghost predicate Yields(c: Context, ref: Ref, depth: nat, v: Value) {
    exists p :: v == ValueOf(c, ref, depth, p).0
  }

  lemma {:induction false} MembersYield(c: Context, refs: map<string, Ref>, names: seq<string>, depth: nat, pos: nat)
    requires depth <= MAX_DEPTH && forall n | n in names :: n in refs
    ensures var members := MembersOf(c, refs, names, depth, pos).0;
      members.Keys == Elements(names) && forall n | n in members :: Yields(c, refs[n], depth + 1, members[n])
  {
    if names != [] {
      var before, last := names[..|names| - 1], names[|names| - 1];
      assert names == before + [last];
      MembersYield(c, refs, before, depth, pos);
      var (members, next) := MembersOf(c, refs, before, depth, pos);
      assert MembersOf(c, refs, names, depth, pos).0 == members[last := ValueOf(c, refs[last], depth + 1, next).0];
    }
  }

  lemma {:induction false} ItemsYield(c: Context, ref: Ref, count: nat, depth: nat, pos: nat)
    requires depth <= MAX_DEPTH
    ensures var items := ItemsOf(c, ref, count, depth, pos).0;
      |items| == count && forall i | 0 <= i < count :: Yields(c, ref, depth + 1, items[i])
  {
    if count > 0 {
      ItemsYield(c, ref, count - 1, depth, pos);
      var (items, next) := ItemsOf(c, ref, count - 1, depth, pos);
      assert ItemsOf(c, ref, count, depth, pos).0 == items + [ValueOf(c, ref, depth + 1, next).0];
    }
  }

  /** The schema a generated member comes from. */
  function MemberRef(s: Schema, name: string): Ref {
    if name in s.properties then s.properties[name] else if s.additional.Some? then s.additional.value else 0
  }

  /** The names generated for an object schema. */
  function MemberNames(s: Schema): set<string> {
    if s.properties != map[] || s.additional.None? then s.properties.Keys else set k | k in SAMPLE_KEYS
  }

  lemma ObjectYields(c: Context, s: Schema, depth: nat, pos: nat)
    requires depth <= MAX_DEPTH
    ensures var v := ObjectOf(c, s, depth, pos).0;
      && v.Object? && v.members.Keys == MemberNames(s)
      && forall n | n in v.members :: Yields(c, MemberRef(s, n), depth + 1, v.members[n])
  {
    if s.properties != map[] || s.additional.None? {
      var names := Sorted(s.properties.Keys);
      assert forall n | n in names :: n in Elements(names);
      MembersYield(c, s.properties, names, depth, pos);
    } else {
      MembersYield(c, map k | k in SAMPLE_KEYS :: s.additional.value, SAMPLE_KEYS, depth, pos);
    }
  }

  // ---- Nesting ----------------------------------------------------------------------------

  /** Arrays and objects stand at most k deep in each other. */
  ghost predicate NestedAtMost(v: Value, k: nat) {
    match v
    case Array(items) => k > 0 && forall i | 0 <= i < |items| :: NestedAtMost(items[i], k - 1)
    case Object(members) => k > 0 && forall n | n in members :: NestedAtMost(members[n], k - 1)
    case _ => true
  }

  lemma {:induction false} NestingGrows(v: Value, k: nat, k': nat)
    requires NestedAtMost(v, k) && k <= k'
    ensures NestedAtMost(v, k')
    decreases k
  {
    match v
    case Array(items) =>
      forall i | 0 <= i < |items| ensures NestedAtMost(items[i], k' - 1) {
        NestingGrows(items[i], k - 1, k' - 1);
      }
    case Object(members) =>
      forall n | n in members ensures NestedAtMost(members[n], k' - 1) {
        NestingGrows(members[n], k - 1, k' - 1);
      }
    case _ =>
  }

  /** With examples off, on any schema graph, cyclic or not, a value generated at a depth nests at most 11 - depth. */
  lemma {:induction false} NestingIsBounded(c: Context, ref: Ref, depth: nat, pos: nat)
    requires !c.useExamples
    ensures NestedAtMost(ValueOf(c, ref, depth, pos).0, Left(depth))
    decreases Left(depth), 2
  {
    if depth <= MAX_DEPTH && ref in c.schemas {
      var s := c.schemas[ref];
      if s.allOf != [] {
        MergedNesting(c, s.allOf, depth, pos);
        assert ValueOf(c, ref, depth, pos).0 == Object(MergedOf(c, s.allOf, depth, pos).0);
      } else if s.oneOf != [] {
        NestingIsBounded(c, s.oneOf[0], depth + 1, pos);
        NestingGrows(ValueOf(c, ref, depth, pos).0, Left(depth + 1), Left(depth));
      } else if s.anyOf != [] {
        NestingIsBounded(c, s.anyOf[0], depth + 1, pos);
        NestingGrows(ValueOf(c, ref, depth, pos).0, Left(depth + 1), Left(depth));
      } else {
        ObjectNesting(c, s, depth, pos);
        ArrayNesting(c, s, depth, pos);
      }
    }
  }

  lemma {:induction false} ObjectNesting(c: Context, s: Schema, depth: nat, pos: nat)
    requires !c.useExamples && depth <= MAX_DEPTH
    ensures NestedAtMost(ObjectOf(c, s, depth, pos).0, Left(depth))
    decreases Left(depth), 1
  {
    ObjectYields(c, s, depth, pos);
    var members := ObjectOf(c, s, depth, pos).0.members;
    forall n | n in members ensures NestedAtMost(members[n], Left(depth) - 1) {
      var p :| members[n] == ValueOf(c, MemberRef(s, n), depth + 1, p).0;
      NestingIsBounded(c, MemberRef(s, n), depth + 1, p);
    }
  }

  lemma {:induction false} ArrayNesting(c: Context, s: Schema, depth: nat, pos: nat)
    requires !c.useExamples && depth <= MAX_DEPTH
    ensures NestedAtMost(ArrayOf(c, s, depth, pos).0, Left(depth))
    decreases Left(depth), 1
  {
    if s.items.Some? {
      ItemsYield(c, s.items.value, ItemCount(s), depth, pos);
      var items := ArrayOf(c, s, depth, pos).0.items;
      forall i | 0 <= i < |items| ensures NestedAtMost(items[i], Left(depth) - 1) {
        var p :| items[i] == ValueOf(c, s.items.value, depth + 1, p).0;
        NestingIsBounded(c, s.items.value, depth + 1, p);
      }
    }
  }

  ghost predicate MembersNest(members: map<string, Value>, k: nat) {
    forall n | n in members :: NestedAtMost(members[n], k)
  }

  lemma {:induction false} MergedNesting(c: Context, refs: seq<Ref>, depth: nat, pos: nat)
    requires !c.useExamples && depth <= MAX_DEPTH
    ensures MembersNest(MergedOf(c, refs, depth, pos).0, Left(depth) - 1)
    decreases Left(depth), 0, |refs|
  {
    if refs != [] {
      var before, last := refs[..|refs| - 1], refs[|refs| - 1];
      MergedNesting(c, before, depth, pos);
      var (members, next) := MergedOf(c, before, depth, pos);
      var value := ValueOf(c, last, depth + 1, next).0;
      NestingIsBounded(c, last, depth + 1, next);
      if value.Object? {
        forall n | n in value.members ensures NestedAtMost(value.members[n], Left(depth) - 1) {
          NestingGrows(value.members[n], Left(depth + 1) - 1, Left(depth) - 1);
        }
        assert MergedOf(c, refs, depth, pos).0 == members + value.members;
      }
    }
  }

  // ---- Conformance ------------------------------------------------------------------------

  predicate HasType(v: Value, t: string) {
    match v
    case Null => t == "null"
    case Bool(_) => t == "boolean"
    case Int(_) => t == "integer" || t == "number"
    case Num(r) => t == "number" || (t == "integer" && r == r.Floor as real)
    case Str(_) => t == "string"
    case Array(_) => t == "array"
    case Object(_) => t == "object"
  }

  /** Equality of JSON values, where 1 and 1.0 are the same number. */
  predicate SameValue(v: Value, w: Value) {
    v == w || (v.Int? && w.Num? && v.i as real == w.r) || (v.Num? && w.Int? && w.i as real == v.r)
  }

  predicate WithinBounds(s: Schema, r: real) {
    (s.min.Some? ==> s.min.value <= r) && (s.max.Some? ==> r <= s.max.value)
  }

  /** What a schema says about an object's members, other than what it says about their values. */
  predicate HasMembers(s: Schema, names: set<string>) {
    s.required <= names && (s.closed ==> names <= s.properties.Keys)
  }

  /** The keywords of a schema that look at the value alone. */
  predicate ConformsHere(s: Schema, v: Value) {
    && (s.types != [] ==> exists t | t in s.types :: HasType(v, t))
    && (s.enumeration != [] ==> exists i | 0 <= i < |s.enumeration| :: SameValue(v, s.enumeration[i].value))
    && (v.Int? ==> WithinBounds(s, v.i as real)) && (v.Num? ==> WithinBounds(s, v.r))
    && (v.Array? ==> |v.items| >= s.minItems)
    && (v.Object? ==> HasMembers(s, v.members.Keys))
  }

  /** v is valid for a schema, looked at h levels deep; h is enough for any tree of that height. */
  ghost predicate Conforms(schemas: Schemas, ref: Ref, v: Value, h: nat)
    decreases h
  {
    h > 0 && ref in schemas && var s := schemas[ref];
      && ConformsHere(s, v)
      && (forall r | r in s.allOf :: Conforms(schemas, r, v, h - 1))
      && (s.anyOf != [] ==> exists r | r in s.anyOf :: Conforms(schemas, r, v, h - 1))
      && (s.oneOf != [] ==> exists i | 0 <= i < |s.oneOf| ::
            (Conforms(schemas, s.oneOf[i], v, h - 1) &&
             forall j | 0 <= j < |s.oneOf| && j != i :: !Conforms(schemas, s.oneOf[j], v, h - 1)))
      && (v.Array? && s.items.Some? ==> forall i | 0 <= i < |v.items| :: Conforms(schemas, s.items.value, v.items[i], h - 1))
      && (v.Object? ==> forall n | n in v.members ::
            && (n in s.properties ==> Conforms(schemas, s.properties[n], v.members[n], h - 1))
            && (n !in s.properties && s.additional.Some? ==> Conforms(schemas, s.additional.value, v.members[n], h - 1)))
  }

  // ---- The fragment -----------------------------------------------------------------------

  /** No keyword beside a composition. */
  predicate Bare(s: Schema) {
    && s.properties == map[] && s.required == {} && s.additional.None? && !s.closed
    && s.items.None? && s.minItems == 0 && s.enumeration == [] && s.min.None? && s.max.None?
  }

  /** An object schema that leaves other members alone. */
  predicate OpenObject(schemas: Schemas, ref: Ref) {
    ref in schemas && var s := schemas[ref];
      && s.types != [] && s.types[0] == "object" && s.allOf == [] && s.oneOf == [] && s.anyOf == []
      && s.additional.None? && !s.closed && s.enumeration == []
  }

  function PropertyNames(schemas: Schemas, ref: Ref): set<string> {
    if ref in schemas then schemas[ref].properties.Keys else {}
  }

  predicate DisjointProperties(schemas: Schemas, refs: seq<Ref>) {
    forall i, j | 0 <= i < j < |refs| :: PropertyNames(schemas, refs[i]) !! PropertyNames(schemas, refs[j])
  }

  predicate BoundsRepresentable(s: Schema) {
    (s.min.Some? ==> Representable(s.min.value)) && (s.max.Some? ==> Representable(s.max.value))
  }

  /** The range drawn from when 64 bits hold the bounds. */
  function PlainBounds(s: Schema): (Int64, Int64)
    requires BoundsRepresentable(s)
  {
    Bounds(s, if s.min.Some? then Truncated(s.min.value) else 0, if s.max.Some? then Truncated(s.max.value) else 0)
  }

  /** The bounds let every 64-bit integer through. */
  predicate Unbounding(s: Schema) {
    (s.min.Some? ==> s.min.value <= MIN_INT64 as real) && (s.max.Some? ==> MAX_INT64 as real <= s.max.value)
  }

  /** The bounds fit 64 bits, leave a nonempty range and, cut toward zero, are within themselves. */
  predicate SurvivesConversion(s: Schema) {
    && BoundsRepresentable(s) && PlainBounds(s).0 <= PlainBounds(s).1
    && WithinBounds(s, PlainBounds(s).0 as real) && WithinBounds(s, PlainBounds(s).1 as real)
  }

  /** Scalar schemas with a value in range: an enum of strings, bounds that survive conversion, and a nonempty range. */
  predicate ScalarInFragment(s: Schema)
    requires s.types != []
  {
    match s.types[0] {
      case "string" =>
        if s.enumeration == [] then s.format == "" && s.pattern == ""
        else s.enumeration[0].value == Str(s.enumeration[0].printed)
      case "integer" =>
        s.enumeration == [] && (Unbounding(s) || SurvivesConversion(s))
      case "number" => s.enumeration == [] && NumBounds(s).0 <= NumBounds(s).1
      case "boolean" => s.enumeration == []
      case _ => false
    }
  }

  /** Schema trees at most h schemas high on which generation keeps its promise. */
  ghost predicate Fragment(schemas: Schemas, ref: Ref, h: nat)
    decreases h
  {
    h > 0 && ref in schemas && var s := schemas[ref];
      s.oneOf == [] &&
      if s.allOf != [] then
        && Bare(s) && s.anyOf == [] && (s.types == [] || s.types[0] == "object")
        && (forall i | 0 <= i < |s.allOf| :: OpenObject(schemas, s.allOf[i]) && Fragment(schemas, s.allOf[i], h - 1))
        && DisjointProperties(schemas, s.allOf)
      else if s.anyOf != [] then Bare(s) && s.types == [] && Fragment(schemas, s.anyOf[0], h - 1)
      else if s.types == [] then false
      else if s.types[0] == "object" then
        && s.enumeration == [] && s.required <= s.properties.Keys && (s.closed ==> s.additional.None?)
        && (forall n | n in s.properties :: Fragment(schemas, s.properties[n], h - 1))
        && (s.properties == map[] && s.additional.Some? ==> Fragment(schemas, s.additional.value, h - 1))
      else if s.types[0] == "array" then
        s.enumeration == [] && s.items.Some? && Fragment(schemas, s.items.value, h - 1)
      else ScalarInFragment(s)
  }

  lemma ScalarConforms(c: Context, ref: Ref, h: nat, depth: nat, pos: nat)
    requires !c.useExamples && depth <= MAX_DEPTH && Fragment(c.schemas, ref, h)
    requires var s := c.schemas[ref];
      s.allOf == [] && s.anyOf == [] && s.types[0] != "object" && s.types[0] != "array"
    ensures Conforms(c.schemas, ref, ValueOf(c, ref, depth, pos).0, h)
  {
    var s, v := c.schemas[ref], ValueOf(c, ref, depth, pos).0;
    assert HasType(v, s.types[0]);
    if s.enumeration != [] {
      assert SameValue(v, s.enumeration[0].value);
    }
    assert ConformsHere(s, v);
  }

  lemma MembersMakeObject(schemas: Schemas, ref: Ref, members: map<string, Value>, h: nat)
    requires Fragment(schemas, ref, h)
    requires var s := schemas[ref];
      && s.allOf == [] && s.anyOf == [] && s.types[0] == "object" && members.Keys == MemberNames(s)
      && forall n | n in members :: Conforms(schemas, MemberRef(s, n), members[n], h - 1)
    ensures Conforms(schemas, ref, Object(members), h)
  {
    assert HasType(Object(members), schemas[ref].types[0]);
  }

  lemma ItemsMakeArray(schemas: Schemas, ref: Ref, items: seq<Value>, h: nat)
    requires Fragment(schemas, ref, h)
    requires var s := schemas[ref];
      && s.allOf == [] && s.anyOf == [] && s.types[0] == "array" && |items| == ItemCount(s)
      && forall i | 0 <= i < |items| :: Conforms(schemas, s.items.value, items[i], h - 1)
    ensures Conforms(schemas, ref, Array(items), h)
  {
    assert HasType(Array(items), schemas[ref].types[0]);
  }

  lemma MemberIsInFragment(schemas: Schemas, ref: Ref, name: string, h: nat)
    requires Fragment(schemas, ref, h)
    requires var s := schemas[ref]; s.allOf == [] && s.anyOf == [] && s.types[0] == "object" && name in MemberNames(s)
    ensures Fragment(schemas, MemberRef(schemas[ref], name), h - 1)
  {
  }

  lemma {:induction false} YieldedConforms(c: Context, ref: Ref, h: nat, depth: nat, v: Value)
    requires !c.useExamples && depth + h <= MAX_DEPTH + 1 && Fragment(c.schemas, ref, h) && Yields(c, ref, depth, v)
    ensures Conforms(c.schemas, ref, v, h)
    decreases h, 3
  {
    var p :| v == ValueOf(c, ref, depth, p).0;
    GeneratedConforms(c, ref, h, depth, p);
  }

  lemma ObjectAndArrayValues(c: Context, ref: Ref, depth: nat, pos: nat)
    requires !c.useExamples && depth <= MAX_DEPTH && ref in c.schemas
    requires var s := c.schemas[ref]; s.allOf == [] && s.oneOf == [] && s.anyOf == [] && s.types != []
    ensures c.schemas[ref].types[0] == "object" ==> ValueOf(c, ref, depth, pos) == ObjectOf(c, c.schemas[ref], depth, pos)
    ensures c.schemas[ref].types[0] == "array" ==> ValueOf(c, ref, depth, pos) == ArrayOf(c, c.schemas[ref], depth, pos)
  {
  }

  lemma {:induction false} ObjectConforms(c: Context, ref: Ref, h: nat, depth: nat, pos: nat)
    requires !c.useExamples && depth + h <= MAX_DEPTH + 1 && Fragment(c.schemas, ref, h)
    requires var s := c.schemas[ref]; s.allOf == [] && s.anyOf == [] && s.types[0] == "object"
    ensures var v := ValueOf(c, ref, depth, pos).0;
      && Conforms(c.schemas, ref, v, h) && v.Object? && v.members.Keys == MemberNames(c.schemas[ref])
    decreases h, 0
  {
    var s := c.schemas[ref];
    ObjectAndArrayValues(c, ref, depth, pos);
    ObjectYields(c, s, depth, pos);
    var members := ObjectOf(c, s, depth, pos).0.members;
    forall n | n in members ensures Conforms(c.schemas, MemberRef(s, n), members[n], h - 1) {
      MemberIsInFragment(c.schemas, ref, n, h);
      YieldedConforms(c, MemberRef(s, n), h - 1, depth + 1, members[n]);
    }
    MembersMakeObject(c.schemas, ref, members, h);
  }

  lemma {:induction false} ArrayConforms(c: Context, ref: Ref, h: nat, depth: nat, pos: nat)
    requires !c.useExamples && depth + h <= MAX_DEPTH + 1 && Fragment(c.schemas, ref, h)
    requires var s := c.schemas[ref]; s.allOf == [] && s.anyOf == [] && s.types[0] == "array"
    ensures Conforms(c.schemas, ref, ValueOf(c, ref, depth, pos).0, h)
    decreases h, 0
  {
    var item := c.schemas[ref].items.value;
    ObjectAndArrayValues(c, ref, depth, pos);
    ItemsYield(c, item, ItemCount(c.schemas[ref]), depth, pos);
    var items := ItemsOf(c, item, ItemCount(c.schemas[ref]), depth, pos).0;
    forall i | 0 <= i < |items| ensures Conforms(c.schemas, item, items[i], h - 1) {
      YieldedConforms(c, item, h - 1, depth + 1, items[i]);
    }
    ItemsMakeArray(c.schemas, ref, items, h);
  }

  /** Every property of an object schema is among the members, with a conforming value. */
  ghost predicate Fills(schemas: Schemas, ref: Ref, members: map<string, Value>, h: nat) {
    ref in schemas && forall n | n in schemas[ref].properties ::
      n in members && Conforms(schemas, schemas[ref].properties[n], members[n], h)
  }

  /** Merging in an object that shares no name keeps what was filled, and fills the object's own. */
  lemma MergeFills(schemas: Schemas, ref: Ref, members: map<string, Value>, more: map<string, Value>, h: nat)
    requires ref in schemas
    requires Fills(schemas, ref, more, h) || (Fills(schemas, ref, members, h) && schemas[ref].properties.Keys !! more.Keys)
    ensures Fills(schemas, ref, members + more, h)
  {
  }

  /** After merging, the properties of every merged schema are filled. */
  lemma {:induction false} MergedConforms(c: Context, refs: seq<Ref>, h: nat, depth: nat, pos: nat)
    requires !c.useExamples && h > 0 && depth + h <= MAX_DEPTH
    requires forall i | 0 <= i < |refs| :: OpenObject(c.schemas, refs[i]) && Fragment(c.schemas, refs[i], h)
    requires DisjointProperties(c.schemas, refs)
    ensures forall i | 0 <= i < |refs| :: Fills(c.schemas, refs[i], MergedOf(c, refs, depth, pos).0, h - 1)
    decreases h, 1, |refs|
  {
    if refs != [] {
      var before, last := refs[..|refs| - 1], refs[|refs| - 1];
      MergedConforms(c, before, h, depth, pos);
      var (members, next) := MergedOf(c, before, depth, pos);
      ObjectConforms(c, last, h, depth + 1, next);
      var value := ValueOf(c, last, depth + 1, next).0;
      assert MergedOf(c, refs, depth, pos).0 == members + value.members;
      assert Fills(c.schemas, last, value.members, h - 1);
      forall i | 0 <= i < |refs| ensures Fills(c.schemas, refs[i], members + value.members, h - 1) {
        if i < |before| {
          assert before[i] == refs[i] && PropertyNames(c.schemas, refs[i]) !! PropertyNames(c.schemas, last);
        }
        MergeFills(c.schemas, refs[i], members, value.members, h - 1);
      }
    }
  }

  /** A merged object is valid for each of the schemas merged. */
  lemma AllOfConforms(schemas: Schemas, ref: Ref, members: map<string, Value>, h: nat)
    requires h > 0 && OpenObject(schemas, ref) && Fragment(schemas, ref, h)
    requires Fills(schemas, ref, members, h - 1)
    ensures Conforms(schemas, ref, Object(members), h)
  {
    assert HasType(Object(members), schemas[ref].types[0]);
  }

  /** A value generated from a tree that fits above the depth limit conforms to its schema. */
  lemma {:induction false} GeneratedConforms(c: Context, ref: Ref, h: nat, depth: nat, pos: nat)
    requires !c.useExamples && depth + h <= MAX_DEPTH + 1 && Fragment(c.schemas, ref, h)
    ensures Conforms(c.schemas, ref, ValueOf(c, ref, depth, pos).0, h)
    decreases h, 2
  {
    var s, v := c.schemas[ref], ValueOf(c, ref, depth, pos).0;
    if s.allOf != [] {
      assert Fragment(c.schemas, s.allOf[0], h - 1);
      MergedConforms(c, s.allOf, h - 1, depth, pos);
      assert v == Object(MergedOf(c, s.allOf, depth, pos).0);
      forall r | r in s.allOf ensures Conforms(c.schemas, r, v, h - 1) {
        var i :| 0 <= i < |s.allOf| && s.allOf[i] == r;
        AllOfConforms(c.schemas, r, v.members, h - 1);
      }
      assert s.types != [] ==> HasType(v, s.types[0]);
    } else if s.anyOf != [] {
      GeneratedConforms(c, s.anyOf[0], h - 1, depth + 1, pos);
      assert s.anyOf[0] in s.anyOf;
    } else if s.types[0] == "object" {
      ObjectConforms(c, ref, h, depth, pos);
    } else if s.types[0] == "array" {
      ArrayConforms(c, ref, h, depth, pos);
    } else {
      ScalarConforms(c, ref, h, depth, pos);
    }
  }

  /** Top-level fixtures: schema trees of height at most 10, that is, of at most 11 schemas down any branch. */
  lemma FixtureConforms(c: Context, ref: Ref, pos: nat)
    requires !c.useExamples && Fragment(c.schemas, ref, MAX_DEPTH + 1)
    ensures Conforms(c.schemas, ref, ValueOf(c, ref, 0, pos).0, MAX_DEPTH + 1)
  {
    GeneratedConforms(c, ref, MAX_DEPTH + 1, 0, pos);
  }

  // ---- Where the conditions come from -----------------------------------------------------

  const BLANK := Schema([], map[], {}, None, false, None, 0, [], None, None, "", "", [], [], [], None)

  /** Eleven objects in each other, and a boolean inside the last. */
  function Level(level: nat): Schema {
    if level <= MAX_DEPTH
    then BLANK.(types := ["object"], properties := map["a" := level + 1], required := {"a"})
    else BLANK.(types := ["boolean"])
  }

  function Tower(): Schemas {
    map level: nat | level <= MAX_DEPTH + 1 :: Level(level)
  }

  lemma {:induction false} TowerIsInFragment(level: nat)
    requires level <= MAX_DEPTH + 1
    ensures Fragment(Tower(), level, MAX_DEPTH + 2 - level)
    decreases MAX_DEPTH + 2 - level
  {
    if level <= MAX_DEPTH {
      TowerIsInFragment(level + 1);
    }
  }

  lemma LevelBelow(c: Context, level: nat, pos: nat) returns (p: nat)
    requires c.schemas == Tower() && !c.useExamples && level <= MAX_DEPTH
    ensures ValueOf(c, level, level, pos).0 == Object(map["a" := ValueOf(c, level + 1, level + 1, p).0])
  {
    var s, v := Level(level), ValueOf(c, level, level, pos).0;
    ObjectYields(c, s, level, pos);
    assert v == ObjectOf(c, s, level, pos).0 && v.members.Keys == {"a"} && MemberRef(s, "a") == level + 1;
    p :| v.members["a"] == ValueOf(c, level + 1, level + 1, p).0;
  }

  lemma {:induction false} TowerFails(c: Context, level: nat, pos: nat)
    requires c.schemas == Tower() && !c.useExamples && level <= MAX_DEPTH + 1
    ensures !Conforms(Tower(), level, ValueOf(c, level, level, pos).0, MAX_DEPTH + 2 - level)
    decreases MAX_DEPTH + 2 - level
  {
    if level <= MAX_DEPTH {
      var p := LevelBelow(c, level, pos);
      TowerFails(c, level + 1, p);
      assert "a" in Tower()[level].properties;
    } else {
      assert !ConformsHere(Level(level), Null);
    }
  }

  /** One level more and the promise is broken: a tree of height 11 is cut off with a null where a boolean is required. */
  lemma TallerTreesAreCut(c: Context, pos: nat)
    requires c.schemas == Tower() && !c.useExamples
    ensures Fragment(c.schemas, 0, MAX_DEPTH + 2)
    ensures !Conforms(c.schemas, 0, ValueOf(c, 0, 0, pos).0, MAX_DEPTH + 2)
  {
    TowerIsInFragment(0);
    TowerFails(c, 0, pos);
  }

  function Constant(drawn: Int64, overflow: Int64): Source {
    Source(_ => drawn, _ => 0.0, _ => false, (_, _) => "", _ => overflow)
  }

  /** The integer that a schema which does not let all through keeps out. */
  function KeptOut(s: Schema): (v: Int64)
    requires !Unbounding(s)
    ensures !WithinBounds(s, v as real)
  {
    if s.min.Some? && s.min.value > MIN_INT64 as real then MIN_INT64 else MAX_INT64
  }

  /** When a bound does not fit 64 bits or the range comes out empty, some stream and platform give that integer or one as bad. */
  lemma BadRangeFails(s: Schema)
    requires s.types == ["integer"] && s.enumeration == [] && !Unbounding(s)
    requires BoundsRepresentable(s) ==> PlainBounds(s).0 > PlainBounds(s).1
    ensures !ConformsHere(s, IntegerOf(Constant(KeptOut(s), KeptOut(s)), s, 0).0)
  {
    var source := Constant(KeptOut(s), KeptOut(s));
    var (lo, hi) := IntBounds(source, s);
    var v := IntDraw(source, 0, lo, hi);
    assert IntegerOf(source, s, 0).0 == Int(v);
    if lo <= hi {
      assert !BoundsRepresentable(s);
    }
  }

  /**
   An integer schema without enum gets a valid value from every stream exactly when its bounds let all
   64-bit integers through, or fit 64 bits, leave a nonempty range and, cut toward zero, are themselves
   within the bounds: a minimum of 1.5 may yield 1, and a maximum of 0 without a minimum anything.
   */
  lemma IntegerConformsIff(s: Schema)
    requires s.types == ["integer"] && s.enumeration == []
    ensures (forall source, pos :: ConformsHere(s, IntegerOf(source, s, pos).0))
      <==> Unbounding(s) || SurvivesConversion(s)
  {
    if BoundsRepresentable(s) && PlainBounds(s).0 <= PlainBounds(s).1 {
      var (lo, hi) := PlainBounds(s);
      forall source ensures IntBounds(source, s) == (lo, hi) {
      }
      assert IntegerOf(Constant(lo, 0), s, 0).0 == Int(lo) && IntegerOf(Constant(hi, 0), s, 0).0 == Int(hi);
    } else if !Unbounding(s) {
      BadRangeFails(s);
    }
    forall source, pos | Unbounding(s) || SurvivesConversion(s)
      ensures ConformsHere(s, IntegerOf(source, s, pos).0)
    {
      assert HasType(IntegerOf(source, s, pos).0, s.types[0]);
    }
  }

  /** A minimum beyond 64 bits is never met, and a maximum just beyond may let a value below the minimum through. */
  lemma BoundsBeyond64BitsFail()
    ensures forall source, pos ::
      !ConformsHere(BLANK.(types := ["integer"], min := Some(10000000000000000000.0)),
                    IntegerOf(source, BLANK.(types := ["integer"], min := Some(10000000000000000000.0)), pos).0)
    ensures exists source ::
      !ConformsHere(BLANK.(types := ["integer"], min := Some(0.0), max := Some(9223372036854775808.0)),
                    IntegerOf(source, BLANK.(types := ["integer"], min := Some(0.0), max := Some(9223372036854775808.0)), 0).0)
  {
    BadRangeFails(BLANK.(types := ["integer"], min := Some(0.0), max := Some(9223372036854775808.0)));
  }
}
