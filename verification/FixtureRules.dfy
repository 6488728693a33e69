/**
 Which values a schema may yield, said of the schema's fields and the value alone: no stream positions, no
 order of drawing. Whatever the stream, the generator's value is one of them.
 */
module FixtureRules {
  import opened Prelude
  import opened Strings
  import opened FixtureGenerator

  /** i is r without its fraction. */
  predicate CutsTo(r: real, i: int) {
    if r >= 0.0 then i as real <= r < (i + 1) as real else (i - 1) as real < r <= i as real
  }

  predicate Is64Bit(i: int) {
    -9223372036854775808 <= i <= 9223372036854775807
  }

  /** The bounds of an integer, where all of them are 64-bit integers: the schema's, 1 and 1000, or a thousand above the lower one. */
  predicate IntegerRange(s: Schema, lo: int, hi: int) {
    && Is64Bit(lo) && Is64Bit(hi)
    && (if s.min.Some? then CutsTo(s.min.value, lo) else lo == 1)
    && if s.max.Some? then CutsTo(s.max.value, hi) else hi == if s.min.Some? then lo + 1000 else 1000
  }

  predicate NumberRange(s: Schema, lo: real, hi: real) {
    && lo == (if s.min.Some? then s.min.value else 0.01)
    && hi == if s.max.Some? then s.max.value else if s.min.Some? then s.min.value + 1000.0 else 999.99
  }

  ghost predicate IntegerFits(s: Schema, v: Value) {
    && v.Int? && Is64Bit(v.i)
    && if s.enumeration != [] && s.enumeration[0].value.Num?
       then forall i | Is64Bit(i) && CutsTo(s.enumeration[0].value.r, i) :: v.i == i
       else forall lo, hi | IntegerRange(s, lo, hi) && lo <= hi :: lo <= v.i <= hi
  }

  ghost predicate NumberFits(s: Schema, v: Value) {
    if s.enumeration != [] && s.enumeration[0].value.Num? then v == s.enumeration[0].value
    else v.Num? && forall lo, hi | NumberRange(s, lo, hi) && lo <= hi :: lo <= v.r <= hi
  }

  predicate BooleanFits(s: Schema, v: Value) {
    if s.enumeration != [] && s.enumeration[0].value.Bool? then v == s.enumeration[0].value else v.Bool?
  }

  /** A fixed text, or a word drawn for the format, which is none for a plain string. */
  ghost predicate StringFits(source: Source, s: Schema, v: Value) {
    if s.enumeration != [] then v == Str(s.enumeration[0].printed)
    else if s.format == "binary" then v == Str("binary-data")
    else if s.format == "password" then v == Str("********")
    else if s.format == "date" || s.format == "date-time" || s.format == "email" || s.format == "uri" || s.format == "url"
            || s.format == "uuid" || s.format == "hostname" || s.format == "ipv4" || s.format == "ipv6" || s.format == "byte"
    then exists pos :: v == Str(source.words(pos, s.format))
    else if s.pattern != "" then v == Str("pattern-value")
    else exists pos :: v == Str(source.words(pos, ""))
  }

  /** Members are those of the objects among parts; where two have a name in common, of the last that has it. */
  ghost predicate Merges(parts: seq<Value>, members: map<string, Value>) {
    && (forall i, k | 0 <= i < |parts| && parts[i].Object? && k in parts[i].members :: k in members)
    && forall k | k in members :: exists i :: LastHas(parts, i, k) && members[k] == parts[i].members[k]
  }

  ghost predicate LastHas(parts: seq<Value>, i: int, k: string) {
    && 0 <= i < |parts| && parts[i].Object? && k in parts[i].members
    && forall j | i < j < |parts| && parts[j].Object? :: k !in parts[j].members
  }

  /** The schema a member of that name is generated from: the property's, or, for three names made up, that of additional properties. */
  predicate MemberRef(s: Schema, name: string, ref: Ref) {
    || (name in s.properties && s.properties[name] == ref)
    || (s.properties == map[] && s.additional == Some(ref) && (name == "key1" || name == "key2" || name == "key3"))
  }

  /** The value may be what the schema yields at that depth. */
  ghost predicate Fits(c: Context, ref: Ref, depth: nat, v: Value)
    decreases if depth > 10 then 0 else 11 - depth
  {
    if depth > 10 || ref !in c.schemas then v == Null
    else
      var s := c.schemas[ref];
      if c.useExamples && s.example.Some? then v == s.example.value
      else if s.allOf != [] then
        && v.Object?
        && exists parts ::
             && |parts| == |s.allOf| && Merges(parts, v.members)
             && forall i | 0 <= i < |parts| :: Fits(c, s.allOf[i], depth + 1, parts[i])
      else if s.oneOf != [] then Fits(c, s.oneOf[0], depth + 1, v)
      else if s.anyOf != [] then Fits(c, s.anyOf[0], depth + 1, v)
      else if s.types != [] && s.types[0] == "array" then
        v.Array? && (s.items.None? ==> v.items == [])
        && (s.items.Some? ==>
              && |v.items| == (if s.minItems > 1 then s.minItems else 1)
              && forall i | 0 <= i < |v.items| :: Fits(c, s.items.value, depth + 1, v.items[i]))
      else if s.types != [] && s.types[0] == "string" then StringFits(c.source, s, v)
      else if s.types != [] && s.types[0] == "integer" then IntegerFits(s, v)
      else if s.types != [] && s.types[0] == "number" then NumberFits(s, v)
      else if s.types != [] && s.types[0] == "boolean" then BooleanFits(s, v)
      else if (s.types != [] && s.types[0] == "object") || s.properties != map[] then
        && v.Object?
        && (forall name, r :: MemberRef(s, name, r) ==> name in v.members && Fits(c, r, depth + 1, v.members[name]))
        && forall name | name in v.members :: exists r :: MemberRef(s, name, r)
      else v == Null
  }

  // ---- Scalars ----------------------------------------------------------------------------

  lemma CutIsTruncated(r: real, i: int)
    ensures CutsTo(r, i) <==> Truncated(r) == i
  {
  }

  lemma IntegersFit(source: Source, s: Schema, pos: nat)
    ensures IntegerFits(s, IntegerOf(source, s, pos).0)
  {
    var v := IntegerOf(source, s, pos).0;
    if s.enumeration != [] && s.enumeration[0].value.Num? {
      forall i | Is64Bit(i) && CutsTo(s.enumeration[0].value.r, i) ensures v.i == i {
        CutIsTruncated(s.enumeration[0].value.r, i);
      }
    } else {
      forall lo, hi | IntegerRange(s, lo, hi) && lo <= hi ensures lo <= v.i <= hi {
        if s.min.Some? { CutIsTruncated(s.min.value, lo); }
        if s.max.Some? { CutIsTruncated(s.max.value, hi); }
      }
    }
  }

  lemma StringsFit(source: Source, s: Schema, pos: nat)
    ensures StringFits(source, s, StringOf(source, s, pos).0)
  {
  }

  /** A scalar is drawn at the position given and uses up just that; a fixed one uses up nothing. */
  lemma ScalarsDrawOnce(source: Source, s: Schema, pos: nat)
    ensures s.enumeration == [] && s.format == "" && s.pattern == "" ==> StringOf(source, s, pos) == (Str(source.words(pos, "")), pos + 1)
    ensures s.enumeration == [] && (s.format == "date" || s.format == "email" || s.format == "uuid") ==>
      StringOf(source, s, pos) == (Str(source.words(pos, s.format)), pos + 1)
    ensures s.enumeration != [] || s.format == "binary" || s.format == "password" || (s.format == "" && s.pattern != "") ==>
      StringOf(source, s, pos).1 == pos
    ensures s.enumeration == [] ==> IntegerOf(source, s, pos).1 == NumberOf(source, s, pos).1 == BooleanOf(source, s, pos).1 == pos + 1
    ensures s.enumeration == [] ==> BooleanOf(source, s, pos).0 == Bool(source.bools(pos))
    ensures forall lo, hi | s.enumeration == [] && IntegerRange(s, lo, hi) && lo <= source.ints(pos) <= hi ::
      IntegerOf(source, s, pos).0 == Int(source.ints(pos))
    ensures forall lo, hi | s.enumeration == [] && NumberRange(s, lo, hi) && lo <= source.reals(pos) <= hi ::
      NumberOf(source, s, pos).0 == Num(source.reals(pos))
  {
    forall lo, hi | s.enumeration == [] && IntegerRange(s, lo, hi) && lo <= source.ints(pos) <= hi
      ensures IntegerOf(source, s, pos).0 == Int(source.ints(pos))
    {
      if s.min.Some? { CutIsTruncated(s.min.value, lo); }
      if s.max.Some? { CutIsTruncated(s.max.value, hi); }
    }
  }

  // ---- Objects, arrays, allOf -------------------------------------------------------------

  lemma {:induction false} MembersFit(c: Context, refs: map<string, Ref>, names: seq<string>, depth: nat, pos: nat)
    requires depth <= 10 && forall n | n in names :: n in refs
    ensures var members := MembersOf(c, refs, names, depth, pos).0;
      && (forall n :: n in members <==> n in names)
      && forall n | n in members :: Fits(c, refs[n], depth + 1, members[n])
    decreases Left(depth), 0, |names|
  {
    if names != [] {
      var k := |names| - 1;
      assert names == names[..k] + [names[k]];
      MembersFit(c, refs, names[..k], depth, pos);
      ValueFits(c, refs[names[k]], depth + 1, MembersOf(c, refs, names[..k], depth, pos).1);
    }
  }

  /** Every name a member may be made for has one that fits, and no other name has any. */
  ghost predicate MembersOfSchema(c: Context, s: Schema, depth: nat, members: map<string, Value>)
    requires depth <= 10
  {
    && (forall name, r :: MemberRef(s, name, r) ==> name in members && Fits(c, r, depth + 1, members[name]))
    && forall name | name in members :: exists r :: MemberRef(s, name, r)
  }

  lemma RefsAreMembers(c: Context, s: Schema, refs: map<string, Ref>, depth: nat, members: map<string, Value>)
    requires depth <= 10
    requires forall name, r :: MemberRef(s, name, r) <==> name in refs && refs[name] == r
    requires members.Keys == refs.Keys && forall n | n in members :: Fits(c, refs[n], depth + 1, members[n])
    ensures MembersOfSchema(c, s, depth, members)
  {
    forall name | name in members ensures exists r :: MemberRef(s, name, r) {
      assert MemberRef(s, name, refs[name]);
    }
  }

  lemma NamesAreKeys(names: seq<string>, keys: set<string>)
    requires Elements(names) == keys
    ensures forall n :: n in names <==> n in keys
  {
    assert forall n :: n in names <==> n in Elements(names);
  }

  lemma ObjectFits(c: Context, s: Schema, depth: nat, pos: nat)
    requires depth <= 10
    ensures var v := ObjectOf(c, s, depth, pos).0; v.Object? && MembersOfSchema(c, s, depth, v.members)
    decreases Left(depth), 1, 0
  {
    var members := ObjectOf(c, s, depth, pos).0.members;
    if s.properties != map[] || s.additional.None? {
      NamesAreKeys(Sorted(s.properties.Keys), s.properties.Keys);
      MembersFit(c, s.properties, Sorted(s.properties.Keys), depth, pos);
      RefsAreMembers(c, s, s.properties, depth, members);
    } else {
      var refs := map k | k in SAMPLE_KEYS :: s.additional.value;
      MembersFit(c, refs, SAMPLE_KEYS, depth, pos);
      assert forall name :: name in SAMPLE_KEYS <==> name == "key1" || name == "key2" || name == "key3";
      RefsAreMembers(c, s, refs, depth, members);
    }
  }

  lemma {:induction false} ItemsFit(c: Context, ref: Ref, count: nat, depth: nat, pos: nat)
    requires depth <= 10
    ensures var items := ItemsOf(c, ref, count, depth, pos).0;
      |items| == count && forall i | 0 <= i < count :: Fits(c, ref, depth + 1, items[i])
    decreases Left(depth), 0, count
  {
    if count > 0 {
      ItemsFit(c, ref, count - 1, depth, pos);
      ValueFits(c, ref, depth + 1, ItemsOf(c, ref, count - 1, depth, pos).1);
    }
  }

  lemma OneMoreMerged(parts: seq<Value>, members: map<string, Value>, part: Value)
    requires Merges(parts, members)
    ensures Merges(parts + [part], if part.Object? then members + part.members else members)
  {
    var parts', members' := parts + [part], if part.Object? then members + part.members else members;
    forall k | k in members' ensures exists i :: LastHas(parts', i, k) && members'[k] == parts'[i].members[k] {
      if part.Object? && k in part.members {
        assert LastHas(parts', |parts|, k);
      } else {
        var i :| LastHas(parts, i, k) && members[k] == parts[i].members[k];
        assert LastHas(parts', i, k);
      }
    }
  }

  lemma {:induction false} MergedFits(c: Context, refs: seq<Ref>, depth: nat, pos: nat) returns (parts: seq<Value>)
    requires depth <= 10
    ensures |parts| == |refs| && Merges(parts, MergedOf(c, refs, depth, pos).0)
    ensures forall i | 0 <= i < |parts| :: Fits(c, refs[i], depth + 1, parts[i])
    decreases Left(depth), 0, |refs|
  {
    parts := [];
    if refs != [] {
      var k := |refs| - 1;
      parts := MergedFits(c, refs[..k], depth, pos);
      var (members, next) := MergedOf(c, refs[..k], depth, pos);
      var value := ValueOf(c, refs[k], depth + 1, next).0;
      ValueFits(c, refs[k], depth + 1, next);
      OneMoreMerged(parts, members, value);
      parts := parts + [value];
    }
  }

  /** Whatever the stream, on any graph of schemas, the generator's value is one the schema may yield. */
  lemma {:induction false} ValueFits(c: Context, ref: Ref, depth: nat, pos: nat)
    ensures Fits(c, ref, depth, ValueOf(c, ref, depth, pos).0)
    decreases Left(depth), 2
  {
    if depth <= 10 && ref in c.schemas {
      var s := c.schemas[ref];
      if c.useExamples && s.example.Some? {
      } else if s.allOf != [] {
        var parts := MergedFits(c, s.allOf, depth, pos);
      } else if s.oneOf != [] {
        ValueFits(c, s.oneOf[0], depth + 1, pos);
      } else if s.anyOf != [] {
        ValueFits(c, s.anyOf[0], depth + 1, pos);
      } else {
        TypedFits(c, ref, depth, pos);
      }
    }
  }

  lemma TypedFits(c: Context, ref: Ref, depth: nat, pos: nat)
    requires depth <= 10 && ref in c.schemas
    requires var s := c.schemas[ref]; !(c.useExamples && s.example.Some?) && s.allOf == [] && s.oneOf == [] && s.anyOf == []
    ensures Fits(c, ref, depth, ValueOf(c, ref, depth, pos).0)
    decreases Left(depth), 1, 1
  {
    var s := c.schemas[ref];
    if s.types != [] && s.types[0] == "array" {
      if s.items.Some? {
        ItemsFit(c, s.items.value, ItemCount(s), depth, pos);
      }
    } else if s.types != [] && s.types[0] == "string" {
      StringsFit(c.source, s, pos);
    } else if s.types != [] && s.types[0] == "integer" {
      IntegersFit(c.source, s, pos);
    } else if s.types == [] || s.types[0] == "object" || s.properties != map[] {
      ObjectFits(c, s, depth, pos);
    }
  }
  // ---- Drawing in turn --------------------------------------------------------------------

  /** A string with nothing fixed about it. */
  predicate PlainString(c: Context, ref: Ref) {
    && ref in c.schemas
    && var s := c.schemas[ref];
    && !(c.useExamples && s.example.Some?) && s.allOf == [] && s.oneOf == [] && s.anyOf == []
    && s.types != [] && s.types[0] == "string" && s.enumeration == [] && s.format == "" && s.pattern == ""
  }

  lemma PlainDraw(c: Context, ref: Ref, depth: nat, pos: nat)
    requires depth <= 10 && PlainString(c, ref)
    ensures ValueOf(c, ref, depth, pos) == (Str(c.source.words(pos, "")), pos + 1)
  {
  }

  /** The items of an array of plain strings are the stream's next words, in turn. */
  lemma {:induction false} ItemsInTurn(c: Context, ref: Ref, count: nat, depth: nat, pos: nat)
    requires depth < 10 && PlainString(c, ref)
    ensures var (items, next) := ItemsOf(c, ref, count, depth, pos);
      |items| == count && next == pos + count && forall i | 0 <= i < count :: items[i] == Str(c.source.words(pos + i, ""))
  {
    if count > 0 {
      ItemsInTurn(c, ref, count - 1, depth, pos);
    }
  }

  /** Each name has the word of its place in the list. */
  ghost predicate HasWords(c: Context, members: map<string, Value>, names: seq<string>, pos: nat) {
    forall i | 0 <= i < |names| :: names[i] in members && members[names[i]] == Str(c.source.words(pos + i, ""))
  }

  lemma OneMoreWord(c: Context, members: map<string, Value>, names: seq<string>, last: string, pos: nat)
    requires HasWords(c, members, names, pos) && last !in names
    ensures HasWords(c, members[last := Str(c.source.words(pos + |names|, ""))], names + [last], pos)
  {
  }

  ghost predicate AllPlain(c: Context, refs: map<string, Ref>, names: seq<string>) {
    forall n | n in names :: n in refs && PlainString(c, refs[n])
  }

  lemma LastIsNew(names: seq<string>)
    requires Ascending(names) && names != []
    ensures names[|names| - 1] !in names[..|names| - 1] && Ascending(names[..|names| - 1])
    ensures forall n | n in names[..|names| - 1] :: n in names
  {
    LessIsIrreflexive(names[|names| - 1]);
  }

  lemma PlainPrefix(c: Context, refs: map<string, Ref>, names: seq<string>)
    requires names != [] && AllPlain(c, refs, names)
    ensures AllPlain(c, refs, names[..|names| - 1]) && names[|names| - 1] in refs && PlainString(c, refs[names[|names| - 1]])
  {
  }

  /** And the members of an object of them are, in the ascending order of their names. */
  lemma {:induction false} MembersInTurn(c: Context, refs: map<string, Ref>, names: seq<string>, depth: nat, pos: nat)
    requires depth < 10 && Ascending(names) && AllPlain(c, refs, names)
    ensures var (members, next) := MembersOf(c, refs, names, depth, pos);
      next == pos + |names| && HasWords(c, members, names, pos)
  {
    if names != [] {
      var before, last := names[..|names| - 1], names[|names| - 1];
      LastIsNew(names);
      PlainPrefix(c, refs, names);
      MembersInTurn(c, refs, before, depth, pos);
      var members := MembersOf(c, refs, before, depth, pos).0;
      MemberDraw(c, refs, names, depth, pos, members);
      OneMoreWord(c, members, before, last, pos);
      assert names == before + [last];
    }
  }

  lemma MemberDraw(c: Context, refs: map<string, Ref>, names: seq<string>, depth: nat, pos: nat, members: map<string, Value>)
    requires depth < 10 && names != [] && forall n | n in names :: n in refs
    requires PlainString(c, refs[names[|names| - 1]])
    requires MembersOf(c, refs, names[..|names| - 1], depth, pos) == (members, pos + |names| - 1)
    ensures MembersOf(c, refs, names, depth, pos)
      == (members[names[|names| - 1] := Str(c.source.words(pos + |names| - 1, ""))], pos + |names|)
  {
    PlainDraw(c, refs[names[|names| - 1]], depth + 1, pos + |names| - 1);
  }

  lemma ObjectInTurn(c: Context, s: Schema, names: seq<string>, depth: nat, pos: nat)
    requires depth < 10 && s.properties != map[] && Ascending(names) && Elements(names) == s.properties.Keys
    requires forall n | n in s.properties :: PlainString(c, s.properties[n])
    ensures var (v, next) := ObjectOf(c, s, depth, pos);
      && v.Object? && v.members.Keys == s.properties.Keys && next == pos + |names|
      && HasWords(c, v.members, names, pos)
  {
    AscendingIsUnique(names, Sorted(s.properties.Keys));
    NamesAreKeys(names, s.properties.Keys);
    MembersInTurn(c, s.properties, names, depth, pos);
    MembersFit(c, s.properties, names, depth, pos);
  }
}
