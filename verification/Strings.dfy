/** Go string order, sorted lists of names, trimming, and substring search. */
module Strings {
  import opened Prelude

  /** Byte-wise order, as sort.Strings and slices.Sort use it. */
  predicate Less(a: string, b: string) {
    b != [] && (a == [] || a[0] < b[0] || (a[0] == b[0] && Less(a[1..], b[1..])))
  }

  /** a stands before b: b continues it, or a has the smaller character where the two first differ. */
  ghost predicate Precedes(a: string, b: string) {
    (|a| < |b| && a == b[..|a|]) || exists i :: SmallerAt(a, b, i)
  }

  predicate SmallerAt(a: string, b: string, i: int) {
    0 <= i < |a| && i < |b| && a[i] < b[i] && forall j | 0 <= j < i :: a[j] == b[j]
  }

  lemma {:induction false} LessPrecedes(a: string, b: string)
    requires Less(a, b)
    ensures Precedes(a, b)
  {
    if a != [] && a[0] == b[0] {
      LessPrecedes(a[1..], b[1..]);
      if i :| SmallerAt(a[1..], b[1..], i) {
        assert forall j | 1 <= j < i + 1 :: a[j] == a[1..][j - 1] && b[j] == b[1..][j - 1];
        assert SmallerAt(a, b, i + 1);
      } else {
        assert a == [a[0]] + a[1..] && b[..|a|] == [b[0]] + b[1..][..|a| - 1];
      }
    } else if a != [] {
      assert SmallerAt(a, b, 0);
    }
  }

  lemma {:induction false} PrecedesIsLess(a: string, b: string)
    requires Precedes(a, b)
    ensures Less(a, b)
  {
    if a != [] && b != [] && a[0] == b[0] {
      if i :| SmallerAt(a, b, i) {
        assert SmallerAt(a[1..], b[1..], i - 1);
      } else {
        assert a[1..] == b[..|a|][1..] == b[1..][..|a| - 1];
      }
      PrecedesIsLess(a[1..], b[1..]);
    }
  }

  lemma LessIffPrecedes(a: string, b: string)
    ensures Less(a, b) <==> Precedes(a, b)
  {
    if Less(a, b) {
      LessPrecedes(a, b);
    } else if Precedes(a, b) {
      PrecedesIsLess(a, b);
    }
  }

  lemma LessIsTransitive(a: string, b: string, c: string)
    requires Less(a, b) && Less(b, c)
    ensures Less(a, c)
  {
  }

  lemma {:induction false} LessIsTotal(a: string, b: string)
    ensures a == b || Less(a, b) || Less(b, a)
  {
    if a != [] && b != [] && a[0] == b[0] {
      LessIsTotal(a[1..], b[1..]);
      assert a == [a[0]] + a[1..] && b == [b[0]] + b[1..];
    }
  }

  lemma LessIsIrreflexive(a: string)
    ensures !Less(a, a)
  {
  }

  /** Strictly ascending, hence without duplicates. */
  ghost predicate Ascending(names: seq<string>) {
    forall i, j | 0 <= i < j < |names| :: Less(names[i], names[j])
  }

  ghost function Elements(names: seq<string>): set<string> {
    set n | n in names
  }

  lemma AscendingTail(names: seq<string>)
    requires Ascending(names) && names != []
    ensures Ascending(names[1..]) && Elements(names[1..]) == Elements(names) - {names[0]}
  {
    assert names == [names[0]] + names[1..];
    LessIsIrreflexive(names[0]);
    forall n | n in names[1..] ensures n != names[0] {
      var i :| 0 <= i < |names[1..]| && names[1..][i] == n;
      assert Less(names[0], names[i + 1]);
    }
  }

  lemma EmptyElements(names: seq<string>)
    ensures Elements(names) == {} <==> names == []
  {
    if names != [] {
      assert names[0] in Elements(names);
    }
  }

  /** A set of names has one ascending listing. */
  lemma {:induction false} AscendingIsUnique(a: seq<string>, b: seq<string>)
    requires Ascending(a) && Ascending(b) && Elements(a) == Elements(b)
    ensures a == b
  {
    EmptyElements(a);
    EmptyElements(b);
    if a != [] {
      assert a[0] in Elements(b) && b != [];
      assert b[0] in Elements(a);
      var i :| 0 <= i < |b| && b[i] == a[0];
      var j :| 0 <= j < |a| && a[j] == b[0];
      if i > 0 && j > 0 {
        LessIsTransitive(a[0], a[j], a[0]);
        LessIsIrreflexive(a[0]);
      }
      AscendingTail(a);
      AscendingTail(b);
      AscendingIsUnique(a[1..], b[1..]);
      assert a == [a[0]] + a[1..] && b == [b[0]] + b[1..];
    }
  }

  /** Where sorting puts v into an ascending list. */
  function Inserted(names: seq<string>, v: string): (r: seq<string>) {
    if names == [] then [v]
    else if Less(v, names[0]) then [v] + names
    else [names[0]] + Inserted(names[1..], v)
  }

  lemma {:induction false} InsertedIsAscending(names: seq<string>, v: string)
    requires Ascending(names) && v !in names
    ensures Ascending(Inserted(names, v)) && Elements(Inserted(names, v)) == Elements(names) + {v}
  {
    if names != [] {
      assert names == [names[0]] + names[1..];
      AscendingTail(names);
      LessIsTotal(v, names[0]);
      if Less(v, names[0]) {
        forall n | n in names ensures Less(v, n) {
          var i :| 0 <= i < |names| && names[i] == n;
          if i > 0 { LessIsTransitive(v, names[0], n); }
        }
      } else {
        InsertedIsAscending(names[1..], v);
        FirstStaysFirst(names, v);
      }
    }
  }

  lemma FirstStaysFirst(names: seq<string>, v: string)
    requires Ascending(names) && names != [] && Less(names[0], v)
    requires Elements(Inserted(names[1..], v)) == Elements(names[1..]) + {v}
    ensures forall n | n in Inserted(names[1..], v) :: Less(names[0], n)
  {
    forall n | n in Inserted(names[1..], v) ensures Less(names[0], n) {
      assert n in Elements(names[1..]) + {v};
      if n != v {
        var k :| 0 <= k < |names[1..]| && names[1..][k] == n;
        assert Less(names[0], names[k + 1]);
      }
    }
  }

  lemma InsertedStep(names: seq<string>, v: string, i: nat)
    requires i < |names| && !Less(v, names[i])
    requires Inserted(names, v) == names[..i] + Inserted(names[i..], v)
    ensures Inserted(names, v) == names[..i + 1] + Inserted(names[i + 1..], v)
  {
    var tail := Inserted(names[i + 1..], v);
    assert names[i..][1..] == names[i + 1..];
    assert Inserted(names[i..], v) == [names[i]] + tail;
    assert names[..i] + ([names[i]] + tail) == names[..i + 1] + tail;
  }

  /** The list sort.Strings leaves of an ascending list with v appended. */
  method SortAppended(names: seq<string>, v: string) returns (sorted: seq<string>)
    requires Ascending(names) && v !in names
    ensures sorted == Inserted(names, v)
    ensures Ascending(sorted) && Elements(sorted) == Elements(names) + {v}
  {
    InsertedIsAscending(names, v);
    var i := 0;
    while i < |names| && !Less(v, names[i])
      invariant 0 <= i <= |names|
      invariant Inserted(names, v) == names[..i] + Inserted(names[i..], v)
    {
      InsertedStep(names, v, i);
      i := i + 1;
    }
    assert Inserted(names[i..], v) == [v] + names[i..];
    assert names[..i] + ([v] + names[i..]) == names[..i] + [v] + names[i..];
    sorted := names[..i] + [v] + names[i..];
  }

  /** The keys of a map, gathered in any order and sorted: Go's idiom for a deterministic iteration. */
  method SortKeys(keys: set<string>) returns (names: seq<string>)
    ensures Ascending(names) && Elements(names) == keys
  {
    names := [];
    var todo := keys;
    while todo != {}
      invariant todo <= keys
      invariant Ascending(names) && Elements(names) == keys - todo
    {
      var k :| k in todo;
      todo := todo - {k};
      assert k in names ==> k in Elements(names);
      names := SortAppended(names, k);
    }
  }

  // ---- Trimming ---------------------------------------------------------------------------

  /** unicode.IsSpace. */
  predicate IsSpace(c: char) {
    || '\t' <= c <= '\r' || c == ' ' || c == '\U{85}' || c == '\U{a0}'
    || c == '\U{1680}' || '\U{2000}' <= c <= '\U{200a}' || '\U{2028}' <= c <= '\U{2029}'
    || c == '\U{202f}' || c == '\U{205f}' || c == '\U{3000}'
  }

  /** strings.TrimSpace. */
  function Trim(s: string): string {
    if s != [] && IsSpace(s[0]) then Trim(s[1..])
    else if s != [] && IsSpace(s[|s| - 1]) then Trim(s[..|s| - 1])
    else s
  }

  /** The characters of Unicode's property White_Space, one by one. */
  predicate White(c: char) {
    || c == '\t' || c == '\n' || c == '\U{b}' || c == '\U{c}' || c == '\r' || c == ' ' || c == '\U{85}' || c == '\U{a0}'
    || c == '\U{1680}' || c == '\U{2000}' || c == '\U{2001}' || c == '\U{2002}' || c == '\U{2003}' || c == '\U{2004}'
    || c == '\U{2005}' || c == '\U{2006}' || c == '\U{2007}' || c == '\U{2008}' || c == '\U{2009}' || c == '\U{200a}'
    || c == '\U{2028}' || c == '\U{2029}' || c == '\U{202f}' || c == '\U{205f}' || c == '\U{3000}'
  }

  predicate AllWhite(s: string) {
    forall i | 0 <= i < |s| :: White(s[i])
  }

  lemma WhiteIsSpace(c: char)
    ensures White(c) <==> IsSpace(c)
  {
  }

  /** s is white before i and from j on, and its part in between neither begins nor ends white. */
  predicate Middle(s: string, i: int, j: int) {
    && 0 <= i <= j <= |s| && AllWhite(s[..i]) && AllWhite(s[j..])
    && (i < j ==> !White(s[i]) && !White(s[j - 1]))
  }

  lemma WhiteJoins(a: string, b: string)
    requires AllWhite(a) && AllWhite(b)
    ensures AllWhite(a + b)
  {
  }

  lemma MiddleOfTail(s: string, i: nat, j: nat)
    requires s != [] && White(s[0]) && Middle(s[1..], i, j)
    ensures Middle(s, i + 1, j + 1) && s[i + 1..j + 1] == s[1..][i..j]
  {
    WhiteJoins([s[0]], s[1..][..i]);
    assert s[..i + 1] == [s[0]] + s[1..][..i] && s[j + 1..] == s[1..][j..];
  }

  lemma MiddleOfInit(s: string, i: nat, j: nat)
    requires s != [] && White(s[|s| - 1]) && Middle(s[..|s| - 1], i, j)
    ensures Middle(s, i, j) && s[i..j] == s[..|s| - 1][i..j]
  {
    var rest := s[..|s| - 1];
    WhiteJoins(rest[j..], [s[|s| - 1]]);
    assert s[j..] == rest[j..] + [s[|s| - 1]] && s[..i] == rest[..i] && s[i..j] == rest[i..j];
  }

  /** Trimming leaves that middle. */
  lemma {:induction false} TrimIsMiddle(s: string) returns (i: nat, j: nat)
    ensures Middle(s, i, j) && Trim(s) == s[i..j]
  {
    i, j := 0, |s|;
    if s != [] {
      WhiteIsSpace(s[0]);
      WhiteIsSpace(s[|s| - 1]);
      if IsSpace(s[0]) {
        i, j := TrimIsMiddle(s[1..]);
        MiddleOfTail(s, i, j);
        i, j := i + 1, j + 1;
      } else if IsSpace(s[|s| - 1]) {
        i, j := TrimIsMiddle(s[..|s| - 1]);
        MiddleOfInit(s, i, j);
      }
    }
  }

  lemma {:induction false} TrimDropsMargins(u: string, m: string, v: string)
    requires AllWhite(u) && AllWhite(v)
    ensures Trim(u + m + v) == Trim(m)
    decreases |u| + |v|
  {
    if u != [] {
      WhiteIsSpace(u[0]);
      assert (u + m + v)[1..] == u[1..] + m + v;
      TrimDropsMargins(u[1..], m, v);
    } else if v != [] {
      var n := |v| - 1;
      WhiteIsSpace(v[n]);
      TrimDropsMargins(u, m, v[..n]);
      assert (u + m + v)[..|m| + n] == u + m + v[..n];
      TrimDropsLast(u + m + v);
    } else {
      assert u + m + v == m;
    }
  }

  lemma {:induction false} TrimDropsLast(s: string)
    requires s != [] && IsSpace(s[|s| - 1])
    ensures Trim(s) == Trim(s[..|s| - 1])
  {
    if IsSpace(s[0]) && |s| > 1 {
      TrimDropsLast(s[1..]);
      assert s[1..][..|s| - 2] == s[..|s| - 1][1..];
    } else if |s| == 1 {
      assert s[1..] == s[..0];
    }
  }

  /** a and b are one text between different white margins. */
  ghost predicate DifferInMargins(a: string, b: string) {
    exists u, m, v, u', v' :: Padded(a, u, m, v) && Padded(b, u', m, v')
  }

  predicate Padded(s: string, u: string, m: string, v: string) {
    s == u + m + v && AllWhite(u) && AllWhite(v)
  }

  lemma TrimIsPadded(s: string) returns (u: string, v: string)
    ensures Padded(s, u, Trim(s), v)
  {
    var i, j := TrimIsMiddle(s);
    u, v := s[..i], s[j..];
    assert s == s[..i] + s[i..j] + s[j..];
  }

  /** Two texts are trimmed to the same exactly when they differ in their white margins at most. */
  lemma TrimmedAlikeIff(a: string, b: string)
    ensures Trim(a) == Trim(b) <==> DifferInMargins(a, b)
  {
    if Trim(a) == Trim(b) {
      var u, v := TrimIsPadded(a);
      var u', v' := TrimIsPadded(b);
      assert Padded(a, u, Trim(a), v) && Padded(b, u', Trim(a), v');
    } else if u, m, v, u', v' :| Padded(a, u, m, v) && Padded(b, u', m, v') {
      TrimDropsMargins(u, m, v);
      TrimDropsMargins(u', m, v');
      assert false;
    }
  }

  /** What is left is empty exactly when there is nothing but white characters. */
  lemma TrimmedEmptyIff(s: string)
    ensures Trim(s) == "" <==> AllWhite(s)
  {
    var i, j := TrimIsMiddle(s);
    if Trim(s) == "" {
      assert i == j && s == s[..i] + s[j..];
    } else {
      assert !White(s[i]);
    }
  }

  // ---- Substring search -------------------------------------------------------------------

  /** sub stands in s at position i. */
  predicate At(s: string, sub: string, i: int) {
    0 <= i && i + |sub| <= |s| && s[i..i + |sub|] == sub
  }

  function FindFrom(s: string, sub: string, i: nat): (r: Option<nat>)
    ensures r.None? ==> forall j | i <= j :: !At(s, sub, j)
    ensures r.Some? ==> At(s, sub, r.value) && forall j | i <= j < r.value :: !At(s, sub, j)
    decreases |s| - i
  {
    if i + |sub| > |s| then None
    else if At(s, sub, i) then Some(i) else FindFrom(s, sub, i + 1)
  }

  /** Where sub first stands in s. */
  function Find(s: string, sub: string): (r: Option<nat>)
    ensures r.None? <==> forall j :: !At(s, sub, j)
    ensures r.Some? ==> At(s, sub, r.value) && forall j | 0 <= j < r.value :: !At(s, sub, j)
  {
    FindFrom(s, sub, 0)
  }

  /** strings.Index: the first position of sub, or -1. */
  method Index(s: string, sub: string) returns (i: int)
    ensures i == if Find(s, sub).Some? then Find(s, sub).value else -1
  {
    i := 0;
    while i + |sub| <= |s|
      invariant 0 <= i
      invariant forall j :: 0 <= j < i ==> !At(s, sub, j)
    {
      if s[i..i + |sub|] == sub {
        assert At(s, sub, i);
        return;
      }
      i := i + 1;
    }
    i := -1;
  }

  // ---- Versioned keys ---------------------------------------------------------------------

  function VersionedKey(id: string, version: string): string {
    id + "@" + version
  }

  /** An @-free ID and its version can be read back from the key. */
  lemma {:induction false} VersionedKeyIsInjective(id: string, version: string, id': string, version': string)
    requires '@' !in id && '@' !in id' && VersionedKey(id, version) == VersionedKey(id', version')
    ensures id == id' && version == version'
  {
    var key := VersionedKey(id, version);
    assert key[|id|] == '@' && key[|id'|] == '@';
    assert forall i | 0 <= i < |id| :: key[i] == id[i];
    assert forall i | 0 <= i < |id'| :: key[i] == id'[i];
    assert |id| == |id'|;
    assert id == key[..|id|] && id' == key[..|id|];
    assert version == key[|id| + 1..] && version' == key[|id| + 1..];
  }

  lemma VersionedKeyIsNotBare(id: string, version: string, bare: string)
    requires '@' !in bare
    ensures VersionedKey(id, version) != bare
  {
    assert VersionedKey(id, version)[|id|] == '@';
  }

  /** With @ in an ID one key serves two schemas, and a versioned key can be another schema's bare key. */
  lemma AtSignCollides()
    ensures VersionedKey("a", "b@c") == VersionedKey("a@b", "c")
    ensures VersionedKey("a", "b") == "a@b"
  {
  }
}
