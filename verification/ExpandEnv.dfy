/**
 Interpolation of ${NAME} and ${NAME:-default} in config values, shown to be the evaluation of a
 unique parse.
 */
module ExpandEnv {
  import opened Prelude
  import opened Strings

  /** A config value: literals and references in turn, ending in a literal or in a reference left open. */
  datatype Text =
    | End(literal: string)
    | Then(literal: string, expr: string, rest: Text)
    | Open(literal: string, tail: string)

  type Environment = map<string, string>

  datatype ExpandError = Unterminated | Unset(name: string)

  function Print(t: Text): string {
    match t
    case End(literal) => literal
    case Then(literal, expr, rest) => literal + "${" + expr + "}" + Print(rest)
    case Open(literal, tail) => literal + "${" + tail
  }

  ghost predicate Free(s: string, sub: string) {
    forall i :: !At(s, sub, i)
  }

  /** Literals hold no "${" and references no "}". */
  ghost predicate WellFormed(t: Text) {
    && Free(t.literal, "${")
    && match t
      case End(_) => true
      case Then(_, expr, rest) => Free(expr, "}") && WellFormed(rest)
      case Open(_, tail) => Free(tail, "}")
  }

  // ---- Meaning ----------------------------------------------------------------------------

  /** A variable set to the empty string counts as unset. */
  function Lookup(env: Environment, name: string): Option<string> {
    if name != "" && name in env && env[name] != "" then Some(env[name]) else None
  }

  /** expr splits at its first ":-" into a name and a default. */
  ghost predicate Splits(expr: string, name: string, def: Option<string>) {
    match def
    case None => name == expr && Free(expr, ":-")
    case Some(d) => expr == name + ":-" + d && forall j | 0 <= j < |name| :: !At(expr, ":-", j)
  }

  function Resolve(env: Environment, name: string, def: Option<string>): Option<string> {
    if Lookup(env, name).Some? then Lookup(env, name) else def
  }

  function Split(expr: string): (string, Option<string>) {
    var i := Find(expr, ":-");
    if i.None? then (expr, None) else (expr[..i.value], Some(expr[i.value + 2..]))
  }

  function Value(env: Environment, expr: string): Option<string> {
    Resolve(env, Split(expr).0, Split(expr).1)
  }

  lemma SplitIsFirst(expr: string, name: string, def: Option<string>)
    ensures Splits(expr, name, def) <==> Split(expr) == (name, def)
  {
    var i := Find(expr, ":-");
    if i.Some? {
      assert expr == expr[..i.value] + ":-" + expr[i.value + 2..];
    }
    if Splits(expr, name, def) && def.Some? {
      assert expr[|name|..|name| + 2] == ":-" && At(expr, ":-", |name|);
      assert name == expr[..|name|] && def.value == expr[|name| + 2..];
    }
  }

  /** A reference stands for v: the variable it names, when that is set and not empty, and otherwise its default. */
  ghost predicate Yields(env: Environment, expr: string, v: string) {
    exists name, def :: Splits(expr, name, def)
      && if name != "" && name in env && env[name] != "" then v == env[name] else def == Some(v)
  }

  lemma ValueIffYields(env: Environment, expr: string, v: string)
    ensures Value(env, expr) == Some(v) <==> Yields(env, expr, v)
  {
    var (name, def) := Split(expr);
    SplitIsFirst(expr, name, def);
    forall name', def' | Splits(expr, name', def') ensures name' == name && def' == def {
      SplitIsFirst(expr, name', def');
    }
  }

  /** A set variable wins over any default; a default is what an unset or empty one stands for. */
  lemma VariableBeforeDefault(env: Environment, expr: string, name: string, def: Option<string>)
    requires Splits(expr, name, def) && name != ""
    ensures name in env && env[name] != "" ==> Value(env, expr) == Some(env[name])
    ensures name !in env || env[name] == "" ==> Value(env, expr) == def
  {
    SplitIsFirst(expr, name, def);
  }

  /** out is the text with what each reference stands for in its place. */
  ghost predicate Expands(env: Environment, t: Text, out: string) {
    match t
    case End(literal) => out == literal
    case Open(_, _) => false
    case Then(literal, expr, rest) =>
      exists v, out' :: Yields(env, expr, v) && Expands(env, rest, out') && out == literal + v + out'
  }

  function Prepend(prefix: string, r: Result<string, ExpandError>): Result<string, ExpandError> {
    if r.Ok? then Ok(prefix + r.value) else r
  }

  /** The text's value, or its first error from the left. Values are not looked at again. */
  function Eval(env: Environment, t: Text): Result<string, ExpandError> {
    match t
    case End(literal) => Ok(literal)
    case Open(_, _) => Err(Unterminated)
    case Then(literal, expr, rest) =>
      if Value(env, expr).None? then Err(Unset(Split(expr).0))
      else Prepend(literal + Value(env, expr).value, Eval(env, rest))
  }

  /** Evaluation succeeds with just that. */
  lemma {:induction false} EvalIffExpands(env: Environment, t: Text, out: string)
    ensures Eval(env, t) == Ok(out) <==> Expands(env, t, out)
  {
    if t.Then? {
      if Eval(env, t) == Ok(out) {
        var v, out' := Value(env, t.expr).value, Eval(env, t.rest).value;
        ValueIffYields(env, t.expr, v);
        EvalIffExpands(env, t.rest, out');
        assert out == t.literal + v + out';
      }
      if v, out' :| Yields(env, t.expr, v) && Expands(env, t.rest, out') && out == t.literal + v + out' {
        ValueIffYields(env, t.expr, v);
        EvalIffExpands(env, t.rest, out');
      }
    }
  }

  // ---- Every string is one text -----------------------------------------------------------

  function Parse(s: string): Text
    decreases |s|
  {
    var i := Find(s, "${");
    if i.None? then End(s)
    else
      var after := s[i.value + 2..];
      var end := Find(after, "}");
      if end.None? then Open(s[..i.value], after)
      else Then(s[..i.value], after[..end.value], Parse(after[end.value + 1..]))
  }

  /** A string cut at an occurrence of sub. */
  lemma CutAt(s: string, sub: string, i: nat)
    requires At(s, sub, i)
    ensures s == s[..i] + sub + s[i + |sub|..]
  {
  }

  lemma {:induction false} ParseIsWellFormed(s: string)
    ensures WellFormed(Parse(s)) && Print(Parse(s)) == s
    decreases |s|
  {
    var i := Find(s, "${");
    if i.Some? {
      var after := s[i.value + 2..];
      var end := Find(after, "}");
      BeforeFirst(s, "${", i.value);
      CutAt(s, "${", i.value);
      if end.Some? {
        var rest := after[end.value + 1..];
        BeforeFirst(after, "}", end.value);
        CutAt(after, "}", end.value);
        ParseIsWellFormed(rest);
        assert s[..i.value] + "${" + (after[..end.value] + "}" + rest) == s[..i.value] + "${" + after[..end.value] + "}" + rest;
      }
    }
  }

  lemma BeforeFirst(s: string, sub: string, i: nat)
    requires i <= |s| && forall j | 0 <= j < i :: !At(s, sub, j)
    ensures sub != "" ==> Free(s[..i], sub)
  {
    forall j | sub != "" && At(s[..i], sub, j) ensures false {
      assert s[..i][j..j + |sub|] == s[j..j + |sub|];
      assert At(s, sub, j);
    }
  }

  /** Where the first "${" of a printed text stands. */
  lemma FirstReference(t: Text)
    requires WellFormed(t)
    ensures t.End? ==> Free(Print(t), "${")
    ensures !t.End? ==> At(Print(t), "${", |t.literal|) && forall j | 0 <= j < |t.literal| :: !At(Print(t), "${", j)
  {
    if !t.End? {
      var s, l := Print(t), |t.literal|;
      assert s[..l] == t.literal && s[l] == '$' && s[l + 1] == '{';
      assert s[l..l + 2] == "${";
      forall j | 0 <= j < l ensures !At(s, "${", j) {
        assert s[j] == t.literal[j];
        if j + 2 <= l {
          assert s[j..j + 2] == t.literal[j..j + 2];
          assert !At(t.literal, "${", j);
        } else {
          assert s[j..j + 2][1] == '$';
        }
      }
    }
  }

  /** What follows the first "${". */
  function AfterReference(t: Text): string
    requires !t.End?
  {
    if t.Open? then t.tail else t.expr + "}" + Print(t.rest)
  }

  lemma FirstBrace(t: Text)
    requires WellFormed(t) && !t.End?
    ensures Print(t)[|t.literal| + 2..] == AfterReference(t)
    ensures t.Open? ==> Free(AfterReference(t), "}")
    ensures t.Then? ==> At(AfterReference(t), "}", |t.expr|) && AfterReference(t)[|t.expr| + 1..] == Print(t.rest)
    ensures t.Then? ==> forall j | 0 <= j < |t.expr| :: !At(AfterReference(t), "}", j)
  {
    if t.Then? {
      var after := AfterReference(t);
      assert after[|t.expr|..|t.expr| + 1] == "}";
      forall j | 0 <= j < |t.expr| ensures !At(after, "}", j) {
        assert after[j..j + 1] == t.expr[j..j + 1];
        assert !At(t.expr, "}", j);
      }
    }
  }

  lemma ParseStep(rest: string, i: nat, end: nat)
    requires Find(rest, "${") == Some(i) && Find(rest[i + 2..], "}") == Some(end)
    ensures var after := rest[i + 2..];
      Parse(rest) == Then(rest[..i], after[..end], Parse(after[end + 1..]))
  {
  }

  lemma ReferencesAreFound(t: Text)
    requires WellFormed(t) && !t.End?
    ensures Find(Print(t), "${") == Some(|t.literal|) && Print(t)[..|t.literal|] == t.literal
    ensures t.Then? ==> Find(AfterReference(t), "}") == Some(|t.expr|) && AfterReference(t)[..|t.expr|] == t.expr
  {
    FirstReference(t);
    FirstBrace(t);
  }

  /** Printing has one inverse: a string is the print of one well-formed text. */
  lemma {:induction false} ParseOfPrint(t: Text)
    requires WellFormed(t)
    ensures Parse(Print(t)) == t
  {
    if t.End? {
      FirstReference(t);
    } else {
      ReferencesAreFound(t);
      FirstBrace(t);
      if t.Then? {
        ParseStep(Print(t), |t.literal|, |t.expr|);
        ParseOfPrint(t.rest);
      }
    }
  }

  // ---- The method -------------------------------------------------------------------------

  lemma PrependNothing(r: Result<string, ExpandError>)
    ensures Prepend("", r) == r
  {
    if r.Ok? {
      assert "" + r.value == r.value;
    }
  }

  lemma PrependTwice(a: string, b: string, r: Result<string, ExpandError>)
    ensures Prepend(a, Prepend(b, r)) == Prepend(a + b, r)
  {
    if r.Ok? {
      assert a + (b + r.value) == (a + b) + r.value;
    }
  }

  lemma EvalStep(env: Environment, b: string, t: Text)
    requires t.Then? && Value(env, t.expr).Some?
    ensures Prepend(b, Eval(env, t)) == Prepend(b + t.literal + Value(env, t.expr).value, Eval(env, t.rest))
  {
    var v := Value(env, t.expr).value;
    PrependTwice(b, t.literal + v, Eval(env, t.rest));
    assert b + (t.literal + v) == b + t.literal + v;
  }

  /** expandEnv. */
  method Expand(s: string, env: Environment) returns (r: Result<string, ExpandError>)
    ensures r == Eval(env, Parse(s))
    ensures forall t | WellFormed(t) && Print(t) == s :: r == Eval(env, t)
    ensures forall t, out | WellFormed(t) && Print(t) == s :: r == Ok(out) <==> Expands(env, t, out)
  {
    forall t | WellFormed(t) && Print(t) == s ensures Parse(s) == t {
      ParseOfPrint(t);
    }
    forall out ensures Eval(env, Parse(s)) == Ok(out) <==> Expands(env, Parse(s), out) {
      EvalIffExpands(env, Parse(s), out);
    }
    var b, rest := "", s;
    PrependNothing(Eval(env, Parse(s)));
    while |rest| > 0
      invariant Eval(env, Parse(s)) == Prepend(b, Eval(env, Parse(rest)))
      decreases |rest|
    {
      var i := Index(rest, "${");
      if i < 0 {
        b := b + rest;
        break;
      }
      var literal, after := rest[..i], rest[i + 2..];
      var end := Index(after, "}");
      if end < 0 {
        return Err(Unterminated);
      }
      var expr := after[..end];
      ParseStep(rest, i, end);
      ghost var text := Parse(rest);
      rest := after[end + 1..];
      var name, def, hasDefault := expr, "", false;
      var at := Index(expr, ":-");
      if at >= 0 {
        name, def, hasDefault := expr[..at], expr[at + 2..], true;
      }
      var value := Lookup(env, name);
      if value.None? {
        if !hasDefault {
          return Err(Unset(name));
        }
        value := Some(def);
      }
      EvalStep(env, b, text);
      b := b + literal + value.value;
    }
    assert |rest| == 0 ==> b + rest == b;
    r := Ok(b);
  }

  // ---- When it fails ----------------------------------------------------------------------

  /** The references of a text, from the left. */
  function References(t: Text): seq<string> {
    if t.Then? then [t.expr] + References(t.rest) else []
  }

  function LeftOpen(t: Text): bool {
    match t
    case End(_) => false
    case Open(_, _) => true
    case Then(_, _, rest) => LeftOpen(rest)
  }

  ghost predicate Resolves(env: Environment, expr: string) {
    exists v :: Yields(env, expr, v)
  }

  ghost predicate ResolveUpTo(env: Environment, refs: seq<string>, k: nat)
    requires k <= |refs|
  {
    forall i | 0 <= i < k :: Resolves(env, refs[i])
  }

  ghost predicate Names(expr: string, name: string) {
    exists def :: Splits(expr, name, def)
  }

  lemma NamesIff(env: Environment, expr: string, name: string)
    ensures Names(expr, name) <==> Split(expr).0 == name
    ensures Resolves(env, expr) <==> Value(env, expr).Some?
  {
    SplitIsFirst(expr, Split(expr).0, Split(expr).1);
    if def :| Splits(expr, name, def) {
      SplitIsFirst(expr, name, def);
    }
    if Value(env, expr).Some? {
      ValueIffYields(env, expr, Value(env, expr).value);
    }
    if v :| Yields(env, expr, v) {
      ValueIffYields(env, expr, v);
    }
  }

  /** The k-th reference is the first to have neither value nor default, and is to that name. */
  ghost predicate FirstUnset(env: Environment, refs: seq<string>, k: int, name: string) {
    && 0 <= k < |refs| && ResolveUpTo(env, refs, k)
    && !Resolves(env, refs[k]) && Names(refs[k], name)
  }

  ghost predicate SomeUnset(env: Environment, refs: seq<string>, name: string) {
    exists k :: FirstUnset(env, refs, k, name)
  }

  /** The variable an error names is that of the first reference that does not resolve. */
  lemma {:induction false} UnsetIff(env: Environment, t: Text, name: string)
    ensures Eval(env, t) == Err(Unset(name)) <==> SomeUnset(env, References(t), name)
  {
    if t.Then? {
      UnsetIff(env, t.rest, name);
      NamesIff(env, t.expr, name);
      var refs, rest := References(t), References(t.rest);
      assert refs[0] == t.expr;
      if Value(env, t.expr).None? {
        assert Eval(env, t) == Err(Unset(Split(t.expr).0));
        assert ResolveUpTo(env, refs, 0);
        if k :| FirstUnset(env, refs, k, name) {
          assert k == 0;
        }
        if Split(t.expr).0 == name {
          assert FirstUnset(env, refs, 0, name);
        }
      } else {
        if k :| FirstUnset(env, refs, k, name) {
          assert forall i | 0 <= i < k :: rest[i] == refs[i + 1];
          assert FirstUnset(env, rest, k - 1, name);
        }
        if k :| FirstUnset(env, rest, k, name) {
          assert forall i | 0 < i <= k + 1 :: refs[i] == rest[i - 1];
          assert FirstUnset(env, refs, k + 1, name);
        }
      }
    }
  }

  /** Expansion fails exactly on a reference left open or a variable unset without default. */
  lemma {:induction false} FailsIff(env: Environment, t: Text)
    ensures Eval(env, t).Ok? <==> !LeftOpen(t) && ResolveUpTo(env, References(t), |References(t)|)
    ensures Eval(env, t) == Err(Unterminated) <==> LeftOpen(t) && ResolveUpTo(env, References(t), |References(t)|)
  {
    if t.Then? {
      FailsIff(env, t.rest);
      NamesIff(env, t.expr, Split(t.expr).0);
      var refs := References(t);
      assert refs[0] == t.expr && refs[1..] == References(t.rest);
      assert forall i | 0 <= i < |refs| - 1 :: refs[i + 1] == References(t.rest)[i];
      assert ResolveUpTo(env, refs, |refs|) ==> ResolveUpTo(env, References(t.rest), |refs| - 1);
    }
  }
}
