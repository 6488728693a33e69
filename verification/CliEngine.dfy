/**
 The CLI's own copy of the engine. Three of its checks are the server's, line by line; the other
 three look at less. What it reports is exactly the part of the server's reports it can see.
 */
module CliEngine {
  import opened Prelude
  import opened OpenApi
  import opened BreakingChanges
  import Server = CompatibilityEngine

  /** The kinds of change the CLI looks for: no HEAD or OPTIONS endpoints, no body property types, no response fields. */
  predicate Seen(c: BreakingChange) {
    match c.finding
    case EndpointRemoved => c.verb in CHECKED_METHODS
    case BodyFieldTypeChanged(_, _, _) => false
    case ResponseFieldRemoved(_, _) => false
    case ResponseFieldTypeChanged(_, _, _, _) => false
    case _ => true
  }

  ghost predicate PassReports(changes: seq<BreakingChange>, oldDoc: Document, newDoc: Document, pass: Pass, done: set<string>) {
    forall c: BreakingChange ::
      multiset(changes)[c] ==
        if Seen(c) && !c.finding.EndpointRemoved? && PassOf(c.finding) == pass && c.path in done
        then Count(oldDoc, newDoc, c) else 0
  }

  /** The endpoints of the paths done reported gone, under the methods given. */
  ghost predicate GoneFrom(changes: seq<BreakingChange>, oldDoc: Document, newDoc: Document, done: set<string>, verbs: seq<Verb>) {
    forall c: BreakingChange ::
      multiset(changes)[c] ==
        if c.finding.EndpointRemoved? && c.path in done && c.verb in verbs then Count(oldDoc, newDoc, c) else 0
  }

  lemma MethodGone(changes: seq<BreakingChange>, oldDoc: Document, newDoc: Document, path: string, seen: seq<Verb>, verb: Verb)
    requires GoneFrom(changes, oldDoc, newDoc, {path}, seen) && verb !in seen && verb in CHECKED_METHODS
    ensures var gone := oldDoc.Serves(path, verb) && !newDoc.Serves(path, verb);
      GoneFrom(if gone then changes + [BreakingChange(path, verb, EndpointRemoved)] else changes, oldDoc, newDoc, {path}, seen + [verb])
  {
    var last := [BreakingChange(path, verb, EndpointRemoved)];
    forall c: BreakingChange ensures multiset(changes + last)[c] == multiset(changes)[c] + if c == last[0] then 1 else 0 {
      assert multiset(changes + last) == multiset(changes) + multiset(last);
    }
  }

  lemma PathGone(changes: seq<BreakingChange>, found: seq<BreakingChange>, oldDoc: Document, newDoc: Document,
                 done: set<string>, path: string, verbs: seq<Verb>)
    requires GoneFrom(changes, oldDoc, newDoc, done, verbs) && GoneFrom(found, oldDoc, newDoc, {path}, verbs) && path !in done
    ensures GoneFrom(changes + found, oldDoc, newDoc, done + {path}, verbs)
  {
  }

  method RemovedOnPath(oldItem: PathItem, oldDoc: Document, newDoc: Document, path: string) returns (changes: seq<BreakingChange>)
    requires oldDoc.Find(path) == Some(oldItem)
    ensures GoneFrom(changes, oldDoc, newDoc, {path}, CHECKED_METHODS)
  {
    changes := [];
    var newItem := newDoc.Find(path);
    var verbs := CHECKED_METHODS;
    for i := 0 to |verbs|
      invariant GoneFrom(changes, oldDoc, newDoc, {path}, verbs[..i])
    {
      var verb := verbs[i];
      assert verb !in verbs[..i] && verbs[..i + 1] == verbs[..i] + [verb];
      MethodGone(changes, oldDoc, newDoc, path, verbs[..i], verb);
      if verb in oldItem && !(newItem.Some? && verb in newItem.value) {
        changes := changes + [BreakingChange(path, verb, EndpointRemoved)];
      }
    }
    assert verbs[..|verbs|] == verbs;
  }

  method CheckRemovedEndpoints(oldDoc: Document, newDoc: Document) returns (changes: seq<BreakingChange>)
    ensures forall c: BreakingChange ::
      multiset(changes)[c] == if c.finding.EndpointRemoved? && Seen(c) then Count(oldDoc, newDoc, c) else 0
  {
    changes := [];
    if oldDoc.paths.None? {
      return;
    }
    var todo := oldDoc.paths.value.Keys;
    while todo != {}
      invariant todo <= oldDoc.paths.value.Keys
      invariant GoneFrom(changes, oldDoc, newDoc, oldDoc.paths.value.Keys - todo, CHECKED_METHODS)
    {
      var path :| path in todo;
      ghost var done := oldDoc.paths.value.Keys - todo;
      todo := todo - {path};
      assert oldDoc.paths.value.Keys - todo == done + {path};
      var found := RemovedOnPath(oldDoc.paths.value[path], oldDoc, newDoc, path);
      PathGone(changes, found, oldDoc, newDoc, done, path, CHECKED_METHODS);
      changes := changes + found;
    }
  }

  method CompareResponses(oldOp: Operation, newOp: Operation, path: string, verb: Verb)
    returns (changes: seq<BreakingChange>)
    ensures forall c: BreakingChange ::
      multiset(changes)[c] ==
        if c.path == path && c.verb == verb && c.finding.StatusRemoved? then OperationCount(oldOp, newOp, c.finding) else 0
  {
    changes := [];
    if oldOp.responses.None? || newOp.responses.None? {
      return;
    }
    var old', new' := oldOp.responses.value, newOp.responses.value;
    var todo := old'.Keys;
    while todo != {}
      invariant todo <= old'.Keys
      invariant forall c: BreakingChange ::
        multiset(changes)[c] ==
          if c.path == path && c.verb == verb && c.finding.StatusRemoved? && c.finding.code !in todo
          then ResponseCount(old', new', c.finding) else 0
    {
      var code :| code in todo;
      todo := todo - {code};
      if old'[code].Some? && code !in new' {
        changes := changes + [BreakingChange(path, verb, StatusRemoved(code))];
      }
    }
  }

  method ComparePass(oldOp: Operation, newOp: Operation, pass: Pass, path: string, verb: Verb)
    returns (changes: seq<BreakingChange>)
    ensures forall c: BreakingChange ::
      multiset(changes)[c] ==
        if c.path == path && c.verb == verb && Seen(c) && !c.finding.EndpointRemoved? && PassOf(c.finding) == pass
        then OperationCount(oldOp, newOp, c.finding) else 0
  {
    match pass
    case AddedParameters => changes := Server.AddedRequiredParameters(oldOp, newOp, path, verb);
    case AddedFields => changes := Server.CompareRequestBodies(oldOp.requestBody, newOp.requestBody, path, verb);
    case TypeChanges => changes := Server.ParameterTypeChanges(oldOp, newOp, path, verb);
    case RemovedEnums => changes := Server.ParameterEnumChanges(oldOp, newOp, path, verb);
    case Responses => changes := CompareResponses(oldOp, newOp, path, verb);
  }

  /** The reports of one pass on one path and the methods seen so far. */
  ghost predicate OnPath(changes: seq<BreakingChange>, oldDoc: Document, newDoc: Document, pass: Pass, path: string, seen: seq<Verb>) {
    forall c: BreakingChange ::
      multiset(changes)[c] ==
        if Seen(c) && !c.finding.EndpointRemoved? && PassOf(c.finding) == pass && c.path == path && c.verb in seen
        then Count(oldDoc, newDoc, c) else 0
  }

  lemma MethodSeen(changes: seq<BreakingChange>, found: seq<BreakingChange>, oldDoc: Document, newDoc: Document,
                   pass: Pass, path: string, seen: seq<Verb>, verb: Verb)
    requires OnPath(changes, oldDoc, newDoc, pass, path, seen) && verb !in seen && verb in MethodsOf(pass)
    requires forall c: BreakingChange ::
      multiset(found)[c] ==
        if c.path == path && c.verb == verb && Seen(c) && !c.finding.EndpointRemoved? && PassOf(c.finding) == pass
        then Count(oldDoc, newDoc, c) else 0
    ensures OnPath(changes + found, oldDoc, newDoc, pass, path, seen + [verb])
  {
    forall c: BreakingChange
      ensures multiset(changes + found)[c] ==
        if Seen(c) && !c.finding.EndpointRemoved? && PassOf(c.finding) == pass && c.path == path && c.verb in seen + [verb]
        then Count(oldDoc, newDoc, c) else 0
    {
      assert multiset(changes + found)[c] == multiset(changes)[c] + multiset(found)[c];
    }
  }

  method CheckPath(oldDoc: Document, newDoc: Document, pass: Pass, path: string) returns (changes: seq<BreakingChange>)
    requires newDoc.Find(path).Some?
    ensures PassReports(changes, oldDoc, newDoc, pass, {path})
  {
    changes := [];
    var oldItem := oldDoc.Find(path);
    if oldItem.None? {
      return;
    }
    var newItem := newDoc.Find(path).value;
    var verbs := MethodsOf(pass);
    for i := 0 to |verbs|
      invariant OnPath(changes, oldDoc, newDoc, pass, path, verbs[..i])
    {
      var verb := verbs[i];
      assert verb !in verbs[..i] && verbs[..i + 1] == verbs[..i] + [verb];
      var found := [];
      if verb in oldItem.value && verb in newItem {
        found := ComparePass(oldItem.value[verb], newItem[verb], pass, path, verb);
      }
      MethodSeen(changes, found, oldDoc, newDoc, pass, path, verbs[..i], verb);
      changes := changes + found;
    }
    assert verbs[..|verbs|] == verbs;
  }

  method CheckCommonPaths(oldDoc: Document, newDoc: Document, pass: Pass) returns (changes: seq<BreakingChange>)
    ensures forall c: BreakingChange ::
      multiset(changes)[c] ==
        if Seen(c) && !c.finding.EndpointRemoved? && PassOf(c.finding) == pass then Count(oldDoc, newDoc, c) else 0
  {
    changes := [];
    if oldDoc.paths.None? || newDoc.paths.None? {
      return;
    }
    var todo := newDoc.paths.value.Keys;
    while todo != {}
      invariant todo <= newDoc.paths.value.Keys
      invariant PassReports(changes, oldDoc, newDoc, pass, newDoc.paths.value.Keys - todo)
    {
      ghost var done := newDoc.paths.value.Keys - todo;
      var path :| path in todo;
      todo := todo - {path};
      assert newDoc.paths.value.Keys - todo == done + {path};
      var found := CheckPath(oldDoc, newDoc, pass, path);
      changes := changes + found;
    }
  }

  method CompareSchemas(oldDoc: Document, newDoc: Document) returns (changes: seq<BreakingChange>, compatible: bool)
    ensures SeenReports(changes, oldDoc, newDoc)
    ensures compatible <==> changes == []
  {
    changes := CheckRemovedEndpoints(oldDoc, newDoc);
    var found := CheckCommonPaths(oldDoc, newDoc, AddedParameters);
    changes := changes + found;
    found := CheckCommonPaths(oldDoc, newDoc, AddedFields);
    changes := changes + found;
    found := CheckCommonPaths(oldDoc, newDoc, TypeChanges);
    changes := changes + found;
    found := CheckCommonPaths(oldDoc, newDoc, RemovedEnums);
    changes := changes + found;
    found := CheckCommonPaths(oldDoc, newDoc, Responses);
    changes := changes + found;
    compatible := |changes| == 0;
  }

  ghost predicate SeenReports(changes: seq<BreakingChange>, oldDoc: Document, newDoc: Document) {
    forall c :: multiset(changes)[c] == if Seen(c) then Count(oldDoc, newDoc, c) else 0
  }

  lemma SeenOnce(cli: seq<BreakingChange>, server: seq<BreakingChange>, oldDoc: Document, newDoc: Document, c: BreakingChange)
    requires SeenReports(cli, oldDoc, newDoc) && Server.Complete(server, oldDoc, newDoc)
    ensures multiset(cli)[c] == if Seen(c) then multiset(server)[c] else 0
  {
    assert Server.Settled(multiset(server)[c], Count(oldDoc, newDoc, c), Server.PinnedAt(oldDoc, c));
  }

  /** Whatever run of either engine: the CLI reports the server's changes it looks for, each as often, and no others. */
  lemma CliReportsWhatItSees(cli: seq<BreakingChange>, server: seq<BreakingChange>, oldDoc: Document, newDoc: Document)
    requires SeenReports(cli, oldDoc, newDoc) && Server.Complete(server, oldDoc, newDoc)
    ensures multiset(cli) <= multiset(server)
    ensures forall c :: c in cli <==> c in server && Seen(c)
    ensures server == [] ==> cli == []
  {
    forall c ensures multiset(cli)[c] <= multiset(server)[c] && (c in cli <==> c in server && Seen(c)) {
      SeenOnce(cli, server, oldDoc, newDoc, c);
      assert c in cli <==> c in multiset(cli);
      assert c in server <==> c in multiset(server);
    }
    if cli != [] {
      assert cli[0] in cli;
    }
  }
}
