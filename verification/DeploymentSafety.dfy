/**
 The deployment gate: filtering the engine's reports to the endpoints a consumer uses, and what a
 "safe" verdict promises each consumer.
 */
module DeploymentSafety {
  import opened Prelude
  import opened OpenApi
  import opened BreakingChanges
  import Engine = CompatibilityEngine
  import opened ReportRules
  import opened Requests
  import opened SchemaCache

  /** One of the endpoints is the change's; a change without path, or a consumer without endpoints, matches all. */
  predicate Relevant(c: BreakingChange, endpoints: seq<EndpointUsage>) {
    endpoints == [] || exists ep :: ep in endpoints && Matched(c, ep)
  }

  predicate Matched(c: BreakingChange, ep: EndpointUsage) {
    (c.path == ep.path || c.path == "") && c.verb.Name() == ep.verb
  }

  function Filtered(changes: seq<BreakingChange>, endpoints: seq<EndpointUsage>): (relevant: seq<BreakingChange>)
    ensures forall c :: c in relevant <==> c in changes && Relevant(c, endpoints)
  {
    if changes == [] then [] else
      var last := changes[|changes| - 1];
      Filtered(changes[..|changes| - 1], endpoints) + if Relevant(last, endpoints) then [last] else []
  }

  method FilterChangesForConsumer(changes: seq<BreakingChange>, endpoints: seq<EndpointUsage>)
    returns (relevant: seq<BreakingChange>)
    ensures relevant == Filtered(changes, endpoints)
  {
    if |endpoints| == 0 {
      AllRelevant(changes);
      return changes;
    }
    relevant := [];
    for i := 0 to |changes|
      invariant relevant == Filtered(changes[..i], endpoints)
    {
      assert changes[..i + 1][..i] == changes[..i];
      var matched := false;
      for j := 0 to |endpoints|
        invariant matched <==> exists ep :: ep in endpoints[..j] && Matched(changes[i], ep)
      {
        assert endpoints[..j + 1] == endpoints[..j] + [endpoints[j]];
        if Matched(changes[i], endpoints[j]) {
          matched := true;
        }
      }
      assert endpoints[..|endpoints|] == endpoints;
      if matched {
        relevant := relevant + [changes[i]];
      }
    }
    assert changes[..|changes|] == changes;
  }

  /** Filtering drops no occurrence of a relevant change, and adds none. */
  lemma {:induction false} FilteredKeepsCounts(changes: seq<BreakingChange>, endpoints: seq<EndpointUsage>, c: BreakingChange)
    ensures multiset(Filtered(changes, endpoints))[c] == if Relevant(c, endpoints) then multiset(changes)[c] else 0
  {
    if changes != [] {
      FilteredKeepsCounts(changes[..|changes| - 1], endpoints, c);
      assert changes == changes[..|changes| - 1] + [changes[|changes| - 1]];
    }
  }

  lemma {:induction false} AllRelevant(changes: seq<BreakingChange>)
    ensures Filtered(changes, []) == changes
  {
    if changes != [] {
      AllRelevant(changes[..|changes| - 1]);
      assert changes == changes[..|changes| - 1] + [changes[|changes| - 1]];
    }
  }

  datatype Impact = Impact(consumerId: string, schemaVersion: string, willBreak: bool, relevant: seq<BreakingChange>)

  datatype Verdict =
    | MissingSchemaId
    | SchemaNotFound
    | VersionNotFound
    | NoConsumers
    | Assessed(safe: bool, impacts: seq<Impact>, breakingChanges: seq<BreakingChange>)
  {
    predicate SafeToDeploy() {
      NoConsumers? || (Assessed? && safe)
    }
  }

  /** The impact a consumer is given, when its own version resolved to pinned. */
  ghost predicate AssessedAs(impact: Impact, consumer: ConsumerEntry, newVersion: string, newDoc: Document, pinned: Option<SchemaEntry>) {
    && impact.consumerId == consumer.consumerId && impact.schemaVersion == consumer.schemaVersion
    && if consumer.schemaVersion == "" || consumer.schemaVersion == newVersion then !impact.willBreak && impact.relevant == []
       else if pinned.None? then impact.willBreak && impact.relevant == []
       else
         && (impact.willBreak <==> impact.relevant != [])
         && exists changes :: ComparisonGave(impact, consumer, newDoc, pinned.value.document, changes)
  }

  ghost predicate ComparisonGave(impact: Impact, consumer: ConsumerEntry, newDoc: Document, oldDoc: Document, changes: seq<BreakingChange>) {
    Engine.Complete(changes, oldDoc, newDoc) && impact.relevant == Filtered(changes, consumer.usedEndpoints)
  }

  // ---- What the gate decides, in the fields of consumers and documents ---------------------

  /** The method's name as consumers write it. */
  predicate Spells(text: string, verb: Verb) {
    || (text == "GET" && verb == GET) || (text == "POST" && verb == POST) || (text == "PUT" && verb == PUT)
    || (text == "DELETE" && verb == DELETE) || (text == "PATCH" && verb == PATCH) || (text == "HEAD" && verb == HEAD)
    || (text == "OPTIONS" && verb == OPTIONS) || (text == "TRACE" && verb == TRACE) || (text == "CONNECT" && verb == CONNECT)
  }

  /** The consumer uses that endpoint: it lists it, or lists none. */
  predicate Uses(consumer: ConsumerEntry, path: string, verb: Verb) {
    consumer.usedEndpoints == []
    || exists ep :: ep in consumer.usedEndpoints && ep.path == path && Spells(ep.verb, verb)
  }

  /** A change touches the consumer at an endpoint it uses; one with an empty path at any it uses under that method. */
  predicate Touches(c: BreakingChange, consumer: ConsumerEntry) {
    consumer.usedEndpoints == []
    || exists ep :: ep in consumer.usedEndpoints && (ep.path == c.path || c.path == "") && Spells(ep.verb, c.verb)
  }

  /**
   The consumer is pinned to another version than the new one, and that version is unknown or a change that
   is due from it to the new document touches the consumer.
   */
  ghost predicate BreaksConsumer(consumer: ConsumerEntry, newVersion: string, newDoc: Document, pinned: Option<SchemaEntry>) {
    && consumer.schemaVersion != "" && consumer.schemaVersion != newVersion
    && (pinned.Some? ==> exists c, place :: Due(pinned.value.document, newDoc, c, place) && Touches(c, consumer))
  }

  lemma RelevantIffTouches(c: BreakingChange, consumer: ConsumerEntry)
    ensures Relevant(c, consumer.usedEndpoints) <==> Touches(c, consumer)
  {
    assert forall text :: text == c.verb.Name() <==> Spells(text, c.verb);
    if ep :| ep in consumer.usedEndpoints && (ep.path == c.path || c.path == "") && Spells(ep.verb, c.verb) {
      assert Matched(c, ep);
    }
    if ep :| ep in consumer.usedEndpoints && Matched(c, ep) {
      assert (ep.path == c.path || c.path == "") && Spells(ep.verb, c.verb);
    }
  }

  /** The filtered reports of an impact: each is due and touches the consumer, and of undisputed changes all are there. */
  lemma RelevantIffDue(impact: Impact, consumer: ConsumerEntry, newDoc: Document, oldDoc: Document, changes: seq<BreakingChange>, c: BreakingChange)
    requires ComparisonGave(impact, consumer, newDoc, oldDoc, changes)
    ensures c in impact.relevant ==> Touches(c, consumer) && exists place :: Due(oldDoc, newDoc, c, place)
    ensures Touches(c, consumer) && (exists place :: Due(oldDoc, newDoc, c, place)) ==>
      c in impact.relevant || (c.finding.BodyFieldTypeChanged? && Disagrees(oldDoc, c.path, c.verb))
  {
    RelevantIffTouches(c, consumer);
    ReportedIffDue(changes, oldDoc, newDoc, c);
  }

  /** The impact is what the documents say, whatever order the engine visited its maps in. */
  lemma ImpactIsDetermined(impact: Impact, consumer: ConsumerEntry, newVersion: string, newDoc: Document, pinned: Option<SchemaEntry>)
    requires AssessedAs(impact, consumer, newVersion, newDoc, pinned)
    ensures impact.willBreak ==> BreaksConsumer(consumer, newVersion, newDoc, pinned)
    ensures (pinned.Some? ==> Undisputed(pinned.value.document)) && BreaksConsumer(consumer, newVersion, newDoc, pinned) ==> impact.willBreak
  {
    if consumer.schemaVersion != "" && consumer.schemaVersion != newVersion && pinned.Some? {
      var oldDoc := pinned.value.document;
      var changes :| ComparisonGave(impact, consumer, newDoc, oldDoc, changes);
      if impact.relevant != [] {
        RelevantIffDue(impact, consumer, newDoc, oldDoc, changes, impact.relevant[0]);
      }
      if c, place :| Due(oldDoc, newDoc, c, place) && Touches(c, consumer) {
        RelevantIffDue(impact, consumer, newDoc, oldDoc, changes, c);
      }
    }
  }

  /**
   A consumer pinned to another version that the gate does not expect to break: its own version resolved, and
   every endpoint it uses that the old document serves is still served, with no change due on it.
   */
  lemma UnbrokenConsumerIsServed(impact: Impact, consumer: ConsumerEntry, newVersion: string, newDoc: Document,
                                 pinned: Option<SchemaEntry>, path: string, verb: Verb)
    requires AssessedAs(impact, consumer, newVersion, newDoc, pinned) && !impact.willBreak
    requires consumer.schemaVersion != "" && consumer.schemaVersion != newVersion
    requires Uses(consumer, path, verb)
    ensures pinned.Some?
    ensures Offers(pinned.value.document, path, verb) && verb != TRACE && verb != CONNECT ==> Offers(newDoc, path, verb)
    ensures forall f: Finding, place | !(f.BodyFieldTypeChanged? && Disagrees(pinned.value.document, path, verb)) ::
      !Due(pinned.value.document, newDoc, BreakingChange(path, verb, f), place)
  {
    var oldDoc := pinned.value.document;
    var changes :| ComparisonGave(impact, consumer, newDoc, oldDoc, changes);
    forall f: Finding, place | !(f.BodyFieldTypeChanged? && Disagrees(oldDoc, path, verb))
      ensures !Due(oldDoc, newDoc, BreakingChange(path, verb, f), place)
    {
      var c := BreakingChange(path, verb, f);
      assert Touches(c, consumer);
      RelevantIffDue(impact, consumer, newDoc, oldDoc, changes, c);
    }
    assert !Due(oldDoc, newDoc, BreakingChange(path, verb, EndpointRemoved), Whole);
  }

  /** From the gate to the wire: on its checked endpoints such a consumer's requests keep working. */
  lemma UnbrokenConsumerKeepsWorking(impact: Impact, consumer: ConsumerEntry, newVersion: string, newDoc: Document,
                                     pinned: Option<SchemaEntry>, path: string, verb: Verb)
    requires AssessedAs(impact, consumer, newVersion, newDoc, pinned) && !impact.willBreak
    requires consumer.schemaVersion != "" && consumer.schemaVersion != newVersion
    requires Uses(consumer, path, verb) && (verb == GET || verb == POST || verb == PUT || verb == DELETE || verb == PATCH)
    requires pinned.Some? && !Disagrees(pinned.value.document, path, verb) && Offers(pinned.value.document, path, verb)
    requires WellNamed(pinned.value.document.OperationAt(path, verb))
    requires Offers(newDoc, path, verb) ==>
      NoHiddenTightening(pinned.value.document.OperationAt(path, verb), newDoc.OperationAt(path, verb), verb)
    ensures Offers(newDoc, path, verb)
    ensures KeepsClients(pinned.value.document.OperationAt(path, verb), newDoc.OperationAt(path, verb))
  {
    UnbrokenConsumerIsServed(impact, consumer, newVersion, newDoc, pinned, path, verb);
    var oldDoc := pinned.value.document;
    forall f: Finding | !f.EndpointRemoved? && verb in MethodsOf(PassOf(f))
      ensures OperationCount(oldDoc.OperationAt(path, verb), newDoc.OperationAt(path, verb), f) == 0
    {
      var c := BreakingChange(path, verb, f);
      var places := CountIsPlaces(oldDoc, newDoc, c);
      assert places == {};
      assert Count(oldDoc, newDoc, c) == OperationCount(oldDoc.OperationAt(path, verb), newDoc.OperationAt(path, verb), f);
    }
    SilentKeepsClients(oldDoc.OperationAt(path, verb), newDoc.OperationAt(path, verb), verb);
  }
}
