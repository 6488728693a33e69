/**
 When the order in which Go visits its maps shows in the engine's reports: only where the media types of an
 old body disagree on a property's type, and then only if some type the new body gives it is a change.
 */
module MapOrder {
  import opened Prelude
  import opened OpenApi
  import opened BreakingChanges
  import opened CompatibilityEngine

  /** No new type of a property is a change from one of several old types. */
  ghost predicate OrderBlind(oldContent: Content, content: Content) {
    forall f, t, t', n | SomewhereTyped(oldContent, f, t) && SomewhereTyped(oldContent, f, t') && t != t' && SomewhereTyped(content, f, n) ::
      !Changed(t, n)
  }

  ghost predicate AllOrderBlind(oldDoc: Document, newDoc: Document) {
    forall path, verb | verb in CHECKED_METHODS && oldDoc.Serves(path, verb) && newDoc.Serves(path, verb) ::
      OrderBlind(ContentOf(oldDoc.OperationAt(path, verb).requestBody), ContentOf(newDoc.OperationAt(path, verb).requestBody))
  }

  // ---- One body ---------------------------------------------------------------------------

  lemma {:induction false} SomeVisit(media: set<string>) returns (order: seq<string>)
    ensures (forall mt :: mt in order <==> mt in media) && forall i, j | 0 <= i < j < |order| :: order[i] != order[j]
  {
    if media == {} {
      order := [];
    } else {
      var mt :| mt in media;
      var rest := SomeVisit(media - {mt});
      order := rest + [mt];
    }
  }

  /** Any media type may be the last to be visited, and then its types are the table's. */
  lemma VisitEndingIn(content: Content, mt: string, f: string, t: string) returns (order: seq<string>)
    requires FieldHasType(content, mt, f, t)
    ensures Visits(content, order) && f in TypesAlong(content, order) && TypesAlong(content, order)[f] == t
  {
    var rest := SomeVisit(content.Keys - {mt});
    order := rest + [mt];
    assert order[..|order| - 1] == rest;
    assert f in TypesIn(content, mt) && TypesIn(content, mt)[f] == t;
  }

  lemma TypedIsCounted(content: Content, f: string, n: string)
    ensures |TypedMedia(content, content.Keys, f, n)| > 0 <==> SomewhereTyped(content, f, n)
  {
    if mt :| mt in content && FieldHasType(content, mt, f, n) {
      assert mt in TypedMedia(content, content.Keys, f, n);
    }
    if |TypedMedia(content, content.Keys, f, n)| > 0 {
      var mt :| mt in TypedMedia(content, content.Keys, f, n);
    }
  }

  lemma BlindCounts(oldContent: Content, content: Content, order: seq<string>, order': seq<string>, finding: Finding)
    requires OrderBlind(oldContent, content) && Visits(oldContent, order) && Visits(oldContent, order')
    ensures MovedCount(oldContent, content, order, finding) <= MovedCount(oldContent, content, order', finding)
  {
    if MovedCount(oldContent, content, order, finding) > 0 {
      var f := finding.field;
      TypedIsCounted(content, f, finding.newType);
      TypesAlongAreTyped(oldContent, order);
      TypesAlongAreTyped(oldContent, order');
      assert SomewhereTyped(oldContent, f, finding.oldType);
      var mt :| mt in oldContent && FieldHasType(oldContent, mt, f, finding.oldType);
      assert mt in order';
      assert SomewhereTyped(oldContent, f, TypesAlong(oldContent, order')[f]);
    }
  }

  /** The reports due on two bodies are the same for all visiting orders exactly when no change hangs on a disagreement. */
  lemma CountsIgnoreOrderIff(oldContent: Content, content: Content)
    ensures (forall order, order', finding | Visits(oldContent, order) && Visits(oldContent, order') ::
               MovedCount(oldContent, content, order, finding) == MovedCount(oldContent, content, order', finding))
       <==> OrderBlind(oldContent, content)
  {
    if OrderBlind(oldContent, content) {
      forall order, order', finding | Visits(oldContent, order) && Visits(oldContent, order')
        ensures MovedCount(oldContent, content, order, finding) == MovedCount(oldContent, content, order', finding)
      {
        BlindCounts(oldContent, content, order, order', finding);
        BlindCounts(oldContent, content, order', order, finding);
      }
    } else {
      var f, t, t', n :| SomewhereTyped(oldContent, f, t) && SomewhereTyped(oldContent, f, t') && t != t'
                         && SomewhereTyped(content, f, n) && Changed(t, n);
      var mt :| mt in oldContent && FieldHasType(oldContent, mt, f, t);
      var mt' :| mt' in oldContent && FieldHasType(oldContent, mt', f, t');
      var order := VisitEndingIn(oldContent, mt, f, t);
      var order' := VisitEndingIn(oldContent, mt', f, t');
      TypedIsCounted(content, f, n);
      assert MovedCount(oldContent, content, order, BodyFieldTypeChanged(f, t, n)) > 0;
      assert MovedCount(oldContent, content, order', BodyFieldTypeChanged(f, t, n)) == 0;
    }
  }

  // ---- Whole documents --------------------------------------------------------------------

  lemma OrderedCountsAgree(changes: seq<BreakingChange>, changes': seq<BreakingChange>, oldOp: Operation, newOp: Operation, c: BreakingChange)
    requires Ordered(changes, oldOp, newOp, c.path, c.verb) && Ordered(changes', oldOp, newOp, c.path, c.verb)
    requires oldOp.requestBody.Some? && newOp.requestBody.Some? && c.finding.BodyFieldTypeChanged?
    requires OrderBlind(oldOp.requestBody.value.content, newOp.requestBody.value.content)
    ensures multiset(changes)[c] == multiset(changes')[c]
  {
    var old', new' := oldOp.requestBody.value.content, newOp.requestBody.value.content;
    var order :| MovedAlong(changes, old', new', order, c.path, c.verb);
    var order' :| MovedAlong(changes', old', new', order', c.path, c.verb);
    CountsIgnoreOrderIff(old', new');
  }

  /** Two runs of the engine, whatever order Go visited its maps in, report the same multiset. */
  lemma ReportsIgnoreMapOrder(changes: seq<BreakingChange>, changes': seq<BreakingChange>, oldDoc: Document, newDoc: Document)
    requires Complete(changes, oldDoc, newDoc) && Complete(changes', oldDoc, newDoc)
    requires AllOrderBlind(oldDoc, newDoc)
    ensures multiset(changes) == multiset(changes')
  {
    forall c ensures multiset(changes)[c] == multiset(changes')[c] {
      assert Settled(multiset(changes)[c], Count(oldDoc, newDoc, c), PinnedAt(oldDoc, c));
      assert Settled(multiset(changes')[c], Count(oldDoc, newDoc, c), PinnedAt(oldDoc, c));
      if c.finding.BodyFieldTypeChanged? && c.verb in CHECKED_METHODS && oldDoc.Serves(c.path, c.verb) && newDoc.Serves(c.path, c.verb) {
        assert OrderedAt(changes, oldDoc, newDoc, c.path, c.verb) && OrderedAt(changes', oldDoc, newDoc, c.path, c.verb);
        var a, b := oldDoc.OperationAt(c.path, c.verb), newDoc.OperationAt(c.path, c.verb);
        if a.requestBody.Some? && b.requestBody.Some? {
          OrderedCountsAgree(changes, changes', a, b, c);
        } else {
          NothingMovesWithoutBody(a, b, c.finding);
        }
      }
    }
  }

  lemma NothingMovesWithoutBody(oldOp: Operation, newOp: Operation, finding: Finding)
    requires finding.BodyFieldTypeChanged? && (oldOp.requestBody.None? || newOp.requestBody.None?)
    ensures OperationCount(oldOp, newOp, finding) == 0
  {
    NoParameterShows(oldOp.parameters, newOp.parameters, finding);
    var none: Content, field, newType := map[], finding.field, finding.newType;
    assert (set mt | mt in none && FieldHasType(none, mt, field, newType)) == {};
  }

  /** Agreeing media types are always enough. */
  lemma AgreeingIsBlind(oldDoc: Document, newDoc: Document)
    requires AgreeingMedia(oldDoc)
    ensures AllOrderBlind(oldDoc, newDoc)
  {
    forall path, verb | verb in CHECKED_METHODS && oldDoc.Serves(path, verb) && newDoc.Serves(path, verb)
      ensures OrderBlind(ContentOf(oldDoc.OperationAt(path, verb).requestBody), ContentOf(newDoc.OperationAt(path, verb).requestBody))
    {
      assert AgreeingContent(ContentOf(oldDoc.OperationAt(path, verb).requestBody));
    }
  }
}
