/** What a folded record event means: it starts at the document's last reset, carries the outcome of everything since,
  * and applied to the document as it was before that reset it gives the document as it is in the end.
  */
module EventFoldingLaws {
  import opened Wrappers
  import opened RawOps
  import opened EventFolding

  // A record as the ops see it: missing, or a value per field.
  type Doc = Option<map<string, Value>>

  function ApplyFieldOps(fields: map<string, Value>, ops: seq<FieldOp>): map<string, Value> {
    if ops == [] then fields
    else ApplyFieldOps(fields, ops[..|ops| - 1])[ops[|ops| - 1].field := BuildChange(ops[|ops| - 1]).newValue]
  }

  function Apply(doc: Doc, op: RawOp): Doc {
    match op
    case Create(_) => Some(map[])
    case Edit(ops) => if doc.None? then None else Some(ApplyFieldOps(doc.value, ops))
    case Del => None
    case Unknown => doc
  }

  function ApplyAll(doc: Doc, ops: seq<RawOp>): Doc {
    if ops == [] then doc else Apply(ApplyAll(doc, ops[..|ops| - 1]), ops[|ops| - 1])
  }

  // What a listener does who takes the event for the truth.
  function ApplyEvent(doc: Doc, body: Body): Doc {
    match body
    case Created(fields) => Some(fields)
    case Edited(changes) => if doc.None? then None else Some(doc.value + NewValues(changes))
    case Deleted => None
    case Other(_) => doc
  }

  // An op that does not build on what the batch did before it.
  predicate IsReset(ops: seq<RawOp>, k: nat)
    requires k < |ops|
  {
    k == 0 || !ops[k].Edit? || ops[k - 1].Del?
  }

  predicate IsLastReset(ops: seq<RawOp>, r: nat) {
    r < |ops| && IsReset(ops, r) && forall k :: r < k < |ops| ==> !IsReset(ops, k)
  }

  // The last change the ops since `r` make to a field.
  function LastChange(ops: seq<RawOp>, r: nat, field: string): Option<Change>
    requires r <= |ops|
    decreases |ops|
  {
    if |ops| == r then None
    else match ops[|ops| - 1]
      case Edit(fieldOps) =>
        if field in Changes(fieldOps) then Some(Changes(fieldOps)[field]) else LastChange(ops[..|ops| - 1], r, field)
      case _ => LastChange(ops[..|ops| - 1], r, field)
  }

  lemma {:induction false} NewValuesApply(fields: map<string, Value>, ops: seq<FieldOp>)
    ensures ApplyFieldOps(fields, ops) == fields + NewValues(Changes(ops))
  {
    if ops != [] {
      NewValuesApply(fields, ops[..|ops| - 1]);
    }
  }

  predicate Known(ops: seq<RawOp>) {
    forall k :: 0 <= k < |ops| ==> !ops[k].Unknown?
  }

  ghost predicate LastChangeIs(ops: seq<RawOp>, r: nat, changes: map<string, Change>)
    requires r <= |ops|
  {
    forall f :: LastChange(ops, r, f) == if f in changes then Some(changes[f]) else None
  }

  // `body` is the right event for `ops`, whose last reset is at `r`, on a document that was `doc`.
  ghost predicate Refines(body: Body, ops: seq<RawOp>, r: nat, doc: Doc)
    requires r < |ops|
  {
    && ApplyEvent(ApplyAll(doc, ops[..r]), body) == ApplyAll(doc, ops)
    && match body
       case Created(fields) => ops[r].Create? && ApplyAll(doc, ops) == Some(fields)
       case Edited(changes) => ops[r].Edit? && LastChangeIs(ops, r, changes)
       case Deleted => ops[r].Del?
       case Other(_) => false
  }

  lemma EditApplies(doc: Doc, op: RawOp)
    requires op.Edit?
    ensures Apply(doc, op) == ApplyEvent(doc, Edited(Changes(op.ops)))
  {
    if doc.Some? {
      NewValuesApply(doc.value, op.ops);
    }
  }

  lemma RefinesAtReset(id: DocId, ops: seq<RawOp>, doc: Doc)
    requires id.docType.Record? && ops != [] && Known(ops)
    ensures Refines(BodyOf(id, ops[|ops| - 1]), ops, |ops| - 1, doc)
  {
    var n := |ops| - 1;
    if ops[n].Edit? {
      EditApplies(ApplyAll(doc, ops[..n]), ops[n]);
      var changes := Changes(ops[n].ops);
      forall f ensures LastChange(ops, n, f) == if f in changes then Some(changes[f]) else None {
        assert LastChange(ops[..n], n, f) == None;
      }
    }
  }

  lemma LaterWins(fields: map<string, Value>, first: map<string, Change>, second: map<string, Change>)
    ensures fields + NewValues(first) + NewValues(second) == fields + NewValues(first + second)
  {
  }

  lemma RefinesExtended(body: Body, ops: seq<RawOp>, r: nat, doc: Doc)
    requires r < |ops| - 1 && ops[|ops| - 1].Edit?
    requires Refines(body, ops[..|ops| - 1], r, doc) && !body.Deleted?
    ensures Refines(CombineBodies(body, Edited(Changes(ops[|ops| - 1].ops))), ops, r, doc)
  {
    var n := |ops| - 1;
    var changes := Changes(ops[n].ops);
    var start := ApplyAll(doc, ops[..r]);
    assert ops[..n][..r] == ops[..r];
    EditApplies(ApplyAll(doc, ops[..n]), ops[n]);
    if body.Edited? && start.Some? {
      LaterWins(start.value, body.changes, changes);
    }
  }

  lemma {:induction false} FoldFromReset(id: DocId, ops: seq<RawOp>, r: nat, doc: Doc)
    requires id.docType.Record? && Known(ops) && IsLastReset(ops, r)
    ensures Refines(FoldBody(id, ops), ops, r, doc)
    decreases |ops|
  {
    var n := |ops| - 1;
    if r == n {
      RefinesAtReset(id, ops, doc);
      if r > 0 && ops[n].Edit? {
        FoldAfterDelete(id, ops);
      }
    } else {
      var shorter := ops[..n];
      assert !IsReset(ops, n);
      assert forall k :: 0 <= k < n ==> (IsReset(shorter, k) <==> IsReset(ops, k));
      FoldFromReset(id, shorter, r, doc);
      DeletedMeansDel(id, shorter);
      RefinesExtended(FoldBody(id, shorter), ops, r, doc);
    }
  }

  lemma DeletedMeansDel(id: DocId, ops: seq<RawOp>)
    requires id.docType.Record? && ops != [] && Known(ops)
    ensures FoldBody(id, ops).Deleted? <==> ops[|ops| - 1].Del?
  {
    if |ops| > 1 && ops[|ops| - 1].Edit? {
      DeletedMeansDel(id, ops[..|ops| - 1]);
    }
  }

  lemma FoldAfterDelete(id: DocId, ops: seq<RawOp>)
    requires id.docType.Record? && Known(ops) && |ops| > 1 && ops[|ops| - 2].Del?
    ensures FoldBody(id, ops) == BodyOf(id, ops[|ops| - 1])
  {
    DeletedMeansDel(id, ops[..|ops| - 1]);
  }

  lemma LastResetExists(ops: seq<RawOp>) returns (r: nat)
    requires ops != []
    ensures IsLastReset(ops, r)
  {
    r := |ops| - 1;
    while !IsReset(ops, r)
      invariant r < |ops| && forall k :: r < k < |ops| ==> !IsReset(ops, k)
      decreases r
    {
      r := r - 1;
    }
  }

  /** Folding refines sequential application.  There is a last reset; the event has its type; a create carries exactly
    * the fields the record ends with; an edit carries, for exactly the fields edited since, the last change made; and
    * the event has the net effect of all ops since the reset, whatever the record was before the batch. */
  lemma FoldingRefinesApplication(id: DocId, ops: seq<RawOp>, doc: Doc)
    requires id.docType.Record? && ops != [] && Known(ops)
    ensures exists r: nat :: IsLastReset(ops, r)
              && (var body := FoldBody(id, ops);
                  && TypeMatches(GetOpType(ops[r]).value, body)
                  && ApplyEvent(ApplyAll(doc, ops[..r]), body) == ApplyAll(doc, ops)
                  && (body.Created? ==> ApplyAll(doc, ops) == Some(body.fields))
                  && (body.Edited? ==> LastChangeIs(ops, r, body.changes)))
  {
    var r := LastResetExists(ops);
    FoldFromReset(id, ops, r, doc);
    assert IsLastReset(ops, r);
  }

  lemma {:induction false} OpsOfKnown(entries: seq<Entry>, id: DocId)
    ensures Known(OpsOf(entries, id))
  {
    if entries != [] {
      OpsOfKnown(entries[..|entries| - 1], id);
    }
  }

  /** The same for a whole batch: the one event a record gets has the net effect, since its last reset, of the ops the
    * batch holds for it, whatever the batch holds for other documents in between. */
  lemma BatchEventRefinesOps(entries: seq<Entry>, id: DocId, doc: Doc)
    requires id.docType.Record? && id in FeedAll(EMPTY, entries).events
    ensures var ops := OpsOf(entries, id);
            && ops != []
            && exists r: nat :: IsLastReset(ops, r)
                 && (var event := FeedAll(EMPTY, entries).events[id];
                     && Some(event.rawOpType) == GetOpType(ops[r])
                     && ApplyEvent(ApplyAll(doc, ops[..r]), event.body) == ApplyAll(doc, ops))
  {
    OneEventPerDocument(entries, id);
    OpsOfKnown(entries, id);
    FoldingRefinesApplication(id, OpsOf(entries, id), doc);
  }

  lemma ChangesOfOne(op: FieldOp)
    ensures Changes([op]) == map[op.field := BuildChange(op)]
  {
    assert [op][..0] == [];
  }

  /** A merged edit's `oldValue` need not be the value from before the batch, even when the ops follow on one another:
    * with a to b and b to c in one batch, the event says b. */
  lemma MergedOldValueIsNotTheFirst(id: DocId)
    requires id.docType.Record?
    ensures exists first: FieldOp, second: FieldOp ::
              && first.field == second.field && first.inserted == second.deleted
              && (var body := FoldBody(id, [Edit([first]), Edit([second])]);
                  && body.Edited? && first.field in body.changes
                  && body.changes[first.field].newValue == BuildChange(second).newValue
                  && body.changes[first.field].oldValue != BuildChange(first).oldValue)
  {
    var first, second := FieldOp("f", Cell("b"), Cell("a")), FieldOp("f", Cell("c"), Cell("b"));
    var ops := [Edit([first]), Edit([second])];
    assert ops[..1] == [Edit([first])];
    ChangesOfOne(first);
    ChangesOfOne(second);
    assert FoldBody(id, ops) == Edited(Changes([first]) + Changes([second]));
  }
}
