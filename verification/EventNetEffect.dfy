/** What a folded record event says about the record itself: exactly when it has the effect of the raw ops as they are,
  * and exactly when its old values are those from before the ops it stands for.
  */
module EventNetEffect {
  import opened Wrappers
  import opened RawOps
  import opened EventFolding
  import opened EventFoldingLaws

  /* The raw ops on a record, without the builders: a create brings its data, an op without `oi` removes the field. */

  function ApplyField(fields: map<string, Value>, op: FieldOp): map<string, Value> {
    if op.inserted.Undefined? then fields - {op.field} else fields[op.field := op.inserted]
  }

  function ApplyFields(fields: map<string, Value>, ops: seq<FieldOp>): map<string, Value> {
    if ops == [] then fields else ApplyField(ApplyFields(fields, ops[..|ops| - 1]), ops[|ops| - 1])
  }

  function ApplyEdits(doc: Doc, ops: seq<FieldOp>): Doc {
    if doc.None? then None else Some(ApplyFields(doc.value, ops))
  }

  function ApplyRaw(doc: Doc, op: RawOp): Doc {
    match op
    case Create(fields) => Some(fields)
    case Edit(ops) => ApplyEdits(doc, ops)
    case Del => None
    case Unknown => doc
  }

  function ApplyAllRaw(doc: Doc, ops: seq<RawOp>): Doc {
    if ops == [] then doc else ApplyRaw(ApplyAllRaw(doc, ops[..|ops| - 1]), ops[|ops| - 1])
  }

  /* The field operations of all edits from `r` on, one after another. */

  function EditsFrom(ops: seq<RawOp>, r: nat): seq<FieldOp>
    decreases |ops|
  {
    if |ops| <= r then []
    else EditsFrom(ops[..|ops| - 1], r) + if ops[|ops| - 1].Edit? then ops[|ops| - 1].ops else []
  }

  // The last operation on a field.
  function LastOn(edits: seq<FieldOp>, field: string): Option<FieldOp> {
    if edits == [] then None
    else if edits[|edits| - 1].field == field then Some(edits[|edits| - 1])
    else LastOn(edits[..|edits| - 1], field)
  }

  lemma {:induction false} ApplyFieldsConcat(fields: map<string, Value>, a: seq<FieldOp>, b: seq<FieldOp>)
    ensures ApplyFields(fields, a + b) == ApplyFields(ApplyFields(fields, a), b)
  {
    if b == [] {
      assert a + b == a;
    } else {
      assert (a + b)[..|a + b| - 1] == a + b[..|b| - 1];
      ApplyFieldsConcat(fields, a, b[..|b| - 1]);
    }
  }

  lemma {:induction false} ChangesConcat(a: seq<FieldOp>, b: seq<FieldOp>)
    ensures Changes(a + b) == Changes(a) + Changes(b)
  {
    if b == [] {
      assert a + b == a;
    } else {
      assert (a + b)[..|a + b| - 1] == a + b[..|b| - 1];
      ChangesConcat(a, b[..|b| - 1]);
    }
  }

  lemma {:induction false} ChangesAt(edits: seq<FieldOp>, field: string)
    ensures field in Changes(edits) <==> LastOn(edits, field).Some?
    ensures LastOn(edits, field).Some? ==> Changes(edits)[field] == BuildChange(LastOn(edits, field).value)
  {
    if edits != [] {
      ChangesAt(edits[..|edits| - 1], field);
    }
  }

  // What a record holds in a field, Undefined if nothing.
  function Held(fields: map<string, Value>, field: string): Value {
    if field in fields then fields[field] else Undefined
  }

  // A field left alone by the operations holds what it held, a field not left alone what was inserted last.
  lemma {:induction false} FieldsAt(fields: map<string, Value>, edits: seq<FieldOp>, field: string)
    ensures match LastOn(edits, field)
            case None => (field in ApplyFields(fields, edits) <==> field in fields)
                         && (field in fields ==> ApplyFields(fields, edits)[field] == fields[field])
            case Some(op) => if op.inserted.Undefined? then field !in ApplyFields(fields, edits)
                             else field in ApplyFields(fields, edits)
                                  && ApplyFields(fields, edits)[field] == op.inserted
  {
    if edits != [] {
      FieldsAt(fields, edits[..|edits| - 1], field);
    }
  }

  /* The event of a run of ops, by its last reset. */

  // What the event of a record is when its ops since the reset are that reset and these edits.
  function EventFrom(reset: RawOp, edits: seq<FieldOp>): Body
    requires !reset.Unknown?
  {
    match reset
    case Create(_) => Created(NewValues(Changes(edits)))
    case Edit(_) => Edited(Changes(edits))
    case Del => Deleted
  }

  lemma CombinesEdits(reset: RawOp, edits: seq<FieldOp>, more: seq<FieldOp>)
    requires reset.Create? || reset.Edit?
    ensures CombineBodies(EventFrom(reset, edits), Edited(Changes(more))) == EventFrom(reset, edits + more)
  {
    ChangesConcat(edits, more);
    assert NewValues(Changes(edits)) + NewValues(Changes(more)) == NewValues(Changes(edits) + Changes(more));
  }

  // After a delete nothing but another reset follows.
  lemma DeleteIsLast(ops: seq<RawOp>, r: nat)
    requires IsLastReset(ops, r) && Known(ops) && ops[r].Del?
    ensures r == |ops| - 1
  {
    if r < |ops| - 1 {
      assert IsReset(ops, r + 1);
    }
  }

  lemma FoldAtReset(id: DocId, ops: seq<RawOp>)
    requires id.docType.Record? && ops != [] && Known(ops) && IsLastReset(ops, |ops| - 1)
    ensures FoldBody(id, ops) == EventFrom(ops[|ops| - 1], EditsFrom(ops, |ops| - 1))
  {
    var n := |ops| - 1;
    assert EditsFrom(ops[..n], n) == [];
    if ops[n].Edit? {
      assert [] + ops[n].ops == ops[n].ops;
      if n > 0 {
        FoldAfterDelete(id, ops);
      }
    }
  }

  // Without an edit that follows it the reset is the last one all the same, and no delete.
  lemma StillReset(ops: seq<RawOp>, r: nat)
    requires Known(ops) && IsLastReset(ops, r) && r < |ops| - 1
    ensures IsLastReset(ops[..|ops| - 1], r) && Known(ops[..|ops| - 1])
    ensures ops[|ops| - 1].Edit? && ops[..|ops| - 1][r] == ops[r] && !ops[r].Del?
  {
    var n := |ops| - 1;
    assert !IsReset(ops, n);
    assert forall k :: 0 <= k < n ==> (IsReset(ops[..n], k) <==> IsReset(ops, k));
    if ops[r].Del? {
      DeleteIsLast(ops, r);
    }
  }

  lemma FoldNext(id: DocId, ops: seq<RawOp>, r: nat)
    requires id.docType.Record? && r < |ops| - 1 && ops[|ops| - 1].Edit? && (ops[r].Create? || ops[r].Edit?)
    requires FoldBody(id, ops[..|ops| - 1]) == EventFrom(ops[r], EditsFrom(ops[..|ops| - 1], r))
    ensures FoldBody(id, ops) == EventFrom(ops[r], EditsFrom(ops, r))
  {
    CombinesEdits(ops[r], EditsFrom(ops[..|ops| - 1], r), ops[|ops| - 1].ops);
  }

  lemma {:induction false} FoldIsFromReset(id: DocId, ops: seq<RawOp>, r: nat)
    requires id.docType.Record? && Known(ops) && IsLastReset(ops, r)
    ensures FoldBody(id, ops) == EventFrom(ops[r], EditsFrom(ops, r))
    decreases |ops|
  {
    var n := |ops| - 1;
    if r == n {
      FoldAtReset(id, ops);
    } else {
      var shorter := ops[..n];
      StillReset(ops, r);
      FoldIsFromReset(id, shorter, r);
      FoldNext(id, ops, r);
    }
  }

  // What the record is right after the reset, the edits of the reset not yet applied.
  function Base(doc: Doc, reset: RawOp): Doc {
    match reset
    case Create(fields) => Some(fields)
    case Edit(_) => doc
    case Del => None
    case Unknown => doc
  }

  lemma {:induction false} RawFromReset(doc: Doc, ops: seq<RawOp>, r: nat)
    requires Known(ops) && IsLastReset(ops, r)
    ensures ApplyAllRaw(doc, ops) == ApplyEdits(Base(ApplyAllRaw(doc, ops[..r]), ops[r]), EditsFrom(ops, r))
    decreases |ops|
  {
    var n := |ops| - 1;
    if r == n {
      assert EditsFrom(ops[..n], r) == [];
      if ops[n].Edit? {
        assert [] + ops[n].ops == ops[n].ops;
      }
    } else {
      var shorter := ops[..n];
      StillReset(ops, r);
      assert shorter[..r] == ops[..r];
      RawFromReset(doc, shorter, r);
      var base := Base(ApplyAllRaw(doc, ops[..r]), ops[r]);
      if base.Some? {
        ApplyFieldsConcat(base.value, EditsFrom(shorter, r), ops[n].ops);
      }
    }
  }

  // The builder writes this value as it is, instead of turning it into null.
  predicate Plain(v: Value) {
    v.Null? || v.Cell?
  }

  // Every field's last operation inserts a value the builder keeps.
  ghost predicate WritesPlainly(edits: seq<FieldOp>) {
    forall field :: LastOn(edits, field).Some? ==> Plain(LastOn(edits, field).value.inserted)
  }

  // Every field the create brings is written again later.
  predicate CreateDataOverwritten(reset: RawOp, edits: seq<FieldOp>) {
    reset.Create? ==> forall field :: field in reset.fields ==> LastOn(edits, field).Some?
  }

  lemma NewValueKept(op: FieldOp)
    ensures !BuildChange(op).newValue.Undefined?
    ensures BuildChange(op).newValue == op.inserted <==> Plain(op.inserted)
  {
  }

  // The effect of an event on a record that exists, against that of the ops it stands for.
  lemma EffectIff(base: map<string, Value>, other: map<string, Value>, edits: seq<FieldOp>)
    ensures base + NewValues(Changes(edits)) == ApplyFields(other, edits)
            <==> WritesPlainly(edits)
                 && forall field :: LastOn(edits, field).None? ==>
                      (field in base <==> field in other) && (field in base ==> base[field] == other[field])
  {
    var event, raw := base + NewValues(Changes(edits)), ApplyFields(other, edits);
    forall field
      ensures ((field in event <==> field in raw) && (field in event ==> event[field] == raw[field]))
              <==> match LastOn(edits, field)
                   case None => (field in base <==> field in other) && (field in base ==> base[field] == other[field])
                   case Some(op) => Plain(op.inserted)
    {
      ChangesAt(edits, field);
      FieldsAt(other, edits, field);
      if LastOn(edits, field).Some? {
        NewValueKept(LastOn(edits, field).value);
      }
    }
    MapsEqualIff(event, raw);
  }

  lemma MapsEqualIff(a: map<string, Value>, b: map<string, Value>)
    ensures a == b <==> forall key :: (key in a <==> key in b) && (key in a ==> a[key] == b[key])
  {
    if forall key :: (key in a <==> key in b) && (key in a ==> a[key] == b[key]) {
      assert a == b;
    }
  }

  /** A record's event has the effect of the raw ops since the last reset if and only if no record results, or each
    * field's last operation inserts a value the builder keeps and every field a create brings is written again. */
  lemma NetEffectIff(id: DocId, ops: seq<RawOp>, r: nat, doc: Doc)
    requires id.docType.Record? && Known(ops) && IsLastReset(ops, r)
    ensures ApplyEvent(ApplyAllRaw(doc, ops[..r]), FoldBody(id, ops)) == ApplyAllRaw(doc, ops)
            <==> ApplyAllRaw(doc, ops).None?
                 || (WritesPlainly(EditsFrom(ops, r)) && CreateDataOverwritten(ops[r], EditsFrom(ops, r)))
  {
    var edits, start := EditsFrom(ops, r), ApplyAllRaw(doc, ops[..r]);
    FoldIsFromReset(id, ops, r);
    RawFromReset(doc, ops, r);
    match ops[r]
    case Create(fields) =>
      EffectIff(map[], fields, edits);
      assert map[] + NewValues(Changes(edits)) == NewValues(Changes(edits));
    case Edit(_) =>
      if start.Some? {
        EffectIff(start.value, start.value, edits);
      }
    case Del =>
      DeleteIsLast(ops, r);
  }

  /** The same for the one event a record gets from a whole batch, whatever the batch holds for other documents. */
  lemma BatchNetEffectIff(entries: seq<Entry>, id: DocId, r: nat, doc: Doc)
    requires id.docType.Record? && id in FeedAll(EMPTY, entries).events && IsLastReset(OpsOf(entries, id), r)
    ensures var ops, event := OpsOf(entries, id), FeedAll(EMPTY, entries).events[id];
            ApplyEvent(ApplyAllRaw(doc, ops[..r]), event.body) == ApplyAllRaw(doc, ops)
            <==> ApplyAllRaw(doc, ops).None?
                 || (WritesPlainly(EditsFrom(ops, r)) && CreateDataOverwritten(ops[r], EditsFrom(ops, r)))
  {
    OneEventPerDocument(entries, id);
    OpsOfKnown(entries, id);
    NetEffectIff(id, OpsOf(entries, id), r, doc);
  }

  /* Old values. */

  // No distinction is made between a missing field and a null one.
  predicate Same(a: Value, b: Value) {
    a == b || (Nullish(a) && Nullish(b))
  }

  function HeldIn(doc: Doc, field: string): Value {
    if doc.None? then Undefined else Held(doc.value, field)
  }

  // Each operation's `od` is what its field held before it.
  predicate TellsTheTruth(doc: Doc, edits: seq<FieldOp>) {
    forall k :: 0 <= k < |edits| ==> Same(edits[k].deleted, HeldIn(ApplyEdits(doc, edits[..k]), edits[k].field))
  }

  // The place of the last operation on a field.
  predicate LastAt(edits: seq<FieldOp>, field: string, k: nat) {
    k < |edits| && edits[k].field == field && forall j :: k < j < |edits| ==> edits[j].field != field
  }

  lemma {:induction false} LastOnIsAt(edits: seq<FieldOp>, field: string) returns (k: nat)
    requires LastOn(edits, field).Some?
    ensures LastAt(edits, field, k) && LastOn(edits, field) == Some(edits[k])
  {
    var n := |edits| - 1;
    if edits[n].field == field {
      k := n;
    } else {
      k := LastOnIsAt(edits[..n], field);
    }
  }

  lemma OldValueKept(op: FieldOp)
    ensures Same(BuildChange(op).oldValue, op.deleted)
  {
  }

  /** When the ops tell old values truly, a merged edit's old value of a field is the one from before all its ops if and
    * only if the field held that same value just before its last edit: it was edited once, or had been changed back. */
  lemma OldValueIsTheFirstIff(id: DocId, ops: seq<RawOp>, r: nat, doc: Doc, field: string)
    requires id.docType.Record? && Known(ops) && IsLastReset(ops, r) && ops[r].Edit?
    requires TellsTheTruth(ApplyAllRaw(doc, ops[..r]), EditsFrom(ops, r))
    ensures FoldBody(id, ops).Edited?
    ensures field in FoldBody(id, ops).changes <==> exists k :: LastAt(EditsFrom(ops, r), field, k)
    ensures forall k: nat :: LastAt(EditsFrom(ops, r), field, k) ==>
              OldValueRule(FoldBody(id, ops).changes, ApplyAllRaw(doc, ops[..r]), EditsFrom(ops, r), field, k)
  {
    var edits, start := EditsFrom(ops, r), ApplyAllRaw(doc, ops[..r]);
    FoldIsFromReset(id, ops, r);
    ChangesAt(edits, field);
    if LastOn(edits, field).Some? {
      var at := LastOnIsAt(edits, field);
      OldValueKept(edits[at]);
      assert Same(edits[at].deleted, HeldIn(ApplyEdits(start, edits[..at]), field));
      forall k: nat | LastAt(edits, field, k) ensures OldValueRule(Changes(edits), start, edits, field, k) {
        assert k == at;
      }
    } else {
      forall k: nat ensures !LastAt(edits, field, k) {
        if LastAt(edits, field, k) {
          LastOnFound(edits, field, k);
        }
      }
    }
  }

  ghost predicate OldValueRule(changes: map<string, Change>, start: Doc, edits: seq<FieldOp>, field: string, k: nat)
    requires k < |edits|
  {
    && field in changes
    && (Same(changes[field].oldValue, HeldIn(start, field))
        <==> Same(HeldIn(ApplyEdits(start, edits[..k]), field), HeldIn(start, field)))
  }

  lemma {:induction false} LastOnFound(edits: seq<FieldOp>, field: string, k: nat)
    requires k < |edits| && edits[k].field == field
    ensures LastOn(edits, field).Some?
  {
    var n := |edits| - 1;
    if k < n && edits[n].field != field {
      LastOnFound(edits[..n], field, k);
    }
  }

  /** So it is whenever the field was edited once. */
  lemma EditedOnceTellsTheFirst(id: DocId, ops: seq<RawOp>, r: nat, doc: Doc, field: string, k: nat)
    requires id.docType.Record? && Known(ops) && IsLastReset(ops, r) && ops[r].Edit?
    requires TellsTheTruth(ApplyAllRaw(doc, ops[..r]), EditsFrom(ops, r))
    requires LastAt(EditsFrom(ops, r), field, k)
    requires forall j :: 0 <= j < k ==> EditsFrom(ops, r)[j].field != field
    ensures FoldBody(id, ops).Edited? && field in FoldBody(id, ops).changes
    ensures Same(FoldBody(id, ops).changes[field].oldValue, HeldIn(ApplyAllRaw(doc, ops[..r]), field))
  {
    var edits, start := EditsFrom(ops, r), ApplyAllRaw(doc, ops[..r]);
    OldValueIsTheFirstIff(id, ops, r, doc, field);
    assert OldValueRule(FoldBody(id, ops).changes, start, edits, field, k);
    if start.Some? {
      FieldsAt(start.value, edits[..k], field);
      if LastOn(edits[..k], field).Some? {
        var j := LastOnIsAt(edits[..k], field);
        assert false;
      }
    }
  }
}
