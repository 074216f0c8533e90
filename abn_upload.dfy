/**
 * The batching loop of `upload_to_supabase` in scripts/ingestion/abn_data.py.
 *
 * The records are cut into consecutive batches; each batch is fanned out into
 * one row list per table, every child row tagged with its record's ABN; then a
 * fixed sequence of table operations runs: upserts keyed by ABN, a delete of the
 * batch's DGR and other-name rows, and the inserts of the new ones. The tables
 * are a value (`Tables`); whether an `execute()` call succeeds is an oracle
 * `ok(batch, statement)`. The first failing call ends the upload with False,
 * leaving the effects of the calls before it in place.
 */
module AbnUpload {
  import opened Wrappers
  import opened AbnParse

  /** A child-table row: the parent ABN and the sub-record's columns. */
  datatype Row<T> = Row(abn: string, data: T)

  /** The eight per-table lists built for one batch. */
  datatype BatchRows = BatchRows(
    abnRows: seq<AbnRecord>,
    mainRows: seq<Row<NameData>>,
    legalRows: seq<Row<LegalEntityData>>,
    asicRows: seq<Row<string>>,
    gstRows: seq<Row<GstData>>,
    dgrRows: seq<Row<DgrEntry>>,
    otherRows: seq<Row<NameData>>,
    addressRows: seq<Row<AddressData>>)

  const NoRows: BatchRows := BatchRows([], [], [], [], [], [], [], [])

  /** Table by table concatenation. */
  function Plus(a: BatchRows, b: BatchRows): BatchRows
  {
    BatchRows(a.abnRows + b.abnRows, a.mainRows + b.mainRows, a.legalRows + b.legalRows,
              a.asicRows + b.asicRows, a.gstRows + b.gstRows, a.dgrRows + b.dgrRows,
              a.otherRows + b.otherRows, a.addressRows + b.addressRows)
  }

  /** `[{'abn': abn, **e} for e in entries]`. */
  function Tagged<T>(abn: string, entries: seq<T>): (r: seq<Row<T>>)
    ensures |r| == |entries|
    ensures forall k :: 0 <= k < |r| ==> r[k] == Row(abn, entries[k])
  {
    seq(|entries|, k requires 0 <= k < |entries| => Row(abn, entries[k]))
  }

  /** `[{'abn': abn, **x}] if x else []` for a dictionary-or-None sub-record: a row exactly when it is present. */
  function OptionRows<T>(abn: string, x: Option<T>): (r: seq<Row<T>>)
    ensures |r| == (if x.Some? then 1 else 0)
    ensures forall k :: 0 <= k < |r| ==> r[k] == Row(abn, x.value)
  {
    if x.Some? then [Row(abn, x.value)] else []
  }

  /** Python truthiness of a str-or-None column: a row is written only for a non-empty string. */
  predicate Truthy(s: Option<string>)
  {
    s.Some? && s.value != ""
  }

  /** Every child row of `rows` carries one of the ABNs `abns`. */
  predicate ChildAbnsIn(rows: BatchRows, abns: seq<string>)
  {
    && (forall k :: 0 <= k < |rows.mainRows| ==> rows.mainRows[k].abn in abns)
    && (forall k :: 0 <= k < |rows.legalRows| ==> rows.legalRows[k].abn in abns)
    && (forall k :: 0 <= k < |rows.asicRows| ==> rows.asicRows[k].abn in abns)
    && (forall k :: 0 <= k < |rows.gstRows| ==> rows.gstRows[k].abn in abns)
    && (forall k :: 0 <= k < |rows.dgrRows| ==> rows.dgrRows[k].abn in abns)
    && (forall k :: 0 <= k < |rows.otherRows| ==> rows.otherRows[k].abn in abns)
    && (forall k :: 0 <= k < |rows.addressRows| ==> rows.addressRows[k].abn in abns)
  }

  /**
   * The rows one record contributes: exactly one `abn_records` row, a row per
   * optional sub-record that is present (the ASIC number only when it is a
   * non-empty string), and one row per DGR entry and per other name, each
   * child row tagged with the record's ABN.
   */
  function RecordRows(r: ParsedRecord): (rows: BatchRows)
    ensures rows.abnRows == [r.abnRecord]
    ensures ChildAbnsIn(rows, [r.abnRecord.abn])
    ensures |rows.mainRows| == (if r.mainEntity.Some? then 1 else 0)
    ensures |rows.legalRows| == (if r.legalEntity.Some? then 1 else 0)
    ensures |rows.asicRows| == (if Truthy(r.asicNumber) then 1 else 0)
    ensures |rows.gstRows| == (if r.gstRegistration.Some? then 1 else 0)
    ensures |rows.addressRows| == (if r.businessAddress.Some? then 1 else 0)
    ensures |rows.dgrRows| == (if r.dgrEntries.Some? then |r.dgrEntries.value| else 0)
    ensures |rows.otherRows| == (if r.otherEntityNames.Some? then |r.otherEntityNames.value| else 0)
  {
    var abn := r.abnRecord.abn;
    BatchRows(
      [r.abnRecord],
      OptionRows(abn, r.mainEntity),
      OptionRows(abn, r.legalEntity),
      OptionRows(abn, if Truthy(r.asicNumber) then r.asicNumber else None),
      OptionRows(abn, r.gstRegistration),
      Tagged(abn, GetOr(r.dgrEntries, [])),
      Tagged(abn, GetOr(r.otherEntityNames, [])),
      OptionRows(abn, r.businessAddress))
  }

  /** `abns_in_batch`. */
  function AbnsInBatch(batch: seq<ParsedRecord>): (abns: seq<string>)
    ensures |abns| == |batch|
    ensures forall k :: 0 <= k < |batch| ==> abns[k] == batch[k].abnRecord.abn
  {
    seq(|batch|, k requires 0 <= k < |batch| => batch[k].abnRecord.abn)
  }

  /** The rows of a whole batch, record after record. */
  function FanOut(batch: seq<ParsedRecord>): BatchRows
  {
    if |batch| == 0 then NoRows
    else Plus(FanOut(batch[..|batch| - 1]), RecordRows(batch[|batch| - 1]))
  }

  /** A batch gives one `abn_records` row per record, in order, and no child row whose ABN is not one of the batch's. */
  lemma {:induction false} FanOutShape(batch: seq<ParsedRecord>)
    ensures |FanOut(batch).abnRows| == |batch|
    ensures forall k :: 0 <= k < |batch| ==> FanOut(batch).abnRows[k] == batch[k].abnRecord
    ensures ChildAbnsIn(FanOut(batch), AbnsInBatch(batch))
    decreases |batch|
  {
    if |batch| > 0 {
      var init := batch[..|batch| - 1];
      FanOutShape(init);
      FanOutStep(batch, init, batch[|batch| - 1], FanOut(init));
    }
  }

  /** The step of `FanOut`: appending the rows of the last record keeps its three properties. */
  lemma FanOutStep(batch: seq<ParsedRecord>, init: seq<ParsedRecord>, last: ParsedRecord, prev: BatchRows)
    requires |batch| > 0 && init == batch[..|batch| - 1] && last == batch[|batch| - 1]
    requires |prev.abnRows| == |init|
    requires forall k :: 0 <= k < |init| ==> prev.abnRows[k] == init[k].abnRecord
    requires ChildAbnsIn(prev, AbnsInBatch(init))
    ensures var rows := Plus(prev, RecordRows(last));
            && |rows.abnRows| == |batch|
            && (forall k :: 0 <= k < |batch| ==> rows.abnRows[k] == batch[k].abnRecord)
            && ChildAbnsIn(rows, AbnsInBatch(batch))
  {
    var abns := AbnsInBatch(batch);
    forall a | a in AbnsInBatch(init) ensures a in abns {
      var k :| 0 <= k < |init| && AbnsInBatch(init)[k] == a;
      assert abns[k] == a;
    }
    ChildAbnsInWeaken(prev, AbnsInBatch(init), abns);
    assert last.abnRecord.abn == abns[|batch| - 1];
    ChildAbnsInWeaken(RecordRows(last), [last.abnRecord.abn], abns);
    ChildAbnsInPlus(prev, RecordRows(last), abns);
    var rows := Plus(prev, RecordRows(last));
    assert rows.abnRows == prev.abnRows + [last.abnRecord];
    forall k | 0 <= k < |batch| ensures rows.abnRows[k] == batch[k].abnRecord {
      if k < |init| {
        assert rows.abnRows[k] == prev.abnRows[k];
        assert batch[k] == init[k];
      }
    }
  }

  /** Child rows tagged with ABNs of a list stay so for any list holding those ABNs. */
  lemma ChildAbnsInWeaken(rows: BatchRows, small: seq<string>, large: seq<string>)
    requires ChildAbnsIn(rows, small)
    requires forall a :: a in small ==> a in large
    ensures ChildAbnsIn(rows, large)
  {
  }

  lemma ChildAbnsInPlus(a: BatchRows, b: BatchRows, abns: seq<string>)
    requires ChildAbnsIn(a, abns) && ChildAbnsIn(b, abns)
    ensures ChildAbnsIn(Plus(a, b), abns)
  {
    var r := Plus(a, b);
    assert forall k :: |a.mainRows| <= k < |r.mainRows| ==> r.mainRows[k] == b.mainRows[k - |a.mainRows|];
    assert forall k :: |a.legalRows| <= k < |r.legalRows| ==> r.legalRows[k] == b.legalRows[k - |a.legalRows|];
    assert forall k :: |a.asicRows| <= k < |r.asicRows| ==> r.asicRows[k] == b.asicRows[k - |a.asicRows|];
    assert forall k :: |a.gstRows| <= k < |r.gstRows| ==> r.gstRows[k] == b.gstRows[k - |a.gstRows|];
    assert forall k :: |a.dgrRows| <= k < |r.dgrRows| ==> r.dgrRows[k] == b.dgrRows[k - |a.dgrRows|];
    assert forall k :: |a.otherRows| <= k < |r.otherRows| ==> r.otherRows[k] == b.otherRows[k - |a.otherRows|];
    assert forall k :: |a.addressRows| <= k < |r.addressRows| ==> r.addressRows[k] == b.addressRows[k - |a.addressRows|];
  }

  /** The rows of one more record are appended, table by table. */
  lemma FanOutSnoc(batch: seq<ParsedRecord>, j: nat)
    requires j < |batch|
    ensures FanOut(batch[..j + 1]) == Plus(FanOut(batch[..j]), RecordRows(batch[j]))
  {
    assert batch[..j + 1][..j] == batch[..j];
  }

  /** The `for record in batch` loop that fills the eight lists. */
  method CollectBatch(batch: seq<ParsedRecord>) returns (rows: BatchRows)
    ensures rows == FanOut(batch)
  {
    var abnBatch, mainEntityBatch, legalEntityBatch, asicBatch := [], [], [], [];
    var gstBatch, dgrBatch, otherNamesBatch, addressBatch := [], [], [], [];
    for j := 0 to |batch|
      invariant abnBatch == FanOut(batch[..j]).abnRows
      invariant mainEntityBatch == FanOut(batch[..j]).mainRows
      invariant legalEntityBatch == FanOut(batch[..j]).legalRows
      invariant asicBatch == FanOut(batch[..j]).asicRows
      invariant gstBatch == FanOut(batch[..j]).gstRows
      invariant dgrBatch == FanOut(batch[..j]).dgrRows
      invariant otherNamesBatch == FanOut(batch[..j]).otherRows
      invariant addressBatch == FanOut(batch[..j]).addressRows
    {
      var record := batch[j];
      var abn := record.abnRecord.abn;
      ghost var next := FanOut(batch[..j + 1]);
      ghost var step := RecordRows(record);
      FanOutSnoc(batch, j);
      abnBatch := abnBatch + [record.abnRecord];
      if record.mainEntity.Some? {
        mainEntityBatch := mainEntityBatch + [Row(abn, record.mainEntity.value)];
      }
      assert mainEntityBatch == next.mainRows;
      if record.legalEntity.Some? {
        legalEntityBatch := legalEntityBatch + [Row(abn, record.legalEntity.value)];
      }
      assert legalEntityBatch == next.legalRows;
      if record.asicNumber.Some? && record.asicNumber.value != "" {
        asicBatch := asicBatch + [Row(abn, record.asicNumber.value)];
      }
      assert asicBatch == next.asicRows;
      if record.gstRegistration.Some? {
        gstBatch := gstBatch + [Row(abn, record.gstRegistration.value)];
      }
      assert gstBatch == next.gstRows;
      if record.dgrEntries.Some? {
        dgrBatch := dgrBatch + Tagged(abn, record.dgrEntries.value);
      } else {
        assert step.dgrRows == [];
      }
      assert dgrBatch == next.dgrRows;
      if record.otherEntityNames.Some? {
        otherNamesBatch := otherNamesBatch + Tagged(abn, record.otherEntityNames.value);
      } else {
        assert step.otherRows == [];
      }
      assert otherNamesBatch == next.otherRows;
      if record.businessAddress.Some? {
        addressBatch := addressBatch + [Row(abn, record.businessAddress.value)];
      }
      assert addressBatch == next.addressRows;
    }
    assert batch[..|batch|] == batch;
    rows := BatchRows(abnBatch, mainEntityBatch, legalEntityBatch, asicBatch,
                      gstBatch, dgrBatch, otherNamesBatch, addressBatch);
  }

  /** One `supabase.table(...)...execute()` call. */
  datatype Statement =
    | UpsertAbnRecords(abnRows: seq<AbnRecord>)
    | UpsertMainEntity(mainRows: seq<Row<NameData>>)
    | UpsertLegalEntity(legalRows: seq<Row<LegalEntityData>>)
    | UpsertAsicNumbers(asicRows: seq<Row<string>>)
    | UpsertGstRegistrations(gstRows: seq<Row<GstData>>)
    | UpsertBusinessAddresses(addressRows: seq<Row<AddressData>>)
    | DeleteDgrEntries(dgrAbns: seq<string>)
    | DeleteOtherEntityNames(otherAbns: seq<string>)
    | InsertDgrEntries(dgrRows: seq<Row<DgrEntry>>)
    | InsertOtherEntityNames(otherRows: seq<Row<NameData>>)

  /** `[s] if cond else []`. */
  function When(cond: bool, s: Statement): (r: seq<Statement>)
    ensures forall p :: 0 <= p < |r| ==> r[p] == s
  {
    if cond then [s] else []
  }

  predicate IsUpsert(s: Statement)
  {
    s.UpsertAbnRecords? || s.UpsertMainEntity? || s.UpsertLegalEntity? || s.UpsertAsicNumbers?
    || s.UpsertGstRegistrations? || s.UpsertBusinessAddresses?
  }

  predicate IsInsert(s: Statement)
  {
    s.InsertDgrEntries? || s.InsertOtherEntityNames?
  }

  /** The upserts: `abn_records` always, each other table only for a non-empty list. */
  function UpsertCalls(rows: BatchRows): (r: seq<Statement>)
    ensures forall p :: 0 <= p < |r| ==> IsUpsert(r[p])
  {
    [UpsertAbnRecords(rows.abnRows)]
    + When(rows.mainRows != [], UpsertMainEntity(rows.mainRows))
    + When(rows.legalRows != [], UpsertLegalEntity(rows.legalRows))
    + When(rows.asicRows != [], UpsertAsicNumbers(rows.asicRows))
    + When(rows.gstRows != [], UpsertGstRegistrations(rows.gstRows))
    + When(rows.addressRows != [], UpsertBusinessAddresses(rows.addressRows))
  }

  /** The deletes of the batch's old DGR and other-name rows, always issued. */
  function DeleteCalls(abns: seq<string>): seq<Statement>
  {
    [DeleteDgrEntries(abns), DeleteOtherEntityNames(abns)]
  }

  /** The inserts, each only for a non-empty list. */
  function InsertCalls(rows: BatchRows): (r: seq<Statement>)
    ensures forall p :: 0 <= p < |r| ==> IsInsert(r[p])
  {
    When(rows.dgrRows != [], InsertDgrEntries(rows.dgrRows))
    + When(rows.otherRows != [], InsertOtherEntityNames(rows.otherRows))
  }

  /** The calls of one batch, in source order. */
  function BatchStatements(rows: BatchRows, abns: seq<string>): seq<Statement>
  {
    UpsertCalls(rows) + DeleteCalls(abns) + InsertCalls(rows)
  }

  /** The calls issued for one batch of records. */
  function PlanFor(batch: seq<ParsedRecord>): seq<Statement>
  {
    BatchStatements(FanOut(batch), AbnsInBatch(batch))
  }

  /** The eight tables: six keyed by ABN, two plain lists of rows. */
  datatype Tables = Tables(
    abnRecords: map<string, AbnRecord>,
    mainEntity: map<string, NameData>,
    legalEntity: map<string, LegalEntityData>,
    asicNumbers: map<string, string>,
    gstRegistrations: map<string, GstData>,
    businessAddresses: map<string, AddressData>,
    dgrEntries: seq<Row<DgrEntry>>,
    otherEntityNames: seq<Row<NameData>>)

  /** `upsert(rows, on_conflict='abn')`: each row inserted or replacing the row with its ABN, in order. */
  function Upsert<T>(table: map<string, T>, rows: seq<Row<T>>): (r: map<string, T>)
    ensures forall a :: a in table ==> a in r
    ensures forall k :: 0 <= k < |rows| ==> rows[k].abn in r
    decreases |rows|
  {
    if |rows| == 0 then table
    else Upsert(table[rows[0].abn := rows[0].data], rows[1..])
  }

  /** `abn_records` rows keyed by their own `abn` column. */
  function KeyedByAbn(records: seq<AbnRecord>): (r: seq<Row<AbnRecord>>)
    ensures |r| == |records|
    ensures forall k :: 0 <= k < |r| ==> r[k] == Row(records[k].abn, records[k])
  {
    seq(|records|, k requires 0 <= k < |records| => Row(records[k].abn, records[k]))
  }

  /** `delete().in_('abn', abns)`: the rows whose ABN is not among `abns`, in order. */
  function DeleteIn<T>(table: seq<Row<T>>, abns: seq<string>): (r: seq<Row<T>>)
    ensures forall k :: 0 <= k < |r| ==> r[k].abn !in abns && r[k] in table
  {
    if |table| == 0 then []
    else (if table[0].abn in abns then [] else [table[0]]) + DeleteIn(table[1..], abns)
  }

  /** A delete that matches no row leaves the table as it was. */
  lemma {:induction false} DeleteInNoMatch<T>(table: seq<Row<T>>, abns: seq<string>)
    requires forall k :: 0 <= k < |table| ==> table[k].abn !in abns
    ensures DeleteIn(table, abns) == table
    decreases |table|
  {
    if |table| > 0 {
      DeleteInNoMatch(table[1..], abns);
      assert [table[0]] + table[1..] == table;
    }
  }

  /** The effect of one successful call. `insert` appends. */
  function Apply(t: Tables, s: Statement): Tables
  {
    match s
    case UpsertAbnRecords(rows) => t.(abnRecords := Upsert(t.abnRecords, KeyedByAbn(rows)))
    case UpsertMainEntity(rows) => t.(mainEntity := Upsert(t.mainEntity, rows))
    case UpsertLegalEntity(rows) => t.(legalEntity := Upsert(t.legalEntity, rows))
    case UpsertAsicNumbers(rows) => t.(asicNumbers := Upsert(t.asicNumbers, rows))
    case UpsertGstRegistrations(rows) => t.(gstRegistrations := Upsert(t.gstRegistrations, rows))
    case UpsertBusinessAddresses(rows) => t.(businessAddresses := Upsert(t.businessAddresses, rows))
    case DeleteDgrEntries(abns) => t.(dgrEntries := DeleteIn(t.dgrEntries, abns))
    case DeleteOtherEntityNames(abns) => t.(otherEntityNames := DeleteIn(t.otherEntityNames, abns))
    case InsertDgrEntries(rows) => t.(dgrEntries := t.dgrEntries + rows)
    case InsertOtherEntityNames(rows) => t.(otherEntityNames := t.otherEntityNames + rows)
  }

  /** The effect of a list of calls that all succeed. */
  function ApplyAll(t: Tables, stmts: seq<Statement>): Tables
    decreases |stmts|
  {
    if |stmts| == 0 then t else ApplyAll(Apply(t, stmts[0]), stmts[1..])
  }

  /**
   * Calls `stmts[k..]` of batch `b` in order; the first call the oracle fails
   * raises, and the result is False with the tables as the earlier calls left them.
   */
  function RunFrom(t: Tables, stmts: seq<Statement>, b: nat, ok: (nat, nat) -> bool, k: nat): (bool, Tables)
    requires k <= |stmts|
    decreases |stmts| - k
  {
    if k == |stmts| then (true, t)
    else if !ok(b, k) then (false, t)
    else RunFrom(Apply(t, stmts[k]), stmts, b, ok, k + 1)
  }

  /** Batches numbered from `b`, one after the other, stopping at the first failing one. */
  function RunBatches(batches: seq<seq<ParsedRecord>>, plan: seq<ParsedRecord> -> seq<Statement>, b: nat, t: Tables, ok: (nat, nat) -> bool): (bool, Tables)
    decreases |batches|
  {
    if |batches| == 0 then (true, t)
    else
      var (success, t') := RunFrom(t, plan(batches[0]), b, ok, 0);
      if !success then (false, t') else RunBatches(batches[1..], plan, b + 1, t', ok)
  }

  /** All the batches of a list, concatenated. */
  function Flatten<T>(bs: seq<seq<T>>): seq<T>
  {
    if |bs| == 0 then [] else bs[0] + Flatten(bs[1..])
  }

  /**
   * `records[i:i + n]` for i in `range(0, len(records), n)`: non-empty
   * consecutive slices that together give back the records in order, all of
   * size `n` except possibly the last.
   */
  function Batches<T>(records: seq<T>, n: nat): seq<seq<T>>
    requires n > 0
    decreases |records|
  {
    if |records| == 0 then []
    else if |records| <= n then [records]
    else [records[..n]] + Batches(records[n..], n)
  }

  lemma {:induction false} BatchesShape<T>(records: seq<T>, n: nat)
    requires n > 0
    ensures Flatten(Batches(records, n)) == records
    ensures forall b :: 0 <= b < |Batches(records, n)| ==> 0 < |Batches(records, n)[b]| <= n
    ensures forall b :: 0 <= b < |Batches(records, n)| - 1 ==> |Batches(records, n)[b]| == n
    decreases |records|
  {
    var bs := Batches(records, n);
    if |records| == 0 {
    } else if |records| <= n {
      assert Flatten([records]) == records + Flatten([records][1..]);
    } else {
      var rest := Batches(records[n..], n);
      BatchesShape(records[n..], n);
      assert bs == [records[..n]] + rest;
      assert bs[1..] == rest;
      assert records == records[..n] + records[n..];
    }
  }

  /** The whole upload. `range()` with step 0 raises (caught, False); a negative step gives no batch at all (True). */
  function Upload(records: seq<ParsedRecord>, batchSize: int, plan: seq<ParsedRecord> -> seq<Statement>, t: Tables, ok: (nat, nat) -> bool): (bool, Tables)
  {
    if batchSize == 0 then (false, t)
    else if batchSize < 0 then (true, t)
    else RunBatches(Batches(records, batchSize), plan, 0, t, ok)
  }

  /** Execute the calls of batch `b` one by one until one raises. */
  method ExecuteBatch(stmts: seq<Statement>, b: nat, t0: Tables, ok: (nat, nat) -> bool)
    returns (success: bool, t: Tables)
    ensures (success, t) == RunFrom(t0, stmts, b, ok, 0)
  {
    t := t0;
    var k := 0;
    while k < |stmts|
      invariant 0 <= k <= |stmts|
      invariant RunFrom(t0, stmts, b, ok, 0) == RunFrom(t, stmts, b, ok, k)
    {
      if !ok(b, k) {
        return false, t;
      }
      t := Apply(t, stmts[k]);
      k := k + 1;
    }
    success := true;
  }

  /** The remaining records from offset `i`. */
  function Rest<T>(records: seq<T>, i: nat): seq<T>
  {
    if i <= |records| then records[i..] else []
  }

  /** The batch starting at offset `i` is the first batch of the records from `i`. */
  lemma BatchesStep<T>(records: seq<T>, n: nat, i: nat, next: nat, end: nat)
    requires n > 0 && i < |records| && next == i + n
    requires end == if next < |records| then next else |records|
    ensures Batches(Rest(records, i), n) == [records[i..end]] + Batches(Rest(records, next), n)
  {
    var s := records[i..];
    if |s| <= n {
      assert Rest(records, i + n) == [];
      assert Batches(Rest(records, i + n), n) == [];
      assert records[i..|records|] == s;
    } else {
      assert s[..n] == records[i..i + n];
      assert s[n..] == records[i + n..];
    }
  }

  /** `upload_to_supabase`'s loop over the batches. */
  method UploadToSupabase(records: seq<ParsedRecord>, batchSize: int, t0: Tables, ok: (nat, nat) -> bool)
    returns (success: bool, t: Tables)
    ensures (success, t) == Upload(records, batchSize, PlanFor, t0, ok)
  {
    if batchSize == 0 {
      return false, t0;
    }
    if batchSize < 0 {
      return true, t0;
    }
    t := t0;
    var i: nat := 0;
    var b: nat := 0;
    assert Rest(records, 0) == records;
    ghost var goal := Upload(records, batchSize, PlanFor, t0, ok);
    assert goal == RunBatches(Batches(Rest(records, i), batchSize), PlanFor, b, t, ok);
    while i < |records|
      invariant goal == RunBatches(Batches(Rest(records, i), batchSize), PlanFor, b, t, ok)
      decreases |records| - i
    {
      var next: nat := i + batchSize;
      var end := if next < |records| then next else |records|;
      var batch := records[i..end];
      ghost var bs := Batches(Rest(records, i), batchSize);
      BatchesStep(records, batchSize, i, next, end);
      assert bs[0] == batch && bs[1..] == Batches(Rest(records, next), batchSize);
      var rows := CollectBatch(batch);
      var abns := AbnsInBatch(batch);
      var stmts := BatchStatements(rows, abns);
      assert stmts == PlanFor(batch);
      ghost var before := t;
      var batchOk;
      batchOk, t := ExecuteBatch(stmts, b, t, ok);
      assert RunBatches(bs, PlanFor, b, before, ok) == if batchOk then RunBatches(bs[1..], PlanFor, b + 1, t, ok) else (false, t);
      if !batchOk {
        return false, t;
      }
      assert goal == RunBatches(Batches(Rest(records, next), batchSize), PlanFor, b + 1, t, ok);
      i := next;
      b := b + 1;
    }
    assert Rest(records, i) == [];
    success := true;
  }

  // ---------------------------------------------------------------------------
  // Batching: consecutive slices, in order, covering every record once.
  // ---------------------------------------------------------------------------

  /** Batch `c` is `records[c*n : (c+1)*n]`, the slice at the `c`-th value of `range(0, len(records), n)`. */
  lemma {:induction false} BatchesAreSlices<T>(records: seq<T>, n: nat, c: nat)
    requires n > 0 && c < |Batches(records, n)|
    ensures c * n < |records|
    ensures Batches(records, n)[c] == records[c * n .. if (c + 1) * n < |records| then (c + 1) * n else |records|]
    decreases c
  {
    if |records| <= n {
      assert records[0..|records|] == records;
    } else if c == 0 {
    } else {
      var rest := records[n..];
      assert Batches(records, n)[c] == Batches(rest, n)[c - 1];
      BatchesAreSlices(rest, n, c - 1);
      assert (c - 1) * n + n == c * n;
      assert c * n + n == (c + 1) * n;
      var lo := (c - 1) * n;
      var hi := if c * n < |rest| then c * n else |rest|;
      assert rest[lo..hi] == records[n + lo..n + hi];
    }
  }

  // ---------------------------------------------------------------------------
  // Success and abort.
  // ---------------------------------------------------------------------------

  /** Every call of batch `b` succeeds. */
  predicate AllOk(stmts: seq<Statement>, b: nat, ok: (nat, nat) -> bool)
  {
    forall j :: 0 <= j < |stmts| ==> ok(b, j)
  }

  /** A batch succeeds iff each of its remaining calls does, and then it leaves exactly their combined effect. */
  lemma {:induction false} RunFromSucceedsIff(t: Tables, stmts: seq<Statement>, b: nat, ok: (nat, nat) -> bool, k: nat)
    requires k <= |stmts|
    ensures RunFrom(t, stmts, b, ok, k).0 <==> forall j :: k <= j < |stmts| ==> ok(b, j)
    ensures RunFrom(t, stmts, b, ok, k).0 ==> RunFrom(t, stmts, b, ok, k).1 == ApplyAll(t, stmts[k..])
    decreases |stmts| - k
  {
    if k < |stmts| && ok(b, k) {
      RunFromSucceedsIff(Apply(t, stmts[k]), stmts, b, ok, k + 1);
      assert stmts[k..][1..] == stmts[k + 1..];
    }
  }

  /** A batch depends only on the outcomes of its own calls. */
  lemma {:induction false} RunFromOnlyConsults(t: Tables, stmts: seq<Statement>, b: nat, ok: (nat, nat) -> bool, ok': (nat, nat) -> bool, k: nat)
    requires k <= |stmts|
    requires forall j :: k <= j < |stmts| ==> ok(b, j) == ok'(b, j)
    ensures RunFrom(t, stmts, b, ok, k) == RunFrom(t, stmts, b, ok', k)
    decreases |stmts| - k
  {
    if k < |stmts| && ok(b, k) {
      RunFromOnlyConsults(Apply(t, stmts[k]), stmts, b, ok, ok', k + 1);
    }
  }

  /** The batches succeed iff every call of every batch does. */
  lemma {:induction false} RunBatchesSucceedsIff(bs: seq<seq<ParsedRecord>>, plan: seq<ParsedRecord> -> seq<Statement>, b: nat, t: Tables, ok: (nat, nat) -> bool)
    ensures RunBatches(bs, plan, b, t, ok).0 <==> forall c :: 0 <= c < |bs| ==> AllOk(plan(bs[c]), b + c, ok)
    decreases |bs|
  {
    if |bs| > 0 {
      RunFromSucceedsIff(t, plan(bs[0]), b, ok, 0);
      var r := RunFrom(t, plan(bs[0]), b, ok, 0);
      if r.0 {
        RunBatchesSucceedsIff(bs[1..], plan, b + 1, r.1, ok);
        assert forall c :: 1 <= c < |bs| ==> bs[1..][c - 1] == bs[c];
      }
    }
  }

  /** `upload_to_supabase` returns True iff every call of every batch succeeds. */
  lemma UploadSucceedsIffAllOk(records: seq<ParsedRecord>, batchSize: int, plan: seq<ParsedRecord> -> seq<Statement>, t: Tables, ok: (nat, nat) -> bool)
    requires batchSize > 0
    ensures Upload(records, batchSize, plan, t, ok).0 <==>
              forall c :: 0 <= c < |Batches(records, batchSize)| ==> AllOk(plan(Batches(records, batchSize)[c]), c, ok)
  {
    var bs := Batches(records, batchSize);
    assert Upload(records, batchSize, plan, t, ok) == RunBatches(bs, plan, 0, t, ok);
    RunBatchesSucceedsIff(bs, plan, 0, t, ok);
    forall c | 0 <= c < |bs| ensures AllOk(plan(bs[c]), 0 + c, ok) == AllOk(plan(bs[c]), c, ok) {
    }
  }

  /**
   * Once batch `f` fails, no later batch is attempted: what the calls of later
   * batches would do makes no difference, and the result is False.
   */
  lemma {:induction false} NoBatchAfterFailure(bs: seq<seq<ParsedRecord>>, plan: seq<ParsedRecord> -> seq<Statement>, b: nat, t: Tables, ok: (nat, nat) -> bool, ok': (nat, nat) -> bool, f: nat)
    requires f < |bs|
    requires !AllOk(plan(bs[f]), b + f, ok)
    requires forall c, j :: b <= c <= b + f ==> ok(c, j) == ok'(c, j)
    ensures RunBatches(bs, plan, b, t, ok) == RunBatches(bs, plan, b, t, ok')
    ensures !RunBatches(bs, plan, b, t, ok).0
    decreases f
  {
    var stmts := plan(bs[0]);
    RunFromOnlyConsults(t, stmts, b, ok, ok', 0);
    RunFromSucceedsIff(t, stmts, b, ok, 0);
    var r := RunFrom(t, stmts, b, ok, 0);
    if f > 0 && r.0 {
      assert bs[1..][f - 1] == bs[f];
      NoBatchAfterFailure(bs[1..], plan, b + 1, r.1, ok, ok', f - 1);
    }
  }

  // ---------------------------------------------------------------------------
  // The calls of one batch.
  // ---------------------------------------------------------------------------

  /** The two deletes sit at `d` and `d + 1`, after all the upserts and before all the inserts. */
  predicate DeletesAt(stmts: seq<Statement>, abns: seq<string>, d: nat)
  {
    && d + 1 < |stmts|
    && stmts[d] == DeleteDgrEntries(abns) && stmts[d + 1] == DeleteOtherEntityNames(abns)
    && (forall p :: 0 <= p < d ==> IsUpsert(stmts[p]))
    && (forall p :: d + 1 < p < |stmts| ==> IsInsert(stmts[p]))
  }

  /**
   * The upserts come first, then the two deletes of the batch's ABNs, then the
   * inserts: every insert runs after the delete of the same table.
   */
  lemma DeleteBeforeInsert(rows: BatchRows, abns: seq<string>)
    ensures exists d :: DeletesAt(BatchStatements(rows, abns), abns, d)
  {
    var stmts := BatchStatements(rows, abns);
    var ups := UpsertCalls(rows);
    var ins := InsertCalls(rows);
    var d := |ups|;
    assert forall p :: 0 <= p < d ==> stmts[p] == ups[p];
    assert forall p :: d + 1 < p < |stmts| ==> stmts[p] == ins[p - d - 2];
    assert DeletesAt(stmts, abns, d);
  }

  /** The tables after every call of a batch has succeeded, table by table. */
  function BatchResult(t: Tables, rows: BatchRows, abns: seq<string>): Tables
  {
    Tables(
      Upsert(t.abnRecords, KeyedByAbn(rows.abnRows)),
      Upsert(t.mainEntity, rows.mainRows),
      Upsert(t.legalEntity, rows.legalRows),
      Upsert(t.asicNumbers, rows.asicRows),
      Upsert(t.gstRegistrations, rows.gstRows),
      Upsert(t.businessAddresses, rows.addressRows),
      DeleteIn(t.dgrEntries, abns) + rows.dgrRows,
      DeleteIn(t.otherEntityNames, abns) + rows.otherRows)
  }

  lemma {:induction false} ApplyAllAppend(t: Tables, a: seq<Statement>, b: seq<Statement>)
    ensures ApplyAll(t, a + b) == ApplyAll(ApplyAll(t, a), b)
    decreases |a|
  {
    if |a| > 0 {
      assert (a + b)[0] == a[0];
      assert (a + b)[1..] == a[1..] + b;
      ApplyAllAppend(Apply(t, a[0]), a[1..], b);
      assert ApplyAll(t, a + b) == ApplyAll(Apply(t, a[0]), a[1..] + b);
      assert ApplyAll(t, a) == ApplyAll(Apply(t, a[0]), a[1..]);
    } else {
      assert a + b == b;
    }
  }

  /** A skipped optional call would have changed nothing: its row list is empty. */
  lemma ApplyWhen(t: Tables, cond: bool, s: Statement)
    requires !cond ==> Apply(t, s) == t
    ensures ApplyAll(t, When(cond, s)) == Apply(t, s)
  {
    if cond {
      assert [s][1..] == [];
    }
  }

  /** Extending a call list with an optional call. */
  lemma ApplySnocWhen(t: Tables, a: seq<Statement>, cond: bool, s: Statement)
    requires !cond ==> Apply(ApplyAll(t, a), s) == ApplyAll(t, a)
    ensures ApplyAll(t, a + When(cond, s)) == Apply(ApplyAll(t, a), s)
  {
    ApplyAllAppend(t, a, When(cond, s));
    ApplyWhen(ApplyAll(t, a), cond, s);
  }

  /** The upserts change the six keyed tables and nothing else. */
  lemma UpsertCallsEffect(t: Tables, rows: BatchRows)
    ensures ApplyAll(t, UpsertCalls(rows)) ==
              t.(abnRecords := Upsert(t.abnRecords, KeyedByAbn(rows.abnRows)),
                 mainEntity := Upsert(t.mainEntity, rows.mainRows),
                 legalEntity := Upsert(t.legalEntity, rows.legalRows),
                 asicNumbers := Upsert(t.asicNumbers, rows.asicRows),
                 gstRegistrations := Upsert(t.gstRegistrations, rows.gstRows),
                 businessAddresses := Upsert(t.businessAddresses, rows.addressRows))
  {
    var s0 := [UpsertAbnRecords(rows.abnRows)];
    var p1 := s0 + When(rows.mainRows != [], UpsertMainEntity(rows.mainRows));
    var p2 := p1 + When(rows.legalRows != [], UpsertLegalEntity(rows.legalRows));
    var p3 := p2 + When(rows.asicRows != [], UpsertAsicNumbers(rows.asicRows));
    var p4 := p3 + When(rows.gstRows != [], UpsertGstRegistrations(rows.gstRows));
    assert UpsertCalls(rows) == p4 + When(rows.addressRows != [], UpsertBusinessAddresses(rows.addressRows));
    assert s0[1..] == [];
    var t0 := Apply(t, UpsertAbnRecords(rows.abnRows));
    assert ApplyAll(t, s0) == t0;
    ApplySnocWhen(t, s0, rows.mainRows != [], UpsertMainEntity(rows.mainRows));
    var t1 := t0.(mainEntity := Upsert(t.mainEntity, rows.mainRows));
    assert ApplyAll(t, p1) == t1;
    ApplySnocWhen(t, p1, rows.legalRows != [], UpsertLegalEntity(rows.legalRows));
    var t2 := t1.(legalEntity := Upsert(t.legalEntity, rows.legalRows));
    assert ApplyAll(t, p2) == t2;
    ApplySnocWhen(t, p2, rows.asicRows != [], UpsertAsicNumbers(rows.asicRows));
    var t3 := t2.(asicNumbers := Upsert(t.asicNumbers, rows.asicRows));
    assert ApplyAll(t, p3) == t3;
    ApplySnocWhen(t, p3, rows.gstRows != [], UpsertGstRegistrations(rows.gstRows));
    var t4 := t3.(gstRegistrations := Upsert(t.gstRegistrations, rows.gstRows));
    assert ApplyAll(t, p4) == t4;
    ApplySnocWhen(t, p4, rows.addressRows != [], UpsertBusinessAddresses(rows.addressRows));
  }

  /** The deletes drop the batch's ABNs from the two plain tables and change nothing else. */
  lemma DeleteCallsEffect(t: Tables, abns: seq<string>)
    ensures ApplyAll(t, DeleteCalls(abns)) ==
              t.(dgrEntries := DeleteIn(t.dgrEntries, abns),
                 otherEntityNames := DeleteIn(t.otherEntityNames, abns))
  {
    var d1 := DeleteDgrEntries(abns);
    var d2 := DeleteOtherEntityNames(abns);
    assert DeleteCalls(abns) == [d1] + [d2];
    ApplyAllAppend(t, [d1], [d2]);
    ApplyWhen(t, true, d1);
    ApplyWhen(Apply(t, d1), true, d2);
  }

  /** The inserts append the batch's rows to the two plain tables and change nothing else. */
  lemma InsertCallsEffect(t: Tables, rows: BatchRows)
    ensures ApplyAll(t, InsertCalls(rows)) ==
              t.(dgrEntries := t.dgrEntries + rows.dgrRows,
                 otherEntityNames := t.otherEntityNames + rows.otherRows)
  {
    var w := When(rows.dgrRows != [], InsertDgrEntries(rows.dgrRows));
    assert t.dgrEntries + [] == t.dgrEntries;
    ApplyWhen(t, rows.dgrRows != [], InsertDgrEntries(rows.dgrRows));
    var t1 := t.(dgrEntries := t.dgrEntries + rows.dgrRows);
    assert ApplyAll(t, w) == t1;
    assert t1.otherEntityNames + [] == t1.otherEntityNames;
    ApplySnocWhen(t, w, rows.otherRows != [], InsertOtherEntityNames(rows.otherRows));
  }

  /** Running all the calls of a batch leaves `BatchResult`. */
  lemma BatchEffect(t: Tables, rows: BatchRows, abns: seq<string>)
    ensures ApplyAll(t, BatchStatements(rows, abns)) == BatchResult(t, rows, abns)
  {
    var ups := UpsertCalls(rows);
    var dels := DeleteCalls(abns);
    ApplyAllAppend(t, ups + dels, InsertCalls(rows));
    ApplyAllAppend(t, ups, dels);
    UpsertCallsEffect(t, rows);
    DeleteCallsEffect(ApplyAll(t, ups), abns);
    InsertCallsEffect(ApplyAll(t, ups + dels), rows);
  }

  // ---------------------------------------------------------------------------
  // What a batch leaves in the tables.
  // ---------------------------------------------------------------------------

  /** An ABN no row carries keeps its old entry, or its absence. */
  lemma {:induction false} UpsertUntouched<T>(table: map<string, T>, rows: seq<Row<T>>, a: string)
    requires forall k :: 0 <= k < |rows| ==> rows[k].abn != a
    ensures a in Upsert(table, rows) <==> a in table
    ensures a in table ==> Upsert(table, rows)[a] == table[a]
    decreases |rows|
  {
    if |rows| > 0 {
      UpsertUntouched(table[rows[0].abn := rows[0].data], rows[1..], a);
    }
  }

  /** Last write wins: an ABN takes the data of the last row that carries it. */
  lemma {:induction false} UpsertLastWins<T>(table: map<string, T>, rows: seq<Row<T>>, k: nat)
    requires k < |rows|
    requires forall k' :: k < k' < |rows| ==> rows[k'].abn != rows[k].abn
    ensures Upsert(table, rows)[rows[k].abn] == rows[k].data
    decreases |rows|
  {
    var t' := table[rows[0].abn := rows[0].data];
    if k == 0 {
      UpsertUntouched(t', rows[1..], rows[0].abn);
    } else {
      UpsertLastWins(t', rows[1..], k - 1);
    }
  }

  /** The last row carrying `a`, when there is one. */
  lemma {:induction false} LastRowWith<T>(rows: seq<Row<T>>, a: string) returns (k: nat)
    requires exists j :: 0 <= j < |rows| && rows[j].abn == a
    ensures k < |rows| && rows[k].abn == a
    ensures forall k' :: k < k' < |rows| ==> rows[k'].abn != a
    decreases |rows|
  {
    var n := |rows|;
    if rows[n - 1].abn == a {
      k := n - 1;
    } else {
      var j :| 0 <= j < n && rows[j].abn == a;
      assert rows[..n - 1][j].abn == a;
      k := LastRowWith(rows[..n - 1], a);
    }
  }

  /** Upserting the same rows twice is upserting them once. */
  lemma UpsertIdempotent<T>(table: map<string, T>, rows: seq<Row<T>>)
    ensures Upsert(Upsert(table, rows), rows) == Upsert(table, rows)
  {
    var once := Upsert(table, rows);
    var twice := Upsert(once, rows);
    forall a | a in twice || a in once
      ensures a in twice && a in once && twice[a] == once[a]
    {
      if exists j :: 0 <= j < |rows| && rows[j].abn == a {
        var k := LastRowWith(rows, a);
        UpsertLastWins(table, rows, k);
        UpsertLastWins(once, rows, k);
      } else {
        UpsertUntouched(table, rows, a);
        UpsertUntouched(once, rows, a);
      }
    }
  }

  lemma {:induction false} DeleteInAppend<T>(a: seq<Row<T>>, b: seq<Row<T>>, abns: seq<string>)
    ensures DeleteIn(a + b, abns) == DeleteIn(a, abns) + DeleteIn(b, abns)
    decreases |a|
  {
    if |a| == 0 {
      assert a + b == b;
    } else {
      assert (a + b)[0] == a[0];
      assert (a + b)[1..] == a[1..] + b;
      DeleteInAppend(a[1..], b, abns);
    }
  }

  /** A delete of every ABN the rows carry removes them all. */
  lemma {:induction false} DeleteInAllMatch<T>(rows: seq<Row<T>>, abns: seq<string>)
    requires forall k :: 0 <= k < |rows| ==> rows[k].abn in abns
    ensures DeleteIn(rows, abns) == []
    decreases |rows|
  {
    if |rows| > 0 {
      DeleteInAllMatch(rows[1..], abns);
    }
  }

  /**
   * Delete-then-insert replaces: afterwards the batch's ABNs have exactly the
   * batch's new DGR and other-name rows, and the rows of other ABNs are kept.
   */
  lemma BatchReplacesChildRows(t: Tables, rows: BatchRows, abns: seq<string>)
    ensures var r := BatchResult(t, rows, abns);
            && (forall k :: 0 <= k < |r.dgrEntries| && r.dgrEntries[k].abn in abns ==> r.dgrEntries[k] in rows.dgrRows)
            && (forall k :: 0 <= k < |r.otherEntityNames| && r.otherEntityNames[k].abn in abns ==> r.otherEntityNames[k] in rows.otherRows)
            && (forall x :: x in rows.dgrRows ==> x in r.dgrEntries)
            && (forall x :: x in rows.otherRows ==> x in r.otherEntityNames)
            && (forall x :: x in t.dgrEntries && x.abn !in abns ==> x in r.dgrEntries)
            && (forall x :: x in t.otherEntityNames && x.abn !in abns ==> x in r.otherEntityNames)
  {
    var r := BatchResult(t, rows, abns);
    var dg := DeleteIn(t.dgrEntries, abns);
    var ot := DeleteIn(t.otherEntityNames, abns);
    forall k | 0 <= k < |r.dgrEntries| && r.dgrEntries[k].abn in abns
      ensures r.dgrEntries[k] in rows.dgrRows
    {
      if k < |dg| {
        assert false;
      }
      assert r.dgrEntries[k] == rows.dgrRows[k - |dg|];
    }
    forall k | 0 <= k < |r.otherEntityNames| && r.otherEntityNames[k].abn in abns
      ensures r.otherEntityNames[k] in rows.otherRows
    {
      if k < |ot| {
        assert false;
      }
      assert r.otherEntityNames[k] == rows.otherRows[k - |ot|];
    }
    forall x | x in t.dgrEntries && x.abn !in abns
      ensures x in r.dgrEntries
    {
      DeleteInKeeps(t.dgrEntries, abns, x);
    }
    forall x | x in t.otherEntityNames && x.abn !in abns
      ensures x in r.otherEntityNames
    {
      DeleteInKeeps(t.otherEntityNames, abns, x);
    }
  }

  /** A delete keeps every row whose ABN it does not name. */
  lemma {:induction false} DeleteInKeeps<T>(table: seq<Row<T>>, abns: seq<string>, x: Row<T>)
    requires x in table && x.abn !in abns
    ensures x in DeleteIn(table, abns)
    decreases |table|
  {
    if table[0] != x {
      DeleteInKeeps(table[1..], abns, x);
    }
  }

  /** Running a batch a second time after it succeeded changes nothing. */
  lemma BatchIdempotent(t: Tables, batch: seq<ParsedRecord>)
    ensures ApplyAll(ApplyAll(t, PlanFor(batch)), PlanFor(batch)) == ApplyAll(t, PlanFor(batch))
  {
    var rows := FanOut(batch);
    var abns := AbnsInBatch(batch);
    var once := BatchResult(t, rows, abns);
    FanOutShape(batch);
    BatchEffect(t, rows, abns);
    BatchEffect(once, rows, abns);
    UpsertIdempotent(t.abnRecords, KeyedByAbn(rows.abnRows));
    UpsertIdempotent(t.mainEntity, rows.mainRows);
    UpsertIdempotent(t.legalEntity, rows.legalRows);
    UpsertIdempotent(t.asicNumbers, rows.asicRows);
    UpsertIdempotent(t.gstRegistrations, rows.gstRows);
    UpsertIdempotent(t.businessAddresses, rows.addressRows);
    var dg := DeleteIn(t.dgrEntries, abns);
    DeleteInAppend(dg, rows.dgrRows, abns);
    DeleteInNoMatch(dg, abns);
    DeleteInAllMatch(rows.dgrRows, abns);
    assert DeleteIn(once.dgrEntries, abns) == dg;
    var ot := DeleteIn(t.otherEntityNames, abns);
    DeleteInAppend(ot, rows.otherRows, abns);
    DeleteInNoMatch(ot, abns);
    DeleteInAllMatch(rows.otherRows, abns);
    assert DeleteIn(once.otherEntityNames, abns) == ot;
  }

  // ---------------------------------------------------------------------------
  // What a successful upload leaves.
  // ---------------------------------------------------------------------------

  /** Running `plan(batch)` keeps the `abn_records` keys already there and adds each of the batch's ABNs. */
  predicate KeysGrow(plan: seq<ParsedRecord> -> seq<Statement>, batch: seq<ParsedRecord>, t: Tables)
  {
    && (forall a :: a in t.abnRecords ==> a in ApplyAll(t, plan(batch)).abnRecords)
    && (forall k :: 0 <= k < |batch| ==> batch[k].abnRecord.abn in ApplyAll(t, plan(batch)).abnRecords)
  }

  /** The calls of `upload_to_supabase` for one batch do so. */
  lemma BatchKeys(t: Tables, batch: seq<ParsedRecord>)
    ensures KeysGrow(PlanFor, batch, t)
  {
    var rows := FanOut(batch);
    FanOutShape(batch);
    assert PlanFor(batch) == BatchStatements(rows, AbnsInBatch(batch));
    BatchEffect(t, rows, AbnsInBatch(batch));
    var keyed := KeyedByAbn(rows.abnRows);
    var after := Upsert(t.abnRecords, keyed);
    assert ApplyAll(t, PlanFor(batch)).abnRecords == after;
    forall k | 0 <= k < |batch| ensures batch[k].abnRecord.abn in after {
      assert keyed[k].abn == batch[k].abnRecord.abn;
    }
  }

  lemma {:induction false} RunBatchesKeys(bs: seq<seq<ParsedRecord>>, plan: seq<ParsedRecord> -> seq<Statement>, b: nat, t: Tables, ok: (nat, nat) -> bool)
    requires forall x, t' :: KeysGrow(plan, x, t')
    ensures RunBatches(bs, plan, b, t, ok).0 ==>
              && (forall a :: a in t.abnRecords ==> a in RunBatches(bs, plan, b, t, ok).1.abnRecords)
              && (forall c, k :: 0 <= c < |bs| && 0 <= k < |bs[c]| ==> bs[c][k].abnRecord.abn in RunBatches(bs, plan, b, t, ok).1.abnRecords)
    decreases |bs|
  {
    if |bs| > 0 {
      var stmts := plan(bs[0]);
      RunFromSucceedsIff(t, stmts, b, ok, 0);
      var r := RunFrom(t, stmts, b, ok, 0);
      if r.0 {
        assert stmts[0..] == stmts;
        assert KeysGrow(plan, bs[0], t);
        RunBatchesKeys(bs[1..], plan, b + 1, r.1, ok);
        assert forall c :: 1 <= c < |bs| ==> bs[1..][c - 1] == bs[c];
      }
    }
  }

  /** The position of each element of `Flatten(bs)` within its batch. */
  lemma {:induction false} FlattenIndex<T>(bs: seq<seq<T>>, k: nat) returns (c: nat, j: nat)
    requires k < |Flatten(bs)|
    ensures c < |bs| && j < |bs[c]| && bs[c][j] == Flatten(bs)[k]
    decreases |bs|
  {
    if k < |bs[0]| {
      c, j := 0, k;
    } else {
      var c', j' := FlattenIndex(bs[1..], k - |bs[0]|);
      c, j := c' + 1, j';
    }
  }

  /** After a successful upload every record's ABN is a key of `abn_records`. */
  lemma UploadedAbnsPresent(records: seq<ParsedRecord>, batchSize: int, t: Tables, ok: (nat, nat) -> bool)
    requires batchSize > 0
    ensures Upload(records, batchSize, PlanFor, t, ok).0 ==>
              forall k :: 0 <= k < |records| ==> records[k].abnRecord.abn in Upload(records, batchSize, PlanFor, t, ok).1.abnRecords
  {
    var bs := Batches(records, batchSize);
    BatchesShape(records, batchSize);
    forall x, t' | true
      ensures KeysGrow(PlanFor, x, t')
    {
      BatchKeys(t', x);
    }
    RunBatchesKeys(bs, PlanFor, 0, t, ok);
    var r := RunBatches(bs, PlanFor, 0, t, ok);
    assert Upload(records, batchSize, PlanFor, t, ok) == r;
    if r.0 {
      forall k | 0 <= k < |records|
        ensures records[k].abnRecord.abn in r.1.abnRecords
      {
        var c, j := FlattenIndex(bs, k);
      }
    }
  }
}
