/**
 Bulk import of subscriptions: validation, application and their accounting
 (api/src/utils/importExport.ts).

 A raw row is given with each column already read: missing, present but not acceptable (a malformed
 e-mail address, date, number, ...), or a normalised value.  How JSON text is produced for the
 comparison of two records and how identifiers are collated are parameters.
 */
module SubscriptionImport {
  import opened InsertionMap
  import opened Options

  datatype Column = Missing | Invalid | Valid(text: string)

  datatype RawRow = RawRow(
    subscriptionId: string, customerEmail: Column, planId: string, status: Column, currency: Column, interval: Column,
    startDate: Column, nextBillingDate: Column, metadata: Column, amount: Column)

  datatype Draft = Draft(
    merchantId: string, subscriptionId: string, customerEmail: string, planId: string, status: string,
    amount: string, currency: string, interval: string, startDate: string,
    nextBillingDate: Option<string>, metadata: Option<string>)

  datatype Record = Record(draft: Draft, createdAt: string, updatedAt: string)

  datatype RowError = RowError(rowNumber: nat, field: string)

  datatype Action = Create | Update | Skip

  datatype PreviewRow = PreviewRow(rowNumber: nat, action: Action, draft: Draft)

  datatype Settings = Settings(merchantId: string, isCsv: bool, upsert: bool, json: Draft -> string,
                               collation: string -> real)

  type Store = seq<Pair<string, Record>>

  // ---------------------------------------------------------------------------
  // Rows
  // ---------------------------------------------------------------------------

  function TextError(n: nat, field: string, value: string): seq<RowError> {
    if value == "" then [RowError(n, field)] else []
  }

  function RequiredError(n: nat, field: string, c: Column): seq<RowError> {
    if c.Valid? then [] else [RowError(n, field)]
  }

  function OptionalError(n: nat, field: string, c: Column): seq<RowError> {
    if c.Invalid? then [RowError(n, field)] else []
  }

  function RowErrors(row: RawRow, n: nat): seq<RowError> {
    TextError(n, "subscriptionId", row.subscriptionId)
    + RequiredError(n, "customerEmail", row.customerEmail)
    + TextError(n, "planId", row.planId)
    + RequiredError(n, "status", row.status)
    + RequiredError(n, "currency", row.currency)
    + RequiredError(n, "interval", row.interval)
    + RequiredError(n, "startDate", row.startDate)
    + OptionalError(n, "nextBillingDate", row.nextBillingDate)
    + OptionalError(n, "metadata", row.metadata)
    + RequiredError(n, "amount", row.amount)
  }

  predicate RowValid(row: RawRow) {
    && row.subscriptionId != "" && row.customerEmail.Valid? && row.planId != "" && row.status.Valid?
    && row.currency.Valid? && row.interval.Valid? && row.startDate.Valid? && !row.nextBillingDate.Invalid?
    && !row.metadata.Invalid? && row.amount.Valid?
  }

  function Text(c: Column): Option<string> { if c.Valid? then Some(c.text) else None }

  function DraftOf(merchantId: string, row: RawRow): Draft
    requires RowValid(row)
  {
    Draft(merchantId, row.subscriptionId, row.customerEmail.text, row.planId, row.status.text, row.amount.text,
          row.currency.text, row.interval.text, row.startDate.text, Text(row.nextBillingDate), Text(row.metadata))
  }

  /** A row has errors exactly when it yields no subscription, and every error carries the row's number. */
  lemma RowErrorsExactly(row: RawRow, n: nat)
    ensures RowErrors(row, n) == [] <==> RowValid(row)
    ensures forall e | e in RowErrors(row, n) :: e.rowNumber == n
  {
  }

  // ---------------------------------------------------------------------------
  // Validation
  // ---------------------------------------------------------------------------

  /** new Map(existing.map(item => [item.subscriptionId, item])) */
  function ById(records: seq<Record>): Store {
    if records == [] then []
    else
      var r := records[|records| - 1];
      InsertionMap.Set(ById(records[..|records| - 1]), r.draft.subscriptionId, r)
  }

  datatype Progress = Progress(errors: seq<RowError>, rows: seq<PreviewRow>, seen: set<string>)

  function RowNumber(s: Settings, index: nat): nat { if s.isCsv then index + 2 else index + 1 }

  function ActionFor(s: Settings, existing: Option<Record>, d: Draft): Action {
    match existing
    case None => Create
    case Some(r) => if s.json(d) == s.json(r.draft) then Skip else Update
  }

  function ValidateRow(s: Settings, store: Store, p: Progress, row: RawRow, n: nat): Progress {
    if !RowValid(row) then p.(errors := p.errors + RowErrors(row, n))
    else
      var d := DraftOf(s.merchantId, row);
      if d.subscriptionId in p.seen then p.(errors := p.errors + [RowError(n, "subscriptionId")])
      else
        var existing := InsertionMap.Get(store, d.subscriptionId);
        var p' := p.(seen := p.seen + {d.subscriptionId});
        if existing.Some? && !s.upsert then p'.(errors := p'.errors + [RowError(n, "subscriptionId")])
        else p'.(rows := p'.rows + [PreviewRow(n, ActionFor(s, existing, d), d)])
  }

  function Validate(s: Settings, store: Store, rows: seq<RawRow>): Progress {
    if rows == [] then Progress([], [], {})
    else
      var i := |rows| - 1;
      ValidateRow(s, store, Validate(s, store, rows[..i]), rows[i], RowNumber(s, i))
  }

  function ErrorRows(errors: seq<RowError>): set<nat> {
    set e | e in errors :: e.rowNumber
  }

  function CountAction(rows: seq<PreviewRow>, a: Action): nat {
    if rows == [] then 0 else CountAction(rows[..|rows| - 1], a) + if rows[|rows| - 1].action == a then 1 else 0
  }

  datatype Summary = Summary(totalRows: nat, validRows: nat, invalidRows: nat, creates: nat, updates: nat, skips: nat)

  datatype Validation = Validation(isValid: bool, errors: seq<RowError>, rows: seq<PreviewRow>, summary: Summary)

  method ValidateImport(s: Settings, existing: seq<Record>, rows: seq<RawRow>) returns (v: Validation)
    ensures var p := Validate(s, ById(existing), rows);
      v == Validation(p.errors == [], p.errors, p.rows,
                      Summary(|rows|, |p.rows|, |ErrorRows(p.errors)|,
                              CountAction(p.rows, Create), CountAction(p.rows, Update), CountAction(p.rows, Skip)))
  {
    var errors: seq<RowError>, normalizedRows: seq<PreviewRow>, seen: set<string> := [], [], {};
    var existingById := ById(existing);
    for index := 0 to |rows|
      invariant Progress(errors, normalizedRows, seen) == Validate(s, existingById, rows[..index])
    {
      assert rows[..index + 1][..index] == rows[..index];
      var row, rowNumber := rows[index], RowNumber(s, index);
      if !RowValid(row) {
        errors := errors + RowErrors(row, rowNumber);
      } else {
        var subscription := DraftOf(s.merchantId, row);
        if subscription.subscriptionId in seen {
          errors := errors + [RowError(rowNumber, "subscriptionId")];
        } else {
          seen := seen + {subscription.subscriptionId};
          var found := InsertionMap.Get(existingById, subscription.subscriptionId);
          if found.Some? && !s.upsert {
            errors := errors + [RowError(rowNumber, "subscriptionId")];
          } else {
            normalizedRows := normalizedRows + [PreviewRow(rowNumber, ActionFor(s, found, subscription), subscription)];
          }
        }
      }
    }
    assert rows[..|rows|] == rows;
    v := Validation(errors == [], errors, normalizedRows,
                    Summary(|rows|, |normalizedRows|, |ErrorRows(errors)|, CountAction(normalizedRows, Create),
                            CountAction(normalizedRows, Update), CountAction(normalizedRows, Skip)));
  }

  lemma {:induction false} ActionsAddUp(rows: seq<PreviewRow>)
    ensures CountAction(rows, Create) + CountAction(rows, Update) + CountAction(rows, Skip) == |rows|
  {
    if rows != [] { ActionsAddUp(rows[..|rows| - 1]); }
  }

  lemma ErrorRowsConcat(a: seq<RowError>, b: seq<RowError>)
    ensures ErrorRows(a + b) == ErrorRows(a) + ErrorRows(b)
  {
  }

  lemma {:induction false} ErrorsCountRows(s: Settings, store: Store, rows: seq<RawRow>)
    ensures var p := Validate(s, store, rows);
      && |ErrorRows(p.errors)| + |p.rows| == |rows|
      && forall n | n in ErrorRows(p.errors) :: n < RowNumber(s, |rows|)
  {
    if rows != [] {
      var i := |rows| - 1;
      ErrorsCountRows(s, store, rows[..i]);
      var p, n := Validate(s, store, rows[..i]), RowNumber(s, i);
      var extra := OneRow(s, store, p, rows[i], n);
      ErrorRowsConcat(p.errors, extra);
      if extra != [] {
        assert n !in ErrorRows(p.errors);
      }
    }
  }

  /** A row either is accepted or adds errors, all under its own number. */
  lemma OneRow(s: Settings, store: Store, p: Progress, row: RawRow, n: nat) returns (extra: seq<RowError>)
    ensures var p' := ValidateRow(s, store, p, row, n);
      && p'.errors == p.errors + extra
      && ErrorRows(extra) == (if extra == [] then {} else {n})
      && |p'.rows| == |p.rows| + if extra == [] then 1 else 0
  {
    RowErrorsExactly(row, n);
    var p' := ValidateRow(s, store, p, row, n);
    extra := p'.errors[|p.errors|..];
    if extra != [] {
      assert extra[0] in extra;
      forall e | e in extra
        ensures e.rowNumber == n
      {
        if !RowValid(row) { assert extra == RowErrors(row, n); }
      }
      assert n in ErrorRows(extra) by { assert extra[0].rowNumber == n; }
    }
  }

  /** Every row is counted once: as valid or invalid, and each valid one as a create, an update or a skip. */
  lemma RowsAreAccounted(s: Settings, existing: seq<Record>, rows: seq<RawRow>)
    ensures var p := Validate(s, ById(existing), rows);
      && |p.rows| + |ErrorRows(p.errors)| == |rows|
      && CountAction(p.rows, Create) + CountAction(p.rows, Update) + CountAction(p.rows, Skip) == |p.rows|
  {
    ErrorsCountRows(s, ById(existing), rows);
    ActionsAddUp(Validate(s, ById(existing), rows).rows);
  }

  // ---------------------------------------------------------------------------
  // Application
  // ---------------------------------------------------------------------------

  function ApplyRow(store: Store, row: PreviewRow, now: string): Store {
    match row.action
    case Skip => store
    case Create => InsertionMap.Set(store, row.draft.subscriptionId, Record(row.draft, now, now))
    case Update =>
      var existing := InsertionMap.Get(store, row.draft.subscriptionId);
      InsertionMap.Set(store, row.draft.subscriptionId,
                       Record(row.draft, if existing.Some? then existing.value.createdAt else "", now))
  }

  function ApplyRows(store: Store, rows: seq<PreviewRow>, now: string): Store {
    if rows == [] then store else ApplyRow(ApplyRows(store, rows[..|rows| - 1], now), rows[|rows| - 1], now)
  }

  function Values(store: Store): seq<Record> {
    seq(|store|, i requires 0 <= i < |store| => store[i].value)
  }

  /** A stable sort by collated identifier. */
  function InsertRecord(s: Settings, r: Record, sorted: seq<Record>): seq<Record> {
    if sorted == [] || s.collation(r.draft.subscriptionId) < s.collation(sorted[0].draft.subscriptionId)
    then [r] + sorted
    else [sorted[0]] + InsertRecord(s, r, sorted[1..])
  }

  function SortRecords(s: Settings, rs: seq<Record>): seq<Record> {
    if rs == [] then [] else InsertRecord(s, rs[|rs| - 1], SortRecords(s, rs[..|rs| - 1]))
  }

  datatype Import = Import(completed: bool, importedCount: nat, updatedCount: nat, skippedCount: nat,
                           applied: seq<Record>)

  function ImportResult(s: Settings, existing: seq<Record>, rows: seq<RawRow>, now: string): Import {
    var p := Validate(s, ById(existing), rows);
    if p.errors != [] then Import(false, 0, 0, 0, existing)
    else Import(true, CountAction(p.rows, Create), CountAction(p.rows, Update), CountAction(p.rows, Skip),
                SortRecords(s, Values(ApplyRows(ById(existing), p.rows, now))))
  }

  method ImportSubscriptions(s: Settings, existing: seq<Record>, rows: seq<RawRow>, now: string) returns (r: Import)
    ensures r == ImportResult(s, existing, rows, now)
  {
    var validation := ValidateImport(s, existing, rows);
    if !validation.isValid {
      return Import(false, 0, 0, 0, existing);
    }
    var store := ById(existing);
    var imported, updated, skipped := 0, 0, 0;
    for i := 0 to |validation.rows|
      invariant store == ApplyRows(ById(existing), validation.rows[..i], now)
      invariant imported == CountAction(validation.rows[..i], Create)
      invariant updated == CountAction(validation.rows[..i], Update)
      invariant skipped == CountAction(validation.rows[..i], Skip)
    {
      assert validation.rows[..i + 1][..i] == validation.rows[..i];
      var row := validation.rows[i];
      match row.action {
        case Skip =>
          skipped := skipped + 1;
        case Update =>
          store := ApplyRow(store, row, now);
          updated := updated + 1;
        case Create =>
          store := ApplyRow(store, row, now);
          imported := imported + 1;
      }
    }
    assert validation.rows[..|validation.rows|] == validation.rows;
    return Import(true, imported, updated, skipped, SortRecords(s, Values(store)));
  }

  // ---------------------------------------------------------------------------
  // What an import does to the store
  // ---------------------------------------------------------------------------

  /** Distinct keys, and every record filed under its own identifier. */
  ghost predicate WellKeyed(m: Store) {
    Distinct(m) && forall i | 0 <= i < |m| :: m[i].value.draft.subscriptionId == m[i].key
  }

  lemma SetGet(m: Store, k: string, v: Record, x: string)
    ensures InsertionMap.Get(InsertionMap.Set(m, k, v), x) == if x == k then Some(v) else InsertionMap.Get(m, x)
  {
    var i, m' := IndexOf(m, k), InsertionMap.Set(m, k, v);
    if i < |m| {
      SameKeysSameIndex(m, m', x);
    } else if Has(m, x) {
      IndexInFront(m, [Pair(k, v)], x);
    } else {
      IndexBehind(m, [Pair(k, v)], x);
    }
  }

  lemma SetKeepsWellKeyed(m: Store, r: Record)
    requires WellKeyed(m)
    ensures WellKeyed(InsertionMap.Set(m, r.draft.subscriptionId, r))
  {
  }

  lemma {:induction false} ByIdWellKeyed(records: seq<Record>)
    ensures WellKeyed(ById(records))
  {
    if records != [] {
      ByIdWellKeyed(records[..|records| - 1]);
      SetKeepsWellKeyed(ById(records[..|records| - 1]), records[|records| - 1]);
    }
  }

  ghost predicate DistinctDrafts(rows: seq<PreviewRow>) {
    forall i, j | 0 <= i < j < |rows| :: rows[i].draft.subscriptionId != rows[j].draft.subscriptionId
  }

  /** The accepted rows name different identifiers, and their actions were chosen against `store`. */
  ghost predicate Decided(s: Settings, store: Store, rows: seq<PreviewRow>) {
    && DistinctDrafts(rows)
    && forall i | 0 <= i < |rows| ::
        rows[i].action == ActionFor(s, InsertionMap.Get(store, rows[i].draft.subscriptionId), rows[i].draft)
  }

  lemma {:induction false} ValidatedRows(s: Settings, store: Store, rows: seq<RawRow>)
    ensures var p := Validate(s, store, rows);
      && Decided(s, store, p.rows)
      && forall i | 0 <= i < |p.rows| :: p.rows[i].draft.subscriptionId in p.seen
  {
    if rows != [] {
      ValidatedRows(s, store, rows[..|rows| - 1]);
    }
  }

  /** What identifier `id` holds after the rows: its row's values, or what it held before. */
  ghost predicate Effect(s: Settings, before: Store, after: Store, rows: seq<PreviewRow>, id: string) {
    var b, a := InsertionMap.Get(before, id), InsertionMap.Get(after, id);
    && ((forall i | 0 <= i < |rows| :: rows[i].draft.subscriptionId != id) ==> a == b)
    && (forall i | 0 <= i < |rows| && rows[i].draft.subscriptionId == id ::
          && a.Some? && s.json(a.value.draft) == s.json(rows[i].draft)
          && (b.Some? ==> a.value.createdAt == b.value.createdAt))
  }

  lemma {:induction false} ApplyEffect(s: Settings, store: Store, rows: seq<PreviewRow>, now: string, id: string)
    requires WellKeyed(store) && Decided(s, store, rows)
    ensures WellKeyed(ApplyRows(store, rows, now))
    ensures Effect(s, store, ApplyRows(store, rows, now), rows, id)
  {
    if rows != [] {
      var front, row := rows[..|rows| - 1], rows[|rows| - 1];
      assert rows == front + [row];
      var k := row.draft.subscriptionId;
      ApplyEffect(s, store, front, now, id);
      ApplyEffect(s, store, front, now, k);
      var mid := ApplyRows(store, front, now);
      assert InsertionMap.Get(mid, k) == InsertionMap.Get(store, k);
      var held := InsertionMap.Get(mid, k);
      var c := if row.action == Create || held == None then now else held.value.createdAt;
      if row.action != Skip {
        SetKeepsWellKeyed(mid, Record(row.draft, c, now));
        SetGet(mid, k, Record(row.draft, c, now), id);
        assert ApplyRows(store, rows, now) == InsertionMap.Set(mid, k, Record(row.draft, c, now));
      }
    }
  }

  /**
   A completed import, seen per identifier: a row's identifier ends up with the row's values and
   keeps the creation time it had; every other record is untouched.
   */
  lemma ImportEffect(s: Settings, existing: seq<Record>, rows: seq<RawRow>, now: string, id: string)
    ensures var p := Validate(s, ById(existing), rows);
      Effect(s, ById(existing), ApplyRows(ById(existing), p.rows, now), p.rows, id)
  {
    ByIdWellKeyed(existing);
    ValidatedRows(s, ById(existing), rows);
    ApplyEffect(s, ById(existing), Validate(s, ById(existing), rows).rows, now, id);
  }

  // ---------------------------------------------------------------------------
  // Importing twice
  // ---------------------------------------------------------------------------

  ghost predicate Collated(s: Settings, rs: seq<Record>) {
    forall i, j | 0 <= i < j < |rs| ::
        s.collation(rs[i].draft.subscriptionId) <= s.collation(rs[j].draft.subscriptionId)
  }

  lemma {:induction false} InsertKeepsCollated(s: Settings, r: Record, rs: seq<Record>)
    requires Collated(s, rs)
    ensures Collated(s, InsertRecord(s, r, rs)) && multiset(InsertRecord(s, r, rs)) == multiset(rs) + multiset{r}
  {
    if rs != [] && s.collation(r.draft.subscriptionId) >= s.collation(rs[0].draft.subscriptionId) {
      InsertKeepsCollated(s, r, rs[1..]);
      PrependCollated(s, rs[0], rs[1..], r, InsertRecord(s, r, rs[1..]));
      assert rs == [rs[0]] + rs[1..];
    }
  }

  lemma PrependCollated(s: Settings, first: Record, rest: seq<Record>, r: Record, rest': seq<Record>)
    requires Collated(s, rest') && multiset(rest') == multiset(rest) + multiset{r}
    requires s.collation(first.draft.subscriptionId) <= s.collation(r.draft.subscriptionId)
    requires forall q | q in rest :: s.collation(first.draft.subscriptionId) <= s.collation(q.draft.subscriptionId)
    ensures Collated(s, [first] + rest') && multiset([first] + rest') == multiset([first] + rest) + multiset{r}
  {
    forall i | 0 <= i < |rest'|
      ensures s.collation(first.draft.subscriptionId) <= s.collation(rest'[i].draft.subscriptionId)
    {
      assert rest'[i] in multiset(rest');
    }
  }

  lemma {:induction false} SortCollates(s: Settings, rs: seq<Record>)
    ensures Collated(s, SortRecords(s, rs)) && multiset(SortRecords(s, rs)) == multiset(rs)
  {
    if rs != [] {
      var front, last := rs[..|rs| - 1], rs[|rs| - 1];
      assert rs == front + [last];
      SortCollates(s, front);
      InsertKeepsCollated(s, last, SortRecords(s, front));
    }
  }

  lemma {:induction false} InsertAtEnd(s: Settings, r: Record, rs: seq<Record>)
    requires Collated(s, rs + [r])
    ensures InsertRecord(s, r, rs) == rs + [r]
  {
    if rs != [] {
      assert (rs + [r])[0] == rs[0] && (rs + [r])[|rs|] == r;
      assert (rs + [r])[1..] == rs[1..] + [r];
      InsertAtEnd(s, r, rs[1..]);
      assert [rs[0]] + (rs[1..] + [r]) == rs + [r];
    }
  }

  /** The stable sort leaves a sorted list alone. */
  lemma {:induction false} SortedStays(s: Settings, rs: seq<Record>)
    requires Collated(s, rs)
    ensures SortRecords(s, rs) == rs
  {
    if rs != [] {
      var front := rs[..|rs| - 1];
      SortedStays(s, front);
      assert rs == front + [rs[|rs| - 1]];
      InsertAtEnd(s, rs[|rs| - 1], front);
    }
  }

  ghost predicate DistinctIds(rs: seq<Record>) {
    forall i, j | 0 <= i < j < |rs| :: rs[i].draft.subscriptionId != rs[j].draft.subscriptionId
  }

  /** Filing a list of records with different identifiers keeps the list. */
  lemma {:induction false} FilingDistinct(rs: seq<Record>)
    requires DistinctIds(rs)
    ensures Values(ById(rs)) == rs && Keys(ById(rs)) == set r | r in rs :: r.draft.subscriptionId
    ensures |ById(rs)| == |rs| && forall i | 0 <= i < |rs| :: ById(rs)[i] == Pair(rs[i].draft.subscriptionId, rs[i])
  {
    if rs != [] {
      var front, last := rs[..|rs| - 1], rs[|rs| - 1];
      assert rs == front + [last];
      FilingDistinct(front);
      var m, k := ById(front), last.draft.subscriptionId;
      KeysMember(m, k);
      KeysConcat(m, [Pair(k, last)]);
    }
  }

  lemma FiledGet(rs: seq<Record>, r: Record)
    requires DistinctIds(rs) && r in rs
    ensures InsertionMap.Get(ById(rs), r.draft.subscriptionId) == Some(r)
  {
    FilingDistinct(rs);
    var i :| 0 <= i < |rs| && rs[i] == r;
    IndexIsUnique(ById(rs), r.draft.subscriptionId, i);
  }

  lemma DistinctIdsPermute(a: seq<Record>, b: seq<Record>)
    requires DistinctIds(a) && multiset(a) == multiset(b)
    ensures DistinctIds(b)
  {
    forall i, j | 0 <= i < j < |b|
      ensures b[i].draft.subscriptionId != b[j].draft.subscriptionId
    {
      DifferentIds(a, b, i, j);
    }
  }

  lemma DifferentIds(a: seq<Record>, b: seq<Record>, i: nat, j: nat)
    requires DistinctIds(a) && multiset(a) == multiset(b) && i < j < |b|
    ensures b[i].draft.subscriptionId != b[j].draft.subscriptionId
  {
    assert b[i] in multiset(a) && b[j] in multiset(a);
    var p :| 0 <= p < |a| && a[p] == b[i];
    var q :| 0 <= q < |a| && a[q] == b[j];
    if p == q {
      Twice(b, i, j);
      Once(a, p);
    }
  }

  lemma Twice(b: seq<Record>, i: nat, j: nat)
    requires i < j < |b| && b[i] == b[j]
    ensures multiset(b)[b[i]] >= 2
  {
    assert b == b[..j] + b[j..];
    assert b[..j][i] == b[i] && b[i] in b[..j];
    assert b[j..][0] == b[i] && b[i] in b[j..];
  }

  lemma Once(a: seq<Record>, p: nat)
    requires DistinctIds(a) && p < |a|
    ensures multiset(a)[a[p]] == 1
  {
    assert a == a[..p] + ([a[p]] + a[p + 1..]);
    assert a[p] !in a[..p] && a[p] !in a[p + 1..];
    assert multiset(a) == multiset(a[..p]) + (multiset{a[p]} + multiset(a[p + 1..]));
  }

  /** What the second import finds for every row of the first. */
  ghost predicate AllMatch(s: Settings, store: Store, rows: seq<RawRow>) {
    forall i | 0 <= i < |rows| && RowValid(rows[i]) ::
      var d := DraftOf(s.merchantId, rows[i]);
      var r := InsertionMap.Get(store, d.subscriptionId);
      r.Some? && s.json(r.value.draft) == s.json(d)
  }

  /** Against a store that already matches, the same rows pass again and all are skips. */
  lemma {:induction false} SecondValidation(s: Settings, first: Store, second: Store, rows: seq<RawRow>)
    requires s.upsert && Validate(s, first, rows).errors == [] && AllMatch(s, second, rows)
    ensures var p, q := Validate(s, first, rows), Validate(s, second, rows);
      && q.errors == [] && q.seen == p.seen && |q.rows| == |p.rows|
      && forall i | 0 <= i < |q.rows| :: q.rows[i] == p.rows[i].(action := Skip)
  {
    if rows != [] {
      var i := |rows| - 1;
      var p0 := Validate(s, first, rows[..i]);
      assert p0.errors == [] by {
        RowErrorsExactly(rows[i], RowNumber(s, i));
      }
      SecondValidation(s, first, second, rows[..i]);
      RowErrorsExactly(rows[i], RowNumber(s, i));
      assert RowValid(rows[i]);
    }
  }

  /** A row that passed is one of the accepted rows. */
  lemma {:induction false} AcceptedRow(s: Settings, store: Store, rows: seq<RawRow>, i: nat)
    requires Validate(s, store, rows).errors == [] && i < |rows|
    ensures RowValid(rows[i])
    ensures var accepted := Validate(s, store, rows).rows;
      exists j :: 0 <= j < |accepted| && accepted[j].draft == DraftOf(s.merchantId, rows[i])
  {
    var n := |rows| - 1;
    var p0, p := Validate(s, store, rows[..n]), Validate(s, store, rows);
    RowPasses(s, store, p0, rows[n], RowNumber(s, n));
    if i < n {
      AcceptedRow(s, store, rows[..n], i);
      var j :| 0 <= j < |p0.rows| && p0.rows[j].draft == DraftOf(s.merchantId, rows[i]);
      assert p.rows[j] == p0.rows[j];
    } else {
      assert p.rows[|p0.rows|].draft == DraftOf(s.merchantId, rows[i]);
    }
  }

  /** A row that leaves no error behind is valid and appended to the accepted rows. */
  lemma RowPasses(s: Settings, store: Store, p: Progress, row: RawRow, n: nat)
    requires ValidateRow(s, store, p, row, n).errors == []
    ensures var p' := ValidateRow(s, store, p, row, n);
      && p.errors == [] && RowValid(row)
      && |p'.rows| == |p.rows| + 1 && p'.rows[..|p.rows|] == p.rows
      && p'.rows[|p.rows|].draft == DraftOf(s.merchantId, row)
  {
    RowErrorsExactly(row, n);
  }

  lemma {:induction false} SkipsChangeNothing(store: Store, rows: seq<PreviewRow>, now: string)
    requires forall i | 0 <= i < |rows| :: rows[i].action == Skip
    ensures ApplyRows(store, rows, now) == store
    ensures CountAction(rows, Skip) == |rows| && CountAction(rows, Create) == 0 && CountAction(rows, Update) == 0
  {
    if rows != [] { SkipsChangeNothing(store, rows[..|rows| - 1], now); }
  }

  lemma ValuesDistinct(m: Store)
    requires WellKeyed(m)
    ensures DistinctIds(Values(m))
  {
  }

  /** The result of a completed import, filed again, holds what the import left under every identifier. */
  lemma RefiledGet(s: Settings, m: Store, id: string)
    requires WellKeyed(m) && InsertionMap.Get(m, id).Some?
    ensures DistinctIds(SortRecords(s, Values(m)))
    ensures InsertionMap.Get(ById(SortRecords(s, Values(m))), id) == InsertionMap.Get(m, id)
  {
    var sorted := SortRecords(s, Values(m));
    SortCollates(s, Values(m));
    ValuesDistinct(m);
    DistinctIdsPermute(Values(m), sorted);
    var r := m[IndexOf(m, id)].value;
    assert Values(m)[IndexOf(m, id)] == r;
    assert r in multiset(sorted);
    FiledGet(sorted, r);
  }

  /**
   Idempotence: running a completed import a second time, with updates allowed, on its own result
   completes again, marks every row as a skip, and returns exactly the same records.
   */
  lemma ImportTwice(s: Settings, existing: seq<Record>, rows: seq<RawRow>, now: string, later: string)
    requires s.upsert && ImportResult(s, existing, rows, now).completed
    ensures var first := ImportResult(s, existing, rows, now);
      ImportResult(s, first.applied, rows, later) == Import(true, 0, 0, |rows|, first.applied)
  {
    var store := ById(existing);
    var p := Validate(s, store, rows);
    var m := ApplyRows(store, p.rows, now);
    var applied := SortRecords(s, Values(m));
    ByIdWellKeyed(existing);
    ValidatedRows(s, store, rows);
    ApplyEffect(s, store, p.rows, now, "");
    forall i | 0 <= i < |rows| && RowValid(rows[i])
      ensures var d := DraftOf(s.merchantId, rows[i]);
        var r := InsertionMap.Get(ById(applied), d.subscriptionId);
        r.Some? && s.json(r.value.draft) == s.json(d)
    {
      var d := DraftOf(s.merchantId, rows[i]);
      AcceptedRow(s, store, rows, i);
      ApplyEffect(s, store, p.rows, now, d.subscriptionId);
      RefiledGet(s, m, d.subscriptionId);
    }
    SecondValidation(s, store, ById(applied), rows);
    SecondApplication(s, m, Validate(s, ById(applied), rows).rows, later);
    RowsAreAccounted(s, existing, rows);
  }

  lemma SecondApplication(s: Settings, m: Store, rows: seq<PreviewRow>, later: string)
    requires WellKeyed(m) && forall i | 0 <= i < |rows| :: rows[i].action == Skip
    ensures var applied := SortRecords(s, Values(m));
      SortRecords(s, Values(ApplyRows(ById(applied), rows, later))) == applied
    ensures CountAction(rows, Skip) == |rows| && CountAction(rows, Create) == 0 && CountAction(rows, Update) == 0
  {
    var applied := SortRecords(s, Values(m));
    SkipsChangeNothing(ById(applied), rows, later);
    SortCollates(s, Values(m));
    ValuesDistinct(m);
    DistinctIdsPermute(Values(m), applied);
    FilingDistinct(applied);
    SortedStays(s, applied);
  }
}
