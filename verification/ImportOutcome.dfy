/**
 The outcome of a bulk import read off its input: which rows are refused and why, what each accepted
 row becomes, and what every identifier holds afterwards (api/src/utils/importExport.ts).
 */
module ImportOutcome {
  import opened InsertionMap
  import opened Options
  import opened SubscriptionImport

  // ---------------------------------------------------------------------------
  // Rows
  // ---------------------------------------------------------------------------

  /** The row is refused for this column alone. */
  predicate Wrong(row: RawRow, field: string) {
    || (field == "subscriptionId" && row.subscriptionId == "")
    || (field == "customerEmail" && (row.customerEmail == Missing || row.customerEmail == Invalid))
    || (field == "planId" && row.planId == "")
    || (field == "status" && (row.status == Missing || row.status == Invalid))
    || (field == "currency" && (row.currency == Missing || row.currency == Invalid))
    || (field == "interval" && (row.interval == Missing || row.interval == Invalid))
    || (field == "startDate" && (row.startDate == Missing || row.startDate == Invalid))
    || (field == "nextBillingDate" && row.nextBillingDate == Invalid)
    || (field == "metadata" && row.metadata == Invalid)
    || (field == "amount" && (row.amount == Missing || row.amount == Invalid))
  }

  /** A row with nothing wrong in it. */
  ghost predicate Good(row: RawRow) {
    forall field :: !Wrong(row, field)
  }

  /** What an accepted row becomes: each field is the value of its own column, or the import's merchant. */
  predicate DraftFrom(merchantId: string, row: RawRow, d: Draft) {
    && d.merchantId == merchantId
    && row.subscriptionId == d.subscriptionId
    && row.customerEmail == Valid(d.customerEmail)
    && row.planId == d.planId
    && row.status == Valid(d.status)
    && row.amount == Valid(d.amount)
    && row.currency == Valid(d.currency)
    && row.interval == Valid(d.interval)
    && row.startDate == Valid(d.startDate)
    && row.nextBillingDate == (match d.nextBillingDate case None => Missing case Some(text) => Valid(text))
    && row.metadata == (match d.metadata case None => Missing case Some(text) => Valid(text))
  }

  lemma TextErrorExactly(n: nat, field: string, value: string, e: RowError)
    ensures e in TextError(n, field, value) <==> e.rowNumber == n && e.field == field && value == ""
  {
  }

  lemma RequiredErrorExactly(n: nat, field: string, c: Column, e: RowError)
    ensures e in RequiredError(n, field, c) <==> e.rowNumber == n && e.field == field && (c == Missing || c == Invalid)
  {
  }

  lemma OptionalErrorExactly(n: nat, field: string, c: Column, e: RowError)
    ensures e in OptionalError(n, field, c) <==> e.rowNumber == n && e.field == field && c == Invalid
  {
  }

  lemma InEither<T>(x: T, a: seq<T>, b: seq<T>)
    ensures x in a + b <==> x in a || x in b
  {
  }

  lemma InTen<T>(x: T, a: seq<T>, b: seq<T>, c: seq<T>, d: seq<T>, e: seq<T>, f: seq<T>, g: seq<T>, h: seq<T>,
                 i: seq<T>, j: seq<T>)
    ensures x in a + b + c + d + e + f + g + h + i + j <==>
        x in a || x in b || x in c || x in d || x in e || x in f || x in g || x in h || x in i || x in j
  {
    InEither(x, a + b + c + d + e + f + g + h + i, j);
    InEither(x, a + b + c + d + e + f + g + h, i);
    InEither(x, a + b + c + d + e + f + g, h);
    InEither(x, a + b + c + d + e + f, g);
    InEither(x, a + b + c + d + e, f);
  }

  /** The errors of a row name its number and exactly its wrong columns. */
  lemma RowErrorsAreWrong(row: RawRow, n: nat, e: RowError)
    ensures e in RowErrors(row, n) <==> e.rowNumber == n && Wrong(row, e.field)
  {
    InTen(e, TextError(n, "subscriptionId", row.subscriptionId), RequiredError(n, "customerEmail", row.customerEmail),
          TextError(n, "planId", row.planId), RequiredError(n, "status", row.status),
          RequiredError(n, "currency", row.currency), RequiredError(n, "interval", row.interval),
          RequiredError(n, "startDate", row.startDate), OptionalError(n, "nextBillingDate", row.nextBillingDate),
          OptionalError(n, "metadata", row.metadata), RequiredError(n, "amount", row.amount));
    TextErrorExactly(n, "subscriptionId", row.subscriptionId, e);
    RequiredErrorExactly(n, "customerEmail", row.customerEmail, e);
    TextErrorExactly(n, "planId", row.planId, e);
    RequiredErrorExactly(n, "status", row.status, e);
    RequiredErrorExactly(n, "currency", row.currency, e);
    RequiredErrorExactly(n, "interval", row.interval, e);
    RequiredErrorExactly(n, "startDate", row.startDate, e);
    OptionalErrorExactly(n, "nextBillingDate", row.nextBillingDate, e);
    OptionalErrorExactly(n, "metadata", row.metadata, e);
    RequiredErrorExactly(n, "amount", row.amount, e);
  }

  lemma GoodIsValid(row: RawRow)
    ensures Good(row) <==> RowValid(row)
  {
    RowErrorsExactly(row, 0);
    if Good(row) {
      if RowErrors(row, 0) != [] { RowErrorsAreWrong(row, 0, RowErrors(row, 0)[0]); }
    } else {
      var field :| Wrong(row, field);
      RowErrorsAreWrong(row, 0, RowError(0, field));
    }
  }

  /** A good row gives one draft, and only a good row gives one. */
  lemma DraftExactly(merchantId: string, row: RawRow, d: Draft)
    requires Good(row)
    ensures RowValid(row)
    ensures d == DraftOf(merchantId, row) <==> DraftFrom(merchantId, row, d)
  {
    GoodIsValid(row);
  }

  // ---------------------------------------------------------------------------
  // Known identifiers
  // ---------------------------------------------------------------------------

  /** The k-th record is the last one of its identifier. */
  ghost predicate LastOf(records: seq<Record>, id: string, k: int) {
    && 0 <= k < |records| && records[k].draft.subscriptionId == id
    && forall j | k < j < |records| :: records[j].draft.subscriptionId != id
  }

  ghost predicate Filed(records: seq<Record>, id: string, r: Record) {
    exists k :: LastOf(records, id, k) && records[k] == r
  }

  ghost predicate Known(records: seq<Record>, id: string) {
    exists k | 0 <= k < |records| :: records[k].draft.subscriptionId == id
  }

  lemma LastOfNext(before: seq<Record>, last: Record, id: string, k: int)
    ensures LastOf(before + [last], id, k) <==>
        if last.draft.subscriptionId == id then k == |before| else LastOf(before, id, k)
  {
    var all := before + [last];
    assert all[|before|] == last;
    if LastOf(all, id, k) && k < |before| {
      forall j | k < j < |before|
        ensures before[j].draft.subscriptionId != id
      {
        assert all[j] == before[j];
      }
    }
  }

  /** Of several records with one identifier the last is the one that is filed. */
  lemma {:induction false} FiledExactly(records: seq<Record>, id: string, r: Record)
    ensures InsertionMap.Get(ById(records), id) == Some(r) <==> Filed(records, id, r)
    ensures InsertionMap.Get(ById(records), id) == None <==> !Known(records, id)
  {
    if records != [] {
      var before, last := records[..|records| - 1], records[|records| - 1];
      assert records == before + [last];
      FiledExactly(before, id, r);
      SetGet(ById(before), last.draft.subscriptionId, last, id);
      forall k
        ensures LastOf(records, id, k) <==>
            if last.draft.subscriptionId == id then k == |before| else LastOf(before, id, k)
      {
        LastOfNext(before, last, id, k);
      }
    }
  }

  // ---------------------------------------------------------------------------
  // Validation
  // ---------------------------------------------------------------------------

  /** The number a row is reported under: its line of a file with a heading, or its place in a list. */
  function LineOf(s: Settings, i: nat): nat {
    1 + i + if s.isCsv then 1 else 0
  }

  /** A good row in front of place `i` has the identifier. */
  ghost predicate NamedBefore(rows: seq<RawRow>, i: int, id: string) {
    exists j | 0 <= j < i && j < |rows| :: Good(rows[j]) && rows[j].subscriptionId == id
  }

  /** A good row whose identifier may not be imported: it came before, or is known and not to be updated. */
  ghost predicate Clashes(s: Settings, existing: seq<Record>, rows: seq<RawRow>, i: int)
    requires 0 <= i < |rows|
  {
    NamedBefore(rows, i, rows[i].subscriptionId) || (!s.upsert && Known(existing, rows[i].subscriptionId))
  }

  ghost predicate Complaint(s: Settings, existing: seq<Record>, rows: seq<RawRow>, i: int, e: RowError) {
    && 0 <= i < |rows| && e.rowNumber == LineOf(s, i)
    && if Good(rows[i]) then e.field == "subscriptionId" && Clashes(s, existing, rows, i) else Wrong(rows[i], e.field)
  }

  /** A new identifier is created, a known one left alone if the values are the same and else updated. */
  ghost predicate Chosen(s: Settings, existing: seq<Record>, d: Draft, a: Action) {
    match a
    case Create => !Known(existing, d.subscriptionId)
    case Skip => exists r :: Filed(existing, d.subscriptionId, r) && s.json(d) == s.json(r.draft)
    case Update => exists r :: Filed(existing, d.subscriptionId, r) && s.json(d) != s.json(r.draft)
  }

  ghost predicate Accepted(s: Settings, existing: seq<Record>, rows: seq<RawRow>, i: int, x: PreviewRow) {
    && 0 <= i < |rows| && Good(rows[i]) && !Clashes(s, existing, rows, i)
    && x.rowNumber == LineOf(s, i) && DraftFrom(s.merchantId, rows[i], x.draft)
    && Chosen(s, existing, x.draft, x.action)
  }

  lemma SeenNext(s: Settings, store: Store, p: Progress, row: RawRow, n: nat)
    ensures ValidateRow(s, store, p, row, n).seen == p.seen + if Good(row) then {row.subscriptionId} else {}
  {
    GoodIsValid(row);
  }

  lemma {:induction false} SeenExactly(s: Settings, store: Store, rows: seq<RawRow>, id: string)
    ensures id in Validate(s, store, rows).seen <==> NamedBefore(rows, |rows|, id)
  {
    if rows != [] {
      var before, last := rows[..|rows| - 1], rows[|rows| - 1];
      assert rows == before + [last];
      SeenExactly(s, store, before, id);
      SeenNext(s, store, Validate(s, store, before), last, RowNumber(s, |before|));
      NamedNext(before, last, id);
    }
  }

  lemma NamedNext(before: seq<RawRow>, last: RawRow, id: string)
    ensures NamedBefore(before + [last], |before| + 1, id) <==>
        NamedBefore(before, |before|, id) || (Good(last) && last.subscriptionId == id)
    ensures forall i | 0 <= i <= |before| :: NamedBefore(before + [last], i, id) <==> NamedBefore(before, i, id)
  {
    var rows := before + [last];
    assert rows[|before|] == last;
    forall j | 0 <= j < |before|
      ensures rows[j] == before[j]
    {
    }
  }

  lemma ChosenExactly(s: Settings, existing: seq<Record>, d: Draft, a: Action)
    ensures a == ActionFor(s, InsertionMap.Get(ById(existing), d.subscriptionId), d) <==> Chosen(s, existing, d, a)
  {
    var found := InsertionMap.Get(ById(existing), d.subscriptionId);
    KnownExactly(existing, d.subscriptionId);
    forall r
      ensures found == Some(r) <==> Filed(existing, d.subscriptionId, r)
    {
      FiledExactly(existing, d.subscriptionId, r);
    }
    if found.Some? { assert Filed(existing, d.subscriptionId, found.value); }
  }

  lemma KnownExactly(existing: seq<Record>, id: string)
    ensures InsertionMap.Get(ById(existing), id) == None <==> !Known(existing, id)
  {
    if k :| 0 <= k < |existing| && existing[k].draft.subscriptionId == id {
      FiledExactly(existing, id, existing[k]);
    } else if InsertionMap.Get(ById(existing), id).Some? {
      FiledExactly(existing, id, InsertionMap.Get(ById(existing), id).value);
    }
  }

  /** A row adds exactly its complaints to the errors. */
  lemma ErrorsNext(s: Settings, existing: seq<Record>, before: seq<RawRow>, last: RawRow, e: RowError)
    ensures var rows, p := before + [last], Validate(s, ById(existing), before);
      e in ValidateRow(s, ById(existing), p, last, RowNumber(s, |before|)).errors <==>
          e in p.errors || Complaint(s, existing, rows, |before|, e)
  {
    var rows, n := before + [last], RowNumber(s, |before|);
    assert rows[|before|] == last;
    GoodIsValid(last);
    RowErrorsAreWrong(last, n, e);
    SeenExactly(s, ById(existing), before, last.subscriptionId);
    NamedNext(before, last, last.subscriptionId);
    KnownExactly(existing, last.subscriptionId);
  }

  lemma ComplaintsStay(s: Settings, existing: seq<Record>, before: seq<RawRow>, last: RawRow, i: int, e: RowError)
    requires i < |before|
    ensures Complaint(s, existing, before + [last], i, e) <==> Complaint(s, existing, before, i, e)
  {
    if 0 <= i { NamedNext(before, last, before[i].subscriptionId); }
  }

  /** Validation reports exactly the complaints. */
  lemma {:induction false} ErrorsExactly(s: Settings, existing: seq<Record>, rows: seq<RawRow>, e: RowError)
    ensures e in Validate(s, ById(existing), rows).errors <==> exists i :: Complaint(s, existing, rows, i, e)
  {
    if rows != [] {
      var before, last := rows[..|rows| - 1], rows[|rows| - 1];
      assert rows == before + [last];
      ErrorsExactly(s, existing, before, e);
      ErrorsNext(s, existing, before, last, e);
      forall i | i < |before|
        ensures Complaint(s, existing, rows, i, e) <==> Complaint(s, existing, before, i, e)
      {
        ComplaintsStay(s, existing, before, last, i, e);
      }
    }
  }

  lemma RowsNext(s: Settings, existing: seq<Record>, before: seq<RawRow>, last: RawRow, x: PreviewRow)
    ensures var rows, p := before + [last], Validate(s, ById(existing), before);
      x in ValidateRow(s, ById(existing), p, last, RowNumber(s, |before|)).rows <==>
          x in p.rows || Accepted(s, existing, rows, |before|, x)
  {
    var rows := before + [last];
    assert rows[|before|] == last;
    GoodIsValid(last);
    SeenExactly(s, ById(existing), before, last.subscriptionId);
    NamedNext(before, last, last.subscriptionId);
    KnownExactly(existing, last.subscriptionId);
    if Good(last) {
      DraftExactly(s.merchantId, last, x.draft);
      ChosenExactly(s, existing, x.draft, x.action);
    }
  }

  lemma AcceptedStays(s: Settings, existing: seq<Record>, before: seq<RawRow>, last: RawRow, i: int, x: PreviewRow)
    requires i < |before|
    ensures Accepted(s, existing, before + [last], i, x) <==> Accepted(s, existing, before, i, x)
  {
    if 0 <= i { NamedNext(before, last, before[i].subscriptionId); }
  }

  /**
   Validation accepts exactly the good rows whose identifier may be imported, in the order of the
   input, each with its own columns' values and the action its identifier calls for.
   */
  lemma {:induction false} RowsExactly(s: Settings, existing: seq<Record>, rows: seq<RawRow>, x: PreviewRow)
    ensures x in Validate(s, ById(existing), rows).rows <==> exists i :: Accepted(s, existing, rows, i, x)
  {
    if rows != [] {
      var before, last := rows[..|rows| - 1], rows[|rows| - 1];
      assert rows == before + [last];
      RowsExactly(s, existing, before, x);
      RowsNext(s, existing, before, last, x);
      forall i | i < |before|
        ensures Accepted(s, existing, rows, i, x) <==> Accepted(s, existing, before, i, x)
      {
        AcceptedStays(s, existing, before, last, i, x);
      }
    }
  }

  lemma RowAppended(s: Settings, store: Store, p: Progress, row: RawRow, n: nat)
    ensures var rows := ValidateRow(s, store, p, row, n).rows;
      rows == p.rows || (|rows| == |p.rows| + 1 && rows[..|p.rows|] == p.rows && rows[|p.rows|].rowNumber == n)
  {
  }

  ghost predicate Ascending(accepted: seq<PreviewRow>, below: nat) {
    && (forall a | 0 <= a < |accepted| :: accepted[a].rowNumber < below)
    && forall a, b | 0 <= a < b < |accepted| :: accepted[a].rowNumber < accepted[b].rowNumber
  }

  lemma AscendingNext(before: seq<PreviewRow>, accepted: seq<PreviewRow>, n: nat)
    requires Ascending(before, n)
    requires accepted == before || (|accepted| == |before| + 1 && accepted[..|before|] == before &&
                                    accepted[|before|].rowNumber == n)
    ensures Ascending(accepted, n + 1)
  {
    forall a | 0 <= a < |before|
      ensures accepted[a] == before[a]
    {
      if accepted != before { assert accepted[..|before|][a] == before[a]; }
    }
  }

  lemma {:induction false} RowsInOrder(s: Settings, store: Store, rows: seq<RawRow>)
    ensures Ascending(Validate(s, store, rows).rows, LineOf(s, |rows|))
  {
    if rows != [] {
      var i := |rows| - 1;
      RowsInOrder(s, store, rows[..i]);
      var before := Validate(s, store, rows[..i]);
      RowAppended(s, store, before, rows[i], LineOf(s, i));
      AscendingNext(before.rows, Validate(s, store, rows).rows, LineOf(s, i));
    }
  }

  function Places(rows: seq<PreviewRow>, a: Action): set<int> {
    set i | 0 <= i < |rows| && rows[i].action == a
  }

  lemma PlacesNext(front: seq<PreviewRow>, last: PreviewRow, a: Action)
    ensures |Places(front + [last], a)| == |Places(front, a)| + if last.action == a then 1 else 0
  {
    var all, n := front + [last], |front|;
    forall i
      ensures i in Places(all, a) <==> i in Places(front, a) || (i == n && last.action == a)
    {
      if 0 <= i < n { assert all[i] == front[i]; }
    }
    assert n !in Places(front, a);
    assert Places(all, a) == if last.action == a then Places(front, a) + {n} else Places(front, a);
  }

  /** The counters of a validation are the numbers of accepted rows with the action. */
  lemma {:induction false} ActionsAreCounted(rows: seq<PreviewRow>, a: Action)
    ensures CountAction(rows, a) == |Places(rows, a)|
  {
    if rows != [] {
      var front, n := rows[..|rows| - 1], |rows| - 1;
      ActionsAreCounted(front, a);
      PlacesNext(front, rows[n], a);
      assert rows == front + [rows[n]];
    }
  }

  // ---------------------------------------------------------------------------
  // Application
  // ---------------------------------------------------------------------------

  /** What a record with the values `d` becomes on import. */
  ghost predicate Becomes(s: Settings, existing: seq<Record>, d: Draft, now: string, r: Record) {
    if !Known(existing, d.subscriptionId) then r == Record(d, now, now)
    else
      exists q :: Filed(existing, d.subscriptionId, q) &&
          r == if s.json(d) == s.json(q.draft) then q else Record(d, q.createdAt, now)
  }

  ghost predicate Brought(s: Settings, existing: seq<Record>, rows: seq<RawRow>, now: string, i: int, r: Record) {
    && 0 <= i < |rows| && rows[i].subscriptionId == r.draft.subscriptionId
    && exists d :: DraftFrom(s.merchantId, rows[i], d) && Becomes(s, existing, d, now, r)
  }

  ghost predicate Named(rows: seq<RawRow>, id: string) {
    exists i | 0 <= i < |rows| :: rows[i].subscriptionId == id
  }

  /** What an accepted row makes of the record held under its identifier. */
  function Written(x: PreviewRow, held: Option<Record>, now: string): Option<Record> {
    match x.action
    case Skip => held
    case Create => Some(Record(x.draft, now, now))
    case Update => Some(Record(x.draft, if held.Some? then held.value.createdAt else "", now))
  }

  lemma ApplyRowGet(store: Store, x: PreviewRow, now: string, id: string)
    ensures InsertionMap.Get(ApplyRow(store, x, now), id) ==
        if id == x.draft.subscriptionId then Written(x, InsertionMap.Get(store, id), now)
        else InsertionMap.Get(store, id)
  {
    var k, held := x.draft.subscriptionId, InsertionMap.Get(store, x.draft.subscriptionId);
    match x.action
    case Skip =>
    case Create => SetGet(store, k, Record(x.draft, now, now), id);
    case Update => SetGet(store, k, Record(x.draft, if held.Some? then held.value.createdAt else "", now), id);
  }

  lemma {:induction false} UnnamedStays(store: Store, rows: seq<PreviewRow>, now: string, id: string)
    requires forall i | 0 <= i < |rows| :: rows[i].draft.subscriptionId != id
    ensures InsertionMap.Get(ApplyRows(store, rows, now), id) == InsertionMap.Get(store, id)
  {
    if rows != [] {
      var front := rows[..|rows| - 1];
      UnnamedStays(store, front, now, id);
      ApplyRowGet(ApplyRows(store, front, now), rows[|rows| - 1], now, id);
    }
  }

  lemma {:induction false} NamedIsWritten(store: Store, rows: seq<PreviewRow>, now: string, j: nat)
    requires DistinctDrafts(rows) && j < |rows|
    ensures var id := rows[j].draft.subscriptionId;
      InsertionMap.Get(ApplyRows(store, rows, now), id) == Written(rows[j], InsertionMap.Get(store, id), now)
  {
    var n, id := |rows| - 1, rows[j].draft.subscriptionId;
    ApplyRowGet(ApplyRows(store, rows[..n], now), rows[n], now, id);
    if j < n {
      NamedIsWritten(store, rows[..n], now, j);
    } else {
      UnnamedStays(store, rows[..n], now, id);
    }
  }

  lemma WrittenExactly(s: Settings, existing: seq<Record>, x: PreviewRow, now: string, r: Record)
    requires Chosen(s, existing, x.draft, x.action)
    ensures Written(x, InsertionMap.Get(ById(existing), x.draft.subscriptionId), now) == Some(r) <==>
        Becomes(s, existing, x.draft, now, r)
  {
    var id := x.draft.subscriptionId;
    KnownExactly(existing, id);
    forall q
      ensures InsertionMap.Get(ById(existing), id) == Some(q) <==> Filed(existing, id, q)
    {
      FiledExactly(existing, id, q);
    }
    ChosenExactly(s, existing, x.draft, x.action);
  }

  /** The records returned are those held under their own identifiers. */
  lemma ReturnedExactly(s: Settings, m: Store, r: Record)
    requires WellKeyed(m)
    ensures r in SortRecords(s, Values(m)) <==> InsertionMap.Get(m, r.draft.subscriptionId) == Some(r)
  {
    SortCollates(s, Values(m));
    assert r in SortRecords(s, Values(m)) <==> r in multiset(Values(m));
    if r in Values(m) {
      var i :| 0 <= i < |Values(m)| && Values(m)[i] == r;
      IndexIsUnique(m, r.draft.subscriptionId, i);
    }
    if InsertionMap.Get(m, r.draft.subscriptionId) == Some(r) {
      assert Values(m)[IndexOf(m, r.draft.subscriptionId)] == r;
    }
  }

  // ---------------------------------------------------------------------------
  // The whole import
  // ---------------------------------------------------------------------------

  lemma CompletedRows(s: Settings, existing: seq<Record>, rows: seq<RawRow>, i: nat, d: Draft)
    returns (j: nat)
    requires Validate(s, ById(existing), rows).errors == [] && i < |rows| && DraftFrom(s.merchantId, rows[i], d)
    ensures var p := Validate(s, ById(existing), rows); j < |p.rows| && p.rows[j].draft == d
  {
    var p := Validate(s, ById(existing), rows);
    AcceptedRow(s, ById(existing), rows, i);
    GoodIsValid(rows[i]);
    DraftExactly(s.merchantId, rows[i], d);
    j :| 0 <= j < |p.rows| && p.rows[j].draft == DraftOf(s.merchantId, rows[i]);
  }

  /** Under the identifier of an accepted row is what the row becomes. */
  lemma AcceptedIsBrought(s: Settings, existing: seq<Record>, rows: seq<RawRow>, now: string, j: nat, r: Record)
    requires Validate(s, ById(existing), rows).errors == [] && j < |Validate(s, ById(existing), rows).rows|
    requires Validate(s, ById(existing), rows).rows[j].draft.subscriptionId == r.draft.subscriptionId
    ensures var p := Validate(s, ById(existing), rows);
      InsertionMap.Get(ApplyRows(ById(existing), p.rows, now), r.draft.subscriptionId) == Some(r) <==>
          exists i :: Brought(s, existing, rows, now, i, r)
  {
    var p, id := Validate(s, ById(existing), rows), r.draft.subscriptionId;
    var x := p.rows[j];
    ValidatedRows(s, ById(existing), rows);
    NamedIsWritten(ById(existing), p.rows, now, j);
    RowsExactly(s, existing, rows, x);
    assert x in p.rows;
    var i :| Accepted(s, existing, rows, i, x);
    WrittenExactly(s, existing, x, now, r);
    if Becomes(s, existing, x.draft, now, r) {
      assert Brought(s, existing, rows, now, i, r);
    }
    if i' :| Brought(s, existing, rows, now, i', r) {
      var d :| DraftFrom(s.merchantId, rows[i'], d) && Becomes(s, existing, d, now, r);
      var j' := CompletedRows(s, existing, rows, i', d);
      assert j' == j;
    }
  }

  lemma UnnamedInRows(s: Settings, existing: seq<Record>, rows: seq<RawRow>, id: string)
    requires Validate(s, ById(existing), rows).errors == []
    ensures var p := Validate(s, ById(existing), rows);
      Named(rows, id) <==> exists j :: 0 <= j < |p.rows| && p.rows[j].draft.subscriptionId == id
  {
    var p := Validate(s, ById(existing), rows);
    if i :| 0 <= i < |rows| && rows[i].subscriptionId == id {
      AcceptedRow(s, ById(existing), rows, i);
    }
    if j :| 0 <= j < |p.rows| && p.rows[j].draft.subscriptionId == id {
      RowsExactly(s, existing, rows, p.rows[j]);
      assert p.rows[j] in p.rows;
      var i :| Accepted(s, existing, rows, i, p.rows[j]);
      assert rows[i].subscriptionId == id;
    }
  }

  /**
   An import completes exactly when no row draws a complaint, and changes nothing otherwise.  The
   completed import returns exactly the records of identifiers it does not name, as they were, and
   what each row becomes: in the order of the collation, one record for each identifier.
   */
  lemma ImportExactly(s: Settings, existing: seq<Record>, rows: seq<RawRow>, now: string, r: Record)
    ensures var result := ImportResult(s, existing, rows, now);
      && (result.completed <==> forall i, e :: !Complaint(s, existing, rows, i, e))
      && (!result.completed ==> result == Import(false, 0, 0, 0, existing))
      && (result.completed ==>
            && DistinctIds(result.applied) && Collated(s, result.applied)
            && (r in result.applied <==>
                  if Named(rows, r.draft.subscriptionId) then exists i :: Brought(s, existing, rows, now, i, r)
                  else Filed(existing, r.draft.subscriptionId, r)))
  {
    CompletesExactly(s, existing, rows);
    if Validate(s, ById(existing), rows).errors == [] {
      HeldExactly(s, existing, rows, now, r);
      AppliedShape(s, existing, rows, now);
    }
  }

  lemma CompletesExactly(s: Settings, existing: seq<Record>, rows: seq<RawRow>)
    ensures Validate(s, ById(existing), rows).errors == [] <==> forall i, e :: !Complaint(s, existing, rows, i, e)
  {
    var errors := Validate(s, ById(existing), rows).errors;
    forall i, e | Complaint(s, existing, rows, i, e)
      ensures e in errors
    {
      ErrorsExactly(s, existing, rows, e);
    }
    if errors != [] { ErrorsExactly(s, existing, rows, errors[0]); }
  }

  lemma AppliedShape(s: Settings, existing: seq<Record>, rows: seq<RawRow>, now: string)
    requires Validate(s, ById(existing), rows).errors == []
    ensures var m := ApplyRows(ById(existing), Validate(s, ById(existing), rows).rows, now);
      WellKeyed(m) && DistinctIds(SortRecords(s, Values(m))) && Collated(s, SortRecords(s, Values(m)))
  {
    var p := Validate(s, ById(existing), rows);
    var m := ApplyRows(ById(existing), p.rows, now);
    ByIdWellKeyed(existing);
    ValidatedRows(s, ById(existing), rows);
    ApplyEffect(s, ById(existing), p.rows, now, "");
    SortCollates(s, Values(m));
    ValuesDistinct(m);
    DistinctIdsPermute(Values(m), SortRecords(s, Values(m)));
  }

  lemma HeldExactly(s: Settings, existing: seq<Record>, rows: seq<RawRow>, now: string, r: Record)
    requires Validate(s, ById(existing), rows).errors == []
    ensures var m := ApplyRows(ById(existing), Validate(s, ById(existing), rows).rows, now);
      r in SortRecords(s, Values(m)) <==>
        if Named(rows, r.draft.subscriptionId) then exists i :: Brought(s, existing, rows, now, i, r)
        else Filed(existing, r.draft.subscriptionId, r)
  {
    var p, id := Validate(s, ById(existing), rows), r.draft.subscriptionId;
    AppliedShape(s, existing, rows, now);
    ReturnedExactly(s, ApplyRows(ById(existing), p.rows, now), r);
    UnnamedInRows(s, existing, rows, id);
    if j :| 0 <= j < |p.rows| && p.rows[j].draft.subscriptionId == id {
      AcceptedIsBrought(s, existing, rows, now, j, r);
    } else {
      UnnamedStays(ById(existing), p.rows, now, id);
      FiledExactly(existing, id, r);
    }
  }
}
