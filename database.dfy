/** The SQLite store of the scrapers: the `attorneys`, `practice_areas` and
    `scrape_logs` tables, the statements `insert_attorney`,
    `start_scrape_log` and `update_scrape_log` run on them, and the query of
    `search_attorneys`.  Each statement is a function from the tables before
    to the tables after; the `Connection` class runs them in place. */
module Database {
  import opened Wrappers
  import opened Strings
  import opened Sql

  // ---------------------------------------------------------------------
  // Rows

  /** The dictionary `insert_attorney` is given.  Every column is read with
      `get`, so a missing key binds `NULL`; a missing `practice_areas` is
      the empty list. */
  datatype AttorneyData = AttorneyData(
    barNumber: Option<string>, state: Option<string>, firstName: Option<string>,
    lastName: Option<string>, fullName: Option<string>, status: Option<string>,
    admissionDate: Option<string>, firmName: Option<string>, city: Option<string>,
    county: Option<string>, address: Option<string>, email: Option<string>,
    phone: Option<string>, website: Option<string>, lawSchool: Option<string>,
    graduationYear: Option<string>, practiceAreas: seq<string>)

  /** A row of `attorneys`; `state` and `full_name` are `NOT NULL`. */
  datatype AttorneyRow = AttorneyRow(
    id: int, barNumber: Option<string>, state: string, firstName: Option<string>,
    lastName: Option<string>, fullName: string, status: Option<string>,
    admissionDate: Option<string>, firmName: Option<string>, city: Option<string>,
    county: Option<string>, address: Option<string>, email: Option<string>,
    phone: Option<string>, website: Option<string>, lawSchool: Option<string>,
    graduationYear: Option<string>, createdAt: string, updatedAt: string)

  /** A row of `practice_areas`. */
  datatype AreaRow = AreaRow(id: int, attorneyId: int, area: string, isPrimary: bool)

  /** A row of `scrape_logs`; only `state` is `NOT NULL`, and no column
      affinity is applied to the values stored, except that the rowid takes
      an integer numeral as its integer. */
  datatype LogRow = LogRow(
    id: int, state: SqlValue, startedAt: SqlValue, completedAt: SqlValue,
    attorneysFound: SqlValue, attorneysAdded: SqlValue, attorneysUpdated: SqlValue,
    errors: SqlValue, status: SqlValue, notes: SqlValue)

  /** The three tables, their `AUTOINCREMENT` counters (`sqlite_sequence`)
      and the connection's `last_insert_rowid()`. */
  datatype Db = Db(
    attorneys: seq<AttorneyRow>, areas: seq<AreaRow>, logs: seq<LogRow>,
    attorneySeq: int, areaSeq: int, logSeq: int, lastRowid: int)

  /** The tables right after `init_database`. */
  const EmptyDb := Db([], [], [], 0, 0, 0, 0)

  // ---------------------------------------------------------------------
  // Keys and row ids

  /** The rowid `AUTOINCREMENT` picks: one more than the largest of the
      counter and the rowids in the table. */
  function NextRowid(counter: int, ids: seq<int>): (r: int)
    ensures r > counter && forall k :: 0 <= k < |ids| ==> r > ids[k]
    ensures r - 1 == counter || exists k :: 0 <= k < |ids| && r - 1 == ids[k]
  {
    if ids == [] then counter + 1
    else
      var m := NextRowid(counter, ids[1..]);
      assert forall k :: 1 <= k < |ids| ==> ids[k] == ids[1..][k - 1];
      if ids[0] >= m then ids[0] + 1 else m
  }

  /** The rowids of a table, read through its `id` column `id`. */
  function RowIds<T>(rows: seq<T>, id: T -> int): (r: seq<int>)
    ensures |r| == |rows| && forall k :: 0 <= k < |rows| ==> r[k] == id(rows[k])
  {
    seq(|rows|, k requires 0 <= k < |rows| => id(rows[k]))
  }

  /** The `id` columns of the three tables. */
  const AttorneyId: AttorneyRow -> int := (r: AttorneyRow) => r.id
  const AreaId: AreaRow -> int := (r: AreaRow) => r.id
  const LogId: LogRow -> int := (r: LogRow) => r.id

  /** `row` holds the key `(bar, state)` of `UNIQUE(bar_number, state)`. */
  predicate HoldsKey(row: AttorneyRow, bar: string, state: string) {
    row.barNumber == Some(bar) && row.state == state
  }

  /** The row the new data conflicts with, if any.  A `NULL` bar number
      never equals anything, so it never conflicts. */
  function KeyIndex(rows: seq<AttorneyRow>, bar: Option<string>, state: string): (r: Option<nat>)
    ensures r.Some? ==> bar.Some? && r.value < |rows| && HoldsKey(rows[r.value], bar.value, state)
    ensures r.None? ==> bar.None? || forall k :: 0 <= k < |rows| ==> !HoldsKey(rows[k], bar.value, state)
  {
    if bar.None? then None else KeyFrom(rows, bar.value, state, 0)
  }

  function KeyFrom(rows: seq<AttorneyRow>, bar: string, state: string, from: nat): (r: Option<nat>)
    ensures r.Some? ==> from <= r.value < |rows| && HoldsKey(rows[r.value], bar, state)
    ensures r.None? ==> forall k :: from <= k < |rows| ==> !HoldsKey(rows[k], bar, state)
    decreases |rows| - from
  {
    if from >= |rows| then None
    else if HoldsKey(rows[from], bar, state) then Some(from)
    else KeyFrom(rows, bar, state, from + 1)
  }

  // ---------------------------------------------------------------------
  // Invariants of the tables

  /** Rowids are unique and no two rows share a non-`NULL` key. */
  ghost predicate ValidAttorneys(rows: seq<AttorneyRow>) {
    (forall j, k :: 0 <= j < k < |rows| ==> rows[j].id != rows[k].id)
    && (forall j, k :: 0 <= j < k < |rows| && rows[j].barNumber.Some? ==>
          !HoldsKey(rows[k], rows[j].barNumber.value, rows[j].state))
  }

  /** Rowids are unique and so is `(attorney_id, practice_area)`. */
  ghost predicate ValidAreas(rows: seq<AreaRow>) {
    (forall j, k :: 0 <= j < k < |rows| ==> rows[j].id != rows[k].id)
    && (forall j, k :: 0 <= j < k < |rows| ==>
          rows[j].attorneyId != rows[k].attorneyId || rows[j].area != rows[k].area)
  }

  /** Rowids are unique and `state` is never `NULL`. */
  ghost predicate ValidLogs(rows: seq<LogRow>) {
    (forall j, k :: 0 <= j < k < |rows| ==> rows[j].id != rows[k].id)
    && (forall k :: 0 <= k < |rows| ==> rows[k].state != Null)
  }

  ghost predicate Valid(db: Db) {
    ValidAttorneys(db.attorneys) && ValidAreas(db.areas) && ValidLogs(db.logs)
  }

  lemma EmptyDbValid()
    ensures Valid(EmptyDb)
  {
  }

  // ---------------------------------------------------------------------
  // insert_attorney: the upsert

  /** The row a first insert stores: the sixteen bound columns, and both
      timestamps from `CURRENT_TIMESTAMP`. */
  function NewAttorneyRow(id: int, d: AttorneyData, now: string): AttorneyRow
    requires d.state.Some? && d.fullName.Some?
  {
    AttorneyRow(id, d.barNumber, d.state.value, d.firstName, d.lastName, d.fullName.value,
                d.status, d.admissionDate, d.firmName, d.city, d.county, d.address, d.email,
                d.phone, d.website, d.lawSchool, d.graduationYear, now, now)
  }

  /** `DO UPDATE SET`: eleven columns take the new values and `updated_at`
      is refreshed. */
  function Merge(row: AttorneyRow, d: AttorneyData, now: string): AttorneyRow
    requires d.fullName.Some?
  {
    row.(firstName := d.firstName, lastName := d.lastName, fullName := d.fullName.value,
         status := d.status, firmName := d.firmName, city := d.city, county := d.county,
         address := d.address, email := d.email, phone := d.phone, website := d.website,
         updatedAt := now)
  }

  /** The upsert's outcome: the new table and counter, the connection's
      `last_insert_rowid()` afterwards, and the rowid of the row that now
      holds the data. */
  datatype Upserted = Upserted(rows: seq<AttorneyRow>, counter: int, lastRowid: int, holder: int)

  /** The `INSERT ... ON CONFLICT(bar_number, state) DO UPDATE` statement.
      A `NULL` state or full name fails the `NOT NULL` checks, which come
      before the conflict test.  A rowid is drawn from `AUTOINCREMENT`
      before the conflict test, so an update also advances the counter;
      only a real insert sets `last_insert_rowid()`. */
  function Upsert(db: Db, d: AttorneyData, now: string): Try<Upserted> {
    if d.state.None? || d.fullName.None? then Raised
    else
      var id := NextRowid(db.attorneySeq, RowIds(db.attorneys, AttorneyId));
      match KeyIndex(db.attorneys, d.barNumber, d.state.value)
      case Some(k) =>
        Returned(Upserted(db.attorneys[k := Merge(db.attorneys[k], d, now)], id, db.lastRowid, db.attorneys[k].id))
      case None =>
        Returned(Upserted(db.attorneys + [NewAttorneyRow(id, d, now)], id, id, id))
  }

  /** The new data nowhere conflicts: a row is appended and nothing else
      changes; with a `NULL` bar number this is always the case. */
  lemma UpsertInserts(db: Db, d: AttorneyData, now: string, u: Upserted)
    requires Upsert(db, d, now) == Returned(u)
    requires d.barNumber.None? || forall k :: 0 <= k < |db.attorneys| ==> !HoldsKey(db.attorneys[k], d.barNumber.value, d.state.value)
    ensures |u.rows| == |db.attorneys| + 1 && u.rows[..|db.attorneys|] == db.attorneys
    ensures u.rows[|db.attorneys|] == NewAttorneyRow(u.holder, d, now)
    ensures u.holder == u.lastRowid && forall k :: 0 <= k < |db.attorneys| ==> db.attorneys[k].id < u.holder
  {
  }

  /** A record without a bar number always adds a row. */
  lemma NullBarAlwaysAdds(db: Db, d: AttorneyData, now: string)
    requires d.barNumber.None? && d.state.Some? && d.fullName.Some?
    ensures Upsert(db, d, now).Returned?
    ensures |Upsert(db, d, now).value.rows| == |db.attorneys| + 1
    ensures Upsert(db, d, now).value.rows[..|db.attorneys|] == db.attorneys
  {
  }

  /** On conflict with row `k`, the eleven updated columns and `updated_at`
      take the new values; the rowid, the key, `admission_date`,
      `law_school`, `graduation_year` and `created_at` keep the stored ones;
      every other row is unchanged. */
  lemma UpsertUpdates(db: Db, d: AttorneyData, now: string, u: Upserted, k: nat)
    requires Upsert(db, d, now) == Returned(u)
    requires d.barNumber.Some? && k < |db.attorneys| && HoldsKey(db.attorneys[k], d.barNumber.value, d.state.value)
    requires ValidAttorneys(db.attorneys)
    ensures |u.rows| == |db.attorneys| && u.lastRowid == db.lastRowid && u.holder == db.attorneys[k].id
    ensures forall j :: 0 <= j < |db.attorneys| && j != k ==> u.rows[j] == db.attorneys[j]
    ensures var old_, new_ := db.attorneys[k], u.rows[k];
            new_.firstName == d.firstName && new_.lastName == d.lastName
            && Some(new_.fullName) == d.fullName && new_.status == d.status
            && new_.firmName == d.firmName && new_.city == d.city && new_.county == d.county
            && new_.address == d.address && new_.email == d.email && new_.phone == d.phone
            && new_.website == d.website && new_.updatedAt == now
            && new_.id == old_.id && new_.barNumber == old_.barNumber && new_.state == old_.state
            && new_.admissionDate == old_.admissionDate && new_.lawSchool == old_.lawSchool
            && new_.graduationYear == old_.graduationYear && new_.createdAt == old_.createdAt
  {
  }

  /** After a successful upsert with a bar number, exactly one row holds
      the key, and it is the row the statement wrote. */
  lemma UpsertOneRowPerKey(db: Db, d: AttorneyData, now: string, u: Upserted)
    requires Upsert(db, d, now) == Returned(u) && d.barNumber.Some? && ValidAttorneys(db.attorneys)
    ensures exists k :: 0 <= k < |u.rows| && HoldsKey(u.rows[k], d.barNumber.value, d.state.value)
                        && u.rows[k].id == u.holder
                        && forall j :: 0 <= j < |u.rows| && j != k ==> !HoldsKey(u.rows[j], d.barNumber.value, d.state.value)
  {
    var b, s := d.barNumber.value, d.state.value;
    match KeyIndex(db.attorneys, d.barNumber, s)
    case Some(k) =>
      UpsertUpdates(db, d, now, u, k);
      assert forall j :: 0 <= j < |u.rows| && j != k ==> u.rows[j] == db.attorneys[j];
    case None =>
      UpsertInserts(db, d, now, u);
      var n := |db.attorneys|;
      assert forall j :: 0 <= j < n ==> u.rows[j] == db.attorneys[j];
      assert HoldsKey(u.rows[n], b, s);
  }

  /** The upsert keeps rowids and keys unique. */
  lemma UpsertKeepsValid(db: Db, d: AttorneyData, now: string, u: Upserted)
    requires Upsert(db, d, now) == Returned(u) && ValidAttorneys(db.attorneys)
    ensures ValidAttorneys(u.rows)
  {
    var n := |db.attorneys|;
    match KeyIndex(db.attorneys, d.barNumber, d.state.value)
    case Some(k) =>
      UpsertUpdates(db, d, now, u, k);
    case None =>
      UpsertInserts(db, d, now, u);
      assert forall j :: 0 <= j < n ==> u.rows[j] == db.attorneys[j];
  }

  /** Upserting two records with the same non-`NULL` key leaves one row for
      the key, carrying the second record's name. */
  lemma TwoUpsertsOneRow(db: Db, d1: AttorneyData, d2: AttorneyData, now: string, u1: Upserted, u2: Upserted)
    requires ValidAttorneys(db.attorneys)
    requires d1.barNumber.Some? && d1.barNumber == d2.barNumber && d1.state == d2.state
    requires Upsert(db, d1, now) == Returned(u1)
    requires Upsert(db.(attorneys := u1.rows, attorneySeq := u1.counter, lastRowid := u1.lastRowid), d2, now) == Returned(u2)
    ensures exists k :: 0 <= k < |u2.rows| && HoldsKey(u2.rows[k], d1.barNumber.value, d1.state.value)
                        && Some(u2.rows[k].fullName) == d2.fullName && u2.rows[k].id == u1.holder
                        && forall j :: 0 <= j < |u2.rows| && j != k ==> !HoldsKey(u2.rows[j], d1.barNumber.value, d1.state.value)
  {
    var db1 := db.(attorneys := u1.rows, attorneySeq := u1.counter, lastRowid := u1.lastRowid);
    UpsertKeepsValid(db, d1, now, u1);
    UpsertOneRowPerKey(db, d1, now, u1);
    var k :| 0 <= k < |u1.rows| && HoldsKey(u1.rows[k], d1.barNumber.value, d1.state.value) && u1.rows[k].id == u1.holder
             && forall j :: 0 <= j < |u1.rows| && j != k ==> !HoldsKey(u1.rows[j], d1.barNumber.value, d1.state.value);
    UpsertUpdates(db1, d2, now, u2, k);
    assert HoldsKey(u2.rows[k], d1.barNumber.value, d1.state.value);
  }

  // ---------------------------------------------------------------------
  // insert_attorney: the practice areas

  /** `attorney_id` already has `area`. */
  predicate HasArea(rows: seq<AreaRow>, attorneyId: int, area: string) {
    exists k :: 0 <= k < |rows| && rows[k].attorneyId == attorneyId && rows[k].area == area
  }

  /** One `INSERT OR IGNORE INTO practice_areas`: a pair already stored is
      ignored (the drawn rowid still advances the counter); a new pair is
      appended and becomes `last_insert_rowid()`. */
  function AttachArea(db: Db, attorneyId: int, area: string, primary: bool): Db {
    var id := NextRowid(db.areaSeq, RowIds(db.areas, AreaId));
    if HasArea(db.areas, attorneyId, area) then db.(areaSeq := id)
    else db.(areas := db.areas + [AreaRow(id, attorneyId, area, primary)], areaSeq := id, lastRowid := id)
  }

  /** One pass of the loop over the list: an empty entry is skipped, any
      other is stored stripped, as primary only at index 0. */
  function AreaStep(db: Db, attorneyId: int, area: string, i: nat): Db {
    if area == "" then db else AttachArea(db, attorneyId, Strip(area), i == 0)
  }

  /** The loop over a prefix of the list. */
  function Attached(db: Db, attorneyId: int, areas: seq<string>): Db {
    if areas == [] then db
    else AreaStep(Attached(db, attorneyId, areas[..|areas| - 1]), attorneyId, areas[|areas| - 1], |areas| - 1)
  }

  /** Entry `i` of `areas` is one the loop stores, as `area` and with
      primary flag `primary`. */
  predicate ListedAs(areas: seq<string>, i: int, area: string, primary: bool) {
    0 <= i < |areas| && areas[i] != "" && Strip(areas[i]) == area && primary == (i == 0)
  }

  /** The attach loop changes only `practice_areas`, its counter and
      `last_insert_rowid()`, and only appends to `practice_areas`. */
  lemma {:induction false} AttachedFrame(db: Db, attorneyId: int, areas: seq<string>)
    ensures var r := Attached(db, attorneyId, areas);
            r.attorneys == db.attorneys && r.logs == db.logs && r.attorneySeq == db.attorneySeq
            && r.logSeq == db.logSeq && |db.areas| <= |r.areas| && r.areas[..|db.areas|] == db.areas
    decreases |areas|
  {
    if areas != [] {
      var n := |areas| - 1;
      AttachedFrame(db, attorneyId, areas[..n]);
      var m := Attached(db, attorneyId, areas[..n]);
      AreaStepShape(m, attorneyId, areas[n], n);
      var r := Attached(db, attorneyId, areas);
      assert r.areas[..|db.areas|] == db.areas by {
        assert r.areas[..|m.areas|] == m.areas;
        assert m.areas[..|db.areas|] == db.areas;
      }
    }
  }

  /** `row` belongs to `attorneyId` and comes from a non-empty entry of
      `areas`: stripped, and primary exactly when it is the first entry. */
  ghost predicate FromList(areas: seq<string>, attorneyId: int, row: AreaRow) {
    row.attorneyId == attorneyId && exists i :: ListedAs(areas, i, row.area, row.isPrimary)
  }

  lemma FromListGrows(init: seq<string>, areas: seq<string>, attorneyId: int, row: AreaRow)
    requires |init| <= |areas| && init == areas[..|init|] && FromList(init, attorneyId, row)
    ensures FromList(areas, attorneyId, row)
  {
    var i :| ListedAs(init, i, row.area, row.isPrimary);
    assert init[i] == areas[i];
    assert ListedAs(areas, i, row.area, row.isPrimary);
  }

  /** Every row the loop appends comes from the list. */
  lemma {:induction false} AttachedNew(db: Db, attorneyId: int, areas: seq<string>)
    ensures var r := Attached(db, attorneyId, areas);
            forall j :: |db.areas| <= j < |r.areas| ==> FromList(areas, attorneyId, r.areas[j])
    decreases |areas|
  {
    if areas != [] {
      var n := |areas| - 1;
      AttachedNew(db, attorneyId, areas[..n]);
      var m := Attached(db, attorneyId, areas[..n]);
      AttachedFrame(db, attorneyId, areas[..n]);
      AreaStepShape(m, attorneyId, areas[n], n);
      var r := AreaStep(m, attorneyId, areas[n], n);
      NewRowsStep(|db.areas|, m.areas, r.areas, r.areaSeq, areas, attorneyId);
    }
  }

  /** One pass keeps every appended row traceable to the list. */
  lemma NewRowsStep(base: nat, before: seq<AreaRow>, after: seq<AreaRow>, id: int, areas: seq<string>, attorneyId: int)
    requires areas != [] && base <= |before|
    requires forall j :: base <= j < |before| ==> FromList(areas[..|areas| - 1], attorneyId, before[j])
    requires after == before
             || (areas[|areas| - 1] != "" && after == before + [AreaRow(id, attorneyId, Strip(areas[|areas| - 1]), |areas| - 1 == 0)])
    ensures forall j :: base <= j < |after| ==> FromList(areas, attorneyId, after[j])
  {
    var n := |areas| - 1;
    forall j | base <= j < |after| ensures FromList(areas, attorneyId, after[j]) {
      if j < |before| {
        assert after[j] == before[j];
        FromListGrows(areas[..n], areas, attorneyId, before[j]);
      } else {
        assert ListedAs(areas, n, after[j].area, after[j].isPrimary);
      }
    }
  }

  /** After the loop every non-empty entry is stored, stripped, for
      `attorneyId`. */
  lemma {:induction false} AttachedStores(db: Db, attorneyId: int, areas: seq<string>)
    ensures var r := Attached(db, attorneyId, areas);
            forall i :: 0 <= i < |areas| && areas[i] != "" ==> HasArea(r.areas, attorneyId, Strip(areas[i]))
    decreases |areas|
  {
    if areas != [] {
      var n := |areas| - 1;
      AttachedStores(db, attorneyId, areas[..n]);
      var m := Attached(db, attorneyId, areas[..n]);
      AreaStepShape(m, attorneyId, areas[n], n);
      var r := AreaStep(m, attorneyId, areas[n], n);
      assert Attached(db, attorneyId, areas) == r;
      if areas[n] != "" {
        AreaStepStores(m, attorneyId, areas[n], n);
      }
      StoredStep(m.areas, r.areas, areas[..n], areas, attorneyId);
    }
  }

  /** One pass keeps what was stored and adds the current entry. */
  lemma StoredStep(before: seq<AreaRow>, after: seq<AreaRow>, init: seq<string>, areas: seq<string>, attorneyId: int)
    requires areas != [] && init == areas[..|areas| - 1] && |before| <= |after| && after[..|before|] == before
    requires forall i :: 0 <= i < |init| && init[i] != "" ==> HasArea(before, attorneyId, Strip(init[i]))
    requires areas[|areas| - 1] != "" ==> HasArea(after, attorneyId, Strip(areas[|areas| - 1]))
    ensures forall i :: 0 <= i < |areas| && areas[i] != "" ==> HasArea(after, attorneyId, Strip(areas[i]))
  {
    var n := |areas| - 1;
    forall i | 0 <= i < |areas| && areas[i] != "" ensures HasArea(after, attorneyId, Strip(areas[i])) {
      if i < n {
        assert init[i] == areas[i];
        var k :| 0 <= k < |before| && before[k].attorneyId == attorneyId && before[k].area == Strip(areas[i]);
        assert after[k] == before[k];
      }
    }
  }

  /** The loop keeps rowids and `(attorney_id, practice_area)` unique. */
  lemma {:induction false} AttachedValid(db: Db, attorneyId: int, areas: seq<string>)
    requires ValidAreas(db.areas)
    ensures ValidAreas(Attached(db, attorneyId, areas).areas)
    decreases |areas|
  {
    if areas != [] {
      var n := |areas| - 1;
      AttachedValid(db, attorneyId, areas[..n]);
      AreaStepValid(Attached(db, attorneyId, areas[..n]), attorneyId, areas[n], n);
    }
  }

  /** One pass leaves the other tables alone and either keeps
      `practice_areas` or appends the stripped entry, with its flag, when
      the pair is new. */
  lemma AreaStepShape(db: Db, attorneyId: int, area: string, i: nat)
    ensures var r := AreaStep(db, attorneyId, area, i);
            r.attorneys == db.attorneys && r.logs == db.logs && r.attorneySeq == db.attorneySeq
            && r.logSeq == db.logSeq && |db.areas| <= |r.areas| && r.areas[..|db.areas|] == db.areas
            && (r.areas == db.areas
                || (area != "" && !HasArea(db.areas, attorneyId, Strip(area))
                    && r.areas == db.areas + [AreaRow(r.areaSeq, attorneyId, Strip(area), i == 0)]))
  {
  }

  lemma AreaStepStores(db: Db, attorneyId: int, area: string, i: nat)
    requires area != ""
    ensures HasArea(AreaStep(db, attorneyId, area, i).areas, attorneyId, Strip(area))
  {
    var a := Strip(area);
    var r := AreaStep(db, attorneyId, area, i);
    if !HasArea(db.areas, attorneyId, a) {
      assert r.areas[|db.areas|].attorneyId == attorneyId && r.areas[|db.areas|].area == a;
    } else {
      var k :| 0 <= k < |db.areas| && db.areas[k].attorneyId == attorneyId && db.areas[k].area == a;
      assert r.areas[k] == db.areas[k];
    }
  }

  lemma AreaStepValid(db: Db, attorneyId: int, area: string, i: nat)
    requires ValidAreas(db.areas)
    ensures ValidAreas(AreaStep(db, attorneyId, area, i).areas)
  {
    var r := AreaStep(db, attorneyId, area, i);
    if area != "" && !HasArea(db.areas, attorneyId, Strip(area)) {
      var n := |db.areas|;
      assert r.areas[n] == AreaRow(NextRowid(db.areaSeq, RowIds(db.areas, AreaId)), attorneyId, Strip(area), i == 0);
      forall j, k | 0 <= j < k < |r.areas|
        ensures r.areas[j].id != r.areas[k].id
        ensures r.areas[j].attorneyId != r.areas[k].attorneyId || r.areas[j].area != r.areas[k].area
      {
        assert r.areas[j] == db.areas[j];
        if k == n {
          assert db.areas[j].id == RowIds(db.areas, AreaId)[j];
        } else {
          assert r.areas[k] == db.areas[k];
        }
      }
    }
  }

  /** Attaching entries that are all stored already changes no row. */
  lemma {:induction false} AttachStored(db: Db, attorneyId: int, areas: seq<string>)
    requires forall i :: 0 <= i < |areas| && areas[i] != "" ==> HasArea(db.areas, attorneyId, Strip(areas[i]))
    ensures Attached(db, attorneyId, areas).areas == db.areas
    decreases |areas|
  {
    if areas != [] {
      var n := |areas| - 1;
      var init := areas[..n];
      forall i | 0 <= i < n && init[i] != "" ensures HasArea(db.areas, attorneyId, Strip(init[i])) {
        assert init[i] == areas[i];
      }
      AttachStored(db, attorneyId, init);
      AreaStepShape(Attached(db, attorneyId, init), attorneyId, areas[n], n);
    }
  }

  /** Attaching the same list again is a no-op on `practice_areas`. */
  lemma AttachIdempotent(db: Db, attorneyId: int, areas: seq<string>)
    ensures var once := Attached(db, attorneyId, areas);
            Attached(once, attorneyId, areas).areas == once.areas
  {
    AttachedStores(db, attorneyId, areas);
    AttachStored(Attached(db, attorneyId, areas), attorneyId, areas);
  }

  /** At most one of the rows the loop appends is primary, and only when
      the first entry of the list is non-empty. */
  lemma AtMostOnePrimary(db: Db, attorneyId: int, areas: seq<string>)
    requires ValidAreas(db.areas)
    ensures var r := Attached(db, attorneyId, areas);
            forall j :: |db.areas| <= j < |r.areas| && r.areas[j].isPrimary ==> areas[0] != "" && r.areas[j].area == Strip(areas[0])
    ensures var r := Attached(db, attorneyId, areas);
            forall j, k :: |db.areas| <= j < k < |r.areas| ==> !(r.areas[j].isPrimary && r.areas[k].isPrimary)
  {
    var r := Attached(db, attorneyId, areas);
    forall j | |db.areas| <= j < |r.areas| && r.areas[j].isPrimary
      ensures areas[0] != "" && r.areas[j].area == Strip(areas[0])
    {
      PrimaryFromFirst(db, attorneyId, areas, j);
    }
    AttachedValid(db, attorneyId, areas);
  }

  lemma PrimaryFromFirst(db: Db, attorneyId: int, areas: seq<string>, j: int)
    requires |db.areas| <= j < |Attached(db, attorneyId, areas).areas|
    requires Attached(db, attorneyId, areas).areas[j].isPrimary
    ensures areas[0] != "" && Attached(db, attorneyId, areas).areas[j].area == Strip(areas[0])
  {
    AttachedNew(db, attorneyId, areas);
    var row := Attached(db, attorneyId, areas).areas[j];
    assert FromList(areas, attorneyId, row);
    var i :| ListedAs(areas, i, row.area, row.isPrimary);
  }

  // ---------------------------------------------------------------------
  // insert_attorney

  /** `insert_attorney` as written: the rowid it reports, and attaches the
      practice areas to, is `cursor.lastrowid` right after the upsert. */
  function Insert(db: Db, d: AttorneyData, now: string): (Db, Option<int>) {
    match Upsert(db, d, now)
    case Raised => (db, None)
    case Returned(u) =>
      var db1 := db.(attorneys := u.rows, attorneySeq := u.counter, lastRowid := u.lastRowid);
      (Attached(db1, u.lastRowid, d.practiceAreas), Some(u.lastRowid))
  }

  /** `insert_attorney` as evidently intended: the rowid of the row that
      holds the data. */
  function InsertKeyed(db: Db, d: AttorneyData, now: string): (Db, Option<int>) {
    match Upsert(db, d, now)
    case Raised => (db, None)
    case Returned(u) =>
      var db1 := db.(attorneys := u.rows, attorneySeq := u.counter, lastRowid := u.lastRowid);
      (Attached(db1, u.holder, d.practiceAreas), Some(u.holder))
  }

  /** Both versions return `None`, changing nothing, exactly when the
      statement fails: a missing state or full name. */
  lemma InsertFails(db: Db, d: AttorneyData, now: string)
    ensures Insert(db, d, now).1.None? <==> d.state.None? || d.fullName.None?
    ensures InsertKeyed(db, d, now).1.None? <==> d.state.None? || d.fullName.None?
    ensures Insert(db, d, now).1.None? ==> Insert(db, d, now).0 == db
    ensures InsertKeyed(db, d, now).1.None? ==> InsertKeyed(db, d, now).0 == db
  {
  }

  /** The corrected insert returns the rowid of the one row that holds the
      key, attaches every new practice area to that row, and keeps the
      tables valid. */
  lemma InsertKeyedHolder(db: Db, d: AttorneyData, now: string)
    requires Valid(db) && InsertKeyed(db, d, now).1.Some?
    ensures var (r, id) := InsertKeyed(db, d, now);
            Valid(r)
            && (exists k :: 0 <= k < |r.attorneys| && r.attorneys[k].id == id.value
                            && Some(r.attorneys[k].fullName) == d.fullName
                            && (d.barNumber.Some? ==> HoldsKey(r.attorneys[k], d.barNumber.value, d.state.value)))
            && (forall j :: |db.areas| <= j < |r.areas| ==> r.areas[j].attorneyId == id.value)
            && (forall i :: 0 <= i < |d.practiceAreas| && d.practiceAreas[i] != "" ==>
                  HasArea(r.areas, id.value, Strip(d.practiceAreas[i])))
  {
    var u := Upsert(db, d, now).value;
    var db1 := db.(attorneys := u.rows, attorneySeq := u.counter, lastRowid := u.lastRowid);
    UpsertKeepsValid(db, d, now, u);
    AttachedFrame(db1, u.holder, d.practiceAreas);
    AttachedNew(db1, u.holder, d.practiceAreas);
    AttachedStores(db1, u.holder, d.practiceAreas);
    AttachedValid(db1, u.holder, d.practiceAreas);
    match KeyIndex(db.attorneys, d.barNumber, d.state.value)
    case Some(k) =>
      UpsertUpdates(db, d, now, u, k);
      assert u.rows[k].id == u.holder;
    case None =>
      UpsertInserts(db, d, now, u);
      assert u.rows[|db.attorneys|].id == u.holder;
  }

  /** Without a conflict the record as written behaves as intended: a row
      is appended, it becomes `last_insert_rowid()`, and that rowid is the
      one reported and given to the practice areas. */
  lemma InsertWithoutConflict(db: Db, d: AttorneyData, now: string)
    requires d.state.Some? && d.fullName.Some? && KeyIndex(db.attorneys, d.barNumber, d.state.value).None?
    ensures Insert(db, d, now) == InsertKeyed(db, d, now)
    ensures var (r, id) := Insert(db, d, now);
            id.Some? && |r.attorneys| == |db.attorneys| + 1 && r.attorneys[..|db.attorneys|] == db.attorneys
            && r.attorneys[|db.attorneys|] == NewAttorneyRow(id.value, d, now)
  {
    var u := Upsert(db, d, now).value;
    UpsertInserts(db, d, now, u);
    var db1 := db.(attorneys := u.rows, attorneySeq := u.counter, lastRowid := u.lastRowid);
    AttachedFrame(db1, u.holder, d.practiceAreas);
  }

  /** The insert as written keeps rowids and keys unique in every table,
      whatever rowid it attaches the practice areas to. */
  lemma InsertKeepsValid(db: Db, d: AttorneyData, now: string)
    requires Valid(db)
    ensures Valid(Insert(db, d, now).0)
  {
    match Upsert(db, d, now)
    case Raised =>
    case Returned(u) =>
      var db1 := db.(attorneys := u.rows, attorneySeq := u.counter, lastRowid := u.lastRowid);
      UpsertKeepsValid(db, d, now, u);
      AttachedFrame(db1, u.lastRowid, d.practiceAreas);
      AttachedValid(db1, u.lastRowid, d.practiceAreas);
  }

  /** As written, a conflicting insert reports (and attaches the areas to)
      whatever rowid the connection inserted last, not the updated row's. */
  lemma InsertStaleOnConflict(db: Db, d: AttorneyData, now: string, k: nat)
    requires ValidAttorneys(db.attorneys) && d.state.Some? && d.fullName.Some? && d.barNumber.Some?
    requires k < |db.attorneys| && HoldsKey(db.attorneys[k], d.barNumber.value, d.state.value)
    ensures Insert(db, d, now).1 == Some(db.lastRowid)
    ensures InsertKeyed(db, d, now).1 == Some(db.attorneys[k].id)
  {
    var u := Upsert(db, d, now).value;
    UpsertUpdates(db, d, now, u, k);
  }

  function Person(bar: string, name: string): AttorneyData {
    AttorneyData(Some(bar), Some("TX"), None, None, Some(name), Some("Active"), None, None,
                 None, None, None, None, None, None, None, None, [])
  }

  /** Insert A (bar 1), then B (bar 2), then A again: the third call reports
      rowid 2, B's row, although A's row is rowid 1. */
  lemma StaleIdExample(now: string)
    ensures var a, b, a2 := Person("1", "A"), Person("2", "B"), Person("1", "A2");
            var (db1, id1) := Insert(EmptyDb, a, now);
            var (db2, id2) := Insert(db1, b, now);
            var (db3, id3) := Insert(db2, a2, now);
            id1 == Some(1) && id2 == Some(2) && id3 == Some(2)
            && db3.attorneys[0].id == 1 && HoldsKey(db3.attorneys[0], "1", "TX")
            && InsertKeyed(db2, a2, now).1 == Some(1)
  {
    var a, b, a2 := Person("1", "A"), Person("2", "B"), Person("1", "A2");
    var db1 := EmptyDb.(attorneys := [NewAttorneyRow(1, a, now)], attorneySeq := 1, lastRowid := 1);
    var db2 := db1.(attorneys := db1.attorneys + [NewAttorneyRow(2, b, now)], attorneySeq := 2, lastRowid := 2);
    StaleIdFirstTwo(now, a, b, db1, db2);
    StaleIdThird(now, a2, db2);
  }

  /** The third insert of `StaleIdExample`, which conflicts with row 1. */
  lemma StaleIdThird(now: string, a2: AttorneyData, db2: Db)
    requires a2 == Person("1", "A2")
    requires db2.attorneys == [NewAttorneyRow(1, Person("1", "A"), now), NewAttorneyRow(2, Person("2", "B"), now)]
    requires db2.lastRowid == 2
    ensures Insert(db2, a2, now).1 == Some(2) && InsertKeyed(db2, a2, now).1 == Some(1)
    ensures Insert(db2, a2, now).0.attorneys[0].id == 1 && HoldsKey(Insert(db2, a2, now).0.attorneys[0], "1", "TX")
  {
    assert ValidAttorneys(db2.attorneys);
    InsertStaleOnConflict(db2, a2, now, 0);
    var u := Upsert(db2, a2, now).value;
    UpsertUpdates(db2, a2, now, u, 0);
    assert Insert(db2, a2, now).0.attorneys == u.rows by {
      AttachedFrame(db2.(attorneys := u.rows, attorneySeq := u.counter, lastRowid := u.lastRowid), u.lastRowid, []);
    }
  }

  /** The first two inserts of `StaleIdExample`, which add rows 1 and 2. */
  lemma StaleIdFirstTwo(now: string, a: AttorneyData, b: AttorneyData, db1: Db, db2: Db)
    requires a == Person("1", "A") && b == Person("2", "B")
    requires db1 == EmptyDb.(attorneys := [NewAttorneyRow(1, a, now)], attorneySeq := 1, lastRowid := 1)
    requires db2 == db1.(attorneys := db1.attorneys + [NewAttorneyRow(2, b, now)], attorneySeq := 2, lastRowid := 2)
    ensures Insert(EmptyDb, a, now) == (db1, Some(1)) && Insert(db1, b, now) == (db2, Some(2))
  {
    assert NextRowid(0, RowIds(EmptyDb.attorneys, AttorneyId)) == 1;
    InsertFreshNoAreas(EmptyDb, a, now);
    assert EmptyDb.attorneys + [NewAttorneyRow(1, a, now)] == db1.attorneys;
    assert !HoldsKey(db1.attorneys[0], "2", "TX");
    assert RowIds(db1.attorneys, AttorneyId) == [1];
    assert NextRowid(1, [1]) == 2;
    InsertFreshNoAreas(db1, b, now);
  }


  /** A record with no practice areas and no conflict is appended with the
      rowid `AUTOINCREMENT` draws, which becomes `last_insert_rowid()`. */
  lemma InsertFreshNoAreas(db: Db, d: AttorneyData, now: string)
    requires d.state.Some? && d.fullName.Some? && d.practiceAreas == []
    requires KeyIndex(db.attorneys, d.barNumber, d.state.value).None?
    ensures var id := NextRowid(db.attorneySeq, RowIds(db.attorneys, AttorneyId));
            Insert(db, d, now)
            == (db.(attorneys := db.attorneys + [NewAttorneyRow(id, d, now)], attorneySeq := id, lastRowid := id), Some(id))
  {
  }


  // ---------------------------------------------------------------------
  // Scrape logs

  /** `start_scrape_log`: a new entry with the given state, the start time,
      status `'running'` and the column defaults.  A `NULL` state fails the
      `NOT NULL` check and the exception reaches the caller. */
  function StartLog(db: Db, state: SqlValue, now: string): Try<(Db, int)> {
    if state == Null then Raised
    else
      var id := NextRowid(db.logSeq, RowIds(db.logs, LogId));
      var row := LogRow(id, state, Str(now), Null, Int(0), Int(0), Int(0), Int(0), Str("running"), Null);
      Returned((db.(logs := db.logs + [row], logSeq := id, lastRowid := id), id))
  }

  /** The new entry has a fresh id and the given state and status
      `'running'`; the earlier entries and the other tables are unchanged. */
  lemma StartLogFacts(db: Db, state: SqlValue, now: string)
    requires state != Null
    ensures StartLog(db, state, now).Returned?
    ensures var (r, id) := StartLog(db, state, now).value;
            |r.logs| == |db.logs| + 1 && r.logs[..|db.logs|] == db.logs
            && r.logs[|db.logs|].id == id && r.logs[|db.logs|].state == state
            && r.logs[|db.logs|].status == Str("running") && r.logs[|db.logs|].startedAt == Str(now)
            && (forall k :: 0 <= k < |db.logs| ==> db.logs[k].id != id)
            && r.attorneys == db.attorneys && r.areas == db.areas && r.lastRowid == id
            && (ValidLogs(db.logs) ==> ValidLogs(r.logs))
  {
    var (r, id) := StartLog(db, state, now).value;
    assert forall k :: 0 <= k < |db.logs| ==> db.logs[k].id == RowIds(db.logs, LogId)[k];
    assert forall k :: 0 <= k < |db.logs| ==> r.logs[k] == db.logs[k];
  }

  /** The columns of `scrape_logs`. */
  datatype LogColumn = IdCol | StateCol | StartedAtCol | CompletedAtCol | FoundCol
                     | AddedCol | UpdatedCol | ErrorsCol | StatusCol | NotesCol

  /** The names a `SET` clause may use for each column; `rowid`, `oid` and
      `_rowid_` name the `INTEGER PRIMARY KEY`. */
  const LogColumnNames: seq<(string, LogColumn)> :=
    [("id", IdCol), ("state", StateCol), ("started_at", StartedAtCol), ("completed_at", CompletedAtCol),
     ("attorneys_found", FoundCol), ("attorneys_added", AddedCol), ("attorneys_updated", UpdatedCol),
     ("errors", ErrorsCol), ("status", StatusCol), ("notes", NotesCol),
     ("rowid", IdCol), ("oid", IdCol), ("_rowid_", IdCol)]

  /** SQL identifiers compare with ASCII case folded. */
  predicate SameIdentifier(key: string, name: string) {
    |key| == |name| && forall k :: 0 <= k < |key| ==> ToLower(key[k]) == ToLower(name[k])
  }

  function ColumnFrom(key: string, i: nat): (r: Option<LogColumn>)
    ensures r.Some? ==> exists j :: i <= j < |LogColumnNames| && SameIdentifier(key, LogColumnNames[j].0) && LogColumnNames[j].1 == r.value
    ensures r.None? ==> forall j :: i <= j < |LogColumnNames| ==> !SameIdentifier(key, LogColumnNames[j].0)
    decreases |LogColumnNames| - i
  {
    if i >= |LogColumnNames| then None
    else if SameIdentifier(key, LogColumnNames[i].0) then Some(LogColumnNames[i].1)
    else ColumnFrom(key, i + 1)
  }

  /** The column a keyword argument names, if any. */
  function ColumnNamed(key: string): Option<LogColumn> {
    ColumnFrom(key, 0)
  }

  function Column(row: LogRow, c: LogColumn): SqlValue {
    match c
    case IdCol => Int(row.id)
    case StateCol => row.state
    case StartedAtCol => row.startedAt
    case CompletedAtCol => row.completedAt
    case FoundCol => row.attorneysFound
    case AddedCol => row.attorneysAdded
    case UpdatedCol => row.attorneysUpdated
    case ErrorsCol => row.errors
    case StatusCol => row.status
    case NotesCol => row.notes
  }

  /** The value column `c` holds once `v` is assigned to it: the rowid
      converts an integer-looking text to its integer, and every other
      column stores `v` as bound. */
  function Stored(c: LogColumn, v: SqlValue): SqlValue {
    if c == IdCol && RowidOf(v).Some? then Int(RowidOf(v).value) else v
  }

  /** One assignment of the `SET` clause.  The rowid only takes integers and
      texts that convert to one. */
  function Assign(row: LogRow, c: LogColumn, v: SqlValue): Try<LogRow> {
    match c
    case IdCol => if RowidOf(v).Some? then Returned(row.(id := RowidOf(v).value)) else Raised
    case StateCol => Returned(row.(state := v))
    case StartedAtCol => Returned(row.(startedAt := v))
    case CompletedAtCol => Returned(row.(completedAt := v))
    case FoundCol => Returned(row.(attorneysFound := v))
    case AddedCol => Returned(row.(attorneysAdded := v))
    case UpdatedCol => Returned(row.(attorneysUpdated := v))
    case ErrorsCol => Returned(row.(errors := v))
    case StatusCol => Returned(row.(status := v))
    case NotesCol => Returned(row.(notes := v))
  }

  /** An assignment fails only on the rowid, with a value that is no
      integer; otherwise the column holds the stored value and no other
      column changes. */
  lemma AssignColumns(row: LogRow, c: LogColumn, v: SqlValue)
    ensures Assign(row, c, v).Raised? <==> c == IdCol && RowidOf(v).None?
    ensures Assign(row, c, v).Returned? ==>
              var r := Assign(row, c, v).value;
              Column(r, c) == Stored(c, v) && forall c' :: c' != c ==> Column(r, c') == Column(row, c')
  {
  }

  /** A rowid given as a numeral text is stored as its integer. */
  lemma AssignIdText(row: LogRow, i: int)
    ensures Assign(row, IdCol, Str(IntText(i))) == Returned(row.(id := i))
  {
    IntTextRoundTrip(i);
  }

  /** The `SET` clauses and bound values the loop builds, with `column`
      naming the columns: `None` as soon as a key names no column. */
  function ResolveBy(kwargs: seq<(string, SqlValue)>, column: string -> Option<LogColumn>): (r: Option<seq<(LogColumn, SqlValue)>>)
    ensures r.Some? ==> |r.value| == |kwargs|
  {
    if kwargs == [] then Some([])
    else
      var n := |kwargs| - 1;
      match ResolveBy(kwargs[..n], column)
      case None => None
      case Some(sets) =>
        match column(kwargs[n].0)
        case None => None
        case Some(c) => Some(sets + [(c, kwargs[n].1)])
  }

  function Resolve(kwargs: seq<(string, SqlValue)>): Option<seq<(LogColumn, SqlValue)>> {
    ResolveBy(kwargs, ColumnNamed)
  }

  lemma {:induction false} ResolveBySome(kwargs: seq<(string, SqlValue)>, column: string -> Option<LogColumn>)
    ensures ResolveBy(kwargs, column).Some? <==> forall k :: 0 <= k < |kwargs| ==> column(kwargs[k].0).Some?
    decreases |kwargs|
  {
    if kwargs != [] {
      var n := |kwargs| - 1;
      ResolveBySome(kwargs[..n], column);
      assert forall k :: 0 <= k < n ==> kwargs[..n][k] == kwargs[k];
    }
  }

  lemma {:induction false} ResolveByPairs(kwargs: seq<(string, SqlValue)>, column: string -> Option<LogColumn>)
    requires ResolveBy(kwargs, column).Some?
    ensures forall k :: 0 <= k < |kwargs| ==>
              column(kwargs[k].0) == Some(ResolveBy(kwargs, column).value[k].0)
              && ResolveBy(kwargs, column).value[k].1 == kwargs[k].1
    decreases |kwargs|
  {
    if kwargs != [] {
      var n := |kwargs| - 1;
      var sets := ResolveBy(kwargs[..n], column).value;
      ResolveByPairs(kwargs[..n], column);
      assert ResolveBy(kwargs, column).value == sets + [(column(kwargs[n].0).value, kwargs[n].1)];
      assert forall k :: 0 <= k < n ==> kwargs[..n][k] == kwargs[k];
    }
  }

  /** `Resolve` succeeds exactly when every key names a column. */
  lemma ResolveSome(kwargs: seq<(string, SqlValue)>)
    ensures Resolve(kwargs).Some? <==> forall k :: 0 <= k < |kwargs| ==> ColumnNamed(kwargs[k].0).Some?
  {
    ResolveBySome(kwargs, ColumnNamed);
  }

  /** A successful `Resolve` pairs each key's column with its value, in
      order. */
  lemma ResolvePairs(kwargs: seq<(string, SqlValue)>)
    requires Resolve(kwargs).Some?
    ensures forall k :: 0 <= k < |kwargs| ==>
              ColumnNamed(kwargs[k].0) == Some(Resolve(kwargs).value[k].0) && Resolve(kwargs).value[k].1 == kwargs[k].1
  {
    ResolveByPairs(kwargs, ColumnNamed);
  }

  /** The assignments applied left to right; a column named twice keeps its
      rightmost value, as SQLite does. */
  function ApplyAll(row: LogRow, sets: seq<(LogColumn, SqlValue)>): Try<LogRow> {
    if sets == [] then Returned(row)
    else
      var r :- ApplyAll(row, sets[..|sets| - 1]);
      Assign(r, sets[|sets| - 1].0, sets[|sets| - 1].1)
  }

  /** The value the rightmost assignment to `c` gives, if any. */
  function LastFor(sets: seq<(LogColumn, SqlValue)>, c: LogColumn): Option<SqlValue> {
    if sets == [] then None
    else if sets[|sets| - 1].0 == c then Some(sets[|sets| - 1].1)
    else LastFor(sets[..|sets| - 1], c)
  }

  /** After the assignments, a column holds its rightmost assigned value,
      or its old value when no assignment names it. */
  lemma {:induction false} ApplyAllColumns(row: LogRow, sets: seq<(LogColumn, SqlValue)>, r: LogRow)
    requires ApplyAll(row, sets) == Returned(r)
    ensures forall c :: Column(r, c) == (match LastFor(sets, c) case None => Column(row, c) case Some(v) => Stored(c, v))
    decreases |sets|
  {
    if sets != [] {
      var n := |sets| - 1;
      var mid := ApplyAll(row, sets[..n]).value;
      ApplyAllColumns(row, sets[..n], mid);
      AssignColumns(mid, sets[n].0, sets[n].1);
    }
  }

  /** The position of the entry with rowid `id`. */
  function LogIndex(logs: seq<LogRow>, id: int, from: nat): (r: Option<nat>)
    ensures r.Some? ==> from <= r.value < |logs| && logs[r.value].id == id
    ensures r.None? ==> forall k :: from <= k < |logs| ==> logs[k].id != id
    decreases |logs| - from
  {
    if from >= |logs| then None
    else if logs[from].id == id then Some(from)
    else LogIndex(logs, id, from + 1)
  }

  /** Some entry other than the `k`th has rowid `id`. */
  predicate IdTaken(logs: seq<LogRow>, k: int, id: int) {
    exists j :: 0 <= j < |logs| && j != k && logs[j].id == id
  }

  /** `update_scrape_log`: `UPDATE scrape_logs SET ... WHERE id = ?`.  An
      empty `SET` list is a syntax error and a key that names no column an
      unknown-column error, both raised before any row is read; an entry
      that would get a `NULL` state or another entry's rowid fails its
      constraint; no entry with the id means nothing changes. */
  function UpdateLogs(logs: seq<LogRow>, logId: int, kwargs: seq<(string, SqlValue)>): Try<seq<LogRow>> {
    match Resolve(kwargs)
    case None => Raised
    case Some(sets) =>
      if sets == [] then Raised
      else
        match LogIndex(logs, logId, 0)
        case None => Returned(logs)
        case Some(k) =>
          var row :- ApplyAll(logs[k], sets);
          if row.state == Null || IdTaken(logs, k, row.id) then Raised
          else Returned(logs[k := row])
  }

  /** `update_scrape_log` with no keyword arguments, or with one naming no
      column, raises. */
  lemma UpdateRaises(logs: seq<LogRow>, logId: int, kwargs: seq<(string, SqlValue)>)
    requires kwargs == [] || exists k :: 0 <= k < |kwargs| && ColumnNamed(kwargs[k].0).None?
    ensures UpdateLogs(logs, logId, kwargs).Raised?
  {
    ResolveSome(kwargs);
  }

  /** A successful update changes only the entry with the given id, and in
      it only the named columns, each to the value of the rightmost keyword
      naming it; the table keeps its invariant. */
  lemma UpdateChangesNamed(logs: seq<LogRow>, logId: int, kwargs: seq<(string, SqlValue)>, r: seq<LogRow>)
    requires UpdateLogs(logs, logId, kwargs) == Returned(r)
    ensures |r| == |logs| && forall k :: 0 <= k < |logs| && logs[k].id != logId ==> r[k] == logs[k]
    ensures forall k, c :: 0 <= k < |logs| && logs[k].id == logId && (forall j :: 0 <= j < |kwargs| ==> ColumnNamed(kwargs[j].0) != Some(c)) ==>
              Column(r[k], c) == Column(logs[k], c)
    ensures ValidLogs(logs) ==> ValidLogs(r)
  {
    var sets := Resolve(kwargs).value;
    ResolvePairs(kwargs);
    match LogIndex(logs, logId, 0)
    case None =>
    case Some(k) =>
      var row := ApplyAll(logs[k], sets).value;
      ApplyAllColumns(logs[k], sets, row);
      forall c | forall j :: 0 <= j < |kwargs| ==> ColumnNamed(kwargs[j].0) != Some(c)
        ensures LastFor(sets, c).None?
      {
        LastForNone(sets, c);
      }

  }

  /** A column no assignment names has no rightmost value. */
  lemma {:induction false} LastForNone(sets: seq<(LogColumn, SqlValue)>, c: LogColumn)
    requires forall j :: 0 <= j < |sets| ==> sets[j].0 != c
    ensures LastFor(sets, c).None?
    decreases |sets|
  {
    if sets != [] {
      var n := |sets| - 1;
      assert forall j :: 0 <= j < n ==> sets[..n][j] == sets[j];
      LastForNone(sets[..n], c);
    }
  }

  /** The named column gets the rightmost value given for it. */
  lemma {:induction false} LastForLast(sets: seq<(LogColumn, SqlValue)>, c: LogColumn, i: nat)
    requires i < |sets| && sets[i].0 == c && forall j :: i < j < |sets| ==> sets[j].0 != c
    ensures LastFor(sets, c) == Some(sets[i].1)
    decreases |sets|
  {
    if i < |sets| - 1 {
      var n := |sets| - 1;
      assert forall j :: 0 <= j < n ==> sets[..n][j] == sets[j];
      LastForLast(sets[..n], c, i);
    }
  }

  /** A successful update of an existing entry gives each named column the
      value of the rightmost keyword naming it. */
  lemma UpdateSetsNamed(logs: seq<LogRow>, logId: int, kwargs: seq<(string, SqlValue)>, r: seq<LogRow>, k: nat, i: nat)
    requires UpdateLogs(logs, logId, kwargs) == Returned(r)
    requires k < |logs| && logs[k].id == logId && ValidLogs(logs)
    requires i < |kwargs| && ColumnNamed(kwargs[i].0).Some?
    requires forall j :: i < j < |kwargs| ==> ColumnNamed(kwargs[j].0) != ColumnNamed(kwargs[i].0)
    ensures Column(r[k], ColumnNamed(kwargs[i].0).value) == Stored(ColumnNamed(kwargs[i].0).value, kwargs[i].1)
  {
    var sets := Resolve(kwargs).value;
    ResolvePairs(kwargs);
    var c := ColumnNamed(kwargs[i].0).value;
    var k0 := LogIndex(logs, logId, 0).value;
    var row := ApplyAll(logs[k], sets).value;
    ApplyAllColumns(logs[k], sets, row);
    LastForLast(sets, c, i);
  }

  /** An id no entry has: a (well-formed) update changes nothing. */
  lemma UpdateMissingId(logs: seq<LogRow>, logId: int, kwargs: seq<(string, SqlValue)>)
    requires kwargs != [] && forall k :: 0 <= k < |kwargs| ==> ColumnNamed(kwargs[k].0).Some?
    requires forall k :: 0 <= k < |logs| ==> logs[k].id != logId
    ensures UpdateLogs(logs, logId, kwargs) == Returned(logs)
  {
    ResolveSome(kwargs);
  }

  // ---------------------------------------------------------------------
  // search_attorneys

  /** The keyword filters of `search_attorneys`; a filter takes part only
      when it is truthy. */
  datatype Filters = Filters(
    state: Option<string>, practiceArea: Option<string>, city: Option<string>,
    firm: Option<string>, status: Option<string>, name: Option<string>, limit: Option<int>)

  /** One condition the query string gains, with its bound parameter. */
  datatype Condition =
    | StateIs(v: string)
    | AreaLike(p: string)
    | CityLike(p: string)
    | FirmLike(p: string)
    | StatusIs(v: string)
    | NameLike(p: string)

  /** A condition on one row of the `LEFT JOIN`: the attorney and one of
      its practice areas, or `NULL` when it has none.  A comparison with
      `NULL` is not true, and `NULL OR TRUE` is true. */
  predicate Holds(c: Condition, a: AttorneyRow, pa: Option<AreaRow>) {
    match c
    case StateIs(v) => a.state == v
    case AreaLike(p) => pa.Some? && Like(pa.value.area, p)
    case CityLike(p) => a.city.Some? && Like(a.city.value, p)
    case FirmLike(p) => a.firmName.Some? && Like(a.firmName.value, p)
    case StatusIs(v) => a.status == Some(v)
    case NameLike(p) => Like(a.fullName, p) || (a.lastName.Some? && Like(a.lastName.value, p))
  }

  predicate HoldsAll(conds: seq<Condition>, a: AttorneyRow, pa: Option<AreaRow>) {
    forall c :: c in conds ==> Holds(c, a, pa)
  }

  /** The practice areas of `a`. */
  function AreasOf(areas: seq<AreaRow>, a: AttorneyRow): (r: seq<AreaRow>)
    ensures forall x :: x in r <==> x in areas && x.attorneyId == a.id
  {
    if areas == [] then []
    else (if areas[0].attorneyId == a.id then [areas[0]] else []) + AreasOf(areas[1..], a)
  }

  /** The right-hand sides `a` meets in `LEFT JOIN practice_areas`. */
  function JoinedWith(areas: seq<AreaRow>, a: AttorneyRow): seq<Option<AreaRow>> {
    var mine := AreasOf(areas, a);
    if mine == [] then [None] else seq(|mine|, k requires 0 <= k < |mine| => Some(mine[k]))
  }

  /** `SELECT DISTINCT a.*`: an attorney is in the answer once if any of
      its joined rows meets every condition. */
  predicate Selected(db: Db, conds: seq<Condition>, a: AttorneyRow) {
    exists pa :: pa in JoinedWith(db.areas, a) && HoldsAll(conds, a, pa)
  }

  /** The attorneys of `rows` the query with `conds` selects, in table
      order. */
  function SelectRows(db: Db, rows: seq<AttorneyRow>, conds: seq<Condition>): (r: seq<AttorneyRow>)
    ensures multiset(r) <= multiset(rows)
    ensures forall x :: x in r <==> x in rows && Selected(db, conds, x)
  {
    if rows == [] then []
    else
      assert rows == [rows[0]] + rows[1..];
      (if Selected(db, conds, rows[0]) then [rows[0]] else []) + SelectRows(db, rows[1..], conds)
  }

  /** What the filters other than the practice area demand of the row,
      read off the filter values. */
  ghost predicate RowWanted(f: Filters, a: AttorneyRow) {
    (Truthy(f.state) ==> a.state == f.state.value)
    && (Truthy(f.city) ==> a.city.Some? && Like(a.city.value, Surrounded(f.city.value)))
    && (Truthy(f.firm) ==> a.firmName.Some? && Like(a.firmName.value, Surrounded(f.firm.value)))
    && (Truthy(f.status) ==> a.status == Some(f.status.value))
    && (Truthy(f.name) ==>
          Like(a.fullName, Surrounded(f.name.value))
          || (a.lastName.Some? && Like(a.lastName.value, Surrounded(f.name.value))))
  }

  /** The practice-area filter: some practice area of the attorney
      contains the value. */
  ghost predicate AreaWanted(db: Db, f: Filters, a: AttorneyRow) {
    Truthy(f.practiceArea) ==>
      exists k :: 0 <= k < |db.areas| && db.areas[k].attorneyId == a.id
                  && Like(db.areas[k].area, Surrounded(f.practiceArea.value))
  }

  /** What all the filters demand of an attorney. */
  ghost predicate Wanted(db: Db, f: Filters, a: AttorneyRow) {
    RowWanted(f, a) && AreaWanted(db, f, a)
  }

  /** The condition the `i`th filter adds to the query, if it is truthy. */
  function FilterCondition(f: Filters, i: nat): seq<Condition> {
    if i == 0 then (if Truthy(f.state) then [StateIs(f.state.value)] else [])
    else if i == 1 then (if Truthy(f.practiceArea) then [AreaLike(Surrounded(f.practiceArea.value))] else [])
    else if i == 2 then (if Truthy(f.city) then [CityLike(Surrounded(f.city.value))] else [])
    else if i == 3 then (if Truthy(f.firm) then [FirmLike(Surrounded(f.firm.value))] else [])
    else if i == 4 then (if Truthy(f.status) then [StatusIs(f.status.value)] else [])
    else if i == 5 then (if Truthy(f.name) then [NameLike(Surrounded(f.name.value))] else [])
    else []
  }

  /** The conditions of the first `n` filters, in order. */
  function ConditionsUpTo(f: Filters, n: nat): seq<Condition> {
    if n == 0 then [] else ConditionsUpTo(f, n - 1) + FilterCondition(f, n - 1)
  }

  /** The conditions the query gains for the truthy filters. */
  function ConditionsOf(f: Filters): seq<Condition> {
    ConditionsUpTo(f, 6)
  }

  /** The practice-area condition on one joined row. */
  predicate AreaOk(f: Filters, pa: Option<AreaRow>) {
    Truthy(f.practiceArea) ==> pa.Some? && Like(pa.value.area, Surrounded(f.practiceArea.value))
  }

  /** One joined row meets the built conditions exactly when the attorney
      meets the row filters and the joined area the area filter. */
  lemma HoldsAllOf(f: Filters, a: AttorneyRow, pa: Option<AreaRow>)
    ensures HoldsAll(ConditionsOf(f), a, pa) <==> RowWanted(f, a) && AreaOk(f, pa)
  {
    HoldsAllPieces(f, a, pa);
    assert HoldsAll(FilterCondition(f, 0), a, pa) <==> (Truthy(f.state) ==> a.state == f.state.value) by {
      if Truthy(f.state) { HoldsAllOne(StateIs(f.state.value), a, pa); }
    }
    assert HoldsAll(FilterCondition(f, 1), a, pa) <==> AreaOk(f, pa) by {
      if Truthy(f.practiceArea) { HoldsAllOne(AreaLike(Surrounded(f.practiceArea.value)), a, pa); }
    }
    assert HoldsAll(FilterCondition(f, 2), a, pa) <==>
           (Truthy(f.city) ==> a.city.Some? && Like(a.city.value, Surrounded(f.city.value))) by {
      if Truthy(f.city) { HoldsAllOne(CityLike(Surrounded(f.city.value)), a, pa); }
    }
    assert HoldsAll(FilterCondition(f, 3), a, pa) <==>
           (Truthy(f.firm) ==> a.firmName.Some? && Like(a.firmName.value, Surrounded(f.firm.value))) by {
      if Truthy(f.firm) { HoldsAllOne(FirmLike(Surrounded(f.firm.value)), a, pa); }
    }
    assert HoldsAll(FilterCondition(f, 4), a, pa) <==> (Truthy(f.status) ==> a.status == Some(f.status.value)) by {
      if Truthy(f.status) { HoldsAllOne(StatusIs(f.status.value), a, pa); }
    }
    assert HoldsAll(FilterCondition(f, 5), a, pa) <==>
           (Truthy(f.name) ==> Like(a.fullName, Surrounded(f.name.value))
                               || (a.lastName.Some? && Like(a.lastName.value, Surrounded(f.name.value)))) by {
      if Truthy(f.name) { HoldsAllOne(NameLike(Surrounded(f.name.value)), a, pa); }
    }
  }

  lemma HoldsAllOne(c: Condition, a: AttorneyRow, pa: Option<AreaRow>)
    ensures HoldsAll([c], a, pa) <==> Holds(c, a, pa)
  {
    assert c in [c];
  }

  /** The built conditions hold exactly when each filter's piece holds. */
  lemma HoldsAllPieces(f: Filters, a: AttorneyRow, pa: Option<AreaRow>)
    ensures HoldsAll(ConditionsOf(f), a, pa) <==>
              HoldsAll(FilterCondition(f, 0), a, pa) && HoldsAll(FilterCondition(f, 1), a, pa)
              && HoldsAll(FilterCondition(f, 2), a, pa) && HoldsAll(FilterCondition(f, 3), a, pa)
              && HoldsAll(FilterCondition(f, 4), a, pa) && HoldsAll(FilterCondition(f, 5), a, pa)
  {
    HoldsAllConcat(ConditionsUpTo(f, 0), FilterCondition(f, 0), a, pa);
    HoldsAllConcat(ConditionsUpTo(f, 1), FilterCondition(f, 1), a, pa);
    HoldsAllConcat(ConditionsUpTo(f, 2), FilterCondition(f, 2), a, pa);
    HoldsAllConcat(ConditionsUpTo(f, 3), FilterCondition(f, 3), a, pa);
    HoldsAllConcat(ConditionsUpTo(f, 4), FilterCondition(f, 4), a, pa);
    HoldsAllConcat(ConditionsUpTo(f, 5), FilterCondition(f, 5), a, pa);
  }

  lemma HoldsAllConcat(x: seq<Condition>, y: seq<Condition>, a: AttorneyRow, pa: Option<AreaRow>)
    ensures HoldsAll(x + y, a, pa) <==> HoldsAll(x, a, pa) && HoldsAll(y, a, pa)
  {
  }

  /** Some joined row meets the area condition exactly when the area filter
      holds. */
  lemma JoinedAreaOk(db: Db, f: Filters, a: AttorneyRow)
    ensures (exists pa :: pa in JoinedWith(db.areas, a) && AreaOk(f, pa)) <==> AreaWanted(db, f, a)
  {
    var joined := JoinedWith(db.areas, a);
    if !Truthy(f.practiceArea) {
      assert joined[0] in joined && AreaOk(f, joined[0]);
    } else {
      if exists pa :: pa in joined && AreaOk(f, pa) {
        var pa :| pa in joined && AreaOk(f, pa);
        JoinedMatchWanted(db, f, a, pa);
      }
      if AreaWanted(db, f, a) {
        WantedJoinedMatch(db, f, a);
      }
    }
  }

  lemma JoinedMatchWanted(db: Db, f: Filters, a: AttorneyRow, pa: Option<AreaRow>)
    requires Truthy(f.practiceArea) && pa in JoinedWith(db.areas, a) && AreaOk(f, pa)
    ensures AreaWanted(db, f, a)
  {
    var mine := AreasOf(db.areas, a);
    var joined := JoinedWith(db.areas, a);
    var i :| 0 <= i < |joined| && joined[i] == pa;
    assert mine != [];
    assert pa.value == mine[i] && mine[i] in mine;
    var k :| 0 <= k < |db.areas| && db.areas[k] == pa.value;
  }

  lemma WantedJoinedMatch(db: Db, f: Filters, a: AttorneyRow)
    requires Truthy(f.practiceArea) && AreaWanted(db, f, a)
    ensures exists pa :: pa in JoinedWith(db.areas, a) && AreaOk(f, pa)
  {
    var mine := AreasOf(db.areas, a);
    var joined := JoinedWith(db.areas, a);
    var k :| 0 <= k < |db.areas| && db.areas[k].attorneyId == a.id
             && Like(db.areas[k].area, Surrounded(f.practiceArea.value));
    assert db.areas[k] in mine;
    var i :| 0 <= i < |mine| && mine[i] == db.areas[k];
    assert joined[i] == Some(db.areas[k]) && joined[i] in joined;
    assert AreaOk(f, joined[i]);
  }

  /** Joining with the practice areas and testing the built conditions
      selects exactly the attorneys the filters want. */
  lemma ConditionsMeanFilters(db: Db, f: Filters, a: AttorneyRow)
    ensures Selected(db, ConditionsOf(f), a) <==> Wanted(db, f, a)
  {
    var joined := JoinedWith(db.areas, a);
    forall pa ensures HoldsAll(ConditionsOf(f), a, pa) <==> RowWanted(f, a) && AreaOk(f, pa) {
      HoldsAllOf(f, a, pa);
    }
    JoinedAreaOk(db, f, a);
    if Wanted(db, f, a) {
      var pa :| pa in joined && AreaOk(f, pa);
      assert HoldsAll(ConditionsOf(f), a, pa);
    }
  }

  /** The attorneys the filters want, in table order. */
  function WantedRows(db: Db, f: Filters): seq<AttorneyRow> {
    SelectRows(db, db.attorneys, ConditionsOf(f))
  }

  /** `ORDER BY a.last_name, a.first_name`, each ascending with `NULL`
      first. */
  predicate NameLe(a: AttorneyRow, b: AttorneyRow) {
    if a.lastName == b.lastName then NullsFirstLe(a.firstName, b.firstName)
    else NullsFirstLe(a.lastName, b.lastName)
  }

  lemma NameLeTotal(a: AttorneyRow, b: AttorneyRow)
    ensures NameLe(a, b) || NameLe(b, a)
  {
    NullsFirstTotal(a.lastName, b.lastName);
    NullsFirstTotal(a.firstName, b.firstName);
  }

  lemma NameLeTrans(a: AttorneyRow, b: AttorneyRow, c: AttorneyRow)
    requires NameLe(a, b) && NameLe(b, c)
    ensures NameLe(a, c)
  {
    if a.lastName == b.lastName && b.lastName == c.lastName {
      NullsFirstTrans(a.firstName, b.firstName, c.firstName);
    } else if a.lastName == b.lastName {
      assert NullsFirstLe(b.lastName, c.lastName);
    } else if b.lastName == c.lastName {
      assert NullsFirstLe(a.lastName, b.lastName);
    } else {
      NullsFirstTrans(a.lastName, b.lastName, c.lastName);
      if a.lastName == c.lastName {
        NullsFirstAntisymmetric(a.lastName, b.lastName);
      }
    }
  }

  predicate SortedByName(rows: seq<AttorneyRow>) {
    forall i, j :: 0 <= i < j < |rows| ==> NameLe(rows[i], rows[j])
  }

  /** `row` put into sorted `rows` before the first row it does not follow. */
  function InsertByName(row: AttorneyRow, rows: seq<AttorneyRow>): (r: seq<AttorneyRow>)
    ensures multiset(r) == multiset(rows) + multiset{row}
    ensures |r| == |rows| + 1
    ensures forall x :: x in r <==> x == row || x in rows
  {
    if rows == [] then [row]
    else if NameLe(row, rows[0]) then [row] + rows
    else
      assert rows == [rows[0]] + rows[1..];
      [rows[0]] + InsertByName(row, rows[1..])
  }

  /** A row that sorts before every row of a sorted sequence can go first. */
  lemma SortedCons(x: AttorneyRow, s: seq<AttorneyRow>)
    requires SortedByName(s) && forall j :: 0 <= j < |s| ==> NameLe(x, s[j])
    ensures SortedByName([x] + s)
  {
    var r := [x] + s;
    forall i, j | 0 <= i < j < |r| ensures NameLe(r[i], r[j]) {
      if i > 0 {
        assert r[i] == s[i - 1] && r[j] == s[j - 1];
      } else {
        assert r[j] == s[j - 1];
      }
    }
  }

  lemma {:induction false} InsertByNameSorted(row: AttorneyRow, rows: seq<AttorneyRow>)
    requires SortedByName(rows)
    ensures SortedByName(InsertByName(row, rows))
    decreases |rows|
  {
    if rows == [] {
    } else if NameLe(row, rows[0]) {
      forall j | 0 <= j < |rows| ensures NameLe(row, rows[j]) {
        if j > 0 {
          NameLeTrans(row, rows[0], rows[j]);
        }
      }
      SortedCons(row, rows);
    } else {
      var tail := rows[1..];
      assert SortedByName(tail) by {
        forall i, j | 0 <= i < j < |tail| ensures NameLe(tail[i], tail[j]) {
          assert tail[i] == rows[i + 1] && tail[j] == rows[j + 1];
        }
      }
      InsertByNameSorted(row, tail);
      var t := InsertByName(row, tail);
      NameLeTotal(row, rows[0]);
      forall j | 0 <= j < |t| ensures NameLe(rows[0], t[j]) {
        assert t[j] in t;
        if t[j] != row {
          var i :| 0 <= i < |tail| && tail[i] == t[j];
          assert rows[i + 1] == t[j];
        }
      }
      SortedCons(rows[0], t);
    }
  }

  /** Insertion sort by name. */
  function SortByName(rows: seq<AttorneyRow>): (r: seq<AttorneyRow>)
    ensures multiset(r) == multiset(rows) && |r| == |rows|
  {
    if rows == [] then []
    else
      assert rows == [rows[0]] + rows[1..];
      InsertByName(rows[0], SortByName(rows[1..]))
  }

  lemma {:induction false} SortByNameSorted(rows: seq<AttorneyRow>)
    ensures SortedByName(SortByName(rows))
  {
    if rows != [] {
      SortByNameSorted(rows[1..]);
      InsertByNameSorted(rows[0], SortByName(rows[1..]));
    }
  }

  /** The `LIMIT` the search adds: only for a truthy limit. */
  function LimitOf(f: Filters): int {
    if f.limit.Some? && f.limit.value != 0 then f.limit.value else -1
  }

  /** The answer of `search_attorneys`.  SQL leaves the order of rows with
      equal names open; the model sorts, and the lemmas below say only what
      every order SQLite could choose has in common. */
  function SearchResult(db: Db, f: Filters): seq<AttorneyRow> {
    Limited(SortByName(WantedRows(db, f)), LimitOf(f))
  }

  /** Every row returned is an attorney of the table that every supplied
      filter accepts, no row comes back more often than it is stored, and
      the rows are ordered by last name, then first name. */
  lemma SearchSound(db: Db, f: Filters)
    ensures forall a :: a in SearchResult(db, f) ==> a in db.attorneys && Wanted(db, f, a)
    ensures multiset(SearchResult(db, f)) <= multiset(db.attorneys)
    ensures SortedByName(SearchResult(db, f))
  {
    var wanted := WantedRows(db, f);
    var sorted := SortByName(wanted);
    var r := SearchResult(db, f);
    SortByNameSorted(wanted);
    SortedPrefix(sorted, r);
    forall a | a in r ensures a in db.attorneys && Wanted(db, f, a) {
      assert a in multiset(sorted);
      assert a in wanted;
      ConditionsMeanFilters(db, f, a);
    }
  }

  /** A prefix of a sorted list is a sorted sub-multiset of it. */
  lemma SortedPrefix(sorted: seq<AttorneyRow>, r: seq<AttorneyRow>)
    requires |r| <= |sorted| && r == sorted[..|r|]
    ensures multiset(r) <= multiset(sorted)
    ensures SortedByName(sorted) ==> SortedByName(r)
  {
    assert sorted == r + sorted[|r|..];
  }


  /** A truthy limit `n > 0` returns `min(n, matches)` rows, and no wanted
      attorney left out sorts before one returned; without a limit, or with
      a negative one, every wanted attorney is returned. */
  lemma SearchCompleteUpToLimit(db: Db, f: Filters)
    ensures LimitOf(f) >= 0 ==> |SearchResult(db, f)| == (if LimitOf(f) < |WantedRows(db, f)| then LimitOf(f) else |WantedRows(db, f)|)
    ensures LimitOf(f) < 0 ==> multiset(SearchResult(db, f)) == multiset(WantedRows(db, f))
    ensures forall a, b :: a in WantedRows(db, f) && a !in SearchResult(db, f) && b in SearchResult(db, f) ==> NameLe(b, a)
  {
    var wanted := WantedRows(db, f);
    var sorted := SortByName(wanted);
    var r := SearchResult(db, f);
    SortByNameSorted(wanted);
    forall a, b | a in wanted && a !in r && b in r ensures NameLe(b, a) {
      assert a in multiset(sorted);
      LimitedSortedFirst(sorted, LimitOf(f), a, b);
    }
  }

  /** A row cut off by the limit sorts no earlier than a row kept. */
  lemma LimitedSortedFirst(sorted: seq<AttorneyRow>, n: int, a: AttorneyRow, b: AttorneyRow)
    requires SortedByName(sorted) && a in sorted
    requires a !in Limited(sorted, n) && b in Limited(sorted, n)
    ensures NameLe(b, a)
  {
    var r := Limited(sorted, n);
    var j :| 0 <= j < |sorted| && sorted[j] == a;
    var i :| 0 <= i < |r| && r[i] == b;
    assert sorted[i] == b;
  }

  /** With a wildcard-free city filter, every attorney returned has a city
      containing it, ASCII case ignored. */
  lemma SearchCityContains(db: Db, f: Filters)
    requires Truthy(f.city) && NoWildcards(f.city.value)
    ensures forall a :: a in SearchResult(db, f) ==>
              a.city.Some? && exists i :: FoldedAt(a.city.value, i, f.city.value)
  {
    SearchSound(db, f);
    forall a | a in SearchResult(db, f)
      ensures a.city.Some? && exists i :: FoldedAt(a.city.value, i, f.city.value)
    {
      LikeContains(a.city.value, f.city.value);
    }
  }

  // ---------------------------------------------------------------------
  // The connection

  class Connection {
    var attorneys: seq<AttorneyRow>
    var areas: seq<AreaRow>
    var logs: seq<LogRow>
    var attorneySeq: int
    var areaSeq: int
    var logSeq: int
    var lastRowid: int

    /** The tables as a value. */
    function Snapshot(): Db
      reads this
    {
      Db(attorneys, areas, logs, attorneySeq, areaSeq, logSeq, lastRowid)
    }

    /** A connection to a freshly initialised database. */
    constructor ()
      ensures Snapshot() == EmptyDb
    {
      attorneys, areas, logs := [], [], [];
      attorneySeq, areaSeq, logSeq, lastRowid := 0, 0, 0, 0;
    }

    /** `insert_attorney` as written: the upsert, `cursor.lastrowid`, then
        the loop over the practice areas. */
    method InsertAttorney(d: AttorneyData, now: string) returns (id: Option<int>)
      modifies this
      ensures (Snapshot(), id) == Insert(old(Snapshot()), d, now)
    {
      var db := Snapshot();
      var upserted := Upsert(db, d, now);
      if upserted.Raised? {
        return None;
      }
      var u := upserted.value;
      attorneys, attorneySeq, lastRowid := u.rows, u.counter, u.lastRowid;
      var attorneyId := lastRowid;
      assert Insert(db, d, now) == (Attached(Snapshot(), attorneyId, d.practiceAreas), Some(attorneyId));
      AttachAll(attorneyId, d.practiceAreas);
      id := Some(attorneyId);
    }

    /** The loop of `insert_attorney` over the practice areas. */
    method AttachAll(attorneyId: int, practice: seq<string>)
      modifies this
      ensures Snapshot() == Attached(old(Snapshot()), attorneyId, practice)
    {
      ghost var db1 := Snapshot();
      for i := 0 to |practice|
        invariant Snapshot() == Attached(db1, attorneyId, practice[..i])
      {
        assert practice[..i + 1][..i] == practice[..i];
        AttachEntry(attorneyId, practice[i], i);
      }
      assert practice[..|practice|] == practice;
    }

    /** One pass of the loop over the practice areas: a non-empty entry is
        stripped and inserted with `INSERT OR IGNORE`. */
    method AttachEntry(attorneyId: int, entry: string, i: nat)
      modifies this
      ensures Snapshot() == AreaStep(old(Snapshot()), attorneyId, entry, i)
    {
      if entry != "" {
        var area := Strip(entry);
        var rowid := NextRowid(areaSeq, RowIds(areas, AreaId));
        if !HasArea(areas, attorneyId, area) {
          areas := areas + [AreaRow(rowid, attorneyId, area, i == 0)];
          lastRowid := rowid;
        }
        areaSeq := rowid;
      }
    }

    /** `start_scrape_log`. */
    method StartScrapeLog(state: SqlValue, now: string) returns (r: Try<int>)
      modifies this
      ensures r.Raised? <==> StartLog(old(Snapshot()), state, now).Raised?
      ensures r.Raised? ==> Snapshot() == old(Snapshot())
      ensures r.Returned? ==> (Snapshot(), r.value) == StartLog(old(Snapshot()), state, now).value
    {
      if state == Null {
        return Raised;
      }
      var id := NextRowid(logSeq, RowIds(logs, LogId));
      logs := logs + [LogRow(id, state, Str(now), Null, Int(0), Int(0), Int(0), Int(0), Str("running"), Null)];
      logSeq, lastRowid := id, id;
      r := Returned(id);
    }

    /** `update_scrape_log`: the loop builds one `SET` clause and one bound
        value per keyword argument, then the statement runs. */
    method UpdateScrapeLog(logId: int, kwargs: seq<(string, SqlValue)>) returns (r: Try<()>)
      modifies this
      ensures r.Raised? <==> UpdateLogs(old(logs), logId, kwargs).Raised?
      ensures r.Returned? ==> logs == UpdateLogs(old(logs), logId, kwargs).value
      ensures r.Raised? ==> logs == old(logs)
      ensures attorneys == old(attorneys) && areas == old(areas) && attorneySeq == old(attorneySeq)
      ensures areaSeq == old(areaSeq) && logSeq == old(logSeq) && lastRowid == old(lastRowid)
    {
      var sets: seq<(LogColumn, SqlValue)> := [];
      var known := true;
      for i := 0 to |kwargs|
        invariant Resolve(kwargs[..i]) == (if known then Some(sets) else None)
      {
        assert kwargs[..i + 1][..i] == kwargs[..i];
        var column := ColumnNamed(kwargs[i].0);
        if column.None? {
          known := false;
        } else if known {
          sets := sets + [(column.value, kwargs[i].1)];
        }
      }
      assert kwargs[..|kwargs|] == kwargs;
      if !known || sets == [] {
        return Raised;
      }
      var k := LogIndex(logs, logId, 0);
      if k.None? {
        return Returned(());
      }
      var row := ApplyAll(logs[k.value], sets);
      if row.Raised? || row.value.state == Null || IdTaken(logs, k.value, row.value.id) {
        return Raised;
      }
      logs := logs[k.value := row.value];
      r := Returned(());
    }

    /** `search_attorneys`: the query gains one condition per truthy filter,
        an `ORDER BY` and, for a truthy limit, a `LIMIT`. */
    method SearchAttorneys(f: Filters) returns (results: seq<AttorneyRow>)
      ensures results == SearchResult(Snapshot(), f)
    {
      var conds: seq<Condition> := [];
      if Truthy(f.state) {
        conds := conds + [StateIs(f.state.value)];
      }
      assert conds == ConditionsUpTo(f, 1);
      if Truthy(f.practiceArea) {
        conds := conds + [AreaLike(Surrounded(f.practiceArea.value))];
      }
      assert conds == ConditionsUpTo(f, 2);
      if Truthy(f.city) {
        conds := conds + [CityLike(Surrounded(f.city.value))];
      }
      assert conds == ConditionsUpTo(f, 3);
      if Truthy(f.firm) {
        conds := conds + [FirmLike(Surrounded(f.firm.value))];
      }
      assert conds == ConditionsUpTo(f, 4);
      if Truthy(f.status) {
        conds := conds + [StatusIs(f.status.value)];
      }
      assert conds == ConditionsUpTo(f, 5);
      if Truthy(f.name) {
        conds := conds + [NameLike(Surrounded(f.name.value))];
      }
      assert conds == ConditionsUpTo(f, 6);
      var limit := -1;
      if f.limit.Some? && f.limit.value != 0 {
        limit := f.limit.value;
      }
      var db := Snapshot();
      var selected := SelectRows(db, attorneys, conds);
      results := Limited(SortByName(selected), limit);
    }
  }
}
