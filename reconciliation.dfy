/**
 * Pulling a profile from the directory into the host's profile table
 * (saveProfile). For every field of the profile XML the value the directory
 * holds is compared with the stored records: it matches, is modified, is
 * added, or (a single-valued field without a value) is deleted. The
 * deletions, additions and updates are then applied, in that order.
 */
module Reconciliation {
  import opened PhpArrays
  import opened PhpStrings
  import opened Delimiters
  import opened ProfileFields
  import opened UserProfiles

  /** The user's directory entry as the adapter reports it: attribute name to its values. */
  type Directory = map<string, seq<string>>

  /**
   * The profile value saveProfile derives for a field. A delimited field
   * holds every value followed by the delimiter ("" when the attribute is
   * missing); any other field holds the first value, and has none (None)
   * when the attribute is missing or empty.
   */
  function DesiredValue(fields: seq<Field>, dir: Directory, name: string): Option<string> {
    var d := DelimiterOf(fields, name);
    if Truthy(d) then Some(if name in dir then JoinDelimited(dir[name], PullDelimiter(d)) else "")
    else if name in dir && |dir[name]| > 0 then Some(dir[name][0])
    else None
  }

  /** checkSqlField's flags 0 to 2, and 3 for a field to delete. */
  datatype Status = Match | Modify | Addition | Deletion

  /** checkSqlField, scanning from the last record back to the first. */
  function SqlStatus(current: seq<Record>, key: string, value: string): Status {
    if current == [] then Addition
    else
      var last := current[|current| - 1];
      if last.key == key then (if last.value == value then Match else Modify)
      else SqlStatus(current[..|current| - 1], key, value)
  }

  /**
   * checkSqlField's status: Addition when no record has the key; otherwise
   * the LAST record with the key decides between Match (same value) and
   * Modify. It is never Deletion.
   */
  lemma {:induction false} SqlStatusLastRecord(current: seq<Record>, key: string, value: string)
    ensures SqlStatus(current, key, value) != Deletion
    ensures SqlStatus(current, key, value) == Addition <==> forall i :: 0 <= i < |current| ==> current[i].key != key
    ensures SqlStatus(current, key, value) != Addition ==>
              exists i :: 0 <= i < |current| && current[i].key == key
                          && (forall j :: i < j < |current| ==> current[j].key != key)
                          && (SqlStatus(current, key, value) == Match <==> current[i].value == value)
  {
    if current != [] {
      var n := |current|;
      var st := SqlStatus(current, key, value);
      if current[n - 1].key == key {
        assert st != Addition;
        assert current[n - 1].key == key && (st == Match <==> current[n - 1].value == value);
      } else {
        var init := current[..n - 1];
        SqlStatusLastRecord(init, key, value);
        assert st == SqlStatus(init, key, value);
        assert forall i :: 0 <= i < |init| ==> init[i] == current[i];
        if st != Addition {
          var i :| 0 <= i < |init| && init[i].key == key
                   && (forall j :: i < j < |init| ==> init[j].key != key)
                   && (st == Match <==> init[i].value == value);
          assert current[i] == init[i];
          assert forall j :: i < j < n ==> current[j].key != key by {
            forall j | i < j < n ensures current[j].key != key {
              if j < n - 1 {
                assert current[j] == init[j];
              }
            }
          }
        }
      }
    }
  }

  /** The arrays saveProfile fills: values to add and to update by field name, and names to delete. */
  datatype Plan = Plan(adds: Assoc<string>, updates: Assoc<string>, deletes: seq<string>)

  /** The switch on a field's status: where the field goes, if anywhere. */
  function Classify(p: Plan, current: seq<Record>, name: string, value: Option<string>): (r: Plan)
    requires DistinctKeys(p.adds) && DistinctKeys(p.updates)
    ensures DistinctKeys(r.adds) && DistinctKeys(r.updates)
  {
    match value
    case None => p.(deletes := p.deletes + [name])
    case Some(v) =>
      match SqlStatus(current, name, v)
      case Modify => p.(updates := Put(p.updates, name, v))
      case Addition => p.(adds := Put(p.adds, name, v))
      case _ => p
  }

  /** The plan after classifying the names in order. */
  function PlanFor(current: seq<Record>, fields: seq<Field>, dir: Directory, names: seq<string>): (p: Plan)
    ensures DistinctKeys(p.adds) && DistinctKeys(p.updates)
    decreases |names|
  {
    if names == [] then Plan([], [], [])
    else
      var name := names[|names| - 1];
      Classify(PlanFor(current, fields, dir, names[..|names| - 1]), current, name, DesiredValue(fields, dir, name))
  }

  /** Classifying one more name extends the plan by that name's classification. */
  lemma PlanForNext(current: seq<Record>, fields: seq<Field>, dir: Directory, names: seq<string>, i: nat)
    requires i < |names|
    ensures PlanFor(current, fields, dir, names[..i + 1])
            == Classify(PlanFor(current, fields, dir, names[..i]), current, names[i], DesiredValue(fields, dir, names[i]))
  {
    assert names[..i + 1][..i] == names[..i];
  }

  /** Delete, then add (orderings from base), then update; each only when its list is not empty. */
  function ApplyPlan(s: DbState, faults: set<nat>, userId: int, plan: Plan, base: int): Step {
    var d := if |plan.deletes| > 0 then DeleteRecordsSpec(s, faults, userId, plan.deletes) else Step(s, true);
    var a := if |plan.adds| > 0 then AddRecordsSpec(d.db, faults, userId, plan.adds, base) else Step(d.db, true);
    var u := if |plan.updates| > 0 then UpdateRecordsSpec(a.db, faults, userId, plan.updates) else Step(a.db, true);
    Step(u.db, d.ok && a.ok && u.ok)
  }

  /**
   * saveProfile: false for user 0 and when the stored profile cannot be
   * read; otherwise the plan for every field is applied, new rows numbered
   * after the records read, and the result is true when no step failed.
   */
  function SaveProfileSpec(s: DbState, faults: set<nat>, fields: seq<Field>, dir: Directory, userId: int): Step {
    if userId == 0 then Step(s, false)
    else SaveAfterQuery(QueryProfileSpec(s, faults, userId, true), faults, fields, dir, userId)
  }

  /** The part of saveProfile after the stored profile was queried. */
  function SaveAfterQuery(q: Query, faults: set<nat>, fields: seq<Field>, dir: Directory, userId: int): Step {
    match q.result
    case Records(current) =>
      ApplyPlan(q.db, faults, userId, PlanFor(current, fields, dir, FieldNames(fields)), |current| + 1)
    case _ => Step(q.db, false)
  }

  // ---------------------------------------------------------------------
  // The plan
  // ---------------------------------------------------------------------

  /**
   * A name is in exactly the list its status selects: deleted when it has no
   * value, added or updated with its value when its status says so.
   */
  lemma {:induction false} PlanClassifies(current: seq<Record>, fields: seq<Field>, dir: Directory, names: seq<string>, n: string)
    ensures var p := PlanFor(current, fields, dir, names);
            var want := DesiredValue(fields, dir, n);
            (n in p.deletes <==> n in names && want.None?)
            && Get(p.adds, n) == (if n in names && want.Some? && SqlStatus(current, n, want.value) == Addition then want else None)
            && Get(p.updates, n) == (if n in names && want.Some? && SqlStatus(current, n, want.value) == Modify then want else None)
    decreases |names|
  {
    if names != [] {
      var init, last := names[..|names| - 1], names[|names| - 1];
      assert names == init + [last];
      assert n in names <==> n in init || n == last;
      PlanClassifies(current, fields, dir, init, n);
      ClassifyStep(PlanFor(current, fields, dir, init), current, last, DesiredValue(fields, dir, last), n);
    }
  }

  /** What classifying one name changes for a name n. */
  lemma ClassifyStep(p: Plan, current: seq<Record>, name: string, value: Option<string>, n: string)
    requires DistinctKeys(p.adds) && DistinctKeys(p.updates)
    ensures var r := Classify(p, current, name, value);
            (n in r.deletes <==> n in p.deletes || (n == name && value.None?))
            && Get(r.adds, n) == (if n == name && value.Some? && SqlStatus(current, n, value.value) == Addition
                                  then value else Get(p.adds, n))
            && Get(r.updates, n) == (if n == name && value.Some? && SqlStatus(current, n, value.value) == Modify
                                     then value else Get(p.updates, n))
  {
  }

  /** Each field lands in at most one of the three lists. */
  lemma AtMostOneList(current: seq<Record>, fields: seq<Field>, dir: Directory, names: seq<string>, n: string)
    ensures var p := PlanFor(current, fields, dir, names);
            !(Get(p.adds, n).Some? && Get(p.updates, n).Some?)
            && !(Get(p.adds, n).Some? && n in p.deletes)
            && !(Get(p.updates, n).Some? && n in p.deletes)
  {
    PlanClassifies(current, fields, dir, names, n);
  }

  /** A field whose value matches its record (status 0) is written nowhere. */
  lemma MatchWritesNothing(current: seq<Record>, fields: seq<Field>, dir: Directory, names: seq<string>, n: string)
    requires DesiredValue(fields, dir, n).Some?
    requires SqlStatus(current, n, DesiredValue(fields, dir, n).value) == Match
    ensures var p := PlanFor(current, fields, dir, names);
            Get(p.adds, n).None? && Get(p.updates, n).None? && n !in p.deletes
  {
    PlanClassifies(current, fields, dir, names, n);
  }

  /**
   * A delimited field is never deleted (it always has a value, possibly "");
   * a listed single-valued field the directory has no value for always is.
   */
  lemma DelimitedNeverDeleted(current: seq<Record>, fields: seq<Field>, dir: Directory, names: seq<string>, n: string)
    ensures Delimited(fields, n) ==> n !in PlanFor(current, fields, dir, names).deletes
    ensures !Delimited(fields, n) && n in names && (n !in dir || dir[n] == []) ==>
              n in PlanFor(current, fields, dir, names).deletes
  {
    PlanClassifies(current, fields, dir, names, n);
  }

  /** Every name in the plan is one of the names classified. */
  lemma PlanWithinNames(current: seq<Record>, fields: seq<Field>, dir: Directory, names: seq<string>)
    ensures var p := PlanFor(current, fields, dir, names);
            (forall m :: m in p.deletes ==> m in names)
            && (forall j :: 0 <= j < |p.adds| ==> p.adds[j].0 in names)
            && (forall j :: 0 <= j < |p.updates| ==> p.updates[j].0 in names)
  {
    var p := PlanFor(current, fields, dir, names);
    forall m | m in p.deletes ensures m in names {
      PlanClassifies(current, fields, dir, names, m);
    }
    forall j | 0 <= j < |p.adds| ensures p.adds[j].0 in names {
      PlanClassifies(current, fields, dir, names, p.adds[j].0);
    }
    forall j | 0 <= j < |p.updates| ensures p.updates[j].0 in names {
      PlanClassifies(current, fields, dir, names, p.updates[j].0);
    }
  }

  // ---------------------------------------------------------------------
  // Applying the plan
  // ---------------------------------------------------------------------

  /** When every step succeeds the table holds the deletions, then the new rows, then the updates. */
  lemma {:induction false} ApplyPlanSucceeded(s: DbState, faults: set<nat>, userId: int, plan: Plan, base: int)
    requires userId != 0
    requires ApplyPlan(s, faults, userId, plan, base).ok
    ensures ApplyPlan(s, faults, userId, plan, base).db.rows
            == SetAll(RemoveKeys(s.rows, userId, plan.deletes) + NewRows(userId, plan.adds, base), userId, plan.updates)
  {
    var d := if |plan.deletes| > 0 then DeleteRecordsSpec(s, faults, userId, plan.deletes) else Step(s, true);
    var rows1 := RemoveKeys(s.rows, userId, plan.deletes);
    if |plan.deletes| > 0 {
      DeleteEachApplies(s, faults, userId, plan.deletes);
      assert plan.deletes[..|plan.deletes|] == plan.deletes;
    }
    assert d.db.rows == rows1;
    var a := if |plan.adds| > 0 then AddRecordsSpec(d.db, faults, userId, plan.adds, base) else Step(d.db, true);
    var rows2 := rows1 + NewRows(userId, plan.adds, base);
    if |plan.adds| == 0 {
      assert rows2 == rows1;
    }
    assert a.db.rows == rows2;
    if |plan.updates| > 0 {
      UpdateEachApplies(a.db, faults, userId, plan.updates);
      assert plan.updates[..|plan.updates|] == plan.updates;
    }
  }

  /** Every "ldap." row of the user carries the namespace once, at the front of its key. */
  predicate KeysClean(rows: seq<Row>, userId: int) {
    forall r :: r in rows && IsLdapRow(r, userId) ==> !Contains(r.key[|PREFIX|..], PREFIX)
  }

  lemma CleanKey(r: Row)
    requires PREFIX <= r.key && !Contains(r.key[|PREFIX|..], PREFIX)
    ensures r.key == PREFIX + RemoveAll(r.key, PREFIX)
  {
    assert r.key == PREFIX + r.key[|PREFIX|..];
    RemoveAllPrefixed(r.key[|PREFIX|..], PREFIX);
  }

  /**
   * Read against the table, checkSqlField's status means: Addition exactly
   * when the user has no row for the field, Match exactly when the row
   * holds the value (given the unique index).
   */
  lemma StatusMeaning(rows: seq<Row>, userId: int, n: string, v: string)
    requires KeysClean(rows, userId)
    ensures var st := SqlStatus(CurrentRecords(rows, userId), n, v);
            (st == Addition <==> NoRow(rows, userId, PREFIX + n))
            && (st == Match ==> HasRow(rows, userId, PREFIX + n, v))
            && (UniqueKeys(rows) && HasRow(rows, userId, PREFIX + n, v) ==> st == Match)
  {
    var current := CurrentRecords(rows, userId);
    var st := SqlStatus(current, n, v);
    SqlStatusLastRecord(current, n, v);
    MatchingRowsQueried(rows, userId, n);
    if st != Addition {
      var i :| 0 <= i < |current| && current[i].key == n
               && (forall j :: i < j < |current| ==> current[j].key != n)
               && (st == Match <==> current[i].value == v);
      QueriedRecordRow(rows, userId, n, current[i]);
      var r :| r in rows && Matches(r, userId, PREFIX + n) && r.value == current[i].value;
      if UniqueKeys(rows) && HasRow(rows, userId, PREFIX + n, v) {
        var r' :| r' in rows && Matches(r', userId, PREFIX + n) && r'.value == v;
        var a :| 0 <= a < |rows| && rows[a] == r;
        var b :| 0 <= b < |rows| && rows[b] == r';
        assert a == b;
      }
    }
  }

  /** Every row of the user for field n is read back as a record named n. */
  lemma MatchingRowsQueried(rows: seq<Row>, userId: int, n: string)
    requires KeysClean(rows, userId)
    ensures forall r :: r in rows && Matches(r, userId, PREFIX + n) ==>
              exists i :: 0 <= i < |CurrentRecords(rows, userId)| && CurrentRecords(rows, userId)[i] == Record(n, r.value)
  {
    forall r | r in rows && Matches(r, userId, PREFIX + n)
      ensures exists i :: 0 <= i < |CurrentRecords(rows, userId)| && CurrentRecords(rows, userId)[i] == Record(n, r.value)
    {
      assert r.key == PREFIX + n && IsLdapRow(r, userId);
      assert r.key[|PREFIX|..] == n;
      assert !Contains(n, PREFIX);
      RemoveAllPrefixed(n, PREFIX);
      assert RemoveAll(r.key, PREFIX) == n;
      RowQueried(rows, userId, r);
      var read := Present(SortByOrdering(LdapRows(rows, userId)), true);
      var i :| 0 <= i < |read| && read[i] == Record(RemoveAll(r.key, PREFIX), r.value);
      assert read == CurrentRecords(rows, userId) && read[i] == Record(n, r.value);
    }
  }

  /** A record named n that was read back comes from a row of the user for field n. */
  lemma QueriedRecordRow(rows: seq<Row>, userId: int, n: string, rec: Record)
    requires KeysClean(rows, userId)
    requires rec in CurrentRecords(rows, userId) && rec.key == n
    ensures exists r :: r in rows && Matches(r, userId, PREFIX + n) && r.value == rec.value
  {
    QueriedRecordFromRow(rows, userId, rec);
    var r :| r in rows && IsLdapRow(r, userId) && RemoveAll(r.key, PREFIX) == rec.key && r.value == rec.value;
    CleanKey(r);
    assert Matches(r, userId, PREFIX + n);
  }

  /** A row matching name n is not keyed by a list of names without n. */
  lemma NotKeyedWithout(r: Row, userId: int, n: string, names: seq<string>)
    requires Matches(r, userId, PREFIX + n) && n !in names
    ensures !KeyedBy(r, userId, names)
  {
    forall j | 0 <= j < |names| ensures !Matches(r, userId, PREFIX + names[j]) {
      PrefixCancels(names[j], n);
    }
  }

  /** The rows after a plan whose every step succeeded. */
  function Applied(rows0: seq<Row>, userId: int, plan: Plan, base: int): seq<Row> {
    SetAll(RemoveKeys(rows0, userId, plan.deletes) + NewRows(userId, plan.adds, base), userId, plan.updates)
  }

  /** A row that survives the deletions and is not updated is still there afterwards. */
  lemma {:induction false} SurvivesUnchanged(rows0: seq<Row>, userId: int, plan: Plan, base: int, n: string, r: Row)
    requires r in rows0 && Matches(r, userId, PREFIX + n)
    requires n !in plan.deletes && Get(plan.updates, n).None?
    requires DistinctKeys(plan.updates)
    ensures r in Applied(rows0, userId, plan, base)
  {
    var rows1 := RemoveKeys(rows0, userId, plan.deletes);
    var rows2 := rows1 + NewRows(userId, plan.adds, base);
    RemoveKeysEffect(rows0, userId, plan.deletes);
    NotKeyedWithout(r, userId, n, plan.deletes);
    assert r in rows1;
    var i :| 0 <= i < |rows1| && rows1[i] == r;
    assert rows2[i] == r;
    KeysListed(plan.updates, n);
    NotKeyedWithout(r, userId, n, Keys(plan.updates));
    SetAllValues(rows2, userId, plan.updates);
  }

  /** A row that survives the deletions and is updated holds the new value. */
  lemma {:induction false} UpdatedInPlace(rows0: seq<Row>, userId: int, plan: Plan, base: int, n: string, r: Row, v: string)
    requires r in rows0 && Matches(r, userId, PREFIX + n)
    requires n !in plan.deletes && Get(plan.updates, n) == Some(v)
    requires DistinctKeys(plan.updates)
    ensures HasRow(Applied(rows0, userId, plan, base), userId, PREFIX + n, v)
  {
    var rows1 := RemoveKeys(rows0, userId, plan.deletes);
    var rows2 := rows1 + NewRows(userId, plan.adds, base);
    RemoveKeysEffect(rows0, userId, plan.deletes);
    NotKeyedWithout(r, userId, n, plan.deletes);
    assert r in rows1;
    var i :| 0 <= i < |rows1| && rows1[i] == r;
    assert rows2[i] == r;
    var j :| 0 <= j < |plan.updates| && plan.updates[j] == (n, v);
    SetAllValues(rows2, userId, plan.updates);
    assert Applied(rows0, userId, plan, base)[i] == r.(value := v);
  }

  /** An added field's new row is there afterwards, when the field is not also updated. */
  lemma {:induction false} AddedPresent(rows0: seq<Row>, userId: int, plan: Plan, base: int, n: string, v: string)
    requires Get(plan.adds, n) == Some(v) && Get(plan.updates, n).None?
    requires DistinctKeys(plan.updates)
    ensures HasRow(Applied(rows0, userId, plan, base), userId, PREFIX + n, v)
  {
    var rows1 := RemoveKeys(rows0, userId, plan.deletes);
    var rows2 := rows1 + NewRows(userId, plan.adds, base);
    var j :| 0 <= j < |plan.adds| && plan.adds[j] == (n, v);
    var i := |rows1| + j;
    assert rows2[i] == Row(userId, PREFIX + n, v, base + j);
    KeysListed(plan.updates, n);
    NotKeyedWithout(rows2[i], userId, n, Keys(plan.updates));
    SetAllValues(rows2, userId, plan.updates);
    var res := Applied(rows0, userId, plan, base);
    assert res == SetAll(rows2, userId, plan.updates);
    assert res[i] == rows2[i];
    assert res[i] in res && Matches(res[i], userId, PREFIX + n) && res[i].value == v;
  }

  /** A deleted field that is not also added has no row afterwards. */
  lemma {:induction false} DeletedAbsent(rows0: seq<Row>, userId: int, plan: Plan, base: int, n: string)
    requires n in plan.deletes && Get(plan.adds, n).None?
    ensures NoRow(Applied(rows0, userId, plan, base), userId, PREFIX + n)
  {
    var rows1 := RemoveKeys(rows0, userId, plan.deletes);
    var rows2 := rows1 + NewRows(userId, plan.adds, base);
    RemoveKeysEffect(rows0, userId, plan.deletes);
    var k :| 0 <= k < |plan.deletes| && plan.deletes[k] == n;
    forall i | 0 <= i < |rows2| ensures !Matches(rows2[i], userId, PREFIX + n) {
      if i < |rows1| {
        assert rows2[i] in rows1;
      } else {
        var j := i - |rows1|;
        assert rows2[i] == Row(userId, PREFIX + plan.adds[j].0, plan.adds[j].1, base + j);
        PrefixCancels(plan.adds[j].0, n);
      }
    }
    SetAllKeepsKeys(rows2, userId, plan.updates);
    var rows := Applied(rows0, userId, plan, base);
    forall r | r in rows ensures !Matches(r, userId, PREFIX + n) {
      var i :| 0 <= i < |rows| && rows[i] == r;
      assert !Matches(rows2[i], userId, PREFIX + n);
    }
  }

  /** saveProfile for a user other than 0: the query, then the plan for the records it returned. */
  lemma SaveProfileSteps(s: DbState, faults: set<nat>, fields: seq<Field>, dir: Directory, userId: int)
    requires userId != 0
    ensures var q := QueryProfileSpec(s, faults, userId, true);
            !q.result.NotAUser?
            && SaveProfileSpec(s, faults, fields, dir, userId)
               == if q.result.QueryFailed? then Step(q.db, false)
                  else ApplyPlan(q.db, faults, userId, PlanFor(q.result.records, fields, dir, FieldNames(fields)),
                                 |q.result.records| + 1)
  {
  }

  /** saveProfile for a user other than 0 whose query succeeds goes on with the table's own records. */
  lemma SaveProfileQueried(s: DbState, faults: set<nat>, fields: seq<Field>, dir: Directory, userId: int)
    requires userId != 0 && s.issued !in faults
    ensures SaveProfileSpec(s, faults, fields, dir, userId)
            == SaveAfterQuery(Query(DbState(s.rows, s.issued + 1), Records(CurrentRecords(s.rows, userId))),
                              faults, fields, dir, userId)
  {
  }

  /** With the records in hand, saveProfile applies the plan for them, numbering new rows after them. */
  lemma SaveAfterRecords(db: DbState, current: seq<Record>, faults: set<nat>, fields: seq<Field>, dir: Directory, userId: int)
    ensures SaveAfterQuery(Query(db, Records(current)), faults, fields, dir, userId)
            == ApplyPlan(db, faults, userId, PlanFor(current, fields, dir, FieldNames(fields)), |current| + 1)
  {
  }

  /** A successful saveProfile applied the whole plan for the records it read. */
  lemma SaveProfileApplied(s: DbState, faults: set<nat>, fields: seq<Field>, dir: Directory, userId: int)
    requires SaveProfileSpec(s, faults, fields, dir, userId).ok
    ensures SaveProfileSpec(s, faults, fields, dir, userId).db.rows == Reconciled(s.rows, fields, dir, userId)
  {
    assert userId != 0 && s.issued !in faults;
    var current := CurrentRecords(s.rows, userId);
    SaveProfileQueried(s, faults, fields, dir, userId);
    SaveAfterRecords(DbState(s.rows, s.issued + 1), current, faults, fields, dir, userId);
    ApplyPlanSucceeded(DbState(s.rows, s.issued + 1), faults, userId,
                       PlanFor(current, fields, dir, FieldNames(fields)), |current| + 1);
  }

  /**
   * The user's row for field n holds the field's value, or there is no row
   * when a single-valued field has no value.
   */
  predicate Mirrors(rows: seq<Row>, fields: seq<Field>, dir: Directory, userId: int, n: string) {
    match DesiredValue(fields, dir, n)
    case Some(v) => HasRow(rows, userId, PREFIX + n, v)
    case None => NoRow(rows, userId, PREFIX + n)
  }

  /** The rows after the plan computed from rows0's own records. */
  function Reconciled(rows0: seq<Row>, fields: seq<Field>, dir: Directory, userId: int): seq<Row> {
    var current := CurrentRecords(rows0, userId);
    Applied(rows0, userId, PlanFor(current, fields, dir, FieldNames(fields)), |current| + 1)
  }

  /**
   * Without KeysClean a successful saveProfile can leave the directory
   * unmirrored: the stored key `ldap.ldap.mail` is read back as `mail`, the
   * field matches it, nothing is written, and the user still has no
   * `ldap.mail` row.
   */
  lemma NestedNamespaceHidesField()
    ensures var s := DbState([Row(1, "ldap.ldap.mail", "x", 1)], 0);
            var after := SaveProfileSpec(s, {}, [Field("mail", "", "")], map["mail" := ["x"]], 1);
            after.ok && !KeysClean(s.rows, 1) && NoRow(after.db.rows, 1, PREFIX + "mail")
  {
    var rows := [Row(1, "ldap.ldap.mail", "x", 1)];
    var fields, dir := [Field("mail", "", "")], map["mail" := ["x"]];
    NestedNamespaceRead();
    var current := [Record("mail", "x")];
    SaveProfileQueried(DbState(rows, 0), {}, fields, dir, 1);
    SaveAfterRecords(DbState(rows, 1), current, {}, fields, dir, 1);
    MatchingFieldPlansNothing();
  }

  /** The record read back from the stored key `ldap.ldap.mail`, which is not clean. */
  lemma NestedNamespaceRead()
    ensures CurrentRecords([Row(1, "ldap.ldap.mail", "x", 1)], 1) == [Record("mail", "x")]
    ensures !KeysClean([Row(1, "ldap.ldap.mail", "x", 1)], 1)
  {
    var rows := [Row(1, "ldap.ldap.mail", "x", 1)];
    MailIsClean();
    OneLdapRow(rows[0]);
    assert rows[0].key == PREFIX + PREFIX + "mail";
    ReplaceStripsInnerNamespace("mail");
    assert Contains(rows[0].key[|PREFIX|..], PREFIX) by {
      assert PREFIX <= rows[0].key[|PREFIX|..][0..];
    }
  }

  /** The name `mail` does not hold the namespace. */
  lemma MailIsClean()
    ensures !Contains("mail", PREFIX)
  {
    forall i | 0 <= i <= |"mail"| ensures !(PREFIX <= "mail"[i..]) {
      assert |"mail"[i..]| < |PREFIX|;
    }
  }

  /** A table of one `ldap.` row of the user is read as that row. */
  lemma OneLdapRow(r: Row)
    requires IsLdapRow(r, r.userId)
    ensures SortByOrdering(LdapRows([r], r.userId)) == [r]
  {
    var keep := (x: Row) => IsLdapRow(x, r.userId);
    assert [r][1..] == [] && Filter([], keep) == [];
    assert keep(r);
    assert Filter([r], keep) == [r] + Filter([r][1..], keep);
  }

  /** A single-valued field whose one record already holds its value plans no statement. */
  lemma MatchingFieldPlansNothing()
    ensures PlanFor([Record("mail", "x")], [Field("mail", "", "")], map["mail" := ["x"]], ["mail"]) == Plan([], [], [])
    ensures FieldNames([Field("mail", "", "")]) == ["mail"]
  {
    var current, fields, dir := [Record("mail", "x")], [Field("mail", "", "")], map["mail" := ["x"]];
    assert DesiredValue(fields, dir, "mail") == Some("x");
    assert SqlStatus(current, "mail", "x") == Match;
    assert ["mail"][..0] == [];
  }

  /** The records saveProfile reads: the user's "ldap." rows with the namespace removed. */
  function CurrentRecords(rows0: seq<Row>, userId: int): seq<Record> {
    Present(SortByOrdering(LdapRows(rows0, userId)), true)
  }

  /** A field with a value has its row, holding that value, after the plan. */
  lemma {:induction false} PlanWritesValue(rows0: seq<Row>, fields: seq<Field>, dir: Directory, userId: int, n: string, v: string)
    requires KeysClean(rows0, userId)
    requires n in FieldNames(fields) && DesiredValue(fields, dir, n) == Some(v)
    ensures HasRow(Reconciled(rows0, fields, dir, userId), userId, PREFIX + n, v)
  {
    var current := CurrentRecords(rows0, userId);
    match SqlStatus(current, n, v)
    case Match => PlanKeepsMatch(rows0, fields, dir, userId, n, v);
    case Modify => PlanUpdatesModified(rows0, fields, dir, userId, n, v);
    case Addition => PlanAddsMissing(rows0, fields, dir, userId, n, v);
    case Deletion => SqlStatusLastRecord(current, n, v);
  }

  lemma {:induction false} PlanKeepsMatch(rows0: seq<Row>, fields: seq<Field>, dir: Directory, userId: int, n: string, v: string)
    requires KeysClean(rows0, userId)
    requires n in FieldNames(fields) && DesiredValue(fields, dir, n) == Some(v)
    requires SqlStatus(CurrentRecords(rows0, userId), n, v) == Match
    ensures HasRow(Reconciled(rows0, fields, dir, userId), userId, PREFIX + n, v)
  {
    var current := CurrentRecords(rows0, userId);
    var plan := PlanFor(current, fields, dir, FieldNames(fields));
    PlanClassifies(current, fields, dir, FieldNames(fields), n);
    StatusMeaning(rows0, userId, n, v);
    var r :| r in rows0 && Matches(r, userId, PREFIX + n) && r.value == v;
    SurvivesUnchanged(rows0, userId, plan, |current| + 1, n, r);
  }

  lemma {:induction false} PlanUpdatesModified(rows0: seq<Row>, fields: seq<Field>, dir: Directory, userId: int, n: string, v: string)
    requires KeysClean(rows0, userId)
    requires n in FieldNames(fields) && DesiredValue(fields, dir, n) == Some(v)
    requires SqlStatus(CurrentRecords(rows0, userId), n, v) == Modify
    ensures HasRow(Reconciled(rows0, fields, dir, userId), userId, PREFIX + n, v)
  {
    var current := CurrentRecords(rows0, userId);
    var plan := PlanFor(current, fields, dir, FieldNames(fields));
    PlanClassifies(current, fields, dir, FieldNames(fields), n);
    StatusMeaning(rows0, userId, n, v);
    var r :| r in rows0 && Matches(r, userId, PREFIX + n);
    UpdatedInPlace(rows0, userId, plan, |current| + 1, n, r, v);
  }

  lemma {:induction false} PlanAddsMissing(rows0: seq<Row>, fields: seq<Field>, dir: Directory, userId: int, n: string, v: string)
    requires n in FieldNames(fields) && DesiredValue(fields, dir, n) == Some(v)
    requires SqlStatus(CurrentRecords(rows0, userId), n, v) == Addition
    ensures HasRow(Reconciled(rows0, fields, dir, userId), userId, PREFIX + n, v)
  {
    var current := CurrentRecords(rows0, userId);
    var plan := PlanFor(current, fields, dir, FieldNames(fields));
    PlanClassifies(current, fields, dir, FieldNames(fields), n);
    AddedPresent(rows0, userId, plan, |current| + 1, n, v);
  }

  /** The plan leaves every field of the profile mirrored. */
  lemma {:induction false} PlanMirrorsDirectory(rows0: seq<Row>, fields: seq<Field>, dir: Directory, userId: int, n: string)
    requires KeysClean(rows0, userId)
    requires n in FieldNames(fields)
    ensures Mirrors(Reconciled(rows0, fields, dir, userId), fields, dir, userId, n)
  {
    match DesiredValue(fields, dir, n)
    case Some(v) =>
      PlanWritesValue(rows0, fields, dir, userId, n, v);
    case None =>
      var current := CurrentRecords(rows0, userId);
      PlanClassifies(current, fields, dir, FieldNames(fields), n);
      DeletedAbsent(rows0, userId, PlanFor(current, fields, dir, FieldNames(fields)), |current| + 1, n);
  }

  /**
   * After a successful saveProfile the table mirrors the directory, for
   * every field of the profile.
   */
  lemma {:induction false} ReconcileMirrorsDirectory(s: DbState, faults: set<nat>, fields: seq<Field>, dir: Directory, userId: int, n: string)
    requires KeysClean(s.rows, userId)
    requires SaveProfileSpec(s, faults, fields, dir, userId).ok
    requires n in FieldNames(fields)
    ensures Mirrors(SaveProfileSpec(s, faults, fields, dir, userId).db.rows, fields, dir, userId, n)
  {
    SaveProfileApplied(s, faults, fields, dir, userId);
    PlanMirrorsDirectory(s.rows, fields, dir, userId, n);
  }

  /**
   * A successful saveProfile keeps every row that is not the user's row
   * for one of the profile's fields: other users' rows, rows outside the
   * "ldap." namespace and rows of fields the profile does not list.
   */
  lemma ReconcileKeepsOtherRows(s: DbState, faults: set<nat>, fields: seq<Field>, dir: Directory, userId: int, r: Row)
    requires SaveProfileSpec(s, faults, fields, dir, userId).ok
    requires r in s.rows && !KeyedBy(r, userId, FieldNames(fields))
    ensures r in SaveProfileSpec(s, faults, fields, dir, userId).db.rows
  {
    SaveProfileApplied(s, faults, fields, dir, userId);
    var current := CurrentRecords(s.rows, userId);
    var names := FieldNames(fields);
    PlanWithinNames(current, fields, dir, names);
    OtherRowSurvives(s.rows, userId, PlanFor(current, fields, dir, names), |current| + 1, names, r);
  }

  /** A row keyed by none of the names a plan is confined to is still there after the plan. */
  lemma OtherRowSurvives(rows0: seq<Row>, userId: int, plan: Plan, base: int, names: seq<string>, r: Row)
    requires r in rows0 && !KeyedBy(r, userId, names)
    requires forall m :: m in plan.deletes ==> m in names
    requires forall j :: 0 <= j < |plan.updates| ==> plan.updates[j].0 in names
    requires DistinctKeys(plan.updates)
    ensures r in Applied(rows0, userId, plan, base)
  {
    var rows1 := RemoveKeys(rows0, userId, plan.deletes);
    var rows2 := rows1 + NewRows(userId, plan.adds, base);
    RemoveKeysEffect(rows0, userId, plan.deletes);
    KeyedWithin(r, userId, plan.deletes, names);
    assert r in rows1;
    var i :| 0 <= i < |rows1| && rows1[i] == r;
    assert rows2[i] == r;
    KeyedWithin(r, userId, Keys(plan.updates), names);
    SetAllValues(rows2, userId, plan.updates);
    assert Applied(rows0, userId, plan, base)[i] == r;
  }

  /** A row keyed by none of the names is keyed by none of a list drawn from them. */
  lemma KeyedWithin(r: Row, userId: int, sub: seq<string>, names: seq<string>)
    requires !KeyedBy(r, userId, names)
    requires forall j :: 0 <= j < |sub| ==> sub[j] in names
    ensures !KeyedBy(r, userId, sub)
  {
    forall j | 0 <= j < |sub| ensures !Matches(r, userId, PREFIX + sub[j]) {
      var k :| 0 <= k < |names| && names[k] == sub[j];
      assert !Matches(r, userId, PREFIX + names[k]);
    }
  }

  /** saveProfile keeps the unique index on (user_id, profile_key), whatever fails. */
  lemma ReconcileKeepsKeysUnique(s: DbState, faults: set<nat>, fields: seq<Field>, dir: Directory, userId: int)
    requires UniqueKeys(s.rows)
    ensures UniqueKeys(SaveProfileSpec(s, faults, fields, dir, userId).db.rows)
  {
    if userId != 0 && s.issued !in faults {
      var current := CurrentRecords(s.rows, userId);
      SaveProfileQueried(s, faults, fields, dir, userId);
      SaveAfterRecords(DbState(s.rows, s.issued + 1), current, faults, fields, dir, userId);
      ApplyPlanKeepsUnique(DbState(s.rows, s.issued + 1), faults, userId,
                           PlanFor(current, fields, dir, FieldNames(fields)), |current| + 1);
    }
  }

  /** Each step of a plan keeps the unique index, whichever of them fail. */
  lemma ApplyPlanKeepsUnique(s: DbState, faults: set<nat>, userId: int, plan: Plan, base: int)
    requires UniqueKeys(s.rows)
    ensures UniqueKeys(ApplyPlan(s, faults, userId, plan, base).db.rows)
  {
    var d := if |plan.deletes| > 0 then DeleteRecordsSpec(s, faults, userId, plan.deletes) else Step(s, true);
    if |plan.deletes| > 0 {
      DeleteEachKeepsUnique(s, faults, userId, plan.deletes);
    }
    var a := if |plan.adds| > 0 then AddRecordsSpec(d.db, faults, userId, plan.adds, base) else Step(d.db, true);
    if |plan.adds| > 0 {
      InsertKeepsUniqueKeys(d.db, faults, NewRows(userId, plan.adds, base));
    }
    if |plan.updates| > 0 {
      UpdateEachKeepsUnique(a.db, faults, userId, plan.updates);
    }
  }
}
