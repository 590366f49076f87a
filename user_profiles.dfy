/**
 * The host's user-profile table (`#__user_profiles`): rows of (user_id,
 * profile_key, profile_value, ordering), shared with other features, with a
 * unique index on (user_id, profile_key). The profile code owns the rows
 * whose key starts with "ldap.".
 *
 * The database is modelled by its rows and a count of the statements sent to
 * it; the set `faults` names the statements (by number) that fail. A failed
 * statement changes nothing.
 */
module UserProfiles {
  import opened PhpArrays
  import opened PhpStrings

  /** Namespace of the profile keys this code owns. */
  const PREFIX: string := "ldap."

  datatype Row = Row(userId: int, key: string, value: string, ordering: int)

  /** A row as a SELECT of profile_key and profile_value returns it. */
  datatype Record = Record(key: string, value: string)

  /** The table's rows and the number of statements sent so far. */
  datatype DbState = DbState(rows: seq<Row>, issued: nat)

  /** The state after an operation, and whether the operation reported success. */
  datatype Step = Step(db: DbState, ok: bool)

  predicate Matches(r: Row, userId: int, key: string) {
    r.userId == userId && r.key == key
  }

  /** `user_id = userId AND profile_key LIKE 'ldap.%'` */
  predicate IsLdapRow(r: Row, userId: int) {
    r.userId == userId && PREFIX <= r.key
  }

  /** The row belongs to the user and its key is PREFIX followed by one of the names. */
  predicate KeyedBy(r: Row, userId: int, names: seq<string>) {
    exists j :: 0 <= j < |names| && Matches(r, userId, PREFIX + names[j])
  }

  /** At most one row per (user_id, profile_key): the table's unique index holds. */
  predicate UniqueKeys(rows: seq<Row>) {
    forall i, j :: 0 <= i < j < |rows| ==> !Matches(rows[j], rows[i].userId, rows[i].key)
  }

  predicate HasRow(rows: seq<Row>, userId: int, key: string, value: string) {
    exists r :: r in rows && Matches(r, userId, key) && r.value == value
  }

  predicate NoRow(rows: seq<Row>, userId: int, key: string) {
    forall r :: r in rows ==> !Matches(r, userId, key)
  }

  /** Keys with the namespace are equal exactly when the names are. */
  lemma PrefixCancels(a: string, b: string)
    ensures PREFIX + a == PREFIX + b <==> a == b
  {
    assert (PREFIX + a)[|PREFIX|..] == a;
    assert (PREFIX + b)[|PREFIX|..] == b;
  }

  /** The rows a WHERE clause keeps, in table order. */
  function Filter(rows: seq<Row>, keep: Row -> bool): (res: seq<Row>)
    ensures forall r :: r in res <==> r in rows && keep(r)
    ensures UniqueKeys(rows) ==> UniqueKeys(res)
  {
    if rows == [] then []
    else
      var rest := Filter(rows[1..], keep);
      if keep(rows[0]) then
        assert UniqueKeys(rows) ==> UniqueKeys([rows[0]] + rest) by {
          if UniqueKeys(rows) {
            assert forall r :: r in rest ==> r in rows[1..];
            assert forall r :: r in rows[1..] ==> !Matches(r, rows[0].userId, rows[0].key) by {
              forall r | r in rows[1..] ensures !Matches(r, rows[0].userId, rows[0].key) {
                var j :| 0 <= j < |rows[1..]| && rows[1..][j] == r;
                assert rows[j + 1] == r;
              }
            }
            assert UniqueKeys(rows[1..]) by {
              assert forall i :: 0 <= i < |rows[1..]| ==> rows[1..][i] == rows[i + 1];
            }
          }
        }
        [rows[0]] + rest
      else
        assert UniqueKeys(rows) ==> UniqueKeys(rows[1..]) by {
          assert forall i :: 0 <= i < |rows[1..]| ==> rows[1..][i] == rows[i + 1];
        }
        rest
  }

  /** `DELETE … WHERE user_id = userId AND profile_key = key` */
  function RemoveKey(rows: seq<Row>, userId: int, key: string): seq<Row> {
    Filter(rows, r => !Matches(r, userId, key))
  }

  /** `DELETE … WHERE user_id = userId AND profile_key LIKE 'ldap.%'` */
  function RemoveLdapRows(rows: seq<Row>, userId: int): seq<Row> {
    Filter(rows, r => !IsLdapRow(r, userId))
  }

  /** `SELECT … WHERE user_id = userId AND profile_key LIKE 'ldap.%'` */
  function LdapRows(rows: seq<Row>, userId: int): seq<Row> {
    Filter(rows, r => IsLdapRow(r, userId))
  }

  /** `UPDATE … SET profile_value = value WHERE profile_key = key AND user_id = userId` */
  function SetValue(rows: seq<Row>, userId: int, key: string, value: string): seq<Row> {
    seq(|rows|, i requires 0 <= i < |rows| =>
      if Matches(rows[i], userId, key) then rows[i].(value := value) else rows[i])
  }

  predicate SortedByOrdering(rows: seq<Row>) {
    forall i, j :: 0 <= i < j < |rows| ==> rows[i].ordering <= rows[j].ordering
  }

  function InsertByOrdering(r: Row, rows: seq<Row>): (res: seq<Row>)
    requires SortedByOrdering(rows)
    ensures SortedByOrdering(res)
    ensures multiset(res) == multiset(rows) + multiset{r}
  {
    if rows == [] then [r]
    else if r.ordering <= rows[0].ordering then
      assert multiset([r] + rows) == multiset{r} + multiset(rows);
      [r] + rows
    else
      var first, tail := rows[0], rows[1..];
      assert rows == [first] + tail;
      var rest := InsertByOrdering(r, tail);
      assert multiset(rows) == multiset{first} + multiset(tail);
      assert forall x :: x in rest ==> first.ordering <= x.ordering by {
        forall x | x in rest ensures first.ordering <= x.ordering {
          assert x in multiset(rest);
          if x != r {
            assert x in tail;
          }
        }
      }
      SortedCons(first, rest);
      assert multiset([first] + rest) == multiset{first} + multiset(rest);
      [first] + rest
  }

  lemma SortedCons(x: Row, rows: seq<Row>)
    requires SortedByOrdering(rows)
    requires forall y :: y in rows ==> x.ordering <= y.ordering
    ensures SortedByOrdering([x] + rows)
  {
    var all := [x] + rows;
    forall i, j | 0 <= i < j < |all| ensures all[i].ordering <= all[j].ordering {
      assert all[j] == rows[j - 1];
      if i > 0 {
        assert all[i] == rows[i - 1];
      }
    }
  }

  /**
   * `ORDER BY ordering`. Rows with equal ordering keep their table order
   * (SQL leaves it open; any fixed choice is one the database may make).
   */
  function SortByOrdering(rows: seq<Row>): (res: seq<Row>)
    ensures SortedByOrdering(res)
    ensures multiset(res) == multiset(rows)
  {
    if rows == [] then []
    else
      assert rows == [rows[0]] + rows[1..];
      InsertByOrdering(rows[0], SortByOrdering(rows[1..]))
  }

  /**
   * The selected columns: profile_key, or `REPLACE(profile_key, 'ldap.', '')`
   * when the caller asks for clean keys, and profile_value.
   */
  function Present(rows: seq<Row>, clean: bool): seq<Record> {
    seq(|rows|, i requires 0 <= i < |rows| =>
      Record(if clean then RemoveAll(rows[i].key, PREFIX) else rows[i].key, rows[i].value))
  }

  /** One statement: it fails when its number is in faults, and otherwise leaves the table as after. */
  function Run(s: DbState, faults: set<nat>, after: seq<Row>): Step {
    if s.issued in faults then Step(DbState(s.rows, s.issued + 1), false)
    else Step(DbState(after, s.issued + 1), true)
  }

  /** The inserted rows would break the unique index on (user_id, profile_key). */
  predicate Collides(rows: seq<Row>, added: seq<Row>) {
    (exists r, a :: r in rows && a in added && Matches(a, r.userId, r.key)) || !UniqueKeys(added)
  }

  /**
   * One INSERT of several rows: all or nothing. With no rows the statement
   * has an empty VALUES list, which is not valid SQL, so it fails.
   */
  function Insert(s: DbState, faults: set<nat>, added: seq<Row>): Step {
    if added == [] || Collides(s.rows, added) then Step(DbState(s.rows, s.issued + 1), false)
    else Run(s, faults, s.rows + added)
  }

  // ---------------------------------------------------------------------
  // What the profile's record operations do to the table (profile.php).
  // ---------------------------------------------------------------------

  /** The rows addRecords inserts: one per attribute, with consecutive orderings. */
  function NewRows(userId: int, attributes: Assoc<string>, order: int): (rows: seq<Row>)
    ensures |rows| == |attributes|
    ensures forall i :: 0 <= i < |attributes| ==>
              rows[i] == Row(userId, PREFIX + attributes[i].0, attributes[i].1, order + i)
  {
    if attributes == [] then []
    else [Row(userId, PREFIX + attributes[0].0, attributes[0].1, order)]
         + NewRows(userId, attributes[1..], order + 1)
  }

  /** One more attribute adds one more row, numbered after the others. */
  lemma NewRowsAppend(userId: int, attributes: Assoc<string>, a: (string, string), order: int)
    ensures NewRows(userId, attributes + [a], order)
            == NewRows(userId, attributes, order) + [Row(userId, PREFIX + a.0, a.1, order + |attributes|)]
  {
    var all := attributes + [a];
    assert forall i :: 0 <= i < |attributes| ==> all[i] == attributes[i];
  }

  function AddRecordsSpec(s: DbState, faults: set<nat>, userId: int, attributes: Assoc<string>, order: int): Step {
    if userId == 0 then Step(s, false)
    else Insert(s, faults, NewRows(userId, attributes, order))
  }

  /** One UPDATE per attribute, stopping at the first that fails. */
  function UpdateEach(s: DbState, faults: set<nat>, userId: int, attributes: Assoc<string>): Step
    decreases |attributes|
  {
    if attributes == [] then Step(s, true)
    else
      var step := Run(s, faults, SetValue(s.rows, userId, PREFIX + attributes[0].0, attributes[0].1));
      if !step.ok then step else UpdateEach(step.db, faults, userId, attributes[1..])
  }

  function UpdateRecordsSpec(s: DbState, faults: set<nat>, userId: int, attributes: Assoc<string>): Step {
    if userId == 0 then Step(s, false) else UpdateEach(s, faults, userId, attributes)
  }

  /** One DELETE per name, stopping at the first that fails. */
  function DeleteEach(s: DbState, faults: set<nat>, userId: int, names: seq<string>): Step
    decreases |names|
  {
    if names == [] then Step(s, true)
    else
      var step := Run(s, faults, RemoveKey(s.rows, userId, PREFIX + names[0]));
      if !step.ok then step else DeleteEach(step.db, faults, userId, names[1..])
  }

  function DeleteRecordsSpec(s: DbState, faults: set<nat>, userId: int, names: seq<string>): Step {
    if userId == 0 then Step(s, false) else DeleteEach(s, faults, userId, names)
  }

  function DeleteProfileSpec(s: DbState, faults: set<nat>, userId: int): Step {
    if userId == 0 then Step(s, false) else Run(s, faults, RemoveLdapRows(s.rows, userId))
  }

  /** queryProfile's answer: false for user 0, null when the query fails, else the rows. */
  datatype Fetch = NotAUser | QueryFailed | Records(records: seq<Record>)

  datatype Query = Query(db: DbState, result: Fetch)

  function QueryProfileSpec(s: DbState, faults: set<nat>, userId: int, clean: bool): Query {
    if userId == 0 then Query(s, NotAUser)
    else if s.issued in faults then Query(DbState(s.rows, s.issued + 1), QueryFailed)
    else Query(DbState(s.rows, s.issued + 1),
               Records(Present(SortByOrdering(LdapRows(s.rows, userId)), clean)))
  }

  // ---------------------------------------------------------------------
  // The same statements with no failures, applied in order.
  // ---------------------------------------------------------------------

  function SetAll(rows: seq<Row>, userId: int, attributes: Assoc<string>): seq<Row>
    decreases |attributes|
  {
    if attributes == [] then rows
    else SetAll(SetValue(rows, userId, PREFIX + attributes[0].0, attributes[0].1), userId, attributes[1..])
  }

  function RemoveKeys(rows: seq<Row>, userId: int, names: seq<string>): seq<Row>
    decreases |names|
  {
    if names == [] then rows
    else RemoveKeys(RemoveKey(rows, userId, PREFIX + names[0]), userId, names[1..])
  }

  /** Setting the first n + 1 attributes is setting the first, then n more. */
  lemma SetAllCons(rows: seq<Row>, userId: int, attributes: Assoc<string>, n: nat)
    requires n < |attributes|
    ensures SetAll(rows, userId, attributes[..n + 1])
            == SetAll(SetValue(rows, userId, PREFIX + attributes[0].0, attributes[0].1), userId, attributes[1..][..n])
  {
    var done := attributes[..n + 1];
    assert done != [] && done[0] == attributes[0] && done[1..] == attributes[1..][..n];
  }

  /**
   * updateRecords applies the attributes in order up to the first failed
   * statement: the table holds the first n updates, n statements succeeded,
   * and it reports success exactly when all did.
   */
  lemma {:induction false} UpdateEachApplies(s: DbState, faults: set<nat>, userId: int, attributes: Assoc<string>)
    ensures var step := UpdateEach(s, faults, userId, attributes);
            exists n :: 0 <= n <= |attributes|
              && step.db.rows == SetAll(s.rows, userId, attributes[..n])
              && step.db.issued == s.issued + n + (if step.ok then 0 else 1)
              && (step.ok <==> n == |attributes|)
    decreases |attributes|
  {
    var step := UpdateEach(s, faults, userId, attributes);
    if attributes == [] {
      assert step.db.rows == SetAll(s.rows, userId, attributes[..0]);
    } else {
      var first := Run(s, faults, SetValue(s.rows, userId, PREFIX + attributes[0].0, attributes[0].1));
      if !first.ok {
        assert attributes[..0] == [];
        assert step.db.rows == SetAll(s.rows, userId, attributes[..0]);
      } else {
        assert first.db == DbState(SetValue(s.rows, userId, PREFIX + attributes[0].0, attributes[0].1), s.issued + 1);
        assert step == UpdateEach(first.db, faults, userId, attributes[1..]);
        UpdateEachApplies(first.db, faults, userId, attributes[1..]);
        var n :| 0 <= n <= |attributes[1..]|
                 && step.db.rows == SetAll(first.db.rows, userId, attributes[1..][..n])
                 && step.db.issued == first.db.issued + n + (if step.ok then 0 else 1)
                 && (step.ok <==> n == |attributes[1..]|);
        SetAllCons(s.rows, userId, attributes, n);
        assert 0 <= n + 1 <= |attributes| && step.db.rows == SetAll(s.rows, userId, attributes[..n + 1])
               && step.db.issued == s.issued + (n + 1) + (if step.ok then 0 else 1)
               && (step.ok <==> n + 1 == |attributes|);
      }
    }
  }

  /**
   * deleteRecords removes the names in order up to the first failed
   * statement, like updateRecords.
   */
  lemma {:induction false} DeleteEachApplies(s: DbState, faults: set<nat>, userId: int, names: seq<string>)
    ensures var step := DeleteEach(s, faults, userId, names);
            exists n :: 0 <= n <= |names|
              && step.db.rows == RemoveKeys(s.rows, userId, names[..n])
              && step.db.issued == s.issued + n + (if step.ok then 0 else 1)
              && (step.ok <==> n == |names|)
    decreases |names|
  {
    var step := DeleteEach(s, faults, userId, names);
    if names == [] {
      assert step.db.rows == RemoveKeys(s.rows, userId, names[..0]);
    } else {
      var first := Run(s, faults, RemoveKey(s.rows, userId, PREFIX + names[0]));
      if !first.ok {
        assert names[..0] == [];
        assert step.db.rows == RemoveKeys(s.rows, userId, names[..0]);
      } else {
        assert first.db == DbState(RemoveKey(s.rows, userId, PREFIX + names[0]), s.issued + 1);
        assert step == DeleteEach(first.db, faults, userId, names[1..]);
        DeleteEachApplies(first.db, faults, userId, names[1..]);
        var n :| 0 <= n <= |names[1..]|
                 && step.db.rows == RemoveKeys(first.db.rows, userId, names[1..][..n])
                 && step.db.issued == first.db.issued + n + (if step.ok then 0 else 1)
                 && (step.ok <==> n == |names[1..]|);
        RemoveKeysCons(s.rows, userId, names, n);
        assert 0 <= n + 1 <= |names| && step.db.rows == RemoveKeys(s.rows, userId, names[..n + 1])
               && step.db.issued == s.issued + (n + 1) + (if step.ok then 0 else 1)
               && (step.ok <==> n + 1 == |names|);
      }
    }
  }

  /** Removing the first n + 1 names is removing the first, then n more. */
  lemma RemoveKeysCons(rows: seq<Row>, userId: int, names: seq<string>, n: nat)
    requires n < |names|
    ensures RemoveKeys(rows, userId, names[..n + 1])
            == RemoveKeys(RemoveKey(rows, userId, PREFIX + names[0]), userId, names[1..][..n])
  {
    var done := names[..n + 1];
    assert done != [] && done[0] == names[0] && done[1..] == names[1..][..n];
  }

  /** Removing the names deletes exactly the user's rows keyed by one of them. */
  lemma {:induction false} RemoveKeysEffect(rows: seq<Row>, userId: int, names: seq<string>)
    ensures forall r :: r in RemoveKeys(rows, userId, names) <==> r in rows && !KeyedBy(r, userId, names)
    ensures UniqueKeys(rows) ==> UniqueKeys(RemoveKeys(rows, userId, names))
    decreases |names|
  {
    if names != [] {
      var once := RemoveKey(rows, userId, PREFIX + names[0]);
      RemoveKeysEffect(once, userId, names[1..]);
      forall r ensures KeyedBy(r, userId, names) <==> Matches(r, userId, PREFIX + names[0]) || KeyedBy(r, userId, names[1..]) {
        if KeyedBy(r, userId, names) {
          var j :| 0 <= j < |names| && Matches(r, userId, PREFIX + names[j]);
          if j > 0 { assert names[1..][j - 1] == names[j]; }
        }
        if KeyedBy(r, userId, names[1..]) {
          var j :| 0 <= j < |names[1..]| && Matches(r, userId, PREFIX + names[1..][j]);
          assert names[j + 1] == names[1..][j];
        }
      }
    }
  }

  /** Updates keep every row's user, key and ordering in place. */
  lemma {:induction false} SetAllKeepsKeys(rows: seq<Row>, userId: int, attributes: Assoc<string>)
    ensures |SetAll(rows, userId, attributes)| == |rows|
    ensures forall i :: 0 <= i < |rows| ==>
              SetAll(rows, userId, attributes)[i].userId == rows[i].userId
              && SetAll(rows, userId, attributes)[i].key == rows[i].key
              && SetAll(rows, userId, attributes)[i].ordering == rows[i].ordering
    decreases |attributes|
  {
    if attributes != [] {
      SetAllKeepsKeys(SetValue(rows, userId, PREFIX + attributes[0].0, attributes[0].1), userId, attributes[1..]);
    }
  }

  /**
   * Updates leave the rows no attribute names alone, and give a row keyed by
   * an attribute that attribute's value.
   */
  lemma {:induction false} SetAllValues(rows: seq<Row>, userId: int, attributes: Assoc<string>)
    requires DistinctKeys(attributes)
    ensures |SetAll(rows, userId, attributes)| == |rows|
    ensures forall i :: 0 <= i < |rows| && !KeyedBy(rows[i], userId, Keys(attributes)) ==>
              SetAll(rows, userId, attributes)[i] == rows[i]
    ensures forall i, j :: 0 <= i < |rows| && 0 <= j < |attributes| && Matches(rows[i], userId, PREFIX + attributes[j].0) ==>
              SetAll(rows, userId, attributes)[i] == rows[i].(value := attributes[j].1)
    decreases |attributes|
  {
    SetAllKeepsKeys(rows, userId, attributes);
    if attributes != [] {
      var a, more := attributes[0], attributes[1..];
      var once := SetValue(rows, userId, PREFIX + a.0, a.1);
      assert DistinctKeys(more) by {
        assert forall i :: 0 <= i < |more| ==> more[i] == attributes[i + 1];
      }
      SetAllValues(once, userId, more);
      var res := SetAll(rows, userId, attributes);
      assert res == SetAll(once, userId, more);
      forall i | 0 <= i < |rows| && !KeyedBy(rows[i], userId, Keys(attributes)) ensures res[i] == rows[i] {
        assert Keys(attributes)[0] == a.0;
        assert !Matches(rows[i], userId, PREFIX + a.0);
        assert once[i] == rows[i];
        forall j | 0 <= j < |Keys(more)| ensures !Matches(once[i], userId, PREFIX + Keys(more)[j]) {
          assert Keys(attributes)[j + 1] == Keys(more)[j];
        }
      }
      forall i, j | 0 <= i < |rows| && 0 <= j < |attributes| && Matches(rows[i], userId, PREFIX + attributes[j].0)
        ensures res[i] == rows[i].(value := attributes[j].1)
      {
        if j == 0 {
          assert once[i] == rows[i].(value := a.1);
          forall k | 0 <= k < |Keys(more)| ensures !Matches(once[i], userId, PREFIX + Keys(more)[k]) {
            assert Keys(more)[k] == attributes[k + 1].0;
            PrefixCancels(a.0, Keys(more)[k]);
          }
        } else {
          assert more[j - 1] == attributes[j];
          PrefixCancels(a.0, attributes[j].0);
          assert once[i] == rows[i];
        }
      }
    }
  }

  /** Updates that keep every row's key keep the unique index. */
  lemma SameKeysUnique(rows: seq<Row>, res: seq<Row>)
    requires UniqueKeys(rows) && |res| == |rows|
    requires forall i :: 0 <= i < |rows| ==> res[i].userId == rows[i].userId && res[i].key == rows[i].key
    ensures UniqueKeys(res)
  {
  }

  /** An insert that does not collide keeps the unique index. */
  lemma InsertKeepsUnique(rows: seq<Row>, added: seq<Row>)
    requires UniqueKeys(rows) && !Collides(rows, added)
    ensures UniqueKeys(rows + added)
  {
    var all := rows + added;
    forall i, j | 0 <= i < j < |all| ensures !Matches(all[j], all[i].userId, all[i].key) {
      if j >= |rows| && i < |rows| {
        assert all[i] in rows && all[j] in added;
      } else if i >= |rows| {
        assert all[i] == added[i - |rows|] && all[j] == added[j - |rows|];
      }
    }
  }

  /** Every operation on the table keeps the unique index. */
  lemma {:induction false} UpdateEachKeepsUnique(s: DbState, faults: set<nat>, userId: int, attributes: Assoc<string>)
    requires UniqueKeys(s.rows)
    ensures UniqueKeys(UpdateEach(s, faults, userId, attributes).db.rows)
  {
    UpdateEachApplies(s, faults, userId, attributes);
    var step := UpdateEach(s, faults, userId, attributes);
    var n :| 0 <= n <= |attributes| && step.db.rows == SetAll(s.rows, userId, attributes[..n]);
    SetAllKeepsKeys(s.rows, userId, attributes[..n]);
    SameKeysUnique(s.rows, step.db.rows);
  }

  lemma {:induction false} DeleteEachKeepsUnique(s: DbState, faults: set<nat>, userId: int, names: seq<string>)
    requires UniqueKeys(s.rows)
    ensures UniqueKeys(DeleteEach(s, faults, userId, names).db.rows)
  {
    DeleteEachApplies(s, faults, userId, names);
    var step := DeleteEach(s, faults, userId, names);
    var n :| 0 <= n <= |names| && step.db.rows == RemoveKeys(s.rows, userId, names[..n]);
    RemoveKeysEffect(s.rows, userId, names[..n]);
  }

  lemma InsertKeepsUniqueKeys(s: DbState, faults: set<nat>, added: seq<Row>)
    requires UniqueKeys(s.rows)
    ensures UniqueKeys(Insert(s, faults, added).db.rows)
  {
    if added != [] && !Collides(s.rows, added) {
      InsertKeepsUnique(s.rows, added);
    }
  }

  /** After a successful deleteProfile the user has no "ldap." rows; all other rows stay. */
  lemma DeleteProfileEffect(s: DbState, faults: set<nat>, userId: int)
    ensures var step := DeleteProfileSpec(s, faults, userId);
            step.ok ==> forall r :: r in step.db.rows <==> r in s.rows && !IsLdapRow(r, userId)
    ensures !DeleteProfileSpec(s, faults, userId).ok ==> DeleteProfileSpec(s, faults, userId).db.rows == s.rows
  {
  }

  /**
   * With clean keys, queryProfile's records are the user's "ldap." rows with
   * the namespace removed: every record comes from such a row.
   */
  lemma {:induction false} QueriedRecordFromRow(rows: seq<Row>, userId: int, rec: Record)
    requires rec in Present(SortByOrdering(LdapRows(rows, userId)), true)
    ensures exists r :: r in rows && IsLdapRow(r, userId) && RemoveAll(r.key, PREFIX) == rec.key && r.value == rec.value
  {
    var sorted := SortByOrdering(LdapRows(rows, userId));
    var i :| 0 <= i < |sorted| && Present(sorted, true)[i] == rec;
    assert sorted[i] in multiset(sorted);
    assert sorted[i] in LdapRows(rows, userId);
  }

  /** Conversely, every "ldap." row of the user is among the records. */
  lemma {:induction false} RowQueried(rows: seq<Row>, userId: int, r: Row)
    requires r in rows && IsLdapRow(r, userId)
    ensures exists i :: 0 <= i < |Present(SortByOrdering(LdapRows(rows, userId)), true)|
                        && Present(SortByOrdering(LdapRows(rows, userId)), true)[i]
                           == Record(RemoveAll(r.key, PREFIX), r.value)
  {
    var sorted := SortByOrdering(LdapRows(rows, userId));
    assert r in LdapRows(rows, userId);
    assert r in multiset(sorted);
    var i :| 0 <= i < |sorted| && sorted[i] == r;
    assert Present(sorted, true)[i] == Record(RemoveAll(r.key, PREFIX), r.value);
  }

  /**
   * SQL REPLACE does not stop after a leading namespace: it goes on removing
   * in the rest of the key.
   */
  lemma ReplaceSkipsLeadingNamespace(k: string)
    ensures RemoveAll(PREFIX + k, PREFIX) == RemoveAll(k, PREFIX)
  {
    assert PREFIX <= PREFIX + k && (PREFIX + k)[|PREFIX|..] == k;
  }

  /**
   * A key with a namespace nested inside another (`ldap.ldap.mail`) is read
   * back without both.
   */
  lemma ReplaceStripsInnerNamespace(k: string)
    requires !Contains(k, PREFIX)
    ensures RemoveAll(PREFIX + PREFIX + k, PREFIX) == k
  {
    assert PREFIX + PREFIX + k == PREFIX + (PREFIX + k);
    ReplaceSkipsLeadingNamespace(PREFIX + k);
    ReplaceSkipsLeadingNamespace(k);
    RemoveAllAbsent(k, PREFIX);
  }

  /** Removal is one pass: the result can still hold the namespace. */
  lemma ReplaceLeavesJoinedNamespace()
    ensures RemoveAll("lldap.dap.", PREFIX) == "ldap."
  {
    assert "lldap.dap."[1] != PREFIX[1];
    assert "lldap.dap."[1..] == "ldap.dap.";
    assert PREFIX <= "ldap.dap." && "ldap.dap."[5..] == "dap.";
    RemoveAllAbsent("dap.", PREFIX);
  }

  /**
   * The database, for the profile code: one method per SQL statement it
   * sends. Each statement either fails (its number is in faults) and
   * changes nothing, or takes effect.
   */
  class ProfileTable {
    var rows: seq<Row>
    var issued: nat
    const faults: set<nat>

    function Snapshot(): DbState
      reads this
    {
      DbState(rows, issued)
    }

    constructor (rows: seq<Row>, faults: set<nat>)
      ensures Snapshot() == DbState(rows, 0) && this.faults == faults
    {
      this.rows := rows;
      this.issued := 0;
      this.faults := faults;
    }

    /** `DELETE … WHERE user_id = userId AND profile_key = key` */
    method DeleteKey(userId: int, key: string) returns (ok: bool)
      modifies this
      ensures Step(Snapshot(), ok) == Run(old(Snapshot()), faults, RemoveKey(old(rows), userId, key))
    {
      ok := issued !in faults;
      if ok {
        rows := RemoveKey(rows, userId, key);
      }
      issued := issued + 1;
    }

    /** `DELETE … WHERE user_id = userId AND profile_key LIKE 'ldap.%'` */
    method DeleteLdapRows(userId: int) returns (ok: bool)
      modifies this
      ensures Step(Snapshot(), ok) == Run(old(Snapshot()), faults, RemoveLdapRows(old(rows), userId))
    {
      ok := issued !in faults;
      if ok {
        rows := RemoveLdapRows(rows, userId);
      }
      issued := issued + 1;
    }

    /** `UPDATE … SET profile_value = value WHERE profile_key = key AND user_id = userId` */
    method UpdateKey(userId: int, key: string, value: string) returns (ok: bool)
      modifies this
      ensures Step(Snapshot(), ok) == Run(old(Snapshot()), faults, SetValue(old(rows), userId, key, value))
    {
      ok := issued !in faults;
      if ok {
        rows := SetValue(rows, userId, key, value);
      }
      issued := issued + 1;
    }

    /** `INSERT INTO … VALUES (…), (…), …`: one statement for all rows. */
    method InsertRows(added: seq<Row>) returns (ok: bool)
      modifies this
      ensures Step(Snapshot(), ok) == Insert(old(Snapshot()), faults, added)
    {
      ok := issued !in faults && added != [] && !Collides(rows, added);
      if ok {
        rows := rows + added;
      }
      issued := issued + 1;
    }

    /**
     * `SELECT profile_key, profile_value … WHERE user_id = userId AND
     * profile_key LIKE 'ldap.%' ORDER BY ordering`, with the keys cleaned by
     * REPLACE when asked; None when the statement fails.
     */
    method SelectLdapRows(userId: int, clean: bool) returns (records: Option<seq<Record>>)
      modifies this
      ensures rows == old(rows) && issued == old(issued) + 1
      ensures records == if old(issued) in faults then None
                         else Some(Present(SortByOrdering(LdapRows(rows, userId)), clean))
    {
      if issued in faults {
        records := None;
      } else {
        records := Some(Present(SortByOrdering(LdapRows(rows, userId)), clean));
      }
      issued := issued + 1;
    }
  }
}
