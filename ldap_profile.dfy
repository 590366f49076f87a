/**
 * SHLdapProfile: maps a user's directory entry to the host's profile table
 * and back. The object holds the name and email synchronisation settings
 * (0 no sync, 1 from the directory, 2 both ways) and uses the host's
 * database; the directory adapter's answers are passed in as values.
 */
module LdapSync {
  import opened PhpArrays
  import opened PhpStrings
  import opened Delimiters
  import opened ProfileFields
  import opened UserProfiles
  import opened Reconciliation

  /** The host's user: its id, and the name and email updateMandatory may overwrite. */
  class HostUser {
    const id: int
    var name: string
    var email: string

    constructor (id: int, name: string, email: string)
      ensures this.id == id && this.name == name && this.email == email
    {
      this.id := id;
      this.name := name;
      this.email := email;
    }
  }

  /** A value written to the directory: one string, or the parts of a split profile value. */
  datatype LdapValue = Single(value: string) | Multi(values: seq<string>)

  /**
   * What the directory adapter does and reports during saveToLDAP: whether
   * it binds and reads the entry, the attribute names of the full name and
   * the email, whether writing the entry succeeds, and the entry as
   * saveProfile then reads it.
   */
  datatype Adapter = Adapter(connects: bool, nameAttribute: string, emailAttribute: string,
                             writes: bool, refreshed: Directory)

  /** What saveToLDAP stages for one profile field: split on its delimiter, or the value itself. */
  function StagedValue(fields: seq<Field>, key: string, value: string): LdapValue {
    var d := DelimiterOf(fields, key);
    if Truthy(d) then Multi(Split(value, PushSeparator(d))) else Single(value)
  }

  /** The profile fields staged in order. */
  function StageFields(fields: seq<Field>, profile: Assoc<string>): (staged: Assoc<LdapValue>)
    ensures DistinctKeys(staged)
    decreases |profile|
  {
    if profile == [] then []
    else
      var last := profile[|profile| - 1];
      Put(StageFields(fields, profile[..|profile| - 1]), last.0, StagedValue(fields, last.0, last.1))
  }

  /** A mandatory field is written back when its sync is 2 and both its attribute and value are true strings. */
  predicate MandatoryStaged(sync: int, attribute: string, value: string) {
    sync == 2 && Truthy(attribute) && Truthy(value)
  }

  function StageMandatory(staged: Assoc<LdapValue>, sync: int, attribute: string, value: string): (r: Assoc<LdapValue>)
    requires DistinctKeys(staged)
    ensures DistinctKeys(r)
  {
    if MandatoryStaged(sync, attribute, value) then Put(staged, attribute, Single(value)) else staged
  }

  /** Everything saveToLDAP hands to the adapter: the profile fields, then the name, then the email. */
  function Staged(fields: seq<Field>, profile: Assoc<string>, syncName: int, syncEmail: int,
                  adapter: Adapter, mandatory: Assoc<string>): Assoc<LdapValue>
  {
    var withName := StageMandatory(StageFields(fields, profile), syncName, adapter.nameAttribute, GetOr(mandatory, "name", ""));
    StageMandatory(withName, syncEmail, adapter.emailAttribute, GetOr(mandatory, "email", ""))
  }

  /** Each profile key is staged once, from its value in the profile. */
  lemma {:induction false} StageFieldsGet(fields: seq<Field>, profile: Assoc<string>, k: string)
    ensures Get(StageFields(fields, profile), k)
            == match Get(profile, k) case Some(v) => Some(StagedValue(fields, k, v)) case None => None
    decreases |profile|
  {
    if profile != [] {
      StageFieldsGet(fields, profile[..|profile| - 1], k);
    }
  }

  /**
   * What the adapter is asked to write for a key: the email, else the full
   * name, when those are staged under that attribute; else the profile field.
   */
  lemma StagedGet(fields: seq<Field>, profile: Assoc<string>, syncName: int, syncEmail: int,
                  adapter: Adapter, mandatory: Assoc<string>, k: string)
    ensures var name, email := GetOr(mandatory, "name", ""), GetOr(mandatory, "email", "");
            Get(Staged(fields, profile, syncName, syncEmail, adapter, mandatory), k)
            == if MandatoryStaged(syncEmail, adapter.emailAttribute, email) && k == adapter.emailAttribute then Some(Single(email))
               else if MandatoryStaged(syncName, adapter.nameAttribute, name) && k == adapter.nameAttribute then Some(Single(name))
               else match Get(profile, k) case Some(v) => Some(StagedValue(fields, k, v)) case None => None
  {
    StageFieldsGet(fields, profile, k);
  }

  /**
   * A delimited field pulled from the directory and pushed back unchanged
   * is written as its values plus one empty part, provided no value
   * contains a character that starts the delimiter.
   */
  lemma PushOfPulled(fields: seq<Field>, dir: Directory, n: string)
    requires Delimited(fields, n) && n in dir
    requires forall i :: 0 <= i < |dir[n]| ==> Unseparated(dir[n][i], PushSeparator(DelimiterOf(fields, n)))
    ensures DesiredValue(fields, dir, n).Some?
    ensures StagedValue(fields, n, DesiredValue(fields, dir, n).value) == Multi(dir[n] + [""])
  {
    SplitJoined(dir[n], DelimiterOf(fields, n));
  }

  class LdapProfile {
    /** 0 no sync, 1 from the directory, 2 both ways. */
    const syncName: int
    const syncEmail: int
    /** The host's profile table. */
    const db: ProfileTable

    constructor (syncName: int, syncEmail: int, db: ProfileTable)
      ensures this.syncName == syncName && this.syncEmail == syncEmail && this.db == db
    {
      this.syncName := syncName;
      this.syncEmail := syncEmail;
      this.db := db;
    }

    /** Copy the directory's full name and email onto the user when syncing them and they are true strings. */
    method UpdateMandatory(user: HostUser, fullname: string, email: string)
      modifies user
      ensures user.name == if syncName != 0 && Truthy(fullname) then fullname else old(user.name)
      ensures user.email == if syncEmail != 0 && Truthy(email) then email else old(user.email)
    {
      if syncName != 0 && Truthy(fullname) {
        user.name := fullname;
      }
      if syncEmail != 0 && Truthy(email) {
        user.email := email;
      }
    }

    /** The names of all fields of all fieldsets, in document order. */
    method GetAttributes(fields: seq<Field>) returns (names: seq<string>)
      ensures names == FieldNames(fields)
    {
      names := [];
      for i := 0 to |fields|
        invariant names == FieldNames(fields[..i])
      {
        names := names + [fields[i].name];
      }
      assert fields[..|fields|] == fields;
    }

    method DeleteProfile(userId: int) returns (ok: bool)
      modifies db
      ensures Step(db.Snapshot(), ok) == DeleteProfileSpec(old(db.Snapshot()), db.faults, userId)
    {
      if userId == 0 {
        return false;
      }
      ok := db.DeleteLdapRows(userId);
    }

    method QueryProfile(userId: int, clean: bool) returns (result: Fetch)
      modifies db
      ensures Query(db.Snapshot(), result) == QueryProfileSpec(old(db.Snapshot()), db.faults, userId, clean)
    {
      if userId == 0 {
        return NotAUser;
      }
      var records := db.SelectLdapRows(userId, clean);
      match records
      case Some(rs) => result := Records(rs);
      case None => result := QueryFailed;
    }

    /** One INSERT with a row per attribute, orderings counting up from order. */
    method AddRecords(userId: int, attributes: Assoc<string>, order: int) returns (ok: bool)
      modifies db
      ensures Step(db.Snapshot(), ok) == AddRecordsSpec(old(db.Snapshot()), db.faults, userId, attributes, order)
    {
      if userId == 0 {
        return false;
      }
      var rows: seq<Row> := [];
      var next := order;
      for i := 0 to |attributes|
        invariant db.Snapshot() == old(db.Snapshot())
        invariant next == order + i
        invariant rows == NewRows(userId, attributes[..i], order)
      {
        assert attributes[..i + 1] == attributes[..i] + [attributes[i]];
        NewRowsAppend(userId, attributes[..i], attributes[i], order);
        rows := rows + [Row(userId, PREFIX + attributes[i].0, attributes[i].1, next)];
        next := next + 1;
      }
      assert attributes[..|attributes|] == attributes;
      ok := db.InsertRows(rows);
    }

    /** One UPDATE per attribute; the first that fails ends the method with false. */
    method UpdateRecords(userId: int, attributes: Assoc<string>) returns (ok: bool)
      modifies db
      ensures Step(db.Snapshot(), ok) == UpdateRecordsSpec(old(db.Snapshot()), db.faults, userId, attributes)
    {
      if userId == 0 {
        return false;
      }
      var i := 0;
      while i < |attributes|
        invariant 0 <= i <= |attributes|
        invariant UpdateEach(db.Snapshot(), db.faults, userId, attributes[i..])
                  == UpdateEach(old(db.Snapshot()), db.faults, userId, attributes)
      {
        var done := db.UpdateKey(userId, PREFIX + attributes[i].0, attributes[i].1);
        if !done {
          return false;
        }
        assert attributes[i..][1..] == attributes[i + 1..];
        i := i + 1;
      }
      return true;
    }

    /** One DELETE per name; the first that fails ends the method with false. */
    method DeleteRecords(userId: int, names: seq<string>) returns (ok: bool)
      modifies db
      ensures Step(db.Snapshot(), ok) == DeleteRecordsSpec(old(db.Snapshot()), db.faults, userId, names)
    {
      if userId == 0 {
        return false;
      }
      var i := 0;
      while i < |names|
        invariant 0 <= i <= |names|
        invariant DeleteEach(db.Snapshot(), db.faults, userId, names[i..])
                  == DeleteEach(old(db.Snapshot()), db.faults, userId, names)
      {
        var done := db.DeleteKey(userId, PREFIX + names[i]);
        if !done {
          return false;
        }
        assert names[i..][1..] == names[i + 1..];
        i := i + 1;
      }
      return true;
    }

    /** checkSqlField: every record with the key overrides the status found so far. */
    method CheckSqlField(current: seq<Record>, key: string, value: string) returns (status: Status)
      ensures status == SqlStatus(current, key, value)
    {
      status := Addition;
      for i := 0 to |current|
        invariant status == SqlStatus(current[..i], key, value)
      {
        assert current[..i + 1][..i] == current[..i];
        if current[i].key == key {
          status := Modify;
          if current[i].value == value {
            status := Match;
          }
        }
      }
      assert current[..|current|] == current;
    }

    /** `$value .= $v . $delimiter` for each directory value. */
    method JoinValues(values: seq<string>, delimiter: string) returns (joined: string)
      ensures joined == JoinDelimited(values, delimiter)
    {
      joined := "";
      for i := 0 to |values|
        invariant joined == JoinDelimited(values[..i], delimiter)
      {
        assert values[..i + 1][..i] == values[..i];
        joined := joined + values[i] + delimiter;
      }
      assert values[..|values|] == values;
    }

    /** The value saveProfile derives for one field from the directory entry. */
    method DirectoryValue(fields: seq<Field>, dir: Directory, name: string) returns (value: Option<string>)
      ensures value == DesiredValue(fields, dir, name)
    {
      var delimiter := DelimiterOf(fields, name);
      if Truthy(delimiter) {
        if IsNewlineAlias(delimiter) {
          delimiter := "\n";
        }
        var joined := "";
        if name in dir {
          joined := JoinValues(dir[name], delimiter);
        }
        value := Some(joined);
      } else if name in dir && |dir[name]| > 0 {
        value := Some(dir[name][0]);
      } else {
        value := None;
      }
    }

    /**
     * The classification loop of saveProfile: for every field, its value from
     * the directory and its status against the records read decide which
     * array, if any, it goes into.
     */
    method ClassifyFields(current: seq<Record>, fields: seq<Field>, dir: Directory) returns (plan: Plan)
      ensures plan == PlanFor(current, fields, dir, FieldNames(fields))
    {
      var attributes := GetAttributes(fields);
      var adds: Assoc<string> := [];
      var updates: Assoc<string> := [];
      var deletes: seq<string> := [];
      for i := 0 to |attributes|
        invariant Plan(adds, updates, deletes) == PlanFor(current, fields, dir, attributes[..i])
      {
        var name := attributes[i];
        PlanForNext(current, fields, dir, attributes, i);
        var value := DirectoryValue(fields, dir, name);
        var status: Status;
        if value.Some? {
          status := CheckSqlField(current, name, value.value);
          SqlStatusLastRecord(current, name, value.value);
        } else {
          status := Deletion;
        }
        match status
        case Modify => updates := Put(updates, name, value.value);
        case Addition => adds := Put(adds, name, value.value);
        case Deletion => deletes := deletes + [name];
        case Match =>
      }
      assert attributes[..|attributes|] == attributes;
      plan := Plan(adds, updates, deletes);
    }

    /** Delete, add, then update, each when its array is not empty; false if any of them returned false. */
    method ApplyChanges(userId: int, plan: Plan, base: int) returns (ok: bool)
      modifies db
      ensures Step(db.Snapshot(), ok) == ApplyPlan(old(db.Snapshot()), db.faults, userId, plan, base)
    {
      var results: seq<bool> := [];
      if |plan.deletes| > 0 {
        var r := DeleteRecords(userId, plan.deletes);
        results := results + [r];
      }
      if |plan.adds| > 0 {
        var r := AddRecords(userId, plan.adds, base);
        results := results + [r];
      }
      if |plan.updates| > 0 {
        var r := UpdateRecords(userId, plan.updates);
        results := results + [r];
      }
      ok := false !in results;
    }

    /**
     * saveProfile: read the stored records, classify every field, then
     * apply the changes.
     */
    method SaveProfile(fields: seq<Field>, user: HostUser, dir: Directory) returns (ok: bool)
      modifies db
      ensures Step(db.Snapshot(), ok) == SaveProfileSpec(old(db.Snapshot()), db.faults, fields, dir, user.id)
    {
      var userId := user.id;
      if userId == 0 {
        return false;
      }
      ghost var start := db.Snapshot();
      SaveProfileSteps(start, db.faults, fields, dir, userId);
      var fetched := QueryProfile(userId, true);
      if fetched.QueryFailed? {
        return false;
      }
      var current := fetched.records;
      var plan := ClassifyFields(current, fields, dir);
      ok := ApplyChanges(userId, plan, |current| + 1);
    }

    /**
     * cleanInput: only the submitted fields that have an enabled field in
     * the profile XML are kept, with their values.
     */
    method CleanInput(fields: seq<Field>, input: Assoc<string>) returns (clean: Assoc<string>)
      ensures DistinctKeys(clean)
      ensures forall k :: Get(clean, k) == if Enabled(fields, k) then Get(input, k) else None
    {
      clean := [];
      for i := 0 to |input|
        invariant DistinctKeys(clean)
        invariant forall k :: Get(clean, k) == if Enabled(fields, k) then Get(input[..i], k) else None
      {
        assert input[..i + 1][..i] == input[..i];
        var key := input[i].0;
        var field := Lookup(fields, key);
        if field.Some? {
          var disabled := field.value.disabled;
          if disabled != "true" && disabled != "1" {
            clean := Put(clean, key, input[i].1);
          }
        }
      }
      assert input[..|input|] == input;
    }

    /**
     * saveToLDAP: stage the submitted profile (and the name and email when
     * they sync both ways), write it to the directory, then refresh the
     * user's stored profile. True exactly when something was staged and
     * written and the user exists in the host; saveProfile's own result
     * does not count.
     */
    method SaveToLdap(fields: seq<Field>, profile: Assoc<string>, mandatory: Assoc<string>,
                      adapter: Adapter, userId: int) returns (ok: bool, written: Option<Assoc<LdapValue>>)
      modifies db
      ensures var staged := Staged(fields, profile, syncName, syncEmail, adapter, mandatory);
              written == if adapter.connects && |staged| > 0 then Some(staged) else None
      ensures ok == (adapter.connects && |Staged(fields, profile, syncName, syncEmail, adapter, mandatory)| > 0
                     && adapter.writes && userId != 0)
      ensures ok ==> db.Snapshot() == SaveProfileSpec(old(db.Snapshot()), db.faults, fields, adapter.refreshed, userId).db
      ensures !ok ==> db.Snapshot() == old(db.Snapshot())
    {
      if !adapter.connects {
        return false, None;
      }
      var processed: Assoc<LdapValue> := [];
      for i := 0 to |profile|
        invariant processed == StageFields(fields, profile[..i])
      {
        assert profile[..i + 1][..i] == profile[..i];
        var key, value := profile[i].0, profile[i].1;
        var delimiter := DelimiterOf(fields, key);
        if Truthy(delimiter) {
          processed := Put(processed, key, Multi(Split(value, PushSeparator(delimiter))));
        } else {
          processed := Put(processed, key, Single(value));
        }
      }
      assert profile[..|profile|] == profile;
      if syncName == 2 {
        var key, value := adapter.nameAttribute, GetOr(mandatory, "name", "");
        if Truthy(key) && Truthy(value) {
          processed := Put(processed, key, Single(value));
        }
      }
      if syncEmail == 2 {
        var key, value := adapter.emailAttribute, GetOr(mandatory, "email", "");
        if Truthy(key) && Truthy(value) {
          processed := Put(processed, key, Single(value));
        }
      }
      if |processed| == 0 {
        return false, None;
      }
      written := Some(processed);
      if !adapter.writes {
        return false, written;
      }
      if userId == 0 {
        return false, written;
      }
      var user := new HostUser(userId, "", "");
      var _ := SaveProfile(fields, user, adapter.refreshed);
      ok := true;
    }
  }
}
