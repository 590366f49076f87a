# SHLdapProfile in Dafny

A model of the profile synchronisation class `SHLdapProfile` from
JMapMyLDAP (`libraries/shmanic/ldap/profile.php`). The class keeps a Joomla
user's profile table (`#__user_profiles`, rows `user_id, profile_key,
profile_value, ordering`, with the plugin's keys in the `ldap.` namespace)
in step with the user's LDAP entry. It works in two directions:

- **Pull.** `saveProfile` reads the stored records (`queryProfile`). For
  every field of the profile XML it derives a value from the directory,
  classifies the field against the records (`checkSqlField`), and then
  deletes, adds and updates rows, in that order.
- **Push.** `saveToLDAP` stages the submitted profile fields, splitting
  multi-valued ones on their delimiter, plus the full name and email when
  they sync both ways. It writes them to the entry and then pulls again.

The model is proved against specification functions. The database is a
`ProfileTable` object whose methods are the SQL statements the class
sends. `LdapProfile` is the class itself, with one method per PHP method
and the same loops.

Modules, one file each:

| file | module | what it holds |
|---|---|---|
| `php_arrays.dfy` | `PhpArrays` | PHP's ordered string-keyed arrays: `Get` (`$a[$k]`), `Put` (`$a[$k] = $v`) |
| `php_strings.dfy` | `PhpStrings` | a string's truth value, `strtoupper`, SQL `REPLACE` |
| `delimiters.dfy` | `Delimiters` | joining directory values (pull) and `preg_split` (push); the NEWLINE alias |
| `profile_fields.dfy` | `ProfileFields` | the profile XML's fields as `(name, delimiter, disabled)` |
| `user_profiles.dfy` | `UserProfiles` | the profile table, one statement at a time; the record operations' specifications |
| `reconciliation.dfy` | `Reconciliation` | saveProfile's plan, how it is applied, and what the table holds afterwards |
| `ldap_profile.dfy` | `LdapSync` | the `LdapProfile` class and the push-side staging |

How the database is modelled:
- Statements are numbered as they are sent (`issued`). The set `faults`
  names the statements that fail, and a failed statement changes nothing.
  An `INSERT` also fails when it would break the table's unique index on
  `(user_id, profile_key)`, or when it has no rows: an empty `VALUES` list
  is not valid SQL.
- The directory's answers are values passed in. The `Directory` map holds
  the attribute values the adapter returns. The `Adapter` record holds
  whether binding succeeds, the name and email attribute names, whether
  writing succeeds, and the entry as it reads after the write.

Details of the code that the model keeps as written:
- A user id is rejected only when `(int) $userId` is 0
  (profile.php:212, 248, 293, 334, 377, 420).
- `updateRecords` and `deleteRecords` return false at the first statement
  that fails, and the remaining statements are not sent
  (profile.php:352-355, 394-397).
- `addRecords` numbers new rows from `count($current) + 1`, where
  `$current` is the list of records read before the deletions run
  (profile.php:529).
- A delimited field's joined value has a delimiter after every value,
  the last one included (profile.php:471). Pushing it back therefore
  yields one extra empty part (`Delimiters.SplitJoined`).
- When several records carry the key, `checkSqlField` lets the last one
  decide (profile.php:578-588).
- Any non-zero `sync_name`/`sync_email` pulls the name and email
  (profile.php:83, 89). Only the value 2 pushes them (profile.php:693, 702).
- `saveToLDAP` does not filter its input; `cleanInput` is a separate
  method (profile.php:603). `saveToLDAP` returns true once the write
  succeeded and the user exists, whatever `saveProfile` then returns
  (profile.php:721-724).

## Model

| member | source | states |
|---|---|---|
| PhpArrays.Put | libraries/shmanic/ldap/profile.php:499-511 | `$a[$k] = $v`: afterwards k holds v and every other key keeps its value. A new key is appended at the end; an existing one keeps its place: every position holds the same key as before. Keys stay distinct. |
| ProfileFields.Lookup | libraries/shmanic/ldap/profile.php:607-611 | The xpath `[@name=…]` lookup: None exactly when no field has the name. Otherwise the first field with that name. |
| Delimiters.JoinFirst | libraries/shmanic/ldap/profile.php:467-473 | The joined value starts with the first directory value followed by the delimiter, then the join of the rest. |
| Delimiters.JoinEndsWithDelimiter | libraries/shmanic/ldap/profile.php:467-473 | The join of no values is empty. A non-empty join ends with the delimiter. |
| Delimiters.DelimiterSeparates | libraries/shmanic/ldap/profile.php:670-676 | The delimiter written on pull is a separator occurrence of its full length on push, NEWLINE included. |
| Delimiters.SplitGlues | libraries/shmanic/ldap/profile.php:676 | `preg_split` collects a run free of separator characters into the current part. |
| Delimiters.SplitUnseparated | libraries/shmanic/ldap/profile.php:676 | A value without separator characters is split into itself alone. |
| Delimiters.SplitValue | libraries/shmanic/ldap/profile.php:676 | A value, the delimiter, then any tail: the value is the first part and the tail is split on its own. |
| Delimiters.SplitJoined | libraries/shmanic/ldap/profile.php:664-676 | Round trip. Splitting the pulled (joined) value of a delimited field gives back the directory values plus one trailing empty part, when no value contains a separator character. |
| Delimiters.NewlineAliasSpellings | libraries/shmanic/ldap/profile.php:670 | For every string d: d is the NEWLINE alias exactly when it is the seven letters of NEWLINE, each in upper or lower case; so "\n" itself is not the alias. |
| Delimiters.NewlineRoundTripDropsCarriageReturn | libraries/shmanic/ldap/profile.php:670-676 | The NEWLINE round trip is not exact: a value ending in "\r" comes back without it, because the pulled "\r\n" splits as one line break. |
| UserProfiles.SortByOrdering | libraries/shmanic/ldap/profile.php:266-272 | `ORDER BY ordering`: the result is sorted by ordering and is a permutation of the rows. |
| UserProfiles.NewRows | libraries/shmanic/ldap/profile.php:304-311 | addRecords' VALUES list: row i is the user's row for `ldap.` + key i, holding value i with ordering `order + i`. |
| UserProfiles.UpdateEachApplies | libraries/shmanic/ldap/profile.php:342-361 | updateRecords applies the first n updates for some n, with n statements succeeding. It reports success exactly when n is every attribute. |
| UserProfiles.DeleteEachApplies | libraries/shmanic/ldap/profile.php:385-403 | deleteRecords removes the first n keys for some n, with n statements succeeding. It reports success exactly when n is every key. |
| UserProfiles.RemoveKeysEffect | libraries/shmanic/ldap/profile.php:385-392 | Deleting the keys removes exactly the user's rows keyed `ldap.` + one of them; every other row stays. The unique index is kept. |
| UserProfiles.SetAllKeepsKeys | libraries/shmanic/ldap/profile.php:342-349 | Updates change values only. The table keeps its length, and the row at each position keeps its user, key and ordering. |
| UserProfiles.SetAllValues | libraries/shmanic/ldap/profile.php:342-349 | After the updates, a row keyed by none of the attributes is unchanged. The user's row for attribute j holds value j. |
| UserProfiles.InsertKeepsUniqueKeys | libraries/shmanic/ldap/profile.php:298-319 | The batch INSERT never breaks the unique index on (user_id, profile_key): it takes effect whole or not at all. |
| UserProfiles.UpdateEachKeepsUnique | libraries/shmanic/ldap/profile.php:332-362 | updateRecords keeps the unique index, however many statements fail. |
| UserProfiles.DeleteEachKeepsUnique | libraries/shmanic/ldap/profile.php:374-404 | deleteRecords keeps the unique index, however many statements fail. |
| UserProfiles.DeleteProfileEffect | libraries/shmanic/ldap/profile.php:210-234 | A successful deleteProfile leaves exactly the rows that are not the user's `ldap.%` rows. A failed one changes nothing. |
| UserProfiles.QueriedRecordFromRow | libraries/shmanic/ldap/profile.php:246-276 | Every record queryProfile returns with clean keys comes from one of the user's `ldap.%` rows, with REPLACE applied to the key. |
| UserProfiles.RowQueried | libraries/shmanic/ldap/profile.php:246-276 | Conversely, every `ldap.%` row of the user is among the records returned. |
| UserProfiles.ReplaceSkipsLeadingNamespace | libraries/shmanic/ldap/profile.php:256-260 | For every key k, REPLACE on `ldap.`+k goes on past the leading namespace: the result is REPLACE on k. |
| UserProfiles.ReplaceStripsInnerNamespace | libraries/shmanic/ldap/profile.php:256-260 | For every k free of the namespace, `ldap.ldap.`+k is read back as k (so `ldap.ldap.mail` as `mail`): a nested namespace is removed too. |
| UserProfiles.ReplaceLeavesJoinedNamespace | libraries/shmanic/ldap/profile.php:256-260 | REPLACE is one pass: `lldap.dap.` is read back as `ldap.`. |
| UserProfiles.ProfileTable.DeleteKey | libraries/shmanic/ldap/profile.php:387-393 | One DELETE by user and key: when it succeeds, the table loses exactly those rows. When it fails, the table is unchanged. The statement count goes up by one either way. |
| UserProfiles.ProfileTable.DeleteLdapRows | libraries/shmanic/ldap/profile.php:219-228 | One DELETE of the user's `ldap.%` rows, with the same failure rule. |
| UserProfiles.ProfileTable.UpdateKey | libraries/shmanic/ldap/profile.php:344-351 | One UPDATE setting the value of the user's rows with the key, with the same failure rule. |
| UserProfiles.ProfileTable.InsertRows | libraries/shmanic/ldap/profile.php:298-316 | One INSERT of all rows. It fails as a whole when the statement fails, the list is empty, or a key would be duplicated. |
| UserProfiles.ProfileTable.SelectLdapRows | libraries/shmanic/ldap/profile.php:253-276 | The SELECT leaves the table alone. It returns None when it fails, and otherwise the user's `ldap.%` rows by ordering, keys cleaned when asked. |
| Reconciliation.SqlStatusLastRecord | libraries/shmanic/ldap/profile.php:574-591 | checkSqlField is never "delete" (3). It is "addition" (2) exactly when no record has the key. Otherwise the last record with the key decides: "match" (0) when its value is equal, "modify" (1) when not. |
| Reconciliation.StatusMeaning | libraries/shmanic/ldap/profile.php:574-591 | When no stored `ldap.` key repeats the namespace (KeysClean), read against the table: "addition" exactly when the user has no row for the field. "Match" means the row holds the value, and with the unique index a row holding the value means "match". |
| Reconciliation.PlanClassifies | libraries/shmanic/ldap/profile.php:489-512 | A field name goes to the delete list exactly when it has no value. It goes to the add array with its value exactly when its status is "addition", and to the update array exactly when "modify". |
| Reconciliation.AtMostOneList | libraries/shmanic/ldap/profile.php:499-511 | No field name is in two of the three lists. |
| Reconciliation.MatchWritesNothing | libraries/shmanic/ldap/profile.php:499-511 | A field whose stored value already matches is in none of the lists. |
| Reconciliation.DelimitedNeverDeleted | libraries/shmanic/ldap/profile.php:453-474 | A delimited field always has a value (possibly ""), so it is never deleted. A listed single-valued field the directory has no value for always is deleted. |
| Reconciliation.PlanWithinNames | libraries/shmanic/ldap/profile.php:445-512 | Every name in the plan is a field of the profile. |
| Reconciliation.ApplyPlanSucceeded | libraries/shmanic/ldap/profile.php:520-537 | When every step reports success, the table holds the old rows minus the deletions, plus the new rows, with the updates applied. |
| Reconciliation.ApplyPlanKeepsUnique | libraries/shmanic/ldap/profile.php:520-537 | Delete, add and update each keep the unique index, whichever of them fail. |
| Reconciliation.SurvivesUnchanged | libraries/shmanic/ldap/profile.php:520-537 | A row of a field that is neither deleted nor updated is still there afterwards. |
| Reconciliation.UpdatedInPlace | libraries/shmanic/ldap/profile.php:520-537 | A row of an updated field (and not deleted) holds the new value afterwards. |
| Reconciliation.AddedPresent | libraries/shmanic/ldap/profile.php:520-537 | An added field (and not updated) has a row with its value afterwards. |
| Reconciliation.DeletedAbsent | libraries/shmanic/ldap/profile.php:520-537 | A deleted field (and not added) has no row afterwards. |
| Reconciliation.SaveProfileApplied | libraries/shmanic/ldap/profile.php:418-558 | A successful saveProfile leaves the table as the whole plan computed from the table's own records, applied. |
| Reconciliation.PlanMirrorsDirectory | libraries/shmanic/ldap/profile.php:445-537 | When no stored `ldap.` key repeats the namespace (KeysClean), after the plan each field's row holds the value derived from the directory. A single-valued field with no value has no row. |
| Reconciliation.ReconcileMirrorsDirectory | libraries/shmanic/ldap/profile.php:418-558 | When no stored `ldap.` key repeats the namespace (KeysClean), a successful saveProfile leaves the table mirroring the directory for every field of the profile. |
| Reconciliation.NestedNamespaceHidesField | libraries/shmanic/ldap/profile.php:256-260 | Without KeysClean the mirroring fails: with the single stored row `ldap.ldap.mail` = "x" and a directory `mail` of ["x"], REPLACE reads the row back as `mail`, the field matches, saveProfile succeeds, and the user has no `ldap.mail` row. |
| Reconciliation.ReconcileKeepsOtherRows | libraries/shmanic/ldap/profile.php:418-558 | A successful saveProfile keeps every row that is not the user's row for one of the profile's fields. |
| Reconciliation.ReconcileKeepsKeysUnique | libraries/shmanic/ldap/profile.php:418-558 | saveProfile keeps the unique index on (user_id, profile_key), whatever fails. |
| LdapSync.StageFieldsGet | libraries/shmanic/ldap/profile.php:659-690 | Each submitted key is staged once. A delimited field is staged as its split parts, any other as its value. |
| LdapSync.StagedGet | libraries/shmanic/ldap/profile.php:659-708 | What is written under a key: the email when it is staged under that attribute, else the full name, else the profile field. The name and email are staged only with sync 2 and true strings. |
| LdapSync.PushOfPulled | libraries/shmanic/ldap/profile.php:664-687 | A delimited field pulled from the directory and pushed back unchanged is written as its values plus one empty part. |
| LdapSync.LdapProfile.UpdateMandatory | libraries/shmanic/ldap/profile.php:78-94 | The user's name (email) becomes the directory's value exactly when its sync is on and the value is a true string; otherwise it is kept. |
| LdapSync.LdapProfile.GetAttributes | libraries/shmanic/ldap/profile.php:186-199 | The names of all fields, in document order. |
| LdapSync.LdapProfile.DeleteProfile | libraries/shmanic/ldap/profile.php:210-234 | False for user 0 with no statement sent. Otherwise one DELETE of the user's `ldap.%` rows, and its success. |
| LdapSync.LdapProfile.QueryProfile | libraries/shmanic/ldap/profile.php:246-277 | False (NotAUser) for user 0 and null (QueryFailed) when the SELECT fails. Otherwise the user's `ldap.%` records by ordering, keys cleaned by REPLACE when asked. |
| LdapSync.LdapProfile.AddRecords | libraries/shmanic/ldap/profile.php:291-320 | False for user 0. Otherwise one INSERT of a row per attribute, `ldap.`-prefixed, orderings counting up from order. |
| LdapSync.LdapProfile.UpdateRecords | libraries/shmanic/ldap/profile.php:332-362 | False for user 0. Otherwise one UPDATE per attribute in order, returning false at the first that fails (see UpdateEachApplies). |
| LdapSync.LdapProfile.DeleteRecords | libraries/shmanic/ldap/profile.php:374-404 | False for user 0. Otherwise one DELETE per key in order, returning false at the first that fails (see DeleteEachApplies). |
| LdapSync.LdapProfile.CheckSqlField | libraries/shmanic/ldap/profile.php:574-591 | The loop computes the status whose meaning SqlStatusLastRecord states. |
| LdapSync.LdapProfile.JoinValues | libraries/shmanic/ldap/profile.php:467-473 | `$value .= $v . $delimiter` over the values is the join that JoinFirst and SplitJoined describe. |
| LdapSync.LdapProfile.DirectoryValue | libraries/shmanic/ldap/profile.php:450-487 | A delimited field gets the join of its directory values, "" when there are none; NEWLINE joins with "\n". A single-valued field gets the first value, or no value. |
| LdapSync.LdapProfile.ClassifyFields | libraries/shmanic/ldap/profile.php:445-512 | The loop builds the three lists PlanClassifies and AtMostOneList describe. |
| LdapSync.LdapProfile.ApplyChanges | libraries/shmanic/ldap/profile.php:514-537 | Delete, then add (orderings after the records read), then update, each only when its list is non-empty. The result is false exactly when one of them returned false. |
| LdapSync.LdapProfile.SaveProfile | libraries/shmanic/ldap/profile.php:418-558 | False for user 0 or a failed query. Otherwise classify and apply; the table ends as ReconcileMirrorsDirectory and ReconcileKeepsOtherRows describe. |
| LdapSync.LdapProfile.CleanInput | libraries/shmanic/ldap/profile.php:603-620 | Exactly the submitted keys with an enabled field are kept, each with its submitted value. Nothing else is kept. |
| LdapSync.LdapProfile.SaveToLdap | libraries/shmanic/ldap/profile.php:636-737 | When the adapter binds and something is staged, exactly the staged fields are written. The result is true exactly when the bind and write succeeded, something was staged and the user exists. The table is then as saveProfile leaves it; otherwise it is unchanged. |

## Left out

- Loading the profile XML (`getXMLPath`, `getXMLFields`) and the language
  files are file-system I/O. The XML is given as its list of fields.
- Logging (`SHLog::add`) is not modelled: it has no effect on results.
- SQL text, quoting (`q`, `qn`, `quote`) and `JFactory::getDBO` are not
  modelled. Each statement is modelled by its effect on the table.
- MySQL's collation is not modelled: keys are compared exactly, although
  `LIKE` and `=` on `profile_key` ignore letter case under the usual
  collation, and column lengths are not enforced.
- Ties in `ORDER BY ordering` are resolved by keeping table order. MySQL
  does not promise any order for ties.
- The LDAP adapter, `SHFactory::getUserAdapter`, the bind and
  `JUserHelper::getUserId` are external. Their answers are the `Adapter`
  and `Directory` values and the `userId` parameter.
- An exception the adapter raises inside the `saveProfile` that
  `saveToLDAP` calls is not modelled: `refreshed` is always read
  successfully.
- LdapSync.LdapProfile.SaveToLdap: returns false where the PHP method falls
  off its end and returns null (nothing staged, or no such user). Both are
  false to callers.
- LdapSync.StagedValue: the copy loop `$processed[$key][$i] = …` is modelled
  as the list of split parts, since profile keys are distinct.
- Delimiters.Split: the delimiter is treated as literal text.
  `preg_split` reads it as a regular expression, so a delimiter with regex
  meta-characters (`|`, `.`) or an empty pattern is not modelled.
- LdapSync.LdapProfile.CheckSqlField: PHP's `==` between two numeric
  strings compares them as numbers (`"10" == "1e1"`). The model compares
  strings exactly.
- LdapSync.LdapProfile.CleanInput: `$disabled != 1` is a loose comparison,
  so any numeric string equal to 1 (`"01"`, `"1.0"`) also disables a
  field. The model treats only `"true"` and `"1"` as disabling.
- Reconciliation.ReconcileMirrorsDirectory, Reconciliation.PlanMirrorsDirectory
  and Reconciliation.StatusMeaning require that no stored `ldap.` key holds
  the namespace a second time after its prefix (KeysClean). Without that,
  REPLACE mangles the key it reads back (see ReplaceStripsInnerNamespace),
  the field is classified against the wrong record, and the properties do
  not hold: Reconciliation.NestedNamespaceHidesField is a table for which
  saveProfile succeeds and the field still has no row.
- The user id cast `(int) $userId` is not modelled: ids are given as
  integers.
