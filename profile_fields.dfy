/**
 * The field descriptors of the profile XML (`<field name=… delimiter=…
 * disabled=…/>` under the `ldap_profile` fields), in document order. An
 * attribute the XML leaves out reads as "", as `(string) $field['x']` does.
 */
module ProfileFields {
  import opened PhpArrays
  import opened PhpStrings

  datatype Field = Field(name: string, delimiter: string, disabled: string)

  /** The names of all fields, in document order. */
  function FieldNames(fields: seq<Field>): seq<string> {
    seq(|fields|, i requires 0 <= i < |fields| => fields[i].name)
  }

  /** `xpath("fieldset/field[@name='…']")[0]`: the first field with that name. */
  function Lookup(fields: seq<Field>, name: string): (r: Option<Field>)
    ensures r.None? <==> forall i :: 0 <= i < |fields| ==> fields[i].name != name
    ensures r.Some? ==> r.value.name == name
                        && exists i :: 0 <= i < |fields| && fields[i] == r.value
                                       && forall j :: 0 <= j < i ==> fields[j].name != name
  {
    if fields == [] then None
    else if fields[0].name == name then Some(fields[0])
    else
      var r := Lookup(fields[1..], name);
      assert r.Some? ==> exists i :: 1 <= i < |fields| && fields[i] == r.value
                                     && forall j :: 0 <= j < i ==> fields[j].name != name by {
        if r.Some? {
          var i :| 0 <= i < |fields[1..]| && fields[1..][i] == r.value
                   && forall j :: 0 <= j < i ==> fields[1..][j].name != name;
          assert fields[i + 1] == r.value;
          assert forall j :: 0 <= j < i + 1 ==> fields[j].name != name by {
            assert forall j :: 1 <= j < i + 1 ==> fields[j] == fields[1..][j - 1];
          }
        }
      }
      r
  }

  /** The delimiter attribute of a name's field; "" when there is no such field. */
  function DelimiterOf(fields: seq<Field>, name: string): string {
    match Lookup(fields, name)
    case Some(f) => f.delimiter
    case None => ""
  }

  /** The field is multi-valued: its delimiter attribute is a true PHP string. */
  predicate Delimited(fields: seq<Field>, name: string) {
    Truthy(DelimiterOf(fields, name))
  }

  /** The name has a field whose disabled attribute is neither 'true' nor 1. */
  predicate Enabled(fields: seq<Field>, name: string) {
    Lookup(fields, name).Some? && Lookup(fields, name).value.disabled !in {"true", "1"}
  }
}
