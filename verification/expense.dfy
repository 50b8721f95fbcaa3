/** The expense-entry form: three fixed amount fields, a list of fields the
    user adds, and the check and merge done before the form is sent. */
module Expense {
  import opened Outcomes
  import opened Seqs
  import opened Text

  // ---------------------------------------------------------------------
  // String records
  // ---------------------------------------------------------------------

  /** One own property of a `Record<string, string>` */
  datatype Prop = Prop(key: string, value: string)

  /** A `Record<string, string>` as its properties in creation order */
  type Record = seq<Prop>

  /** No key occurs twice, as in any JavaScript object */
  predicate Keyed(rec: Record) {
    forall i, j :: 0 <= i < j < |rec| ==> rec[i].key != rec[j].key
  }

  /** `rec[key]`, `None` for a key the record does not have */
  function Get(rec: Record, key: string): (r: Option<string>)
    ensures r.None? <==> forall i :: 0 <= i < |rec| ==> rec[i].key != key
    ensures r.Some? ==> exists i :: 0 <= i < |rec| && rec[i] == Prop(key, r.value)
  {
    if rec == [] then None
    else if rec[0].key == key then Some(rec[0].value)
    else
      var r := Get(rec[1..], key);
      assert forall i :: 1 <= i < |rec| ==> rec[i] == rec[1..][i - 1];
      r
  }

  /** `{ ...rec, [key]: value }` and `rec[key] = value`: an existing property
      keeps its place and takes the new value, a new one is added last */
  function Put(rec: Record, key: string, value: string): (r: Record)
    ensures Keyed(rec) ==> Keyed(r)
    ensures |r| == |rec| || r == rec + [Prop(key, value)]
    ensures forall i :: 0 <= i < |rec| ==> r[i].key == rec[i].key
  {
    if rec == [] then [Prop(key, value)]
    else if rec[0].key == key then [Prop(key, value)] + rec[1..]
    else
      var rest := Put(rec[1..], key, value);
      assert Keyed(rec) ==> Keyed(rec[1..]);
      var r := [rec[0]] + rest;
      assert forall i :: 1 <= i < |r| ==> r[i] == rest[i - 1];
      r
  }

  /** Putting a key sets it and leaves every other key as it was */
  lemma {:induction false} GetPut(rec: Record, key: string, value: string, k: string)
    ensures Get(Put(rec, key, value), k) == if k == key then Some(value) else Get(rec, k)
  {
    var r := Put(rec, key, value);
    if rec != [] && rec[0].key != key {
      GetPut(rec[1..], key, value, k);
      assert r[0] == rec[0] && r[1..] == Put(rec[1..], key, value);
    } else if rec != [] {
      assert r[0] == Prop(key, value) && r[1..] == rec[1..];
    }
  }

  // ---------------------------------------------------------------------
  // The form
  // ---------------------------------------------------------------------

  /** The fixed fields: transport, food and telephone, all empty */
  const DefaultFields: Record := [Prop("교통비", ""), Prop("식비", ""), Prop("통신비", "")]

  lemma DefaultFieldsKeyed()
    ensures Keyed(DefaultFields)
  {
  }

  /** One user-added field */
  datatype CustomField = CustomField(id: string, key: string, value: string)

  /** The two properties of a custom field the inputs edit */
  datatype FieldName = KeyName | ValueName

  /** `updateDefaultField(key, value)` */
  function UpdateDefault(defaults: Record, key: string, value: string): (r: Record)
    requires Keyed(defaults)
    ensures Keyed(r)
    ensures forall k :: Get(r, k) == if k == key then Some(value) else Get(defaults, k)
  {
    var r := Put(defaults, key, value);
    forall k
      ensures Get(r, k) == if k == key then Some(value) else Get(defaults, k)
    {
      GetPut(defaults, key, value, k);
    }
    r
  }

  /** `{ ...item, [name]: value }` */
  function SetField(f: CustomField, name: FieldName, value: string): CustomField
  {
    match name
    case KeyName => f.(key := value)
    case ValueName => f.(value := value)
  }

  /** `updateCustomField(id, name, value)`: every field with that id gets the
      new key or value; nothing else changes */
  function UpdateCustom(fields: seq<CustomField>, id: string, name: FieldName, value: string): (r: seq<CustomField>)
    ensures |r| == |fields|
    ensures forall i :: 0 <= i < |r| && fields[i].id != id ==> r[i] == fields[i]
    ensures forall i :: 0 <= i < |r| && fields[i].id == id ==>
              r[i].id == id
              && (if name == KeyName then r[i].key == value && r[i].value == fields[i].value
                  else r[i].value == value && r[i].key == fields[i].key)
  {
    seq(|fields|, i requires 0 <= i < |fields| => if fields[i].id == id then SetField(fields[i], name, value) else fields[i])
  }

  /** `addCustomField()`, with the `crypto.randomUUID()` result passed in */
  function AddCustom(fields: seq<CustomField>, newId: string): (r: seq<CustomField>)
    ensures |r| == |fields| + 1
    ensures r[..|fields|] == fields
    ensures r[|fields|] == CustomField(newId, "", "")
  {
    fields + [CustomField(newId, "", "")]
  }

  /** `removeCustomField(id)`: drops every field with that id and keeps the
      others in order */
  function RemoveCustom(fields: seq<CustomField>, id: string): (r: seq<CustomField>)
    ensures forall i :: 0 <= i < |r| ==> r[i].id != id
    ensures forall i :: 0 <= i < |fields| && fields[i].id != id ==> fields[i] in r
    ensures IsSubseq(r, fields)
    ensures forall f :: multiset(r)[f] == if f.id != id then multiset(fields)[f] else 0
  {
    var kept := (f: CustomField) => f.id != id;
    FilterMultiset(fields, kept);
    Filter(fields, kept)
  }

  /** Removing a field just added with a new id gives back the list */
  lemma AddThenRemove(fields: seq<CustomField>, newId: string)
    requires forall i :: 0 <= i < |fields| ==> fields[i].id != newId
    ensures RemoveCustom(AddCustom(fields, newId), newId) == fields
  {
    var p := (f: CustomField) => f.id != newId;
    FilterAppend(fields, [CustomField(newId, "", "")], p);
  }

  // ---------------------------------------------------------------------
  // Sending
  // ---------------------------------------------------------------------

  datatype Mode = Upload | Manual

  const NoFileMessage := "PDF 파일을 업로드해주세요."
  const NothingEnteredMessage := "최소 하나 이상의 항목을 입력해주세요."

  /** Nothing but white space once trimmed */
  predicate Blank(s: string) {
    Trim(s) == []
  }

  /** `Object.values(defaultFields).some((value) => value.trim() !== "")` */
  function AnyDefaultFilled(defaults: Record): (b: bool)
    ensures b <==> exists i :: 0 <= i < |defaults| && !Blank(defaults[i].value)
  {
    if defaults == [] then false
    else
      assert forall i :: 1 <= i < |defaults| ==> defaults[i] == defaults[1..][i - 1];
      !Blank(defaults[0].value) || AnyDefaultFilled(defaults[1..])
  }

  /** `customFields.some((field) => field.key.trim() !== "" || field.value.trim() !== "")` */
  function AnyCustomFilled(fields: seq<CustomField>): (b: bool)
    ensures b <==> exists i :: 0 <= i < |fields| && (!Blank(fields[i].key) || !Blank(fields[i].value))
  {
    if fields == [] then false
    else
      assert forall i :: 1 <= i < |fields| ==> fields[i] == fields[1..][i - 1];
      !Blank(fields[0].key) || !Blank(fields[0].value) || AnyCustomFilled(fields[1..])
  }

  /** The check at the start of `handleNext`: the error message shown, or
      `None` when the form may be sent */
  function Validate(mode: Mode, hasFile: bool, defaults: Record, fields: seq<CustomField>): (r: Option<string>)
    ensures mode == Upload ==> (r.Some? <==> !hasFile) && (r.Some? ==> r.value == NoFileMessage)
    ensures mode == Manual ==>
              && (r.Some? <==> (forall i :: 0 <= i < |defaults| ==> Blank(defaults[i].value))
                               && (forall i :: 0 <= i < |fields| ==> Blank(fields[i].key) && Blank(fields[i].value)))
              && (r.Some? ==> r.value == NothingEnteredMessage)
  {
    match mode
    case Upload => if !hasFile then Some(NoFileMessage) else None
    case Manual =>
      if !AnyDefaultFilled(defaults) && !AnyCustomFilled(fields) then Some(NothingEnteredMessage) else None
  }

  /** The record sent in manual mode: the fixed fields, then each custom
      field whose key is not blank, stored under its untrimmed key */
  function Merge(defaults: Record, fields: seq<CustomField>): (r: Record)
    requires Keyed(defaults)
    ensures Keyed(r)
  {
    if fields == [] then defaults
    else
      var m := Merge(defaults, fields[..|fields| - 1]);
      var f := fields[|fields| - 1];
      if !Blank(f.key) then Put(m, f.key, f.value) else m
  }

  /** A key no custom field contributes keeps the fixed field's value (or
      stays absent) */
  lemma {:induction false} MergeUntouched(defaults: Record, fields: seq<CustomField>, k: string)
    requires Keyed(defaults)
    requires Blank(k) || forall i :: 0 <= i < |fields| ==> fields[i].key != k
    ensures Get(Merge(defaults, fields), k) == Get(defaults, k)
  {
    if fields != [] {
      var init := fields[..|fields| - 1];
      var f := fields[|fields| - 1];
      assert forall i :: 0 <= i < |init| ==> init[i] == fields[i];
      MergeUntouched(defaults, init, k);
      if !Blank(f.key) {
        GetPut(Merge(defaults, init), f.key, f.value, k);
      }
    }
  }

  /** A non-blank key takes the value of the last custom field with that
      key, over earlier ones and over the fixed field */
  lemma {:induction false} MergeLastWins(defaults: Record, fields: seq<CustomField>, i: nat)
    requires Keyed(defaults)
    requires i < |fields| && !Blank(fields[i].key)
    requires forall j :: i < j < |fields| ==> fields[j].key != fields[i].key
    ensures Get(Merge(defaults, fields), fields[i].key) == Some(fields[i].value)
  {
    var init := fields[..|fields| - 1];
    var f := fields[|fields| - 1];
    var k := fields[i].key;
    if i == |fields| - 1 {
      GetPut(Merge(defaults, init), k, f.value, k);
    } else {
      assert init[i] == fields[i];
      assert forall j :: i < j < |init| ==> init[j] == fields[j];
      MergeLastWins(defaults, init, i);
      if !Blank(f.key) {
        GetPut(Merge(defaults, init), f.key, f.value, k);
      }
    }
  }

  /** Every fixed field is sent */
  lemma {:induction false} MergeKeepsDefaults(defaults: Record, fields: seq<CustomField>, k: string)
    requires Keyed(defaults)
    requires Get(defaults, k).Some?
    ensures Get(Merge(defaults, fields), k).Some?
  {
    if fields != [] {
      var init := fields[..|fields| - 1];
      var f := fields[|fields| - 1];
      MergeKeepsDefaults(defaults, init, k);
      if !Blank(f.key) {
        GetPut(Merge(defaults, init), f.key, f.value, k);
      }
    }
  }

  /** A custom field with a value but a blank key lets the form through yet
      adds nothing to what is sent */
  lemma BlankKeyIgnored(defaults: Record, fields: seq<CustomField>, f: CustomField)
    requires Keyed(defaults)
    requires Blank(f.key) && !Blank(f.value)
    ensures Validate(Manual, false, defaults, fields + [f]).None?
    ensures Merge(defaults, fields + [f]) == Merge(defaults, fields)
  {
    var all := fields + [f];
    var n := |all| - 1;
    assert all[n] == f;
    assert !(Blank(all[n].key) && Blank(all[n].value));
    assert all[..n] == fields;
    assert Merge(defaults, all) == Merge(defaults, all[..n]);
  }

  /** The untouched form cannot be sent in manual mode */
  lemma UntouchedFormRejected()
    ensures Validate(Manual, false, DefaultFields, []) == Some(NothingEnteredMessage)
  {
    assert forall i :: 0 <= i < |DefaultFields| ==> DefaultFields[i].value == [];
  }

  /** Filling any fixed field with a non-blank value makes the form
      acceptable in manual mode */
  lemma FillingAFieldUnlocks(defaults: Record, fields: seq<CustomField>, key: string, value: string)
    requires Keyed(defaults) && !Blank(value)
    ensures Validate(Manual, false, UpdateDefault(defaults, key, value), fields).None?
  {
    var d := UpdateDefault(defaults, key, value);
    assert Get(d, key) == Some(value);
    var j :| 0 <= j < |d| && d[j] == Prop(key, value);
    FilledAt(d, fields, j);
  }

  lemma FilledAt(d: Record, fields: seq<CustomField>, j: nat)
    requires j < |d| && !Blank(d[j].value)
    ensures Validate(Manual, false, d, fields).None?
  {
    assert AnyDefaultFilled(d);
  }
}
