/**
  The generic form (src/components/ui/Forms.tsx): a map from field name to the value last
  entered, and a list of extra fields that the terminate and validate checkboxes add and
  remove.
*/
module Forms {
  import opened Wrappers
  import opened Sequences

  datatype FieldType = TextInput | Textarea | NumberInput | Email | Password | Date | Checkbox | Radio | Select

  datatype FieldOption = FieldOption(labelText: string, value: string, labelDescription: Option<string>)

  /** One field description (`FormsField`). */
  datatype FormsField = FormsField(
    id: string,
    labelText: string,
    fieldType: FieldType,
    placeholder: Option<string>,
    required: Option<bool>,
    options: Option<seq<FieldOption>>)

  /** A value of the form state: a checkbox's `checked` flag or any other input's text. */
  datatype FieldValue = Flag(checked: bool) | Text(text: string)

  const TerminateUrlField: FormsField :=
    FormsField("terminateUrl", "Terminate URL*", TextInput, Some("Enter terminate URL"), Some(true), None)

  const ValidateUrlField: FormsField :=
    FormsField("validateUrl", "Validate URL*", TextInput, Some("Enter validate URL"), Some(true), None)

  /** The fields whose id is not `id`, in order. */
  function WithoutId(fs: seq<FormsField>, id: string): (r: seq<FormsField>)
    ensures forall f :: f in r <==> f in fs && f.id != id
  {
    if fs == [] then []
    else (if fs[0].id != id then [fs[0]] else []) + WithoutId(fs[1..], id)
  }

  /** The fields whose id is `id`, in order. */
  function WithId(fs: seq<FormsField>, id: string): (r: seq<FormsField>)
    ensures forall f :: f in r <==> f in fs && f.id == id
  {
    if fs == [] then []
    else (if fs[0].id == id then [fs[0]] else []) + WithId(fs[1..], id)
  }

  /**
    One checkbox rule: a change of field `key` appends `field` when checked and removes
    every field with `field`'s id when unchecked; any other change leaves the list alone.
  */
  function CheckboxRule(fs: seq<FormsField>, name: string, checked: bool, key: string, field: FormsField): seq<FormsField>
  {
    if name == key && checked then fs + [field]
    else if name == key && !checked then WithoutId(fs, field.id)
    else fs
  }

  /** Both rules of a change, terminate first. */
  function DynamicFieldsAfter(fs: seq<FormsField>, name: string, checked: bool): (r: seq<FormsField>)
    ensures name == "terminate" ==> r == if checked then fs + [TerminateUrlField] else WithoutId(fs, "terminateUrl")
    ensures name == "validate" ==> r == if checked then fs + [ValidateUrlField] else WithoutId(fs, "validateUrl")
    ensures name != "terminate" && name != "validate" ==> r == fs
  {
    CheckboxRule(CheckboxRule(fs, name, checked, "terminate", TerminateUrlField), name, checked, "validate", ValidateUrlField)
  }

  // ---------------------------------------------------------------- properties

  lemma {:induction false} WithIdAppend(fs: seq<FormsField>, gs: seq<FormsField>, id: string)
    ensures WithId(fs + gs, id) == WithId(fs, id) + WithId(gs, id)
  {
    if fs != [] {
      assert (fs + gs)[1..] == fs[1..] + gs;
      WithIdAppend(fs[1..], gs, id);
    } else {
      assert fs + gs == gs;
    }
  }

  lemma {:induction false} WithoutOtherId(fs: seq<FormsField>, removed: string, kept: string)
    requires removed != kept
    ensures WithId(WithoutId(fs, removed), kept) == WithId(fs, kept)
  {
    if fs != [] {
      WithoutOtherId(fs[1..], removed, kept);
      WithIdAppend(if fs[0].id != removed then [fs[0]] else [], WithoutId(fs[1..], removed), kept);
    }
  }

  /**
    A checkbox rule never touches the fields of another id: the `validateUrl` fields are the
    same before and after any change under the terminate rule, and the other way round.
  */
  lemma RulesIndependent(fs: seq<FormsField>, name: string, checked: bool)
    ensures WithId(CheckboxRule(fs, name, checked, "terminate", TerminateUrlField), "validateUrl") == WithId(fs, "validateUrl")
    ensures WithId(CheckboxRule(fs, name, checked, "validate", ValidateUrlField), "terminateUrl") == WithId(fs, "terminateUrl")
  {
    WithIdAppend(fs, [TerminateUrlField], "validateUrl");
    WithoutOtherId(fs, "terminateUrl", "validateUrl");
    WithIdAppend(fs, [ValidateUrlField], "terminateUrl");
    WithoutOtherId(fs, "validateUrl", "terminateUrl");
  }

  /** Unchecking removes every copy the checks before it appended, and keeps the rest in order. */
  lemma {:induction false} UncheckRemovesAll(fs: seq<FormsField>, id: string, field: FormsField)
    requires field.id == id
    ensures WithoutId(fs + [field], id) == WithoutId(fs, id)
    ensures IsSubsequence(WithoutId(fs, id), fs)
  {
    if fs != [] {
      assert (fs + [field])[1..] == fs[1..] + [field];
      UncheckRemovesAll(fs[1..], id, field);
      var r := WithoutId(fs, id);
      if fs[0].id != id {
        assert r[1..] == WithoutId(fs[1..], id);
      } else {
        assert r == WithoutId(fs[1..], id);
      }
    } else {
      assert WithoutId([field], id) == [] + WithoutId([], id);
    }
  }

  /** Checking terminate and then unchecking it leaves no terminate URL field and nothing else changed. */
  lemma CheckThenUncheck(fs: seq<FormsField>)
    ensures DynamicFieldsAfter(DynamicFieldsAfter(fs, "terminate", true), "terminate", false) == WithoutId(fs, "terminateUrl")
  {
    UncheckRemovesAll(fs, "terminateUrl", TerminateUrlField);
  }

  class Form {
    const fields: seq<FormsField>
    var formState: map<string, FieldValue>
    var dynamicFields: seq<FormsField>

    constructor (fields: seq<FormsField>)
      ensures this.fields == fields && formState == map[] && dynamicFields == []
    {
      this.fields := fields;
      formState := map[];
      dynamicFields := [];
    }

    /**
      A change event on input `name`: stores `checked` for a checkbox and `value` otherwise,
      then applies the terminate and validate rules to the extra fields.
    */
    method HandleChange(name: string, value: string, inputType: string, checked: bool)
      modifies this
      ensures formState == old(formState)[name := if inputType == "checkbox" then Flag(checked) else Text(value)]
      ensures forall k :: k in old(formState) && k != name ==> k in formState && formState[k] == old(formState)[k]
      ensures dynamicFields == DynamicFieldsAfter(old(dynamicFields), name, checked)
      ensures name == "terminate" && checked ==> dynamicFields == old(dynamicFields) + [TerminateUrlField]
      ensures name == "terminate" && !checked ==>
        && dynamicFields == WithoutId(old(dynamicFields), "terminateUrl")
        && IsSubsequence(dynamicFields, old(dynamicFields))
      ensures name == "validate" && checked ==> dynamicFields == old(dynamicFields) + [ValidateUrlField]
      ensures name == "validate" && !checked ==>
        && dynamicFields == WithoutId(old(dynamicFields), "validateUrl")
        && IsSubsequence(dynamicFields, old(dynamicFields))
      ensures name != "terminate" && name != "validate" ==> dynamicFields == old(dynamicFields)
    {
      formState := formState[name := if inputType == "checkbox" then Flag(checked) else Text(value)];
      if name == "terminate" && checked {
        dynamicFields := dynamicFields + [TerminateUrlField];
      } else if name == "terminate" && !checked {
        UncheckRemovesAll(dynamicFields, "terminateUrl", TerminateUrlField);
        dynamicFields := WithoutId(dynamicFields, "terminateUrl");
      }
      if name == "validate" && checked {
        dynamicFields := dynamicFields + [ValidateUrlField];
      } else if name == "validate" && !checked {
        UncheckRemovesAll(dynamicFields, "validateUrl", ValidateUrlField);
        dynamicFields := WithoutId(dynamicFields, "validateUrl");
      }
    }

    /** The rendered fields: the static ones, then the extra ones, each list in order. */
    function AllFields(): (r: seq<FormsField>)
      reads this
      ensures |r| == |fields| + |dynamicFields|
      ensures r[..|fields|] == fields && r[|fields|..] == dynamicFields
    {
      fields + dynamicFields
    }

    /** Submission hands the whole form state to the caller. */
    method HandleSubmit() returns (data: map<string, FieldValue>)
      ensures data == formState
    {
      data := formState;
    }
  }
}
