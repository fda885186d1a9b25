/** `get_field_value`: read one named field of an analysed document (an
    object with `fields`, or a plain dict) as a `(value, confidence)` pair,
    never raising. */
module FieldAccess {
  import opened PyValues

  /** The `(value, confidence)` pair; `value` is `NoneVal` for Python None. */
  datatype Extracted = Extracted(value: Val, confidence: real)

  /** `(None, 0.0)` */
  const Absent := Extracted(NoneVal, 0.0)

  /** The confidence reported for a field that carries none of its own. */
  const DefaultConfidence: real := 100.0

  /** The two `value_type` arguments the parser passes. */
  const AmountType := "amount"
  const StringType := "string"

  /** The raw field `doc` holds under `name`: `doc.fields.get(name)` for an
      object with fields, `doc.get(name)` for a dict, and None for a
      document of neither shape. A present entry is returned as it is, and
      a field other than None is always the entry under `name`, taken from
      `fields` whenever the document has it. */
  function FieldOf(doc: Val, name: string): (f: Val)
    ensures !HasFields(doc) && !doc.DictVal? ==> f == NoneVal
    ensures HasFields(doc) && name !in doc.fields.val ==> f == NoneVal
    ensures !HasFields(doc) && doc.DictVal? && name !in doc.entries ==> f == NoneVal
    ensures HasFields(doc) && name in doc.fields.val ==> f == doc.fields.val[name]
    ensures !HasFields(doc) && doc.DictVal? && name in doc.entries ==> f == doc.entries[name]
    ensures f != NoneVal ==>
      || (HasFields(doc) && name in doc.fields.val && doc.fields.val[name] == f)
      || (!HasFields(doc) && doc.DictVal? && name in doc.entries && doc.entries[name] == f)
  {
    if HasFields(doc) then Get(doc.fields.val, name)
    else if doc.DictVal? then Get(doc.entries, name)
    else NoneVal
  }

  /** The field's value is a monetary object with an `amount`. */
  predicate IsMonetary(field: Val) {
    HasValue(field) && HasAmount(field.value.val)
  }

  /** The confidence percentage the SDK's fraction `c` is reported as:
      `c * 100` (the rounding to two decimals is not modelled). */
  function Percent(c: real): real {
    c * 100.0
  }

  function GetFieldValue(doc: Val, name: string, valueType: string): (r: Extracted)
    ensures !Truthy(FieldOf(doc, name)) ==> r == Absent
    ensures Truthy(FieldOf(doc, name)) && !HasConfidence(FieldOf(doc, name)) ==> r.confidence == DefaultConfidence
  {
    var field := FieldOf(doc, name);
    if Truthy(field) then
      var value :=
        if valueType == AmountType && IsMonetary(field) then field.value.val.amount.val
        else if HasValue(field) then field.value.val
        else field;
      var confidence := if HasConfidence(field) then Percent(field.confidence.val) else DefaultConfidence;
      Extracted(value, confidence)
    else
      Absent
  }

  /** A document that neither has `fields` nor is a dict yields `(None, 0.0)`. */
  lemma UnsupportedDocumentIsAbsent(doc: Val, name: string, valueType: string)
    requires !HasFields(doc) && !doc.DictVal?
    ensures GetFieldValue(doc, name, valueType) == Absent
  {
  }

  /** A present field reports its own confidence as a percentage, and 100.0
      when it has no `confidence` attribute. */
  lemma ConfidenceOfPresentField(doc: Val, name: string, valueType: string)
    requires Truthy(FieldOf(doc, name))
    ensures var f := FieldOf(doc, name);
      GetFieldValue(doc, name, valueType).confidence
        == if HasConfidence(f) then Percent(f.confidence.val) else DefaultConfidence
  {
  }

  /** The value of a present field, in order of preference: the `amount` of
      a monetary value when an amount is asked for, else the field's
      `value`, else the field itself. */
  lemma ValuePreference(doc: Val, name: string, valueType: string)
    requires Truthy(FieldOf(doc, name))
    ensures var f := FieldOf(doc, name);
      var v := GetFieldValue(doc, name, valueType).value;
      && (valueType == AmountType && IsMonetary(f) ==> v == f.value.val.amount.val)
      && (!(valueType == AmountType && IsMonetary(f)) && HasValue(f) ==> v == f.value.val)
      && (!HasValue(f) ==> v == f)
  {
  }

  /** `(None, 0.0)` means exactly: no usable field, or a field whose chosen
      value is None and whose own confidence is zero. */
  lemma AbsentExactly(doc: Val, name: string, valueType: string)
    ensures var f := FieldOf(doc, name);
      (GetFieldValue(doc, name, valueType) == Absent)
        <==> (|| !Truthy(f)
              || (&& HasValue(f) && HasConfidence(f) && f.confidence.val == 0.0
                  && (if valueType == AmountType && IsMonetary(f) then f.value.val.amount.val else f.value.val) == NoneVal))
  {
  }

  /** The object shape and the dict shape are read alike: the same mapping
      gives the same pair whichever way it is exposed. */
  lemma ShapesAgree(m: map<string, Val>, value: Option<Val>, amount: Option<Val>, confidence: Option<real>,
                    name: string, valueType: string)
    ensures GetFieldValue(Obj(Some(m), value, amount, confidence), name, valueType)
         == GetFieldValue(DictVal(m), name, valueType)
  {
  }

  /** `value_type` only matters for a monetary field: any other argument
      reads like the default `"string"`. */
  lemma ValueTypeOnlyMattersForAmounts(doc: Val, name: string, valueType: string)
    requires valueType != AmountType || !IsMonetary(FieldOf(doc, name))
    ensures GetFieldValue(doc, name, valueType) == GetFieldValue(doc, name, StringType)
  {
  }

  /** A field whose own confidence is a fraction in [0, 1] is reported with
      a confidence in [0, 100]; so is every other present field. */
  lemma ConfidenceIsPercentage(doc: Val, name: string, valueType: string)
    requires var f := FieldOf(doc, name); HasConfidence(f) ==> 0.0 <= f.confidence.val <= 1.0
    ensures 0.0 <= GetFieldValue(doc, name, valueType).confidence <= 100.0
  {
  }
}
