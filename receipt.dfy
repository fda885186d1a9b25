/** The record-building part of `analyze_receipt`: from the analysis result
    of one receipt image to the `parsed_data` record. The call to the
    analysis service is not modelled; its result is the input. */
module Assembly {
  import opened PyValues
  import opened FieldAccess
  import opened Extraction
  import opened Ascii
  import Gstin
  import Hsn

  /** What the analysis service returns: the analysed documents and the
      full recognised text. */
  datatype OcrResult = OcrResult(documents: seq<Val>, content: string)

  /** One entry of `parsed_data["items"]`. */
  datatype LineItem = LineItem(description: Extracted, totalPrice: Extracted)

  /** `parsed_data`; a member is None until the record is filled in. */
  datatype ParsedData = ParsedData(
    merchantName: Option<Extracted>,
    transactionDate: Option<Extracted>,
    total: Option<Extracted>,
    items: seq<LineItem>,
    gstin: Option<Extracted>,
    hsn: Option<Extracted>)

  /** The record as first created: every field None, no items. */
  const EmptyData := ParsedData(None, None, None, [], None, None)

  /** The confidence given to an identifier found in the text. */
  const FoundConfidence: real := 100.0

  /** `(x, 100.0) if x else (None, 0.0)`: a found, non-empty identifier
      with full confidence, otherwise the absent pair. */
  function Tagged(x: Option<string>): (r: Extracted)
    ensures r.confidence == FoundConfidence <==> x.Some? && x.val != ""
    ensures r.confidence == FoundConfidence ==> r.value == StrVal(x.val)
    ensures r.confidence != FoundConfidence ==> r == Absent
  {
    if x.Some? && Truthy(StrVal(x.val)) then Extracted(StrVal(x.val), FoundConfidence) else Absent
  }

  /** One line item read from a source item's `value`: the description
      as a plain value, never an amount, and the total price as the amount
      of a monetary value. */
  function ItemOf(item: Val): (r: LineItem)
    requires HasValue(item)
    ensures var f := FieldOf(item.value.val, "Description");
      && (!Truthy(f) ==> r.description == Absent)
      && (HasValue(f) ==> r.description.value == f.value.val)
    ensures var f := FieldOf(item.value.val, "TotalPrice");
      && (!Truthy(f) ==> r.totalPrice == Absent)
      && (IsMonetary(f) ==> r.totalPrice.value == f.value.val.amount.val)
  {
    LineItem(GetFieldValue(item.value.val, "Description", StringType),
             GetFieldValue(item.value.val, "TotalPrice", AmountType))
  }

  /** The `Items` field carries a list as its `value`. */
  predicate ItemsListed(itemsField: Val) {
    HasValue(itemsField) && itemsField.value.val.ListVal?
  }

  /** The line items read from a list of source items, one per item. */
  function ItemsOf(xs: seq<Val>): (r: seq<LineItem>)
    requires forall k :: 0 <= k < |xs| ==> HasValue(xs[k])
    ensures |r| == |xs| && forall k :: 0 <= k < |xs| ==> r[k] == ItemOf(xs[k])
  {
    seq(|xs|, k requires 0 <= k < |xs| => ItemOf(xs[k]))
  }

  /** The line items of a document, or the error Python raises reading them:
      a document without `fields`, an `Items` field without `value`, a
      `value` that cannot be iterated, an item without `value`. */
  function LineItems(doc: Val): (r: Result<seq<LineItem>>)
    ensures !HasFields(doc) ==> r == Err(AttributeError)
    ensures HasFields(doc) && !Truthy(Get(doc.fields.val, "Items")) ==> r == Ok([])
    ensures r.Ok? && r.value != [] ==> HasFields(doc) && ItemsListed(Get(doc.fields.val, "Items"))
    ensures HasFields(doc) && ItemsListed(Get(doc.fields.val, "Items")) ==>
      var xs := Get(doc.fields.val, "Items").value.val.elems;
      && (r.Ok? <==> forall k :: 0 <= k < |xs| ==> HasValue(xs[k]))
      && (r.Ok? ==> r.value == ItemsOf(xs))
    ensures HasFields(doc) && Truthy(Get(doc.fields.val, "Items")) && !HasValue(Get(doc.fields.val, "Items")) ==>
      r == Err(AttributeError)
    ensures HasFields(doc) && HasValue(Get(doc.fields.val, "Items")) ==>
      var v := Get(doc.fields.val, "Items").value.val;
      Truthy(v) && !v.ListVal? ==> r == Err(if v.StrVal? || v.DictVal? then AttributeError else TypeError)
    ensures r == Err(TypeError) ==>
      && HasFields(doc)
      && var itemsField := Get(doc.fields.val, "Items");
         && HasValue(itemsField)
         && var v := itemsField.value.val;
            Truthy(v) && !v.ListVal? && !v.StrVal? && !v.DictVal?
  {
    if !HasFields(doc) then Err(AttributeError)
    else
      var itemsField := Get(doc.fields.val, "Items");
      if !Truthy(itemsField) then Ok([])
      else if !HasValue(itemsField) then Err(AttributeError)
      else
        var v := itemsField.value.val;
        if !Truthy(v) then Ok([])
        else match v
          case ListVal(xs) =>
            if forall k :: 0 <= k < |xs| ==> HasValue(xs[k])
            then Ok(ItemsOf(xs))
            else Err(AttributeError)
          // iterating a non-empty str or dict yields a str, which has no `value`
          case StrVal(_) => Err(AttributeError)
          case DictVal(_) => Err(AttributeError)
          case _ => Err(TypeError)
  }

  /** The record `analyze_receipt` returns for an analysis result. */
  function Analysis(ocr: OcrResult): (r: Result<ParsedData>)
    ensures r.Err? ==> ocr.documents != [] && LineItems(ocr.documents[0]) == Err(r.error)
    ensures r.Ok? && ocr.documents != [] ==>
      && LineItems(ocr.documents[0]) == Ok(r.value.items)
      && r.value.merchantName.Some? && r.value.transactionDate.Some? && r.value.total.Some?
      && r.value.gstin.Some? && r.value.hsn.Some?
  {
    if ocr.documents == [] then Ok(EmptyData)
    else
      var doc := ocr.documents[0];
      match LineItems(doc)
      case Err(e) => Err(e)
      case Ok(items) =>
        var found := ExtractCustomFields(ocr.content);
        Ok(ParsedData(
          Some(GetFieldValue(doc, "MerchantName", StringType)),
          Some(GetFieldValue(doc, "TransactionDate", StringType)),
          Some(GetFieldValue(doc, "Total", AmountType)),
          items,
          Some(Tagged(found.gstin)),
          Some(Tagged(found.hsn))))
  }

  /** Builds the record step by step as the source does: start from the
      empty record, fill in the first document's fields, append one item per
      source item, then attach the identifiers found in the text. */
  method AnalyzeReceipt(ocr: OcrResult) returns (res: Result<ParsedData>)
    ensures res == Analysis(ocr)
    ensures ocr.documents == [] ==> res == Ok(EmptyData)
  {
    var data := EmptyData;
    if |ocr.documents| > 0 {
      var doc := ocr.documents[0];
      data := data.(merchantName := Some(GetFieldValue(doc, "MerchantName", StringType)));
      data := data.(transactionDate := Some(GetFieldValue(doc, "TransactionDate", StringType)));
      data := data.(total := Some(GetFieldValue(doc, "Total", AmountType)));

      if !HasFields(doc) {
        return Err(AttributeError);
      }
      var itemsField := Get(doc.fields.val, "Items");
      if Truthy(itemsField) {
        if !HasValue(itemsField) {
          return Err(AttributeError);
        }
        var v := itemsField.value.val;
        if Truthy(v) {
          if !v.ListVal? {
            return Err(if v.StrVal? || v.DictVal? then AttributeError else TypeError);
          }
          var xs := v.elems;
          ghost var before := data;
          var i := 0;
          while i < |xs|
            invariant 0 <= i <= |xs|
            invariant forall k :: 0 <= k < i ==> HasValue(xs[k])
            invariant |data.items| == i
            invariant forall k :: 0 <= k < i ==> data.items[k] == ItemOf(xs[k])
            invariant data == before.(items := data.items)
          {
            var item := xs[i];
            if !HasValue(item) {
              return Err(AttributeError);
            }
            var description := GetFieldValue(item.value.val, "Description", StringType);
            var totalPrice := GetFieldValue(item.value.val, "TotalPrice", AmountType);
            data := data.(items := data.items + [LineItem(description, totalPrice)]);
            i := i + 1;
          }
          assert data.items == ItemsOf(xs);
        }
      }

      var found := ExtractCustomFields(ocr.content);
      data := data.(gstin := Some(Tagged(found.gstin)));
      data := data.(hsn := Some(Tagged(found.hsn)));
    }
    return Ok(data);
  }

  /** An analysis result without documents gives the empty record. */
  lemma NoDocumentsGivesEmptyRecord(ocr: OcrResult)
    requires ocr.documents == []
    ensures Analysis(ocr) == Ok(EmptyData)
    ensures var p := Analysis(ocr).value;
      && p.merchantName.None? && p.transactionDate.None? && p.total.None?
      && p.items == [] && p.gstin.None? && p.hsn.None?
  {
  }

  /** Only the first document counts: the documents after it never change
      the outcome. */
  lemma OnlyFirstDocumentUsed(doc: Val, rest1: seq<Val>, rest2: seq<Val>, content: string)
    ensures Analysis(OcrResult([doc] + rest1, content)) == Analysis(OcrResult([doc] + rest2, content))
  {
  }

  /** The outcome is an error exactly when reading the first document's
      line items raises. */
  lemma ErrorsOnlyFromLineItems(ocr: OcrResult)
    ensures Analysis(ocr).Err? <==> ocr.documents != [] && LineItems(ocr.documents[0]).Err?
  {
  }

  /** The first document's standard fields are read with the accessor, the
      total as an amount. */
  lemma StandardFieldsOfFirstDocument(ocr: OcrResult)
    requires ocr.documents != [] && Analysis(ocr).Ok?
    ensures var p := Analysis(ocr).value;
      var doc := ocr.documents[0];
      && p.merchantName == Some(GetFieldValue(doc, "MerchantName", StringType))
      && p.transactionDate == Some(GetFieldValue(doc, "TransactionDate", StringType))
      && p.total == Some(GetFieldValue(doc, "Total", AmountType))
  {
  }

  /** One line item per source item, in source order, each holding the
      item's description and its total price read as an amount. */
  lemma ItemsFollowSourceOrder(ocr: OcrResult, xs: seq<Val>)
    requires ocr.documents != [] && Analysis(ocr).Ok?
    requires var doc := ocr.documents[0];
      HasFields(doc) && HasValue(Get(doc.fields.val, "Items"))
      && Get(doc.fields.val, "Items").value.val == ListVal(xs)
    ensures var items := Analysis(ocr).value.items;
      && |items| == |xs|
      && forall k :: 0 <= k < |xs| ==>
           && HasValue(xs[k])
           && items[k].description == GetFieldValue(xs[k].value.val, "Description", StringType)
           && items[k].totalPrice == GetFieldValue(xs[k].value.val, "TotalPrice", AmountType)
  {
    assert LineItems(ocr.documents[0]) == Ok(Analysis(ocr).value.items);
  }

  /** The identifiers attached are the ones `ExtractCustomFields` finds in
      the text, tagged; they have confidence 100.0 when their pattern
      matches the text somewhere, and as `(None, 0.0)` otherwise; a GSTIN is
      the matched text, label included, an HSN code four to eight digits. */
  lemma IdentifiersTagged(ocr: OcrResult)
    requires ocr.documents != [] && Analysis(ocr).Ok?
    ensures var p := Analysis(ocr).value;
      && p.gstin == Some(Tagged(ExtractCustomFields(ocr.content).gstin))
      && p.hsn == Some(Tagged(ExtractCustomFields(ocr.content).hsn))
      && (p.gstin.val.confidence == FoundConfidence <==> exists s, e :: Gstin.IsMatch(ocr.content, s, e))
      && (p.gstin.val == Absent <==> !exists s, e :: Gstin.IsMatch(ocr.content, s, e))
      && (p.gstin.val.value.StrVal? ==> LabelAt(p.gstin.val.value.s, 0, Gstin.Label))
      && (p.hsn.val.confidence == FoundConfidence <==> exists s :: !Hsn.NoMatchAt(ocr.content, s))
      && (p.hsn.val == Absent <==> !exists s :: !Hsn.NoMatchAt(ocr.content, s))
      && (p.hsn.val.value.StrVal? ==>
            Hsn.MinDigits <= |p.hsn.val.value.s| <= Hsn.MaxDigits
            && forall i :: 0 <= i < |p.hsn.val.value.s| ==> IsDigit(p.hsn.val.value.s[i]))
  {
    var found := ExtractCustomFields(ocr.content);
    if found.gstin.Some? {
      var m := Gstin.Search(ocr.content).val;
      GstinIsEarliestLabelledMatch(ocr.content, m.start, m.end);
    }
    if found.hsn.Some? {
      var m := Hsn.Search(ocr.content).val;
      assert found.hsn == Some(Hsn.Digits(ocr.content, m));
    }
  }

  /** The shape the analysis SDK produces: an object with `fields`, whose
      `Items`, when present, has a list `value` of objects with `value`. */
  predicate SdkShaped(doc: Val) {
    && HasFields(doc)
    && var itemsField := Get(doc.fields.val, "Items");
       !Truthy(itemsField)
       || (&& HasValue(itemsField)
           && (|| !Truthy(itemsField.value.val)
               || (itemsField.value.val.ListVal?
                   && forall k :: 0 <= k < |itemsField.value.val.elems| ==> HasValue(itemsField.value.val.elems[k]))))
  }

  /** The assembly succeeds exactly on results of that shape: it never
      raises on what the SDK produces, and raises on every other shape. */
  lemma SdkShapedResultSucceeds(ocr: OcrResult)
    ensures Analysis(ocr).Ok? <==> (ocr.documents != [] ==> SdkShaped(ocr.documents[0]))
  {
  }
}
