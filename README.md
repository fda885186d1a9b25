# Receipt parser: field access, tax-identifier scanning and record assembly

This project models the post-processing half of the receipt parser in
`parser.py`. The document-analysis service turns a receipt image into
analysed documents plus the full recognised text. The code then turns that
result into a `parsed_data` record with these members:

- the merchant name, the transaction date and the total, each as a
  `(value, confidence)` pair;
- the line items;
- a GSTIN (an Indian goods-and-services tax identifier) and an HSN code
  (a 4–8 digit goods classification), both scanned from the text.

The model has three parts, one per piece of the source:

- **Field accessor** (`FieldAccess`, `get_field_value`). Python values are
  the datatype `PyValues.Val`. An `Obj` holds an SDK object's attributes,
  and each attribute is `Some` exactly when `hasattr` would say it exists.
  `GetFieldValue` is total on the values modelled here (see "Left out" for
  the inputs on which the source raises). The lemmas state:
  - when the result is `(None, 0.0)`, in both directions;
  - the 100.0 default confidence;
  - the order in which the value is chosen (amount, then `value`, then the
    field itself);
  - that an object with `fields` and a dict with the same entries are read
    the same way.
- **Tax-identifier scanner** (`Ascii`, `Gstin`, `Hsn`, `Extraction`,
  `extract_custom_fields`). There is no regex engine here. Each pattern
  appears twice:
  - as a declarative predicate that says when the pattern matches a span:
    `Gstin.IsMatch`, and `Hsn.CodeMatch` / `Hsn.PlainMatch` / `Hsn.IsMatch`;
  - as a hand-written leftmost-first matcher that follows `re.search`: it
    tries start positions left to right, and for HSN it tries the `CODE`
    alternative first. `[:\s]*` and `\d{4,8}` are greedy.

  The matchers' contracts tie the two together. A match found is a match,
  and no earlier position matches. When nothing is found, no position
  matches anywhere.
- **Record assembly** (`Assembly`, the part of `analyze_receipt` after the
  service call):
  - `OcrResult` stands in for the service's result.
  - `AnalyzeReceipt` is an imperative method. It starts from the empty
    record, overwrites its members one by one, and appends the line items
    in a loop.
  - The method is proved equal to the specification function `Analysis`.
    The lemmas about `Analysis` cover: the empty result, "only the first
    document is used", item order, and how the identifiers are tagged.

Python's exceptions on this path are modelled as `Err(AttributeError)` or
`Err(TypeError)`. They arise from:

- a document without `fields`;
- an `Items` field without `value`;
- an items value that is not a list;
- an item without `value`.

`SdkShapedResultSucceeds` shows that the assembly succeeds exactly on the
shape the SDK produces, so none of these happen there.

Some behaviour a reader might expect of a receipt parser is not in this
code, and the model follows the code. This parser does not:

- return the bare 15-character GSTIN. It returns `group(0)`: the whole
  match, including the `GSTIN` label and the separators.
  `Gstin.FoundIncludesLabel` proves that the result is always at least 20
  characters long and starts with the label.
- sanitise the GSTIN or correct a `2` to a `Z`;
- use the structural GSTIN pattern, which is commented out, or fall back to
  the address;
- resolve currencies, weight confidences, categorise or set an approval
  status.

## Model

| member | source | states |
|---|---|---|
| FieldAccess.FieldOf | parser.py:28-33 | no field for a document that neither has `fields` nor is a dict, or that lacks the name; a present entry is returned as it is, and any other field is the entry under the name, from `fields` whenever the document has it and from the dict otherwise |
| FieldAccess.GetFieldValue | parser.py:22-45 | never fails; a missing or falsy field, or a document that neither has `fields` nor is a dict, gives `(None, 0.0)`; a present field without a `confidence` attribute gets 100.0 |
| FieldAccess.UnsupportedDocumentIsAbsent | parser.py:28-33 | a document that neither has `fields` nor is a dict yields `(None, 0.0)` |
| FieldAccess.ConfidenceOfPresentField | parser.py:43 | a present field's confidence is its own fraction times 100, or 100.0 when it has no `confidence` attribute |
| FieldAccess.ValuePreference | parser.py:35-41 | the value is the `amount` when an amount is asked for and the value has one; otherwise the field's `value` when it has one; otherwise the field itself |
| FieldAccess.AbsentExactly | parser.py:35-45 | `(None, 0.0)` is returned exactly when the field is missing or falsy, or when its chosen value is None and its own confidence is zero |
| FieldAccess.ShapesAgree | parser.py:27-31 | an object with `fields` and a dict holding the same entries give the same pair |
| FieldAccess.ValueTypeOnlyMattersForAmounts | parser.py:22-39 | any `value_type` other than `"amount"`, or any non-monetary field, reads like the default `"string"` |
| FieldAccess.ConfidenceIsPercentage | parser.py:43 | a fractional SDK confidence in [0, 1] yields a reported confidence in [0, 100] |
| Ascii.SepEnd | parser.py:58 | the greedy `[:\s]*` stops at the first character that is not `:` or whitespace, and everything before it is a separator |
| Ascii.SepEndUnique | parser.py:58 | a separator run that cannot be extended is the greedy one, so backtracking gives no other match |
| Ascii.DigitRun | parser.py:65 | the greedy `\d{..8}` takes digits only, as many as there are up to the limit |
| Ascii.DigitRunUnique | parser.py:65 | a digit run that is as long as the limit allows is the greedy one |
| Gstin.IsMatch | parser.py:58 | a match lies inside the text and spans at least the five-letter label and the fifteen-character identifier |
| Gstin.MatchAt | parser.py:58 | the attempt at one position succeeds exactly when the pattern matches a span starting there, and its span is such a match |
| Gstin.MatchEndUnique | parser.py:58 | a match from a given start has a single end |
| Gstin.SearchFrom | parser.py:59 | from position `a`, the result is a match and no earlier position from `a` on matches; None means nothing from `a` on matches |
| Gstin.Search | parser.py:59 | `re.search`: the leftmost match; None exactly when no position matches |
| Gstin.Find | parser.py:59-61 | a string is returned exactly when some span matches, and it is the text of the leftmost match |
| Gstin.MatchedTextShape | parser.py:58-61 | a matched text is at least 20 characters: the label in any case, then separators, then 15 letters or digits |
| Gstin.FoundIncludesLabel | parser.py:58-61 | the returned GSTIN starts with the `GSTIN` label and ends with the 15-character identifier |
| Hsn.CodeMatch | parser.py:65 | a first-alternative match is laid out in order inside the text: label, separators, `CODE`, separators, digits |
| Hsn.PlainMatch | parser.py:65 | a second-alternative match is laid out in order inside the text: label, separators, digits |
| Hsn.IsMatch | parser.py:65 | the match reported at a position captures 4 to 8 digits lying after the label and inside the text |
| Hsn.CodeMatchDetermined | parser.py:65 | a `CODE`-alternative match is fixed by its start: both separator runs and the digit run are the greedy ones |
| Hsn.PlainMatchDetermined | parser.py:65 | a plain-alternative match is fixed by its start |
| Hsn.AlternativesExclusive | parser.py:65 | the two alternatives never both match at the same position |
| Hsn.CodeAltAt | parser.py:65 | the `CODE` alternative at one position: a match when it succeeds, and no `CODE` match exists there when it fails |
| Hsn.PlainAltAt | parser.py:65 | the plain alternative at one position: a match when it succeeds, and no plain match exists there when it fails |
| Hsn.MatchAt | parser.py:65-66 | the `CODE` alternative is tried first; the plain one is reported only where no `CODE` match exists; None means neither matches |
| Hsn.SearchFrom | parser.py:66 | the leftmost match from position `a`; None means no position from `a` on matches |
| Hsn.Search | parser.py:66 | `re.search` with IGNORECASE: the leftmost match; None exactly when no position matches |
| Hsn.CodeAltFindsMatch | parser.py:65 | any `CODE`-alternative match is exactly the one the first alternative's attempt at its start reports |
| Hsn.PlainAltFindsMatch | parser.py:65 | any plain-alternative match is exactly the one the second alternative's attempt at its start reports |
| Hsn.MatchAtFindsEveryMatch | parser.py:65-66 | any match is exactly the one the attempt at its start position reports |
| Hsn.MatchUnique | parser.py:65-66 | two matches starting at the same position are the same match, so the captured code depends only on the start |
| Hsn.SearchFindsLeftmost | parser.py:66 | the converse of `Search`: a match with no match before it is the one `re.search` reports |
| Hsn.Digits | parser.py:68 | the captured group is 4 to 8 digits |
| Hsn.Find | parser.py:66-68 | a code is returned exactly when some position matches; it is the digits captured by the leftmost match, 4 to 8 of them |
| Hsn.LongRunTruncated | parser.py:65 | the capture is 8 digits long exactly when at least 8 digits follow, so a longer run yields only its first 8 |
| Extraction.ExtractCustomFields | parser.py:48-70 | the GSTIN is present exactly when the labelled pattern matches, and it is the leftmost matched text; the HSN is present exactly when either alternative matches, and it is the 4 to 8 digits captured by the leftmost match |
| Extraction.GstinIsEarliestLabelledMatch | parser.py:58-61 | given any match, a GSTIN is reported: it starts no later than that match, begins with the label and ends with 15 letters or digits |
| Extraction.HsnIsEarliestMatch | parser.py:65-68 | given any match, an HSN is reported from a match starting no later; a plain-alternative result means no `CODE` match at its start |
| Extraction.SampleGstinKeepsLabel | parser.py:56-61 | on `GSTIN: 29AABCT1332L1Z2`, a label followed by the example identifier, the reported GSTIN is that whole text, label and separators included |
| Extraction.SampleHsnCode | parser.py:64-68 | on the example `HSN Code: 12345678` the reported HSN is `12345678` |
| Extraction.SampleHsnCodeMatch | parser.py:65 | on that text the `CODE` alternative matches at the start, with `CODE` at 4 and eight digits from 10 |
| Extraction.SamplePlainHsn | parser.py:64-68 | on the example `HSN: 1234` the reported HSN is `1234` |
| Extraction.SamplePlainHsnMatch | parser.py:65 | on that text the `CODE` alternative fails, and the plain one takes four digits from 5 |
| Extraction.LongHsnCodeTruncated | parser.py:65-68 | on `HSN Code: 1234567890` the reported HSN is `12345678`, the first eight digits |
| Extraction.LongHsnCodeMatch | parser.py:65 | on that text the `CODE` alternative matches at the start, with `CODE` at 4 and eight digits taken from 10 |
| Assembly.Tagged | parser.py:122-123 | an identifier is tagged with confidence 100.0 exactly when it was found and is not empty, and then carries the found text; otherwise it is `(None, 0.0)` |
| Assembly.ItemOf | parser.py:115-117 | a missing or falsy `Description` or `TotalPrice` gives `(None, 0.0)`; a description field with a `value` carries that value, and a monetary total price carries its amount |
| Assembly.ItemsOf | parser.py:114-117 | one line item per source item, at the same position |
| Assembly.LineItems | parser.py:112-117 | no `fields` raises `AttributeError`; a missing or falsy `Items` gives no items; a truthy `Items` without `value` raises `AttributeError`; a truthy non-list value raises `AttributeError` when it is a string or dict and `TypeError` otherwise; for a list it succeeds exactly when every item has a `value`, with one line item per item |
| Assembly.Analysis | parser.py:93-126 | an error only comes from reading the first document's line items; on success with a document, the items are that document's line items and all five other members are set |
| Assembly.AnalyzeReceipt | parser.py:93-126 | the loop-built record equals `Analysis(ocr)`, and it is the empty record when there are no documents |
| Assembly.NoDocumentsGivesEmptyRecord | parser.py:93-103 | no documents: merchant name, date, total, GSTIN and HSN are None, and there are no items |
| Assembly.OnlyFirstDocumentUsed | parser.py:103-104 | documents after the first never change the outcome |
| Assembly.ErrorsOnlyFromLineItems | parser.py:112-117 | the outcome is an error exactly when reading the first document's line items raises |
| Assembly.StandardFieldsOfFirstDocument | parser.py:107-109 | merchant name, date and total are the accessor's pairs on the first document, with the total read as an amount |
| Assembly.ItemsFollowSourceOrder | parser.py:112-117 | one line item per source item, in source order, with its description and its total price read as an amount |
| Assembly.IdentifiersTagged | parser.py:119-123 | GSTIN and HSN are the texts `extract_custom_fields` returns on the content, tagged; they have confidence 100.0 exactly when their pattern matches the text, and are `(None, 0.0)` otherwise; a GSTIN starts with its label and an HSN is 4 to 8 digits |
| Assembly.SdkShapedResultSucceeds | parser.py:103-123 | the assembly succeeds exactly when there are no documents or the first has the shape the SDK produces (`fields`, items absent, falsy, or a list of objects with `value`) |

## Left out

- `initialize_client` (parser.py:8-20): it loads environment variables and builds the SDK client. That is configuration I/O and foreign code.
- The service call, the file opening and the `print`s in `analyze_receipt` (parser.py:78-90, 125): these are network and I/O. Their result is the `OcrResult` input.
- The `__main__` block (parser.py:130-152) only checks that a file exists and prints JSON. `check_setup.py` only prints whether two variables are set. `app.py` only renders a page. All three are I/O.
- FieldAccess.ConfidenceOfPresentField: it states the confidence as exactly `c * 100`. It leaves out `round(…, 2)`, because that is floating-point rounding.
- FieldAccess.GetFieldValue: a `confidence` attribute is always a number here. A `confidence` of None would make Python raise `TypeError` at line 43, and the model does not cover that. Likewise an object's `fields` attribute is always a mapping here.
- Python's truthiness of SDK objects is taken to be "always true", since they define neither `__bool__` nor `__len__`. Dates and other objects without the attributes read here are `Obj` values with every attribute absent.
- Iterating items: a non-empty `str` or `dict` fails on its first element with `AttributeError`. Any other non-list value is treated as not iterable (`TypeError`).
- Regex semantics: only ASCII is modelled. `\s` is space, tab, newline, carriage return, form feed, vertical tab and the separators `\x1c` to `\x1f`. `\d` is `0`–`9`, and `\b` is decided against `[A-Za-z0-9_]`. IGNORECASE is ASCII case folding. Non-ASCII whitespace (such as `\x85` or the no-break space `\xa0`), Unicode digits and non-ASCII case equivalents (such as the long s or the Kelvin sign) are not modelled.
- Sanitising the GSTIN, the `2`→`Z` correction, the structural GSTIN pattern, the address fallback, currency resolution, weighted confidence, categorisation and approval status do not exist in this code, so they are not modelled.
