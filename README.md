# Ghana phone-number validator: a Dafny model

This project models the core of a small desktop tool (`phonevalidator.py`)
that validates Ghanaian mobile numbers. The tool has four parts, and each is
modelled here:

- **Classifier** (`is_valid_ghana_number`). It removes spaces and hyphens from
  the input. It then accepts only two shapes: `+233` followed by nine digits,
  or `0` followed by nine digits. It looks up the first three characters of the
  nine-digit *suffix* in a fixed carrier table. It returns the 4-tuple
  `(valid, message, formatted, carrier)`.
- **Format conversion** (`convert_format`). It swaps a leading `0` for `+233`
  or the other way round. It checks only the shape and the length.
- **Session bookkeeping** (`validated_numbers` and `summary_stats`). This state
  is updated by single validation and by batch validation over file rows.
- **Statistics text** (`update_stats`) and **export rows**
  (`export_validated`).

There are two modules:

- `GhanaNumbers` (`ghana_numbers.dfy`) holds the pure classifier and the
  conversion, as functions with lemmas.
- `ValidatorSession` (`session.dfy`) holds the mutable session as a class
  `Session`. Its fields are `total`, `valid`, `invalid`, `networks` (a `map`
  plus `carrierOrder`, which records the dictionary's insertion order) and
  `registry`. The class has methods for validating, batch validating,
  reporting and exporting.

The object invariant `Session.Valid()` says that the counters follow from the
registry:

- `total == valid + invalid` and `valid == |registry|`;
- `networks` is the tally of the registry's carriers;
- `carrierOrder` lists those carriers in order of first appearance.

The constructor establishes it (the zero state at process start), and every
method keeps it.

**Lookup key: this model follows the code.** The lookup key is the first three
characters *after* the leading `0` or `+233` (lines 11-12 and 15-16). Every
table key starts with `0`, so the code rejects the everyday form
`0244123456` as "Invalid prefix", although Ghanaian mobile numbers are
normally written `024 XXX XXXX`. It accepts `0024123456` and `+233024123456`
as MTN. This model follows the code as written.
`ExampleAccepted`, `ExampleRejectedPrefix` and `ClassifyShaped` state the
behaviour exactly.

Batch validation increments `total` after the other counters (line 96), while
single validation increments it first (line 51). The end state is the same,
and the model states only the end state.

Python's regular expressions are written out as shape predicates. `\d` is
taken as an ASCII digit `'0'..'9'`, and `$` as the end of the string.

## Model

| member | source | states |
|---|---|---|
| `GhanaNumbers.RemoveAll` | phonevalidator.py:9 | `str.replace(ch, "")` leaves no `ch`, keeps every other character, never lengthens the string, and changes nothing when `ch` is absent |
| `GhanaNumbers.Clean` | phonevalidator.py:9 | the cleaned number has no spaces or hyphens, keeps exactly the other characters of the input, and is the input itself when that has neither |
| `GhanaNumbers.RemoveAllAppend` | phonevalidator.py:9 | removing a character distributes over concatenation |
| `GhanaNumbers.CleanAppend` | phonevalidator.py:9 | cleaning distributes over concatenation, so it works character by character |
| `GhanaNumbers.CleanChar` | phonevalidator.py:9 | a single character is dropped exactly when it is a space or a hyphen; nothing else is stripped |
| `GhanaNumbers.MatchShape` | phonevalidator.py:10-17 | the international case holds exactly for `+233` plus 9 digits, the local case exactly for `0` plus 9 digits, and the suffix is the 9 digits after the `+233` or the `0` |
| `GhanaNumbers.CarrierKeysStartWithZero` | phonevalidator.py:21-27 | every key of the carrier table is three digits and begins with `'0'` |
| `GhanaNumbers.Classify` | phonevalidator.py:8-31 | a result is valid exactly when it names a carrier; a valid message is `"Valid (" + carrier + ")"`; an invalid result echoes the cleaned input and says "Invalid format" or "Invalid prefix" |
| `GhanaNumbers.FormatErrorExactly` | phonevalidator.py:9-19 | a cleaned input of neither shape gives `(false, "Invalid format", cleaned, None)`, and that verdict arises in no other way |
| `GhanaNumbers.ClassifyShaped` | phonevalidator.py:10-31 | a well-shaped input is accepted exactly when the suffix's first three characters are a table key; then the suffix starts with `'0'`, the carrier is the table value and `formatted` is the other shape with the same suffix; otherwise it is `(false, "Invalid prefix", cleaned, None)` |
| `GhanaNumbers.ShapeSymmetry` | phonevalidator.py:10-17 | `"0"+d` and `"+233"+d` classify with the same validity and carrier, each formatted as the other |
| `GhanaNumbers.ReclassifyFormatted` | phonevalidator.py:10-30 | re-classifying the formatted output of an accepted number accepts it with the same carrier and formats it back to the cleaned input |
| `GhanaNumbers.FormattedIsConversion` | phonevalidator.py:66-71 | for an accepted number, `formatted` is exactly what the conversion makes of the same input |
| `GhanaNumbers.Convert` | phonevalidator.py:66-74 | a conversion exists exactly for a cleaned string of length 10 starting with `0`, or of length 13 starting with `+233` |
| `GhanaNumbers.ConvertSwapsPrefix` | phonevalidator.py:68-71 | a conversion replaces the leading `0` with `+233` or the reverse, and keeps the rest unchanged |
| `GhanaNumbers.ConvertRoundTrip` | phonevalidator.py:68-71 | converting a converted number gives back the cleaned input |
| `GhanaNumbers.ConvertIgnoresDigits` | phonevalidator.py:68-69 | `"0"` followed by any nine non-space, non-hyphen characters is converted; digits are not checked |
| `GhanaNumbers.ConvertIgnoresCarrier` | phonevalidator.py:66-74 | a well-shaped number with an unknown prefix is converted, although the classifier rejects it as "Invalid prefix" |
| `GhanaNumbers.ExampleAccepted` | phonevalidator.py:14-30 | `0024123456` is valid MTN, formatted `+233024123456` |
| `GhanaNumbers.ExampleRejectedPrefix` | phonevalidator.py:14-31 | `0244123456` is an "Invalid prefix", echoed unchanged |
| `GhanaNumbers.ExampleBadFormat` | phonevalidator.py:9-19 | `12345` is an "Invalid format", echoed unchanged |
| `ValidatorSession.FirstAppearanceCarriers` | phonevalidator.py:53 | the carrier order lists each registry carrier exactly once, and its entries are exactly the keys of the `networks` counter |
| `ValidatorSession.TallyCounts` | phonevalidator.py:53 | each carrier's count in `networks` is the number of registry entries naming that carrier |
| `ValidatorSession.Extend` | phonevalidator.py:53 | recording one accepted number is one `get(c, 0) + 1` increment, and the carrier is appended to the key order only when it is new |
| `ValidatorSession.TallySum` | phonevalidator.py:49-56 | the counts in `networks`, summed over the carrier order, equal the number of registry entries |
| `ValidatorSession.BatchInputs` | phonevalidator.py:85-88 | a batch classifies at most one number per row |
| `ValidatorSession.AcceptedEntries` | phonevalidator.py:89-91 | a batch adds at most one registry entry per classified number |
| `ValidatorSession.BatchInputsAppend` | phonevalidator.py:85-88 | the inputs of two batches in sequence are the first batch's inputs followed by the second's |
| `ValidatorSession.AcceptedEntriesAppend` | phonevalidator.py:85-96 | the registry entries of two batches in sequence are the first batch's entries followed by the second's |
| `ValidatorSession.AcceptedEntriesReclassify` | phonevalidator.py:89-91 | every registry entry a batch adds is accepted again by the classifier with the same carrier |
| `ValidatorSession.Decimal` | phonevalidator.py:61 | a count is printed as a non-empty string of digits |
| `ValidatorSession.DecimalRoundTrip` | phonevalidator.py:61 | reading the printed digits back gives the count |
| `ValidatorSession.Session.constructor` | phonevalidator.py:39-40 | a session starts with zero counters, no carriers and an empty registry |
| `ValidatorSession.Session.Validate` | phonevalidator.py:43-56 | returns the classification; `total` grows by one and exactly one of `valid`/`invalid` grows by one; an accepted number's `(formatted, carrier)` is appended to the registry, its carrier's count in `networks` grows by one (`get(c, 0) + 1`) and a new carrier is appended to the key order; a rejected number leaves `networks` and the key order alone; the invariant is kept |
| `ValidatorSession.Session.ValidateBatch` | phonevalidator.py:78-96 | every non-empty row's first field is classified in row order; `total` grows by the number of such rows; the registry grows by the accepted entries in order; `valid` and `invalid` grow by the accepted and rejected counts; empty rows change nothing |
| `ValidatorSession.Session.ValidateRow` | phonevalidator.py:85-96 | one row of the batch: an empty row changes nothing, and any other row is recorded like a single validation of its first field |
| `ValidatorSession.Session.Report` | phonevalidator.py:60-63 | the text is the header line with total, valid and invalid, then one line per carrier in insertion order with its count |
| `ValidatorSession.Session.Export` | phonevalidator.py:101-112 | the export is refused exactly when the registry is empty; otherwise it is the header `["Phone Number", "Network"]` followed by one `[number, carrier]` row per registry entry, in insertion order |
| `ValidatorSession.ReportCountsEntries` | phonevalidator.py:60-63 | in a valid session the report has one line per distinct registry carrier, in first-appearance order, each showing how many registry entries name that carrier |
| `ValidatorSession.CountersAgree` | phonevalidator.py:39-56 | in a valid session `total == valid + invalid`, and the summed carrier counts equal `valid`, which equals the registry length |

## Left out

- Widgets, labels, `cherri_msg` and message boxes (lines 34-37, 46-47, 73, 99, 103, 113 and 115-141) are presentation only. What they display is returned instead: the verdict, the report text, `None` for a refused conversion or export.
- The entry-field update in `convert_format` (lines 75-76) is modelled as the returned string.
- File dialogs, `open`, `csv.reader` and `csv.writer` (lines 79-84 and 105-109) are I/O and library CSV parsing and quoting. Batch input is a sequence of already-parsed rows, and export returns the rows it would write. A cancelled dialog and read or write failures are not modelled.
- Python `re` quirks are not modelled: `\d` matching non-ASCII Unicode digits, and `$` accepting a trailing newline.
- `ValidatorSession.Session.Report`: uses the plain ASCII labels `Total:`, `Valid:` and `Invalid:` instead of the source's emoji. The structure, counts and carrier order are as in the source.
- `ValidatorSession.Session.Validate`: the `update_stats()` call at the end of `validate_number` is modelled as a separate call to `Report`. The same holds for the call at the end of `validate_from_file`.
- The methods require `Valid()`. A `Session` is only ever reached from the zero state through these methods, so the invariant always holds in the source's single global session.
