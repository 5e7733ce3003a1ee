# IP lookup tool: network-type classifier and result table

This project models the two pieces of logic in the IP lookup tool's window class
(`IPQueryTool` in `src/main.py`) that decide what the user sees after a lookup:

- **the network-type classifier** (`classify_ip`). It lower-cases the `isp`,
  `organization` and `asn_organization` values of the lookup record; a missing or
  empty value counts as `""`. It joins them with single spaces and searches the joined
  text for keywords from four fixed lists. The lists are tried in a fixed order (cloud,
  mobile, educational, residential); the first list with a match decides the label, and
  with no match the label is "unknown".
- **the result display** (`display_results`). An empty record gives a "no data"
  notice. Any other record gives a titled table: one row per known field that the
  record holds, in the declared field order, then one row with the network type. The
  map pane is centred on the record's point when both `latitude` and `longitude` are
  present, and shows a "no map data" notice otherwise.

Modules, one per concern:

- `text.dfy`, module `AsciiText`: ASCII lower-casing (`str.lower()` on ASCII
  letters) and Python's substring test `k in text` (`Contains`). It also proves that a
  keyword with no space cannot straddle the space that joins two fields.
- `classifier.dfy`, module `Classifier`: the record type (`GeoRecord`, a
  `map<string, string>`) and the five network types with their display labels. It holds
  the four keyword lists exactly as in the source, the search text, `Classify`, and the
  lemmas about priority, fallback, case and empty fields.
- `formatter.dfy`, module `Formatter`: the 15-entry field list and abstract rows
  (heading, cell). It gives the specification functions for the table (`ResultRows`, `Shown`) and
  the map pane (`MapFor`), and the loop `SelectRows` that walks the field list as the
  source does (`BuildRows` adds the classification row after it). `ResultWindow` is a class whose two fields stand for the result pane and
  the map pane; its `DisplayResults` updates them.

A cell is `Text(v)` for a value shown as it came, or `SixDecimals(v)` for latitude and
longitude, which the source prints with `:.6f`. The map pane is `CentredOn(lat, lon)`.
The source draws a box spanning ±0.05 degrees of latitude and longitude around that point,
with a marker on it.

Details of the code that the model keeps as written:

- The residential list also holds `"telecomunicaciones"`.
- `"移动"` (the Chinese name of a mobile carrier) is in the residential list, not the
  mobile list. So a text whose only keyword is `"移动"` is labelled residential.
- An empty record returns before the map pane is touched, so the map pane keeps
  whatever the previous lookup left there (`DisplayResults`).
- A record that holds only keys outside the field list is not empty. It gives a table
  whose only row is the classification row, and that row says "unknown"
  (`OnlyUnknownKeys`).

## Model

| member | source | states |
|---|---|---|
| `AsciiText.Lower` | src/main.py:207-209 | lower-casing keeps the length and maps every character through the ASCII lower-case mapping |
| `AsciiText.LowerIdempotent` | src/main.py:207-209 | lower-casing an already lower-cased string changes nothing |
| `AsciiText.LowerDecidesCase` | src/main.py:207-209 | two strings lower-case to the same text exactly when they differ only in ASCII case |
| `AsciiText.Contains` | src/main.py:221 | Python's `k in text`: `k` occurs as a contiguous block of `text`. It is a predicate with no contract of its own; `ContainsAcrossSeparator` and `NotContainedInSeparators` state its properties |
| `AsciiText.ContainsAcrossSeparator` | src/main.py:211 | a keyword without the separator occurs in `a + sep + b` exactly when it occurs in `a` or in `b` |
| `AsciiText.NotContainedInSeparators` | src/main.py:211 | a non-empty keyword without spaces never occurs in a text made only of spaces |
| `Classifier.Label` | src/main.py:221-230 | the five return strings. No contract of its own; `LabelInjective` states that they are pairwise distinct |
| `Classifier.LabelInjective` | src/main.py:221-230 | the five labels are pairwise distinct, so the label names exactly one network type |
| `Classifier.FieldText` | src/main.py:207-209 | `data.get(key) or ""`: the text is empty exactly when the key is missing or its value is empty, and is the value otherwise |
| `Classifier.SearchText` | src/main.py:211 | the three lower-cased fields joined by single spaces. No contract of its own; `MatchesAnyFieldwise` states that a keyword list matches it exactly when it matches one field alone |
| `Classifier.MatchesAny` | src/main.py:221-228 | `any(k in text for k in keywords)`, a predicate with no contract of its own. `ClassifyIsFirstMatch` and `MatchesAnyFieldwise` state its role |
| `Classifier.Classify` | src/main.py:206-230 | the result is Unknown, or its own keyword list matches the search text. The full priority chain is stated by `ClassifyIsFirstMatch` and `UnknownIffNoKeyword` |
| `Classifier.ClassifyIsFirstMatch` | src/main.py:221-230 | the result is `t` exactly when `t`'s list matches (or `t` is Unknown) and no list of higher priority matches; so every result is one of the five types |
| `Classifier.CloudWins` | src/main.py:221-222 | any cloud keyword in the text gives the data-centre label, whatever else matches |
| `Classifier.MobileOnlyWithoutCloud` | src/main.py:223-224 | mobile exactly when no cloud keyword and some mobile keyword occurs |
| `Classifier.EducationalBeatsResidential` | src/main.py:225-228 | with no cloud or mobile keyword, an educational keyword gives educational even when a residential keyword occurs too |
| `Classifier.ResidentialOnlyAsLastList` | src/main.py:227-228 | residential only when cloud, mobile and educational all fail and a residential keyword occurs |
| `Classifier.UnknownIffNoKeyword` | src/main.py:229-230 | unknown exactly when no keyword of any of the four lists occurs |
| `Classifier.KeywordsWellFormed` | src/main.py:214-219 | every keyword of every list is non-empty, holds no space and no upper-case ASCII letter |
| `Classifier.KeywordIsLowerCase` | src/main.py:214-219 | such a keyword equals its own lower-case form |
| `Classifier.KeywordFoundInAnyCase` | src/main.py:207-221 | such a keyword occurs in a lower-cased field exactly when the field holds it in some mix of ASCII case |
| `Classifier.MatchesAnyFieldwise` | src/main.py:207-211 | a space-free keyword list matches the joined text exactly when it matches one of the three lower-cased fields alone |
| `Classifier.ClassifyDependsOnValuesOnly` | src/main.py:207-211 | records whose three fields hold the same values, in any arrangement, get the same label |
| `Classifier.SameValuesSameMatch` | src/main.py:207-211 | two value lists that are permutations of each other match a keyword list alike |
| `Classifier.ClassifyIgnoresCase` | src/main.py:207-209 | records whose three fields agree up to ASCII case get the same label |
| `Classifier.EmptyFieldIsAbsent` | src/main.py:207-209 | setting any key to `""` and removing it give the same label |
| `Classifier.NoClassifiedFieldsIsUnknown` | src/main.py:207-230 | with all three fields missing or empty the label is unknown |
| `Classifier.AmazonIsDataCenter` | src/main.py:214-222 | an ISP named "Amazon" is classified as data centre |
| `Formatter.FieldRow` | src/main.py:258-266 | a field's row carries the field's heading and the value unchanged; the cell is the six-decimal kind exactly for latitude and longitude |
| `Formatter.ClassificationRow` | src/main.py:267-273 | the "IP类型" row holding the classifier's label. No contract of its own; `TableRowsShape` and `ResultRowsShape` state that it is the last row and the only one with that heading |
| `Formatter.PresentFields` | src/main.py:256-257 | a field is selected exactly when it is in the list and its key is in the record |
| `Formatter.DisplayFieldsDistinct` | src/main.py:239-255 | the fifteen declared keys are pairwise distinct |
| `Formatter.TypeHeadingIsNoFieldHeading` | src/main.py:239-273 | no field heading equals the classification row's heading |
| `Formatter.PresentFieldsInOrder` | src/main.py:256-257 | the selected fields keep the list order: the j-th is the idx[j]-th field and idx strictly increases |
| `Formatter.PresentFieldsCount` | src/main.py:256-257 | with distinct keys, the number of selected fields is the number of keys both the list and the record hold |
| `Formatter.PresentFieldsIgnoreOtherKeys` | src/main.py:256-257 | adding a key the list does not name leaves the selection unchanged |
| `Formatter.PresentFieldsNoneKnown` | src/main.py:256-257 | a record holding none of the list's keys selects no field |
| `Formatter.TableRows` | src/main.py:256-273 | the field rows of a field list followed by the classification row. No contract of its own; `TableRowsShape` and `TableRowsIgnoreOtherKeys` state its properties |
| `Formatter.TableRowsShape` | src/main.py:256-273 | for a field list with distinct keys and no field heading equal to the classification heading: rows = selected keys + 1, the last row is the classification, no earlier row has its heading, each present field has its row |
| `Formatter.ResultRows` | src/main.py:239-273 | the table rows for the fifteen declared fields. No contract of its own; `ResultRowsShape`, `ResultRowsInDeclaredOrder` and `BuildRows` state its properties |
| `Formatter.ResultRowsShape` | src/main.py:239-273 | the table has one row per known key present plus exactly one classification row (the last), and each present known key's row carries the record's value |
| `Formatter.ResultRowsInDeclaredOrder` | src/main.py:239-266 | each field row is the row of a declared field present in the record, the rows follow the declared order, and every declared field present in the record has its row |
| `Formatter.EveryPresentFieldIndexed` | src/main.py:256-257 | with distinct keys, every field whose key the record holds is among the selected fields' indices |
| `Formatter.ReadKeysAreKnown` | src/main.py:239-255 | the keys read by the classifier and by the map branch are all in the field list |
| `Formatter.TableRowsIgnoreOtherKeys` | src/main.py:256-273 | a key outside the list and the classifier's fields does not change the rows |
| `Formatter.UnknownKeysIgnored` | src/main.py:256-285 | a key outside the field list changes neither the rows nor the map pane |
| `Formatter.OnlyUnknownKeys` | src/main.py:233-273 | a non-empty record with only unknown keys shows a table whose single row is the unknown classification |
| `Formatter.RowsForAppend` | src/main.py:256-266 | appending a present field appends exactly its row |
| `Formatter.SelectRows` | src/main.py:256-266 | the `for key, label in fields` loop yields exactly one row per field whose key the record holds, in list order |
| `Formatter.BuildRows` | src/main.py:256-273 | the field rows followed by the classification row are exactly `ResultRows` |
| `Formatter.Shown` | src/main.py:233-276 | the result pane is the "no data" notice exactly for the empty record, and otherwise the titled table of `ResultRows` |
| `Formatter.MapFor` | src/main.py:279-285 | the map is centred exactly when latitude and longitude are both present, on those two values; otherwise it shows the "no map data" notice |
| `Formatter.ResultWindow.constructor` | src/main.py:125-141 | a new window shows an empty result pane and an empty map pane |
| `Formatter.ResultWindow.DisplayResults` | src/main.py:232-285 | empty record: "no data" notice, map pane untouched; otherwise the table of `Shown`, and the map is centred exactly when latitude and longitude are both present, else "no map data" |

## Left out

- The lookups `query_own_ip` and `query_ip` (src/main.py:177-205) are not modelled. They are HTTP requests, JSON decoding and the error message shown on failure: network I/O through an external library. The endpoint choice (an empty trimmed input asks for the caller's own address) is not modelled either.
- Values are modelled as strings. The service returns numbers for some keys and may return `null`. The model does not capture `None or ""`, `.lower()` failing on a number, or `:.6f` failing on a non-number.
- The `:.6f` rendering of latitude and longitude is not modelled: `SixDecimals(v)` only marks which branch is taken. The ±0.05-degree box and the map URL text are not modelled either: `CentredOn(lat, lon)` only records the point.
- HTML and CSS markup of the title and rows is not modelled; a row is a (heading, cell) pair and the table keeps the title as a string.
- Lower-casing covers ASCII letters only. Python's `str.lower()` also lowers other letters (for example `É`), and the model does not.
- The Qt code is not modelled: window layout, stylesheet, icon painting, clipboard copy, the About dialog, status-bar messages and the `processEvents` yield. It is user-interface plumbing with no logic of its own.
