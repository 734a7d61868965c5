# Auto-Payload-Positioner — a Dafny model of the position engine

Auto-Payload-Positioner is a Burp Suite extension. It takes an HTTP request
and marks the spans that Burp Intruder should treat as payload positions:

- the method;
- the URL path, either in full or only its last segment;
- the parameter values;
- the header values, with each cookie value and the credential after an
  `Authorization` scheme marked on its own;
- the values inside the body, whether JSON (including JSON embedded in JSON
  string values), XML, or an unstructured mix.

Intruder needs a non-empty span to insert into. So an empty value (`a=&b=`,
`{"x":""}`) first receives the 13-character placeholder `__DELETE_ME__`.
Every span found on the original text is then shifted past those
insertions. The last step sorts the spans, drops the ill-formed ones and
resolves overlaps, so the template only ever holds in-bounds, non-empty,
sorted and disjoint ranges.

This project models that engine, one Dafny module per source file:

| module | file |
|---|---|
| `RangeUtils` | `util/RangeUtils.java` |
| `ModeRules` | `core/ModeRules.java` |
| `PayloadPositionMode` | `core/PayloadPositionMode.java` |
| `MethodPositioner` | `core/positioners/MethodPositioner.java` |
| `UrlPositioner` | `core/positioners/UrlPositioner.java` |
| `ParamPositioner` | `core/positioners/ParamPositioner.java` |
| `HeaderPositioner` | `core/positioners/HeaderPositioner.java` |
| `ContentTypeUtils` | `util/ContentTypeUtils.java` |
| `PlaceholderApplier` | `placeholder/PlaceholderApplier.java` |
| `JsonTokenUtils`, with `JsonUnescape` holding the shared unescaping rules | `body/json/JsonTokenUtils.java` |
| `JsonBodyProcessor` | `body/json/JsonBodyProcessor.java` |
| `XmlBodyProcessor` | `body/xml/XmlBodyProcessor.java` |
| `MixedBodyProcessor` | `body/mixed/MixedBodyProcessor.java` |
| `BodyPositioner` | `body/BodyPositioner.java` |
| `PositionFinder` | `core/PositionFinder.java` |
| `RequestProcessor` | `burp/RequestProcessor.java` |

Supporting modules:

- `Ranges`: Burp's `Range`, the `InsertionOp` record, and the
  `RangeList` class that stands for the `List<Range>` the positioners append
  to.
- `Text`: the Java `String` operations the code relies on, such as
  `indexOf`, `lastIndexOf`, `trim`, `split`, `toLowerCase` and
  `equalsIgnoreCase`.
- `Http`: the request as Burp hands it over.
- `JsonParser`: the Jackson token stream.
- `RegexOracles`: the matches that the XML and mixed-body regular
  expressions report.
- `Wrappers`: `Option`.
- `SeqLemmas`: identities about concatenating and slicing sequences that
  several proofs use.

The source appends to a mutable `List<Range>`, and each such method is
imperative Dafny over a `RangeList`:

- its contract says the new list is the old one followed by the ranges of a
  specification function;
- the properties are proved as lemmas about that function.

The `TreeMap` of planned insertions is the `InsertionPlan` class. It keeps a
strictly ascending list of `InsertionOp` and offers `PutIfAbsent`. The loops
of the source (`validatePositions`, `shiftBoundary`, the placeholder splice,
the key=value scan, the unescaper with its offset arrays, the quote search)
are `while` loops with invariants.

Jackson and the regular expressions are parameters:

- `JsonLibrary` gives the token list of a text and Jackson's string escaper.
- `XmlMatchers` and `MixedMatchers` give the matches of each pattern.

Predicates in `RegexOracles` constrain what a match may be. Examples: a
paired tag's content lies between its `>` and `</`; an attribute value lies
between matching quotes; matches come in ascending order. The mixed body's
`([\w\-]+)=([^&\s]+)` pattern is simple enough that it is written out in
Dafny rather than taken from an oracle.

A few behaviours of the source are easy to miss, and the model keeps them:

- Only the first occurrence of a method, path or header line is used.
- A cookie value's range starts right after `=` and has the length of the
  trimmed value, so a value with leading blanks is marked shifted
  (`HeaderPositioner.CookiePairText`). Every pair of a located cookie header
  whose `=` is neither first nor last gets exactly one range, in order
  (`HeaderPositioner.CookieHeaderRanges`).
- In the key=value scan for empty values, a non-empty value is skipped up to
  `&`, `;`, CR or LF but not up to a space. So `a=x y=&c=` plans only the
  offset after `c=` (`PlaceholderApplier.SpaceInsideValue`).
- `shiftBoundary` stops at the first insertion past the boundary. On an
  unsorted list this undercounts (`RangeUtils.UnsortedInsertionsStopEarly`).
  The placeholder plan is always ascending, and there the shift is exactly
  the inserted length at or before the boundary
  (`RangeUtils.ShiftDeltaAscending`).
- Embedded JSON is unwrapped one level deep. Inside an embedded document,
  string values are mapped back as plain ranges, and
  `addEmbeddedStringValue` never looks for a further embedded document
  (`body/json/JsonBodyProcessor.java:121-155`).
- `null` values get no range. Only numbers, `true`, `false` and strings
  are emitted (`body/json/JsonBodyProcessor.java:41-51`).
- Field names can produce ranges. A field name whose text is embedded
  JSON contributes the embedded document's ranges. Only its own whole-name
  range is suppressed (`body/json/JsonBodyProcessor.java:41-43, 99-102`).
- The cookie test is partly case-sensitive. `equalsIgnoreCase("Cookie")`
  ignores case, but `contains("cookie")` does not, so a header named
  `X-Cookie` is not split into pairs while `x-cookie` is
  (`core/positioners/HeaderPositioner.java:22`).

## Model

All source paths are under `src/main/java/com/netsquare/autopayloadpositioner/`
in the repository. They are written out in full in the table.

| member | source | states |
|---|---|---|
| RangeUtils.SortByKeyCorrect | src/main/java/com/netsquare/autopayloadpositioner/util/RangeUtils.java:19-21 | sorting by (start, length) yields a permutation of the input that is ordered by that key |
| RangeUtils.SortByKeyOfSorted | src/main/java/com/netsquare/autopayloadpositioner/util/RangeUtils.java:19-21 | sorting a list already ordered by the key leaves it unchanged |
| RangeUtils.SortedPermutationUnique | src/main/java/com/netsquare/autopayloadpositioner/util/RangeUtils.java:19-21 | two key-ordered permutations of the same ranges are equal, so the sort's outcome does not depend on how it is done |
| RangeUtils.ValidateShape | src/main/java/com/netsquare/autopayloadpositioner/util/RangeUtils.java:14-57 | every kept range is non-empty, lies within [0, maxLength), and the kept list is sorted with no two ranges overlapping |
| RangeUtils.ValidateSubset | src/main/java/com/netsquare/autopayloadpositioner/util/RangeUtils.java:23-54 | validation only keeps input ranges and never invents one |
| RangeUtils.ValidateIdempotent | src/main/java/com/netsquare/autopayloadpositioner/util/RangeUtils.java:14-57 | validating an already validated list returns it unchanged |
| RangeUtils.ValidateCovers | src/main/java/com/netsquare/autopayloadpositioner/util/RangeUtils.java:32-53 | every well-formed in-bounds input range either survives or overlaps a range that survives |
| RangeUtils.PrefersContainedRange | src/main/java/com/netsquare/autopayloadpositioner/util/RangeUtils.java:45-53 | of [10,20) and the contained [12,15), only the inner range is kept, whichever order they come in |
| RangeUtils.ValidatePositions | src/main/java/com/netsquare/autopayloadpositioner/util/RangeUtils.java:14-57 | an empty list is returned as is; otherwise the argument list is sorted in place and a fresh list holding the validated ranges is returned |
| RangeUtils.ShiftDeltaAscending | src/main/java/com/netsquare/autopayloadpositioner/util/RangeUtils.java:71-81 | for insertions in ascending index order the shift equals the total length inserted at or before the boundary |
| RangeUtils.UnsortedInsertionsStopEarly | src/main/java/com/netsquare/autopayloadpositioner/util/RangeUtils.java:73-78 | the early break makes an unsorted insertion list shift by less than it inserted before the boundary |
| RangeUtils.ShiftDeltaMonotone | src/main/java/com/netsquare/autopayloadpositioner/util/RangeUtils.java:71-81 | the shift is never negative and never decreases as the boundary grows |
| RangeUtils.ShiftedBoundaryMonotone | src/main/java/com/netsquare/autopayloadpositioner/util/RangeUtils.java:71-81 | shifting preserves the strict order of boundaries and never moves a boundary left |
| RangeUtils.ShiftBoundary | src/main/java/com/netsquare/autopayloadpositioner/util/RangeUtils.java:71-81 | the loop returns the boundary plus the shift, which is at least the boundary and, for ascending insertions, the boundary plus the length inserted at or before it |
| RangeUtils.ShiftAllShape | src/main/java/com/netsquare/autopayloadpositioner/util/RangeUtils.java:59-69 | shifting keeps the number of ranges, is the identity without insertions, keeps non-empty ranges non-empty and keeps a sorted disjoint list sorted and disjoint |
| RangeUtils.ShiftRangesForInsertions | src/main/java/com/netsquare/autopayloadpositioner/util/RangeUtils.java:59-69 | returns a fresh list holding each range with both ends shifted |
| ModeRules.MethodModes | src/main/java/com/netsquare/autopayloadpositioner/core/ModeRules.java:7-13 | the method is included exactly in the five Everything and Method modes |
| ModeRules.FullPathModes | src/main/java/com/netsquare/autopayloadpositioner/core/ModeRules.java:15-25 | the full path is used exactly in the four full-path modes, each of which includes the URL path |
| ModeRules.ParametersAndBodyAgree | src/main/java/com/netsquare/autopayloadpositioner/core/ModeRules.java:27-43 | parameters and body are included in the same modes: exactly the Default and Everything families |
| ModeRules.HeadersAlways | src/main/java/com/netsquare/autopayloadpositioner/core/ModeRules.java:45-51 | every mode includes headers |
| ModeRules.DefaultVersusEverything | src/main/java/com/netsquare/autopayloadpositioner/core/ModeRules.java:7-51 | Everything differs from Default only by the method, and Everything + Full Path differs from Default + Full Path only by the method |
| PayloadPositionMode.AllModesComplete | src/main/java/com/netsquare/autopayloadpositioner/core/PayloadPositionMode.java:3-13 | the enumeration lists ten distinct modes and every mode is among them |
| PayloadPositionMode.DisplayNamesDistinct | src/main/java/com/netsquare/autopayloadpositioner/core/PayloadPositionMode.java:4-24 | distinct modes show distinct menu labels |
| PayloadPositionMode.NamesDistinct | src/main/java/com/netsquare/autopayloadpositioner/core/PayloadPositionMode.java:4-13 | distinct modes have distinct constant names |
| PayloadPositionMode.HeadersPrefixExactly | src/main/java/com/netsquare/autopayloadpositioner/core/PayloadPositionMode.java:8-13 | exactly the six header modes have a name starting with HEADERS |
| MethodPositioner.MethodRangesSpec | src/main/java/com/netsquare/autopayloadpositioner/core/positioners/MethodPositioner.java:9-15 | no range when the method text does not occur; otherwise one range over its first occurrence, whose text is the method |
| MethodPositioner.Add | src/main/java/com/netsquare/autopayloadpositioner/core/positioners/MethodPositioner.java:9-15 | appends exactly the method ranges to the list |
| UrlPositioner.UrlRanges | src/main/java/com/netsquare/autopayloadpositioner/core/positioners/UrlPositioner.java:9-37 | at most one range, and in last-segment mode never an empty one |
| UrlPositioner.UrlRangesWithinPath | src/main/java/com/netsquare/autopayloadpositioner/core/positioners/UrlPositioner.java:9-17 | no range when the path does not occur; in full-path mode the range is the path's first occurrence; any range lies inside that occurrence and its text is the corresponding slice of the path |
| UrlPositioner.SegmentOfShape | src/main/java/com/netsquare/autopayloadpositioner/core/positioners/UrlPositioner.java:19-35 | the computed segment is non-empty exactly when the path has a non-empty last segment, and it is then that segment, after the last slash and before a trailing one |
| UrlPositioner.LastSegment | src/main/java/com/netsquare/autopayloadpositioner/core/positioners/UrlPositioner.java:19-35 | when the path occurs, last-segment mode gives no range exactly when the path's last segment is empty, and otherwise a range over that last segment inside the located path |
| UrlPositioner.TrailingSlashExample | src/main/java/com/netsquare/autopayloadpositioner/core/positioners/UrlPositioner.java:20-28 | for the path /api/users/ the range is [9,14), the text users |
| UrlPositioner.Add | src/main/java/com/netsquare/autopayloadpositioner/core/positioners/UrlPositioner.java:9-37 | appends exactly the URL ranges to the list |
| ParamPositioner.Add | src/main/java/com/netsquare/autopayloadpositioner/core/positioners/ParamPositioner.java:10-17 | appends each parameter's value offsets, in order |
| ContentTypeUtils.ContentTypeOf | src/main/java/com/netsquare/autopayloadpositioner/util/ContentTypeUtils.java:10-17 | empty without a Content-Type header; otherwise the lower-cased value of the first header so named, ignoring case |
| ContentTypeUtils.ContentTypeLowercase | src/main/java/com/netsquare/autopayloadpositioner/util/ContentTypeUtils.java:13 | the content type holds no upper-case ASCII letter |
| HeaderPositioner.SplitAtFirstSpace | src/main/java/com/netsquare/autopayloadpositioner/core/positioners/HeaderPositioner.java:42-43 | the value splits into two parts exactly when it contains a space |
| HeaderPositioner.CookiePairRange | src/main/java/com/netsquare/autopayloadpositioner/core/positioners/HeaderPositioner.java:25-36 | a cookie value range stays between the header value's start and the header line's end |
| HeaderPositioner.ValueInsideLine | src/main/java/com/netsquare/autopayloadpositioner/core/positioners/HeaderPositioner.java:13-19 | where the line "name: value" occurs, the value occurs at the computed value start |
| HeaderPositioner.HeaderRangesWithin | src/main/java/com/netsquare/autopayloadpositioner/core/positioners/HeaderPositioner.java:13-54 | an unlocated header line gives no range; otherwise every range lies in its value, and a non-cookie header gives exactly one |
| HeaderPositioner.PlainHeaderValue | src/main/java/com/netsquare/autopayloadpositioner/core/positioners/HeaderPositioner.java:52-54 | an ordinary header gives one range whose text is its whole value |
| HeaderPositioner.AuthorizationCredential | src/main/java/com/netsquare/autopayloadpositioner/core/positioners/HeaderPositioner.java:41-46 | an Authorization value with a space gives one range whose text is everything after the first space |
| HeaderPositioner.AuthorizationWithoutScheme | src/main/java/com/netsquare/autopayloadpositioner/core/positioners/HeaderPositioner.java:47-49 | an Authorization value without a space gives one range over the whole value |
| HeaderPositioner.CookieRangesWithin | src/main/java/com/netsquare/autopayloadpositioner/core/positioners/HeaderPositioner.java:22-38 | every cookie range lies between the header value's start and the header line's end |
| HeaderPositioner.CookiePairText | src/main/java/com/netsquare/autopayloadpositioner/core/positioners/HeaderPositioner.java:25-36 | a cookie range needs an = that is neither first nor last in the pair; it has the trimmed value's length, covers the characters right after =, and its text is the value when that value does not start with a blank |
| Text.SplitOccurs | src/main/java/com/netsquare/autopayloadpositioner/core/positioners/HeaderPositioner.java:23 | every piece that splitting on a literal separator yields occurs in the split text |
| HeaderPositioner.WellFormedPairs | src/main/java/com/netsquare/autopayloadpositioner/core/positioners/HeaderPositioner.java:24-26 | keeps, in order, only pairs whose first = is neither their first nor their last character |
| HeaderPositioner.CookiePairPresent | src/main/java/com/netsquare/autopayloadpositioner/core/positioners/HeaderPositioner.java:25-36 | a pair that occurs in the header value gets a range exactly when its first = is neither its first nor its last character; the line-end test never rejects such a pair |
| HeaderPositioner.CookieRangesComplete | src/main/java/com/netsquare/autopayloadpositioner/core/positioners/HeaderPositioner.java:24-38 | when every pair occurs in the header value, the cookie ranges correspond one to one, in order, to the well-formed pairs, each being that pair's value range |
| HeaderPositioner.CookieHeaderRanges | src/main/java/com/netsquare/autopayloadpositioner/core/positioners/HeaderPositioner.java:21-38 | a located cookie header gets exactly one range per well-formed pair of its value split on "; ", in the pairs' order |
| HeaderPositioner.TwoCookiePairs | src/main/java/com/netsquare/autopayloadpositioner/core/positioners/HeaderPositioner.java:21-38 | the header `Cookie: a=1; b=2` gives two ranges, one over `1` and one over `2` |
| HeaderPositioner.AllHeaderRangesWithin | src/main/java/com/netsquare/autopayloadpositioner/core/positioners/HeaderPositioner.java:10-56 | all header ranges lie inside the request text |
| HeaderPositioner.Add | src/main/java/com/netsquare/autopayloadpositioner/core/positioners/HeaderPositioner.java:10-56 | appends each header's ranges, header by header |
| HeaderPositioner.AddHeader | src/main/java/com/netsquare/autopayloadpositioner/core/positioners/HeaderPositioner.java:13-54 | appends one header's ranges |
| HeaderPositioner.AddCookiePairs | src/main/java/com/netsquare/autopayloadpositioner/core/positioners/HeaderPositioner.java:23-38 | appends the ranges of the pairs obtained by splitting on "; " |
| HeaderPositioner.AddCookiePair | src/main/java/com/netsquare/autopayloadpositioner/core/positioners/HeaderPositioner.java:25-37 | appends the pair's range when it has one and nothing otherwise |
| PlaceholderApplier.PutSpec | src/main/java/com/netsquare/autopayloadpositioner/placeholder/PlaceholderApplier.java:104-110 | inserting into the plan keeps it strictly ascending and, read as a map, behaves as putIfAbsent |
| PlaceholderApplier.PutAllSpec | src/main/java/com/netsquare/autopayloadpositioner/placeholder/PlaceholderApplier.java:96-124 | inserting a list of offsets keeps the plan ascending with the placeholder text, and its keys become the old keys plus those offsets |
| PlaceholderApplier.AscendingUnique | src/main/java/com/netsquare/autopayloadpositioner/placeholder/PlaceholderApplier.java:57 | two ascending plans with the same keys and the same text are equal, so the plan's entry order is fixed by its key set |
| PlaceholderApplier.InsertionPlan.constructor | src/main/java/com/netsquare/autopayloadpositioner/placeholder/PlaceholderApplier.java:21 | a new plan is empty and well formed |
| PlaceholderApplier.InsertionPlan.PutIfAbsent | src/main/java/com/netsquare/autopayloadpositioner/placeholder/PlaceholderApplier.java:104 | keeps the plan ascending, adds the key with its text only when absent, and adds no other entry |
| PlaceholderApplier.SkipValue | src/main/java/com/netsquare/autopayloadpositioner/placeholder/PlaceholderApplier.java:116-121 | returns the first &, ;, CR or LF at or after the start, or the end of the text |
| PlaceholderApplier.SkipToSeparator | src/main/java/com/netsquare/autopayloadpositioner/placeholder/PlaceholderApplier.java:116-121 | the inner loop stops where SkipValue says |
| PlaceholderApplier.KeyValuePointsSound | src/main/java/com/netsquare/autopayloadpositioner/placeholder/PlaceholderApplier.java:96-124 | every planned offset directly follows an = and is the end of the text or followed by &, ;, CR, LF or space; the offsets increase |
| PlaceholderApplier.KeyValuePointsComplete | src/main/java/com/netsquare/autopayloadpositioner/placeholder/PlaceholderApplier.java:96-124 | when every = opens an empty value, an insertion is planned after each of them |
| PlaceholderApplier.KeyValueStep | src/main/java/com/netsquare/autopayloadpositioner/placeholder/PlaceholderApplier.java:98-123 | one round of the scan: stop without =, plan after a final =, plan and resume after an empty value, skip past a non-empty one |
| PlaceholderApplier.SpaceInsideValue | src/main/java/com/netsquare/autopayloadpositioner/placeholder/PlaceholderApplier.java:109-122 | "a= b=&c=" plans 2, 5 and 8, while in "a=x y=&c=" the value x swallows y= and only 9 is planned |
| PlaceholderApplier.CollectEmptyKeyValueInsertions | src/main/java/com/netsquare/autopayloadpositioner/placeholder/PlaceholderApplier.java:96-124 | adds exactly the scan's offsets, shifted by the base offset, to the plan's keys |
| PlaceholderApplier.QueryInLineSpec | src/main/java/com/netsquare/autopayloadpositioner/placeholder/PlaceholderApplier.java:82-92 | a query found in a request line is non-empty, directly follows a ? placed after the first space, and runs up to a space |
| PlaceholderApplier.QueryOfSpec | src/main/java/com/netsquare/autopayloadpositioner/placeholder/PlaceholderApplier.java:78-92 | no query when the first CRLF is missing or at 0; otherwise the query lies in the first line, after a ? that follows the first space |
| PlaceholderApplier.QueryPointsSpec | src/main/java/com/netsquare/autopayloadpositioner/placeholder/PlaceholderApplier.java:78-94 | every planned query offset lies in the request line, directly after an = and before &, ;, CR, LF or space, past the ?; the offsets increase |
| PlaceholderApplier.CollectEmptyQueryInsertions | src/main/java/com/netsquare/autopayloadpositioner/placeholder/PlaceholderApplier.java:78-94 | adds exactly the query offsets to the plan's keys |
| PlaceholderApplier.JsonEmptyStringPointsSpec | src/main/java/com/netsquare/autopayloadpositioner/placeholder/PlaceholderApplier.java:126-148 | every planned JSON offset lies between the two quotes of an empty string literal |
| PlaceholderApplier.CollectEmptyJsonStringValueInsertions | src/main/java/com/netsquare/autopayloadpositioner/placeholder/PlaceholderApplier.java:126-148 | adds exactly the empty-string offsets of the token walk to the plan's keys |
| PlaceholderApplier.BodyShape | src/main/java/com/netsquare/autopayloadpositioner/placeholder/PlaceholderApplier.java:24-28 | when a blank line exists, the body starts at least 4 characters in and runs to the end of the request |
| PlaceholderApplier.PlanKeys | src/main/java/com/netsquare/autopayloadpositioner/placeholder/PlaceholderApplier.java:21-44 | the plan is ascending, every entry carries the placeholder, and its keys are the query offsets plus the key=value or JSON body offsets chosen by the body's format |
| PlaceholderApplier.PlannedOffsetsInText | src/main/java/com/netsquare/autopayloadpositioner/placeholder/PlaceholderApplier.java:21-44 | every planned offset lies within the request text |
| PlaceholderApplier.PlanSpec | src/main/java/com/netsquare/autopayloadpositioner/placeholder/PlaceholderApplier.java:21-44 | the plan is ascending, in bounds, carries the placeholder everywhere, and its keys are the planned offsets |
| PlaceholderApplier.SpliceLength | src/main/java/com/netsquare/autopayloadpositioner/placeholder/PlaceholderApplier.java:57-74 | the spliced text is as long as the rest of the source plus the texts of the insertions performed |
| PlaceholderApplier.SentinelOrder | src/main/java/com/netsquare/autopayloadpositioner/placeholder/PlaceholderApplier.java:57-73 | the placeholder ranges start at or after the output position reached so far, and they are sorted and disjoint |
| PlaceholderApplier.SpliceCut | src/main/java/com/netsquare/autopayloadpositioner/placeholder/PlaceholderApplier.java:57-74 | cutting the placeholder ranges out of the spliced text gives back the source from the cursor on |
| PlaceholderApplier.AppliedAll | src/main/java/com/netsquare/autopayloadpositioner/placeholder/PlaceholderApplier.java:60-61 | for an ascending in-bounds plan no entry is skipped |
| PlaceholderApplier.UniformTextLength | src/main/java/com/netsquare/autopayloadpositioner/placeholder/PlaceholderApplier.java:52-54 | insertions that all carry one text add its length once per insertion |
| PlaceholderApplier.SpliceSentinels | src/main/java/com/netsquare/autopayloadpositioner/placeholder/PlaceholderApplier.java:50-75 | an ascending placeholder plan is applied in full, grows the text by 13 per insertion, and the k-th range starts at its index plus 13k |
| PlaceholderApplier.SentinelRanges | src/main/java/com/netsquare/autopayloadpositioner/placeholder/PlaceholderApplier.java:50-75 | every placeholder range is in bounds and holds __DELETE_ME__; they are sorted and disjoint, and cutting them out restores the source |
| PlaceholderApplier.SentinelOffsets | src/main/java/com/netsquare/autopayloadpositioner/placeholder/PlaceholderApplier.java:57-73 | the k-th placeholder range starts at the k-th insertion index plus 13k |
| PlaceholderApplier.ApplyResultSpec | src/main/java/com/netsquare/autopayloadpositioner/placeholder/PlaceholderApplier.java:20-76 | with nothing planned the text is unchanged and both lists are empty, with hasChanges false; otherwise the insertions are the plan, the text grows by 13 per insertion, each range holds the placeholder at index + 13k, the ranges are sorted and disjoint, and removing them gives back the request |
| PlaceholderApplier.Apply | src/main/java/com/netsquare/autopayloadpositioner/placeholder/PlaceholderApplier.java:20-76 | the method's result is the result described by ApplyResultSpec |
| PlaceholderApplier.Splice | src/main/java/com/netsquare/autopayloadpositioner/placeholder/PlaceholderApplier.java:50-75 | the splice loop builds the spliced text, the placeholder ranges and the performed insertions |
| JsonUnescape.TokenWidth | src/main/java/com/netsquare/autopayloadpositioner/body/json/JsonTokenUtils.java:92-137 | each raw token is 1, 2 or 6 characters wide and fits in the text |
| JsonUnescape.ParseHex4 | src/main/java/com/netsquare/autopayloadpositioner/body/json/JsonTokenUtils.java:100-106 | an accepted \u argument is between -0xFFF and 0xFFFF, since Integer.parseInt admits a leading sign |
| JsonUnescape.AdvanceStep | src/main/java/com/netsquare/autopayloadpositioner/body/json/JsonTokenUtils.java:92-137 | the k-th unescaped character is decoded from the raw token that starts where k tokens end |
| JsonUnescape.UnescapeNoLonger | src/main/java/com/netsquare/autopayloadpositioner/body/json/JsonTokenUtils.java:88-139 | unescaping never lengthens the text |
| JsonUnescape.UnescapeNonEmpty | src/main/java/com/netsquare/autopayloadpositioner/body/json/JsonTokenUtils.java:88-139 | the unescaped text is empty exactly when the raw text is |
| JsonUnescape.BackslashFree | src/main/java/com/netsquare/autopayloadpositioner/body/json/JsonTokenUtils.java:89 | a raw text without a backslash unescapes to itself, one character per token |
| JsonUnescape.SplitAt | src/main/java/com/netsquare/autopayloadpositioner/body/json/JsonTokenUtils.java:92-137 | unescaping splits at any token boundary into the unescaping of the two sides |
| JsonUnescape.SuffixAt | src/main/java/com/netsquare/autopayloadpositioner/body/json/JsonTokenUtils.java:92-137 | unescaping from the end of the k-th token gives the unescaped text with its first k characters dropped |
| JsonUnescape.SliceRoundTrip | src/main/java/com/netsquare/autopayloadpositioner/body/json/JsonBodyProcessor.java:303-312 | the raw slice between the ends of token a and token b unescapes to characters a to b of the unescaped text |
| JsonTokenUtils.BackslashRunExact | src/main/java/com/netsquare/autopayloadpositioner/body/json/JsonTokenUtils.java:72-78 | the counted run is exactly the maximal run of backslashes just before the quote |
| JsonTokenUtils.IsEscapedQuote | src/main/java/com/netsquare/autopayloadpositioner/body/json/JsonTokenUtils.java:72-78 | a quote is escaped exactly when an odd number of backslashes precede it |
| JsonTokenUtils.UnescapeJsonStringContent | src/main/java/com/netsquare/autopayloadpositioner/body/json/JsonTokenUtils.java:88-139 | the loop computes the token-by-token unescaping |
| JsonTokenUtils.SearchOpenFound | src/main/java/com/netsquare/autopayloadpositioner/body/json/JsonTokenUtils.java:39-45 | the inner loop finds the nearest unescaped opening quote within 8192 characters whose content matches the token text, or there is none |
| JsonTokenUtils.SearchCloseFound | src/main/java/com/netsquare/autopayloadpositioner/body/json/JsonTokenUtils.java:35-46 | the outer loop picks the last unescaped closing quote in its window that has a matching opening quote, or reports that none has |
| JsonTokenUtils.PrimaryShape | src/main/java/com/netsquare/autopayloadpositioner/body/json/JsonTokenUtils.java:33-46 | primary bounds lie between two unescaped quotes inside the search windows, and the content unescapes to the token text when one is known |
| JsonTokenUtils.FallbackScanFound | src/main/java/com/netsquare/autopayloadpositioner/body/json/JsonTokenUtils.java:54-63 | the fallback finds the first quoted occurrence of the escaped text before its limit, or there is none |
| JsonTokenUtils.FallbackShape | src/main/java/com/netsquare/autopayloadpositioner/body/json/JsonTokenUtils.java:48-67 | fallback bounds need a non-empty token text and cover its re-escaped form between two quotes inside the fallback window |
| JsonTokenUtils.LocateRejects | src/main/java/com/netsquare/autopayloadpositioner/body/json/JsonTokenUtils.java:16-20 | an empty text or a negative start hint gives no bounds |
| JsonTokenUtils.LocateShape | src/main/java/com/netsquare/autopayloadpositioner/body/json/JsonTokenUtils.java:15-70 | found bounds exclude the surrounding quotes, which are both present |
| JsonTokenUtils.EmptyTextEmptyBounds | src/main/java/com/netsquare/autopayloadpositioner/body/json/JsonTokenUtils.java:37-44 | the bounds of an empty string token are empty |
| JsonTokenUtils.SearchOpenQuote | src/main/java/com/netsquare/autopayloadpositioner/body/json/JsonTokenUtils.java:39-45 | the inner loop computes the opening-quote search |
| JsonTokenUtils.ScanFallback | src/main/java/com/netsquare/autopayloadpositioner/body/json/JsonTokenUtils.java:54-63 | the indexOf loop computes the fallback scan |
| JsonTokenUtils.LocateFallback | src/main/java/com/netsquare/autopayloadpositioner/body/json/JsonTokenUtils.java:48-67 | the fallback block computes the fallback bounds |
| JsonTokenUtils.LocateStringTokenContentBounds | src/main/java/com/netsquare/autopayloadpositioner/body/json/JsonTokenUtils.java:15-70 | the method returns the bounds the primary and fallback searches define |
| JsonBodyProcessor.MappingOf | src/main/java/com/netsquare/autopayloadpositioner/body/json/JsonBodyProcessor.java:222-300 | the offset arrays have one entry per unescaped character |
| JsonBodyProcessor.MappingUnique | src/main/java/com/netsquare/autopayloadpositioner/body/json/JsonBodyProcessor.java:222-300 | a raw string has exactly one mapping |
| JsonBodyProcessor.DecodeToken | src/main/java/com/netsquare/autopayloadpositioner/body/json/JsonBodyProcessor.java:229-293 | one loop round stays within the text; a plain character is copied with width 1 and a trailing lone backslash is kept; the width is 6 exactly for a backslash, 'u' and four more characters, whose parsed code unit is the character ('u' when the four do not parse), and 2 for any other escape, which yields the escaped character's meaning; the step is the token decoder the mapping's string is defined by |
| JsonBodyProcessor.UnescapeJsonStringWithMapping | src/main/java/com/netsquare/autopayloadpositioner/body/json/JsonBodyProcessor.java:222-301 | the array-filling loop produces that mapping |
| JsonBodyProcessor.MappingTiles | src/main/java/com/netsquare/autopayloadpositioner/body/json/JsonBodyProcessor.java:228-294 | the raw spans of the unescaped characters tile the raw text from 0 to its end; each spans one token and decodes to its character |
| JsonBodyProcessor.BackslashFreeMapping | src/main/java/com/netsquare/autopayloadpositioner/body/json/JsonBodyProcessor.java:229-235 | without backslashes the mapping is the identity |
| JsonBodyProcessor.MapSpanRoundTrip | src/main/java/com/netsquare/autopayloadpositioner/body/json/JsonBodyProcessor.java:303-312 | a span maps back exactly when it is non-empty and in range, and the mapped raw slice unescapes to the span's text |
| JsonBodyProcessor.NonStringTokenEndFirst | src/main/java/com/netsquare/autopayloadpositioner/body/json/JsonBodyProcessor.java:184-195 | the scalar end is the first comma, closing bracket or whitespace from the start, or the end of the text |
| JsonBodyProcessor.FindNonStringTokenEnd | src/main/java/com/netsquare/autopayloadpositioner/body/json/JsonBodyProcessor.java:184-195 | the loop returns that end |
| JsonBodyProcessor.SkipToScalarFirst | src/main/java/com/netsquare/autopayloadpositioner/body/json/JsonBodyProcessor.java:199-206 | the skip passes exactly the colons and whitespace before the scalar |
| JsonBodyProcessor.ClampedStart | src/main/java/com/netsquare/autopayloadpositioner/body/json/JsonBodyProcessor.java:198 | the clamped start lies within a non-empty text |
| JsonBodyProcessor.AdjustScalarTokenStart | src/main/java/com/netsquare/autopayloadpositioner/body/json/JsonBodyProcessor.java:197-208 | the loop returns the clamped start moved past colons and whitespace |
| JsonBodyProcessor.ScalarSpanShape | src/main/java/com/netsquare/autopayloadpositioner/body/json/JsonBodyProcessor.java:56-66 | a scalar gets a span exactly when its hint is in range and a non-delimiter follows the skipped colons and blanks; the span runs up to the next delimiter |
| JsonBodyProcessor.LooksLikeJsonTextAt | src/main/java/com/netsquare/autopayloadpositioner/body/json/JsonBodyProcessor.java:177-182 | text looks like JSON exactly when its first and last non-blank characters sit at two different positions and form {} or [] |
| JsonBodyProcessor.ContentSpan | src/main/java/com/netsquare/autopayloadpositioner/body/json/JsonBodyProcessor.java:75-79 | a string token's span is non-empty, sits between two quotes, and is absent for an empty string |
| JsonBodyProcessor.WalkBounded | src/main/java/com/netsquare/autopayloadpositioner/body/json/JsonBodyProcessor.java:32-54 | the token walk emits nothing once the list holds 5000 ranges, never takes the list past 5000, and every range is non-empty and within the layer's raw bounds |
| JsonBodyProcessor.ProcessRangesBounded | src/main/java/com/netsquare/autopayloadpositioner/body/json/JsonBodyProcessor.java:19-30 | a body over 500000 characters gives nothing; otherwise the cap holds and every range is non-empty and inside the body |
| JsonBodyProcessor.CarryBackExact | src/main/java/com/netsquare/autopayloadpositioner/body/json/JsonBodyProcessor.java:151-174 | an embedded span is carried back to a non-empty raw range inside the outer string that unescapes to the span's text |
| JsonBodyProcessor.EmbeddedTokenOutcome | src/main/java/com/netsquare/autopayloadpositioner/body/json/JsonBodyProcessor.java:138-175 | an embedded token yields a range exactly when it has a span, and that range is inside the raw string and unescapes to the token's text |
| JsonBodyProcessor.StringTokenOutcome | src/main/java/com/netsquare/autopayloadpositioner/body/json/JsonBodyProcessor.java:68-103 | an empty or unlocated string gives nothing; successful embedded extraction (text at most 150000 characters that looks like JSON) replaces the string's range; a field name gives only extracted ranges; otherwise a value gives its content range |
| JsonBodyProcessor.AddNonStringScalarPosition | src/main/java/com/netsquare/autopayloadpositioner/body/json/JsonBodyProcessor.java:56-66 | appends the scalar's range when it has one |
| JsonBodyProcessor.LocateContentSpan | src/main/java/com/netsquare/autopayloadpositioner/body/json/JsonBodyProcessor.java:75-79 | computes the string token's content span |
| JsonBodyProcessor.AddEmbeddedStringValue | src/main/java/com/netsquare/autopayloadpositioner/body/json/JsonBodyProcessor.java:138-155 | appends the embedded string's range carried back to raw offsets |
| JsonBodyProcessor.AddEmbeddedNonStringScalar | src/main/java/com/netsquare/autopayloadpositioner/body/json/JsonBodyProcessor.java:157-175 | appends the embedded scalar's range carried back to raw offsets |
| JsonBodyProcessor.AddEmbeddedToken | src/main/java/com/netsquare/autopayloadpositioner/body/json/JsonBodyProcessor.java:121-128 | dispatches an embedded token by kind |
| JsonBodyProcessor.ExtractEmbeddedJsonInsertionPoints | src/main/java/com/netsquare/autopayloadpositioner/body/json/JsonBodyProcessor.java:105-136 | appends the embedded walk's ranges and reports whether any were added |
| JsonBodyProcessor.TryEmbeddedExtraction | src/main/java/com/netsquare/autopayloadpositioner/body/json/JsonBodyProcessor.java:83-96 | appends the extraction's ranges and reports whether there were any |
| JsonBodyProcessor.ProcessPossiblyEmbeddedJsonStringToken | src/main/java/com/netsquare/autopayloadpositioner/body/json/JsonBodyProcessor.java:68-103 | appends the string token's ranges |
| JsonBodyProcessor.ProcessToken | src/main/java/com/netsquare/autopayloadpositioner/body/json/JsonBodyProcessor.java:41-51 | dispatches a body token by kind |
| JsonBodyProcessor.ProcessJsonWithStreamingOffsets | src/main/java/com/netsquare/autopayloadpositioner/body/json/JsonBodyProcessor.java:32-54 | appends the token walk's ranges |
| JsonBodyProcessor.Process | src/main/java/com/netsquare/autopayloadpositioner/body/json/JsonBodyProcessor.java:19-30 | appends the body's JSON ranges |
| XmlBodyProcessor.AttributeRangesSpec | src/main/java/com/netsquare/autopayloadpositioner/body/xml/XmlBodyProcessor.java:59-70 | the first 20 attribute matches each give the range of their quoted value, and the ranges are sorted and disjoint |
| XmlBodyProcessor.ProcessXmlAttributes | src/main/java/com/netsquare/autopayloadpositioner/body/xml/XmlBodyProcessor.java:59-70 | appends the attribute value ranges |
| XmlBodyProcessor.XmlRangesEmitted | src/main/java/com/netsquare/autopayloadpositioner/body/xml/XmlBodyProcessor.java:10-57 | every range of the recursive walk lies in the body and is either a non-blank leaf text (non-empty) or the text between two matching quotes of an attribute value (empty for `a=""`) |
| XmlBodyProcessor.TagWalkCap | src/main/java/com/netsquare/autopayloadpositioner/body/xml/XmlBodyProcessor.java:16 | matches beyond the 50th at one level contribute nothing |
| XmlBodyProcessor.SelfClosingRanges | src/main/java/com/netsquare/autopayloadpositioner/body/xml/XmlBodyProcessor.java:18-21 | a self-closing tag gives at most 20 ranges, all inside its attribute text |
| XmlBodyProcessor.PairedRanges | src/main/java/com/netsquare/autopayloadpositioner/body/xml/XmlBodyProcessor.java:23-50 | a leaf element's content range comes first; content with < is not a leaf and its nested walk's ranges come last |
| XmlBodyProcessor.Process | src/main/java/com/netsquare/autopayloadpositioner/body/xml/XmlBodyProcessor.java:10-57 | appends the walk's ranges |
| XmlBodyProcessor.ProcessSelfClosing | src/main/java/com/netsquare/autopayloadpositioner/body/xml/XmlBodyProcessor.java:18-21 | appends a self-closing match's ranges |
| XmlBodyProcessor.ProcessElement | src/main/java/com/netsquare/autopayloadpositioner/body/xml/XmlBodyProcessor.java:23-50 | appends a paired element's ranges |
| XmlBodyProcessor.AddOpeningTagAttributes | src/main/java/com/netsquare/autopayloadpositioner/body/xml/XmlBodyProcessor.java:31-44 | appends the opening tag's attribute ranges |
| MixedBodyProcessor.ValueRunEnd | src/main/java/com/netsquare/autopayloadpositioner/body/mixed/MixedBodyProcessor.java:49 | a value run that starts on a value character is non-empty |
| MixedBodyProcessor.KeyRunEndSpec | src/main/java/com/netsquare/autopayloadpositioner/body/mixed/MixedBodyProcessor.java:49 | the key run is the maximal run of word characters and hyphens |
| MixedBodyProcessor.ValueRunEndSpec | src/main/java/com/netsquare/autopayloadpositioner/body/mixed/MixedBodyProcessor.java:49 | the value run is the maximal run of characters other than & and whitespace |
| MixedBodyProcessor.MatchAtSpec | src/main/java/com/netsquare/autopayloadpositioner/body/mixed/MixedBodyProcessor.java:49 | a match at a position is a key=value match there, and it is the only one |
| MixedBodyProcessor.FindKeyValueSpec | src/main/java/com/netsquare/autopayloadpositioner/body/mixed/MixedBodyProcessor.java:49-53 | the search returns the leftmost key=value match, or none when there is none |
| MixedBodyProcessor.KeyValueRangesSpec | src/main/java/com/netsquare/autopayloadpositioner/body/mixed/MixedBodyProcessor.java:49-59 | at most 30 ranges, each a value right after key=, sorted and disjoint |
| MixedBodyProcessor.BracketCheckHolds | src/main/java/com/netsquare/autopayloadpositioner/body/mixed/MixedBodyProcessor.java:28-29 | every snippet the JSON pattern matches passes the bracket check |
| MixedBodyProcessor.JsonPassCap | src/main/java/com/netsquare/autopayloadpositioner/body/mixed/MixedBodyProcessor.java:26 | JSON snippets beyond the 20th contribute nothing |
| MixedBodyProcessor.XmlPassCap | src/main/java/com/netsquare/autopayloadpositioner/body/mixed/MixedBodyProcessor.java:41 | XML snippets beyond the 20th contribute nothing |
| MixedBodyProcessor.JsonPassWithin | src/main/java/com/netsquare/autopayloadpositioner/body/mixed/MixedBodyProcessor.java:21-33 | every JSON-pass range lies inside the body |
| MixedBodyProcessor.XmlPassWithin | src/main/java/com/netsquare/autopayloadpositioner/body/mixed/MixedBodyProcessor.java:35-46 | every XML-pass range lies inside the body |
| MixedBodyProcessor.MixedRangesWithin | src/main/java/com/netsquare/autopayloadpositioner/body/mixed/MixedBodyProcessor.java:20-60 | every range of the three passes lies inside the body |
| MixedBodyProcessor.Process | src/main/java/com/netsquare/autopayloadpositioner/body/mixed/MixedBodyProcessor.java:20-60 | appends the JSON, XML and key=value passes' ranges in that order |
| MixedBodyProcessor.ProcessJsonSnippets | src/main/java/com/netsquare/autopayloadpositioner/body/mixed/MixedBodyProcessor.java:21-33 | appends the JSON pass's ranges |
| MixedBodyProcessor.ProcessJsonSnippet | src/main/java/com/netsquare/autopayloadpositioner/body/mixed/MixedBodyProcessor.java:27-32 | appends one snippet's ranges |
| MixedBodyProcessor.ProcessXmlSnippets | src/main/java/com/netsquare/autopayloadpositioner/body/mixed/MixedBodyProcessor.java:35-46 | appends the XML pass's ranges |
| MixedBodyProcessor.ProcessKeyValues | src/main/java/com/netsquare/autopayloadpositioner/body/mixed/MixedBodyProcessor.java:48-59 | appends the key=value ranges |
| BodyPositioner.HasBodySpec | src/main/java/com/netsquare/autopayloadpositioner/body/BodyPositioner.java:24-25 | a body is processed exactly when the first blank line starts after offset 0 and something follows it |
| BodyPositioner.BodyRangesWithin | src/main/java/com/netsquare/autopayloadpositioner/body/BodyPositioner.java:23-38 | no body gives no range, and every body range lies between the body start and the end of the request |
| BodyPositioner.FormatAgreesWithPlanner | src/main/java/com/netsquare/autopayloadpositioner/body/BodyPositioner.java:30-37 | the body is the one the placeholder planner scans, and the JSON and mixed branches are taken exactly when the planner scans JSON or key=value |
| BodyPositioner.AddBodyPositions | src/main/java/com/netsquare/autopayloadpositioner/body/BodyPositioner.java:23-38 | appends the ranges of the processor chosen by content type and first non-blank character |
| PositionFinder.HeadersLast | src/main/java/com/netsquare/autopayloadpositioner/core/PositionFinder.java:25-49 | positions come in the order method, URL, parameters, body, headers |
| PositionFinder.HeaderModesExact | src/main/java/com/netsquare/autopayloadpositioner/core/PositionFinder.java:25-49 | the header-only, last-segment and full-path header modes yield exactly headers, the last segment, or the full path, each followed by the headers |
| PositionFinder.HeaderMethodModesExact | src/main/java/com/netsquare/autopayloadpositioner/core/PositionFinder.java:25-49 | the three header-and-method modes put the method first, then the URL part if any, then the headers |
| PositionFinder.EverythingIsDefaultAfterMethod | src/main/java/com/netsquare/autopayloadpositioner/core/PositionFinder.java:25-49 | Everything yields the method ranges followed by what Default yields |
| PositionFinder.EverythingFullPathIsDefaultFullPathAfterMethod | src/main/java/com/netsquare/autopayloadpositioner/core/PositionFinder.java:25-49 | Everything + Full Path yields the method ranges followed by what Default + Full Path yields |
| PositionFinder.FindPositions | src/main/java/com/netsquare/autopayloadpositioner/core/PositionFinder.java:25-49 | returns a fresh list holding the mode's gathered positions |
| RequestProcessor.TemplateValid | src/main/java/com/netsquare/autopayloadpositioner/burp/RequestProcessor.java:20-37 | the template's content is the placeholder-applied request, its offsets are in bounds, non-empty, sorted and disjoint, and cutting the placeholders out restores the request |
| RequestProcessor.TemplateWithoutChanges | src/main/java/com/netsquare/autopayloadpositioner/burp/RequestProcessor.java:24-36 | without placeholders the template is the original request with its validated positions; with them it is longer by 13 per insertion |
| RequestProcessor.UnshiftedWithoutInsertions | src/main/java/com/netsquare/autopayloadpositioner/burp/RequestProcessor.java:28-29 | with no insertions the positions pass through unshifted |
| RequestProcessor.TemplateOffsetsFromSources | src/main/java/com/netsquare/autopayloadpositioner/burp/RequestProcessor.java:27-32 | every final offset is a shifted found position or a placeholder range |
| RequestProcessor.TemplateMarksPlaceholders | src/main/java/com/netsquare/autopayloadpositioner/burp/RequestProcessor.java:29-32 | every range of an inserted placeholder overlaps some offset of the final template, so validation never drops a placeholder unmarked |
| RequestProcessor.BuildIntruderTemplate | src/main/java/com/netsquare/autopayloadpositioner/burp/RequestProcessor.java:20-49 | the method builds the template these lemmas describe |

## Left out

- The Jackson parser is not part of this model. Its token stream, with each
  token's kind, start and end offsets and text, is a parameter. So is
  `ObjectMapper.writeValueAsString`, taken as an uninterpreted escaping
  function. An exception in the middle of the stream is not modelled. The
  model sees the tokens produced before the failure.
- The regex fallback for malformed JSON (`processJsonDirectRegex`) is left
  out. In the source it runs only when `processJsonWithStreamingOffsets`
  throws, and the model has no exceptions.
- `java.util.regex` is not part of this model. The XML tag and attribute
  patterns and the mixed-body JSON and XML snippet patterns are oracles. The
  model fixes the shape of each match but not which matches a real regex
  engine would return. The key=value pattern is written out.
- XmlBodyProcessor.Process: the `catch (Exception)` around the walk is not
  modelled, since nothing in the model throws.
- ContentTypeUtils.ContentTypeOf: `toLowerCase` and `equalsIgnoreCase` are
  modelled for ASCII letters only. Other Unicode case mappings are not
  modelled.
- HeaderPositioner.AddHeader: the case-insensitive name comparisons cover
  ASCII letters only, as above.
- JsonBodyProcessor.UnescapeJsonStringWithMapping: a `\u` escape that names a
  surrogate code unit (D800 to DFFF) decodes to U+FFFD. Dafny characters are
  Unicode scalar values, so a lone UTF-16 surrogate cannot be represented.
  The token widths, and so the offset mapping, are unaffected, but the decoded
  text can differ from Java's. For an escaped surrogate pair such as
  `\ud83d\ude00`, Java's unescaped text equals the parser's token text and the
  primary quote search succeeds; the model's text does not, so `Locate` falls
  back to the escaped-text scan and can choose other bounds or none.
- Characters stand for UTF-16 code units, as Java's string offsets count them.
  The model therefore covers request texts without characters outside the
  Basic Multilingual Plane. Such a character is one Dafny character but two
  Java units, so every offset after it would differ by one.
- JsonUnescape.ParseHex4: only the ASCII digits `0-9`, `a-f` and `A-F` count as
  hex digits. `Integer.parseInt(hex, 16)` goes through `Character.digit`,
  which also accepts other Unicode decimal digits and the fullwidth letters.
  For `\u` followed by four such characters the token width (6) is the same,
  but Java decodes a character where the model keeps `u`, which feeds the
  token-text comparison of the quote search.
- Java `int` arithmetic is modelled with unbounded integers. Offset sums in
  the source could overflow only for texts near 2^31 characters.
- `JsonBodyProcessor` keeps private copies of `locateStringTokenContentBounds`,
  `isEscapedQuote` and `escapeAsJsonStringContent`. They are identical to
  those in `JsonTokenUtils` except that they unescape through the mapping's
  string, which is the same text. The model defines each once, in
  `JsonTokenUtils`, and both callers use it.
- The conversion between `HttpRequest`, `String` and `ByteArray` is not
  modelled. The request text is taken as given, and the template's content is
  that text.
- The user interface and threading are not modelled: the context menu, the
  mode picker, the swing workers and the Intruder hand-off in
  `AutoPayloadPositioner` and `PayloadPositionMenuProvider`. The same goes
  for logging.
- Burp's parameter parser is not part of this model. The parameter value
  offsets it reports are a field of the request.
