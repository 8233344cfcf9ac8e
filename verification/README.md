# Food inspection report checker — a Dafny model of its core

The system reads food inspection reports, pulls out the food name, the
production date, the national standards (GB codes) the report cites and its
table of test items, and cross-checks them against two outside sources: a
registry of national food standards (is the cited standard in force on the
production date?) and a retrieval service over regulatory documents (which
items must be checked for this food, by which method, under which limit?).

This project models that core in Dafny, one module per source file:

| module | source file | what it models |
|---|---|---|
| `ItemNameMatcher` | `src/item_name_matcher.py` | normalising substance names, splitting merged names, the three-tier fuzzy match |
| `HtmlTableParser` | `src/html_table_parser.py` | HTML evidence tables to rows, the item-name blacklist cascade, splitting merged rows |
| `FieldExtractor` | `src/field_extractor.py` | food name, production date, cited standard codes and their titles, the item table |
| `Validate` | `src/gb_verifier/validate.py` | date parsing, the "in force" status test, the verdict and its report |
| `GbNumber` | `src/gb_verifier/test_input.py` | the numeric id of a GB code |
| `GbVerifier` | `src/gb_verifier/__init__.py` | the standards cache (24-hour lifetime), the per-code verdicts, which of the workers' results reach the cache (the pool itself runs as a sequential map) |
| `HtmlExtractor` | `src/gb_verifier/html_extractor.py`, `src/verifier2/verifier2/html_extractor.py` | scraping a standard's detail page (both copies, which differ in one fallback) |
| `FoodmateExtract` | `src/gb_verifier/foodmate_extract.py` | picking the standard's detail link out of search results |
| `Runner` | `src/gb_verifier/runner.py` | parsing the search tool's text output, picking the detail page |
| `McpClient` | `src/verifier2/mcp_client.py` | the standards search client: server-sent event messages, the JSON-RPC envelope and reply choice, picking the search tool and building its arguments |
| `Config` | `src/gb_verifier/config.py` | where the search service URL comes from |
| `RagflowClient` | `src/ragflow_client.py` | the retrieval client's request and response shaping |
| `FastgptClient` | `src/fastgpt_client.py` | the alternative retrieval client |
| `TableMerger` | `src/table_merger.py` | merging a table continued across pages |
| `CellParser` | `src/cell_parser.py` | splitting multi-value cells |
| `PackageImageProcessor` | `src/package_image_processor.py` | reading the label fields off package text |
| `BusinessLogicFilter` | `src/business_logic_filter.py` | dropping non-item rows from the test table |
| `RagflowVerifier` | `src/ragflow_verifier.py` | the compliance engine: query building, the five-layer evidence filter, required items, matching, the limit checks, the roll-up |

Shared modules hold what Python gives for free: `Wrappers` (Option, Result,
searches and folds over sequences), `Text` (find, contains, strip, split,
whitespace runs, ASCII case), `Scan` (leftmost search and find-all over a
per-position matcher, the model of a regular expression), `Assoc` (a Python
dict, whose repeated key keeps its first position and its last value) and
`Json` (JSON values).

Each regular expression of the source is written as a matcher that says, at
one position, whether and where the pattern ends; the backtracking of each one
reduces to the greedy scan written here. Code that loops and updates variables
is a `method` with loop invariants, proved equal to a specification function;
the properties are lemmas about those functions.

A few places where the code and its own documentation part ways, followed by
the model as the code is written:

- `extract_item_names` documents "阿维菌素哒螨灵" as splitting into two names;
  the code keeps it whole (no separator, and no suffix occurs twice);
  `ItemNameMatcher.MergedPesticideNameStaysWhole` proves what the code does.
  The fuzzy match still relates the merged name to both substances, by
  containment.
- `get_food_categories` returns the category first and the food second;
  its docstring gives the opposite order. `RagflowVerifier.CategoryBeforeFood`
  shows the code's order.
- In the limit worker `_query_limit_worker` the fallback to the first context chunk reads
  `limit_chunks`, which is never defined; the `NameError` is caught by the
  worker, so no chunk found means no limit result at all.
- The unified `required_basis` built for the basis check is never read again;
  the match records carry each item's own basis.
- The path with no required items reads `SIMILARITY_THRESHOLD`, which is
  not defined; the model returns an error there.
- The query code handed to the limit search is overwritten with "GB 2763", so
  only whether it was non-empty matters: the item's basis, or else the
  report's first cited code.

Python sets, whose iteration order is left open, are modelled as follows:

- `for code in set(gb_codes)` (src/gb_verifier/__init__.py:203) visits each
  code once; the model visits them in first-seen order (`Assoc.Distinct`),
  one of the orders the set may give. Results are keyed by code, so the order
  decides nothing else.
- A result's `evidence_pages`, `list(set(...))` in the source, is a Dafny
  `set<int>`: which pages, not their order.
- The standards of the basis check are sorted in the source and in the model.

## Model

| member | source | states |
|---|---|---|
| ItemNameMatcher.ParenCut | src/item_name_matcher.py:24-30 | the cut position is the first opening parenthesis, ASCII or full-width, or the end of the name when there is none |
| ItemNameMatcher.ParenCutIsMinFind | src/item_name_matcher.py:25-29 | that position is the smaller of the two `find` results, each `-1` counting as the length |
| ItemNameMatcher.NormalizeItemName | src/item_name_matcher.py:8-34 | the normal form holds no whitespace and no opening parenthesis, is no longer than the name, and is empty for the empty name |
| ItemNameMatcher.NormalizeStripped | src/item_name_matcher.py:33-34 | the closing `strip()` never changes the normal form |
| ItemNameMatcher.NormalizeIdempotent | src/item_name_matcher.py:8-34 | normalising a normal form gives it back |
| ItemNameMatcher.NormalizeCutsExplanation | src/item_name_matcher.py:18 | the documented example: "克百威(克百威及3-羟基克百威之和)" normalises to "克百威" |
| ItemNameMatcher.NormalizeSpaceFreeHead | src/item_name_matcher.py:24-34 | a name whose text before the first parenthesis has no whitespace normalises to exactly that text |
| ItemNameMatcher.NormalOfLiteral | src/item_name_matcher.py:8-34 | a name with no whitespace and no opening parenthesis is its own normal form |
| ItemNameMatcher.NonBlankStripped | src/item_name_matcher.py:61 | the kept parts are the non-blank ones, stripped: none is empty and there are no more of them than parts |
| ItemNameMatcher.NonBlankStrippedPieces | src/item_name_matcher.py:61 | stripping keeps each part a piece of the text it was cut from |
| ItemNameMatcher.FirstSplittingSeparator | src/item_name_matcher.py:57-63 | separators are tried in list order; the chosen one is the first that splits the text into more than one non-blank part |
| ItemNameMatcher.SplitBySeparators | src/item_name_matcher.py:57-63 | the separator step answers exactly when some separator splits the text, and then with more than one non-empty part |
| ItemNameMatcher.SeparatorPartsInside | src/item_name_matcher.py:59-63 | every part the separator step returns is a piece of the text |
| ItemNameMatcher.SegmentBySuffix | src/item_name_matcher.py:76-83 | the segmentation loop collects exactly the pieces that end at each successive occurrence of the suffix |
| ItemNameMatcher.SuffixPiecesCount | src/item_name_matcher.py:74-83 | the loop yields as many pieces as `text.count(suffix)` |
| ItemNameMatcher.SuffixPiecesEndWith | src/item_name_matcher.py:82 | every piece ends with the suffix |
| ItemNameMatcher.SuffixPiecesEnd | src/item_name_matcher.py:78-83 | the loop stops within the text, at or after where it started |
| ItemNameMatcher.SuffixPiecesCover | src/item_name_matcher.py:76-83 | the pieces laid end to end are the text up to the last occurrence of the suffix, and what is dropped after it holds no further occurrence |
| ItemNameMatcher.SuffixPiecesContained | src/item_name_matcher.py:82 | each piece is a piece of the text |
| ItemNameMatcher.SuffixKinds | src/item_name_matcher.py:69 | the number of distinct listed suffixes present is at most the number listed |
| ItemNameMatcher.CommonSuffixesValid | src/item_name_matcher.py:67 | the listed suffixes are non-empty and do not end in whitespace |
| ItemNameMatcher.FirstSplittingSuffix | src/item_name_matcher.py:73-74 | suffixes are tried in list order; the chosen one is the first that occurs at least twice |
| ItemNameMatcher.SplitBySuffixes | src/item_name_matcher.py:66-86 | the suffix heuristic never returns an empty part |
| ItemNameMatcher.SplitBySuffixesParts | src/item_name_matcher.py:69-86 | the suffix heuristic answers exactly when some suffix occurs twice, and then with more than one part |
| ItemNameMatcher.NonBlankSuffixPieces | src/item_name_matcher.py:86 | pieces ending in a suffix that is not blank all survive the final strip-and-filter |
| ItemNameMatcher.SuffixPartsInside | src/item_name_matcher.py:73-86 | every part the suffix heuristic returns is a piece of the text |
| ItemNameMatcher.ExtractItemNames | src/item_name_matcher.py:37-89 | no names exactly for the empty text; a normal form of at most six characters is the only name; no name is empty unless the normal form is |
| ItemNameMatcher.ExtractItemNamesPieces | src/item_name_matcher.py:37-89 | every extracted name is a piece of the normalised text, so splitting never invents characters |
| ItemNameMatcher.ExtractWhole | src/item_name_matcher.py:88-89 | a long name that neither a separator nor a suffix splits comes back whole |
| ItemNameMatcher.MergedPesticideNameStaysWhole | src/item_name_matcher.py:42-43 | "阿维菌素哒螨灵" comes back as one name, not the two the docstring lists |
| ItemNameMatcher.NoSeparatorInMergedName | src/item_name_matcher.py:57-63 | no separator splits "阿维菌素哒螨灵" |
| ItemNameMatcher.NoSuffixRepeats | src/item_name_matcher.py:73-74 | no listed suffix occurs twice in "阿维菌素哒螨灵" |
| ItemNameMatcher.SuffixCountInMergedName | src/item_name_matcher.py:74 | each listed suffix occurs fewer than two times in "阿维菌素哒螨灵" |
| ItemNameMatcher.ShortNameWhole | src/item_name_matcher.py:53-54 | the short name "氟虫腈" is its own normal form and its only candidate |
| ItemNameMatcher.FuzzyMatchReflexive | src/item_name_matcher.py:110-112 | every name matches itself |
| ItemNameMatcher.FuzzyMatchSymmetric | src/item_name_matcher.py:92-131 | the match does not depend on which name is the report's and which the requirement's |
| ItemNameMatcher.SubNamesRelatedSymmetric | src/item_name_matcher.py:122-129 | the third tier, over pairs of sub-names, is symmetric |
| ItemNameMatcher.EmptyNormalizedMatchesAll | src/item_name_matcher.py:115 | a name that normalises to nothing, such as "(...)", matches every name, since "" is in every string |
| ItemNameMatcher.ContainedNameMatches | src/item_name_matcher.py:114-116 | containment of one normal form in the other is enough to match, either way round |
| ItemNameMatcher.MergedNameNormal | src/item_name_matcher.py:8-34 | "阿维菌素哒螨灵" is its own normal form |
| ItemNameMatcher.MergedNameMatchesFirst | src/item_name_matcher.py:103 | the documented example: "阿维菌素哒螨灵" matches "阿维菌素" |
| ItemNameMatcher.MergedNameMatchesSecond | src/item_name_matcher.py:104 | the documented example: "阿维菌素哒螨灵" matches "哒螨灵" |
| ItemNameMatcher.ExplainedNameMatches | src/item_name_matcher.py:102 | the documented example: a name with a parenthesised explanation matches its main name |
| ItemNameMatcher.MergedNameRejectsOther | src/item_name_matcher.py:92-131 | a merged name does not match a substance it does not contain |
| ItemNameMatcher.WholeNamesUnrelated | src/item_name_matcher.py:118-131 | names that are each their own only candidate and unrelated have no related sub-names, so the third tier adds nothing |
| ItemNameMatcher.SingleSubNames | src/item_name_matcher.py:118-131 | with one candidate each, the third tier holds exactly when the two candidates' normal forms are equal or one contains the other |
| ItemNameMatcher.MergedNameUnrelated | src/item_name_matcher.py:110-116 | "阿维菌素哒螨灵" and "氟虫腈" are neither equal nor contained in each other |
| Config.LoadMcpUrl | src/gb_verifier/config.py:18-38 | the command line wins when non-empty, then the `TAVILY_MCP_URL` variable, then a string under that key in the config file; whichever is used comes back stripped |
| Config.LoadMcpUrlNone | src/gb_verifier/config.py:18-38 | there is no URL exactly when none of the three sources supplies one |
| Config.LoadMcpUrlStable | src/gb_verifier/config.py:22-23 | a URL that was found, passed back in on the command line, is found unchanged whatever the environment and file say |
| Config.UnreadableIsAbsent | src/gb_verifier/config.py:29-36 | a config file that cannot be read or decoded counts the same as no file |
| Config.BuildConfig | src/gb_verifier/config.py:41-47 | the configuration is refused exactly when no non-empty URL is found; the test file is the argument, else `TEST_TXT`, else "test.txt" |
| Config.BlankCliRefused | src/gb_verifier/config.py:22-23 | a command-line URL of only whitespace still shadows the other sources, strips to "" and is refused |
| Validate.BeforeIsStrictOrder | src/gb_verifier/validate.py:93 | date comparison is a strict total order |
| Validate.FixedDigits | src/gb_verifier/validate.py:94 | zero-padded digits of the given width |
| Validate.FixedDigitsValue | src/gb_verifier/validate.py:94 | the padded digits read back as the number |
| Validate.IsoFormat | src/gb_verifier/validate.py:94 | `isoformat()` is ten characters with dashes at positions 4 and 7 |
| Validate.ParseFlexibleDate | src/gb_verifier/validate.py:12-22 | a parsed date is a real calendar date; "empty date" is reported exactly for blank text, "invalid format" exactly for other text the pattern does not match, and a matched text fails only when its fields are not a real date |
| Validate.MakeDate | src/gb_verifier/validate.py:22 | `date(y, m, d)` succeeds exactly for a real calendar date and gives that date |
| Validate.MonthBeforeDay | src/gb_verifier/validate.py:22 | with a valid year, a month outside 1..12 is the error whatever the day; a real month with a day it lacks gives the day error |
| Validate.YearZeroOnly | src/gb_verifier/validate.py:9-22 | four digits read at most 9999, so the only year that `date()` refuses here is 0 |
| Validate.FourDigitsBound | src/gb_verifier/validate.py:9 | four digits read at most 9999 |
| Validate.DigitsBound | src/gb_verifier/validate.py:21 | a run of n digits reads less than 10 to the n |
| Text.ReprQuote | src/gb_verifier/validate.py:20 | `repr` uses double quotes exactly when the text holds a single quote and no double quote |
| Text.ReprRoundTrip | src/gb_verifier/validate.py:20 | reading the quoted body of `repr(s)` as a Python string literal gives back `s` |
| Text.ReprPlain | src/gb_verifier/validate.py:20 | text without quotes, backslashes or escaped characters is shown in single quotes as it is |
| Text.HexRoundTrip | src/gb_verifier/validate.py:20 | the hexadecimal digits of an escape read back as the character's code |
| Validate.ParseIsoFormat | src/gb_verifier/validate.py:9-22 | parsing reads back every date written by `isoformat()` |
| Validate.NormalizeStatus | src/gb_verifier/validate.py:25-28 | a status comes back exactly when it is a string, stripped, as a piece of the original |
| Validate.EffectiveMeaning | src/gb_verifier/validate.py:31-47 | in force means a string containing "有效" and none of "废止", "作废", "停止"; containing both "现行" and "有效" is enough |
| Validate.InForceStatus | src/gb_verifier/validate.py:33 | "现行有效" is in force |
| Validate.AbolishedStatus | src/gb_verifier/validate.py:34 | "已废止" is not |
| Validate.ImplementDate | src/gb_verifier/validate.py:82-91 | an implementation date is taken only from non-blank text that parses, and is a real date |
| Validate.Reasons | src/gb_verifier/validate.py:75-94 | the reasons appear in the source's fixed order: status, then the implementation date, then the production date |
| Validate.ValidateStandard | src/gb_verifier/validate.py:59-102 | an error exactly when the production date is text that does not parse; otherwise passed exactly when no reason was recorded, with the normalised status and the parsed implementation date |
| Validate.PassedIff | src/gb_verifier/validate.py:77-97 | passed exactly when the standard is in force, its implementation date parses, and production is not before it |
| Validate.InForceStandard | src/gb_verifier/validate.py:59-102 | for a standard in force with a well-formed implementation date, the only possible reason is production before implementation |
| Validate.NumberedLines | src/gb_verifier/validate.py:127-128 | the reasons are numbered in order, starting from 1 |
| Validate.ReasonTexts | src/gb_verifier/validate.py:79-94 | one message per reason, in order |
| Validate.VerdictLines | src/gb_verifier/validate.py:122-128 | the verdict line ("通过" exactly when passed), the production date in ISO form, and, only when there are reasons, a heading and each reason numbered from 1 |
| Validate.ReportLines | src/gb_verifier/validate.py:122-141 | the report opens with the verdict ("通过" exactly when passed), then the production date, then, when there are reasons, a heading and each reason numbered |
| Validate.OrElse | src/gb_verifier/validate.py:79 | `value or fallback`: the fallback exactly when the value is falsy (missing, empty, or a falsy non-string), else the value's text |
| Validate.ReportStandardLines | src/gb_verifier/validate.py:130-136 | the GB number line shows the number only when it is truthy; the status line falls back to "未知" and the abolition line to "未知/未提供" for any falsy value |
| Validate.FormatReport | src/gb_verifier/validate.py:105-143 | the joined report starts with the verdict line |
| GbNumber.PrefixEnd | src/gb_verifier/test_input.py:13 | the prefix removal resumes within the text |
| GbNumber.FirstYearMark | src/gb_verifier/test_input.py:16 | the first piece of the split ends at the first `-dddd` year mark, or at the end |
| GbNumber.ExtractGbNumber | src/gb_verifier/test_input.py:3-18 | the id is empty for the empty text, stripped, and holds no year mark |
| GbNumber.NoYearMarkInPiece | src/gb_verifier/test_input.py:16-18 | the stripped text before the first year mark holds no year mark |
| GbNumber.YearMarkIn | src/gb_verifier/test_input.py:16 | a year mark inside a piece is a year mark of the whole |
| GbNumber.ExtractFromCode | src/gb_verifier/test_input.py:3-18 | a code written as "GB" or "GB/T", whitespace, a number and a four-digit year gives back the number, as in the documented "GB 2763-2021" to "2763" |
| GbNumber.CodeParts | src/gb_verifier/test_input.py:13-18 | after the prefix and whitespace, the id is the text up to the first year mark |
| GbNumber.CodePrefixEnd | src/gb_verifier/test_input.py:13 | the prefix removal takes exactly the prefix and the whitespace after it |
| GbNumber.YearCut | src/gb_verifier/test_input.py:16 | in a number followed by a year, the first year mark is the year's |
| HtmlTableParser.BreaksToSpaces | src/html_table_parser.py:81 | every line feed and carriage return becomes a space and nothing else changes |
| HtmlTableParser.CleanText | src/html_table_parser.py:74-86 | a cleaned text has no whitespace at either end and no two whitespace characters in a row, each a plain space |
| HtmlTableParser.CleanTextIdempotent | src/html_table_parser.py:74-86 | cleaning a cleaned text changes nothing |
| HtmlTableParser.Headers | src/html_table_parser.py:28-36 | the headers are the header row's cells, each cleaned, in order |
| HtmlTableParser.CleanCells | src/html_table_parser.py:60 | each cell cleaned, in order |
| HtmlTableParser.KeptRows | src/html_table_parser.py:47-65 | at most one row per data row, and every kept row has a non-empty value |
| HtmlTableParser.ParseTable | src/html_table_parser.py:10-71 | empty input, no table or no header cells give no rows; otherwise the loop keeps, in order, every row with cells and some non-empty value |
| HtmlTableParser.KeptRowsStep | src/html_table_parser.py:47-65 | one more data row is appended exactly when it has cells and some non-empty value |
| HtmlTableParser.AssembleRow | src/html_table_parser.py:56-61 | each cell that has a header is put, cleaned, under that header; cells past the headers are ignored |
| HtmlTableParser.AssignCells | src/html_table_parser.py:57-61 | the dictionary built by the assignment loop, in column order |
| HtmlTableParser.RowDataKeys | src/html_table_parser.py:56-61 | a row's keys are the headers of its cells, each once, in first-seen order |
| HtmlTableParser.RowDataLast | src/html_table_parser.py:59-61 | a repeated header keeps the cleaned text of its last cell |
| HtmlTableParser.RowDataAbsent | src/html_table_parser.py:56-61 | a key no cell falls under is absent from the row |
| HtmlTableParser.KeptRowsShape | src/html_table_parser.py:47-65 | every kept row has distinct keys, each of them a header |
| HtmlTableParser.FirstKey | src/html_table_parser.py:111-118 | the name column is the first key, in row order, containing one of the name words |
| HtmlTableParser.LastKey | src/html_table_parser.py:185-210 | the basis and method columns are the last matching key, since the inner `break` leaves the outer loop running and a later key overwrites |
| HtmlTableParser.NameTargetsProject | src/html_table_parser.py:98 | all three name words contain "项目", so containing one of them is the same as containing "项目" |
| HtmlTableParser.NameKeyIsProjectKey | src/html_table_parser.py:111-118 | the name column is the first key containing "项目" |
| HtmlTableParser.CjkCount | src/html_table_parser.py:170 | the count of characters in the range 一-龥 is at most the length |
| HtmlTableParser.NameAccepted | src/html_table_parser.py:124-176 | an accepted name is 2 to 50 characters after stripping, and has two CJK characters unless it is at most ten characters (the upper-case acronym exception) |
| HtmlTableParser.CleanBasisTokens | src/html_table_parser.py:190-200 | the basis keeps the cell's whitespace-separated tokens without repeats, in first-seen order |
| HtmlTableParser.ValidParts | src/html_table_parser.py:234-269 | the valid fragments are exactly the fragments passing the fragment filters, in order |
| HtmlTableParser.DecimalsEnd | src/html_table_parser.py:292 | the `(?:\.\d+)*` part ends within the text |
| HtmlTableParser.MethodCodeAt | src/html_table_parser.py:292 | a method code match starts with GB, NY, SN or GH and is at least three characters long |
| HtmlTableParser.StartIsProduct | src/html_table_parser.py:316 | the start of block `i` is `i * (methods // parts)`, as computed |
| HtmlTableParser.StartFits | src/html_table_parser.py:315-319 | every block ends within the method list and the last one ends exactly at its end |
| HtmlTableParser.Block | src/html_table_parser.py:312-320 | each part gets `methods // parts` codes and the last one also the remainder |
| HtmlTableParser.BlockBounds | src/html_table_parser.py:315-319 | the index arithmetic of the distribution stays in range |
| HtmlTableParser.BlocksCover | src/html_table_parser.py:312-320 | the blocks from part `i` on, laid end to end, are the codes from block `i`'s start on |
| HtmlTableParser.BlocksPartition | src/html_table_parser.py:312-320 | the blocks partition the method codes: every code goes to exactly one part, in order |
| HtmlTableParser.Expand | src/html_table_parser.py:221-334 | expanding an item never loses it: at least one item comes out |
| HtmlTableParser.ExpandParts | src/html_table_parser.py:221-334 | an item stays whole unless its name has two valid fragments; then one item per fragment, the basis split one token each exactly when the counts agree and shared otherwise, and the method codes distributed in blocks when there are enough of them and shared otherwise |
| HtmlTableParser.ExpandMember | src/html_table_parser.py:221-334 | an expanded item is the original, or carries a valid, whitespace-free fragment of the original name |
| HtmlTableParser.FindInspectionItems | src/html_table_parser.py:88-337 | the items are those of the rows with an accepted name, in row order, each expanded in place |
| HtmlTableParser.FoundItemOrigin | src/html_table_parser.py:88-337 | every item found comes from some row whose name column holds an accepted name |
| HtmlTableParser.FoundItemRow | src/html_table_parser.py:106-216 | and it is an expansion of that row's item |
| FieldExtractor.TextLinesClean | src/field_extractor.py:26-32 | every line searched is a non-empty stripped string |
| FieldExtractor.TablesNonEmpty | src/field_extractor.py:35-39 | every table searched has a header row |
| FieldExtractor.KeywordColumn | src/field_extractor.py:61-66 | the target column is the first whose header text contains a keyword |
| FieldExtractor.FirstOf | src/field_extractor.py:213 | the first stop character, or the end of the text |
| FieldExtractor.DateAt | src/field_extractor.py:12 | a date match is at least eight characters and starts with four digits |
| FieldExtractor.DashedDateIsDate | src/field_extractor.py:11-14 | wherever the dashed pattern matches, the first pattern matches too |
| FieldExtractor.FirstDateFirstPattern | src/field_extractor.py:42-47 | the second date pattern never decides: the first pattern's leftmost match is the answer |
| FieldExtractor.FirstDateShape | src/field_extractor.py:42-47 | a date found is at least eight characters and starts with four digits |
| FieldExtractor.ProductionDateNone | src/field_extractor.py:50-81 | no production date exactly when no line holds a date and no table's date column does |
| FieldExtractor.ColumnDateFrom | src/field_extractor.py:67-73 | a column date is the date of some cell of that column |
| FieldExtractor.ProductionDateShape | src/field_extractor.py:50-81 | a production date found is a date match: at least eight characters, four digits first |
| FieldExtractor.LastRequirement | src/field_extractor.py:17 | the last position in a range where 要求 occurs |
| FieldExtractor.RequirementEnd | src/field_extractor.py:17 | a `…[^。；;\n]*要求` match ends right after a 要求 and crosses no stop character |
| FieldExtractor.ConclusionAt | src/field_extractor.py:16-18 | a conclusion match is non-empty and within the text |
| FieldExtractor.RequirementMatch | src/field_extractor.py:17 | a 符合/不符合 alternative match starts with its word and ends with 要求 |
| FieldExtractor.ConclusionAtPhrase | src/field_extractor.py:16-18 | what the conclusion pattern matches is one of the six conclusion phrases |
| FieldExtractor.NonConformingWhole | src/field_extractor.py:16-18 | "不合格" is never read as "合格": at the leftmost verdict it is found whole |
| FieldExtractor.ColumnCell | src/field_extractor.py:108-112 | the first non-empty stripped cell of the column, short rows skipped |
| FieldExtractor.ColumnValue | src/field_extractor.py:100-112 | a value from a table column is non-empty and stripped |
| FieldExtractor.ConclusionNone | src/field_extractor.py:117-150 | no conclusion exactly when no line holds a phrase and no conclusion column holds a non-empty cell |
| FieldExtractor.FirstConclusionPhrase | src/field_extractor.py:122-124 | a conclusion from a line is a conclusion phrase |
| FieldExtractor.ConclusionShape | src/field_extractor.py:117-150 | a conclusion is a phrase from a line, or the first non-empty cell of the conclusion column |
| FieldExtractor.AfterColon | src/field_extractor.py:90-94 | the text after the first colon, stripped, when non-empty |
| FieldExtractor.TokenEnd | src/field_extractor.py:95 | the `[^：:\s]+` run holds no colon and no whitespace |
| FieldExtractor.TokenAt | src/field_extractor.py:95 | the captured token follows the keyword and holds no colon and no whitespace |
| FieldExtractor.TokenAfter | src/field_extractor.py:95-97 | a token found is non-empty and has no whitespace |
| FieldExtractor.NameFromKeywords | src/field_extractor.py:88-97 | a name taken from a line is non-empty and stripped |
| FieldExtractor.ColonValueWins | src/field_extractor.py:89-94 | on a line with a name keyword, a non-empty text after the colon wins |
| FieldExtractor.TokenFallback | src/field_extractor.py:95-97 | without it, the token after the first keyword whose pattern matches is the name |
| FieldExtractor.FoodNameShape | src/field_extractor.py:84-114 | a food name found is non-empty and stripped |
| FieldExtractor.FoodNameNone | src/field_extractor.py:84-114 | no food name exactly when no line gives one and no name column holds a non-empty cell |
| FieldExtractor.GbCodeAt | src/field_extractor.py:20-23 | a code match starts with "GB", ends with a digit and is at least eight characters |
| FieldExtractor.GbMatchClean | src/field_extractor.py:165-166 | `match.strip()` keeps every match whole |
| FieldExtractor.CleanSlice | src/field_extractor.py:166 | a slice that starts with GB and ends with a digit is unchanged by stripping |
| FieldExtractor.GbCodesClean | src/field_extractor.py:164-166 | every code found in a text is clean |
| FieldExtractor.ExtractGbStandards | src/field_extractor.py:153-187 | the codes of the conclusion-context lines and then rows, each once, in first-seen order |
| FieldExtractor.AddFromTexts | src/field_extractor.py:172-185 | one scan: the list stays the first-seen distinct codes and `seen` holds exactly the listed codes |
| FieldExtractor.AddIfContext | src/field_extractor.py:173-176 | a text adds codes only when it mentions GB and a conclusion keyword or 经抽样检验 |
| FieldExtractor.AddCodes | src/field_extractor.py:162-169 | a text's unseen codes are appended in order and remembered |
| FieldExtractor.AddValues | src/field_extractor.py:165-169 | the loop over the matches keeps the list duplicate-free and in step with `seen` |
| FieldExtractor.GbStandardsMember | src/field_extractor.py:153-187 | a code is reported exactly when some conclusion-context line or row quotes it |
| FieldExtractor.GbStandardsLinesFirst | src/field_extractor.py:171-185 | the codes from text lines come first, before any code seen only in a table |
| FieldExtractor.GbStandardsClean | src/field_extractor.py:166 | every reported code is stripped |
| FieldExtractor.BookClose | src/field_extractor.py:207-208 | a title in book marks must open the tail, and ends at the first `》` |
| FieldExtractor.CharRunStart | src/field_extractor.py:222 | the start of the 的 run before a final 要求 |
| FieldExtractor.DropRequirement | src/field_extractor.py:222 | dropping a final (的)要求 only shortens the title from the end |
| FieldExtractor.TitleInside | src/field_extractor.py:206-222 | the title is stripped; a title in book marks holds no `》`, another no sentence stop |
| FieldExtractor.TitledFromCodes | src/field_extractor.py:197-234 | the codes of the successive matches are the code matches of the text, in order |
| FieldExtractor.TitledCodesCodes | src/field_extractor.py:195-234 | the titled scan finds the same codes as the plain scan |
| FieldExtractor.WithTitleSameCodes | src/field_extractor.py:153-252 | with or without titles, the same codes come out in the same order |
| FieldExtractor.WithTitleFirstWins | src/field_extractor.py:223-233 | an entry is reported exactly when it is the first found for its code |
| FieldExtractor.ExtractGbStandardsWithTitle | src/field_extractor.py:190-252 | the entries of the conclusion-context lines and then rows, first one per code |
| FieldExtractor.AddTitledFromTexts | src/field_extractor.py:238-250 | one scan keeps results, `seen` and `used_codes` in step with the entries found |
| FieldExtractor.AddTitledIfContext | src/field_extractor.py:239-242 | a text adds entries only in a conclusion context |
| FieldExtractor.AddTitledCodes | src/field_extractor.py:195-234 | the search loop over one text adds its entries in order |
| FieldExtractor.Record | src/field_extractor.py:223-233 | an empty code changes nothing; otherwise a new code-and-title pair is remembered and a code not yet used gives an entry |
| FieldExtractor.HeaderNames | src/field_extractor.py:261 | one name per header cell |
| FieldExtractor.RoleColumn | src/field_extractor.py:263-278 | each role goes to the first column whose name claims it |
| FieldExtractor.HeaderColumns | src/field_extractor.py:261-278 | the column map built by the loop gives every role its first claiming column, and none when no name claims it |
| FieldExtractor.ClaimColumn | src/field_extractor.py:264-278 | one header name claims each unclaimed role it matches and changes nothing else |
| FieldExtractor.ClaimRole | src/field_extractor.py:265-266 | one test: the role gets this column only when it had none |
| FieldExtractor.FirstClaim | src/field_extractor.py:263-278 | a column that claims the role, with none before it, is the role's column |
| FieldExtractor.GetCell | src/field_extractor.py:283-289 | the stripped cell text, or "" when there is no column, no such cell or a null |
| FieldExtractor.MapOfCol | src/field_extractor.py:262 | building the map loses no role's column |
| FieldExtractor.RowRecords | src/field_extractor.py:291-303 | the records of the rows after the header that have an item, value or standard, in order |
| FieldExtractor.ReadTable | src/field_extractor.py:258-303 | one table read: its column map, then its records |
| FieldExtractor.ExtractInspectionItems | src/field_extractor.py:255-308 | the records of the first table that gives any, after skipping tables without an item and a value column |
| FieldExtractor.ColumnsOfCol | src/field_extractor.py:263-278 | the column map is each role's first claiming column |
| FieldExtractor.ColEqual | src/field_extractor.py:262-278 | two column maps agreeing on every role are equal |
| FieldExtractor.KeptRecordsMember | src/field_extractor.py:291-303 | a record is kept exactly when it is some row's record and has content |
| FieldExtractor.InspectionItemsFirst | src/field_extractor.py:305-306 | only the first table that gives records is used, every table before it gives none, and there are no items exactly when no table gives any |
| FieldExtractor.TableItemsFrom | src/field_extractor.py:280-303 | a record comes only from a table with an item and a value column, from a row after its header, stripped and with content |
| GbVerifier.CacheKey | src/gb_verifier/__init__.py:45-46 | the key is the code, "_" and the production date |
| GbVerifier.CacheKeyInjective | src/gb_verifier/__init__.py:45-46 | for one production date, different codes never share a cache entry |
| GbVerifier.ErrorRecord | src/gb_verifier/__init__.py:157-165 | a check that raised fails with status "error", "验证失败" and the exception's text as its one reason |
| GbVerifier.DateErrorText | src/gb_verifier/validate.py:16-22 | a text of the wrong shape is reported with its `repr`; a year out of range as 0 is "year 0 is out of range" |
| GbVerifier.DateErrorMessages | src/gb_verifier/__init__.py:157-165 | the error record's text for a production date that does not parse: "empty date string" exactly for blank text; "invalid date format: " and a literal that reads back as the text; "year 0 is out of range"; "month must be in 1..12" exactly for a bad month; "day is out of range for month" exactly for a missing day |
| GbVerifier.FieldOf | src/gb_verifier/__init__.py:134-137 | a missing field of the scraped information reads as missing, a present one as its string |
| GbVerifier.ShapedRecord | src/gb_verifier/__init__.py:139-155 | the record passes exactly when validation did; the status is "valid" when passed, "obsolete" when the status text mentions 废止, "invalid" otherwise; one reason text per validation reason |
| GbVerifier.SingleRecord | src/gb_verifier/__init__.py:48-165 | a raised exception gives the error record with its text, and a production date that does not parse gives it with the date error's text; the status is one of the four and is "valid" exactly when the record passes |
| GbVerifier.SinglePassedIff | src/gb_verifier/__init__.py:133-155 | a record passes exactly when the production date parses, the standard is in force, its implementation date parses and production is not earlier |
| GbVerifier.RaisedRecord | src/gb_verifier/__init__.py:250-261 | an exception escaping a worker gives a failed "error" record with "未处理异常" and no timestamp |
| GbVerifier.UnconfiguredRecord | src/gb_verifier/__init__.py:182-192 | without a search service every code fails with status "unknown" and "未配置验证服务" |
| GbVerifier.ExpectedResults | src/gb_verifier/__init__.py:194-270 | a configured batch has a result for exactly the codes asked for |
| GbVerifier.CheckCache | src/gb_verifier/__init__.py:199-216 | each distinct code is a hit, served from a cache entry younger than 24 hours, or a miss; the misses are listed once each |
| GbVerifier.RunWorkers | src/gb_verifier/__init__.py:218-261 | every miss gets its worker's record, or the escaped-exception record; only returned records are collected, once per code |
| GbVerifier.WriteCache | src/gb_verifier/__init__.py:263-268 | exactly the collected records are written, each under its code's key, and every other entry is kept |
| GbVerifier.VerifyGbStandards | src/gb_verifier/__init__.py:167-270 | unconfigured: every code gets the unconfigured record and the cache is untouched; configured: hits from the cache, misses from the workers, and only returned records are cached |
| GbVerifier.ResultsAssembled | src/gb_verifier/__init__.py:199-261 | the cache check and the workers together give the expected results |
| GbVerifier.CacheAssembled | src/gb_verifier/__init__.py:263-268 | the cache written is the old cache updated at exactly the written keys |
| GbVerifier.WrittenAreReturned | src/gb_verifier/__init__.py:241-268 | the written keys are those of the misses whose worker returned |
| GbVerifier.HitEntryKept | src/gb_verifier/__init__.py:204-213 | a code served from the cache keeps its cache entry unchanged |
| GbVerifier.RaisedNotCached | src/gb_verifier/__init__.py:250-268 | a code whose worker raised gets the escaped-exception record but no new cache entry |
| GbVerifier.MissingRecord | src/gb_verifier/__init__.py:292-298 | the fallback record fails with "未知错误" |
| GbVerifier.VerifySingleGb | src/gb_verifier/__init__.py:273-298 | a single code's result is the batch's entry for it, so the fallback record is never returned; the cache changes only when its worker returned |
| GbVerifier.SingleCacheUpdate | src/gb_verifier/__init__.py:263-268 | for one code, the saved cache is the old one with at most that code's entry replaced |
| Text.CharFrom | src/gb_verifier/html_extractor.py:80 | the first position of a character at or after a point, or the end: the character is there and nowhere before it |
| Text.RemoveTagsFrom | src/gb_verifier/html_extractor.py:80 | removing tags never lengthens the text |
| Text.RemoveTags | src/gb_verifier/html_extractor.py:80 | removing tags never lengthens the text |
| Text.RemoveTagsPlain | src/gb_verifier/html_extractor.py:80 | text without `<` is left unchanged |
| Text.RemoveTagsLeavesNoTag | src/gb_verifier/html_extractor.py:80 | what is left holds no complete tag |
| Text.NoGtKept | src/gb_verifier/html_extractor.py:80 | removing tags adds no `>` |
| Text.StripKeepsNoTag | src/gb_verifier/html_extractor.py:80-82 | stripping keeps tag-free text tag-free |
| HtmlExtractor.ExtractTextBetween | src/gb_verifier/html_extractor.py:57-83 | no text when the start marker is missing; text found is non-empty, stripped and tag-free |
| HtmlExtractor.TextBetweenAt | src/gb_verifier/html_extractor.py:69-83 | with the first start marker and the first end marker after it, the answer is the tag-free, stripped text between them, or None when that is empty |
| HtmlExtractor.TextBetweenFound | src/gb_verifier/html_extractor.py:69-83 | once both searches are known, the answer is the tag-free, stripped text between them, or None when empty |
| HtmlExtractor.TextBetweenMarkers | src/gb_verifier/html_extractor.py:69-83 | text found lies between the first start marker and the first end marker after it, and is that stretch without tags, stripped |
| HtmlExtractor.TextBetweenNeedsEnd | src/gb_verifier/html_extractor.py:74-76 | no text when the end marker does not follow the first start marker |
| HtmlExtractor.CodeRunEnd | src/gb_verifier/html_extractor.py:111 | the `[\d\.-]+` run holds only digits, dots and dashes, and stops at the first other character |
| HtmlExtractor.TitleCodeAt | src/gb_verifier/html_extractor.py:111 | a title match is `<span>GB`, whitespace, then code characters up to a non-code character; and any span of that form is the one found at its start |
| HtmlExtractor.TitleMatchUnique | src/gb_verifier/html_extractor.py:111 | the greedy repetitions leave one possible end: after the whitespace run, at the end of the code run |
| HtmlExtractor.CodeRunEndIs | src/gb_verifier/html_extractor.py:111 | a code-character run that stops at a point ends there |
| HtmlExtractor.TitleCode | src/gb_verifier/html_extractor.py:110-113 | None exactly when the pattern matches nowhere; otherwise group 1 of the leftmost match, "GB" and more |
| HtmlExtractor.LastGt | src/gb_verifier/html_extractor.py:120 | the position of the last `>`, or -1 |
| HtmlExtractor.AfterLastGt | src/gb_verifier/html_extractor.py:118-120 | a value without `>` is kept; otherwise the stripped text after its last `>`, which holds no `>` |
| HtmlExtractor.DateField | src/gb_verifier/html_extractor.py:115-129 | a date exactly when the text between the header and the next `</td>` is non-empty; it is that text after its last `>` |
| HtmlExtractor.AbolishField | src/gb_verifier/html_extractor.py:131-141 | the abolition date cell's value, except that "暂无" gives no date |
| HtmlExtractor.StatusSection | src/gb_verifier/html_extractor.py:146-151 | the raw HTML from the first status header to the first implementation-date header at or after it; present whenever text lies between the two headers |
| HtmlExtractor.WordStatus | src/gb_verifier/html_extractor.py:158-164 | 现行 or 有效 give 现行有效 first; then 废止 or 作废 give 已废止; then 即将实施; otherwise nothing |
| HtmlExtractor.StatusField | src/gb_verifier/html_extractor.py:143-164 | no status without text between the headers; otherwise yjfz.gif in the raw section gives 已废止, else xxyx.gif gives 现行有效, else (first copy only) the words of the tag-free section decide |
| HtmlExtractor.ExtractStandardInfo | src/gb_verifier/html_extractor.py:86-166 | the number is the title's, the dates are the date cells', the abolition date is never "暂无", and the status is the status field's |
| HtmlExtractor.AbolishedImageWins | src/gb_verifier/html_extractor.py:152-153 | the abolished image decides over the in-force image, in both copies |
| HtmlExtractor.InForceImageWins | src/gb_verifier/html_extractor.py:154-155 | without the abolished image, the in-force image gives 现行有效, in both copies |
| HtmlExtractor.InForceWordsFirst | src/gb_verifier/html_extractor.py:159-162 | words saying both 有效 and 废止 read as in force |
| HtmlExtractor.CopiesDifferOnlyInFallback | src/verifier2/verifier2/html_extractor.py:131-145 | where the second copy gives a status, the first gives the same one |
| HtmlExtractor.ImageOnlySectionHasNoStatus | src/gb_verifier/html_extractor.py:144-145 | a status section with only images and no text gives no status at all, whatever the images say |
| FoodmateExtract.Window | src/gb_verifier/foodmate_extract.py:22 | a window clamped to the text is no longer than asked |
| FoodmateExtract.YmdAt | src/gb_verifier/foodmate_extract.py:8 | a match at a point exactly when ten characters of the form dddd-dd-dd stand there with a word boundary on either side; it ends ten characters on |
| FoodmateExtract.FirstDate | src/gb_verifier/foodmate_extract.py:11-13 | a date found is a dddd-dd-dd date in the text |
| FoodmateExtract.FirstDateLeftmost | src/gb_verifier/foodmate_extract.py:11-13 | None exactly when no date stands on its own; otherwise the leftmost such date |
| FoodmateExtract.AllDates | src/gb_verifier/foodmate_extract.py:31 | every date `findall` returns is a dddd-dd-dd date; the list is empty exactly when `FirstDate` finds nothing, and otherwise starts with its date |
| FoodmateExtract.LoneDateFound | src/gb_verifier/foodmate_extract.py:8-13 | a date on its own is found whole, and only once |
| FoodmateExtract.GluedDateSkipped | src/gb_verifier/foodmate_extract.py:8 | a date glued to a letter before it has no word boundary and is not found |
| FoodmateExtract.DateNear | src/gb_verifier/foodmate_extract.py:20-25 | no date without the label; otherwise the first date in the given number of characters from the label's first occurrence |
| FoodmateExtract.DateNearAt | src/gb_verifier/foodmate_extract.py:20-22 | with the label first at a point, the date is the first one in the window from there |
| FoodmateExtract.GbYearAt | src/gb_verifier/foodmate_extract.py:28 | a "GB n-yyyy" match is non-empty |
| FoodmateExtract.CodeWindowDates | src/gb_verifier/foodmate_extract.py:28-31 | no dates without a "GB n-yyyy" code; otherwise every date of the 1200 characters from the leftmost code, in order |
| FoodmateExtract.ExtractDatesFromSearchPage | src/gb_verifier/foodmate_extract.py:16-37 | the publication date is the labelled one, else the first date of the code window; the implementation date is the labelled one, else the second date of the code window; both are dddd-dd-dd |
| FoodmateExtract.FallbackNeedsCode | src/gb_verifier/foodmate_extract.py:27-35 | without a "GB n-yyyy" code the dates are exactly the labelled ones |
| FoodmateExtract.LabelDatesWin | src/gb_verifier/foodmate_extract.py:27 | with both labels dated, the code window is not consulted |
| FoodmateExtract.LinkAt | src/gb_verifier/foodmate_extract.py:41 | a link found at a point ends after it, within the text |
| FoodmateExtract.LinkTail | src/gb_verifier/foodmate_extract.py:41 | the digits, '/', digits and ".html" part found at a point ends after it, within the text |
| FoodmateExtract.LinkAtSpan | src/gb_verifier/foodmate_extract.py:41 | what the link matcher finds is "http", an optional "s", the site prefix, digits, '/', digits and ".html" |
| FoodmateExtract.LinkTailSpan | src/gb_verifier/foodmate_extract.py:41 | what the tail matcher finds is digits, '/', digits and ".html" |
| FoodmateExtract.LinkAtEnd | src/gb_verifier/foodmate_extract.py:41 | any link of that form starting at a point is the match found there: the pattern allows no other end |
| FoodmateExtract.LinkTailEnd | src/gb_verifier/foodmate_extract.py:41 | the digits-slash-digits tail allows one end only |
| FoodmateExtract.DetailUrlAt | src/gb_verifier/foodmate_extract.py:41 | a detail link found at a point is a span of the detail-link form |
| FoodmateExtract.DetailUrlAtEnd | src/gb_verifier/foodmate_extract.py:41 | every span of the detail-link form is found by the matcher at its start, ending where it ends |
| FoodmateExtract.NoDetailUrlSpan | src/gb_verifier/foodmate_extract.py:41-42 | where the matcher finds nothing, no span of the page is a detail link |
| FoodmateExtract.DetailUrlSpanShape | src/gb_verifier/foodmate_extract.py:41 | a detail link starts with "http" and ends with ".html" |
| FoodmateExtract.FirstDetailUrl | src/gb_verifier/foodmate_extract.py:41-42 | the leftmost match is a detail link, a piece of the page starting with "http" and ending with ".html" |
| FoodmateExtract.ExtractDetailUrl | src/gb_verifier/foodmate_extract.py:40-42 | None exactly when no span of the page is a detail link; otherwise the leftmost match, which starts with "http" and ends with ".html" |
| FoodmateExtract.StatusAnchor | src/gb_verifier/foodmate_extract.py:46-53 | the first "GB n" if it occurs, else the first bare number, else -1 exactly when neither occurs |
| FoodmateExtract.StatusFromWords | src/gb_verifier/foodmate_extract.py:62-69 | in-force words give 现行有效 first; then abolished words give 已废止; then 即将实施; otherwise nothing |
| FoodmateExtract.ExtractStatusForGb | src/gb_verifier/foodmate_extract.py:45-71 | no status when the standard is not mentioned; otherwise, within 400 characters either side of the anchor, the abolished image, then the in-force image, then the words decide; a status is one of the three |
| FoodmateExtract.ExtractStatusFromAny | src/gb_verifier/foodmate_extract.py:74-83 | a status exactly when the serialised response holds one of the two images; the in-force image wins |
| FoodmateExtract.WindowInside | src/gb_verifier/foodmate_extract.py:54 | a window is a piece of the text |
| FoodmateExtract.OppositePrecedence | src/gb_verifier/foodmate_extract.py:55-58 | with both images near the number, the page reader says abolished while the whole-response reader says in force |
| FoodmateExtract.FirstLabel | src/gb_verifier/foodmate_extract.py:90-93 | the first alternative label that occurs, every earlier one being absent, or -1 exactly when none occurs |
| FoodmateExtract.ExtractAbolishDate | src/gb_verifier/foodmate_extract.py:86-94 | "废止日期", when it occurs, alone decides, as the first date within 300 characters of it; otherwise 作废日期, 停止实施日期 and 废止时间 are tried in that order; a date found is dddd-dd-dd |
| Runner.Initial | src/gb_verifier/runner.py:138-146 | the starting record holds the number and its search page and nothing else |
| Runner.SearchFoldKeepsIdentity | src/gb_verifier/runner.py:149-155 | the search-page loop never changes the number, the search page or the abolition date |
| Runner.SearchFoldFirstUrl | src/gb_verifier/runner.py:152-153 | the detail link is the first one any candidate holds |
| Runner.SearchFoldKeepsUrl | src/gb_verifier/runner.py:152 | once found, the link stays |
| Runner.SearchFoldFirstStatus | src/gb_verifier/runner.py:154-155 | the status is the first one any candidate shows near the number |
| Runner.SearchFoldKeepsStatus | src/gb_verifier/runner.py:154 | once found, the status stays |
| Runner.SearchFoldKeepsDates | src/gb_verifier/runner.py:150 | once both dates are known, later candidates leave them alone |
| Runner.EarlierDateCanBeLost | src/gb_verifier/runner.py:150-151 | while one date is missing a candidate re-assigns both, and can erase a date found earlier |
| Runner.PreferExtractedUrl | src/gb_verifier/runner.py:158-160 | a non-empty URL from the detail extract, markdown first, replaces the search-page link |
| Runner.AbolishFoldFirst | src/gb_verifier/runner.py:163-165 | the abolition date is the first one a detail page gives, and nothing else changes |
| Runner.AbolishFoldKeeps | src/gb_verifier/runner.py:164 | once found, the abolition date stays |
| Runner.StatusFallback | src/gb_verifier/runner.py:168-169 | a status already set is kept; otherwise the image markers of the text response, then of the search response, decide |
| Runner.BuildResult | src/gb_verifier/runner.py:137-169 | the finished record: the number, its search page, the first abolition date, the preferred detail link and the first status found near the number |
| Runner.FirstStatusTruthy | src/gb_verifier/runner.py:154-155 | a status found near the number is never empty, so the final fallback leaves it alone |
| Runner.Excerpt | src/gb_verifier/runner.py:246-258 | without the start marker the whole page; otherwise a piece of the page starting at the first start marker |
| Runner.ExcerptSpan | src/gb_verifier/runner.py:247-256 | with the start marker, the piece runs from its first occurrence up to the first end marker after it, or to the end of the page, and holds no end marker |
| Runner.EndMarkerAfterStart | src/gb_verifier/runner.py:249-252 | the end marker searched from the start marker is never found inside it |
| Runner.Merge | src/gb_verifier/runner.py:266-278 | values the page gave overwrite, absent ones do not, and both URLs are kept |
| Runner.MergeIdempotent | src/gb_verifier/runner.py:273-275 | merging the same page twice changes nothing more |
| Runner.MergeNothing | src/gb_verifier/runner.py:273-278 | a page that yields nothing leaves the record as it was |
| Runner.Parsed.constructor | src/gb_verifier/runner.py:138-146 | the record starts as the initial record |
| Runner.Parsed.FoldSearchPages | src/gb_verifier/runner.py:148-155 | the loop over the candidates updates the record as the search-page fold says |
| Runner.Parsed.TakeSearchPage | src/gb_verifier/runner.py:149-155 | one candidate: dates while one is missing, the link while none, the status while none |
| Runner.Parsed.TakeExtractedUrl | src/gb_verifier/runner.py:157-160 | the record after the link override |
| Runner.Parsed.FoldDetailPages | src/gb_verifier/runner.py:162-165 | the loop over the detail pages sets the first abolition date |
| Runner.Parsed.FallBackOnMarkers | src/gb_verifier/runner.py:167-169 | the record after the final status fallback |
| Runner.Parsed.Overwrite | src/gb_verifier/runner.py:272-278 | the loop over the five fields leaves the merged record |
| Runner.Parsed.UpdateFromDetailPage | src/gb_verifier/runner.py:214-290 | no link: failure with "未找到详情页URL" and nothing changed; a fetch error: failure with its message and nothing changed; otherwise success, the page, its excerpt saved and the record merged with what the page gives |
| Runner.BuildParsed | src/gb_verifier/runner.py:137-169 | the record built step by step is the finished record |
| McpClient.DataPayload | src/verifier2/mcp_client.py:20-23 | only a line that starts, once stripped, with `data:` has a payload, which is stripped |
| McpClient.LineMessage | src/verifier2/mcp_client.py:20-31 | a line gives one message exactly when its payload is non-empty and decodes to an object, and none otherwise |
| McpClient.SseMessages | src/verifier2/mcp_client.py:17-32 | at most one message per line, each an object |
| McpClient.SseMessagesAppend | src/verifier2/mcp_client.py:19-31 | each line is decoded on its own: the messages of two stretches of lines are the two lists one after the other |
| McpClient.TwoDataLinesTwoMessages | src/verifier2/mcp_client.py:19-31 | two data lines give two messages, in order, never one joined message |
| McpClient.ParseSseMessageJson | src/verifier2/mcp_client.py:17-32 | the loop over the lines returns the decoded messages in order |
| McpClient.Payload | src/verifier2/mcp_client.py:89-91 | the request carries version 2.0, the id and the method, and params exactly when some are given |
| McpClient.MessageWithId | src/verifier2/mcp_client.py:96-98 | the first message whose id equals the request's, or none when no message has it |
| McpClient.SelectReply | src/verifier2/mcp_client.py:94-101 | the transport is "sse" exactly when the body holds raw text with some message, and then the reply is an object message with the raw text kept; otherwise the body as it came |
| McpClient.StreamedReplyChoice | src/verifier2/mcp_client.py:96-100 | a stream answers with the message carrying the request's id, or the first message when none does |
| McpClient.FindTool | src/verifier2/mcp_client.py:104-108 | the first tool with exactly that name, or none when no tool has it |
| McpClient.Candidates | src/verifier2/mcp_client.py:112-117 | the candidates are the tools mentioning search, at most one per tool |
| McpClient.FirstNamed | src/verifier2/mcp_client.py:119-121 | the first candidate that is a non-empty name whose lower-cased form is the preference, or none |
| McpClient.Preferred | src/verifier2/mcp_client.py:118-121 | a preferred name is a candidate |
| McpClient.CollectCandidates | src/verifier2/mcp_client.py:112-117 | the first loop raises AttributeError exactly when some tool cannot be read, and otherwise collects exactly the candidates |
| McpClient.PickSearchTool | src/verifier2/mcp_client.py:111-122 | AttributeError exactly when some tool is not a dict or has a truthy name or description that is not a string; otherwise the first candidate of the first preference met, else the first candidate as the tool gave it, else None |
| McpClient.TavilySearchWins | src/verifier2/mcp_client.py:118-121 | among readable tools, a tool named "tavily_search", in any case, is always the one picked |
| McpClient.CandidateOf | src/verifier2/mcp_client.py:113-117 | every tool mentioning search is a candidate |
| McpClient.PickedIsCandidate | src/verifier2/mcp_client.py:111-122 | from readable tools the pick never raises; it is a candidate when there are any, and None when there are none |
| McpClient.UnreadableToolRaises | src/verifier2/mcp_client.py:113-115 | a tool that is not a dict, or whose name is truthy but not a string, makes the pick raise AttributeError |
| McpClient.QueryKey | src/verifier2/mcp_client.py:130-137 | the query key is the first of query, q, text, input that `in` finds in the properties (a key of a dict, a substring of a string, an element of a list), else "query" |
| McpClient.Present | src/verifier2/mcp_client.py:141-148 | the optional settings kept are exactly those whose key the properties name |
| McpClient.PresentDistinct | src/verifier2/mcp_client.py:141-148 | no optional key is set twice |
| McpClient.Optionals | src/verifier2/mcp_client.py:141-148 | max_results 10, search_depth "advanced", include_domains and include_raw_content, each exactly when the properties name it |
| McpClient.OptionalsDistinct | src/verifier2/mcp_client.py:141-148 | the optional keys are distinct |
| McpClient.QueryKeyNotOptional | src/verifier2/mcp_client.py:130-148 | the query key is never one of the optional keys, so the query is never overwritten |
| McpClient.AddRequiredsExtends | src/verifier2/mcp_client.py:150-163 | when no entry raises, required keys only add entries after those already set, never repeat one, and each is a named required property |
| McpClient.RequiredsErrStays | src/verifier2/mcp_client.py:150-163 | once a required entry raises, the later ones are not reached and the error stands |
| McpClient.UnhashableRequiredRaises | src/verifier2/mcp_client.py:151-152 | a required name that is a list or a dict makes the call raise |
| McpClient.RequiredsReadable | src/verifier2/mcp_client.py:150-163 | dict properties whose values are dicts or falsy, with hashable required names, never raise |
| McpClient.WellFormedToolArgs | src/verifier2/mcp_client.py:125-165 | a dict tool with such properties always gets its arguments |
| McpClient.BaseDistinct | src/verifier2/mcp_client.py:139-148 | the query and the optional settings have distinct keys |
| McpClient.ArgsShape | src/verifier2/mcp_client.py:125-165 | when nothing raises, the arguments are the query first under its key, then the optional settings, then the defaults of required properties, no key twice |
| McpClient.BuildToolArgs | src/verifier2/mcp_client.py:125-165 | the method gives exactly the result of `build_tool_args`: AttributeError for a tool that is not a dict, TypeError for properties that are a number or a boolean, the errors of the required entries, else the arguments |
| McpClient.AddDefaults | src/verifier2/mcp_client.py:150-163 | the loop over the required names adds each missing named one with its type's default, and stops at the first entry that raises |
| McpClient.NullResultAsymmetry | src/verifier2/mcp_client.py:47-52 | a plain reply with a null result is accepted, while a streamed message with a null result is not |
| McpClient.InitRequest | src/verifier2/mcp_client.py:36-45 | the initialize request has id 1, method "initialize" and object params |
| RagflowClient.Headers | src/ragflow_client.py:18-21 | bearer authentication with the client's key |
| RagflowClient.InspectionQuestion | src/ragflow_client.py:26-34 | the custom query when one is given, else the food name followed by 检验项目 |
| RagflowClient.TestMethodsQuestion | src/ragflow_client.py:40 | the item name followed by 检测方法 |
| RagflowClient.GbStandardQuestion | src/ragflow_client.py:47 | "GB " followed by the number |
| RagflowClient.StandardLimitQuestion | src/ragflow_client.py:56 | the code, a space, the item, then " 标准限量 指标要求" |
| RagflowClient.IndicatorQuestion | src/ragflow_client.py:59-64 | the limit question, under "GB 2763" when no code is given |
| RagflowClient.TargetIds | src/ragflow_client.py:88-94 | never empty: the given list, else the given id, else the client's own |
| RagflowClient.QueryIds | src/ragflow_client.py:73 | `query` asks the given list, else the client's knowledge base, as `_search` would |
| RagflowClient.ContentOf | src/ragflow_client.py:174-178 | the first non-empty of content, content_with_weight and content_ltks; empty exactly when all three are |
| RagflowClient.First | src/ragflow_client.py:185-186 | indexing with 0 gives the first item of a list, and raises on an object |
| RagflowClient.PositionPage | src/ragflow_client.py:183-186 | the page is `positions[0][0]` when the first position is a non-empty list; no positions gives no page |
| RagflowClient.PageNumOf | src/ragflow_client.py:189-198 | the page number is never falsy: the position's page, else page_num or page_num_int, else 1 |
| RagflowClient.ProcessChunk | src/ragflow_client.py:172-199 | a chunk that is not an object raises; a record keeps the chunk's content, similarity, id and document name, with a non-falsy page |
| RagflowClient.ProcessAll | src/ragflow_client.py:166-201 | records for all chunks, one each in order, exactly when no chunk raises |
| RagflowClient.ProcessResults | src/ragflow_client.py:166-201 | the loop gives those records |
| RagflowClient.SearchResults | src/ragflow_client.py:146-164 | any status other than 200, or a body that cannot be read, gives no results |
| RagflowClient.SearchResultsPerChunk | src/ragflow_client.py:146-154 | a successful response gives one record per chunk, in order |
| RagflowClient.Obtain | src/ragflow_client.py:206-222 | an existing client is kept; otherwise one is made exactly when URL, key and knowledge base are all set, from those values |
| RagflowClient.ObtainFirstWins | src/ragflow_client.py:212 | once a client exists, later configurations never change it |
| RagflowClient.Registry.GetClient | src/ragflow_client.py:206-222 | the stored client is updated as `Obtain` says and returned |
| RagflowClient.Registry.constructor | src/ragflow_client.py:203-204 | the module starts with no client |
| FastgptClient.DigitsAt | src/fastgpt_client.py:140 | the maximal run of ASCII digits at a position, none exactly when no digit is there |
| FastgptClient.ItemsThenSerial | src/fastgpt_client.py:140 | the first alternative captures only digits |
| FastgptClient.DigitsThenSerial | src/fastgpt_client.py:140 | the second alternative captures only digits |
| FastgptClient.PageLabel | src/fastgpt_client.py:140 | the third alternative captures only digits |
| FastgptClient.TrailingDigits | src/fastgpt_client.py:140 | the fourth alternative, digits at the end, captures only digits |
| FastgptClient.PageAt | src/fastgpt_client.py:139-145 | the capture at a position is that of the first alternative matching there |
| FastgptClient.PageFrom | src/fastgpt_client.py:139-145 | a page number found is all digits; none exactly when no alternative matches from the point on |
| FastgptClient.PageFromLeftmost | src/fastgpt_client.py:139-145 | a page number found is the capture at the leftmost position where some alternative matches |
| FastgptClient.ExtractPageNumber | src/fastgpt_client.py:133-147 | the page is all digits or empty, and empty for an empty text |
| FastgptClient.NoDigitNoPage | src/fastgpt_client.py:139-147 | a text without a digit has no page |
| FastgptClient.DigitsToEnd | src/fastgpt_client.py:140 | a run of digits reaching the end of the text is taken whole |
| FastgptClient.PageLabelled | src/fastgpt_client.py:140 | "页码" followed by a number gives that number |
| FastgptClient.WholeNumberIsPage | src/fastgpt_client.py:140 | a text that is only a number is its own page |
| FastgptClient.SerialNumbered | src/fastgpt_client.py:140 | a number right before "序号" is the page, whatever follows |
| FastgptClient.ItemScore | src/fastgpt_client.py:103-107 | an item that is not an object has no score |
| FastgptClient.PickIsFirstMax | src/fastgpt_client.py:99-110 | the pick is the first item with the greatest score, which beats -1; no pick leaves -1 |
| FastgptClient.TieKeepsEarlier | src/fastgpt_client.py:108 | a later item with an equal score does not replace the earlier one |
| FastgptClient.SelectBest | src/fastgpt_client.py:99-110 | the loop over the results gives that pick, or the error a comparison raised |
| FastgptClient.PickErrStays | src/fastgpt_client.py:103-110 | once reading a score raises, the whole selection raises with that error |
| FastgptClient.BestOf | src/fastgpt_client.py:115-131 | the result carries the best score as its similarity and the chosen item as its raw data |
| FastgptClient.BestResult | src/fastgpt_client.py:69-131 | a reply that is a number, a boolean or null raises TypeError at `"error" in result`; an error reply, a reply that is not an object or has no data, or an empty result list gives no result |
| FastgptClient.BestResultIsFirstMax | src/fastgpt_client.py:99-131 | a result is the first item with the greatest score, above -1, with that score as its similarity |
| FastgptClient.GetBestResult | src/fastgpt_client.py:69-131 | the method computes exactly that result, the TypeError included |
| FastgptClient.PdfUrl | src/fastgpt_client.py:216-220 | the rules document when the source mentions 细则, else the residue standard when it mentions GB or 2763, else none |
| TableMerger.CellOpenAt | src/table_merger.py:92 | `<t[dh]` is three characters starting with `<t` |
| TableMerger.FirstRowText | src/table_merger.py:92 | the text before the first `</tr>`, or all of it when there is none |
| TableMerger.PrefixAvoids | src/table_merger.py:92 | the text before the first `</tr>` holds no `</tr>` |
| TableMerger.ColumnCount | src/table_merger.py:85-96 | without HTML, the length of the first row, or 0 with no rows |
| TableMerger.RowTagAt | src/table_merger.py:107 | a row match is `<tr`, attributes, `>`, then the shortest content up to `</tr>` |
| TableMerger.HtmlRowsAreRows | src/table_merger.py:199 | every row found is a whole `<tr …>…</tr>` element |
| TableMerger.CellCloseFrom | src/table_merger.py:109 | a cell's content ends at the first closing cell tag, and never crosses a line break |
| TableMerger.CellAt | src/table_merger.py:109 | the captured content lies inside the match |
| TableMerger.CellContents | src/table_merger.py:109 | one content per cell match |
| TableMerger.CleanHtml | src/table_merger.py:113-116 | the cleaned text is stripped and holds no complete tag; text without `<` is only stripped |
| TableMerger.Header | src/table_merger.py:98-111 | the first row when there are rows; none without rows and HTML |
| TableMerger.Similarity | src/table_merger.py:118-137 | headers of different lengths, or empty ones, have similarity 0 |
| TableMerger.ShouldMergeNeeds | src/table_merger.py:57-83 | tables merge only with equal, non-zero column counts and two headers |
| TableMerger.HeaderLengthsMustAgree | src/table_merger.py:79-81 | with a positive threshold, headers of different lengths never merge |
| TableMerger.Merger | src/table_merger.py:13-20 | the test uses the merger's ratio and threshold |
| TableMerger.PairsWith | src/table_merger.py:51-53 | each pair holds this table and a table of the next page that passes the test |
| TableMerger.PagePairs | src/table_merger.py:50-53 | each pair holds a table of each page and passes the test |
| TableMerger.GroupsArePairs | src/table_merger.py:35-55 | every group joins a table of some page with one of the page numbered one higher, and passes the test |
| TableMerger.DetectCrossPageTables | src/table_merger.py:22-55 | the loops over consecutive pages give exactly the groups, in page order |
| TableMerger.PairsOfPages | src/table_merger.py:50-53 | the outer loop over the first page's tables |
| TableMerger.PairsOfTable | src/table_merger.py:51-53 | the inner loop over the next page's tables |
| TableMerger.KeptRows | src/table_merger.py:175-181 | the first table gives all its rows; a later one drops its header row when asked and it has rows |
| TableMerger.SourcePages | src/table_merger.py:169-170 | at most one page per table |
| TableMerger.MergedRowsCount | src/table_merger.py:167-181 | every row is kept except one header of each later table that has rows, when headers are removed |
| TableMerger.MergedRowsStartWithFirst | src/table_merger.py:175-177 | the first table's rows come first, unchanged |
| TableMerger.MergedHtmlFramed | src/table_merger.py:189-209 | the merged HTML is one table element, opening with all rows of the first table |
| TableMerger.HtmlBodyStartsWithFirst | src/table_merger.py:201-203 | the body begins with all the rows of the first table |
| TableMerger.HeaderOnlyAddsNothing | src/table_merger.py:205-206 | a later table with at most one row adds nothing to the HTML |
| TableMerger.Merge | src/table_merger.py:139-187 | no tables give an empty table, one table is returned as is; several give a cross-page table of their merged rows and pages, with HTML exactly when the first has HTML |
| TableMerger.MergeTables | src/table_merger.py:139-187 | the method computes exactly that table |
| TableMerger.MergeRows | src/table_merger.py:167-181 | the loop gives the merged rows and the source pages |
| TableMerger.MergeHtmlTables | src/table_merger.py:189-209 | the loop gives the merged HTML |
| TableMerger.ColumnCounts | src/table_merger.py:238 | exactly the lengths of the rows |
| TableMerger.ValidateMerge | src/table_merger.py:211-248 | valid exactly when there are rows; a warning about no rows exactly then, about columns exactly when two rows differ in length; the counts and pages reported |
| TableMerger.ValidateMerged | src/table_merger.py:139-248 | a merge of several tables is valid exactly when some row survives, and counts at most one page per table |
| CellParser.CleanLines | src/cell_parser.py:39-45 | every kept line is non-empty and stripped |
| CellParser.CleanLine | src/cell_parser.py:41-43 | a line is kept, stripped, exactly when stripping leaves something |
| CellParser.CleanLinesAppend | src/cell_parser.py:39-45 | cleaning two blocks of lines gives the cleaned lines of each, in order |
| CellParser.CleanLinesMembers | src/cell_parser.py:39-45 | a line is in the result exactly when it is non-empty and some input line strips to it |
| CellParser.CleanLinesKeeps | src/cell_parser.py:39-45 | lines already stripped and non-empty come back unchanged |
| CellParser.MultilineContent | src/cell_parser.py:32-45 | an empty cell has no lines |
| CellParser.ExtractMultilineContent | src/cell_parser.py:17-45 | the loop over the split lines gives exactly those lines |
| CellParser.MultilineRoundTrip | src/cell_parser.py:32-45 | stripped, non-empty single lines joined with newlines come back as they were |
| CellParser.Levels | src/cell_parser.py:156-164 | one level entry per line |
| CellParser.ParseHierarchicalContent | src/cell_parser.py:136-166 | the structure is "hierarchical" with one level entry per line of the cell |
| CellParser.HierarchyIsFlat | src/cell_parser.py:149-164 | since the lines arrive stripped, every entry has indent 0 and level 0 |
| CellParser.LevelsAt | src/cell_parser.py:156-164 | the entry at each position is the level of that line |
| CellParser.NumberingEnd | src/cell_parser.py:186 | the longest run of digits, dots, dashes, stars and whitespace from a position |
| CellParser.StripNumbering | src/cell_parser.py:186 | the result is a suffix of the line, what was removed is all numbering, and the result does not start with numbering |
| CellParser.FoodItem | src/cell_parser.py:186-188 | a line gives its de-numbered text exactly when that is non-empty |
| CellParser.FoodItemsShape | src/cell_parser.py:181-190 | every food item is non-empty, starts without numbering, and is what is left of some line |
| CellParser.NumberingOnlyLine | src/cell_parser.py:186-188 | a line of numbering only gives no item |
| CellParser.ExtractFoodItems | src/cell_parser.py:168-190 | the loop gives the food items of the cell's lines |
| CellParser.MergeBlankCells | src/cell_parser.py:207-208 | blank cells merge to nothing; one non-blank cell merges to itself stripped |
| CellParser.MergeThenSplit | src/cell_parser.py:207-208 | cells merged with a newline split back into their stripped, non-blank texts |
| CellParser.WithinIsInside | src/cell_parser.py:105-119 | a text box wholly inside the cell is inside it |
| CellParser.InsideNeedsBoxes | src/cell_parser.py:105-119 | nothing is inside a cell whose corners are reversed, nor without a box of four numbers |
| CellParser.KeptLines | src/cell_parser.py:71-79 | every kept line has non-empty stripped text and a box of at least four numbers |
| CellParser.InsertPerm | src/cell_parser.py:82-84 | inserting adds exactly the one line |
| CellParser.InsertSorted | src/cell_parser.py:82-84 | inserting into lines ordered by top keeps them ordered |
| CellParser.InsertStable | src/cell_parser.py:82-84 | inserting puts the new line after the lines with the same top |
| CellParser.SortByTopSpec | src/cell_parser.py:82-84 | the sort orders by top edge, is a permutation, and keeps lines with equal tops in input order |
| CellParser.ParseCellStructure | src/cell_parser.py:47-88 | the structure holds the cell's box, the kept lines in sorted order, and their count |
| CellParser.CellStructureLines | src/cell_parser.py:71-86 | the lines run top to bottom, are exactly the kept lines, and are non-blank and stripped |
| CellParser.KeptLinesInside | src/cell_parser.py:71-79 | each kept line comes from an OCR result inside the cell |
| CellParser.PreserveThenSplit | src/cell_parser.py:121-134 | joining single-line texts in order and splitting again gives back those texts |
| PackageImageProcessor.RunEnd | src/package_image_processor.py:57 | the greedy run of a character class from a position |
| PackageImageProcessor.LastNonBreak | src/package_image_processor.py:24-27 | the last position before a bound that is not a line break, or none when all are |
| PackageImageProcessor.SuffixEnd | src/package_image_processor.py:57 | the optional `-digits` suffix ends after at least one digit, or is absent |
| PackageImageProcessor.NumberEnd | src/package_image_processor.py:57 | a code's number ends in a digit |
| PackageImageProcessor.CodeEnd | src/package_image_processor.py:57-59 | a code starts with a letter and ends with a digit |
| PackageImageProcessor.DashedDateEnd | src/package_image_processor.py:90 | a match is a four-digit year, separator, one or two digits, separator, one or two digits |
| PackageImageProcessor.AfterDateLabel | src/package_image_processor.py:90-91 | the date starts after the label and its colon |
| PackageImageProcessor.LineAt | src/package_image_processor.py:24-27 | the capture follows the label and is a non-empty run without line breaks |
| PackageImageProcessor.CodeAt | src/package_image_processor.py:57-59 | the capture starts with a letter and ends with a digit |
| PackageImageProcessor.BareGbAt | src/package_image_processor.py:72 | the capture starts with "GB" in any case and ends with a digit |
| PackageImageProcessor.DateAt | src/package_image_processor.py:90-91 | the capture has the date shape; the second pattern takes exactly eight digits |
| PackageImageProcessor.PeriodAt | src/package_image_processor.py:124 | a period starts with a digit and ends with 月, 天 or 年 |
| PackageImageProcessor.CaptureAt | src/package_image_processor.py:31 | a capture lies inside the text |
| PackageImageProcessor.Search | src/package_image_processor.py:31 | the search answers with a position where the pattern matches |
| PackageImageProcessor.SearchLeftmost | src/package_image_processor.py:31 | that position is the leftmost, and no answer means no match anywhere |
| PackageImageProcessor.SearchFinds | src/package_image_processor.py:31 | the first matching position is the answer |
| PackageImageProcessor.GroupNeedsHead | src/package_image_processor.py:24-27 | a line pattern matches only where its label occurs |
| PackageImageProcessor.LineGroup | src/package_image_processor.py:24-27 | its group is a non-empty piece of one line of the text |
| PackageImageProcessor.KeptEnd | src/package_image_processor.py:38 | the end of the text once its trailing run of non-Chinese, non-alphanumeric characters is gone |
| PackageImageProcessor.CleanType | src/package_image_processor.py:33-38 | the cleaned value starts without whitespace and ends in a Chinese character, letter or digit |
| PackageImageProcessor.CleanTypeEmpty | src/package_image_processor.py:33-39 | the cleaned value is empty exactly when the raw value holds no Chinese character, letter or digit |
| PackageImageProcessor.CleanTypeInside | src/package_image_processor.py:33-38 | the cleaned value is a piece of the raw one |
| PackageImageProcessor.CleanTypeFirst | src/package_image_processor.py:33-38 | a value starting with a Chinese character, letter or digit keeps that character first |
| PackageImageProcessor.TypeValueShape | src/package_image_processor.py:30-40 | a product type is a non-empty piece of one line of the text, after its label |
| PackageImageProcessor.ProductTypeOrder | src/package_image_processor.py:23-40 | the labels are tried in order; the first with a non-empty cleaned value wins |
| PackageImageProcessor.ProductTypeNone | src/package_image_processor.py:30-42 | no product type exactly when no label yields a non-empty value |
| PackageImageProcessor.FirstTypeShape | src/package_image_processor.py:30-40 | whatever label wins, its value has the product type shape |
| PackageImageProcessor.ExtractProductType | src/package_image_processor.py:12-42 | a product type is a non-empty piece of one line, starting without whitespace and ending in a Chinese character, letter or digit |
| PackageImageProcessor.TypeValueAbsent | src/package_image_processor.py:30-32 | a label that does not occur gives no value |
| PackageImageProcessor.HeadAbsent | src/package_image_processor.py:24-27 | a line pattern whose label is absent has no group |
| PackageImageProcessor.TypeHeadsShadowed | src/package_image_processor.py:23-28 | as written, 品类 is tried before 产品类别, which contains it |
| PackageImageProcessor.CategoryLabelMisread | src/package_image_processor.py:20 | as written, for a text such as "产品类别 灭菌乳" the product type starts with 别 |
| PackageImageProcessor.VarietyInsideCategory | src/package_image_processor.py:26-27 | the first 品类 lies inside 产品类别, and its value starts at 别 |
| PackageImageProcessor.IntendedHeadsNotShadowed | src/package_image_processor.py:23-28 | in the intended order no label is pre-empted by an earlier one |
| PackageImageProcessor.CategoryLabelIntended | src/package_image_processor.py:20 | in the intended order, the value after 产品类别 is the product type whenever 产品类型 is absent |
| PackageImageProcessor.StandardPatternKinds | src/package_image_processor.py:56-72 | the code patterns are the three labelled ones and the bare GB one |
| PackageImageProcessor.CodeGroupShape | src/package_image_processor.py:57-72 | each code pattern captures a letter-first, digit-last code |
| PackageImageProcessor.LabelledCodeShape | src/package_image_processor.py:57-59 | a labelled code pattern captures a code |
| PackageImageProcessor.BareCodeShape | src/package_image_processor.py:72 | the bare GB pattern captures a code |
| PackageImageProcessor.TidyCodeShape | src/package_image_processor.py:65-67 | tidying keeps the code's shape, leaves single spaces only and changes nothing but whitespace |
| PackageImageProcessor.FirstCodeShape | src/package_image_processor.py:62-76 | whichever pattern matches first captures a code |
| PackageImageProcessor.ExtractStandardCode | src/package_image_processor.py:45-78 | a standard code starts with a letter, ends with a digit and has single spaces only |
| PackageImageProcessor.StandardCodeOrder | src/package_image_processor.py:56-76 | the labelled patterns are tried in order, the bare GB last; the first that matches gives the code |
| PackageImageProcessor.StandardCodeNone | src/package_image_processor.py:62-78 | no code exactly when no pattern matches |
| PackageImageProcessor.StandardCodeKeepsCapture | src/package_image_processor.py:62-76 | the code is the capture up to whitespace |
| PackageImageProcessor.DashYearMonth | src/package_image_processor.py:99 | 年 and 月 become dashes, every other character stays |
| PackageImageProcessor.NormalizeDate | src/package_image_processor.py:99-100 | the normalised date holds no 年, 月 or 日 |
| PackageImageProcessor.NormalizeCaptured | src/package_image_processor.py:97-100 | a captured date never holds 日, so only 年 and 月 change, and the result has the dashed date shape |
| PackageImageProcessor.RawDateSlice | src/package_image_processor.py:90-91 | a captured date has the date shape on its own |
| PackageImageProcessor.DateGroup | src/package_image_processor.py:90-91 | the group of either date pattern has the date shape; the second is eight digits |
| PackageImageProcessor.ExtractProductionDate | src/package_image_processor.py:81-103 | a production date holds no 年, 月 or 日 |
| PackageImageProcessor.ProductionDateShape | src/package_image_processor.py:89-101 | every production date found has the normalised shape |
| PackageImageProcessor.EightDigitsUnchanged | src/package_image_processor.py:89-101 | when no dashed date matches, eight digits after the label come back unchanged |
| PackageImageProcessor.ProductionDateNone | src/package_image_processor.py:94-103 | no production date exactly when neither pattern matches |
| PackageImageProcessor.ExtractShelfLife | src/package_image_processor.py:106-129 | a shelf life is found exactly when the label pattern matches |
| PackageImageProcessor.PeriodGroup | src/package_image_processor.py:124-126 | a period is a piece of the text, a digit first and a unit last |
| PackageImageProcessor.PeriodFound | src/package_image_processor.py:124 | the period search succeeds exactly when a period starts somewhere |
| PackageImageProcessor.ShelfLifeInside | src/package_image_processor.py:115-127 | the shelf life is a piece of the stripped value, and so of one line of the text |
| PackageImageProcessor.ShelfLifePeriod | src/package_image_processor.py:121-127 | the first period in the value when there is one, the whole stripped value otherwise |
| PackageImageProcessor.ShelfLifeNeedsLabel | src/package_image_processor.py:115-119 | without the label there is no shelf life |
| BusinessLogicFilter.FilterByKeywords | src/business_logic_filter.py:14-41 | the loops compute the keyword filter over all rows of all tables, in order |
| BusinessLogicFilter.KeywordFilterKeys | src/business_logic_filter.py:29-39 | a name is a key exactly when some row long enough has it, stripped, holding a keyword |
| BusinessLogicFilter.KeywordFilterLastWins | src/business_logic_filter.py:39 | a name's value comes from the last row holding a keyword under it |
| BusinessLogicFilter.FilterByCategory | src/business_logic_filter.py:43-87 | the loops compute the category filter |
| BusinessLogicFilter.FilterTable | src/business_logic_filter.py:61-85 | the row loop gives the state the scan of that table reaches |
| BusinessLogicFilter.AnyItemFits | src/business_logic_filter.py:82-85 | true exactly when some item is in the name and the name is at most ten characters |
| BusinessLogicFilter.StepSkipsHeader | src/business_logic_filter.py:70-72 | a step never stores under the category's own name |
| BusinessLogicFilter.RowsSkipHeader | src/business_logic_filter.py:61-85 | neither does a table's scan |
| BusinessLogicFilter.TablesSkipHeader | src/business_logic_filter.py:59-85 | nor the scan of all tables |
| BusinessLogicFilter.CategoryHeaderExcluded | src/business_logic_filter.py:70-72 | the header row is never part of the result |
| BusinessLogicFilter.OtherCategoryStops | src/business_logic_filter.py:75-78 | inside the category, another known category ends that table's scan, stores nothing, and leaves the category |
| BusinessLogicFilter.StoppedIgnoresTail | src/business_logic_filter.py:78 | rows after the break change nothing |
| BusinessLogicFilter.StaysInCategory | src/business_logic_filter.py:75-85 | without another known category the scan stays in the category |
| BusinessLogicFilter.CategoryCarriesOver | src/business_logic_filter.py:57 | the category flag is not reset between tables: a table with the header and no other category leaves the next table inside the category |
| BusinessLogicFilter.InCategoryRow | src/business_logic_filter.py:80-85 | inside the category, an ordinary row is stored under its name exactly when its value is non-empty and an item fits |
| BusinessLogicFilter.StepResult | src/business_logic_filter.py:66-85 | a step stores the row's entry or leaves the result alone |
| BusinessLogicFilter.StepJustified | src/business_logic_filter.py:80-85 | every entry stored is justified by a row seen |
| BusinessLogicFilter.RowsJustified | src/business_logic_filter.py:61-85 | so is every entry after a table |
| BusinessLogicFilter.TablesJustified | src/business_logic_filter.py:59-85 | and after all tables |
| BusinessLogicFilter.CategoryEntriesKept | src/business_logic_filter.py:43-87 | every entry is the stripped name and non-empty value of some row, the name at most ten characters and holding an item |
| BusinessLogicFilter.RowsNeverEnter | src/business_logic_filter.py:61-72 | without the header in a table the scan never enters the category |
| BusinessLogicFilter.TablesNeverEnter | src/business_logic_filter.py:59-72 | likewise across tables |
| BusinessLogicFilter.NoHeaderNothingKept | src/business_logic_filter.py:43-87 | without the header row nothing is kept |
| RagflowVerifier.FoodCategories | src/ragflow_verifier.py:43-54 | the food itself comes last, preceded by its category exactly when the food has one |
| RagflowVerifier.CategoryBeforeFood | src/ragflow_verifier.py:43-54 | cucumber is looked up under 瓜类蔬菜 before 黄瓜 |
| RagflowVerifier.BuildOptimizedQuery | src/ragflow_verifier.py:60-79 | the query starts with the food name, and is the name alone exactly for an unknown query type |
| RagflowVerifier.CheckStructuralValidity | src/ragflow_verifier.py:81-113 | valid exactly when the chunk names the food and, in strict mode, also carries an item keyword and a table marker |
| RagflowVerifier.DropYears | src/ragflow_verifier.py:747 | removing year suffixes never lengthens the text |
| RagflowVerifier.FuzzyMatchMethodSymmetric | src/ragflow_verifier.py:739-759 | the method match does not depend on which side is the report's |
| RagflowVerifier.FuzzyMatchMethodReflexive | src/ragflow_verifier.py:739-759 | every method matches itself |
| RagflowVerifier.BlankMethodMatchesAll | src/ragflow_verifier.py:739-759 | a method made only of years and whitespace matches every method |
| RagflowVerifier.NormalizeName | src/ragflow_verifier.py:761-763 | the result has no whitespace and is no longer than the name |
| RagflowVerifier.NumRunEnd | src/ragflow_verifier.py:844 | the maximal run of digits and dots from a position |
| RagflowVerifier.NumRun | src/ragflow_verifier.py:844 | the leftmost maximal run of digits and dots, none exactly when there is no such character |
| RagflowVerifier.DotAt | src/ragflow_verifier.py:846 | the first dot at or after a position |
| RagflowVerifier.FloatOf | src/ragflow_verifier.py:846 | a run of digits and dots reads as a non-negative number exactly when it has a digit and at most one dot |
| RagflowVerifier.ParseValue | src/ragflow_verifier.py:819-850 | a value read is never negative |
| RagflowVerifier.ParseValueZero | src/ragflow_verifier.py:832-839 | a value marked 未检出 or ND (in any case), or written as `<…`, reads as zero |
| RagflowVerifier.DigitsOfNat | src/ragflow_verifier.py:846 | the decimal digits of a whole number read back as that number |
| RagflowVerifier.ParseWholeNumber | src/ragflow_verifier.py:819-850 | a whole number written in decimal is read back as itself |
| RagflowVerifier.Layer1Filter | src/ragflow_verifier.py:230-252 | the loop gives exactly the layer-1 chunks |
| RagflowVerifier.Layer1Member | src/ragflow_verifier.py:230-252 | a chunk passes layer 1 exactly when it has content and scores at least 0.25, strict exactly when below 0.4 |
| RagflowVerifier.Layer1Order | src/ragflow_verifier.py:234-250 | layer 1 keeps the admitted chunks in retrieval order |
| RagflowVerifier.Layer2Filter | src/ragflow_verifier.py:254-268 | the loop gives exactly the chunks passing their structural check |
| RagflowVerifier.Screened | src/ragflow_verifier.py:230-268 | a chunk survives both layers exactly when it has content, names the food, and scores at least 0.4, or at least 0.25 with an item keyword and a table marker |
| RagflowVerifier.TagItems | src/ragflow_verifier.py:292-295 | every item of a chunk is tagged with that chunk's page, id and score |
| RagflowVerifier.CollectEvidence | src/ragflow_verifier.py:272-297 | one evidence entry per screened chunk, and the tagged items of all their tables in order |
| RagflowVerifier.RequiredSource | src/ragflow_verifier.py:272-297 | every required item comes from a screened chunk, with its page, id and score, and no basis yet |
| RagflowVerifier.DedupedSnoc | src/ragflow_verifier.py:305-320 | one more item is kept exactly when its name is new and of plausible length |
| RagflowVerifier.DedupRequired | src/ragflow_verifier.py:303-323 | the loop gives exactly the deduplicated items |
| RagflowVerifier.DedupedMember | src/ragflow_verifier.py:305-320 | an item survives exactly when it is the first with its name and the name has 2 to 50 characters |
| RagflowVerifier.DedupedUnique | src/ragflow_verifier.py:305-320 | no name survives twice |
| RagflowVerifier.DedupedOrder | src/ragflow_verifier.py:305-320 | the survivors keep their input order |
| RagflowVerifier.NonEmptyImagesMember | src/ragflow_verifier.py:335-338 | a text is collected exactly when it is non-empty and some element gives it |
| RagflowVerifier.AllBasesMember | src/ragflow_verifier.py:334-338 | a basis is collected exactly when some item's stripped basis is that non-empty text |
| RagflowVerifier.CollectBases | src/ragflow_verifier.py:334-338 | the loop gives exactly that set |
| RagflowVerifier.IsInsideOther | src/ragflow_verifier.py:351-356 | true exactly when the basis is a substring of a different basis |
| RagflowVerifier.FilterBases | src/ragflow_verifier.py:343-360 | the loop keeps exactly the GB codes and the bases that are no fragment of another |
| RagflowVerifier.InsideShorter | src/ragflow_verifier.py:353 | a substring of a different text is strictly shorter |
| RagflowVerifier.KeptNonEmpty | src/ragflow_verifier.py:343-363 | some basis is always kept when there is one: a longest basis is no fragment of another |
| RagflowVerifier.Longest | src/ragflow_verifier.py:343-363 | a non-empty set of texts has a longest element |
| RagflowVerifier.SortedSetFirst | src/ragflow_verifier.py:363 | the least text comes first, then the rest sorted |
| RagflowVerifier.SortedSetMember | src/ragflow_verifier.py:363 | sorting keeps exactly the elements of the set, each once |
| RagflowVerifier.SortedSetAscending | src/ragflow_verifier.py:363 | sorting gives the elements in ascending order |
| RagflowVerifier.UnifyBasis | src/ragflow_verifier.py:334-368 | the kept bases are sorted and joined, and every item takes the result as its basis |
| RagflowVerifier.JoinContains | src/ragflow_verifier.py:363 | every part of a join occurs in the joined text |
| RagflowVerifier.UnifiedBasisCovers | src/ragflow_verifier.py:343-363 | every GB code among the bases, and every basis that is no fragment of another, occurs in the unified basis |
| RagflowVerifier.UnifiedBasisNonEmpty | src/ragflow_verifier.py:334-363 | an item with a non-blank basis makes the unified basis non-empty |
| RagflowVerifier.BuildReportMap | src/ragflow_verifier.py:390-394 | the loop assigns each named report item under its name |
| RagflowVerifier.ReportMapKeys | src/ragflow_verifier.py:390-394 | each report name is listed once, at the position of its first item |
| RagflowVerifier.ReportMapLast | src/ragflow_verifier.py:390-394 | a repeated report name reads the last item with that name |
| RagflowVerifier.BuildRequiredMap | src/ragflow_verifier.py:396-399 | the loop assigns each named required item under its name |
| RagflowVerifier.RequiredMapPairs | src/ragflow_verifier.py:396-399 | with distinct non-empty names, every item is held under its own name, in order |
| RagflowVerifier.FirstMatch | src/ragflow_verifier.py:408-412 | the first entry at or after a position whose name is accepted, none exactly when no later entry is |
| RagflowVerifier.FindReportMatch | src/ragflow_verifier.py:408-412 | the loop stops at the first report name that matches |
| RagflowVerifier.FindBasis | src/ragflow_verifier.py:448-451 | the loop finds exactly whether some report code fuzzy-matches the basis |
| RagflowVerifier.PairOne | src/ragflow_verifier.py:403-467 | the body of the pairing loop for one required entry |
| RagflowVerifier.PairItems | src/ragflow_verifier.py:401-467 | the loop gives the matched, missing, method-issue and basis-issue lists of all pairings, in order |
| RagflowVerifier.PairingsStep | src/ragflow_verifier.py:401-467 | one more required entry adds its own pairing's pieces to each list |
| RagflowVerifier.MatchesSomeRequired | src/ragflow_verifier.py:479-482 | the loop finds exactly whether some required name matches the report name |
| RagflowVerifier.FindExtra | src/ragflow_verifier.py:469-485 | the loop gives exactly the extra report names |
| RagflowVerifier.MissingMember | src/ragflow_verifier.py:403-416 | a required name is missing exactly when no report name matches it |
| RagflowVerifier.PairOfMissing | src/ragflow_verifier.py:414-416 | an entry's pairing is missing exactly when no report name matches |
| RagflowVerifier.FirstMatchNone | src/ragflow_verifier.py:408-414 | no entry is accepted exactly when the search finds none |
| RagflowVerifier.MatchedFirst | src/ragflow_verifier.py:403-427 | every match pairs a required name with the first report name that matches it, with the right methods and basis |
| RagflowVerifier.MatchedMissingCount | src/ragflow_verifier.py:403-416 | every required entry is either matched or missing, never both |
| RagflowVerifier.ExtraNeverMatched | src/ragflow_verifier.py:403-485 | a report name listed as extra is never the report name of a match |
| RagflowVerifier.ExtraMember | src/ragflow_verifier.py:469-485 | a report name is extra exactly when it matches no required name |
| RagflowVerifier.PairingsAgree | src/ragflow_verifier.py:427-465 | every pairing records its issues as its match dictates |
| RagflowVerifier.MethodIssueMember | src/ragflow_verifier.py:427-437 | a method issue is recorded for a match exactly when both methods are given and do not fuzzy-match |
| RagflowVerifier.MethodIssueIn | src/ragflow_verifier.py:427-437 | the same, over any list of pairings that agree |
| RagflowVerifier.MethodIssueOrigin | src/ragflow_verifier.py:427-437 | every method issue belongs to a match with conflicting methods |
| RagflowVerifier.MethodIssueFrom | src/ragflow_verifier.py:427-437 | the same, over any list of pairings that agree |
| RagflowVerifier.BasisIssueMember | src/ragflow_verifier.py:444-465 | a basis issue is recorded for a match exactly when its basis is given, cited by no report code, and names no product or enterprise standard |
| RagflowVerifier.BasisIssueIn | src/ragflow_verifier.py:444-465 | the same, over any list of pairings that agree |
| RagflowVerifier.CitedBasisNoIssue | src/ragflow_verifier.py:448-458 | a basis a report code contains, or that contains a report code, after cleaning, is never an issue |
| RagflowVerifier.LimitIssueCases | src/ragflow_verifier.py:765-817 | an issue arises exactly when the text forbids detection and the value reads above zero, or gives a maximum the value exceeds |
| RagflowVerifier.NotDetectedPasses | src/ragflow_verifier.py:765-817 | a value reported as not detected never raises an issue |
| RagflowVerifier.MaxRuleNonNegative | src/ragflow_verifier.py:795-800 | a maximum read from a text is never negative |
| RagflowVerifier.ReadWholeMaximum | src/ragflow_verifier.py:795-800 | a whole-number maximum written after ≤ is read back as that number |
| RagflowVerifier.UnitAt | src/ragflow_verifier.py:149 | a unit found is one of the listed units, written there; none exactly when no listed unit is written there |
| RagflowVerifier.NumberEnd | src/ragflow_verifier.py:149 | the number's end lies within the text |
| RagflowVerifier.LineUnit | src/ragflow_verifier.py:157-164 | the unit written after the number, past any whitespace, or mg/kg exactly when no listed unit is written there |
| RagflowVerifier.WithUnitEnds | src/ragflow_verifier.py:151 | a value written with its unit ends with a space and that unit |
| RagflowVerifier.ExtractLimitValue | src/ragflow_verifier.py:115-173 | an empty text or food name gives "未找到限量值"; any other limit ends with a space and one of the listed units |
| RagflowVerifier.LimitFromFoodLine | src/ragflow_verifier.py:154-171 | with a food line, the limit is the leftmost match on it: its number, after "≤" when the match starts with "≤" or "<", a space, and the unit written after it or mg/kg |
| RagflowVerifier.LineValueReads | src/ragflow_verifier.py:162-171 | the value of a match is its number, after "≤" when the match starts with "≤" or "<", the mark and whitespace dropped |
| RagflowVerifier.LimitDigitsShape | src/ragflow_verifier.py:157 | the number of a match starts after an optional mark and whitespace |
| RagflowVerifier.NumberStripped | src/ragflow_verifier.py:157 | a number `\d+\.?\d*` is non-empty with no whitespace at either end |
| RagflowVerifier.MarkedText | src/ragflow_verifier.py:163-171 | a match stripped and re-marked reads as "≤" (when marked) and its number |
| RagflowVerifier.MarkedSpan | src/ragflow_verifier.py:163-171 | the same for a match inside the line |
| RagflowVerifier.UnmarkedLimit | src/ragflow_verifier.py:160-171 | an unmarked leftmost match gives its number, a space and its unit |
| RagflowVerifier.LimitFoodLineUnmatched | src/ragflow_verifier.py:158-173 | a food line on which nothing matches gives "未找到限量值", without falling back on the whole text |
| RagflowVerifier.LimitWithoutFoodLine | src/ragflow_verifier.py:147-152 | without a food line, the limit is the fallback over the whole text |
| RagflowVerifier.TextAmount | src/ragflow_verifier.py:149-152 | "未找到限量值", or an amount ending with a space and one of the listed units |
| RagflowVerifier.TextAmountFirst | src/ragflow_verifier.py:149-151 | the fallback reads the leftmost amount: its number as written, a space, and the first listed unit written after it |
| RagflowVerifier.TextAmountNone | src/ragflow_verifier.py:149-152 | without an amount followed by a unit, the fallback gives "未找到限量值" |
| RagflowVerifier.LimitExample | src/ragflow_verifier.py:120-122 | the documented example: "瓜类蔬菜 0.5mg/kg" for 黄瓜 gives "0.5 mg/kg" |
| RagflowVerifier.ExampleFoodLine | src/ragflow_verifier.py:137-145 | the example's one line names cucumber's category, so it is the food line |
| RagflowVerifier.OneLineFoodLine | src/ragflow_verifier.py:137-145 | a single line naming the first category is the food line |
| RagflowVerifier.NoLimitAt | src/ragflow_verifier.py:157 | no match starts at a character that is neither a mark, whitespace nor a digit |
| RagflowVerifier.FoodLineFirst | src/ragflow_verifier.py:136-145 | the line used is the first naming the first category some line names |
| RagflowVerifier.TocMatchAt | src/ragflow_verifier.py:556-557 | a match covers at least "4." and a digit |
| RagflowVerifier.FindTableNumber | src/ragflow_verifier.py:543-563 | the loop gives the table number of the first table-of-contents chunk that lists the item |
| RagflowVerifier.TableNumberListed | src/ragflow_verifier.py:543-563 | a table number is all digits and follows "4." on a page 3 to 15 of some chunk, the item name after it |
| RagflowVerifier.TocNumberShape | src/ragflow_verifier.py:547-563 | the number one chunk gives has that shape |
| RagflowVerifier.TocMatchShape | src/ragflow_verifier.py:556-557 | a match is "4.", digits, optional whitespace, then the item name |
| RagflowVerifier.FilterStandardDocs | src/ragflow_verifier.py:598-609 | the loop keeps exactly the chunks from standard documents |
| RagflowVerifier.ContextChunkKept | src/ragflow_verifier.py:598-609 | a chunk is kept exactly when its document names GB 2763 or is not implementing rules |
| RagflowVerifier.FindBestChunk | src/ragflow_verifier.py:612-660 | the loop gives the first chunk that names the item |
| RagflowVerifier.BestChunkFirst | src/ragflow_verifier.py:612-660 | the best chunk names the item and no chunk before it does; none exactly when no chunk names it |
| RagflowVerifier.QueryLimitWorker | src/ragflow_verifier.py:508-691 | the worker's steps give exactly the worker's result |
| RagflowVerifier.QueryLimitFound | src/ragflow_verifier.py:508-691 | a result exactly when the item has a report entry, a standard to query and a kept chunk naming it; the verdict is the report value checked against that chunk |
| RagflowVerifier.CheckIndicators | src/ragflow_verifier.py:693-719 | the results gathered into evidence and issues, in the order of the items to check |
| RagflowVerifier.IndicatorIssueMember | src/ragflow_verifier.py:698-716 | an indicator issue names an item to check whose limit text the report value fails |
| RagflowVerifier.RollUp | src/ragflow_verifier.py:721-735 | the status and messages the rollup gives |
| RagflowVerifier.VerdictMessages | src/ragflow_verifier.py:721-735 | never unknown after a comparison; a message exactly when not a pass; a fail leads with the missing items |
| RagflowVerifier.MissingMessageNames | src/ragflow_verifier.py:723 | the missing message names each of the first five missing items |
| RagflowVerifier.CompareItems | src/ragflow_verifier.py:381-737 | the comparison's steps give exactly the comparison |
| RagflowVerifier.VerifyInspectionCompliance | src/ragflow_verifier.py:177-737 | the steps give exactly the verification |
| RagflowVerifier.MissingExactly | src/ragflow_verifier.py:403-416 | something is missing exactly when some required name is unmatched |
| RagflowVerifier.ComparisonFails | src/ragflow_verifier.py:381-737 | a comparison fails exactly when some required name is matched by no report name |
| RagflowVerifier.VerificationFails | src/ragflow_verifier.py:213-379 | the verification errors exactly when the query found chunks but no required item survived |
| RagflowVerifier.VerificationEarly | src/ragflow_verifier.py:199-221 | no food name or no client give unknown, an empty query result a warning, each with its message; unknown arises only so |

## Left out

- Network, browser and file I/O are parameters, not modelled: the retrieval services (`RAGFlowClient._search` with its HTTP retry loop, `FastGPTClient.search`), the MCP streaming connections (`connect`, `connect_via_sse`, with their wall-clock deadlines) and the MCP call sequence of `run_smoke`, the detail-page fetches and searches in both `html_extractor.py` files, the screenshot and download helpers, and the cache file of `gb_verifier/__init__.py`. Each enters the model as its decoded result.
- Thread pools: the batch of standard checks and the indicator workers are a sequential map over their inputs. The standards results are a `map`, and the indicator evidence and issues are taken in the order of the items to check, since `as_completed` fixes no order.
- `json.loads`, `json.dumps`, BeautifulSoup and `difflib.SequenceMatcher` are foreign library code: each is a function parameter (a parse function, the cell texts of the first table, a ratio function). The serialised forms that reach messages (`str(report_gb_codes)`, float formatting in limit messages, exception texts other than those of the date parser and of `date()`) are plain string parameters or fixed texts. The texts of `date()` follow CPython 3.12; other releases word the month and day errors differently.
- The clock (`time.time()`) is the parameter `now`.
- Python's Unicode character classes: `\d`, `isdigit`, `upper`, `lower` and `isupper` are modelled on ASCII. `\s` and `isspace` are a fixed set of whitespace characters. `\w` for `\b` is ASCII letters and digits, `_` and CJK ideographs. Non-ASCII digits and letters in the inputs are therefore not modelled.
- Dictionaries read with `.get(key, "")` are records whose missing fields hold their default, so a value of a different JSON type under those keys is not modelled. The one place where the type matters (`_parse_value` reading a non-string) is left out as well.
- `RagflowVerifier.ParseValue`: Python's `float()` on a run of digits and dots is modelled as the decimal it denotes. Exponents, `inf` and `nan` cannot occur in such a run; rounding to binary floating point is not modelled, and values are `real`.
- `FastgptClient.ItemScore`: scores are `real`, and a score that is not a number counts as an error of the whole selection (the comparison raises). The exact exception text is not modelled.
- Debug `print` output in every module is not modelled.
- The early-return results of `verify_inspection_compliance` lack several keys of the full result (the evidence count and pages, the issue lists). The model's record holds empty values there, so it does not tell an absent key from an empty one.
- `RagflowClient`: the page size sent with a query (30 by default) goes to the service, which is a parameter, so it does not bound the model's results. The knowledge-base id the indicator worker reads from `config` is unused, because that search is a parameter too.
- `GbVerifier.VerifySingleGb`: the fallback record for a code missing from the batch cannot be returned (the batch always holds every input code); the model keeps it only to show that.
- Web routes, CLI drivers, PDF rendering and OCR (`src/app.py`, `src/main.py`, `src/pdf_reader.py`, `src/ocr_engine.py`, `src/paddleocr_enhanced.py`, `src/verifier2/cli.py`) are not part of this model. Neither are the deployment scripts, the standalone debug script or the static page script.
- `TableMerger.Similarity`: the mean of the cell ratios is stated only where it is 0 (lengths differ, or no cells); that the ratio is a mean in [0, 1] depends on `SequenceMatcher`, which is a parameter.
- `Text.Repr`: the escaped characters are the controls, DEL to NO-BREAK SPACE, the soft hyphen, the space separators and format controls of the Basic Multilingual Plane, and the private-use area. Python's `repr` also escapes unassigned code points and the format and private-use characters above U+FFFF; the model shows those as themselves.
- `McpClient.ToolArgs`: when `properties` is a list and a required entry is a number or a bool that occurs in it, Python indexes the list with that number and goes on with the element it finds, or raises `IndexError`. The model stops there with the error "list index" and does not follow the element.
- `McpClient.BuildToolArgs`: the same "list index" case as `McpClient.ToolArgs`.
- `McpClient.FindTool`: defined on lists of dicts only. In `src/gb_verifier/runner.py`, `find_tool` runs only after `pick_search_tool` has read every tool, and that read raises unless every tool is a dict.
- `BusinessLogicFilter.FilterByKeywords`: the filtered rows are a Dafny `map`, so the insertion order of the Python dict is not kept.
- `BusinessLogicFilter.FilterByCategory`: the same as `BusinessLogicFilter.FilterByKeywords`; the dict order of its result is not kept.

## Findings

| source | as written | input that shows it | evidently intended | confidence | as-written member | corrected member |
|---|---|---|---|---|---|---|
| src/package_image_processor.py:23-28 | the label 品类 is tried before 产品类别, and 产品类别 contains 品类 | "产品类别 灭菌乳", the docstring's own example: 品类 matches inside the label, and the product type is "别 灭菌乳" | the longer label 产品类别 tried before 品类, giving "灭菌乳" | high (not executed) | PackageImageProcessor.CategoryLabelMisread | PackageImageProcessor.CategoryLabelIntended |
