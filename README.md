# thock-pick core model

A model of the core of thock-pick, a keyboard switch catalogue built with Java Spring. The model covers these parts:

- **Google Sheets ingestion.** Header detection, the header map, the row builder `SwitchSheetRow.from` and the lenient `toEntity` conversion.
- **Synchronisation.** The upsert into the `switches` table, with the lookup by (row, tab) and then by name. It also builds the search-index document from the cleaned name, the Hangul tokens and the nickname rules. `syncSwitchByRow` is the single-row path.
- **The switch entity.** Its builder constructor and its in-place sheet update.
- **Search.** The conjunctive filter of `searchSwitches`, `findSwitchById` and the list projection.
- **The list page script.** Query building, filter state, the pagination window and the card information rows.
- **Error responses.** The `ApiResponse` factories, the error-code table and the global exception handler.

Pure code becomes functions and lemmas. The entity, the nickname service, the sync service and the page script are classes whose methods update their fields in place. Each method is proved against a specification function. The lemmas beside that function carry the promised properties.

Modules, one per source file, with shared helpers:

- Shared helpers: `Wrappers` (nullable values as `Option`), `Text` (Java string operations) and `Numbers` (`Integer.parseInt`, `BigDecimal`).
- `SwitchEntity` models Switch.java.
- `SheetRow` models SwitchSheetRow.java and `GoogleSheets` models GoogleSheetsService.java.
- `Nicknames` models SwitchNicknameService.java.
- `SwitchNames` covers the name splitting of SwitchSyncService.java, and `SwitchSync` covers the rest of that file.
- `SwitchSearch` models SwitchService.java and `ListResponse` models SwitchListResponse.java.
- `SwitchList` models list.js.
- `ApiResponses`, `ErrorCodes` and `ExceptionHandling` model the three global files.

## Model

| member | source | states |
|---|---|---|
| Text.Filter | src/main/java/com/thockpick/infrastructure/sync/googlesheets/dto/SwitchSheetRow.java:225 | keeps only characters the class admits, and never lengthens the string |
| Text.FilterKeepsAll | src/main/java/com/thockpick/infrastructure/sync/googlesheets/dto/SwitchSheetRow.java:225 | a string whose every character is admitted is unchanged |
| Text.FilterDropsAll | src/main/java/com/thockpick/infrastructure/sync/googlesheets/dto/SwitchSheetRow.java:225 | a string with no admitted character becomes empty |
| Text.FilterFromInput | src/main/java/com/thockpick/infrastructure/sync/googlesheets/dto/SwitchSheetRow.java:225 | every kept character comes from the input |
| Text.FilterConcat | src/main/java/com/thockpick/infrastructure/sync/googlesheets/dto/SwitchSheetRow.java:225 | filtering distributes over concatenation |
| Text.StripSpaces | src/main/java/com/thockpick/infrastructure/sync/googlesheets/service/GoogleSheetsService.java:117 | the result of removing every `\s` holds no `\s` |
| Text.ContainsInConcat | src/main/java/com/thockpick/application/switches/SwitchNicknameService.java:48 | a string containing a part contains it inside any concatenation (the `contains` of the nickname rules) |
| Text.LeadingBlanks | src/main/java/com/thockpick/infrastructure/sync/googlesheets/dto/SwitchSheetRow.java:107 | the leading run that `trim` removes: all <= U+0020, followed by a character above it |
| Text.WithoutTrailingBlanks | src/main/java/com/thockpick/infrastructure/sync/googlesheets/dto/SwitchSheetRow.java:107 | the trailing run that `trim` removes |
| Text.Trim | src/main/java/com/thockpick/infrastructure/sync/googlesheets/dto/SwitchSheetRow.java:107 | `String.trim`: the result starts and ends above U+0020 and is the middle of the input once both runs are cut; an already trimmed string is unchanged |
| Text.TrimPadded | src/main/java/com/thockpick/infrastructure/sync/googlesheets/dto/SwitchSheetRow.java:107 | blanks around a string with printable ends are exactly what trimming removes |
| Text.TrimSlice | src/main/java/com/thockpick/infrastructure/sync/googlesheets/dto/SwitchSheetRow.java:107 | the slice between the two runs is the trim of the input |
| Text.TrimIdempotent | src/main/java/com/thockpick/infrastructure/sync/googlesheets/dto/SwitchSheetRow.java:107 | trimming twice is trimming once |
| Text.LowerChar | src/main/java/com/thockpick/application/switches/SwitchNicknameService.java:45 | lower-cases exactly the ASCII capitals, by 32 code points |
| Text.ToLowerAscii | src/main/java/com/thockpick/application/switches/SwitchNicknameService.java:45 | the same length, lowered character by character |
| Text.ToLowerIdempotent | src/main/java/com/thockpick/application/switches/SwitchNicknameService.java:45 | lowering twice is lowering once |
| Text.RemoveAll | src/main/java/com/thockpick/infrastructure/sync/googlesheets/dto/SwitchSheetRow.java:143-144 | `String.replace(pat, "")`: never longer than its input; a string without `pat` is unchanged |
| Text.NotContainsTail | src/main/java/com/thockpick/infrastructure/sync/googlesheets/dto/SwitchSheetRow.java:143-144 | whatever the tail of a string contains, the string contains |
| Text.Fields | src/main/java/com/thockpick/infrastructure/sync/googlesheets/dto/SwitchSheetRow.java:122 | the cut of a string at every separator: at least one field, one field exactly when no separator occurs, fields hold no separator |
| Text.FieldsJoin | src/main/java/com/thockpick/infrastructure/sync/googlesheets/dto/SwitchSheetRow.java:122 | joining the fields with the separator gives the string back |
| Text.FieldsTwo | src/main/java/com/thockpick/infrastructure/sync/googlesheets/dto/SwitchSheetRow.java:122 | two fields are the string split at its only separator |
| Text.FieldsOfConcat | src/main/java/com/thockpick/infrastructure/sync/googlesheets/dto/SwitchSheetRow.java:122 | two separator-free parts joined by one separator cut back into those parts |
| Text.DropTrailingEmpty | src/main/java/com/thockpick/infrastructure/sync/googlesheets/dto/SwitchSheetRow.java:122 | the prefix without the trailing empty fields Java drops; it ends non-empty and everything dropped is empty |
| Text.JavaSplit | src/main/java/com/thockpick/infrastructure/sync/googlesheets/dto/SwitchSheetRow.java:122 | `String.split` on a character class: a prefix of the fields; a string without separators splits to itself |
| Text.LastIndexOf | src/main/java/com/thockpick/infrastructure/sync/googlesheets/dto/SwitchSheetRow.java:148 | `lastIndexOf`: -1 or an index holding the character with none after it |
| Text.LastIndexOfAt | src/main/java/com/thockpick/infrastructure/sync/googlesheets/dto/SwitchSheetRow.java:148 | a position holding the character with none after it is the one `lastIndexOf` returns |
| Numbers.DigitChar | src/main/java/com/thockpick/infrastructure/sync/googlesheets/dto/SwitchSheetRow.java:226 | the digit character of a value below ten, whose value is that value |
| Numbers.NatToDigits | src/main/java/com/thockpick/infrastructure/sync/googlesheets/dto/SwitchSheetRow.java:226 | the decimal digits of a natural number, with no leading zero, whose value is the number |
| Numbers.IntToString | src/main/java/com/thockpick/application/switches/SwitchService.java:106 | Java's decimal rendering of an integer: digits, with a leading `-` exactly for a negative number |
| Numbers.ParseJavaInt | src/main/java/com/thockpick/infrastructure/sync/googlesheets/dto/SwitchSheetRow.java:226-228 | `Integer.parseInt`: a result lies in the 32-bit range and comes from an optional sign and digits; "", "-" and "+" are rejected |
| Numbers.IntRoundTrip | src/main/java/com/thockpick/infrastructure/sync/googlesheets/dto/SwitchSheetRow.java:226 | parsing the rendering of any 32-bit integer gives it back |
| Numbers.InnerMinusRejected | src/main/java/com/thockpick/infrastructure/sync/googlesheets/dto/SwitchSheetRow.java:226-228 | a `-` after a digit makes the text unparsable |
| Numbers.ParseDecimal | src/main/java/com/thockpick/infrastructure/sync/googlesheets/dto/SwitchSheetRow.java:239-241 | `new BigDecimal` on digits and dots: accepted exactly with at most one dot and some digit; the scale is the number of digits after the dot |
| Numbers.FieldsOfDecimal | src/main/java/com/thockpick/infrastructure/sync/googlesheets/dto/SwitchSheetRow.java:239 | the dot-separated fields of such a text are digit strings, and the text has a digit exactly when its fields do |
| Numbers.ParseDecimalForm | src/main/java/com/thockpick/infrastructure/sync/googlesheets/dto/SwitchSheetRow.java:239 | "a.b" parses to the unscaled value of the digits of a and b, with scale |b| |
| Numbers.TwoDotsRejected | src/main/java/com/thockpick/infrastructure/sync/googlesheets/dto/SwitchSheetRow.java:239-241 | "1.2.3" is no decimal |
| SwitchEntity.NewSwitch | src/main/java/com/thockpick/domain/switches/Switch.java:84-109 | a new switch has no id, no videos, the given sheet row, every argument in its field and a null `isLubed` turned into false |
| SwitchEntity.ApplySheetUpdate | src/main/java/com/thockpick/domain/switches/Switch.java:114-136 | exactly the sixteen columns are replaced; id, sheet row and videos are kept |
| SwitchEntity.ApplySheetUpdateIdempotent | src/main/java/com/thockpick/domain/switches/Switch.java:114-136 | an update repeated is the update once, and a later update wins over an earlier one |
| SwitchEntity.Switch.constructor | src/main/java/com/thockpick/domain/switches/Switch.java:86-109 | the builder constructor leaves the object holding `NewSwitch` of its arguments |
| SwitchEntity.Switch.Load | src/main/java/com/thockpick/domain/switches/Switch.java:28-84 | an object loaded from a row holds that row |
| SwitchEntity.Switch.UpdateFromGoogleSheets | src/main/java/com/thockpick/domain/switches/Switch.java:114-136 | the object afterwards holds `ApplySheetUpdate` of what it held, with `isLubed` not defaulted |
| SheetRow.CellAt | src/main/java/com/thockpick/infrastructure/sync/googlesheets/dto/SwitchSheetRow.java:187-193 | the trimmed cell at an index, and nothing exactly past the end of the row |
| SheetRow.FirstContaining | src/main/java/com/thockpick/infrastructure/sync/googlesheets/dto/SwitchSheetRow.java:94-99 | the first header in iteration order whose key contains the keyword, and no earlier one does |
| SheetRow.Lookup | src/main/java/com/thockpick/infrastructure/sync/googlesheets/dto/SwitchSheetRow.java:88-108 | what `getStringValue` returns is always trimmed |
| SheetRow.TrimmedCell | src/main/java/com/thockpick/infrastructure/sync/googlesheets/dto/SwitchSheetRow.java:106-107 | the cell read, which is trimmed |
| SheetRow.GetStringValue | src/main/java/com/thockpick/infrastructure/sync/googlesheets/dto/SwitchSheetRow.java:88-108 | the method's loop over the map returns `Lookup`: exact key first, else the first containing key in iteration order, else null; null past the row |
| SheetRow.FirstContainingFound | src/main/java/com/thockpick/infrastructure/sync/googlesheets/dto/SwitchSheetRow.java:94-99 | the search succeeds exactly when some header contains the keyword |
| SheetRow.LookupFallback | src/main/java/com/thockpick/infrastructure/sync/googlesheets/dto/SwitchSheetRow.java:93-104 | without an exact key, the value is the cell of SOME header containing the keyword, and null when none does |
| SheetRow.LookupAnyHeader | src/main/java/com/thockpick/infrastructure/sync/googlesheets/dto/SwitchSheetRow.java:94-99 | every containing header is the one used under some iteration order: no particular one is promised |
| SheetRow.KeysOf | src/main/java/com/thockpick/infrastructure/sync/googlesheets/dto/SwitchSheetRow.java:94 | some enumeration of the keys of a map exists |
| SheetRow.LookupExactWins | src/main/java/com/thockpick/infrastructure/sync/googlesheets/dto/SwitchSheetRow.java:90 | with an exact key the iteration order does not matter |
| SheetRow.LookupDeterminedByColumn | src/main/java/com/thockpick/infrastructure/sync/googlesheets/dto/SwitchSheetRow.java:94-99 | when all containing headers name the same column the order does not matter |
| SheetRow.ForceText | src/main/java/com/thockpick/infrastructure/sync/googlesheets/dto/SwitchSheetRow.java:118 | the force cell without ASCII letters and whitespace |
| SheetRow.ParseForces | src/main/java/com/thockpick/infrastructure/sync/googlesheets/dto/SwitchSheetRow.java:112-131 | null or empty gives (null, null); an actuation only with a `/`; neither side is ever "?"; both sides are cleaned text without `/` |
| SheetRow.ForcesSingle | src/main/java/com/thockpick/infrastructure/sync/googlesheets/dto/SwitchSheetRow.java:125-128 | without `/` the cleaned value is the bottom-out force alone, unless it is "?" |
| SheetRow.ForcesPair | src/main/java/com/thockpick/infrastructure/sync/googlesheets/dto/SwitchSheetRow.java:120-124 | "a/b" gives a and b; a "?" side gives null; an empty bottom-out side gives null; an empty actuation side stays "" unless both sides are empty ("/" gives nothing) |
| SheetRow.SplitPair | src/main/java/com/thockpick/infrastructure/sync/googlesheets/dto/SwitchSheetRow.java:120-124 | "a/b" splits on '/' into both sides, or fewer when the trailing sides are empty |
| SheetRow.ForcesIgnoreUnits | src/main/java/com/thockpick/infrastructure/sync/googlesheets/dto/SwitchSheetRow.java:118 | units and spaces do not change the result |
| SheetRow.CleanLabelled | src/main/java/com/thockpick/infrastructure/sync/googlesheets/dto/SwitchSheetRow.java:143-144 | a labelled part with label and `:` removed, trimmed |
| SheetRow.LastContaining | src/main/java/com/thockpick/infrastructure/sync/googlesheets/dto/SwitchSheetRow.java:142-145 | the last part holding the label, none after it |
| SheetRow.LabelledValue | src/main/java/com/thockpick/infrastructure/sync/googlesheets/dto/SwitchSheetRow.java:142-145 | absent exactly when no part holds the label |
| SheetRow.LabelledValueStep | src/main/java/com/thockpick/infrastructure/sync/googlesheets/dto/SwitchSheetRow.java:142-145 | one more part overwrites the value exactly when it holds the label |
| SheetRow.Materials | src/main/java/com/thockpick/infrastructure/sync/googlesheets/dto/SwitchSheetRow.java:133-160 | null or empty gives (null, null); the unlabelled form always has a housing, and with no stem the housing is the whole value |
| SheetRow.ParseMaterials | src/main/java/com/thockpick/infrastructure/sync/googlesheets/dto/SwitchSheetRow.java:133-160 | the method's loop over the parts returns `Materials`, a later labelled part overwriting an earlier one |
| SheetRow.MaterialsAtLastHyphen | src/main/java/com/thockpick/infrastructure/sync/googlesheets/dto/SwitchSheetRow.java:146-151 | the hyphen form splits at the last hyphen into trimmed housing and stem |
| SheetRow.MaterialsLeadingHyphen | src/main/java/com/thockpick/infrastructure/sync/googlesheets/dto/SwitchSheetRow.java:152-154 | a hyphen only at index 0 gives the whole value as housing and no stem |
| SheetRow.SuffixEnd | src/main/java/com/thockpick/infrastructure/sync/googlesheets/dto/SwitchSheetRow.java:59 | where `$` without MULTILINE can close a group: before a final "\r\n", before another final line terminator, or at the end |
| SheetRow.TrailingDigits | src/main/java/com/thockpick/infrastructure/sync/googlesheets/dto/SwitchSheetRow.java:59 | the run of digits ending a string |
| SheetRow.CountSuffixShape | src/main/java/com/thockpick/infrastructure/sync/googlesheets/dto/SwitchSheetRow.java:59 | a "(digits)" group that `$` closes ends at that place and is the digit run before its `)` |
| SheetRow.CountSuffixShapes | src/main/java/com/thockpick/infrastructure/sync/googlesheets/dto/SwitchSheetRow.java:59 | every such group has that shape |
| SheetRow.CountSuffix | src/main/java/com/thockpick/infrastructure/sync/googlesheets/dto/SwitchSheetRow.java:59 | the start and end of the group `\([0-9]+\)$` matches; there is at most one |
| SheetRow.StripCountSuffix | src/main/java/com/thockpick/infrastructure/sync/googlesheets/dto/SwitchSheetRow.java:59 | the `replaceAll("\\([0-9]+\\)$", "")` result: the matched group cut out, a final line terminator after it kept, and the title unchanged when nothing matches |
| SheetRow.StripCountSuffixOf | src/main/java/com/thockpick/infrastructure/sync/googlesheets/dto/SwitchSheetRow.java:57-59 | a title ending in "(digits)" loses exactly that group |
| SheetRow.StripCountSuffixBeforeTerminator | src/main/java/com/thockpick/infrastructure/sync/googlesheets/dto/SwitchSheetRow.java:59 | a group before a final line terminator ("\n", "\r", "\r\n", U+0085, U+2028, U+2029) is cut too, and the terminator stays |
| SheetRow.StripCountSuffixKeeps | src/main/java/com/thockpick/infrastructure/sync/googlesheets/dto/SwitchSheetRow.java:59 | a title in which `$` closes no such group is kept |
| SheetRow.CleanCategory | src/main/java/com/thockpick/infrastructure/sync/googlesheets/dto/SwitchSheetRow.java:59 | the category is the trim of the stripped title |
| SheetRow.CategoryOfCounted | src/main/java/com/thockpick/infrastructure/sync/googlesheets/dto/SwitchSheetRow.java:59 | a title with printable ends followed by "(digits)" gives that title as category |
| SheetRow.CategoryOfCountedLine | src/main/java/com/thockpick/infrastructure/sync/googlesheets/dto/SwitchSheetRow.java:59 | the same when a final "\n", "\r" or "\r\n" follows the group |
| SheetRow.CategoryExample | src/main/java/com/thockpick/infrastructure/sync/googlesheets/dto/SwitchSheetRow.java:57-59 | "체리(9)" gives "체리" |
| SheetRow.CategoryExampleMixed | src/main/java/com/thockpick/infrastructure/sync/googlesheets/dto/SwitchSheetRow.java:57-59 | "Outemu(오테뮤)&Gazzew(4)" gives "Outemu(오테뮤)&Gazzew" |
| SheetRow.CategoryBeforeNewline | src/main/java/com/thockpick/infrastructure/sync/googlesheets/dto/SwitchSheetRow.java:59 | "체리(9)" followed by a newline still gives "체리" |
| SheetRow.From | src/main/java/com/thockpick/infrastructure/sync/googlesheets/dto/SwitchSheetRow.java:48-83 | the builder chain produces `RowOf`: every column looked up by its keyword, forces and materials split |
| SheetRow.RowOfExactHeaders | src/main/java/com/thockpick/infrastructure/sync/googlesheets/dto/SwitchSheetRow.java:88-99 | a sheet with every keyword as an exact header gives the same row under any iteration order |
| SheetRow.RowOfCells | src/main/java/com/thockpick/infrastructure/sync/googlesheets/dto/SwitchSheetRow.java:48-83 | the built row carries its number, no weight, trimmed name and type, and no forces or materials when their cells are missing |
| SheetRow.ParseType | src/main/java/com/thockpick/infrastructure/sync/googlesheets/dto/SwitchSheetRow.java:195-206 | null or empty gives null; otherwise the enum's parse, a failure being null |
| SheetRow.ParseSoundProfile | src/main/java/com/thockpick/infrastructure/sync/googlesheets/dto/SwitchSheetRow.java:208-217 | null or empty gives null; otherwise the enum's parse, a failure being null |
| SheetRow.ParseInteger | src/main/java/com/thockpick/infrastructure/sync/googlesheets/dto/SwitchSheetRow.java:219-230 | a result lies in the 32-bit range and the cell had a digit |
| SheetRow.ParsedIntegerHasDigit | src/main/java/com/thockpick/infrastructure/sync/googlesheets/dto/SwitchSheetRow.java:225-226 | an accepted cleaned text had a digit in the cell |
| SheetRow.ParseIntegerWithUnit | src/main/java/com/thockpick/infrastructure/sync/googlesheets/dto/SwitchSheetRow.java:224-226 | a 32-bit number followed by a unit parses as the number |
| SheetRow.ParseIntegerOverflow | src/main/java/com/thockpick/infrastructure/sync/googlesheets/dto/SwitchSheetRow.java:226-228 | a number beyond the 32-bit range gives null |
| SheetRow.IntegerWithUnitExample | src/main/java/com/thockpick/infrastructure/sync/googlesheets/dto/SwitchSheetRow.java:224 | "50g" gives 50 |
| SheetRow.IntegerRejectExamples | src/main/java/com/thockpick/infrastructure/sync/googlesheets/dto/SwitchSheetRow.java:225-228 | "-", "1-2" and "gf" give null |
| SheetRow.DecimalText | src/main/java/com/thockpick/infrastructure/sync/googlesheets/dto/SwitchSheetRow.java:238 | the cell with only digits and dots left |
| SheetRow.ParseBigDecimal | src/main/java/com/thockpick/infrastructure/sync/googlesheets/dto/SwitchSheetRow.java:232-243 | null or empty gives null; otherwise a decimal exactly when the cleaned text has at most one dot and a digit |
| SheetRow.ParseBigDecimalWithUnit | src/main/java/com/thockpick/infrastructure/sync/googlesheets/dto/SwitchSheetRow.java:237-239 | "a.b" plus a unit parses as that decimal |
| SheetRow.DecimalWithUnitExample | src/main/java/com/thockpick/infrastructure/sync/googlesheets/dto/SwitchSheetRow.java:237 | "4.0mm" gives 4.0 (unscaled 40, scale 1) |
| SheetRow.DecimalTwoDotsExample | src/main/java/com/thockpick/infrastructure/sync/googlesheets/dto/SwitchSheetRow.java:239-241 | "1.2.3" gives null |
| SheetRow.ParseBoolean | src/main/java/com/thockpick/infrastructure/sync/googlesheets/dto/SwitchSheetRow.java:245-252 | null or empty gives false; otherwise true exactly when the lowered, trimmed value is among "true", "yes", "o", "1", "윤활" |
| SheetRow.ParseBooleanCaseInsensitive | src/main/java/com/thockpick/infrastructure/sync/googlesheets/dto/SwitchSheetRow.java:249 | letter case does not change the answer |
| SheetRow.BooleanExample | src/main/java/com/thockpick/infrastructure/sync/googlesheets/dto/SwitchSheetRow.java:249-251 | "O" is true |
| SheetRow.BooleanAroundTrueWord | src/main/java/com/thockpick/infrastructure/sync/googlesheets/dto/SwitchSheetRow.java:249-251 | a true word in any letter case with blanks around it is true |
| SheetRow.BooleanPaddedExample | src/main/java/com/thockpick/infrastructure/sync/googlesheets/dto/SwitchSheetRow.java:249-251 | " YES " is true |
| SheetRow.ToEntity | src/main/java/com/thockpick/infrastructure/sync/googlesheets/dto/SwitchSheetRow.java:165-185 | a new unsaved entity: text columns copied, type and sound profile through the enum parsers, the four integer columns through `parseInteger`, the two decimal columns through `parseBigDecimal`, the lubed flag through `parseBoolean`, the sheet row recorded, `isLubed` always present, a type only from a non-empty cell |
| SheetRow.EntityOfParsedRowHasNoWeight | src/main/java/com/thockpick/infrastructure/sync/googlesheets/dto/SwitchSheetRow.java:48-83 | rows built by `from` never set a weight, so their entities have none, and they carry their row number |
| GoogleSheets.FirstHeaderRow | src/main/java/com/thockpick/infrastructure/sync/googlesheets/service/GoogleSheetsService.java:113-127 | the first row with a cell that, spaces removed, contains "스위치이름"; none before it; none at all when absent |
| GoogleSheets.LastPositions | src/main/java/com/thockpick/infrastructure/sync/googlesheets/service/GoogleSheetsService.java:121-124 | every header key is mapped, to a column holding it |
| GoogleSheets.LastPositionsIsLast | src/main/java/com/thockpick/infrastructure/sync/googlesheets/service/GoogleSheetsService.java:121-124 | a duplicate header maps to its last column |
| GoogleSheets.HeaderKeys | src/main/java/com/thockpick/infrastructure/sync/googlesheets/service/GoogleSheetsService.java:122 | each header cell without whitespace |
| GoogleSheets.HeaderMapOfColumns | src/main/java/com/thockpick/infrastructure/sync/googlesheets/service/GoogleSheetsService.java:121-124 | every header text is a key, every key names a column holding it, and no later column holds it |
| GoogleSheets.Named | src/main/java/com/thockpick/infrastructure/sync/googlesheets/service/GoogleSheetsService.java:138 | the filter keeps rows with a non-empty name, in order |
| GoogleSheets.NamedSnoc | src/main/java/com/thockpick/infrastructure/sync/googlesheets/service/GoogleSheetsService.java:138 | one more row is kept exactly when it is named |
| GoogleSheets.BuiltRows | src/main/java/com/thockpick/infrastructure/sync/googlesheets/service/GoogleSheetsService.java:135-137 | one row per data row in the range |
| GoogleSheets.BuiltRowsStep | src/main/java/com/thockpick/infrastructure/sync/googlesheets/service/GoogleSheetsService.java:135-138 | one more data row adds its built row when it is named |
| GoogleSheets.RowBuilder | src/main/java/com/thockpick/infrastructure/sync/googlesheets/service/GoogleSheetsService.java:137 | each row is given the number `i + 1` |
| GoogleSheets.RowBuilderIsFrom | src/main/java/com/thockpick/infrastructure/sync/googlesheets/service/GoogleSheetsService.java:137 | the builder applies `SwitchSheetRow.from` |
| GoogleSheets.SheetRowsWithoutHeader | src/main/java/com/thockpick/infrastructure/sync/googlesheets/service/GoogleSheetsService.java:105-132 | an empty sheet, or one without a header row, gives no rows |
| GoogleSheets.KeptRowsNamed | src/main/java/com/thockpick/infrastructure/sync/googlesheets/service/GoogleSheetsService.java:138 | every returned row has a non-empty name |
| GoogleSheets.KeptRowsNumbered | src/main/java/com/thockpick/infrastructure/sync/googlesheets/service/GoogleSheetsService.java:135-137 | every returned row is numbered within the data rows after the header |
| GoogleSheets.KeptRowsIncreasing | src/main/java/com/thockpick/infrastructure/sync/googlesheets/service/GoogleSheetsService.java:135-139 | sheet order is kept: row numbers strictly increase |
| GoogleSheets.KeptRowsBuilt | src/main/java/com/thockpick/infrastructure/sync/googlesheets/service/GoogleSheetsService.java:137 | each returned row is the row built from the data row its number names |
| GoogleSheets.KeptRowsComplete | src/main/java/com/thockpick/infrastructure/sync/googlesheets/service/GoogleSheetsService.java:138 | every named data row is returned |
| GoogleSheets.ParseSheetValues | src/main/java/com/thockpick/infrastructure/sync/googlesheets/service/GoogleSheetsService.java:104-140 | the header search loop and the row loop return `SheetRows` |
| GoogleSheets.PutHeaders | src/main/java/com/thockpick/infrastructure/sync/googlesheets/service/GoogleSheetsService.java:121-124 | the header loop builds the header map: each cell text without spaces to its last column |
| GoogleSheets.DataRows | src/main/java/com/thockpick/infrastructure/sync/googlesheets/service/GoogleSheetsService.java:135-139 | the row loop returns the named rows after the header, in order |
| Nicknames.CollectedConcat | src/main/java/com/thockpick/application/switches/SwitchNicknameService.java:47-51 | the rule fold distributes over concatenated rule lists: rule order is kept |
| Nicknames.CollectedSingle | src/main/java/com/thockpick/application/switches/SwitchNicknameService.java:48-50 | a rule adds all of its nicknames or none |
| Nicknames.NicknamesByRule | src/main/java/com/thockpick/application/switches/SwitchNicknameService.java:44-52 | the result is the output of the rules before, then this rule's nicknames when its lowered keyword is in the lowered name, then the rules after; duplicates kept |
| Nicknames.NicknamesIgnoreCase | src/main/java/com/thockpick/application/switches/SwitchNicknameService.java:45-48 | names equal up to letter case get the same nicknames |
| Nicknames.NicknamesOfLowered | src/main/java/com/thockpick/application/switches/SwitchNicknameService.java:45 | a name and its lower case get the same nicknames |
| Nicknames.NoNicknames | src/main/java/com/thockpick/application/switches/SwitchNicknameService.java:23-43 | no rules, or a null name, give an empty list |
| Nicknames.SwitchNicknameService.constructor | src/main/java/com/thockpick/application/switches/SwitchNicknameService.java:23 | the rule list starts empty |
| Nicknames.SwitchNicknameService.Init | src/main/java/com/thockpick/application/switches/SwitchNicknameService.java:31-39 | a loaded file replaces the rules; a failed load keeps them |
| Nicknames.SwitchNicknameService.GetNicknames | src/main/java/com/thockpick/application/switches/SwitchNicknameService.java:42-53 | the method's loop returns `NicknamesOf` of the rules |
| SwitchNames.ContainsKorean | src/main/java/com/thockpick/infrastructure/sync/googlesheets/service/SwitchSyncService.java:183-190 | true exactly when some character lies in U+AC00..U+D7AF or U+3130..U+318F |
| SwitchNames.RegexSpacesAreSpaces | src/main/java/com/thockpick/infrastructure/sync/googlesheets/service/SwitchSyncService.java:166 | the cut characters are exactly `\s` |
| SwitchNames.Select | src/main/java/com/thockpick/infrastructure/sync/googlesheets/service/SwitchSyncService.java:169-178 | the kept elements, in order, all admitted |
| SwitchNames.SelectFrom | src/main/java/com/thockpick/infrastructure/sync/googlesheets/service/SwitchSyncService.java:169-178 | what is kept comes from the input |
| SwitchNames.SelectSnoc | src/main/java/com/thockpick/infrastructure/sync/googlesheets/service/SwitchSyncService.java:169-178 | one more element is kept exactly when admitted |
| SwitchNames.SelectPartition | src/main/java/com/thockpick/infrastructure/sync/googlesheets/service/SwitchSyncService.java:172-177 | two complementary selections share out the elements |
| SwitchNames.Tokens | src/main/java/com/thockpick/infrastructure/sync/googlesheets/service/SwitchSyncService.java:164-170 | the non-empty pieces, holding neither whitespace nor a separator |
| SwitchNames.JoinWithSnoc | src/main/java/com/thockpick/infrastructure/sync/googlesheets/service/SwitchSyncService.java:175-176 | appending to the name adds a space only after a first token |
| SwitchNames.JoinWithEmpty | src/main/java/com/thockpick/infrastructure/sync/googlesheets/service/SwitchSyncService.java:175-176 | non-empty tokens join to "" only when there are none |
| SwitchNames.JoinWithChars | src/main/java/com/thockpick/infrastructure/sync/googlesheets/service/SwitchSyncService.java:175-176 | the joined name holds only spaces and token characters |
| SwitchNames.FieldsOfJoin | src/main/java/com/thockpick/infrastructure/sync/googlesheets/service/SwitchSyncService.java:175-176 | space-free tokens split back out of their join |
| SwitchNames.FieldsPrefix | src/main/java/com/thockpick/infrastructure/sync/googlesheets/service/SwitchSyncService.java:166 | cutting a separator-free head |
| SwitchNames.KoreanStep | src/main/java/com/thockpick/infrastructure/sync/googlesheets/service/SwitchSyncService.java:172-173 | one more piece joins the Hangul list only when it is a Hangul token |
| SwitchNames.EnglishStep | src/main/java/com/thockpick/infrastructure/sync/googlesheets/service/SwitchSyncService.java:174-177 | one more piece joins the name only when it is a token without Hangul |
| SwitchNames.KoreanOfTokens | src/main/java/com/thockpick/infrastructure/sync/googlesheets/service/SwitchSyncService.java:169-178 | the piece-by-piece Hangul list is the Hangul tokens |
| SwitchNames.EnglishOfTokens | src/main/java/com/thockpick/infrastructure/sync/googlesheets/service/SwitchSyncService.java:169-178 | the piece-by-piece name is the other tokens one space apart |
| SwitchNames.PiecesGiveTokens | src/main/java/com/thockpick/infrastructure/sync/googlesheets/service/SwitchSyncService.java:164-180 | both results in terms of the tokens of the name |
| SwitchNames.ExtractKoreanFromName | src/main/java/com/thockpick/infrastructure/sync/googlesheets/service/SwitchSyncService.java:160-181 | null gives null and leaves the list; otherwise the cleaned name, and the Hangul tokens appended to the list in order |
| SwitchNames.SortTokens | src/main/java/com/thockpick/infrastructure/sync/googlesheets/service/SwitchSyncService.java:169-178 | the token loop returns the joined other tokens and the list extended by the Hangul tokens |
| SwitchNames.TokensShared | src/main/java/com/thockpick/infrastructure/sync/googlesheets/service/SwitchSyncService.java:172-177 | every token is on exactly one side: Hangul tokens in the list, the rest in the name |
| SwitchNames.CleanedNameHasNoHangul | src/main/java/com/thockpick/infrastructure/sync/googlesheets/service/SwitchSyncService.java:172-180 | the cleaned name holds no Hangul |
| SwitchNames.TokensPrintable | src/main/java/com/thockpick/infrastructure/sync/googlesheets/service/SwitchSyncService.java:166 | tokens hold no character below U+0021 when those are all whitespace |
| SwitchNames.JoinWithEnds | src/main/java/com/thockpick/infrastructure/sync/googlesheets/service/SwitchSyncService.java:180 | such tokens join to a string `trim` leaves alone |
| SwitchNames.CleanedNameSplitsBack | src/main/java/com/thockpick/infrastructure/sync/googlesheets/service/SwitchSyncService.java:175-180 | the cleaned name is the other tokens one space apart, and splits back into them |
| SwitchNames.BelowHangul | src/main/java/com/thockpick/infrastructure/sync/googlesheets/service/SwitchSyncService.java:185 | characters below U+3130 are not Hangul |
| SwitchNames.ExampleSpaced | src/main/java/com/thockpick/infrastructure/sync/googlesheets/service/SwitchSyncService.java:164 | separators become spaces in "MX Brown(체갈)" |
| SwitchNames.ExamplePieces | src/main/java/com/thockpick/infrastructure/sync/googlesheets/service/SwitchSyncService.java:166 | the cut of the example |
| SwitchNames.ExampleTokens | src/main/java/com/thockpick/infrastructure/sync/googlesheets/service/SwitchSyncService.java:169-170 | the tokens of the example |
| SwitchNames.ExampleShares | src/main/java/com/thockpick/infrastructure/sync/googlesheets/service/SwitchSyncService.java:172-177 | how the example's tokens are shared out |
| SwitchNames.ExampleJoin | src/main/java/com/thockpick/infrastructure/sync/googlesheets/service/SwitchSyncService.java:175-180 | the example's name tokens joined |
| SwitchNames.ExtractExample | src/main/java/com/thockpick/infrastructure/sync/googlesheets/service/SwitchSyncService.java:156 | "MX Brown(체갈)" gives "MX Brown" and ["체갈"] |
| SwitchSync.FindOne | src/main/java/com/thockpick/infrastructure/sync/googlesheets/service/SwitchSyncService.java:82-89 | a derived query returning `Optional`: a match satisfies the condition |
| SwitchSync.FindOneMeaning | src/main/java/com/thockpick/infrastructure/sync/googlesheets/service/SwitchSyncService.java:82-89 | nothing found exactly when no row satisfies it; a match is the only such row; more than one is the non-unique failure |
| SwitchSync.Existing | src/main/java/com/thockpick/infrastructure/sync/googlesheets/service/SwitchSyncService.java:82-90 | the switch picked lies in the table |
| SwitchSync.ExistingMeaning | src/main/java/com/thockpick/infrastructure/sync/googlesheets/service/SwitchSyncService.java:82-90 | the pick is the (row, tab) match, or else the name match; nothing is picked exactly when neither lookup finds one |
| SwitchSync.Save | src/main/java/com/thockpick/infrastructure/sync/googlesheets/service/SwitchSyncService.java:113-116 | `save`: succeeds exactly when the store does not fail and NOT NULL holds; an id overwrites its row, no id appends under the next id; nothing else changes |
| SwitchSync.DocumentOf | src/main/java/com/thockpick/infrastructure/sync/googlesheets/service/SwitchSyncService.java:127-152 | the index document: the id, the cleaned name, the manufacturer as brand, the category, and the rule nicknames followed by the Hangul tokens |
| SwitchSync.DocumentsKeepId | src/main/java/com/thockpick/infrastructure/sync/googlesheets/service/SwitchSyncService.java:140 | the document builder files each switch under its id |
| SwitchSync.Upserted | src/main/java/com/thockpick/infrastructure/sync/googlesheets/service/SwitchSyncService.java:92-117 | the saved entity has the row's sixteen columns; on a match it keeps the existing id and sheet row, otherwise it is the new entity |
| SwitchSync.Entities | src/main/java/com/thockpick/infrastructure/sync/googlesheets/dto/SwitchSheetRow.java:165-185 | every row converted by `toEntity`, none stored yet |
| SwitchSync.ProcessRow | src/main/java/com/thockpick/infrastructure/sync/googlesheets/service/SwitchSyncService.java:78-121 | the state after one row keeps ids following positions; a failure leaves it unchanged |
| SwitchSync.SyncRows | src/main/java/com/thockpick/infrastructure/sync/googlesheets/service/SwitchSyncService.java:48-71 | the table keeps ids following positions, and the count is at most the rows seen |
| SwitchSync.SyncNoRows | src/main/java/com/thockpick/infrastructure/sync/googlesheets/service/SwitchSyncService.java:43-46 | no rows: nothing changes and the count is 0 |
| SwitchSync.SyncStep | src/main/java/com/thockpick/infrastructure/sync/googlesheets/service/SwitchSyncService.java:52-67 | one turn of the loop keeps ids following positions, adds at most one to the count, and leaves a row without name or type skipped |
| SwitchSync.StepKeepsValid | src/main/java/com/thockpick/infrastructure/sync/googlesheets/service/SwitchSyncService.java:52-67 | one turn of the loop keeps the index pointing at stored switches only |
| SwitchSync.SyncRowsNext | src/main/java/com/thockpick/infrastructure/sync/googlesheets/service/SwitchSyncService.java:51-69 | one more complete row adds its state and one count when it succeeds, nothing when it throws |
| SwitchSync.CompleteRows | src/main/java/com/thockpick/infrastructure/sync/googlesheets/service/SwitchSyncService.java:54 | the rows having a name and a type |
| SwitchSync.FirstNumbered | src/main/java/com/thockpick/infrastructure/sync/googlesheets/service/SwitchSyncService.java:202-204 | the first sheet row with the number, none before it; none at all when absent |
| SwitchSync.SyncByRow | src/main/java/com/thockpick/infrastructure/sync/googlesheets/service/SwitchSyncService.java:197-241 | the single-row outcome keeps ids following positions |
| SwitchSync.StorableEntity | src/main/java/com/thockpick/infrastructure/sync/googlesheets/service/SwitchSyncService.java:54 | a converted row meets NOT NULL exactly when it has a name and a parsable type |
| SwitchSync.ProcessRowSucceeds | src/main/java/com/thockpick/infrastructure/sync/googlesheets/service/SwitchSyncService.java:78-121 | a row throws exactly when its lookup is ambiguous, the save fails or NOT NULL is violated |
| SwitchSync.ProcessRowUpdates | src/main/java/com/thockpick/infrastructure/sync/googlesheets/service/SwitchSyncService.java:92-113 | a found switch is updated in place: only its position changes, to `ApplySheetUpdate` |
| SwitchSync.ProcessRowInserts | src/main/java/com/thockpick/infrastructure/sync/googlesheets/service/SwitchSyncService.java:114-116 | no switch found: the entity is appended under the next id |
| SwitchSync.ProcessRowIndexes | src/main/java/com/thockpick/infrastructure/sync/googlesheets/service/SwitchSyncService.java:120-152 | the index holds the stored switch's document under its id unless indexing fails, and a failure keeps the table save |
| SwitchSync.ProcessRowKeepsValid | src/main/java/com/thockpick/infrastructure/sync/googlesheets/service/SwitchSyncService.java:120 | the index keeps pointing at stored switches only |
| SwitchSync.SyncRowsKeepsValid | src/main/java/com/thockpick/infrastructure/sync/googlesheets/service/SwitchSyncService.java:48-71 | a whole run keeps the index pointing at stored switches only |
| SwitchSync.SyncCountAtMostComplete | src/main/java/com/thockpick/infrastructure/sync/googlesheets/service/SwitchSyncService.java:54-63 | the count is at most the number of rows with name and type |
| SwitchSync.NextRowCount | src/main/java/com/thockpick/infrastructure/sync/googlesheets/service/SwitchSyncService.java:54-63 | one more row adds to the count only when it has a name and a type |
| SwitchSync.ProcessRowKeepsRecords | src/main/java/com/thockpick/infrastructure/sync/googlesheets/service/SwitchSyncService.java:92-117 | a row removes no switch and changes no sheet row or videos |
| SwitchSync.NextRowKeepsRecords | src/main/java/com/thockpick/infrastructure/sync/googlesheets/service/SwitchSyncService.java:51-69 | one more row of a run removes no switch and changes no sheet row or videos |
| SwitchSync.SyncRowsKeepsRecords | src/main/java/com/thockpick/infrastructure/sync/googlesheets/service/SwitchSyncService.java:48-71 | a run removes no switch and changes no sheet row or videos |
| SwitchSync.SyncWithoutDatabase | src/main/java/com/thockpick/infrastructure/sync/googlesheets/service/SwitchSyncService.java:65-68 | when every save fails, nothing is stored, indexed or counted |
| SwitchSync.SyncPastFailedRow | src/main/java/com/thockpick/infrastructure/sync/googlesheets/service/SwitchSyncService.java:54-68 | a skipped or failing row changes neither state nor count, and processing goes on |
| SwitchSync.ByRowIgnoresTab | src/main/java/com/thockpick/infrastructure/sync/googlesheets/service/SwitchSyncService.java:212-233 | the single-row path matches by row number only and overwrites a switch of another tab |
| SwitchSync.ByRowWithoutName | src/main/java/com/thockpick/infrastructure/sync/googlesheets/service/SwitchSyncService.java:211-240 | the single-row path has no required-field check: a row without a name throws at save |
| SwitchSync.SwitchSyncService.constructor | src/main/java/com/thockpick/infrastructure/sync/googlesheets/service/SwitchSyncService.java:25-31 | the service starts from the given table and index |
| SwitchSync.SwitchSyncService.SaveEntity | src/main/java/com/thockpick/infrastructure/sync/googlesheets/service/SwitchSyncService.java:113-116 | the table becomes `Save`'s, and an inserted entity receives its id |
| SwitchSync.SwitchSyncService.SaveToElasticsearch | src/main/java/com/thockpick/infrastructure/sync/googlesheets/service/SwitchSyncService.java:127-152 | the index becomes `Indexed` with the service's document; the table is untouched |
| SwitchSync.SwitchSyncService.NewEntity | src/main/java/com/thockpick/infrastructure/sync/googlesheets/service/SwitchSyncService.java:115 | a fresh object holding `toEntity` of the row |
| SwitchSync.SwitchSyncService.UpdatedEntity | src/main/java/com/thockpick/infrastructure/sync/googlesheets/service/SwitchSyncService.java:93-112 | a fresh object holding the stored switch updated with the row |
| SwitchSync.SwitchSyncService.ProcessSingleSwitch | src/main/java/com/thockpick/infrastructure/sync/googlesheets/service/SwitchSyncService.java:78-121 | the new state is `ProcessRow` of the old one, `ok` telling whether it threw |
| SwitchSync.SwitchSyncService.Upsert | src/main/java/com/thockpick/infrastructure/sync/googlesheets/service/SwitchSyncService.java:92-117 | the update or insert, saved as `Save` of `Upserted` |
| SwitchSync.SwitchSyncService.SyncAllSwitches | src/main/java/com/thockpick/infrastructure/sync/googlesheets/service/SwitchSyncService.java:38-72 | state and count are `SyncRows` over all rows; the count is at most the complete rows; the index stays valid |
| SwitchSync.SwitchSyncService.SyncEachRow | src/main/java/com/thockpick/infrastructure/sync/googlesheets/service/SwitchSyncService.java:51-69 | the loop gives `SyncRows` over all rows |
| SwitchSync.SwitchSyncService.SyncRowAt | src/main/java/com/thockpick/infrastructure/sync/googlesheets/service/SwitchSyncService.java:52-68 | one pass extends `SyncRows` by one row |
| SwitchSync.SwitchSyncService.SyncSwitchByRow | src/main/java/com/thockpick/infrastructure/sync/googlesheets/service/SwitchSyncService.java:197-241 | the outcome is `SyncByRow`; only a stored outcome changes the table; the index is never touched |
| SwitchSearch.Criteria | src/main/java/com/thockpick/application/switches/SwitchService.java:60-95 | at most three predicates; none without ids, type or manufacturer |
| SwitchSearch.SearchSwitches | src/main/java/com/thockpick/application/switches/SwitchService.java:42-99 | a keyword with no hits gives nothing, and every result is stored |
| SwitchSearch.CriteriaMeaning | src/main/java/com/thockpick/application/switches/SwitchService.java:60-95 | the conjunction is the id restriction when given and the two filters |
| SwitchSearch.SearchWithKeyword | src/main/java/com/thockpick/application/switches/SwitchService.java:45-77 | with a keyword: exactly the stored switches among the hits that pass the filters |
| SwitchSearch.SearchWithoutKeyword | src/main/java/com/thockpick/application/switches/SwitchService.java:80-97 | without a keyword: exactly the stored switches that pass the filters |
| SwitchSearch.SearchNarrows | src/main/java/com/thockpick/application/switches/SwitchService.java:74-94 | a type, a manufacturer or a keyword never enlarges the result |
| SwitchSearch.Characterize | src/main/java/com/thockpick/application/switches/SwitchService.java:42-99 | both branches in one statement |
| SwitchSearch.BlankKeywordIgnored | src/main/java/com/thockpick/application/switches/SwitchService.java:45 | a blank keyword is no keyword: the hits do not matter |
| SwitchSearch.FindSwitchById | src/main/java/com/thockpick/application/switches/SwitchService.java:104-107 | found exactly when a stored switch has the id; otherwise the exception's message with the id |
| ListResponse.From | src/main/java/com/thockpick/presentation/dto/SwitchListResponse.java:25-36 | the eight listed columns copied from the switch |
| ListResponse.FromCarriesListedColumnsOnly | src/main/java/com/thockpick/presentation/dto/SwitchListResponse.java:14-22 | two switches give the same item exactly when they agree on the eight columns |
| ListResponse.FromAfterSheetUpdate | src/main/java/com/thockpick/presentation/dto/SwitchListResponse.java:25-36 | a sheet update keeping the listed columns keeps the item |
| SwitchList.ApiTarget | src/main/resources/static/js/switches/list.js:116 | the container's URL, or "/switches/api" when it is empty |
| SwitchList.QueryParamsShape | src/main/resources/static/js/switches/list.js:106-112 | page and size first; type and keyword exactly when non-empty, with their values; no key twice |
| SwitchList.PageZeroParams | src/main/resources/static/js/switches/list.js:97-109 | an unfiltered first page asks for page "0" and size "12" |
| SwitchList.CreatePageItem | src/main/resources/static/js/switches/list.js:184-201 | a disabled item has no click; any other loads its page |
| SwitchList.WindowBounds | src/main/resources/static/js/switches/list.js:207-208 | at most ten numbers, all within the pages, the current page among them |
| SwitchList.PaginationShape | src/main/resources/static/js/switches/list.js:178-216 | at most twelve items, between 이전 and 다음; active exactly at the current number; every number loads its page; the current page shown |
| SwitchList.RenderPagination | src/main/resources/static/js/switches/list.js:178-216 | the loop renders `Pagination` |
| SwitchList.CreateInfoRow | src/main/resources/static/js/switches/list.js:151-157 | empty exactly for a falsy value |
| SwitchList.InfoRowShows | src/main/resources/static/js/switches/list.js:151-157 | a shown row holds "label:" and the value with its suffix |
| SwitchList.InfoHtmlEmpty | src/main/resources/static/js/switches/list.js:159-165 | no rows exactly when all five values are falsy; a price of 0 is not shown |
| SwitchList.SwitchListApp.constructor | src/main/resources/static/js/switches/list.js:7-15 | the initial state |
| SwitchList.SwitchListApp.LoadSwitches | src/main/resources/static/js/switches/list.js:101-117 | the page is set and the request of `RequestFor` is sent; nothing else changes |
| SwitchList.SwitchListApp.SearchSwitches | src/main/resources/static/js/switches/list.js:86-90 | the inputs become the filters and page 0 is requested with them |
| SwitchList.SwitchListApp.ResetFilters | src/main/resources/static/js/switches/list.js:93-98 | inputs and filters cleared, page 0 requested without type or keyword |
| SwitchList.SwitchListApp.ReadUrlParams | src/main/resources/static/js/switches/list.js:70-83 | a non-empty parameter sets its filter and input; an empty or missing one changes nothing |
| SwitchList.SwitchListApp.Init | src/main/resources/static/js/switches/list.js:21-33 | a non-empty `type` or `keyword` parameter sets its filter and input, the container's URL is taken when there is a container, and page 0 is requested with those filters |
| ApiResponses.Success | src/main/java/com/thockpick/global/common/ApiResponse.java:29-31 | a success with the payload and no error |
| ApiResponses.SuccessEmpty | src/main/java/com/thockpick/global/common/ApiResponse.java:36-38 | a success with neither payload nor error |
| ApiResponses.Error | src/main/java/com/thockpick/global/common/ApiResponse.java:43-45 | a failure with no payload and the code and message |
| ApiResponses.FactoriesWellFormed | src/main/java/com/thockpick/global/common/ApiResponse.java:20-45 | factories build only responses that succeed exactly without error, and build all of them |
| ApiResponses.FactoriesDistinct | src/main/java/com/thockpick/global/common/ApiResponse.java:29-45 | `success()` is `success(null)`, and no success is an error |
| ApiResponses.JsonShape | src/main/java/com/thockpick/global/common/ApiResponse.java:13-18 | under NON_NULL a failure writes `success` and `error` only, a success `success` and `data` when present |
| ErrorCodes.StatusValue | src/main/java/com/thockpick/global/exception/ErrorCode.java:15-34 | the status numbers used are all 4xx or 5xx |
| ErrorCodes.CodesUnique | src/main/java/com/thockpick/global/exception/ErrorCode.java:15-34 | no two constants share a code |
| ErrorCodes.CodeForm | src/main/java/com/thockpick/global/exception/ErrorCode.java:14-34 | every code has four or five characters and its prefix names its group |
| ErrorCodes.StatusByKind | src/main/java/com/thockpick/global/exception/ErrorCode.java:15-34 | exactly the "not found" constants are 404 and the "already exists" ones 409; exactly three are 5xx |
| ErrorCodes.MessagesPresent | src/main/java/com/thockpick/global/exception/ErrorCode.java:15-34 | every constant has a message |
| ExceptionHandling.ValidationMessage | src/main/java/com/thockpick/global/exception/GlobalExceptionHandler.java:37-42 | the first field error's default message, else the table's |
| ExceptionHandling.Handle | src/main/java/com/thockpick/global/exception/GlobalExceptionHandler.java:23-85 | every answer is a failure with an error and no payload |
| ExceptionHandling.HandledAsTable | src/main/java/com/thockpick/global/exception/GlobalExceptionHandler.java:23-85 | status and code are those of the table entry; so is the message except for validation |
| ExceptionHandling.CodeDeterminesStatus | src/main/java/com/thockpick/global/exception/GlobalExceptionHandler.java:23-85 | answers with the same code have the same status |
| ExceptionHandling.HandledIsFailure | src/main/java/com/thockpick/global/exception/GlobalExceptionHandler.java:23-85 | every answer is well-formed, has an error status and writes no `data` |
| ExceptionHandling.ClientErrors | src/main/java/com/thockpick/global/exception/GlobalExceptionHandler.java:23-85 | which exceptions give a 4xx; a "not found" business exception gives 404 |

## Left out

- The table is a sequence in which position i holds id i + 1. It stands for a map from id to row: ids are modelled as gap-free positions, although an IDENTITY column can skip values after a failed or rolled-back insert. Rows are never deleted, and no property depends on the id values themselves. The search index is a map from id to document.
- The entity's sixteen sheet columns are grouped in one `SwitchAttributes` value. Both the constructor and `updateFromGoogleSheets` write them together. Id, sheet row and videos stay separate fields.
- Storage and indexing failures are inputs: the sets of row positions whose save or index call throws. Two failures also arise from the model itself:
  - the NOT NULL constraint on name and type;
  - a derived `Optional` query that matches more than one row.
- Exceptions are `None`/`Thrown` results; logging is not modelled.
- The sync service's pure parts are passed to the specification functions as arguments: `entities` (the converted rows) and `document` (the index document builder). The methods tie them to `toEntity` and `saveToElasticsearch`.
- `processSingleSwitch` runs without a surrounding transaction, so each save commits on its own. `syncSwitchByRow` is transactional and stores nothing when it throws.
- `readSwitchData` is not part of this model: reading the spreadsheet through the Google API, including the tab list. The sheet rows are inputs.
- `SwitchType.fromString` and `SoundProfile.fromString` are not part of this model. They are functions passed in (`EnumParsers`), whose failure is `None`.
- Loading `data/switch_nicknames.json` is I/O. `Init` receives the parsed rules, or `None` for a failed load.
- HashMap iteration order is an explicit parameter. The model promises only "some header containing the keyword".
- `split("\\s+")` is modelled as a cut at each whitespace character, with the empty pieces skipped. This is what the token loop does with the pieces.
- Characters are code points, not UTF-16 units. Every character the code compares lies in the Basic Multilingual Plane.
- `toLowerCase` is modelled on ASCII letters only.
- `trim` removes characters <= U+0020, as Java does.
- Search results are the set of matching rows. Paging, sorting, the framework's SQL and the index's relevance are not modelled. The index's answer to a keyword is an input list of ids.
- `countAllSwitches`, `countByType`, the controllers, the detail page and the video and plate features are outside the core.
- Column length limits and the database collation are not modelled. The manufacturer filter is exact equality.
- The page script's DOM work is not modelled: rendering the cards, fetching, parsing the response and the alerts. Requests are recorded before URL encoding.
- `Init` reads a missing `data-api-url` attribute as the empty string, which `loadSwitches` then replaces by the default URL.
- JSON serialisation is modelled only as the set of keys written under `NON_NULL`.
- BusinessException.java is not part of this model. A business exception is modelled by the error code it carries.
- The weight column: no sheet column feeds it, so every converted entity has no weight.
- Sheet cells are modelled as non-null strings, because the Sheets API returns each cell of a value range as text. The `value != null ? value.toString().trim() : null` branch of `getStringValue` therefore always takes its first arm. A value is null only when its column is missing or the row ends before it.
