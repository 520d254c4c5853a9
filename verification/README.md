# ExcelValidator core, modelled in Dafny

ExcelValidator loads one worksheet of a land and real-estate sales register
and runs a catalogue of validation rules over it. The rules are grouped into
categories:

- the general rules (Общие);
- the land and rent lots (ЗУ);
- single real-estate complexes (ЕНК);
- capital buildings (ОКС).

Each rule walks the data rows. It records a *problem* (a column, a row and an
optional explanation) whenever an assertion about a cell fails. The operator
picks categories by number. Afterwards the problems are exported back into
the sheet: one count column, one description column, and a comment per
offending cell.

This project models that core as pure Dafny functions, with a few methods
where the program loops. It proves what each piece promises.

| file | module | what it models |
|---|---|---|
| `basics.dfy` | `Basics` | `Option`, `Try` (a value or a thrown exception), 32-bit bounds, `Distinct` |
| `text.dfy` | `Text` | the .NET string operations the program relies on: `Trim`, `Contains`, `Split`, integer text, `int.Parse` |
| `meta_table.dfy` | `MetaTable` | `MetaTable`: header scan, row count, `GetColumn`, `At`, `AtFloat` |
| `results.dfy` | `Results` | `Problem`, `Result`, `Mark`; the log a rule body produces, including the first exception that ends it |
| `asserts.dfy` | `Asserts` | the `Assert` DSL: the `Is*` probes, `That`, and the recording assertions with their messages |
| `rule_kit.dfy` | `RuleKit` | the row loop `EachRow`, the shared columns of `TestContext`, float reads, and the laws of logs over rows |
| `general_checks.dfy` | `GeneralChecks` | rule bodies Check1–Check14, FactOKS, AreaOKS, Subsegment |
| `lot_checks.dfy` | `LotChecks` | rule bodies ZuRnt, ZuRnt2–4, Enk, Oks |
| `grouping.dfy` | `Grouping` | an insertion-ordered `Dictionary<K, List<int>>`, with an independent reference definition |
| `test_context.dfy` | `Contexts` | `TestContext`: construction, the `Status` state machine, `Run`, the rule catalogue |
| `rules.dfy` | `Selection` | `Rules.Check`: grouping by category, parsing the operator's line, running the chosen groups |
| `export.dfy` | `Export` | `Program.ExportProblems`: the overwrite guard, bucketing problems by sheet row, the per-row texts |

## How the model is built

- **Cells.** A cell is an `Option<string>`, where `None` is a null value.
- **Exceptions.** Every operation that can throw returns a `Try`, or a `Log`
  whose `threw` flag is set. A rule body is a function from an `Assert`
  cursor to a `Log`: the notes it recorded, in order, and whether an
  exception ended it.
- **Rule contracts.** Each rule states one outcome over all visited rows.
  This is the per-row behaviour of the rule body lifted through the row loop:
  - the rule throws exactly when some visited row throws;
  - when it does not throw, it records nothing exactly when every row passes;
  - it records only in visited rows, and only in the columns the source
    names.
- **Environment.** Float parsing (`float.Parse` with `NumberStyles.Any` and
  the invariant culture) and culture-sensitive `ToLower` are function-valued
  fields of `Env`. `Environment.NewLine` is a parameter of the export.

## Model

| member | source | states |
|---|---|---|
| Text.Trim | MetaTable.cs:27 | the trimmed text occurs inside the original, starts and ends with non-white-space, and is empty exactly when the original is all white-space |
| Text.TrimCutsWhiteSpace | MetaTable.cs:27 | trimming removes only a white-space prefix and a white-space suffix |
| Text.TrimUnique | MetaTable.cs:27 | any cut of white-space ends that leaves non-white-space at both ends, or nothing, is the trimmed text, so `Trim` is determined |
| Text.Contains | Assert.cs:80 | `Contains` holds exactly when the substring occurs at some position |
| Text.RemoveSpaces | MetaTable.cs:62-70 | the spaces are gone and every other character keeps its multiplicity; text without spaces is unchanged |
| Text.RemoveSpacesAppend | MetaTable.cs:65 | removing spaces from joined text is removing them from each part and joining, which with the single-character cases determines the result |
| Text.NatText | Program.cs:131 | a row count is written as non-empty decimal digits with no leading zero |
| Text.ParseNat | Program.cs:131 | digit text parses, and nothing else does |
| Text.NatTextRoundTrip | Program.cs:131 | parsing the written count gives back the count |
| Text.NatTextInjective | Problem.cs:13 | different numbers are written differently |
| Text.ParseInt32 | Rules.cs:48 | `int.Parse` gives only 32-bit values |
| Text.ParseNatPadded | Rules.cs:48 | decimal digits with leading zeros parse to the number they write |
| Text.ParseNatShape | Rules.cs:48 | text that parses is leading zeros followed by the decimal text of its value |
| Text.ParseInt32OfText | Rules.cs:48 | an optional sign, leading zeros and the digits of n parse to n (or -n) exactly when that lies in the 32-bit range |
| Text.ParseInt32Shape | Rules.cs:48 | text that parses is an optional sign, leading zeros and the decimal text of its value |
| Text.ParseInt32OfNatText | Rules.cs:48 | a menu number written in decimal parses back to itself |
| Text.Split | Rules.cs:38 | `Split(',')` gives at least one piece, and no piece holds the separator |
| Text.JoinSplit | Rules.cs:38 | joining the pieces with the separator restores the input |
| Text.SplitJoin | Rules.cs:38 | splitting joined separator-free pieces gives the pieces back |
| MetaTable.ColumnLetters | MetaTable.cs:29 | a column address is one or more capital letters; it is a single letter exactly for the first 26 columns |
| MetaTable.ColumnIndex | MetaTable.cs:29 | reads a column address back as a 0-based index, in bijective base 26; a single letter gives one of the first 26 columns |
| MetaTable.ColumnIndexOfLetters | MetaTable.cs:29 | reading back the address of column x gives x |
| MetaTable.ColumnLettersOfIndex | MetaTable.cs:29 | every capital-letter address is the address of the column it reads as, so addresses and columns correspond one to one |
| MetaTable.AlphabetName | MetaTable.cs:29 | `alphabetName` is the first capital letter of the column's address |
| MetaTable.AlphabetNameOfSingleLetter | MetaTable.cs:29 | among the first 26 columns, `alphabetName` is the column's own letter |
| MetaTable.AlphabetNameOfLonger | MetaTable.cs:29 | beyond the first 26 columns the letter is that of the column named by the address without its last letter, which with the single-letter case determines it |
| MetaTable.HeaderColumnsAt | MetaTable.cs:16-33 | the i-th scanned column is built from header cell i |
| MetaTable.ScanHeader | MetaTable.cs:16-33 | throws exactly when the first 1000 header cells are all non-null; otherwise returns the leading run of non-null header cells as trimmed, indexed columns |
| MetaTable.LastFilledRow | MetaTable.cs:35-52 | the downward scan stops at the last row at or below its start whose first-column text is non-empty (or at 0); every row it passed is empty |
| MetaTable.RowCount | MetaTable.cs:35-52 | the row count is one less than the index of the last non-empty first-column row within the used range |
| MetaTable.BuildTable | MetaTable.cs:16-52 | the constructor throws exactly when the header scan does or the sheet reports no used range (a null `Dimension`); otherwise it keeps the sheet, the scanned columns and the row count |
| MetaTable.FirstNamed | MetaTable.cs:55-60 | finds the leftmost column with the name, or reports that there is none |
| MetaTable.GetColumn | MetaTable.cs:55-60 | throws exactly when no column has the name; otherwise returns the leftmost column with that name |
| MetaTable.GetColumns | MetaTable.cs:55-60 | a series of lookups throws exactly when one name is missing; otherwise each result is that name's lookup |
| MetaTable.RowsCovered | MetaTable.cs:72-79 | data row y reads sheet row y + 1, and the visited sheet rows lie strictly below the last non-empty one |
| MetaTable.AtFloat | MetaTable.cs:62-70 | succeeds exactly when the cell is non-null and its text without spaces parses; the value is that parse |
| MetaTable.RowCountSkipsLastDataRow | MetaTable.cs:45-50 | a sheet with a header and one filled data row has zero data rows |
| Results.ThenLaws | TestContext.cs:71-80 | sequencing has `Pass` as its unit on both sides, an exception ends the body whatever follows, and grouping does not matter |
| Results.ChainAppend | TestContext.cs:71-80 | the body of two statement runs behaves as the first run followed by the second |
| Results.FlattenAppend | TestContext.cs:71-80 | notes of consecutive statements concatenate |
| Results.ChainNoThrow | TestContext.cs:71-80 | a body with no exception records the notes of all its statements in order |
| Results.ChainFirstThrow | TestContext.cs:71-80 | a body stops at its first throwing statement, keeping only the notes recorded up to it |
| Results.ProblemText | Problem.cs:8-14 | the text is the quoted column name, then the 1-based sheet row number (y + 2), then the explanation when there is one |
| Results.ProblemTextReadsBack | Problem.cs:13 | the column name, the row digits and the explanation can be read back from the text |
| Results.ProblemTextInjective | Problem.cs:13 | two problems of the same column with the same text are on the same row and carry the same explanation |
| Results.NewResult | Result.cs:15-19 | a new result is good, has no exception, and belongs to its owner |
| Results.Mark | Result.cs:21-30 | a mark appends exactly one problem, with the result's owner, keeps all earlier problems, and makes the result not good |
| Results.MarkAll | Result.cs:21-30 | marking a series of notes appends one problem per note, in order; the result stays good only when there were none |
| Results.MarkAllAppend | Result.cs:21-30 | marking two series one after the other is the same as marking their concatenation |
| Asserts.EmptinessSpec | Assert.cs:57-58 | a cell is empty exactly when it is null or only white-space; "not empty" is the complement |
| Asserts.ZeroOrEmptySpec | Assert.cs:57-75 | every empty cell is zero-or-empty; every non-zero-or-empty cell is non-empty; "0" is zero-or-empty |
| Asserts.ZeroOrEmptyCases | Assert.cs:60-74 | text that parses to 0, white-space text and null are all zero-or-empty |
| Asserts.IsContains | Assert.cs:80 | throws on a null cell; otherwise holds when the lower-cased value occurs in the lower-cased cell |
| Asserts.StartsWithTest | TestContext.cs:131 | the prefix test throws on a null cell and otherwise holds exactly when the prefix occurs at position 0 of the text |
| Asserts.HasTextTest | TestContext.cs:115 | the substring test throws on null and otherwise holds exactly when the substring occurs |
| Asserts.DirectSaleTest | TestContext.cs:256-260 | throws on null; otherwise holds when the lower-cased note mentions a sale without auction or a direct sale |
| Asserts.That | Assert.cs:90-104 | throws exactly when the predicate throws; records nothing exactly when it holds; otherwise records exactly one note, at the given column and row, with the callback's explanation |
| Asserts.ThatHere | Assert.cs:90 | at the cursor row, records at most one note, exactly when the predicate is false, and throws exactly when the predicate does |
| Asserts.EqualAt | Assert.cs:16-19 | records nothing when the cell equals the value; otherwise records one note at the given row with the expected/actual message |
| Asserts.Equal | Assert.cs:15 | the same at the cursor row |
| Asserts.NotEqualAt | Assert.cs:22-25 | records nothing when the cell differs from the value; otherwise one note with the message |
| Asserts.NotEqual | Assert.cs:21 | the same at the cursor row |
| Asserts.EmptyAt | Assert.cs:28-31 | records nothing when the cell is empty; otherwise one note with the actual value |
| Asserts.Empty | Assert.cs:27 | the same at the cursor row |
| Asserts.NotEmpty | Assert.cs:32-35 | records nothing when the cell is not empty; otherwise one note |
| Asserts.ZeroOrEmpty | Assert.cs:38-41 | records nothing when the cell is zero-or-empty; otherwise one note |
| Asserts.NotZeroOrEmptyWith | Assert.cs:42-45 | records nothing when the cell is not zero-or-empty; otherwise one note whose explanation comes from the callback, or the default message |
| Asserts.NotZeroOrEmpty | Assert.cs:42-45 | the same with the default message |
| Asserts.ContainsAssert | Assert.cs:47-50 | throws on a null cell; otherwise records one note exactly when the lower-cased text does not occur |
| Asserts.NotContains | Assert.cs:51-54 | throws on a null cell; otherwise records one note exactly when the lower-cased text occurs |
| Asserts.ExplicitRowDecidesAtCursor | Assert.cs:16-31 | the explicit-row assertions decide by the cursor row's cell, whatever row they report |
| Asserts.AssertionsFollowProbes | Assert.cs:15-78 | each assertion passes exactly when its probe holds, and of each opposite pair exactly one records a note |
| Asserts.ContainsPair | Assert.cs:47-54 | on a non-null cell, exactly one of `Contains` and `NotContains` records a note |
| RuleKit.ResolveSharedSpec | TestContext.cs:40-60 | the constructor's column lookups throw exactly when a shared column is missing, and each shared field is its named column |
| RuleKit.EachRow | TestContext.cs:83-90 | a table with no data rows gives a rule nothing to do |
| RuleKit.RowLogs | TestContext.cs:83-90 | the loop visits rows 0 to `rows - 1`, each with the cursor set to it |
| RuleKit.EachRowIsChain | TestContext.cs:83-90 | running the body over the rows is sequencing the per-row bodies |
| RuleKit.EachRowQuiet | TestContext.cs:83-90 | when every row passes, the loop records nothing and does not throw |
| RuleKit.EachRowSpec | TestContext.cs:83-90 | the loop throws exactly when some row throws; every note comes from some row; without a throw every row's notes are kept, and none are recorded exactly when no row records |
| RuleKit.EachRowWithin | TestContext.cs:83-90 | notes recorded per row in given columns stay in visited rows and those columns |
| RuleKit.EachRowThrows | TestContext.cs:83-90 | the loop throws exactly when some row meets the row-level throw condition |
| RuleKit.EachRowPasses | TestContext.cs:83-90 | when no row throws, the loop records nothing exactly when every row passes |
| RuleKit.EachRowPassesUnlessThrown | TestContext.cs:83-90 | when the loop finishes, it records nothing exactly when every row passes |
| RuleKit.EachRowNoThrow | TestContext.cs:83-90 | without throws, the loop records the concatenated row notes |
| RuleKit.FloatAt | MetaTable.cs:62-70 | the cursor-row float read succeeds exactly when the cell is non-null and parses without spaces |
| RuleKit.MayBeZero | TestContext.cs:516 | throws exactly when either price fails to parse; otherwise holds when either price is at most `LOW_PRICE` (10) |
| RuleKit.ThenConfined | TestContext.cs:71-80 | two statements that record a bounded number of notes in given columns together record at most the sum |
| RuleKit.ThenThrew | TestContext.cs:71-80 | a sequence throws exactly when one of its parts throws |
| RuleKit.ChainBounded | TestContext.cs:71-80 | a series of one-note statements records at most one note each |
| RuleKit.ChainQuiet | TestContext.cs:71-80 | a series without throws records nothing exactly when every statement records nothing |
| RuleKit.ChainThrowsAt | TestContext.cs:71-80 | when only one statement can throw, the series throws exactly when it does |
| RuleKit.ChainConfined | TestContext.cs:71-80 | a series throws exactly when some statement throws, and records in the same columns |
| GeneralChecks.YearInCodes | TestContext.cs:113-116 | throws exactly when a code cell is null; otherwise one note for each code that does not contain the year |
| GeneralChecks.Check1Row | TestContext.cs:92-118 | a null year throws; a blank year records the "not filled" note; otherwise every code is checked for the year |
| GeneralChecks.Check1 | TestContext.cs:92-118 | throws when a code column is missing or a row throws; without a throw it records nothing exactly when every row has a filled year contained in all four codes |
| GeneralChecks.Check2Auction | TestContext.cs:131-137 | the auction branch records nothing exactly when the second source is "ГБУ КО", the third is a listed website, and documents and screenshots are non-zero; at most four notes, in those columns |
| GeneralChecks.Check2Market | TestContext.cs:138-143 | the market branch records nothing exactly when the second source is "Росреестр", the third is empty and the deal kind is "Сделка"; at most three notes, in those columns |
| GeneralChecks.Check2Row | TestContext.cs:120-146 | throws exactly when "other property" is filled and the first source is null; otherwise records nothing exactly when "other property" is empty, or an auction source meets the auction branch and a market source the market branch |
| GeneralChecks.Check2 | TestContext.cs:120-146 | throws exactly when the column is missing or a row throws; without a throw it records nothing exactly when every row passes `Check2Row`'s condition; notes stay in visited rows and the branch columns |
| GeneralChecks.AuctionRow | TestContext.cs:148-180 | throws exactly when the gate is filled and the first source is null; otherwise records nothing exactly when the gate is empty, or the partner column is non-zero, the first source starts with "Торги " and the auction branch of Check2 holds |
| GeneralChecks.Check3 | TestContext.cs:148-163 | over the lot's starting price: throws exactly when a row throws; without a throw it records nothing exactly when every row passes `AuctionRow`'s condition; notes stay in visited rows and the checked columns |
| GeneralChecks.Check4 | TestContext.cs:165-180 | the same with the excess coefficient as the gate and the starting price as the partner |
| GeneralChecks.Check5 | TestContext.cs:182-191 | throws when the column is missing |
| GeneralChecks.NotEmptyRows | TestContext.cs:182-191 | the land-use rule records exactly the blank rows, in row order |
| GeneralChecks.Check5Spec | TestContext.cs:182-191 | with the column present, the rule never throws and records one note per blank row |
| GeneralChecks.Check6Row | TestContext.cs:193-206 | records one note on the kind exactly when the land share is zero-or-empty and the kind is not "OKS" |
| GeneralChecks.Check6 | TestContext.cs:193-206 | throws only when a column is missing; otherwise it records nothing exactly when every row has a share or is "OKS" |
| GeneralChecks.Check7Row | TestContext.cs:208-219 | records one note on each of zone and code that is null, blank or "нет" |
| GeneralChecks.Check7 | TestContext.cs:208-219 | throws only when a column is missing; otherwise it records nothing exactly when every row has both zone and code filled |
| GeneralChecks.WebsiteSale | TestContext.cs:254-262 | throws exactly on a website source with a null note; otherwise records nothing exactly when the source is not a website or the lower-cased note mentions a sale without auction or a direct sale |
| GeneralChecks.DatabaseOrigin | TestContext.cs:231-234 | records nothing exactly when the second source is "ГБУ КО", the third is the dispute commission, and link and portal are "---"; at most four notes, in those columns |
| GeneralChecks.DatabaseEvidence | TestContext.cs:235-237 | records nothing exactly when documents and screenshots are non-zero and the deal kind is "Сделка" |
| GeneralChecks.DatabaseSource | TestContext.cs:229-239 | throws exactly when the right is null; otherwise records nothing exactly when origin and evidence are in order and the lower-cased right does not mention a lease |
| GeneralChecks.AuctionSource | TestContext.cs:240-248 | records nothing exactly when the auction branch of Check2 holds and the starting price and excess coefficient are not empty |
| GeneralChecks.MarketService | TestContext.cs:249-264 | throws exactly on a website third source with a null note; otherwise records nothing exactly when documents and a third source are present, a website sale is a direct sale, and screenshots are non-zero |
| GeneralChecks.MarketRegistry | TestContext.cs:265-271 | throws exactly on a null link; otherwise records nothing exactly when there is no third source, the link mentions Rosreestr, the portal is "rosreestr.gov.ru" and the deal kind is "Сделка" |
| GeneralChecks.Check10Row | TestContext.cs:221-273 | throws exactly in the four null-cell cases of the source branches; otherwise records nothing exactly when the row meets the conditions of the branch its first and second sources select; unlisted sources pass |
| GeneralChecks.Check10 | TestContext.cs:221-273 | throws exactly when a column is missing or a row throws; without a throw it records nothing exactly when every row meets its branch; notes stay in visited rows and the branch columns |
| GeneralChecks.RegistryOpening | TestContext.cs:284-285 | records nothing exactly when the first source is "Рынок" and there is no third source |
| GeneralChecks.RegistryClosing | TestContext.cs:287-289 | records nothing exactly when the portal is "rosreestr.gov.ru", the deal kind is "Сделка" and the screenshots are zero-or-empty |
| GeneralChecks.RegistrySecond | TestContext.cs:282-290 | throws exactly on a null link; otherwise records nothing exactly when the row is a market deal with a Rosreestr link and portal and no third source or screenshots |
| GeneralChecks.ServiceSecond | TestContext.cs:291-304 | throws exactly on a market website sale with a null note; otherwise records nothing exactly when documents and screenshots are present and a market website sale is a direct sale |
| GeneralChecks.Check11Row | TestContext.cs:275-306 | throws exactly when the registry link or the website note is null in its branch; otherwise records nothing exactly when a "Росреестр" row is a market deal on the Rosreestr portal without screenshots, and a "ГБУ КО" row has documents, screenshots and, for a market website sale, a direct-sale note; other second sources pass |
| GeneralChecks.Check11 | TestContext.cs:275-306 | throws exactly when the column is missing or a row throws; without a throw it records nothing exactly when every row meets its second source's branch; notes stay in visited rows and branch columns |
| GeneralChecks.ExcusedRow | TestContext.cs:308-338 | a government-service second source excuses the row; otherwise the column must not be zero-or-empty |
| GeneralChecks.Check12 | TestContext.cs:308-322 | never throws; records nothing exactly when every row is excused or has the document count |
| GeneralChecks.Check13 | TestContext.cs:324-338 | the same for the screenshot count |
| GeneralChecks.ExcusedRulesQuiet | TestContext.cs:308-338 | when every row's second source is a government service, both rules pass |
| GeneralChecks.Demolition | TestContext.cs:353-362 | throws exactly when the area is zero-or-empty and the extra filter is null; otherwise records nothing exactly when the purpose is not empty and the area is not zero-or-empty |
| GeneralChecks.Rebuild | TestContext.cs:363-375 | records nothing exactly when the purpose is empty and the area matches the kind: zero-or-empty for "ONS", not zero-or-empty otherwise |
| GeneralChecks.Check14Row | TestContext.cs:340-377 | "Снос" gives the demolition checks; "Реконструкция" or "Ремонт" give the rebuild checks; anything else passes |
| GeneralChecks.Check14 | TestContext.cs:340-377 | throws exactly when a column is missing or a demolition row throws; without a throw it records nothing exactly when every row passes its branch |
| GeneralChecks.FactOksRow | TestContext.cs:379-404 | a filled use needs a cadastral number; a cadastral number without a use needs a fictitious-number filter; it throws when that filter is null |
| GeneralChecks.FactOks | TestContext.cs:379-404 | throws exactly when a column is missing or a row throws; otherwise it records nothing exactly when every row is consistent |
| GeneralChecks.AreaOksRow | TestContext.cs:406-424 | a row with a real cadastral number needs an area; it throws when the filter is null |
| GeneralChecks.AreaOks | TestContext.cs:406-424 | throws exactly when a column is missing or a row throws; otherwise it records nothing exactly when every such row has an area |
| GeneralChecks.SubsegmentRow | TestContext.cs:426-440 | records one note exactly when the subsegment is "ОГОРОД" and the kind is not "ZU" |
| GeneralChecks.Subsegment | TestContext.cs:426-440 | throws only when a column is missing; otherwise it records nothing exactly when every garden plot is land |
| LotChecks.UnselectedRowsPass | TestContext.cs:458-465 | a rule whose body passes rows outside its filter passes tables with no selected row |
| LotChecks.Expect | TestContext.cs:442-474 | one cell must be, or must not be, zero-or-empty |
| LotChecks.Sweep | TestContext.cs:442-474 | a series of such checks records nothing exactly when every column matches |
| LotChecks.ExpectText | TestContext.cs:701-755 | one cell must be, or must not be, empty |
| LotChecks.SweepText | TestContext.cs:701-755 | a series of such checks records nothing exactly when every column matches |
| LotChecks.ZuRntRow | TestContext.cs:442-474 | a selected land or rent row records nothing exactly when all six land columns are not zero-or-empty; other rows pass |
| LotChecks.ZuRnt | TestContext.cs:442-474 | throws only when a column is missing; otherwise it records nothing exactly when every selected row has its land columns |
| LotChecks.PricedCheck | TestContext.cs:507-526 | a missing price gives the numbers note; a low price passes; otherwise the listed columns must be non-zero; throws exactly when a price does not parse, and otherwise records nothing exactly when both prices are given and, unless one is low, every listed column |
| LotChecks.ZuRnt2Row | TestContext.cs:476-549 | throws exactly when a selected priced row has an unparseable price; otherwise records nothing exactly when the row is unselected, or is priced within the lot with the mark "V" and its details, or is not and has no mark, no building prices and details exactly when a unit price; an empty land price or a filled mark is reported |
| LotChecks.WithinLot | TestContext.cs:503-527 | throws exactly when both prices are given and one does not parse; otherwise records nothing exactly when the mark is "V" and `PricedCheck` over the details passes; an empty land price is reported |
| LotChecks.OutsideLot | TestContext.cs:528-547 | never throws; records nothing exactly when the mark is empty, the land price and the price per metre are zero-or-empty, and cadastral number, area and use are non-zero exactly when the unit price is |
| LotChecks.ZuRnt2 | TestContext.cs:476-549 | throws exactly when a column is missing or a row throws; without a throw it records nothing exactly when every row passes `ZuRnt2Row`'s condition; notes stay in visited rows and the building columns |
| LotChecks.Unpriced | TestContext.cs:578-587 | records nothing exactly when all seven price and building columns are zero-or-empty |
| LotChecks.Described | TestContext.cs:612-619 | records nothing exactly when use, area and cadastral number are non-zero and the price per metre and the separate mark are zero-or-empty |
| LotChecks.ZuRnt3Row | TestContext.cs:551-626 | throws exactly on an unparseable price of a fully priced row; otherwise records nothing exactly when the row is unselected, or entirely zero-or-empty without a unit price, or priced with both sale prices and its details, or described without sale prices; one sale price without the other never passes and gives the mismatch note |
| LotChecks.ZuRnt3 | TestContext.cs:551-626 | throws exactly when a column is missing or a row throws; without a throw it records nothing exactly when every row passes `ZuRnt3Row`'s condition; notes stay in visited rows and the building columns |
| LotChecks.SinglePriceless | TestContext.cs:655-673 | records nothing exactly when the prices and the separate mark are zero-or-empty and cadastral number, use and area are non-zero exactly when a unit price is given |
| LotChecks.ZuRnt4Row | TestContext.cs:628-699 | throws exactly on an unparseable price; otherwise records nothing exactly when the row is unselected, or meets `SinglePriceless` without a price per metre, or has both prices and, unless one is low, every other building column; a missing price gives the numbers note |
| LotChecks.ZuRnt4 | TestContext.cs:628-699 | throws exactly when a column is missing or a row throws; without a throw it records nothing exactly when every row passes `ZuRnt4Row`'s condition; notes stay in visited rows and the building columns |
| LotChecks.UnitPriceCheck | TestContext.cs:731-747 | without a building unit price the row must be fictitious with no area; with one it needs an area unless fictitious; each failure gives its own note |
| LotChecks.ComplexLand | TestContext.cs:728-747 | records nothing exactly when the land price and land unit price are not empty and the unit price checks pass |
| LotChecks.ComplexBuilding | TestContext.cs:749-753 | records nothing exactly when both building prices, the price per metre and the separate mark are empty and the cadastral number is not |
| LotChecks.ComplexDetails | TestContext.cs:728-753 | records nothing exactly when the land prices are not empty, the unit price checks pass, the building prices, price per metre and mark are empty and the cadastral number is not |
| LotChecks.EnkRow | TestContext.cs:701-755 | a selected complex row records nothing exactly when its details hold; other rows pass |
| LotChecks.Enk | TestContext.cs:701-755 | never throws once its columns are found; records nothing exactly when every selected complex row is consistent |
| LotChecks.SamePrices | TestContext.cs:793-798 | throws exactly when a price does not parse; otherwise holds when the lot and both building prices are equal |
| LotChecks.PriceDetails | TestContext.cs:802-806 | records nothing exactly when the lot price, both building prices and the building unit price are not zero-or-empty |
| LotChecks.ShareDetails | TestContext.cs:810-812 | records nothing exactly when the share is zero-or-empty, the share area is not zero-or-empty and the separate mark is empty |
| LotChecks.AreaDetails | TestContext.cs:807-812 | records nothing exactly when both areas and the use are not zero-or-empty and the share details hold |
| LotChecks.SaleDetails | TestContext.cs:802-812 | records nothing exactly when prices, areas and share details all hold |
| LotChecks.PricedSale | TestContext.cs:797-812 | differing prices give the mismatch note first, before the detail checks; silent exactly when the prices agree and the details pass |
| LotChecks.OksRow | TestContext.cs:757-814 | throws exactly when a selected building has an unparseable price; otherwise records nothing exactly when the row is unselected, or has zero-or-empty land prices, three equal sale prices and a complete sale; differing prices are reported |
| LotChecks.Oks | TestContext.cs:757-814 | throws exactly when a column is missing or a row throws; without a throw it records nothing exactly when every row passes `OksRow`'s condition; notes stay in visited rows and the sale columns |
| LotChecks.ZuRntOutsideFilter | TestContext.cs:458-465 | with no land or rent row, the rule passes |
| LotChecks.ZuRnt2OutsideFilter | TestContext.cs:476-549 | with no land or rent row, the rule passes |
| LotChecks.ZuRnt3OutsideFilter | TestContext.cs:551-626 | with no land or rent row, the rule passes |
| LotChecks.ZuRnt4OutsideFilter | TestContext.cs:628-699 | with no land or rent row, the rule passes |
| LotChecks.EnkOutsideFilter | TestContext.cs:720-727 | with no complex row, the rule passes |
| LotChecks.OksOutsideFilter | TestContext.cs:779-786 | with no building row, the rule passes |
| Grouping.IndicesOfSpec | Rules.cs:10-19 | a key's list holds exactly the positions with that key, in increasing order |
| Grouping.FirstSeenSpec | Rules.cs:10-19 | the dictionary keys are distinct and are exactly the keys that occur |
| Grouping.InsertShape | Rules.cs:14-18 | adding an element appends it to its key's list, or opens a new list at the end |
| Grouping.GroupByMatchesReference | Rules.cs:10-19 | the incremental grouping equals the reference definition: keys in first-seen order, each with the positions that carry it |
| Grouping.EachPositionInOneGroup | Rules.cs:10-19 | every position lies in exactly one group, the one for its key |
| Grouping.GroupByTotal | Program.cs:122 | the group sizes sum to the number of elements |
| Grouping.GroupByCount | Program.cs:122 | there are as many groups as distinct keys |
| Grouping.FirstSeenOrder | Rules.cs:24 | keys are enumerated in the order of their first occurrence |
| Grouping.GroupByAppend | Program.cs:114-118 | grouping one more element is inserting it into the grouping |
| Contexts.NewContext | TestContext.cs:40-60 | construction throws exactly when a shared column is missing; a built context is ready to run with a good, empty result |
| Contexts.NewContextColumns | TestContext.cs:40-60 | construction fails exactly on a missing shared column name |
| Contexts.Run | TestContext.cs:62-81 | running a context not ready to run throws; otherwise the status becomes Ok, Failed or Exception |
| Contexts.RunOnce | TestContext.cs:62-81 | a context that ran is no longer ready to run, and running it again throws |
| Contexts.RunFresh | TestContext.cs:62-81 | a fresh run records the body's notes as problems owned by the rule, and ends Ok exactly when the body neither records nor throws |
| Contexts.After | TestContext.cs:62-81 | running keeps rule, table and shared columns, and leaves a context that ran unchanged |
| Contexts.CreateContexts | Rules.cs:116-135 | creation throws exactly when there is a rule and a shared column is missing; otherwise one fresh context per rule, in catalogue order |
| Selection.Categories | Rules.cs:10-19 | there are no more categories than tests |
| Selection.CategoriesSpec | Rules.cs:10-19 | categories appear in first-seen order, are distinct, partition the tests, and each holds its tests in order |
| Selection.RunList | Rules.cs:49-52 | running a list throws exactly when a listed test is not ready when reached; otherwise listed tests ran and the rest are unchanged |
| Selection.RunAll | Rules.cs:108-114 | running all throws exactly when some test was not ready; otherwise every test ran |
| Selection.AfterIdempotent | TestContext.cs:62-81 | running a context that already ran leaves it as it is |
| Selection.Tokens | Rules.cs:37-38 | the pieces are the trimmed comma-separated parts, and there is at least one |
| Selection.RunsAllWhenBlank | Rules.cs:40 | all tests run exactly when the whole line is blank |
| Selection.Choice | Rules.cs:48 | a piece selects category n - 1 exactly when it parses to n between 1 and the number of categories |
| Selection.ChoiceOfMenuNumber | Rules.cs:24-27 | the number printed before category j selects category j |
| Selection.ChoiceOfNumber | Rules.cs:48 | a piece that parses to v in range selects v - 1 |
| Selection.RunPicked | Rules.cs:46-53 | when the chosen groups run, every piece was valid and exactly the tests of the chosen groups ran |
| Selection.Select | Rules.cs:37-54 | every test either ran or is unchanged |
| Selection.Dispatch | Rules.cs:40-54 | given the trimmed pieces, every test either ran or is unchanged |
| Selection.BlankLineRunsAll | Rules.cs:40-43 | a blank line runs every test, throwing exactly when one was not ready |
| Selection.BadPieceThrows | Rules.cs:46-49 | a piece that is not a valid category number throws |
| Selection.RunListLeavesStale | Rules.cs:49-51 | a listed test is no longer ready after the list ran |
| Selection.StaleThrows | Rules.cs:49-51 | choosing a group with a test that is not ready throws |
| Selection.PickedTwiceThrows | Rules.cs:46-53 | choosing the same category twice throws, because its tests already ran |
| Selection.DistinctPicksRun | Rules.cs:46-53 | distinct valid choices over ready tests run without a throw |
| Selection.SelectNamedCategories | Rules.cs:44-54 | with ready tests and distinct valid numbers among the pieces, the pieces run exactly the tests of the named categories |
| Selection.PickedByCategory | Rules.cs:49 | a test is picked exactly when its category is one of the named ones |
| Selection.SameCategoryTwiceThrows | Rules.cs:46-53 | pieces that name a category twice throw |
| Selection.SelectFromFresh | Rules.cs:5-57 | from freshly created tests, every test that ran is finished; a blank line finishes them all |
| Selection.Check | Rules.cs:5-57 | returns one context per rule; throws when construction does; a blank line finishes every test |
| Export.ReportedSpec | Program.cs:106-110 | the exported problems are exactly those of tests that left the ready state |
| Export.RowsAppend | Program.cs:112 | each problem is keyed by sheet row y + 1 |
| Export.BucketsPartition | Program.cs:104-120 | row keys are distinct, each problem lies in exactly the bucket of its row, and every problem has a bucket |
| Export.BucketsCount | Program.cs:122 | the buckets hold all problems, and there is one bucket per distinct row |
| Export.DescriptionLine | Program.cs:135-140 | each description line starts with `[`, the test name and `:` |
| Export.CommentLine | Program.cs:149-152 | each comment line starts with the test name in brackets |
| Export.ColumnsOfComments | Program.cs:142-177 | a column's comment text for the row is non-empty exactly when the row has a problem in that column, so only those columns get a comment |
| Export.CommentForEmpty | Program.cs:163-167 | a column's comment is empty exactly when the row has no problem in that column |
| Export.DescriptionAppend | Program.cs:133-140 | the description of two problem runs is the concatenation of their descriptions |
| Export.RowOf | Program.cs:128-178 | each row reports its key, its count as decimal text, and one comment per column with a problem |
| Export.ReportOf | Program.cs:87-180 | throws exactly when the export columns already exist; otherwise appends the two columns and reports one row per bucket, in first-seen order |
| Export.AddProblems | Program.cs:110-119 | adding a test's problems extends the list and keeps the grouping equal to the grouping of all rows |
| Export.BucketOne | Program.cs:114-118 | adding one problem inserts its row key into the grouping |
| Export.BucketProblems | Program.cs:104-120 | the bucketing loop produces exactly the reported problems grouped by row |
| Export.WriteRow | Program.cs:128-179 | writing one bucket produces its row report and leaves every comment builder cleared |
| Export.CollectRow | Program.cs:133-153 | the description is the concatenated lines; each column's builder holds exactly its comment lines |
| Export.FindExportColumn | Program.cs:91 | finds an export column exactly when one exists |
| Export.WriteRows | Program.cs:128-179 | one report per bucket, in order |
| Export.ExportProblems | Program.cs:87-180 | the export throws exactly on the overwrite guard and otherwise produces the report |

## Left out

- Typed cell values (numbers and dates held as non-strings) and the
  `InvalidCast` they cause in `MetaTable.At` are not modelled: every cell is
  text or null.
- Float parsing and culture-sensitive `ToLower` are parameters (`Env`), not
  reimplemented, because their behaviour depends on the .NET runtime and the
  culture.
- Finding rule methods by reflection over `TestAttribute` is replaced by the
  explicit `Catalog` in declaration order. TestAttribute.cs is not part of
  this model beyond its two strings.
- Console output, colours and the 20-problem cap in `RunSingle` are left out
  as presentation only.
- Writing cells and comments to the sheet, styling, removing conditional
  formatting, loading and saving the file, and the retry loop in `UnsafeMain`
  (Program.cs 30-85) are left out as I/O. The export is modelled as the text
  it writes: the count, the description, and the comment per column.
- A null line from `Console.ReadLine` is not modelled; the input is a string.
  `Environment.NewLine` is a parameter.
- The `Running` status is transient: `Run` passes through it and no observer
  can see it, so the model goes straight to the final status.
- The header scan throws when the column index reaches 1000, so a built table
  has at most 999 columns; the model follows this.
- The row count is modelled as the source computes it: the last non-empty
  first-column row is never visited (`MetaTable.RowCountSkipsLastDataRow`).
  The rules use that count as is.
- `uni.Equals("Единый лот")` in Check14 compares a column to a string and is
  always false, so that condition is modelled as false.
- Category numbers are parsed before any group runs. This is equivalent to the
  source's interleaving because any throw ends the whole check and discards
  its partial state.
- `Selection.Select` and `Selection.Check` require at most `Int32Max` tests,
  which holds for a .NET `List`.
- Text.ParseInt32: accepts an optional `+` or `-` followed by decimal
  digits within the 32-bit range; the culture-specific sign symbols and
  white-space handling of `int.Parse` are not modelled, since the pieces
  are already trimmed.
- Asserts.StartsWithTest: compares the prefix ordinally, character by
  character. `string.StartsWith(string)` in .NET compares by the current
  culture, which can ignore zero-width characters or match composed and
  decomposed forms. The prefix "Торги " is plain Cyrillic text and a space,
  so the two agree on ordinary cells. The same ordinal comparison is used by
  GeneralChecks.Check2Row at TestContext.cs:131 and by AuctionRow and
  Check10Row.
- RuleKit.MayBeZero: `Env.parse` yields a real number or nothing, so the
  NaN and infinity results that `float.Parse` gives for "NaN", "Infinity"
  and out-of-range text cannot be represented. In the source every
  comparison with NaN is false, so such a price is never low. The model
  treats that text as whatever `parse` returns, or as a throw when `parse`
  returns nothing.
- LotChecks.OksRow: for the same reason, three NaN prices, which the source
  reports as different because NaN is not equal to itself, cannot occur
  in the model. Single-precision rounding is left to `Env.parse`, which
  may return the rounded value.
- A NaN parse is not zero, so NaN text is not zero-or-empty in the source.
  The zero-or-empty probe agrees with this as long as `parse` returns a
  non-zero value or nothing for such text.
