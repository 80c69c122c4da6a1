# World Bank timeline reader and used-car feature encoder, in Dafny

This project models two small pieces of a portfolio site and proves what they
promise.

**The Nigeria economic timeline** (`app.js`) charts World Bank indicators.
- `parseCSVLine` splits one CSV line at the commas outside double quotes. It drops the quotes and trims each field.
- `parseWorldBankCSV` reads a World Bank download:
  - lines 0-3 are metadata and line 4 is the header;
  - every header whose `parseInt` lies in 1960..2024 is a year column;
  - every later line that is non-blank after trimming and has at least five fields becomes a country record, holding a name, a code and one value per year.
- `getCountryData` turns the first record with a given code into a series of (year, value) points. It drops null values and sorts by year.
- The figure shown beside each chart is the last non-null point of its series: `filter(...).pop()`.

**The used-car price demo** (`price_prediction.py`) encodes a form into the
eight-slot row its trained model expects:
- the car's age;
- drop-first one-hot flags for fuel, seller and transmission.

It then sorts the model's answer into the page's four outcomes.

Modules:
- `Wrappers`: the `Option` type.
- `JsText`: the parts of JavaScript's string library the reader relies on:
  - `String.prototype.trim` with its full whitespace set;
  - `split('\n')`;
  - `parseInt` without a radix (leading whitespace, a sign, a `0x` prefix, the longest digit prefix, NaN as `None`).
- `CsvLine`:
  - a specification of the fields of a line, `Fields`, defined position by position from the quote parity;
  - the loop of `parseCSVLine` as a method proved equal to it;
  - the field count, trimming and quote-removal lemmas.
- `WorldBank`:
  - the reader as methods (the header `forEach`, the row loop, the per-year loop);
  - the table they build as a function, `WorldBankTable`;
  - lemmas on what the table holds.
- `CountrySeries`: `getCountryData` as a chain of functions (find, `Object.entries`, filter, a stable sort), and the latest-value rule.
- `PriceFeatures`: the encoder, a decoder that inverts it, and the outcome classification.

## Model

| member | source | states |
|---|---|---|
| JsText.Trim | projects/Nigeria-Economic-Timeline/app.js:99 | String.prototype.trim (also used at lines 135 and 141); TrimStartFacts, TrimEndFacts, TrimIsTrimmed, TrimContents, TrimKeeps and TrimIdempotent state its properties |
| JsText.TrimStartFacts | projects/Nigeria-Economic-Timeline/app.js:99 | trimStart drops only a whitespace prefix: the result is a suffix of the input, and it starts with a non-whitespace character or is empty |
| JsText.TrimEndFacts | projects/Nigeria-Economic-Timeline/app.js:99 | trimEnd drops only a whitespace suffix: the result is a prefix of the input, and it ends with a non-whitespace character or is empty |
| JsText.TrimIsTrimmed | projects/Nigeria-Economic-Timeline/app.js:135 | trim leaves no leading or trailing whitespace |
| JsText.TrimContents | projects/Nigeria-Economic-Timeline/app.js:135 | every character of trim(s) occurs in s |
| JsText.TrimKeeps | projects/Nigeria-Economic-Timeline/app.js:141 | trim keeps every non-whitespace character of its input |
| JsText.TrimIdempotent | projects/Nigeria-Economic-Timeline/app.js:99 | trimming twice is trimming once |
| JsText.Split | projects/Nigeria-Economic-Timeline/app.js:80 | split always yields at least one piece |
| JsText.JoinSplit | projects/Nigeria-Economic-Timeline/app.js:80 | joining the pieces of split with the separator gives back the text |
| JsText.SplitPieces | projects/Nigeria-Economic-Timeline/app.js:80 | split yields one piece more than there are separators, and no piece contains the separator |
| JsText.ParseInt | projects/Nigeria-Economic-Timeline/app.js:91 | parseInt without a radix (also used at line 152); DigitPrefixLengthSpec, ParseIntDigits and ParseIntDecimal state what it reads |
| JsText.DigitPrefixLengthSpec | projects/Nigeria-Economic-Timeline/app.js:91 | parseInt reads the longest prefix of digits valid in the radix: each is a digit, and the next character is not |
| JsText.DecimalDigitsValue | projects/Nigeria-Economic-Timeline/app.js:152 | the decimal digits of n have value n |
| JsText.ParseIntDigits | projects/Nigeria-Economic-Timeline/app.js:91 | parseInt of a non-empty string of decimal digits, leading zeros included, is the number they denote |
| JsText.ParseIntDecimal | projects/Nigeria-Economic-Timeline/app.js:152 | parseInt undoes writing a natural number in decimal (the string keys of the year map read back as their years) |
| CsvLine.InQuotesIsOddQuotes | projects/Nigeria-Economic-Timeline/app.js:132-133 | the inQuotes flag before position n is on exactly when an odd number of double quotes precede n |
| CsvLine.LastSeparatorBefore | projects/Nigeria-Economic-Timeline/app.js:134 | finds the last comma outside quotes below n, or reports that there is none |
| CsvLine.ParseCSVLine | projects/Nigeria-Economic-Timeline/app.js:124-144 | the character loop returns exactly Fields(line): the trimmed, quote-free pieces between the commas outside quotes |
| CsvLine.FieldCount | projects/Nigeria-Economic-Timeline/app.js:129-141 | there is exactly one field more than there are commas outside quotes |
| CsvLine.FieldsClean | projects/Nigeria-Economic-Timeline/app.js:132-141 | every field is trimmed and contains no double quote |
| CsvLine.QuotedCommaKept | projects/Nigeria-Economic-Timeline/app.js:134-138 | a comma inside quotes does not split: it stays in the field whose number is the count of separators before it |
| CsvLine.FieldsOfLine | projects/Nigeria-Economic-Timeline/app.js:124-144 | for a whole line: separators + 1 fields, each trimmed and without double quotes |
| WorldBank.HeaderYears | projects/Nigeria-Economic-Timeline/app.js:89-95 | one year reading per header column |
| WorldBank.LastColumnsSpec | projects/Nigeria-Economic-Timeline/app.js:89-95 | the year map has exactly the years some column names, and a repeated year maps to its last column |
| WorldBank.YearColumnsSpec | projects/Nigeria-Economic-Timeline/app.js:89-95 | year keys are exactly the headers whose parseInt lies in 1960..2024, each mapped to the last such column |
| WorldBank.YearColumnsRange | projects/Nigeria-Economic-Timeline/app.js:92 | every year key lies in 1960..2024 |
| WorldBank.YearHeader | projects/Nigeria-Economic-Timeline/app.js:91-93 | a header spelling a year from 1960 to 2024 is a year column for that year |
| WorldBank.YearIndices | projects/Nigeria-Economic-Timeline/app.js:88-95 | the forEach over the headers builds exactly YearColumns(headers) |
| WorldBank.BuildYearData | projects/Nigeria-Economic-Timeline/app.js:107-112 | the loop over Object.entries gives every year column its cell, null where the column is past the row's end or parseFloat gives NaN |
| WorldBank.ReadRow | projects/Nigeria-Economic-Timeline/app.js:99-118 | a line yields a record exactly when it is a data row, and the record is RecordOf(line) |
| WorldBank.ReadRows | projects/Nigeria-Economic-Timeline/app.js:97-119 | the row loop collects exactly the records of the data rows from line 5 on, in line order (RowsFrom) |
| WorldBank.ParseWorldBankCSV | projects/Nigeria-Economic-Timeline/app.js:79-122 | the reader returns exactly WorldBankTable(text) |
| WorldBank.SelectedSpec | projects/Nigeria-Economic-Timeline/app.js:98 | the selected row positions strictly increase, and every flagged position from line 5 on is among them |
| WorldBank.RowsFromSelected | projects/Nigeria-Economic-Timeline/app.js:98-118 | the k-th record is the record of the k-th data row |
| WorldBank.RecordShape | projects/Nigeria-Economic-Timeline/app.js:105-112 | a record's name and code are fields 0 and 1, trimmed and quote-free; its year keys are exactly the year columns; a value is null exactly when the column is missing or does not parse |
| WorldBank.EmptyTable | projects/Nigeria-Economic-Timeline/app.js:80-83 | fewer than 5 lines or an empty line 4 gives empty headers and empty data |
| WorldBank.TableRecords | projects/Nigeria-Economic-Timeline/app.js:86-121 | with a header line, the headers are line 4's fields and the records are exactly the data rows from line 5 on, in line order, each read against the year columns |
| WorldBank.WorldBankTable | projects/Nigeria-Economic-Timeline/app.js:79-122 | the table parseWorldBankCSV returns; ParseWorldBankCSV is proved to return it, and EmptyTable, TableRecords and RecordShape state what it holds |
| CountrySeries.FindCountry | projects/Nigeria-Economic-Timeline/app.js:147 | find returns the first record with the code, and none exactly when no record has it |
| CountrySeries.SortedKeys | projects/Nigeria-Economic-Timeline/app.js:150 | Object.entries lists the integer keys once each, in strictly ascending order |
| CountrySeries.EntriesSpec | projects/Nigeria-Economic-Timeline/app.js:150-154 | the entries are exactly the map's pairs, in strictly ascending year order |
| CountrySeries.NonNullMembers | projects/Nigeria-Economic-Timeline/app.js:155 | the filter keeps exactly the points whose value is not null |
| CountrySeries.NonNullAscending | projects/Nigeria-Economic-Timeline/app.js:155 | the filter keeps a strictly ascending series strictly ascending |
| CountrySeries.SortByYearSorted | projects/Nigeria-Economic-Timeline/app.js:156 | the sort by year is a permutation in non-decreasing year order |
| CountrySeries.SortByYearSortedInput | projects/Nigeria-Economic-Timeline/app.js:156 | the sort is stable: a series already in year order is returned unchanged |
| CountrySeries.GetCountryData | projects/Nigeria-Economic-Timeline/app.js:146-157 | find, Object.entries, filter and sort by year; GetCountryDataSpec states its result and LatestOfCountry its latest point |
| CountrySeries.GetCountryDataSpec | projects/Nigeria-Economic-Timeline/app.js:146-157 | an unknown code gives []; otherwise the series holds exactly the non-null years of the first matching record, strictly ascending |
| CountrySeries.Latest | projects/Nigeria-Economic-Timeline/app.js:411 | data.filter(d => d.value !== null).pop(), the same expression as at lines 480 and 559; LatestSpec, LatestIsGreatest and LatestOfCountry state its properties |
| CountrySeries.LatestSpec | projects/Nigeria-Economic-Timeline/app.js:411 | filter-then-pop gives a point of the series with a value after which every point is null, and nothing exactly when every point is null |
| CountrySeries.LatestIsGreatest | projects/Nigeria-Economic-Timeline/app.js:480 | on a series in ascending year order the latest point has the greatest year among the non-null points |
| CountrySeries.LatestOfCountry | projects/Nigeria-Economic-Timeline/app.js:559 | a country's latest figure is its greatest non-null year with that year's value, and there is none exactly when all its years are null |
| PriceFeatures.Encode | projects/price_prediction.py:58-67 | age and drop-first one-hot flags; FlagsAreBits, FlagsMeanLevels, AgeBounds, VectorLayout and DecodeEncode state its properties |
| PriceFeatures.FlagsAreBits | projects/price_prediction.py:64-67 | each flag is 0 or 1; CNG encodes as diesel 0 and petrol 0; diesel and petrol are never both 1 |
| PriceFeatures.FlagsMeanLevels | projects/price_prediction.py:64-67 | each flag is 1 exactly when its level (Diesel, Petrol, Individual, Manual) is chosen |
| PriceFeatures.AgeBounds | projects/price_prediction.py:47-58 | within the widget bounds the age lies in 0..currentYear-1990, kms is non-negative and the owner count is 0, 1 or 3 |
| PriceFeatures.ToVector | projects/price_prediction.py:73-83 | the model's row has eight slots |
| PriceFeatures.VectorLayout | projects/price_prediction.py:73-83 | the row is price, kms, owner, age, diesel, petrol, individual, manual, each slot stated in terms of the form's inputs |
| PriceFeatures.DefaultFormRow | projects/price_prediction.py:58-83 | the default form with Petrol, Dealer and Manual in 2024 gives age 5 and flags 0, 1, 0, 1 |
| PriceFeatures.DecodeEncode | projects/price_prediction.py:58-83 | decoding the encoded row gives back the form's input |
| PriceFeatures.EncodeInjective | projects/price_prediction.py:58-83 | two different forms never give the same row |
| PriceFeatures.Serve | projects/price_prediction.py:70-100 | no model means "not trained"; an exception from predict means a mismatch with its message; otherwise the displayed output's sign alone decides between no resale value (negative) and an estimate (non-negative) |
| PriceFeatures.PredictPrice | projects/price_prediction.py:69-100 | the button handler: encode the form, then Serve; Serve states the four outcomes and PredictPriceOutcome the answered case |
| PriceFeatures.PredictPriceOutcome | projects/price_prediction.py:86-94 | when the model answers for the encoded form, the outcome is decided by the sign of the displayed price alone |

## Left out

- The charts: DOM, D3 and SVG rendering, hover and resize handlers, and the `fetch`/`Promise` loading in `app.js`. All of these are UI or asynchronous I/O.
- `formatLargeNumber`, `toFixed` and the axis padding in `app.js`. These are floating-point formatting.
- The country list's `localeCompare` sort (`app.js` line 181). Its collation depends on the locale.
- JavaScript's `parseFloat` is a parameter, `parseFloat: string -> Option<V>`. `None` stands for NaN, which the reader stores as null. The number format it accepts is not modelled.
- JsText.ParseInt: computes an exact integer. JavaScript's result is a double, so digit strings beyond 2^53 would round. Year headers are far below that.
- `String.prototype.trim` and `split` work on UTF-16 code units; the model works on Unicode scalar values. The characters the reader looks at are all in the basic plane, so both views agree here. A non-BMP whitespace character does not exist.
- Record keys: the year map is keyed by `int`. JavaScript stores the keys as decimal strings and `getCountryData` reads them back with `parseInt`. `JsText.ParseIntDecimal` proves that this round trip returns the year.
- SortByYearSortedInput: stability is proved only for input already in year order, which is the input `getCountryData` sorts. A general stability statement is not proved.
- The dollar-to-lakh conversion, the lakh-to-dollar conversion and `round(..., 2)` in `price_prediction.py` (lines 41-42, 61, 87-89). They are floating-point steps:
  - the showroom price enters the model already in lakhs;
  - the displayed output is `toDisplay(prediction)`, for an arbitrary `toDisplay`.
- The widget minimum of 100 dollars for the showroom price is not modelled, since it depends on that conversion.
- Model loading with `pickle` and the model's `predict` (`price_prediction.py` lines 8-17, 86):
  - the model is an `Option` of a function from rows to answers;
  - "no model file" is `None`, and the object's truthiness is taken to be that of a present model.
- The clock (`datetime.now().year`) is the parameter `currentYear`.
- The rest of the site (page chrome, the pandas and Altair views, the network and contour pages, the training script). These are library calls and static content outside this model.
- `transmission_manual` is 1 for "Manual" (`price_prediction.py` line 67); `PriceFeatures.DefaultFormRow` states the default form's row.
