# World-population pipeline of the retail dashboard, in Dafny

The dashboard's script downloads a world-population CSV export and a world
map topology. It turns them into the data of a map chart. This project models
the part of the script that does real data processing (app.js:12-75):

1. **Line splitter** `CSVtoArray`. It drops one leading `"`, drops one `",`
   at the very end of the line, and splits on the literal `","`
   (`Csv.CsvToArray`, built on a model of JavaScript's `split`, `Text.Split`).
2. **Header and row loop.** Line 2 of the text gives the year `categories`:
   its fields from column 4 on. Every line from 3 on is split the same way.
   Its cells from column 4 on are copied into an array, and each cell is
   classified in place (`Csv.ParseRow`, `Csv.ClassifyCells`, `Cells.Classify`):
   - all quotes are removed first;
   - a non-empty digits-and-dots text becomes `parseInt` of it, which is the
     value of its leading digits, or `NaN` when it starts with a dot;
   - an empty text, or one ending in a comma and one whitespace character,
     becomes null;
   - anything else stays a string.
   The record `{name, code3, data}` is stored in the `countries` dictionary
   under `row[1]` (`Csv.CountryTable`, `Csv.ParseCsv`).
3. **Latest-value scan.** For every key of `countries`, in insertion order,
   the series is walked backwards to its last entry whose `typeof` is
   `'number'`. One `{name, code3, value, year}` entry is emitted per key
   (`Latest.ScanLatest`, `Latest.CurrentValues`).
4. **Flag keys.** Every geometry record gets `id = properties['hc-key']` and
   `flag = id.replace('UK', 'GB').toLowerCase()` (`Flags.NormaliseFlags`).

`Dashboard.Load` runs the four steps in the script's order.

Behaviour of the code that the model keeps on purpose:

- Cells are `Num(n) | NaN | Null | Str(s)`. `parseInt(".")` is `NaN`, and
  `typeof NaN` is `'number'`, so the scan can pick a `NaN` as the current
  value.
- The current value is null exactly when no entry of the series is a number.
  Null entries are skipped, and so are entries that stayed strings. The
  year is `undefined` (`None`) then. It is also `undefined` when the chosen
  index lies past the end of the header's categories.
- A line with fewer than two fields, such as the empty text after a final
  newline, is stored under the key `"undefined"`, with `code3` undefined.
- A series is as long as its own row minus four, or empty. Nothing makes it
  as long as `categories`.
- A line that does not end in `",` keeps the closing quote of its last
  field: `"A","B"` splits into `A` and `B"`. Categories are not stripped of
  quotes, so a header written that way gives a last category such as
  `1961"`.
- Assigning an existing key keeps that key's place in the enumeration order
  and replaces its record.
- With fewer than three lines, `csvArr[2]` is `undefined` and `CSVtoArray`
  throws. `ParseCsv` then reports `ok == false` and stores nothing.
- A geometry record without an `hc-key` gets an undefined `id`, and the
  `replace` call on it throws. The loop stops there and reports failure.

Files: `wrappers.dfy` (Option), `text.dfy` (string built-ins), `cells.dfy`
(cell rule), `csv.dfy` (splitter, row loop, dictionary), `latest.dfy`
(latest-value scan), `flags.dfy` (flag keys), `dashboard.dfy` (sequence).

## Model

| member | source | states |
|---|---|---|
| `Text.FindFrom` | app.js:15 | the result is the first index at or after the start where the separator occurs; None means there is no occurrence from there on |
| `Text.JoinSplit` | app.js:15 | `split` loses nothing: joining its pieces with the separator gives back the input |
| `Text.SplitPiecesFree` | app.js:15 | no piece returned by `split` contains the separator |
| `Text.SplitJoin` | app.js:15 | `split` undoes `join` when no field holds the separator's first character |
| `Text.ReplaceFirstSpec` | app.js:74 | `replace` with a string pattern leaves a text without the pattern unchanged, and otherwise rewrites exactly the first occurrence and keeps the rest |
| `Text.FindFirst` | app.js:74 | `indexOf` reports the first occurrence of the pattern |
| `Text.LowerSpec` | app.js:74 | lower-casing keeps the length, leaves no upper-case letter, leaves every other character alone, maps each upper-case letter to the lower-case letter at the same alphabet position, and is idempotent |
| `Cells.RemoveQuotes` | app.js:31 | the stripped cell has no quote left, is no longer than the input, and equals the input when it had no quote |
| `Cells.RemoveQuotesKeeps` | app.js:31 | every character other than a quote is kept as often as it occurred, and every quote is dropped |
| `Cells.RemoveQuotesAppend` | app.js:31 | stripping a concatenation is concatenating the stripped parts, so the kept characters stay in their order |
| `Cells.LeadingDigits` | app.js:33 | the prefix `parseInt` reads is all digits and is followed by a non-digit or the end |
| `Cells.ClassifyOutcomes` | app.js:30-37 | each of the four outcomes (number, NaN, null, string) holds exactly under its condition on the quote-stripped text; a number is the value of the leading digits; a kept string is the quote-free text |
| `Cells.ClassifyDecimal` | app.js:32-33 | a decimal numeral, optionally followed by a dot and more digits and dots, classifies as exactly that integer |
| `Cells.ClassifyIgnoresQuote` | app.js:31 | inserting a quote anywhere in a cell does not change its classification |
| `Cells.ClassifyFractionExample` | app.js:32-33 | `"12.9"` classifies as 12 |
| `Cells.ClassifyDotIsNaN` | app.js:32-33 | `"."` passes the number pattern and classifies as NaN |
| `Cells.ClassifyNullExamples` | app.js:34-35 | the empty cell and `"12, "` classify as null, even with digits before the comma |
| `Cells.ClassifyStringExample` | app.js:30-37 | a cell that is neither numeric nor empty nor comma-space terminated stays a string |
| `Csv.CsvToArray` | app.js:13-15 | `CSVtoArray` always returns at least one field |
| `Csv.CsvToArrayShape` | app.js:13-15 | the line is the joined fields, preceded by a quote exactly when the line starts with one and followed by `",` exactly when the rest of the line ends in `",`; no field holds `","` |
| `Csv.CsvToArrayUnterminated` | app.js:13-15 | without the trailing `",`, the last field keeps its closing quote: `"A","B"` splits into `A` and `B"` |
| `Csv.CsvLineRoundTrip` | app.js:13-15 | a line written as quoted, comma-separated fields with a trailing comma splits back into exactly those fields when no field holds a quote |
| `Csv.DataCells` | app.js:28 | `slice(4)` has length field count minus four (or zero), and its cell `i` is the row's field `4 + i` |
| `Csv.CategoriesOfHeader` | app.js:22 | the categories are exactly the header's fields from column 4 on, in column order |
| `Csv.ClassifyAllAligned` | app.js:30-38 | the rewrite of a row keeps its length, and position `i` holds the classification of cell `i` |
| `Csv.ClassifyCells` | app.js:30-38 | the in-place loop over the copied cells leaves an array of the same length whose position `i` holds cell `i` classified |
| `Csv.ParseRow` | app.js:27-44 | the record's name is field 0; its data has the row's data length and its cell `i` is field `4 + i` classified; the key is field 1, or `"undefined"` when the line has one field |
| `Csv.InsertSpec` | app.js:40-44 | storing under a key keeps the keys distinct and matching the order, sets that key's record, leaves every other key's record alone, and never reorders existing keys |
| `Csv.TableOfWellFormed` | app.js:26-45 | after the row loop, the key order lists each stored key exactly once |
| `Csv.TableOfKeys` | app.js:26-45 | a key is in `countries` exactly when some line has it as its key |
| `Csv.TableOfLastWins` | app.js:40-44 | the record under a key is the one of the last line with that key |
| `Csv.TableOfOrderGrows` | app.js:26-45 | processing further lines never moves keys inserted earlier |
| `Csv.CountryTable.constructor` | app.js:18 | `countries` starts empty, with no keys |
| `Csv.CountryTable.Put` | app.js:40-44 | the dictionary afterwards is the old one with the key's record set, a new key appended to the order, and well-formedness kept |
| `Csv.ParseCsv` | app.js:17-45 | fails exactly when the text has fewer than three lines; otherwise the categories come from line 2 and the dictionary is the one built from lines 3 on |
| `Latest.LatestIndex` | app.js:55-61 | a found index is in range and holds a number |
| `Latest.LatestIndexSpec` | app.js:55-61 | the found index has no numeric entry after it, and there is none exactly when no entry is a number |
| `Latest.LatestReadingSpec` | app.js:51-61 | the value is null exactly when no entry is a number, and then the year is undefined; otherwise it is the entry at the last numeric position, with that position's category |
| `Latest.ScanLatest` | app.js:51-61 | the backward loop with `break` yields the reading at the last numeric position, and the value is null or a number |
| `Latest.CurrentValues` | app.js:47-69 | one entry per key of `countries`, in key order, with that country's name and key unchanged and its latest reading |
| `Latest.LatestExample` | app.js:51-61 | `[1000, null, 1500, null]` over 1960-1963 reads 1500 in 1962; `[null, null]` reads null with no year |
| `Flags.FlagKeyShape` | app.js:74 | the flag key has the id's length and no upper-case letter; an id without `"UK"` is only lower-cased |
| `Flags.FlagKeyAtFirstUk` | app.js:74 | at the first case-sensitive `"UK"` the flag key reads `"gb"`, and the rest is the id lower-cased |
| `Flags.FlagKeyOfUk` | app.js:74 | the key `"UK"` gives the flag `"gb"` |
| `Flags.FirstMissing` | app.js:73-74 | the index where the loop throws: every record before it has an `hc-key`, and the record at it has none |
| `Flags.NormaliseOne` | app.js:73-74 | with an `hc-key`, `id` becomes it and `flag` the derived key; without one, `id` becomes undefined, `flag` is not written and the step fails |
| `Flags.NormaliseFlags` | app.js:72-75 | succeeds exactly when every record has an `hc-key`; every record before the failure point has `id` equal to its `hc-key` and the derived flag; the failing record's `id` is undefined and its `flag` is unchanged; later records are untouched |
| `Dashboard.Load` | app.js:12-75 | the steps run in order: the parse result, then one current value per key, then the flag pass with its failure point, undefined `id` on the failing record and untouched later records; a CSV with fewer than three lines stops everything before the current values and the flag pass, leaving every geometry record untouched |

## Left out

- The two downloads (app.js:4-10) are I/O. Their texts are parameters of `Dashboard.Load`.
- `Highcharts.geojson` (app.js:71) is a library call. Its output is a sequence of `Flags.GeoRecord` objects, each with a constant `hc-key`.
- The wrapped `Point.select` handler (app.js:78-157) is left out. It writes to the DOM and creates and destroys charts through a patched library method.
- The chart option objects and the static sample arrays (app.js:160-887) are inert configuration.
- Cells.ParseInt: values are unbounded naturals. JavaScript's `parseInt` returns a double, so numerals above 2^53 would be rounded. This does not arise for population counts.
- Cells.ParseInt: it is modelled only on texts that pass `/^[0-9\.]+$/`, the only texts the script passes to it. Leading whitespace and signs cannot occur there.
- Text.Lower: it maps only the ASCII letters A-Z. JavaScript's `toLowerCase` also maps other Unicode letters, which map keys do not contain.
- JavaScript's object-key quirks are not modelled. Integer-like keys enumerate first, and a `__proto__` key sets the prototype. The `countries` keys are country codes, which avoid both.
- Csv.CountryRecord holds the data as a sequence, not as the array object that the script shares with `countries`. Nothing writes to that array after the row loop, so the sharing cannot be observed.
- Determinism of parsing needs no separate statement. `Csv.ParseCsv` is specified by functions of its input, so two parses of the same text give equal dictionaries.
