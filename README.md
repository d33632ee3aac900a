# Precious-metal price tracker: the merge engine and the dashboard helpers

The tracker scrapes gold, silver and copper prices and keeps two stores per
commodity. `scraper.py` writes them:

- a **daily OHLC store** (`upsert_daily_csv_json`): a JSON list of daily
  records, plus a flat CSV projection of it. Each observation is merged into
  the first record matching it on the key fields, or appended as a fresh
  record with open = high = low = close;
- an **intraday wide table** (`append_hourly_wide_csv`): one row per date
  with columns `date`, `unit`, `p_01`, `p_02`, .... Each observation adds
  one sample column to the row of its date.

The page script `script.js` reads the daily stores. It migrates legacy
records (`normalizeOHLC`), keeps the last record per date and purity
(`dedupeByDateAndPurity`), shows the newest seven (`last7`), colours each
close against the previous day's (`priceClass`), and counts down to the
next scheduled run.

The project models these parts on values, with all I/O removed.

- A Python dict or JavaScript object is a `Records.Record`: the key order
  plus a map from keys to values.
  - Assigning a present key keeps its position; assigning a new key
    appends it.
  - This order matters: it gives the flat-table header and the order of
    `Object.values`.
- A value is a JSON string or a JSON number. Numbers are `real`.
- A Python exception escaping the merge (comparing a string with a number)
  is `Err(TypeError)`.

The modules:

- `DailyStore` (daily.dfy): the daily merge.
  - `Upserted` specifies it.
  - The methods `MergeIntoStore` and `UpsertDaily` are the source's merge
    loop and its caller, proved equal to `Upserted`.
  - The methods `CollectKeys` and `FieldNames` are the source's header
    loops, proved equal to `FirstSeen(AllKeys(...))`, the first-seen union
    of the records' keys.
- `HourlyTable` (hourly.dfy): the wide-table append.
  - `Appended` and `TableHeader` specify it.
  - The methods `FindDateRow`, `AddColumn`, `AddSample`, `WideHeader` and
    `AppendHourly` follow the source's steps.
- `Dashboard` (dashboard.dfy): the script.js helpers.
  - `NormalizeOHLC` makes the source's assignments in order.
  - `LatestByKey` and `ValuesInOrder` are the `forEach` and `Object.values`
    of the dedupe.
  - `RowClasses` is the renderers' row loop.
- `PriceText` (price_text.dfy): the character filter of `clean_price`.
- `Records`, `Sequences` and `Wrappers` are the shared vocabulary.
  - `Records` also names the price fields of a daily record (`close`,
    `open`, `high`, `low` and the two legacy per-unit prices), which
    `scraper.py` writes and `script.js` reads under the same names.
  - `Sequences.FirstSeen` is the "append if not yet collected" loop, used
    for the header union and the dedupe key order.
  - `Sequences.LastWins` is a keyed overwrite read back in first-seen key
    order.

The intended numbering of the intraday table is contiguous per row: a row's
samples go to `p_01`, `p_02`, ... in turn, and no sample overwrites another.
The code does not keep to that; "## Findings" records the case, and the
model's `AppendedIntended` is the corrected numbering. The methods follow
the code:

- The code numbers the next sample one past the count of `p_` keys the row
  has. A row read back by `csv.DictReader` has every header column, blank ones
  included. So the next sample of a date already in the table goes to
  `p_{max+1}`, where max is the largest index of any row, not to one past
  that date's own samples. `HourlyTable.ReadBackNextColumn` states this, and
  `HourlyTable.ReadBackLeavesGap` states the gap it leaves in a row.
- `HourlyTable.ExistingDateGainsSample` states that the key is new only when
  the row does not already have it. A row whose sample keys have a gap gets
  an existing column overwritten.

## Model

| member | source | states |
|---|---|---|
| DailyStore.LoadStore | scraper.py:57-63 | the decoded list, or the empty list when the file is missing or `json.load` raises `JSONDecodeError`; `UnreadableStoreStartsEmpty` states what the merge makes of the latter |
| DailyStore.Normalize | scraper.py:65-68 | the magnitude heuristic on a number: scaled by 1000 exactly in a kg store below 10000; `NormalizeCanonical` and `NormalizeIdempotent` state its properties |
| DailyStore.NormalizeCanonical | scraper.py:65-68 | in a store whose unit is not kg, or for a value of at least 10000, `normalize` returns the value unchanged |
| DailyStore.NormalizeIdempotent | scraper.py:65-68 | normalizing twice equals normalizing once exactly when the unit is not kg, the value is at least 10, or the value is 0 |
| DailyStore.NormalizeValue | scraper.py:65-68 | on a stored value: outside a kg store it is returned as it is, whatever it is; in a kg store it raises exactly on a string, and a number is scaled by 1000 when below 10000 |
| DailyStore.UnreadableStoreStartsEmpty | scraper.py:57-63 | a missing store, or one `json.load` rejects with `JSONDecodeError`, is read as the empty list, and the merge succeeds with the fresh record alone |
| DailyStore.FirstTarget | scraper.py:72-80 | the index of the first record that matches on every key field and has a price to migrate; no earlier record is one; none when no record is |
| DailyStore.Matches | scraper.py:73 | `all(row.get(k) == new_row[k] for k in key_fields)`, an absent key reading as None; `MissingKeyNeverMatches` and `FirstTarget` state its use |
| DailyStore.MissingKeyNeverMatches | scraper.py:73 | a record lacking one of the key fields never matches, because `row.get(k)` is None while the observation has the key |
| DailyStore.CanonicalClose | scraper.py:74-82 | the close is taken from close, else the per-kg price, else the per-gram price normalized; then it is normalized; in a kg store it raises exactly when that source is a string |
| DailyStore.Backfilled | scraper.py:82-85 | the close is stored; each of open, high and low that was absent gets the close and is appended to the key order; every other field is unchanged |
| DailyStore.Renormalized | scraper.py:87-89 | open, high and low are each normalized in place; it raises exactly when one of them cannot be compared; the key order and every other field are unchanged |
| DailyStore.Migrated | scraper.py:74-89 | the migrated record's key order is the old keys followed by whichever of close, open, high and low were absent; no field other than those four changes |
| DailyStore.MigratedNotKg | scraper.py:74-89 | outside a kg store the migration never raises; the close is the legacy price as it is, and absent open, high and low are copied from it |
| DailyStore.MigratedKg | scraper.py:74-89 | in a kg store the migration raises exactly when a compared price is a string; otherwise every price is normalized, a per-gram close twice, and an absent open, high or low is the close normalized once more |
| DailyStore.MaxWith | scraper.py:91 | Python's `max(high, incoming)`: raises on a string high; otherwise the result is one of the two and at least both |
| DailyStore.MinWith | scraper.py:92 | Python's `min(low, incoming)`: raises on a string low; otherwise the result is one of the two and at most both |
| DailyStore.Extended | scraper.py:91-93 | high rises to the incoming close and low falls to it, each only as far as needed; the incoming close, unnormalized, becomes the close, so low <= close <= high; nothing else changes |
| DailyStore.ExtendedExact | scraper.py:91-93 | with numeric high and low the extension never raises; high and low become exactly the max and min with the incoming close, which becomes the close; open is unchanged |
| DailyStore.MergeRecord | scraper.py:74-93 | the migration followed by the extension; `MergeNumericRecord`, `MergeCanonical` and `LegacyGramMigration` state what it does |
| DailyStore.Fresh | scraper.py:98-102 | a new record gets open = high = low = close = the incoming close, satisfies low <= close <= high, and keeps every other field of the observation |
| DailyStore.MergeNumericRecord | scraper.py:72-96 | merging into a record whose prices are numbers never raises; the result has the incoming close between its low and high, keeps every other field, and adds only the absent canonical fields |
| DailyStore.MigratedCanonical | scraper.py:74-89 | a record that already has numeric close, open, high and low (at least 10000 in a kg store) comes out of the migration unchanged |
| DailyStore.MergeCanonical | scraper.py:82-93 | merging into such a record leaves open and the key order alone, sets the close to the incoming close, and moves high and low to the max and min of their old values and the incoming close |
| DailyStore.LegacyGramMigration | scraper.py:74-89 | a kg-store record holding only a per-gram price g gets an open of g*1000 when 10 <= g < 10000, and g*1000000 when 0.01 <= g < 10; a per-gram 5000 becomes an open of 5000000 |
| DailyStore.Upserted | scraper.py:72-102 | the merge as a function: the first target is replaced by its merged record, or the fresh record is appended; the lemmas below state its properties and `MergeIntoStore` is proved equal to it |
| DailyStore.UpsertAppends | scraper.py:98-102 | when no record is a target, the result is the store with the fresh record appended: length + 1, every prior record unchanged |
| DailyStore.UpsertUpdatesFirstTarget | scraper.py:72-96 | when the first target is updated: the length is unchanged; every other record is untouched; the updated record has the incoming close with low <= close <= high, the migrated key order, and every non-price field unchanged |
| DailyStore.NumericStoreNeverRaises | scraper.py:72-102 | a store whose prices are all numbers never makes the merge raise |
| DailyStore.UpsertPreservesConsistency | scraper.py:72-102 | if low <= close <= high held for every record, it holds for every record after the merge |
| DailyStore.SecondObservationKeepsOpen | scraper.py:72-102 | in a store that is not kg, or when the first price is at least 10000: of two same-day observations a then b, the first creates the record with open = high = low = close = a; the second keeps open = a, makes b the close, and puts high and low at max(a, b) and min(a, b) |
| DailyStore.MigratedSmallKgFresh | scraper.py:82-89 | in a kg store, migrating a fresh record whose price a is below 10000 sets close, open, high and low all to a*1000 |
| DailyStore.MergeSmallKgFresh | scraper.py:82-93 | merging b into such a record gives open a*1000, close b, high max(a*1000, b) and low min(a*1000, b) |
| DailyStore.SecondObservationSmallKg | scraper.py:72-102 | in a kg store, of two same-day observations a then b with a below 10000, the second leaves open a*1000, close b, high max(a*1000, b), low min(a*1000, b) |
| DailyStore.CopperOpenRescaled | scraper.py:72-102 | a kg day opening at 800 and then at 805 is stored with open 800000, high 800000, low 805 |
| DailyStore.RenormalizedNotKg | scraper.py:87-89 | outside a kg store the renormalization leaves the record exactly as it is |
| DailyStore.MigratedIntended | scraper.py:74-89 | the corrected migration: a record with a close keeps its prices and only gains the absent open, high and low; a legacy record is migrated as the code does |
| DailyStore.MergeRecordIntended | scraper.py:74-93 | the corrected migration followed by the extension |
| DailyStore.UpsertedIntended | scraper.py:72-102 | the merge with the corrected migration |
| DailyStore.MergeIntendedFresh | scraper.py:82-93 | under the corrected migration, in every store, merging b into a fresh record of price a keeps open a, and gives close b, high max(a, b), low min(a, b) |
| DailyStore.SecondObservationKeepsOpenIntended | scraper.py:72-102 | under the corrected migration, in every store, the second of two same-day observations keeps open = a, makes b the close, and puts high and low at max(a, b) and min(a, b) |
| DailyStore.IntendedAgreesOutsideKg | scraper.py:72-102 | outside a kg store the corrected merge and the code's merge give the same result on every input |
| DailyStore.MergeIntoStore | scraper.py:70-102 | the merge loop, with its `continue` past matching records without a price and its `break` after the first update, computes `Upserted`, including the raised exception |
| DailyStore.HeaderIsKeyUnion | scraper.py:107-111 | the flat-table header lists every key of every record, each exactly once, and nothing else |
| DailyStore.CollectKeys | scraper.py:109-111 | the inner header loop extends the first-seen keys by one record's keys in their order |
| DailyStore.FieldNames | scraper.py:107-111 | the header loop computes the first-seen union of all record keys in record and key order |
| DailyStore.UpsertDaily | scraper.py:57-111 | load then merge: an exception escapes exactly when the merge raises; otherwise the records are `Upserted` and the header is their first-seen key union |
| Sequences.FirstSeen | scraper.py:107-111 | the header loop's result: the elements of the key stream without repeats, each at the place it first occurs; every key of the stream is in it and nothing else; `FirstSeenOrder` and `FirstSeenSnoc` state the order |
| Sequences.LastWins | script.js:155-162 | the `map[key] = r` overwrite read back by `Object.values`: one item per distinct key, in the order keys first occur, each the item at that key's last occurrence |
| Sequences.FirstSeenOrder | scraper.py:107-111 | keys collected earlier first occur earlier in the key stream |
| Sequences.FirstSeenSnoc | scraper.py:109-111 | appending a key extends the collected list exactly when the key was not yet in it |
| Records.Set | scraper.py:39 | `d[k] = v`: k maps to v, every other key keeps its value, k is appended to the key order only when absent, distinct keys stay distinct |
| Records.SetDefault | scraper.py:83-85 | `d.setdefault(k, v)` assigns only when k is absent and otherwise changes nothing |
| HourlyTable.ColumnName | scraper.py:38 | `f"p_{n:02d}"`, the name of sample column n; `ColumnNameRoundTrip` and `ColumnNameInjective` state its properties |
| HourlyTable.SampleIndex | scraper.py:43 | `int(c[2:])` on a sample key; `ColumnNameRoundTrip` states that it reads back the index of `ColumnName(n)` |
| HourlyTable.DateRow | scraper.py:34 | the row `{"date": date_str, "unit": unit}` made for a new date; `DateRowShape` states its keys and values |
| HourlyTable.DateRowShape | scraper.py:34 | the new date's row has keys date then unit, holding the date and the unit, no sample key, and no `p_01` |
| HourlyTable.HeaderUpTo | scraper.py:41-46 | the header `date, unit, p_01 .. p_m`; `HeaderUpToHas`, `HeaderUpToOnly`, `HeaderUpToDistinct` and `CountHeaderUpTo` state its contents |
| HourlyTable.HeaderUpToHas | scraper.py:41-46 | the header holds date, unit and every column `p_01 .. p_m` |
| HourlyTable.HeaderUpToOnly | scraper.py:41-46 | every column of the header is date, unit or some `p_k` with 1 <= k <= m |
| HourlyTable.CountHeaderUpTo | scraper.py:41-46 | the header has exactly m sample columns |
| HourlyTable.ColumnNameRoundTrip | scraper.py:38-46 | the column `f"p_{n:02d}"` is a sample key whose `int(c[2:])` is n |
| HourlyTable.ColumnNameInjective | scraper.py:45-46 | distinct indices give distinct column names |
| HourlyTable.CountSampleKeys | scraper.py:37 | `len(price_cols)`: the number of keys starting with "p_", at most the number of keys |
| HourlyTable.FindDate | scraper.py:32 | the first row whose date equals the date, none before it with that date, or none at all |
| HourlyTable.FindDateRow | scraper.py:32 | the search loop returns the index of that first row, or the row count when there is none |
| HourlyTable.MaxSampleIndex | scraper.py:42-44 | the largest `int(c[2:])` over all sample keys of all rows, or 0; every sample index is at most it, and a positive value is attained by some key |
| HourlyTable.WideHeader | scraper.py:41-46 | the header loop yields date, unit, then p_01 up to the largest index |
| HourlyTable.WithSample | scraper.py:37-39 | the row with the price stored under `p_{k+1}`, k being its number of `p_` keys; `WithSampleGet` and `ExistingDateGainsSample` state its effect |
| HourlyTable.AddColumn | scraper.py:37-39 | the column `p_{k+1}`, k being the row's number of `p_` keys, holds the price; every other key keeps its value; the column joins the key order only when absent; the row is `WithSample` |
| HourlyTable.Appended | scraper.py:32-39 | the table as a function: the first row for the date, or a new `{date, unit}` row appended, gains the sample; one row longer at most |
| HourlyTable.AddSample | scraper.py:32-39 | the row update computes `Appended`: the first row for the date, or a new row `{date, unit}` appended for it, gains the sample |
| HourlyTable.AppendHourly | scraper.py:32-46 | the new table is `Appended` and stays readable, and the new header is `date, unit, p_01..p_max` for it |
| HourlyTable.AppendedReadable | scraper.py:32-39 | after the append every row still has a date and every sample key an index |
| HourlyTable.NewDateAppendsRow | scraper.py:32-39 | for a new date, `{date, unit, p_01: price}` is appended at the end and every prior row is unchanged |
| HourlyTable.ExistingDateGainsSample | scraper.py:32-39 | the first row for the date gains the price under `p_{k+1}`, k being its count of sample keys; no other key of it and no other row changes; the key is appended only when the row lacked it |
| HourlyTable.NoGapMeansNewColumn | scraper.py:37-39 | when a row's sample indices are at most its count of sample keys, the column it gains is a new key |
| HourlyTable.TableHeader | scraper.py:41-46 | the header of a table: date, unit, then `p_01` up to its largest sample index; `HeaderCoversSamples` and `HeaderUpToDistinct` state its properties |
| HourlyTable.HeaderUpToDistinct | scraper.py:41-46 | the header lists each column once |
| HourlyTable.HeaderCoversSamples | scraper.py:41-46 | the header has date and unit, each once, and the column of every sample key of every row; every other entry is `p_k` with k at most the largest index |
| HourlyTable.AppendedStaysWritable | scraper.py:32-51 | if every key of every row is a header column, so that `csv.DictWriter` with extrasaction "raise" accepts the table, this still holds after the append |
| HourlyTable.ReadBack | scraper.py:29-30 | the rows `csv.DictReader` returns for a table written with a header: one per written row, each the header's columns with blanks for absent keys |
| HourlyTable.ReadBackIsReadBack | scraper.py:30 | a row read back from the written table has exactly the header's columns, in header order; a column the written row lacked reads as an empty string |
| HourlyTable.ReadBackNextColumn | scraper.py:30-39 | after read-back the first row for a date has max sample keys, and its next sample goes to `p_{max+1}`, where max is the largest index of all rows |
| HourlyTable.ReadBackLeavesGap | scraper.py:30-39 | as written: when the first row for a date holds exactly p_01 .. p_k and some row of the table has a larger index n, the next run stores the sample under `p_{n+1}` and leaves `p_{k+1}` blank |
| HourlyTable.GapRowAfterReadBack | scraper.py:30-39 | the row-level step: a row read back under the header `date, unit, p_01..p_n` gets its sample in `p_{n+1}`, and `p_{k+1}` stays blank |
| HourlyTable.BlankAfterReadBack | scraper.py:30 | a column absent or blank in the written row is absent or blank in the row read back |
| HourlyTable.WithSampleKeepsOther | scraper.py:37-39 | adding a sample to a row with n sample keys changes no column other than `p_{n+1}` |
| HourlyTable.NotFilledPast | scraper.py:37-38 | a row holding exactly p_01 .. p_k has `p_{k+1}` absent or blank |
| HourlyTable.ColumnNameDiffers | scraper.py:38 | different sample indices give different column names |
| HourlyTable.MaxFilledIn | scraper.py:37-38 | corrected numbering: the largest index among the row's non-blank sample keys, or 0; it bounds every such index and is one of them when positive |
| HourlyTable.MaxFilledOfContiguous | scraper.py:37-38 | corrected numbering: a row holding exactly p_01 .. p_k has k as its largest non-blank index |
| HourlyTable.MaxFilledAtLeast | scraper.py:37-38 | corrected numbering: when p_01 .. p_k are non-blank, the largest non-blank index is at least k |
| HourlyTable.MaxFilledAtMost | scraper.py:37-38 | corrected numbering: when no non-blank sample index exceeds k, neither does the largest |
| HourlyTable.IntendedIsNext | scraper.py:37-39 | corrected numbering: on a row holding exactly p_01 .. p_k the next sample is stored under `p_{k+1}` |
| HourlyTable.SetNextFillsUpTo | scraper.py:37-39 | after `p_{k+1}` is set on a row holding p_01 .. p_k, all of p_01 .. p_{k+1} are non-blank |
| HourlyTable.SetNextIndicesBounded | scraper.py:37-39 | after `p_{k+1}` is set on a row holding exactly p_01 .. p_k, every non-blank sample index is in 1 .. k+1 |
| HourlyTable.IntendedSampleContiguous | scraper.py:37-39 | corrected numbering: a row holding exactly p_01 .. p_k gains the price in `p_{k+1}`, which was absent or blank; every other column is kept, and the row then holds exactly p_01 .. p_{k+1} |
| HourlyTable.AppendedIntendedContiguous | scraper.py:32-39 | corrected numbering on the table: the first row for the date goes from exactly p_01 .. p_k to exactly p_01 .. p_{k+1} with every earlier sample kept, and no other row changes |
| HourlyTable.WithSampleIntended | scraper.py:37-39 | corrected numbering: the row with the price stored one past its largest non-blank sample index; `IntendedIsNext` and `IntendedSampleContiguous` state its effect |
| HourlyTable.AppendedIntended | scraper.py:37-39 | corrected numbering on the table: the first row for the date, or a new `{date, unit}` row appended, gains the sample under `WithSampleIntended`; `AppendedIntendedContiguous` and `AppendedIntendedNewDate` state its effect |
| HourlyTable.DateRowContiguous | scraper.py:34 | the new date's row holds no sample yet, so it holds exactly p_01 .. p_0 |
| HourlyTable.AppendedIntendedNewDate | scraper.py:32-39 | corrected numbering for a new date: one row is appended holding the date, the unit and exactly `p_01` with the price, and no earlier row changes |
| HourlyTable.ReadRowContiguous | scraper.py:30 | writing a row holding exactly p_01 .. p_k and reading it back under a header naming all its keys keeps it so: the blanks read back are not samples |
| PriceText.PriceChars | scraper.py:21 | `re.sub(r"[^\d.]", "", text)`: the result has only digits and full stops and is no longer than the text |
| PriceText.PriceCharsMembers | scraper.py:21 | the result holds a character exactly when the text holds it and it is a digit or a full stop |
| PriceText.PriceCharsChar | scraper.py:21 | one character is kept when it is a digit or a full stop and deleted otherwise; with `PriceCharsConcat` this fixes the filter on every text |
| PriceText.PriceCharsConcat | scraper.py:21 | filtering a concatenation filters each part |
| PriceText.PriceCharsKeeps | scraper.py:21 | text passes unchanged exactly when it has only digits and full stops |
| PriceText.PriceCharsIdempotent | scraper.py:21 | filtering twice is filtering once |
| PriceText.RupeeExample | scraper.py:21 | "₹ 1,23,456.70" becomes "123456.70" |
| Dashboard.Last7 | script.js:7-9 | the result has min(7, n) entries, the i-th being the i-th newest |
| Dashboard.PriceClass | script.js:11-16 | "up" exactly when both are defined and curr > prev; "down" exactly when both are defined and curr < prev; "same" exactly when prev or curr is undefined or they are equal |
| Dashboard.PriceClassSwap | script.js:11-16 | swapping the two arguments swaps "up" and "down" and keeps "same" |
| Dashboard.RowClasses | script.js:179-181 | the renderers' loop (also script.js:210-212): row i's class is `priceClass(rows[i].close, rows[i+1]?.close)` |
| Dashboard.RowClassFacts | script.js:179-181 | the last row is always "same"; any row is "up" exactly when it and the next row both have a close and its close is greater |
| Dashboard.FilledClose | script.js:139-145 | the close a row ends with: its own, else the per-gram price, else the per-kg price, else absent |
| Dashboard.FillIfAbsent | script.js:147-149 | `if (row.f === undefined) row.f = v`: f gets v only when absent, every other field is unchanged, and f is appended to the key order only when it was added |
| Dashboard.NormalizedOHLC | script.js:138-152 | `normalizeOHLC` as a function of the row; the three lemmas below state its properties and `NormalizeOHLC` is proved equal to it |
| Dashboard.NormalizedOHLCFields | script.js:138-152 | a missing close is filled from the per-gram price first, else the per-kg price, unscaled; missing open, high and low get the close; fields already present and all other fields are unchanged |
| Dashboard.NormalizedOHLCComplete | script.js:138-152 | a row with a close or either legacy price ends with all four of close, open, high and low |
| Dashboard.NormalizedOHLCIdempotent | script.js:138-152 | applying `normalizeOHLC` twice equals applying it once |
| Dashboard.NormalizeOHLC | script.js:138-152 | the source's assignments, made in order, produce `NormalizedOHLC(row)` |
| Dashboard.DedupeKey | script.js:158 | the date, then "_", then the purity; a missing date prints as "undefined", a missing or empty purity as nothing |
| Dashboard.LatestByKey | script.js:155-160 | the `forEach` yields the keys in the order they first occur; each key holds the last row with that key |
| Dashboard.ValuesInOrder | script.js:162 | `Object.values` lists the value of each key in key order |
| Dashboard.DedupeByDateAndPurity | script.js:154-163 | the whole function computes `Deduped(rows)` |
| Dashboard.Deduped | script.js:154-163 | the dedupe as a function: the last row of each key, in first-occurrence key order; `DedupedLastWins`, `DedupedKeys` and `DedupedOrder` state its properties |
| Dashboard.DedupedLastWins | script.js:154-163 | the output is no longer than the input; every output row is an input row such that no later input row has the same `date_purity` key |
| Dashboard.DedupedKeys | script.js:154-163 | the output has one row per key, each input key occurring, in first-occurrence order |
| Dashboard.DedupedOrder | script.js:154-163 | an output row placed earlier has a key whose first occurrence in the input is earlier |
| Dashboard.CountdownOf | script.js:108-120 | "delayed" exactly when diffMs <= 0; otherwise hours*3600 + minutes*60 + seconds equals the whole seconds left, with minutes and seconds below 60 |
| Dashboard.SplitSeconds | script.js:117-120 | for any number of seconds, h*3600 + m*60 + s equals it, with m below 60 |
| Dashboard.CountdownUnique | script.js:117-120 | that split is the only one with minutes and seconds below 60 |

## Left out

- HTTP fetching and HTML extraction (`scrape_gold`, `scrape_silver`, `scrape_copper`), and the smoke test in test.py: they are network I/O.
- Reading and writing files (`os.makedirs`, `json.load`, `json.dump`, `csv.DictReader`, `csv.DictWriter`): a store is the decoded list of records.
  - `StoreFile.Undecodable` stands only for a file `json.load` rejects with `JSONDecodeError`, the one exception the source catches.
  - Other read errors escape the source uncaught and are not modelled: a file that is not valid UTF-8 (`UnicodeDecodeError`) or cannot be opened (`OSError`).
  - `HourlyTable.ReadBack` models what `csv.DictReader` returns for a table this program wrote.
  - The CSV text format and the serialised value, a string after read-back, are not modelled.
- JSON `null`, booleans, nested values, and a top-level value that is not a list are not modelled.
- The per-commodity `try`/`except` runner and the `TODAY` global: the date is a parameter.
- Floating point: prices are `real`, so the x1000 scaling and the comparisons are exact. `float()` in `clean_price` is left out, and only its character filter is modelled.
- PriceText.IsPriceChar: treats only ASCII digits as `\d`; Python also matches other Unicode decimal digits.
- DailyStore.UpsertDaily: requires the observation to carry every key field and a numeric close, as every caller builds it. Without a key field the source raises `KeyError` when some stored record matches on every earlier key field, because `all` stops at the first mismatch and otherwise reaches the missing key; otherwise no stored record matches and the observation is appended without it. Neither case is modelled.
- HourlyTable.AppendHourly: requires every row to have a date, and every `p_` key to have a digit suffix.
  - This holds for every table this program writes.
  - A hand-edited file would make the source raise `KeyError` or `ValueError`, which is not modelled.
- Dashboard.RowClasses: requires closes to be numbers or undefined. JavaScript's coercing comparison of strings and numbers is not modelled.
- Dashboard.DedupeByDateAndPurity: requires date and purity to be strings when present. JavaScript's number-to-string conversion in the key and its `||` on other falsy values (0, NaN, false) are not modelled.
  - A missing date prints as "undefined".
  - A missing or empty purity prints as nothing.
- Dashboard.NormalizedOHLC: a JavaScript property assigned `undefined` (when a row has no close and no legacy price) is modelled as absent.
  - The source adds such keys with value undefined.
  - No read in the model tells the two apart.
- Aliasing and in-place identity are not modelled. In the source, `normalizeOHLC` mutates and returns the same row object, and the merge mutates the dict it found. The model computes new values.
- `Object.values` lists integer-like keys first. Every dedupe key contains "_" and so is never such a key, so insertion order is modelled.
- In script.js, these are I/O, timers or rendering and are left out: `loadJSON`, the DOM, the localStorage cache and its TTL, `setInterval`/`clearInterval`, HTML building, and `init`. The time difference `diffMs` is a parameter of `CountdownOf`.

## Findings

| source | as written | input that shows it | evidently intended | confidence | as-written member | corrected member |
|---|---|---|---|---|---|---|
| scraper.py:82-89 | every merge normalizes the stored close, open, high and low again, not only those of a legacy record; in a kg store a stored price below 10000, as a copper price per kg is, is multiplied by 1000, while the incoming close is not | a kg store (copper) with two same-day observations, 800 then 805: the record ends with open 800000, high 800000, low 805, close 805 | the first price of the day stays the open and high and low are the max and min of the closes: open 800, high 805, low 800, close 805 | not executed; medium | DailyStore.CopperOpenRescaled | DailyStore.SecondObservationKeepsOpenIntended |
| scraper.py:30-38 | the next sample index is one past the count of `p_` keys of the date's row; a row read back by `csv.DictReader` has every header column, blank ones included, so the count is the largest index of the whole table | a table where day 1 holds p_01 .. p_05 and day 2 holds only p_01; on day 2's next run its sample goes to `p_06` and p_02 .. p_05 stay blank | each row's samples go to p_01, p_02, ... in turn with no gap and no overwrite: the sample goes to `p_02` | not executed; medium | HourlyTable.ReadBackLeavesGap | HourlyTable.AppendedIntendedContiguous |

- `SecondObservationSmallKg` states the as-written outcome for every first price below 10000 in a kg store.
- `MigratedIntended`, `MergeRecordIntended` and `UpsertedIntended` are the corrected merge: only a record without a close has its prices normalized.
- `IntendedAgreesOutsideKg` shows that the corrected merge equals the code's outside a kg store.
- The methods `MergeIntoStore` and `UpsertDaily` model the code as written and are proved equal to `Upserted`, not to `UpsertedIntended`.
- `WithSampleIntended` and `AppendedIntended` are the corrected intraday numbering: the next index is one past the row's largest non-blank sample index. A row holding exactly p_01 .. p_k keeps that shape across a write and a read-back, which `ReadRowContiguous` shows, and becomes exactly p_01 .. p_{k+1} in the append, which `AppendedIntendedContiguous` shows; no lemma joins the two steps over a whole table.
- The methods `AddSample` and `AppendHourly` model the numbering as written and are proved equal to `Appended`, not to `AppendedIntended`.
