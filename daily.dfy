/**
  The daily OHLC store of scraper.py (`upsert_daily_csv_json`): one new
  observation is folded into the list of daily records decoded from the JSON
  store, and the header of the flat CSV projection is recomputed. File
  reading and writing are left out; the store is the decoded list.
*/
module DailyStore {
  import opened Wrappers
  import opened Records
  import opened Sequences

  /** The exception that escapes the merge: Python compared a string with a number. */
  datatype Error = TypeError

  /** What the JSON store file gives when the merge starts: no file, a file
      `json.load` rejects with `JSONDecodeError`, or the decoded list. */
  datatype StoreFile = Missing | Undecodable | Decoded(records: seq<Record>)

  /** The records and the flat-table header written after a merge. */
  datatype DailyTables = DailyTables(records: seq<Record>, header: seq<string>)

  const Threshold: real := 10000.0
  const Scale: real := 1000.0

  /** A missing store, or one `json.load` rejects with `JSONDecodeError`, is
      read as the empty list. */
  function LoadStore(f: StoreFile): seq<Record> {
    if f.Decoded? then f.records else []
  }

  // ---------------------------------------------------------------- normalize

  /** The kg/gram magnitude heuristic: in a kg store a value below the
      threshold is taken to be per gram and scaled to per kg. */
  function Normalize(unit: string, v: real): real {
    if unit == "kg" && v < Threshold then v * Scale else v
  }

  /** A value that is already canonical is never rescaled. */
  lemma NormalizeCanonical(unit: string, v: real)
    requires unit != "kg" || v >= Threshold
    ensures Normalize(unit, v) == v
  {
  }

  /** Normalizing twice equals normalizing once exactly when the unit is not kg,
      the value is at least 10, or the value is 0. */
  lemma NormalizeIdempotent(unit: string, v: real)
    ensures Normalize(unit, Normalize(unit, v)) == Normalize(unit, v)
        <==> (unit != "kg" || v >= 10.0 || v == 0.0)
  {
    if unit == "kg" && v < 10.0 && v != 0.0 {
      assert Normalize(unit, v) == v * Scale < Threshold;
      assert (v * Scale) * Scale != v * Scale;
    }
  }

  /** `normalize` applied to a stored JSON value: in a kg store the comparison
      with the threshold raises on a string; in any other store the value is
      returned untouched, whatever it is. */
  function NormalizeValue(unit: string, v: Value): (r: Result<Value, Error>)
    ensures unit != "kg" ==> r == Ok(v)
    ensures unit == "kg" ==> (r.Ok? <==> v.Num?)
    ensures r.Ok? && v.Num? ==> r.value == Num(Normalize(unit, v.n))
  {
    if unit != "kg" then Ok(v)
    else if v.Num? then Ok(Num(Normalize(unit, v.n)))
    else Err(TypeError)
  }

  /** Python's `max(a, b)`: `b` replaces `a` only when `b > a`; raises when `a` is a string. */
  function MaxWith(a: Value, b: real): (r: Result<Value, Error>)
    ensures r.Ok? <==> a.Num?
    ensures r.Ok? ==> r.value.Num? && r.value.n >= a.n && r.value.n >= b
    ensures r.Ok? ==> r.value.n == a.n || r.value.n == b
  {
    if !a.Num? then Err(TypeError) else if b > a.n then Ok(Num(b)) else Ok(a)
  }

  /** Python's `min(a, b)`: `b` replaces `a` only when `b < a`; raises when `a` is a string. */
  function MinWith(a: Value, b: real): (r: Result<Value, Error>)
    ensures r.Ok? <==> a.Num?
    ensures r.Ok? ==> r.value.Num? && r.value.n <= a.n && r.value.n <= b
    ensures r.Ok? ==> r.value.n == a.n || r.value.n == b
  {
    if !a.Num? then Err(TypeError) else if b < a.n then Ok(Num(b)) else Ok(a)
  }

  // ---------------------------------------------------------------- matching

  /** The observation carries every key field and a numeric close, as every caller builds it. */
  ghost predicate IsObservation(obs: Record, keyFields: seq<string>) {
    && (forall i :: 0 <= i < |keyFields| ==> Has(obs, keyFields[i]))
    && Has(obs, Close) && obs.fields[Close].Num?
  }

  function IncomingClose(obs: Record): real
    requires Has(obs, Close) && obs.fields[Close].Num?
  {
    obs.fields[Close].n
  }

  /** `row.get(k) == new_row[k]` for every key field. */
  predicate Matches(row: Record, keyFields: seq<string>, obs: Record) {
    forall i :: 0 <= i < |keyFields| ==> Get(row, keyFields[i]) == Get(obs, keyFields[i])
  }

  /** A record missing a key field never matches: `row.get(k)` is None. */
  lemma MissingKeyNeverMatches(row: Record, keyFields: seq<string>, obs: Record, i: nat)
    requires IsObservation(obs, keyFields)
    requires i < |keyFields| && !Has(row, keyFields[i])
    ensures !Matches(row, keyFields, obs)
  {
  }

  /** The record carries a price the merge can start from. */
  predicate Migratable(row: Record) {
    Has(row, Close) || Has(row, PerKg) || Has(row, PerGram)
  }

  /** The record the merge updates: it matches and it can be migrated. */
  predicate IsTarget(row: Record, keyFields: seq<string>, obs: Record) {
    Matches(row, keyFields, obs) && Migratable(row)
  }

  /** The first record the merge updates, if any. */
  function FirstTarget(data: seq<Record>, keyFields: seq<string>, obs: Record): (r: Option<nat>)
    ensures r.Some? ==> r.value < |data| && IsTarget(data[r.value], keyFields, obs)
    ensures r.Some? ==> forall j :: 0 <= j < r.value ==> !IsTarget(data[j], keyFields, obs)
    ensures r.None? ==> forall j :: 0 <= j < |data| ==> !IsTarget(data[j], keyFields, obs)
  {
    if data == [] then None
    else if IsTarget(data[0], keyFields, obs) then Some(0)
    else match FirstTarget(data[1..], keyFields, obs)
      case None => None
      case Some(i) => Some(i + 1)
  }

  // ---------------------------------------------------------------- one record

  /** The field a legacy record's close is taken from. */
  function CloseSource(row: Record): string
    requires Migratable(row)
  {
    if Has(row, Close) then Close else if Has(row, PerKg) then PerKg else PerGram
  }

  ghost predicate NumericAt(row: Record, f: string) {
    !Has(row, f) || row.fields[f].Num?
  }

  function AddedIfAbsent(row: Record, f: string): seq<string> {
    if Has(row, f) then [] else [f]
  }

  /** The key order after migration: the old keys, then whichever of close,
      open, high and low were absent, in the order the migration adds them. */
  function MigratedKeys(row: Record): seq<string> {
    row.keys + AddedIfAbsent(row, Close) + AddedIfAbsent(row, Open)
    + AddedIfAbsent(row, High) + AddedIfAbsent(row, Low)
  }

  /** Lines 74-82: the close the record is migrated to, normalized; a
      legacy per-gram price is normalized before that as well. */
  function CanonicalClose(row: Record, unit: string): (r: Result<Value, Error>)
    requires Migratable(row)
    ensures unit != "kg" ==> r == Ok(row.fields[CloseSource(row)])
    ensures unit == "kg" ==> (r.Ok? <==> row.fields[CloseSource(row)].Num?)
    ensures r.Ok? && unit == "kg" ==>
      var c := row.fields[CloseSource(row)].n;
      r.value == Num(if CloseSource(row) == PerGram then Normalize(unit, Normalize(unit, c))
                     else Normalize(unit, c))
  {
    var c0 :- if Has(row, Close) then Ok(row.fields[Close])
              else if Has(row, PerKg) then Ok(row.fields[PerKg])
              else NormalizeValue(unit, row.fields[PerGram]);
    NormalizeValue(unit, c0)
  }

  /** Lines 82-85: the close is stored, and `setdefault` adds each of open,
      high and low that is absent, with the close as its value. */
  function Backfilled(row: Record, c: Value): (r: Record)
    ensures r.keys == MigratedKeys(row)
    ensures Get(r, Close) == Some(c)
    ensures Get(r, Open) == Some(if Has(row, Open) then row.fields[Open] else c)
    ensures Get(r, High) == Some(if Has(row, High) then row.fields[High] else c)
    ensures Get(r, Low) == Some(if Has(row, Low) then row.fields[Low] else c)
    ensures forall f :: !IsOHLCField(f) ==> Get(r, f) == Get(row, f)
  {
    var r0 := Set(row, Close, c);
    assert r0.keys == row.keys + AddedIfAbsent(row, Close);
    var r1 := SetDefault(r0, Open, c);
    assert r1.keys == r0.keys + AddedIfAbsent(row, Open);
    var r2 := SetDefault(r1, High, c);
    assert r2.keys == r1.keys + AddedIfAbsent(row, High);
    var r3 := SetDefault(r2, Low, c);
    assert r3.keys == r2.keys + AddedIfAbsent(row, Low);
    r3
  }

  /** Lines 87-89: open, high and low are each normalized in place. */
  function Renormalized(row: Record, unit: string): (r: Result<Record, Error>)
    requires Has(row, Open) && Has(row, High) && Has(row, Low)
    ensures r.Ok? <==> NormalizeValue(unit, row.fields[Open]).Ok?
                       && NormalizeValue(unit, row.fields[High]).Ok?
                       && NormalizeValue(unit, row.fields[Low]).Ok?
    ensures r.Ok? ==> r.value.keys == row.keys
    ensures r.Ok? ==> Get(r.value, Open) == Some(NormalizeValue(unit, row.fields[Open]).value)
    ensures r.Ok? ==> Get(r.value, High) == Some(NormalizeValue(unit, row.fields[High]).value)
    ensures r.Ok? ==> Get(r.value, Low) == Some(NormalizeValue(unit, row.fields[Low]).value)
    ensures r.Ok? ==> forall f :: f != Open && f != High && f != Low ==> Get(r.value, f) == Get(row, f)
  {
    var o :- NormalizeValue(unit, row.fields[Open]);
    var h :- NormalizeValue(unit, row.fields[High]);
    var l :- NormalizeValue(unit, row.fields[Low]);
    Ok(Set(Set(Set(row, Open, o), High, h), Low, l))
  }

  /** Outside a kg store the renormalization changes nothing. */
  lemma RenormalizedNotKg(row: Record, unit: string)
    requires Has(row, Open) && Has(row, High) && Has(row, Low) && unit != "kg"
    ensures Renormalized(row, unit) == Ok(row)
  {
    SetSame(row, Open);
    SetSame(row, High);
    SetSame(row, Low);
  }

  /** Lines 74-89, the migration into the canonical shape. */
  function Migrated(row: Record, unit: string): (r: Result<Record, Error>)
    requires Migratable(row)
    ensures r.Ok? ==> r.value.keys == MigratedKeys(row)
    ensures r.Ok? ==> forall f :: !IsOHLCField(f) ==> Get(r.value, f) == Get(row, f)
  {
    var c :- CanonicalClose(row, unit);
    Renormalized(Backfilled(row, c), unit)
  }

  /** In a store whose unit is not kg nothing is rescaled and nothing raises:
      the close comes from the legacy field as it is, and absent open, high
      and low are copied from it. */
  lemma MigratedNotKg(row: Record, unit: string)
    requires Migratable(row) && unit != "kg"
    ensures Migrated(row, unit).Ok?
    ensures var r, c := Migrated(row, unit).value, row.fields[CloseSource(row)];
      && Get(r, Close) == Some(c)
      && Get(r, Open) == Some(if Has(row, Open) then row.fields[Open] else c)
      && Get(r, High) == Some(if Has(row, High) then row.fields[High] else c)
      && Get(r, Low) == Some(if Has(row, Low) then row.fields[Low] else c)
  {
  }

  /** After migration in a kg store, field `f` holds its old value normalized,
      or the canonical close normalized once more when it was absent. */
  ghost predicate FilledFrom(r: Record, row: Record, f: string, close: real, unit: string)
    requires NumericAt(row, f)
  {
    Get(r, f) == Some(Num(Normalize(unit, if Has(row, f) then row.fields[f].n else close)))
  }

  /** The open, high and low the backfilled record holds before renormalizing. */
  lemma BackfilledPrices(row: Record, c: Value)
    ensures var b := Backfilled(row, c);
      && Has(b, Open) && Has(b, High) && Has(b, Low)
      && b.fields[Open] == (if Has(row, Open) then row.fields[Open] else c)
      && b.fields[High] == (if Has(row, High) then row.fields[High] else c)
      && b.fields[Low] == (if Has(row, Low) then row.fields[Low] else c)
  {
    var b := Backfilled(row, c);
    assert Get(b, Open) == Some(b.fields[Open]);
    assert Get(b, High) == Some(b.fields[High]);
    assert Get(b, Low) == Some(b.fields[Low]);
  }

  lemma MigratedKgOk(row: Record, unit: string)
    requires Migratable(row) && unit == "kg"
    ensures Migrated(row, unit).Ok? <==>
      row.fields[CloseSource(row)].Num? && NumericAt(row, Open) && NumericAt(row, High) && NumericAt(row, Low)
  {
    var cc := CanonicalClose(row, unit);
    if cc.Ok? {
      BackfilledPrices(row, cc.value);
    }
  }

  lemma MigratedKgValues(row: Record, unit: string)
    requires Migratable(row) && unit == "kg" && Migrated(row, unit).Ok?
    requires NumericAt(row, Open) && NumericAt(row, High) && NumericAt(row, Low)
    ensures var r, c := Migrated(row, unit).value, row.fields[CloseSource(row)].n;
      var close := if CloseSource(row) == PerGram then Normalize(unit, Normalize(unit, c))
                   else Normalize(unit, c);
      && Get(r, Close) == Some(Num(close))
      && FilledFrom(r, row, Open, close, unit)
      && FilledFrom(r, row, High, close, unit)
      && FilledFrom(r, row, Low, close, unit)
  {
    var cc := CanonicalClose(row, unit);
    BackfilledPrices(row, cc.value);
  }

  /** In a kg store the migration raises exactly when a price it compares is
      a string; otherwise every price is normalized, a legacy per-gram price
      twice, and an absent open, high or low is the canonical close
      normalized once more. */
  lemma MigratedKg(row: Record, unit: string)
    requires Migratable(row) && unit == "kg"
    ensures Migrated(row, unit).Ok? <==>
      row.fields[CloseSource(row)].Num? && NumericAt(row, Open) && NumericAt(row, High) && NumericAt(row, Low)
    ensures Migrated(row, unit).Ok? ==>
      var r, c := Migrated(row, unit).value, row.fields[CloseSource(row)].n;
      var close := if CloseSource(row) == PerGram then Normalize(unit, Normalize(unit, c))
                   else Normalize(unit, c);
      && Get(r, Close) == Some(Num(close))
      && FilledFrom(r, row, Open, close, unit)
      && FilledFrom(r, row, High, close, unit)
      && FilledFrom(r, row, Low, close, unit)
  {
    MigratedKgOk(row, unit);
    if Migrated(row, unit).Ok? {
      MigratedKgValues(row, unit);
    }
  }

  /** low <= close <= high, all three numbers. */
  ghost predicate Consistent(row: Record) {
    && Has(row, Close) && Has(row, High) && Has(row, Low)
    && row.fields[Close].Num? && row.fields[High].Num? && row.fields[Low].Num?
    && row.fields[Low].n <= row.fields[Close].n <= row.fields[High].n
  }

  /** High and low are extended by the incoming close, which then becomes the close. */
  function Extended(row: Record, incoming: real): (r: Result<Record, Error>)
    requires Has(row, Close) && Has(row, High) && Has(row, Low)
    ensures r.Ok? <==> row.fields[High].Num? && row.fields[Low].Num?
    ensures r.Ok? ==> r.value.keys == row.keys && Consistent(r.value)
    ensures r.Ok? ==> r.value.fields[Close] == Num(incoming)
    ensures r.Ok? ==> r.value.fields[High].n >= row.fields[High].n
    ensures r.Ok? ==> r.value.fields[High].n in {row.fields[High].n, incoming}
    ensures r.Ok? ==> r.value.fields[Low].n <= row.fields[Low].n
    ensures r.Ok? ==> r.value.fields[Low].n in {row.fields[Low].n, incoming}
    ensures r.Ok? ==> forall f :: f != Close && f != High && f != Low ==> Get(r.value, f) == Get(row, f)
  {
    var h :- MaxWith(row.fields[High], incoming);
    var l :- MinWith(row.fields[Low], incoming);
    Ok(Set(Set(Set(row, High, h), Low, l), Close, Num(incoming)))
  }

  /** With numeric high and low the extension is exactly the max and the min. */
  lemma ExtendedExact(row: Record, incoming: real)
    requires Has(row, Close) && Has(row, High) && Has(row, Low)
    requires row.fields[High].Num? && row.fields[Low].Num?
    ensures Extended(row, incoming).Ok?
    ensures var r, h, l := Extended(row, incoming).value, row.fields[High].n, row.fields[Low].n;
      && Get(r, Open) == Get(row, Open) && Get(r, Close) == Some(Num(incoming))
      && Get(r, High) == Some(Num(if incoming > h then incoming else h))
      && Get(r, Low) == Some(Num(if incoming < l then incoming else l))
  {
  }

  /** Everything the merge does to the first matching migratable record. */
  function MergeRecord(row: Record, incoming: real, unit: string): Result<Record, Error>
    requires Migratable(row)
  {
    var m :- Migrated(row, unit);
    Extended(m, incoming)
  }

  /** A brand-new record: open, high and low are set to the incoming close. */
  function Fresh(obs: Record): (r: Record)
    requires Has(obs, Close) && obs.fields[Close].Num?
    ensures Consistent(r)
    ensures Get(r, Open) == Get(r, High) == Get(r, Low) == Get(r, Close) == Get(obs, Close)
    ensures forall f :: f != Open && f != High && f != Low ==> Get(r, f) == Get(obs, f)
  {
    var c := obs.fields[Close];
    Set(Set(Set(obs, Open, c), High, c), Low, c)
  }

  /** Every price field the merge may read holds a number. */
  ghost predicate NumericPrices(row: Record) {
    && NumericAt(row, Close) && NumericAt(row, PerKg) && NumericAt(row, PerGram)
    && NumericAt(row, Open) && NumericAt(row, High) && NumericAt(row, Low)
  }

  /** A record whose prices are numbers never makes the merge raise, and the
      merged record has the incoming close between its low and its high,
      keeps every field other than the four canonical ones, and adds only
      the canonical fields that were absent. */
  lemma {:induction false} MergeNumericRecord(row: Record, incoming: real, unit: string)
    requires Migratable(row) && NumericPrices(row)
    ensures MergeRecord(row, incoming, unit).Ok?
    ensures var r := MergeRecord(row, incoming, unit).value;
      && Consistent(r) && r.fields[Close] == Num(incoming)
      && r.keys == MigratedKeys(row)
      && forall f :: !IsOHLCField(f) ==> Get(r, f) == Get(row, f)
  {
    if unit == "kg" {
      MigratedKg(row, unit);
    } else {
      MigratedNotKg(row, unit);
    }
  }

  /** A record already in the canonical shape: close, open, high and low are
      numbers, and in a kg store none of them is below the threshold. */
  ghost predicate Canonical(row: Record, unit: string) {
    && Has(row, Close) && Has(row, Open) && Has(row, High) && Has(row, Low)
    && row.fields[Close].Num? && row.fields[Open].Num? && row.fields[High].Num? && row.fields[Low].Num?
    && (unit == "kg" ==>
         && row.fields[Close].n >= Threshold && row.fields[Open].n >= Threshold
         && row.fields[High].n >= Threshold && row.fields[Low].n >= Threshold)
  }

  /** Migration keeps the four prices of a canonical record. */
  lemma MigratedCanonicalPrices(row: Record, unit: string)
    requires Canonical(row, unit)
    ensures Migrated(row, unit).Ok?
    ensures var r := Migrated(row, unit).value;
      && Get(r, Close) == Get(row, Close) && Get(r, Open) == Get(row, Open)
      && Get(r, High) == Get(row, High) && Get(r, Low) == Get(row, Low)
  {
    if unit == "kg" {
      MigratedKg(row, unit);
      var r, c := Migrated(row, unit).value, row.fields[Close].n;
      assert FilledFrom(r, row, Open, c, unit);
      assert FilledFrom(r, row, High, c, unit);
      assert FilledFrom(r, row, Low, c, unit);
    } else {
      MigratedNotKg(row, unit);
    }
  }

  /** Migration leaves a canonical record exactly as it is. */
  lemma {:induction false} MigratedCanonical(row: Record, unit: string)
    requires Canonical(row, unit)
    ensures Migrated(row, unit) == Ok(row)
  {
    MigratedCanonicalPrices(row, unit);
    var r := Migrated(row, unit).value;
    assert MigratedKeys(row) == row.keys;
    forall f
      ensures Get(r, f) == Get(row, f)
    {
      if !IsOHLCField(f) {
      }
    }
    Extensionality(r, row);
  }

  /** Merging into a canonical record leaves open and the key order alone,
      moves high up and low down only as far as the incoming close, and
      makes the incoming close the close. */
  lemma {:induction false} MergeCanonical(row: Record, incoming: real, unit: string)
    requires Canonical(row, unit)
    ensures Migratable(row) && MergeRecord(row, incoming, unit).Ok?
    ensures var r := MergeRecord(row, incoming, unit).value;
      && r.keys == row.keys && Consistent(r)
      && r.fields[Open] == row.fields[Open]
      && r.fields[Close] == Num(incoming)
      && r.fields[High].n == (if incoming > row.fields[High].n then incoming else row.fields[High].n)
      && r.fields[Low].n == (if incoming < row.fields[Low].n then incoming else row.fields[Low].n)
      && forall f :: !IsOHLCField(f) ==> Get(r, f) == Get(row, f)
  {
    MigratedCanonical(row, unit);
    var r := MergeRecord(row, incoming, unit).value;
    assert Get(r, Open) == Get(row, Open);
  }

  /** A per-gram price read in a kg store is normalized three times on its
      way to becoming the open: before and after it becomes the close, and
      once more when open is backfilled from the close. */
  lemma ThriceNormalized(open: Option<Value>, g: real)
    requires open == Some(Num(Normalize("kg", Normalize("kg", Normalize("kg", g)))))
    ensures 10.0 <= g < Threshold ==> open == Some(Num(g * 1000.0))
    ensures 0.01 <= g < 10.0 ==> open == Some(Num(g * 1000000.0))
    ensures g == 5000.0 ==> open == Some(Num(5000000.0))
  {
    if 10.0 <= g < Threshold {
      assert Normalize("kg", g) == g * 1000.0;
      assert g * 1000.0 >= Threshold;
    } else if 0.01 <= g < 10.0 {
      assert Normalize("kg", g) == g * 1000.0;
      assert g * 1000.0 < Threshold;
      assert Normalize("kg", g * 1000.0) == g * 1000000.0;
      assert g * 1000000.0 >= Threshold;
    }
  }

  /** A legacy kg-store record holding only a per-gram price `g` is merged,
      and its open is `g` normalized three times. */
  lemma LegacyGramOpen(row: Record, incoming: real, g: real)
    requires Get(row, PerGram) == Some(Num(g))
    requires !Has(row, Close) && !Has(row, PerKg)
    requires !Has(row, Open) && !Has(row, High) && !Has(row, Low)
    ensures Migratable(row) && MergeRecord(row, incoming, "kg").Ok?
    ensures Get(MergeRecord(row, incoming, "kg").value, Open) ==
      Some(Num(Normalize("kg", Normalize("kg", Normalize("kg", g)))))
  {
    MigratedKg(row, "kg");
    var m := Migrated(row, "kg").value;
    var close := Normalize("kg", Normalize("kg", g));
    assert FilledFrom(m, row, Open, close, "kg");
  }

  /** Such a record gets an open of `g` scaled by 1000 once when
      10 <= g < 10000, and twice when 0.01 <= g < 10. A per-gram price of
      5000 becomes an open of 5000000. */
  lemma LegacyGramMigration(row: Record, incoming: real, g: real)
    requires Get(row, PerGram) == Some(Num(g))
    requires !Has(row, Close) && !Has(row, PerKg)
    requires !Has(row, Open) && !Has(row, High) && !Has(row, Low)
    ensures Migratable(row) && MergeRecord(row, incoming, "kg").Ok?
    ensures 10.0 <= g < Threshold ==> Get(MergeRecord(row, incoming, "kg").value, Open) == Some(Num(g * 1000.0))
    ensures 0.01 <= g < 10.0 ==> Get(MergeRecord(row, incoming, "kg").value, Open) == Some(Num(g * 1000000.0))
    ensures g == 5000.0 ==> Get(MergeRecord(row, incoming, "kg").value, Open) == Some(Num(5000000.0))
  {
    LegacyGramOpen(row, incoming, g);
    ThriceNormalized(Get(MergeRecord(row, incoming, "kg").value, Open), g);
  }

  // ---------------------------------------------------------------- the store

  /** The merge: the first matching migratable record is updated in place,
      otherwise the observation is appended as a fresh record. */
  function Upserted(data: seq<Record>, keyFields: seq<string>, obs: Record, unit: string)
    : Result<seq<Record>, Error>
    requires IsObservation(obs, keyFields)
  {
    match FirstTarget(data, keyFields, obs)
    case None => Ok(data + [Fresh(obs)])
    case Some(i) =>
      var r :- MergeRecord(data[i], IncomingClose(obs), unit);
      Ok(data[i := r])
  }

  /** When no record matches on every key field with a price to migrate, the
      observation is appended as a fresh record and nothing else changes. */
  lemma UpsertAppends(data: seq<Record>, keyFields: seq<string>, obs: Record, unit: string)
    requires IsObservation(obs, keyFields)
    requires forall j :: 0 <= j < |data| ==> !IsTarget(data[j], keyFields, obs)
    ensures Upserted(data, keyFields, obs, unit) == Ok(data + [Fresh(obs)])
  {
  }

  /** When a record is updated it is the first matching migratable one; the
      length is unchanged and every other record is untouched. A matching
      record without any price is skipped. */
  lemma {:induction false} UpsertUpdatesFirstTarget(data: seq<Record>, keyFields: seq<string>, obs: Record, unit: string, i: nat)
    requires IsObservation(obs, keyFields)
    requires i < |data| && IsTarget(data[i], keyFields, obs)
    requires forall j :: 0 <= j < i ==> !IsTarget(data[j], keyFields, obs)
    requires Upserted(data, keyFields, obs, unit).Ok?
    ensures var d := Upserted(data, keyFields, obs, unit).value;
      && |d| == |data|
      && (forall j :: 0 <= j < |d| && j != i ==> d[j] == data[j])
      && Consistent(d[i]) && d[i].fields[Close] == obs.fields[Close]
      && d[i].keys == MigratedKeys(data[i])
      && forall f :: !IsOHLCField(f) ==> Get(d[i], f) == Get(data[i], f)
  {
    assert FirstTarget(data, keyFields, obs) == Some(i);
    var m := Migrated(data[i], unit);
    assert m.Ok?;
  }

  /** A store whose prices are all numbers never makes the merge raise. */
  lemma {:induction false} NumericStoreNeverRaises(data: seq<Record>, keyFields: seq<string>, obs: Record, unit: string)
    requires IsObservation(obs, keyFields)
    requires forall j :: 0 <= j < |data| ==> NumericPrices(data[j])
    ensures Upserted(data, keyFields, obs, unit).Ok?
  {
    match FirstTarget(data, keyFields, obs)
    case None =>
    case Some(i) => MergeNumericRecord(data[i], IncomingClose(obs), unit);
  }

  /** A missing store, or one `json.load` rejects with `JSONDecodeError`, is
      read as empty and the merge succeeds with the fresh record alone. */
  lemma UnreadableStoreStartsEmpty(f: StoreFile, keyFields: seq<string>, obs: Record, unit: string)
    requires IsObservation(obs, keyFields) && !f.Decoded?
    ensures Upserted(LoadStore(f), keyFields, obs, unit) == Ok([Fresh(obs)])
  {
    assert LoadStore(f) == [];
    assert FirstTarget([], keyFields, obs) == None;
    assert [] + [Fresh(obs)] == [Fresh(obs)];
  }

  /** low <= close <= high holds of every record after the merge when it held
      of every record before. */
  lemma {:induction false} UpsertPreservesConsistency(data: seq<Record>, keyFields: seq<string>, obs: Record, unit: string)
    requires IsObservation(obs, keyFields)
    requires forall j :: 0 <= j < |data| ==> Consistent(data[j])
    requires Upserted(data, keyFields, obs, unit).Ok?
    ensures forall j :: 0 <= j < |Upserted(data, keyFields, obs, unit).value| ==>
      Consistent(Upserted(data, keyFields, obs, unit).value[j])
  {
    match FirstTarget(data, keyFields, obs)
    case None =>
    case Some(i) => UpsertUpdatesFirstTarget(data, keyFields, obs, unit, i);
  }

  /** Two same-day observations for a key, in a store that is not kg or with
      a first price of at least the threshold: the first creates the record
      with open = high = low = close = a; the second keeps open = a, makes b
      the close, and puts high and low at the larger and smaller of a and b.
      `SecondObservationSmallKg` states the other case. */
  lemma {:induction false} SecondObservationKeepsOpen(
    data: seq<Record>, keyFields: seq<string>, obs: Record, obs2: Record, unit: string)
    requires IsObservation(obs, keyFields) && IsObservation(obs2, keyFields)
    requires forall i :: 0 <= i < |keyFields| ==> !IsOHLCField(keyFields[i])
    requires forall i :: 0 <= i < |keyFields| ==> Get(obs2, keyFields[i]) == Get(obs, keyFields[i])
    requires forall j :: 0 <= j < |data| ==> !IsTarget(data[j], keyFields, obs)
    requires unit != "kg" || IncomingClose(obs) >= Threshold
    ensures Upserted(data, keyFields, obs, unit) == Ok(data + [Fresh(obs)])
    ensures var a, b := IncomingClose(obs), IncomingClose(obs2);
      var d := Upserted(data + [Fresh(obs)], keyFields, obs2, unit);
      && d.Ok? && |d.value| == |data| + 1 && d.value[..|data|] == data
      && Get(d.value[|data|], Open) == Some(Num(a))
      && Get(d.value[|data|], Close) == Some(Num(b))
      && Get(d.value[|data|], High) == Some(Num(if b > a then b else a))
      && Get(d.value[|data|], Low) == Some(Num(if b < a then b else a))
  {
    var created := Fresh(obs);
    UpsertAppends(data, keyFields, obs, unit);
    FreshIsNextTarget(data, keyFields, obs, obs2);
    assert Canonical(created, unit);
    MergeCanonical(created, IncomingClose(obs2), unit);
    UpdateLast(data, created, MergeRecord(created, IncomingClose(obs2), unit).value);
  }

  /** The fresh record matches a second observation agreeing on the key fields. */
  lemma FreshMatches(keyFields: seq<string>, obs: Record, obs2: Record)
    requires IsObservation(obs, keyFields) && IsObservation(obs2, keyFields)
    requires forall i :: 0 <= i < |keyFields| ==> !IsOHLCField(keyFields[i])
    requires forall i :: 0 <= i < |keyFields| ==> Get(obs2, keyFields[i]) == Get(obs, keyFields[i])
    ensures IsTarget(Fresh(obs), keyFields, obs2)
  {
    var created := Fresh(obs);
    forall i | 0 <= i < |keyFields|
      ensures Get(created, keyFields[i]) == Get(obs2, keyFields[i])
    {
      assert !IsOHLCField(keyFields[i]);
    }
  }

  lemma FirstTargetIs(data: seq<Record>, keyFields: seq<string>, obs: Record, i: nat)
    requires i < |data| && IsTarget(data[i], keyFields, obs)
    requires forall j :: 0 <= j < i ==> !IsTarget(data[j], keyFields, obs)
    ensures FirstTarget(data, keyFields, obs) == Some(i)
  {
  }

  /** The record created by the first observation is the one the second updates. */
  lemma FreshIsNextTarget(data: seq<Record>, keyFields: seq<string>, obs: Record, obs2: Record)
    requires IsObservation(obs, keyFields) && IsObservation(obs2, keyFields)
    requires forall i :: 0 <= i < |keyFields| ==> !IsOHLCField(keyFields[i])
    requires forall i :: 0 <= i < |keyFields| ==> Get(obs2, keyFields[i]) == Get(obs, keyFields[i])
    requires forall j :: 0 <= j < |data| ==> !IsTarget(data[j], keyFields, obs)
    ensures FirstTarget(data + [Fresh(obs)], keyFields, obs2) == Some(|data|)
  {
    var d1 := data + [Fresh(obs)];
    FreshMatches(keyFields, obs, obs2);
    forall j | 0 <= j < |data|
      ensures !IsTarget(d1[j], keyFields, obs2)
    {
      assert !IsTarget(data[j], keyFields, obs);
    }
    FirstTargetIs(d1, keyFields, obs2, |data|);
  }

  /** Merging into a fresh record of a kg store whose price `a` is below the
      threshold: the close, open, high and low it holds are all rescaled to
      a * 1000 before they meet the incoming close `b`, which is not. */
  lemma MergeSmallKgFresh(obs: Record, b: real)
    requires Has(obs, Close) && obs.fields[Close].Num? && IncomingClose(obs) < Threshold
    ensures Migratable(Fresh(obs)) && MergeRecord(Fresh(obs), b, "kg").Ok?
    ensures var a, r := IncomingClose(obs) * Scale, MergeRecord(Fresh(obs), b, "kg").value;
      && Get(r, Open) == Some(Num(a)) && Get(r, Close) == Some(Num(b))
      && Get(r, High) == Some(Num(if b > a then b else a))
      && Get(r, Low) == Some(Num(if b < a then b else a))
  {
    MigratedSmallKgFresh(obs);
    ExtendedExact(Migrated(Fresh(obs), "kg").value, b);
  }

  /** The migration step of `MergeSmallKgFresh`. */
  lemma MigratedSmallKgFresh(obs: Record)
    requires Has(obs, Close) && obs.fields[Close].Num? && IncomingClose(obs) < Threshold
    ensures Migratable(Fresh(obs)) && Migrated(Fresh(obs), "kg").Ok?
    ensures var a, m := Num(IncomingClose(obs) * Scale), Migrated(Fresh(obs), "kg").value;
      && Has(m, Close) && Has(m, Open) && Has(m, High) && Has(m, Low)
      && m.fields[Close] == m.fields[Open] == m.fields[High] == m.fields[Low] == a
  {
    var f, a := Fresh(obs), IncomingClose(obs) * Scale;
    MigratedKg(f, "kg");
    var m := Migrated(f, "kg").value;
    assert FilledFrom(m, f, Open, a, "kg");
    assert FilledFrom(m, f, High, a, "kg");
    assert FilledFrom(m, f, Low, a, "kg");
  }

  /** Two same-day observations in a kg store whose first price `a` is below
      the threshold, as a copper price per kg is: the second merge rescales
      the stored open, high and low to a * 1000, so open changes and high and
      low are the larger and smaller of a * 1000 and b. */
  lemma {:induction false} SecondObservationSmallKg(
    data: seq<Record>, keyFields: seq<string>, obs: Record, obs2: Record)
    requires IsObservation(obs, keyFields) && IsObservation(obs2, keyFields)
    requires forall i :: 0 <= i < |keyFields| ==> !IsOHLCField(keyFields[i])
    requires forall i :: 0 <= i < |keyFields| ==> Get(obs2, keyFields[i]) == Get(obs, keyFields[i])
    requires forall j :: 0 <= j < |data| ==> !IsTarget(data[j], keyFields, obs)
    requires IncomingClose(obs) < Threshold
    ensures var a, b := IncomingClose(obs) * Scale, IncomingClose(obs2);
      var d := Upserted(data + [Fresh(obs)], keyFields, obs2, "kg");
      && d.Ok? && |d.value| == |data| + 1 && d.value[..|data|] == data
      && Get(d.value[|data|], Open) == Some(Num(a))
      && Get(d.value[|data|], Close) == Some(Num(b))
      && Get(d.value[|data|], High) == Some(Num(if b > a then b else a))
      && Get(d.value[|data|], Low) == Some(Num(if b < a then b else a))
  {
    var created := Fresh(obs);
    FreshIsNextTarget(data, keyFields, obs, obs2);
    MergeSmallKgFresh(obs, IncomingClose(obs2));
    UpdateLast(data, created, MergeRecord(created, IncomingClose(obs2), "kg").value);
  }

  /** A copper day that opens at 800 and then trades at 805 is stored with
      open 800000, high 800000, low 805 and close 805. */
  lemma CopperOpenRescaled(data: seq<Record>, keyFields: seq<string>, obs: Record, obs2: Record)
    requires IsObservation(obs, keyFields) && IsObservation(obs2, keyFields)
    requires forall i :: 0 <= i < |keyFields| ==> !IsOHLCField(keyFields[i])
    requires forall i :: 0 <= i < |keyFields| ==> Get(obs2, keyFields[i]) == Get(obs, keyFields[i])
    requires forall j :: 0 <= j < |data| ==> !IsTarget(data[j], keyFields, obs)
    requires IncomingClose(obs) == 800.0 && IncomingClose(obs2) == 805.0
    ensures var d := Upserted(data + [Fresh(obs)], keyFields, obs2, "kg");
      && d.Ok? && |d.value| == |data| + 1
      && Get(d.value[|data|], Open) == Some(Num(800000.0))
      && Get(d.value[|data|], High) == Some(Num(800000.0))
      && Get(d.value[|data|], Low) == Some(Num(805.0))
  {
    SecondObservationSmallKg(data, keyFields, obs, obs2);
  }

  // ------------------------------------------------- the merge as intended

  /** The migration the merge evidently intends: only a legacy record, one
      without a close, has its prices normalized; a record that already holds
      a close keeps its prices and only gains an absent open, high or low. */
  function MigratedIntended(row: Record, unit: string): Result<Record, Error>
    requires Migratable(row)
  {
    if Has(row, Close) then Ok(Backfilled(row, row.fields[Close])) else Migrated(row, unit)
  }

  function MergeRecordIntended(row: Record, incoming: real, unit: string): Result<Record, Error>
    requires Migratable(row)
  {
    var m :- MigratedIntended(row, unit);
    Extended(m, incoming)
  }

  /** `Upserted` with the intended migration. */
  function UpsertedIntended(data: seq<Record>, keyFields: seq<string>, obs: Record, unit: string)
    : Result<seq<Record>, Error>
    requires IsObservation(obs, keyFields)
  {
    match FirstTarget(data, keyFields, obs)
    case None => Ok(data + [Fresh(obs)])
    case Some(i) =>
      var r :- MergeRecordIntended(data[i], IncomingClose(obs), unit);
      Ok(data[i := r])
  }

  /** Under the intended migration a fresh record keeps its open in every
      store, and high and low move only as far as the incoming close. */
  lemma MergeIntendedFresh(obs: Record, b: real, unit: string)
    requires Has(obs, Close) && obs.fields[Close].Num?
    ensures Migratable(Fresh(obs)) && MergeRecordIntended(Fresh(obs), b, unit).Ok?
    ensures var a, r := IncomingClose(obs), MergeRecordIntended(Fresh(obs), b, unit).value;
      && Get(r, Open) == Some(Num(a)) && Get(r, Close) == Some(Num(b))
      && Get(r, High) == Some(Num(if b > a then b else a))
      && Get(r, Low) == Some(Num(if b < a then b else a))
  {
    var f, a := Fresh(obs), Num(IncomingClose(obs));
    BackfilledPrices(f, a);
    var m := Backfilled(f, a);
    assert m.fields[Open] == m.fields[High] == m.fields[Low] == a;
    ExtendedExact(m, b);
  }

  /** The intended rule for two same-day observations, in every store: the
      first sets open = high = low = close = a, the second keeps open = a,
      makes b the close, and puts high and low at the larger and smaller of
      a and b. */
  lemma {:induction false} SecondObservationKeepsOpenIntended(
    data: seq<Record>, keyFields: seq<string>, obs: Record, obs2: Record, unit: string)
    requires IsObservation(obs, keyFields) && IsObservation(obs2, keyFields)
    requires forall i :: 0 <= i < |keyFields| ==> !IsOHLCField(keyFields[i])
    requires forall i :: 0 <= i < |keyFields| ==> Get(obs2, keyFields[i]) == Get(obs, keyFields[i])
    requires forall j :: 0 <= j < |data| ==> !IsTarget(data[j], keyFields, obs)
    ensures UpsertedIntended(data, keyFields, obs, unit) == Ok(data + [Fresh(obs)])
    ensures var a, b := IncomingClose(obs), IncomingClose(obs2);
      var d := UpsertedIntended(data + [Fresh(obs)], keyFields, obs2, unit);
      && d.Ok? && |d.value| == |data| + 1 && d.value[..|data|] == data
      && Get(d.value[|data|], Open) == Some(Num(a))
      && Get(d.value[|data|], Close) == Some(Num(b))
      && Get(d.value[|data|], High) == Some(Num(if b > a then b else a))
      && Get(d.value[|data|], Low) == Some(Num(if b < a then b else a))
  {
    var created := Fresh(obs);
    assert FirstTarget(data, keyFields, obs) == None;
    FreshIsNextTarget(data, keyFields, obs, obs2);
    MergeIntendedFresh(obs, IncomingClose(obs2), unit);
    UpdateLast(data, created, MergeRecordIntended(created, IncomingClose(obs2), unit).value);
  }

  /** The intended merge differs from the code's only in a kg store: in any
      other store the two agree on every input. */
  lemma IntendedAgreesOutsideKg(data: seq<Record>, keyFields: seq<string>, obs: Record, unit: string)
    requires IsObservation(obs, keyFields) && unit != "kg"
    ensures UpsertedIntended(data, keyFields, obs, unit) == Upserted(data, keyFields, obs, unit)
  {
    match FirstTarget(data, keyFields, obs)
    case None =>
    case Some(i) =>
      if Has(data[i], Close) {
        var b := Backfilled(data[i], data[i].fields[Close]);
        BackfilledPrices(data[i], data[i].fields[Close]);
        RenormalizedNotKg(b, unit);
      }
  }

  /** Every key of a record occurs in the key stream of the store. */
  lemma {:induction false} AllKeysHas(data: seq<Record>, i: nat, k: string)
    requires i < |data| && k in data[i].keys
    ensures k in AllKeys(data)
  {
    var n := |data| - 1;
    if i < n {
      assert data[..n][i] == data[i];
      AllKeysHas(data[..n], i, k);
    }
  }

  /** Every key in the key stream belongs to some record. */
  lemma {:induction false} AllKeysFrom(data: seq<Record>, k: string)
    requires k in AllKeys(data)
    ensures exists i :: 0 <= i < |data| && k in data[i].keys
  {
    var n := |data| - 1;
    if k !in data[n].keys {
      AllKeysFrom(data[..n], k);
      var i :| 0 <= i < n && k in data[..n][i].keys;
      assert data[i] == data[..n][i];
    }
  }

  /** The flat-table header holds every key of every record, each once, and
      nothing else. */
  lemma HeaderIsKeyUnion(data: seq<Record>)
    ensures Distinct(FirstSeen(AllKeys(data)))
    ensures forall i, k :: 0 <= i < |data| && k in data[i].keys ==> k in FirstSeen(AllKeys(data))
    ensures forall k :: k in FirstSeen(AllKeys(data)) ==> exists i :: 0 <= i < |data| && k in data[i].keys
  {
    forall i, k | 0 <= i < |data| && k in data[i].keys
      ensures k in FirstSeen(AllKeys(data))
    {
      AllKeysHas(data, i, k);
      var s := AllKeys(data);
      var j :| 0 <= j < |s| && s[j] == k;
    }
    forall k | k in FirstSeen(AllKeys(data))
      ensures exists i :: 0 <= i < |data| && k in data[i].keys
    {
      var r := FirstSeen(AllKeys(data));
      var j :| 0 <= j < |r| && r[j] == k;
      AllKeysFrom(data, k);
    }
  }

  /** Every key of every record, record by record, in key order. */
  function AllKeys(data: seq<Record>): seq<string> {
    if data == [] then [] else AllKeys(data[..|data| - 1]) + data[|data| - 1].keys
  }

  lemma AllKeysSnoc(data: seq<Record>, i: nat)
    requires i < |data|
    ensures AllKeys(data[..i + 1]) == AllKeys(data[..i]) + data[i].keys
  {
    assert data[..i + 1][..i] == data[..i];
  }

  /** The inner header loop: the keys of one record not collected yet are
      appended in their order. */
  method CollectKeys(names: seq<string>, ghost seen: seq<string>, keys: seq<string>)
    returns (r: seq<string>)
    requires names == FirstSeen(seen)
    ensures r == FirstSeen(seen + keys)
  {
    r := names;
    EmptySlice(seen, keys);
    for j := 0 to |keys|
      invariant r == FirstSeen(seen + keys[..j])
    {
      var k := keys[j];
      CollectStep(seen, keys, j, r);
      if k !in r {
        r := r + [k];
      }
    }
    TakeAll(keys);
  }

  /** The flat-table header: the first-seen union of all record keys. */
  method FieldNames(data: seq<Record>) returns (names: seq<string>)
    ensures names == FirstSeen(AllKeys(data))
  {
    names := [];
    for i := 0 to |data|
      invariant names == FirstSeen(AllKeys(data[..i]))
    {
      names := CollectKeys(names, AllKeys(data[..i]), data[i].keys);
      AllKeysSnoc(data, i);
    }
    TakeAll(data);
  }

  /** The merge loop over the loaded records: the first matching migratable
      record is replaced by its merge, or the fresh record is appended. An
      exception raised by the merge escapes. */
  method MergeIntoStore(loaded: seq<Record>, keyFields: seq<string>, obs: Record, unit: string)
    returns (res: Result<seq<Record>, Error>)
    requires IsObservation(obs, keyFields)
    ensures res == Upserted(loaded, keyFields, obs, unit)
  {
    var data := loaded;
    var i := 0;
    while i < |data|
      invariant 0 <= i <= |data| && data == loaded
      invariant forall j :: 0 <= j < i ==> !IsTarget(loaded[j], keyFields, obs)
    {
      var row := data[i];
      if Matches(row, keyFields, obs) {
        if !Migratable(row) {
          i := i + 1;
          continue;
        }
        assert FirstTarget(loaded, keyFields, obs) == Some(i);
        var merged := MergeRecord(row, IncomingClose(obs), unit);
        if merged.Err? {
          return Err(merged.error);
        }
        return Ok(data[i := merged.value]);
      }
      i := i + 1;
    }
    return Ok(data + [Fresh(obs)]);
  }

  /** The whole `upsert_daily_csv_json`: load, merge, and compute the header.
      An exception raised by the merge escapes and nothing is written. */
  method UpsertDaily(store: StoreFile, keyFields: seq<string>, obs: Record, unit: string)
    returns (res: Result<DailyTables, Error>)
    requires IsObservation(obs, keyFields)
    ensures res.Err? <==> Upserted(LoadStore(store), keyFields, obs, unit).Err?
    ensures res.Ok? ==> res.value.records == Upserted(LoadStore(store), keyFields, obs, unit).value
    ensures res.Ok? ==> res.value.header == FirstSeen(AllKeys(res.value.records))
  {
    var data: seq<Record> := [];
    if store.Decoded? {
      data := store.records;
    }
    var merged := MergeIntoStore(data, keyFields, obs, unit);
    if merged.Err? {
      return Err(merged.error);
    }
    var header := FieldNames(merged.value);
    res := Ok(DailyTables(merged.value, header));
  }
}
