/**
  The intraday wide table of scraper.py (`append_hourly_wide_csv`): one row
  per date, holding `date`, `unit` and the sample columns `p_01`, `p_02`, ...
  One observation adds one sample column to the row of its date, creating
  the row when the date is new, and the header is recomputed. File reading
  and writing are left out; the table is the list of rows.
*/
module HourlyTable {
  import opened Wrappers
  import opened Records
  import opened Sequences

  const Date := "date"
  const Unit := "unit"

  // ---------------------------------------------------------------- column names

  /** `c.startswith("p_")` */
  predicate IsSampleKey(c: string) {
    |c| >= 2 && c[..2] == "p_"
  }

  predicate IsDigit(ch: char) {
    '0' <= ch <= '9'
  }

  predicate AllDigits(s: string) {
    forall i :: 0 <= i < |s| ==> IsDigit(s[i])
  }

  /** `int(c[2:])` succeeds on a sample key: its suffix is a non-empty run of digits. */
  predicate HasIndex(c: string) {
    IsSampleKey(c) ==> |c| > 2 && AllDigits(c[2..])
  }

  function DigitChar(d: nat): (ch: char)
    requires d < 10
    ensures IsDigit(ch)
  {
    ('0' as int + d) as char
  }

  /** The value of a string of decimal digits. */
  function ParseDecimal(s: string): nat
    requires AllDigits(s)
  {
    if s == [] then 0
    else 10 * ParseDecimal(s[..|s| - 1]) + (s[|s| - 1] as int - '0' as int)
  }

  /** The decimal digits of `n`, without leading zeros. */
  function DecimalDigits(n: nat): (s: string)
    ensures |s| >= 1 && AllDigits(s)
  {
    if n < 10 then [DigitChar(n)] else DecimalDigits(n / 10) + [DigitChar(n % 10)]
  }

  lemma {:induction false} ParseDecimalDigits(n: nat)
    ensures ParseDecimal(DecimalDigits(n)) == n
  {
    if n >= 10 {
      var s := DecimalDigits(n);
      assert s[..|s| - 1] == DecimalDigits(n / 10);
      ParseDecimalDigits(n / 10);
    }
  }

  /** `f"{n:02d}"`: at least two digits, zero-padded. */
  function Pad2(n: nat): (s: string)
    ensures |s| >= 2 && AllDigits(s)
  {
    if n < 10 then ['0', DigitChar(n)] else DecimalDigits(n)
  }

  /** `f"p_{n:02d}"` */
  function ColumnName(n: nat): string {
    "p_" + Pad2(n)
  }

  /** The sample index of a sample key, `int(c[2:])`. */
  function SampleIndex(c: string): nat
    requires IsSampleKey(c) && HasIndex(c)
  {
    ParseDecimal(c[2..])
  }

  /** Formatting a column name and reading its index back gives the index. */
  lemma {:induction false} ColumnNameRoundTrip(n: nat)
    ensures IsSampleKey(ColumnName(n)) && HasIndex(ColumnName(n))
    ensures SampleIndex(ColumnName(n)) == n
  {
    var c := ColumnName(n);
    assert c[..2] == "p_" && c[2..] == Pad2(n);
    if n < 10 {
      var p := Pad2(n);
      assert p[..1] == ['0'] && ['0'][..0] == [];
      assert ParseDecimal(['0']) == 0;
      assert ParseDecimal(p) == 10 * ParseDecimal(['0']) + (DigitChar(n) as int - '0' as int);
    } else {
      ParseDecimalDigits(n);
    }
  }

  lemma ColumnNameInjective(a: nat, b: nat)
    requires ColumnName(a) == ColumnName(b)
    ensures a == b
  {
    ColumnNameRoundTrip(a);
    ColumnNameRoundTrip(b);
  }

  lemma ColumnName1()
    ensures ColumnName(1) == "p_01"
  {
  }

  lemma DateAndUnitAreNotSamples()
    ensures !IsSampleKey(Date) && !IsSampleKey(Unit)
  {
    assert Date[..2] == "da" && Unit[..2] == "un";
  }

  // ---------------------------------------------------------------- rows

  /** `len([c for c in row if c.startswith("p_")])`: the number of sample keys. */
  function CountSampleKeys(keys: seq<string>): (n: nat)
    ensures n <= |keys|
  {
    if keys == [] then 0
    else CountSampleKeys(keys[..|keys| - 1]) + (if IsSampleKey(keys[|keys| - 1]) then 1 else 0)
  }

  lemma {:induction false} CountSampleKeysAppend(a: seq<string>, b: seq<string>)
    ensures CountSampleKeys(a + b) == CountSampleKeys(a) + CountSampleKeys(b)
  {
    if b != [] {
      var b' := b[..|b| - 1];
      ConcatDropLast(a, b);
      CountSampleKeysAppend(a, b');
    } else {
      assert a + b == a;
    }
  }

  /** Rows as `csv.DictReader` gives them from a table this program wrote:
      each has a date, and every sample key has a numeric suffix. */
  ghost predicate Readable(rows: seq<Record>) {
    forall i :: 0 <= i < |rows| ==>
      && Has(rows[i], Date)
      && forall j :: 0 <= j < |rows[i].keys| ==> HasIndex(rows[i].keys[j])
  }

  /** The largest sample index among `keys`, or 0. */
  function MaxIndexIn(keys: seq<string>): (m: nat)
    requires forall j :: 0 <= j < |keys| ==> HasIndex(keys[j])
    ensures forall j :: 0 <= j < |keys| && IsSampleKey(keys[j]) ==> SampleIndex(keys[j]) <= m
    ensures m == 0 || exists j :: 0 <= j < |keys| && IsSampleKey(keys[j]) && SampleIndex(keys[j]) == m
  {
    if keys == [] then 0
    else
      var m := MaxIndexIn(keys[..|keys| - 1]);
      var c := keys[|keys| - 1];
      if IsSampleKey(c) && SampleIndex(c) > m then SampleIndex(c) else m
  }

  /** `max([int(c[2:]) for r in rows for c in r if c.startswith("p_")] or [0])` */
  function MaxSampleIndex(rows: seq<Record>): (m: nat)
    requires Readable(rows)
    ensures forall i, j :: 0 <= i < |rows| && 0 <= j < |rows[i].keys| && IsSampleKey(rows[i].keys[j]) ==>
              SampleIndex(rows[i].keys[j]) <= m
    ensures m == 0 || exists i :: 0 <= i < |rows| && MaxIndexIn(rows[i].keys) == m
  {
    if rows == [] then 0
    else
      var p := rows[..|rows| - 1];
      ReadablePrefix(rows, p);
      var m := MaxSampleIndex(p);
      var r := MaxIndexIn(rows[|rows| - 1].keys);
      if r > m then r else m
  }

  lemma ReadablePrefix(rows: seq<Record>, p: seq<Record>)
    requires Readable(rows) && rows != [] && p == rows[..|rows| - 1]
    ensures Readable(p) && rows == p + [rows[|rows| - 1]]
    ensures forall i :: 0 <= i < |p| ==> p[i] == rows[i]
  {
  }

  /** date, unit, then p_01 up to p_m. */
  function HeaderUpTo(m: nat): seq<string> {
    if m == 0 then [Date, Unit] else HeaderUpTo(m - 1) + [ColumnName(m)]
  }

  /** The header: date, unit, then p_01 up to the largest sample index present. */
  function TableHeader(rows: seq<Record>): seq<string>
    requires Readable(rows)
  {
    HeaderUpTo(MaxSampleIndex(rows))
  }

  /** The index of the first row for `date`, if any. */
  function FindDate(rows: seq<Record>, date: string): (r: Option<nat>)
    ensures r.Some? ==> r.value < |rows| && Get(rows[r.value], Date) == Some(Str(date))
    ensures r.Some? ==> forall j :: 0 <= j < r.value ==> Get(rows[j], Date) != Some(Str(date))
    ensures r.None? ==> forall j :: 0 <= j < |rows| ==> Get(rows[j], Date) != Some(Str(date))
  {
    if rows == [] then None
    else if Get(rows[0], Date) == Some(Str(date)) then Some(0)
    else match FindDate(rows[1..], date)
      case None => None
      case Some(i) => Some(i + 1)
  }

  lemma FindDateFirst(rows: seq<Record>, date: string, i: nat)
    requires i < |rows| && Get(rows[i], Date) == Some(Str(date))
    requires forall j :: 0 <= j < i ==> Get(rows[j], Date) != Some(Str(date))
    ensures FindDate(rows, date) == Some(i)
  {
  }

  /** The row created for a new date, before its first sample. */
  function DateRow(date: string, unit: string): Record {
    Set(Set(Empty, Date, Str(date)), Unit, Str(unit))
  }

  /** The row gains the sample column numbered one past its count of sample keys. */
  function WithSample(row: Record, price: real): Record {
    Set(row, ColumnName(CountSampleKeys(row.keys) + 1), Num(price))
  }

  lemma WithSampleGet(row: Record, price: real, n: nat)
    requires CountSampleKeys(row.keys) == n
    ensures Get(WithSample(row, price), ColumnName(n + 1)) == Some(Num(price))
  {
  }

  /** The table after one observation. */
  function Appended(rows: seq<Record>, date: string, unit: string, price: real): (r: seq<Record>)
    ensures |rows| <= |r| <= |rows| + 1
  {
    match FindDate(rows, date)
    case Some(i) => rows[i := WithSample(rows[i], price)]
    case None => rows + [WithSample(DateRow(date, unit), price)]
  }

  lemma {:induction false} WithSampleReadable(row: Record, price: real)
    requires forall j :: 0 <= j < |row.keys| ==> HasIndex(row.keys[j])
    ensures var r := WithSample(row, price);
      forall j :: 0 <= j < |r.keys| ==> HasIndex(r.keys[j])
  {
    ColumnNameRoundTrip(CountSampleKeys(row.keys) + 1);
  }

  /** One row that has a date and only indexed keys, readable on its own. */
  ghost predicate ReadableRow(r: Record) {
    Has(r, Date) && forall j :: 0 <= j < |r.keys| ==> HasIndex(r.keys[j])
  }

  lemma ReadableUpdate(rows: seq<Record>, i: nat, r: Record)
    requires Readable(rows) && i < |rows| && ReadableRow(r)
    ensures Readable(rows[i := r])
  {
  }

  lemma ReadableSnoc(rows: seq<Record>, r: Record)
    requires Readable(rows) && ReadableRow(r)
    ensures Readable(rows + [r])
  {
  }

  lemma WithSampleReadableRow(row: Record, price: real)
    requires ReadableRow(row)
    ensures ReadableRow(WithSample(row, price))
  {
    WithSampleReadable(row, price);
  }

  lemma {:induction false} AppendedReadable(rows: seq<Record>, date: string, unit: string, price: real)
    requires Readable(rows)
    ensures Readable(Appended(rows, date, unit, price))
  {
    match FindDate(rows, date)
    case Some(i) =>
      assert ReadableRow(rows[i]);
      WithSampleReadableRow(rows[i], price);
      ReadableUpdate(rows, i, WithSample(rows[i], price));
    case None =>
      var d := DateRow(date, unit);
      DateRowShape(date, unit);
      DateAndUnitAreNotSamples();
      WithSampleReadableRow(d, price);
      ReadableSnoc(rows, WithSample(d, price));
  }

  /** The header loop: date and unit, then one column name per index up to `maxP`. */
  method WideHeader(maxP: nat) returns (header: seq<string>)
    ensures header == HeaderUpTo(maxP)
  {
    header := [Date, Unit];
    for n := 1 to maxP + 1
      invariant header == HeaderUpTo(n - 1)
    {
      header := header + [ColumnName(n)];
    }
  }

  /** The search loop: the index of the first row for `date`, or `|rows|`. */
  method FindDateRow(rows: seq<Record>, date: string) returns (i: nat)
    ensures i <= |rows|
    ensures FindDate(rows, date) == if i == |rows| then None else Some(i)
  {
    i := 0;
    while i < |rows| && Get(rows[i], Date) != Some(Str(date))
      invariant 0 <= i <= |rows|
      invariant forall j :: 0 <= j < i ==> Get(rows[j], Date) != Some(Str(date))
    {
      i := i + 1;
    }
    if i < |rows| {
      FindDateFirst(rows, date, i);
    }
  }

  /** `row[f"p_{len(price_cols) + 1:02d}"] = price`: the column one past the
      row's count of sample keys holds the price, every other key keeps its
      value, and the column joins the key order only when it was absent. */
  method AddColumn(row: Record, price: real) returns (r: Record)
    ensures var col := ColumnName(CountSampleKeys(row.keys) + 1);
      && Get(r, col) == Some(Num(price))
      && (forall k :: k != col ==> Get(r, k) == Get(row, k))
      && r.keys == if Has(row, col) then row.keys else row.keys + [col]
    ensures r == WithSample(row, price)
  {
    var col := ColumnName(CountSampleKeys(row.keys) + 1);
    r := Set(row, col, Num(price));
  }

  /** The row update of `append_hourly_wide_csv`: the first row for the date,
      or a new row with date and unit appended for it, gains the sample. */
  method AddSample(rows: seq<Record>, date: string, unit: string, price: real)
    returns (table: seq<Record>)
    ensures table == Appended(rows, date, unit, price)
  {
    var i := FindDateRow(rows, date);
    if i == |rows| {
      var row := DateRow(date, unit);
      row := AddColumn(row, price);
      table := rows + [row];
    } else {
      var row := AddColumn(rows[i], price);
      table := rows[i := row];
    }
  }

  /** The whole `append_hourly_wide_csv` on the rows read from the table. */
  method AppendHourly(rows: seq<Record>, date: string, unit: string, price: real)
    returns (table: seq<Record>, header: seq<string>)
    requires Readable(rows)
    ensures table == Appended(rows, date, unit, price) && Readable(table)
    ensures header == TableHeader(table)
  {
    table := AddSample(rows, date, unit, price);
    AppendedReadable(rows, date, unit, price);
    header := WideHeader(MaxSampleIndex(table));
  }

  // ---------------------------------------------------------------- properties

  lemma DateRowKeys(date: string, unit: string)
    ensures var d := DateRow(date, unit);
      && d.keys == [Date, Unit]
      && Get(d, Date) == Some(Str(date)) && Get(d, Unit) == Some(Str(unit))
  {
    var d1 := Set(Empty, Date, Str(date));
    assert d1.keys == [Date];
    assert Unit != Date by { assert Unit[0] != Date[0]; }
  }

  lemma DateUnitCount()
    ensures CountSampleKeys([Date, Unit]) == 0
  {
    DateAndUnitAreNotSamples();
    assert [Date, Unit][..1] == [Date] && [Date][..0] == [];
  }

  lemma FirstColumnIsNew()
    ensures ColumnName(1) != Date && ColumnName(1) != Unit
  {
    ColumnName1();
    assert ColumnName(1)[0] != Date[0] && ColumnName(1)[0] != Unit[0];
  }

  /** The row made for a new date has only its date and unit. */
  lemma DateRowShape(date: string, unit: string)
    ensures var d := DateRow(date, unit);
      && d.keys == [Date, Unit] && CountSampleKeys(d.keys) == 0
      && Get(d, Date) == Some(Str(date)) && Get(d, Unit) == Some(Str(unit))
      && !Has(d, ColumnName(1))
  {
    DateRowKeys(date, unit);
    DateUnitCount();
    FirstColumnIsNew();
  }

  /** Its keys once it holds the first sample. */
  lemma NewDateRowKeys(date: string, unit: string, price: real)
    ensures WithSample(DateRow(date, unit), price).keys == [Date, Unit, ColumnName(1)]
  {
    var d, col := DateRow(date, unit), ColumnName(1);
    DateRowShape(date, unit);
    FirstSample(d, price);
    SetNew(d, col, Num(price));
    assert [Date, Unit] + [col] == [Date, Unit, col];
  }

  lemma FirstSample(d: Record, price: real)
    requires CountSampleKeys(d.keys) == 0
    ensures WithSample(d, price) == Set(d, ColumnName(1), Num(price))
  {
  }

  /** A new date gets a row `{date, unit, p_01: price}` at the end; no other row changes. */
  lemma NewDateAppendsRow(rows: seq<Record>, date: string, unit: string, price: real)
    requires FindDate(rows, date).None?
    ensures var t := Appended(rows, date, unit, price);
      && |t| == |rows| + 1 && t[..|rows|] == rows
      && t[|rows|].keys == [Date, Unit, "p_01"]
      && Get(t[|rows|], Date) == Some(Str(date))
      && Get(t[|rows|], Unit) == Some(Str(unit))
      && Get(t[|rows|], "p_01") == Some(Num(price))
  {
    var r := WithSample(DateRow(date, unit), price);
    assert Appended(rows, date, unit, price) == rows + [r];
    NewDateRowKeys(date, unit, price);
    NewDateRowGets(date, unit, price);
    ColumnName1();
    SnocPrefix(rows, r);
  }

  /** The lookups of the row made for a new date once it holds the first sample. */
  lemma NewDateRowGets(date: string, unit: string, price: real)
    ensures var r := WithSample(DateRow(date, unit), price);
      && Get(r, Date) == Some(Str(date)) && Get(r, Unit) == Some(Str(unit))
      && Get(r, ColumnName(1)) == Some(Num(price))
  {
    var d := DateRow(date, unit);
    DateRowShape(date, unit);
    FirstSample(d, price);
    FirstColumnIsNew();
  }

  /** The first row with the date gains the value under `p_{k+1}`, `k` being
      its number of sample keys; no other key of it and no other row changes,
      and the key is appended to its key order unless it was already there. */
  lemma ExistingDateGainsSample(rows: seq<Record>, date: string, unit: string, price: real, i: nat)
    requires i < |rows| && Get(rows[i], Date) == Some(Str(date))
    requires forall j :: 0 <= j < i ==> Get(rows[j], Date) != Some(Str(date))
    ensures var t, col := Appended(rows, date, unit, price), ColumnName(CountSampleKeys(rows[i].keys) + 1);
      && |t| == |rows|
      && (forall j :: 0 <= j < |rows| && j != i ==> t[j] == rows[j])
      && Get(t[i], col) == Some(Num(price))
      && (forall c :: c != col ==> Get(t[i], c) == Get(rows[i], c))
      && t[i].keys == rows[i].keys + (if Has(rows[i], col) then [] else [col])
  {
    assert FindDate(rows, date) == Some(i);
  }

  /** When a row's sample keys are numbered no higher than their count (the
      row has no gaps), the column it gains is a new key. */
  lemma NoGapMeansNewColumn(row: Record)
    requires WellFormed(row)
    requires forall j :: 0 <= j < |row.keys| ==> HasIndex(row.keys[j])
    requires forall j :: 0 <= j < |row.keys| && IsSampleKey(row.keys[j]) ==>
               SampleIndex(row.keys[j]) <= CountSampleKeys(row.keys)
    ensures !Has(row, ColumnName(CountSampleKeys(row.keys) + 1))
  {
    ColumnNameRoundTrip(CountSampleKeys(row.keys) + 1);
  }

  lemma {:induction false} HeaderUpToHas(m: nat, k: nat)
    ensures Date in HeaderUpTo(m) && Unit in HeaderUpTo(m)
    ensures 1 <= k <= m ==> ColumnName(k) in HeaderUpTo(m)
  {
    if m > 0 {
      HeaderUpToHas(m - 1, k);
    }
  }

  lemma {:induction false} HeaderUpToOnly(m: nat, c: string)
    requires c in HeaderUpTo(m)
    ensures c == Date || c == Unit || exists k :: 1 <= k <= m && c == ColumnName(k)
  {
    if m > 0 && c != ColumnName(m) {
      HeaderUpToOnly(m - 1, c);
    }
  }

  lemma {:induction false} HeaderUpToDistinct(m: nat)
    ensures Distinct(HeaderUpTo(m))
  {
    if m > 0 {
      HeaderUpToDistinct(m - 1);
      ColumnNameRoundTrip(m);
      DateAndUnitAreNotSamples();
      if ColumnName(m) in HeaderUpTo(m - 1) {
        HeaderUpToOnly(m - 1, ColumnName(m));
        var k :| 1 <= k <= m - 1 && ColumnName(m) == ColumnName(k);
        ColumnNameInjective(m, k);
      }
    }
  }

  /** The header lists date, unit and p_01 up to the largest index, each once,
      so it names the column of every sample key of every row; a header
      entry is date, unit, or a column not past the largest index. */
  lemma HeaderCoversSamples(rows: seq<Record>)
    requires Readable(rows)
    ensures Distinct(TableHeader(rows))
    ensures Date in TableHeader(rows) && Unit in TableHeader(rows)
    ensures forall i, j :: (0 <= i < |rows| && 0 <= j < |rows[i].keys| && IsSampleKey(rows[i].keys[j]) &&
              SampleIndex(rows[i].keys[j]) >= 1) ==> ColumnName(SampleIndex(rows[i].keys[j])) in TableHeader(rows)
    ensures forall c :: c in TableHeader(rows) ==>
              c == Date || c == Unit || exists k :: 1 <= k <= MaxSampleIndex(rows) && c == ColumnName(k)
  {
    var m := MaxSampleIndex(rows);
    HeaderUpToDistinct(m);
    HeaderUpToHas(m, 0);
    forall i, j | 0 <= i < |rows| && 0 <= j < |rows[i].keys| && IsSampleKey(rows[i].keys[j]) &&
                  SampleIndex(rows[i].keys[j]) >= 1
      ensures ColumnName(SampleIndex(rows[i].keys[j])) in TableHeader(rows)
    {
      HeaderUpToHas(m, SampleIndex(rows[i].keys[j]));
    }
    forall c | c in TableHeader(rows)
      ensures c == Date || c == Unit || exists k :: 1 <= k <= m && c == ColumnName(k)
    {
      HeaderUpToOnly(m, c);
    }
  }

  /** `csv.DictWriter` (extrasaction "raise") accepts the table: every key of
      every row is a header column. */
  ghost predicate Writable(rows: seq<Record>) {
    && Readable(rows)
    && forall i, j :: 0 <= i < |rows| && 0 <= j < |rows[i].keys| ==> rows[i].keys[j] in TableHeader(rows)
  }

  lemma {:induction false} HeaderUpToMonotone(a: nat, b: nat, c: string)
    requires a <= b && c in HeaderUpTo(a)
    ensures c in HeaderUpTo(b)
  {
    HeaderUpToOnly(a, c);
    if c == Date || c == Unit {
      HeaderUpToHas(b, 0);
    } else {
      var k :| 1 <= k <= a && c == ColumnName(k);
      HeaderUpToHas(b, k);
    }
  }

  /** A positive largest index is the index of some sample key. */
  lemma MaxSampleWitness(rows: seq<Record>, m: nat) returns (i: nat, j: nat)
    requires Readable(rows) && m == MaxSampleIndex(rows) && m > 0
    ensures i < |rows| && j < |rows[i].keys|
    ensures IsSampleKey(rows[i].keys[j]) && SampleIndex(rows[i].keys[j]) == m
  {
    i :| 0 <= i < |rows| && MaxIndexIn(rows[i].keys) == m;
    j :| 0 <= j < |rows[i].keys| && IsSampleKey(rows[i].keys[j]) && SampleIndex(rows[i].keys[j]) == m;
  }

  /** Every sample key of the table is numbered at most the largest index. */
  lemma MaxSampleBound(rows: seq<Record>, m: nat, c: string, i: nat)
    requires Readable(rows) && m == MaxSampleIndex(rows)
    requires i < |rows| && c in rows[i].keys && IsSampleKey(c)
    ensures SampleIndex(c) <= m
  {
    var j :| 0 <= j < |rows[i].keys| && rows[i].keys[j] == c;
  }

  lemma MaxSampleIndexGrows(rows: seq<Record>, t: seq<Record>, m: nat, m': nat)
    requires Readable(rows) && Readable(t) && |rows| <= |t|
    requires forall i, j :: 0 <= i < |rows| && 0 <= j < |rows[i].keys| ==> rows[i].keys[j] in t[i].keys
    requires m == MaxSampleIndex(rows) && m' == MaxSampleIndex(t)
    ensures m <= m'
  {
    if m > 0 {
      var i, j := MaxSampleWitness(rows, m);
      MaxSampleBound(t, m', rows[i].keys[j], i);
    }
  }

  /** A table grown from a writable one by keeping every key and adding only
      date, unit and one column `p_k` is writable. */
  lemma {:induction false} GrownStaysWritable(rows: seq<Record>, t: seq<Record>, k: nat)
    requires Writable(rows) && Readable(t) && |rows| <= |t| && k >= 1
    requires forall i, j :: 0 <= i < |rows| && 0 <= j < |rows[i].keys| ==> rows[i].keys[j] in t[i].keys
    requires forall i, j :: 0 <= i < |t| && 0 <= j < |t[i].keys| ==>
               t[i].keys[j] == Date || t[i].keys[j] == Unit || t[i].keys[j] == ColumnName(k) ||
               (i < |rows| && t[i].keys[j] in rows[i].keys)
    ensures Writable(t)
  {
    var m, m' := MaxSampleIndex(rows), MaxSampleIndex(t);
    MaxSampleIndexGrows(rows, t, m, m');
    ColumnNameRoundTrip(k);
    forall i, j | 0 <= i < |t| && 0 <= j < |t[i].keys|
      ensures t[i].keys[j] in TableHeader(t)
    {
      var c := t[i].keys[j];
      if c == Date || c == Unit {
        HeaderUpToHas(m', 0);
      } else if c == ColumnName(k) {
        assert k <= m';
        HeaderUpToHas(m', k);
      } else {
        var j2 :| 0 <= j2 < |rows[i].keys| && rows[i].keys[j2] == c;
        HeaderUpToMonotone(m, m', c);
      }
    }
  }

  /** The keys of the table after a sample for a date already present: every
      old key is kept, and the only new one is the sample column. */
  lemma ExistingDateKeys(rows: seq<Record>, date: string, unit: string, price: real, i: nat)
    requires FindDate(rows, date) == Some(i)
    ensures var t, col := Appended(rows, date, unit, price), ColumnName(CountSampleKeys(rows[i].keys) + 1);
      && |t| == |rows|
      && (forall i', j :: 0 <= i' < |rows| && 0 <= j < |rows[i'].keys| ==> rows[i'].keys[j] in t[i'].keys)
      && (forall i', j :: 0 <= i' < |t| && 0 <= j < |t[i'].keys| ==>
            t[i'].keys[j] == Date || t[i'].keys[j] == Unit || t[i'].keys[j] == col ||
            (i' < |rows| && t[i'].keys[j] in rows[i'].keys))
  {
    var t, col := Appended(rows, date, unit, price), ColumnName(CountSampleKeys(rows[i].keys) + 1);
    ExistingDateGainsSample(rows, date, unit, price, i);
    var extra := if Has(rows[i], col) then [] else [col];
    assert t[i].keys == rows[i].keys + extra;
    forall i', j | 0 <= i' < |rows| && 0 <= j < |rows[i'].keys|
      ensures rows[i'].keys[j] in t[i'].keys
    {
      if i' == i {
        assert t[i].keys[j] == rows[i].keys[j];
      }
    }
    forall i', j | 0 <= i' < |t| && 0 <= j < |t[i'].keys|
      ensures t[i'].keys[j] == col || (i' < |rows| && t[i'].keys[j] in rows[i'].keys)
    {
      if i' == i && j >= |rows[i].keys| {
        assert t[i].keys[j] == extra[j - |rows[i].keys|];
      } else if i' == i {
        assert t[i].keys[j] == rows[i].keys[j];
      }
    }
  }

  lemma ExistingDateStaysWritable(rows: seq<Record>, date: string, unit: string, price: real, i: nat)
    requires Writable(rows) && FindDate(rows, date) == Some(i)
    ensures Writable(Appended(rows, date, unit, price))
  {
    var t, k := Appended(rows, date, unit, price), CountSampleKeys(rows[i].keys) + 1;
    AppendedReadable(rows, date, unit, price);
    ExistingDateKeys(rows, date, unit, price, i);
    assert |rows| <= |t|;
    assert forall i', j :: 0 <= i' < |t| && 0 <= j < |t[i'].keys| ==>
      t[i'].keys[j] == Date || t[i'].keys[j] == Unit || t[i'].keys[j] == ColumnName(k) ||
      (i' < |rows| && t[i'].keys[j] in rows[i'].keys);
    GrownStaysWritable(rows, t, k);
  }

  /** Appending a row with keys `a, b, c` keeps every old key and adds only those three. */
  lemma SnocKeys(rows: seq<Record>, r: Record, a: string, b: string, c: string)
    requires r.keys == [a, b, c]
    ensures var t := rows + [r];
      && (forall i, j :: 0 <= i < |rows| && 0 <= j < |rows[i].keys| ==> rows[i].keys[j] in t[i].keys)
      && (forall i, j :: 0 <= i < |t| && 0 <= j < |t[i].keys| ==>
            t[i].keys[j] == a || t[i].keys[j] == b || t[i].keys[j] == c ||
            (i < |rows| && t[i].keys[j] in rows[i].keys))
  {
  }

  lemma NewDateKeys(rows: seq<Record>, date: string, unit: string, price: real)
    requires FindDate(rows, date).None?
    ensures var t := Appended(rows, date, unit, price);
      && |rows| <= |t|
      && (forall i, j :: 0 <= i < |rows| && 0 <= j < |rows[i].keys| ==> rows[i].keys[j] in t[i].keys)
      && (forall i, j :: 0 <= i < |t| && 0 <= j < |t[i].keys| ==>
            t[i].keys[j] == Date || t[i].keys[j] == Unit || t[i].keys[j] == ColumnName(1) ||
            (i < |rows| && t[i].keys[j] in rows[i].keys))
  {
    var r := WithSample(DateRow(date, unit), price);
    assert Appended(rows, date, unit, price) == rows + [r];
    NewDateRowKeys(date, unit, price);
    SnocKeys(rows, r, Date, Unit, ColumnName(1));
  }

  lemma NewDateStaysWritable(rows: seq<Record>, date: string, unit: string, price: real)
    requires Writable(rows) && FindDate(rows, date).None?
    ensures Writable(Appended(rows, date, unit, price))
  {
    AppendedReadable(rows, date, unit, price);
    NewDateKeys(rows, date, unit, price);
    GrownStaysWritable(rows, Appended(rows, date, unit, price), 1);
  }

  /** Appending a sample keeps the table writable. */
  lemma AppendedStaysWritable(rows: seq<Record>, date: string, unit: string, price: real)
    requires Writable(rows)
    ensures Writable(Appended(rows, date, unit, price))
  {
    match FindDate(rows, date) {
      case Some(i) => ExistingDateStaysWritable(rows, date, unit, price, i);
      case None => NewDateStaysWritable(rows, date, unit, price);
    }
  }

  // ---------------------------------------------------------------- read back

  /** A row as `csv.DictReader` returns it from the written table: it has
      every header column, in header order, a missing one as an empty string. */
  function ReadRow(row: Record, header: seq<string>): Record {
    Record(header, ReadFields(row, header))
  }

  function ReadFields(row: Record, header: seq<string>): map<string, Value> {
    if header == [] then map[]
    else
      var k := header[|header| - 1];
      ReadFields(row, header[..|header| - 1])[k := if Has(row, k) then row.fields[k] else Str("")]
  }

  function ReadBack(rows: seq<Record>, header: seq<string>): (r: seq<Record>)
    ensures |r| == |rows| && forall i :: 0 <= i < |r| ==> r[i] == ReadRow(rows[i], header)
  {
    seq(|rows|, i requires 0 <= i < |rows| => ReadRow(rows[i], header))
  }

  lemma {:induction false} CountHeaderUpTo(m: nat)
    ensures CountSampleKeys(HeaderUpTo(m)) == m
  {
    if m == 0 {
      DateAndUnitAreNotSamples();
      assert [Date, Unit][..1] == [Date] && [Date][..0] == [];
    } else {
      CountHeaderUpTo(m - 1);
      ColumnNameRoundTrip(m);
      CountSampleKeysAppend(HeaderUpTo(m - 1), [ColumnName(m)]);
      assert [ColumnName(m)][..0] == [];
    }
  }

  lemma NextColumnOfFirstRow(rows: seq<Record>, date: string, unit: string, price: real, i: nat, n: nat)
    requires i < |rows| && Get(rows[i], Date) == Some(Str(date))
    requires forall j :: 0 <= j < i ==> Get(rows[j], Date) != Some(Str(date))
    requires CountSampleKeys(rows[i].keys) == n
    ensures Get(Appended(rows, date, unit, price)[i], ColumnName(n + 1)) == Some(Num(price))
  {
    FindDateFirst(rows, date, i);
    WithSampleGet(rows[i], price, n);
  }

  lemma {:induction false} ReadRowGet(row: Record, header: seq<string>, k: string)
    ensures Get(ReadRow(row, header), k) ==
      if k !in header then None else if Has(row, k) then Get(row, k) else Some(Str(""))
  {
    if header != [] {
      var h' := header[..|header| - 1];
      assert header == h' + [header[|header| - 1]];
      ReadRowGet(row, h', k);
    }
  }

  /** What `csv.DictReader` returns for `rows` written under `header`, stated
      by lookups: every row has exactly the header's columns, a column the
      written row lacked reads as an empty string. */
  ghost predicate IsReadBack(back: seq<Record>, rows: seq<Record>, header: seq<string>) {
    && |back| == |rows|
    && forall i :: 0 <= i < |rows| ==>
         && back[i].keys == header
         && forall k :: Get(back[i], k) ==
              if k !in header then None else if Has(rows[i], k) then Get(rows[i], k) else Some(Str(""))
  }

  lemma ReadBackIsReadBack(rows: seq<Record>, header: seq<string>)
    ensures IsReadBack(ReadBack(rows, header), rows, header)
  {
    forall i, k | 0 <= i < |rows|
      ensures Get(ReadBack(rows, header)[i], k) ==
        if k !in header then None else if Has(rows[i], k) then Get(rows[i], k) else Some(Str(""))
    {
      ReadRowGet(rows[i], header, k);
    }
  }

  /** Reading back keeps each row's date. */
  lemma ReadBackDates(back: seq<Record>, rows: seq<Record>, header: seq<string>, i: nat)
    requires IsReadBack(back, rows, header) && Date in header && i < |rows|
    requires Has(rows[i], Date)
    ensures Get(back[i], Date) == Get(rows[i], Date)
    ensures forall j :: 0 <= j < |rows| ==> Get(back[j], Date) == Get(rows[j], Date) || !Has(rows[j], Date)
  {
  }

  /** Once the table has been written and read back, every row carries every
      header column `date, unit, p_01 .. p_n`, blank ones included, `n` being
      the largest index of all rows; so the first row for a date already
      present has `n` sample keys and its next sample goes to `p_{n+1}`, not
      one past the samples of that date. */
  lemma ReadBackNextColumn(rows: seq<Record>, back: seq<Record>, n: nat, date: string, unit: string, price: real, i: nat)
    requires Readable(rows) && n == MaxSampleIndex(rows)
    requires IsReadBack(back, rows, HeaderUpTo(n))
    requires i < |rows| && Get(rows[i], Date) == Some(Str(date))
    requires forall j :: 0 <= j < i ==> Get(rows[j], Date) != Some(Str(date))
    ensures CountSampleKeys(back[i].keys) == n
    ensures Get(Appended(back, date, unit, price)[i], ColumnName(n + 1)) == Some(Num(price))
  {
    HeaderUpToHas(n, 0);
    CountHeaderUpTo(n);
    ReadBackDates(back, rows, HeaderUpTo(n), i);
    NextColumnOfFirstRow(back, date, unit, price, i, n);
  }

  // ---------------------------------------------------------------- numbering

  /** The row holds a sample under `c`: the key is present and not blank. */
  predicate Filled(row: Record, c: string) {
    Has(row, c) && row.fields[c] != Str("")
  }

  /** The samples of the row are exactly `p_01` to `p_k`: each of those is
      filled, and every filled sample key has an index from 1 to k. */
  ghost predicate Contiguous(row: Record, k: nat) {
    && (forall j :: FilledSampleAt(row, j) ==> 1 <= SampleIndex(row.keys[j]) <= k)
    && (forall n :: 1 <= n <= k ==> Filled(row, ColumnName(n)))
  }

  /** The `j`-th key of the row is an indexed sample key holding a sample. */
  predicate FilledSampleAt(row: Record, j: int) {
    0 <= j < |row.keys| && IsSampleKey(row.keys[j]) && HasIndex(row.keys[j]) && Filled(row, row.keys[j])
  }

  /** After read-back the row of a date holds p_01 .. p_max, max being the
      largest index of the table; when that date has only k < max samples,
      its next sample goes to p_{max+1} and p_{k+1} stays blank, so its
      samples are no longer contiguous. */
  lemma ReadBackLeavesGap(rows: seq<Record>, back: seq<Record>, n: nat, date: string, unit: string, price: real, i: nat, k: nat)
    requires Readable(rows) && n == MaxSampleIndex(rows)
    requires IsReadBack(back, rows, HeaderUpTo(n))
    requires i < |rows| && Get(rows[i], Date) == Some(Str(date))
    requires forall j :: 0 <= j < i ==> Get(rows[j], Date) != Some(Str(date))
    requires WellFormed(rows[i]) && Contiguous(rows[i], k) && k < n
    ensures var r := Appended(back, date, unit, price)[i];
      && Get(r, ColumnName(n + 1)) == Some(Num(price))
      && !Filled(r, ColumnName(k + 1))
  {
    HeaderUpToHas(n, 0);
    ReadBackDates(back, rows, HeaderUpTo(n), i);
    FindDateFirst(back, date, i);
    GapRowAfterReadBack(rows[i], back[i], n, k, price);
  }

  /** The row-level step of `ReadBackLeavesGap`. */
  lemma GapRowAfterReadBack(row: Record, b: Record, n: nat, k: nat, price: real)
    requires b.keys == HeaderUpTo(n)
    requires forall c :: Get(b, c) == if c !in HeaderUpTo(n) then None else if Has(row, c) then Get(row, c) else Some(Str(""))
    requires WellFormed(row) && Contiguous(row, k) && k < n
    ensures Get(WithSample(b, price), ColumnName(n + 1)) == Some(Num(price))
    ensures !Filled(WithSample(b, price), ColumnName(k + 1))
  {
    var c := ColumnName(k + 1);
    NotFilledPast(row, k);
    BlankAfterReadBack(row, b, HeaderUpTo(n), c);
    CountHeaderUpTo(n);
    ColumnNameDiffers(k + 1, n + 1);
    WithSampleGet(b, price, n);
    WithSampleKeepsOther(b, price, n, c);
  }

  /** A column the written row did not fill reads back unfilled. */
  lemma BlankAfterReadBack(row: Record, b: Record, header: seq<string>, c: string)
    requires forall k :: Get(b, k) == if k !in header then None else if Has(row, k) then Get(row, k) else Some(Str(""))
    requires !Filled(row, c)
    ensures !Filled(b, c)
  {
    assert Get(b, c) == if c !in header then None else if Has(row, c) then Get(row, c) else Some(Str(""));
  }

  lemma WithSampleKeepsOther(row: Record, price: real, n: nat, c: string)
    requires CountSampleKeys(row.keys) == n && c != ColumnName(n + 1)
    ensures Get(WithSample(row, price), c) == Get(row, c)
  {
  }

  /** A contiguous row does not fill the column just past its last sample. */
  lemma NotFilledPast(row: Record, k: nat)
    requires WellFormed(row) && Contiguous(row, k)
    ensures !Filled(row, ColumnName(k + 1))
  {
    ColumnNameRoundTrip(k + 1);
  }

  lemma ColumnNameDiffers(a: nat, b: nat)
    requires a != b
    ensures ColumnName(a) != ColumnName(b)
  {
    if ColumnName(a) == ColumnName(b) {
      ColumnNameInjective(a, b);
    }
  }

  /** The largest index among the row's filled sample keys, or 0. */
  function MaxFilledIn(row: Record, keys: seq<string>): (m: nat)
    requires forall j :: 0 <= j < |keys| ==> HasIndex(keys[j])
    ensures forall j :: 0 <= j < |keys| && IsSampleKey(keys[j]) && Filled(row, keys[j]) ==>
              SampleIndex(keys[j]) <= m
    ensures m == 0 || exists j :: 0 <= j < |keys| && IsSampleKey(keys[j]) && Filled(row, keys[j]) && SampleIndex(keys[j]) == m
  {
    if keys == [] then 0
    else
      var m := MaxFilledIn(row, keys[..|keys| - 1]);
      var c := keys[|keys| - 1];
      if IsSampleKey(c) && Filled(row, c) && SampleIndex(c) > m then SampleIndex(c) else m
  }

  /** The intended next column: one past the largest filled sample index of
      the row, blanks not counted. */
  function WithSampleIntended(row: Record, price: real): Record
    requires forall j :: 0 <= j < |row.keys| ==> HasIndex(row.keys[j])
  {
    Set(row, ColumnName(MaxFilledIn(row, row.keys) + 1), Num(price))
  }

  /** `Appended` with the intended numbering. */
  function AppendedIntended(rows: seq<Record>, date: string, unit: string, price: real): seq<Record>
    requires Readable(rows)
  {
    match FindDate(rows, date)
    case Some(i) => rows[i := WithSampleIntended(rows[i], price)]
    case None =>
      DateRowShape(date, unit);
      DateAndUnitAreNotSamples();
      rows + [WithSampleIntended(DateRow(date, unit), price)]
  }

  /** A contiguous row's largest filled index is its sample count. */
  lemma MaxFilledOfContiguous(row: Record, k: nat)
    requires WellFormed(row) && forall j :: 0 <= j < |row.keys| ==> HasIndex(row.keys[j])
    requires Contiguous(row, k)
    ensures MaxFilledIn(row, row.keys) == k
  {
    MaxFilledAtLeast(row, k);
    MaxFilledAtMost(row, k);
  }

  /** When p_01 .. p_k are filled, the largest filled index is at least k. */
  lemma MaxFilledAtLeast(row: Record, k: nat)
    requires WellFormed(row) && forall j :: 0 <= j < |row.keys| ==> HasIndex(row.keys[j])
    requires forall n :: 1 <= n <= k ==> Filled(row, ColumnName(n))
    ensures k <= MaxFilledIn(row, row.keys)
  {
    if k >= 1 {
      var c := ColumnName(k);
      ColumnNameRoundTrip(k);
      assert Filled(row, c);
      var j :| 0 <= j < |row.keys| && row.keys[j] == c;
      assert SampleIndex(row.keys[j]) <= MaxFilledIn(row, row.keys);
    }
  }

  /** When no filled sample index exceeds k, neither does the largest. */
  lemma MaxFilledAtMost(row: Record, k: nat)
    requires forall j :: 0 <= j < |row.keys| ==> HasIndex(row.keys[j])
    requires forall j :: FilledSampleAt(row, j) ==> 1 <= SampleIndex(row.keys[j]) <= k
    ensures MaxFilledIn(row, row.keys) <= k
  {
    var m := MaxFilledIn(row, row.keys);
    if m > 0 {
      var j :| 0 <= j < |row.keys| && IsSampleKey(row.keys[j]) && Filled(row, row.keys[j]) && SampleIndex(row.keys[j]) == m;
      assert FilledSampleAt(row, j);
    }
  }

  /** With the intended numbering a row holding p_01 .. p_k gains p_{k+1},
      which was absent or blank, keeps every other value, and then holds
      exactly p_01 .. p_{k+1}: no gap and no overwrite. */
  lemma IntendedSampleContiguous(row: Record, k: nat, price: real)
    requires WellFormed(row) && forall j :: 0 <= j < |row.keys| ==> HasIndex(row.keys[j])
    requires Contiguous(row, k)
    ensures !Filled(row, ColumnName(k + 1))
    ensures var r := WithSampleIntended(row, price);
      && WellFormed(r)
      && Get(r, ColumnName(k + 1)) == Some(Num(price))
      && (forall c :: c != ColumnName(k + 1) ==> Get(r, c) == Get(row, c))
      && Contiguous(r, k + 1)
  {
    IntendedIsNext(row, k, price);
    NotFilledPast(row, k);
    SetNextFillsUpTo(row, k, price);
    SetNextIndicesBounded(row, k, price, Set(row, ColumnName(k + 1), Num(price)));
  }

  /** On a contiguous row the intended numbering writes p_{k+1}. */
  lemma IntendedIsNext(row: Record, k: nat, price: real)
    requires WellFormed(row) && forall j :: 0 <= j < |row.keys| ==> HasIndex(row.keys[j])
    requires Contiguous(row, k)
    ensures WithSampleIntended(row, price) == Set(row, ColumnName(k + 1), Num(price))
  {
    MaxFilledOfContiguous(row, k);
  }

  /** After p_{k+1} is set, p_01 .. p_{k+1} are all filled. */
  lemma SetNextFillsUpTo(row: Record, k: nat, price: real)
    requires Contiguous(row, k)
    ensures forall n :: 1 <= n <= k + 1 ==> Filled(Set(row, ColumnName(k + 1), Num(price)), ColumnName(n))
  {
    var r := Set(row, ColumnName(k + 1), Num(price));
    forall n | 1 <= n <= k + 1
      ensures Filled(r, ColumnName(n))
    {
      if n <= k {
        ColumnNameDiffers(n, k + 1);
        assert Get(r, ColumnName(n)) == Get(row, ColumnName(n));
      }
    }
  }

  /** After p_{k+1} is set, every filled sample index is in 1 .. k+1. */
  lemma SetNextIndicesBounded(row: Record, k: nat, price: real, r: Record)
    requires Contiguous(row, k) && r == Set(row, ColumnName(k + 1), Num(price))
    ensures forall j :: FilledSampleAt(r, j) ==> 1 <= SampleIndex(r.keys[j]) <= k + 1
  {
    var col := ColumnName(k + 1);
    ColumnNameRoundTrip(k + 1);
    forall j | FilledSampleAt(r, j)
      ensures 1 <= SampleIndex(r.keys[j]) <= k + 1
    {
      if r.keys[j] != col {
        assert j < |row.keys| && row.keys[j] == r.keys[j];
        assert Get(r, r.keys[j]) == Get(row, r.keys[j]);
        assert FilledSampleAt(row, j);
      }
    }
  }

  /** The table with the intended numbering: the first row for the date, when
      it holds p_01 .. p_k, ends holding exactly p_01 .. p_{k+1} with every
      earlier sample kept, and no other row changes. `AppendedIntendedNewDate`
      states the case of a new date. */
  lemma AppendedIntendedContiguous(rows: seq<Record>, date: string, unit: string, price: real, i: nat, k: nat)
    requires Readable(rows)
    requires i < |rows| && Get(rows[i], Date) == Some(Str(date))
    requires forall j :: 0 <= j < i ==> Get(rows[j], Date) != Some(Str(date))
    requires WellFormed(rows[i]) && Contiguous(rows[i], k)
    ensures var t := AppendedIntended(rows, date, unit, price);
      && |t| == |rows|
      && (forall j :: 0 <= j < |rows| && j != i ==> t[j] == rows[j])
      && Get(t[i], ColumnName(k + 1)) == Some(Num(price))
      && (forall n :: 1 <= n <= k ==> Get(t[i], ColumnName(n)) == Get(rows[i], ColumnName(n)))
      && Contiguous(t[i], k + 1)
  {
    FindDateFirst(rows, date, i);
    assert ReadableRow(rows[i]);
    IntendedSampleContiguous(rows[i], k, price);
    forall n | 1 <= n <= k
      ensures ColumnName(n) != ColumnName(k + 1)
    {
      ColumnNameDiffers(n, k + 1);
    }
  }

  /** A new date's row holds no sample yet: it is contiguous with k = 0. */
  lemma DateRowContiguous(date: string, unit: string)
    ensures var d := DateRow(date, unit);
      && WellFormed(d) && (forall j :: 0 <= j < |d.keys| ==> HasIndex(d.keys[j]))
      && Contiguous(d, 0)
  {
    var d := DateRow(date, unit);
    DateRowKeys(date, unit);
    DateAndUnitAreNotSamples();
    assert WellFormed(Empty);
    assert forall j :: 0 <= j < |d.keys| ==> !IsSampleKey(d.keys[j]);
  }

  /** With the intended numbering a new date gets a row appended that holds
      the date, the unit and exactly p_01; no earlier row changes. */
  lemma AppendedIntendedNewDate(rows: seq<Record>, date: string, unit: string, price: real)
    requires Readable(rows) && FindDate(rows, date).None?
    ensures var t := AppendedIntended(rows, date, unit, price);
      && |t| == |rows| + 1 && t[..|rows|] == rows
      && Get(t[|rows|], Date) == Some(Str(date))
      && Get(t[|rows|], Unit) == Some(Str(unit))
      && Get(t[|rows|], ColumnName(1)) == Some(Num(price))
      && Contiguous(t[|rows|], 1)
  {
    var d := DateRow(date, unit);
    DateRowKeys(date, unit);
    DateRowContiguous(date, unit);
    DateAndUnitAreNotSamples();
    ColumnNameRoundTrip(1);
    IntendedSampleContiguous(d, 0, price);
    assert Date != ColumnName(1) && Unit != ColumnName(1);
  }

  /** Writing a contiguous row and reading it back under a header that names
      all its keys keeps it contiguous: the blanks read back are not samples. */
  lemma ReadRowContiguous(row: Record, header: seq<string>, k: nat)
    requires WellFormed(row) && Contiguous(row, k)
    requires forall j :: 0 <= j < |row.keys| ==> row.keys[j] in header
    ensures Contiguous(ReadRow(row, header), k)
  {
    var b := ReadRow(row, header);
    forall c
      ensures Filled(b, c) <==> Filled(row, c)
    {
      ReadRowGet(row, header, c);
      if Has(row, c) {
        var j :| 0 <= j < |row.keys| && row.keys[j] == c;
      }
    }
    forall j | FilledSampleAt(b, j)
      ensures 1 <= SampleIndex(b.keys[j]) <= k
    {
      var c := b.keys[j];
      var j' :| 0 <= j' < |row.keys| && row.keys[j'] == c;
      assert FilledSampleAt(row, j');
    }
  }
}
