/**
  The read side of script.js: the helpers that turn the JSON stores into the
  dashboard's tables. A JavaScript row object is a `Record`; a property that
  is undefined is an absent key. Fetching, the DOM and HTML building are
  left out.
*/
module Dashboard {
  import opened Wrappers
  import opened Records
  import opened Sequences

  const Date := "date"
  const Purity := "purity"

  // ---------------------------------------------------------------- last7

  function Min(a: int, b: int): int {
    if a < b then a else b
  }

  /** `data.slice(-7).reverse()`: the newest seven entries, newest first. */
  function Last7<T>(data: seq<T>): (r: seq<T>)
    ensures |r| == Min(7, |data|)
    ensures forall i :: 0 <= i < |r| ==> r[i] == data[|data| - 1 - i]
  {
    Reverse(data[|data| - Min(7, |data|)..])
  }

  // ---------------------------------------------------------------- priceClass

  /** The CSS class of a close cell: "up", "down" or "same". */
  datatype Class = Up | Down | Same

  /** `priceClass(curr, prev)` on numbers; `None` is `undefined`, for which
      both comparisons are false. */
  function PriceClass(curr: Option<real>, prev: Option<real>): (c: Class)
    ensures c == Up <==> curr.Some? && prev.Some? && curr.value > prev.value
    ensures c == Down <==> curr.Some? && prev.Some? && curr.value < prev.value
    ensures c == Same <==> prev.None? || curr.None? || curr.value == prev.value
  {
    if prev.None? then Same
    else if curr.Some? && curr.value > prev.value then Up
    else if curr.Some? && curr.value < prev.value then Down
    else Same
  }

  /** Swapping the two closes swaps "up" and "down". */
  lemma PriceClassSwap(a: Option<real>, b: Option<real>)
    ensures PriceClass(a, b) == Up <==> PriceClass(b, a) == Down
    ensures PriceClass(a, b) == Same <==> PriceClass(b, a) == Same
  {
  }

  /** A close as the renderers read it: `r.close`, a number or undefined. */
  predicate CloseIsNumeric(r: Record) {
    Get(r, Close).None? || Get(r, Close).value.Num?
  }

  function CloseOf(r: Record): Option<real>
    requires CloseIsNumeric(r)
  {
    match Get(r, Close)
    case None => None
    case Some(v) => Some(v.n)
  }

  /** The close of the row after `i`, `rows[i + 1]?.close`. */
  function NextClose(rows: seq<Record>, i: nat): Option<real>
    requires forall j :: 0 <= j < |rows| ==> CloseIsNumeric(rows[j])
  {
    if i + 1 < |rows| then CloseOf(rows[i + 1]) else None
  }

  /** The renderers' loop: every row's close is compared with the close of
      the row after it (the previous day, rows being newest first). */
  method RowClasses(rows: seq<Record>) returns (classes: seq<Class>)
    requires forall j :: 0 <= j < |rows| ==> CloseIsNumeric(rows[j])
    ensures |classes| == |rows|
    ensures forall i :: 0 <= i < |rows| ==> classes[i] == PriceClass(CloseOf(rows[i]), NextClose(rows, i))
  {
    classes := [];
    for i := 0 to |rows|
      invariant |classes| == i
      invariant forall j :: 0 <= j < i ==> classes[j] == PriceClass(CloseOf(rows[j]), NextClose(rows, j))
    {
      var prevClose := if i + 1 < |rows| then CloseOf(rows[i + 1]) else None;
      classes := classes + [PriceClass(CloseOf(rows[i]), prevClose)];
    }
  }

  /** The oldest row shown is always "same"; any other row is "up" exactly
      when both closes are numbers and its close exceeds the next row's. */
  lemma RowClassFacts(rows: seq<Record>, i: nat)
    requires forall j :: 0 <= j < |rows| ==> CloseIsNumeric(rows[j])
    requires i < |rows|
    ensures i == |rows| - 1 ==> PriceClass(CloseOf(rows[i]), NextClose(rows, i)) == Same
    ensures PriceClass(CloseOf(rows[i]), NextClose(rows, i)) == Up <==>
      i + 1 < |rows| && Get(rows[i], Close).Some? && Get(rows[i + 1], Close).Some? &&
      Get(rows[i], Close).value.n > Get(rows[i + 1], Close).value.n
  {
  }

  // ---------------------------------------------------------------- normalizeOHLC

  /** The close `normalizeOHLC` settles on: the stored close, else the
      per-gram price, else the per-kg price, all unscaled. */
  function FilledClose(row: Record): Option<Value> {
    if Has(row, Close) then Get(row, Close)
    else if Has(row, PerGram) then Get(row, PerGram)
    else Get(row, PerKg)
  }

  /** `if (row.f === undefined) row.f = v`, skipping the assignment of
      `undefined` itself. */
  function FillIfAbsent(row: Record, f: string, v: Option<Value>): (r: Record)
    ensures Get(r, f) == if Has(row, f) then Get(row, f) else v
    ensures forall j :: j != f ==> Get(r, j) == Get(row, j)
    ensures r.keys == if Has(row, f) || v.None? then row.keys else row.keys + [f]
  {
    if Has(row, f) || v.None? then row else Set(row, f, v.value)
  }

  /** The row after `normalizeOHLC`. */
  function NormalizedOHLC(row: Record): (r: Record) {
    var c := FilledClose(row);
    FillIfAbsent(FillIfAbsent(FillIfAbsent(FillIfAbsent(row, Close, c), Open, c), High, c), Low, c)
  }

  /** Close is filled first from the per-gram then the per-kg price, without
      scaling; open, high and low that are missing get the close; fields
      already present and every other field are unchanged. */
  lemma NormalizedOHLCFields(row: Record)
    ensures var r := NormalizedOHLC(row);
      && Get(r, Close) == FilledClose(row)
      && (forall f :: f == Open || f == High || f == Low ==>
            Get(r, f) == if Has(row, f) then Get(row, f) else FilledClose(row))
      && (forall f :: !IsOHLCField(f) ==> Get(r, f) == Get(row, f))
      && (forall f :: Has(row, f) ==> Get(r, f) == Get(row, f))
  {
    var c := FilledClose(row);
    var r1 := FillIfAbsent(row, Close, c);
    var r2 := FillIfAbsent(r1, Open, c);
    var r3 := FillIfAbsent(r2, High, c);
    assert Get(r3, Close) == c;
  }

  /** When the row has any close source, all four prices end defined. */
  lemma NormalizedOHLCComplete(row: Record)
    requires Has(row, Close) || Has(row, PerGram) || Has(row, PerKg)
    ensures forall f :: IsOHLCField(f) ==> Has(NormalizedOHLC(row), f)
  {
    NormalizedOHLCFields(row);
  }

  /** Normalizing a normalized row changes nothing. */
  lemma NormalizedOHLCIdempotent(row: Record)
    ensures NormalizedOHLC(NormalizedOHLC(row)) == NormalizedOHLC(row)
  {
    var r := NormalizedOHLC(row);
    NormalizedOHLCFields(row);
    NormalizedOHLCFields(r);
    assert FilledClose(r) == FilledClose(row);
    if Has(r, Close) {
      assert forall f :: IsOHLCField(f) ==> Has(r, f);
    }
    Extensionality(NormalizedOHLC(r), r);
  }

  /** `normalizeOHLC(row)`: the assignments in the order the source makes them. */
  method NormalizeOHLC(row: Record) returns (r: Record)
    ensures r == NormalizedOHLC(row)
  {
    r := row;
    if !Has(r, Close) {
      if Has(r, PerGram) {
        r := Set(r, Close, r.fields[PerGram]);
      } else if Has(r, PerKg) {
        r := Set(r, Close, r.fields[PerKg]);
      }
    }
    var c := Get(r, Close);
    if !Has(r, Open) && c.Some? {
      r := Set(r, Open, c.value);
    }
    if !Has(r, High) && c.Some? {
      r := Set(r, High, c.value);
    }
    if !Has(r, Low) && c.Some? {
      r := Set(r, Low, c.value);
    }
  }

  // ---------------------------------------------------------------- dedupeByDateAndPurity

  /** The dedupe key reads `date` and `purity` as text (or absent). */
  predicate KeyFieldsAreText(r: Record) {
    && (Get(r, Date).None? || Get(r, Date).value.Str?)
    && (Get(r, Purity).None? || Get(r, Purity).value.Str?)
  }

  /** `r.date + "_" + (r.purity || "")`: an undefined date prints as
      "undefined", an undefined or empty purity as nothing. */
  function DedupeKey(r: Record): string
    requires KeyFieldsAreText(r)
  {
    var date := match Get(r, Date) case None => "undefined" case Some(v) => v.s;
    var purity := match Get(r, Purity) case None => "" case Some(v) => v.s;
    date + "_" + purity
  }

  ghost predicate AllKeyed(rows: seq<Record>) {
    forall i :: 0 <= i < |rows| ==> KeyFieldsAreText(rows[i])
  }

  /** The dedupe key of every row, in row order. */
  function Keys(rows: seq<Record>): (ks: seq<string>)
    requires AllKeyed(rows)
    ensures |ks| == |rows|
  {
    if rows == [] then [] else Keys(rows[..|rows| - 1]) + [DedupeKey(rows[|rows| - 1])]
  }

  lemma {:induction false} KeysAt(rows: seq<Record>, i: nat)
    requires AllKeyed(rows) && i < |rows|
    ensures Keys(rows)[i] == DedupeKey(rows[i])
  {
    if i < |rows| - 1 {
      KeysAt(rows[..|rows| - 1], i);
    }
  }

  /** One row per key, the last row with that key, keys in the order they
      first occur. */
  function Deduped(rows: seq<Record>): seq<Record>
    requires AllKeyed(rows)
  {
    LastWins(Keys(rows), rows)
  }

  /** The dedupe keeps at most as many rows as the input, each an input row
      that no later input row shares its key with: the last one wins. */
  lemma DedupedLastWins(rows: seq<Record>)
    requires AllKeyed(rows)
    ensures var out := Deduped(rows);
      && |out| <= |rows|
      && (forall i :: 0 <= i < |out| ==> out[i] in rows)
      && (forall i :: 0 <= i < |out| ==>
            exists j :: 0 <= j < |rows| && out[i] == rows[j] &&
              forall k :: j < k < |rows| ==> DedupeKey(rows[k]) != DedupeKey(rows[j]))
  {
    var out, ks := Deduped(rows), Keys(rows);
    forall i | 0 <= i < |out|
      ensures exists j :: 0 <= j < |rows| && out[i] == rows[j] &&
                forall k :: j < k < |rows| ==> DedupeKey(rows[k]) != DedupeKey(rows[j])
    {
      var j := LastIndex(ks, FirstSeen(ks)[i]);
      KeysAt(rows, j);
      forall k | j < k < |rows|
        ensures DedupeKey(rows[k]) != DedupeKey(rows[j])
      {
        KeysAt(rows, k);
      }
    }
  }

  /** The output's keys are the input's keys, each once, in the order of
      their first occurrence. */
  lemma DedupedKeys(rows: seq<Record>)
    requires AllKeyed(rows)
    ensures var out := Deduped(rows);
      && AllKeyed(out)
      && Keys(out) == FirstSeen(Keys(rows))
      && Distinct(Keys(out))
      && (forall i :: 0 <= i < |rows| ==> DedupeKey(rows[i]) in Keys(out))
  {
    var out, ks := Deduped(rows), Keys(rows);
    var order := FirstSeen(ks);
    assert AllKeyed(out) by {
      forall i | 0 <= i < |out|
        ensures KeyFieldsAreText(out[i])
      {
        assert out[i] == rows[LastIndex(ks, order[i])];
      }
    }
    forall i | 0 <= i < |out|
      ensures Keys(out)[i] == order[i]
    {
      var j := LastIndex(ks, order[i]);
      KeysAt(rows, j);
      KeysAt(out, i);
    }
    Extensional(Keys(out), order);
    forall i | 0 <= i < |rows|
      ensures DedupeKey(rows[i]) in Keys(out)
    {
      KeysAt(rows, i);
    }
  }

  /** Keys kept earlier first occur earlier in the input. */
  lemma DedupedOrder(rows: seq<Record>, i: nat, j: nat)
    requires AllKeyed(rows)
    requires i < j < |Deduped(rows)|
    ensures AllKeyed(Deduped(rows))
    ensures Keys(Deduped(rows))[i] in Keys(rows) && Keys(Deduped(rows))[j] in Keys(rows)
    ensures FirstIndex(Keys(rows), Keys(Deduped(rows))[i]) < FirstIndex(Keys(rows), Keys(Deduped(rows))[j])
  {
    DedupedKeys(rows);
    FirstSeenOrder(Keys(rows), i, j);
    FirstSeenHas(Keys(rows), Keys(Deduped(rows))[i]);
    FirstSeenHas(Keys(rows), Keys(Deduped(rows))[j]);
  }

  /** The `forEach` filling the key-to-row object: its keys in insertion
      order, and for each key the last row that had it. */
  method LatestByKey(rows: seq<Record>) returns (order: seq<string>, latest: map<string, Record>)
    requires AllKeyed(rows)
    ensures order == FirstSeen(Keys(rows))
    ensures forall k :: k in latest <==> k in Keys(rows)
    ensures forall k :: k in latest ==> latest[k] == rows[LastIndex(Keys(rows), k)]
  {
    ghost var ks := Keys(rows);
    order, latest := [], map[];
    for i := 0 to |rows|
      invariant order == FirstSeen(ks[..i])
      invariant forall k :: k in latest <==> k in ks[..i]
      invariant forall k :: k in latest ==> latest[k] == rows[LastIndex(ks[..i], k)]
    {
      var key := DedupeKey(rows[i]);
      KeysAt(rows, i);
      LastWinsStep(ks, rows, order, latest, i);
      if key !in latest {
        order := order + [key];
      }
      latest := latest[key := rows[i]];
    }
    TakeAll(ks);
  }

  /** `Object.values(map)`: the values of the keys in `order`, in that order. */
  method ValuesInOrder<K, V>(order: seq<K>, m: map<K, V>) returns (out: seq<V>)
    requires forall t :: 0 <= t < |order| ==> order[t] in m
    ensures |out| == |order| && forall t :: 0 <= t < |order| ==> out[t] == m[order[t]]
  {
    out := [];
    for j := 0 to |order|
      invariant |out| == j && forall t :: 0 <= t < j ==> out[t] == m[order[t]]
    {
      out := out + [m[order[j]]];
    }
  }

  /** `dedupeByDateAndPurity(rows)`: the object's values in key order. */
  method DedupeByDateAndPurity(rows: seq<Record>) returns (out: seq<Record>)
    requires AllKeyed(rows)
    ensures out == Deduped(rows)
  {
    var order, latest := LatestByKey(rows);
    forall t | 0 <= t < |order|
      ensures order[t] in latest
    {
      FirstSeenHas(Keys(rows), order[t]);
    }
    out := ValuesInOrder(order, latest);
    Extensional(out, Deduped(rows));
  }

  // ---------------------------------------------------------------- countdown

  /** What the countdown shows for `diffMs` milliseconds to the next run. */
  datatype Countdown = Delayed | Remaining(hours: nat, minutes: nat, seconds: nat)

  /** Quotient and remainder by 60 are the only ones with the remainder below 60. */
  lemma DivMod60(n: int, q: int, r: int)
    requires 0 <= r < 60 && n == q * 60 + r
    ensures n / 60 == q && n % 60 == r
  {
  }

  /** Quotient and remainder by 3600 are the only ones with the remainder below 3600. */
  lemma DivMod3600(n: int, q: int, r: int)
    requires 0 <= r < 3600 && n == q * 3600 + r
    ensures n / 3600 == q && n % 3600 == r
  {
  }

  /** The split of a number of seconds into hours, minutes below 60 and
      seconds below 60. */
  lemma SplitSeconds(total: nat)
    ensures (total / 3600) * 3600 + ((total % 3600) / 60) * 60 + total % 60 == total
    ensures (total % 3600) / 60 < 60
  {
    var q, r := total / 3600, total % 3600;
    var m, s := r / 60, r % 60;
    DivMod60(total, q * 60 + m, s);
  }

  /** The countdown callback's split of the remaining time. */
  function CountdownOf(diffMs: int): (c: Countdown)
    ensures c.Delayed? <==> diffMs <= 0
    ensures c.Remaining? ==> c.hours * 3600 + c.minutes * 60 + c.seconds == diffMs / 1000
    ensures c.Remaining? ==> c.minutes < 60 && c.seconds < 60
  {
    if diffMs <= 0 then Delayed
    else
      var totalSeconds := diffMs / 1000;
      SplitSeconds(totalSeconds);
      Remaining(totalSeconds / 3600, (totalSeconds % 3600) / 60, totalSeconds % 60)
  }

  /** The split is the only one with minutes and seconds below 60. */
  lemma CountdownUnique(diffMs: int, h: nat, m: nat, s: nat)
    requires diffMs > 0 && m < 60 && s < 60
    requires h * 3600 + m * 60 + s == diffMs / 1000
    ensures CountdownOf(diffMs) == Remaining(h, m, s)
  {
    var total := diffMs / 1000;
    DivMod3600(total, h, m * 60 + s);
    DivMod60(m * 60 + s, m, s);
  }
}
