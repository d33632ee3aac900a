/** Sequence helpers shared by the Python writer and the JavaScript reader. */
module Sequences {

  ghost predicate Distinct<T>(s: seq<T>) {
    forall i, j :: 0 <= i < j < |s| ==> s[i] != s[j]
  }

  /** Index of the first occurrence of `x` in `s`. */
  function FirstIndex<T(==)>(s: seq<T>, x: T): (k: nat)
    requires x in s
    ensures k < |s| && s[k] == x
    ensures forall j :: 0 <= j < k ==> s[j] != x
  {
    if s[0] == x then 0 else 1 + FirstIndex(s[1..], x)
  }

  /** The elements of `s` without repeats, each at the place it is first seen:
      what a loop computes that appends every element not yet collected. */
  function FirstSeen<T(==)>(s: seq<T>): (r: seq<T>)
    ensures Distinct(r)
    ensures forall i :: 0 <= i < |s| ==> s[i] in r
    ensures forall i :: 0 <= i < |r| ==> r[i] in s
    ensures |r| <= |s|
  {
    if s == [] then []
    else
      var p := FirstSeen(s[..|s| - 1]);
      if s[|s| - 1] in p then p else p + [s[|s| - 1]]
  }

  lemma FirstSeenHas<T>(s: seq<T>, x: T)
    ensures x in FirstSeen(s) <==> x in s
  {
    if x in s {
      var i :| 0 <= i < |s| && s[i] == x;
    }
    if x in FirstSeen(s) {
      var i :| 0 <= i < |FirstSeen(s)| && FirstSeen(s)[i] == x;
    }
  }

  /** Appending one element extends the result exactly as the collecting loop does. */
  lemma FirstSeenSnoc<T>(s: seq<T>, x: T)
    ensures FirstSeen(s + [x]) == if x in FirstSeen(s) then FirstSeen(s) else FirstSeen(s) + [x]
  {
    assert (s + [x])[..|s|] == s;
  }

  /** The prefix of length `i + 1` is the prefix of length `i` and `s[i]`. */
  lemma PrefixSnoc<T>(s: seq<T>, i: nat, x: T)
    requires i < |s| && s[i] == x
    ensures s[..i + 1] == s[..i] + [x]
  {
  }

  /** Extending a prefix of `b` by one element. */
  lemma AppendSlice<T>(a: seq<T>, b: seq<T>, j: nat)
    requires j < |b|
    ensures a + b[..j + 1] == (a + b[..j]) + [b[j]]
  {
    assert b[..j + 1] == b[..j] + [b[j]];
  }

  lemma {:induction false} FirstIndexOfPrefix<T>(s: seq<T>, t: seq<T>, x: T)
    requires x in s
    ensures x in s + t && FirstIndex(s + t, x) == FirstIndex(s, x)
  {
    if s[0] != x {
      assert (s + t)[1..] == s[1..] + t;
      FirstIndexOfPrefix(s[1..], t, x);
    }
  }

  /** The result keeps the order of first occurrence: an element collected
      earlier first occurs in `s` earlier. */
  lemma {:induction false} FirstSeenOrder<T>(s: seq<T>, i: nat, j: nat)
    requires i < j < |FirstSeen(s)|
    ensures FirstIndex(s, FirstSeen(s)[i]) < FirstIndex(s, FirstSeen(s)[j])
  {
    var s', x := s[..|s| - 1], s[|s| - 1];
    assert s == s' + [x];
    var p := FirstSeen(s');
    var a, b := FirstSeen(s)[i], FirstSeen(s)[j];
    assert a == p[i];
    FirstIndexOfPrefix(s', [x], a);
    if x in p {
      FirstIndexOfPrefix(s', [x], b);
      FirstSeenOrder(s', i, j);
    } else if j < |p| {
      FirstIndexOfPrefix(s', [x], b);
      FirstSeenOrder(s', i, j);
    } else {
      assert b == x && x !in s';
      assert FirstIndex(s, b) == |s'|;
    }
  }

  /** Index of the last occurrence of `x` in `s`. */
  function LastIndex<T(==)>(s: seq<T>, x: T): (k: nat)
    requires x in s
    ensures k < |s| && s[k] == x
    ensures forall j :: k < j < |s| ==> s[j] != x
  {
    if s[|s| - 1] == x then |s| - 1 else LastIndex(s[..|s| - 1], x)
  }

  lemma LastIndexSnoc<T>(s: seq<T>, x: T, y: T)
    requires y in s + [x]
    ensures LastIndex(s + [x], y) == if y == x then |s| else LastIndex(s, y)
  {
    assert (s + [x])[..|s|] == s;
  }

  /** `s` in reverse order. */
  function Reverse<T>(s: seq<T>): (r: seq<T>)
    ensures |r| == |s|
    ensures forall i :: 0 <= i < |s| ==> r[i] == s[|s| - 1 - i]
  {
    if s == [] then [] else [s[|s| - 1]] + Reverse(s[..|s| - 1])
  }

  /** Two sequences with the same length and the same elements are equal. */
  lemma Extensional<T>(a: seq<T>, b: seq<T>)
    requires |a| == |b| && forall i :: 0 <= i < |a| ==> a[i] == b[i]
    ensures a == b
  {
  }

  /** For each key, in the order keys first occur in `ks`, the element of
      `items` at the key's last occurrence. */
  function LastWins<K(==), R>(ks: seq<K>, items: seq<R>): (out: seq<R>)
    requires |ks| == |items|
    ensures |out| == |FirstSeen(ks)| <= |items|
    ensures forall i :: 0 <= i < |out| ==> out[i] == items[LastIndex(ks, FirstSeen(ks)[i])]
  {
    var order := FirstSeen(ks);
    seq(|order|, i requires 0 <= i < |order| => items[LastIndex(ks, order[i])])
  }

  lemma TakeAll<T>(s: seq<T>)
    ensures s[..|s|] == s
  {
  }

  lemma SnocPrefix<T>(s: seq<T>, x: T)
    ensures (s + [x])[..|s|] == s
  {
  }

  lemma ConcatDropLast<T>(a: seq<T>, b: seq<T>)
    requires b != []
    ensures (a + b)[..|a + b| - 1] == a + b[..|b| - 1]
  {
  }

  lemma UpdateLast<T>(s: seq<T>, x: T, y: T)
    ensures (s + [x])[|s| := y] == s + [y]
    ensures (s + [y])[..|s|] == s
  {
  }

  lemma EmptySlice<T>(a: seq<T>, b: seq<T>)
    ensures a + b[..0] == a
  {
  }

  /** One step of the loop collecting `FirstSeen(seen + keys)`: the next key
      is appended exactly when it was not collected yet. */
  lemma CollectStep<T>(seen: seq<T>, keys: seq<T>, j: nat, r: seq<T>)
    requires j < |keys| && r == FirstSeen(seen + keys[..j])
    ensures (if keys[j] in r then r else r + [keys[j]]) == FirstSeen(seen + keys[..j + 1])
  {
    AppendSlice(seen, keys, j);
    FirstSeenSnoc(seen + keys[..j], keys[j]);
  }

  /** Appending `x` to the keys seen so far extends the first-occurrence order
      exactly when `x` is new. */
  lemma OrderStep<K, R>(s: seq<K>, x: K, order: seq<K>, latest: map<K, R>)
    requires order == FirstSeen(s)
    requires forall k :: k in latest <==> k in s
    ensures (if x in latest then order else order + [x]) == FirstSeen(s + [x])
  {
    FirstSeenSnoc(s, x);
    FirstSeenHas(s, x);
  }

  /** Overwriting the entry for `x` with the newest element keeps every entry at
      its key's last occurrence. */
  lemma LatestStep<K, R>(s: seq<K>, x: K, items: seq<R>, latest: map<K, R>)
    requires |s| < |items|
    requires forall k :: k in latest <==> k in s
    requires forall k :: k in latest ==> latest[k] == items[LastIndex(s, k)]
    ensures forall k :: k in latest[x := items[|s|]] <==> k in s + [x]
    ensures forall k :: k in latest[x := items[|s|]] ==> latest[x := items[|s|]][k] == items[LastIndex(s + [x], k)]
  {
    forall k | k in s + [x]
      ensures LastIndex(s + [x], k) == if k == x then |s| else LastIndex(s, k)
    {
      LastIndexSnoc(s, x, k);
    }
  }

  /** One step of the loop computing `LastWins`: it keeps the keys in first
      occurrence order and, per key, the element at its last occurrence. */
  lemma LastWinsStep<K, R>(ks: seq<K>, items: seq<R>, order: seq<K>, latest: map<K, R>, i: nat)
    requires |ks| == |items| && i < |ks|
    requires order == FirstSeen(ks[..i])
    requires forall k :: k in latest <==> k in ks[..i]
    requires forall k :: k in latest ==> latest[k] == items[LastIndex(ks[..i], k)]
    ensures (if ks[i] in latest then order else order + [ks[i]]) == FirstSeen(ks[..i + 1])
    ensures var next := latest[ks[i] := items[i]];
      && (forall k :: k in next <==> k in ks[..i + 1])
      && (forall k :: k in next ==> next[k] == items[LastIndex(ks[..i + 1], k)])
  {
    PrefixSnoc(ks, i, ks[i]);
    OrderStep(ks[..i], ks[i], order, latest);
    LatestStep(ks[..i], ks[i], items, latest);
  }
}
