/**
 * Sequence operations the source gets from JavaScript's Array, Map and Set:
 * `filter`, `find`/`findIndex`, `slice(0, n)`, a Map or Set filled by
 * `forEach` (first occurrence fixes the position of a key), and the stable
 * `Array.prototype.sort` with a numeric or the default string comparator.
 */
module Collections {
  import opened Wrappers

  // ----- filter, find, slice -----

  /** `s.filter(p)`: the elements satisfying `p`, in their original order. */
  function Filter<T>(s: seq<T>, p: T -> bool): (r: seq<T>)
    ensures |r| <= |s|
    ensures forall i :: 0 <= i < |r| ==> r[i] in s && p(r[i])
  {
    if s == [] then []
    else
      assert s == s[..|s| - 1] + [s[|s| - 1]];
      Filter(s[..|s| - 1], p) + (if p(s[|s| - 1]) then [s[|s| - 1]] else [])
  }

  /** Every element satisfying `p` is kept. */
  lemma {:induction false} FilterKeeps<T>(s: seq<T>, p: T -> bool, j: nat)
    requires j < |s| && p(s[j])
    ensures s[j] in Filter(s, p)
  {
    var n := |s| - 1;
    if j < n {
      FilterKeeps(s[..n], p, j);
    }
  }

  lemma FilterKeepsAll<T>(s: seq<T>, p: T -> bool)
    ensures forall i :: 0 <= i < |s| && p(s[i]) ==> s[i] in Filter(s, p)
  {
    forall i | 0 <= i < |s| && p(s[i]) ensures s[i] in Filter(s, p) {
      FilterKeeps(s, p, i);
    }
  }

  /** Filtering distributes over concatenation: it never reorders. */
  lemma {:induction false} FilterAppend<T>(a: seq<T>, b: seq<T>, p: T -> bool)
    ensures Filter(a + b, p) == Filter(a, p) + Filter(b, p)
    decreases |b|
  {
    if b == [] {
      assert a + b == a;
    } else {
      var b', y := b[..|b| - 1], b[|b| - 1];
      assert (a + b)[..|a + b| - 1] == a + b';
      FilterAppend(a, b', p);
    }
  }

  /** An element that fails `p` contributes nothing. */
  lemma FilterNone<T>(s: seq<T>, p: T -> bool)
    requires forall i :: 0 <= i < |s| ==> !p(s[i])
    ensures Filter(s, p) == []
  {
  }

  /** Every element satisfies `p`: the filter is the identity. */
  lemma {:induction false} FilterAll<T>(s: seq<T>, p: T -> bool)
    requires forall i :: 0 <= i < |s| ==> p(s[i])
    ensures Filter(s, p) == s
  {
    if s != [] {
      FilterAll(s[..|s| - 1], p);
      assert s == s[..|s| - 1] + [s[|s| - 1]];
    }
  }

  /** Filtering one more element at the end. */
  lemma FilterSnoc<T>(s: seq<T>, x: T, p: T -> bool)
    ensures Filter(s + [x], p) == Filter(s, p) + (if p(x) then [x] else [])
  {
    assert (s + [x])[..|s|] == s;
  }

  /** Two tests that agree on every element filter alike. */
  lemma {:induction false} FilterExt<T>(s: seq<T>, p: T -> bool, q: T -> bool)
    requires forall i :: 0 <= i < |s| ==> p(s[i]) == q(s[i])
    ensures Filter(s, p) == Filter(s, q)
  {
    if s != [] {
      FilterExt(s[..|s| - 1], p, q);
    }
  }

  /** `s.findIndex(p)`: the first position satisfying `p`, or -1. */
  function FindIndex<T>(s: seq<T>, p: T -> bool): (i: int)
    ensures -1 <= i < |s|
    ensures 0 <= i ==> p(s[i]) && forall j :: 0 <= j < i ==> !p(s[j])
    ensures i == -1 ==> forall j :: 0 <= j < |s| ==> !p(s[j])
  {
    if s == [] then -1
    else if p(s[0]) then 0
    else
      var k := FindIndex(s[1..], p);
      if k == -1 then -1 else k + 1
  }

  /** An element satisfying `p` at `i` bounds the first such position. */
  lemma FindIndexHit<T>(s: seq<T>, p: T -> bool, i: nat)
    requires i < |s| && p(s[i])
    ensures 0 <= FindIndex(s, p) <= i
  {
  }

  /** `s.find(p)`: the first element satisfying `p`. */
  function Find<T>(s: seq<T>, p: T -> bool): (r: Option<T>)
    ensures r.Some? <==> exists i :: 0 <= i < |s| && p(s[i])
    ensures r.Some? ==> r.value in s && p(r.value)
  {
    var i := FindIndex(s, p);
    if i < 0 then None else Some(s[i])
  }

  /** Extending a prefix by one element, for loops that walk `s` from the left. */
  lemma PrefixSnoc<T>(s: seq<T>, i: nat)
    requires i < |s|
    ensures s[..i + 1] == s[..i] + [s[i]]
    ensures s[..i + 1][..i] == s[..i]
  {
  }

  lemma LastSplit<T>(s: seq<T>)
    requires s != []
    ensures s == s[..|s| - 1] + [s[|s| - 1]]
  {
  }

  lemma PrefixAll<T>(s: seq<T>)
    ensures s[..|s|] == s
  {
  }

  /** `s.slice(0, n)`. */
  function Take<T>(s: seq<T>, n: nat): (r: seq<T>)
    ensures |r| == if n < |s| then n else |s|
    ensures forall i :: 0 <= i < |r| ==> r[i] == s[i]
  {
    if n < |s| then s[..n] else s
  }

  // ----- repeated partial steps -----

  /** `k` applications of `step`, stopping for good at the first None. */
  function Iterate<T>(x: T, step: T -> Option<T>, k: nat): Option<T> {
    if k == 0 then Some(x)
    else
      match Iterate(x, step, k - 1)
      case None => None
      case Some(y) => step(y)
  }

  /** Once a step fails, every later iterate fails. */
  lemma {:induction false} IterateStaysNone<T>(x: T, step: T -> Option<T>, k: nat, k': nat)
    requires k <= k' && Iterate(x, step, k).None?
    ensures Iterate(x, step, k').None?
    decreases k' - k
  {
    if k < k' {
      IterateStaysNone(x, step, k + 1, k');
    }
  }

  /** A measure that every successful step moves by `d` has moved by `k * d` after `k` steps. */
  lemma {:induction false} IterateShift<T>(x: T, step: T -> Option<T>, num: T -> Option<int>, d: int, k: nat)
    requires num(x).Some?
    requires forall y :: step(y).Some? ==> num(y).Some? && num(step(y).value) == Some(num(y).value + d)
    ensures Iterate(x, step, k).Some? ==> num(Iterate(x, step, k).value) == Some(num(x).value + k * d)
  {
    if k > 0 && Iterate(x, step, k).Some? {
      IterateShift(x, step, num, d, k - 1);
    }
  }

  /**
   * The least `k` from `from` on, up to `limit`, at which the iteration
   * reaches a value satisfying `found`, given that there is one and that
   * every step before `from` reached a value that does not.
   */
  lemma {:induction false} LeastFound<T>(x: T, step: T -> Option<T>, found: T -> bool, limit: nat, from: nat)
    returns (k: nat)
    requires 1 <= from
    requires exists k' :: (from <= k' <= limit && Iterate(x, step, k').Some? && found(Iterate(x, step, k').value))
    requires forall j :: 1 <= j < from ==> Iterate(x, step, j).Some? && !found(Iterate(x, step, j).value)
    ensures 1 <= k <= limit && Iterate(x, step, k).Some? && found(Iterate(x, step, k).value)
    ensures forall j :: 1 <= j < k ==> Iterate(x, step, j).Some? && !found(Iterate(x, step, j).value)
    decreases limit - from
  {
    var k' :| from <= k' <= limit && Iterate(x, step, k').Some? && found(Iterate(x, step, k').value);
    if Iterate(x, step, from).Some? && found(Iterate(x, step, from).value) {
      k := from;
    } else {
      if Iterate(x, step, from).None? {
        IterateStaysNone(x, step, from, k');
      }
      k := LeastFound(x, step, found, limit, from + 1);
    }
  }

  /**
   * Up to `limit` steps from `start`, stopping at the first iterate that
   * is `found` or when a step fails: the hit and how many steps it took.
   */
  method ProbeUntil<T>(start: T, step: T -> Option<T>, found: T -> bool, limit: nat) returns (hit: Option<(T, nat)>)
    ensures hit.Some? ==> 1 <= hit.value.1 <= limit && Iterate(start, step, hit.value.1) == Some(hit.value.0)
    ensures hit.Some? ==> found(hit.value.0)
    ensures hit.Some? ==> forall j :: 1 <= j < hit.value.1 ==>
      Iterate(start, step, j).Some? && !found(Iterate(start, step, j).value)
    ensures hit.None? ==> forall j :: 1 <= j <= limit && Iterate(start, step, j).Some? ==>
      !found(Iterate(start, step, j).value)
  {
    var attempts := 0;
    var current := start;
    while attempts < limit
      invariant attempts <= limit
      invariant Iterate(start, step, attempts) == Some(current)
      invariant forall j :: 1 <= j <= attempts ==>
        Iterate(start, step, j).Some? && !found(Iterate(start, step, j).value)
    {
      var next := step(current);
      if next.None? {
        forall j | attempts < j ensures Iterate(start, step, j).None? {
          IterateStaysNone(start, step, attempts + 1, j);
        }
        break;
      }
      current := next.value;
      attempts := attempts + 1;
      if found(current) {
        return Some((current, attempts));
      }
    }
    return None;
  }

  // ----- keyed accumulation (Map/Set filled by forEach) -----

  /** Position of the first element of `s` with key `k`, or |s| when there is none. */
  function IndexOfKey<T, K(==)>(s: seq<T>, key: T -> K, k: K): (i: nat)
    ensures i <= |s|
    ensures i < |s| ==> key(s[i]) == k
    ensures forall j :: 0 <= j < i ==> key(s[j]) != k
  {
    if s == [] then 0
    else
      var s' := s[..|s| - 1];
      var i := IndexOfKey(s', key, k);
      assert forall j :: 0 <= j < |s'| ==> s[j] == s'[j];
      if i < |s'| then i else if key(s[|s| - 1]) == k then |s'| else |s|
  }

  lemma IndexOfKeyAppend<T, K>(s: seq<T>, x: T, key: T -> K, k: K)
    ensures IndexOfKey(s + [x], key, k) ==
            (if IndexOfKey(s, key, k) < |s| then IndexOfKey(s, key, k)
             else if key(x) == k then |s| else |s| + 1)
  {
    assert (s + [x])[..|s|] == s;
  }

  predicate DistinctKeys<T, K(==)>(s: seq<T>, key: T -> K) {
    forall i, j :: 0 <= i < j < |s| ==> key(s[i]) != key(s[j])
  }

  /** The keys of `s`, in order. */
  function KeysOf<T, K>(s: seq<T>, key: T -> K): (ks: seq<K>)
    ensures |ks| == |s| && forall i :: 0 <= i < |s| ==> ks[i] == key(s[i])
  {
    seq(|s|, i requires 0 <= i < |s| => key(s[i]))
  }

  /**
   * The values of a Map filled by `if (!m.has(key(x))) m.set(key(x), x)`
   * over `s`: the first element for every key, in first-occurrence order.
   */
  function FirstPerKey<T, K(==)>(s: seq<T>, key: T -> K): (r: seq<T>)
    ensures |r| <= |s|
    ensures DistinctKeys(r, key)
    ensures forall i :: 0 <= i < |r| ==> r[i] in s
  {
    if s == [] then []
    else
      var s', x := s[..|s| - 1], s[|s| - 1];
      assert s == s' + [x];
      var r := FirstPerKey(s', key);
      if IndexOfKey(r, key, key(x)) < |r| then r else r + [x]
  }

  /** Accumulating one more element at the end. */
  lemma FirstPerKeySnoc<T, K>(s: seq<T>, x: T, key: T -> K)
    ensures FirstPerKey(s + [x], key) ==
      (if IndexOfKey(FirstPerKey(s, key), key, key(x)) < |FirstPerKey(s, key)| then FirstPerKey(s, key)
       else FirstPerKey(s, key) + [x])
  {
    assert (s + [x])[..|s|] == s;
  }
  /** `FirstPerKeySnoc` for a loop that walks `s` from the left. */
  lemma FirstPerKeyPrefix<T, K>(s: seq<T>, i: nat, key: T -> K)
    requires i < |s|
    ensures FirstPerKey(s[..i + 1], key) ==
      (if IndexOfKey(FirstPerKey(s[..i], key), key, key(s[i])) < |FirstPerKey(s[..i], key)| then FirstPerKey(s[..i], key)
       else FirstPerKey(s[..i], key) + [s[i]])
  {
    PrefixSnoc(s, i);
    FirstPerKeySnoc(s[..i], s[i], key);
  }


  /**
   * When every element with key `k` passes `p`, the first element of the
   * filtered sequence with key `k` is the first such element of `s`.
   */
  lemma {:induction false} FilterFirstKey<T, K>(s: seq<T>, p: T -> bool, key: T -> K, k: K)
    requires forall i :: 0 <= i < |s| && key(s[i]) == k ==> p(s[i])
    requires IndexOfKey(Filter(s, p), key, k) < |Filter(s, p)|
    ensures IndexOfKey(s, key, k) < |s|
    ensures s[IndexOfKey(s, key, k)] == Filter(s, p)[IndexOfKey(Filter(s, p), key, k)]
  {
    var s', x := s[..|s| - 1], s[|s| - 1];
    assert s == s' + [x];
    var f' := Filter(s', p);
    if IndexOfKey(f', key, k) < |f'| {
      assert forall i :: 0 <= i < |s'| ==> s'[i] == s[i];
      FilterFirstKey(s', p, key, k);
      FilterFirstKeyInit(s', x, p, key, k);
    } else {
      FilterFirstKeyLast(s', x, p, key, k);
    }
  }

  lemma FilterFirstKeyInit<T, K>(s': seq<T>, x: T, p: T -> bool, key: T -> K, k: K)
    requires IndexOfKey(Filter(s', p), key, k) < |Filter(s', p)|
    requires IndexOfKey(s', key, k) < |s'|
    requires s'[IndexOfKey(s', key, k)] == Filter(s', p)[IndexOfKey(Filter(s', p), key, k)]
    ensures IndexOfKey(s' + [x], key, k) < |s' + [x]|
    ensures IndexOfKey(Filter(s' + [x], p), key, k) < |Filter(s' + [x], p)|
    ensures (s' + [x])[IndexOfKey(s' + [x], key, k)] == Filter(s' + [x], p)[IndexOfKey(Filter(s' + [x], p), key, k)]
  {
    var f' := Filter(s', p);
    var f := f' + (if p(x) then [x] else []);
    FilterSnoc(s', x, p);
    IndexOfKeyAppend(s', x, key, k);
    var m', t' := IndexOfKey(s', key, k), IndexOfKey(f', key, k);
    if p(x) {
      IndexOfKeyAppend(f', x, key, k);
      assert f[t'] == f'[t'];
    } else {
      assert f == f';
    }
    assert (s' + [x])[m'] == s'[m'];
  }

  lemma FilterFirstKeyLast<T, K>(s': seq<T>, x: T, p: T -> bool, key: T -> K, k: K)
    requires forall i :: 0 <= i < |s' + [x]| && key((s' + [x])[i]) == k ==> p((s' + [x])[i])
    requires IndexOfKey(Filter(s', p), key, k) == |Filter(s', p)|
    requires IndexOfKey(Filter(s' + [x], p), key, k) < |Filter(s' + [x], p)|
    ensures IndexOfKey(s' + [x], key, k) < |s' + [x]|
    ensures (s' + [x])[IndexOfKey(s' + [x], key, k)] == Filter(s' + [x], p)[IndexOfKey(Filter(s' + [x], p), key, k)]
  {
    var f' := Filter(s', p);
    FilterSnoc(s', x, p);
    IndexOfKeyAppend(s', x, key, k);
    IndexOfKeyAppend(f', x, key, k);
    assert p(x) && key(x) == k;
    assert forall i :: 0 <= i < |s'| ==> s'[i] == (s' + [x])[i];
    KeyInFilter(s', p, key, k);
  }

  /** An element with key `k` that passes `p` gives the filtered sequence an element with key `k`. */
  lemma KeyInFilter<T, K>(s: seq<T>, p: T -> bool, key: T -> K, k: K)
    requires forall i :: 0 <= i < |s| && key(s[i]) == k ==> p(s[i])
    ensures IndexOfKey(s, key, k) < |s| ==> IndexOfKey(Filter(s, p), key, k) < |Filter(s, p)|
  {
    var m := IndexOfKey(s, key, k);
    if m < |s| {
      var f := Filter(s, p);
      FilterKeeps(s, p, m);
      var t :| 0 <= t < |f| && f[t] == s[m];
      assert key(f[t]) == k;
    }
  }

  /** Every key of `s` has an entry. */
  lemma {:induction false} FirstPerKeyComplete<T, K>(s: seq<T>, key: T -> K)
    ensures forall j :: 0 <= j < |s| ==> IndexOfKey(FirstPerKey(s, key), key, key(s[j])) < |FirstPerKey(s, key)|
  {
    if s != [] {
      var s', x := s[..|s| - 1], s[|s| - 1];
      FirstPerKeyComplete(s', key);
      LastSplit(s);
      forall j | 0 <= j < |s| ensures IndexOfKey(FirstPerKey(s, key), key, key(s[j])) < |FirstPerKey(s, key)| {
        FirstPerKeyCompleteStep(s', x, key, j);
      }
    }
  }

  lemma FirstPerKeyCompleteStep<T, K>(s: seq<T>, x: T, key: T -> K, j: nat)
    requires j <= |s|
    requires forall l :: 0 <= l < |s| ==> IndexOfKey(FirstPerKey(s, key), key, key(s[l])) < |FirstPerKey(s, key)|
    ensures IndexOfKey(FirstPerKey(s + [x], key), key, key((s + [x])[j])) < |FirstPerKey(s + [x], key)|
  {
    var r := FirstPerKey(s, key);
    var k := key((s + [x])[j]);
    FirstPerKeySnoc(s, x, key);
    IndexOfKeyAppend(r, x, key, k);
    if j < |s| {
      assert (s + [x])[j] == s[j];
    }
  }

  /** Each entry kept is the earliest element of `s` with its key. */
  lemma {:induction false} FirstPerKeyIsFirst<T, K>(s: seq<T>, key: T -> K, i: nat)
    requires i < |FirstPerKey(s, key)|
    ensures IndexOfKey(s, key, key(FirstPerKey(s, key)[i])) < |s|
    ensures s[IndexOfKey(s, key, key(FirstPerKey(s, key)[i]))] == FirstPerKey(s, key)[i]
  {
    var s', x := s[..|s| - 1], s[|s| - 1];
    assert s == s' + [x];
    var r', r := FirstPerKey(s', key), FirstPerKey(s, key);
    var k := key(r[i]);
    IndexOfKeyAppend(s', x, key, k);
    if i < |r'| {
      assert r[i] == r'[i];
      FirstPerKeyIsFirst(s', key, i);
      assert s[IndexOfKey(s', key, k)] == s'[IndexOfKey(s', key, k)];
    } else {
      assert r[i] == x && IndexOfKey(r', key, key(x)) == |r'|;
      var m := IndexOfKey(s', key, k);
      if m < |s'| {
        FirstPerKeyComplete(s', key);
        assert false;
      }
    }
  }

  /** Entries appear in the order their keys first occur in `s`. */
  lemma {:induction false} FirstPerKeyOrder<T, K>(s: seq<T>, key: T -> K, i: nat, j: nat)
    requires i < j < |FirstPerKey(s, key)|
    ensures IndexOfKey(s, key, key(FirstPerKey(s, key)[i])) < IndexOfKey(s, key, key(FirstPerKey(s, key)[j]))
  {
    var s', x := s[..|s| - 1], s[|s| - 1];
    assert s == s' + [x];
    var r', r := FirstPerKey(s', key), FirstPerKey(s, key);
    var ki, kj := key(r[i]), key(r[j]);
    IndexOfKeyAppend(s', x, key, ki);
    IndexOfKeyAppend(s', x, key, kj);
    assert r[i] == r'[i];
    FirstPerKeyIsFirst(s', key, i);
    if j < |r'| {
      assert r[j] == r'[j];
      FirstPerKeyOrder(s', key, i, j);
    } else {
      assert r[j] == x && IndexOfKey(r', key, key(x)) == |r'|;
      var m := IndexOfKey(s', key, kj);
      if m < |s'| {
        FirstPerKeyComplete(s', key);
        assert false;
      }
    }
  }

  /**
   * The values of a Map filled by "set when the key is new, or when the
   * element's date is strictly later than the stored one" over `s`. A
   * replaced value keeps its key's position, as in a JavaScript Map.
   */
  function LatestPerKey<T, K(==)>(s: seq<T>, key: T -> K, date: T -> int): (r: seq<T>)
  {
    if s == [] then []
    else
      var r := LatestPerKey(s[..|s| - 1], key, date);
      var x := s[|s| - 1];
      var i := IndexOfKey(r, key, key(x));
      if i == |r| then r + [x]
      else if date(x) > date(r[i]) then r[i := x]
      else r
  }
  /** One step of the latest-per-key accumulation, for a loop that walks `s` from the left. */
  lemma LatestPerKeyPrefix<T, K>(s: seq<T>, i: nat, key: T -> K, date: T -> int)
    requires i < |s|
    ensures var r := LatestPerKey(s[..i], key, date);
      var j := IndexOfKey(r, key, key(s[i]));
      LatestPerKey(s[..i + 1], key, date) ==
        if j == |r| then r + [s[i]]
        else if date(s[i]) > date(r[j]) then r[j := s[i]]
        else r
  {
    PrefixSnoc(s, i);
  }


  /** The keys come out exactly as for `FirstPerKey`: one entry per key, in first-occurrence order. */
  lemma {:induction false} LatestPerKeyKeys<T, K>(s: seq<T>, key: T -> K, date: T -> int)
    ensures KeysOf(LatestPerKey(s, key, date), key) == KeysOf(FirstPerKey(s, key), key)
  {
    if s != [] {
      var s', x := s[..|s| - 1], s[|s| - 1];
      var r, f := LatestPerKey(s', key, date), FirstPerKey(s', key);
      LatestPerKeyKeys(s', key, date);
      KeysOfIndex(r, f, key, key(x));
      var i := IndexOfKey(r, key, key(x));
      if i == |r| {
        assert KeysOf(r + [x], key) == KeysOf(r, key) + [key(x)];
        assert KeysOf(f + [x], key) == KeysOf(f, key) + [key(x)];
      } else if date(x) > date(r[i]) {
        assert KeysOf(r[i := x], key) == KeysOf(r, key);
      }
    }
  }

  /** Two sequences with the same keys find a key at the same position. */
  lemma KeysOfIndex<T, K>(a: seq<T>, b: seq<T>, key: T -> K, k: K)
    requires KeysOf(a, key) == KeysOf(b, key)
    ensures IndexOfKey(a, key, k) == IndexOfKey(b, key, k)
  {
    var i, j := IndexOfKey(a, key, k), IndexOfKey(b, key, k);
    assert |a| == |b|;
    assert forall m :: 0 <= m < |a| ==> key(a[m]) == KeysOf(a, key)[m] == key(b[m]);
  }

  /** One entry per key of `s`, no key twice. */
  lemma LatestPerKeyShape<T, K>(s: seq<T>, key: T -> K, date: T -> int)
    ensures DistinctKeys(LatestPerKey(s, key, date), key)
    ensures forall j :: 0 <= j < |s| ==>
      IndexOfKey(LatestPerKey(s, key, date), key, key(s[j])) < |LatestPerKey(s, key, date)|
  {
    var r, f := LatestPerKey(s, key, date), FirstPerKey(s, key);
    LatestPerKeyKeys(s, key, date);
    assert |r| == |KeysOf(r, key)| == |KeysOf(f, key)| == |f|;
    assert forall m :: 0 <= m < |r| ==> key(r[m]) == KeysOf(r, key)[m] == KeysOf(f, key)[m] == key(f[m]);
    FirstPerKeyComplete(s, key);
    forall j | 0 <= j < |s| ensures IndexOfKey(r, key, key(s[j])) < |r| {
      KeysOfIndex(r, f, key, key(s[j]));
    }
  }

  /** Each entry is an element of `s` whose date no element with the same key exceeds. */
  lemma {:induction false} LatestPerKeyIsLatest<T, K>(s: seq<T>, key: T -> K, date: T -> int, i: nat)
    requires i < |LatestPerKey(s, key, date)|
    ensures LatestPerKey(s, key, date)[i] in s
    ensures forall j :: 0 <= j < |s| && key(s[j]) == key(LatestPerKey(s, key, date)[i]) ==>
      date(s[j]) <= date(LatestPerKey(s, key, date)[i])
  {
    var s', x := s[..|s| - 1], s[|s| - 1];
    assert s == s' + [x];
    var r', r := LatestPerKey(s', key, date), LatestPerKey(s, key, date);
    LatestPerKeyShape(s', key, date);
    var m := IndexOfKey(r', key, key(x));
    if m == |r'| {
      assert r == r' + [x];
      if i < |r'| {
        assert r[i] == r'[i] && key(r'[i]) != key(x);
        LatestPerKeyIsLatest(s', key, date, i);
        assert forall j :: 0 <= j < |s'| ==> s[j] == s'[j];
      } else {
        assert r[i] == x;
        assert forall j :: 0 <= j < |s'| ==> s[j] == s'[j] && key(s'[j]) != key(x);
      }
    } else if date(x) > date(r'[m]) {
      assert r == r'[m := x];
      if i == m {
        LatestPerKeyIsLatest(s', key, date, m);
        assert forall j :: 0 <= j < |s'| ==> s[j] == s'[j];
      } else {
        assert r[i] == r'[i] && key(r'[m]) == key(x) && key(r'[i]) != key(x);
        LatestPerKeyIsLatest(s', key, date, i);
        assert forall j :: 0 <= j < |s'| ==> s[j] == s'[j];
      }
    } else {
      assert r == r';
      LatestPerKeyIsLatest(s', key, date, i);
      assert key(r'[i]) == key(x) ==> i == m;
      assert forall j :: 0 <= j < |s'| ==> s[j] == s'[j];
    }
  }

  /** Ties go to the first one seen: no earlier element with the same key has the same date. */
  lemma {:induction false} LatestPerKeyFirstSeen<T, K>(s: seq<T>, key: T -> K, date: T -> int, i: nat)
    requires i < |LatestPerKey(s, key, date)|
    ensures exists j :: 0 <= j < |s| && s[j] == LatestPerKey(s, key, date)[i] &&
                        (forall l :: 0 <= l < j && key(s[l]) == key(s[j]) ==> date(s[l]) < date(s[j]))
  {
    var s', x := s[..|s| - 1], s[|s| - 1];
    assert s == s' + [x];
    var r', r := LatestPerKey(s', key, date), LatestPerKey(s, key, date);
    LatestPerKeyShape(s', key, date);
    var m := IndexOfKey(r', key, key(x));
    var n := |s'|;
    if m == |r'| && i == |r'| {
      assert r == r' + [x] && r[i] == x == s[n];
      forall l | 0 <= l < n ensures key(s[l]) != key(s[n]) {
        assert s[l] == s'[l];
      }
    } else if m < |r'| && i == m && date(x) > date(r'[m]) {
      assert r == r'[m := x] && r[i] == x == s[n];
      LatestPerKeyIsLatest(s', key, date, m);
      forall l | 0 <= l < n && key(s[l]) == key(s[n]) ensures date(s[l]) < date(s[n]) {
        assert s[l] == s'[l];
      }
    } else {
      assert r[i] == r'[i];
      LatestPerKeyFirstSeen(s', key, date, i);
      var j :| 0 <= j < |s'| && s'[j] == r'[i] &&
               (forall l :: 0 <= l < j && key(s'[l]) == key(s'[j]) ==> date(s'[l]) < date(s'[j]));
      assert s[j] == s'[j];
      forall l | 0 <= l < j && key(s[l]) == key(s[j]) ensures date(s[l]) < date(s[j]) {
        assert s[l] == s'[l];
      }
    }
  }

  /**
   * The loop `forEach(x => { if (!seen.has(key(x))) { seen.add(key(x)); out.push(x) } })`,
   * with a Map or a Set of keys as `seen`.
   */
  method KeepFirstPerKey<T, K(==)>(s: seq<T>, key: T -> K) returns (r: seq<T>)
    ensures r == FirstPerKey(s, key)
  {
    r := [];
    var seen: set<K> := {};
    var i := 0;
    while i < |s|
      invariant 0 <= i <= |s|
      invariant r == FirstPerKey(s[..i], key)
      invariant forall k :: k in seen <==> IndexOfKey(r, key, k) < |r|
    {
      var x := s[i];
      KeepFirstStep(s, i, key, r, seen);
      if key(x) !in seen {
        seen := seen + {key(x)};
        r := r + [x];
      }
      i := i + 1;
    }
    PrefixAll(s);
  }

  /** One step of `KeepFirstPerKey`: the new key is added to `seen` exactly when it is appended. */
  lemma KeepFirstStep<T, K>(s: seq<T>, i: nat, key: T -> K, r: seq<T>, seen: set<K>)
    requires i < |s| && r == FirstPerKey(s[..i], key)
    requires forall k :: k in seen <==> IndexOfKey(r, key, k) < |r|
    ensures key(s[i]) in seen ==> FirstPerKey(s[..i + 1], key) == r
    ensures key(s[i]) !in seen ==> FirstPerKey(s[..i + 1], key) == r + [s[i]]
    ensures key(s[i]) !in seen ==>
      forall k :: k in seen + {key(s[i])} <==> IndexOfKey(r + [s[i]], key, k) < |r + [s[i]]|
  {
    FirstPerKeyPrefix(s, i, key);
    assert key(s[i]) in seen <==> IndexOfKey(r, key, key(s[i])) < |r|;
    forall k ensures k in seen + {key(s[i])} <==> IndexOfKey(r + [s[i]], key, k) < |r + [s[i]]| {
      IndexOfKeyAppend(r, s[i], key, k);
    }
  }

  /**
   * The loop that keeps, per key, the element with the strictly latest
   * date: a new key is appended, a later element replaces the stored one
   * in place.
   */
  method KeepLatestPerKey<T, K(==)>(s: seq<T>, key: T -> K, date: T -> int) returns (r: seq<T>)
    ensures r == LatestPerKey(s, key, date)
  {
    r := [];
    var i := 0;
    while i < |s|
      invariant 0 <= i <= |s|
      invariant r == LatestPerKey(s[..i], key, date)
    {
      var x := s[i];
      LatestPerKeyPrefix(s, i, key, date);
      var existing := IndexOfKey(r, key, key(x));
      if existing == |r| {
        r := r + [x];
      } else if date(x) > date(r[existing]) {
        r := r[existing := x];
      }
      i := i + 1;
    }
    PrefixAll(s);
  }

  /** An element of `s` has an entry with its key. */
  lemma FirstPerKeyHasKey<T, K>(s: seq<T>, key: T -> K, x: T)
    requires x in s
    ensures exists i :: 0 <= i < |FirstPerKey(s, key)| && key(FirstPerKey(s, key)[i]) == key(x)
  {
    var t :| 0 <= t < |s| && s[t] == x;
    FirstPerKeyComplete(s, key);
    var i := IndexOfKey(FirstPerKey(s, key), key, key(s[t]));
    assert key(FirstPerKey(s, key)[i]) == key(x);
  }

  // ----- the latest date -----

  /** The largest `date` over the elements that satisfy `has`; `None` when none does. */
  function MaxDate<T>(s: seq<T>, has: T -> bool, date: T -> int): Option<int> {
    if s == [] then None
    else
      var latest := MaxDate(s[..|s| - 1], has, date);
      var x := s[|s| - 1];
      if !has(x) then latest
      else if latest.None? || date(x) > latest.value then Some(date(x))
      else latest
  }

  /** The loop `forEach(x => { if (has(x) && (!latest || date(x) > latest)) latest = date(x) })`. */
  method FindMaxDate<T>(s: seq<T>, has: T -> bool, date: T -> int) returns (latest: Option<int>)
    ensures latest == MaxDate(s, has, date)
  {
    latest := None;
    var i := 0;
    while i < |s|
      invariant 0 <= i <= |s|
      invariant latest == MaxDate(s[..i], has, date)
    {
      var x := s[i];
      PrefixSnoc(s, i);
      if has(x) {
        var d := date(x);
        if latest.None? || d > latest.value {
          latest := Some(d);
        }
      }
      i := i + 1;
    }
    PrefixAll(s);
  }

  /**
   * None exactly when no element satisfies `has`; otherwise an upper bound
   * of the dates of those elements that one of them attains.
   */
  lemma {:induction false} MaxDateIsMax<T>(s: seq<T>, has: T -> bool, date: T -> int)
    ensures MaxDate(s, has, date).None? <==> forall j :: 0 <= j < |s| ==> !has(s[j])
    ensures MaxDate(s, has, date).Some? ==>
      (forall j :: 0 <= j < |s| && has(s[j]) ==> date(s[j]) <= MaxDate(s, has, date).value) &&
      exists j :: 0 <= j < |s| && has(s[j]) && date(s[j]) == MaxDate(s, has, date).value
  {
    if s != [] {
      var init := s[..|s| - 1];
      MaxDateIsMax(init, has, date);
      assert forall j :: 0 <= j < |init| ==> s[j] == init[j];
      if MaxDate(init, has, date).Some? {
        var j :| 0 <= j < |init| && has(init[j]) && date(init[j]) == MaxDate(init, has, date).value;
        assert s[j] == init[j];
      }
    }
  }

  // ----- a Set filled in order -----

  function Id<T>(x: T): T { x }

  /** The values of a Set filled by `set.add(x)` over `s`: first occurrences, in order. */
  function Dedup<T(==)>(s: seq<T>): seq<T> {
    FirstPerKey(s, Id)
  }

  predicate Distinct<T(==)>(s: seq<T>) {
    forall i, j :: 0 <= i < j < |s| ==> s[i] != s[j]
  }

  /** `set.add(x)` on a Set listed in insertion order. */
  function SetAdd<T(==)>(acc: seq<T>, x: T): seq<T> {
    if x in acc then acc else acc + [x]
  }

  /** `xs.forEach(x => set.add(x))`. */
  function AddAll<T(==)>(acc: seq<T>, xs: seq<T>): seq<T> {
    if xs == [] then acc else SetAdd(AddAll(acc, xs[..|xs| - 1]), xs[|xs| - 1])
  }

  lemma {:induction false} AddAllAppend<T>(acc: seq<T>, a: seq<T>, b: seq<T>)
    ensures AddAll(acc, a + b) == AddAll(AddAll(acc, a), b)
  {
    if b == [] {
      assert a + b == a;
    } else {
      var b', y := b[..|b| - 1], b[|b| - 1];
      assert (a + b)[..|a + b| - 1] == a + b';
      AddAllAppend(acc, a, b');
    }
  }

  lemma AddAllSingle<T>(acc: seq<T>, x: T)
    ensures AddAll(acc, [x]) == SetAdd(acc, x)
  {
    assert [x][..0] == [];
  }

  lemma IndexOfIdIsIn<T>(r: seq<T>, x: T)
    ensures IndexOfKey(r, Id, x) < |r| <==> x in r
  {
    if x in r {
      var j :| 0 <= j < |r| && r[j] == x;
      assert Id(r[j]) == x;
    }
  }

  lemma DedupSnoc<T>(s: seq<T>, x: T)
    ensures Dedup(s + [x]) == SetAdd(Dedup(s), x)
  {
    FirstPerKeySnoc(s, x, Id);
    IndexOfIdIsIn(Dedup(s), x);
  }

  lemma DedupPair<T>(a: T, b: T)
    requires a != b
    ensures Dedup([a, b]) == [a, b]
  {
    DedupSnoc([], a);
    assert [a] == [] + [a];
    DedupSnoc([a], b);
    assert [a, b] == [a] + [b];
  }

  lemma {:induction false} DedupAppend<T>(a: seq<T>, b: seq<T>)
    ensures Dedup(a + b) == AddAll(Dedup(a), b)
    decreases |b|
  {
    if b == [] {
      assert a + b == a;
    } else {
      var b', y := b[..|b| - 1], b[|b| - 1];
      assert a + b == (a + b') + [y];
      DedupAppend(a, b');
      DedupSnoc(a + b', y);
    }
  }

  /** The Set holds exactly the elements added, each once. */
  lemma DedupMember<T>(s: seq<T>)
    ensures Distinct(Dedup(s))
    ensures forall x :: x in Dedup(s) <==> x in s
  {
    var r := Dedup(s);
    assert forall i, j :: 0 <= i < j < |r| ==> Id(r[i]) != Id(r[j]);
    FirstPerKeyComplete(s, Id);
    forall x | x in s ensures x in r {
      var j :| 0 <= j < |s| && s[j] == x;
      IndexOfIdIsIn(r, s[j]);
    }
  }

  lemma {:induction false} DistinctCount<T>(s: seq<T>, x: T)
    requires Distinct(s)
    ensures multiset(s)[x] <= 1
  {
    if s != [] {
      var s', y := s[..|s| - 1], s[|s| - 1];
      assert s == s' + [y];
      DistinctCount(s', x);
      assert y !in s';
    }
  }

  lemma CountTwo<T>(s: seq<T>, i: nat, j: nat)
    requires i < j < |s|
    ensures s[i] == s[j] ==> multiset(s)[s[i]] >= 2
  {
    assert s == s[..j] + [s[j]] + s[j + 1..];
    assert s[i] == s[..j][i];
  }

  /** A rearrangement of a sequence without repetitions has none. */
  lemma DistinctPerm<T>(a: seq<T>, b: seq<T>)
    requires multiset(a) == multiset(b) && Distinct(a)
    ensures Distinct(b)
  {
    forall i, j | 0 <= i < j < |b| ensures b[i] != b[j] {
      CountTwo(b, i, j);
      DistinctCount(a, b[i]);
    }
  }

  // ----- stable sort by an integer key, descending -----

  predicate SortedDesc<T>(s: seq<T>, date: T -> int) {
    forall i, j :: 0 <= i < j < |s| ==> date(s[i]) >= date(s[j])
  }

  /** Insert `x` after every element whose date is at least `date(x)`. */
  function InsertDesc<T>(r: seq<T>, x: T, date: T -> int): (r': seq<T>)
    ensures multiset(r') == multiset(r) + multiset{x}
    ensures forall i :: 0 <= i < |r'| ==> r'[i] in r || r'[i] == x
  {
    if r == [] then [x]
    else if date(r[0]) < date(x) then [x] + r
    else
      var t := InsertDesc(r[1..], x, date);
      assert r == [r[0]] + r[1..];
      [r[0]] + t
  }

  lemma {:induction false} InsertDescSorted<T>(r: seq<T>, x: T, date: T -> int)
    requires SortedDesc(r, date)
    ensures SortedDesc(InsertDesc(r, x, date), date)
  {
    if r != [] {
      var r' := InsertDesc(r, x, date);
      if date(r[0]) < date(x) {
        assert r' == [x] + r;
        forall i, j | 0 <= i < j < |r'| ensures date(r'[i]) >= date(r'[j]) {
          assert r'[j] == r[j - 1];
          if i > 0 { assert r'[i] == r[i - 1]; }
        }
      } else {
        var t := InsertDesc(r[1..], x, date);
        InsertDescSorted(r[1..], x, date);
        assert r' == [r[0]] + t;
        forall i, j | 0 <= i < j < |r'| ensures date(r'[i]) >= date(r'[j]) {
          assert r'[j] == t[j - 1];
          if i > 0 {
            assert r'[i] == t[i - 1];
          } else {
            assert t[j - 1] in r[1..] || t[j - 1] == x;
          }
        }
      }
    }
  }

  /**
   * `s.sort((a, b) => date(b) - date(a))`: descending by date. The sort is
   * stable, as `Array.prototype.sort` has been since ES2019.
   */
  function SortDesc<T>(s: seq<T>, date: T -> int): (r: seq<T>)
    ensures multiset(r) == multiset(s)
    ensures SortedDesc(r, date)
  {
    if s == [] then []
    else
      assert s == s[..|s| - 1] + [s[|s| - 1]];
      InsertDescSorted(SortDesc(s[..|s| - 1], date), s[|s| - 1], date);
      InsertDesc(SortDesc(s[..|s| - 1], date), s[|s| - 1], date)
  }

  /** The elements with date `d`, in order (`s.filter(x => date(x) === d)`). */
  function WithDate<T>(s: seq<T>, date: T -> int, d: int): seq<T> {
    if s == [] then []
    else (if date(s[0]) == d then [s[0]] else []) + WithDate(s[1..], date, d)
  }

  lemma {:induction false} WithDateAppend<T>(a: seq<T>, b: seq<T>, date: T -> int, d: int)
    ensures WithDate(a + b, date, d) == WithDate(a, date, d) + WithDate(b, date, d)
  {
    if a != [] {
      assert (a + b)[1..] == a[1..] + b;
      WithDateAppend(a[1..], b, date, d);
    } else {
      assert a + b == b;
    }
  }

  lemma {:induction false} WithDateNone<T>(s: seq<T>, date: T -> int, d: int)
    requires forall i :: 0 <= i < |s| ==> date(s[i]) != d
    ensures WithDate(s, date, d) == []
  {
    if s != [] {
      WithDateNone(s[1..], date, d);
    }
  }

  /** Inserting `x` puts it after every element of its own date. */
  /** The first element with date `d` heads the elements with that date. */
  lemma WithDateHead<T>(s: seq<T>, date: T -> int, d: int)
    ensures IndexOfKey(s, date, d) == |s| ==> WithDate(s, date, d) == []
    ensures IndexOfKey(s, date, d) < |s| ==>
      WithDate(s, date, d) != [] && WithDate(s, date, d)[0] == s[IndexOfKey(s, date, d)]
  {
    var i := IndexOfKey(s, date, d);
    WithDateNone(s[..i], date, d);
    assert s == s[..i] + s[i..];
    WithDateAppend(s[..i], s[i..], date, d);
  }

  lemma WithDateCons<T>(y: T, t: seq<T>, date: T -> int, d: int)
    ensures WithDate([y] + t, date, d) == (if date(y) == d then [y] else []) + WithDate(t, date, d)
  {
    assert ([y] + t)[1..] == t;
  }

  lemma InsertDescUnfold<T>(r: seq<T>, x: T, date: T -> int)
    requires r != []
    ensures InsertDesc(r, x, date) == if date(r[0]) < date(x) then [x] + r else [r[0]] + InsertDesc(r[1..], x, date)
  {
  }

  lemma ConcatAssoc<T>(a: seq<T>, b: seq<T>, c: seq<T>)
    ensures a + (b + c) == (a + b) + c
  {
  }

  lemma SortedDescTail<T>(r: seq<T>, date: T -> int)
    requires SortedDesc(r, date) && r != []
    ensures SortedDesc(r[1..], date)
  {
    forall i, j | 0 <= i < j < |r[1..]| ensures date(r[1..][i]) >= date(r[1..][j]) {
      assert r[1..][i] == r[i + 1] && r[1..][j] == r[j + 1];
    }
  }

  /** `x` goes in front of every element of `r`, so no element of `r` shares its date. */
  lemma InsertDescWithDateFront<T>(r: seq<T>, x: T, date: T -> int, d: int)
    requires SortedDesc(r, date) && r != [] && date(r[0]) < date(x)
    ensures WithDate(InsertDesc(r, x, date), date, d) ==
      WithDate(r, date, d) + (if date(x) == d then [x] else [])
  {
    InsertDescUnfold(r, x, date);
    WithDateCons(x, r, date, d);
    if date(x) == d {
      assert forall i :: 0 <= i < |r| ==> date(r[i]) <= date(r[0]);
      WithDateNone(r, date, d);
      assert [x] + [] == [] + [x];
    } else {
      assert [] + WithDate(r, date, d) == WithDate(r, date, d) + [];
    }
  }

  lemma {:induction false} InsertDescWithDate<T>(r: seq<T>, x: T, date: T -> int, d: int)
    requires SortedDesc(r, date)
    ensures WithDate(InsertDesc(r, x, date), date, d) ==
      WithDate(r, date, d) + (if date(x) == d then [x] else [])
  {
    if r == [] {
      WithDateCons(x, [], date, d);
      assert [x] + [] == [x];
    } else if date(r[0]) < date(x) {
      InsertDescWithDateFront(r, x, date, d);
    } else {
      SortedDescTail(r, date);
      InsertDescWithDate(r[1..], x, date, d);
      InsertDescWithDateBehind(r, x, date, d);
    }
  }

  /** `x` goes behind `r[0]`: the step from the tail to the whole of `r`. */
  lemma InsertDescWithDateBehind<T>(r: seq<T>, x: T, date: T -> int, d: int)
    requires r != [] && !(date(r[0]) < date(x))
    requires WithDate(InsertDesc(r[1..], x, date), date, d) ==
      WithDate(r[1..], date, d) + (if date(x) == d then [x] else [])
    ensures WithDate(InsertDesc(r, x, date), date, d) ==
      WithDate(r, date, d) + (if date(x) == d then [x] else [])
  {
    var rest := r[1..];
    InsertDescUnfold(r, x, date);
    var head := if date(r[0]) == d then [r[0]] else [];
    var last := if date(x) == d then [x] else [];
    WithDateCons(r[0], InsertDesc(rest, x, date), date, d);
    WithDateCons(r[0], rest, date, d);
    assert r == [r[0]] + rest;
    ConcatAssoc(head, WithDate(rest, date, d), last);
  }



  lemma SortDescUnfold<T>(s: seq<T>, date: T -> int)
    requires s != []
    ensures SortDesc(s, date) == InsertDesc(SortDesc(s[..|s| - 1], date), s[|s| - 1], date)
  {
  }

  lemma WithDateSnoc<T>(s: seq<T>, date: T -> int, d: int)
    requires s != []
    ensures WithDate(s, date, d) ==
      WithDate(s[..|s| - 1], date, d) + (if date(s[|s| - 1]) == d then [s[|s| - 1]] else [])
  {
    var s', x := s[..|s| - 1], s[|s| - 1];
    assert s == s' + [x];
    WithDateAppend(s', [x], date, d);
    assert WithDate([x], date, d) == (if date(x) == d then [x] else []) + WithDate([], date, d);
  }

  /** Stability: for every date, the elements with that date keep their input order. */
  lemma {:induction false} SortDescStable<T>(s: seq<T>, date: T -> int, d: int)
    ensures WithDate(SortDesc(s, date), date, d) == WithDate(s, date, d)
  {
    if s != [] {
      var s', x := s[..|s| - 1], s[|s| - 1];
      SortDescStable(s', date, d);
      SortDescUnfold(s, date);
      InsertDescWithDate(SortDesc(s', date), x, date, d);
      WithDateSnoc(s, date, d);
    }
  }
  /** After the stable sort, the first element with date `d` is still the first such element of the input. */
  lemma SortDescFirst<T>(s: seq<T>, date: T -> int, d: int)
    ensures IndexOfKey(SortDesc(s, date), date, d) < |SortDesc(s, date)| ==>
      IndexOfKey(s, date, d) < |s| &&
      SortDesc(s, date)[IndexOfKey(SortDesc(s, date), date, d)] == s[IndexOfKey(s, date, d)]
  {
    SortDescStable(s, date, d);
    WithDateHead(s, date, d);
    WithDateHead(SortDesc(s, date), date, d);
  }

  /** Keys that pick out the same elements find the same first index. */
  lemma IndexOfKeySame<T, K, L>(s: seq<T>, key1: T -> K, k1: K, key2: T -> L, k2: L)
    requires forall i :: 0 <= i < |s| ==> (key1(s[i]) == k1 <==> key2(s[i]) == k2)
    ensures IndexOfKey(s, key1, k1) == IndexOfKey(s, key2, k2)
  {
  }

  /** Keeping the first element per key keeps a sorted sequence sorted. */
  lemma FirstPerKeySorted<T, K>(s: seq<T>, key: T -> K, date: T -> int)
    requires SortedDesc(s, date)
    ensures SortedDesc(FirstPerKey(s, key), date)
  {
    var r := FirstPerKey(s, key);
    forall i, j | 0 <= i < j < |r| ensures date(r[i]) >= date(r[j]) {
      FirstPerKeyOrder(s, key, i, j);
      FirstPerKeyIsFirst(s, key, i);
      FirstPerKeyIsFirst(s, key, j);
    }
  }

  lemma {:induction false} TwoOccurrences<T>(a: seq<T>, x: T)
    requires multiset(a)[x] >= 2
    ensures exists p, q :: 0 <= p < q < |a| && a[p] == x && a[q] == x
  {
    var a', y := a[..|a| - 1], a[|a| - 1];
    assert a == a' + [y];
    if multiset(a')[x] >= 2 {
      TwoOccurrences(a', x);
      var p, q :| 0 <= p < q < |a'| && a'[p] == x && a'[q] == x;
      assert a[p] == x && a[q] == x;
    } else {
      assert y == x && x in multiset(a');
      var p :| 0 <= p < |a'| && a'[p] == x;
      assert a[p] == x;
    }
  }

  /** A permutation of a sequence with distinct keys has distinct keys. */
  lemma DistinctKeysPerm<T, K>(a: seq<T>, b: seq<T>, key: T -> K)
    requires multiset(a) == multiset(b) && DistinctKeys(a, key)
    ensures DistinctKeys(b, key)
  {
    forall i, j | 0 <= i < j < |b| ensures key(b[i]) != key(b[j]) {
      assert b[i] in multiset(a) && b[j] in multiset(a);
      var p :| 0 <= p < |a| && a[p] == b[i];
      var q :| 0 <= q < |a| && a[q] == b[j];
      if b[i] == b[j] {
        CountTwo(b, i, j);
        TwoOccurrences(a, b[i]);
      }
    }
  }


  /** The sort neither adds nor drops elements. */
  lemma SortDescMember<T>(s: seq<T>, date: T -> int, x: T)
    ensures x in SortDesc(s, date) <==> x in s
  {
    assert x in SortDesc(s, date) <==> x in multiset(SortDesc(s, date));
    assert x in s <==> x in multiset(s);
  }

  /** Descending by `Negate(key)` is ascending by `key`. */
  function Negate<T>(key: T -> int): T -> int {
    x => -key(x)
  }

  lemma NegatedKey<T>(s: seq<T>, key: T -> int, n: int)
    ensures IndexOfKey(s, key, n) == IndexOfKey(s, Negate(key), -n)
  {
    IndexOfKeySame(s, key, n, Negate(key), -n);
  }

  /**
   * Sorting by ascending `key` and then keeping the first element per key
   * keeps, for every key, its first element in `s`: the sort is stable.
   */
  lemma FirstPerKeyAscending<T>(s: seq<T>, key: T -> int, i: nat)
    requires i < |FirstPerKey(SortDesc(s, Negate(key)), key)|
    ensures var r := FirstPerKey(SortDesc(s, Negate(key)), key);
      IndexOfKey(s, key, key(r[i])) < |s| && r[i] == s[IndexOfKey(s, key, key(r[i]))]
  {
    var t := SortDesc(s, Negate(key));
    var r := FirstPerKey(t, key);
    var n := key(r[i]);
    FirstPerKeyIsFirst(t, key, i);
    AscendingFirst(s, key, n);
  }

  /** Sorting by ascending `key` keeps the first element with key `n` first among those with key `n`. */
  lemma AscendingFirst<T>(s: seq<T>, key: T -> int, n: int)
    ensures var t := SortDesc(s, Negate(key));
      IndexOfKey(t, key, n) < |t| ==> IndexOfKey(s, key, n) < |s| && t[IndexOfKey(t, key, n)] == s[IndexOfKey(s, key, n)]
  {
    SortDescFirst(s, Negate(key), -n);
    NegatedFirst(s, SortDesc(s, Negate(key)), key, n);
  }

  lemma NegatedFirst<T>(s: seq<T>, t: seq<T>, key: T -> int, n: int)
    requires IndexOfKey(t, Negate(key), -n) < |t| ==>
      IndexOfKey(s, Negate(key), -n) < |s| && t[IndexOfKey(t, Negate(key), -n)] == s[IndexOfKey(s, Negate(key), -n)]
    ensures IndexOfKey(t, key, n) < |t| ==> IndexOfKey(s, key, n) < |s| && t[IndexOfKey(t, key, n)] == s[IndexOfKey(s, key, n)]
  {
    NegatedKey(t, key, n);
    NegatedKey(s, key, n);
  }

  /** Sorted, then the first entry per key: every key of `s` is present. */
  lemma FirstPerKeyOfSortedComplete<T, K>(s: seq<T>, date: T -> int, key: T -> K, x: T)
    requires x in s
    ensures exists i :: (0 <= i < |FirstPerKey(SortDesc(s, date), key)| &&
      key(FirstPerKey(SortDesc(s, date), key)[i]) == key(x))
  {
    SortDescMember(s, date, x);
    FirstPerKeyHasKey(SortDesc(s, date), key, x);
  }

  /** The first entries per key, sorted: every key of `s` is present. */
  lemma SortedFirstPerKeyComplete<T, K>(s: seq<T>, key: T -> K, date: T -> int, x: T)
    requires x in s
    ensures exists i :: (0 <= i < |SortDesc(FirstPerKey(s, key), date)| &&
      key(SortDesc(FirstPerKey(s, key), date)[i]) == key(x))
  {
    var u := FirstPerKey(s, key);
    FirstPerKeyHasKey(s, key, x);
    var m :| 0 <= m < |u| && key(u[m]) == key(x);
    SortDescMember(u, date, u[m]);
    var t := SortDesc(u, date);
    var i :| 0 <= i < |t| && t[i] == u[m];
  }

  /** The first entries per key, sorted: each is the first element of `s` with its key. */
  lemma SortedFirstPerKeyIsFirst<T, K>(s: seq<T>, key: T -> K, date: T -> int, i: nat)
    requires i < |SortDesc(FirstPerKey(s, key), date)|
    ensures var x := SortDesc(FirstPerKey(s, key), date)[i];
      IndexOfKey(s, key, key(x)) < |s| && x == s[IndexOfKey(s, key, key(x))]
  {
    var u := FirstPerKey(s, key);
    var x := SortDesc(u, date)[i];
    SortDescMember(u, date, x);
    var m :| 0 <= m < |u| && u[m] == x;
    FirstPerKeyIsFirst(s, key, m);
  }

  /** The latest element per key, newest first. */
  function NewestPerKey<T, K(==)>(s: seq<T>, key: T -> K, date: T -> int): seq<T> {
    SortDesc(LatestPerKey(s, key, date), date)
  }

  /**
   * One entry per key, newest first, each an element of `s`, and every
   * key of `s` present.
   */
  lemma NewestPerKeyShape<T, K>(s: seq<T>, key: T -> K, date: T -> int)
    ensures DistinctKeys(NewestPerKey(s, key, date), key)
    ensures SortedDesc(NewestPerKey(s, key, date), date)
    ensures forall i :: 0 <= i < |NewestPerKey(s, key, date)| ==> NewestPerKey(s, key, date)[i] in s
    ensures forall j :: 0 <= j < |s| ==>
      exists i :: 0 <= i < |NewestPerKey(s, key, date)| && key(NewestPerKey(s, key, date)[i]) == key(s[j])
  {
    var u := LatestPerKey(s, key, date);
    var r := NewestPerKey(s, key, date);
    LatestPerKeyShape(s, key, date);
    DistinctKeysPerm(u, r, key);
    forall i | 0 <= i < |r| ensures r[i] in s {
      SortDescMember(u, date, r[i]);
      var m :| 0 <= m < |u| && u[m] == r[i];
      LatestPerKeyIsLatest(s, key, date, m);
    }
    forall j | 0 <= j < |s| ensures exists i :: 0 <= i < |r| && key(r[i]) == key(s[j]) {
      var m := IndexOfKey(u, key, key(s[j]));
      SortDescMember(u, date, u[m]);
      var i :| 0 <= i < |r| && r[i] == u[m];
    }
  }

  /**
   * Each entry has the latest date of its key, and is the first element of
   * `s` with that key and date.
   */
  lemma NewestPerKeyIsLatest<T, K>(s: seq<T>, key: T -> K, date: T -> int, i: nat)
    requires i < |NewestPerKey(s, key, date)|
    ensures var x := NewestPerKey(s, key, date)[i];
      (forall j :: 0 <= j < |s| && key(s[j]) == key(x) ==> date(s[j]) <= date(x)) &&
      exists j :: 0 <= j < |s| && s[j] == x &&
        forall l :: 0 <= l < j && key(s[l]) == key(x) ==> date(s[l]) < date(x)
  {
    var u := LatestPerKey(s, key, date);
    var x := NewestPerKey(s, key, date)[i];
    SortDescMember(u, date, x);
    var m :| 0 <= m < |u| && u[m] == x;
    LatestPerKeyIsLatest(s, key, date, m);
    LatestPerKeyFirstSeen(s, key, date, m);
  }

  // ----- the default string sort -----

  /**
   * The order of `Array.prototype.sort()` without a comparator on strings:
   * character by character, a proper prefix first.
   */
  predicate LexLe(a: string, b: string) {
    if a == [] then true
    else if b == [] then false
    else if a[0] != b[0] then a[0] < b[0]
    else LexLe(a[1..], b[1..])
  }

  lemma {:induction false} LexTotal(a: string, b: string)
    ensures LexLe(a, b) || LexLe(b, a)
  {
    if a != [] && b != [] && a[0] == b[0] {
      LexTotal(a[1..], b[1..]);
    }
  }

  lemma {:induction false} LexTrans(a: string, b: string, c: string)
    requires LexLe(a, b) && LexLe(b, c)
    ensures LexLe(a, c)
  {
    if a != [] && b != [] && c != [] && a[0] == b[0] && b[0] == c[0] {
      LexTrans(a[1..], b[1..], c[1..]);
    }
  }

  lemma LexRefl(a: string)
    ensures LexLe(a, a)
  {
  }

  predicate SortedLex(s: seq<string>) {
    forall i :: 0 < i < |s| ==> LexLe(s[i - 1], s[i])
  }

  /** In a sorted sequence every element is at most every later one. */
  lemma {:induction false} SortedLexPairs(s: seq<string>, i: nat, j: nat)
    requires SortedLex(s) && i <= j < |s|
    ensures LexLe(s[i], s[j])
    decreases j - i
  {
    if i == j {
      LexRefl(s[i]);
    } else {
      SortedLexPairs(s, i, j - 1);
      LexTrans(s[i], s[j - 1], s[j]);
    }
  }

  function InsertLex(r: seq<string>, x: string): (r': seq<string>)
    ensures multiset(r') == multiset(r) + multiset{x}
    ensures |r'| == |r| + 1
    ensures r' != [] && (r'[0] == x || (r != [] && r'[0] == r[0]))
    ensures SortedLex(r) ==> SortedLex(r')
  {
    if r == [] then [x]
    else if LexLe(x, r[0]) then [x] + r
    else
      var t := InsertLex(r[1..], x);
      assert r == [r[0]] + r[1..];
      LexTotal(x, r[0]);
      [r[0]] + t
  }

  function SortLex(s: seq<string>): (r: seq<string>)
    ensures multiset(r) == multiset(s)
    ensures SortedLex(r)
  {
    if s == [] then []
    else
      assert s == s[..|s| - 1] + [s[|s| - 1]];
      InsertLex(SortLex(s[..|s| - 1]), s[|s| - 1])
  }
}
