/**
 * A JavaScript `Map<string, string>` as the sequence of its entries in insertion order.
 * `set` on a key already present replaces its value in place; on a new key it appends;
 * `delete` removes the key's entry. Iteration (`entries()`, `forEach`) follows the sequence.
 */
module OrderedMap {

  type Entries = seq<(string, string)>

  /** The keys, in iteration order. */
  function Keys(e: Entries): (ks: seq<string>)
    ensures |ks| == |e|
    ensures forall i :: 0 <= i < |e| ==> ks[i] == e[i].0
  {
    seq(|e|, i requires 0 <= i < |e| => e[i].0)
  }

  /** `map.has(k)`. */
  predicate Has(e: Entries, k: string) {
    e != [] && (e[0].0 == k || Has(e[1..], k))
  }

  /** What every JavaScript `Map` guarantees: a key occurs in at most one entry. */
  predicate UniqueKeys(e: Entries) {
    e == [] || (!Has(e[1..], e[0].0) && UniqueKeys(e[1..]))
  }

  /** The key/value content of the entries, forgetting the order. */
  function ToMap(e: Entries): map<string, string> {
    if e == [] then map[] else ToMap(e[1..])[e[0].0 := e[0].1]
  }

  lemma {:induction false} HasAt(e: Entries, k: string)
    ensures Has(e, k) <==> exists i :: 0 <= i < |e| && e[i].0 == k
  {
    if e != [] {
      HasAt(e[1..], k);
      if Has(e[1..], k) {
        var i :| 0 <= i < |e[1..]| && e[1..][i].0 == k;
        assert e[i + 1].0 == k;
      }
      if exists i :: 0 <= i < |e| && e[i].0 == k {
        var i :| 0 <= i < |e| && e[i].0 == k;
        if i > 0 { assert e[1..][i - 1].0 == k; }
      }
    }
  }

  lemma {:induction false} ToMapHas(e: Entries, k: string)
    ensures k in ToMap(e) <==> Has(e, k)
  {
    if e != [] {
      ToMapHas(e[1..], k);
    }
  }

  lemma {:induction false} ToMapAt(e: Entries, i: int)
    requires UniqueKeys(e)
    requires 0 <= i < |e|
    ensures e[i].0 in ToMap(e) && ToMap(e)[e[i].0] == e[i].1
  {
    if i > 0 {
      ToMapAt(e[1..], i - 1);
      HasAt(e[1..], e[0].0);
      assert e[1..][i - 1] == e[i];
    }
  }

  lemma ToMapCons(x: (string, string), e: Entries)
    ensures ToMap([x] + e) == ToMap(e)[x.0 := x.1]
  {
    assert ([x] + e)[1..] == e;
  }

  lemma KeysCons(x: (string, string), e: Entries)
    ensures Keys([x] + e) == [x.0] + Keys(e)
  {
  }

  /** Updates of two different keys commute. */
  lemma UpdateSwap(m: map<string, string>, a: string, x: string, b: string, y: string)
    requires a != b
    ensures m[a := x][b := y] == m[b := y][a := x]
  {
  }

  lemma ConsUpdate(x: (string, string), e: Entries, j: int, y: (string, string))
    requires 0 <= j < |e|
    ensures [x] + e[j := y] == ([x] + e)[j + 1 := y]
  {
  }

  lemma RemoveUpdated(m: map<string, string>, k: string, x: string)
    ensures m[k := x] - {k} == m - {k}
  {
  }

  lemma RemoveUpdate(m: map<string, string>, k: string, a: string, x: string)
    requires a != k
    ensures (m - {k})[a := x] == m[a := x] - {k}
  {
  }

  /** `map.set(k, v)`. */
  function Set(e: Entries, k: string, v: string): (r: Entries)
    ensures ToMap(r) == ToMap(e)[k := v]
    ensures Has(r, k)
    ensures forall k' :: k' != k ==> (Has(r, k') <==> Has(e, k'))
    ensures Has(e, k) ==> Keys(r) == Keys(e)
    ensures !Has(e, k) ==> r == e + [(k, v)]
    ensures UniqueKeys(e) ==> UniqueKeys(r)
  {
    if e == [] then [(k, v)]
    else if e[0].0 == k then [(k, v)] + e[1..]
    else
      var rest := Set(e[1..], k, v);
      ToMapCons(e[0], rest);
      UpdateSwap(ToMap(e[1..]), k, v, e[0].0, e[0].1);
      KeysCons(e[0], rest);
      KeysCons(e[0], e[1..]);
      assert [e[0]] + e[1..] == e;
      assert !Has(e[1..], k) ==> [e[0]] + rest == e + [(k, v)] by {
        if !Has(e[1..], k) { assert [e[0]] + (e[1..] + [(k, v)]) == e + [(k, v)]; }
      }
      [e[0]] + rest
  }

  /** Setting a key that is present replaces its value where it stands: order and position are kept. */
  lemma {:induction false} SetExisting(e: Entries, i: int, v: string)
    requires UniqueKeys(e)
    requires 0 <= i < |e|
    ensures Set(e, e[i].0, v) == e[i := (e[i].0, v)]
  {
    if i > 0 {
      HasAt(e[1..], e[0].0);
      assert e[1..][i - 1] == e[i];
      assert e[0].0 != e[i].0;
      SetExisting(e[1..], i - 1, v);
      ConsUpdate(e[0], e[1..], i - 1, (e[i].0, v));
      assert [e[0]] + e[1..] == e;
    }
  }

  /** Position of the first entry with key k, or |e| when there is none. */
  function KeyIndex(e: Entries, k: string): (i: nat)
    ensures i <= |e|
    ensures Has(e, k) <==> i < |e|
    ensures i < |e| ==> e[i].0 == k
    ensures forall j :: 0 <= j < i ==> e[j].0 != k
  {
    if e == [] then 0
    else if e[0].0 == k then 0
    else 1 + KeyIndex(e[1..], k)
  }

  /** Cutting element j + 1 out of x : t is x : (t with element j cut out). */
  lemma ConsSplice(x: (string, string), t: Entries, j: nat)
    ensures j < |t| ==> [x] + (t[..j] + t[j + 1..]) == ([x] + t)[..j + 1] + ([x] + t)[j + 2..]
  {
    if j < |t| {
      assert ([x] + t)[..j + 1] == [x] + t[..j];
      assert ([x] + t)[j + 2..] == t[j + 1..];
    }
  }

  /**
   * `map.delete(k)`. With a present key exactly its entry goes; the others keep
   * their order.
   */
  function Delete(e: Entries, k: string): (r: Entries)
    ensures ToMap(r) == ToMap(e) - {k}
    ensures |r| <= |e|
    ensures !Has(r, k)
    ensures forall k' :: k' != k ==> (Has(r, k') <==> Has(e, k'))
    ensures !Has(e, k) ==> r == e
    ensures UniqueKeys(e) ==> UniqueKeys(r)
    ensures UniqueKeys(e) && Has(e, k) ==> r == e[..KeyIndex(e, k)] + e[KeyIndex(e, k) + 1..]
  {
    if e == [] then []
    else
      var rest := Delete(e[1..], k);
      if e[0].0 == k then
        RemoveUpdated(ToMap(e[1..]), k, e[0].1);
        assert e[..0] + e[1..] == e[1..];
        rest
      else
        ToMapCons(e[0], rest);
        RemoveUpdate(ToMap(e[1..]), k, e[0].0, e[0].1);
        assert [e[0]] + e[1..] == e;
        ConsSplice(e[0], e[1..], KeyIndex(e[1..], k));
        [e[0]] + rest
  }

  /** The same fact with the position as a witness: some entry with key k is cut out. */
  lemma DeletePresent(e: Entries, k: string)
    requires UniqueKeys(e) && Has(e, k)
    ensures exists i :: 0 <= i < |e| && e[i].0 == k && Delete(e, k) == e[..i] + e[i + 1..]
  {
    var i := KeyIndex(e, k);
    assert e[i].0 == k && Delete(e, k) == e[..i] + e[i + 1..];
  }

  /** Deleting a key that was just appended gives back exactly the entries before. */
  lemma {:induction false} DeleteAppended(e: Entries, k: string, v: string)
    requires !Has(e, k)
    ensures Delete(e + [(k, v)], k) == e
  {
    if e != [] {
      assert (e + [(k, v)])[1..] == e[1..] + [(k, v)];
      DeleteAppended(e[1..], k, v);
    }
  }

  /** The entries with every value replaced by v, keys and order unchanged. */
  function WithAllValues(e: Entries, v: string): (r: Entries)
    ensures Keys(r) == Keys(e)
    ensures forall i :: 0 <= i < |r| ==> r[i].1 == v
  {
    seq(|e|, i requires 0 <= i < |e| => (e[i].0, v))
  }

  lemma {:induction false} WithAllValuesToMap(e: Entries, v: string)
    ensures ToMap(WithAllValues(e, v)).Keys == ToMap(e).Keys
    ensures forall k :: k in ToMap(WithAllValues(e, v)) ==> ToMap(WithAllValues(e, v))[k] == v
  {
    if e != [] {
      WithAllValuesToMap(e[1..], v);
      assert WithAllValues(e, v) == [(e[0].0, v)] + WithAllValues(e[1..], v);
    }
  }

  lemma {:induction false} WithAllValuesHas(e: Entries, v: string)
    ensures forall k :: Has(WithAllValues(e, v), k) <==> Has(e, k)
    ensures UniqueKeys(e) ==> UniqueKeys(WithAllValues(e, v))
  {
    if e != [] {
      WithAllValuesHas(e[1..], v);
      assert WithAllValues(e, v) == [(e[0].0, v)] + WithAllValues(e[1..], v);
    }
  }
}
