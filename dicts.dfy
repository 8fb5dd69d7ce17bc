/** Python dictionaries with string keys: insertion-ordered sequences of entries. */
module Dicts {
  import opened Wrappers

  type Dict<V> = seq<(string, V)>

  function Keys<V>(d: Dict<V>): (ks: seq<string>)
    ensures |ks| == |d| && forall i :: 0 <= i < |d| ==> ks[i] == d[i].0
  {
    if |d| == 0 then [] else [d[0].0] + Keys(d[1..])
  }

  /** `k in d` */
  predicate HasKey<V>(d: Dict<V>, k: string) {
    k in Keys(d)
  }

  /** No key occurs twice, as in every Python dict. */
  predicate UniqueKeys<V>(d: Dict<V>) {
    forall i, j :: 0 <= i < j < |d| ==> d[i].0 != d[j].0
  }

  /** `d.get(k)` */
  function Get<V>(d: Dict<V>, k: string): (r: Option<V>)
    ensures r.Some? <==> HasKey(d, k)
  {
    if |d| == 0 then None else if d[0].0 == k then Some(d[0].1) else Get(d[1..], k)
  }

  /** `d.get(k, default)` */
  function GetOr<V>(d: Dict<V>, k: string, default: V): V {
    match Get(d, k)
    case Some(v) => v
    case None => default
  }

  /** `d[k] = v`: replaces the value in place when `k` is present, appends otherwise. */
  function Set<V>(d: Dict<V>, k: string, v: V): (r: Dict<V>)
    ensures |r| == if HasKey(d, k) then |d| else |d| + 1
  {
    if |d| == 0 then [(k, v)]
    else if d[0].0 == k then [(k, v)] + d[1..]
    else [d[0]] + Set(d[1..], k, v)
  }

  /** `d.setdefault(k, v)` (the returned value is not used by the modelled code) */
  function SetDefault<V>(d: Dict<V>, k: string, v: V): Dict<V> {
    if HasKey(d, k) then d else Set(d, k, v)
  }

  /** `d.pop(k)` with the key's first entry removed */
  function Remove<V>(d: Dict<V>, k: string): (r: Dict<V>)
    ensures |r| <= |d|
  {
    if |d| == 0 then [] else if d[0].0 == k then d[1..] else [d[0]] + Remove(d[1..], k)
  }

  /** `d.update(e)` */
  function Update<V>(d: Dict<V>, e: Dict<V>): Dict<V>
    decreases |e|
  {
    if |e| == 0 then d else Update(Set(d, e[0].0, e[0].1), e[1..])
  }

  /** The dict as a mathematical map: Python's dict equality ignores insertion order. */
  function ToMap<V>(d: Dict<V>): map<string, V> {
    if |d| == 0 then map[] else ToMap(d[1..])[d[0].0 := d[0].1]
  }

  /** After `d[k] = v`, `d[k]` is `v`. */
  lemma {:induction false} GetSetSame<V>(d: Dict<V>, k: string, v: V)
    ensures Get(Set(d, k, v), k) == Some(v)
  {
    if |d| > 0 && d[0].0 != k {
      GetSetSame(d[1..], k, v);
    }
  }

  /** `d[k] = v` leaves every other key's value alone. */
  lemma {:induction false} GetSetOther<V>(d: Dict<V>, k: string, v: V, k': string)
    requires k' != k
    ensures Get(Set(d, k, v), k') == Get(d, k')
  {
    if |d| > 0 && d[0].0 != k {
      GetSetOther(d[1..], k, v, k');
    }
  }

  /** `d[k] = v` keeps the key order, appending a new key at the end. */
  lemma {:induction false} KeysSet<V>(d: Dict<V>, k: string, v: V)
    ensures Keys(Set(d, k, v)) == if HasKey(d, k) then Keys(d) else Keys(d) + [k]
  {
    if |d| > 0 {
      assert Keys(d) == [d[0].0] + Keys(d[1..]);
      if d[0].0 != k {
        KeysSet(d[1..], k, v);
        assert HasKey(d, k) <==> HasKey(d[1..], k);
      }
    }
  }

  lemma {:induction false} HasKeySet<V>(d: Dict<V>, k: string, v: V, k': string)
    ensures HasKey(Set(d, k, v), k') <==> k' == k || HasKey(d, k')
  {
    KeysSet(d, k, v);
  }

  /** Assignment never creates a duplicate key. */
  lemma {:induction false} SetUnique<V>(d: Dict<V>, k: string, v: V)
    requires UniqueKeys(d)
    ensures UniqueKeys(Set(d, k, v))
  {
    KeysSet(d, k, v);
    var r := Set(d, k, v);
    var ks := Keys(r);
    forall i, j | 0 <= i < j < |r| ensures r[i].0 != r[j].0 {
      assert ks[i] == r[i].0 && ks[j] == r[j].0;
      if !HasKey(d, k) && j == |d| {
        assert ks[i] == Keys(d)[i];
      } else {
        assert ks[i] == Keys(d)[i] && ks[j] == Keys(d)[j];
      }
    }
  }

  /** After `d.update(e)` every key of `e` carries `e`'s value. */
  lemma {:induction false} GetUpdate<V>(d: Dict<V>, e: Dict<V>, k: string)
    requires UniqueKeys(e)
    ensures Get(Update(d, e), k) == if HasKey(e, k) then Get(e, k) else Get(d, k)
    decreases |e|
  {
    if |e| > 0 {
      assert Keys(e) == [e[0].0] + Keys(e[1..]);
      assert UniqueKeys(e[1..]) by {
        forall i, j | 0 <= i < j < |e| - 1 ensures e[1..][i].0 != e[1..][j].0 {
          assert e[1..][i] == e[i + 1] && e[1..][j] == e[j + 1];
        }
      }
      GetUpdate(Set(d, e[0].0, e[0].1), e[1..], k);
      if k == e[0].0 {
        assert !HasKey(e[1..], k) by {
          forall i | 0 <= i < |e| - 1 ensures Keys(e[1..])[i] != k {
            assert Keys(e[1..])[i] == e[i + 1].0;
          }
        }
        GetSetSame(d, k, e[0].1);
      } else {
        GetSetOther(d, e[0].0, e[0].1, k);
      }
    }
  }

  /** The map view agrees with lookups. */
  lemma {:induction false} ToMapGet<V>(d: Dict<V>, k: string)
    ensures k in ToMap(d) <==> HasKey(d, k)
    ensures k in ToMap(d) ==> Get(d, k) == Some(ToMap(d)[k])
  {
    if |d| > 0 {
      assert Keys(d) == [d[0].0] + Keys(d[1..]);
      ToMapGet(d[1..], k);
    }
  }
  /** Assigning a new key appends exactly one entry. */
  lemma {:induction false} SetAbsent<V>(d: Dict<V>, k: string, v: V)
    requires !HasKey(d, k)
    ensures Set(d, k, v) == d + [(k, v)]
  {
    if |d| > 0 {
      assert Keys(d) == [d[0].0] + Keys(d[1..]);
      SetAbsent(d[1..], k, v);
      assert [d[0]] + (d[1..] + [(k, v)]) == d + [(k, v)];
    }
  }

  /** A key held only by the last entry is found there, and reassigning it rewrites that entry. */
  lemma {:induction false} LastEntry<V>(d: Dict<V>, k: string, x: V, y: V)
    requires !HasKey(d, k)
    ensures Get(d + [(k, x)], k) == Some(x)
    ensures Set(d + [(k, x)], k, y) == d + [(k, y)]
  {
    if |d| == 0 {
      assert d + [(k, x)] == [(k, x)];
    } else {
      assert Keys(d) == [d[0].0] + Keys(d[1..]);
      LastEntry(d[1..], k, x, y);
      assert (d + [(k, x)])[1..] == d[1..] + [(k, x)];
      assert [d[0]] + (d[1..] + [(k, y)]) == d + [(k, y)];
    }
  }

  /** `d.update(e)` for keys new to `d` appends `e`. */
  lemma {:induction false} UpdateFresh<V>(d: Dict<V>, e: Dict<V>)
    requires UniqueKeys(e)
    requires forall i :: 0 <= i < |e| ==> !HasKey(d, e[i].0)
    ensures Update(d, e) == d + e
    decreases |e|
  {
    if |e| > 0 {
      SetAbsent(d, e[0].0, e[0].1);
      FreshTail(d, e);
      UpdateFresh(d + [e[0]], e[1..]);
      SnocHead(d, e);
    }
  }

  /** With `e`'s first entry added to `d`, the rest of `e` is still unique and new to it. */
  lemma FreshTail<V>(d: Dict<V>, e: Dict<V>)
    requires |e| > 0 && UniqueKeys(e)
    requires forall i :: 0 <= i < |e| ==> !HasKey(d, e[i].0)
    ensures UniqueKeys(e[1..])
    ensures forall i :: 0 <= i < |e| - 1 ==> !HasKey(d + [e[0]], e[1..][i].0)
  {
    KeysAppend(d, [e[0]]);
    forall i | 0 <= i < |e| - 1 ensures !HasKey(d + [e[0]], e[1..][i].0) {
      assert e[1..][i] == e[i + 1];
      assert Keys([e[0]]) == [e[0].0];
    }
    forall i, j | 0 <= i < j < |e| - 1 ensures e[1..][i].0 != e[1..][j].0 {
      assert e[1..][i] == e[i + 1] && e[1..][j] == e[j + 1];
    }
  }

  /** Moving the first entry of `e` onto `d` keeps the concatenation. */
  lemma SnocHead<V>(d: Dict<V>, e: Dict<V>)
    requires |e| > 0
    ensures (d + [e[0]]) + e[1..] == d + e
  {
    assert e == [e[0]] + e[1..];
  }

  /** Looking a key up in two dicts laid end to end: the first one wins. */
  lemma {:induction false} GetAppend<V>(a: Dict<V>, b: Dict<V>, k: string)
    ensures Get(a + b, k) == if HasKey(a, k) then Get(a, k) else Get(b, k)
    decreases |a|
  {
    if |a| > 0 {
      assert (a + b)[1..] == a[1..] + b;
      assert Keys(a) == [a[0].0] + Keys(a[1..]);
      GetAppend(a[1..], b, k);
    } else {
      assert a + b == b;
    }
  }

  /** The keys of two dicts laid end to end. */
  lemma KeysAppend<V>(a: Dict<V>, b: Dict<V>)
    ensures Keys(a + b) == Keys(a) + Keys(b)
  {
    assert forall i :: 0 <= i < |a + b| ==> Keys(a + b)[i] == (Keys(a) + Keys(b))[i];
  }

  /** The value of a key is the one at its first position. */
  lemma {:induction false} GetFirstAt<V>(d: Dict<V>, k: string, i: nat)
    requires i < |d| && d[i].0 == k
    requires forall j :: 0 <= j < i ==> d[j].0 != k
    ensures Get(d, k) == Some(d[i].1)
    decreases i
  {
    if i > 0 {
      GetFirstAt(d[1..], k, i - 1);
    }
  }

  /** `d.update(e)` for a key `e` does not hold leaves its value alone. */
  lemma {:induction false} GetUpdateAbsent<V>(d: Dict<V>, e: Dict<V>, k: string)
    requires forall j :: 0 <= j < |e| ==> e[j].0 != k
    ensures Get(Update(d, e), k) == Get(d, k)
    decreases |e|
  {
    if |e| > 0 {
      GetSetOther(d, e[0].0, e[0].1, k);
      GetUpdateAbsent(Set(d, e[0].0, e[0].1), e[1..], k);
    }
  }

  /** After `d.update(e)` a key that `e` holds exactly once carries `e`'s value. */
  lemma {:induction false} GetUpdateOnce<V>(d: Dict<V>, e: Dict<V>, k: string, i: nat)
    requires i < |e| && e[i].0 == k
    requires forall j :: 0 <= j < |e| && j != i ==> e[j].0 != k
    ensures Get(Update(d, e), k) == Some(e[i].1)
    decreases |e|
  {
    if i == 0 {
      GetSetSame(d, k, e[0].1);
      GetUpdateAbsent(Set(d, k, e[0].1), e[1..], k);
    } else {
      GetUpdateOnce(Set(d, e[0].0, e[0].1), e[1..], k, i - 1);
    }
  }
  /** `d.pop(k)` leaves every other key's value alone. */
  lemma {:induction false} GetRemoveOther<V>(d: Dict<V>, k: string, k': string)
    requires k != k'
    ensures Get(Remove(d, k), k') == Get(d, k')
    decreases |d|
  {
    if |d| > 0 && d[0].0 != k {
      GetRemoveOther(d[1..], k, k');
      assert ([d[0]] + Remove(d[1..], k))[1..] == Remove(d[1..], k);
    }
  }

  /** In a dict without duplicate keys, `d.pop(k)` keeps only entries of `d`, none of them for `k`. */
  lemma {:induction false} RemoveEntries<V>(d: Dict<V>, k: string)
    requires UniqueKeys(d)
    ensures UniqueKeys(Remove(d, k))
    ensures forall i :: 0 <= i < |Remove(d, k)| ==> Remove(d, k)[i] in d && Remove(d, k)[i].0 != k
    decreases |d|
  {
    if |d| > 0 {
      var t := Remove(d[1..], k);
      RemoveEntries(d[1..], k);
      if d[0].0 != k {
        assert Remove(d, k) == [d[0]] + t;
        forall j | 0 <= j < |t| ensures t[j].0 != d[0].0 {
          var m :| 0 <= m < |d[1..]| && d[1..][m] == t[j];
          assert d[m + 1] == t[j];
        }
      } else {
        forall j | 0 <= j < |t| ensures t[j].0 != k {
          var m :| 0 <= m < |d[1..]| && d[1..][m] == t[j];
          assert d[m + 1] == t[j];
        }
      }
    }
  }

  /** A key is present exactly when some entry carries it. */
  lemma HasKeyAt<V>(d: Dict<V>, k: string)
    ensures HasKey(d, k) <==> exists i :: 0 <= i < |d| && d[i].0 == k
  {
    if HasKey(d, k) {
      var i :| 0 <= i < |Keys(d)| && Keys(d)[i] == k;
    }
  }
}
