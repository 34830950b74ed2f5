/** A Python `dict`: an insertion-ordered sequence of key/value pairs. Assignment `d[k] = v`
    replaces the value in place when `k` is present and appends otherwise; `d.pop(k)` removes
    the entry; `d.update(e)` assigns the entries of `e` in `e`'s order. */
module PyDict {
  import opened Wrappers

  type Dict<V> = seq<(string, V)>

  function Keys<V>(d: Dict<V>): (ks: seq<string>)
    ensures |ks| == |d|
    ensures forall i :: 0 <= i < |d| ==> ks[i] == d[i].0
  {
    if |d| == 0 then [] else [d[0].0] + Keys(d[1..])
  }

  predicate DistinctKeys<V>(d: Dict<V>) {
    forall i, j :: 0 <= i < j < |d| ==> d[i].0 != d[j].0
  }

  /** `d.get(k)`: the value stored under `k`, None when `k` is not a key. */
  function Get<V>(d: Dict<V>, k: string): (r: Option<V>)
    ensures r.Some? <==> k in Keys(d)
    ensures r.Some? ==> exists i :: 0 <= i < |d| && d[i] == (k, r.value)
  {
    if |d| == 0 then None
    else if d[0].0 == k then Some(d[0].1)
    else Get(d[1..], k)
  }

  /** `d[k] = v`. */
  function Set<V>(d: Dict<V>, k: string, v: V): (r: Dict<V>)
    ensures Keys(r) == if k in Keys(d) then Keys(d) else Keys(d) + [k]
    ensures forall k' :: Get(r, k') == if k' == k then Some(v) else Get(d, k')
    decreases |d|
  {
    if |d| == 0 then [(k, v)]
    else if d[0].0 == k then [(k, v)] + d[1..]
    else [d[0]] + Set(d[1..], k, v)
  }

  lemma {:induction false} SetDistinct<V>(d: Dict<V>, k: string, v: V)
    requires DistinctKeys(d)
    ensures DistinctKeys(Set(d, k, v))
  {
    var r := Set(d, k, v);
    var ks := Keys(r);
    forall i, j | 0 <= i < j < |r| ensures r[i].0 != r[j].0 {
      assert ks[i] == r[i].0 && ks[j] == r[j].0;
      if k in Keys(d) {
        assert Keys(d)[i] == d[i].0 && Keys(d)[j] == d[j].0;
      } else if j < |d| {
        assert Keys(d)[i] == d[i].0 && Keys(d)[j] == d[j].0;
      } else {
        assert ks[j] == k && ks[i] == Keys(d)[i];
      }
    }
  }

  /** `d.pop(k)` when `k` is a key: the entry is removed and the others keep their order. */
  function Pop<V>(d: Dict<V>, k: string): (r: Dict<V>)
    ensures forall k' :: k' != k ==> Get(r, k') == Get(d, k')
    ensures DistinctKeys(d) ==> Get(r, k) == None
    ensures |r| <= |d|
    decreases |d|
  {
    if |d| == 0 then []
    else if d[0].0 == k then d[1..]
    else [d[0]] + Pop(d[1..], k)
  }

  lemma {:induction false} PopDistinct<V>(d: Dict<V>, k: string)
    requires DistinctKeys(d)
    ensures DistinctKeys(Pop(d, k))
    decreases |d|
  {
    if |d| > 0 && d[0].0 != k {
      var t := d[1..];
      assert DistinctKeys(t) by {
        forall i, j | 0 <= i < j < |t| ensures t[i].0 != t[j].0 {
          assert t[i] == d[i + 1] && t[j] == d[j + 1];
        }
      }
      PopDistinct(t, k);
      var p := Pop(t, k);
      var r := [d[0]] + p;
      assert d[0].0 !in Keys(t) by {
        forall i | 0 <= i < |t| ensures Keys(t)[i] != d[0].0 {
          assert t[i] == d[i + 1];
        }
      }
      assert Get(p, d[0].0) == None;
      forall i, j | 0 <= i < j < |r| ensures r[i].0 != r[j].0 {
        if i == 0 {
          assert r[j] == p[j - 1];
          assert Keys(p)[j - 1] == p[j - 1].0;
        } else {
          assert r[i] == p[i - 1] && r[j] == p[j - 1];
        }
      }
    } else if |d| > 0 {
      forall i, j | 0 <= i < j < |d[1..]| ensures d[1..][i].0 != d[1..][j].0 {
        assert d[1..][i] == d[i + 1] && d[1..][j] == d[j + 1];
      }
    }
  }

  /** `d.update(e)`. */
  function Update<V>(d: Dict<V>, e: Dict<V>): Dict<V>
    decreases |e|
  {
    if |e| == 0 then d else Update(Set(d, e[0].0, e[0].1), e[1..])
  }

  /** After `d.update(e)` a key holds `e`'s value when `e` has it and `d`'s otherwise. */
  lemma {:induction false} UpdateGet<V>(d: Dict<V>, e: Dict<V>, k: string)
    requires DistinctKeys(e)
    ensures Get(Update(d, e), k) == if k in Keys(e) then Get(e, k) else Get(d, k)
    decreases |e|
  {
    if |e| > 0 {
      assert DistinctKeys(e[1..]) by {
        forall i, j | 0 <= i < j < |e[1..]| ensures e[1..][i].0 != e[1..][j].0 {
          assert e[1..][i] == e[i + 1] && e[1..][j] == e[j + 1];
        }
      }
      UpdateGet(Set(d, e[0].0, e[0].1), e[1..], k);
      if k == e[0].0 {
        assert k !in Keys(e[1..]) by {
          forall i | 0 <= i < |e[1..]| ensures Keys(e[1..])[i] != k {
            assert e[1..][i] == e[i + 1];
          }
        }
      }
    }
  }

  /** `d.update(e)` is empty exactly when both are. */
  lemma UpdateEmptyIff<V>(d: Dict<V>, e: Dict<V>)
    ensures |Update(d, e)| == 0 <==> |d| == 0 && |e| == 0
  {
    UpdateKeys(d, e);
    if |e| > 0 {
      assert e[0].0 in Keys(e);
      assert e[0].0 in Keys(Update(d, e));
    }
  }

  /** `d.update(e)` keeps the keys of `d` in place and appends the new keys of `e`. */
  lemma {:induction false} UpdateKeys<V>(d: Dict<V>, e: Dict<V>)
    ensures |Update(d, e)| >= |d|
    ensures Keys(Update(d, e))[..|d|] == Keys(d)
    ensures forall k :: k in Keys(Update(d, e)) <==> k in Keys(d) || k in Keys(e)
    decreases |e|
  {
    if |e| > 0 {
      var d' := Set(d, e[0].0, e[0].1);
      UpdateKeys(d', e[1..]);
      assert Keys(d')[..|d|] == Keys(d);
      assert Keys(Update(d, e))[..|d|] == Keys(Update(d', e[1..]))[..|d'|][..|d|];
      forall k ensures k in Keys(e) <==> k == e[0].0 || k in Keys(e[1..]) {
        assert Keys(e) == [e[0].0] + Keys(e[1..]);
      }
    }
  }

  lemma {:induction false} UpdateDistinct<V>(d: Dict<V>, e: Dict<V>)
    requires DistinctKeys(d)
    ensures DistinctKeys(Update(d, e))
    decreases |e|
  {
    if |e| > 0 {
      SetDistinct(d, e[0].0, e[0].1);
      UpdateDistinct(Set(d, e[0].0, e[0].1), e[1..]);
    }
  }

  /** `{k: f(v) for k, v in d.items()}`. */
  function MapValues<V, W>(d: Dict<V>, f: V -> W): (r: Dict<W>)
    ensures Keys(r) == Keys(d)
    ensures forall k :: Get(r, k) == match Get(d, k) case Some(v) => Some(f(v)) case None => None
  {
    if |d| == 0 then [] else [(d[0].0, f(d[0].1))] + MapValues(d[1..], f)
  }

  /** The value of the last entry of `e` with key `k`: what `d.update(e)` leaves under `k`. */
  function LastGet<V>(e: Dict<V>, k: string): (r: Option<V>)
    ensures r.Some? <==> k in Keys(e)
    decreases |e|
  {
    if |e| == 0 then None
    else match LastGet(e[1..], k)
      case Some(v) => Some(v)
      case None => if e[0].0 == k then Some(e[0].1) else None
  }

  /** After `d.update(e)` a key holds the value of `e`'s last entry for it, and `d`'s value when
      `e` does not have it; `e` may repeat keys. */
  lemma {:induction false} UpdateGetLast<V>(d: Dict<V>, e: Dict<V>, k: string)
    ensures Get(Update(d, e), k) == match LastGet(e, k) case Some(v) => Some(v) case None => Get(d, k)
    decreases |e|
  {
    if |e| > 0 {
      UpdateGetLast(Set(d, e[0].0, e[0].1), e[1..], k);
    }
  }

  /** In a dict with distinct keys, `d[k] = v` for a present key replaces that entry in place. */
  lemma {:induction false} SetAt<V>(d: Dict<V>, p: nat, v: V)
    requires DistinctKeys(d) && p < |d|
    ensures Set(d, d[p].0, v) == d[p := (d[p].0, v)]
    decreases p
  {
    var k := d[p].0;
    if p != 0 {
      var q := p - 1;
      var t := d[1..];
      TailDistinct(d);
      assert t[q] == d[p];
      assert d[0].0 != k;
      SetAt(t, q, v);
      assert Set(d, k, v) == [d[0]] + Set(t, k, v);
      assert d[p := (k, v)] == [d[0]] + t[q := (k, v)];
    } else {
      assert Set(d, k, v) == [(k, v)] + d[1..];
    }
  }

  /** The entries after the first of a dict with distinct keys have distinct keys. */
  lemma TailDistinct<V>(d: Dict<V>)
    requires DistinctKeys(d) && |d| > 0
    ensures DistinctKeys(d[1..])
  {
    var t := d[1..];
    forall i, j | 0 <= i < j < |t| ensures t[i].0 != t[j].0 {
      assert t[i] == d[i + 1] && t[j] == d[j + 1];
    }
  }

  /** `d[k] = v` for a new key appends the entry. */
  lemma {:induction false} SetAppend<V>(d: Dict<V>, k: string, v: V)
    requires k !in Keys(d)
    ensures Set(d, k, v) == d + [(k, v)]
    decreases |d|
  {
    if |d| > 0 {
      assert Keys(d) == [d[0].0] + Keys(d[1..]);
      SetAppend(d[1..], k, v);
      assert d + [(k, v)] == [d[0]] + (d[1..] + [(k, v)]);
    }
  }

  /** Updating a dict with a dict that extends its keys gives that dict: every old value is
      overwritten in place and the new keys are appended in order. */
  lemma UpdateExtends<V>(d: Dict<V>, e: Dict<V>)
    requires DistinctKeys(e) && |d| <= |e| && Keys(d) == Keys(e)[..|d|]
    ensures Update(d, e) == e
  {
    assert e[0..] == e;
    UpdateFrom(d, e, 0);
  }

  /** `x` is `e` processed up to entry `m` by `Update`: its keys are a prefix of `e`'s and its
      first `m` entries are `e`'s. */
  ghost predicate UpdatedUpTo<V>(x: Dict<V>, e: Dict<V>, m: nat) {
    && DistinctKeys(e) && m <= |x| <= |e| && Keys(x) == Keys(e)[..|x|]
    && forall i :: 0 <= i < m ==> x[i] == e[i]
  }

  lemma {:induction false} UpdateFrom<V>(x: Dict<V>, e: Dict<V>, m: nat)
    requires UpdatedUpTo(x, e, m)
    ensures Update(x, e[m..]) == e
    decreases |e| - m
  {
    if m == |e| {
      forall i | 0 <= i < |x| ensures x[i] == e[i] { }
      assert x == e;
    } else {
      UpdateStep(x, e, m);
      assert e[m..][0] == e[m] && e[m..][1..] == e[m + 1..];
      UpdateFrom(Set(x, e[m].0, e[m].1), e, m + 1);
    }
  }

  lemma UpdateStep<V>(x: Dict<V>, e: Dict<V>, m: nat)
    requires UpdatedUpTo(x, e, m) && m < |e|
    ensures UpdatedUpTo(Set(x, e[m].0, e[m].1), e, m + 1)
  {
    forall i | 0 <= i < |x| ensures x[i].0 == e[i].0 {
      assert Keys(x)[i] == x[i].0 && Keys(e)[i] == e[i].0;
    }
    if m < |x| {
      assert DistinctKeys(x);
      SetAt(x, m, e[m].1);
      UpdateStepInPlace(x, e, m);
    } else {
      assert e[m].0 !in Keys(x) by {
        forall i | 0 <= i < |x| ensures Keys(x)[i] != e[m].0 {
          assert Keys(x)[i] == e[i].0;
        }
      }
      SetAppend(x, e[m].0, e[m].1);
      UpdateStepAppend(x, e, m);
    }
  }

  lemma UpdateStepInPlace<V>(x: Dict<V>, e: Dict<V>, m: nat)
    requires UpdatedUpTo(x, e, m) && m < |x|
    requires forall i :: 0 <= i < |x| ==> x[i].0 == e[i].0
    ensures UpdatedUpTo(x[m := e[m]], e, m + 1)
  {
    var x' := x[m := e[m]];
    forall i | 0 <= i < |x'| ensures Keys(x')[i] == Keys(e)[i] {
      assert Keys(x')[i] == x'[i].0 && Keys(e)[i] == e[i].0;
    }
    assert Keys(x') == Keys(e)[..|x'|];
  }

  lemma UpdateStepAppend<V>(x: Dict<V>, e: Dict<V>, m: nat)
    requires UpdatedUpTo(x, e, m) && m == |x| < |e|
    requires forall i :: 0 <= i < |x| ==> x[i].0 == e[i].0
    ensures UpdatedUpTo(x + [e[m]], e, m + 1)
  {
    var x' := x + [e[m]];
    forall i | 0 <= i < |x'| ensures Keys(x')[i] == Keys(e)[i] {
      assert Keys(x')[i] == x'[i].0 && Keys(e)[i] == e[i].0;
    }
    assert Keys(x') == Keys(e)[..|x'|];
  }

  /** Updating a dict with distinct keys from the empty dict copies it. */
  lemma UpdateEmpty<V>(e: Dict<V>)
    requires DistinctKeys(e)
    ensures Update([], e) == e
  {
    UpdateExtends([], e);
  }
}
