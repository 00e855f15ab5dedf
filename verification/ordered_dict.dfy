/** An insertion-ordered dictionary (Python's `dict`) as an association
    list: keys keep the position of their first insertion, and assigning to
    an existing key replaces its value in place. */
module OrderedDict {
  import opened Wrappers

  type Dict<V> = seq<(string, V)>

  predicate HasKey<V>(d: Dict<V>, k: string) {
    exists i :: 0 <= i < |d| && d[i].0 == k
  }

  predicate DistinctKeys<V>(d: Dict<V>) {
    forall i, j :: 0 <= i < j < |d| ==> d[i].0 != d[j].0
  }

  /** `d.get(k)`: the value of the first entry under `k`. */
  function Get<V>(d: Dict<V>, k: string): (r: Option<V>)
    ensures r.Some? <==> HasKey(d, k)
  {
    if |d| == 0 then None
    else if d[0].0 == k then Some(d[0].1)
    else
      HasKeyTail(d, k);
      Get(d[1..], k)
  }

  /** A value `Get` returns is stored in the dictionary under that key. */
  lemma {:induction false} GetStored<V>(d: Dict<V>, k: string)
    requires Get(d, k).Some?
    ensures exists i :: 0 <= i < |d| && d[i] == (k, Get(d, k).value)
  {
    if d[0].0 == k {
      assert d[0] == (k, Get(d, k).value);
    } else {
      GetStored(d[1..], k);
      var i :| 0 <= i < |d[1..]| && d[1..][i] == (k, Get(d, k).value);
      assert d[i + 1] == (k, Get(d, k).value);
    }
  }

  lemma HasKeyTail<V>(d: Dict<V>, k: string)
    requires |d| > 0 && d[0].0 != k
    ensures HasKey(d, k) <==> HasKey(d[1..], k)
  {
    if HasKey(d, k) {
      var i :| 0 <= i < |d| && d[i].0 == k;
      assert d[1..][i - 1].0 == k;
    }
    if HasKey(d[1..], k) {
      var i :| 0 <= i < |d[1..]| && d[1..][i].0 == k;
      assert d[i + 1].0 == k;
    }
  }

  /** `d[k] = v`: replaces the value of an existing key in place, or
      appends a new entry. */
  function Set<V>(d: Dict<V>, k: string, v: V): (r: Dict<V>)
    ensures |r| == if HasKey(d, k) then |d| else |d| + 1
  {
    if |d| == 0 then [(k, v)]
    else if d[0].0 == k then [(k, v)] + d[1..]
    else
      HasKeyTail(d, k);
      [d[0]] + Set(d[1..], k, v)
  }

  /** Assigning to a new key appends it. */
  lemma {:induction false} SetNew<V>(d: Dict<V>, k: string, v: V)
    requires !HasKey(d, k)
    ensures Set(d, k, v) == d + [(k, v)]
  {
    if |d| > 0 {
      HasKeyTail(d, k);
      SetNew(d[1..], k, v);
      assert d == [d[0]] + d[1..];
    }
  }

  /** After `d[k] = v`, `k` reads `v` and every other key reads what it
      read before. */
  lemma {:induction false} GetSet<V>(d: Dict<V>, k: string, v: V, k': string)
    ensures Get(Set(d, k, v), k') == if k' == k then Some(v) else Get(d, k')
  {
    if |d| > 0 && d[0].0 != k {
      GetSet(d[1..], k, v, k');
      assert Set(d, k, v)[1..] == Set(d[1..], k, v);
    } else if |d| > 0 {
      assert Set(d, k, v)[1..] == d[1..];
    }
  }

  /** Assignment keeps the existing keys where they are, appends a new key
      last, and so keeps keys distinct. */
  lemma {:induction false} SetKeepsOrder<V>(d: Dict<V>, k: string, v: V)
    ensures forall i :: 0 <= i < |d| ==> Set(d, k, v)[i].0 == d[i].0
    ensures !HasKey(d, k) ==> Set(d, k, v)[|d|] == (k, v)
    ensures DistinctKeys(d) ==> DistinctKeys(Set(d, k, v))
  {
    if |d| > 0 && d[0].0 != k {
      SetKeepsOrder(d[1..], k, v);
      HasKeyTail(d, k);
      var rest := Set(d[1..], k, v);
      assert Set(d, k, v) == [d[0]] + rest;
      SetKeepsDistinct(d, k, v, rest, Set(d, k, v));
    } else if |d| > 0 {
      assert Set(d, k, v)[1..] == d[1..];
    }
  }

  lemma SetKeepsDistinct<V>(d: Dict<V>, k: string, v: V, rest: Dict<V>, r: Dict<V>)
    requires |d| > 0 && d[0].0 != k && r == [d[0]] + rest
    requires |rest| == if HasKey(d[1..], k) then |d| - 1 else |d|
    requires forall i :: 0 <= i < |d| - 1 ==> rest[i].0 == d[i + 1].0
    requires !HasKey(d[1..], k) ==> rest[|d| - 1] == (k, v)
    requires DistinctKeys(d[1..]) ==> DistinctKeys(rest)
    ensures DistinctKeys(d) ==> DistinctKeys(r)
  {
    if DistinctKeys(d) {
      assert DistinctKeys(d[1..]);
      forall j | 0 < j < |r| ensures r[j].0 != d[0].0 {
        if j - 1 < |d| - 1 {
          assert r[j].0 == d[j].0;
        } else {
          assert r[j].0 == k;
        }
      }
    }
  }
}
