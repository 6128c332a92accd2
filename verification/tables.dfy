/** A JPA repository seen as a table: the rows it holds, in storage order, each keyed by
    its primary key. `Get` is `findById`, `Save` is `save` (update the row with that key,
    or insert one), `Delete` is `deleteById`. */
module Tables {
  import opened Common

  datatype Row<K, R> = Row(key: K, rec: R)

  type Table<K, R> = seq<Row<K, R>>

  /** The primary keys present in a table. */
  function Keys<K, R>(t: Table<K, R>): (ks: set<K>)
    ensures forall i :: 0 <= i < |t| ==> t[i].key in ks
    ensures forall k :: k in ks ==> exists i :: 0 <= i < |t| && t[i].key == k
  {
    if |t| == 0 then {} else {t[0].key} + Keys(t[1..])
  }

  /** No primary key is held by two rows. */
  ghost predicate UniqueKeys<K, R>(t: Table<K, R>) {
    |t| == 0 || (t[0].key !in Keys(t[1..]) && UniqueKeys(t[1..]))
  }

  /** `findById`: the record stored under `k`, if any. */
  function Get<K(==), R>(t: Table<K, R>, k: K): (r: Option<R>)
    ensures r.Some? <==> k in Keys(t)
    ensures r.Some? ==> Row(k, r.value) in t
  {
    if |t| == 0 then None
    else if t[0].key == k then Some(t[0].rec)
    else Get(t[1..], k)
  }

  /** `save`: the row keyed `k` now holds `v`; a key not yet present gets a new last row. */
  function Save<K(==,!new), R>(t: Table<K, R>, k: K, v: R): (r: Table<K, R>)
    ensures Get(r, k) == Some(v)
    ensures forall k' :: k' != k ==> Get(r, k') == Get(t, k')
    ensures Keys(r) == Keys(t) + {k}
    ensures k in Keys(t) ==> |r| == |t|
    ensures k !in Keys(t) ==> r == t + [Row(k, v)]
    ensures UniqueKeys(t) ==> UniqueKeys(r)
  {
    if |t| == 0 then [Row(k, v)]
    else if t[0].key == k then [Row(k, v)] + t[1..]
    else
      HeadThenAppended(t, Row(k, v));
      [t[0]] + Save(t[1..], k, v)
  }

  /** A sequence's head followed by the rest with one element appended is the sequence with
      that element appended. */
  lemma HeadThenAppended<T>(t: seq<T>, x: T)
    requires |t| > 0
    ensures [t[0]] + (t[1..] + [x]) == t + [x]
  {
  }

  /** Saving under the key of a stored row rewrites that row where it stands. */
  lemma {:induction false} SaveInPlace<K(!new), R>(t: Table<K, R>, i: nat, v: R)
    requires UniqueKeys(t) && i < |t|
    ensures Save(t, t[i].key, v) == t[i := Row(t[i].key, v)]
  {
    var k := t[i].key;
    HeadThenUpdated(t, i, Row(k, v));
    if i > 0 {
      assert t[i] == t[1..][i - 1];
      assert k in Keys(t[1..]);
      SaveInPlace(t[1..], i - 1, v);
    }
  }

  /** Updating position `i` of a sequence, seen as its head followed by the rest. */
  lemma HeadThenUpdated<T>(t: seq<T>, i: nat, x: T)
    requires i < |t|
    ensures i == 0 ==> [x] + t[1..] == t[i := x]
    ensures i > 0 ==> [t[0]] + t[1..][i - 1 := x] == t[i := x]
  {
  }

  /** `deleteById`: every row keyed `k` is gone and nothing else changes. */
  function Delete<K(==,!new), R>(t: Table<K, R>, k: K): (r: Table<K, R>)
    ensures Get(r, k) == None
    ensures forall k' :: k' != k ==> Get(r, k') == Get(t, k')
    ensures Keys(r) == Keys(t) - {k}
    ensures |r| <= |t|
    ensures UniqueKeys(t) ==> UniqueKeys(r)
  {
    if |t| == 0 then []
    else if t[0].key == k then Delete(t[1..], k)
    else [t[0]] + Delete(t[1..], k)
  }

  /** A derived query (`findByOwnerId`, `findByStatus`, ...): the rows meeting `p`, in
      storage order. */
  function Select<K(!new), R(!new)>(t: Table<K, R>, p: Row<K, R> -> bool): (rows: Table<K, R>)
    ensures forall row :: row in rows <==> row in t && p(row)
    ensures forall row {:trigger multiset(rows)[row]} :: multiset(rows)[row] == if p(row) then multiset(t)[row] else 0
  {
    if |t| == 0 then []
    else
      var rest := Select(t[1..], p);
      assert t == [t[0]] + t[1..];
      if p(t[0]) then [t[0]] + rest else rest
  }

  /** A derived query introduces no key, and a selection of a table without duplicate keys
      has none either. */
  lemma {:induction false} SelectKeys<K(!new), R(!new)>(t: Table<K, R>, p: Row<K, R> -> bool)
    ensures Keys(Select(t, p)) <= Keys(t)
    ensures UniqueKeys(t) ==> UniqueKeys(Select(t, p))
  {
    if |t| > 0 {
      SelectKeys(t[1..], p);
    }
  }

  /** The records of a table in storage order (what `findAll` returns, without keys). */
  function Records<K, R>(t: Table<K, R>): (rs: seq<R>)
    ensures |rs| == |t| && forall i :: 0 <= i < |t| ==> rs[i] == t[i].rec
  {
    MapSeq(t, (row: Row<K, R>) => row.rec)
  }

  /** The largest key of a table whose keys are database-generated numbers (0 when empty). */
  function MaxKey<R>(t: Table<nat, R>): (m: nat)
    ensures forall k :: k in Keys(t) ==> k <= m
  {
    if |t| == 0 then 0
    else
      var rest := MaxKey(t[1..]);
      if t[0].key > rest then t[0].key else rest
  }

  /** The key an auto-increment column hands out to the next inserted row. */
  function NextKey<R>(t: Table<nat, R>): (k: nat)
    ensures k !in Keys(t)
    ensures k > 0
  {
    MaxKey(t) + 1
  }

  /** Appending a row adds exactly its key. */
  lemma {:induction false} KeysAppend<K, R>(t: Table<K, R>, row: Row<K, R>)
    ensures Keys(t + [row]) == Keys(t) + {row.key}
  {
    if |t| > 0 {
      KeysAppend(t[1..], row);
      assert (t + [row])[1..] == t[1..] + [row];
    }
  }

  /** Rows inserted one after another by `save` into a table with a generated key: each
      new record is appended under the next free key. */
  function Append<R>(t: Table<nat, R>, recs: seq<R>): (r: Table<nat, R>)
    ensures |r| == |t| + |recs|
    decreases |recs|
  {
    if |recs| == 0 then t
    else
      var prev := Append(t, recs[..|recs| - 1]);
      Save(prev, NextKey(prev), recs[|recs| - 1])
  }

  /** Appending one more record is one more `save` under the next free key. */
  lemma AppendStep<R>(t: Table<nat, R>, recs: seq<R>, x: R)
    ensures Append(t, recs + [x]) == Save(Append(t, recs), NextKey(Append(t, recs)), x)
  {
    assert (recs + [x])[..|recs|] == recs;
  }

  /** `Append` keeps the old rows in front, and with them their keys. */
  lemma {:induction false} AppendKeepsPrefix<R>(t: Table<nat, R>, recs: seq<R>)
    ensures Append(t, recs)[..|t|] == t
    ensures Keys(t) <= Keys(Append(t, recs))
    decreases |recs|
  {
    if |recs| > 0 {
      var prev := Append(t, recs[..|recs| - 1]);
      AppendKeepsPrefix(t, recs[..|recs| - 1]);
      var r := Append(t, recs);
      assert r == prev + [Row(NextKey(prev), recs[|recs| - 1])];
      assert r[..|t|] == prev[..|t|];
    }
  }

  /** After the old rows, `Append` holds one row per record, in order, each under a key the
      old rows do not hold; distinct keys stay distinct. */
  lemma {:induction false} AppendAddsRows<R>(t: Table<nat, R>, recs: seq<R>)
    ensures forall j :: |t| <= j < |t| + |recs| ==>
      Append(t, recs)[j].rec == recs[j - |t|] && Append(t, recs)[j].key !in Keys(t)
    ensures UniqueKeys(t) ==> UniqueKeys(Append(t, recs))
    decreases |recs|
  {
    if |recs| > 0 {
      var prev := Append(t, recs[..|recs| - 1]);
      AppendAddsRows(t, recs[..|recs| - 1]);
      AppendKeepsPrefix(t, recs[..|recs| - 1]);
      var r := Append(t, recs);
      var row := Row(NextKey(prev), recs[|recs| - 1]);
      assert r == prev + [row];
      assert row.key !in Keys(t);
      forall j | |t| <= j < |t| + |recs| - 1
        ensures r[j].rec == recs[j - |t|] && r[j].key !in Keys(t)
      {
        assert r[j] == prev[j];
      }
    }
  }

  /** A derived query over a table with rows appended, all of which satisfy it, is the query
      over the old rows followed by every appended row. */
  lemma SelectAppendedAll<R(!new)>(t: Table<nat, R>, recs: seq<R>, p: Row<nat, R> -> bool)
    requires forall j :: |t| <= j < |Append(t, recs)| ==> p(Append(t, recs)[j])
    ensures Select(Append(t, recs), p) == Select(t, p) + Append(t, recs)[|t|..]
  {
    var after := Append(t, recs);
    var added := after[|t|..];
    AppendKeepsPrefix(t, recs);
    assert after == t + added;
    forall i | 0 <= i < |added| ensures p(added[i]) {
      assert added[i] == after[|t| + i];
    }
    SelectConcat(t, added, p);
    SelectAll(added, p);
  }

  /** A derived query over a table with rows appended, none of which satisfy it, is the query
      over the old rows. */
  lemma SelectAppendedNone<R(!new)>(t: Table<nat, R>, recs: seq<R>, p: Row<nat, R> -> bool)
    requires forall j :: |t| <= j < |Append(t, recs)| ==> !p(Append(t, recs)[j])
    ensures Select(Append(t, recs), p) == Select(t, p)
  {
    var after := Append(t, recs);
    var added := after[|t|..];
    AppendKeepsPrefix(t, recs);
    assert after == t + added;
    forall i | 0 <= i < |added| ensures !p(added[i]) {
      assert added[i] == after[|t| + i];
    }
    SelectConcat(t, added, p);
    SelectNone(added, p);
    assert Select(t, p) + [] == Select(t, p);
  }

  /** A derived query over two runs of rows is the query over each, in order. */
  lemma {:induction false} SelectConcat<K(!new), R(!new)>(t: Table<K, R>, u: Table<K, R>, p: Row<K, R> -> bool)
    ensures Select(t + u, p) == Select(t, p) + Select(u, p)
  {
    if |t| == 0 {
      assert t + u == u;
    } else {
      var a, b := Select(t[1..], p), Select(u, p);
      SelectConcat(t[1..], u, p);
      assert (t + u)[1..] == t[1..] + u;
      assert (t + u)[0] == t[0];
      if p(t[0]) {
        SeqAssoc([t[0]], a, b);
      }
    }
  }

  lemma SeqAssoc<T>(x: seq<T>, y: seq<T>, z: seq<T>)
    ensures x + (y + z) == (x + y) + z
  {
  }

  /** A derived query keeps every row of a run all of whose rows satisfy it. */
  lemma {:induction false} SelectAll<K(!new), R(!new)>(u: Table<K, R>, p: Row<K, R> -> bool)
    requires forall i :: 0 <= i < |u| ==> p(u[i])
    ensures Select(u, p) == u
  {
    if |u| > 0 {
      SelectAll(u[1..], p);
      assert u == [u[0]] + u[1..];
    }
  }

  /** A derived query keeps nothing of a run none of whose rows satisfy it. */
  lemma {:induction false} SelectNone<K(!new), R(!new)>(u: Table<K, R>, p: Row<K, R> -> bool)
    requires forall i :: 0 <= i < |u| ==> !p(u[i])
    ensures Select(u, p) == []
  {
    if |u| > 0 {
      SelectNone(u[1..], p);
    }
  }

  /** In a table without duplicate keys, a row's record is the one `Get` finds. */
  lemma {:induction false} GetRow<K, R>(t: Table<K, R>, i: nat)
    requires UniqueKeys(t) && i < |t|
    ensures Get(t, t[i].key) == Some(t[i].rec)
  {
    if i > 0 {
      GetRow(t[1..], i - 1);
      assert t[i] == t[1..][i - 1];
    }
  }

  /** In a table without duplicate keys, any row it holds is what `Get` finds under its key. */
  lemma GetUnique<K, R>(t: Table<K, R>, row: Row<K, R>)
    requires UniqueKeys(t) && row in t
    ensures Get(t, row.key) == Some(row.rec)
  {
    var i :| 0 <= i < |t| && t[i] == row;
    GetRow(t, i);
  }

  /** The keys of a selection of rows (a derived query such as `findByOwnerId`) are the
      keys whose record satisfies the selecting condition. */
  lemma SelectedKeys<K, R>(t: Table<K, R>, sub: Table<K, R>, p: Row<K, R> -> bool, k: K)
    requires UniqueKeys(t)
    requires forall row :: row in sub <==> row in t && p(row)
    ensures k in Keys(sub) <==> Get(t, k).Some? && p(Row(k, Get(t, k).value))
  {
    if k in Keys(sub) {
      var i :| 0 <= i < |sub| && sub[i].key == k;
      assert sub[i] in sub;
      GetUnique(t, sub[i]);
    }
    if Get(t, k).Some? && p(Row(k, Get(t, k).value)) {
      var row := Row(k, Get(t, k).value);
      assert row in sub;
      var i :| 0 <= i < |sub| && sub[i] == row;
    }
  }

  /** Saving the same record under the same key twice leaves what saving it once leaves. */
  lemma {:induction false} SaveIdempotent<K(!new), R>(t: Table<K, R>, k: K, v: R)
    ensures Save(Save(t, k, v), k, v) == Save(t, k, v)
  {
    if |t| > 0 && t[0].key != k {
      SaveIdempotent(t[1..], k, v);
      assert Save(t, k, v)[1..] == Save(t[1..], k, v);
    }
  }

  /** In a table without duplicate keys, `deleteById` of a present key removes exactly the one
      row holding it. */
  lemma {:induction false} DeleteRemovesRow<K(!new), R>(t: Table<K, R>, k: K)
    requires UniqueKeys(t) && k in Keys(t)
    ensures multiset(Delete(t, k)) == multiset(t) - multiset{Row(k, Get(t, k).value)}
    ensures |Delete(t, k)| == |t| - 1
  {
    assert t == [t[0]] + t[1..];
    assert multiset(t) == multiset{t[0]} + multiset(t[1..]);
    if t[0].key == k {
      DeleteAbsent(t[1..], k);
    } else {
      DeleteRemovesRow(t[1..], k);
      assert Get(t, k) == Get(t[1..], k);
      assert multiset(Delete(t, k)) == multiset{t[0]} + multiset(Delete(t[1..], k));
    }
  }

  /** Deleting a key that no row holds changes nothing. */
  lemma {:induction false} DeleteAbsent<K(!new), R>(t: Table<K, R>, k: K)
    requires k !in Keys(t)
    ensures Delete(t, k) == t
  {
    if |t| > 0 {
      DeleteAbsent(t[1..], k);
      assert t == [t[0]] + t[1..];
    }
  }

  /** In a table without duplicate keys, a row occurs once (so a filter over it lists it once). */
  lemma {:induction false} RowOccursOnce<K, R>(t: Table<K, R>, row: Row<K, R>)
    requires UniqueKeys(t) && row in t
    ensures multiset(t)[row] == 1
  {
    assert t == [t[0]] + t[1..];
    if t[0] == row {
      assert row !in t[1..];
    } else {
      RowOccursOnce(t[1..], row);
    }
  }
}
