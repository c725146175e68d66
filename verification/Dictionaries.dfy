/** Python dictionaries as lists of entries, in order of insertion. */
module Dictionaries {

  datatype Entry<+V> = Entry(key: string, value: V)

  type Entries<+V> = seq<Entry<V>>

  /** `d[k] = v`: a key keeps its place, a new one goes last. */
  function Put<V>(d: Entries<V>, k: string, v: V): Entries<V> {
    if d == [] then [Entry(k, v)]
    else if d[0].key == k then [Entry(k, v)] + d[1..]
    else [d[0]] + Put(d[1..], k, v)
  }

  /** Entries put in one after the other. */
  function PutAll<V>(d: Entries<V>, entries: Entries<V>): Entries<V>
    decreases |entries|
  {
    if entries == [] then d else PutAll(Put(d, entries[0].key, entries[0].value), entries[1..])
  }

  predicate DistinctKeys<V>(d: Entries<V>) {
    forall i, j :: 0 <= i < j < |d| ==> d[i].key != d[j].key
  }

  predicate HasKey<V>(d: Entries<V>, k: string) {
    exists i :: 0 <= i < |d| && d[i].key == k
  }

  lemma {:induction false} PutGrows<V>(d: Entries<V>, k: string, v: V)
    ensures HasKey(d, k) ==> |Put(d, k, v)| == |d|
    ensures !HasKey(d, k) ==> Put(d, k, v) == d + [Entry(k, v)]
  {
    if d != [] && d[0].key != k {
      PutGrows(d[1..], k, v);
      assert HasKey(d, k) <==> HasKey(d[1..], k) by {
        if HasKey(d, k) {
          var i :| 0 <= i < |d| && d[i].key == k;
          assert d[1..][i - 1].key == k;
        }
        if HasKey(d[1..], k) {
          var i :| 0 <= i < |d[1..]| && d[1..][i].key == k;
          assert d[i + 1].key == k;
        }
      }
    } else if d != [] {
      assert d[0].key == k;
    }
  }

  lemma {:induction false} PutAllSize<V>(d: Entries<V>, entries: Entries<V>)
    ensures |PutAll(d, entries)| <= |d| + |entries|
    ensures DistinctKeys(d) ==> (DistinctKeys(d + entries) <==> |PutAll(d, entries)| == |d| + |entries|)
    ensures DistinctKeys(d + entries) ==> PutAll(d, entries) == d + entries
    decreases |entries|
  {
    hide Put, DistinctKeys, HasKey;
    if entries == [] {
      assert d + entries == d;
    } else {
      var Entry(k, v) := entries[0];
      PutGrows(d, k, v);
      PutAllSize(Put(d, k, v), entries[1..]);
      if HasKey(d, k) {
        KeyRepeated(d, entries);
      } else {
        assert d + entries == (d + [Entry(k, v)]) + entries[1..];
        NewKeyDistinct(d, Entry(k, v));
      }
    }
  }

  lemma KeyRepeated<V>(d: Entries<V>, entries: Entries<V>)
    requires entries != [] && HasKey(d, entries[0].key)
    ensures !DistinctKeys(d + entries)
  {
    var i :| 0 <= i < |d| && d[i].key == entries[0].key;
    assert (d + entries)[i].key == (d + entries)[|d|].key;
  }

  lemma NewKeyDistinct<V>(d: Entries<V>, e: Entry<V>)
    requires !HasKey(d, e.key)
    ensures DistinctKeys(d) ==> DistinctKeys(d + [e])
  {
  }

  /** The dictionary is the entries as written exactly when no key is repeated. */
  lemma DictIsAsWritten<V>(entries: Entries<V>)
    ensures PutAll([], entries) == entries <==> DistinctKeys(entries)
  {
    PutAllSize([], entries);
    assert [] + entries == entries;
  }

  /** A dictionary as long as its entries is its entries. */
  lemma SizeDecides<V>(entries: Entries<V>)
    ensures |PutAll([], entries)| == |entries| ==> PutAll([], entries) == entries
  {
    PutAllSize([], entries);
    assert [] + entries == entries;
  }

  /** Where a key is put first; the number of entries where it is not put at all. */
  function FirstPut<V>(entries: Entries<V>, k: string): (n: nat)
    ensures n <= |entries| && (n < |entries| ==> entries[n].key == k)
    ensures forall i :: 0 <= i < n ==> entries[i].key != k
  {
    if entries == [] || entries[0].key == k then 0 else 1 + FirstPut(entries[1..], k)
  }

  /** No later entry has the key of this one. */
  ghost predicate LastPut<V>(entries: Entries<V>, i: int) {
    0 <= i < |entries| && forall j :: i < j < |entries| ==> entries[j].key != entries[i].key
  }

  /** In a dictionary, a new value takes the old one's place. */
  lemma {:induction false} PutReplaces<V>(d: Entries<V>, k: string, v: V)
    requires DistinctKeys(d) && HasKey(d, k)
    ensures |Put(d, k, v)| == |d|
    ensures forall i :: 0 <= i < |d| ==> Put(d, k, v)[i] == if d[i].key == k then Entry(k, v) else d[i]
    decreases |d|
  {
    if d[0].key == k {
      assert forall j :: 0 < j < |d| ==> d[j].key != d[0].key;
    } else {
      KeyInTail(d, k);
      hide DistinctKeys, HasKey;
      PutReplaces(d[1..], k, v);
      var r := Put(d[1..], k, v);
      forall i | 0 <= i < |d| ensures ([d[0]] + r)[i] == if d[i].key == k then Entry(k, v) else d[i] {
        assert i > 0 ==> ([d[0]] + r)[i] == r[i - 1] && d[1..][i - 1] == d[i];
      }
    }
  }

  lemma KeyInTail<V>(d: Entries<V>, k: string)
    requires DistinctKeys(d) && HasKey(d, k) && d[0].key != k
    ensures DistinctKeys(d[1..]) && HasKey(d[1..], k)
  {
    var i :| 0 <= i < |d| && d[i].key == k;
    assert d[1..][i - 1].key == k;
  }

  lemma {:induction false} PutLast<V>(d: Entries<V>, entries: Entries<V>, e: Entry<V>)
    ensures PutAll(d, entries + [e]) == Put(PutAll(d, entries), e.key, e.value)
    decreases |entries|
  {
    hide Put;
    if entries == [] {
      assert entries + [e] == [e] && [e][1..] == [];
    } else {
      assert (entries + [e])[0] == entries[0] && (entries + [e])[1..] == entries[1..] + [e];
      PutLast(Put(d, entries[0].key, entries[0].value), entries[1..], e);
    }
  }

  /** What the dictionary of entries is: the last value of every key, the keys in the order in which they
      were put first. */
  ghost predicate IsDict<V>(d: Entries<V>, entries: Entries<V>) {
    && (forall i :: LastPut(entries, i) ==> entries[i] in d)
    && (forall e :: e in d ==> exists i :: LastPut(entries, i) && entries[i] == e)
    && (forall i, j :: 0 <= i < j < |d| ==> FirstPut(entries, d[i].key) < FirstPut(entries, d[j].key))
  }

  lemma {:induction false} DictIsLast<V>(entries: Entries<V>)
    ensures IsDict(PutAll([], entries), entries)
    decreases |entries|
  {
    hide IsDict;
    if entries == [] {
      NoDict<V>();
    } else {
      var n := |entries| - 1;
      DictIsLast(entries[..n]);
      PutLast([], entries[..n], entries[n]);
      assert entries[..n] + [entries[n]] == entries;
      DictGrows(PutAll([], entries[..n]), entries[..n], entries[n]);
    }
  }

  lemma NoDict<V>()
    ensures IsDict<V>([], [])
  {
  }

  lemma {:induction false} LastOfKey<V>(entries: Entries<V>, k: string) returns (i: nat)
    requires FirstPut(entries, k) < |entries|
    ensures LastPut(entries, i) && entries[i].key == k
    decreases |entries|
  {
    i := |entries| - 1;
    if entries[i].key != k {
      var n := FirstPut(entries, k);
      assert entries[..i][n].key == k;
      i := LastOfKey(entries[..i], k);
    }
  }

  lemma KeyOfDict<V>(d: Entries<V>, entries: Entries<V>, k: string)
    requires IsDict(d, entries)
    ensures HasKey(d, k) <==> FirstPut(entries, k) < |entries|
  {
    if HasKey(d, k) {
      var i :| 0 <= i < |d| && d[i].key == k;
      assert d[i] in d;
    }
    if FirstPut(entries, k) < |entries| {
      var i := LastOfKey(entries, k);
      var j :| 0 <= j < |d| && d[j] == entries[i];
    }
  }

  lemma DictKeysDiffer<V>(d: Entries<V>, entries: Entries<V>)
    requires IsDict(d, entries)
    ensures DistinctKeys(d)
  {
    hide FirstPut, LastPut;
  }

  lemma FirstStays<V>(entries: Entries<V>, e: Entry<V>, k: string)
    ensures var n := FirstPut(entries, k);
            FirstPut(entries + [e], k) == if n < |entries| || e.key == k then n else n + 1
  {
    var all := entries + [e];
    var n, m := FirstPut(entries, k), FirstPut(all, k);
    assert all[|entries|] == e;
    assert forall i :: 0 <= i < |entries| ==> all[i] == entries[i];
    if n < |entries| {
      assert all[n].key == k;
    }
  }

  lemma LastsOf<V>(entries: Entries<V>, e: Entry<V>, i: int)
    ensures LastPut(entries + [e], i) <==> i == |entries| || (LastPut(entries, i) && entries[i].key != e.key)
  {
    var all := entries + [e];
    if i < |entries| {
      assert all[|entries|] == e;
      assert LastPut(entries, i) ==> forall j :: i < j < |entries| ==> all[j] == entries[j];
      if LastPut(all, i) {
        assert forall j :: i < j < |entries| ==> entries[j] == all[j];
      }
    }
  }

  /** Put of an entry, where `r` is `d` with the entry in its place, or behind. */
  lemma DictWith<V>(d: Entries<V>, entries: Entries<V>, e: Entry<V>, r: Entries<V>)
    requires IsDict(d, entries) && e in r
    requires forall x :: x in r ==> x == e || (x in d && x.key != e.key)
    requires forall x :: x in d && x.key != e.key ==> x in r
    ensures forall i :: LastPut(entries + [e], i) ==> (entries + [e])[i] in r
    ensures forall x :: x in r ==> exists i :: LastPut(entries + [e], i) && (entries + [e])[i] == x
  {
    var all := entries + [e];
    forall i | LastPut(all, i) ensures all[i] in r {
      LastsOf(entries, e, i);
    }
    forall x | x in r ensures exists i :: LastPut(all, i) && all[i] == x {
      if x == e {
        LastsOf(entries, e, |entries|);
        assert all[|entries|] == x;
      } else {
        var i :| LastPut(entries, i) && entries[i] == x;
        LastsOf(entries, e, i);
        assert all[i] == x;
      }
    }
  }

  lemma DictGrows<V>(d: Entries<V>, entries: Entries<V>, e: Entry<V>)
    requires IsDict(d, entries)
    ensures IsDict(Put(d, e.key, e.value), entries + [e])
  {
    hide Put;
    var r := Put(d, e.key, e.value);
    DictKeysDiffer(d, entries);
    if HasKey(d, e.key) {
      PutReplaces(d, e.key, e.value);
      Replaced(d, e, r);
    } else {
      PutGrows(d, e.key, e.value);
      Added(d, e, r);
    }
    DictWith(d, entries, e, r);
    forall i, j | 0 <= i < j < |r| ensures FirstPut(entries + [e], r[i].key) < FirstPut(entries + [e], r[j].key) {
      OrderStays(d, entries, e, r[i].key, r[j].key, i, j);
    }
  }

  lemma OrderStays<V>(d: Entries<V>, entries: Entries<V>, e: Entry<V>, k: string, l: string, i: nat, j: nat)
    requires IsDict(d, entries) && i < j && i < |d| && d[i].key == k
    requires if j < |d| then d[j].key == l else e.key == l && !HasKey(d, l)
    ensures FirstPut(entries + [e], k) < FirstPut(entries + [e], l)
  {
    hide LastPut, FirstPut;
    FirstStays(entries, e, k);
    FirstStays(entries, e, l);
    KeyOfDict(d, entries, k);
    KeyOfDict(d, entries, l);
    assert HasKey(d, k);
    if j < |d| {
      assert HasKey(d, l);
    }
  }

  lemma Replaced<V>(d: Entries<V>, e: Entry<V>, r: Entries<V>)
    requires HasKey(d, e.key) && |r| == |d|
    requires forall i :: 0 <= i < |d| ==> r[i] == if d[i].key == e.key then e else d[i]
    ensures e in r && (forall x :: x in r ==> x == e || (x in d && x.key != e.key))
    ensures forall x :: x in d && x.key != e.key ==> x in r
  {
    var i :| 0 <= i < |d| && d[i].key == e.key;
    assert r[i] == e;
    forall x | x in d && x.key != e.key ensures x in r {
      var j :| 0 <= j < |d| && d[j] == x;
      assert r[j] == x;
    }
  }

  lemma Added<V>(d: Entries<V>, e: Entry<V>, r: Entries<V>)
    requires !HasKey(d, e.key) && r == d + [e]
    ensures e in r && (forall x :: x in r ==> x == e || (x in d && x.key != e.key))
    ensures forall x :: x in d && x.key != e.key ==> x in r
  {
    assert r[|d|] == e;
    forall x | x in d ensures x.key != e.key && x in r {
      var j :| 0 <= j < |d| && d[j] == x;
      assert r[j] == x;
    }
  }

  /** `"key": value` for an entry whose value is JSON text already. */
  function EntryText(key: string -> string, e: Entry<string>): string {
    key(e.key) + ": " + e.value
  }

  function MoreOpen(key: string -> string, d: Entries<string>): string {
    if d == [] then "" else ", " + EntryText(key, d[0]) + MoreOpen(key, d[1..])
  }

  /** The text of a dictionary but for its closing brace. */
  function OpenText(key: string -> string, d: Entries<string>): string {
    if d == [] then "{" else "{" + EntryText(key, d[0]) + MoreOpen(key, d[1..])
  }

  /** `json.dumps` of a dictionary. */
  function ObjectText(key: string -> string, d: Entries<string>): string {
    OpenText(key, d) + "}"
  }

  lemma {:induction false} MoreOpenConcat(key: string -> string, d: Entries<string>, e: Entry<string>)
    ensures MoreOpen(key, d + [e]) == MoreOpen(key, d) + (", " + EntryText(key, e))
  {
    hide EntryText;
    if d == [] {
      assert d + [e] == [e] && [e][1..] == [];
      assert MoreOpen(key, []) == "";
    } else {
      assert (d + [e])[0] == d[0] && (d + [e])[1..] == d[1..] + [e];
      MoreOpenConcat(key, d[1..], e);
    }
  }

  lemma OpenTextMore(key: string -> string, d: Entries<string>, e: Entry<string>)
    ensures OpenText(key, d + [e]) == OpenText(key, d) + ((if d == [] then "" else ", ") + EntryText(key, e))
  {
    hide EntryText;
    if d == [] {
      assert d + [e] == [e] && [e][1..] == [];
    } else {
      assert (d + [e])[0] == d[0] && (d + [e])[1..] == d[1..] + [e];
      MoreOpenConcat(key, d[1..], e);
    }
  }
}
