/** Rust's `BTreeMap<Box<[u8]>, u16>` as the list of its entries in ascending key order,
    which is also the order in which the map's keys and values are iterated. */
module OrderedMaps {
  import opened Bytes
  import opened Wrappers

  /** The order of `Ord for [u8]`: lexicographic, a proper prefix first. */
  predicate Less(a: seq<u8>, b: seq<u8>)
    decreases |a|
  {
    if a == [] then b != []
    else if b == [] then false
    else a[0] < b[0] || (a[0] == b[0] && Less(a[1..], b[1..]))
  }

  lemma {:induction false} LessIrreflexive(a: seq<u8>)
    ensures !Less(a, a)
    decreases |a|
  {
    if a != [] {
      LessIrreflexive(a[1..]);
    }
  }

  lemma {:induction false} LessTransitive(a: seq<u8>, b: seq<u8>, c: seq<u8>)
    requires Less(a, b) && Less(b, c)
    ensures Less(a, c)
    decreases |a|
  {
    if a != [] && a[0] == b[0] && b[0] == c[0] {
      LessTransitive(a[1..], b[1..], c[1..]);
    }
  }

  lemma {:induction false} LessTotal(a: seq<u8>, b: seq<u8>)
    ensures a == b || Less(a, b) || Less(b, a)
    decreases |a|
  {
    if a != [] && b != [] && a[0] == b[0] {
      LessTotal(a[1..], b[1..]);
      if a[1..] == b[1..] {
        assert a == [a[0]] + a[1..] && b == [b[0]] + b[1..];
      }
    }
  }

  datatype Entry = Entry(key: seq<u8>, value: u16)

  /** Keys strictly ascending: every key appears once. */
  predicate Sorted(es: seq<Entry>) {
    forall i, j :: 0 <= i < j < |es| ==> Less(es[i].key, es[j].key)
  }

  /** The map the entries denote. */
  function ToMap(es: seq<Entry>): (r: map<seq<u8>, u16>)
    ensures forall i :: 0 <= i < |es| ==> es[i].key in r
  {
    if es == [] then map[]
    else
      var rest := ToMap(es[1..]);
      assert forall i :: 1 <= i < |es| ==> es[i] == es[1..][i - 1];
      rest[es[0].key := es[0].value]
  }

  /** Every key of the map comes from some entry. Kept out of `ToMap`'s own contract, whose
      quantifiers it would otherwise feed in every proof that mentions a map. */
  lemma {:induction false} ToMapKeyAt(es: seq<Entry>, k: seq<u8>)
    ensures k in ToMap(es) ==> exists i :: 0 <= i < |es| && es[i].key == k
  {
    if es != [] && es[0].key != k && k in ToMap(es) {
      ToMapKeyAt(es[1..], k);
      var i :| 0 <= i < |es[1..]| && es[1..][i].key == k;
      assert es[i + 1].key == k;
    }
  }

  function Keys(es: seq<Entry>): (r: seq<seq<u8>>)
    ensures |r| == |es| && forall i :: 0 <= i < |es| ==> r[i] == es[i].key
  {
    seq(|es|, i requires 0 <= i < |es| => es[i].key)
  }

  function Values(es: seq<Entry>): (r: seq<u16>)
    ensures |r| == |es| && forall i :: 0 <= i < |es| ==> r[i] == es[i].value
  {
    seq(|es|, i requires 0 <= i < |es| => es[i].value)
  }

  /** In a sorted list each entry is the one the map holds for its key. */
  lemma {:induction false} ToMapEntries(es: seq<Entry>)
    requires Sorted(es)
    ensures forall i :: 0 <= i < |es| ==> ToMap(es)[es[i].key] == es[i].value
    ensures |ToMap(es)| == |es|
  {
    if es != [] {
      var rest := es[1..];
      assert Sorted(rest) by {
        forall i, j | 0 <= i < j < |rest| ensures Less(rest[i].key, rest[j].key) {
          assert rest[i] == es[i + 1] && rest[j] == es[j + 1];
        }
      }
      ToMapEntries(rest);
      HeadNotInRest(es);
      forall i | 0 <= i < |es| ensures ToMap(es)[es[i].key] == es[i].value {
        if i > 0 {
          assert es[i] == rest[i - 1];
          assert es[i].key != es[0].key by {
            LessIrreflexive(es[0].key);
          }
        }
      }
    }
  }

  lemma HeadNotInRest(es: seq<Entry>)
    requires Sorted(es) && es != []
    ensures es[0].key !in ToMap(es[1..])
    ensures forall k :: k in ToMap(es[1..]) ==> Less(es[0].key, k)
  {
    forall k | k in ToMap(es[1..]) ensures Less(es[0].key, k) {
      ToMapKeyAt(es[1..], k);
      var i :| 0 <= i < |es[1..]| && es[1..][i].key == k;
      assert es[1..][i] == es[i + 1];
    }
    if es[0].key in ToMap(es[1..]) {
      LessIrreflexive(es[0].key);
    }
  }

  /** `BTreeMap::get`. */
  function Get(es: seq<Entry>, k: seq<u8>): (r: Option<u16>)
    requires Sorted(es)
    ensures r.Some? <==> k in ToMap(es)
    ensures r.Some? ==> r.value == ToMap(es)[k]
  {
    ToMapEntries(es);
    ToMapKeyAt(es, k);
    if exists i :: 0 <= i < |es| && es[i].key == k then
      var i :| 0 <= i < |es| && es[i].key == k;
      Some(es[i].value)
    else None
  }

  /** `BTreeMap::insert`: adds the key, or replaces its value. */
  function Insert(es: seq<Entry>, k: seq<u8>, v: u16): (r: seq<Entry>)
    requires Sorted(es)
    ensures Sorted(r)
    ensures ToMap(r) == ToMap(es)[k := v]
    decreases |es|
  {
    if es == [] then [Entry(k, v)]
    else if es[0].key == k then
      HeadNotInRest(es);
      [Entry(k, v)] + es[1..]
    else if Less(k, es[0].key) then
      InsertFront(es, k, v);
      [Entry(k, v)] + es
    else
      LessTotal(k, es[0].key);
      var rest := es[1..];
      assert Sorted(rest) by {
        forall i, j | 0 <= i < j < |rest| ensures Less(rest[i].key, rest[j].key) {
          assert rest[i] == es[i + 1] && rest[j] == es[j + 1];
        }
      }
      var tail := Insert(rest, k, v);
      InsertBehind(es, k, v, tail);
      [es[0]] + tail
  }

  lemma InsertFront(es: seq<Entry>, k: seq<u8>, v: u16)
    requires Sorted(es) && es != [] && Less(k, es[0].key)
    ensures Sorted([Entry(k, v)] + es)
    ensures ToMap([Entry(k, v)] + es) == ToMap(es)[k := v]
  {
    var r := [Entry(k, v)] + es;
    assert r[1..] == es;
    forall i, j | 0 <= i < j < |r| ensures Less(r[i].key, r[j].key) {
      if i == 0 && j > 1 {
        assert r[j] == es[j - 1];
        LessTransitive(k, es[0].key, es[j - 1].key);
      }
    }
  }

  lemma InsertBehind(es: seq<Entry>, k: seq<u8>, v: u16, tail: seq<Entry>)
    requires Sorted(es) && es != [] && Less(es[0].key, k)
    requires Sorted(tail) && ToMap(tail) == ToMap(es[1..])[k := v]
    ensures Sorted([es[0]] + tail)
    ensures ToMap([es[0]] + tail) == ToMap(es)[k := v]
  {
    var r := [es[0]] + tail;
    assert r[1..] == tail;
    InsertBehindSorted(es, k, v, tail);
    assert es[0].key != k by {
      LessIrreflexive(k);
    }
    var m0 := ToMap(es[1..]);
    assert ToMap(r) == ToMap(tail)[es[0].key := es[0].value];
    assert ToMap(es) == m0[es[0].key := es[0].value];
    MapUpdateCommute(m0, k, v, es[0].key, es[0].value);
  }

  lemma MapUpdateCommute(m: map<seq<u8>, u16>, a: seq<u8>, va: u16, b: seq<u8>, vb: u16)
    requires a != b
    ensures m[a := va][b := vb] == m[b := vb][a := va]
  {
  }

  lemma InsertBehindSorted(es: seq<Entry>, k: seq<u8>, v: u16, tail: seq<Entry>)
    requires Sorted(es) && es != [] && Less(es[0].key, k)
    requires Sorted(tail) && ToMap(tail) == ToMap(es[1..])[k := v]
    ensures Sorted([es[0]] + tail)
  {
    var r := [es[0]] + tail;
    HeadBelowTail(es, k, v, tail);
    forall i, j | 0 <= i < j < |r| ensures Less(r[i].key, r[j].key) {
      assert r[j] == tail[j - 1];
      if i > 0 {
        assert r[i] == tail[i - 1];
      }
    }
  }

  /** Every key of the rebuilt tail lies above the head: it is the head's successor's or `k`. */
  lemma HeadBelowTail(es: seq<Entry>, k: seq<u8>, v: u16, tail: seq<Entry>)
    requires Sorted(es) && es != [] && Less(es[0].key, k)
    requires ToMap(tail) == ToMap(es[1..])[k := v]
    ensures forall j :: 0 <= j < |tail| ==> Less(es[0].key, tail[j].key)
  {
    HeadNotInRest(es);
    forall j | 0 <= j < |tail| ensures Less(es[0].key, tail[j].key) {
      var key := tail[j].key;
      assert key in ToMap(tail);
      if key != k {
        assert key in ToMap(es[1..]);
      }
    }
  }
}
