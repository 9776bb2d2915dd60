/** The order in which the store iterates: bytewise lexicographic, the default comparator. */
module Ordering {
  import opened ByteStrings
  import opened Seqs

  predicate Leq(a: Bytes, b: Bytes) {
    a == [] || (b != [] && (a[0] < b[0] || (a[0] == b[0] && Leq(a[1..], b[1..]))))
  }

  /** Where a and b first differ, a ends or has the smaller byte. */
  ghost predicate Before(a: Bytes, b: Bytes, i: nat) {
    i <= |a| && i < |b| && a[..i] == b[..i] && (i == |a| || a[i] < b[i])
  }

  ghost predicate Precedes(a: Bytes, b: Bytes) { exists i :: Before(a, b, i) }

  /** The order is bytewise lexicographic. */
  lemma {:induction false} LeqIsBytewise(a: Bytes, b: Bytes)
    ensures Leq(a, b) <==> a == b || Precedes(a, b)
  {
    if a == [] {
      assert b != [] ==> Before(a, b, 0);
    } else if b != [] {
      LeqIsBytewise(a[1..], b[1..]);
      assert a == [a[0]] + a[1..] && b == [b[0]] + b[1..];
      if a[0] < b[0] {
        assert Before(a, b, 0);
      }
      if i: nat :| Before(a[1..], b[1..], i) && a[0] == b[0] {
        BeforeCons(a, b, i);
      }
      if i: nat :| Before(a, b, i) {
        BeforeTail(a, b, i);
      }
    }
  }

  lemma BeforeCons(a: Bytes, b: Bytes, i: nat)
    requires a != [] && b != [] && a[0] == b[0] && Before(a[1..], b[1..], i)
    ensures Before(a, b, i + 1)
  {
    assert a[..i + 1] == [a[0]] + a[1..][..i] && b[..i + 1] == [b[0]] + b[1..][..i];
  }

  lemma BeforeTail(a: Bytes, b: Bytes, i: nat)
    requires a != [] && b != [] && Before(a, b, i)
    ensures a[0] < b[0] || (i > 0 && a[0] == b[0] && Before(a[1..], b[1..], i - 1))
  {
    if i > 0 {
      assert a[0] == a[..i][0] == b[..i][0] == b[0];
      assert a[1..][..i - 1] == a[..i][1..] == b[..i][1..] == b[1..][..i - 1];
    }
  }

  ghost predicate InByteOrder(keys: seq<Bytes>) {
    forall i, j :: 0 <= i < j < |keys| ==> Precedes(keys[i], keys[j])
  }

  /** The iteration goes through the keys in rising bytewise order. */
  lemma SortedInByteOrder(s: set<Bytes>)
    ensures InByteOrder(Sorted(s))
  {
    var keys := Sorted(s);
    SortedIsAscending(s);
    forall i, j | 0 <= i < j < |keys| ensures Precedes(keys[i], keys[j]) {
      LeqIsBytewise(keys[i], keys[j]);
    }
  }

  lemma {:induction false} LeqTotal(a: Bytes, b: Bytes)
    ensures Leq(a, b) || Leq(b, a)
    ensures Leq(a, b) && Leq(b, a) ==> a == b
  {
    if a != [] && b != [] {
      LeqTotal(a[1..], b[1..]);
      if Leq(a, b) && Leq(b, a) {
        assert a == [a[0]] + a[1..] && b == [b[0]] + b[1..];
      }
    }
  }

  lemma {:induction false} LeqTransitive(a: Bytes, b: Bytes, c: Bytes)
    requires Leq(a, b) && Leq(b, c)
    ensures Leq(a, c)
  {
    if a != [] && a[0] == b[0] == c[0] {
      LeqTransitive(a[1..], b[1..], c[1..]);
    }
  }

  ghost predicate Ascending(s: seq<Bytes>) {
    forall i, j :: 0 <= i < j < |s| ==> Leq(s[i], s[j]) && s[i] != s[j]
  }

  predicate IsLeast(k: Bytes, s: set<Bytes>) {
    k in s && forall x :: x in s ==> Leq(k, x)
  }

  lemma {:induction false} LeastExists(s: set<Bytes>)
    requires s != {}
    ensures exists k :: IsLeast(k, s)
  {
    var y :| y in s;
    var rest := s - {y};
    LeqTotal(y, y);
    if rest == {} {
      assert s == {y};
      assert IsLeast(y, s);
    } else {
      LeastExists(rest);
      var k :| IsLeast(k, rest);
      LeastExtends(rest, y, k);
      assert s == rest + {y};
    }
  }

  lemma LeastExtends(rest: set<Bytes>, y: Bytes, k: Bytes)
    requires IsLeast(k, rest)
    ensures IsLeast(k, rest + {y}) || IsLeast(y, rest + {y})
  {
    LeqTotal(k, y);
    LeqTotal(y, y);
    if !Leq(k, y) {
      forall x | x in rest ensures Leq(y, x) {
        LeqTransitive(y, k, x);
      }
    }
  }

  function Least(s: set<Bytes>): (k: Bytes)
    requires s != {}
    ensures IsLeast(k, s)
  {
    LeastExists(s);
    assert forall a, b :: IsLeast(a, s) && IsLeast(b, s) ==> a == b by {
      forall a, b | IsLeast(a, s) && IsLeast(b, s) ensures a == b {
        LeqTotal(a, b);
      }
    }
    var k :| k in s && IsLeast(k, s);
    k
  }

  /** The members of s in iteration order. */
  function Sorted(s: set<Bytes>): (r: seq<Bytes>)
    ensures |r| == |s|
    ensures forall k :: k in r <==> k in s
  {
    if s == {} then [] else
      var k := Least(s);
      var rest := Sorted(s - {k});
      [k] + rest
  }

  lemma {:induction false} SortedIsAscending(s: set<Bytes>)
    ensures Ascending(Sorted(s))
  {
    if s != {} {
      var k := Least(s);
      SortedIsAscending(s - {k});
      AscendingCons(k, Sorted(s - {k}));
    }
  }

  lemma AscendingCons(k: Bytes, rest: seq<Bytes>)
    requires Ascending(rest) && forall x :: x in rest ==> Leq(k, x) && x != k
    ensures Ascending([k] + rest)
  {
    var s := [k] + rest;
    forall i, j | 0 <= i < j < |s| ensures Leq(s[i], s[j]) && s[i] != s[j] {
      assert s[j] == rest[j - 1] && rest[j - 1] in rest;
    }
  }

  /** Ascending order and membership determine the sequence, so every iteration
      over the same set visits the same keys at the same positions. */
  lemma {:induction false} AscendingUnique(a: seq<Bytes>, b: seq<Bytes>)
    requires Ascending(a) && Ascending(b)
    requires forall k :: k in a <==> k in b
    ensures a == b
  {
    if b != [] { assert b[0] in a; }
    if a != [] {
      assert a[0] in b && b != [] && b[0] in a;
      LeqTotal(a[0], b[0]);
      LeqTotal(a[0], a[0]);
      LeqTotal(b[0], b[0]);
      assert a[0] == b[0];
      forall k ensures k in a[1..] <==> k in b[1..] {
        if k in a[1..] {
          assert k in a && k != a[0];
        }
        if k in b[1..] {
          assert k in b && k != b[0];
        }
      }
      AscendingUnique(a[1..], b[1..]);
      assert a == [a[0]] + a[1..] && b == [b[0]] + b[1..];
    }
  }

  // ----- keys with a common prefix -----

  lemma {:induction false} PrefixIsLeq(p: Bytes, k: Bytes)
    requires p <= k
    ensures Leq(p, k)
  {
    if p != [] {
      PrefixIsLeq(p[1..], k[1..]);
    }
  }

  /** The keys starting with p form one block that begins at p's place in the order. */
  lemma {:induction false} PrefixBlock(p: Bytes, k: Bytes, l: Bytes)
    requires Leq(p, k) && Leq(k, l) && p <= l
    ensures p <= k
  {
    if p != [] {
      assert k != [] && l != [] && p[0] == l[0];
      assert k[0] == p[0];
      PrefixBlock(p[1..], k[1..], l[1..]);
      assert p == [p[0]] + p[1..] && k == [k[0]] + k[1..];
    }
  }

  /** Iterator.Seek: the position of the first key at or after p. */
  function SeekPosition(keys: seq<Bytes>, p: Bytes): (i: nat)
    ensures i <= |keys|
  {
    if keys == [] || Leq(p, keys[0]) then 0 else 1 + SeekPosition(keys[1..], p)
  }

  lemma {:induction false} SeekIsFirst(keys: seq<Bytes>, p: Bytes)
    ensures var i := SeekPosition(keys, p);
            (forall j :: 0 <= j < i ==> !Leq(p, keys[j])) && (i < |keys| ==> Leq(p, keys[i]))
  {
    if keys != [] && !Leq(p, keys[0]) {
      SeekIsFirst(keys[1..], p);
      var i := SeekPosition(keys, p);
      forall j | 0 <= j < i ensures !Leq(p, keys[j]) {
        assert j > 0 ==> keys[j] == keys[1..][j - 1];
      }
    }
  }

  predicate HasPrefix(k: Bytes, p: Bytes) { p <= k }

  function Pick(store: map<Bytes, Bytes>, keys: seq<Bytes>): map<Bytes, Bytes> {
    map k | k in keys && k in store :: store[k]
  }

  lemma PickSnoc(store: map<Bytes, Bytes>, keys: seq<Bytes>, k: Bytes)
    requires k in store
    ensures Pick(store, keys + [k]) == Pick(store, keys)[k := store[k]]
  {
  }

  lemma PickNext(store: map<Bytes, Bytes>, keys: seq<Bytes>, lo: nat, hi: nat)
    requires lo <= hi < |keys| && keys[hi] in store
    ensures Pick(store, keys[lo..hi + 1]) == Pick(store, keys[lo..hi])[keys[hi] := store[keys[hi]]]
  {
    SliceSnoc(keys, lo, hi);
    PickSnoc(store, keys[lo..hi], keys[hi]);
  }

  /** The SCAN query: seek to the prefix, copy entries, stop at the first key without it.
      The answer is exactly the part of the store whose keys have the prefix. */
  method Scan(store: map<Bytes, Bytes>, prefix: Bytes) returns (items: map<Bytes, Bytes>)
    ensures items == map k | k in store && HasPrefix(k, prefix) :: store[k]
  {
    var keys := Sorted(store.Keys);
    ghost var stop;
    items, stop := CopyBlock(store, keys, prefix, SeekPosition(keys, prefix));
    ScanResult(store, prefix, stop);
  }

  /** The copying loop, from a position on. */
  method CopyBlock(store: map<Bytes, Bytes>, keys: seq<Bytes>, prefix: Bytes, start: nat)
      returns (items: map<Bytes, Bytes>, ghost stop: nat)
    requires start <= |keys| && forall k :: k in keys ==> k in store
    ensures start <= stop <= |keys| && items == Pick(store, keys[start..stop])
    ensures forall j :: start <= j < stop ==> HasPrefix(keys[j], prefix)
    ensures stop < |keys| ==> !HasPrefix(keys[stop], prefix)
  {
    items := map[];
    var i := start;
    while i < |keys|
      invariant start <= i <= |keys|
      invariant items == Pick(store, keys[start..i])
      invariant forall j :: start <= j < i ==> HasPrefix(keys[j], prefix)
    {
      var k := keys[i];
      if !HasPrefix(k, prefix) {
        return items, i;
      }
      assert k in keys;
      PickNext(store, keys, start, i);
      items := items[k := store[k]];
      i := i + 1;
    }
    stop := i;
  }

  lemma ScanResult(store: map<Bytes, Bytes>, p: Bytes, stop: nat)
    requires var keys := Sorted(store.Keys);
             && SeekPosition(keys, p) <= stop <= |keys|
             && (forall j :: SeekPosition(keys, p) <= j < stop ==> HasPrefix(keys[j], p))
             && (stop < |keys| ==> !HasPrefix(keys[stop], p))
    ensures var keys := Sorted(store.Keys);
            Pick(store, keys[SeekPosition(keys, p)..stop]) == map k | k in store && HasPrefix(k, p) :: store[k]
  {
    var keys := Sorted(store.Keys);
    SortedIsAscending(store.Keys);
    ScanWindow(keys, p, SeekPosition(keys, p), stop);
    PickIsFilter(store, keys, keys[SeekPosition(keys, p)..stop], p);
  }

  lemma PickIsFilter(store: map<Bytes, Bytes>, keys: seq<Bytes>, window: seq<Bytes>, p: Bytes)
    requires forall k :: k in keys <==> k in store
    requires forall k :: k in window <==> k in keys && HasPrefix(k, p)
    ensures Pick(store, window) == map k | k in store && HasPrefix(k, p) :: store[k]
  {
  }

  /** In an ascending list, the keys between the seek position and the first later key
      without the prefix are all the keys that have it. */
  lemma ScanWindow(keys: seq<Bytes>, p: Bytes, start: nat, stop: nat)
    requires Ascending(keys) && start == SeekPosition(keys, p) <= stop <= |keys|
    requires forall j :: start <= j < stop ==> HasPrefix(keys[j], p)
    requires stop < |keys| ==> !HasPrefix(keys[stop], p)
    ensures forall k :: k in keys[start..stop] <==> k in keys && HasPrefix(k, p)
  {
    SeekIsFirst(keys, p);
    forall k | k in keys && HasPrefix(k, p) ensures k in keys[start..stop] {
      var j :| 0 <= j < |keys| && keys[j] == k;
      PrefixIsLeq(p, k);
      if stop < j {
        if start < stop { LeqTransitive(p, keys[start], keys[stop]); }
        PrefixBlock(p, keys[stop], keys[j]);
      }
      assert keys[start..stop][j - start] == k;
    }
  }
}
