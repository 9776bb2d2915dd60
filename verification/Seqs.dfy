/** Facts about concatenating and slicing sequences, for use where the context is large. */
module Seqs {

  lemma ConcatAssoc<T>(a: seq<T>, b: seq<T>, c: seq<T>)
    ensures a + b + c == a + (b + c)
  {
  }

  lemma ConcatNone<T>(a: seq<T>, b: seq<T>)
    ensures a + b == a + (b + [])
  {
  }

  lemma ConcatTwo<T>(a: seq<T>, b: seq<T>, x: T, y: T)
    ensures a + b + [x] + [y] == a + (b + [x, y])
  {
  }

  lemma ConcatEmpty<T>(a: seq<T>, b: seq<T>)
    requires b == []
    ensures a + b == a && b + a == a
  {
  }

  lemma PushFive<T>(a: seq<T>, v: T, w: T, x: T, y: T, z: T)
    ensures a + [v] + [w] + [x] + [y] + [z] == a + [v, w, x, y, z]
  {
  }

  lemma DropOfConcat<T>(a: seq<T>, b: seq<T>)
    ensures (a + b)[|a|..] == b && (a + b)[..|a|] == a
  {
  }

  lemma TakeOfConcat<T>(a: seq<T>, b: seq<T>, p: nat)
    requires p <= |a| + |b|
    ensures p <= |a| ==> (a + b)[..p] == a[..p]
    ensures p >= |a| ==> (a + b)[..p] == a + b[..p - |a|]
  {
  }

  lemma TakeDrop<T>(s: seq<T>, n: nat)
    requires n <= |s|
    ensures s[..n] + s[n..] == s
  {
  }

  lemma TakeAll<T>(s: seq<T>, n: nat)
    requires n == |s|
    ensures s[..n] == s
  {
  }

  lemma TakeOfOne<T>(x: T, k: nat)
    requires k <= 1
    ensures [x][..k] == if k == 0 then [] else [x]
  {
  }

  lemma IndexOf<T>(s: seq<T>, x: T) returns (i: nat)
    requires x in s
    ensures i < |s| && s[i] == x
  {
    i :| 0 <= i < |s| && s[i] == x;
  }

  lemma SliceSnoc<T>(s: seq<T>, lo: nat, hi: nat)
    requires lo <= hi < |s|
    ensures s[lo..hi + 1] == s[lo..hi] + [s[hi]]
  {
  }

  lemma SliceLast<T>(s: seq<T>, n: nat, k: nat)
    requires n < k <= |s|
    ensures |s[n..k]| == k - n && s[n..k][k - n - 1] == s[k - 1]
  {
  }

  lemma HeadTail<T>(s: seq<T>, n: nat)
    requires 0 < n <= |s|
    ensures [s[0]] + s[1..][..n - 1] == s[..n] && s[..n][1..] == s[1..][..n - 1] && s[..n][0] == s[0]
  {
  }
}
