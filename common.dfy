/** Shared vocabulary: engine identities, the unsigned byte range, and the
    TArray and FMath operations that the gameplay code relies on. */
module Common {

  datatype Option<+T> = None | Some(value: T)

  /** Engine actors are abstract identities; liveness and components are
      supplied separately by whoever owns that engine state. */
  type ActorId = nat

  /** The range of `uint8`. */
  type Byte = x: int | 0 <= x < 256

  predicate NoDuplicates<T(==)>(s: seq<T>) {
    forall i, j :: 0 <= i < j < |s| ==> s[i] != s[j]
  }

  /** A duplicate-free sequence splits into a head that is not in its
      duplicate-free tail, and such a head and tail make one. */
  lemma ConsNoDuplicates<T>(h: T, t: seq<T>)
    ensures NoDuplicates([h] + t) <==> h !in t && NoDuplicates(t)
  {
    var s := [h] + t;
    if h !in t && NoDuplicates(t) {
      forall i, j | 0 <= i < j < |s| ensures s[i] != s[j] {
        assert s[j] == t[j - 1];
        if i > 0 {
          assert s[i] == t[i - 1];
        }
      }
    }
    if NoDuplicates(s) {
      forall i, j | 0 <= i < j < |t| ensures t[i] != t[j] {
        assert t[i] == s[i + 1] && t[j] == s[j + 1];
      }
      forall k | 0 <= k < |t| ensures t[k] != h {
        assert t[k] == s[k + 1] && h == s[0];
      }
    }
  }

  /** The first two elements of a duplicate-free sequence are two distinct
      members of it. */
  lemma DistinctPair<T>(s: seq<T>)
    requires NoDuplicates(s) && |s| >= 2
    ensures s[0] in s && s[1] in s && s[0] != s[1]
  {
  }

  /** TArray::Find: the first index holding `x`, or -1 (INDEX_NONE). */
  function IndexOf<T(==)>(s: seq<T>, x: T): (k: int)
    ensures -1 <= k < |s|
    ensures k == -1 <==> x !in s
    ensures k >= 0 ==> s[k] == x && x !in s[..k]
  {
    if s == [] then -1
    else if s[0] == x then 0
    else
      var k := IndexOf(s[1..], x);
      if k == -1 then -1
      else
        assert s[..k + 1] == [s[0]] + s[1..][..k];
        k + 1
  }

  /** TArray::AddUnique: appends `x` unless an equal element is present, and
      returns the resulting array together with the index at which `x` is
      found in it (its first occurrence). */
  function AddUnique<T(==)>(s: seq<T>, x: T): (r: (seq<T>, nat))
    ensures r.1 < |r.0| && r.0[r.1] == x && x !in r.0[..r.1]
    ensures x in s ==> r.0 == s && r.1 < |s|
    ensures x !in s ==> r.0 == s + [x] && r.1 == |s|
    ensures NoDuplicates(s) ==> NoDuplicates(r.0)
  {
    if x in s then (s, IndexOf(s, x)) else (s + [x], |s|)
  }

  /** TArray::Remove: deletes every element equal to `x` and keeps the rest in
      their original order. */
  function RemoveAll<T(==)>(s: seq<T>, x: T): (r: seq<T>)
    ensures |r| <= |s|
  {
    if s == [] then []
    else if s[0] == x then RemoveAll(s[1..], x)
    else [s[0]] + RemoveAll(s[1..], x)
  }

  /** What RemoveAll keeps: exactly the elements different from `x`. */
  lemma {:induction false} RemoveAllMembers<T>(s: seq<T>, x: T, y: T)
    ensures y in RemoveAll(s, x) <==> y in s && y != x
  {
    if s != [] {
      RemoveAllMembers(s[1..], x, y);
      assert s == [s[0]] + s[1..];
    }
  }

  /** RemoveAll leaves an array without the element unchanged. */
  lemma {:induction false} RemoveAllAbsent<T>(s: seq<T>, x: T)
    requires x !in s
    ensures RemoveAll(s, x) == s
  {
    if s != [] {
      RemoveAllAbsent(s[1..], x);
      assert s == [s[0]] + s[1..];
    }
  }

  /** RemoveAll never introduces duplicates. */
  lemma {:induction false} RemoveAllNoDuplicates<T>(s: seq<T>, x: T)
    requires NoDuplicates(s)
    ensures NoDuplicates(RemoveAll(s, x))
  {
    if s != [] {
      assert s == [s[0]] + s[1..];
      RemoveAllNoDuplicates(s[1..], x);
      if s[0] != x {
        RemoveAllMembers(s[1..], x, s[0]);
        assert s[0] !in s[1..];
        var r := RemoveAll(s, x);
        var rest := RemoveAll(s[1..], x);
        assert r == [s[0]] + rest;
        forall i, j | 0 <= i < j < |r| ensures r[i] != r[j] {
          if i == 0 {
            assert r[j] == rest[j - 1] && rest[j - 1] in rest;
          } else {
            assert r[i] == rest[i - 1] && r[j] == rest[j - 1];
          }
        }
      }
    }
  }

  /** Removing a member of a duplicate-free array shortens it by exactly one. */
  lemma {:induction false} RemoveAllOnce<T>(s: seq<T>, x: T)
    requires NoDuplicates(s) && x in s
    ensures |RemoveAll(s, x)| == |s| - 1
  {
    assert s == [s[0]] + s[1..];
    if s[0] == x {
      assert x !in s[1..];
      RemoveAllAbsent(s[1..], x);
    } else {
      assert NoDuplicates(s[1..]);
      RemoveAllOnce(s[1..], x);
    }
  }

  /** FMath::Clamp on integers: `X < Min ? Min : X < Max ? X : Max`. */
  function ClampInt(x: int, lo: int, hi: int): (r: int)
    ensures lo <= hi ==> lo <= r <= hi
    ensures lo <= x <= hi ==> r == x
    ensures x < lo ==> r == lo
  {
    if x < lo then lo else if x < hi then x else hi
  }

  /** FMath::Clamp on floating-point values, over the reals. */
  function ClampReal(x: real, lo: real, hi: real): (r: real)
    ensures lo <= hi ==> lo <= r <= hi
    ensures lo <= x <= hi ==> r == x
    ensures x < lo ==> r == lo
  {
    if x < lo then lo else if x < hi then x else hi
  }

  function AbsReal(x: real): (r: real)
    ensures r >= 0.0 && (r == x || r == -x)
  {
    if x < 0.0 then -x else x
  }
}
