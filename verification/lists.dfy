/**
 * The few operations of .NET's `List<T>` that the core relies on, with the
 * semantics the source gets from them: `Find`/`IndexOf` give the FIRST match,
 * `Remove` removes the first occurrence and is a no-op when there is none,
 * `Add` appends.
 */
module Lists {
  import opened Wrappers

  /** Index of the first occurrence of `x` in `s`, or None. */
  function IndexOf<T(==)>(s: seq<T>, x: T): (r: Option<nat>)
    ensures r.Some? ==> r.value < |s| && s[r.value] == x && x !in s[..r.value]
    ensures r.None? <==> x !in s
  {
    if |s| == 0 then None
    else if s[0] == x then Some(0)
    else match IndexOf(s[1..], x) {
      case None => None
      case Some(k) =>
        assert s[..k + 1] == [s[0]] + s[1..][..k];
        Some(k + 1)
    }
  }

  /** `s` without its element at index `k`. */
  function RemoveAt<T>(s: seq<T>, k: nat): (r: seq<T>)
    requires k < |s|
    ensures |r| == |s| - 1
  {
    s[..k] + s[k + 1..]
  }

  /** `List<T>.Remove(x)`: drops the first occurrence of `x`, if any. */
  function RemoveFirst<T(==)>(s: seq<T>, x: T): (r: seq<T>)
    ensures x in s ==> |r| == |s| - 1
    ensures x !in s ==> r == s
  {
    match IndexOf(s, x)
    case None => s
    case Some(k) => RemoveAt(s, k)
  }

  /** Concatenation is associative. */
  lemma AppendAssoc<T>(a: seq<T>, b: seq<T>, c: seq<T>)
    ensures (a + b) + c == a + (b + c)
  {
  }

  /** A non-empty sequence holds its first element. */
  lemma HeadIn<T>(s: seq<T>)
    ensures s == [] || s[0] in s
  {
  }

  /** No value occurs at two positions. */
  ghost predicate NoDuplicates<T>(s: seq<T>) {
    forall i, j :: 0 <= i < j < |s| ==> s[i] != s[j]
  }

  /** Removing position `k` keeps the other elements, in order, and adds none. */
  lemma RemoveAtMembers<T>(s: seq<T>, k: nat)
    requires k < |s|
    ensures forall i :: 0 <= i < k ==> RemoveAt(s, k)[i] == s[i]
    ensures forall i :: k <= i < |s| - 1 ==> RemoveAt(s, k)[i] == s[i + 1]
    ensures forall y :: y in RemoveAt(s, k) ==> y in s
    ensures forall y :: y in s && y != s[k] ==> y in RemoveAt(s, k)
  {
    var r := RemoveAt(s, k);
    assert s == s[..k] + [s[k]] + s[k + 1..];
    forall y | y in s && y != s[k] ensures y in r {
      var i :| 0 <= i < |s| && s[i] == y;
      if i < k {
        assert r[i] == y;
      } else {
        assert r[i - 1] == y;
      }
    }
  }

  /** Removing a position of a duplicate-free sequence leaves it duplicate-free and without that value. */
  lemma RemoveAtNoDuplicates<T>(s: seq<T>, k: nat)
    requires k < |s|
    requires NoDuplicates(s)
    ensures NoDuplicates(RemoveAt(s, k))
    ensures s[k] !in RemoveAt(s, k)
  {
    var r := RemoveAt(s, k);
    RemoveAtMembers(s, k);
    forall i, j | 0 <= i < j < |r| ensures r[i] != r[j] {
      assert r[i] == s[if i < k then i else i + 1];
      assert r[j] == s[if j < k then j else j + 1];
    }
    forall i | 0 <= i < |r| ensures r[i] != s[k] {
      assert r[i] == s[if i < k then i else i + 1];
    }
  }

  /** `Remove(x)` keeps every other value and adds none. */
  lemma RemoveFirstMembers<T>(s: seq<T>, x: T)
    ensures forall y :: y in RemoveFirst(s, x) ==> y in s
    ensures forall y :: y in s && y != x ==> y in RemoveFirst(s, x)
  {
    match IndexOf(s, x)
    case None =>
    case Some(k) => RemoveAtMembers(s, k);
  }

  /** On a duplicate-free sequence `Remove(x)` takes out exactly `x`. */
  lemma RemoveFirstGone<T>(s: seq<T>, x: T)
    requires NoDuplicates(s)
    ensures NoDuplicates(RemoveFirst(s, x))
    ensures forall y :: y in RemoveFirst(s, x) <==> y in s && y != x
  {
    RemoveFirstMembers(s, x);
    match IndexOf(s, x)
    case None =>
    case Some(k) => RemoveAtNoDuplicates(s, k);
  }

  /** A position holding `x` with no earlier `x` is the one `IndexOf` finds. */
  lemma {:induction false} IndexOfFirst<T>(s: seq<T>, x: T, k: nat)
    requires k < |s| && s[k] == x && x !in s[..k]
    ensures IndexOf(s, x) == Some(k)
  {
    if k > 0 {
      assert s[0] == s[..k][0];
      assert s[1..][..k - 1] == s[..k][1..];
      IndexOfFirst(s[1..], x, k - 1);
    }
  }

  /** `Remove(x)` on a concatenation whose second part lacks `x` only touches the first part. */
  lemma RemoveFirstAppend<T>(s: seq<T>, t: seq<T>, x: T)
    requires x !in t
    ensures RemoveFirst(s + t, x) == RemoveFirst(s, x) + t
  {
    var r := IndexOf(s, x);
    if r.None? {
      assert x !in s + t;
    } else {
      var k := r.value;
      assert (s + t)[..k] == s[..k];
      IndexOfFirst(s + t, x, k);
      calc {
        RemoveFirst(s + t, x);
        (s + t)[..k] + (s + t)[k + 1..];
        { assert (s + t)[k + 1..] == s[k + 1..] + t; }
        s[..k] + (s[k + 1..] + t);
        { AppendAssoc(s[..k], s[k + 1..], t); }
        RemoveFirst(s, x) + t;
      }
    }
  }

  /** `Remove(x)` of a value appended to a sequence without it gives the sequence back. */
  lemma RemoveFirstLast<T>(s: seq<T>, x: T)
    requires x !in s
    ensures RemoveFirst(s + [x], x) == s
  {
    assert (s + [x])[..|s|] == s;
    IndexOfFirst(s + [x], x, |s|);
  }

  /** Appending a value not yet present keeps a sequence duplicate-free. */
  lemma AppendNoDuplicates<T>(s: seq<T>, x: T)
    requires NoDuplicates(s)
    requires x !in s
    ensures NoDuplicates(s + [x])
  {
    var r := s + [x];
    forall i, j | 0 <= i < j < |r| ensures r[i] != r[j] {
      if j == |s| {
        assert r[i] == s[i];
      }
    }
  }
}
