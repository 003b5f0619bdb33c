// Shared helpers: optional values, JavaScript errors and the array searches
// (`indexOf`, `includes`, `splice`) that the room code leans on.

module Common {

  /** `undefined`/`null` versus a present value. */
  datatype Option<+T> = None | Some(value: T)

  /** The exceptions the JavaScript code can raise on the paths modelled here. */
  datatype JsError =
    | TypeError(message: string)
    | ReferenceError(identifier: string)

  /** A call that either returns a value or throws. */
  datatype Result<+T> = Ok(value: T) | Threw(error: JsError)

  /** `Array.prototype.indexOf`: the first position of `x`, or -1. */
  function IndexOf<T(==)>(s: seq<T>, x: T): (i: int)
    ensures -1 <= i < |s|
    ensures i == -1 <==> x !in s
    ensures 0 <= i ==> s[i] == x && x !in s[..i]
  {
    if s == [] then -1
    else if s[0] == x then 0
    else
      var j := IndexOf(s[1..], x);
      assert s[1..][..if j < 0 then 0 else j] == s[1..if j < 0 then 1 else j + 1];
      if j < 0 then -1 else j + 1
  }

  /** `Array.prototype.splice(i, 1)` as a value: `s` without its element at `i`. */
  function RemoveAt<T>(s: seq<T>, i: nat): (r: seq<T>)
    requires i < |s|
    ensures |r| == |s| - 1
    ensures forall k :: 0 <= k < i ==> r[k] == s[k]
    ensures forall k :: i <= k < |r| ==> r[k] == s[k + 1]
  {
    s[..i] + s[i + 1..]
  }

  lemma AppendAssociative<T>(a: seq<T>, b: seq<T>, c: seq<T>)
    ensures a + (b + c) == (a + b) + c
  {
  }

  /** A second update of the same key overrides the first. */
  lemma UpdateTwice<K, V>(m: map<K, V>, k: K, a: V, b: V)
    ensures m[k := a][k := b] == m[k := b]
  {
  }

  predicate NoDuplicates<T(==)>(s: seq<T>) {
    forall i, j :: 0 <= i < j < |s| ==> s[i] != s[j]
  }

  /** A sequence lists nothing twice exactly when it starts with a fresh element followed by
      a sequence that lists nothing twice. */
  lemma NoDuplicatesCons<T>(s: seq<T>)
    requires s != []
    ensures NoDuplicates(s) <==> s[0] !in s[1..] && NoDuplicates(s[1..])
  {
    assert forall j :: 0 <= j < |s| - 1 ==> s[1..][j] == s[j + 1];
  }

  /** Being duplicate-free is a property of the multiset: no element occurs twice. */
  lemma {:induction false} NoDuplicatesByCount<T>(s: seq<T>)
    ensures NoDuplicates(s) <==> forall x :: multiset(s)[x] <= 1
  {
    if s != [] {
      var t := s[1..];
      NoDuplicatesByCount(t);
      NoDuplicatesCons(s);
      assert s == [s[0]] + t;
      assert multiset(s) == multiset{s[0]} + multiset(t);
      assert s[0] in t <==> multiset(t)[s[0]] > 0;
      assert forall x :: multiset(s)[x] == (if x == s[0] then 1 else 0) + multiset(t)[x];
      if forall x :: multiset(s)[x] <= 1 {
        assert multiset(s)[s[0]] <= 1;
        assert forall x :: multiset(t)[x] <= multiset(s)[x];
      }
    }
  }

  /** Rearranging a duplicate-free sequence leaves it duplicate-free. */
  lemma NoDuplicatesPermuted<T>(a: seq<T>, b: seq<T>)
    requires NoDuplicates(a) && multiset(a) == multiset(b)
    ensures NoDuplicates(b)
  {
    NoDuplicatesByCount(a);
    NoDuplicatesByCount(b);
  }

  /** Removing one element of a duplicate-free sequence leaves it duplicate-free and drops
      exactly that element from its set of members. */
  lemma RemoveAtNoDuplicates<T>(s: seq<T>, i: nat)
    requires i < |s| && NoDuplicates(s)
    ensures NoDuplicates(RemoveAt(s, i))
    ensures forall x :: x in RemoveAt(s, i) <==> x in s && x != s[i]
  {
    var r := RemoveAt(s, i);
    forall x ensures x in r <==> x in s && x != s[i] {
      if x in r {
        var k :| 0 <= k < |r| && r[k] == x;
        if k < i { assert s[k] == x && k != i; } else { assert s[k + 1] == x && k + 1 != i; }
      }
      if x in s && x != s[i] {
        var k :| 0 <= k < |s| && s[k] == x;
        if k < i { assert r[k] == x; } else { assert k > i; assert r[k - 1] == x; }
      }
    }
  }

  /** `IndexOf` is the only position holding `x` with no earlier occurrence. */
  lemma IndexOfAt<T>(s: seq<T>, x: T, j: nat)
    requires j < |s| && s[j] == x && x !in s[..j]
    ensures IndexOf(s, x) == j
  {
  }

  /** Appending never moves the first occurrence of an element already present. */
  lemma IndexOfAppend<T>(s: seq<T>, t: seq<T>, x: T)
    requires x in s
    ensures IndexOf(s + t, x) == IndexOf(s, x)
  {
    var i := IndexOf(s, x);
    assert (s + t)[..i] == s[..i];
    IndexOfAt(s + t, x, i);
  }

  /** Splicing out a different element keeps `x` and shifts its first occurrence down by
      one exactly when the removed position came before it. */
  lemma IndexOfRemoveAt<T>(s: seq<T>, i: nat, x: T)
    requires i < |s| && x in s && s[i] != x
    ensures x in RemoveAt(s, i)
    ensures IndexOf(RemoveAt(s, i), x) ==
            if i < IndexOf(s, x) then IndexOf(s, x) - 1 else IndexOf(s, x)
  {
    var r := RemoveAt(s, i);
    var j := IndexOf(s, x);
    var j' := if i < j then j - 1 else j;
    assert r[j'] == x;
    forall k | 0 <= k < j' ensures r[k] != x {
      var m := if k < i then k else k + 1;
      assert r[k] == s[m] && m < j;
      assert s[..j][m] == s[m];
    }
    NotInPrefix(r, x, j');
    IndexOfAt(r, x, j');
  }

  /** An element absent from every position below `j` is absent from the prefix. */
  lemma NotInPrefix<T>(s: seq<T>, x: T, j: nat)
    requires j <= |s| && forall k :: 0 <= k < j ==> s[k] != x
    ensures x !in s[..j]
  {
    assert forall k :: 0 <= k < j ==> s[..j][k] == s[k];
  }
}
