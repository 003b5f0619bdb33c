// End-of-game standings: one entry per ranked player, ordered by
// non-increasing score with `Array.prototype.sort` and the comparator
// `(a, b) => b.score - a.score`.  The sort engine is stable, so it is modelled
// as an insertion sort that keeps equal scores in their original order.

module Ranking {

  datatype Standing = Standing(playerId: string, playerName: string, score: int)

  predicate NonIncreasing(s: seq<Standing>) {
    forall i, j :: 0 <= i < j < |s| ==> s[i].score >= s[j].score
  }

  function Ids(s: seq<Standing>): (ids: seq<string>)
    ensures |ids| == |s|
  {
    if s == [] then [] else [s[0].playerId] + Ids(s[1..])
  }

  lemma {:induction false} IdsAt(s: seq<Standing>)
    ensures forall i :: 0 <= i < |s| ==> Ids(s)[i] == s[i].playerId
  {
    if s != [] {
      IdsAt(s[1..]);
    }
  }

  /** Puts `x` before the first entry whose score does not exceed its own. */
  function Insert(x: Standing, s: seq<Standing>): (r: seq<Standing>)
    requires NonIncreasing(s)
    ensures NonIncreasing(r)
    ensures multiset(r) == multiset(s) + multiset{x}
    ensures |r| == |s| + 1 && (r[0] == x || (s != [] && r[0] == s[0]))
    ensures forall y :: y in r ==> y == x || y in s
  {
    if s == [] || s[0].score <= x.score then
      [x] + s
    else
      var t := Insert(x, s[1..]);
      assert s == [s[0]] + s[1..];
      [s[0]] + t
  }

  /** `standings.sort((a, b) => b.score - a.score)`. */
  function SortByScore(s: seq<Standing>): (r: seq<Standing>)
    ensures NonIncreasing(r)
    ensures multiset(r) == multiset(s)
  {
    if s == [] then []
    else
      assert s == [s[0]] + s[1..];
      Insert(s[0], SortByScore(s[1..]))
  }

  lemma {:induction false} InsertIds(x: Standing, s: seq<Standing>)
    requires NonIncreasing(s)
    ensures multiset(Ids(Insert(x, s))) == multiset(Ids(s)) + multiset{x.playerId}
  {
    if s == [] || s[0].score <= x.score {
      IdsCons(x, s);
    } else {
      var t := Insert(x, s[1..]);
      InsertIds(x, s[1..]);
      assert Insert(x, s) == [s[0]] + t;
      IdsCons(s[0], t);
      assert Ids(s) == [s[0].playerId] + Ids(s[1..]);
      ConsMultiset(s[0].playerId, Ids(t), Ids(s[1..]), x.playerId);
    }
  }

  lemma ConsMultiset<T>(a: T, xs: seq<T>, ys: seq<T>, b: T)
    requires multiset(xs) == multiset(ys) + multiset{b}
    ensures multiset([a] + xs) == multiset([a] + ys) + multiset{b}
  {
  }

  lemma IdsCons(x: Standing, s: seq<Standing>)
    ensures Ids([x] + s) == [x.playerId] + Ids(s)
  {
    assert ([x] + s)[1..] == s;
  }

  lemma {:induction false} SortIds(s: seq<Standing>)
    ensures multiset(Ids(SortByScore(s))) == multiset(Ids(s))
  {
    if s != [] {
      var t := SortByScore(s[1..]);
      assert SortByScore(s) == Insert(s[0], t);
      calc {
        multiset(Ids(SortByScore(s)));
        == { InsertIds(s[0], t); }
        multiset(Ids(t)) + multiset{s[0].playerId};
        == { SortIds(s[1..]); }
        multiset(Ids(s[1..])) + multiset{s[0].playerId};
        == { assert Ids(s) == [s[0].playerId] + Ids(s[1..]); }
        multiset(Ids(s));
      }
    }
  }

  /** The entries of `s` that score `v`, in their order in `s`. */
  function Ties(s: seq<Standing>, v: int): seq<Standing>
    decreases |s|
  {
    if s == [] then []
    else if s[0].score == v then [s[0]] + Ties(s[1..], v)
    else Ties(s[1..], v)
  }

  /** Only entries scoring more than `x` are passed over, so among the entries scoring some
      `v`, `x` lands in front exactly when it scores `v` itself. */
  lemma {:induction false} InsertTies(x: Standing, s: seq<Standing>, v: int)
    requires NonIncreasing(s)
    ensures Ties(Insert(x, s), v) == if x.score == v then [x] + Ties(s, v) else Ties(s, v)
  {
    if s == [] || s[0].score <= x.score {
      assert Insert(x, s) == [x] + s;
      assert ([x] + s)[1..] == s;
    } else {
      var t := Insert(x, s[1..]);
      assert Insert(x, s) == [s[0]] + t;
      assert ([s[0]] + t)[1..] == t;
      InsertTies(x, s[1..], v);
    }
  }

  /** The sort is stable: entries with equal scores keep their relative order. */
  lemma {:induction false} SortIsStable(s: seq<Standing>, v: int)
    ensures Ties(SortByScore(s), v) == Ties(s, v)
  {
    if s != [] {
      SortIsStable(s[1..], v);
      InsertTies(s[0], SortByScore(s[1..]), v);
    }
  }

  /** The sort neither invents nor drops an entry. */
  lemma SortedMembers(s: seq<Standing>)
    ensures forall x :: x in SortByScore(s) <==> x in s
  {
    var r := SortByScore(s);
    assert forall x :: x in r <==> x in multiset(r);
  }

  /** The sorted standings list exactly the ranked players, with multiplicity. */
  lemma SortKeepsPlayers(s: seq<Standing>)
    ensures multiset(Ids(SortByScore(s))) == multiset(Ids(s))
    ensures |SortByScore(s)| == |s|
  {
    var r := SortByScore(s);
    SortIds(s);
    assert |r| == |multiset(r)| == |multiset(s)| == |s|;
  }

  /** The sort's first entry carries the highest score of all. */
  lemma FirstIsBest(s: seq<Standing>, k: nat)
    requires k < |s|
    ensures |SortByScore(s)| == |s|
    ensures s[k].score <= SortByScore(s)[0].score
  {
    var r := SortByScore(s);
    SortKeepsPlayers(s);
    assert s[k] in multiset(r);
    var j :| 0 <= j < |r| && r[j] == s[k];
  }
}
