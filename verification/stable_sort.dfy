/** Ordering of (file, score) pairs by ascending score with Python's stable
    `list.sort`: equal scores keep the order they had before sorting. The sort
    is modelled as a functional insertion sort; `StableSortUnique` shows that
    any stable ascending sort yields the same list, so the choice of algorithm
    does not matter. */
module StableSort {

  /** One recorded `(item['Audio_File'], avg_distance)` tuple. */
  datatype Scored = Scored(audioFile: string, score: real)

  /** Scores never decrease along `s`. */
  predicate SortedByScore(s: seq<Scored>)
  {
    forall i, j :: 0 <= i < j < |s| ==> s[i].score <= s[j].score
  }

  /** The pairs of `s` whose score is `v`, in the order they occur in `s`. */
  function WithScore(s: seq<Scored>, v: real): (r: seq<Scored>)
    ensures |r| <= |s|
  {
    if |s| == 0 then []
    else (if s[0].score == v then [s[0]] else []) + WithScore(s[1..], v)
  }

  /** `r` is `s` sorted by ascending score, ties left in their order in `s`. */
  ghost predicate StableSortOf(r: seq<Scored>, s: seq<Scored>)
  {
    && SortedByScore(r)
    && multiset(r) == multiset(s)
    && forall v :: WithScore(r, v) == WithScore(s, v)
  }

  /** Inserts `x` in front of the first pair that does not score below it. */
  function Insert(x: Scored, t: seq<Scored>): (r: seq<Scored>)
    ensures multiset(r) == multiset(t) + multiset{x}
  {
    if |t| == 0 then [x]
    else if x.score <= t[0].score then [x] + t
    else
      assert t == [t[0]] + t[1..];
      [t[0]] + Insert(x, t[1..])
  }

  /** A pair drawn from a multiset of sorted pairs scores at least the first of them. */
  lemma MemberAtLeastHead(y: Scored, t: seq<Scored>)
    requires SortedByScore(t) && |t| > 0 && y in multiset(t[1..])
    ensures t[0].score <= y.score
  {
    var k :| 0 <= k < |t[1..]| && t[1..][k] == y;
    assert t[k + 1] == y;
  }

  /** Inserting into a sorted list keeps it sorted. */
  lemma {:induction false} InsertSorted(x: Scored, t: seq<Scored>)
    requires SortedByScore(t)
    ensures SortedByScore(Insert(x, t))
  {
    if |t| > 0 && x.score > t[0].score {
      var rest := Insert(x, t[1..]);
      InsertSorted(x, t[1..]);
      forall j | 0 <= j < |rest|
        ensures t[0].score <= rest[j].score
      {
        assert rest[j] in multiset(rest);
        if rest[j] != x {
          MemberAtLeastHead(rest[j], t);
        }
      }
      assert Insert(x, t) == [t[0]] + rest;
    }
  }

  /** Stable ascending sort by score. */
  function SortByScore(s: seq<Scored>): (r: seq<Scored>)
    ensures SortedByScore(r)
    ensures multiset(r) == multiset(s)
  {
    if |s| == 0 then []
    else
      assert s == [s[0]] + s[1..];
      var rest := SortByScore(s[1..]);
      InsertSorted(s[0], rest);
      Insert(s[0], rest)
  }

  lemma WithScoreCons(x: Scored, t: seq<Scored>, v: real)
    ensures WithScore([x] + t, v) == Tie(x, v) + WithScore(t, v)
  {
    assert ([x] + t)[1..] == t;
  }

  /** The one-pair run of `x` among the pairs scoring `v`. */
  function Tie(x: Scored, v: real): seq<Scored>
  {
    if x.score == v then [x] else []
  }

  /** Past a lower-scoring head, insertion continues in the tail. */
  lemma InsertPastHead(x: Scored, t: seq<Scored>)
    requires |t| > 0 && x.score > t[0].score
    ensures Insert(x, t) == [t[0]] + Insert(x, t[1..])
  {
  }

  /** Two pairs with different scores never share a run. */
  lemma TiesCommute(a: Scored, b: Scored, v: real, rest: seq<Scored>)
    requires a.score != b.score
    ensures Tie(a, v) + (Tie(b, v) + rest) == Tie(b, v) + (Tie(a, v) + rest)
  {
  }

  /** Inserting `x` in front of `t` keeps every run of equal scores in the
      order `x`, then `t`. */
  lemma {:induction false} InsertKeepsTies(x: Scored, t: seq<Scored>, v: real)
    ensures WithScore(Insert(x, t), v) == WithScore([x] + t, v)
  {
    if |t| > 0 && x.score > t[0].score {
      var t' := t[1..];
      var rest := Insert(x, t');
      InsertPastHead(x, t);
      calc {
        WithScore(Insert(x, t), v);
        { WithScoreCons(t[0], rest, v); }
        Tie(t[0], v) + WithScore(rest, v);
        { InsertKeepsTies(x, t', v); }
        Tie(t[0], v) + WithScore([x] + t', v);
        { WithScoreCons(x, t', v); }
        Tie(t[0], v) + (Tie(x, v) + WithScore(t', v));
        { TiesCommute(t[0], x, v, WithScore(t', v)); }
        Tie(x, v) + (Tie(t[0], v) + WithScore(t', v));
        { WithScoreCons(t[0], t', v); assert t == [t[0]] + t'; }
        Tie(x, v) + WithScore(t, v);
        { WithScoreCons(x, t, v); }
        WithScore([x] + t, v);
      }
    }
  }

  /** The sort is stable: pairs with equal scores come out in input order. */
  lemma {:induction false} SortByScoreIsStable(s: seq<Scored>, v: real)
    ensures WithScore(SortByScore(s), v) == WithScore(s, v)
  {
    if |s| > 0 {
      SortByScoreIsStable(s[1..], v);
      InsertKeepsTies(s[0], SortByScore(s[1..]), v);
      WithScoreCons(s[0], SortByScore(s[1..]), v);
      WithScoreCons(s[0], s[1..], v);
      assert s == [s[0]] + s[1..];
    }
  }

  /** `SortByScore` is a stable ascending sort of its input. */
  lemma SortByScoreIsStableSort(s: seq<Scored>)
    ensures StableSortOf(SortByScore(s), s)
  {
    forall v
      ensures WithScore(SortByScore(s), v) == WithScore(s, v)
    {
      SortByScoreIsStable(s, v);
    }
  }

  /** The first pair of a list sorted by score holds its smallest score. */
  lemma SortedHeadIsLeast(r: seq<Scored>, x: Scored)
    requires SortedByScore(r) && x in r
    ensures r[0].score <= x.score
  {
    var k :| 0 <= k < |r| && r[k] == x;
    if k > 0 {
      assert r[0].score <= r[k].score;
    }
  }

  /** Two stable sorts of the same list start with the same pair. */
  lemma SameHead(r1: seq<Scored>, r2: seq<Scored>, s: seq<Scored>)
    requires StableSortOf(r1, s) && StableSortOf(r2, s) && |r1| > 0
    ensures |r2| > 0 && r1[0] == r2[0]
  {
    assert r1[0] in multiset(r2);
    SortedHeadIsLeast(r2, r1[0]);
    assert r2[0] in multiset(r1);
    SortedHeadIsLeast(r1, r2[0]);
    var v := r1[0].score;
    assert r1 == [r1[0]] + r1[1..];
    assert r2 == [r2[0]] + r2[1..];
    WithScoreCons(r1[0], r1[1..], v);
    WithScoreCons(r2[0], r2[1..], v);
    assert WithScore(r1, v) == WithScore(s, v) == WithScore(r2, v);
    assert WithScore(r1, v)[0] == r1[0];
  }

  /** Dropping a common head from two stable sorts of one list leaves lists
      with the same runs of ties. */
  lemma SameTailRuns(r1: seq<Scored>, r2: seq<Scored>, s: seq<Scored>, u: real)
    requires StableSortOf(r1, s) && StableSortOf(r2, s)
    requires |r1| > 0 && |r2| > 0 && r1[0] == r2[0]
    ensures WithScore(r1[1..], u) == WithScore(r2[1..], u)
  {
    assert r1 == [r1[0]] + r1[1..];
    assert r2 == [r2[0]] + r2[1..];
    WithScoreCons(r1[0], r1[1..], u);
    WithScoreCons(r2[0], r2[1..], u);
    assert WithScore(r1, u) == WithScore(s, u) == WithScore(r2, u);
    var h := Tie(r1[0], u);
    assert WithScore(r1[1..], u) == (h + WithScore(r1[1..], u))[|h|..];
    assert WithScore(r2[1..], u) == (h + WithScore(r2[1..], u))[|h|..];
  }

  /** Sorted order and the order within each run of ties fix the list:
      any two stable ascending sorts of `s` are equal. */
  lemma {:induction false} StableSortUnique(r1: seq<Scored>, r2: seq<Scored>, s: seq<Scored>)
    requires StableSortOf(r1, s) && StableSortOf(r2, s)
    ensures r1 == r2
  {
    assert |r1| == |multiset(r1)| == |multiset(r2)| == |r2|;
    if |r1| > 0 {
      SameHead(r1, r2, s);
      var t1, t2 := r1[1..], r2[1..];
      assert r1 == [r1[0]] + t1;
      assert r2 == [r2[0]] + t2;
      assert multiset(r1) == multiset([r1[0]]) + multiset(t1);
      assert multiset(r2) == multiset([r2[0]]) + multiset(t2);
      assert multiset(r1) == multiset(s) == multiset(r2);
      assert multiset(t1) == multiset(r1) - multiset{r1[0]};
      assert multiset(t1) == multiset(t2);
      forall u
        ensures WithScore(t2, u) == WithScore(t1, u)
      {
        SameTailRuns(r1, r2, s, u);
      }
      assert StableSortOf(t1, t1);
      assert StableSortOf(t2, t1);
      StableSortUnique(t1, t2, t1);
    }
  }
}
