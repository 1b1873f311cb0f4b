/** The highscore table of one level, as values: ranking, insertion and the
    qualification test. `add_score` and `maybe_add_highscore` share this
    logic. */
module Ranking {
  import opened Slices

  /** `MAX_HIGHSCORES`: the number of entries a table keeps. */
  const MaxHighscores: nat := 10

  /** One `{"name": ..., "score": ...}` record. */
  datatype Entry = Entry(name: string, score: int)

  /** Highest score first. */
  predicate SortedDesc(s: seq<Entry>) {
    forall i, j :: 0 <= i < j < |s| ==> s[i].score >= s[j].score
  }

  /** What every stored table looks like once the program has written it. */
  predicate ValidTable(t: seq<Entry>) {
    SortedDesc(t) && |t| <= MaxHighscores
  }

  /** The entries of `s` whose score is `k`, in their order in `s`. A sort is
      stable exactly when it leaves each of these subsequences as it was. */
  function WithScore(s: seq<Entry>, k: int): (r: seq<Entry>)
    ensures forall i :: 0 <= i < |r| ==> r[i].score == k
  {
    if s == [] then []
    else WithScore(s[..|s| - 1], k) + (if s[|s| - 1].score == k then [s[|s| - 1]] else [])
  }

  lemma {:induction false} WithScoreMember(s: seq<Entry>, k: int, x: Entry)
    requires x in WithScore(s, k)
    ensures x in s
    decreases |s|
  {
    if x !in WithScore(s[..|s| - 1], k) {
      assert x == s[|s| - 1];
    } else {
      WithScoreMember(s[..|s| - 1], k, x);
    }
  }

  lemma {:induction false} WithScoreAppend(a: seq<Entry>, b: seq<Entry>, k: int)
    ensures WithScore(a + b, k) == WithScore(a, k) + WithScore(b, k)
    decreases |b|
  {
    if b == [] {
      assert a + b == a;
    } else {
      var b' := b[..|b| - 1];
      assert (a + b)[..|a + b| - 1] == a + b';
      WithScoreAppend(a, b', k);
    }
  }

  lemma {:induction false} WithScoreAbsent(s: seq<Entry>, k: int)
    requires forall i :: 0 <= i < |s| ==> s[i].score != k
    ensures WithScore(s, k) == []
    decreases |s|
  {
    if s != [] {
      WithScoreAbsent(s[..|s| - 1], k);
    }
  }

  /** The slot a stable descending sort gives a new entry with this score in a
      sorted table: just after the leading entries scoring at least as much. */
  function InsertPos(s: seq<Entry>, score: int): (p: nat)
    ensures p <= |s|
    ensures forall i :: 0 <= i < p ==> s[i].score >= score
    ensures p < |s| ==> s[p].score < score
  {
    if s == [] || s[0].score < score then 0 else 1 + InsertPos(s[1..], score)
  }

  /** In a sorted table the slot splits the entries exactly into those scoring
      at least `score` (before it) and those scoring less (from it on). */
  lemma {:induction false} InsertPosSplits(s: seq<Entry>, score: int)
    requires SortedDesc(s)
    ensures forall i :: 0 <= i < |s| ==> (s[i].score >= score <==> i < InsertPos(s, score))
  {
    var p := InsertPos(s, score);
    forall i | p <= i < |s|
      ensures s[i].score < score
    {
      assert s[p].score >= s[i].score;
    }
  }

  /** Places `e` after every entry whose score is at least its own. */
  function Insert(s: seq<Entry>, e: Entry): (r: seq<Entry>)
    ensures |r| == |s| + 1
    ensures multiset(r) == multiset(s) + multiset{e}
  {
    var p := InsertPos(s, e.score);
    assert s == s[..p] + s[p..];
    s[..p] + [e] + s[p..]
  }

  /** Where every element of `s` ends up after the insertion. */
  lemma {:induction false} InsertIndices(s: seq<Entry>, e: Entry)
    ensures var p, r := InsertPos(s, e.score), Insert(s, e);
      && r[p] == e
      && (forall i :: 0 <= i < p ==> r[i] == s[i])
      && (forall i :: p < i < |r| ==> r[i] == s[i - 1])
  {
  }

  lemma {:induction false} InsertKeepsSorted(s: seq<Entry>, e: Entry)
    requires SortedDesc(s)
    ensures SortedDesc(Insert(s, e))
  {
    var p := InsertPos(s, e.score);
    var r := Insert(s, e);
    InsertPosSplits(s, e.score);
    InsertIndices(s, e);
    forall i, j | 0 <= i < j < |r|
      ensures r[i].score >= r[j].score
    {
      var si := if i < p then s[i].score else if i == p then e.score else s[i - 1].score;
      var sj := if j < p then s[j].score else if j == p then e.score else s[j - 1].score;
      assert r[i].score == si && r[j].score == sj;
    }
  }

  /** Python's `sorted(s, key=score, reverse=True)`: a stable sort, highest
      score first, here written as an insertion sort. */
  function SortDesc(s: seq<Entry>): (r: seq<Entry>)
    ensures |r| == |s|
    ensures multiset(r) == multiset(s)
    ensures SortedDesc(r)
    decreases |s|
  {
    if s == [] then []
    else
      var front := s[..|s| - 1];
      assert s == front + [s[|s| - 1]];
      InsertKeepsSorted(SortDesc(front), s[|s| - 1]);
      Insert(SortDesc(front), s[|s| - 1])
  }

  /** In a sorted table, everything from the slot on scores less than the
      new entry. */
  lemma {:induction false} InsertShape(t: seq<Entry>, e: Entry)
    requires SortedDesc(t)
    ensures var p := InsertPos(t, e.score);
      && Insert(t, e) == t[..p] + [e] + t[p..]
      && t == t[..p] + t[p..]
      && forall i :: 0 <= i < |t[p..]| ==> t[p..][i].score < e.score
  {
    InsertPosSplits(t, e.score);
  }

  lemma {:induction false} WithScoreAround(front: seq<Entry>, e: Entry, back: seq<Entry>, k: int)
    requires forall i :: 0 <= i < |back| ==> back[i].score < e.score
    ensures WithScore(front + [e] + back, k) == WithScore(front + back, k) + WithScore([e], k)
  {
    WithScoreAppend(front + [e], back, k);
    WithScoreAppend(front, [e], k);
    WithScoreAppend(front, back, k);
    assert [e][..0] == [];
    if e.score == k {
      WithScoreAbsent(back, k);
    }
  }

  lemma {:induction false} InsertWithScore(t: seq<Entry>, e: Entry, k: int)
    requires SortedDesc(t)
    ensures WithScore(Insert(t, e), k) == WithScore(t, k) + WithScore([e], k)
  {
    var p := InsertPos(t, e.score);
    InsertShape(t, e);
    WithScoreAround(t[..p], e, t[p..], k);
  }

  /** The sort is stable: for every score, the entries with that score come
      out in the order they went in. */
  lemma {:induction false} SortDescStable(s: seq<Entry>, k: int)
    ensures WithScore(SortDesc(s), k) == WithScore(s, k)
    decreases |s|
  {
    if s != [] {
      var front, x := s[..|s| - 1], s[|s| - 1];
      SortDescStable(front, k);
      InsertWithScore(SortDesc(front), x, k);
      WithScoreLast(s, k);
    }
  }

  lemma {:induction false} WithScoreLast(s: seq<Entry>, k: int)
    requires s != []
    ensures WithScore(s, k) == WithScore(s[..|s| - 1], k) + WithScore([s[|s| - 1]], k)
  {
    assert [s[|s| - 1]][..0] == [];
  }

  lemma {:induction false} LastWithScore(s: seq<Entry>)
    requires s != []
    ensures var w := WithScore(s, s[|s| - 1].score); w != [] && w[|w| - 1] == s[|s| - 1]
  {
  }

  /** Every entry of a sorted table scores at least as much as its last one. */
  lemma {:induction false} SortedLastIsLowest(s: seq<Entry>, x: Entry)
    requires SortedDesc(s) && x in s
    ensures x.score >= s[|s| - 1].score
  {
    var i :| 0 <= i < |s| && s[i] == x;
  }

  lemma {:induction false} LastEntriesAgree(a: seq<Entry>, b: seq<Entry>)
    requires SortedDesc(a) && SortedDesc(b) && a != [] && b != []
    requires forall k :: WithScore(a, k) == WithScore(b, k)
    ensures a[|a| - 1] == b[|b| - 1]
  {
    var la, lb := a[|a| - 1], b[|b| - 1];
    LastWithScore(a);
    LastWithScore(b);
    var wa, wb := WithScore(a, la.score), WithScore(b, lb.score);
    assert wa == WithScore(b, la.score) && wb == WithScore(a, lb.score);
    assert la in wa && lb in wb;
    WithScoreMember(b, la.score, la);
    WithScoreMember(a, lb.score, lb);
    SortedLastIsLowest(b, la);
    SortedLastIsLowest(a, lb);
    assert wa == wb;
  }

  lemma {:induction false} SeqCancel(u: seq<Entry>, v: seq<Entry>, x: Entry)
    requires u + [x] == v + [x]
    ensures u == v
  {
    assert u == (u + [x])[..|u|];
    assert v == (v + [x])[..|v|];
  }

  lemma {:induction false} DropLastOne(a: seq<Entry>, b: seq<Entry>, k: int)
    requires a != [] && b != [] && a[|a| - 1] == b[|b| - 1]
    requires WithScore(a, k) == WithScore(b, k)
    ensures WithScore(a[..|a| - 1], k) == WithScore(b[..|b| - 1], k)
  {
    var x := a[|a| - 1];
    var wa, wb := WithScore(a[..|a| - 1], k), WithScore(b[..|b| - 1], k);
    assert WithScore(a, k) == wa + (if x.score == k then [x] else []);
    assert WithScore(b, k) == wb + (if x.score == k then [x] else []);
    if x.score == k {
      SeqCancel(wa, wb, x);
    } else {
      assert wa + [] == wa && wb + [] == wb;
    }
  }

  lemma {:induction false} DropLastKeepsAgreement(a: seq<Entry>, b: seq<Entry>, a': seq<Entry>, b': seq<Entry>)
    requires a != [] && b != [] && a[|a| - 1] == b[|b| - 1]
    requires a' == a[..|a| - 1] && b' == b[..|b| - 1]
    requires forall k :: WithScore(a, k) == WithScore(b, k)
    ensures forall k :: WithScore(a', k) == WithScore(b', k)
  {
    forall k
      ensures WithScore(a', k) == WithScore(b', k)
    {
      DropLastOne(a, b, k);
    }
  }

  /** Two sorted arrangements that agree on the order within every score are
      the same sequence. */
  lemma {:induction false} StableSortUnique(a: seq<Entry>, b: seq<Entry>)
    requires SortedDesc(a) && SortedDesc(b)
    requires forall k :: WithScore(a, k) == WithScore(b, k)
    ensures a == b
    decreases |a| + |b|
  {
    if a == [] && b == [] {
    } else if a == [] {
      LastWithScore(b);
    } else if b == [] {
      LastWithScore(a);
    } else {
      LastEntriesAgree(a, b);
      DropLastKeepsAgreement(a, b, a[..|a| - 1], b[..|b| - 1]);
      StableSortUnique(a[..|a| - 1], b[..|b| - 1]);
      assert a == a[..|a| - 1] + [a[|a| - 1]];
      assert b == b[..|b| - 1] + [b[|b| - 1]];
    }
  }

  /** `r` is what a stable sort by descending score makes of `s`. */
  ghost predicate IsStableSortOf(r: seq<Entry>, s: seq<Entry>) {
    SortedDesc(r) && forall k :: WithScore(r, k) == WithScore(s, k)
  }

  /** `SortDesc` is a stable descending sort ... */
  lemma {:induction false} SortDescIsStableSort(s: seq<Entry>)
    ensures IsStableSortOf(SortDesc(s), s)
  {
    forall k
      ensures WithScore(SortDesc(s), k) == WithScore(s, k)
    {
      SortDescStable(s, k);
    }
  }

  /** ... and the only one: any stable descending sort of `s` is `SortDesc(s)`. */
  lemma {:induction false} StableSortIsSortDesc(s: seq<Entry>, r: seq<Entry>)
    requires IsStableSortOf(r, s)
    ensures r == SortDesc(s)
  {
    SortDescIsStableSort(s);
    StableSortUnique(r, SortDesc(s));
  }

  /** Sorting an already sorted table changes nothing. */
  lemma {:induction false} SortDescOfSorted(s: seq<Entry>)
    requires SortedDesc(s)
    ensures SortDesc(s) == s
  {
    StableSortIsSortDesc(s, s);
  }

  /** `add_score` / the body of `maybe_add_highscore`: append, stable sort by
      score descending, keep the first `MaxHighscores` entries. */
  function AddScore(table: seq<Entry>, e: Entry): (r: seq<Entry>)
    ensures ValidTable(r)
    ensures |r| == if |table| < MaxHighscores then |table| + 1 else MaxHighscores
    ensures multiset(r) <= multiset(table) + multiset{e}
  {
    var sorted := SortDesc(table + [e]);
    var r := Truncate(sorted, MaxHighscores);
    assert sorted == r + sorted[|r|..];
    r
  }

  /** On a sorted table the sort degenerates to one insertion. */
  lemma {:induction false} AddScoreToSorted(table: seq<Entry>, e: Entry)
    requires SortedDesc(table)
    ensures AddScore(table, e) == Truncate(Insert(table, e), MaxHighscores)
  {
    assert (table + [e])[..|table|] == table;
    SortDescOfSorted(table);
  }

  /** Ties rank by insertion order: on a sorted table the new entry goes just
      after the old entries scoring at least as much (equal scores included)
      and before every lower one, the old entries keep their relative order,
      and then the table is cut to `MaxHighscores`. */
  lemma {:induction false} NewEntryRanksBelowTies(table: seq<Entry>, e: Entry)
    requires SortedDesc(table)
    ensures var p := InsertPos(table, e.score);
      && (forall i :: 0 <= i < |table| ==> (table[i].score >= e.score <==> i < p))
      && AddScore(table, e) == Truncate(table[..p] + [e] + table[p..], MaxHighscores)
  {
    AddScoreToSorted(table, e);
    InsertShape(table, e);
    InsertPosSplits(table, e.score);
  }

  /** The test made before asking for a name (`len(scores) < 10 or score >
      scores[-1]["score"]`). On a sorted table the last entry is the lowest,
      so a score qualifies exactly when the table has room or the score beats
      some entry of it. */
  function Qualifies(table: seq<Entry>, score: int): (q: bool)
    ensures SortedDesc(table) ==>
      (q <==> |table| < MaxHighscores || exists i :: 0 <= i < |table| && score > table[i].score)
  {
    |table| < MaxHighscores || score > table[|table| - 1].score
  }

  /** On a stored table the test is exact: it passes precisely when the new
      entry's slot lies inside the kept part of the table, and then the new
      entry is there. */
  lemma {:induction false} QualifyingEntrySurvives(table: seq<Entry>, e: Entry)
    requires ValidTable(table)
    ensures var p := InsertPos(table, e.score);
      && (Qualifies(table, e.score) <==> p < MaxHighscores)
      && (Qualifies(table, e.score) ==> p < |AddScore(table, e)| && AddScore(table, e)[p] == e)
  {
    AddScoreToSorted(table, e);
    InsertShape(table, e);
    InsertPosSplits(table, e.score);
  }

  /** A score that fails the test would not have made the table anyway:
      inserting it leaves a stored table exactly as it was. */
  lemma {:induction false} NonQualifyingLeavesTable(table: seq<Entry>, e: Entry)
    requires ValidTable(table) && !Qualifies(table, e.score)
    ensures AddScore(table, e) == table
  {
    AddScoreToSorted(table, e);
    InsertPosSplits(table, e.score);
    assert InsertPos(table, e.score) == |table|;
  }

  lemma {:induction false} InsertPosOfPrefix(t: seq<Entry>, n: nat, score: int)
    requires InsertPos(t, score) <= n <= |t|
    ensures InsertPos(t[..n], score) == InsertPos(t, score)
  {
    if t != [] && t[0].score >= score {
      assert t[..n][1..] == t[1..][..n - 1];
      InsertPosOfPrefix(t[1..], n - 1, score);
    }
  }

  /** A qualifying score entering a full table displaces exactly the previous
      last entry. */
  lemma {:induction false} FullTableDropsLast(table: seq<Entry>, e: Entry)
    requires ValidTable(table) && |table| == MaxHighscores && Qualifies(table, e.score)
    ensures AddScore(table, e) == Insert(table[..MaxHighscores - 1], e)
    ensures multiset(AddScore(table, e)) == multiset(table[..MaxHighscores - 1]) + multiset{e}
  {
    var p := InsertPos(table, e.score);
    QualifyingEntrySurvives(table, e);
    NewEntryRanksBelowTies(table, e);
    var kept := table[..MaxHighscores - 1];
    InsertPosOfPrefix(table, MaxHighscores - 1, e.score);
    assert kept[..p] == table[..p];
    assert kept[p..] == table[p..MaxHighscores - 1];
    assert (table[..p] + [e] + table[p..])[..MaxHighscores] == table[..p] + [e] + kept[p..];
  }
}
