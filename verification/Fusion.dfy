/** Reciprocal rank fusion of the vector and the keyword ranking: internal/rag/retrieve.go, rrf. Scores are reals. */
module Fusion {
  import opened Wrappers

  datatype Document = Document(id: string, content: string)

  datatype Pair = Pair(id: string, score: real)

  const LIMIT: nat := 5

  /** What a place in one ranking is worth; places count from 0. */
  function Worth(k: real, place: nat): real
    requires k >= 0.0
  {
    1.0 / (k + (place + 1) as real)
  }

  /** What the first n places of a ranking give to a document. */
  function Share(rank: seq<Document>, id: string, k: real, n: nat): real
    requires k >= 0.0 && n <= |rank|
  {
    if n == 0 then 0.0 else Share(rank, id, k, n - 1) + (if rank[n-1].id == id then Worth(k, n - 1) else 0.0)
  }

  /** The sum of 1 / (k + rank) over both rankings. */
  function Score(a: seq<Document>, b: seq<Document>, id: string, k: real): real
    requires k >= 0.0
  {
    Share(a, id, k, |a|) + Share(b, id, k, |b|)
  }

  /** The documents of the first n places. */
  function IdsTo(rank: seq<Document>, n: nat): set<string>
    requires n <= |rank|
  {
    set i | 0 <= i < n :: rank[i].id
  }

  function Ids(rank: seq<Document>): set<string> {
    IdsTo(rank, |rank|)
  }

  /** The last document of that id. */
  function LastOf(rank: seq<Document>, id: string, n: nat): Option<Document>
    requires n <= |rank|
  {
    if n == 0 then None else if rank[n-1].id == id then Some(rank[n-1]) else LastOf(rank, id, n - 1)
  }

  /** The second ranking's copy of a document wins over the first's. */
  function Copy(a: seq<Document>, b: seq<Document>, id: string): Option<Document> {
    var inB := LastOf(b, id, |b|);
    if inB.Some? then inB else LastOf(a, id, |a|)
  }

  predicate Descending(list: seq<Pair>) {
    forall i, j :: 0 <= i < j < |list| ==> list[i].score >= list[j].score
  }

  // ---- What the result promises

  predicate Distinct(docs: seq<Document>) {
    forall i, j :: 0 <= i < j < |docs| ==> docs[i].id != docs[j].id
  }

  predicate Ordered(docs: seq<Document>, a: seq<Document>, b: seq<Document>, k: real)
    requires k >= 0.0
  {
    forall i, j :: 0 <= i < j < |docs| ==> Score(a, b, docs[i].id, k) >= Score(a, b, docs[j].id, k)
  }

  /** Nothing left out scores above anything returned. */
  predicate NoneBetter(docs: seq<Document>, a: seq<Document>, b: seq<Document>, k: real)
    requires k >= 0.0
  {
    forall id, j :: id in Ids(a) + Ids(b) - Ids(docs) && 0 <= j < |docs| ==>
      Score(a, b, docs[j].id, k) >= Score(a, b, id, k)
  }

  predicate Copied(docs: seq<Document>, a: seq<Document>, b: seq<Document>) {
    forall i :: 0 <= i < |docs| ==> Copy(a, b, docs[i].id) == Some(docs[i])
  }

  predicate Fused(docs: seq<Document>, a: seq<Document>, b: seq<Document>, k: real)
    requires k >= 0.0
  {
    && |docs| == Min(LIMIT, |Ids(a) + Ids(b)|)
    && Distinct(docs)
    && Copied(docs, a, b)
    && Ordered(docs, a, b, k)
    && NoneBetter(docs, a, b, k)
  }

  // ---- Tallies

  function ScoreOf(scores: map<string, real>, id: string): real {
    if id in scores then scores[id] else 0.0
  }

  function CopyOf(order: map<string, Document>, id: string): Option<Document> {
    if id in order then Some(order[id]) else None
  }

  /** What the maps hold once the first n places of `rank` are added to what they held before. */
  ghost predicate Tallied(was: map<string, real>, scores: map<string, real>, rank: seq<Document>, k: real, n: nat)
    requires k >= 0.0 && n <= |rank|
  {
    && scores.Keys == was.Keys + IdsTo(rank, n)
    && forall id :: ScoreOf(scores, id) == ScoreOf(was, id) + Share(rank, id, k, n)
  }

  ghost predicate Noted(was: map<string, Document>, order: map<string, Document>, rank: seq<Document>, n: nat)
    requires n <= |rank|
  {
    && order.Keys == was.Keys + IdsTo(rank, n)
    && forall id :: CopyOf(order, id) == (if LastOf(rank, id, n).Some? then LastOf(rank, id, n) else CopyOf(was, id))
  }

  lemma IdsStep(rank: seq<Document>, n: nat)
    requires n < |rank|
    ensures IdsTo(rank, n + 1) == IdsTo(rank, n) + {rank[n].id}
  {
  }

  method Tally(rank: seq<Document>, k: real, scores: map<string, real>, order: map<string, Document>)
    returns (newScores: map<string, real>, newOrder: map<string, Document>)
    requires k >= 0.0
    ensures Tallied(scores, newScores, rank, k, |rank|) && Noted(order, newOrder, rank, |rank|)
  {
    newScores, newOrder := scores, order;
    for i := 0 to |rank|
      invariant Tallied(scores, newScores, rank, k, i)
      invariant Noted(order, newOrder, rank, i)
    {
      var d := rank[i];
      IdsStep(rank, i);
      newScores := newScores[d.id := ScoreOf(newScores, d.id) + Worth(k, i)];
      newOrder := newOrder[d.id := d];
    }
  }

  // ---- The list of pairs

  function EntriesOf(scores: map<string, real>, ids: set<string>): set<Pair>
    requires ids <= scores.Keys
  {
    set id | id in ids :: Pair(id, scores[id])
  }

  /** The list holds every entry of the map once, in any order. */
  predicate Lists(list: seq<Pair>, scores: map<string, real>) {
    multiset(list) == multiset(EntriesOf(scores, scores.Keys))
  }

  method Pairs(scores: map<string, real>) returns (list: seq<Pair>)
    ensures Lists(list, scores)
  {
    list := [];
    var rest := scores.Keys;
    while rest != {}
      invariant rest <= scores.Keys
      invariant multiset(list) == multiset(EntriesOf(scores, scores.Keys - rest))
      decreases |rest|
    {
      var id :| id in rest;
      assert EntriesOf(scores, scores.Keys - (rest - {id})) ==
             EntriesOf(scores, scores.Keys - rest) + {Pair(id, scores[id])};
      list := list + [Pair(id, scores[id])];
      rest := rest - {id};
    }
    assert scores.Keys - rest == scores.Keys;
  }

  /** Any sort by descending score; the code's is not stable, so nothing is promised about equal scores. */
  method SortByScore(list: seq<Pair>) returns (sorted: seq<Pair>)
    ensures Descending(sorted) && multiset(sorted) == multiset(list)
  {
    sorted := [];
    for i := 0 to |list|
      invariant Descending(sorted) && multiset(sorted) == multiset(list[..i])
    {
      assert list[..i+1] == list[..i] + [list[i]];
      sorted := Insert(sorted, list[i]);
    }
    assert list[..|list|] == list;
  }

  method Insert(sorted: seq<Pair>, p: Pair) returns (longer: seq<Pair>)
    requires Descending(sorted)
    ensures Descending(longer) && multiset(longer) == multiset(sorted) + multiset{p}
  {
    var i := 0;
    while i < |sorted| && sorted[i].score >= p.score
      invariant i <= |sorted| && forall j :: 0 <= j < i ==> sorted[j].score >= p.score
    {
      i := i + 1;
    }
    longer := sorted[..i] + [p] + sorted[i..];
    assert sorted == sorted[..i] + sorted[i..];
  }

  lemma ListsDistinct(list: seq<Pair>, scores: map<string, real>, i: nat, j: nat)
    requires Lists(list, scores) && i < j < |list|
    ensures list[i].id != list[j].id
  {
    ListsEntry(list, scores, i);
    ListsEntry(list, scores, j);
    assert list == list[..j] + [list[j]] + list[j+1..];
    assert list[i] in multiset(list[..j]);
    assert multiset(list)[list[j]] <= 1;
  }

  lemma ListsEntry(list: seq<Pair>, scores: map<string, real>, i: nat)
    requires Lists(list, scores) && i < |list|
    ensures list[i].id in scores && list[i].score == scores[list[i].id]
  {
    assert list[i] in multiset(list);
  }

  lemma ListsEvery(list: seq<Pair>, scores: map<string, real>, id: string) returns (i: nat)
    requires Lists(list, scores) && id in scores
    ensures i < |list| && list[i] == Pair(id, scores[id])
  {
    var p := Pair(id, scores[id]);
    assert p in EntriesOf(scores, scores.Keys);
    assert p in multiset(list);
    i :| i < |list| && list[i] == p;
  }

  lemma {:induction false} EntriesSize(scores: map<string, real>, ids: set<string>)
    requires ids <= scores.Keys
    ensures |EntriesOf(scores, ids)| == |ids|
    decreases |ids|
  {
    if ids != {} {
      var id :| id in ids;
      EntriesSize(scores, ids - {id});
      assert EntriesOf(scores, ids) == EntriesOf(scores, ids - {id}) + {Pair(id, scores[id])};
    }
  }

  // ---- The fusion

  /** The documents of the first n pairs. */
  function Taken(list: seq<Pair>, order: map<string, Document>, n: nat): seq<Document>
    requires n <= |list| && forall i :: 0 <= i < |list| ==> list[i].id in order
  {
    seq(n, i requires 0 <= i < n => order[list[i].id])
  }

  method Rrf(rankA: seq<Document>, rankB: seq<Document>, k: real) returns (result: seq<Document>)
    requires k >= 0.0
    ensures Fused(result, rankA, rankB, k)
    ensures |result| == Min(5, |Ids(rankA) + Ids(rankB)|)
    ensures forall d :: d in result ==> d in rankB || (d in rankA && d.id !in Ids(rankB))
  {
    var scores, order := Tally(rankA, k, map[], map[]);
    ghost var was := order;
    scores, order := Tally(rankB, k, scores, order);
    var list := Pairs(scores);
    list := SortByScore(list);
    forall i | 0 <= i < |list| ensures list[i].id in order { ListsEntry(list, scores, i); }
    hide Tallied, Noted, Lists;
    result := [];
    var i := 0;
    while i < |list| && |result| < LIMIT
      invariant i <= |list| && i == |result| <= LIMIT
      invariant result == Taken(list, order, i)
    {
      if list[i].id in order {
        result := result + [order[list[i].id]];
      }
      i := i + 1;
    }
    assert Totals(rankA, rankB, k, scores, order) by { TotalsHold(rankA, rankB, k, scores, was, order); }
    TopIsFused(rankA, rankB, k, scores, order, list, result);
    CopiesAre(result, rankA, rankB);
  }

  /** The maps after both rankings. */
  predicate Totals(a: seq<Document>, b: seq<Document>, k: real, scores: map<string, real>, order: map<string, Document>)
    requires k >= 0.0
  {
    && scores.Keys == order.Keys == Ids(a) + Ids(b)
    && (forall id :: id in scores ==> scores[id] == Score(a, b, id, k))
    && (forall id :: id in order ==> Copy(a, b, id) == Some(order[id]) && order[id].id == id)
  }

  lemma {:induction false} LastOfId(rank: seq<Document>, id: string, n: nat)
    requires n <= |rank|
    ensures LastOf(rank, id, n).Some? ==> LastOf(rank, id, n).value.id == id
  {
    if n > 0 { LastOfId(rank, id, n - 1); }
  }

  lemma {:induction false} LastOfIs(rank: seq<Document>, id: string, n: nat)
    requires n <= |rank|
    ensures LastOf(rank, id, n).Some? <==> id in IdsTo(rank, n)
    ensures LastOf(rank, id, n).Some? ==> LastOf(rank, id, n).value in rank
  {
    if n > 0 {
      LastOfIs(rank, id, n - 1);
      IdsStep(rank, n - 1);
    }
  }

  /** The copy of a document is the second ranking's if it holds the document at all. */
  lemma CopyIs(a: seq<Document>, b: seq<Document>, id: string)
    ensures match Copy(a, b, id)
            case Some(d) => if id in Ids(b) then d in b else d in a
            case None => id !in Ids(a) && id !in Ids(b)
  {
    LastOfIs(a, id, |a|);
    LastOfIs(b, id, |b|);
  }

  lemma CopiesAre(docs: seq<Document>, a: seq<Document>, b: seq<Document>)
    requires Copied(docs, a, b)
    ensures forall d :: d in docs ==> d in b || (d in a && d.id !in Ids(b))
  {
    forall d | d in docs ensures d in b || (d in a && d.id !in Ids(b)) { CopyIs(a, b, d.id); }
  }

  lemma TotalsHold(a: seq<Document>, b: seq<Document>, k: real, scores: map<string, real>,
                   was: map<string, Document>, order: map<string, Document>)
    requires k >= 0.0 && scores.Keys == order.Keys == Ids(a) + Ids(b)
    requires forall id :: ScoreOf(scores, id) == Score(a, b, id, k)
    requires Noted(map[], was, a, |a|) && Noted(was, order, b, |b|)
    ensures Totals(a, b, k, scores, order)
  {
    forall id | id in order ensures Copy(a, b, id) == Some(order[id]) && order[id].id == id {
      LastOfId(a, id, |a|);
      LastOfId(b, id, |b|);
      assert CopyOf(order, id) == Some(order[id]);
    }
    forall id | id in scores ensures scores[id] == Score(a, b, id, k) {
      assert ScoreOf(scores, id) == scores[id];
    }
  }

  lemma TopIsFused(a: seq<Document>, b: seq<Document>, k: real, scores: map<string, real>, order: map<string, Document>,
                   list: seq<Pair>, docs: seq<Document>)
    requires k >= 0.0 && Totals(a, b, k, scores, order) && Lists(list, scores) && Descending(list)
    requires forall i :: 0 <= i < |list| ==> list[i].id in order
    requires docs == Taken(list, order, Min(LIMIT, |list|))
    ensures Fused(docs, a, b, k)
  {
    EntriesSize(scores, scores.Keys);
    assert |list| == |multiset(list)|;
    forall i | 0 <= i < |docs| ensures docs[i].id == list[i].id && list[i].score == Score(a, b, docs[i].id, k) {
      ListsEntry(list, scores, i);
    }
    forall i, j | 0 <= i < j < |docs| ensures docs[i].id != docs[j].id {
      ListsDistinct(list, scores, i, j);
    }
    forall id, j | id in Ids(a) + Ids(b) - Ids(docs) && 0 <= j < |docs|
      ensures Score(a, b, docs[j].id, k) >= Score(a, b, id, k)
    {
      var i := ListsEvery(list, scores, id);
      assert forall m :: 0 <= m < |docs| ==> docs[m].id in Ids(docs);
    }
  }

  // ---- What fusing means

  lemma {:induction false} ShareOfPlace(rank: seq<Document>, p: nat, k: real, n: nat)
    requires k >= 0.0 && p < n <= |rank| && Distinct(rank)
    ensures Share(rank, rank[p].id, k, n) == Worth(k, p)
  {
    if p < n - 1 {
      ShareOfPlace(rank, p, k, n - 1);
    } else {
      ShareOfAbsent(rank, rank[p].id, k, p);
    }
  }

  lemma {:induction false} ShareOfAbsent(rank: seq<Document>, id: string, k: real, n: nat)
    requires k >= 0.0 && n <= |rank| && forall i :: 0 <= i < n ==> rank[i].id != id
    ensures Share(rank, id, k, n) == 0.0
  {
    if n > 0 { ShareOfAbsent(rank, id, k, n - 1); }
  }

  lemma WorthFalls(k: real, p: nat, q: nat)
    requires k >= 0.0 && p < q
    ensures 0.0 < Worth(k, q) < Worth(k, p)
  {
    Smaller(k + (p + 1) as real, k + (q + 1) as real);
  }

  lemma Smaller(x: real, y: real)
    requires 0.0 < x < y
    ensures 0.0 < 1.0 / y < 1.0 / x
  {
    assert (1.0 / y) * y == 1.0 && (1.0 / x) * x == 1.0;
    assert (1.0 / x - 1.0 / y) * (x * y) == y - x;
  }

  /** A document returned with a higher score than another that is returned comes before it. */
  lemma HigherComesFirst(docs: seq<Document>, a: seq<Document>, b: seq<Document>, k: real, x: string, j: nat)
    returns (i: nat)
    requires k >= 0.0 && Fused(docs, a, b, k) && j < |docs|
    requires x in Ids(a) + Ids(b) && Score(a, b, x, k) > Score(a, b, docs[j].id, k)
    ensures i < j && docs[i].id == x
  {
    assert x in Ids(docs);
    i :| i < |docs| && docs[i].id == x;
  }

  /** Ranked above another in both inputs, a document comes before it whenever the other is returned. */
  lemma AboveInBothComesFirst(docs: seq<Document>, a: seq<Document>, b: seq<Document>, k: real,
                              pa: nat, qa: nat, pb: nat, qb: nat, j: nat)
    requires k >= 0.0 && Fused(docs, a, b, k) && Distinct(a) && Distinct(b)
    requires pa < qa < |a| && pb < qb < |b| && a[pa].id == b[pb].id && a[qa].id == b[qb].id
    requires j < |docs| && docs[j].id == a[qa].id
    ensures exists i :: 0 <= i < j && docs[i].id == a[pa].id
  {
    ShareOfPlace(a, pa, k, |a|);
    ShareOfPlace(a, qa, k, |a|);
    ShareOfPlace(b, pb, k, |b|);
    ShareOfPlace(b, qb, k, |b|);
    WorthFalls(k, pa, qa);
    WorthFalls(k, pb, qb);
    var i := HigherComesFirst(docs, a, b, k, a[pa].id, j);
  }

  /** What a place gives, written out. */
  lemma ShareWrittenOut(rank: seq<Document>, p: nat, k: real)
    requires k >= 0.0 && Distinct(rank) && p < |rank|
    ensures Share(rank, rank[p].id, k, |rank|) == 1.0 / (k + p as real + 1.0)
  {
    ShareOfPlace(rank, p, k, |rank|);
  }

  /** A document at place p of one ranking and q of the other, both counted from 0, scores 1/(k+p+1) + 1/(k+q+1); one
      that only one of them holds scores that one summand. */
  lemma ScoreWrittenOut(a: seq<Document>, b: seq<Document>, p: nat, q: nat, k: real)
    requires k >= 0.0 && Distinct(a) && Distinct(b)
    ensures p < |a| && q < |b| && a[p].id == b[q].id ==>
              Score(a, b, a[p].id, k) == 1.0 / (k + p as real + 1.0) + 1.0 / (k + q as real + 1.0)
    ensures p < |a| && a[p].id !in Ids(b) ==> Score(a, b, a[p].id, k) == 1.0 / (k + p as real + 1.0)
    ensures q < |b| && b[q].id !in Ids(a) ==> Score(a, b, b[q].id, k) == 1.0 / (k + q as real + 1.0)
  {
    if p < |a| {
      ShareWrittenOut(a, p, k);
      if a[p].id !in Ids(b) { ShareOfAbsent(b, a[p].id, k, |b|); }
    }
    if q < |b| {
      ShareWrittenOut(b, q, k);
      if b[q].id !in Ids(a) { ShareOfAbsent(a, b[q].id, k, |a|); }
    }
  }

  /** Of two documents that both rankings hold, the one whose sum is larger comes first whenever the other is returned.
      With k = 60, second and third place come before first and fifth. */
  lemma LargerSumComesFirst(docs: seq<Document>, a: seq<Document>, b: seq<Document>, k: real,
                            pa: nat, pb: nat, qa: nat, qb: nat, j: nat)
    requires k >= 0.0 && Fused(docs, a, b, k) && Distinct(a) && Distinct(b)
    requires pa < |a| && qa < |a| && pb < |b| && qb < |b| && a[pa].id == b[pb].id && a[qa].id == b[qb].id
    requires j < |docs| && docs[j].id == a[qa].id
    requires || 1.0 / (k + pa as real + 1.0) + 1.0 / (k + pb as real + 1.0)
                > 1.0 / (k + qa as real + 1.0) + 1.0 / (k + qb as real + 1.0)
             || (k == 60.0 && (pa, pb) == (1, 2) && (qa, qb) == (0, 4))
    ensures exists i :: 0 <= i < j && docs[i].id == a[pa].id
  {
    ScoreWrittenOut(a, b, pa, pb, k);
    ScoreWrittenOut(a, b, qa, qb, k);
    assert 1.0 / 62.0 + 1.0 / 63.0 > 1.0 / 61.0 + 1.0 / 65.0;
    var i := HigherComesFirst(docs, a, b, k, a[pa].id, j);
  }

  /** Two places no further down than k together are worth more than any one. */
  lemma TwoBeatOne(k: real, p: nat, q: nat, r: nat)
    requires k >= 0.0 && p as real <= k && q as real <= k
    ensures Worth(k, p) + Worth(k, q) > Worth(k, r)
  {
    var half := k + k + 2.0;
    Smaller(k + (p + 1) as real, half);
    Smaller(k + (q + 1) as real, half);
    assert 1.0 / half + 1.0 / half == 1.0 / (k + 1.0) by {
      assert (1.0 / half) * half == 1.0;
      assert (1.0 / (k + 1.0)) * (k + 1.0) == 1.0;
      assert (1.0 / half + 1.0 / half) * (k + 1.0) == 1.0;
    }
    if r > 0 { WorthFalls(k, 0, r); }
  }

  /**
   * A document that both rankings hold no further down than place k comes before every document that only one of them
   * holds. With k = 60 and rankings of at most five documents, as in the program, this covers all of them.
   */
  lemma AgreementComesFirst(docs: seq<Document>, a: seq<Document>, b: seq<Document>, k: real, pa: nat, pb: nat, j: nat)
    requires k >= 0.0 && Fused(docs, a, b, k) && Distinct(a) && Distinct(b)
    requires pa < |a| && pb < |b| && a[pa].id == b[pb].id && pa as real <= k && pb as real <= k
    requires j < |docs| && !(docs[j].id in Ids(a) && docs[j].id in Ids(b))
    ensures exists i :: 0 <= i < j && docs[i].id == a[pa].id
  {
    ShareOfPlace(a, pa, k, |a|);
    ShareOfPlace(b, pb, k, |b|);
    var r := OnlyOnePlace(a, b, docs[j].id, k);
    TwoBeatOne(k, pa, pb, r);
    var i := HigherComesFirst(docs, a, b, k, a[pa].id, j);
  }

  /** What a document held by at most one of the rankings scores. */
  lemma OnlyOnePlace(a: seq<Document>, b: seq<Document>, id: string, k: real) returns (r: nat)
    requires k >= 0.0 && Distinct(a) && Distinct(b) && !(id in Ids(a) && id in Ids(b))
    ensures Score(a, b, id, k) <= Worth(k, r)
  {
    if id in Ids(a) {
      r :| r < |a| && a[r].id == id;
      ShareOfPlace(a, r, k, |a|);
      ShareOfAbsent(b, id, k, |b|);
    } else if id in Ids(b) {
      r :| r < |b| && b[r].id == id;
      ShareOfPlace(b, r, k, |b|);
      ShareOfAbsent(a, id, k, |a|);
    } else {
      r := 0;
      ShareOfAbsent(a, id, k, |a|);
      ShareOfAbsent(b, id, k, |b|);
    }
  }
}
