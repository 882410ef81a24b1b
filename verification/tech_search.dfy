/** The backend `GET /technologies/search` endpoint: a case-insensitive substring
    filter, a ranking (exact match, then shorter names, then by name) and a capped
    LIMIT. */
module TechSearch {
  import opened Common
  import opened Seqs
  import opened Text
  import opened Store

  datatype SearchRequest = SearchRequest(q: string, limit: Option<int>)

  /** PostgreSQL rejects a negative LIMIT. */
  datatype SearchError = NegativeLimit

  /** `Math.min(req.limit || 20, 50)`. */
  function LimitOf(req: SearchRequest): (n: int)
    ensures n != 0 && n <= 50
    ensures req.limit.None? || req.limit.value == 0 ==> n == 20
    ensures req.limit.Some? && req.limit.value != 0 ==> n == Min(req.limit.value, 50)
  {
    Min(if req.limit.None? || req.limit.value == 0 then 20 else req.limit.value, 50)
  }

  /** `LOWER(name) LIKE '%' || lq || '%'`, with `lq` already lower-cased. */
  predicate NameMatches(lq: string, t: Technology) {
    Contains(Lower(t.name), lq)
  }

  /** `LOWER(name) = lq`: the first ranking class. */
  predicate IsExact(lq: string, t: Technology) {
    Lower(t.name) == lq
  }

  /** The ORDER BY of the search: `CASE WHEN exact THEN 1 ELSE 2 END, LENGTH(name), name`. */
  predicate RankLe(lq: string, a: Technology, b: Technology) {
    if IsExact(lq, a) != IsExact(lq, b) then IsExact(lq, a)
    else if |a.name| != |b.name| then |a.name| < |b.name|
    else LexLe(a.name, b.name)
  }

  function Ranking(lq: string): (Technology, Technology) -> bool {
    (a, b) => RankLe(lq, a, b)
  }

  lemma RankingTotalPreorder(lq: string)
    ensures TotalPreorder(Ranking(lq))
  {
    forall a: Technology, b: Technology
      ensures RankLe(lq, a, b) || RankLe(lq, b, a)
    {
      LexTotal(a.name, b.name);
    }
    forall a: Technology, b: Technology, c: Technology | RankLe(lq, a, b) && RankLe(lq, b, c)
      ensures RankLe(lq, a, c)
    {
      if IsExact(lq, a) == IsExact(lq, b) == IsExact(lq, c) && |a.name| == |b.name| == |c.name| {
        LexTransitive(a.name, b.name, c.name);
      }
    }
  }

  function Matching(db: Db, lq: string): seq<Technology> {
    Filter(db.technologies, t => NameMatches(lq, t))
  }

  /** Every match, best first: the query before LIMIT. */
  function Ranked(db: Db, lq: string): (r: seq<Technology>)
    ensures Sorted(r, Ranking(lq))
    ensures multiset(r) == multiset(Matching(db, lq))
  {
    RankingTotalPreorder(lq);
    Sort(Matching(db, lq), Ranking(lq))
  }

  lemma RankedAreMatches(db: Db, lq: string)
    ensures forall t :: t in Ranked(db, lq) ==> t in Matching(db, lq)
  {
    var ranked := Ranked(db, lq);
    forall t | t in ranked
      ensures t in Matching(db, lq)
    {
      assert t in multiset(ranked);
    }
  }

  lemma RankedInOrder(db: Db, lq: string)
    ensures var ranked := Ranked(db, lq);
      forall i, j :: 0 <= i < j < |ranked| ==> RankLe(lq, ranked[i], ranked[j])
  {
    var ranked := Ranked(db, lq);
    forall i, j | 0 <= i < j < |ranked|
      ensures RankLe(lq, ranked[i], ranked[j])
    {
      assert Ranking(lq)(ranked[i], ranked[j]);
    }
  }

  /** The handler. */
  function Search(db: Db, req: SearchRequest): (r: Result<seq<Technology>, SearchError>)
    ensures r.Failure? <==> LimitOf(req) < 0
    ensures r.Success? ==> |r.value| <= LimitOf(req) <= 50
    ensures r.Success? ==> |r.value| == Min(LimitOf(req), |Matching(db, Lower(req.q))|)
    ensures r.Success? ==> forall t :: t in r.value ==>
      t in db.technologies && ContainsIgnoringCase(t.name, req.q)
    ensures r.Success? ==> forall i, j :: 0 <= i < j < |r.value| ==>
      var lq := Lower(req.q);
      && (IsExact(lq, r.value[j]) ==> IsExact(lq, r.value[i]))
      && (IsExact(lq, r.value[i]) == IsExact(lq, r.value[j]) ==> |r.value[i].name| <= |r.value[j].name|)
      && (IsExact(lq, r.value[i]) == IsExact(lq, r.value[j]) && |r.value[i].name| == |r.value[j].name| ==>
            LexLe(r.value[i].name, r.value[j].name))
  {
    var limit := LimitOf(req);
    if limit < 0 then Failure(NegativeLimit)
    else Success(TopRanked(db, Lower(req.q), limit))
  }

  /** The first `limit` matches in ranking order. */
  function TopRanked(db: Db, lq: string, limit: nat): (r: seq<Technology>)
    ensures |r| == Min(limit, |Matching(db, lq)|)
    ensures forall t :: t in r ==> t in Matching(db, lq)
    ensures forall i, j :: 0 <= i < j < |r| ==> RankLe(lq, r[i], r[j])
  {
    var ranked := Ranked(db, lq);
    var r := ranked[..Min(limit, |ranked|)];
    assert |ranked| == |Matching(db, lq)| by {
      assert |multiset(ranked)| == |multiset(Matching(db, lq))|;
    }
    RankedAreMatches(db, lq);
    assert forall t :: t in r ==> t in ranked;
    RankedInOrder(db, lq);
    r
  }

  /** The result is a best-first prefix: any match left out ranks no better than every
      technology that was returned. */
  lemma NoBetterMatchDropped(db: Db, req: SearchRequest)
    requires Search(db, req).Success?
    ensures var r := Search(db, req).value;
      forall t, x :: t in db.technologies && ContainsIgnoringCase(t.name, req.q) && t !in r && x in r ==>
        RankLe(Lower(req.q), x, t)
  {
    var lq := Lower(req.q);
    var r := Search(db, req).value;
    var ranked := Ranked(db, lq);
    var k := Min(LimitOf(req), |ranked|);
    assert r == ranked[..k];
    forall t, x | t in db.technologies && ContainsIgnoringCase(t.name, req.q) && t !in r && x in r
      ensures RankLe(lq, x, t)
    {
      assert t in Matching(db, lq);
      assert t in multiset(ranked);
      PrefixPrecedesRest(ranked, k, Ranking(lq), x, t);
    }
  }

  /** When the matches fit under the limit, all of them are returned. */
  lemma FewMatchesAllReturned(db: Db, req: SearchRequest)
    requires Search(db, req).Success?
    requires |Matching(db, Lower(req.q))| <= LimitOf(req)
    ensures forall t :: t in db.technologies && ContainsIgnoringCase(t.name, req.q) ==> t in Search(db, req).value
  {
    var lq := Lower(req.q);
    var ranked := Ranked(db, lq);
    assert |ranked| == |Matching(db, lq)|;
    assert Search(db, req).value == ranked;
    forall t | t in db.technologies && ContainsIgnoringCase(t.name, req.q)
      ensures t in ranked
    {
      assert t in Matching(db, lq);
      assert t in multiset(ranked);
    }
  }

  /** A technology whose name equals the query up to case is the first result. */
  lemma ExactMatchRanksFirst(db: Db, req: SearchRequest, t: Technology)
    requires Search(db, req).Success? && LimitOf(req) >= 1
    requires t in db.technologies && Lower(t.name) == Lower(req.q)
    ensures |Search(db, req).value| > 0
    ensures IsExact(Lower(req.q), Search(db, req).value[0])
  {
    var lq := Lower(req.q);
    ContainsSelf(lq);
    assert NameMatches(lq, t);
    assert t in Matching(db, lq);
    var ranked := Ranked(db, lq);
    assert t in multiset(ranked);
    var j :| 0 <= j < |ranked| && ranked[j] == t;
    assert Search(db, req).value[0] == ranked[0];
    if j > 0 {
      assert Ranking(lq)(ranked[0], ranked[j]);
    }
  }
}
