/** Searching several knowledge bases: the best of the best of each are the best of all. */
module KnowledgeRetrieval {
  import opened Options
  import opened Text

  datatype Doc = Doc(id: string, score: real)

  // -------------------------------------------------------------------- sorting by score

  /** Descending by score. */
  ghost predicate Sorted(s: seq<Doc>) {
    forall i, j :: 0 <= i < j < |s| ==> s[i].score >= s[j].score
  }

  /** The documents with this score, in the order in which they stand. */
  function WithScore(s: seq<Doc>, score: real): seq<Doc> {
    if s == [] then [] else (if s[0].score == score then [s[0]] else []) + WithScore(s[1..], score)
  }

  /** Behind every document that scores at least as high. */
  function Insert(s: seq<Doc>, x: Doc): seq<Doc> {
    if s != [] && s[0].score >= x.score then [s[0]] + Insert(s[1..], x) else [x] + s
  }

  function Sort(s: seq<Doc>): seq<Doc> {
    if s == [] then [] else Insert(Sort(s[..|s| - 1]), s[|s| - 1])
  }

  lemma {:induction false} InsertAdds(s: seq<Doc>, x: Doc)
    ensures multiset(Insert(s, x)) == multiset(s) + multiset{x}
  {
    if s != [] && s[0].score >= x.score {
      InsertAdds(s[1..], x);
      assert s == [s[0]] + s[1..];
    }
  }

  lemma {:induction false} InsertSorts(s: seq<Doc>, x: Doc)
    requires Sorted(s)
    ensures Sorted(Insert(s, x))
  {
    if s != [] && s[0].score >= x.score {
      InsertSorts(s[1..], x);
      var r := Insert(s[1..], x);
      forall i | 0 <= i < |r|
        ensures s[0].score >= r[i].score
      {
        InsertAdds(s[1..], x);
        assert r[i] in multiset(r);
        assert r[i] == x || r[i] in s[1..];
      }
    }
  }

  lemma {:induction false} NoneAbove(s: seq<Doc>, v: real)
    requires forall i :: 0 <= i < |s| ==> s[i].score != v
    ensures WithScore(s, v) == []
  {
    if s != [] {
      NoneAbove(s[1..], v);
    }
  }

  lemma WithScoreCons(x: Doc, s: seq<Doc>, v: real)
    ensures WithScore([x] + s, v) == (if x.score == v then [x] else []) + WithScore(s, v)
  {
    assert ([x] + s)[1..] == s;
  }

  /** Documents of equal score keep their order: the new one comes last. */
  lemma {:induction false} InsertIsStable(s: seq<Doc>, x: Doc, v: real)
    requires Sorted(s)
    ensures WithScore(Insert(s, x), v) == WithScore(s, v) + (if x.score == v then [x] else [])
  {
    if s != [] && s[0].score >= x.score {
      InsertIsStable(s[1..], x, v);
      hide WithScore, Sorted;
      assert s == [s[0]] + s[1..];
      WithScoreCons(s[0], Insert(s[1..], x), v);
      WithScoreCons(s[0], s[1..], v);
    } else {
      if x.score == v {
        NoneAbove(s, v);
      }
      hide WithScore;
      WithScoreCons(x, s, v);
    }
  }

  lemma {:induction false} WithScoreSnoc(s: seq<Doc>, x: Doc, v: real)
    ensures WithScore(s + [x], v) == WithScore(s, v) + (if x.score == v then [x] else [])
  {
    if s == [] {
      assert s + [x] == [x] + [];
      WithScoreCons(x, [], v);
    } else {
      WithScoreSnoc(s[1..], x, v);
      hide WithScore;
      assert s == [s[0]] + s[1..] && s + [x] == [s[0]] + (s[1..] + [x]);
      WithScoreCons(s[0], s[1..] + [x], v);
      WithScoreCons(s[0], s[1..], v);
    }
  }

  /** What a stable sort is. */
  ghost predicate StablySorted(s: seq<Doc>, r: seq<Doc>) {
    Sorted(r) && forall v :: WithScore(r, v) == WithScore(s, v)
  }

  lemma {:induction false} SortIsStable(s: seq<Doc>)
    ensures StablySorted(s, Sort(s)) && multiset(Sort(s)) == multiset(s)
  {
    if s != [] {
      var before, x := s[..|s| - 1], s[|s| - 1];
      assert s == before + [x];
      SortIsStable(before);
      InsertSorts(Sort(before), x);
      InsertAdds(Sort(before), x);
      forall v
        ensures WithScore(Sort(s), v) == WithScore(s, v)
      {
        InsertIsStable(Sort(before), x, v);
        WithScoreSnoc(before, x, v);
      }
    }
  }

  lemma {:induction false} WithScoreMember(s: seq<Doc>, i: nat)
    requires i < |s|
    ensures WithScore(s, s[i].score) != []
  {
    if i > 0 {
      WithScoreMember(s[1..], i - 1);
    }
  }

  lemma SameHead(r: seq<Doc>, r': seq<Doc>)
    requires r != [] && r' != [] && Sorted(r) && Sorted(r') && forall v :: WithScore(r, v) == WithScore(r', v)
    ensures r[0] == r'[0]
  {
    var v, v' := r[0].score, r'[0].score;
    assert WithScore(r, v) == WithScore(r', v) && WithScore(r, v') == WithScore(r', v');
    HeadScoreIsTop(r, r');
    HeadScoreIsTop(r', r);
    assert WithScore(r, v)[0] == r[0] && WithScore(r', v')[0] == r'[0];
  }

  lemma SameTails(r: seq<Doc>, r': seq<Doc>, v: real)
    requires r != [] && r' != [] && r[0] == r'[0] && WithScore(r, v) == WithScore(r', v)
    ensures WithScore(r[1..], v) == WithScore(r'[1..], v)
  {
    var here := if r[0].score == v then [r[0]] else [];
    assert WithScore(r, v)[|here|..] == WithScore(r[1..], v);
    assert WithScore(r', v)[|here|..] == WithScore(r'[1..], v);
  }

  /** There is only one stable sort, so `Sort` is the one the language specifies. */
  lemma {:induction false} StableSortIsUnique(r: seq<Doc>, r': seq<Doc>)
    requires Sorted(r) && Sorted(r') && forall v :: WithScore(r, v) == WithScore(r', v)
    ensures r == r'
  {
    if r != [] {
      WithScoreMember(r, 0);
    }
    if r' != [] {
      WithScoreMember(r', 0);
    }
    if r != [] && r' != [] {
      SameHead(r, r');
      assert Sorted(r[1..]) && Sorted(r'[1..]);
      hide WithScore, Sorted;
      forall v
        ensures WithScore(r[1..], v) == WithScore(r'[1..], v)
      {
        SameTails(r, r', v);
      }
      StableSortIsUnique(r[1..], r'[1..]);
      assert r == [r[0]] + r[1..] && r' == [r'[0]] + r'[1..];
    }
  }

  lemma {:induction false} SomeWithScore(s: seq<Doc>, v: real)
    requires WithScore(s, v) != []
    ensures exists i :: 0 <= i < |s| && s[i].score == v
  {
    if s[0].score != v {
      SomeWithScore(s[1..], v);
      var i :| 0 <= i < |s[1..]| && s[1..][i].score == v;
      assert s[i + 1].score == v;
    }
  }

  lemma HeadScoreIsTop(r: seq<Doc>, r': seq<Doc>)
    requires r != [] && r' != [] && Sorted(r') && WithScore(r, r[0].score) == WithScore(r', r[0].score)
    ensures r'[0].score >= r[0].score
  {
    WithScoreMember(r, 0);
    SomeWithScore(r', r[0].score);
  }

  // ----------------------------------------------------------------- the best of the best

  function Take(s: seq<Doc>, k: nat): seq<Doc> {
    if |s| <= k then s else s[..k]
  }

  /** The first `k` after a stable sort. */
  function Top(s: seq<Doc>, k: nat): seq<Doc> {
    Take(Sort(s), k)
  }

  /** Ties go to the left. */
  function Merge(a: seq<Doc>, b: seq<Doc>): seq<Doc> {
    if a == [] then b
    else if b == [] then a
    else if a[0].score >= b[0].score then [a[0]] + Merge(a[1..], b)
    else [b[0]] + Merge(a, b[1..])
  }

  lemma {:induction false} MergeInsert(a: seq<Doc>, b: seq<Doc>, x: Doc)
    requires Sorted(a) && Sorted(b)
    ensures Merge(a, Insert(b, x)) == Insert(Merge(a, b), x)
    decreases |a| + |b|
  {
    if a != [] && (b == [] || a[0].score >= b[0].score) {
      MergeInsert(a[1..], b, x);
      assert Insert(b, x)[0] == x || (b != [] && Insert(b, x)[0] == b[0]);
      assert ([a[0]] + Merge(a[1..], b))[1..] == Merge(a[1..], b);
      assert ([x] + b)[1..] == b;
    } else if a != [] && b[0].score >= x.score {
      MergeInsert(a, b[1..], x);
      assert ([b[0]] + Insert(b[1..], x))[1..] == Insert(b[1..], x);
      assert ([b[0]] + Merge(a, b[1..]))[1..] == Merge(a, b[1..]);
    } else {
      assert ([x] + b)[1..] == b;
    }
  }

  lemma {:induction false} SortOfConcat(a: seq<Doc>, b: seq<Doc>)
    ensures Sort(a + b) == Merge(Sort(a), Sort(b))
  {
    if b == [] {
      assert a + b == a;
    } else {
      var before, x := b[..|b| - 1], b[|b| - 1];
      assert (a + b)[..|a + b| - 1] == a + before && (a + b)[|a + b| - 1] == x;
      SortOfConcat(a, before);
      SortIsStable(a);
      SortIsStable(before);
      MergeInsert(Sort(a), Sort(before), x);
    }
  }

  lemma TakeTwice(s: seq<Doc>, k: nat)
    ensures Take(s, 0) == []
    ensures k > 0 ==> Take(Take(s, k), k - 1) == Take(s, k - 1) && (s == [] <==> Take(s, k) == [])
    ensures k > 0 && s != [] ==> Take(s, k)[0] == s[0] && Take(Take(s, k)[1..], k - 1) == Take(s[1..], k - 1)
  {
  }

  lemma {:induction false} TakeOfMerge(a: seq<Doc>, b: seq<Doc>, k: nat)
    ensures Take(Merge(a, b), k) == Take(Merge(Take(a, k), Take(b, k)), k)
    decreases k, |a| + |b|
  {
    TakeTwice(a, k);
    TakeTwice(b, k);
    if k > 0 && a != [] && b != [] {
      hide Take;
      if a[0].score >= b[0].score {
        TakeOfMerge(a[1..], b, k - 1);
        TakeOfMerge(Take(a, k)[1..], Take(b, k), k - 1);
        TakeCons(a[0], Merge(a[1..], b), k);
        TakeCons(a[0], Merge(Take(a, k)[1..], Take(b, k)), k);
      } else {
        TakeOfMerge(a, b[1..], k - 1);
        TakeOfMerge(Take(a, k), Take(b, k)[1..], k - 1);
        TakeCons(b[0], Merge(a, b[1..]), k);
        TakeCons(b[0], Merge(Take(a, k), Take(b, k)[1..]), k);
      }
    }
  }

  lemma TakeCons(x: Doc, s: seq<Doc>, k: nat)
    requires k > 0
    ensures Take([x] + s, k) == [x] + Take(s, k - 1)
  {
  }

  lemma {:induction false} SortOfSorted(s: seq<Doc>)
    requires Sorted(s)
    ensures Sort(s) == s
  {
    SortIsStable(s);
    StableSortIsUnique(Sort(s), s);
  }

  lemma TopIsSorted(s: seq<Doc>, k: nat)
    ensures Sort(Top(s, k)) == Top(s, k)
  {
    SortIsStable(s);
    hide Sort;
    SortOfSorted(Top(s, k));
  }

  /** The best of two collections are the best of the best of each. */
  lemma TopOfConcat(a: seq<Doc>, b: seq<Doc>, k: nat)
    ensures Top(a + b, k) == Top(Top(a, k) + Top(b, k), k)
  {
    hide Sort, Sorted, Merge;
    SortOfConcat(a, b);
    SortOfConcat(Top(a, k), Top(b, k));
    TopIsSorted(a, k);
    TopIsSorted(b, k);
    TakeOfMerge(Sort(a), Sort(b), k);
  }

  // --------------------------------------------------------------------- the two searches

  datatype Missing = NotFound(id: string)

  function Positive(docs: seq<Doc>): seq<Doc> {
    if docs == [] then [] else (if docs[0].score > 0.0 then [docs[0]] else []) + Positive(docs[1..])
  }

  /** The built-in search of one base, whose documents have been scored against the query. */
  function Retrieve(bases: map<string, seq<Doc>>, id: string, k: nat): Result<seq<Doc>, Missing> {
    if id !in bases then Err(NotFound(id)) else Ok(Top(Positive(bases[id]), k))
  }

  /** The distinct trimmed ids that are not empty, in the order of their first occurrence. */
  function CleanIds(ids: seq<string>): (r: seq<string>)
    ensures forall i, j :: 0 <= i < j < |r| ==> r[i] != r[j]
    ensures forall id :: id in r <==> id != [] && exists i :: 0 <= i < |ids| && Trim(ids[i]) == id
  {
    if ids == [] then [] else
    var before, last := CleanIds(ids[..|ids| - 1]), Trim(ids[|ids| - 1]);
    if last == [] || last in before then before else before + [last]
  }

  /** More ids only ever add to the end: the order is that of the first occurrences. */
  lemma {:induction false} CleanIdsGrow(ids: seq<string>, n: nat)
    requires n <= |ids|
    ensures CleanIds(ids[..n]) <= CleanIds(ids)
  {
    if n == |ids| {
      assert ids[..n] == ids;
    } else {
      CleanIdsGrow(ids[..|ids| - 1], n);
      assert ids[..|ids| - 1][..n] == ids[..n];
    }
  }

  function RetrieveAll(bases: map<string, seq<Doc>>, ids: seq<string>, k: nat): Result<seq<Doc>, Missing> {
    if ids == [] then Ok([])
    else
      match Retrieve(bases, ids[0], k)
      case Err(e) => Err(e)
      case Ok(hits) =>
        match RetrieveAll(bases, ids[1..], k)
        case Err(e) => Err(e)
        case Ok(rest) => Ok(hits + rest)
  }

  function RetrieveMany(bases: map<string, seq<Doc>>, ids: seq<string>, k: nat): Result<seq<Doc>, Missing> {
    match RetrieveAll(bases, CleanIds(ids), k)
    case Err(e) => Err(e)
    case Ok(hits) => Ok(Top(hits, k))
  }

  /** Every positively scoring document of these bases, base after base. */
  function AllPositive(bases: map<string, seq<Doc>>, ids: seq<string>): seq<Doc>
    requires forall id :: id in ids ==> id in bases
  {
    if ids == [] then [] else Positive(bases[ids[0]]) + AllPositive(bases, ids[1..])
  }

  lemma {:induction false} RetrieveAllFinds(bases: map<string, seq<Doc>>, ids: seq<string>, k: nat)
    ensures RetrieveAll(bases, ids, k).Ok? <==> forall id :: id in ids ==> id in bases
    ensures RetrieveAll(bases, ids, k).Ok? ==>
      Top(RetrieveAll(bases, ids, k).value, k) == Top(AllPositive(bases, ids), k)
  {
    if ids != [] {
      RetrieveAllFinds(bases, ids[1..], k);
      if RetrieveAll(bases, ids, k).Ok? {
        var here, rest := Positive(bases[ids[0]]), AllPositive(bases, ids[1..]);
        var hits := RetrieveAll(bases, ids[1..], k).value;
        TopOfConcat(Top(here, k), hits, k);
        TopIsSorted(here, k);
        TopOfConcat(here, rest, k);
      }
    }
  }

  /** Searching several bases separately for the best `k` each, and taking the best `k` of those, gives the
    * first `k` of one stable sort of all positively scoring documents; a base that is not there fails
    * the search. */
  lemma BestOfTheBest(bases: map<string, seq<Doc>>, ids: seq<string>, k: nat)
    ensures RetrieveMany(bases, ids, k).Ok? <==> forall id :: id in CleanIds(ids) ==> id in bases
    ensures RetrieveMany(bases, ids, k).Ok? ==>
      RetrieveMany(bases, ids, k).value == Top(AllPositive(bases, CleanIds(ids)), k)
  {
    RetrieveAllFinds(bases, CleanIds(ids), k);
  }

  // -------------------------------------------------------------- what a search returns

  /** The document stands in one of the bases that are named, and scores above zero. */
  ghost predicate Matches(bases: map<string, seq<Doc>>, ids: seq<string>, d: Doc) {
    d.score > 0.0 && exists id :: id in ids && StandsIn(bases, Trim(id), d)
  }

  predicate StandsIn(bases: map<string, seq<Doc>>, id: string, d: Doc) {
    id != [] && id in bases && d in bases[id]
  }

  /** Every score in descending order, ties in the order of the documents: `r` is the first `k` of such an order of
    * `s`. */
  ghost predicate Leads(r: seq<Doc>, s: seq<Doc>, k: nat) {
    && |r| == (if |s| <= k then |s| else k)
    && (forall i, j :: 0 <= i < j < |r| ==> r[i].score >= r[j].score)
    && (forall v :: WithScore(r, v) <= WithScore(s, v))
    && (forall d, x :: d in r && x in s && x.score > d.score ==> x in r)
  }

  lemma {:induction false} PositiveKeeps(s: seq<Doc>, v: real)
    ensures WithScore(Positive(s), v) == if v > 0.0 then WithScore(s, v) else []
  {
    if s != [] {
      PositiveKeeps(s[1..], v);
      if s[0].score > 0.0 {
        WithScoreCons(s[0], Positive(s[1..]), v);
      } else {
        assert [] + Positive(s[1..]) == Positive(s[1..]);
      }
    }
  }

  lemma {:induction false} PositiveMembers(s: seq<Doc>)
    ensures forall d :: d in Positive(s) <==> d in s && d.score > 0.0
  {
    if s != [] {
      PositiveMembers(s[1..]);
      assert s == [s[0]] + s[1..];
    }
  }

  lemma {:induction false} AllPositiveMembers(bases: map<string, seq<Doc>>, ids: seq<string>)
    requires forall id :: id in ids ==> id in bases
    ensures forall d :: d in AllPositive(bases, ids) <==> d.score > 0.0 && exists id :: id in ids && d in bases[id]
  {
    if ids != [] {
      AllPositiveMembers(bases, ids[1..]);
      PositiveMembers(bases[ids[0]]);
      assert ids == [ids[0]] + ids[1..];
      hide Positive;
    }
  }

  lemma {:induction false} WithScoreOfPrefix(s: seq<Doc>, n: nat, v: real)
    requires n <= |s|
    ensures WithScore(s[..n], v) <= WithScore(s, v)
  {
    if n > 0 {
      WithScoreOfPrefix(s[1..], n - 1, v);
      assert s[..n][1..] == s[1..][..n - 1];
    }
  }

  lemma TopLeads(s: seq<Doc>, k: nat)
    ensures Leads(Top(s, k), s, k)
  {
    SortIsStable(s);
    hide Sort, WithScore;
    var sorted, n := Sort(s), if |s| <= k then |s| else k;
    assert |sorted| == |s| by {
      assert |multiset(sorted)| == |sorted| && |multiset(s)| == |s|;
    }
    assert Top(s, k) == sorted[..n];
    forall v {
      WithScoreOfPrefix(sorted, n, v);
    }
    forall d, x | d in sorted[..n] && x in s && x.score > d.score
      ensures x in sorted[..n]
    {
      assert x in multiset(sorted);
      var j :| 0 <= j < |sorted| && sorted[j] == x;
    }
  }

  /** A search of several bases returns documents that match, the best `k` of them in descending order, with ties in
    * the order of the bases named first and of their documents. It fails if a base that is named is not there, and
    * says which. */
  lemma SearchReturnsTheBest(bases: map<string, seq<Doc>>, ids: seq<string>, k: nat)
    ensures var r := RetrieveMany(bases, ids, k);
      if forall id :: id in CleanIds(ids) ==> id in bases
      then
        && r.Ok? && Leads(r.value, AllPositive(bases, CleanIds(ids)), k)
        && forall d :: d in AllPositive(bases, CleanIds(ids)) <==> Matches(bases, ids, d)
      else r.Err? && r.error.id in CleanIds(ids) && r.error.id !in bases
  {
    var clean := CleanIds(ids);
    BestOfTheBest(bases, ids, k);
    if forall id :: id in clean ==> id in bases {
      TopLeads(AllPositive(bases, clean), k);
      AllPositiveMembers(bases, clean);
      forall d
        ensures d in AllPositive(bases, clean) <==> Matches(bases, ids, d)
      {
        NamedIsClean(bases, ids, d);
      }
    } else {
      FailsOnMissing(bases, clean, k);
    }
    hide Top, Leads;
  }

  lemma NamedIsClean(bases: map<string, seq<Doc>>, ids: seq<string>, d: Doc)
    requires forall id :: id in CleanIds(ids) ==> id in bases
    ensures (exists id :: id in CleanIds(ids) && d in bases[id]) <==>
            exists id :: id in ids && StandsIn(bases, Trim(id), d)
  {
    hide CleanIds, Trim;
    if id :| id in CleanIds(ids) && d in bases[id] {
      var i :| 0 <= i < |ids| && Trim(ids[i]) == id;
      assert ids[i] in ids && StandsIn(bases, Trim(ids[i]), d);
    }
    if id :| id in ids && StandsIn(bases, Trim(id), d) {
      var i :| 0 <= i < |ids| && ids[i] == id;
      assert Trim(ids[i]) in CleanIds(ids);
    }
  }

  lemma {:induction false} FailsOnMissing(bases: map<string, seq<Doc>>, ids: seq<string>, k: nat)
    requires exists id :: id in ids && id !in bases
    ensures var r := RetrieveAll(bases, ids, k); r.Err? && r.error.id in ids && r.error.id !in bases
  {
    if ids[0] in bases {
      assert ids == [ids[0]] + ids[1..];
      FailsOnMissing(bases, ids[1..], k);
    }
  }
}
