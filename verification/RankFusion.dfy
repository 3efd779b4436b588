/** Reciprocal rank fusion: score accumulation and the exchange sort (engine/embed.go). */
module RankFusion {
  import opened StringOrder

  const K: real := 60.0

  datatype Entry = Entry(id: string, score: real)

  // ----- Scores -----

  /** What place i of a list is worth. */
  function Worth(i: nat): real {
    1.0 / (K + (i + 1) as real)
  }

  lemma EarlierIsWorthMore(i: nat, j: nat)
    requires i < j
    ensures Worth(i) > Worth(j) > 0.0
  {
    var x, y := K + (i + 1) as real, K + (j + 1) as real;
    assert 0.0 < x < y;
    assert Worth(i) * x == 1.0 && Worth(j) * y == 1.0;
    Reciprocals(x, y, Worth(i), Worth(j));
  }

  lemma PositiveFactor(p: real, x: real)
    requires p * x > 0.0 && x > 0.0
    ensures p > 0.0
  {
  }

  lemma Reciprocals(x: real, y: real, p: real, q: real)
    requires 0.0 < x < y && p * x == 1.0 && q * y == 1.0
    ensures p > q > 0.0
  {
    PositiveFactor(q, y);
    assert (p - q) * x == p * x - q * x == q * (y - x);
    PositiveFactor(p - q, x);
  }

  ghost function ListScore(list: seq<string>, id: string): real {
    if list == [] then 0.0
    else ListScore(list[..|list| - 1], id) + if list[|list| - 1] == id then Worth(|list| - 1) else 0.0
  }

  ghost function Score(lists: seq<seq<string>>, id: string): real {
    if lists == [] then 0.0 else Score(lists[..|lists| - 1], id) + ListScore(lists[|lists| - 1], id)
  }

  ghost predicate Listed(lists: seq<seq<string>>, id: string) {
    exists l :: l in lists && id in l
  }

  ghost predicate Accumulated(scores: map<string, real>, lists: seq<seq<string>>, list: seq<string>) {
    forall id :: (id in scores <==> Listed(lists, id) || id in list)
              && (id in scores ==> scores[id] == Score(lists, id) + ListScore(list, id))
              && (id !in scores ==> Score(lists, id) + ListScore(list, id) == 0.0)
  }

  lemma ScoreStep(scores: map<string, real>, lists: seq<seq<string>>, list: seq<string>, id: string, total: real)
    requires Accumulated(scores, lists, list)
    requires total == (if id in scores then scores[id] else 0.0) + Worth(|list|)
    ensures Accumulated(scores[id := total], lists, list + [id])
  {
    assert (list + [id])[..|list|] == list;
  }

  lemma ListStep(scores: map<string, real>, lists: seq<seq<string>>, list: seq<string>)
    requires Accumulated(scores, lists, list)
    ensures Accumulated(scores, lists + [list], [])
  {
    var after := lists + [list];
    assert after[..|lists|] == lists;
    forall id ensures Listed(after, id) <==> Listed(lists, id) || id in list {
      if Listed(lists, id) {
        var l :| l in lists && id in l;
        assert l in after;
      }
      if id in list {
        assert list in after;
      }
    }
  }

  method Accumulate(lists: seq<seq<string>>) returns (scores: map<string, real>)
    ensures forall id :: id in scores <==> Listed(lists, id)
    ensures forall id :: id in scores ==> scores[id] == Score(lists, id)
  {
    scores := map[];
    for n := 0 to |lists|
      invariant Accumulated(scores, lists[..n], [])
    {
      var list := lists[n];
      for i := 0 to |list|
        invariant Accumulated(scores, lists[..n], list[..i])
      {
        var id := list[i];
        var total := (if id in scores then scores[id] else 0.0) + 1.0 / (K + (i + 1) as real);
        ScoreStep(scores, lists[..n], list[..i], id, total);
        scores := scores[id := total];
        assert list[..i + 1] == list[..i] + [id];
      }
      assert list[..|list|] == list;
      ListStep(scores, lists[..n], list);
      assert lists[..n + 1] == lists[..n] + [list];
    }
    assert lists[..|lists|] == lists;
  }

  // ----- The order -----

  predicate Before(a: Entry, b: Entry) {
    a.score > b.score || (a.score == b.score && Smaller(a.id, b.id))
  }

  lemma BeforeTransitive(a: Entry, b: Entry, c: Entry)
    requires Before(a, b) && Before(b, c)
    ensures Before(a, c)
  {
    if a.score == b.score && b.score == c.score {
      SmallerTransitive(a.id, b.id, c.id);
    }
  }

  lemma BeforeTotal(a: Entry, b: Entry)
    ensures a.id != b.id ==> (Before(a, b) <==> !Before(b, a))
    ensures !(Before(a, b) && Before(b, a))
  {
    SmallerTotal(a.id, b.id);
  }

  // ----- The exchange sort -----

  method Swap(a: array<Entry>, i: nat, j: nat)
    requires i < j < a.Length
    modifies a
    ensures a[i] == old(a[j]) && a[j] == old(a[i])
    ensures forall k :: 0 <= k < a.Length && k != i && k != j ==> a[k] == old(a[k])
    ensures multiset(a[..]) == multiset(old(a[..]))
  {
    a[i], a[j] := a[j], a[i];
  }

  /** No entry of s[lo..hi] belongs before the one at p. */
  ghost predicate LeastOf(s: seq<Entry>, p: int, lo: int, hi: int)
    requires 0 <= p < |s| && 0 <= lo && hi <= |s|
  {
    forall q :: lo <= q < hi ==> !Before(s[q], s[p])
  }

  /** The first n entries are where they belong. */
  ghost predicate Settled(s: seq<Entry>, n: int)
    requires n <= |s|
  {
    forall p, q :: 0 <= p < n && p < q < |s| ==> !Before(s[q], s[p])
  }

  lemma SwapLeast(s: seq<Entry>, t: seq<Entry>, i: nat, j: nat)
    requires i < j < |s| == |t| && t[i] == s[j] && t[j] == s[i] && Before(s[j], s[i])
    requires forall k :: 0 <= k < |s| && k != i && k != j ==> t[k] == s[k]
    requires LeastOf(s, i, i + 1, j) && Settled(s, i)
    ensures LeastOf(t, i, i + 1, j + 1) && Settled(t, i)
  {
    forall q | i + 1 <= q < j + 1 ensures !Before(t[q], t[i]) {
      if q == j {
        BeforeTotal(s[i], s[j]);
      } else if Before(s[q], s[j]) {
        BeforeTransitive(s[q], s[j], s[i]);
      }
    }
    forall p, q | 0 <= p < i && p < q < |t| ensures !Before(t[q], t[p]) {
      var r := if q == i then j else if q == j then i else q;
      assert t[q] == s[r] && t[p] == s[p];
    }
  }

  method ExchangeSort(a: array<Entry>)
    modifies a
    ensures Settled(a[..], a.Length)
    ensures multiset(a[..]) == multiset(old(a[..]))
  {
    for i := 0 to a.Length
      invariant Settled(a[..], i)
      invariant multiset(a[..]) == multiset(old(a[..]))
    {
      for j := i + 1 to a.Length
        invariant Settled(a[..], i)
        invariant LeastOf(a[..], i, i + 1, j)
        invariant multiset(a[..]) == multiset(old(a[..]))
      {
        if a[j].score > a[i].score || (a[j].score == a[i].score && Smaller(a[j].id, a[i].id)) {
          ghost var s := a[..];
          Swap(a, i, j);
          SwapLeast(s, a[..], i, j);
        }
      }
    }
  }

  // ----- Fusion -----

  ghost function EntryOf(lists: seq<seq<string>>, id: string): Entry {
    Entry(id, Score(lists, id))
  }

  ghost predicate Sorted(lists: seq<seq<string>>, a: seq<string>) {
    forall p, q :: 0 <= p < q < |a| ==> Before(EntryOf(lists, a[p]), EntryOf(lists, a[q]))
  }

  /** Every listed id once, by decreasing fused score and then by id. */
  ghost predicate Ranked(lists: seq<seq<string>>, out: seq<string>) {
    && (forall id :: id in out <==> Listed(lists, id))
    && Sorted(lists, out)
  }

  /** The pairs of the score map, in whatever order it is iterated. */
  method Pairs(scores: map<string, real>) returns (pairs: seq<Entry>)
    ensures forall x :: x in pairs <==> x.id in scores && x.score == scores[x.id]
    ensures forall p, q :: 0 <= p < q < |pairs| ==> pairs[p].id != pairs[q].id
  {
    pairs := [];
    var rest := scores.Keys;
    while rest != {}
      invariant rest <= scores.Keys
      invariant forall x :: x in pairs <==> x.id in scores && x.id !in rest && x.score == scores[x.id]
      invariant forall p, q :: 0 <= p < q < |pairs| ==> pairs[p].id != pairs[q].id
      decreases rest
    {
      var id :| id in rest;
      rest := rest - {id};
      forall p | 0 <= p < |pairs| ensures pairs[p].id != id {
        assert pairs[p] in pairs;
      }
      pairs := pairs + [Entry(id, scores[id])];
    }
  }

  ghost predicate DistinctIds(s: seq<Entry>) {
    forall x :: x in s ==> multiset(s)[x] == 1 && forall y :: y in s && y.id == x.id ==> y == x
  }

  lemma {:induction false} OnceEach(s: seq<Entry>)
    requires forall p, q :: 0 <= p < q < |s| ==> s[p].id != s[q].id
    ensures DistinctIds(s)
  {
    if s != [] {
      var rest, x := s[..|s| - 1], s[|s| - 1];
      OnceEach(rest);
      assert s == rest + [x];
      assert x !in rest;
      assert multiset(s) == multiset(rest) + multiset{x};
    }
  }

  lemma TwiceIn(s: seq<Entry>, p: nat, q: nat)
    requires p < q < |s| && s[p] == s[q]
    ensures multiset(s)[s[p]] >= 2
  {
    assert s == s[..q] + s[q..];
    assert s[..q][p] in multiset(s[..q]) && s[q..][0] in multiset(s[q..]);
    assert multiset(s) == multiset(s[..q]) + multiset(s[q..]);
  }

  /** Sorting a repetition-free list keeps it repetition-free, so the order is strict. */
  lemma SortedStrictly(s: seq<Entry>, t: seq<Entry>)
    requires DistinctIds(s) && multiset(s) == multiset(t) && Settled(t, |t|)
    ensures forall p, q :: 0 <= p < q < |t| ==> Before(t[p], t[q])
    ensures forall x :: x in s <==> x in t
  {
    forall x ensures x in s <==> x in t {
      assert x in s <==> x in multiset(s);
      assert x in t <==> x in multiset(t);
    }
    forall p, q | 0 <= p < q < |t| ensures Before(t[p], t[q]) {
      assert t[p] in s && t[q] in s;
      if t[p].id == t[q].id {
        TwiceIn(t, p, q);
        assert false;
      }
      BeforeTotal(t[p], t[q]);
    }
  }

  method Fuse(lists: seq<seq<string>>) returns (out: seq<string>)
    ensures Ranked(lists, out)
  {
    var scores := Accumulate(lists);
    var pairs := Pairs(scores);
    OnceEach(pairs);
    var a := new Entry[|pairs|](i requires 0 <= i < |pairs| => pairs[i]);
    assert a[..] == pairs;
    ExchangeSort(a);
    SortedStrictly(pairs, a[..]);
    out := [];
    for i := 0 to a.Length
      invariant |out| == i && forall p :: 0 <= p < i ==> out[p] == a[p].id
    {
      out := out + [a[i].id];
    }
    IdsRanked(lists, scores, a[..], out);
  }

  lemma IdsRanked(lists: seq<seq<string>>, scores: map<string, real>, s: seq<Entry>, out: seq<string>)
    requires forall id :: id in scores <==> Listed(lists, id)
    requires forall id :: id in scores ==> scores[id] == Score(lists, id)
    requires forall x :: x in s <==> x.id in scores && x.score == scores[x.id]
    requires forall p, q :: 0 <= p < q < |s| ==> Before(s[p], s[q])
    requires |out| == |s| && forall p :: 0 <= p < |s| ==> out[p] == s[p].id
    ensures Ranked(lists, out)
  {
    forall p | 0 <= p < |s| ensures s[p] == EntryOf(lists, out[p]) && out[p] in scores {
      assert s[p] in s;
    }
    forall id | id in scores ensures id in out {
      assert Entry(id, scores[id]) in s;
      var p :| 0 <= p < |s| && s[p] == Entry(id, scores[id]);
      assert out[p] == id;
    }
  }

  // ----- Uniqueness -----

  lemma RankedRest(lists: seq<seq<string>>, a: seq<string>, x: string)
    requires Sorted(lists, a) && a != [] && x in a && x != a[0]
    ensures Before(EntryOf(lists, a[0]), EntryOf(lists, x)) && x in a[1..]
  {
    var p :| 0 <= p < |a| && a[p] == x;
    assert a[1..][p - 1] == x;
  }

  lemma NonEmptyToo(a: seq<string>, b: seq<string>)
    requires forall x :: x in a ==> x in b
    ensures a != [] ==> b != []
  {
    if a != [] {
      assert a[0] in b;
    }
  }

  lemma {:induction false} SortedUnique(lists: seq<seq<string>>, a: seq<string>, b: seq<string>)
    requires Sorted(lists, a) && Sorted(lists, b) && forall x :: x in a <==> x in b
    ensures a == b
  {
    NonEmptyToo(a, b);
    NonEmptyToo(b, a);
    if a != [] {
      assert a[0] in b && b[0] in a;
      if a[0] != b[0] {
        RankedRest(lists, a, b[0]);
        RankedRest(lists, b, a[0]);
        BeforeTotal(EntryOf(lists, a[0]), EntryOf(lists, b[0]));
        assert false;
      }
      forall x ensures x in a[1..] <==> x in b[1..] {
        RestHas(lists, a, x);
        RestHas(lists, b, x);
      }
      SortedUnique(lists, a[1..], b[1..]);
    }
  }

  lemma RestHas(lists: seq<seq<string>>, a: seq<string>, x: string)
    requires Sorted(lists, a) && a != []
    ensures x in a[1..] <==> x in a && x != a[0]
  {
    if x in a[1..] {
      var p :| 0 <= p < |a| - 1 && a[1..][p] == x;
      assert a[p + 1] == x;
      BeforeTotal(EntryOf(lists, a[0]), EntryOf(lists, x));
    }
    if x in a && x != a[0] {
      RankedRest(lists, a, x);
    }
  }

  // ----- The order of the lists -----

  lemma {:induction false} ScoreWithout(lists: seq<seq<string>>, k: nat, id: string)
    requires k < |lists|
    ensures Score(lists, id) == Score(lists[..k] + lists[k + 1..], id) + ListScore(lists[k], id)
  {
    var n := |lists| - 1;
    var rest := lists[..k] + lists[k + 1..];
    if k < n {
      ScoreWithout(lists[..n], k, id);
      assert rest[..n - 1] == lists[..n][..k] + lists[..n][k + 1..];
      assert rest[n - 1] == lists[n];
    } else {
      assert rest == lists[..n];
    }
  }

  lemma Cancel<T>(a: multiset<T>, b: multiset<T>, c: multiset<T>)
    requires a + c == b + c
    ensures a == b
  {
    forall x ensures a[x] == b[x] {
      assert (a + c)[x] == (b + c)[x];
    }
  }

  lemma {:induction false} ScorePermutes(lists: seq<seq<string>>, lists2: seq<seq<string>>, id: string)
    requires multiset(lists) == multiset(lists2)
    ensures Score(lists, id) == Score(lists2, id)
  {
    if lists == [] {
      assert |lists2| == |multiset(lists2)| == 0;
    } else {
      var last, rest := lists[|lists| - 1], lists[..|lists| - 1];
      assert lists == rest + [last];
      assert last in multiset(lists2);
      var k :| 0 <= k < |lists2| && lists2[k] == last;
      var rest2 := lists2[..k] + lists2[k + 1..];
      assert lists2 == lists2[..k] + [last] + lists2[k + 1..];
      assert multiset(lists2) == multiset(lists2[..k]) + multiset{last} + multiset(lists2[k + 1..]);
      assert multiset(rest2) == multiset(lists2[..k]) + multiset(lists2[k + 1..]);
      assert multiset(lists) == multiset(rest) + multiset{last};
      Cancel(multiset(rest2), multiset(rest), multiset{last});
      ScorePermutes(rest, rest2, id);
      ScoreWithout(lists2, k, id);
    }
  }

  /** The fused ranking depends neither on the order of the lists nor on that of the score map. */
  lemma FusionIsUnique(lists: seq<seq<string>>, lists2: seq<seq<string>>, out: seq<string>, out2: seq<string>)
    requires multiset(lists) == multiset(lists2)
    requires Ranked(lists, out) && Ranked(lists2, out2)
    ensures out == out2
  {
    forall id ensures Score(lists, id) == Score(lists2, id) {
      ScorePermutes(lists, lists2, id);
    }
    forall id ensures Listed(lists, id) <==> Listed(lists2, id) {
      assert forall l :: l in lists <==> l in multiset(lists);
      assert forall l :: l in lists2 <==> l in multiset(lists2);
    }
    assert forall id :: EntryOf(lists, id) == EntryOf(lists2, id);
    SortedUnique(lists, out, out2);
  }

  /** What the order is: greater scores first, and among equal scores the id that comes first as a string. */
  lemma RankedIs(lists: seq<seq<string>>, out: seq<string>)
    ensures Ranked(lists, out) <==>
            && (forall id :: id in out <==> exists l :: l in lists && id in l)
            && (forall p, q :: 0 <= p < q < |out| ==> RanksBefore(lists, out[p], out[q]))
  {
    forall id, id2 ensures Before(EntryOf(lists, id), EntryOf(lists, id2)) <==> RanksBefore(lists, id, id2) {
      SmallerIs(id, id2);
    }
    forall id ensures Listed(lists, id) <==> exists l :: l in lists && id in l {}
  }

  ghost predicate RanksBefore(lists: seq<seq<string>>, a: string, b: string) {
    || Score(lists, a) > Score(lists, b)
    || (Score(lists, a) == Score(lists, b) && exists k: nat :: DecidedAt(a, b, k))
  }

  // ----- Agreement -----

  ghost predicate NoRepeats(list: seq<string>) {
    forall p, q :: 0 <= p < q < |list| ==> list[p] != list[q]
  }

  lemma {:induction false} ListScoreAt(list: seq<string>, p: nat)
    requires NoRepeats(list) && p < |list|
    ensures ListScore(list, list[p]) == Worth(p) == 1.0 / (61.0 + p as real)
  {
    var n := |list| - 1;
    if p < n {
      ListScoreAt(list[..n], p);
    } else {
      ListScoreAbsent(list[..n], list[n]);
    }
  }

  lemma {:induction false} ListScoreAbsent(list: seq<string>, id: string)
    requires id !in list
    ensures ListScore(list, id) == 0.0
  {
    if list != [] {
      ListScoreAbsent(list[..|list| - 1], id);
    }
  }

  /** a stands before b in the list, if b is in it at all. */
  ghost predicate Prefers(list: seq<string>, a: string, b: string) {
    b in list ==> exists p, q :: 0 <= p < q < |list| && list[p] == a && list[q] == b
  }

  lemma PreferredScores(list: seq<string>, a: string, b: string)
    requires NoRepeats(list) && Prefers(list, a, b)
    ensures if b in list then ListScore(list, a) > ListScore(list, b)
            else ListScore(list, a) >= 0.0 == ListScore(list, b)
  {
    if b in list {
      var p, q :| 0 <= p < q < |list| && list[p] == a && list[q] == b;
      ListScoreAt(list, p);
      ListScoreAt(list, q);
      EarlierIsWorthMore(p, q);
    } else {
      ListScoreAbsent(list, b);
      if a in list {
        var p :| 0 <= p < |list| && list[p] == a;
        ListScoreAt(list, p);
        EarlierIsWorthMore(p, p + 1);
      } else {
        ListScoreAbsent(list, a);
      }
    }
  }

  lemma {:induction false} AgreedScores(lists: seq<seq<string>>, a: string, b: string)
    requires forall l :: l in lists ==> NoRepeats(l) && Prefers(l, a, b)
    ensures Score(lists, a) >= Score(lists, b)
    ensures Listed(lists, b) ==> Score(lists, a) > Score(lists, b)
  {
    if lists != [] {
      var rest, last := lists[..|lists| - 1], lists[|lists| - 1];
      assert lists == rest + [last];
      AgreedScores(rest, a, b);
      PreferredScores(last, a, b);
    }
  }

  /** If a stands before b in every list that has b, and no list repeats an id, then a precedes b. */
  lemma AgreementIsKept(lists: seq<seq<string>>, out: seq<string>, a: string, b: string)
    requires Ranked(lists, out) && Listed(lists, b)
    requires forall l :: l in lists ==> NoRepeats(l) && Prefers(l, a, b)
    ensures exists p, q :: 0 <= p < q < |out| && out[p] == a && out[q] == b
  {
    AgreedScores(lists, a, b);
    var l :| l in lists && b in l;
    var i, j :| 0 <= i < j < |l| && l[i] == a && l[j] == b;
    assert Listed(lists, a);
    var p :| 0 <= p < |out| && out[p] == a;
    var q :| 0 <= q < |out| && out[q] == b;
    if q < p {
      BeforeTotal(EntryOf(lists, a), EntryOf(lists, b));
    }
  }
}
