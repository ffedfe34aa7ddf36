/** `Utilities.count_scores`: the list of scores of a results document,
    counted per distinct score and sorted ascending by score.
    Python's `Counter` followed by `sorted(counter.items())` is modelled as one
    sequence of (score, count) pairs kept in ascending score order while the
    scores are counted one after another. */
module ScoreTally {
  import opened Wrappers
  import opened JsonValue

  /** The exceptions the comprehension can raise, and one restriction of the model. */
  datatype TallyError =
    | KeyError(key: string)   // a dictionary lacks the key
    | TypeError               // subscripting or iterating a value that does not support it
    | NonIntegerScore         // a score that is not an integer (outside the model)

  /** `v[key]` with a string key: only a dictionary accepts it. */
  function Subscript(v: Value, key: string): (r: Result<Value, TallyError>)
    ensures r.Ok? <==> v.Obj? && key in Keys(v.entries)
    ensures r.Ok? ==> Lookup(v.entries, key) == Some(r.value)
    ensures r.Err? ==> r.error == if v.Obj? then KeyError(key) else TypeError
  {
    match v
    case Obj(entries) =>
      (match Lookup(entries, key)
       case Some(x) => Ok(x)
       case None => Err(KeyError(key)))
    case _ => Err(TypeError)
  }

  /** `for x in v`: a list yields its items, a dictionary its keys, a string
      its characters; any other value cannot be iterated. */
  function Elements(v: Value): (r: Result<seq<Value>, TallyError>)
    ensures r.Ok? <==> v.Arr? || v.Obj? || v.Str?
    ensures v.Arr? ==> r == Ok(v.items)
    ensures v.Obj? ==> r.Ok? && |r.value| == |v.entries|
    ensures v.Str? ==> r.Ok? && |r.value| == |v.s|
  {
    match v
    case Arr(items) => Ok(items)
    case Obj(entries) => Ok(seq(|entries|, i requires 0 <= i < |entries| => Str(entries[i].0)))
    case Str(s) => Ok(seq(|s|, i requires 0 <= i < |s| => Str([s[i]])))
    case _ => Err(TypeError)
  }

  /** `record["score"]`, restricted to integer scores. */
  function ScoreOf(record: Value): (r: Result<int, TallyError>)
    ensures r.Ok? <==> Subscript(record, "score").Ok? && Subscript(record, "score").value.Int?
    ensures r.Ok? ==> Subscript(record, "score") == Ok(Int(r.value))
  {
    match Subscript(record, "score")
    case Err(e) => Err(e)
    case Ok(Int(i)) => Ok(i)
    case Ok(_) => Err(NonIntegerScore)
  }

  /** `[score["score"] for score in records]`: one score per record, in record
      order; the first record whose score cannot be read raises. */
  function ScoreList(records: seq<Value>): Result<seq<int>, TallyError> {
    if records == [] then Ok([])
    else
      match ScoreOf(records[0])
      case Err(e) => Err(e)
      case Ok(x) =>
        match ScoreList(records[1..])
        case Err(e) => Err(e)
        case Ok(xs) => Ok([x] + xs)
  }

  /** The comprehension succeeds exactly when every record's score can be
      read, and it then holds one score per record, in record order. */
  lemma {:induction false} ScoreListSpec(records: seq<Value>)
    ensures ScoreList(records).Ok? <==> forall i :: 0 <= i < |records| ==> ScoreOf(records[i]).Ok?
    ensures ScoreList(records).Ok? ==> |ScoreList(records).value| == |records|
    ensures ScoreList(records).Ok? ==>
      forall i :: 0 <= i < |records| ==> ScoreOf(records[i]) == Ok(ScoreList(records).value[i])
  {
    if records != [] {
      ScoreListSpec(records[1..]);
      assert forall j :: 0 < j < |records| ==> records[j] == records[1..][j - 1];
    }
  }

  /** A failing comprehension raises what the first unreadable record raises. */
  lemma {:induction false} ScoreListFirstFailure(records: seq<Value>)
    requires ScoreList(records).Err?
    ensures exists i :: 0 <= i < |records| && ScoreOf(records[i]) == Err(ScoreList(records).error) &&
                        forall j :: 0 <= j < i ==> ScoreOf(records[j]).Ok?
  {
    if ScoreOf(records[0]).Ok? {
      var e := ScoreList(records).error;
      ScoreListFirstFailure(records[1..]);
      var i :| 0 <= i < |records[1..]| && ScoreOf(records[1..][i]) == Err(e) &&
        forall j :: 0 <= j < i ==> ScoreOf(records[1..][j]).Ok?;
      assert ScoreOf(records[i + 1]) == Err(e);
      assert forall j :: 0 < j <= i ==> records[j] == records[1..][j - 1];
    }
  }

  /** A record without a "score" key, after records whose scores can be read,
      raises KeyError: every record must carry a score. */
  lemma {:induction false} MissingScoreRaises(records: seq<Value>, i: nat)
    requires i < |records| && records[i].Obj? && "score" !in Keys(records[i].entries)
    requires forall j :: 0 <= j < i ==> ScoreOf(records[j]).Ok?
    ensures ScoreList(records) == Err(KeyError("score"))
  {
    var r := ScoreList(records);
    ScoreListSpec(records);
    assert ScoreOf(records[i]) == Err(KeyError("score"));
    if r.Err? {
      ScoreListFirstFailure(records);
      var k :| 0 <= k < |records| && ScoreOf(records[k]) == Err(r.error) &&
        forall j :: 0 <= j < k ==> ScoreOf(records[j]).Ok?;
      assert k == i;
    }
  }

  /** The score list of a results document: `[score["score"] for score in data["scores"]]`.
      A document that is not a dictionary, or lacks "scores", raises; so does
      a "scores" value that cannot be iterated. A dictionary or string under
      "scores" yields no record that has a score: it gives an empty list when
      it is empty and raises TypeError otherwise. */
  function ScoreListOf(data: Value): (r: Result<seq<int>, TallyError>)
    ensures r.Ok? ==> data.Obj? && Subscript(data, "scores").Ok?
    ensures !data.Obj? ==> r == Err(TypeError)
    ensures data.Obj? && "scores" !in Keys(data.entries) ==> r == Err(KeyError("scores"))
    ensures Subscript(data, "scores").Ok? && Subscript(data, "scores").value.Arr? ==>
      r == ScoreList(Subscript(data, "scores").value.items)
    ensures Subscript(data, "scores").Ok? && Subscript(data, "scores").value.Obj? ==>
      r == if Subscript(data, "scores").value.entries == [] then Ok([]) else Err(TypeError)
    ensures Subscript(data, "scores").Ok? && Subscript(data, "scores").value.Str? ==>
      r == if Subscript(data, "scores").value.s == [] then Ok([]) else Err(TypeError)
    ensures Subscript(data, "scores").Ok? && Elements(Subscript(data, "scores").value).Err? ==>
      r == Err(TypeError)
  {
    match Subscript(data, "scores")
    case Err(e) => Err(e)
    case Ok(v) =>
      match Elements(v)
      case Err(e) => Err(e)
      case Ok(records) => ScoreList(records)
  }

  // ---------------------------------------------------------------------
  // Sorted counts

  /** Scores strictly ascending, so each score appears at most once. */
  predicate StrictlyAscending(t: seq<(int, nat)>) {
    forall i, j :: 0 <= i < j < |t| ==> t[i].0 < t[j].0
  }

  /** Strictly ascending, and every listed score counted at least once. */
  predicate SortedCounts(t: seq<(int, nat)>) {
    StrictlyAscending(t) && forall i :: 0 <= i < |t| ==> t[i].1 >= 1
  }

  /** The count listed for score `k`, zero when `k` is not listed. */
  function CountOf(t: seq<(int, nat)>, k: int): nat {
    if t == [] then 0
    else if t[0].0 == k then t[0].1
    else CountOf(t[1..], k)
  }

  /** The scores listed. */
  function Listed(t: seq<(int, nat)>): set<int> {
    set i | 0 <= i < |t| :: t[i].0
  }

  /** `sum(counter.values())` */
  function Total(t: seq<(int, nat)>): nat {
    if t == [] then 0 else t[0].1 + Total(t[1..])
  }

  /** A score below the first listed one is not listed at all. */
  lemma {:induction false} CountOfBelowFirst(t: seq<(int, nat)>, k: int)
    requires StrictlyAscending(t)
    requires t == [] || k < t[0].0
    ensures CountOf(t, k) == 0
  {
    if t != [] && |t| > 1 {
      CountOfBelowFirst(t[1..], k);
    }
  }

  /** One more occurrence of score `x`: its count goes up by one, or it is
      inserted with count 1 at its place in the ascending order. */
  function Bump(t: seq<(int, nat)>, x: int): (r: seq<(int, nat)>)
    requires SortedCounts(t)
    ensures SortedCounts(r)
    ensures |r| > 0 && r[0].0 == if t == [] || x < t[0].0 then x else t[0].0
  {
    if t == [] then [(x, 1)]
    else if x < t[0].0 then [(x, 1)] + t
    else if x == t[0].0 then [(x, t[0].1 + 1)] + t[1..]
    else
      var rest := Bump(t[1..], x);
      var r := [t[0]] + rest;
      assert r[1..] == rest;
      r
  }

  /** Bumping `x` adds one to the count of `x` and to the total, and leaves
      every other score's count as it was. */
  lemma {:induction false} BumpCounts(t: seq<(int, nat)>, x: int)
    requires SortedCounts(t)
    ensures forall k :: CountOf(Bump(t, x), k) == CountOf(t, k) + if k == x then 1 else 0
    ensures Total(Bump(t, x)) == Total(t) + 1
  {
    var r := Bump(t, x);
    if t == [] {
    } else if x < t[0].0 {
      assert r[1..] == t;
      CountOfBelowFirst(t, x);
    } else if x == t[0].0 {
      assert r[1..] == t[1..];
    } else {
      BumpCounts(t[1..], x);
      assert r[1..] == Bump(t[1..], x);
    }
  }

  /** `sorted(Counter(scores).items())`: the distinct scores in ascending
      order, each paired with the number of times it occurs. */
  function Tally(scores: seq<int>): (t: seq<(int, nat)>)
    ensures SortedCounts(t)
  {
    if scores == [] then []
    else
      var n := |scores| - 1;
      Bump(Tally(scores[..n]), scores[n])
  }

  /** The tally counts every score exactly as often as it occurs, and its
      counts add up to the number of scores. */
  lemma {:induction false} TallyCounts(scores: seq<int>)
    ensures forall k :: CountOf(Tally(scores), k) == multiset(scores)[k]
    ensures Total(Tally(scores)) == |scores|
  {
    if scores != [] {
      var n := |scores| - 1;
      assert scores == scores[..n] + [scores[n]];
      TallyCounts(scores[..n]);
      BumpCounts(Tally(scores[..n]), scores[n]);
    }
  }

  /** `Utilities.count_scores(data)`: the sorted (score, count) pairs of the
      document's records, or the exception reading a score raises. */
  function CountScores(data: Value): (r: Result<seq<(int, nat)>, TallyError>)
    ensures r.Ok? <==> ScoreListOf(data).Ok?
    ensures r.Err? ==> r.error == ScoreListOf(data).error
    ensures r.Ok? ==> SortedCounts(r.value)
    ensures r.Ok? ==> forall k :: CountOf(r.value, k) == multiset(ScoreListOf(data).value)[k]
    ensures r.Ok? ==> Total(r.value) == |ScoreListOf(data).value|
  {
    match ScoreListOf(data)
    case Err(e) => Err(e)
    case Ok(scores) =>
      TallyCounts(scores);
      Ok(Tally(scores))
  }

  // ---------------------------------------------------------------------
  // Properties of the tally

  /** In a strictly ascending list, the count of a listed score is the one beside it. */
  lemma {:induction false} CountOfListed(t: seq<(int, nat)>, i: nat)
    requires StrictlyAscending(t) && i < |t|
    ensures CountOf(t, t[i].0) == t[i].1
  {
    if i > 0 {
      CountOfListed(t[1..], i - 1);
    }
  }

  /** A score counts a positive number of times exactly when it is listed. */
  lemma {:induction false} CountOfPositive(t: seq<(int, nat)>, k: int)
    requires SortedCounts(t)
    ensures CountOf(t, k) > 0 <==> k in Listed(t)
  {
    if t != [] && t[0].0 != k {
      assert SortedCounts(t[1..]);
      CountOfPositive(t[1..], k);
      assert k in Listed(t) <==> k in Listed(t[1..]) by {
        forall i | 0 < i < |t|
          ensures t[i] == t[1..][i - 1]
        {
        }
      }
    } else if t != [] {
      assert t[0].0 in Listed(t);
    }
  }

  /** Each pair of the tally holds a score and the number of its occurrences,
      at least one; the listed scores are exactly the scores that occur. */
  lemma TallyCountsOccurrences(scores: seq<int>)
    ensures forall i :: 0 <= i < |Tally(scores)| ==>
      Tally(scores)[i].1 == multiset(scores)[Tally(scores)[i].0] >= 1
    ensures forall x :: x in scores <==> x in Listed(Tally(scores))
  {
    var t := Tally(scores);
    TallyCounts(scores);
    forall i | 0 <= i < |t|
      ensures t[i].1 == multiset(scores)[t[i].0]
    {
      CountOfListed(t, i);
    }
    forall x
      ensures x in scores <==> x in Listed(t)
    {
      CountOfPositive(t, x);
    }
  }

  /** Two strictly ascending lists with positive counts that agree on every
      score's count are the same list. */
  lemma {:induction false} SortedCountsUnique(t: seq<(int, nat)>, u: seq<(int, nat)>)
    requires SortedCounts(t) && SortedCounts(u)
    requires forall k :: CountOf(t, k) == CountOf(u, k)
    ensures t == u
  {
    // The smallest listed score of either list is listed in the other, so
    // both lists are empty or both start with the same score.
    if t != [] {
      assert CountOf(u, t[0].0) == t[0].1 >= 1;
      if u == [] || t[0].0 < u[0].0 {
        CountOfBelowFirst(u, t[0].0);
      }
    }
    if u != [] {
      assert CountOf(t, u[0].0) == u[0].1 >= 1;
      if t == [] || u[0].0 < t[0].0 {
        CountOfBelowFirst(t, u[0].0);
      }
    }
    if t != [] && u != [] {
      var k0 := t[0].0;
      assert u[0].0 == k0 && t[0] == u[0];
      forall k
        ensures CountOf(t[1..], k) == CountOf(u[1..], k)
      {
        if k == k0 {
          CountOfBelowFirst(t[1..], k);
          CountOfBelowFirst(u[1..], k);
        } else {
          assert CountOf(t, k) == CountOf(t[1..], k);
          assert CountOf(u, k) == CountOf(u[1..], k);
        }
      }
      assert SortedCounts(t[1..]) && SortedCounts(u[1..]);
      SortedCountsUnique(t[1..], u[1..]);
      assert t == [t[0]] + t[1..] && u == [u[0]] + u[1..];
    }
  }

  /** The tally is the only list that is strictly ascending by score, has
      positive counts and counts each score as often as it occurs: it is
      `sorted(Counter(scores).items())` whichever way it is computed. */
  lemma TallyIsSortedCounter(scores: seq<int>, t: seq<(int, nat)>)
    requires SortedCounts(t)
    requires forall k :: CountOf(t, k) == multiset(scores)[k]
    ensures t == Tally(scores)
  {
    TallyCounts(scores);
    SortedCountsUnique(t, Tally(scores));
  }

  /** Scores 1, 1, 2, -1, 2, 2 tally to -1 once, 1 twice and 2 three times. */
  lemma TallyExample()
    ensures Tally([1, 1, 2, -1, 2, 2]) == [(-1, 1), (1, 2), (2, 3)]
  {
    ExampleCounts();
    TallyIsSortedCounter([1, 1, 2, -1, 2, 2], [(-1, 1), (1, 2), (2, 3)]);
  }

  lemma ExampleCounts()
    ensures forall k :: CountOf([(-1, 1), (1, 2), (2, 3)], k) == multiset([1, 1, 2, -1, 2, 2])[k]
  {
    var t: seq<(int, nat)> := [(-1, 1), (1, 2), (2, 3)];
    var m := multiset([1, 1, 2, -1, 2, 2]);
    assert m == multiset{-1} + multiset{1, 1} + multiset{2, 2, 2};
    forall k
      ensures CountOf(t, k) == m[k]
    {
      var t1, t2 := t[1..], t[1..][1..];
      assert t1[0] == (1, 2) && t2 == [(2, 3)] && t2[1..] == [];
      if k == -1 {
        assert CountOf(t, k) == 1 == m[k];
      } else if k == 1 {
        assert CountOf(t, k) == CountOf(t1, k) == 2 == m[k];
      } else if k == 2 {
        assert CountOf(t, k) == CountOf(t1, k) == CountOf(t2, k) == 3 == m[k];
      } else {
        assert CountOf(t, k) == CountOf(t1, k) == CountOf(t2, k) == CountOf(t2[1..], k) == 0 == m[k];
      }
    }
  }
}
