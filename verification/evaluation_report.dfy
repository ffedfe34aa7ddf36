/** The report script: for every results file, in sorted name order and
    skipping names that do not end in ".json", the score list of the file,
    its sorted score counts and their total. Reading and decoding a file is
    the parameter `load` (None where the file is not valid JSON); printing is
    not modelled, the printed values are the method's results. */
module EvaluationReport {
  import opened Wrappers
  import opened JsonValue
  import opened PyString
  import opened ScoreTally
  import opened NameOrder

  /** What the script prints for one file: its sorted (score, count) pairs,
      the total count and the raw score list. */
  datatype FileReport = FileReport(name: string, counts: seq<(int, nat)>, total: nat, scores: seq<int>)

  /** The exceptions that end the script: a file that is not valid JSON, or a
      document whose scores cannot be read. */
  datatype ReportError =
    | Undecodable(name: string)
    | Unreadable(name: string, error: TallyError)

  predicate IsJsonName(name: string) {
    EndsWith(name, ".json")
  }

  /** The names that pass the `.json` filter, in their original order. */
  function JsonOnly(names: seq<string>): seq<string> {
    if names == [] then []
    else
      var n := |names| - 1;
      JsonOnly(names[..n]) + (if IsJsonName(names[n]) then [names[n]] else [])
  }

  /** The files the script processes, in the order it processes them. */
  function JsonFiles(listing: seq<string>): seq<string> {
    JsonOnly(SortNames(listing))
  }

  /** The tally block for one decoded document (the score list, its sorted
      counts, their sum). */
  function TallyFile(name: string, data: Value): Result<FileReport, TallyError> {
    match ScoreListOf(data)
    case Err(e) => Err(e)
    case Ok(scores) =>
      var counts := Tally(scores);
      Ok(FileReport(name, counts, Total(counts), scores))
  }

  /** The tally block succeeds exactly when the score list can be built; its
      score list is the document's, one entry per record in record order; its
      counts are what `Utilities.count_scores` returns for the same document;
      its total is the number of records. */
  lemma TallyFileSpec(name: string, data: Value)
    ensures TallyFile(name, data).Ok? <==> ScoreListOf(data).Ok?
    ensures TallyFile(name, data).Err? ==> TallyFile(name, data).error == ScoreListOf(data).error
    ensures TallyFile(name, data).Ok? ==>
      var rep := TallyFile(name, data).value;
      && rep.name == name
      && rep.scores == ScoreListOf(data).value
      && CountScores(data) == Ok(rep.counts)
      && rep.total == |rep.scores|
  {
  }

  /** Loading one file and tallying it. */
  function ReportFile(name: string, load: string -> Option<Value>): Result<FileReport, ReportError> {
    match load(name)
    case None => Err(Undecodable(name))
    case Some(data) =>
      match TallyFile(name, data)
      case Err(e) => Err(Unreadable(name, e))
      case Ok(rep) => Ok(rep)
  }

  /** Filtering distributes over concatenation. */
  lemma {:induction false} JsonOnlyAppend(a: seq<string>, b: seq<string>)
    ensures JsonOnly(a + b) == JsonOnly(a) + JsonOnly(b)
  {
    if b == [] {
      assert a + b == a;
    } else {
      var n := |b| - 1;
      assert (a + b)[..|a + b| - 1] == a + b[..n];
      JsonOnlyAppend(a, b[..n]);
    }
  }

  /** The names that pass the filter among the first `i + 1` are those among
      the first `i`, then the `i`-th name if it passes; and they are where the
      filtered whole listing starts. */
  lemma JsonOnlyStep(names: seq<string>, i: nat)
    requires i < |names|
    ensures JsonOnly(names[..i + 1]) == JsonOnly(names[..i]) + if IsJsonName(names[i]) then [names[i]] else []
    ensures |JsonOnly(names[..i + 1])| <= |JsonOnly(names)|
    ensures JsonOnly(names)[..|JsonOnly(names[..i + 1])|] == JsonOnly(names[..i + 1])
    ensures IsJsonName(names[i]) ==> JsonOnly(names)[|JsonOnly(names[..i])|] == names[i]
  {
    assert names[..i + 1] == names[..i] + [names[i]];
    JsonOnlyAppend(names[..i], [names[i]]);
    JsonOnlyAppend(names[..i + 1], names[i + 1..]);
    assert names[..i + 1] + names[i + 1..] == names;
    if IsJsonName(names[i]) {
      var k := |JsonOnly(names[..i])|;
      assert JsonOnly(names[..i + 1])[k] == names[i];
      assert JsonOnly(names)[..k + 1][k] == names[i];
    }
  }

  /** The loop of the script over names in a given order: names that do not
      end in ".json" are skipped, the others are loaded and tallied until one
      of them fails. */
  method ProcessNames(names: seq<string>, load: string -> Option<Value>)
    returns (reports: seq<FileReport>, failure: Option<ReportError>)
    ensures |reports| <= |JsonOnly(names)|
    ensures forall j :: 0 <= j < |reports| ==> ReportFile(JsonOnly(names)[j], load) == Ok(reports[j])
    ensures failure.None? <==> |reports| == |JsonOnly(names)|
    ensures failure.Some? ==> ReportFile(JsonOnly(names)[|reports|], load) == Err(failure.value)
  {
    ghost var files := JsonOnly(names);
    reports, failure := [], None;
    var i := 0;
    while i < |names|
      invariant 0 <= i <= |names|
      invariant failure.None?
      invariant |reports| == |JsonOnly(names[..i])| <= |files|
      invariant forall j :: 0 <= j < |reports| ==> ReportFile(files[j], load) == Ok(reports[j])
    {
      var name := names[i];
      JsonOnlyStep(names, i);
      if IsJsonName(name) {
        var outcome := ReportFile(name, load);
        if outcome.Err? {
          failure := Some(outcome.error);
          return;
        }
        ghost var before := reports;
        reports := reports + [outcome.value];
        forall j | 0 <= j < |reports|
          ensures ReportFile(files[j], load) == Ok(reports[j])
        {
          if j < |before| {
            assert reports[j] == before[j];
          }
        }
      }
      i := i + 1;
    }
    assert names[..i] == names;
  }

  /** The whole script over a directory listing: the names are sorted, then
      processed in that order; the result is the reports of the files
      processed before the first failure, and that failure if there is one. */
  method Report(listing: seq<string>, load: string -> Option<Value>)
    returns (reports: seq<FileReport>, failure: Option<ReportError>)
    ensures |reports| <= |JsonFiles(listing)|
    ensures forall j :: 0 <= j < |reports| ==> ReportFile(JsonFiles(listing)[j], load) == Ok(reports[j])
    ensures failure.None? <==> |reports| == |JsonFiles(listing)|
    ensures failure.Some? ==> ReportFile(JsonFiles(listing)[|reports|], load) == Err(failure.value)
  {
    reports, failure := ProcessNames(SortNames(listing), load);
  }

  // ---------------------------------------------------------------------
  // Properties

  /** Filtering keeps every name that passes, as often as it is listed, and no other. */
  lemma {:induction false} JsonOnlyCounts(names: seq<string>)
    ensures forall x :: multiset(JsonOnly(names))[x] == if IsJsonName(x) then multiset(names)[x] else 0
  {
    if names != [] {
      var n := |names| - 1;
      assert names == names[..n] + [names[n]];
      JsonOnlyCounts(names[..n]);
    }
  }

  /** Filtering keeps the order: a sorted listing stays sorted. */
  lemma {:induction false} JsonOnlySorted(names: seq<string>)
    requires Sorted(names)
    ensures Sorted(JsonOnly(names))
  {
    if names != [] {
      var n := |names| - 1;
      var front := JsonOnly(names[..n]);
      JsonOnlySorted(names[..n]);
      JsonOnlyCounts(names[..n]);
      forall k | 0 <= k < |front|
        ensures NameLeq(front[k], names[n])
      {
        assert front[k] in multiset(front);
        assert front[k] in names[..n];
      }
    }
  }

  /** The script processes exactly the names ending in ".json", each as often
      as it is listed, in ascending name order; that order is the only sorted
      arrangement of those names. */
  lemma JsonFilesInSortedOrder(listing: seq<string>)
    ensures forall x :: x in JsonFiles(listing) ==> IsJsonName(x)
    ensures forall x :: multiset(JsonFiles(listing))[x] == if IsJsonName(x) then multiset(listing)[x] else 0
    ensures Sorted(JsonFiles(listing))
  {
    JsonOnlySorted(SortNames(listing));
    JsonOnlyCounts(SortNames(listing));
    forall x | x in JsonFiles(listing)
      ensures IsJsonName(x)
    {
      assert x in multiset(JsonFiles(listing));
    }
  }

  /** Any other sorted arrangement of the ".json" names is the processing order. */
  lemma ProcessingOrderUnique(listing: seq<string>, order: seq<string>)
    requires Sorted(order)
    requires forall x :: multiset(order)[x] == if IsJsonName(x) then multiset(listing)[x] else 0
    ensures order == JsonFiles(listing)
  {
    JsonFilesInSortedOrder(listing);
    assert multiset(order) == multiset(JsonFiles(listing));
    SortedUnique(order, JsonFiles(listing));
  }
}
