/** The batch: every listed file's task run to completion, then one pass over
    the successes that finds the largest count and every file that reaches
    it. */
module Batch {
  import opened Wrappers
  import opened CSharpInt
  import opened XmlTree
  import opened Evaluator
  import opened FileTask

  // ---------------------------------------------------------------------------
  // Max-count aggregation
  // ---------------------------------------------------------------------------

  /** The largest count among `entries`, or 0 when there is none larger. */
  function MaxCount(entries: seq<(string, SuccessData)>): nat
  {
    if |entries| == 0 then 0
    else
      var m := MaxCount(entries[..|entries| - 1]);
      var c := entries[|entries| - 1].1.count;
      if c > m then c else m
  }

  /** The files whose count is `m`, in the order of `entries`. */
  function Achievers(entries: seq<(string, SuccessData)>, m: int): seq<string>
  {
    if |entries| == 0 then []
    else
      var init := Achievers(entries[..|entries| - 1], m);
      var e := entries[|entries| - 1];
      if e.1.count == m then init + [e.0] else init
  }

  /** The list the summary names: every file tied at a positive maximum. */
  function MaxFiles(entries: seq<(string, SuccessData)>): seq<string>
  {
    var m := MaxCount(entries);
    if m > 0 then Achievers(entries, m) else []
  }

  /** MaxCount bounds every count and, when positive, is some entry's count. */
  lemma {:induction false} MaxCountIsMaximum(entries: seq<(string, SuccessData)>)
    ensures forall i :: 0 <= i < |entries| ==> entries[i].1.count <= MaxCount(entries)
    ensures MaxCount(entries) > 0 ==>
              exists i :: 0 <= i < |entries| && entries[i].1.count == MaxCount(entries)
  {
    if |entries| > 0 {
      var init := entries[..|entries| - 1];
      MaxCountIsMaximum(init);
      forall i | 0 <= i < |init|
        ensures entries[i] == init[i]
      {
      }
    }
  }

  /** A file is listed exactly when one of its entries has count `m`. */
  lemma {:induction false} AchieversMembers(entries: seq<(string, SuccessData)>, m: int, f: string)
    ensures f in Achievers(entries, m)
        <==> exists i :: 0 <= i < |entries| && entries[i].0 == f && entries[i].1.count == m
  {
    if |entries| > 0 {
      var init := entries[..|entries| - 1];
      AchieversMembers(init, m, f);
      if exists i :: 0 <= i < |init| && init[i].0 == f && init[i].1.count == m {
        var i :| 0 <= i < |init| && init[i].0 == f && init[i].1.count == m;
        assert entries[i] == init[i];
      }
    }
  }

  /** No entry reaches a count above the maximum. */
  lemma {:induction false} AchieversAboveMax(entries: seq<(string, SuccessData)>, m: int)
    requires m > MaxCount(entries)
    ensures Achievers(entries, m) == []
  {
    if |entries| > 0 {
      AchieversAboveMax(entries[..|entries| - 1], m);
    }
  }

  /** Counts [3, 5, 5]: the maximum is 5 and both files at 5 are kept, in
      order. */
  lemma TiesAreKept(r1: Int32, r2: Int32, r3: Int32)
    ensures var entries := [("a.xml", SuccessData(r1, 3)), ("b.xml", SuccessData(r2, 5)), ("c.xml", SuccessData(r3, 5))];
            MaxCount(entries) == 5 && MaxFiles(entries) == ["b.xml", "c.xml"]
  {
    var entries := [("a.xml", SuccessData(r1, 3)), ("b.xml", SuccessData(r2, 5)), ("c.xml", SuccessData(r3, 5))];
    var e1, e2 := entries[..1], entries[..2];
    assert e2[..1] == e1 && entries[..2] == e2;
    assert MaxCount(e1) == 3 && Achievers(e1, 5) == [];
    assert MaxCount(e2) == 5 && Achievers(e2, 5) == ["b.xml"];
  }

  /** A positive maximum is reached by at least one file. */
  lemma {:induction false} MaxIsReached(entries: seq<(string, SuccessData)>)
    requires MaxCount(entries) > 0
    ensures |Achievers(entries, MaxCount(entries))| > 0
  {
    var init := entries[..|entries| - 1];
    var m := MaxCount(entries);
    if entries[|entries| - 1].1.count != m {
      MaxIsReached(init);
    }
  }

  /** The pass over the successes: a strictly larger count restarts the list
      with this file, an equal count appends it to a non-empty list. */
  method Aggregate(entries: seq<(string, SuccessData)>) returns (maxCalcCount: int, maxCalcFiles: seq<string>)
    ensures maxCalcCount == MaxCount(entries)
    ensures maxCalcFiles == MaxFiles(entries)
  {
    maxCalcFiles, maxCalcCount := [], 0;
    for k := 0 to |entries|
      invariant maxCalcCount == MaxCount(entries[..k])
      invariant maxCalcFiles == MaxFiles(entries[..k])
    {
      var (file, calcSuccData) := entries[k];
      var prefix := entries[..k];
      assert entries[..k + 1][..k] == prefix;
      assert MaxCount(entries[..k + 1]) == if calcSuccData.count > maxCalcCount then calcSuccData.count else maxCalcCount;
      if maxCalcCount > 0 {
        MaxIsReached(prefix);
      }
      if calcSuccData.count > maxCalcCount {
        AchieversAboveMax(prefix, calcSuccData.count);
        maxCalcFiles := [file];
        maxCalcCount := calcSuccData.count;
      } else if calcSuccData.count == maxCalcCount && |maxCalcFiles| > 0 {
        maxCalcFiles := maxCalcFiles + [file];
      }
    }
    assert entries[..|entries|] == entries;
  }

  // ---------------------------------------------------------------------------
  // The run over a directory listing
  // ---------------------------------------------------------------------------

  /** The figures the summary line reports. */
  datatype Summary = Summary(maxCount: int, files: seq<string>)

  /** The most handles `WaitHandle.WaitAll` accepts (`WaitHandle.MaxWaitHandles`). */
  const MaxWaitHandles: nat := 64

  /** How the program ends: no usable directory, no XML file in it, more files
      than `WaitHandle.WaitAll` can wait for, an exception escaping a file's
      task, or both maps filled and the summary computed when it is printed. */
  datatype Report =
    | NoDirectory
    | NoXmlFiles
    | TooManyFiles  // WaitAll throws NotSupportedException before any report
    | Aborted(file: string, error: ArithError)
    | Completed(successes: map<string, SuccessData>, errors: map<string, ErrorKind>, summary: Option<Summary>)

  /** Each listed file paired with the outcome of its task. */
  function Outcomes(files: seq<(string, LoadResult)>): (r: seq<(string, Outcome)>)
    ensures |r| == |files|
  {
    seq(|files|, i requires 0 <= i < |files| => (files[i].0, Classify(files[i].1)))
  }

  /** The maps after publishing `tasks` in order into empty maps, or the first
      file whose task raised. */
  function Apply(tasks: seq<(string, Outcome)>): Result<Store, (string, ArithError)>
  {
    if |tasks| == 0 then Ok(Store(map[], map[]))
    else
      match Apply(tasks[..|tasks| - 1])
      case Err(x) => Err(x)
      case Ok(s) =>
        var (file, o) := tasks[|tasks| - 1];
        if o.Faulted? then Err((file, o.error)) else Ok(Publish(s, file, o))
  }

  /** The maps after every listed file's task has run, in listing order. */
  function ProcessAll(files: seq<(string, LoadResult)>): Result<Store, (string, ArithError)>
  {
    Apply(Outcomes(files))
  }

  /** The successes of `m` visited in the order of `files`. */
  function SuccessEntries(files: seq<(string, LoadResult)>, m: map<string, SuccessData>): seq<(string, SuccessData)>
  {
    if |files| == 0 then []
    else
      var init := SuccessEntries(files[..|files| - 1], m);
      var file := files[|files| - 1].0;
      if file in m then init + [(file, m[file])] else init
  }

  /** The end of the program for a directory listing, `None` when the
      directory is missing. */
  function ReportOf(listing: Option<seq<(string, LoadResult)>>): Report
  {
    match listing
    case None => NoDirectory
    case Some(files) =>
      if |files| == 0 then NoXmlFiles
      else if |files| > MaxWaitHandles then TooManyFiles
      else
        match ProcessAll(files)
        case Err((file, e)) => Aborted(file, e)
        case Ok(s) =>
          var entries := SuccessEntries(files, s.successes);
          var summary :=
            if |s.successes| > 0 && |files| > 1 then Some(Summary(MaxCount(entries), MaxFiles(entries)))
            else None;
          Completed(s.successes, s.errors, summary)
  }

  /** No path is listed twice, as in a directory listing. */
  predicate DistinctKeys<T>(xs: seq<(string, T)>)
  {
    forall i, j :: 0 <= i < j < |xs| ==> xs[i].0 != xs[j].0
  }

  /** What one more task does to the maps. */
  lemma ApplyStep(tasks: seq<(string, Outcome)>, k: nat)
    requires k < |tasks|
    ensures Apply(tasks[..k + 1])
         == match Apply(tasks[..k])
            case Err(x) => Err(x)
            case Ok(s) =>
              if tasks[k].1.Faulted? then Err((tasks[k].0, tasks[k].1.error))
              else Ok(Publish(s, tasks[k].0, tasks[k].1))
  {
    assert tasks[..k + 1][..k] == tasks[..k];
  }

  /** Once a task has raised, the run ends there whatever follows. */
  lemma {:induction false} AbortSticks(tasks: seq<(string, Outcome)>, k: nat)
    requires k <= |tasks| && Apply(tasks[..k]).Err?
    ensures Apply(tasks) == Apply(tasks[..k])
  {
    if k < |tasks| {
      var init := tasks[..|tasks| - 1];
      assert init[..k] == tasks[..k];
      AbortSticks(init, k);
    } else {
      assert tasks[..k] == tasks;
    }
  }

  /** The run completes exactly when no task raises. */
  lemma {:induction false} CompletesIffNoFault(tasks: seq<(string, Outcome)>)
    ensures Apply(tasks).Ok? <==> forall i :: 0 <= i < |tasks| ==> !tasks[i].1.Faulted?
  {
    if |tasks| > 0 {
      var init := tasks[..|tasks| - 1];
      CompletesIffNoFault(init);
      forall i | 0 <= i < |init|
        ensures init[i] == tasks[i]
      {
      }
    }
  }

  /** Every key of a completed run's maps is a file that was processed. */
  lemma {:induction false} KeysListed(tasks: seq<(string, Outcome)>)
    requires Apply(tasks).Ok?
    ensures var s := Apply(tasks).value;
            forall f :: f in s.successes || f in s.errors ==> exists i :: 0 <= i < |tasks| && tasks[i].0 == f
  {
    if |tasks| > 0 {
      var n := |tasks|;
      var init := tasks[..n - 1];
      KeysListed(init);
      var s, r := Apply(init).value, Apply(tasks).value;
      forall f | f in r.successes || f in r.errors
        ensures exists i :: 0 <= i < n && tasks[i].0 == f
      {
        if f == tasks[n - 1].0 {
          assert tasks[n - 1].0 == f;
        } else {
          assert f in s.successes || f in s.errors;
          var i :| 0 <= i < |init| && init[i].0 == f;
          assert tasks[i] == init[i];
        }
      }
    }
  }

  /** `f` has the one entry that outcome `o` calls for. */
  predicate Recorded(s: Store, f: string, o: Outcome)
  {
    (f in s.successes <==> o.Succeeded?)
    && (f in s.errors <==> o.Failed?)
    && (o.Succeeded? ==> s.successes[f] == o.data)
    && (o.Failed? ==> s.errors[f] == o.kind)
  }

  /** With distinct paths, a completed run never records a file in both maps
      and gives every file the entry its outcome calls for. */
  lemma {:induction false} EachRecordedOnce(tasks: seq<(string, Outcome)>)
    requires DistinctKeys(tasks) && Apply(tasks).Ok?
    ensures Disjoint(Apply(tasks).value)
    ensures forall i :: 0 <= i < |tasks| ==> Recorded(Apply(tasks).value, tasks[i].0, tasks[i].1)
  {
    if |tasks| > 0 {
      var n := |tasks|;
      var init := tasks[..n - 1];
      assert DistinctKeys(init);
      EachRecordedOnce(init);
      KeysListed(init);
      var s, r := Apply(init).value, Apply(tasks).value;
      var (file, o) := tasks[n - 1];
      forall i | 0 <= i < |init|
        ensures init[i] == tasks[i] && init[i].0 != file
      {
      }
      assert file !in s.successes && file !in s.errors;
      PublishOnce(s, file, o);
      forall i | 0 <= i < n
        ensures Recorded(r, tasks[i].0, tasks[i].1)
      {
        if i < n - 1 {
          assert Recorded(s, init[i].0, init[i].1);
        }
      }
    }
  }

  /** A run over a directory listing completes exactly when no file's task
      raises, and then gives each file exactly one entry, the one its own
      outcome calls for, and no entry to an unlisted path. */
  lemma RunRecordsEachFile(files: seq<(string, LoadResult)>)
    requires DistinctKeys(files)
    ensures ProcessAll(files).Ok? <==> forall i :: 0 <= i < |files| ==> !Classify(files[i].1).Faulted?
    ensures ProcessAll(files).Ok? ==>
              var s := ProcessAll(files).value;
              Disjoint(s)
              && (forall i :: 0 <= i < |files| ==> Recorded(s, files[i].0, Classify(files[i].1)))
              && (forall f :: f in s.successes || f in s.errors ==> exists i :: 0 <= i < |files| && files[i].0 == f)
  {
    var tasks := Outcomes(files);
    forall i | 0 <= i < |files|
      ensures tasks[i] == (files[i].0, Classify(files[i].1))
    {
    }
    CompletesIffNoFault(tasks);
    if Apply(tasks).Ok? {
      EachRecordedOnce(tasks);
      KeysListed(tasks);
    }
  }

  /** `entry` is one of the entries of `m`. */
  predicate EntryOf(entry: (string, SuccessData), m: map<string, SuccessData>)
  {
    entry.0 in m && entry.1 == m[entry.0]
  }

  /** The visited successes are entries of the map. */
  lemma {:induction false} SuccessEntriesFromMap(files: seq<(string, LoadResult)>, m: map<string, SuccessData>)
    ensures forall j :: 0 <= j < |SuccessEntries(files, m)| ==> EntryOf(SuccessEntries(files, m)[j], m)
  {
    if |files| > 0 {
      SuccessEntriesFromMap(files[..|files| - 1], m);
    }
  }

  /** Some entry of `entries` is for `f`. */
  predicate Visited(entries: seq<(string, SuccessData)>, f: string)
  {
    exists j :: 0 <= j < |entries| && entries[j].0 == f
  }

  /** Every listed file that has a success is visited. */
  lemma {:induction false} SuccessEntriesVisitAll(files: seq<(string, LoadResult)>, m: map<string, SuccessData>)
    ensures forall i :: 0 <= i < |files| && files[i].0 in m ==> Visited(SuccessEntries(files, m), files[i].0)
  {
    if |files| > 0 {
      var init := files[..|files| - 1];
      SuccessEntriesVisitAll(init, m);
      var e0, e := SuccessEntries(init, m), SuccessEntries(files, m);
      forall i | 0 <= i < |files| && files[i].0 in m
        ensures Visited(e, files[i].0)
      {
        if i < |init| {
          assert init[i] == files[i];
          assert Visited(e0, init[i].0);
          var j :| 0 <= j < |e0| && e0[j].0 == init[i].0;
          assert e[j] == e0[j];
        } else {
          assert e[|e| - 1].0 == files[i].0;
        }
      }
    }
  }

  /** Every success recorded by a completed run counts at least one folder. */
  lemma {:induction false} SuccessCountsPositive(tasks: seq<(string, Outcome)>)
    requires forall i :: 0 <= i < |tasks| && tasks[i].1.Succeeded? ==> tasks[i].1.data.count > 0
    requires Apply(tasks).Ok?
    ensures forall f :: f in Apply(tasks).value.successes ==> Apply(tasks).value.successes[f].count > 0
  {
    if |tasks| > 0 {
      var init := tasks[..|tasks| - 1];
      forall i | 0 <= i < |init|
        ensures init[i] == tasks[i]
      {
      }
      SuccessCountsPositive(init);
    }
  }

  /** Over the successes of `m` visited in listing order, when every success
      is listed and counts at least one folder: the maximum is the count of
      some success and no success exceeds it, and the files named are exactly
      the successes with that count. */
  lemma SuccessesMaximum(files: seq<(string, LoadResult)>, m: map<string, SuccessData>, f0: string)
    requires f0 in m
    requires forall f :: f in m ==> exists i :: 0 <= i < |files| && files[i].0 == f
    requires forall f :: f in m ==> m[f].count > 0
    ensures exists f :: f in m && m[f].count == MaxCount(SuccessEntries(files, m))
    ensures forall f :: f in m ==> m[f].count <= MaxCount(SuccessEntries(files, m))
    ensures forall f :: f in MaxFiles(SuccessEntries(files, m))
                  <==> f in m && m[f].count == MaxCount(SuccessEntries(files, m))
  {
    var e := SuccessEntries(files, m);
    SuccessEntriesFromMap(files, m);
    SuccessEntriesVisitAll(files, m);
    MaxCountIsMaximum(e);
    var top := MaxCount(e);
    forall f | f in m
      ensures exists j :: 0 <= j < |e| && e[j].0 == f
    {
      var i :| 0 <= i < |files| && files[i].0 == f;
      assert Visited(e, files[i].0);
    }
    var j0 :| 0 <= j0 < |e| && e[j0].0 == f0;
    assert EntryOf(e[j0], m);
    assert top > 0;
    var j :| 0 <= j < |e| && e[j].1.count == top;
    assert EntryOf(e[j], m);
    forall f
      ensures f in Achievers(e, top) <==> f in m && m[f].count == top
    {
      AchieversMembers(e, top, f);
      if f in m && m[f].count == top {
        var i :| 0 <= i < |e| && e[i].0 == f;
        assert EntryOf(e[i], m);
      }
    }
  }

  /** Every success of a completed run is a listed file and counts at least
      one folder. */
  lemma SuccessesListedAndPositive(files: seq<(string, LoadResult)>)
    requires ProcessAll(files).Ok?
    ensures forall f :: f in ProcessAll(files).value.successes
              ==> exists i :: 0 <= i < |files| && files[i].0 == f
    ensures forall f :: f in ProcessAll(files).value.successes
              ==> ProcessAll(files).value.successes[f].count > 0
  {
    var tasks := Outcomes(files);
    KeysListed(tasks);
    forall i | 0 <= i < |tasks| && tasks[i].1.Succeeded?
      ensures tasks[i].1.data.count > 0
    {
      assert tasks[i].1 == Classify(files[i].1);
    }
    SuccessCountsPositive(tasks);
    forall f | f in ProcessAll(files).value.successes
      ensures exists i :: 0 <= i < |files| && files[i].0 == f
    {
      var i :| 0 <= i < |tasks| && tasks[i].0 == f;
      assert files[i].0 == f;
    }
  }

  /** A key of a map with at least one entry. */
  ghost function SomeKey<V>(m: map<string, V>): (k: string)
    requires |m| > 0
    ensures k in m
  {
    var k :| k in m; k
  }

  /** The summary is computed exactly when there is a success and between two
      and MaxWaitHandles files were listed; it then reports a count that some
      success reaches and none exceeds, and names exactly the successful files
      with that count. */
  lemma SummaryIsMaximum(files: seq<(string, LoadResult)>)
    requires 0 < |files| <= MaxWaitHandles && ProcessAll(files).Ok?
    ensures var r := ReportOf(Some(files));
            r.Completed?
            && (r.summary.Some? <==> |r.successes| > 0 && |files| > 1)
            && (r.summary.Some? ==>
                  (exists f :: f in r.successes && r.successes[f].count == r.summary.value.maxCount)
                  && (forall f :: f in r.successes ==> r.successes[f].count <= r.summary.value.maxCount)
                  && (forall f :: f in r.summary.value.files
                        <==> f in r.successes && r.successes[f].count == r.summary.value.maxCount))
  {
    var s := ProcessAll(files).value;
    var e := SuccessEntries(files, s.successes);
    assert ReportOf(Some(files)) == Completed(s.successes, s.errors,
      if |s.successes| > 0 && |files| > 1 then Some(Summary(MaxCount(e), MaxFiles(e))) else None);
    if |s.successes| > 0 && |files| > 1 {
      SuccessesListedAndPositive(files);
      SuccessesMaximum(files, s.successes, SomeKey(s.successes));
    }
  }

  /** A report with the maps comes only from a listing of one to
      MaxWaitHandles files. */
  lemma CompletedWithinWaitLimit(listing: Option<seq<(string, LoadResult)>>)
    ensures ReportOf(listing).Completed? ==> listing.Some? && 0 < |listing.value| <= MaxWaitHandles
    ensures listing.Some? && |listing.value| > MaxWaitHandles ==> ReportOf(listing) == TooManyFiles
  {
  }

  /** A run over one file never reports the maximum. */
  lemma SingleFileNoSummary(file: string, load: LoadResult)
    ensures ReportOf(Some([(file, load)])).Completed? ==> ReportOf(Some([(file, load)])).summary.None?
  {
  }

  /** Every file's task, one after the other, against one store that starts
      empty; the first exception ends the run. */
  method RunTasks(xmlFiles: seq<(string, LoadResult)>) returns (r: Result<Store, (string, ArithError)>)
    ensures r == ProcessAll(xmlFiles)
  {
    ghost var tasks := Outcomes(xmlFiles);
    var store := new ResultStore();
    for k := 0 to |xmlFiles|
      invariant Apply(tasks[..k]) == Ok(store.Snapshot())
    {
      ApplyStep(tasks, k);
      assert tasks[k] == (xmlFiles[k].0, Classify(xmlFiles[k].1));
      var fault := store.ProcXml(xmlFiles[k].0, xmlFiles[k].1);
      if fault.Some? {
        AbortSticks(tasks, k + 1);
        return Err((xmlFiles[k].0, fault.value));
      }
    }
    assert tasks[..|xmlFiles|] == tasks;
    return Ok(store.Snapshot());
  }

  /** The pass over the success map, visiting its files in listing order. */
  method CollectSuccesses(xmlFiles: seq<(string, LoadResult)>, successes: map<string, SuccessData>)
    returns (entries: seq<(string, SuccessData)>)
    ensures entries == SuccessEntries(xmlFiles, successes)
  {
    entries := [];
    for k := 0 to |xmlFiles|
      invariant entries == SuccessEntries(xmlFiles[..k], successes)
    {
      assert xmlFiles[..k + 1][..k] == xmlFiles[..k];
      var file := xmlFiles[k].0;
      if file in successes {
        entries := entries + [(file, successes[file])];
      }
    }
    assert xmlFiles[..|xmlFiles|] == xmlFiles;
  }

  /** The program's main flow with the directory listing given: the listing
      checks, the limit of `WaitHandle.WaitAll`, every file's task, then the
      maximum over the successes, kept for the report when more than one file
      was listed. */
  method Run(listing: Option<seq<(string, LoadResult)>>) returns (report: Report)
    ensures report == ReportOf(listing)
  {
    if listing.None? {
      return NoDirectory;
    }
    var xmlFiles := listing.value;
    var filesCount := |xmlFiles|;
    if filesCount == 0 {
      return NoXmlFiles;
    }
    if filesCount > MaxWaitHandles {
      return TooManyFiles;
    }
    var r := RunTasks(xmlFiles);
    if r.Err? {
      return Aborted(r.error.0, r.error.1);
    }
    var s := r.value;
    var summary: Option<Summary> := None;
    if |s.successes| > 0 {
      var entries := CollectSuccesses(xmlFiles, s.successes);
      var maxCalcCount, maxCalcFiles := Aggregate(entries);
      if filesCount > 1 {
        summary := Some(Summary(maxCalcCount, maxCalcFiles));
      }
    }
    return Completed(s.successes, s.errors, summary);
  }
}
