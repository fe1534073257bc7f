/** One file's task: load, select, extract, evaluate, and publish the outcome
    into the shared success and error maps. */
module FileTask {
  import opened Wrappers
  import opened CSharpInt
  import opened XmlTree
  import opened Extractor
  import opened Evaluator

  /** The two reasons a file lands in the error map. */
  datatype ErrorKind =
    | LoadError   // the document did not load
    | NoElements  // the location path selected nothing

  /** How a file's task ends: a success entry, an error entry, or an exception
      from the evaluation that leaves no entry at all. */
  datatype Outcome =
    | Succeeded(data: SuccessData)
    | Failed(kind: ErrorKind)
    | Faulted(error: ArithError)

  /** The outcome of processing one loaded (or unloadable) file. */
  function Classify(load: LoadResult): (r: Outcome)
    ensures r.Succeeded? ==> r.data.count > 0
    ensures !r.Failed? ==> load.Loaded?
  {
    match load
    case ParseError => Failed(LoadError)
    case Loaded(root) =>
      var nodes := SelectCalculations(root);
      if |nodes| == 0 then Failed(NoElements)
      else
        match Evaluate(Slots(nodes))
        case Ok(v) => Succeeded(SuccessData(v, |nodes|))
        case Err(e) => Faulted(e)
  }

  /** A file succeeds exactly when it loads, selects at least one folder and
      its valid calculations evaluate without an exception; the count is then
      the number of selected folders, valid or not, and the result is the fold
      over the valid calculations alone. */
  lemma ClassifySucceeded(load: LoadResult)
    ensures Classify(load).Succeeded?
        <==> load.Loaded? && |SelectCalculations(load.root)| > 0
             && Evaluate(ValidCalcs(SelectCalculations(load.root))).Ok?
    ensures Classify(load).Succeeded? ==>
              Classify(load).data.count == |SelectCalculations(load.root)|
              && Ok(Classify(load).data.result) == Evaluate(ValidCalcs(SelectCalculations(load.root)))
  {
    if load.Loaded? {
      EvaluateSlots(SelectCalculations(load.root));
    }
  }

  /** The "no required elements" error means the document loaded and the
      location path selected nothing; folders that are all invalid do not
      produce it. */
  lemma ClassifyNoElements(load: LoadResult)
    ensures Classify(load) == Failed(NoElements)
        <==> load.Loaded? && |SelectCalculations(load.root)| == 0
  {
  }

  /** A document whose selected folders are all invalid is a success with
      result 0 and one count per folder. */
  lemma AllInvalidSucceeds(root: Element)
    requires |SelectCalculations(root)| > 0
    requires forall j :: 0 <= j < |SelectCalculations(root)| ==> DecodeFolder(SelectCalculations(root)[j]).None?
    ensures Classify(Loaded(root)) == Succeeded(SuccessData(0, |SelectCalculations(root)|))
  {
    var nodes := SelectCalculations(root);
    var ds := Decoded(nodes);
    forall k | 0 <= k <= |ds|
      ensures Compact(ds[..k]) == []
    {
      CompactEmpty(ds, k);
    }
    assert ds[..|ds|] == ds;
    EvaluateSlots(nodes);
  }

  lemma {:induction false} CompactEmpty(ds: seq<Option<Calc>>, k: nat)
    requires k <= |ds| && forall j :: 0 <= j < |ds| ==> ds[j].None?
    ensures Compact(ds[..k]) == []
  {
    if k > 0 {
      CompactStep(ds, k - 1);
      CompactEmpty(ds, k - 1);
    }
  }

  /** A valid `divide` or `mod` by 0 makes the file's task raise instead of
      recording a result. */
  lemma DivisionByZeroNoEntry(root: Element, k: nat)
    requires var calcs := ValidCalcs(SelectCalculations(root));
             k < |calcs| && IsDivision(calcs[k]) && calcs[k].num == 0
    ensures Classify(Loaded(root)).Faulted?
  {
    var nodes := SelectCalculations(root);
    DivisionByZeroFaults(ValidCalcs(nodes), k);
    EvaluateSlots(nodes);
  }

  // ---------------------------------------------------------------------------
  // The shared result maps
  // ---------------------------------------------------------------------------

  /** `ConcurrentDictionary.TryAdd`: adds the entry unless the key is present. */
  function TryAdd<V>(m: map<string, V>, k: string, v: V): (r: map<string, V>)
    ensures r.Keys == m.Keys + {k}
    ensures k in m ==> r == m
    ensures k !in m ==> r[k] == v
    ensures forall j :: j in m ==> r[j] == m[j]
  {
    if k in m then m else m[k := v]
  }

  /** The contents of both maps at one moment. */
  datatype Store = Store(successes: map<string, SuccessData>, errors: map<string, ErrorKind>)

  /** No file has both a success and an error entry. */
  predicate Disjoint(s: Store)
  {
    s.successes.Keys !! s.errors.Keys
  }

  /** The maps after a task with outcome `o` for `file` publishes it. */
  function Publish(s: Store, file: string, o: Outcome): (r: Store)
    ensures forall f :: f != file ==> (f in r.successes <==> f in s.successes)
    ensures forall f :: f != file ==> (f in r.errors <==> f in s.errors)
    ensures forall f :: f != file && f in s.successes ==> r.successes[f] == s.successes[f]
    ensures forall f :: f != file && f in s.errors ==> r.errors[f] == s.errors[f]
  {
    match o
    case Succeeded(d) => Store(TryAdd(s.successes, file, d), s.errors)
    case Failed(k) => Store(s.successes, TryAdd(s.errors, file, k))
    case Faulted(_) => s
  }

  /** Publishing a file not yet recorded gives it one entry, in the map its
      outcome selects and with its outcome's data, keeps the maps disjoint and
      leaves every other file's entries as they were. */
  lemma PublishOnce(s: Store, file: string, o: Outcome)
    requires Disjoint(s) && file !in s.successes && file !in s.errors
    ensures var r := Publish(s, file, o);
            Disjoint(r)
            && (file in r.successes <==> o.Succeeded?)
            && (file in r.errors <==> o.Failed?)
            && (o.Succeeded? ==> r.successes[file] == o.data)
            && (o.Failed? ==> r.errors[file] == o.kind)
            && r.successes - {file} == s.successes
            && r.errors - {file} == s.errors
  {
  }

  /** The static maps `dictSuccesses` and `dictErrors` of xmlCalc's
      `XmlThreadClass`, shared by all file tasks. */
  class ResultStore {
    var successes: map<string, SuccessData>
    var errors: map<string, ErrorKind>

    constructor()
      ensures successes == map[] && errors == map[]
    {
      successes := map[];
      errors := map[];
    }

    function Snapshot(): Store
      reads this
    {
      Store(successes, errors)
    }

    /** The work item for one file: a parse error and an empty selection go to the
        error map; otherwise the slots are extracted and evaluated, and the
        result goes to the success map, unless the evaluation raises, in which
        case nothing is recorded and the exception is returned. */
    method ProcXml(file: string, load: LoadResult) returns (fault: Option<ArithError>)
      modifies this
      ensures Snapshot() == Publish(old(Snapshot()), file, Classify(load))
      ensures fault == if Classify(load).Faulted? then Some(Classify(load).error) else None
    {
      match load {
        case ParseError =>
          errors := TryAdd(errors, file, LoadError);
          return None;
        case Loaded(root) =>
          var calcNodes := SelectCalculations(root);
          if |calcNodes| == 0 {
            errors := TryAdd(errors, file, NoElements);
            return None;
          }
          var aCalc, i := Extract(calcNodes);
          var r := EvaluateArray(aCalc);
          match r {
            case Err(e) =>
              return Some(e);
            case Ok(calcSuccData) =>
              successes := TryAdd(successes, file, calcSuccData);
              return None;
          }
      }
    }
  }
}
