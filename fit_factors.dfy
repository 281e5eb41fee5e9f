/** `get_fit_factors`: one record per pair of consecutive events, for every
    graph of every data object, collected in that order. */
module FitFactors {
  import opened Values
  import opened Frames
  import opened FitFactor

  /** A cell of a result record: the graph title or event name, or a fit
      factor. */
  datatype Value = Text(text: string) | Ratio(quotient: Quotient)

  /** One row of the result frame, built from a dictionary literal. */
  type Record = map<string, Value>

  /** One element of the input list: the graph metadata and the two sensor
      tables of one recording. */
  datatype DataObject = DataObject(metadata: seq<Graph>, breathing: Table, ambient: Table)

  /** `{title: graph['title'], 'event': event['event'], 'fit_factor': q}`.
      A later key of a dictionary literal overwrites an earlier equal one, so
      a `titleKey` of "event" or "fit_factor" loses the title. */
  function MakeRecord(titleKey: string, title: string, eventName: string, q: Quotient): (r: Record)
    ensures r.Keys == {titleKey, "event", "fit_factor"}
    ensures r["event"] == Text(eventName) && r["fit_factor"] == Ratio(q)
    ensures titleKey != "event" && titleKey != "fit_factor" ==> r[titleKey] == Text(title)
  {
    map[titleKey := Text(title)]["event" := Text(eventName)]["fit_factor" := Ratio(q)]
  }

  /** Number of iterations of `range(len(events) - 1)`. */
  function PairCount(g: Graph): nat
  {
    if |g.events| == 0 then 0 else |g.events| - 1
  }

  /** Number of records emitted for a list of graphs. */
  function GraphPairs(graphs: seq<Graph>): nat
  {
    if graphs == [] then 0 else GraphPairs(graphs[..|graphs| - 1]) + PairCount(graphs[|graphs| - 1])
  }

  /** Number of records emitted for a list of data objects. */
  function TotalPairs(objs: seq<DataObject>): nat
  {
    if objs == [] then 0 else TotalPairs(objs[..|objs| - 1]) + GraphPairs(objs[|objs| - 1].metadata)
  }

  /** The records of two consecutive stages: the first error, or both lists
      in order. */
  function Then(first: Result<seq<Record>, Error>, second: Result<seq<Record>, Error>)
    : (r: Result<seq<Record>, Error>)
    ensures r.Ok? <==> first.Ok? && second.Ok?
    ensures r.Ok? ==> r.value == first.value + second.value
    ensures first.Err? ==> r == first
    ensures first.Ok? && second.Err? ==> r == second
  {
    if first.Err? then first
    else if second.Err? then second
    else Ok(first.value + second.value)
  }

  /** Reference definition of the fit factor of pair `i` of `g`, over the
      unclipped tables of `obj`: the error of the first missing column, or
      the ambient sum over the breathing-area sum, both over the rows
      strictly inside the graph window and the interval between the two
      events. */
  function WindowFactor(g: Graph, obj: DataObject, breathingColumn: string, ambientColumn: string, i: nat)
    : Result<Quotient, Error>
    requires i < PairCount(g)
  {
    var lo := Max(g.window.start, PairStart(g.window, g.events, i));
    var hi := Min(g.window.end, PairEnd(g.window, g.events, i));
    if ColumnsMissing(obj, breathingColumn, ambientColumn) then Err(MissingError(obj, breathingColumn, ambientColumn))
    else Ok(Divide(SumIn(obj.ambient.rows, ambientColumn, lo, hi), SumIn(obj.breathing.rows, breathingColumn, lo, hi)))
  }

  /** Clipping both tables to the graph window and then computing the fit
      factor of pair `i` gives the reference fit factor. */
  lemma {:induction false} ClippedFactor(g: Graph, obj: DataObject, breathingColumn: string, ambientColumn: string,
                                         i: nat)
    requires i < PairCount(g)
    ensures FitFactorBetween(i, Between(g.window.start, g.window.end, obj.breathing),
                             Between(g.window.start, g.window.end, obj.ambient),
                             g.window, g.events, breathingColumn, ambientColumn)
         == WindowFactor(g, obj, breathingColumn, ambientColumn, i)
  {
    if !ColumnsMissing(obj, breathingColumn, ambientColumn) {
      ClippedFitFactor(i, obj.breathing, obj.ambient, g.window, g.events, breathingColumn, ambientColumn);
    }
  }

  lemma {:induction false} ClippedFactors(g: Graph, obj: DataObject, breathingColumn: string, ambientColumn: string)
    ensures forall i :: 0 <= i < PairCount(g) ==>
              FitFactorBetween(i, Between(g.window.start, g.window.end, obj.breathing),
                               Between(g.window.start, g.window.end, obj.ambient),
                               g.window, g.events, breathingColumn, ambientColumn)
              == WindowFactor(g, obj, breathingColumn, ambientColumn, i)
  {
    forall i | 0 <= i < PairCount(g)
      ensures FitFactorBetween(i, Between(g.window.start, g.window.end, obj.breathing),
                               Between(g.window.start, g.window.end, obj.ambient),
                               g.window, g.events, breathingColumn, ambientColumn)
              == WindowFactor(g, obj, breathingColumn, ambientColumn, i)
    {
      ClippedFactor(g, obj, breathingColumn, ambientColumn, i);
    }
  }

  /** The fit factor of every pair of consecutive events of `g`, in event
      order, computed as the loop over pairs does: over the tables of `obj`
      clipped to the graph window. */
  function GraphFactors(g: Graph, obj: DataObject, breathingColumn: string, ambientColumn: string)
    : (r: seq<Result<Quotient, Error>>)
    ensures |r| == PairCount(g)
    ensures forall i :: 0 <= i < |r| ==> r[i] == WindowFactor(g, obj, breathingColumn, ambientColumn, i)
  {
    var sensor1 := Between(g.window.start, g.window.end, obj.breathing);
    var sensor2 := Between(g.window.start, g.window.end, obj.ambient);
    ClippedFactors(g, obj, breathingColumn, ambientColumn);
    seq(PairCount(g), i requires 0 <= i < PairCount(g) =>
      FitFactorBetween(i, sensor1, sensor2, g.window, g.events, breathingColumn, ambientColumn))
  }

  /** The records of the first `|factors|` event pairs of `g`, given their
      fit factors: the first error, or one record per pair. */
  function PairRecords(g: Graph, factors: seq<Result<Quotient, Error>>, titleKey: string)
    : Result<seq<Record>, Error>
    requires |factors| <= PairCount(g)
  {
    if factors == [] then Ok([])
    else
      var n := |factors| - 1;
      var f := factors[n];
      Then(PairRecords(g, factors[..n], titleKey),
           if f.Err? then Err(f.error)
           else Ok([MakeRecord(titleKey, g.title, g.events[n].name, f.value)]))
  }

  /** The records of one graph: both tables clipped to the graph window,
      then one record per pair of consecutive events. */
  function GraphRecords(g: Graph, obj: DataObject, titleKey: string,
                        breathingColumn: string, ambientColumn: string): Result<seq<Record>, Error>
  {
    PairRecords(g, GraphFactors(g, obj, breathingColumn, ambientColumn), titleKey)
  }

  /** The records of the graphs of one data object, in metadata order. */
  function GraphsRecords(graphs: seq<Graph>, obj: DataObject, titleKey: string,
                         breathingColumn: string, ambientColumn: string): Result<seq<Record>, Error>
  {
    if graphs == [] then Ok([])
    else Then(GraphsRecords(graphs[..|graphs| - 1], obj, titleKey, breathingColumn, ambientColumn),
              GraphRecords(graphs[|graphs| - 1], obj, titleKey, breathingColumn, ambientColumn))
  }

  /** The whole result: the records of every data object, in list order. */
  function FitFactorRecords(objs: seq<DataObject>, titleKey: string,
                            breathingColumn: string, ambientColumn: string): Result<seq<Record>, Error>
  {
    if objs == [] then Ok([])
    else
      var obj := objs[|objs| - 1];
      Then(FitFactorRecords(objs[..|objs| - 1], titleKey, breathingColumn, ambientColumn),
           GraphsRecords(obj.metadata, obj, titleKey, breathingColumn, ambientColumn))
  }

  /** `get_fit_factors`: nested loops over objects and graphs appending to
      `collection`; a missing column aborts the whole run. */
  method GetFitFactors(objs: seq<DataObject>, titleKey: string,
                       breathingColumn: string, ambientColumn: string)
    returns (r: Result<seq<Record>, Error>)
    ensures r == FitFactorRecords(objs, titleKey, breathingColumn, ambientColumn)
  {
    var collection: seq<Record> := [];
    var k := 0;
    while k < |objs|
      invariant 0 <= k <= |objs|
      invariant FitFactorRecords(objs[..k], titleKey, breathingColumn, ambientColumn) == Ok(collection)
    {
      var appended := AppendObjectRecords(collection, objs[k], titleKey, breathingColumn, ambientColumn);
      if appended.Err? {
        r := appended;
        ObjectsAbort(objs, k, titleKey, breathingColumn, ambientColumn);
        return;
      }
      ObjectsStep(objs, k, titleKey, breathingColumn, ambientColumn);
      collection := appended.value;
      k := k + 1;
    }
    assert objs[..k] == objs;
    r := Ok(collection);
  }

  /** The body of the loop over data objects: the records of each graph of
      `obj` in metadata order, or the first error. */
  method AppendObjectRecords(collection: seq<Record>, obj: DataObject, titleKey: string,
                             breathingColumn: string, ambientColumn: string)
    returns (r: Result<seq<Record>, Error>)
    ensures r == Then(Ok(collection), GraphsRecords(obj.metadata, obj, titleKey, breathingColumn, ambientColumn))
  {
    var metadata := obj.metadata;
    var current := collection;
    var j := 0;
    while j < |metadata|
      invariant 0 <= j <= |metadata|
      invariant GraphsRecords(metadata[..j], obj, titleKey, breathingColumn, ambientColumn).Ok?
      invariant current == collection
                + GraphsRecords(metadata[..j], obj, titleKey, breathingColumn, ambientColumn).value
    {
      var appended := AppendGraphRecords(current, metadata[j], obj, titleKey,
                                         breathingColumn, ambientColumn);
      if appended.Err? {
        r := appended;
        GraphsAbortAppended(collection, current, appended, metadata, obj, j, titleKey,
                            breathingColumn, ambientColumn);
        return;
      }
      GraphsStepAppended(collection, current, appended, metadata, obj, j, titleKey,
                         breathingColumn, ambientColumn);
      current := appended.value;
      j := j + 1;
    }
    assert metadata[..j] == metadata;
    r := Ok(current);
  }

  /** The body of the loop over graphs: clip both tables to the graph window
      and append one record per pair of consecutive events, or stop at the
      first error. */
  method AppendGraphRecords(collection: seq<Record>, graph: Graph, obj: DataObject, titleKey: string,
                            breathingColumn: string, ambientColumn: string)
    returns (r: Result<seq<Record>, Error>)
    ensures r == Then(Ok(collection), GraphRecords(graph, obj, titleKey, breathingColumn, ambientColumn))
  {
    var sensor1 := Between(graph.window.start, graph.window.end, obj.breathing);
    var sensor2 := Between(graph.window.start, graph.window.end, obj.ambient);
    var events := graph.events;
    ghost var factors := GraphFactors(graph, obj, breathingColumn, ambientColumn);
    var current := collection;
    var i := 0;
    while i < PairCount(graph)
      invariant 0 <= i <= PairCount(graph)
      invariant PairRecords(graph, factors[..i], titleKey).Ok?
      invariant current == collection + PairRecords(graph, factors[..i], titleKey).value
    {
      var f := FitFactorBetween(i, sensor1, sensor2, graph.window, events,
                                breathingColumn, ambientColumn);
      ClippedFactor(graph, obj, breathingColumn, ambientColumn, i);
      assert f == factors[i];
      if f.Err? {
        r := Err(f.error);
        GraphAborts(graph, factors, titleKey, i);
        return;
      }
      PairStep(graph, factors, titleKey, i);
      ConcatAssociative(collection, PairRecords(graph, factors[..i], titleKey).value,
                        [MakeRecord(titleKey, graph.title, events[i].name, f.value)]);
      current := current + [MakeRecord(titleKey, graph.title, events[i].name, f.value)];
      i := i + 1;
    }
    assert factors[..i] == factors;
    r := Ok(current);
  }

  /** The object loop keeps `current` equal to `collection` followed by the
      records of the graphs seen so far. */
  lemma {:induction false} GraphsStepAppended(collection: seq<Record>, current: seq<Record>,
                                              appended: Result<seq<Record>, Error>, graphs: seq<Graph>,
                                              obj: DataObject, j: nat, titleKey: string,
                                              breathingColumn: string, ambientColumn: string)
    requires j < |graphs|
    requires GraphsRecords(graphs[..j], obj, titleKey, breathingColumn, ambientColumn).Ok?
    requires current == collection + GraphsRecords(graphs[..j], obj, titleKey, breathingColumn, ambientColumn).value
    requires appended == Then(Ok(current), GraphRecords(graphs[j], obj, titleKey, breathingColumn, ambientColumn))
    requires appended.Ok?
    ensures GraphsRecords(graphs[..j + 1], obj, titleKey, breathingColumn, ambientColumn).Ok?
    ensures appended.value
         == collection + GraphsRecords(graphs[..j + 1], obj, titleKey, breathingColumn, ambientColumn).value
  {
    var before := GraphsRecords(graphs[..j], obj, titleKey, breathingColumn, ambientColumn).value;
    var added := GraphRecords(graphs[j], obj, titleKey, breathingColumn, ambientColumn).value;
    GraphsStep(graphs, obj, j, titleKey, breathingColumn, ambientColumn);
    ConcatAssociative(collection, before, added);
  }

  lemma ConcatAssociative<T>(a: seq<T>, b: seq<T>, c: seq<T>)
    ensures (a + b) + c == a + (b + c)
  {
  }

  /** A failing graph ends the object loop with the object's error. */
  lemma {:induction false} GraphsAbortAppended(collection: seq<Record>, current: seq<Record>,
                                               appended: Result<seq<Record>, Error>, graphs: seq<Graph>,
                                               obj: DataObject, j: nat, titleKey: string,
                                               breathingColumn: string, ambientColumn: string)
    requires j < |graphs|
    requires GraphsRecords(graphs[..j], obj, titleKey, breathingColumn, ambientColumn).Ok?
    requires appended == Then(Ok(current), GraphRecords(graphs[j], obj, titleKey, breathingColumn, ambientColumn))
    requires appended.Err?
    ensures appended == Then(Ok(collection), GraphsRecords(graphs, obj, titleKey, breathingColumn, ambientColumn))
  {
    GraphsAbort(graphs, obj, j, titleKey, breathingColumn, ambientColumn);
  }

  /** One more successful pair appends its record. */
  lemma {:induction false} PairStep(g: Graph, factors: seq<Result<Quotient, Error>>, titleKey: string, i: nat)
    requires i < |factors| <= PairCount(g)
    requires PairRecords(g, factors[..i], titleKey).Ok? && factors[i].Ok?
    ensures PairRecords(g, factors[..i + 1], titleKey)
         == Ok(PairRecords(g, factors[..i], titleKey).value
               + [MakeRecord(titleKey, g.title, g.events[i].name, factors[i].value)])
  {
    assert factors[..i + 1][..i] == factors[..i];
  }

  /** One more successful graph appends its records. */
  lemma {:induction false} GraphsStep(graphs: seq<Graph>, obj: DataObject, j: nat, titleKey: string,
                   breathingColumn: string, ambientColumn: string)
    requires j < |graphs|
    requires GraphsRecords(graphs[..j], obj, titleKey, breathingColumn, ambientColumn).Ok?
    requires GraphRecords(graphs[j], obj, titleKey, breathingColumn, ambientColumn).Ok?
    ensures GraphsRecords(graphs[..j + 1], obj, titleKey, breathingColumn, ambientColumn)
         == Ok(GraphsRecords(graphs[..j], obj, titleKey, breathingColumn, ambientColumn).value
               + GraphRecords(graphs[j], obj, titleKey, breathingColumn, ambientColumn).value)
  {
    assert graphs[..j + 1][..j] == graphs[..j];
  }

  /** One more successful data object appends its records. */
  lemma {:induction false} ObjectsStep(objs: seq<DataObject>, k: nat, titleKey: string,
                    breathingColumn: string, ambientColumn: string)
    requires k < |objs|
    requires FitFactorRecords(objs[..k], titleKey, breathingColumn, ambientColumn).Ok?
    requires GraphsRecords(objs[k].metadata, objs[k], titleKey, breathingColumn, ambientColumn).Ok?
    ensures FitFactorRecords(objs[..k + 1], titleKey, breathingColumn, ambientColumn)
         == Ok(FitFactorRecords(objs[..k], titleKey, breathingColumn, ambientColumn).value
               + GraphsRecords(objs[k].metadata, objs[k], titleKey, breathingColumn, ambientColumn).value)
  {
    assert objs[..k + 1][..k] == objs[..k];
  }

  /** A failing pair, reached with the earlier pairs successful, is the
      result of its graph. */
  lemma {:induction false} GraphAborts(g: Graph, factors: seq<Result<Quotient, Error>>, titleKey: string, i: nat)
    requires i < |factors| <= PairCount(g)
    requires PairRecords(g, factors[..i], titleKey).Ok? && factors[i].Err?
    ensures PairRecords(g, factors, titleKey) == Err(factors[i].error)
  {
    assert factors[..i + 1][..i] == factors[..i];
    PairErrorPersists(g, factors, titleKey, i + 1);
  }

  /** A failing graph, reached with the earlier graphs successful, is the
      result of its data object. */
  lemma {:induction false} GraphsAbort(graphs: seq<Graph>, obj: DataObject, j: nat, titleKey: string,
                    breathingColumn: string, ambientColumn: string)
    requires j < |graphs|
    requires GraphsRecords(graphs[..j], obj, titleKey, breathingColumn, ambientColumn).Ok?
    requires GraphRecords(graphs[j], obj, titleKey, breathingColumn, ambientColumn).Err?
    ensures GraphsRecords(graphs, obj, titleKey, breathingColumn, ambientColumn)
         == GraphRecords(graphs[j], obj, titleKey, breathingColumn, ambientColumn)
  {
    assert graphs[..j + 1][..j] == graphs[..j];
    GraphsErrorPersists(graphs, obj, j + 1, titleKey, breathingColumn, ambientColumn);
  }

  /** A failing data object, reached with the earlier objects successful, is
      the whole result. */
  lemma {:induction false} ObjectsAbort(objs: seq<DataObject>, k: nat, titleKey: string,
                     breathingColumn: string, ambientColumn: string)
    requires k < |objs|
    requires FitFactorRecords(objs[..k], titleKey, breathingColumn, ambientColumn).Ok?
    requires GraphsRecords(objs[k].metadata, objs[k], titleKey, breathingColumn, ambientColumn).Err?
    ensures FitFactorRecords(objs, titleKey, breathingColumn, ambientColumn)
         == GraphsRecords(objs[k].metadata, objs[k], titleKey, breathingColumn, ambientColumn)
  {
    assert objs[..k + 1][..k] == objs[..k];
    ObjectsErrorPersists(objs, k + 1, titleKey, breathingColumn, ambientColumn);
  }

  // ---------------------------------------------------------------------
  // An error stops the run: later stages never replace it.

  lemma {:induction false} PairErrorPersists(g: Graph, factors: seq<Result<Quotient, Error>>,
                                             titleKey: string, m: nat)
    requires m <= |factors| <= PairCount(g)
    requires PairRecords(g, factors[..m], titleKey).Err?
    ensures PairRecords(g, factors, titleKey) == PairRecords(g, factors[..m], titleKey)
    decreases |factors|
  {
    if m < |factors| {
      var init := factors[..|factors| - 1];
      assert init[..m] == factors[..m];
      PairErrorPersists(g, init, titleKey, m);
    } else {
      assert factors[..m] == factors;
    }
  }

  lemma {:induction false} GraphsErrorPersists(graphs: seq<Graph>, obj: DataObject, m: nat,
                                               titleKey: string, breathingColumn: string,
                                               ambientColumn: string)
    requires m <= |graphs|
    requires GraphsRecords(graphs[..m], obj, titleKey, breathingColumn, ambientColumn).Err?
    ensures GraphsRecords(graphs, obj, titleKey, breathingColumn, ambientColumn)
         == GraphsRecords(graphs[..m], obj, titleKey, breathingColumn, ambientColumn)
    decreases |graphs|
  {
    if m < |graphs| {
      var init := graphs[..|graphs| - 1];
      assert init[..m] == graphs[..m];
      GraphsErrorPersists(init, obj, m, titleKey, breathingColumn, ambientColumn);
    } else {
      assert graphs[..m] == graphs;
    }
  }

  lemma {:induction false} ObjectsErrorPersists(objs: seq<DataObject>, m: nat, titleKey: string,
                                                breathingColumn: string, ambientColumn: string)
    requires m <= |objs|
    requires FitFactorRecords(objs[..m], titleKey, breathingColumn, ambientColumn).Err?
    ensures FitFactorRecords(objs, titleKey, breathingColumn, ambientColumn)
         == FitFactorRecords(objs[..m], titleKey, breathingColumn, ambientColumn)
    decreases |objs|
  {
    if m < |objs| {
      var init := objs[..|objs| - 1];
      assert init[..m] == objs[..m];
      ObjectsErrorPersists(init, m, titleKey, breathingColumn, ambientColumn);
    } else {
      assert objs[..m] == objs;
    }
  }

  // ---------------------------------------------------------------------
  // How many records: one per pair of consecutive events.

  lemma {:induction false} PairRecordsLength(g: Graph, factors: seq<Result<Quotient, Error>>, titleKey: string)
    requires |factors| <= PairCount(g)
    requires PairRecords(g, factors, titleKey).Ok?
    ensures |PairRecords(g, factors, titleKey).value| == |factors|
    decreases |factors|
  {
    if factors != [] {
      PairRecordsLength(g, factors[..|factors| - 1], titleKey);
    }
  }

  /** A list of graphs yields `max(0, |events| - 1)` records per graph. */
  lemma {:induction false} GraphsRecordsLength(graphs: seq<Graph>, obj: DataObject, titleKey: string,
                                               breathingColumn: string, ambientColumn: string)
    requires GraphsRecords(graphs, obj, titleKey, breathingColumn, ambientColumn).Ok?
    ensures |GraphsRecords(graphs, obj, titleKey, breathingColumn, ambientColumn).value| == GraphPairs(graphs)
    decreases |graphs|
  {
    if graphs != [] {
      var g := graphs[|graphs| - 1];
      GraphsRecordsLength(graphs[..|graphs| - 1], obj, titleKey, breathingColumn, ambientColumn);
      PairRecordsLength(g, GraphFactors(g, obj, breathingColumn, ambientColumn), titleKey);
    }
  }

  /** The result frame has one row per pair of consecutive events, summed
      over every graph of every data object. */
  lemma {:induction false} RecordsCount(objs: seq<DataObject>, titleKey: string,
                                        breathingColumn: string, ambientColumn: string)
    requires FitFactorRecords(objs, titleKey, breathingColumn, ambientColumn).Ok?
    ensures |FitFactorRecords(objs, titleKey, breathingColumn, ambientColumn).value| == TotalPairs(objs)
    decreases |objs|
  {
    if objs != [] {
      var obj := objs[|objs| - 1];
      RecordsCount(objs[..|objs| - 1], titleKey, breathingColumn, ambientColumn);
      GraphsRecordsLength(obj.metadata, obj, titleKey, breathingColumn, ambientColumn);
    }
  }

  // ---------------------------------------------------------------------
  // When the run fails: a missing column, in an object that has a pair.

  /** One of the two columns is not in the object's tables. */
  predicate ColumnsMissing(obj: DataObject, breathingColumn: string, ambientColumn: string)
  {
    breathingColumn !in obj.breathing.columns || ambientColumn !in obj.ambient.columns
  }

  /** The error the object raises: the breathing-area column is looked up
      first. */
  function MissingError(obj: DataObject, breathingColumn: string, ambientColumn: string): Error
  {
    MissingColumn(if breathingColumn !in obj.breathing.columns then breathingColumn else ambientColumn)
  }

  /** The object reaches a fit-factor computation with a missing column. */
  predicate Fails(obj: DataObject, breathingColumn: string, ambientColumn: string)
  {
    GraphPairs(obj.metadata) > 0 && ColumnsMissing(obj, breathingColumn, ambientColumn)
  }

  /** Pairs that all fail alike, or all succeed, give the first pair's
      error exactly when there is a pair. */
  lemma {:induction false} PairRecordsUniform(g: Graph, factors: seq<Result<Quotient, Error>>, titleKey: string,
                                              failure: Option<Error>)
    requires |factors| <= PairCount(g)
    requires forall i :: 0 <= i < |factors| ==>
               (factors[i].Err? <==> failure.Some?) && (factors[i].Err? ==> factors[i].error == failure.value)
    ensures var r := PairRecords(g, factors, titleKey);
            (r.Err? <==> |factors| > 0 && failure.Some?) && (r.Err? ==> r.error == failure.value)
    decreases |factors|
  {
    if factors != [] {
      var init := factors[..|factors| - 1];
      assert forall i :: 0 <= i < |init| ==> init[i] == factors[i];
      PairRecordsUniform(g, init, titleKey, failure);
    }
  }

  /** A graph with a pair of events fails exactly when a column is missing. */
  lemma {:induction false} GraphRecordsError(g: Graph, obj: DataObject, titleKey: string,
                                             breathingColumn: string, ambientColumn: string)
    ensures var r := GraphRecords(g, obj, titleKey, breathingColumn, ambientColumn);
            (r.Err? <==> PairCount(g) > 0 && ColumnsMissing(obj, breathingColumn, ambientColumn)) &&
            (r.Err? ==> r.error == MissingError(obj, breathingColumn, ambientColumn))
  {
    var factors := GraphFactors(g, obj, breathingColumn, ambientColumn);
    var failure := if ColumnsMissing(obj, breathingColumn, ambientColumn)
                   then Some(MissingError(obj, breathingColumn, ambientColumn)) else None;
    PairRecordsUniform(g, factors, titleKey, failure);
  }

  lemma {:induction false} GraphsRecordsError(graphs: seq<Graph>, obj: DataObject, titleKey: string,
                                              breathingColumn: string, ambientColumn: string)
    ensures var r := GraphsRecords(graphs, obj, titleKey, breathingColumn, ambientColumn);
            (r.Err? <==> GraphPairs(graphs) > 0 && ColumnsMissing(obj, breathingColumn, ambientColumn)) &&
            (r.Err? ==> r.error == MissingError(obj, breathingColumn, ambientColumn))
    decreases |graphs|
  {
    if graphs != [] {
      var g := graphs[|graphs| - 1];
      GraphsRecordsError(graphs[..|graphs| - 1], obj, titleKey, breathingColumn, ambientColumn);
      GraphRecordsError(g, obj, titleKey, breathingColumn, ambientColumn);
    }
  }

  /** The run fails exactly when some data object has a pair of events and
      lacks one of the two columns. */
  lemma {:induction false} RecordsErrorIff(objs: seq<DataObject>, titleKey: string,
                                           breathingColumn: string, ambientColumn: string)
    ensures FitFactorRecords(objs, titleKey, breathingColumn, ambientColumn).Err?
        <==> exists k :: 0 <= k < |objs| && Fails(objs[k], breathingColumn, ambientColumn)
    decreases |objs|
  {
    if objs != [] {
      var init := objs[..|objs| - 1];
      var obj := objs[|objs| - 1];
      RecordsErrorIff(init, titleKey, breathingColumn, ambientColumn);
      GraphsRecordsError(obj.metadata, obj, titleKey, breathingColumn, ambientColumn);
      assert FitFactorRecords(objs, titleKey, breathingColumn, ambientColumn)
          == Then(FitFactorRecords(init, titleKey, breathingColumn, ambientColumn),
                  GraphsRecords(obj.metadata, obj, titleKey, breathingColumn, ambientColumn));
      if exists k :: 0 <= k < |init| && Fails(init[k], breathingColumn, ambientColumn) {
        var k :| 0 <= k < |init| && Fails(init[k], breathingColumn, ambientColumn);
        assert objs[k] == init[k];
      }
      if exists k :: 0 <= k < |objs| && Fails(objs[k], breathingColumn, ambientColumn) {
        var k :| 0 <= k < |objs| && Fails(objs[k], breathingColumn, ambientColumn);
        if k < |init| {
          assert init[k] == objs[k];
        }
      }
    }
  }

  /** The error reported is the one of the first failing data object. */
  lemma {:induction false} FirstFailure(objs: seq<DataObject>, k: nat, titleKey: string,
                     breathingColumn: string, ambientColumn: string)
    requires k < |objs| && Fails(objs[k], breathingColumn, ambientColumn)
    requires forall k' :: 0 <= k' < k ==> !Fails(objs[k'], breathingColumn, ambientColumn)
    ensures FitFactorRecords(objs, titleKey, breathingColumn, ambientColumn)
         == Err(MissingError(objs[k], breathingColumn, ambientColumn))
  {
    RecordsErrorIff(objs[..k], titleKey, breathingColumn, ambientColumn);
    GraphsRecordsError(objs[k].metadata, objs[k], titleKey, breathingColumn, ambientColumn);
    ObjectsAbort(objs, k, titleKey, breathingColumn, ambientColumn);
  }

  // ---------------------------------------------------------------------
  // Where each record is: ordered by object, then graph, then event pair.
  //
  // Each `...Placed` predicate bundles "the run succeeds, the index is in
  // range, the element is this record". Stating a lemma's conclusion
  // through such a predicate keeps its proof obligation small, since the
  // recursive functions inside unfold only where the predicate is opened.

  /** Position in the result of the record for pair `i` of graph `j` of
      object `k`. */
  function Offset(objs: seq<DataObject>, k: nat, j: nat, i: nat): nat
    requires k < |objs| && j <= |objs[k].metadata|
  {
    TotalPairs(objs[..k]) + GraphPairs(objs[k].metadata[..j]) + i
  }

  /** The pairs of `g` succeed and the record of pair `i` is at index `i`,
      built from that pair's fit factor and its earlier event. */
  predicate PairPlaced(g: Graph, factors: seq<Result<Quotient, Error>>, titleKey: string, i: nat)
    requires i < |factors| <= PairCount(g)
  {
    var rs := PairRecords(g, factors, titleKey);
    rs.Ok? && factors[i].Ok? && i < |rs.value|
    && rs.value[i] == MakeRecord(titleKey, g.title, g.events[i].name, factors[i].value)
  }

  lemma {:induction false} PairRecordAt(g: Graph, factors: seq<Result<Quotient, Error>>, titleKey: string, i: nat)
    requires i < |factors| <= PairCount(g)
    requires PairRecords(g, factors, titleKey).Ok?
    ensures PairPlaced(g, factors, titleKey, i)
    decreases |factors|
  {
    var n := |factors| - 1;
    var init := factors[..n];
    var earlier := PairRecords(g, init, titleKey);
    assert earlier.Ok? && factors[n].Ok?;
    assert PairRecords(g, factors, titleKey).value
        == earlier.value + [MakeRecord(titleKey, g.title, g.events[n].name, factors[n].value)];
    PairRecordsLength(g, init, titleKey);
    if i < n {
      PairRecordAt(g, init, titleKey, i);
    }
  }

  /** The graphs succeed and the record of pair `i` of graph `j` sits after
      the records of the graphs before `j`. */
  predicate GraphPlaced(graphs: seq<Graph>, obj: DataObject, j: nat, i: nat,
                        titleKey: string, breathingColumn: string, ambientColumn: string)
    requires j < |graphs|
  {
    var own := GraphRecords(graphs[j], obj, titleKey, breathingColumn, ambientColumn);
    var rs := GraphsRecords(graphs, obj, titleKey, breathingColumn, ambientColumn);
    rs.Ok? && own.Ok? && i < |own.value| && GraphPairs(graphs[..j]) + i < |rs.value|
    && rs.value[GraphPairs(graphs[..j]) + i] == own.value[i]
  }

  lemma {:induction false} GraphsRecordAt(graphs: seq<Graph>, obj: DataObject, j: nat, i: nat,
                                          titleKey: string, breathingColumn: string, ambientColumn: string)
    requires j < |graphs| && i < PairCount(graphs[j])
    requires GraphsRecords(graphs, obj, titleKey, breathingColumn, ambientColumn).Ok?
    ensures GraphPlaced(graphs, obj, j, i, titleKey, breathingColumn, ambientColumn)
    decreases |graphs|
  {
    if j < |graphs| - 1 {
      var init := graphs[..|graphs| - 1];
      assert init[j] == graphs[j];
      GraphsRecordsInit(graphs, obj, titleKey, breathingColumn, ambientColumn);
      GraphsRecordAt(init, obj, j, i, titleKey, breathingColumn, ambientColumn);
      GraphsRecordInInit(graphs, obj, j, i, titleKey, breathingColumn, ambientColumn);
    } else {
      GraphsRecordInLast(graphs, obj, i, titleKey, breathingColumn, ambientColumn);
    }
  }

  /** When a list of graphs succeeds, so do the graphs before its last. */
  lemma {:induction false} GraphsRecordsInit(graphs: seq<Graph>, obj: DataObject, titleKey: string,
                                             breathingColumn: string, ambientColumn: string)
    requires graphs != []
    requires GraphsRecords(graphs, obj, titleKey, breathingColumn, ambientColumn).Ok?
    ensures GraphsRecords(graphs[..|graphs| - 1], obj, titleKey, breathingColumn, ambientColumn).Ok?
  {
  }

  /** A record of an earlier graph keeps its position when a graph is
      appended. */
  lemma {:induction false} GraphsRecordInInit(graphs: seq<Graph>, obj: DataObject, j: nat, i: nat,
                           titleKey: string, breathingColumn: string, ambientColumn: string)
    requires j < |graphs| - 1
    requires GraphsRecords(graphs, obj, titleKey, breathingColumn, ambientColumn).Ok?
    requires GraphPlaced(graphs[..|graphs| - 1], obj, j, i, titleKey, breathingColumn, ambientColumn)
    ensures GraphPlaced(graphs, obj, j, i, titleKey, breathingColumn, ambientColumn)
  {
    var init := graphs[..|graphs| - 1];
    var last := graphs[|graphs| - 1];
    assert init[..j] == graphs[..j];
    assert init[j] == graphs[j];
    var earlier := GraphsRecords(init, obj, titleKey, breathingColumn, ambientColumn);
    var later := GraphRecords(last, obj, titleKey, breathingColumn, ambientColumn);
    assert GraphsRecords(graphs, obj, titleKey, breathingColumn, ambientColumn).value == earlier.value + later.value;
  }

  /** The records of the last graph follow those of the graphs before it. */
  lemma {:induction false} GraphsRecordInLast(graphs: seq<Graph>, obj: DataObject, i: nat,
                           titleKey: string, breathingColumn: string, ambientColumn: string)
    requires graphs != [] && i < PairCount(graphs[|graphs| - 1])
    requires GraphsRecords(graphs, obj, titleKey, breathingColumn, ambientColumn).Ok?
    ensures GraphPlaced(graphs, obj, |graphs| - 1, i, titleKey, breathingColumn, ambientColumn)
  {
    var init := graphs[..|graphs| - 1];
    var last := graphs[|graphs| - 1];
    var earlier := GraphsRecords(init, obj, titleKey, breathingColumn, ambientColumn);
    var later := GraphRecords(last, obj, titleKey, breathingColumn, ambientColumn);
    assert earlier.Ok? && later.Ok?;
    assert GraphsRecords(graphs, obj, titleKey, breathingColumn, ambientColumn).value == earlier.value + later.value;
    GraphsRecordsLength(init, obj, titleKey, breathingColumn, ambientColumn);
    PairRecordsLength(last, GraphFactors(last, obj, breathingColumn, ambientColumn), titleKey);
    assert graphs[..|graphs| - 1] == init;
    ConcatIndexRight(earlier.value, later.value, i);
  }

  lemma ConcatIndexRight<T>(a: seq<T>, b: seq<T>, i: nat)
    requires i < |b|
    ensures |a| + i < |a + b| && (a + b)[|a| + i] == b[i]
  {
  }

  /** The run succeeds and the record of pair `i` of graph `j` of object `k`
      sits at `Offset(objs, k, j, i)`, copied from the records of object
      `k`. */
  predicate RecordPlaced(objs: seq<DataObject>, k: nat, j: nat, i: nat,
                         titleKey: string, breathingColumn: string, ambientColumn: string)
    requires k < |objs| && j < |objs[k].metadata|
  {
    var own := GraphsRecords(objs[k].metadata, objs[k], titleKey, breathingColumn, ambientColumn);
    var rs := FitFactorRecords(objs, titleKey, breathingColumn, ambientColumn);
    rs.Ok? && own.Ok? && GraphPairs(objs[k].metadata[..j]) + i < |own.value| && Offset(objs, k, j, i) < |rs.value|
    && rs.value[Offset(objs, k, j, i)] == own.value[GraphPairs(objs[k].metadata[..j]) + i]
  }

  lemma {:induction false} RecordAt(objs: seq<DataObject>, k: nat, j: nat, i: nat,
                                    titleKey: string, breathingColumn: string, ambientColumn: string)
    requires k < |objs| && j < |objs[k].metadata| && i < PairCount(objs[k].metadata[j])
    requires FitFactorRecords(objs, titleKey, breathingColumn, ambientColumn).Ok?
    ensures RecordPlaced(objs, k, j, i, titleKey, breathingColumn, ambientColumn)
    decreases |objs|
  {
    if k < |objs| - 1 {
      var init := objs[..|objs| - 1];
      assert init[k] == objs[k];
      RecordsInit(objs, titleKey, breathingColumn, ambientColumn);
      RecordAt(init, k, j, i, titleKey, breathingColumn, ambientColumn);
      RecordInInit(objs, k, j, i, titleKey, breathingColumn, ambientColumn);
    } else {
      RecordInLast(objs, j, i, titleKey, breathingColumn, ambientColumn);
    }
  }

  /** When a run succeeds, so does the run over the objects before the last. */
  lemma {:induction false} RecordsInit(objs: seq<DataObject>, titleKey: string,
                                       breathingColumn: string, ambientColumn: string)
    requires objs != []
    requires FitFactorRecords(objs, titleKey, breathingColumn, ambientColumn).Ok?
    ensures FitFactorRecords(objs[..|objs| - 1], titleKey, breathingColumn, ambientColumn).Ok?
  {
  }

  /** A record of an earlier data object keeps its position when an object
      is appended. */
  lemma {:induction false} RecordInInit(objs: seq<DataObject>, k: nat, j: nat, i: nat,
                                        titleKey: string, breathingColumn: string, ambientColumn: string)
    requires k < |objs| - 1 && j < |objs[k].metadata|
    requires FitFactorRecords(objs, titleKey, breathingColumn, ambientColumn).Ok?
    requires RecordPlaced(objs[..|objs| - 1], k, j, i, titleKey, breathingColumn, ambientColumn)
    ensures RecordPlaced(objs, k, j, i, titleKey, breathingColumn, ambientColumn)
  {
    var init := objs[..|objs| - 1];
    var last := objs[|objs| - 1];
    assert init[..k] == objs[..k];
    assert init[k] == objs[k];
    assert Offset(init, k, j, i) == Offset(objs, k, j, i);
    var earlier := FitFactorRecords(init, titleKey, breathingColumn, ambientColumn);
    var later := GraphsRecords(last.metadata, last, titleKey, breathingColumn, ambientColumn);
    assert FitFactorRecords(objs, titleKey, breathingColumn, ambientColumn) == Then(earlier, later);
    assert FitFactorRecords(objs, titleKey, breathingColumn, ambientColumn).value == earlier.value + later.value;
  }

  /** The records of the last data object follow those of the objects
      before it. */
  lemma {:induction false} RecordInLast(objs: seq<DataObject>, j: nat, i: nat,
                                        titleKey: string, breathingColumn: string, ambientColumn: string)
    requires objs != [] && j < |objs[|objs| - 1].metadata| && i < PairCount(objs[|objs| - 1].metadata[j])
    requires FitFactorRecords(objs, titleKey, breathingColumn, ambientColumn).Ok?
    ensures RecordPlaced(objs, |objs| - 1, j, i, titleKey, breathingColumn, ambientColumn)
  {
    var k := |objs| - 1;
    var init := objs[..k];
    var md := objs[k].metadata;
    var earlier := FitFactorRecords(init, titleKey, breathingColumn, ambientColumn);
    var later := GraphsRecords(md, objs[k], titleKey, breathingColumn, ambientColumn);
    assert earlier.Ok? && later.Ok?;
    assert FitFactorRecords(objs, titleKey, breathingColumn, ambientColumn).value == earlier.value + later.value;
    RecordsCount(init, titleKey, breathingColumn, ambientColumn);
    GraphsRecordsLength(md, objs[k], titleKey, breathingColumn, ambientColumn);
    GraphPairsPrefix(md, j);
    GraphPairsMonotone(md, j + 1, |md|);
    assert md[..|md|] == md;
    ConcatIndexRight(earlier.value, later.value, GraphPairs(md[..j]) + i);
  }

  /** The record for pair `i` of graph `j` of object `k` sits at
      `Offset(objs, k, j, i)`. It carries the graph title and the name of
      the earlier event. Its fit factor sums each table over the rows that
      lie strictly inside both the graph window and the interval between
      the two events. */
  lemma {:induction false} FitFactorRecordAt(objs: seq<DataObject>, k: nat, j: nat, i: nat,
                          titleKey: string, breathingColumn: string, ambientColumn: string)
    requires k < |objs| && j < |objs[k].metadata| && i < PairCount(objs[k].metadata[j])
    requires FitFactorRecords(objs, titleKey, breathingColumn, ambientColumn).Ok?
    ensures var obj := objs[k];
            var g := obj.metadata[j];
            var lo := Max(g.window.start, PairStart(g.window, g.events, i));
            var hi := Min(g.window.end, PairEnd(g.window, g.events, i));
            var rs := FitFactorRecords(objs, titleKey, breathingColumn, ambientColumn).value;
            Offset(objs, k, j, i) < |rs| &&
            rs[Offset(objs, k, j, i)]
            == MakeRecord(titleKey, g.title, g.events[i].name,
                          Divide(SumIn(obj.ambient.rows, ambientColumn, lo, hi),
                                 SumIn(obj.breathing.rows, breathingColumn, lo, hi)))
  {
    var obj := objs[k];
    var g := obj.metadata[j];
    var factors := GraphFactors(g, obj, breathingColumn, ambientColumn);
    RecordOfFactor(objs, k, j, i, titleKey, breathingColumn, ambientColumn);
    assert factors[i] == WindowFactor(g, obj, breathingColumn, ambientColumn, i);
  }

  /** The record at `Offset(objs, k, j, i)` is made from the fit factor of
      pair `i` of graph `j` of object `k`. */
  predicate FactorPlaced(objs: seq<DataObject>, k: nat, j: nat, i: nat,
                         titleKey: string, breathingColumn: string, ambientColumn: string)
    requires k < |objs| && j < |objs[k].metadata| && i < PairCount(objs[k].metadata[j])
  {
    var g := objs[k].metadata[j];
    var f := GraphFactors(g, objs[k], breathingColumn, ambientColumn)[i];
    var rs := FitFactorRecords(objs, titleKey, breathingColumn, ambientColumn);
    rs.Ok? && f.Ok? && Offset(objs, k, j, i) < |rs.value|
    && rs.value[Offset(objs, k, j, i)] == MakeRecord(titleKey, g.title, g.events[i].name, f.value)
  }

  lemma {:induction false} RecordOfFactor(objs: seq<DataObject>, k: nat, j: nat, i: nat,
                                          titleKey: string, breathingColumn: string, ambientColumn: string)
    requires k < |objs| && j < |objs[k].metadata| && i < PairCount(objs[k].metadata[j])
    requires FitFactorRecords(objs, titleKey, breathingColumn, ambientColumn).Ok?
    ensures FactorPlaced(objs, k, j, i, titleKey, breathingColumn, ambientColumn)
  {
    var obj := objs[k];
    var g := obj.metadata[j];
    var factors := GraphFactors(g, obj, breathingColumn, ambientColumn);
    RecordInGraph(objs, k, j, i, titleKey, breathingColumn, ambientColumn);
    assert GraphRecords(g, obj, titleKey, breathingColumn, ambientColumn) == PairRecords(g, factors, titleKey);
    PairRecordAt(g, factors, titleKey, i);
  }

  /** The record at `Offset(objs, k, j, i)` is record `i` of graph `j` of
      object `k`. */
  predicate GraphRecordPlaced(objs: seq<DataObject>, k: nat, j: nat, i: nat,
                              titleKey: string, breathingColumn: string, ambientColumn: string)
    requires k < |objs| && j < |objs[k].metadata|
  {
    var own := GraphRecords(objs[k].metadata[j], objs[k], titleKey, breathingColumn, ambientColumn);
    var rs := FitFactorRecords(objs, titleKey, breathingColumn, ambientColumn);
    rs.Ok? && own.Ok? && i < |own.value| && Offset(objs, k, j, i) < |rs.value|
    && rs.value[Offset(objs, k, j, i)] == own.value[i]
  }

  lemma {:induction false} RecordInGraph(objs: seq<DataObject>, k: nat, j: nat, i: nat,
                                         titleKey: string, breathingColumn: string, ambientColumn: string)
    requires k < |objs| && j < |objs[k].metadata| && i < PairCount(objs[k].metadata[j])
    requires FitFactorRecords(objs, titleKey, breathingColumn, ambientColumn).Ok?
    ensures GraphRecordPlaced(objs, k, j, i, titleKey, breathingColumn, ambientColumn)
  {
    var obj := objs[k];
    RecordAt(objs, k, j, i, titleKey, breathingColumn, ambientColumn);
    GraphsRecordAt(obj.metadata, obj, j, i, titleKey, breathingColumn, ambientColumn);
  }

  lemma {:induction false} GraphPairsPrefix(graphs: seq<Graph>, j: nat)
    requires j < |graphs|
    ensures GraphPairs(graphs[..j + 1]) == GraphPairs(graphs[..j]) + PairCount(graphs[j])
  {
    assert graphs[..j + 1][..j] == graphs[..j];
  }

  lemma {:induction false} GraphPairsMonotone(graphs: seq<Graph>, a: nat, b: nat)
    requires a <= b <= |graphs|
    ensures GraphPairs(graphs[..a]) <= GraphPairs(graphs[..b])
    decreases b
  {
    if a < b {
      GraphPairsMonotone(graphs, a, b - 1);
      GraphPairsPrefix(graphs, b - 1);
    }
  }

  lemma {:induction false} TotalPairsPrefix(objs: seq<DataObject>, k: nat)
    requires k < |objs|
    ensures TotalPairs(objs[..k + 1]) == TotalPairs(objs[..k]) + GraphPairs(objs[k].metadata)
  {
    assert objs[..k + 1][..k] == objs[..k];
  }

  lemma {:induction false} TotalPairsMonotone(objs: seq<DataObject>, a: nat, b: nat)
    requires a <= b <= |objs|
    ensures TotalPairs(objs[..a]) <= TotalPairs(objs[..b])
    decreases b
  {
    if a < b {
      TotalPairsMonotone(objs, a, b - 1);
      TotalPairsPrefix(objs, b - 1);
    }
  }

  /** Lexicographic order on (object, graph, pair) positions. */
  predicate Before(k: nat, j: nat, i: nat, k': nat, j': nat, i': nat)
  {
    k < k' || (k == k' && (j < j' || (j == j' && i < i')))
  }

  /** Records come in the order of their objects, then their graphs, then
      their event pairs, and every position lies inside the result. */
  lemma {:induction false} OffsetsOrdered(objs: seq<DataObject>, k: nat, j: nat, i: nat, k': nat, j': nat, i': nat)
    requires k < |objs| && j < |objs[k].metadata| && i < PairCount(objs[k].metadata[j])
    requires k' < |objs| && j' < |objs[k'].metadata| && i' < PairCount(objs[k'].metadata[j'])
    requires Before(k, j, i, k', j', i')
    ensures Offset(objs, k, j, i) < Offset(objs, k', j', i') < TotalPairs(objs)
  {
    OffsetInside(objs, k', j', i');
    if k < k' {
      OffsetBeforeNextObject(objs, k, j, i);
      TotalPairsMonotone(objs, k + 1, k');
    } else if j < j' {
      GraphPairsPrefix(objs[k].metadata, j);
      GraphPairsMonotone(objs[k].metadata, j + 1, j');
    }
  }

  lemma {:induction false} OffsetBeforeNextObject(objs: seq<DataObject>, k: nat, j: nat, i: nat)
    requires k < |objs| && j < |objs[k].metadata| && i < PairCount(objs[k].metadata[j])
    ensures Offset(objs, k, j, i) < TotalPairs(objs[..k + 1])
  {
    var md := objs[k].metadata;
    GraphPairsPrefix(md, j);
    GraphPairsMonotone(md, j + 1, |md|);
    assert md[..|md|] == md;
    TotalPairsPrefix(objs, k);
  }

  lemma {:induction false} OffsetInside(objs: seq<DataObject>, k: nat, j: nat, i: nat)
    requires k < |objs| && j < |objs[k].metadata| && i < PairCount(objs[k].metadata[j])
    ensures Offset(objs, k, j, i) < TotalPairs(objs)
  {
    OffsetBeforeNextObject(objs, k, j, i);
    TotalPairsMonotone(objs, k + 1, |objs|);
    assert objs[..|objs|] == objs;
  }

  /** Two windows, one with events at offsets 0 and 10 and one with events
      at 0, 5 and 15, give three records; the first window's single record
      comes first. */
  lemma {:induction false} TwoWindowsThreeRecords(breathing: Table, ambient: Table, windowA: Window, windowB: Window,
                               titleKey: string, breathingColumn: string, ambientColumn: string)
    requires breathingColumn in breathing.columns && ambientColumn in ambient.columns
    ensures var graphA := Graph("A", windowA, [Event("start", 0), Event("end", 10)]);
            var graphB := Graph("B", windowB, [Event("start", 0), Event("middle", 5), Event("end", 15)]);
            var r := FitFactorRecords([DataObject([graphA, graphB], breathing, ambient)],
                                      titleKey, breathingColumn, ambientColumn);
            r.Ok? && |r.value| == 3
            && (forall n :: 0 <= n < 3 ==> "event" in r.value[n])
            && r.value[0]["event"] == Text("start") && r.value[1]["event"] == Text("start")
            && r.value[2]["event"] == Text("middle")
  {
    var graphA := Graph("A", windowA, [Event("start", 0), Event("end", 10)]);
    var graphB := Graph("B", windowB, [Event("start", 0), Event("middle", 5), Event("end", 15)]);
    var obj := DataObject([graphA, graphB], breathing, ambient);
    var objs := [obj];
    assert objs[..0] == [];
    assert obj.metadata[..0] == [];
    assert obj.metadata[..1] == [graphA];
    assert [graphA][..0] == [];
    GraphsRecordsError(obj.metadata, obj, titleKey, breathingColumn, ambientColumn);
    assert FitFactorRecords(objs, titleKey, breathingColumn, ambientColumn)
        == Then(Ok([]), GraphsRecords(obj.metadata, obj, titleKey, breathingColumn, ambientColumn));
    RecordsCount(objs, titleKey, breathingColumn, ambientColumn);
    assert Offset(objs, 0, 0, 0) == 0 && Offset(objs, 0, 1, 0) == 1 && Offset(objs, 0, 1, 1) == 2;
    RecordOfFactor(objs, 0, 0, 0, titleKey, breathingColumn, ambientColumn);
    RecordOfFactor(objs, 0, 1, 0, titleKey, breathingColumn, ambientColumn);
    RecordOfFactor(objs, 0, 1, 1, titleKey, breathingColumn, ambientColumn);
  }
}
