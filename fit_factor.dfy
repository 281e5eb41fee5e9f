/** `get_fit_factor_between_two_events`: the ratio of the ambient to the
    breathing-area concentration summed over the open interval between two
    consecutive events of a graph window. */
module FitFactor {
  import opened Values
  import opened Frames

  /** A marker in a graph window: its name and its offset (`timedelta`) from
      the window start. */
  datatype Event = Event(name: string, timedelta: int)

  /** The time window of one graph. */
  datatype Window = Window(start: int, end: int)

  /** One entry of a data object's metadata. */
  datatype Graph = Graph(title: string, window: Window, events: seq<Event>)

  /** A column label that the table does not hold (pandas raises `KeyError`). */
  datatype Error = MissingColumn(column: string)

  /** Absolute start of the interval that follows event `i`. */
  function PairStart(window: Window, events: seq<Event>, i: nat): int
    requires i < |events|
  {
    window.start + events[i].timedelta
  }

  /** Absolute end of the interval that follows event `i`: the next event. */
  function PairEnd(window: Window, events: seq<Event>, i: nat): int
    requires i + 1 < |events|
  {
    window.start + events[i + 1].timedelta
  }

  /** The fit factor of the interval between `events[eventIndex]` and
      `events[eventIndex + 1]`: ambient sum over breathing-area sum, both over
      the rows strictly inside the interval. The breathing-area column is
      looked up first, so its absence is the error reported when both are
      missing. */
  function FitFactorBetween(eventIndex: nat, breathing: Table, ambient: Table, window: Window,
                            events: seq<Event>, breathingColumn: string, ambientColumn: string)
    : (r: Result<Quotient, Error>)
    requires eventIndex + 1 < |events|
    ensures r.Err? <==> breathingColumn !in breathing.columns || ambientColumn !in ambient.columns
    ensures r.Err? ==> r.error == MissingColumn(
              if breathingColumn !in breathing.columns then breathingColumn else ambientColumn)
    ensures r.Ok? ==>
              var lo, hi := PairStart(window, events, eventIndex), PairEnd(window, events, eventIndex);
              r.value == Divide(SumIn(ambient.rows, ambientColumn, lo, hi),
                                SumIn(breathing.rows, breathingColumn, lo, hi))
    ensures r.Ok? ==>
              (r.value.Finite? <==>
               SumIn(breathing.rows, breathingColumn, PairStart(window, events, eventIndex),
                     PairEnd(window, events, eventIndex)) != 0.0)
  {
    var lo, hi := PairStart(window, events, eventIndex), PairEnd(window, events, eventIndex);
    if breathingColumn !in breathing.columns then Err(MissingColumn(breathingColumn))
    else if ambientColumn !in ambient.columns then Err(MissingColumn(ambientColumn))
    else
      var denominator := ColumnSum(Between(lo, hi, breathing).rows, breathingColumn);
      var numerator := ColumnSum(Between(lo, hi, ambient).rows, ambientColumn);
      SumOfBetween(lo, hi, breathing.rows, breathingColumn);
      SumOfBetween(lo, hi, ambient.rows, ambientColumn);
      Ok(Divide(numerator, denominator))
  }

  /** Swapping the roles of the two tables (and their columns) inverts the
      fit factor, because both sums are taken over the same interval. */
  lemma {:induction false} SwapGivesReciprocal(eventIndex: nat, breathing: Table, ambient: Table, window: Window,
                            events: seq<Event>, breathingColumn: string, ambientColumn: string)
    requires eventIndex + 1 < |events|
    requires breathingColumn in breathing.columns && ambientColumn in ambient.columns
    ensures var forward := FitFactorBetween(eventIndex, breathing, ambient, window, events,
                                            breathingColumn, ambientColumn);
            var backward := FitFactorBetween(eventIndex, ambient, breathing, window, events,
                                             ambientColumn, breathingColumn);
            forward.Ok? && backward.Ok? &&
            (forward.value.Finite? && forward.value.value != 0.0 ==>
               backward.value == Finite(1.0 / forward.value.value))
  {
    var lo, hi := PairStart(window, events, eventIndex), PairEnd(window, events, eventIndex);
    var b := SumIn(breathing.rows, breathingColumn, lo, hi);
    var a := SumIn(ambient.rows, ambientColumn, lo, hi);
    if b != 0.0 && a != 0.0 {
      InverseQuotient(a, b);
    }
  }

  lemma {:induction false} InverseQuotient(a: real, b: real)
    requires a != 0.0 && b != 0.0
    ensures b / a == 1.0 / (a / b)
  {
    assert (a / b) * (b / a) == 1.0;
  }

  /** When the later event's offset is not after the earlier one's, the
      interval is empty, both sums are 0 and the division is by zero. */
  lemma {:induction false} EmptyInterval(eventIndex: nat, breathing: Table, ambient: Table, window: Window,
                      events: seq<Event>, breathingColumn: string, ambientColumn: string)
    requires eventIndex + 1 < |events|
    requires events[eventIndex + 1].timedelta <= events[eventIndex].timedelta
    requires breathingColumn in breathing.columns && ambientColumn in ambient.columns
    ensures FitFactorBetween(eventIndex, breathing, ambient, window, events,
                             breathingColumn, ambientColumn) == Ok(DivisionByZero)
  {
    var lo, hi := PairStart(window, events, eventIndex), PairEnd(window, events, eventIndex);
    SumInEmptyWindow(breathing.rows, breathingColumn, lo, hi);
  }

  /** On tables first clipped to the graph window, as `get_fit_factors`
      passes them, a row counts exactly when it lies strictly inside both
      the window and the interval between the two events. */
  lemma {:induction false} ClippedFitFactor(eventIndex: nat, breathing: Table, ambient: Table, window: Window,
                         events: seq<Event>, breathingColumn: string, ambientColumn: string)
    requires eventIndex + 1 < |events|
    requires breathingColumn in breathing.columns && ambientColumn in ambient.columns
    ensures var lo := Max(window.start, PairStart(window, events, eventIndex));
            var hi := Min(window.end, PairEnd(window, events, eventIndex));
            FitFactorBetween(eventIndex, Between(window.start, window.end, breathing),
                             Between(window.start, window.end, ambient), window, events,
                             breathingColumn, ambientColumn)
            == Ok(Divide(SumIn(ambient.rows, ambientColumn, lo, hi),
                         SumIn(breathing.rows, breathingColumn, lo, hi)))
  {
    var lo, hi := PairStart(window, events, eventIndex), PairEnd(window, events, eventIndex);
    ClippedSum(window, lo, hi, breathing.rows, breathingColumn);
    ClippedSum(window, lo, hi, ambient.rows, ambientColumn);
  }

  /** Summing over `(lo, hi)` after clipping to the window is summing over
      the intersection of the two intervals. */
  lemma {:induction false} ClippedSum(window: Window, lo: int, hi: int, rows: seq<Row>, column: string)
    ensures SumIn(Filter(window.start, window.end, rows), column, lo, hi)
         == SumIn(rows, column, Max(window.start, lo), Min(window.end, hi))
  {
    var clipped := Filter(window.start, window.end, rows);
    SumOfBetween(lo, hi, clipped, column);
    FilterTwice(lo, hi, window.start, window.end, rows);
    SumOfBetween(Max(lo, window.start), Min(hi, window.end), rows, column);
    assert Max(lo, window.start) == Max(window.start, lo);
    assert Min(hi, window.end) == Min(window.end, hi);
  }
}
