/**
 * `ClientPerformanceMonitor`: times operations per client and keeps, per
 * client and operation type, a running figure of their durations in
 * milliseconds. The clock is a parameter: `now` is the current instant in
 * milliseconds.
 */
module PerformanceMonitor {
  import opened Wrappers

  /** Java's `long` division by two, which truncates toward zero. */
  function JavaHalf(x: int): (r: int)
    ensures 2 * r == x || 2 * r == x - 1 || 2 * r == x + 1
    ensures x >= 0 ==> 0 <= r && 2 * r <= x
    ensures x < 0 ==> r <= 0 && x <= 2 * r
  {
    if x >= 0 then x / 2 else -((-x) / 2)
  }

  /** The figure after an operation of `duration` ms: the duration itself the first time, else `(old + duration) / 2`. */
  function Merged(previous: Option<int>, duration: int): int {
    match previous
    case None => duration
    case Some(p) => JavaHalf(p + duration)
  }

  /** The new figure lies between the previous one and the new duration. */
  lemma MergedBetween(p: int, duration: int)
    ensures Merged(Some(p), duration) >= if p <= duration then p else duration
    ensures Merged(Some(p), duration) <= if p <= duration then duration else p
  {
  }

  /** The figure after recording `durations` in order, from none. */
  function Figure(durations: seq<int>): int
    requires durations != []
    decreases |durations|
  {
    if |durations| == 1 then durations[0]
    else Merged(Some(Figure(durations[..|durations| - 1])), durations[|durations| - 1])
  }

  /** The figure of a client that always takes the same time stays that time. */
  lemma {:induction false} SteadyDurationKept(durations: seq<int>, d: int)
    requires durations != [] && forall i :: 0 <= i < |durations| ==> durations[i] == d
    ensures Figure(durations) == d
    decreases |durations|
  {
    if |durations| > 1 {
      SteadyDurationKept(durations[..|durations| - 1], d);
    }
  }

  /** The figure always lies between the shortest and the longest duration recorded. */
  lemma {:induction false} FigureBounded(durations: seq<int>, lo: int, hi: int)
    requires durations != [] && forall i :: 0 <= i < |durations| ==> lo <= durations[i] <= hi
    ensures lo <= Figure(durations) <= hi
    decreases |durations|
  {
    if |durations| > 1 {
      var init := durations[..|durations| - 1];
      FigureBounded(init, lo, hi);
      MergedBetween(Figure(init), durations[|durations| - 1]);
    }
  }

  /** The metrics of all clients after `recordMetric(clientId, operationType, duration)`. */
  function Recorded(metrics: map<Option<int>, map<Option<string>, int>>, clientId: Option<int>,
                    operationType: Option<string>, duration: int): (r: map<Option<int>, map<Option<string>, int>>)
    ensures clientId in r && operationType in r[clientId]
    ensures r.Keys == metrics.Keys + {clientId}
    ensures forall c :: c in metrics && c != clientId ==> r[c] == metrics[c]
    ensures var before := if clientId in metrics then metrics[clientId] else map[];
            r[clientId].Keys == before.Keys + {operationType}
            && (forall o :: o in before && o != operationType ==> r[clientId][o] == before[o])
            && r[clientId][operationType] == Merged(if operationType in before then Some(before[operationType]) else None, duration)
  {
    var before := if clientId in metrics then metrics[clientId] else map[];
    var previous := if operationType in before then Some(before[operationType]) else None;
    metrics[clientId := before[operationType := Merged(previous, duration)]]
  }

  /** The metrics after recording `durations` in order for one client and operation type. */
  function RecordAll(metrics: map<Option<int>, map<Option<string>, int>>, clientId: Option<int>,
                     operationType: Option<string>, durations: seq<int>): map<Option<int>, map<Option<string>, int>>
    decreases |durations|
  {
    if durations == [] then metrics
    else Recorded(RecordAll(metrics, clientId, operationType, durations[..|durations| - 1]), clientId, operationType,
                  durations[|durations| - 1])
  }

  /** From no metrics, the recorded figure is the running figure of the durations. */
  lemma {:induction false} RecordAllFigure(clientId: Option<int>, operationType: Option<string>, durations: seq<int>)
    requires durations != []
    ensures var m := RecordAll(map[], clientId, operationType, durations);
            clientId in m && operationType in m[clientId] && m[clientId][operationType] == Figure(durations)
    decreases |durations|
  {
    if |durations| > 1 {
      RecordAllFigure(clientId, operationType, durations[..|durations| - 1]);
    } else {
      assert durations[..0] == [];
    }
  }

  class ClientPerformanceMonitor {
    var operationStartTimes: map<Option<int>, int>
    var clientMetrics: map<Option<int>, map<Option<string>, int>>

    constructor()
      ensures operationStartTimes == map[] && clientMetrics == map[]
    {
      operationStartTimes := map[];
      clientMetrics := map[];
    }

    /** `startOperation(clientId, operationType)`: remembers when the client's operation began, replacing an earlier start. */
    method StartOperation(clientId: Option<int>, operationType: Option<string>, now: int)
      modifies this
      ensures operationStartTimes == old(operationStartTimes)[clientId := now]
      ensures clientMetrics == old(clientMetrics)
    {
      operationStartTimes := operationStartTimes[clientId := now];
    }

    /**
     * `endOperation(clientId, operationType)`: consumes the client's start
     * time and records the elapsed time under the operation type; without a
     * start it records nothing.
     */
    method EndOperation(clientId: Option<int>, operationType: Option<string>, now: int)
      modifies this
      ensures operationStartTimes == old(operationStartTimes) - {clientId}
      ensures clientId !in old(operationStartTimes) ==> clientMetrics == old(clientMetrics)
      ensures clientId in old(operationStartTimes) ==>
                clientMetrics == Recorded(old(clientMetrics), clientId, operationType, now - old(operationStartTimes)[clientId])
    {
      if clientId in operationStartTimes {
        var startTime := operationStartTimes[clientId];
        operationStartTimes := operationStartTimes - {clientId};
        RecordMetric(clientId, operationType, now - startTime);
      } else {
        operationStartTimes := operationStartTimes - {clientId};
      }
    }

    /** `recordMetric(clientId, operationType, durationMs)`. */
    method RecordMetric(clientId: Option<int>, operationType: Option<string>, durationMs: int)
      modifies this
      ensures clientMetrics == Recorded(old(clientMetrics), clientId, operationType, durationMs)
      ensures operationStartTimes == old(operationStartTimes)
    {
      var metrics := if clientId in clientMetrics then clientMetrics[clientId] else map[];
      if operationType in metrics {
        metrics := metrics[operationType := JavaHalf(metrics[operationType] + durationMs)];
      } else {
        metrics := metrics[operationType := durationMs];
      }
      clientMetrics := clientMetrics[clientId := metrics];
    }

    /** `getClientMetrics(clientId)`: the client's figures, an empty map for a client never measured. */
    function GetClientMetrics(clientId: Option<int>): (r: map<Option<string>, int>)
      reads this
      ensures clientId !in clientMetrics ==> r == map[]
      ensures clientId in clientMetrics ==> r == clientMetrics[clientId]
    {
      if clientId in clientMetrics then clientMetrics[clientId] else map[]
    }

    /** `clearMetrics(clientId)`: forgets the client's figures and any running start. */
    method ClearMetrics(clientId: Option<int>)
      modifies this
      ensures clientMetrics == old(clientMetrics) - {clientId}
      ensures operationStartTimes == old(operationStartTimes) - {clientId}
      ensures GetClientMetrics(clientId) == map[]
    {
      clientMetrics := clientMetrics - {clientId};
      operationStartTimes := operationStartTimes - {clientId};
    }
  }

  /**
   * A start followed by two ends records one operation: the second end finds
   * no start, so the figure is the first operation's duration.
   */
  method EndConsumesStart(clientId: Option<int>, operationType: Option<string>) returns (figure: int)
    ensures figure == 250
  {
    var monitor := new ClientPerformanceMonitor();
    monitor.StartOperation(clientId, operationType, 1000);
    monitor.EndOperation(clientId, operationType, 1250);
    monitor.EndOperation(clientId, operationType, 9000);
    figure := monitor.GetClientMetrics(clientId)[operationType];
  }
}
