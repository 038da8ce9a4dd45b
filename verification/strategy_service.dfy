/**
 * `DocumentProcessingStrategyService`: picks the processing strategy of an
 * interface among the registered ones, by document type and priority.
 */
module StrategyService {
  import opened Wrappers
  import opened Text
  import opened Entities

  /**
   * What the selection reads of a `DocumentProcessingStrategy`: its name, the
   * document type its `canHandle` accepts and its priority.
   */
  datatype Strategy = Strategy(name: string, documentType: string, priority: int)

  /** `canHandle(type)` of every strategy in the system: the type equals the strategy's type, ignoring case; null never does. */
  predicate CanHandle(s: Strategy, interfaceType: Option<string>) {
    interfaceType.Some? && EqualsIgnoreCase(s.documentType, interfaceType.value)
  }

  datatype Failure = IllegalArgumentException(message: string) | RuntimeException(message: string)

  const NULL_INTERFACE: string := "Interface or interface type cannot be null"
  const NO_STRATEGY: string := "No processing strategy found for interface type: "

  /** `filter(s -> s.canHandle(type))`: the strategies that handle the type, in order. */
  function Handlers(strategies: seq<Strategy>, interfaceType: Option<string>): (r: seq<Strategy>)
    ensures forall s :: s in r <==> s in strategies && CanHandle(s, interfaceType)
    decreases |strategies|
  {
    if strategies == [] then []
    else
      var last := strategies[|strategies| - 1];
      Handlers(strategies[..|strategies| - 1], interfaceType) + if CanHandle(last, interfaceType) then [last] else []
  }

  /**
   * `max(comparing priority)`: a left fold that keeps the strategy it holds
   * unless the next one has a strictly higher priority, so of several with
   * the highest priority the first one wins.
   */
  function MaxByPriority(ss: seq<Strategy>): (r: Option<Strategy>)
    ensures r.None? <==> ss == []
    ensures r.Some? ==> r.value in ss && forall s :: s in ss ==> s.priority <= r.value.priority
    ensures r.Some? ==> exists i :: 0 <= i < |ss| && ss[i] == r.value
                                    && forall j :: 0 <= j < i ==> ss[j].priority < r.value.priority
    decreases |ss|
  {
    if ss == [] then None
    else
      var init := ss[..|ss| - 1];
      var last := ss[|ss| - 1];
      assert ss == init + [last];
      match MaxByPriority(init)
      case None => Some(last)
      case Some(best) => if best.priority >= last.priority then Some(best) else Some(last)
  }

  /**
   * `getStrategy(interfaceEntity)`: a null interface or type is refused; else
   * the handler of the type with the highest priority, the first of equals;
   * without one the call fails.
   */
  function GetStrategy(strategies: seq<Strategy>, iface: Option<Interface>): (r: Result<Strategy, Failure>)
    ensures iface.None? || iface.value.interfaceType.None? ==> r == Err(IllegalArgumentException(NULL_INTERFACE))
    ensures r.Ok? ==> r.value in strategies && CanHandle(r.value, iface.value.interfaceType)
    ensures r.Ok? ==> forall s :: s in strategies && CanHandle(s, iface.value.interfaceType) ==> s.priority <= r.value.priority
    ensures iface.Some? && iface.value.interfaceType.Some? ==>
              (r.Err? <==> forall s :: s in strategies ==> !CanHandle(s, iface.value.interfaceType))
    ensures r.Err? && iface.Some? && iface.value.interfaceType.Some? ==>
              r.error == RuntimeException(NO_STRATEGY + iface.value.interfaceType.value)
  {
    if iface.None? || iface.value.interfaceType.None? then Err(IllegalArgumentException(NULL_INTERFACE))
    else
      var t := iface.value.interfaceType;
      match MaxByPriority(Handlers(strategies, t))
      case None => Err(RuntimeException(NO_STRATEGY + t.value))
      case Some(s) => Ok(s)
  }
}
