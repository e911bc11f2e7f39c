/** The network state every inverter source reports, and its change-gated setter. */
module InverterSource {

  datatype NetworkState = Unknown | Online | Offline

  /**
   * The log events (`Inverter is {state}`) that `set_state(next)` emits when the
   * current state is `current`: exactly one, naming the new state, when it differs.
   */
  function StateChange(current: NetworkState, next: NetworkState): (events: seq<NetworkState>)
    ensures |events| <= 1
    ensures events == [] <==> current == next
    ensures events != [] ==> events == [next]
  {
    if current != next then [next] else []
  }

}
