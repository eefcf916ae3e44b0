/** What the state of every adapter is made of. */
module AdapterState {

  datatype Health = Ok | Degraded | Failed

  /** The lifecycle: the bus is held in every phase but Off. */
  datatype Phase = Off | Starting | On | Stopping

  /** The connection object, which has had the notification handler ever since start made it. */
  datatype Link = Absent | Down | Up
}
