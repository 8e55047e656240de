/** Optional values and the fix lifecycle graph, shared by the other modules. */
module Wrappers {

  datatype Option<+T> = None | Some(value: T)

  function Get<K, V>(m: map<K, V>, k: K): Option<V> {
    if k in m then Some(m[k]) else None
  }
}

/** The part of the fix state graph that the modelled code fires events on. */
module FixMachine {
  import opened Wrappers

  datatype FixStatus =
    | Pending | Generating | Ready | Delivering | Delivered | Failed
    | RejectedByUser | SupersededByClosedPr | SupersededByDeletedFile | Landed | NoOp

  datatype FixEvent =
    | StartGeneration | GenerationSucceeded | GenerationFailed
    | StartDelivery | DeliverySucceeded | DeliveryFailed
    | SupersedeDeletedFile | Restore

  // Statuses a worker is processing: such a row must not be reset.
  const IN_FLIGHT: set<FixStatus> := {Pending, Generating, Delivering}

  /** Where an event leads, or None when it is illegal from this status. */
  function Fire(s: FixStatus, e: FixEvent): Option<FixStatus> {
    match e
    case StartGeneration => if s.Pending? then Some(Generating) else None
    case GenerationSucceeded => if s.Generating? then Some(Ready) else None
    case GenerationFailed => if s.Generating? then Some(Failed) else None
    case StartDelivery => if s.Ready? then Some(Delivering) else None
    case DeliverySucceeded => if s.Delivering? then Some(Delivered) else None
    case DeliveryFailed => if s.Delivering? then Some(Failed) else None
    case SupersedeDeletedFile =>
      if s in {Pending, Generating, Ready, Delivering, Delivered} then Some(SupersededByDeletedFile) else None
    case Restore =>
      if s.SupersededByClosedPr? || s.SupersededByDeletedFile? then Some(Ready) else None
  }

  /** Fire an event if it is legal, else leave the status alone. */
  function TryAdvance(s: FixStatus, e: FixEvent): FixStatus {
    match Fire(s, e)
    case Some(t) => t
    case None => s
  }
}
