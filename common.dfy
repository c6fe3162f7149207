/** Values shared by every part of the model: optional values, the errors that
    completion callbacks carry, and the process-wide event bus. */
module Common {

  /** `undefined` versus a value. */
  datatype Option<T> = None | Some(value: T)

  /** The error values passed to completion callbacks. The first four are the
      host file system's error codes (ENOENT, EISDIR, ENOTDIR, EEXIST); the
      last is an error reported by a caller-supplied transform. */
  datatype Error =
    | NoEntry
    | IsDirectory
    | NotDirectory
    | AlreadyExists
    | TransformFailed(message: string)

  /** One map copied over another, as `_.extend` and `_.deepExtend` do with
      flat objects: the result has both key sets and `over`'s values win. */
  function Override<K, V>(base: map<K, V>, over: map<K, V>): (r: map<K, V>)
    ensures r.Keys == base.Keys + over.Keys
    ensures forall k :: k in over ==> r[k] == over[k]
    ensures forall k :: k in base && k !in over ==> r[k] == base[k]
  {
    base + over
  }

  /** The events the modelled code raises on the bus. */
  datatype Event =
    | AllStop(exitCode: int)
    | FileChanged(kind: string, file: string, path: string)

  /** The event bus, reduced to the record of what was raised on it. */
  class EventBus {
    var raised: seq<Event>

    constructor ()
      ensures raised == []
    {
      raised := [];
    }

    method Raise(e: Event)
      modifies this
      ensures raised == old(raised) + [e]
    {
      raised := raised + [e];
    }
  }
}
