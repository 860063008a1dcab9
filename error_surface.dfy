/** The global 'permission-error' channel and its one consumer
    (src/components/FirebaseErrorListener.tsx). The emitter module itself
    (src/firebase/error-emitter.ts) is not part of this model; the emitter
    here does only what its callers rely on: `on` and `off` register and
    remove a handler, and `emit` hands the event to every registered handler. */
module ErrorSurface {
  import opened Data
  import opened FirestoreErrors

  /** What the listener's render produces. */
  datatype Rendering = RendersNothing | Throws(error: PermissionError)

  /** `FirebaseErrorListener`, with its `error` state. */
  class FirebaseErrorListener {
    var error: Option<PermissionError>

    /** The listener starts with no error. */
    constructor()
      ensures error == None
    {
      error := None;
    }

    /** `handleError`: the latest event replaces whatever was stored. */
    method HandleError(e: PermissionError)
      modifies this
      ensures error == Some(e)
    {
      error := Some(e);
    }

    /** The render: throw the stored error, if any, else render nothing. */
    function Render(): (r: Rendering)
      reads this
      ensures r.Throws? <==> error.Some?
      ensures error.Some? ==> r == Throws(error.value)
    {
      match error
      case Some(e) => Throws(e)
      case None => RendersNothing
    }

    /** The mount effect: register this listener's handler. The stored error
        is left as it is. */
    method Mount(emitter: ErrorEmitter)
      modifies emitter
      ensures emitter.handlers == old(emitter.handlers) + {this}
      ensures emitter.emitted == old(emitter.emitted)
    {
      emitter.On(this);
    }

    /** The cleanup of the mount effect: remove the same handler. */
    method Unmount(emitter: ErrorEmitter)
      modifies emitter
      ensures emitter.handlers == old(emitter.handlers) - {this}
      ensures emitter.emitted == old(emitter.emitted)
    {
      emitter.Off(this);
    }
  }

  /** `errorEmitter` for the 'permission-error' event: the registered
      listeners, and every event emitted so far. */
  class ErrorEmitter {
    var handlers: set<FirebaseErrorListener>
    var emitted: seq<PermissionError>

    constructor()
      ensures handlers == {} && emitted == []
    {
      handlers := {};
      emitted := [];
    }

    method On(listener: FirebaseErrorListener)
      modifies this
      ensures handlers == old(handlers) + {listener}
      ensures emitted == old(emitted)
    {
      handlers := handlers + {listener};
    }

    method Off(listener: FirebaseErrorListener)
      modifies this
      ensures handlers == old(handlers) - {listener}
      ensures emitted == old(emitted)
    {
      handlers := handlers - {listener};
    }

    /** `emit('permission-error', e)`: the event is logged and every
        registered listener stores it, so each of them throws it on its next
        render; no other listener changes. */
    method Emit(e: PermissionError)
      modifies this, handlers
      ensures handlers == old(handlers)
      ensures emitted == old(emitted) + [e]
      ensures forall l :: l in handlers ==> l.error == Some(e) && l.Render() == Throws(e)
    {
      emitted := emitted + [e];
      forall l | l in handlers {
        l.error := Some(e);
      }
    }
  }
}
