/** The fire-and-forget Firestore writes (src/firebase/non-blocking-updates.tsx).
    Each helper starts a write and returns at once; the write settles later.
    A write the backend rejects is reported as exactly one 'permission-error'
    event, never as a failure of the caller. The two phases are modelled
    apart: a helper puts its write in flight under a ticket, and `Settle`
    later resolves one ticket either way. */
module NonBlockingUpdates {
  import opened Data
  import opened FirestoreErrors
  import opened ErrorSurface

  datatype DocRef = DocRef(path: string)

  datatype CollectionRef = CollectionRef(path: string)

  /** The options `setDoc` is given, passed through untouched. */
  datatype SetOptions = SetOptions(merge: bool)

  /** The backend write a helper starts. `RemoveData` is the `updateDoc` that
      the delete helper issues when it is given data. */
  datatype Write =
    | SetDoc(doc: DocRef, data: Value, options: SetOptions)
    | AddDoc(collection: CollectionRef, data: Value)
    | UpdateDoc(doc: DocRef, data: Value)
    | ArrayUnionPhoto(doc: DocRef, photo: Photo)
    | RemoveData(doc: DocRef, data: Value)
    | DeleteDoc(doc: DocRef)

  /** The path of the reference a write targets. */
  function TargetPath(w: Write): (path: string)
    ensures w.AddDoc? ==> path == w.collection.path
    ensures !w.AddDoc? ==> path == w.doc.path
  {
    match w
    case AddDoc(c, _) => c.path
    case SetDoc(d, _, _) => d.path
    case UpdateDoc(d, _) => d.path
    case ArrayUnionPhoto(d, _) => d.path
    case RemoveData(d, _) => d.path
    case DeleteDoc(d) => d.path
  }

  /** The rule context each helper's `.catch` builds for its write: the
      target's path; 'write' for set, 'create' for add, 'update' for update,
      photo append and delete-with-data, 'delete' for a document delete; the
      written data as payload, the `arrayUnion` note for a photo, and no
      payload for either delete. */
  function FailureContext(w: Write): (context: SecurityRuleContext)
    ensures context.path == TargetPath(w)
    ensures context.operation == Write <==> w.SetDoc?
    ensures context.operation == Create <==> w.AddDoc?
    ensures context.operation == Update <==> w.UpdateDoc? || w.ArrayUnionPhoto? || w.RemoveData?
    ensures context.operation == Delete <==> w.DeleteDoc?
    ensures context.requestResourceData.None? <==> w.RemoveData? || w.DeleteDoc?
    ensures (w.SetDoc? || w.AddDoc? || w.UpdateDoc?) ==> context.requestResourceData == Some(Written(w.data))
    ensures w.ArrayUnionPhoto? ==> context.requestResourceData == Some(ArrayUnionNote(w.photo))
  {
    match w
    case SetDoc(d, data, _) => SecurityRuleContext(d.path, Write, Some(Written(data)))
    case AddDoc(c, data) => SecurityRuleContext(c.path, Create, Some(Written(data)))
    case UpdateDoc(d, data) => SecurityRuleContext(d.path, Update, Some(Written(data)))
    case ArrayUnionPhoto(d, photo) => SecurityRuleContext(d.path, Update, Some(ArrayUnionNote(photo)))
    case RemoveData(d, _) => SecurityRuleContext(d.path, Update, None)
    case DeleteDoc(d) => SecurityRuleContext(d.path, Delete, None)
  }

  /** Every write but a set reports an operation the rule context's type
      admits; a rejected set reports 'write', which it does not. */
  lemma OperationOutsideUnionOnlyForSet(w: Write)
    ensures !InRuleContextUnion(FailureContext(w).operation) <==> w.SetDoc?
  {
  }

  /** The event a rejected write produces names the target under the
      documents root, the write's operation and an anonymous request. */
  lemma RejectionEventDescribesWrite(w: Write)
    ensures NewPermissionError(FailureContext(w)).request.path == DocumentsRoot + TargetPath(w)
    ensures NewPermissionError(FailureContext(w)).request.requestMethod == FailureContext(w).operation
    ensures NewPermissionError(FailureContext(w)).request.auth == Anonymous
  {
    AlwaysAnonymous(FailureContext(w));
  }

  /** JavaScript truthiness of the delete helper's optional data: every value
      but null, false, 0 and "" is truthy. */
  predicate Truthy(v: Value): (b: bool)
    ensures !b <==> v == Null || v == Flag(false) || v == Number(0.0) || v == Text("")
  {
    match v
    case Null => false
    case Flag(b) => b
    case Number(n) => n != 0.0
    case Text(s) => s != ""
    case _ => true
  }

  /** The backend: writes started and not yet settled, keyed by ticket, and
      the writes it has accepted, in settlement order. */
  class Backend {
    var inFlight: map<nat, Write>
    var nextTicket: nat
    var committed: seq<Write>

    /** Tickets are handed out in increasing order, so every ticket in flight
        is below the next one. */
    predicate Valid()
      reads this
    {
      forall t :: t in inFlight ==> t < nextTicket
    }

    constructor()
      ensures Valid()
      ensures inFlight == map[] && nextTicket == 0 && committed == []
    {
      inFlight := map[];
      nextTicket := 0;
      committed := [];
    }

    /** Start a write without waiting for it. */
    method Dispatch(w: Write) returns (ticket: nat)
      requires Valid()
      modifies this
      ensures Valid()
      ensures ticket == old(nextTicket) && ticket !in old(inFlight)
      ensures inFlight == old(inFlight)[ticket := w]
      ensures nextTicket == old(nextTicket) + 1 && committed == old(committed)
    {
      ticket := nextTicket;
      inFlight := inFlight[ticket := w];
      nextTicket := nextTicket + 1;
    }
  }

  /** `setDocumentNonBlocking`. */
  method SetDocumentNonBlocking(backend: Backend, doc: DocRef, data: Value, options: SetOptions)
    requires backend.Valid()
    modifies backend
    ensures backend.Valid()
    ensures backend.inFlight == old(backend.inFlight)[old(backend.nextTicket) := SetDoc(doc, data, options)]
    ensures backend.nextTicket == old(backend.nextTicket) + 1 && backend.committed == old(backend.committed)
  {
    var _ := backend.Dispatch(SetDoc(doc, data, options));
  }

  /** `addDocumentNonBlocking`: the only helper that hands back its pending
      write, here the ticket it was started under. */
  method AddDocumentNonBlocking(backend: Backend, collection: CollectionRef, data: Value)
    returns (pending: nat)
    requires backend.Valid()
    modifies backend
    ensures backend.Valid()
    ensures pending == old(backend.nextTicket)
    ensures backend.inFlight == old(backend.inFlight)[pending := AddDoc(collection, data)]
    ensures backend.nextTicket == old(backend.nextTicket) + 1 && backend.committed == old(backend.committed)
  {
    pending := backend.Dispatch(AddDoc(collection, data));
  }

  /** `updateDocumentNonBlocking`. */
  method UpdateDocumentNonBlocking(backend: Backend, doc: DocRef, data: Value)
    requires backend.Valid()
    modifies backend
    ensures backend.Valid()
    ensures backend.inFlight == old(backend.inFlight)[old(backend.nextTicket) := UpdateDoc(doc, data)]
    ensures backend.nextTicket == old(backend.nextTicket) + 1 && backend.committed == old(backend.committed)
  {
    var _ := backend.Dispatch(UpdateDoc(doc, data));
  }

  /** `addPhotoToProjectNonBlocking`: an `arrayUnion` of the photo into the
      project's `photos`. */
  method AddPhotoToProjectNonBlocking(backend: Backend, project: DocRef, photo: Photo)
    requires backend.Valid()
    modifies backend
    ensures backend.Valid()
    ensures backend.inFlight == old(backend.inFlight)[old(backend.nextTicket) := ArrayUnionPhoto(project, photo)]
    ensures backend.nextTicket == old(backend.nextTicket) + 1 && backend.committed == old(backend.committed)
  {
    var _ := backend.Dispatch(ArrayUnionPhoto(project, photo));
  }

  /** `deleteDocumentNonBlocking`: an update with the data when the data is
      truthy, a delete of the whole document otherwise. */
  method DeleteDocumentNonBlocking(backend: Backend, doc: DocRef, data: Option<Value>)
    requires backend.Valid()
    modifies backend
    ensures backend.Valid()
    ensures backend.inFlight == old(backend.inFlight)[old(backend.nextTicket) :=
      if data.Some? && Truthy(data.value) then RemoveData(doc, data.value) else DeleteDoc(doc)]
    ensures backend.nextTicket == old(backend.nextTicket) + 1 && backend.committed == old(backend.committed)
  {
    if data.Some? && Truthy(data.value) {
      var _ := backend.Dispatch(RemoveData(doc, data.value));
    } else {
      var _ := backend.Dispatch(DeleteDoc(doc));
    }
  }

  /** The backend settles one write in flight. A rejection runs the helper's
      `.catch`: exactly one event, built from the write's failure context,
      reaches every registered listener, and nothing is committed. An
      acceptance commits the write and emits nothing. */
  method Settle(backend: Backend, emitter: ErrorEmitter, ticket: nat, rejected: bool)
    requires backend.Valid() && ticket in backend.inFlight
    modifies backend, emitter, emitter.handlers
    ensures backend.Valid()
    ensures backend.inFlight == old(backend.inFlight) - {ticket}
    ensures backend.nextTicket == old(backend.nextTicket)
    ensures emitter.handlers == old(emitter.handlers)
    ensures rejected ==>
      var e := NewPermissionError(FailureContext(old(backend.inFlight)[ticket]));
      && backend.committed == old(backend.committed)
      && emitter.emitted == old(emitter.emitted) + [e]
      && forall l :: l in emitter.handlers ==> l.Render() == Throws(e)
    ensures !rejected ==>
      && backend.committed == old(backend.committed) + [old(backend.inFlight)[ticket]]
      && emitter.emitted == old(emitter.emitted)
      && unchanged(emitter.handlers)
  {
    var w := backend.inFlight[ticket];
    backend.inFlight := backend.inFlight - {ticket};
    if rejected {
      emitter.Emit(NewPermissionError(FailureContext(w)));
    } else {
      backend.committed := backend.committed + [w];
    }
  }
}
