/** The permission error raised for a write the security rules refuse
    (src/firebase/errors.ts), with the user lookup it performs
    (src/firebase/auth/get-user.ts). */
module FirestoreErrors {
  import opened Data

  /** The request method. The rule context's type admits the first five;
      `Write` is the value the set helper passes although the type leaves it
      out. */
  datatype Operation = Get | List | Create | Update | Delete | Write

  predicate InRuleContextUnion(op: Operation) {
    op != Write
  }

  datatype User = User(uid: string)

  datatype AuthInstance = AuthInstance(currentUser: Option<User>)

  /** The `auth` variable of get-user.ts: declared, never assigned. */
  const ModuleAuth: Option<AuthInstance> := None

  /** `getUser()`: the current user of `auth` when `auth` is set. Both "no
      auth" (undefined) and "nobody signed in" (null) are `None`, the two
      being treated alike by the only caller. */
  function GetUser(auth: Option<AuthInstance>): (u: Option<User>)
    ensures auth.None? ==> u.None?
  {
    match auth
    case None => None
    case Some(a) => a.currentUser
  }

  /** `request.auth`: the user, or `{ uid: null, token: null }`. */
  datatype RequestAuth = Signed(user: User) | Anonymous

  /** `requestResourceData`: the data of the write, or, for a photo appended
      with `arrayUnion`, the record `{ photos: "arrayUnion(<photo as JSON>)" }`. */
  datatype Payload = Written(data: Value) | ArrayUnionNote(photo: Photo)

  datatype SecurityRuleContext =
    SecurityRuleContext(path: string, operation: Operation, requestResourceData: Option<Payload>)

  /** `cause.context.request`; `requestMethod` is its `method` field. */
  datatype Request =
    Request(auth: RequestAuth, requestMethod: Operation, path: string, resourceData: Option<Payload>)

  datatype PermissionError = PermissionError(name: string, message: string, request: Request)

  const ErrorName: string := "FirestorePermissionError"

  const ErrorMessage: string :=
    "FirestoreError: Missing or insufficient permissions: The following request was denied by Firestore Security Rules:\n    "

  const DocumentsRoot: string := "/databases/(default)/documents/"

  /** The error as built when `getUser` reads `auth`. */
  function NewPermissionErrorWith(context: SecurityRuleContext, auth: Option<AuthInstance>): (e: PermissionError)
    ensures e.name == ErrorName && e.message == ErrorMessage
    ensures e.request.requestMethod == context.operation
    ensures e.request.resourceData == context.requestResourceData
    ensures e.request.auth.Signed? <==> GetUser(auth).Some?
    ensures GetUser(auth).Some? ==> e.request.auth == Signed(GetUser(auth).value)
    ensures e.request.path == DocumentsRoot + context.path
  {
    var requestAuth := match GetUser(auth) case Some(u) => Signed(u) case None => Anonymous;
    PermissionError(ErrorName, ErrorMessage,
      Request(requestAuth, context.operation, DocumentsRoot + context.path, context.requestResourceData))
  }

  /** `new FirestorePermissionError(context)`: the fixed name and message, and
      a request naming the context's operation, its path under the documents
      root and its payload. */
  function NewPermissionError(context: SecurityRuleContext): (e: PermissionError)
    ensures e.name == ErrorName && e.message == ErrorMessage
    ensures e.request.requestMethod == context.operation
    ensures e.request.path == DocumentsRoot + context.path
    ensures e.request.resourceData == context.requestResourceData
  {
    NewPermissionErrorWith(context, ModuleAuth)
  }

  /** Since `auth` is never set, every error reports an anonymous request. */
  lemma AlwaysAnonymous(context: SecurityRuleContext)
    ensures NewPermissionError(context).request.auth == Anonymous
  {
  }

  /** The request path is the documents root followed by the context's path,
      which can be read back by dropping the root. */
  lemma RequestPathRoundTrip(context: SecurityRuleContext)
    ensures |DocumentsRoot| <= |NewPermissionError(context).request.path|
    ensures NewPermissionError(context).request.path[..|DocumentsRoot|] == DocumentsRoot
    ensures NewPermissionError(context).request.path[|DocumentsRoot|..] == context.path
  {
    var p := NewPermissionError(context).request.path;
    assert p == DocumentsRoot + context.path;
  }

  /** The error records its context faithfully: two contexts give the same
      error exactly when they are the same context. */
  lemma ErrorDeterminedByContext(c1: SecurityRuleContext, c2: SecurityRuleContext)
    ensures NewPermissionError(c1) == NewPermissionError(c2) <==> c1 == c2
  {
    if NewPermissionError(c1) == NewPermissionError(c2) {
      RequestPathRoundTrip(c1);
      RequestPathRoundTrip(c2);
    }
  }
}
