/** Error classes of NNTP operations, internal/nntp/errors.go. */
module Errors {
  datatype ErrorType =
    | TypeUnknown | TypeConnection | TypeAuthentication | TypeTimeout | TypeArticleNotFound | TypeGroupNotFound
    | TypePermissionDenied | TypeServerBusy | TypeInvalidCommand | TypeProtocol | TypeYencDecode
    | TypeNoAvailableConnection

  /** An error as `errors.As` sees it: an NNTP error somewhere in its chain, a recovered panic, or neither. */
  datatype Error = Nntp(kind: ErrorType) | Panic | Context | Other

  function Classify(code: int): ErrorType {
    if code == 430 || code == 423 then TypeArticleNotFound
    else if code == 411 then TypeGroupNotFound
    else if code == 502 then TypePermissionDenied
    else if code == 503 then TypeServerBusy
    else if code == 481 || code == 482 then TypeAuthentication
    else if code == 400 then TypeServerBusy
    else if code == 500 || code == 501 then TypeInvalidCommand
    else if code >= 400 then TypeProtocol
    else TypeUnknown
  }

  /** Connection, timeout and busy errors: worth another attempt on a fresh connection. */
  predicate Retriable(e: Error) {
    e.Nntp? && (e.kind == TypeConnection || e.kind == TypeTimeout || e.kind == TypeServerBusy)
  }

  predicate NotFound(e: Error) { e == Nntp(TypeArticleNotFound) }

  /** Which response codes are tried again, which move on to the next provider, and which end the operation. */
  lemma CodesThatGoOn(code: int)
    ensures Retriable(Nntp(Classify(code))) <==> code == 400 || code == 503
    ensures NotFound(Nntp(Classify(code))) <==> code == 423 || code == 430
    ensures Fatal(Nntp(Classify(code))) <==> code !in {400, 503, 423, 430}
  {}

  /** Which codes carry each of the classes that end the operation. */
  lemma CodesThatEnd(code: int)
    ensures Classify(code) == TypeGroupNotFound <==> code == 411
    ensures Classify(code) == TypePermissionDenied <==> code == 502
    ensures Classify(code) == TypeAuthentication <==> code == 481 || code == 482
    ensures Classify(code) == TypeInvalidCommand <==> code == 500 || code == 501
    ensures Classify(code) == TypeUnknown <==> code < 400
    ensures Classify(code) !in {TypeConnection, TypeTimeout, TypeYencDecode, TypeNoAvailableConnection}
  {}

  /** An error that ends the whole operation; any other moves on to the next provider. */
  predicate Fatal(e: Error) { !Retriable(e) && !NotFound(e) && e != Panic }
}
