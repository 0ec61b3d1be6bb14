/** ExceptionHandler of middleware.go: runs the rest of the handler chain
    and, if it panicked, maps the recovered value to a failure response and
    aborts with that response's code. */
module Middleware {
  import opened Exceptions
  import Logging

  /** models.Response. */
  datatype Response = Response(success: bool, message: string, responseCode: int, data: Value, error: Value)

  /** What the middleware leaves behind: the chain ran to completion, the
      request was aborted with a status and body after logging (err, msg), or
      logger.Error itself panicked inside the deferred function, so nothing
      was sent. */
  datatype Handled =
    | Passed
    | Aborted(status: int, body: Response, logErr: Value, logMsg: Value)
    | Repanicked(p: Panic)

  /** How the rest of the chain (c.Next()) ended. */
  datatype Chain = Completed | PanickedWith(p: Panic)

  function ExceptionHandler(chain: Chain): (h: Handled)
    ensures chain.Completed? <==> h.Passed?
    ensures h.Repanicked? <==>
      chain.PanickedWith? && chain.p.Custom? && chain.p.ce.err == Nil && chain.p.ce.errorMsg == Text("")
    ensures h.Repanicked? ==> h.p == Logging.NilDereference
    ensures h.Aborted? ==>
      h.body.success == false && h.body.message == "fail" && h.body.data == Nil
      && h.status == h.body.responseCode
    ensures chain.PanickedWith? && chain.p.Custom? && !h.Repanicked? ==>
      h.Aborted? && h.status == chain.p.ce.statusCode && h.body.error == chain.p.ce.errorMsg
      && h.logErr == chain.p.ce.err && h.logMsg == chain.p.ce.errorMsg
    ensures chain.PanickedWith? && chain.p.Other? ==>
      h.Aborted? && h.status == 500 && h.body.error == Nil && h.logErr == Nil && h.logMsg == Nil
  {
    match chain
    case Completed => Passed
    case PanickedWith(p) =>
      var (errCode, err, errMsg) :=
        if p.Custom? then (p.ce.statusCode, p.ce.err, p.ce.errorMsg) else (500, Nil, Nil);
      var resp := Response(false, "fail", errCode, Nil, errMsg);
      var logged := Logging.LoggedMessage(err, errMsg);
      if logged.Panicked? then Repanicked(logged.p)
      else Aborted(errCode, resp, err, errMsg)
  }

  /** Raising and recovering: each raiser's status reaches the client
      together with the raised message. */
  lemma RaiseThenRecover(m: Value)
    ensures ExceptionHandler(PanickedWith(BadRequest(m)))
         == Aborted(400, Response(false, "fail", 400, Nil, m), Fault("Bad Request"), m)
    ensures ExceptionHandler(PanickedWith(NotFoundError(m)))
         == Aborted(404, Response(false, "fail", 404, Nil, m), Fault("Not Found Error"), m)
    ensures ExceptionHandler(PanickedWith(InternalServerError(m)))
         == Aborted(500, Response(false, "fail", 500, Nil, m), Fault("Internal Server Error"), m)
  {
  }

  /** The recovered response depends on the panic only through its status
      code and message; a non-empty message is always answered. */
  lemma ResponseDeterminedByCustomError(c1: CustomError, c2: CustomError)
    requires c1.statusCode == c2.statusCode && c1.errorMsg == c2.errorMsg
    ensures c1.errorMsg != Text("") ==>
      ExceptionHandler(PanickedWith(Custom(c1))).Aborted? && ExceptionHandler(PanickedWith(Custom(c2))).Aborted?
    ensures ExceptionHandler(PanickedWith(Custom(c1))).Aborted? && ExceptionHandler(PanickedWith(Custom(c2))).Aborted? ==>
      ExceptionHandler(PanickedWith(Custom(c1))).body == ExceptionHandler(PanickedWith(Custom(c2))).body
  {
  }
}
