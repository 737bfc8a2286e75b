/** The code of the two query handlers, each from its own lines. */
module HookHandlers {
  import opened Wrappers
  import opened Hooks
  import opened HookRuns

  // What both handlers call

  class Context {
    var variables: string
    var headers: string
    var trace: Calls

    function Value(body: string): Ctx
      reads this
    {
      Ctx(variables, headers, body, trace)
    }

    constructor (variables: string, headers: string)
      ensures Value("") == Ctx(variables, headers, "", NoCalls)
    {
      this.variables := variables;
      this.headers := headers;
      this.trace := NoCalls;
    }

    /** `hookBaseData` and `DoOperationRequest` */
    method DoOperationRequest(env: Env, stage: Stage, response: string)
      returns (out: Option<HookOut>, err: Option<Error>)
      modifies this`trace
      ensures forall body :: Value(body) == HookCalled(old(Value(body)), stage, response)
      ensures HookReply(out, err) == env.hook(trace)
    {
      trace := Then(trace, HookCall(stage, HookBaseData(variables, response), headers));
      var reply := env.hook(trace);
      return reply.out, reply.err;
    }

    /** `updateContextHeaders` */
    method UpdateHeaders(requested: string)
      modifies this`headers
      ensures headers == Updated(old(headers), requested)
    {
      if requested == "" {
        return;
      }
      headers := requested;
    }
  }

  class Buffer {
    var data: string

    method Reset()
      modifies this
      ensures data == ""
    {
      data := "";
    }
  }

  /** `ResolveGraphQLResponse` writes into the buffer, also when it fails. */
  method ResolveGraphQLResponse(env: Env, ctx: Context, buf: Buffer) returns (err: Option<Error>)
    modifies ctx`trace, buf
    ensures forall body :: ctx.Value(body) == ResolverCalled(old(ctx.Value(body)))
    ensures buf.data == old(buf.data) + env.resolve(ctx.trace).written && err == env.resolve(ctx.trace).err
  {
    ctx.trace := Then(ctx.trace, ResolverCall(ctx.variables, ctx.headers));
    var resolution := env.resolve(ctx.trace);
    buf.data := buf.data + resolution.written;
    return resolution.err;
  }

  // The one-shot handler

  class ResponseWriter {
    var status: int
    var body: string

    predicate Untouched()
      reads this
    {
      status == 200 && body == ""
    }

    constructor ()
      ensures Untouched()
    {
      status, body := 200, "";
    }

    method WriteHeader(code: int)
      modifies this`status
      ensures status == code
    {
      status := code;
    }

    method Write(text: string)
      modifies this`body
      ensures body == old(body) + text
    {
      body := body + text;
    }

    /** `http.Error` */
    method Error(message: string, code: int)
      modifies this
      ensures status == code && body == old(body) + (message + "\n")
    {
      WriteHeader(code);
      Write(message + "\n");
    }
  }

  /** `handleOperationErr` */
  method HandleOperationErr(err: Option<Error>, w: ResponseWriter, message: string) returns (done: bool)
    requires w.Untouched()
    modifies w
    ensures done <==> err.Some?
    ensures !done ==> w.Untouched()
    ensures done ==> w.status == StatusOf(err.value) && w.body == if err.value.OtherError? then message + "\n" else ""
  {
    if err.None? {
      return false;
    }
    if err.value == Canceled {
      w.WriteHeader(499);
      return true;
    }
    if err.value == DeadlineExceeded {
      w.WriteHeader(504);
      return true;
    }
    w.Error(message, 500);
    return true;
  }

  /** `handleHookOut` */
  method HandleHookOut(ctx: Context, w: ResponseWriter, out: Option<HookOut>) returns (done: bool)
    requires w.Untouched()
    modifies ctx`headers, w
    ensures done <==> out.None?
    ensures done ==> w.status == 500 && w.body == "Internal Server Error\n" && ctx.headers == old(ctx.headers)
    ensures !done ==> w.Untouched() && ctx.headers == Updated(old(ctx.headers), out.value.headers)
  {
    if out.None? {
      w.Error("Internal Server Error", 500);
      return true;
    }
    ctx.UpdateHeaders(out.value.headers);
    return false;
  }

  /** What the handler has come to when it leaves: `exit`, the response, the calls. */
  function Ended(exit: Exit, w: ResponseWriter, ctx: Context): OneShotEnd
    reads w, ctx
  {
    OneShotEnd(exit, w.status, w.body, ctx.trace)
  }

  method OneShotPreResolve(env: Env, h: HooksConfig, ctx: Context, w: ResponseWriter, ghost body: string)
    returns (exit: Exit)
    requires w.Untouched()
    modifies ctx, w
    ensures exit.Continues? ==> w.Untouched()
    ensures exit.Continues? ==>
      OneShotFrom(env, h, old(ctx.Value(body)), PreResolve) == OneShotFrom(env, h, ctx.Value(body), MutatingPreResolve)
    ensures !exit.Continues? ==> OneShotFrom(env, h, old(ctx.Value(body)), PreResolve) == Ended(exit, w, ctx)
  {
    if h.preResolve {
      var out, err := ctx.DoOperationRequest(env, PreResolve, "");
      var done := HandleOperationErr(err, w, "preResolve hook failed");
      if done {
        return Fails(PreResolve);
      }
      done := HandleHookOut(ctx, w, out);
      if done {
        return Fails(PreResolve);
      }
    }
    return Continues;
  }

  method OneShotMutatingPreResolve(env: Env, h: HooksConfig, ctx: Context, w: ResponseWriter, ghost body: string)
    returns (exit: Exit)
    requires w.Untouched()
    modifies ctx, w
    ensures exit.Continues? ==> w.Untouched()
    ensures exit.Continues? ==>
      OneShotFrom(env, h, old(ctx.Value(body)), MutatingPreResolve)
      == OneShotFrom(env, h, ctx.Value(body), CustomResolve)
    ensures !exit.Continues? ==> OneShotFrom(env, h, old(ctx.Value(body)), MutatingPreResolve) == Ended(exit, w, ctx)
  {
    if h.mutatingPreResolve {
      var out, err := ctx.DoOperationRequest(env, MutatingPreResolve, "");
      var done := HandleOperationErr(err, w, "mutatingPreResolve hook failed");
      if done {
        return Fails(MutatingPreResolve);
      }
      done := HandleHookOut(ctx, w, out);
      if done {
        return Fails(MutatingPreResolve);
      }
    }
    return Continues;
  }

  method OneShotCustomResolve(env: Env, h: HooksConfig, ctx: Context, w: ResponseWriter, ghost body: string)
    returns (exit: Exit)
    requires w.Untouched()
    modifies ctx, w
    ensures exit.Continues? ==> w.Untouched()
    ensures exit.Continues? ==>
      OneShotFrom(env, h, old(ctx.Value(body)), CustomResolve) == OneShotFrom(env, h, ctx.Value(body), Resolve)
    ensures !exit.Continues? ==> OneShotFrom(env, h, old(ctx.Value(body)), CustomResolve) == Ended(exit, w, ctx)
  {
    if h.customResolve {
      var out, err := ctx.DoOperationRequest(env, CustomResolve, "");
      var done := HandleOperationErr(err, w, "customResolve hook failed");
      if done {
        return Fails(CustomResolve);
      }
      done := HandleHookOut(ctx, w, out);
      if done {
        return Fails(CustomResolve);
      }
      if out.value.response != "null" {
        w.Write(out.value.response);
        return Answers;
      }
    }
    return Continues;
  }

  method OneShotResolve(env: Env, h: HooksConfig, ctx: Context, buf: Buffer, w: ResponseWriter)
    returns (exit: Exit, transformed: string)
    requires w.Untouched()
    modifies ctx, buf, w
    ensures exit.Continues? ==> w.Untouched()
    ensures exit.Continues? ==>
      OneShotFrom(env, h, old(ctx.Value(buf.data)), Resolve) == OneShotFrom(env, h, ctx.Value(transformed), PostResolve)
    ensures !exit.Continues? ==> OneShotFrom(env, h, old(ctx.Value(buf.data)), Resolve) == Ended(exit, w, ctx)
  {
    ghost var c := ctx.Value(buf.data);
    var err := ResolveGraphQLResponse(env, ctx, buf);
    var done := HandleOperationErr(err, w, "ResolveGraphQLResponse failed");
    if done {
      return Fails(Resolve), "";
    }
    assert OneShotFrom(env, h, c, Resolve) == OneShotFrom(env, h, ctx.Value(buf.data), Transform);
    match env.transform(buf.data) {
      case Err(e) =>
        done := HandleOperationErr(Some(e), w, "postResolveTransformer failed");
        return Fails(Transform), "";
      case Ok(body) =>
        return Continues, body;
    }
  }

  method OneShotPostResolve(env: Env, h: HooksConfig, ctx: Context, w: ResponseWriter, transformed: string)
    returns (exit: Exit)
    requires w.Untouched()
    modifies ctx, w
    ensures exit.Continues? ==> w.Untouched()
    ensures exit.Continues? ==>
      OneShotFrom(env, h, old(ctx.Value(transformed)), PostResolve)
      == OneShotFrom(env, h, ctx.Value(transformed), MutatingPostResolve)
    ensures !exit.Continues? ==> OneShotFrom(env, h, old(ctx.Value(transformed)), PostResolve) == Ended(exit, w, ctx)
  {
    if h.postResolve {
      var _, err := ctx.DoOperationRequest(env, PostResolve, transformed);
      var done := HandleOperationErr(err, w, "postResolve hook failed");
      if done {
        return Fails(PostResolve);
      }
    }
    return Continues;
  }

  method OneShotMutatingPostResolve(env: Env, h: HooksConfig, ctx: Context, w: ResponseWriter, transformed: string)
    returns (exit: Exit)
    requires w.Untouched()
    modifies ctx, w
    ensures OneShotFrom(env, h, old(ctx.Value(transformed)), MutatingPostResolve) == Ended(exit, w, ctx)
  {
    var response := transformed;
    if h.mutatingPostResolve {
      var out, err := ctx.DoOperationRequest(env, MutatingPostResolve, transformed);
      var done := HandleOperationErr(err, w, "mutatingPostResolve hook failed");
      if done {
        return Fails(MutatingPostResolve);
      }
      if out.None? {
        w.Error("MutatingPostResolve query hook response is empty", 500);
        return Fails(MutatingPostResolve);
      }
      response := out.value.response;
    }
    w.Write(response);
    return Answers;
  }

  /** `QueryHandler.ServeHTTP` from the hooks on, with the cache off. */
  method ServeOneShot(env: Env, h: HooksConfig, ctx: Context, buf: Buffer, w: ResponseWriter) returns (exit: Exit)
    requires w.Untouched()
    modifies ctx, buf, w
    ensures OneShotFrom(env, h, old(ctx.Value(buf.data)), PreResolve) == Ended(exit, w, ctx)
    ensures old(ctx.trace) == NoCalls && old(buf.data) == "" ==>
      OneShotFits(env, h, Enabled(h), old(ctx.variables), old(ctx.headers), Ended(exit, w, ctx))
  {
    OneShotRuns(env, h, ctx.variables, ctx.headers);
    exit := OneShotPreResolve(env, h, ctx, w, buf.data);
    if !exit.Continues? {
      return;
    }
    exit := OneShotMutatingPreResolve(env, h, ctx, w, buf.data);
    if !exit.Continues? {
      return;
    }
    exit := OneShotCustomResolve(env, h, ctx, w, buf.data);
    if !exit.Continues? {
      return;
    }
    var transformed;
    exit, transformed := OneShotResolve(env, h, ctx, buf, w);
    if !exit.Continues? {
      return;
    }
    exit := OneShotPostResolve(env, h, ctx, w, transformed);
    if !exit.Continues? {
      return;
    }
    exit := OneShotMutatingPostResolve(env, h, ctx, w, transformed);
  }

  // The live query handler

  /** A part of `handleLiveQueryEvent` returns its two results, or nothing when it falls through. */
  type Returned = Option<(string, Option<LiveError>)>

  function NilAnd(stage: Stage, cause: Option<Error>): Returned {
    Some(("", Some(LiveError(stage, cause))))
  }

  method LivePreResolve(env: Env, h: HooksConfig, ctx: Context, ghost body: string) returns (r: Returned)
    modifies ctx
    ensures r.None? ==>
      LiveFrom(env, h, old(ctx.Value(body)), PreResolve) == LiveFrom(env, h, ctx.Value(body), MutatingPreResolve)
    ensures r.Some? ==>
      LiveFrom(env, h, old(ctx.Value(body)), PreResolve) == LiveEnd(r.value.0, r.value.1, ctx.trace)
  {
    if h.preResolve {
      var out, err := ctx.DoOperationRequest(env, PreResolve, "");
      if err.Some? {
        return NilAnd(PreResolve, err);
      }
      if out.Some? {
        ctx.UpdateHeaders(out.value.headers);
      } else {
        return NilAnd(PreResolve, None);
      }
    }
    return None;
  }

  method LiveMutatingPreResolve(env: Env, h: HooksConfig, ctx: Context, ghost body: string) returns (r: Returned)
    modifies ctx
    ensures r.None? ==>
      LiveFrom(env, h, old(ctx.Value(body)), MutatingPreResolve) == LiveFrom(env, h, ctx.Value(body), CustomResolve)
    ensures r.Some? ==>
      LiveFrom(env, h, old(ctx.Value(body)), MutatingPreResolve) == LiveEnd(r.value.0, r.value.1, ctx.trace)
  {
    if h.mutatingPreResolve {
      var out, err := ctx.DoOperationRequest(env, MutatingPreResolve, "");
      if err.Some? {
        return NilAnd(MutatingPreResolve, err);
      }
      if out.Some? {
        ctx.variables := out.value.input;
        ctx.UpdateHeaders(out.value.headers);
      }
    }
    return None;
  }

  method LiveCustomResolve(env: Env, h: HooksConfig, ctx: Context, ghost body: string) returns (r: Returned)
    modifies ctx
    ensures r.None? ==>
      LiveFrom(env, h, old(ctx.Value(body)), CustomResolve) == LiveFrom(env, h, ctx.Value(body), Resolve)
    ensures r.Some? ==>
      LiveFrom(env, h, old(ctx.Value(body)), CustomResolve) == LiveEnd(r.value.0, r.value.1, ctx.trace)
  {
    if h.customResolve {
      var out, err := ctx.DoOperationRequest(env, CustomResolve, "");
      if err.Some? {
        return NilAnd(CustomResolve, err);
      }
      if out.Some? {
        ctx.UpdateHeaders(out.value.headers);
      } else {
        return NilAnd(CustomResolve, None);
      }
      if out.value.response != "null" {
        return Some((out.value.response, None));
      }
    }
    return None;
  }

  method LiveResolve(env: Env, h: HooksConfig, ctx: Context, requestBuf: Buffer)
    returns (r: Returned, transformed: string)
    modifies ctx, requestBuf
    ensures r.None? ==>
      LiveFrom(env, h, old(ctx.Value(requestBuf.data)), Resolve)
      == LiveFrom(env, h, ctx.Value(transformed), PostResolve)
    ensures r.Some? ==>
      LiveFrom(env, h, old(ctx.Value(requestBuf.data)), Resolve) == LiveEnd(r.value.0, r.value.1, ctx.trace)
  {
    ghost var c := ctx.Value(requestBuf.data);
    requestBuf.Reset();
    assert ctx.Value(requestBuf.data) == c.(body := "");
    var err := ResolveGraphQLResponse(env, ctx, requestBuf);
    if err.Some? {
      return NilAnd(Resolve, err), "";
    }
    assert LiveFrom(env, h, c, Resolve) == LiveFrom(env, h, ctx.Value(requestBuf.data), Transform);
    var result := env.transform(requestBuf.data);
    if result.Err? {
      return NilAnd(Transform, Some(result.error)), "";
    }
    return None, result.value;
  }

  method LivePostResolve(env: Env, h: HooksConfig, ctx: Context, transformed: string) returns (r: Returned)
    modifies ctx
    ensures r.None? ==>
      LiveFrom(env, h, old(ctx.Value(transformed)), PostResolve)
      == LiveFrom(env, h, ctx.Value(transformed), MutatingPostResolve)
    ensures r.Some? ==>
      LiveFrom(env, h, old(ctx.Value(transformed)), PostResolve) == LiveEnd(r.value.0, r.value.1, ctx.trace)
  {
    if h.postResolve {
      var _, err := ctx.DoOperationRequest(env, PostResolve, transformed);
      if err.Some? {
        return NilAnd(PostResolve, err);
      }
    }
    return None;
  }

  method LiveMutatingPostResolve(env: Env, h: HooksConfig, ctx: Context, transformed: string)
    returns (response: string, err: Option<LiveError>)
    modifies ctx
    ensures LiveFrom(env, h, old(ctx.Value(transformed)), MutatingPostResolve) == LiveEnd(response, err, ctx.trace)
  {
    if h.mutatingPostResolve {
      var out, failed := ctx.DoOperationRequest(env, MutatingPostResolve, transformed);
      if failed.Some? {
        return "", Some(LiveError(MutatingPostResolve, failed));
      }
      if out.None? {
        return "", Some(LiveError(MutatingPostResolve, None));
      }
      return out.value.response, None;
    }
    return transformed, None;
  }

  /** `handleLiveQueryEvent` */
  method HandleLiveQueryEvent(env: Env, h: HooksConfig, ctx: Context, requestBuf: Buffer)
    returns (response: string, err: Option<LiveError>)
    modifies ctx, requestBuf
    ensures LiveFrom(env, h, old(ctx.Value(requestBuf.data)), PreResolve) == LiveEnd(response, err, ctx.trace)
    ensures old(ctx.trace) == NoCalls ==>
      LiveFits(env, h, Enabled(h), old(ctx.variables), old(ctx.headers), LiveEnd(response, err, ctx.trace))
  {
    LiveRuns(env, h, ctx.variables, ctx.headers, requestBuf.data);
    var r := LivePreResolve(env, h, ctx, requestBuf.data);
    if r.Some? {
      return r.value.0, r.value.1;
    }
    r := LiveMutatingPreResolve(env, h, ctx, requestBuf.data);
    if r.Some? {
      return r.value.0, r.value.1;
    }
    r := LiveCustomResolve(env, h, ctx, requestBuf.data);
    if r.Some? {
      return r.value.0, r.value.1;
    }
    var transformed;
    r, transformed := LiveResolve(env, h, ctx, requestBuf);
    if r.Some? {
      return r.value.0, r.value.1;
    }
    r := LivePostResolve(env, h, ctx, transformed);
    if r.Some? {
      return r.value.0, r.value.1;
    }
    response, err := LiveMutatingPostResolve(env, h, ctx, transformed);
  }
}
