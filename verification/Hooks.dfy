/** The hooks of the query handler.  The uncached one-shot query (`QueryHandler.ServeHTTP`) and one
    poll of a live query (`handleLiveQueryEvent`) are two separate pieces of code that make the same
    calls in the same order.  Each is specified and modelled from its own lines; then the two
    specifications are compared. */
module Hooks {
  import opened Wrappers

  datatype HooksConfig = HooksConfig(
    preResolve: bool,
    mutatingPreResolve: bool,
    customResolve: bool,
    postResolve: bool,
    mutatingPostResolve: bool)

  datatype Stage =
    | PreResolve | MutatingPreResolve | CustomResolve
    | Resolve | Transform
    | PostResolve | MutatingPostResolve
    | Finish

  /** What `errors.Is` tells apart. */
  datatype Error = Canceled | DeadlineExceeded | OtherError

  /** `hookBaseData`: variables of at most two characters and an empty response are not sent. */
  datatype HookData = HookData(input: Option<string>, response: Option<string>)

  function HookBaseData(variables: string, response: string): HookData {
    HookData(if |variables| > 2 then Some(variables) else None, if response != "" then Some(response) else None)
  }

  /** The calls that leave the handler. */
  datatype Call =
    | HookCall(stage: Stage, data: HookData, headers: string)
    | ResolverCall(variables: string, headers: string)

  /** All calls so far, the last one outermost. */
  datatype Calls = NoCalls | Then(before: Calls, call: Call)

  datatype HookOut = HookOut(response: string, input: string, headers: string)

  /** What `DoOperationRequest` returns. */
  datatype HookReply = HookReply(out: Option<HookOut>, err: Option<Error>)

  /** What the resolver writes, and its error. */
  datatype Resolution = Resolution(written: string, err: Option<Error>)

  /** Everything outside the handler.  A reply may depend on all calls so far. */
  datatype Env = Env(
    hook: Calls -> HookReply,
    resolve: Calls -> Resolution,
    transform: string -> Result<string, Error>)

  /** The request context, the buffer or what was made of it, and the calls so far.  No headers
      are "". */
  datatype Ctx = Ctx(variables: string, headers: string, body: string, trace: Calls)

  datatype Step<R> = Go(ctx: Ctx) | Stop(end: R)

  function HookCalled(c: Ctx, stage: Stage, response: string): Ctx {
    c.(trace := Then(c.trace, HookCall(stage, HookBaseData(c.variables, response), c.headers)))
  }

  function ResolverCalled(c: Ctx): Ctx {
    c.(trace := Then(c.trace, ResolverCall(c.variables, c.headers)))
  }

  /** `updateContextHeaders`: an empty set of headers leaves the ones there are. */
  function Updated(headers: string, requested: string): string {
    if requested == "" then headers else requested
  }

  // The order of the stages

  predicate Runs(h: HooksConfig, stage: Stage) {
    match stage
    case PreResolve => h.preResolve
    case MutatingPreResolve => h.mutatingPreResolve
    case CustomResolve => h.customResolve
    case PostResolve => h.postResolve
    case MutatingPostResolve => h.mutatingPostResolve
    case _ => true
  }

  function Next(stage: Stage): Stage {
    match stage
    case PreResolve => MutatingPreResolve
    case MutatingPreResolve => CustomResolve
    case CustomResolve => Resolve
    case Resolve => Transform
    case Transform => PostResolve
    case PostResolve => MutatingPostResolve
    case MutatingPostResolve => Finish
    case Finish => Finish
  }

  function Left(stage: Stage): nat {
    match stage
    case PreResolve => 7
    case MutatingPreResolve => 6
    case CustomResolve => 5
    case Resolve => 4
    case Transform => 3
    case PostResolve => 2
    case MutatingPostResolve => 1
    case Finish => 0
  }

  // The one-shot query

  /** How a part of the handler ends: it goes on, has answered, or has failed at a stage. */
  datatype Exit = Continues | Answers | Fails(stage: Stage)

  /** The exit of the handler, what it has written to the client, and its calls. */
  datatype OneShotEnd = OneShotEnd(exit: Exit, status: int, body: string, trace: Calls)

  function StatusOf(e: Error): int {
    match e
    case Canceled => 499
    case DeadlineExceeded => 504
    case OtherError => 500
  }

  function Failed(stage: Stage, e: Error, message: string, c: Ctx): Step<OneShotEnd> {
    Stop(OneShotEnd(Fails(stage), StatusOf(e), if e.OtherError? then message + "\n" else "", c.trace))
  }

  function NoHookOut(stage: Stage, message: string, c: Ctx): Step<OneShotEnd> {
    Stop(OneShotEnd(Fails(stage), 500, message + "\n", c.trace))
  }

  /** A hook whose answer must not be nil and may set headers; `c` has made the call. */
  function OneShotHook(env: Env, c: Ctx, stage: Stage, message: string): Step<OneShotEnd> {
    var reply := env.hook(c.trace);
    if reply.err.Some? then Failed(stage, reply.err.value, message, c)
    else
      match reply.out
      case None => NoHookOut(stage, "Internal Server Error", c)
      case Some(out) => Go(c.(headers := Updated(c.headers, out.headers)))
  }

  function OneShotStage(env: Env, c: Ctx, stage: Stage): Step<OneShotEnd>
    requires stage != Finish
  {
    match stage
    case PreResolve => OneShotHook(env, HookCalled(c, stage, ""), stage, "preResolve hook failed")
    case MutatingPreResolve => OneShotHook(env, HookCalled(c, stage, ""), stage, "mutatingPreResolve hook failed")
    case CustomResolve => OneShotCustom(env, HookCalled(c, stage, ""))
    case Resolve => OneShotResolved(env, ResolverCalled(c))
    case Transform =>
      (match env.transform(c.body)
       case Ok(body) => Go(c.(body := body))
       case Err(e) => Failed(Transform, e, "postResolveTransformer failed", c))
    case PostResolve => OneShotPosted(env, HookCalled(c, stage, c.body))
    case MutatingPostResolve => OneShotRewritten(env, HookCalled(c, stage, c.body))
  }

  /** Any response but "null" is the answer. */
  function OneShotCustom(env: Env, c: Ctx): Step<OneShotEnd> {
    var reply := env.hook(c.trace);
    if reply.err.Some? then Failed(CustomResolve, reply.err.value, "customResolve hook failed", c)
    else
      match reply.out
      case None => NoHookOut(CustomResolve, "Internal Server Error", c)
      case Some(out) =>
        if out.response != "null" then Stop(OneShotEnd(Answers, 200, out.response, c.trace))
        else Go(c.(headers := Updated(c.headers, out.headers)))
  }

  /** The resolver writes behind what is in the buffer. */
  function OneShotResolved(env: Env, c: Ctx): Step<OneShotEnd> {
    var r := env.resolve(c.trace);
    match r.err
    case Some(e) => Failed(Resolve, e, "ResolveGraphQLResponse failed", c)
    case None => Go(c.(body := c.body + r.written))
  }

  function OneShotPosted(env: Env, c: Ctx): Step<OneShotEnd> {
    match env.hook(c.trace).err
    case Some(e) => Failed(PostResolve, e, "postResolve hook failed", c)
    case None => Go(c)
  }

  function OneShotRewritten(env: Env, c: Ctx): Step<OneShotEnd> {
    var reply := env.hook(c.trace);
    if reply.err.Some? then Failed(MutatingPostResolve, reply.err.value, "mutatingPostResolve hook failed", c)
    else
      match reply.out
      case None => NoHookOut(MutatingPostResolve, "MutatingPostResolve query hook response is empty", c)
      case Some(out) => Go(c.(body := out.response))
  }

  /** The handler from `stage` on. */
  function OneShotFrom(env: Env, h: HooksConfig, c: Ctx, stage: Stage): OneShotEnd
    decreases Left(stage)
  {
    if stage == Finish then OneShotEnd(Answers, 200, c.body, c.trace)
    else if !Runs(h, stage) then OneShotFrom(env, h, c, Next(stage))
    else
      match OneShotStage(env, c, stage)
      case Stop(end) => end
      case Go(d) => OneShotFrom(env, h, d, Next(stage))
  }

  // The live query

  /** The error of a poll: the stage its message names, and the error it wraps, if any. */
  datatype LiveError = LiveError(stage: Stage, cause: Option<Error>)

  datatype LiveEnd = LiveEnd(response: string, err: Option<LiveError>, trace: Calls)

  function Erred(stage: Stage, cause: Option<Error>, c: Ctx): Step<LiveEnd> {
    Stop(LiveEnd("", Some(LiveError(stage, cause)), c.trace))
  }

  function LiveStage(env: Env, c: Ctx, stage: Stage): Step<LiveEnd>
    requires stage != Finish
  {
    match stage
    case PreResolve => LivePre(env, HookCalled(c, stage, ""))
    case MutatingPreResolve => LiveMutatingPre(env, HookCalled(c, stage, ""))
    case CustomResolve => LiveCustom(env, HookCalled(c, stage, ""))
    case Resolve => LiveResolved(env, ResolverCalled(c.(body := "")))
    case Transform => LiveTransformed(env, c)
    case PostResolve =>
      var d := HookCalled(c, stage, c.body);
      if env.hook(d.trace).err.Some? then Erred(PostResolve, env.hook(d.trace).err, d) else Go(d)
    case MutatingPostResolve => LiveRewritten(env, HookCalled(c, stage, c.body))
  }

  function LivePre(env: Env, c: Ctx): Step<LiveEnd> {
    match env.hook(c.trace)
    case HookReply(_, Some(e)) => Erred(PreResolve, Some(e), c)
    case HookReply(Some(out), None) => Go(c.(headers := Updated(c.headers, out.headers)))
    case HookReply(None, None) => Erred(PreResolve, None, c)
  }

  /** The returned input replaces the variables; a nil answer is passed over. */
  function LiveMutatingPre(env: Env, c: Ctx): Step<LiveEnd> {
    match env.hook(c.trace)
    case HookReply(_, Some(e)) => Erred(MutatingPreResolve, Some(e), c)
    case HookReply(Some(out), None) =>
      Go(c.(variables := out.input, headers := Updated(c.headers, out.headers)))
    case HookReply(None, None) => Go(c)
  }

  function LiveCustom(env: Env, c: Ctx): Step<LiveEnd> {
    match env.hook(c.trace)
    case HookReply(_, Some(e)) => Erred(CustomResolve, Some(e), c)
    case HookReply(None, None) => Erred(CustomResolve, None, c)
    case HookReply(Some(out), None) =>
      if out.response != "null" then Stop(LiveEnd(out.response, None, c.trace))
      else Go(c.(headers := Updated(c.headers, out.headers)))
  }

  function LiveResolved(env: Env, c: Ctx): Step<LiveEnd> {
    match env.resolve(c.trace)
    case Resolution(_, Some(e)) => Erred(Resolve, Some(e), c)
    case Resolution(written, None) => Go(c.(body := c.body + written))
  }

  function LiveTransformed(env: Env, c: Ctx): Step<LiveEnd> {
    match env.transform(c.body)
    case Err(e) => Erred(Transform, Some(e), c)
    case Ok(body) => Go(c.(body := body))
  }

  function LiveRewritten(env: Env, c: Ctx): Step<LiveEnd> {
    match env.hook(c.trace)
    case HookReply(_, Some(e)) => Erred(MutatingPostResolve, Some(e), c)
    case HookReply(None, None) => Erred(MutatingPostResolve, None, c)
    case HookReply(Some(out), None) => Go(c.(body := out.response))
  }

  /** One poll from `stage` on. */
  function LiveFrom(env: Env, h: HooksConfig, c: Ctx, stage: Stage): LiveEnd
    decreases Left(stage)
  {
    if stage == Finish then LiveEnd(c.body, None, c.trace)
    else if !Runs(h, stage) then LiveFrom(env, h, c, Next(stage))
    else
      match LiveStage(env, c, stage)
      case Stop(end) => end
      case Go(d) => LiveFrom(env, h, d, Next(stage))
  }

  // Equivalence

  /** The same calls, and either the same body, or a failure at the same stage with the status that
      belongs to the error the poll returns. */
  predicate Same(o: OneShotEnd, l: LiveEnd) {
    && o.trace == l.trace
    && match l.err
       case None => o.exit == Answers && o.status == 200 && o.body == l.response
       case Some(e) => o.exit == Fails(e.stage) && o.status == if e.cause.Some? then StatusOf(e.cause.value) else 500
  }

  predicate UpToResolver(stage: Stage) {
    Left(stage) >= Left(Resolve)
  }

  /** The one-shot handler comes with an empty buffer; the buffer of a live query holds what the
      last poll left. */
  predicate Alike(c: Ctx, d: Ctx, stage: Stage) {
    && c.variables == d.variables && c.headers == d.headers && c.trace == d.trace
    && if UpToResolver(stage) then c.body == "" else c.body == d.body
  }

  /** Two steps that stop in the same way, or go on alike. */
  predicate SameStep(o: Step<OneShotEnd>, l: Step<LiveEnd>, next: Stage) {
    match (o, l)
    case (Stop(end), Stop(end')) => Same(end, end')
    case (Go(c), Go(d)) => Alike(c, d, next)
    case _ => false
  }

  lemma HooksBeforeAgree(env: Env, c: Ctx, d: Ctx, stage: Stage)
    requires (stage == PreResolve || stage == CustomResolve) && Alike(c, d, stage)
    ensures SameStep(OneShotStage(env, c, stage), LiveStage(env, d, stage), Next(stage))
  {
  }

  lemma ResolverAgrees(env: Env, c: Ctx, d: Ctx, stage: Stage)
    requires (stage == Resolve || stage == Transform) && Alike(c, d, stage)
    ensures SameStep(OneShotStage(env, c, stage), LiveStage(env, d, stage), Next(stage))
  {
  }

  lemma PostResolveAgrees(env: Env, c: Ctx, d: Ctx)
    requires Alike(c, d, PostResolve)
    ensures SameStep(OneShotStage(env, c, PostResolve), LiveStage(env, d, PostResolve), MutatingPostResolve)
  {
  }

  lemma MutatingPostResolveAgrees(env: Env, c: Ctx, d: Ctx)
    requires Alike(c, d, MutatingPostResolve)
    ensures SameStep(OneShotStage(env, c, MutatingPostResolve), LiveStage(env, d, MutatingPostResolve), Finish)
  {
  }

  /** The two handlers agree on every stage but mutatingPreResolve. */
  lemma StageAgrees(env: Env, c: Ctx, d: Ctx, stage: Stage)
    requires stage != Finish && stage != MutatingPreResolve && Alike(c, d, stage)
    ensures SameStep(OneShotStage(env, c, stage), LiveStage(env, d, stage), Next(stage))
  {
    match stage
    case PreResolve => HooksBeforeAgree(env, c, d, stage);
    case CustomResolve => HooksBeforeAgree(env, c, d, stage);
    case Resolve => ResolverAgrees(env, c, d, stage);
    case Transform => ResolverAgrees(env, c, d, stage);
    case PostResolve => PostResolveAgrees(env, c, d);
    case MutatingPostResolve => MutatingPostResolveAgrees(env, c, d);
  }

  lemma {:induction false} AgreeFrom(env: Env, h: HooksConfig, c: Ctx, d: Ctx, stage: Stage)
    requires !h.mutatingPreResolve && Alike(c, d, stage)
    ensures Same(OneShotFrom(env, h, c, stage), LiveFrom(env, h, d, stage))
    decreases Left(stage)
  {
    if stage != Finish {
      if !Runs(h, stage) {
        AgreeFrom(env, h, c, d, Next(stage));
      } else {
        StageAgrees(env, c, d, stage);
        if OneShotStage(env, c, stage).Go? {
          AgreeFrom(env, h, OneShotStage(env, c, stage).ctx, LiveStage(env, d, stage).ctx, Next(stage));
        }
      }
    }
  }

  /** The hooks client as it is: without an error there is an answer. */
  ghost predicate AlwaysAnswers(env: Env) {
    forall trace :: env.hook(trace).err.None? ==> env.hook(trace).out.Some?
  }

  /** In every environment, with that client or any, whatever a last poll left in the buffer. */
  ghost predicate HandlersAgree(h: HooksConfig, anyClient: bool) {
    forall env: Env, variables, headers, leftover :: anyClient || AlwaysAnswers(env) ==>
      Same(OneShotFrom(env, h, Ctx(variables, headers, "", NoCalls), PreResolve),
           LiveFrom(env, h, Ctx(variables, headers, leftover, NoCalls), PreResolve))
  }

  /** Hooks that return "x" as the input, and a resolver that fails. */
  function Rewriting(): Env {
    Env(_ => HookReply(Some(HookOut("null", "x", "")), None),
        _ => Resolution("", Some(OtherError)),
        body => Ok(body))
  }

  predicate ResolvedWith(trace: Calls, variables: string) {
    trace.Then? && trace.call.ResolverCall? && trace.call.variables == variables
  }

  lemma {:induction false} OneShotKeepsVariables(h: HooksConfig, c: Ctx, stage: Stage)
    requires UpToResolver(stage)
    ensures ResolvedWith(OneShotFrom(Rewriting(), h, c, stage).trace, c.variables)
    decreases Left(stage)
  {
    if stage != Resolve {
      var d := if Runs(h, stage) then OneShotStage(Rewriting(), c, stage).ctx else c;
      OneShotKeepsVariables(h, d, Next(stage));
    }
  }

  lemma {:induction false} LiveTakesInput(h: HooksConfig, c: Ctx, stage: Stage)
    requires UpToResolver(stage) && h.mutatingPreResolve
    requires Left(stage) < Left(MutatingPreResolve) ==> c.variables == "x"
    ensures ResolvedWith(LiveFrom(Rewriting(), h, c, stage).trace, "x")
    decreases Left(stage)
  {
    if stage != Resolve {
      var d := if Runs(h, stage) then LiveStage(Rewriting(), c, stage).ctx else c;
      LiveTakesInput(h, d, Next(stage));
    }
  }

  /** The two handlers make the same calls and end in the same way, for every environment and every
      request, exactly when mutatingPreResolve is off.  It makes no difference to this that the
      hooks client never returns a nil answer. */
  lemma HandlersAgreeExactly(h: HooksConfig, anyClient: bool)
    ensures HandlersAgree(h, anyClient) <==> !h.mutatingPreResolve
  {
    if h.mutatingPreResolve {
      var c := Ctx("", "", "", NoCalls);
      OneShotKeepsVariables(h, c, PreResolve);
      LiveTakesInput(h, c, PreResolve);
      assert AlwaysAnswers(Rewriting());
      assert !Same(OneShotFrom(Rewriting(), h, c, PreResolve), LiveFrom(Rewriting(), h, c, PreResolve));
    } else {
      forall env: Env, variables, headers, leftover
        ensures Same(OneShotFrom(env, h, Ctx(variables, headers, "", NoCalls), PreResolve),
                     LiveFrom(env, h, Ctx(variables, headers, leftover, NoCalls), PreResolve))
      {
        AgreeFrom(env, h, Ctx(variables, headers, "", NoCalls), Ctx(variables, headers, leftover, NoCalls), PreResolve);
      }
    }
  }
}
