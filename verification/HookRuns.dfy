/** What a run of either query handler looks like from outside: the calls it leaves behind, and what
    it makes of the replies.  Nothing here speaks of the stages of the two specifications; they are
    proved to meet these descriptions. */
module HookRuns {
  import opened Wrappers
  import opened Hooks

  // The order of the calls

  function Optional(enabled: bool, stage: Stage): seq<Stage> {
    if enabled then [stage] else []
  }

  /** The calls of a run that gets to its end. */
  function Enabled(h: HooksConfig): seq<Stage> {
    Optional(h.preResolve, PreResolve)
    + Optional(h.mutatingPreResolve, MutatingPreResolve)
    + Optional(h.customResolve, CustomResolve)
    + [Resolve]
    + Optional(h.postResolve, PostResolve)
    + Optional(h.mutatingPostResolve, MutatingPostResolve)
  }

  function StageOf(call: Call): Stage {
    match call
    case HookCall(stage, _, _) => stage
    case ResolverCall(_, _) => Resolve
  }

  function StagesOf(trace: Calls): seq<Stage> {
    match trace
    case NoCalls => []
    case Then(before, call) => StagesOf(before) + [StageOf(call)]
  }

  // Read off the calls and the replies to them

  /** The headers that the hooks before the resolver have set last. */
  function HeadersAfter(env: Env, headers: string, trace: Calls): string {
    match trace
    case NoCalls => headers
    case Then(before, ResolverCall(_, _)) => HeadersAfter(env, headers, before)
    case Then(before, HookCall(stage, _, _)) =>
      var out := env.hook(trace).out;
      if (stage == PreResolve || stage == MutatingPreResolve || stage == CustomResolve)
         && out.Some? && out.value.headers != ""
      then out.value.headers else HeadersAfter(env, headers, before)
  }

  /** The input that mutatingPreResolve has returned, if it has returned one. */
  function InputAfter(env: Env, variables: string, trace: Calls): string {
    match trace
    case NoCalls => variables
    case Then(before, call) =>
      var out := env.hook(trace).out;
      if StageOf(call) == MutatingPreResolve && out.Some? then out.value.input
      else InputAfter(env, variables, before)
  }

  /** The output of the resolver, transformed, once it has been called. */
  function Output(env: Env, trace: Calls): Option<string> {
    match trace
    case NoCalls => None
    case Then(before, HookCall(_, _, _)) => Output(env, before)
    case Then(before, ResolverCall(_, _)) =>
      if env.resolve(trace).err.Some? then None
      else
        match env.transform(env.resolve(trace).written)
        case Err(_) => None
        case Ok(body) => Some(body)
  }

  /** A call carries the variables and the headers of the moment.  A hook gets the variables as its
      input if they are more than "{}", and after the resolver the output unless it is empty. */
  predicate CallFits(call: Call, variables: string, headers: string, output: Option<string>) {
    match call
    case ResolverCall(v, hd) => v == variables && hd == headers
    case HookCall(stage, data, hd) =>
      && hd == headers
      && data.input == (if |variables| > 2 then Some(variables) else None)
      && if stage == PostResolve || stage == MutatingPostResolve
         then output.Some? && data.response == if output.value != "" then output else None
         else data.response == None
  }

  /** The reply to the last call, if there is one, lets the handler go on.  `live`:
      mutatingPreResolve may answer with nothing. */
  predicate Proceeds(env: Env, live: bool, trace: Calls) {
    match trace
    case NoCalls => true
    case Then(_, ResolverCall(_, _)) => Output(env, trace).Some?
    case Then(_, HookCall(stage, _, _)) =>
      var reply := env.hook(trace);
      && reply.err.None?
      && (reply.out.Some? || stage == PostResolve || (live && stage == MutatingPreResolve))
      && (stage == CustomResolve ==> reply.out.value.response == "null")
  }

  /** Every call was made because the replies so far let it be, with the data they led to. */
  predicate Log(env: Env, live: bool, variables: string, headers: string, trace: Calls) {
    match trace
    case NoCalls => true
    case Then(before, call) =>
      && Log(env, live, variables, headers, before) && Proceeds(env, live, before)
      && CallFits(call, if live then InputAfter(env, variables, before) else variables,
                  HeadersAfter(env, headers, before), Output(env, before))
  }

  // How a run ends

  /** The answer is what customResolve returned, if that is not "null".  Otherwise the calls are all
      those of `order`, and it is what mutatingPostResolve returned or, without that hook, the output. */
  predicate Answered(env: Env, h: HooksConfig, order: seq<Stage>, live: bool, trace: Calls, body: string) {
    trace.Then? &&
    var reply := env.hook(trace);
    || (&& StagesOf(trace) <= order && StageOf(trace.call) == CustomResolve
        && reply.err.None? && reply.out.Some? && reply.out.value.response != "null"
        && body == reply.out.value.response)
    || (&& StagesOf(trace) == order && Proceeds(env, live, trace)
        && if h.mutatingPostResolve then reply.out.Some? && body == reply.out.value.response
           else Output(env, trace) == Some(body))
  }

  /** The last call is the one of `stage`, and its reply is the failure: the error `cause`, or
      nothing where the handler needs an answer.  The transformation fails after the resolver. */
  predicate StoppedAt(
    env: Env, order: seq<Stage>, live: bool, trace: Calls, stage: Stage, cause: Option<Error>)
  {
    trace.Then? && StagesOf(trace) <= order &&
    var last := StageOf(trace.call);
    if stage == Resolve then last == Resolve && cause.Some? && env.resolve(trace).err == cause
    else if stage == Transform then
      && last == Resolve && env.resolve(trace).err.None?
      && cause.Some? && env.transform(env.resolve(trace).written) == Err(cause.value)
    else
      && last == stage
      && if cause.Some? then env.hook(trace).err == cause
         else env.hook(trace) == HookReply(None, None)
              && stage != PostResolve && !(live && stage == MutatingPreResolve)
  }

  /** The one-shot query: its variables stay as they are, and the client sees the status. */
  ghost predicate OneShotFits(
    env: Env, h: HooksConfig, order: seq<Stage>, variables: string, headers: string, end: OneShotEnd)
  {
    Log(env, false, variables, headers, end.trace) &&
    match end.exit
    case Continues => false
    case Answers => end.status == 200 && Answered(env, h, order, false, end.trace, end.body)
    case Fails(stage) =>
      || (end.status == 499 && StoppedAt(env, order, false, end.trace, stage, Some(Canceled)))
      || (end.status == 504 && StoppedAt(env, order, false, end.trace, stage, Some(DeadlineExceeded)))
      || (end.status == 500 && StoppedAt(env, order, false, end.trace, stage, Some(OtherError)))
      || (end.status == 500 && StoppedAt(env, order, false, end.trace, stage, None))
  }

  /** The poll of a live query: it takes over the input of mutatingPreResolve, and returns a body or
      an error. */
  ghost predicate LiveFits(
    env: Env, h: HooksConfig, order: seq<Stage>, variables: string, headers: string, end: LiveEnd)
  {
    Log(env, true, variables, headers, end.trace) &&
    match end.err
    case None => Answered(env, h, order, true, end.trace, end.response)
    case Some(e) => end.response == "" && StoppedAt(env, order, true, end.trace, e.stage, e.cause)
  }

  // The specifications meet the descriptions

  /** The calls that have been made when `stage` is reached. */
  function CalledBefore(h: HooksConfig, stage: Stage): seq<Stage>
    decreases 7 - Left(stage)
  {
    match stage
    case PreResolve => []
    case MutatingPreResolve => Optional(h.preResolve, PreResolve)
    case CustomResolve => CalledBefore(h, MutatingPreResolve) + Optional(h.mutatingPreResolve, MutatingPreResolve)
    case Resolve => CalledBefore(h, CustomResolve) + Optional(h.customResolve, CustomResolve)
    case Transform => CalledBefore(h, Resolve) + [Resolve]
    case PostResolve => CalledBefore(h, Transform)
    case MutatingPostResolve => CalledBefore(h, PostResolve) + Optional(h.postResolve, PostResolve)
    case Finish => CalledBefore(h, MutatingPostResolve) + Optional(h.mutatingPostResolve, MutatingPostResolve)
  }

  lemma AllCalled(h: HooksConfig)
    ensures CalledBefore(h, Finish) == Enabled(h)
  {
    var resolved := Optional(h.preResolve, PreResolve) + Optional(h.mutatingPreResolve, MutatingPreResolve)
      + Optional(h.customResolve, CustomResolve) + [Resolve];
    assert CalledBefore(h, Resolve) + [Resolve] == resolved;
    assert CalledBefore(h, PostResolve) == resolved;
  }

  lemma {:induction false} CalledBeforeIsEnabled(h: HooksConfig, stage: Stage)
    ensures CalledBefore(h, stage) <= Enabled(h)
    decreases Left(stage)
  {
    if stage == Finish {
      AllCalled(h);
    } else {
      CalledBeforeIsEnabled(h, Next(stage));
    }
  }

  /** What has become of the body when `stage` is reached. */
  predicate BodyFits(env: Env, h: HooksConfig, live: bool, c: Ctx, stage: Stage) {
    match stage
    case Transform =>
      c.trace.Then? && c.trace.call.ResolverCall? && env.resolve(c.trace) == Resolution(c.body, None)
    case PostResolve => Output(env, c.trace) == Some(c.body)
    case MutatingPostResolve => Output(env, c.trace) == Some(c.body)
    case Finish =>
      if h.mutatingPostResolve
      then c.trace.Then? && env.hook(c.trace).out.Some? && c.body == env.hook(c.trace).out.value.response
      else Output(env, c.trace) == Some(c.body)
    case _ => live || c.body == ""
  }

  /** The run so far, when `stage` is reached. */
  predicate SoFar(env: Env, h: HooksConfig, live: bool, variables: string, headers: string, c: Ctx, stage: Stage) {
    && c.variables == (if live then InputAfter(env, variables, c.trace) else variables)
    && c.headers == HeadersAfter(env, headers, c.trace)
    && Log(env, live, variables, headers, c.trace)
    && StagesOf(c.trace) == CalledBefore(h, stage)
    && (stage == Transform || Proceeds(env, live, c.trace))
    && BodyFits(env, h, live, c, stage)
  }

  lemma SoFarSkips(env: Env, h: HooksConfig, live: bool, variables: string, headers: string, c: Ctx, stage: Stage)
    requires SoFar(env, h, live, variables, headers, c, stage) && !Runs(h, stage)
    ensures SoFar(env, h, live, variables, headers, c, Next(stage))
  {
  }

  lemma AnsweredAtTheEnd(
    env: Env, h: HooksConfig, live: bool, variables: string, headers: string, c: Ctx)
    requires SoFar(env, h, live, variables, headers, c, Finish)
    ensures Answered(env, h, Enabled(h), live, c.trace, c.body)
  {
    AllCalled(h);
    assert Resolve in Enabled(h);
  }

  lemma HookMade(
    env: Env, h: HooksConfig, order: seq<Stage>, live: bool, variables: string, headers: string, c: Ctx, stage: Stage)
    requires SoFar(env, h, live, variables, headers, c, stage) && Runs(h, stage)
    requires stage != Resolve && stage != Transform && stage != Finish && CalledBefore(h, Next(stage)) <= order
    ensures var response := if stage == PostResolve || stage == MutatingPostResolve then c.body else "";
      var trace := HookCalled(c, stage, response).trace;
      Log(env, live, variables, headers, trace) && StagesOf(trace) <= order
  {
  }

  // ... the one-shot query

  /** A failed hook. */
  lemma OneShotFailed(
    env: Env, h: HooksConfig, order: seq<Stage>, variables: string, headers: string, c: Ctx, e: Error, message: string)
    requires Log(env, false, variables, headers, c.trace) && StagesOf(c.trace) <= order
    requires c.trace.Then? && c.trace.call.HookCall? && env.hook(c.trace).err == Some(e)
    requires c.trace.call.stage != Resolve && c.trace.call.stage != Transform
    ensures OneShotFits(env, h, order, variables, headers, Failed(c.trace.call.stage, e, message, c).end)
  {
  }

  lemma OneShotPreGoes(env: Env, h: HooksConfig, variables: string, headers: string, c: Ctx)
    requires SoFar(env, h, false, variables, headers, c, PreResolve) && Runs(h, PreResolve)
    requires OneShotStage(env, c, PreResolve).Go?
    ensures SoFar(env, h, false, variables, headers, OneShotStage(env, c, PreResolve).ctx, MutatingPreResolve)
  {
  }

  lemma OneShotPreStops(
    env: Env, h: HooksConfig, order: seq<Stage>, variables: string, headers: string, c: Ctx)
    requires SoFar(env, h, false, variables, headers, c, PreResolve) && Runs(h, PreResolve)
    requires CalledBefore(h, Next(PreResolve)) <= order && OneShotStage(env, c, PreResolve).Stop?
    ensures OneShotFits(env, h, order, variables, headers, OneShotStage(env, c, PreResolve).end)
  {
    HookMade(env, h, order, false, variables, headers, c, PreResolve);
    var d := HookCalled(c, PreResolve, "");
    if env.hook(d.trace).err.Some? {
      OneShotFailed(env, h, order, variables, headers, d, env.hook(d.trace).err.value, "preResolve hook failed");
    }
  }

  lemma OneShotMutatingPreGoes(env: Env, h: HooksConfig, variables: string, headers: string, c: Ctx)
    requires SoFar(env, h, false, variables, headers, c, MutatingPreResolve) && Runs(h, MutatingPreResolve)
    requires OneShotStage(env, c, MutatingPreResolve).Go?
    ensures SoFar(env, h, false, variables, headers, OneShotStage(env, c, MutatingPreResolve).ctx, CustomResolve)
  {
  }

  lemma OneShotMutatingPreStops(
    env: Env, h: HooksConfig, order: seq<Stage>, variables: string, headers: string, c: Ctx)
    requires SoFar(env, h, false, variables, headers, c, MutatingPreResolve) && Runs(h, MutatingPreResolve)
    requires CalledBefore(h, Next(MutatingPreResolve)) <= order && OneShotStage(env, c, MutatingPreResolve).Stop?
    ensures OneShotFits(env, h, order, variables, headers, OneShotStage(env, c, MutatingPreResolve).end)
  {
    HookMade(env, h, order, false, variables, headers, c, MutatingPreResolve);
    var d := HookCalled(c, MutatingPreResolve, "");
    if env.hook(d.trace).err.Some? {
      OneShotFailed(env, h, order, variables, headers, d,
                    env.hook(d.trace).err.value, "mutatingPreResolve hook failed");
    }
  }

  lemma OneShotCustomGoes(env: Env, h: HooksConfig, variables: string, headers: string, c: Ctx)
    requires SoFar(env, h, false, variables, headers, c, CustomResolve) && Runs(h, CustomResolve)
    requires OneShotStage(env, c, CustomResolve).Go?
    ensures SoFar(env, h, false, variables, headers, OneShotStage(env, c, CustomResolve).ctx, Resolve)
  {
  }

  lemma OneShotCustomStops(
    env: Env, h: HooksConfig, order: seq<Stage>, variables: string, headers: string, c: Ctx)
    requires SoFar(env, h, false, variables, headers, c, CustomResolve) && Runs(h, CustomResolve)
    requires CalledBefore(h, Next(CustomResolve)) <= order && OneShotStage(env, c, CustomResolve).Stop?
    ensures OneShotFits(env, h, order, variables, headers, OneShotStage(env, c, CustomResolve).end)
  {
    HookMade(env, h, order, false, variables, headers, c, CustomResolve);
    var d := HookCalled(c, CustomResolve, "");
    if env.hook(d.trace).err.Some? {
      OneShotFailed(env, h, order, variables, headers, d, env.hook(d.trace).err.value, "customResolve hook failed");
    }
  }

  lemma OneShotResolver(
    env: Env, h: HooksConfig, order: seq<Stage>, variables: string, headers: string, c: Ctx, stage: Stage)
    requires stage == Resolve
    requires SoFar(env, h, false, variables, headers, c, stage) && Runs(h, stage)
    requires CalledBefore(h, Next(stage)) <= order
    ensures var step := OneShotStage(env, c, stage);
      && (step.Go? ==> SoFar(env, h, false, variables, headers, step.ctx, Next(stage)))
      && (step.Stop? ==> OneShotFits(env, h, order, variables, headers, step.end))
  {
  }

  lemma OneShotTransform(
    env: Env, h: HooksConfig, order: seq<Stage>, variables: string, headers: string, c: Ctx, stage: Stage)
    requires stage == Transform
    requires SoFar(env, h, false, variables, headers, c, stage) && Runs(h, stage)
    requires CalledBefore(h, Next(stage)) <= order
    ensures var step := OneShotStage(env, c, stage);
      && (step.Go? ==> SoFar(env, h, false, variables, headers, step.ctx, Next(stage)))
      && (step.Stop? ==> OneShotFits(env, h, order, variables, headers, step.end))
  {
  }

  lemma OneShotPost(
    env: Env, h: HooksConfig, order: seq<Stage>, variables: string, headers: string, c: Ctx, stage: Stage)
    requires stage == PostResolve
    requires SoFar(env, h, false, variables, headers, c, stage) && Runs(h, stage)
    requires CalledBefore(h, Next(stage)) <= order
    ensures var step := OneShotStage(env, c, stage);
      && (step.Go? ==> SoFar(env, h, false, variables, headers, step.ctx, Next(stage)))
      && (step.Stop? ==> OneShotFits(env, h, order, variables, headers, step.end))
  {
  }

  lemma OneShotMutatingPostGoes(env: Env, h: HooksConfig, variables: string, headers: string, c: Ctx)
    requires SoFar(env, h, false, variables, headers, c, MutatingPostResolve) && Runs(h, MutatingPostResolve)
    requires OneShotStage(env, c, MutatingPostResolve).Go?
    ensures SoFar(env, h, false, variables, headers, OneShotStage(env, c, MutatingPostResolve).ctx, Finish)
  {
  }

  lemma OneShotMutatingPostStops(
    env: Env, h: HooksConfig, order: seq<Stage>, variables: string, headers: string, c: Ctx)
    requires SoFar(env, h, false, variables, headers, c, MutatingPostResolve) && Runs(h, MutatingPostResolve)
    requires CalledBefore(h, Next(MutatingPostResolve)) <= order && OneShotStage(env, c, MutatingPostResolve).Stop?
    ensures OneShotFits(env, h, order, variables, headers, OneShotStage(env, c, MutatingPostResolve).end)
  {
    HookMade(env, h, order, false, variables, headers, c, MutatingPostResolve);
    var d := HookCalled(c, MutatingPostResolve, c.body);
    if env.hook(d.trace).err.Some? {
      OneShotFailed(env, h, order, variables, headers, d,
                    env.hook(d.trace).err.value, "mutatingPostResolve hook failed");
    }
  }

  lemma {:induction false} OneShotRunsFrom(
    env: Env, h: HooksConfig, variables: string, headers: string, c: Ctx, stage: Stage)
    requires SoFar(env, h, false, variables, headers, c, stage)
    ensures OneShotFits(env, h, Enabled(h), variables, headers, OneShotFrom(env, h, c, stage))
    decreases Left(stage)
  {
    if stage == Finish {
      AnsweredAtTheEnd(env, h, false, variables, headers, c);
    } else if !Runs(h, stage) {
      SoFarSkips(env, h, false, variables, headers, c, stage);
      OneShotRunsFrom(env, h, variables, headers, c, Next(stage));
    } else {
      OneShotStep(env, h, variables, headers, c, stage);
      if OneShotStage(env, c, stage).Go? {
        OneShotRunsFrom(env, h, variables, headers, OneShotStage(env, c, stage).ctx, Next(stage));
      }
    }
  }

  lemma OneShotStep(env: Env, h: HooksConfig, variables: string, headers: string, c: Ctx, stage: Stage)
    requires SoFar(env, h, false, variables, headers, c, stage) && Runs(h, stage) && stage != Finish
    ensures var step := OneShotStage(env, c, stage);
      && (step.Go? ==> SoFar(env, h, false, variables, headers, step.ctx, Next(stage)))
      && (step.Stop? ==> OneShotFits(env, h, Enabled(h), variables, headers, step.end))
  {
    CalledBeforeIsEnabled(h, Next(stage));
    var order := Enabled(h);
    match stage
    case Resolve => OneShotResolver(env, h, order, variables, headers, c, stage);
    case Transform => OneShotTransform(env, h, order, variables, headers, c, stage);
    case PostResolve => OneShotPost(env, h, order, variables, headers, c, stage);
    case MutatingPostResolve =>
      if OneShotStage(env, c, stage).Go? {
        OneShotMutatingPostGoes(env, h, variables, headers, c);
      } else {
        OneShotMutatingPostStops(env, h, order, variables, headers, c);
      }
    case CustomResolve =>
      if OneShotStage(env, c, stage).Go? {
        OneShotCustomGoes(env, h, variables, headers, c);
      } else {
        OneShotCustomStops(env, h, order, variables, headers, c);
      }
    case PreResolve =>
      if OneShotStage(env, c, stage).Go? {
        OneShotPreGoes(env, h, variables, headers, c);
      } else {
        OneShotPreStops(env, h, order, variables, headers, c);
      }
    case MutatingPreResolve =>
      if OneShotStage(env, c, stage).Go? {
        OneShotMutatingPreGoes(env, h, variables, headers, c);
      } else {
        OneShotMutatingPreStops(env, h, order, variables, headers, c);
      }
  }

  /** The one-shot query, for every environment and request. */
  lemma OneShotRuns(env: Env, h: HooksConfig, variables: string, headers: string)
    ensures OneShotFits(env, h, Enabled(h), variables, headers,
      OneShotFrom(env, h, Ctx(variables, headers, "", NoCalls), PreResolve))
  {
    OneShotRunsFrom(env, h, variables, headers, Ctx(variables, headers, "", NoCalls), PreResolve);
  }

  // ... and the live query

  /** A failed hook, or one that had to answer and did not. */
  lemma LiveErred(
    env: Env, h: HooksConfig, order: seq<Stage>, variables: string, headers: string, c: Ctx, cause: Option<Error>)
    requires Log(env, true, variables, headers, c.trace) && StagesOf(c.trace) <= order
    requires c.trace.Then? && c.trace.call.HookCall? && env.hook(c.trace).err == cause
    requires c.trace.call.stage == PreResolve || c.trace.call.stage == CustomResolve
    requires cause.None? ==> env.hook(c.trace).out.None?
    ensures LiveFits(env, h, order, variables, headers, Erred(c.trace.call.stage, cause, c).end)
  {
  }

  lemma LivePreGoes(env: Env, h: HooksConfig, variables: string, headers: string, c: Ctx)
    requires SoFar(env, h, true, variables, headers, c, PreResolve) && Runs(h, PreResolve)
    requires LiveStage(env, c, PreResolve).Go?
    ensures SoFar(env, h, true, variables, headers, LiveStage(env, c, PreResolve).ctx, MutatingPreResolve)
  {
  }

  lemma LivePreStops(
    env: Env, h: HooksConfig, order: seq<Stage>, variables: string, headers: string, c: Ctx)
    requires SoFar(env, h, true, variables, headers, c, PreResolve) && Runs(h, PreResolve)
    requires CalledBefore(h, Next(PreResolve)) <= order && LiveStage(env, c, PreResolve).Stop?
    ensures LiveFits(env, h, order, variables, headers, LiveStage(env, c, PreResolve).end)
  {
    HookMade(env, h, order, true, variables, headers, c, PreResolve);
  }

  lemma LiveMutatingPreGoes(env: Env, h: HooksConfig, variables: string, headers: string, c: Ctx)
    requires SoFar(env, h, true, variables, headers, c, MutatingPreResolve) && Runs(h, MutatingPreResolve)
    requires LiveStage(env, c, MutatingPreResolve).Go?
    ensures SoFar(env, h, true, variables, headers, LiveStage(env, c, MutatingPreResolve).ctx, CustomResolve)
  {
  }

  lemma LiveMutatingPreStops(
    env: Env, h: HooksConfig, order: seq<Stage>, variables: string, headers: string, c: Ctx)
    requires SoFar(env, h, true, variables, headers, c, MutatingPreResolve) && Runs(h, MutatingPreResolve)
    requires CalledBefore(h, Next(MutatingPreResolve)) <= order && LiveStage(env, c, MutatingPreResolve).Stop?
    ensures LiveFits(env, h, order, variables, headers, LiveStage(env, c, MutatingPreResolve).end)
  {
    HookMade(env, h, order, true, variables, headers, c, MutatingPreResolve);
  }

  lemma LiveCustomGoes(env: Env, h: HooksConfig, variables: string, headers: string, c: Ctx)
    requires SoFar(env, h, true, variables, headers, c, CustomResolve) && Runs(h, CustomResolve)
    requires LiveStage(env, c, CustomResolve).Go?
    ensures SoFar(env, h, true, variables, headers, LiveStage(env, c, CustomResolve).ctx, Resolve)
  {
  }

  lemma LiveCustomStops(
    env: Env, h: HooksConfig, order: seq<Stage>, variables: string, headers: string, c: Ctx)
    requires SoFar(env, h, true, variables, headers, c, CustomResolve) && Runs(h, CustomResolve)
    requires CalledBefore(h, Next(CustomResolve)) <= order && LiveStage(env, c, CustomResolve).Stop?
    ensures LiveFits(env, h, order, variables, headers, LiveStage(env, c, CustomResolve).end)
  {
    HookMade(env, h, order, true, variables, headers, c, CustomResolve);
    var d := HookCalled(c, CustomResolve, "");
    var reply := env.hook(d.trace);
    if reply.err.Some? || reply.out.None? {
      LiveErred(env, h, order, variables, headers, d, reply.err);
    }
  }

  lemma LiveResolver(
    env: Env, h: HooksConfig, order: seq<Stage>, variables: string, headers: string, c: Ctx, stage: Stage)
    requires stage == Resolve
    requires SoFar(env, h, true, variables, headers, c, stage) && Runs(h, stage)
    requires CalledBefore(h, Next(stage)) <= order
    ensures var step := LiveStage(env, c, stage);
      && (step.Go? ==> SoFar(env, h, true, variables, headers, step.ctx, Next(stage)))
      && (step.Stop? ==> LiveFits(env, h, order, variables, headers, step.end))
  {
  }

  lemma LiveTransform(
    env: Env, h: HooksConfig, order: seq<Stage>, variables: string, headers: string, c: Ctx, stage: Stage)
    requires stage == Transform
    requires SoFar(env, h, true, variables, headers, c, stage) && Runs(h, stage)
    requires CalledBefore(h, Next(stage)) <= order
    ensures var step := LiveStage(env, c, stage);
      && (step.Go? ==> SoFar(env, h, true, variables, headers, step.ctx, Next(stage)))
      && (step.Stop? ==> LiveFits(env, h, order, variables, headers, step.end))
  {
  }

  lemma LivePost(
    env: Env, h: HooksConfig, order: seq<Stage>, variables: string, headers: string, c: Ctx, stage: Stage)
    requires stage == PostResolve
    requires SoFar(env, h, true, variables, headers, c, stage) && Runs(h, stage)
    requires CalledBefore(h, Next(stage)) <= order
    ensures var step := LiveStage(env, c, stage);
      && (step.Go? ==> SoFar(env, h, true, variables, headers, step.ctx, Next(stage)))
      && (step.Stop? ==> LiveFits(env, h, order, variables, headers, step.end))
  {
  }

  lemma LiveMutatingPostGoes(env: Env, h: HooksConfig, variables: string, headers: string, c: Ctx)
    requires SoFar(env, h, true, variables, headers, c, MutatingPostResolve) && Runs(h, MutatingPostResolve)
    requires LiveStage(env, c, MutatingPostResolve).Go?
    ensures SoFar(env, h, true, variables, headers, LiveStage(env, c, MutatingPostResolve).ctx, Finish)
  {
  }

  lemma LiveMutatingPostStops(
    env: Env, h: HooksConfig, order: seq<Stage>, variables: string, headers: string, c: Ctx)
    requires SoFar(env, h, true, variables, headers, c, MutatingPostResolve) && Runs(h, MutatingPostResolve)
    requires CalledBefore(h, Next(MutatingPostResolve)) <= order && LiveStage(env, c, MutatingPostResolve).Stop?
    ensures LiveFits(env, h, order, variables, headers, LiveStage(env, c, MutatingPostResolve).end)
  {
    HookMade(env, h, order, true, variables, headers, c, MutatingPostResolve);
  }

  lemma {:induction false} LiveRunsFrom(
    env: Env, h: HooksConfig, variables: string, headers: string, c: Ctx, stage: Stage)
    requires SoFar(env, h, true, variables, headers, c, stage)
    ensures LiveFits(env, h, Enabled(h), variables, headers, LiveFrom(env, h, c, stage))
    decreases Left(stage)
  {
    if stage == Finish {
      AnsweredAtTheEnd(env, h, true, variables, headers, c);
    } else if !Runs(h, stage) {
      SoFarSkips(env, h, true, variables, headers, c, stage);
      LiveRunsFrom(env, h, variables, headers, c, Next(stage));
    } else {
      LiveStep(env, h, variables, headers, c, stage);
      if LiveStage(env, c, stage).Go? {
        LiveRunsFrom(env, h, variables, headers, LiveStage(env, c, stage).ctx, Next(stage));
      }
    }
  }

  lemma LiveStep(env: Env, h: HooksConfig, variables: string, headers: string, c: Ctx, stage: Stage)
    requires SoFar(env, h, true, variables, headers, c, stage) && Runs(h, stage) && stage != Finish
    ensures var step := LiveStage(env, c, stage);
      && (step.Go? ==> SoFar(env, h, true, variables, headers, step.ctx, Next(stage)))
      && (step.Stop? ==> LiveFits(env, h, Enabled(h), variables, headers, step.end))
  {
    CalledBeforeIsEnabled(h, Next(stage));
    var order := Enabled(h);
    match stage
    case Resolve => LiveResolver(env, h, order, variables, headers, c, stage);
    case Transform => LiveTransform(env, h, order, variables, headers, c, stage);
    case PostResolve => LivePost(env, h, order, variables, headers, c, stage);
    case MutatingPostResolve =>
      if LiveStage(env, c, stage).Go? {
        LiveMutatingPostGoes(env, h, variables, headers, c);
      } else {
        LiveMutatingPostStops(env, h, order, variables, headers, c);
      }
    case CustomResolve =>
      if LiveStage(env, c, stage).Go? {
        LiveCustomGoes(env, h, variables, headers, c);
      } else {
        LiveCustomStops(env, h, order, variables, headers, c);
      }
    case PreResolve =>
      if LiveStage(env, c, stage).Go? {
        LivePreGoes(env, h, variables, headers, c);
      } else {
        LivePreStops(env, h, order, variables, headers, c);
      }
    case MutatingPreResolve =>
      if LiveStage(env, c, stage).Go? {
        LiveMutatingPreGoes(env, h, variables, headers, c);
      } else {
        LiveMutatingPreStops(env, h, order, variables, headers, c);
      }
  }

  /** One poll, for every environment and request, and whatever the last poll left in the buffer. */
  lemma LiveRuns(env: Env, h: HooksConfig, variables: string, headers: string, leftover: string)
    ensures LiveFits(env, h, Enabled(h), variables, headers,
      LiveFrom(env, h, Ctx(variables, headers, leftover, NoCalls), PreResolve))
  {
    LiveRunsFrom(env, h, variables, headers, Ctx(variables, headers, leftover, NoCalls), PreResolve);
  }
}
