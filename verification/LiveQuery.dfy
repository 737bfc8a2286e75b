/** The polling loop of a live query: a response is sent when its hash differs from that of the
    one before. */
module LiveQuery {
  import opened Wrappers
  import opened EventStream

  /** One turn of the loop.  A hook error answers with a GraphQL error and ends the stream; a
      cancelled context ends it silently.  `lost`: writing the line terminators fails. */
  datatype Poll = Poll(outcome: Outcome, lost: bool)
  datatype Outcome = Answer(body: string) | HookError(payload: string) | Cancelled

  /** The bodies sent, when `lastHash` is the hash of the last one. */
  function Frames(hash: string -> nat, lastHash: nat, polls: seq<Poll>, subscribeOnce: bool): seq<string>
    decreases polls
  {
    if polls == [] || polls[0].outcome.Cancelled? then []
    else
      var body := Response(polls[0]);
      var ends := polls[0].outcome.HookError?;
      if hash(body) == lastHash then
        if ends then [] else Frames(hash, lastHash, polls[1..], subscribeOnce)
      else if subscribeOnce || polls[0].lost || ends then [body]
      else [body] + Frames(hash, hash(body), polls[1..], subscribeOnce)
  }

  function Response(p: Poll): string
    requires !p.outcome.Cancelled?
  {
    match p.outcome
    case Answer(body) => body
    case HookError(payload) => payload
  }

  /** The responses of the stream: up to the first hook error, or to the cancellation. */
  function Responses(polls: seq<Poll>): seq<string> {
    if polls == [] || polls[0].outcome.Cancelled? then []
    else if polls[0].outcome.HookError? then [polls[0].outcome.payload]
    else [polls[0].outcome.body] + Responses(polls[1..])
  }

  // The change filter

  /** `bodies` without those that equal the one before; `last` stands before the first. */
  function Destuttered(last: Option<string>, bodies: seq<string>): seq<string>
    decreases bodies
  {
    if bodies == [] then []
    else if last == Some(bodies[0]) then Destuttered(last, bodies[1..])
    else [bodies[0]] + Destuttered(Some(bodies[0]), bodies[1..])
  }

  function HashOf(hash: string -> nat, last: Option<string>): nat {
    if last.Some? then hash(last.value) else 0
  }

  /** The hash tells every response that changes from the one before, and the first from zero. */
  predicate Distinguishes(hash: string -> nat, last: Option<string>, bodies: seq<string>)
    decreases bodies
  {
    bodies == []
    || (&& (last != Some(bodies[0]) ==> hash(bodies[0]) != HashOf(hash, last))
        && Distinguishes(hash, Some(bodies[0]), bodies[1..]))
  }

  predicate NeverLost(polls: seq<Poll>) {
    forall i :: 0 <= i < |polls| ==> !polls[i].lost
  }

  lemma {:induction false} FramesFrom(hash: string -> nat, last: Option<string>, polls: seq<Poll>)
    requires NeverLost(polls)
    ensures var frames := Frames(hash, HashOf(hash, last), polls, false);
      var expected := Destuttered(last, Responses(polls));
      |frames| <= |expected| && (frames == expected <==> Distinguishes(hash, last, Responses(polls)))
    decreases polls
  {
    if polls != [] && !polls[0].outcome.Cancelled? {
      var body := Response(polls[0]);
      if polls[0].outcome.Answer? {
        assert Responses(polls)[1..] == Responses(polls[1..]);
        FramesFrom(hash, Some(body), polls[1..]);
        var frames := Frames(hash, hash(body), polls[1..], false);
        var expected := Destuttered(Some(body), Responses(polls[1..]));
        assert ([body] + frames)[1..] == frames && ([body] + expected)[1..] == expected;
        if hash(body) == HashOf(hash, last) {
          assert Frames(hash, HashOf(hash, last), polls, false) == frames;
        }
      } else {
        assert Responses(polls) == [body];
        assert Destuttered(Some(body), []) == [];
      }
    }
  }

  /** What is sent is the destuttered sequence of responses, exactly when the hash tells the
      changes: an injective hash that is never zero always does. */
  lemma FramesExact(hash: string -> nat, polls: seq<Poll>)
    requires NeverLost(polls)
    ensures Frames(hash, 0, polls, false) == Destuttered(None, Responses(polls))
        <==> Distinguishes(hash, None, Responses(polls))
  {
    FramesFrom(hash, None, polls);
  }

  lemma {:induction false} InjectiveDistinguishes(hash: string -> nat, last: Option<string>, bodies: seq<string>)
    requires forall b :: hash(b) != 0
    requires forall a, b :: hash(a) == hash(b) ==> a == b
    ensures Distinguishes(hash, last, bodies)
    decreases bodies
  {
    if bodies != [] {
      InjectiveDistinguishes(hash, Some(bodies[0]), bodies[1..]);
    }
  }

  /** No two consecutive frames are equal, and the last frame is the latest response. */
  lemma {:induction false} DestutteredProperties(last: Option<string>, bodies: seq<string>)
    ensures var d := Destuttered(last, bodies);
      && (forall i :: 0 < i < |d| ==> d[i] != d[i - 1])
      && (d != [] ==> last != Some(d[0]))
      && (bodies != [] ==> bodies[|bodies| - 1] == if d == [] then last.value else d[|d| - 1])
      && (forall b :: b in d ==> b in bodies)
      && (forall b :: b in bodies ==> b in d || last == Some(b))
    decreases bodies
  {
    if bodies != [] {
      DestutteredProperties(if last == Some(bodies[0]) then last else Some(bodies[0]), bodies[1..]);
      if last == Some(bodies[0]) {
        assert |bodies| > 1 ==> bodies[1..][|bodies| - 2] == bodies[|bodies| - 1];
      } else {
        var d := Destuttered(Some(bodies[0]), bodies[1..]);
        assert |bodies| > 1 ==> bodies[1..][|bodies| - 2] == bodies[|bodies| - 1];
      }
    }
  }

  /** One more response is added exactly when it differs from the response before it. */
  lemma {:induction false} DestutteredSnoc(last: Option<string>, bodies: seq<string>, x: string)
    ensures var before := if bodies == [] then last else Some(bodies[|bodies| - 1]);
      Destuttered(last, bodies + [x]) == Destuttered(last, bodies) + if before == Some(x) then [] else [x]
    decreases bodies
  {
    if bodies == [] {
      assert bodies + [x] == [x] && [x][1..] == [];
    } else {
      assert (bodies + [x])[1..] == bodies[1..] + [x];
      DestutteredSnoc(if last == Some(bodies[0]) then last else Some(bodies[0]), bodies[1..], x);
    }
  }

  /** Subscribe-once sends exactly the first response. */
  lemma SubscribeOnceSendsOne(hash: string -> nat, polls: seq<Poll>)
    requires Responses(polls) != [] && hash(Responses(polls)[0]) != 0
    ensures Frames(hash, 0, polls, true) == [Responses(polls)[0]]
  {
  }

  /** Subscribe-once in general: responses whose hash is zero are passed over, and the first other one
      is all that is written, behind `data: ` with `wg_sse` and bare without. */
  lemma {:induction false} SubscribeOnceBytes(hash: string -> nat, polls: seq<Poll>, k: nat, sse: bool)
    requires k <= |Responses(polls)| && forall i :: 0 <= i < k ==> hash(Responses(polls)[i]) == 0
    requires k < |Responses(polls)| ==> hash(Responses(polls)[k]) != 0
    ensures var bytes := Framed(Frames(hash, 0, polls, true), sse, true);
      && (k == |Responses(polls)| ==> bytes == "")
      && (k < |Responses(polls)| && sse ==> bytes == "data: " + Responses(polls)[k])
      && (k < |Responses(polls)| && !sse ==> bytes == Responses(polls)[k])
    decreases polls
  {
    if k > 0 && polls[0].outcome.Answer? {
      assert forall i :: 0 <= i < k - 1 ==> Responses(polls[1..])[i] == Responses(polls)[i + 1];
      assert Responses(polls)[0] == polls[0].outcome.body;
      assert Frames(hash, 0, polls, true) == Frames(hash, 0, polls[1..], true);
      SubscribeOnceBytes(hash, polls[1..], k - 1, sse);
    } else if k > 0 {
      assert Responses(polls) == [polls[0].outcome.payload] && hash(Responses(polls)[0]) == 0;
    } else if k == 0 && Responses(polls) != [] {
      var body := Responses(polls)[0];
      assert Frames(hash, 0, polls, true) == [body];
    }
  }

  /** A failed write only cuts the stream off. */
  lemma {:induction false} LostCutsStream(
    hash: string -> nat, lastHash: nat, polls: seq<Poll>, clear: seq<Poll>, subscribeOnce: bool)
    requires |clear| == |polls| && forall i :: 0 <= i < |polls| ==> clear[i] == polls[i].(lost := false)
    ensures Frames(hash, lastHash, polls, subscribeOnce) <= Frames(hash, lastHash, clear, subscribeOnce)
    decreases polls
  {
    if polls != [] && polls[0].outcome.Answer? {
      var body := polls[0].outcome.body;
      LostCutsStream(hash, lastHash, polls[1..], clear[1..], subscribeOnce);
      LostCutsStream(hash, hash(body), polls[1..], clear[1..], subscribeOnce);
    }
  }

  /** The turn whose write fails is the last one that has any effect, if it writes. */
  lemma {:induction false} EndsAtLoss(
    hash: string -> nat, lastHash: nat, polls: seq<Poll>, k: nat, subscribeOnce: bool)
    requires k < |polls| && polls[k].lost && !polls[k].outcome.Cancelled?
    requires Frames(hash, lastHash, polls[..k], subscribeOnce) != Frames(hash, lastHash, polls[..k + 1], subscribeOnce)
    ensures Frames(hash, lastHash, polls, subscribeOnce) == Frames(hash, lastHash, polls[..k + 1], subscribeOnce)
    decreases k
  {
    if k > 0 && polls[0].outcome.Answer? {
      assert polls[..k + 1][1..] == polls[1..][..k] && polls[..k][1..] == polls[1..][..k - 1];
      var body := polls[0].outcome.body;
      if hash(body) == lastHash {
        EndsAtLoss(hash, lastHash, polls[1..], k - 1, subscribeOnce);
      } else if !subscribeOnce && !polls[0].lost {
        EndsAtLoss(hash, hash(body), polls[1..], k - 1, subscribeOnce);
      }
    }
  }

  /** Nothing after a hook error or a cancellation has any effect. */
  lemma {:induction false} EndsAtError(
    hash: string -> nat, lastHash: nat, polls: seq<Poll>, k: nat, subscribeOnce: bool)
    requires k < |polls| && !polls[k].outcome.Answer?
    ensures Frames(hash, lastHash, polls, subscribeOnce) == Frames(hash, lastHash, polls[..k + 1], subscribeOnce)
    decreases k
  {
    if k > 0 && polls[0].outcome.Answer? {
      assert polls[..k + 1][1..] == polls[1..][..k];
      EndsAtError(hash, lastHash, polls[1..], k - 1, subscribeOnce);
      EndsAtError(hash, hash(polls[0].outcome.body), polls[1..], k - 1, subscribeOnce);
    }
  }

  /** End to end, for a client that follows the standard: it receives the destuttered responses,
      if and only if no response breaks a line. */
  lemma ClientSeesChanges(hash: string -> nat, polls: seq<Poll>)
    requires NeverLost(polls) && Distinguishes(hash, None, Responses(polls))
    ensures Parsed(Framed(Frames(hash, 0, polls, false), true, false)) == Destuttered(None, Responses(polls))
            <==> forall b :: b in Responses(polls) ==> OneLine(b)
  {
    FramesExact(hash, polls);
    DestutteredProperties(None, Responses(polls));
    StreamExact(Destuttered(None, Responses(polls)));
  }

  /** The same without `wg_sse`, for a client that splits at blank lines. */
  lemma PlainClientSeesChanges(hash: string -> nat, polls: seq<Poll>)
    requires NeverLost(polls) && Distinguishes(hash, None, Responses(polls))
    ensures Chunks(Framed(Frames(hash, 0, polls, false), false, false)) == Destuttered(None, Responses(polls))
            <==> forall b :: b in Responses(polls) ==> Unbroken(b)
  {
    FramesExact(hash, polls);
    DestutteredProperties(None, Responses(polls));
    PlainStreamExact(Destuttered(None, Responses(polls)));
  }

  // The code

  /** `handleLiveQuery`: the bytes written over the turns of the loop. */
  method HandleLiveQuery(hash: string -> nat, polls: seq<Poll>, subscribeOnce: bool, sse: bool) returns (w: string)
    ensures w == Framed(Frames(hash, 0, polls, subscribeOnce), sse, subscribeOnce)
  {
    w := "";
    var lastHash: nat := 0;
    ghost var all := Frames(hash, 0, polls, subscribeOnce);
    ghost var sent: seq<string> := [];
    assert polls[0..] == polls && sent + all == all;
    for i := 0 to |polls|
      invariant w == Framed(sent, sse, subscribeOnce)
      invariant sent + Frames(hash, lastHash, polls[i..], subscribeOnce) == all
    {
      TurnExactly(hash, lastHash, polls, i, subscribeOnce, sent, all);
      if polls[i].outcome.Cancelled? {
        return;
      }
      var response := Response(polls[i]);
      var hookError := polls[i].outcome.HookError?;
      var nextHash := hash(response);
      if nextHash != lastHash {
        lastHash := nextHash;
        FramedAppend(sent, [response], sse, subscribeOnce);
        sent := sent + [response];
        w := Send(w, response, sse, subscribeOnce);
        if subscribeOnce || polls[i].lost {
          return;
        }
      }
      if hookError {
        return;
      }
    }
    assert sent + [] == sent;
  }

  /** One turn: what has been sent, with the response if it is sent, is all or leaves the rest. */
  lemma TurnExactly(hash: string -> nat, lastHash: nat, polls: seq<Poll>, i: nat, subscribeOnce: bool,
                    sent: seq<string>, all: seq<string>)
    requires i < |polls| && sent + Frames(hash, lastHash, polls[i..], subscribeOnce) == all
    ensures polls[i].outcome.Cancelled? ==> sent == all
    ensures !polls[i].outcome.Cancelled? ==>
      var body := Response(polls[i]);
      var now := if hash(body) == lastHash then sent else sent + [body];
      if polls[i].outcome.HookError? || (hash(body) != lastHash && (subscribeOnce || polls[i].lost)) then now == all
      else now + Frames(hash, hash(body), polls[i + 1..], subscribeOnce) == all
  {
    assert polls[i..][0] == polls[i] && polls[i..][1..] == polls[i + 1..];
    assert sent + [] == sent;
    if !polls[i].outcome.Cancelled? {
      var body := Response(polls[i]);
      var rest := Frames(hash, hash(body), polls[i + 1..], subscribeOnce);
      assert sent + ([body] + rest) == (sent + [body]) + rest;
    }
  }

  /** The writes of one response. */
  method Send(w: string, response: string, sse: bool, subscribeOnce: bool) returns (r: string)
    ensures r == w + Framed([response], sse, subscribeOnce)
  {
    assert Framed([response], sse, subscribeOnce) == Frame(response, sse, subscribeOnce);
    r := w;
    if sse {
      r := r + "data: ";
    }
    r := r + response;
    if !subscribeOnce {
      r := r + "\n";
      r := r + "\n";
    }
  }
}
