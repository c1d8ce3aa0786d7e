/**
 * One conversation turn through the agent routes: `run_agent` answers with
 * one response, `stream_agent` with a sequence of server-sent events. The
 * agent itself, its threads and the clock are outside the model: what the
 * agent returns (or raises) and what serializing the thread gives are
 * parameters.
 */
module Turns {
  import opened Common
  import opened PyText
  import opened Values
  import opened Normalizer
  import opened TokenEstimator
  import opened SessionStats
  import opened Sessions

  /** The exception classes the routes tell apart (`ModuleNotFoundError` is an `ImportError`). */
  datatype ExceptionKind = ImportError | RuntimeError | OtherError

  /** An exception raised by the agent or the thread, with `str(exc)` as its message. */
  datatype Raised = Raised(kind: ExceptionKind, message: string)

  /** What an awaited call into the agent did. */
  datatype Outcome<+T> = Returned(value: T) | Threw(exc: Raised)

  /** The answer of `POST /agent/run`. */
  datatype RunResponse =
    | Responded(output: string, conversationId: string, stats: StatsView)
    | HttpError(status: int, detail: string)

  /** The detail of the 500 answer to an `ImportError`. */
  const InstallHint: string :=
    "agent-framework is not installed. Install with: py -m pip install -r backend\\requirements-agent.txt"

  /**
   * The HTTP error an exception becomes: 500 with the install hint for an
   * `ImportError`, 400 with the bare message for a `RuntimeError`, else 500
   * with the message after "Agent error: ".
   */
  function ErrorResponse(e: Raised): (r: RunResponse)
    ensures r.HttpError?
    ensures r.status == 400 <==> e.kind.RuntimeError?
    ensures e.kind.ImportError? ==> r.status == 500 && r.detail == InstallHint
    ensures e.kind.RuntimeError? ==> r.detail == e.message
    ensures e.kind.OtherError? ==> r.status == 500 && r.detail == "Agent error: " + e.message
  {
    match e.kind
    case ImportError => HttpError(500, InstallHint)
    case RuntimeError => HttpError(400, e.message)
    case OtherError => HttpError(500, "Agent error: " + e.message)
  }

  /**
   * The usage a turn is charged: what the agent reported, or else the
   * estimate over the message and the reply text.
   */
  function TurnUsage(reported: Option<Usage>, message: string, reply: string): (u: Usage)
    ensures HasAny(u)
    ensures reported.Some? && HasAny(reported.value) ==> u == reported.value
    ensures reported.None? ==> u.total == Some(TokenCount(message) + TokenCount(reply))
  {
    if reported.Some? && HasAny(reported.value) then reported.value
    else ComputeUsageFromTexts(message, reply)
  }

  /** The model name a turn records: the reported one, else the configured fallback. */
  function ModelFor(reported: Option<string>, fallback: Option<string>): (r: Option<string>)
    ensures reported.Some? ==> r == reported
    ensures reported.None? ==> r == fallback
  {
    if reported.Some? then reported else fallback
  }

  /** Every turn the agent completes counts as exactly one more turn. */
  lemma TurnCountsOnce(v: StatsView, reported: Option<Usage>, message: string, reply: string)
    ensures Applied(v, Some(TurnUsage(reported, message, reply))).turns == v.turns + 1
  {
  }

  /**
   * `run_agent`. Persisting the turn to the usage ledger is attempted with
   * four positional arguments against a function that takes three, so it
   * always raises a `TypeError` that the route swallows: the ledger is
   * never written and is not a parameter here.
   */
  method RunTurn(cache: SessionCache, message: string, given: Option<string>, generated: string,
                 reply: Outcome<Value>, serialized: Outcome<Value>,
                 render: Value -> string, fallbackModel: Option<string>)
    returns (response: RunResponse, resumed: Option<seq<(string, Value)>>, modelName: Option<string>)
    modifies cache, cache.StatsAt(ResolveConversationId(given, generated))
    ensures var cid := ResolveConversationId(given, generated);
      && resumed == ThreadToLoad(old(cache.Get(cid)))
      && (reply.Threw? ==>
            && response == ErrorResponse(reply.exc)
            && cache.records == old(cache.records)
            && StatsOf(cache.Get(cid)) == old(StatsOf(cache.Get(cid))))
    ensures var cid := ResolveConversationId(given, generated);
      reply.Returned? ==>
        var output := ExtractText(reply.value, render);
        var after := Applied(old(StatsOf(cache.Get(cid))), Some(TurnUsage(ExtractUsage(reply.value), message, output)));
        && modelName == ModelFor(ExtractModelName(reply.value), fallbackModel)
        && (serialized.Returned? ==>
              && cid in cache.records
              && cache.records == old(cache.records)[cid := cache.records[cid]]
              && cache.records[cid].Current?
              && cache.records[cid].thread == serialized.value
              && cache.records[cid].stats.View() == after
              && response == Responded(output, cid, after))
        && (serialized.Threw? ==>
              && response == ErrorResponse(serialized.exc)
              && cache.records == old(cache.records)
              // the statistics were updated in place before serializing failed
              && StatsOf(cache.Get(cid)) == if old(cache.Get(cid)).Some? && old(cache.Get(cid)).value.Current? then after else Zero)
  {
    var cid := ResolveConversationId(given, generated);
    var rec := cache.Get(cid);
    var stats := GetStats(rec);
    resumed := ThreadToLoad(rec);
    modelName := None;
    if reply.Threw? {
      response := ErrorResponse(reply.exc);
      return;
    }
    var result := reply.value;
    var output := ExtractText(result, render);
    var usage := TurnUsage(ExtractUsage(result), message, output);
    modelName := ModelFor(ExtractModelName(result), fallbackModel);
    stats.ApplyUsage(Some(usage));
    if serialized.Threw? {
      response := ErrorResponse(serialized.exc);
      return;
    }
    cache.Put(cid, Current(serialized.value, stats));
    response := Responded(output, cid, stats.View());
  }

  /** A server-sent event of `stream_agent`. */
  datatype Event =
    | Meta(conversationId: string, stats: StatsView)
    | Delta(delta: string)
    | StatsUpdate(stats: StatsView)
    | Done(conversationId: string)
    | Error(message: string)

  /**
   * How the agent answered: through `run_stream`, as the updates it yielded
   * and the exception that ended the iteration early, if any; or, without
   * `run_stream`, by one `run` call.
   */
  datatype AgentCall =
    | Streamed(updates: seq<Value>, failure: Option<Raised>)
    | OneShot(reply: Outcome<Value>)

  /** What the `run_stream` loop has gathered: delta events, text, last usage, last model name. */
  datatype Gathered = Gathered(deltas: seq<Event>, text: string, usage: Option<Usage>, model: Option<string>)

  /**
   * One iteration of the `run_stream` loop: the update's delta extends the
   * text (and is an event when non-empty); a usage or model name it reports
   * replaces the previous one, and one it does not report keeps it.
   */
  function Step(g: Gathered, update: Value): (r: Gathered)
    ensures r.text == g.text + ExtractDelta(update)
    ensures r.deltas == if ExtractDelta(update) == [] then g.deltas else g.deltas + [Delta(ExtractDelta(update))]
    ensures r.usage == if ExtractUsage(update).Some? then ExtractUsage(update) else g.usage
    ensures r.model == if ExtractModelName(update).Some? then ExtractModelName(update) else g.model
  {
    var d := ExtractDelta(update);
    var u := ExtractUsage(update);
    var m := ExtractModelName(update);
    Gathered(if d != [] then g.deltas + [Delta(d)] else g.deltas,
             g.text + d,
             if u.Some? then u else g.usage,
             if m.Some? then m else g.model)
  }

  /**
   * The `run_stream` loop over `us`: at most one delta event per update, and
   * the usage and model name it keeps are non-empty.
   */
  function Gather(us: seq<Value>): (r: Gathered)
    ensures r.usage.Some? ==> HasAny(r.usage.value)
    ensures r.model.Some? ==> !IsBlank(r.model.value)
  {
    if us == [] then Gathered([], [], None, None) else Step(Gather(us[..|us| - 1]), us[|us| - 1])
  }

  /** The last present value of `os`, if any. */
  function LastSome<T>(os: seq<Option<T>>): (r: Option<T>)
  {
    if os == [] then None
    else if os[|os| - 1].Some? then os[|os| - 1]
    else LastSome(os[..|os| - 1])
  }

  /**
   * `LastSome` is present exactly when some value is, and is then the one
   * no later value follows.
   */
  lemma {:induction false} LastSomeSpec<T>(os: seq<Option<T>>)
    ensures LastSome(os).Some? <==> exists i | 0 <= i < |os| :: os[i].Some?
    ensures LastSome(os).Some? ==> exists i | 0 <= i < |os| ::
      LastSome(os) == os[i] && forall j | i < j < |os| :: os[j].None?
  {
    if os != [] {
      var n := |os|;
      if os[n - 1].Some? {
        assert LastSome(os) == os[n - 1];
      } else {
        var init := os[..n - 1];
        LastSomeSpec(init);
        if LastSome(init).Some? {
          var i :| 0 <= i < n - 1 && LastSome(init) == init[i] && forall j | i < j < n - 1 :: init[j].None?;
          assert os[i] == init[i];
          assert forall j | i < j < n :: os[j].None? by {
            forall j | i < j < n - 1
              ensures os[j].None?
            {
              assert os[j] == init[j];
            }
          }
        } else {
          forall i | 0 <= i < n
            ensures os[i].None?
          {
            if i < n - 1 {
              assert os[i] == init[i];
            }
          }
        }
      }
    }
  }

  /** What each update reports as usage. */
  ghost function UsageReports(us: seq<Value>): (os: seq<Option<Usage>>)
  {
    seq(|us|, i requires 0 <= i < |us| => ExtractUsage(us[i]))
  }

  /** What each update reports as model name. */
  ghost function ModelReports(us: seq<Value>): (os: seq<Option<string>>)
  {
    seq(|us|, i requires 0 <= i < |us| => ExtractModelName(us[i]))
  }

  /**
   * The last report wins: the loop keeps the usage of the last update that
   * reported one (with `LastSomeSpec`: none exactly when no update did).
   */
  lemma {:induction false} GatherKeepsLastUsage(us: seq<Value>)
    ensures Gather(us).usage == LastSome(UsageReports(us))
  {
    if us != [] {
      var n := |us|;
      var init := us[..n - 1];
      GatherKeepsLastUsage(init);
      assert UsageReports(us)[..n - 1] == UsageReports(init);
      assert UsageReports(us)[n - 1] == ExtractUsage(us[n - 1]);
    }
  }

  /** The same for the model name: the one the last update naming a model gave. */
  lemma {:induction false} GatherKeepsLastModel(us: seq<Value>)
    ensures Gather(us).model == LastSome(ModelReports(us))
  {
    if us != [] {
      var n := |us|;
      var init := us[..n - 1];
      GatherKeepsLastModel(init);
      assert ModelReports(us)[..n - 1] == ModelReports(init);
      assert ModelReports(us)[n - 1] == ExtractModelName(us[n - 1]);
    }
  }

  /** The exception the agent call ended with, if any. */
  function AgentFailure(call: AgentCall): Option<Raised>
  {
    match call
    case Streamed(_, failure) => failure
    case OneShot(reply) => if reply.Threw? then Some(reply.exc) else None
  }

  /** The delta events the agent call produces. */
  function CallDeltas(call: AgentCall, render: Value -> string): seq<Event>
  {
    match call
    case Streamed(us, _) => Gather(us).deltas
    case OneShot(reply) =>
      if reply.Threw? then []
      else
        var out := ExtractText(reply.value, render);
        if out != [] then [Delta(out)] else []
  }

  /** The reply text the agent call produces. */
  function CallText(call: AgentCall, render: Value -> string): string
  {
    match call
    case Streamed(us, _) => Gather(us).text
    case OneShot(reply) => if reply.Threw? then [] else ExtractText(reply.value, render)
  }

  /** The usage the agent call reported. */
  function CallUsage(call: AgentCall): Option<Usage>
  {
    match call
    case Streamed(us, _) => Gather(us).usage
    case OneShot(reply) => if reply.Threw? then None else ExtractUsage(reply.value)
  }

  /** The model name the agent call reported. */
  function CallModel(call: AgentCall): Option<string>
  {
    match call
    case Streamed(us, _) => Gather(us).model
    case OneShot(reply) => if reply.Threw? then None else ExtractModelName(reply.value)
  }

  predicate IsDelta(e: Event)
  {
    e.Delta? && e.delta != []
  }

  predicate AllDeltas(es: seq<Event>)
  {
    forall i | 0 <= i < |es| :: IsDelta(es[i])
  }

  /** The text a client assembles from the delta events it received. */
  function Joined(es: seq<Event>): string
  {
    if es == [] then [] else Joined(es[..|es| - 1]) + (if es[|es| - 1].Delta? then es[|es| - 1].delta else [])
  }

  /**
   * The event protocol: `meta` first, then non-empty deltas, then either one
   * `error`, or `stats` followed by `done` for the conversation of `meta`.
   */
  predicate EventOrder(events: seq<Event>)
  {
    && |events| >= 2
    && events[0].Meta?
    && var n := |events|;
       || (events[n - 1].Error? && AllDeltas(events[1..n - 1]))
       || (&& n >= 3
           && events[n - 2].StatsUpdate?
           && events[n - 1].Done?
           && events[n - 1].conversationId == events[0].conversationId
           && AllDeltas(events[1..n - 2]))
  }

  /** The gathered deltas are all non-empty and join to the gathered text. */
  lemma {:induction false} GatherSpec(us: seq<Value>)
    ensures AllDeltas(Gather(us).deltas)
    ensures Joined(Gather(us).deltas) == Gather(us).text
  {
    if us != [] {
      var init := us[..|us| - 1];
      GatherSpec(init);
      var d := ExtractDelta(us[|us| - 1]);
      if d != [] {
        DeltaStep(Gather(init).deltas, Gather(init).text, d);
      } else {
        assert Gather(init).text + d == Gather(init).text;
      }
    }
  }

  /** One more non-empty delta keeps the deltas non-empty and joining to the text. */
  lemma DeltaStep(deltas: seq<Event>, text: string, d: string)
    requires AllDeltas(deltas) && Joined(deltas) == text && d != []
    ensures AllDeltas(deltas + [Delta(d)]) && Joined(deltas + [Delta(d)]) == text + d
  {
    JoinedAppend(deltas, [Delta(d)]);
  }

  lemma {:induction false} JoinedAppend(a: seq<Event>, b: seq<Event>)
    ensures Joined(a + b) == Joined(a) + Joined(b)
  {
    if b == [] {
      assert a + b == a;
    } else {
      assert (a + b)[..|a + b| - 1] == a + b[..|b| - 1];
      JoinedAppend(a, b[..|b| - 1]);
    }
  }

  /** What the agent call produced is what a client joins from its delta events. */
  lemma CallDeltasJoin(call: AgentCall, render: Value -> string)
    ensures AllDeltas(CallDeltas(call, render))
    ensures Joined(CallDeltas(call, render)) == CallText(call, render)
  {
    match call
    case Streamed(us, _) => GatherSpec(us);
    case OneShot(reply) =>
  }

  /** `meta`, the deltas, then an `error`, follows the protocol. */
  lemma ErrorEndsStream(meta: Event, deltas: seq<Event>, message: string)
    requires meta.Meta? && AllDeltas(deltas)
    ensures var events := [meta] + deltas + [Error(message)];
      && EventOrder(events) && events[0] == meta && events[|events| - 1] == Error(message)
      && Joined(events) == Joined(deltas)
  {
    var events := [meta] + deltas + [Error(message)];
    assert events[1..|events| - 1] == deltas;
    JoinedBetween(meta, deltas, [Error(message)]);
  }

  /** `meta`, the deltas, then `stats` and `done` for the same conversation, follows the protocol. */
  lemma DoneEndsStream(meta: Event, deltas: seq<Event>, stats: StatsView)
    requires meta.Meta? && AllDeltas(deltas)
    ensures var events := [meta] + deltas + [StatsUpdate(stats), Done(meta.conversationId)];
      && EventOrder(events) && events[0] == meta
      && events[|events| - 2] == StatsUpdate(stats) && events[|events| - 1] == Done(meta.conversationId)
      && Joined(events) == Joined(deltas)
  {
    var events := [meta] + deltas + [StatsUpdate(stats), Done(meta.conversationId)];
    assert events[1..|events| - 2] == deltas;
    JoinedBetween(meta, deltas, [StatsUpdate(stats), Done(meta.conversationId)]);
  }

  /** A stream ends in exactly one of `error` and `done`, and only as its last event. */
  lemma OneTerminalEvent(events: seq<Event>)
    requires EventOrder(events)
    ensures (exists i | 0 <= i < |events| :: events[i].Error?) != (exists i | 0 <= i < |events| :: events[i].Done?)
    ensures forall i | 0 <= i < |events| - 1 :: !events[i].Error? && !events[i].Done?
  {
    var n := |events|;
    if events[n - 1].Error? {
      assert forall i | 1 <= i < n - 1 :: events[1..n - 1][i - 1] == events[i];
    } else {
      assert forall i | 1 <= i < n - 2 :: events[1..n - 2][i - 1] == events[i];
    }
  }

  /**
   * The `run_stream` loop of `stream_agent`'s event generator: a delta event
   * per non-empty delta, the accumulated text, and the last usage and model
   * name any update reported.
   */
  method CollectUpdates(updates: seq<Value>)
    returns (deltas: seq<Event>, acc: string, lastUsage: Option<Usage>, lastModel: Option<string>)
    ensures Gathered(deltas, acc, lastUsage, lastModel) == Gather(updates)
  {
    deltas, acc, lastUsage, lastModel := [], "", None, None;
    var i := 0;
    while i < |updates|
      invariant 0 <= i <= |updates|
      invariant Gathered(deltas, acc, lastUsage, lastModel) == Gather(updates[..i])
    {
      assert updates[..i + 1][..i] == updates[..i];
      var delta := ExtractDelta(updates[i]);
      if delta != [] {
        acc := acc + delta;
        deltas := deltas + [Delta(delta)];
      } else {
        assert acc + delta == acc;
      }
      var u := ExtractUsage(updates[i]);
      if u.Some? {
        lastUsage := u;
      }
      var m := ExtractModelName(updates[i]);
      if m.Some? {
        lastModel := m;
      }
      i := i + 1;
    }
    assert updates[..|updates|] == updates;
  }

  /**
   * The agent-call part of `stream_agent`'s event generator: `run_stream`
   * when the agent has it, else one `run` whose non-empty text is a single
   * delta.
   */
  method Collect(call: AgentCall, render: Value -> string)
    returns (deltas: seq<Event>, acc: string, lastUsage: Option<Usage>, lastModel: Option<string>)
    ensures deltas == CallDeltas(call, render) && AllDeltas(deltas)
    ensures acc == CallText(call, render) && Joined(deltas) == acc
    ensures lastUsage == CallUsage(call)
    ensures lastModel == CallModel(call)
  {
    CallDeltasJoin(call, render);
    match call {
      case Streamed(updates, _) =>
        deltas, acc, lastUsage, lastModel := CollectUpdates(updates);
      case OneShot(reply) =>
        deltas, acc, lastUsage, lastModel := [], "", None, None;
        if reply.Returned? {
          var output := ExtractText(reply.value, render);
          if output != [] {
            acc := acc + output;
            deltas := deltas + [Delta(output)];
          }
          lastUsage := ExtractUsage(reply.value);
          lastModel := ExtractModelName(reply.value);
        }
    }
  }

  /** Events around the deltas that carry no text leave the joined text that of the deltas. */
  lemma JoinedBetween(meta: Event, deltas: seq<Event>, tail: seq<Event>)
    requires !meta.Delta? && forall k | 0 <= k < |tail| :: !tail[k].Delta?
    ensures Joined([meta] + deltas + tail) == Joined(deltas)
    decreases |tail|
  {
    if tail == [] {
      assert [meta] + deltas + tail == [meta] + deltas;
      JoinedAppend([meta], deltas);
      assert Joined([meta]) == Joined([meta][..0]);
    } else {
      var init := tail[..|tail| - 1];
      assert [meta] + deltas + tail == ([meta] + deltas + init) + [tail[|tail| - 1]];
      JoinedBetween(meta, deltas, init);
    }
  }

  /**
   * The events `stream_agent` yields for a turn of conversation `cid` whose
   * stats were `before`: `meta` with those stats, the deltas, then an `error`
   * for a failed agent call or a failed serialization, else `stats` with the
   * turn applied and `done`. Every stream follows the protocol, and a client
   * joining its delta events gets the reply text.
   */
  function StreamEvents(cid: string, before: StatsView, call: AgentCall, render: Value -> string,
                        message: string, serialized: Outcome<Value>): (events: seq<Event>)
    ensures EventOrder(events) && events[0] == Meta(cid, before)
    ensures Joined(events) == CallText(call, render)
    ensures AgentFailure(call).Some? ==> events[|events| - 1] == Error("Agent error: " + AgentFailure(call).value.message)
    ensures AgentFailure(call).None? && serialized.Threw? ==> events[|events| - 1] == Error("Agent error: " + serialized.exc.message)
    ensures AgentFailure(call).None? && serialized.Returned? ==>
      && events[|events| - 2] == StatsUpdate(Applied(before, Some(TurnUsage(CallUsage(call), message, CallText(call, render)))))
      && events[|events| - 1] == Done(cid)
  {
    var meta := Meta(cid, before);
    var deltas := CallDeltas(call, render);
    CallDeltasJoin(call, render);
    if AgentFailure(call).Some? then
      var error := "Agent error: " + AgentFailure(call).value.message;
      ErrorEndsStream(meta, deltas, error);
      [meta] + deltas + [Error(error)]
    else if serialized.Threw? then
      var error := "Agent error: " + serialized.exc.message;
      ErrorEndsStream(meta, deltas, error);
      [meta] + deltas + [Error(error)]
    else
      var after := Applied(before, Some(TurnUsage(CallUsage(call), message, CallText(call, render))));
      DoneEndsStream(meta, deltas, after);
      [meta] + deltas + [StatsUpdate(after), Done(cid)]
  }

  /**
   * `stream_agent`: the events it yields and the model name it would record
   * (see `RunTurn` on why the ledger is never written). Like `RunTurn`, a
   * failed serialization still leaves the turn counted in a cached record's
   * stats object.
   */
  method StreamTurn(cache: SessionCache, message: string, given: Option<string>, generated: string,
                    call: AgentCall, serialized: Outcome<Value>,
                    render: Value -> string, fallbackModel: Option<string>)
    returns (events: seq<Event>, resumed: Option<seq<(string, Value)>>, modelName: Option<string>)
    modifies cache, cache.StatsAt(ResolveConversationId(given, generated))
    ensures var cid := ResolveConversationId(given, generated);
      && events == StreamEvents(cid, old(StatsOf(cache.Get(cid))), call, render, message, serialized)
      && resumed == ThreadToLoad(old(cache.Get(cid)))
      && (AgentFailure(call).Some? ==>
            && cache.records == old(cache.records)
            && StatsOf(cache.Get(cid)) == old(StatsOf(cache.Get(cid))))
    ensures var cid := ResolveConversationId(given, generated);
      AgentFailure(call).None? ==>
        var usage := TurnUsage(CallUsage(call), message, CallText(call, render));
        var after := Applied(old(StatsOf(cache.Get(cid))), Some(usage));
        && modelName == ModelFor(CallModel(call), fallbackModel)
        && (serialized.Returned? ==>
              && cid in cache.records
              && cache.records == old(cache.records)[cid := cache.records[cid]]
              && cache.records[cid].Current?
              && cache.records[cid].thread == serialized.value
              && cache.records[cid].stats.View() == after)
        && (serialized.Threw? ==>
              && cache.records == old(cache.records)
              && StatsOf(cache.Get(cid)) == if old(cache.Get(cid)).Some? && old(cache.Get(cid)).value.Current? then after else Zero)
  {
    var cid := ResolveConversationId(given, generated);
    var rec := cache.Get(cid);
    var stats := GetStats(rec);
    resumed := ThreadToLoad(rec);
    modelName := None;
    ghost var before := stats.View();
    var meta := Meta(cid, stats.View());
    var deltas, acc, lastUsage, lastModel := Collect(call, render);
    var failure := AgentFailure(call);
    if failure.Some? {
      events := [meta] + deltas + [Error("Agent error: " + failure.value.message)];
      assert events == StreamEvents(cid, before, call, render, message, serialized);
      return;
    }
    var usage := TurnUsage(lastUsage, message, acc);
    modelName := ModelFor(lastModel, fallbackModel);
    stats.ApplyUsage(Some(usage));
    if serialized.Threw? {
      events := [meta] + deltas + [Error("Agent error: " + serialized.exc.message)];
      assert events == StreamEvents(cid, before, call, render, message, serialized);
      return;
    }
    cache.Put(cid, Current(serialized.value, stats));
    events := [meta] + deltas + [StatsUpdate(stats.View()), Done(cid)];
    assert events == StreamEvents(cid, before, call, render, message, serialized);
  }
}
