/** What the caller of a streamed turn gets, told from the events alone. */
module StreamReply {
  import opened SortedMaps
  import opened SseStream
  import opened StreamAssembly
  import opened StreamTypes
  import opened Wrappers

  // ----- The last word on each part of the header -----

  function LastStart(es: seq<StreamEvent>): Option<MessageResponse>
    decreases |es|
  {
    if es == [] then None
    else
      var n := |es| - 1;
      if es[n].MessageStart? then Some(es[n].message) else LastStart(es[..n])
  }

  function LastUsage(es: seq<StreamEvent>): Usage
    decreases |es|
  {
    if es == [] then NO_USAGE
    else
      var n := |es| - 1;
      if es[n].MessageDelta? then es[n].usage else LastUsage(es[..n])
  }

  /** The last stop reason that was given; a later delta without one keeps it. */
  function LastReason(es: seq<StreamEvent>): Option<string>
    decreases |es|
  {
    if es == [] then None
    else
      var n := |es| - 1;
      if es[n].MessageDelta? && es[n].stopReason.Some? then es[n].stopReason else LastReason(es[..n])
  }

  function HeaderTold(es: seq<StreamEvent>, model: string): Header {
    var start := LastStart(es);
    Header(
      if start.Some? then start.value.id else "stream",
      if start.Some? then start.value.model else model,
      LastReason(es), LastUsage(es), false)
  }

  lemma {:induction false} FoldSnoc(st: Assembly, es: seq<StreamEvent>, e: StreamEvent, codec: JsonCodec)
    requires !st.sawStop && MessageStop !in es
    ensures Fold(st, es + [e], codec) == Step(Fold(st, es, codec), e, codec)
    decreases |es|
  {
    var all := es + [e];
    if es == [] {
      assert all[0] == e && all[1..] == [];
    } else {
      assert es[0] in es;
      assert all[0] == es[0] && all[1..] == es[1..] + [e];
      FoldSnoc(Step(st, es[0], codec), es[1..], e, codec);
    }
  }

  lemma {:induction false} HeaderIsTold(es: seq<StreamEvent>, model: string, codec: JsonCodec)
    requires MessageStop !in es
    ensures HeaderOf(Fold(Start(model), es, codec)) == HeaderTold(es, model)
    decreases |es|
  {
    if es != [] {
      var n := |es| - 1;
      var before, e := es[..n], es[n];
      assert es == before + [e] && e in es;
      HeaderIsTold(before, model, codec);
      FoldSnoc(Start(model), before, e, codec);
      HeaderStep(Fold(Start(model), before, codec), e, codec);
    }
  }

  // ----- Was the message stopped? -----

  lemma {:induction false} StopIsSeen(st: Assembly, es: seq<StreamEvent>, codec: JsonCodec)
    ensures Fold(st, es, codec).sawStop <==> st.sawStop || MessageStop in es
    decreases |es|
  {
    if es != [] && !st.sawStop {
      HeaderStep(st, es[0], codec);
      StopIsSeen(Step(st, es[0], codec), es[1..], codec);
      assert MessageStop in es <==> es[0] == MessageStop || MessageStop in es[1..];
    }
  }

  /** A stream that ends before the message is stopped never yields a message: its error
      is passed on, and without one the request is sent again. */
  lemma UnstoppedIsNoReply(t: Trace, model: string, codec: JsonCodec)
    ensures MessageStop !in t.events ==>
              ReplyTo(t, model, codec) == (if t.error.Some? then Failed(t.error.value) else SentAgain)
    ensures MessageStop in t.events ==> !ReplyTo(t, model, codec).Failed?
  {
    StopIsSeen(Start(model), t.events, codec);
  }

  // ----- The whole reply -----

  predicate StoppedTool(s: Script) {
    s.ToolScript? && s.stopped
  }

  lemma OutcomeKinds(s: Script, codec: JsonCodec)
    ensures StoppedTool(s) <==> Outcome(s, codec).Some? && Outcome(s, codec).value.ToolUse?
  {
  }

  lemma ValuesAre<V>(m: map<int, V>, v: V)
    ensures v in Values(m) <==> exists k :: k in m && m[k] == v
  {
    var ks, vs := SortedKeys(m.Keys), Values(m);
    if v in vs {
      var i: nat :| i < |vs| && vs[i] == v;
      assert ks[i] in m && m[ks[i]] == v;
    }
    if k :| k in m && m[k] == v {
      assert k in ks;
      var i: nat :| i < |ks| && ks[i] == k;
      assert vs[i] == v;
    }
  }

  lemma ToolsAmongOutcomes(plan: map<u32, Script>, codec: JsonCodec)
    ensures var content := Values(Outcomes(plan, codec));
            (exists b :: b in content && b.ToolUse?) <==> (exists i :: i in plan && StoppedTool(plan[i]))
  {
    var made := Outcomes(plan, codec);
    var content := Values(made);
    if b :| b in content && b.ToolUse? {
      ValuesAre(made, b);
      var i: u32 :| i in made && made[i] == b;
      OutcomeKinds(plan[i], codec);
    }
    if i :| i in plan && StoppedTool(plan[i]) {
      OutcomeKinds(plan[i], codec);
      ValuesAre(made, made[i]);
    }
  }

  /** A stopped stream of interleaved blocks is answered with their outcomes in index order
      and the last id, model, usage and stop reason it gave; the reason falls back to
      `tool_use` just when a tool block was stopped. With no outcome it is sent again. */
  lemma ReplyOfBlocks(es: seq<StreamEvent>, plan: map<u32, Script>, tail: Trace, model: string, codec: JsonCodec)
    requires MessageStop !in es && Interleaves(es, plan) && forall i | i in plan :: WellFormed(plan[i])
    ensures var content := Values(Outcomes(plan, codec));
            var told := HeaderTold(es, model);
            var fallback := if exists i :: i in plan && StoppedTool(plan[i]) then "tool_use" else "end_turn";
            ReplyTo(Then(es + [MessageStop], tail), model, codec) ==
            if content == [] then SentAgain
            else Streamed(MessageResponse(told.id, content, told.model,
                            Some(UnwrapOr(told.stopReason, fallback)), told.usage))
  {
    InterleavedScripts(es, plan, model, codec);
    HeaderIsTold(es, model, codec);
    FoldToStop(Start(model), es, tail.events, codec);
    ToolsAmongOutcomes(plan, codec);
  }
}
