/** Which loads are alive: in any run, exactly those that nothing overtook. */
module TeamChatLoads {
  import opened Wrappers
  import opened TeamChat
  import opened TeamChatHistory
  import opened TeamChatProofs

  /** A load is alive as long as nothing overtook it. */
  ghost predicate LoadsAlive(log: seq<Entry>, ops: map<nat, Read>) {
    forall op :: op in ops && ops[op].isLoad && NotOvertaken(log, ops[op].began) ==> ops[op].alive
  }

  /** One of the entries from `m` on overtakes. */
  ghost predicate OvertakenSince(log: seq<Entry>, m: nat) {
    exists k :: m <= k < |log| && Overtakes(log[k])
  }


  ghost predicate Longer(log: seq<Entry>, grown: seq<Entry>) {
    |log| <= |grown| && forall k :: 0 <= k < |log| ==> grown[k] == log[k]
  }

  /** From `p` to `q` the log grew, and operation `at` did not die as a load unless it was overtaken. */
  ghost predicate Clean(p: Panel, q: Panel, at: nat) {
    && Longer(p.log, q.log)
    && (at in q.readOps && q.readOps[at].isLoad && !q.readOps[at].alive ==>
          && at in p.readOps && p.readOps[at].isLoad && p.readOps[at].began == q.readOps[at].began
          && (!p.readOps[at].alive || OvertakenSince(q.log, |p.log|)))
  }

  lemma SameReads(p: Panel, q: Panel, at: nat)
    requires Longer(p.log, q.log)
    requires at in q.readOps ==>
               && at in p.readOps && q.readOps[at].isLoad == p.readOps[at].isLoad
               && q.readOps[at].began == p.readOps[at].began && q.readOps[at].alive == p.readOps[at].alive
    ensures Clean(p, q, at)
  {
    hide Longer, OvertakenSince;
  }

  lemma InstallGrows(p: Panel, thread: Option<Thread>, source: Source, emptyList: bool)
    ensures var q := Install(p, thread, source, emptyList); q.readOps == p.readOps && Longer(p.log, q.log)
  {
  }

  lemma ShowReplyGrows(p: Panel, s: Send)
    requires s.answer.Some?
    ensures ShowReply(p, s).readOps == p.readOps && Longer(p.log, ShowReply(p, s).log)
  {
    hide Install, SameContext;
    InstallGrows(p, s.answer.value.reply, BySend(s.began), false);
  }

  lemma EndSendGrows(p: Panel, op: nat, s: Send)
    ensures EndSend(p, op, s).readOps == p.readOps && Longer(p.log, EndSend(p, op, s).log)
    ensures ClearComposer(p, s).readOps == p.readOps && Longer(p.log, ClearComposer(p, s).log)
  {
  }

  lemma WriteGrows(p: Panel, e: Entry)
    ensures Write(p, e).readOps == p.readOps && Longer(p.log, Write(p, e).log)
  {
  }

  lemma LongerStill(a: seq<Entry>, b: seq<Entry>, c: seq<Entry>)
    requires Longer(a, b) && Longer(b, c)
    ensures Longer(a, c)
  {
  }

  lemma ForgetIsClean(p: Panel, op: nat, q: Panel, at: nat)
    requires q.readOps == Forget(p, op).readOps && Longer(p.log, q.log)
    ensures Clean(p, q, at)
  {
    hide Clean, Longer;
    SameReads(p, q, at);
  }

  lemma ListIsClean(p: Panel, op: nat, at: nat)
    requires op in p.readOps && p.readOps[op].stage.ListAnswered?
    ensures Clean(p, ListArrived(p, op), at)
  {
    hide Install, MayInstall, Clean, Longer, Forget;
    var r := p.readOps[op];
    if r.stage.latest.Some? {
      StageIsClean(p, op, r.(stage := DetailAsked(r.stage.latest.value)), at);
    } else {
      InstallGrows(Forget(p, op), None, ByRead(r.began, true), true);
      ForgetLog(p, op);
      Reflexive(p.log);
      ForgetIsClean(p, op, ListArrived(p, op), at);
    }
  }

  lemma ForgetLog(p: Panel, op: nat)
    ensures Forget(p, op).log == p.log
  {
  }

  lemma Reflexive(log: seq<Entry>)
    ensures Longer(log, log)
  {
  }

  lemma DetailIsClean(p: Panel, op: nat, at: nat)
    requires op in p.readOps && p.readOps[op].stage.DetailAnswered?
    ensures Clean(p, DetailArrived(p, op), at)
  {
    hide Install, MayInstall, Clean, Longer;
    var r := p.readOps[op];
    InstallGrows(Forget(p, op), r.stage.thread, ByRead(r.began, r.isLoad), false);
    Reflexive(p.log);
    SameReads(p, DetailArrived(p, op), at);
  }

  lemma FailureIsClean(p: Panel, op: nat, at: nat)
    requires op in p.readOps
    ensures Clean(p, ReadFailed(p, op), at)
  {
    hide MayInstall, Clean, Longer;
    Reflexive(p.log);
    SameReads(p, ReadFailed(p, op), at);
  }

  lemma ReplyIsClean(p: Panel, op: nat, at: nat)
    requires op in p.sendOps && p.sendOps[op].answer.Some?
    ensures Clean(p, SendSucceeded(p, op), at)
  {
    hide Write, ShowReply, ClearComposer, EndSend, Clean, Longer;
    var s := p.sendOps[op];
    var acked := Write(p, AckOf(s));
    var shown := ShowReply(acked, s);
    var cleared := ClearComposer(shown, s);
    WriteGrows(p, AckOf(s));
    ShowReplyGrows(acked, s);
    EndSendGrows(shown, op, s);
    EndSendGrows(cleared, op, s);
    LongerStill(p.log, acked.log, shown.log);
    LongerStill(p.log, shown.log, cleared.log);
    LongerStill(p.log, cleared.log, EndSend(cleared, op, s).log);
    SameReads(p, SendSucceeded(p, op), at);
  }

  lemma SendFailureIsClean(p: Panel, op: nat, at: nat)
    requires op in p.sendOps
    ensures Clean(p, SendFailed(p, op), at)
  {
    hide EndSend, SameContext, Clean, Longer;
    var s := p.sendOps[op];
    EndSendGrows(if SameContext(p, s) then p.(sendError := true) else p, op, s);
    SameReads(p, SendFailed(p, op), at);
  }

  /** Writing an overtaking entry may kill every load. */
  lemma OvertakingIsClean(p: Panel, q: Panel, k: nat, at: nat)
    requires Longer(p.log, q.log) && |p.log| <= k < |q.log| && Overtakes(q.log[k])
    requires at in q.readOps && q.readOps[at].isLoad && !q.readOps[at].alive ==>
               at in p.readOps && p.readOps[at].isLoad && p.readOps[at].began == q.readOps[at].began
    ensures Clean(p, q, at)
  {
    hide Longer;
    assert OvertakenSince(q.log, |p.log|);
  }

  lemma BeginLoadGrows(p: Panel)
    ensures var q := BeginLoad(p);
            && q.log == p.log + [LoadBegan]
            && q.readOps == p.readOps[p.nextOperation := Read(true, p.mutationVersion, true, ListAsked, |p.log|)]
  {
  }

  lemma ReloadIsClean(p: Panel, at: nat)
    ensures Clean(p, BeginLoad(p.(readOps := KillLoads(p.readOps))), at)
  {
    hide BeginLoad, Clean;
    BeginLoadGrows(p.(readOps := KillLoads(p.readOps)));
    OvertakingIsClean(p, BeginLoad(p.(readOps := KillLoads(p.readOps))), |p.log|, at);
  }

  lemma LocaleIsClean(p: Panel, at: nat)
    ensures Clean(p, LocaleEffects(p), at)
  {
    hide BeginLoad, Clean;
    var killed := p.(contextVersion := p.contextVersion + 2, readOps := KillLoads(p.readOps));
    BeginLoadGrows(Write(killed, LocaleChanged));
    OvertakingIsClean(p, LocaleEffects(p), |p.log|, at);
  }

  lemma UnmountIsClean(p: Panel, at: nat)
    ensures Clean(p, UnmountEffects(p), at)
  {
    hide Clean;
    OvertakingIsClean(p, UnmountEffects(p), |p.log|, at);
  }

  lemma RemountIsClean(p: Panel, at: nat)
    ensures Clean(p, RemountEffects(p), at)
  {
    hide BeginLoad, Clean;
    BeginLoadGrows(Write(p.(contextVersion := p.contextVersion + 1, mounted := true), Remounted));
    OvertakingIsClean(p, RemountEffects(p), |p.log| + 1, at);
  }

  lemma BeginSendIsClean(p: Panel, at: nat)
    ensures Clean(p, BeginSend(p), at)
  {
    hide Trim, Target, Clean;
    SameReads(p, BeginSend(p), at);
  }

  lemma PollIsClean(p: Panel, at: nat)
    requires p.thread.Some?
    ensures Clean(p, SuspendRead(p, Read(false, p.mutationVersion, true, DetailAsked(p.thread.value.id), |p.log|)), at)
  {
  }

  /** A read under way that only changes its stage, or stays. */
  lemma StageIsClean(p: Panel, op: nat, r: Read, at: nat)
    requires op in p.readOps && r == p.readOps[op].(stage := r.stage)
    ensures Clean(p, p.(readOps := p.readOps[op := r]), at)
  {
    hide Clean, Longer;
    Reflexive(p.log);
    SameReads(p, p.(readOps := p.readOps[op := r]), at);
  }

  lemma PollAbortIsClean(p: Panel, op: nat, at: nat)
    requires op in p.readOps && !p.readOps[op].isLoad
    ensures Clean(p, p.(readOps := p.readOps[op := p.readOps[op].(alive := false)]), at)
  {
    hide OvertakenSince;
  }

  lemma ElsewhereIsClean(p: Panel, e: Event, at: nat)
    requires e.ServerChanges? || e.ListServed? || e.DetailServed? || e.SendServed? || e.Retry?
    ensures Clean(p, Step(p, e), at)
  {
    hide Clean, Longer, Grows, Takes, Trim;
    Reflexive(p.log);
    SameReads(p, p, at);
    var q := Step(p, e);
    if e.ListServed? || e.DetailServed? {
      if q != p { StageIsClean(p, e.op, q.readOps[e.op], at); }
    } else {
      SameReads(p, q, at);
    }
  }

  lemma AnswersAreClean(p: Panel, e: Event, at: nat)
    requires e.ListArrives? || e.DetailArrives? || e.ReadFails? || e.SendSucceeds? || e.SendFails?
    ensures Clean(p, Step(p, e), at)
  {
    hide Clean, Longer, ListArrived, DetailArrived, ReadFailed, SendSucceeded, SendFailed;
    Reflexive(p.log);
    SameReads(p, p, at);
    match e
    case ListArrives(op) => if op in p.readOps && p.readOps[op].stage.ListAnswered? { ListIsClean(p, op, at); }
    case DetailArrives(op) => if op in p.readOps && p.readOps[op].stage.DetailAnswered? { DetailIsClean(p, op, at); }
    case ReadFails(op) => if op in p.readOps { FailureIsClean(p, op, at); }
    case SendSucceeds(op) => if op in p.sendOps && p.sendOps[op].answer.Some? { ReplyIsClean(p, op, at); }
    case SendFails(op) => if op in p.sendOps { SendFailureIsClean(p, op, at); }
  }

  lemma StepIsClean(p: Panel, e: Event, at: nat)
    ensures Clean(p, Step(p, e), at)
  {
    if e.ServerChanges? || e.ListServed? || e.DetailServed? || e.SendServed? || e.Retry? {
      hide *;
      ElsewhereIsClean(p, e, at);
    } else if e.ListArrives? || e.DetailArrives? || e.ReadFails? || e.SendSucceeds? || e.SendFails? {
      hide *;
      AnswersAreClean(p, e, at);
    } else {
      HandlersAreClean(p, e, at);
    }
  }

  lemma HandlersAreClean(p: Panel, e: Event, at: nat)
    requires e.PollBegins? || e.PollAborted? || e.Submit? || e.Edit? || e.ChangeLocale? || e.ReloadEffect? || e.Unmount?
             || e.Remount?
    ensures Clean(p, Step(p, e), at)
  {
    hide Clean, Longer, LocaleEffects, UnmountEffects, RemountEffects, BeginLoad, BeginSend, SuspendRead, Write;
    Reflexive(p.log);
    SameReads(p, p, at);
    match e
    case Submit => BeginSendIsClean(p, at);
    case PollBegins => if p.thread.Some? { PollIsClean(p, at); }
    case PollAborted(op) => if op in p.readOps && !p.readOps[op].isLoad { PollAbortIsClean(p, op, at); }
    case Edit(value) =>
      var q := p.(draftVersion := p.draftVersion + 1, message := value);
      WriteGrows(q, Typed);
      SameReads(p, Write(q, Typed), at);
    case ChangeLocale => LocaleIsClean(p, at);
    case ReloadEffect => ReloadIsClean(p, at);
    case Unmount => UnmountIsClean(p, at);
    case Remount => RemountIsClean(p, at);
  }

  lemma StepKeepsAlive(p: Panel, e: Event)
    requires Inv(p) && LoadsAlive(p.log, p.readOps)
    ensures LoadsAlive(Step(p, e).log, Step(p, e).readOps)
  {
    hide Step, HistoryOk, AcksClosed, AcksBefore, CountersOk, OperationsOk;
    var q := Step(p, e);
    forall op | op in q.readOps && q.readOps[op].isLoad && !q.readOps[op].alive
      ensures !NotOvertaken(q.log, q.readOps[op].began)
    {
      StepIsClean(p, e, op);
      LoadHasBegun(p, op);
    }
  }

  lemma LoadHasBegun(p: Panel, op: nat)
    requires Inv(p) && op in p.readOps && p.readOps[op].isLoad
    ensures p.readOps[op].began < |p.log|
  {
    hide AcksClosed, AcksBefore, CountersOk, OperationsOk, TraceOk, WellKeyed, AcksOnServer, SendsOk, AnswerOk, Summary;
    assert ReadOk(p.log, p.readOps[op]);
  }

  lemma {:induction false} RunKeepsAlive(p: Panel, events: seq<Event>)
    requires Inv(p) && LoadsAlive(p.log, p.readOps)
    ensures LoadsAlive(Run(p, events).log, Run(p, events).readOps)
    decreases |events|
  {
    hide Inv, Step, LoadsAlive;
    if events == [] {
    } else {
      StepKeeps(p, events[0]);
      StepKeepsAlive(p, events[0]);
      RunKeepsAlive(Step(p, events[0]), events[1..]);
    }
  }
}
