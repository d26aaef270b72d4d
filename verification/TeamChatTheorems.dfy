/** What every run of the team-chat panel guarantees. */
module TeamChatTheorems {
  import opened Wrappers
  import opened TeamChat
  import opened TeamChatHistory
  import opened TeamChatProofs

  function After(server: Server, events: seq<Event>): Panel {
    Run(Open(server), events)
  }

  lemma AfterKeeps(server: Server, events: seq<Event>)
    requires WellKeyed(server)
    ensures Inv(After(server, events))
  {
    hide Inv, Run;
    OpenKeeps(server);
    RunKeeps(Open(server), events);
  }

  lemma PermittedAt(server: Server, events: seq<Event>, j: nat)
    requires WellKeyed(server) && j < |After(server, events).log|
    ensures Permitted(After(server, events).log[..j], After(server, events).log[j])
  {
    hide Permitted, Summary, Run;
    AfterKeeps(server, events);
    assert TraceOk(After(server, events).log);
  }

  // ---------------------------------------------------------------- reads against sends

  /** No read whose result is displayed overlaps a send, anywhere in its lifetime. */
  lemma DisplayedReadsOverlapNoSend(server: Server, events: seq<Event>, j: nat, began: nat, isLoad: bool)
    requires WellKeyed(server)
    requires var log := After(server, events).log;
             j < |log| && (log[j].Shown? || log[j].Blanked?) && log[j].source == ByRead(began, isLoad)
    ensures OverlapsNoSend(After(server, events).log[..j], began)
  {
    hide Summary, Run, OverlapsNoSend;
    PermittedAt(server, events, j);
  }

  /** Once a send has been acknowledged, no snapshot of its thread displayed later lacks the message
      that was sent, or any other that the acknowledgement showed, and no load displays "no
      conversation". */
  lemma AcknowledgedMessagesStay(server: Server, events: seq<Event>, i: nat, j: nat)
    requires WellKeyed(server)
    requires var log := After(server, events).log;
             i < j < |log| && log[i].Acked?
    ensures var log := After(server, events).log;
            var Acked(draft, _, receipt, reply) := log[i];
            && receipt.message.body == Trim(draft)
            && (log[j].Shown? && log[j].thread.id == receipt.thread ==>
                  && receipt.message in log[j].thread.messages
                  && (reply.Some? ==> Kept(reply.value, log[j].thread)))
            && (log[j].Blanked? ==> !log[j].emptyList)
  {
    hide Summary, Run, Kept, Trim, SourceOk;
    var log := After(server, events).log;
    PermittedAt(server, events, i);
    PermittedAt(server, events, j);
    assert log[..j][i] == log[i];
  }

  /** Different acknowledgements are for different messages: what is sent twice is stored, and from
      then on displayed, twice. */
  lemma EachSendHasItsMessage(server: Server, events: seq<Event>, i: nat, j: nat)
    requires WellKeyed(server)
    requires var log := After(server, events).log; i < j < |log| && log[i].Acked? && log[j].Acked?
    ensures var log := After(server, events).log; log[i].receipt.message != log[j].receipt.message
  {
    hide Summary, Run, Trim, StoredRight;
    var log := After(server, events).log;
    PermittedAt(server, events, j);
    assert log[..j][i] == log[i];
  }

  /** An acknowledged message is in the thread that was on display when its send began, unless none
      was or it was closed; a reply is of that same thread. */
  lemma StoredWhereItWasWritten(server: Server, events: seq<Event>, i: nat)
    requires WellKeyed(server)
    requires var log := After(server, events).log; i < |log| && log[i].Acked?
    ensures var log := After(server, events).log;
            var Acked(_, began, receipt, reply) := log[i];
            && began < i && log[began].SendBegan?
            && (var shown := Summary(log[..began]).shown;
                shown.Some? && !IsClosed(shown) ==> receipt.thread == shown.value.id)
            && (reply.Some? ==> reply.value.id == receipt.thread)
  {
    hide Summary, Run, Trim, IsClosed;
    var log := After(server, events).log;
    PermittedAt(server, events, i);
    assert log[..i][..log[i].began] == log[..log[i].began];
  }

  /** The last entry that decides the display. */
  lemma {:induction false} LastDisplay(log: seq<Entry>, i: nat)
    requires i < |log| && (log[i].Shown? || log[i].Blanked?)
    ensures exists j :: i <= j < |log|
                        && (Summary(log).shown.Some? ==> log[j].Shown? && log[j].thread == Summary(log).shown.value)
                        && (Summary(log).shown.None? ==> log[j].Blanked?)
  {
    hide Summary;
    var last := log[|log| - 1];
    assert log == log[..|log| - 1] + [last];
    SummaryAppend(log[..|log| - 1], last);
    if !last.Shown? && !last.Blanked? {
      LastDisplay(log[..|log| - 1], i);
    }
  }

  /** From the moment a reply is displayed, whatever the panel shows of that thread has the message
      that was sent and all of the reply's; the panel stops showing a thread only on a 2xx answer
      without data. */
  lemma DisplayNeverLosesAReply(server: Server, events: seq<Event>, i: nat)
    requires WellKeyed(server)
    requires var log := After(server, events).log;
             && i + 1 < |log| && log[i].Acked? && log[i].reply.Some?
             && log[i + 1].Shown? && log[i + 1].source.BySend? && log[i + 1].thread == log[i].reply.value
    ensures var p := After(server, events);
            && (p.thread.Some? && p.thread.value.id == p.log[i].reply.value.id
                ==> Holds(p.thread.value, p.log[i].receipt, p.log[i].reply))
            && (p.thread.None? ==> exists j :: i < j < |p.log| && p.log[j].Blanked? && !p.log[j].emptyList)
  {
    hide Summary, Run, Kept, Trim;
    var p := After(server, events);
    AfterKeeps(server, events);
    PermittedAt(server, events, i);
    assert p.thread == Summary(p.log).shown by { assert CountersOk(p); }
    LastDisplay(p.log, i + 1);
    var j :| i + 1 <= j < |p.log|
             && (p.thread.Some? ==> p.log[j].Shown? && p.log[j].thread == p.thread.value)
             && (p.thread.None? ==> p.log[j].Blanked?);
    AcknowledgedMessagesStay(server, events, i, j);
  }

  /** The arbitration is exact: a finishing read passes the three tests if and only if it was not
      aborted and overlapped no send.  Nothing else is ever discarded. */
  lemma ArbitrationIsExact(server: Server, events: seq<Event>, op: nat)
    requires WellKeyed(server) && op in After(server, events).readOps
    ensures var p := After(server, events);
            MayInstall(p, p.readOps[op]) <==> p.readOps[op].alive && OverlapsNoSend(p.log, p.readOps[op].began)
  {
    hide Run, Inv;
    AfterKeeps(server, events);
    MayInstallMeans(After(server, events), op);
  }

  // ---------------------------------------------------------------- sends

  /** At most one send is under way, and the log alternates: between two beginnings there is an end. */
  lemma AtMostOneSend(server: Server, events: seq<Event>, i: nat, j: nat)
    requires WellKeyed(server)
    requires var log := After(server, events).log; i < j < |log| && log[i].SendBegan? && log[j].SendBegan?
    ensures exists k :: i < k < j && After(server, events).log[k].SendEnded?
  {
    hide Run, Summary;
    var log := After(server, events).log;
    PermittedAt(server, events, i);
    PermittedAt(server, events, j);
    if forall k :: i < k < j ==> !log[k].SendEnded? {
      OpenGrows(log, i + 1, j);
      assert log[..i + 1] == log[..i] + [log[i]];
      SummaryAppend(log[..i], log[i]);
    }
  }

  lemma {:induction false} OpenGrows(log: seq<Entry>, m: nat, n: nat)
    requires m <= n <= |log| && forall k :: m <= k < n ==> !log[k].SendEnded?
    ensures Summary(log[..m]).open <= Summary(log[..n]).open
  {
    hide Summary;
    if m == n {
    } else {
      OpenGrows(log, m, n - 1);
      assert log[..n] == log[..n - 1] + [log[n - 1]];
      SummaryAppend(log[..n - 1], log[n - 1]);
    }
  }

  lemma OneSendUnderWay(server: Server, events: seq<Event>)
    requires WellKeyed(server)
    ensures var p := After(server, events);
            |p.sendOps| <= 1 && (p.mutationPending <==> |p.sendOps| == 1)
  {
    hide Run, HistoryOk, AcksClosed, CountersOk, DraftsOk;
    AfterKeeps(server, events);
    var p := After(server, events);
    assert |p.sendOps| == |p.sendOps.Keys|;
    if op :| op in p.sendOps {
      assert p.sendOps.Keys == {op};
    }
  }

  // ---------------------------------------------------------------- changes of locale

  /** A reply is displayed only if the panel stayed mounted in one locale since its send began. */
  lemma DisplayedRepliesKeepContext(server: Server, events: seq<Event>, j: nat, began: nat)
    requires WellKeyed(server)
    requires var log := After(server, events).log;
             j < |log| && (log[j].Shown? || log[j].Blanked?) && log[j].source == BySend(began)
    ensures var log := After(server, events).log;
            began < j && log[began].SendBegan? && ContextUnchanged(log[..j], began)
  {
    hide Summary, Run, ContextUnchanged;
    PermittedAt(server, events, j);
  }

  /** A send that ends is stale exactly when the panel is mounted and a change of context came
      after the send began; a load begun during the send is never displayed. */
  lemma StaleExactlyAfterContextChange(server: Server, events: seq<Event>, i: nat, j: nat)
    requires WellKeyed(server)
    requires var log := After(server, events).log;
             && i < j < |log| && log[i].SendBegan? && log[j].SendEnded?
             && forall k :: i < k < j ==> !log[k].SendBegan?
    ensures var log := After(server, events).log;
            log[j].stale <==> Summary(log[..j]).mounted && exists k :: i < k < j && ChangesContext(log[k])
    ensures var log := After(server, events).log;
            forall k :: j <= k < |log| && (log[k].Shown? || log[k].Blanked?) && log[k].source.ByRead?
                        ==> !(i <= log[k].source.began <= j)
  {
    hide Run, Summary, OverlapsNoSend;
    var log := After(server, events).log;
    PermittedAt(server, events, j);
    SendContextStays(log, i, j);
    ContextsGrow(log, i + 1, j);
    assert log[..i + 1] == log[..i] + [log[i]];
    SummaryAppend(log[..i], log[i]);
    forall k | j <= k < |log| && (log[k].Shown? || log[k].Blanked?) && log[k].source.ByRead?
      ensures !(i <= log[k].source.began <= j)
    {
      if i <= log[k].source.began <= j < k {
        DisplayedReadsOverlapNoSend(server, events, k, log[k].source.began, log[k].source.isLoad);
        assert log[..k][j] == log[j];
        NotAcross(log[..k], log[k].source.began, j);
      }
    }
  }

  lemma NotAcross(log: seq<Entry>, began: nat, j: nat)
    requires OverlapsNoSend(log, began) && began <= j < |log|
    ensures !log[j].SendEnded?
  {
    hide Summary;
  }

  lemma {:induction false} SendContextStays(log: seq<Entry>, i: nat, j: nat)
    requires i < j <= |log| && log[i].SendBegan? && forall k :: i < k < j ==> !log[k].SendBegan?
    ensures Summary(log[..j]).sendContext == Summary(log[..i]).contexts
  {
    hide Summary;
    assert log[..j] == log[..j - 1] + [log[j - 1]];
    SummaryAppend(log[..j - 1], log[j - 1]);
    if i == j - 1 {
    } else {
      SendContextStays(log, i, j - 1);
    }
  }

  lemma {:induction false} OwedUntilLoaded(log: seq<Entry>, i: nat)
    requires i < |log| && log[i] == SendEnded(true)
    requires forall k :: i < k < |log| ==> !log[k].LoadBegan? && !log[k].Unmounted?
    ensures Summary(log).reloadOwed
    decreases |log|
  {
    hide Summary;
    var last := |log| - 1;
    assert log == log[..last] + [log[last]];
    SummaryAppend(log[..last], log[last]);
    if i == last {
    } else {
      OwedUntilLoaded(log[..last], i);
    }
  }

  /** After a stale send a load begins, unless the panel unmounts first: until then the reload
      stays requested, and when the effect runs, its load starts at the current version, which no
      end of that send can bump any more. */
  lemma StaleSendIsReloaded(server: Server, events: seq<Event>, i: nat)
    requires WellKeyed(server)
    requires var log := After(server, events).log; i < |log| && log[i] == SendEnded(true)
    ensures var p := After(server, events);
            || (exists k :: i < k < |p.log| && (p.log[k].LoadBegan? || p.log[k].Unmounted?))
            || (var q := Step(p, ReloadEffect);
                && q.log == p.log + [LoadBegan]
                && p.nextOperation in q.readOps
                && q.readOps[p.nextOperation] == Read(true, q.mutationVersion, true, ListAsked, |p.log|)
                && (!p.mutationPending ==> MayInstall(q, q.readOps[p.nextOperation])))
  {
    hide Run, Summary;
    var p := After(server, events);
    if forall k :: i < k < |p.log| ==> !p.log[k].LoadBegan? && !p.log[k].Unmounted? {
      AfterKeeps(server, events);
      OwedUntilLoaded(p.log, i);
      assert p.mounted && p.loadedVersion < p.reloadVersion by { assert CountersOk(p); }
    }
  }

  // ---------------------------------------------------------------- the composer

  lemma ReadsLeaveComposer(p: Panel, op: nat)
    requires op in p.readOps
    ensures p.readOps[op].stage.ListAnswered? ==> ListArrived(p, op).message == p.message
    ensures p.readOps[op].stage.DetailAnswered? ==> DetailArrived(p, op).message == p.message
  {
    hide Install, MayInstall;
    var r := p.readOps[op];
    InstallOutcome(Forget(p, op), None, ByRead(r.began, true), true);
    if r.stage.DetailAnswered? { InstallOutcome(Forget(p, op), r.stage.thread, ByRead(r.began, r.isLoad), false); }
  }

  lemma ShowReplyOutcome(p: Panel, s: Send)
    requires s.answer.Some?
    ensures var q := ShowReply(p, s);
            && q.message == p.message && q.mounted == p.mounted && q.draftVersion == p.draftVersion
            && (q.log == p.log
                || (|q.log| == |p.log| + 1 && q.log[..|p.log|] == p.log && !q.log[|p.log|].ComposerCleared?))
  {
    hide Install;
    InstallOutcome(p, s.answer.value.reply, BySend(s.began), false);
  }

  lemma ReplyOutcome(p: Panel, op: nat)
    requires op in p.sendOps && p.sendOps[op].answer.Some?
    ensures var s := p.sendOps[op];
            var shown := ShowReply(Write(p, AckOf(s)), s);
            && shown.message == p.message && shown.mounted == p.mounted && shown.draftVersion == p.draftVersion
            && |p.log| < |shown.log| && (forall k :: |p.log| <= k < |shown.log| ==> !shown.log[k].ComposerCleared?)
  {
    hide ShowReply;
    var s := p.sendOps[op];
    var acked := Write(p, AckOf(s));
    ShowReplyOutcome(acked, s);
    var shown := ShowReply(acked, s);
    assert acked.log[|p.log|].Acked?;
    assert shown.log[..|acked.log|] == acked.log;
    assert shown.log[|p.log|] == acked.log[|p.log|];
  }

  /** Besides typing, only an acknowledged send changes the composer; it empties it, and what it
      removes is exactly the draft that was acknowledged. */
  lemma ComposerLosesOnlyAcknowledgedText(server: Server, events: seq<Event>, e: Event)
    requires WellKeyed(server)
    requires Step(After(server, events), e).message != After(server, events).message
    ensures var p := After(server, events);
            e.Edit? || (&& e.SendSucceeds? && e.op in p.sendOps
                        && p.message == p.sendOps[e.op].draft
                        && Step(p, e).message == "")
  {
    hide Run, HistoryOk, AcksClosed, CountersOk, OperationsOk, Trim, MayInstall, Takes, Grows, SameContext, ShowReply,
      Install,
      KillLoads, KillAll, DetailArrived, ListArrived;
    AfterKeeps(server, events);
    var p := After(server, events);
    match e
    case ListArrives(op) => if op in p.readOps { ReadsLeaveComposer(p, op); }
    case DetailArrives(op) => if op in p.readOps { ReadsLeaveComposer(p, op); }
    case SendSucceeds(op) => if op in p.sendOps && p.sendOps[op].answer.Some? { ReplyOutcome(p, op); }
    case _ =>
  }

  /** An acknowledged send empties the composer exactly when nothing was typed since it began. */
  lemma ComposerClearedExactly(server: Server, events: seq<Event>, op: nat)
    requires WellKeyed(server)
    requires var p := After(server, events); op in p.sendOps && p.sendOps[op].answer.Some?
    ensures var p := After(server, events);
            var q := SendSucceeded(p, op);
            var untouched := p.mounted && p.draftVersion == p.sendOps[op].sentDraftVersion;
            && q.message == (if untouched then "" else p.message)
            && (untouched ==> p.message == p.sendOps[op].draft)
            && (untouched <==> exists k :: |p.log| <= k < |q.log| && q.log[k].ComposerCleared?)
  {
    hide Run, HistoryOk, AcksClosed, CountersOk, OperationsOk, ShowReply;
    AfterKeeps(server, events);
    var p := After(server, events);
    var s := p.sendOps[op];
    ReplyOutcome(p, op);
    var shown := ShowReply(Write(p, AckOf(s)), s);
    var q := SendSucceeded(p, op);
    if p.mounted && p.draftVersion == s.sentDraftVersion {
      assert q.log[|shown.log|] == ComposerCleared(p.message);
    } else {
      assert q.log[..|shown.log|] == shown.log;
    }
  }

  /** Nothing is displayed or cleared while the panel is unmounted, however late a promise settles. */
  lemma NothingAfterUnmount(server: Server, events: seq<Event>, j: nat)
    requires WellKeyed(server)
    requires var log := After(server, events).log;
             j < |log| && (log[j].Shown? || log[j].Blanked? || log[j].ComposerCleared?)
    ensures Summary(After(server, events).log[..j]).mounted
  {
    hide Run, Summary;
    PermittedAt(server, events, j);
  }
}
