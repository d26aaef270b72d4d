/** Every run of the team-chat panel: the invariant, and what follows from it. */
module TeamChatProofs {
  import opened Wrappers
  import opened TeamChat
  import opened TeamChatHistory

  // ---------------------------------------------------------------- the invariant

  /** A thread read off the server holds everything acknowledged before the read began. */
  ghost predicate AnswerOk(log: seq<Entry>, stage: Stage) {
    match stage
    case ListAnswered(latest) => latest.None? ==> NothingAcked(log)
    case DetailAnswered(thread) => thread.Some? ==> KeepsAcks(log, thread.value)
    case _ => true
  }

  ghost predicate ReadOk(log: seq<Entry>, r: Read) {
    && r.began <= |log|
    && r.version == Summary(log[..r.began]).bumps
    && (r.alive ==> forall k :: r.began <= k < |log| ==> !log[k].Unmounted?)
    && (r.isLoad ==> r.began < |log| && (r.alive ==> NotOvertaken(log, r.began)))
    && (r.stage.ListAsked? || r.stage.ListAnswered? ==> r.isLoad)
    && AnswerOk(log[..r.began], r.stage)
  }

  ghost predicate OnServer(server: Server, t: Thread) {
    t.id in server && Kept(t, server[t.id])
  }

  ghost predicate SendOk(server: Server, log: seq<Entry>, s: Send) {
    && s.began < |log|
    && log[s.began].SendBegan?
    && s.operationContext == Summary(log[..s.began]).contexts == Summary(log).sendContext
    && s.operationVersion == Summary(log[..s.began]).bumps + 1
    && s.sentDraftVersion == Summary(log[..s.began]).typed
    && (forall k :: s.began < k < |log| ==> !log[k].SendBegan? && !log[k].SendEnded?)
    && s.target == Target(Summary(log[..s.began]).shown)
    && (s.answer.Some? ==> AnsweredRight(server, log, s.draft, s.began, s.answer.value))
  }

  /** An answered send: its message is new and on the server, its reply up to date. */
  ghost predicate AnsweredRight(server: Server, log: seq<Entry>, draft: string, began: nat, answer: Answer) {
    && StoredRight(log, draft, began, answer.receipt, answer.reply)
    && NewMessage(log[..began], answer.receipt.message)
    && Stores(server, answer.receipt)
    && (answer.reply.Some? ==> OnServer(server, answer.reply.value) && KeepsAcks(log, answer.reply.value))
  }

  ghost predicate AckOnServer(server: Server, e: Entry)
    requires e.Acked?
  {
    && Stores(server, e.receipt)
    && (e.reply.Some? ==> e.reply.value.id == e.receipt.thread && OnServer(server, e.reply.value))
  }

  ghost predicate AcksOnServer(server: Server, log: seq<Entry>) {
    forall i :: 0 <= i < |log| && log[i].Acked? ==> AckOnServer(server, log[i])
  }

  /** Every acknowledgement came before the send under way. */
  ghost predicate AcksBefore(log: seq<Entry>, ops: map<nat, Send>) {
    forall i, op :: 0 <= i < |log| && log[i].Acked? && op in ops ==> i < ops[op].began
  }

  /** Every acknowledged send has also ended. */
  ghost predicate AcksClosed(log: seq<Entry>) {
    forall i :: 0 <= i < |log| && log[i].Acked? ==> Summary(log[..i + 1]).bumps < Summary(log).bumps
  }

  ghost predicate ReadsOk(log: seq<Entry>, ops: map<nat, Read>) {
    forall op :: op in ops ==> ReadOk(log, ops[op])
  }

  ghost predicate SendsOk(server: Server, log: seq<Entry>, ops: map<nat, Send>) {
    forall op :: op in ops ==> SendOk(server, log, ops[op])
  }

  /** The part of the invariant about the history: log, server and operations under way. */
  ghost predicate HistoryOk(p: Panel) {
    && TraceOk(p.log)
    && WellKeyed(p.server)
    && AcksOnServer(p.server, p.log)
    && ReadsOk(p.log, p.readOps)
    && SendsOk(p.server, p.log, p.sendOps)
  }

  /** The panel's counters and display are those its log determines. */
  ghost predicate CountersOk(p: Panel) {
    var f := Summary(p.log);
    && p.mutationVersion == f.bumps
    && p.contextVersion == f.contexts
    && p.draftVersion == f.typed
    && p.isSending == (p.mutationPending || f.lost)
    && !(p.mutationPending && f.lost)
    && f.open == (if p.mutationPending then 1 else 0)
    && p.mounted == f.mounted
    && p.thread == f.shown
    && p.loadedVersion <= p.reloadVersion
    && (f.reloadOwed ==> p.mounted && p.loadedVersion < p.reloadVersion)
  }

  ghost predicate OperationsOk(
      mounted: bool, pending: bool, next: nat, readOps: map<nat, Read>, sendOps: map<nat, Send>)
  {
    && (forall op :: op in readOps ==> op < next && (readOps[op].alive ==> mounted))
    && (forall op :: op in sendOps ==> op < next && pending)
    && (forall a, b :: a in sendOps && b in sendOps ==> a == b)
    && (pending ==> sendOps != map[])
  }

  ghost predicate Operations(p: Panel) {
    OperationsOk(p.mounted, p.mutationPending, p.nextOperation, p.readOps, p.sendOps)
  }

  /** An unedited draft is still what the composer holds. */
  ghost predicate DraftsOk(draftVersion: nat, message: string, sendOps: map<nat, Send>) {
    forall op :: op in sendOps ==>
                   && sendOps[op].sentDraftVersion <= draftVersion
                   && (sendOps[op].sentDraftVersion == draftVersion ==> message == sendOps[op].draft)
  }

  ghost predicate Inv(p: Panel) {
    && HistoryOk(p)
    && AcksClosed(p.log)
    && AcksBefore(p.log, p.sendOps)
    && CountersOk(p)
    && Operations(p)
    && DraftsOk(p.draftVersion, p.message, p.sendOps)
  }

  /** What also holds between the statements of a resuming submit. */
  ghost predicate Core(p: Panel) {
    HistoryOk(p) && CountersOk(p) && Operations(p)
  }

  // ---------------------------------------------------------------- one more entry

  lemma ReadGrows(log: seq<Entry>, e: Entry, r: Read)
    requires ReadOk(log, r) && (e.Unmounted? || (r.isLoad && Overtakes(e)) ==> !r.alive)
    ensures ReadOk(log + [e], r)
  {
    hide AnswerOk;
    assert (log + [e])[..r.began] == log[..r.began];
  }

  lemma SendGrows(server: Server, log: seq<Entry>, e: Entry, s: Send)
    requires SendOk(server, log, s) && !e.Acked? && !e.SendBegan? && !e.SendEnded?
    ensures SendOk(server, log + [e], s)
  {
    hide Summary, Kept;
    SummaryAppend(log, e);
    assert (log + [e])[..s.began] == log[..s.began];
  }

  ghost predicate LoadsDead(ops: map<nat, Read>) {
    forall op :: op in ops && ops[op].isLoad ==> !ops[op].alive
  }

  lemma WriteKeeps(p: Panel, e: Entry)
    requires HistoryOk(p) && Permitted(p.log, e) && !e.Acked?
    requires e.Unmounted? ==> forall op :: op in p.readOps ==> !p.readOps[op].alive
    requires Overtakes(e) ==> LoadsDead(p.readOps)
    requires e.SendBegan? || e.SendEnded? ==> p.sendOps == map[]
    ensures HistoryOk(Write(p, e))
  {
    hide ReadOk, SendOk, Permitted, TraceOk, WellKeyed, OnServer;
    TraceAppend(p.log, e);
    forall op | op in p.readOps ensures ReadOk(p.log + [e], p.readOps[op]) { ReadGrows(p.log, e, p.readOps[op]); }
    forall op | op in p.sendOps ensures SendOk(p.server, p.log + [e], p.sendOps[op]) {
      SendGrows(p.server, p.log, e, p.sendOps[op]);
    }
  }

  lemma ClosedAppend(log: seq<Entry>, e: Entry)
    requires AcksClosed(log) && !e.Acked?
    ensures AcksClosed(log + [e])
  {
    hide Summary;
    SummaryAppend(log, e);
    forall i | 0 <= i < |log + [e]| && (log + [e])[i].Acked?
      ensures Summary((log + [e])[..i + 1]).bumps < Summary(log + [e]).bumps
    {
      assert (log + [e])[..i + 1] == log[..i + 1];
    }
  }

  lemma SendEndCloses(log: seq<Entry>, stale: bool)
    ensures AcksClosed(log + [SendEnded(stale)])
  {
    hide Summary;
    var grown := log + [SendEnded(stale)];
    assert grown[..|grown|] == grown;
    forall i | 0 <= i < |grown| && grown[i].Acked?
      ensures Summary(grown[..i + 1]).bumps < Summary(grown).bumps
    {
      assert Bumps(grown[|log|]);
      BumpsGrow(grown, i + 1, |grown|);
    }
  }

  // ---------------------------------------------------------------- reads

  /** The three tests of a finishing read mean exactly that it overlapped no send. */
  lemma MayInstallMeans(p: Panel, op: nat)
    requires Inv(p) && op in p.readOps
    ensures MayInstall(p, p.readOps[op]) <==> p.readOps[op].alive && OverlapsNoSend(p.log, p.readOps[op].began)
  {
    hide Summary, AnswerOk, TraceOk, WellKeyed, AcksOnServer, SendsOk, AcksClosed, DraftsOk;
    var r := p.readOps[op];
    assert ReadOk(p.log, r);
    Quiet(p.log, r.began);
    if r.alive && OverlapsNoSend(p.log, r.began) {
      assert forall k :: r.began <= k < |p.log| ==> !Bumps(p.log[k]);
    }
  }

  /** Acknowledgements after an undisturbed read began would have bumped the version. */
  lemma UndisturbedSeesAcks(p: Panel, op: nat)
    requires Inv(p) && op in p.readOps && MayInstall(p, p.readOps[op])
    ensures forall k :: p.readOps[op].began <= k < |p.log| ==> !p.log[k].Acked?
    ensures AnswerOk(p.log, p.readOps[op].stage)
  {
    hide Summary, TraceOk, WellKeyed, AcksOnServer, SendsOk, DraftsOk, Kept;
    var r := p.readOps[op];
    assert ReadOk(p.log, r);
    forall k | r.began <= k < |p.log| ensures !p.log[k].Acked? {
      BumpsGrow(p.log, r.began, k + 1);
    }
    assert forall k :: 0 <= k < r.began ==> p.log[..r.began][k] == p.log[k];
  }

  /** What a finishing read may show. */
  lemma ReadSource(p: Panel, op: nat)
    requires Inv(p) && op in p.readOps && MayInstall(p, p.readOps[op])
    ensures p.mounted && SourceOk(p.log, ByRead(p.readOps[op].began, p.readOps[op].isLoad))
    ensures p.readOps[op].stage.ListAnswered? ==> p.readOps[op].isLoad
  {
    hide Summary, AnswerOk, TraceOk, WellKeyed, AcksOnServer, SendsOk, AcksClosed, DraftsOk, OverlapsNoSend, MayInstall;
    assert ReadOk(p.log, p.readOps[op]);
    MayInstallMeans(p, op);
  }

  lemma ForgetKeeps(p: Panel, op: nat)
    requires Inv(p)
    ensures Inv(Forget(p, op))
  {
    hide ReadOk, SendOk, TraceOk, AcksOnServer, AcksClosed, Summary, WellKeyed;
  }

  lemma InstallOutcome(p: Panel, thread: Option<Thread>, source: Source, emptyList: bool)
    ensures var q := Install(p, thread, source, emptyList);
            && q.message == p.message && q.mounted == p.mounted
            && q.draftVersion == p.draftVersion && q.sendOps == p.sendOps
            && q.log == p.log + [if thread.Some? then Shown(thread.value, source) else Blanked(source, emptyList)]
  {
  }

  lemma InstallPermitted(log: seq<Entry>, thread: Option<Thread>, source: Source, emptyList: bool)
    requires Summary(log).mounted && SourceOk(log, source)
    requires if thread.Some? then KeepsAcks(log, thread.value)
             else emptyList ==> source.ByRead? && NothingAcked(log)
    ensures Permitted(log, if thread.Some? then Shown(thread.value, source) else Blanked(source, emptyList))
  {
    hide Summary, SourceOk, KeepsAcks, NothingAcked;
  }

  lemma InstallKeeps(p: Panel, thread: Option<Thread>, source: Source, emptyList: bool)
    requires Core(p) && p.mounted && SourceOk(p.log, source)
    requires if thread.Some? then KeepsAcks(p.log, thread.value)
             else emptyList ==> source.ByRead? && NothingAcked(p.log)
    ensures Core(Install(p, thread, source, emptyList))
    ensures AcksClosed(p.log) ==> AcksClosed(Install(p, thread, source, emptyList).log)
    ensures Summary(Install(p, thread, source, emptyList).log).sendContext == Summary(p.log).sendContext
  {
    hide ReadsOk, SendsOk, TraceOk, AcksOnServer, AcksClosed, WellKeyed, SourceOk, KeepsAcks, NothingAcked, Summary,
      OperationsOk, Permitted;
    var q := Install(p, thread, source, emptyList);
    var e := if thread.Some? then Shown(thread.value, source) else Blanked(source, emptyList);
    assert Permitted(p.log, e) by { InstallPermitted(p.log, thread, source, emptyList); }
    WriteKeeps(p, e);
    if AcksClosed(p.log) { ClosedAppend(p.log, e); }
    SummaryAppend(p.log, e);
    assert CountersOk(q);
    assert HistoryOk(q);
  }

  lemma ReadBegan(p: Panel, op: nat)
    requires HistoryOk(p) && op in p.readOps
    ensures p.readOps[op].began <= |p.log|
  {
    hide Summary, TraceOk, AcksOnServer, SendsOk, WellKeyed;
    assert ReadOk(p.log, p.readOps[op]);
  }

  lemma ListArrivedKeeps(p: Panel, op: nat)
    requires Inv(p) && op in p.readOps && p.readOps[op].stage.ListAnswered?
    ensures Inv(ListArrived(p, op))
  {
    hide Summary, TraceOk, AcksOnServer, SendsOk, AcksClosed, WellKeyed, DraftsOk, OverlapsNoSend, NothingAcked,
      KeepsAcks, ReadsOk, OperationsOk, MayInstall, SourceOk;
    var r := p.readOps[op];
    if r.stage.latest.Some? {
      ReadBegan(p, op);
      ReadStageKeeps(p, op, DetailAsked(r.stage.latest.value));
    } else {
      ForgetKeeps(p, op);
      if MayInstall(p, r) {
        ReadSource(p, op);
        UndisturbedSeesAcks(p, op);
        InstallKeeps(Forget(p, op), None, ByRead(r.began, true), true);
      }
    }
  }

  lemma DetailArrivedKeeps(p: Panel, op: nat)
    requires Inv(p) && op in p.readOps && p.readOps[op].stage.DetailAnswered?
    ensures Inv(DetailArrived(p, op))
  {
    hide Summary, TraceOk, AcksOnServer, SendsOk, AcksClosed, WellKeyed, ReadsOk;
    var r := p.readOps[op];
    ForgetKeeps(p, op);
    if MayInstall(p, r) {
      ReadSource(p, op);
      UndisturbedSeesAcks(p, op);
      InstallKeeps(Forget(p, op), r.stage.thread, ByRead(r.began, r.isLoad), false);
    }
  }

  lemma ReadFailedKeeps(p: Panel, op: nat)
    requires Inv(p) && op in p.readOps
    ensures Inv(ReadFailed(p, op))
  {
    hide Summary, TraceOk, AcksOnServer, SendsOk, AcksClosed, WellKeyed, ReadsOk;
    ForgetKeeps(p, op);
  }

  lemma BeginLoadKeeps(p: Panel)
    requires Inv(p) && p.mounted && LoadsDead(p.readOps)
    ensures Inv(BeginLoad(p))
  {
    hide SendsOk, TraceOk, AcksOnServer, AcksClosed, WellKeyed, ReadOk, Summary;
    var r := Read(true, p.mutationVersion, true, ListAsked, |p.log|);
    WriteKeeps(p, LoadBegan);
    ClosedAppend(p.log, LoadBegan);
    SummaryAppend(p.log, LoadBegan);
    assert ReadOk(p.log + [LoadBegan], r) by { NewLoadOk(p.log, r); }
  }

  lemma NewLoadOk(log: seq<Entry>, r: Read)
    requires r.isLoad && r.began == |log| && r.version == Summary(log).bumps && r.stage.ListAsked?
    ensures ReadOk(log + [LoadBegan], r)
  {
    hide Summary;
    assert (log + [LoadBegan])[..|log|] == log;
  }

  lemma NewPollOk(log: seq<Entry>, r: Read)
    requires !r.isLoad && r.began == |log| && r.version == Summary(log).bumps && r.stage.DetailAsked?
    ensures ReadOk(log, r)
  {
    hide Summary;
    assert log[..|log|] == log;
  }

  // ---------------------------------------------------------------- sends

  lemma BeginSendKeeps(p: Panel)
    requires Inv(p) && p.mounted
    ensures Inv(BeginSend(p))
  {
    hide KeepsAcks, OnServer, TraceOk, AcksOnServer, AcksClosed, WellKeyed, ReadsOk, Summary, Trim;
    var q := BeginSend(p);
    if q != p {
      SummaryAppend(p.log, SendBegan);
      WriteKeeps(p, SendBegan);
      ClosedAppend(p.log, SendBegan);
      assert q.log[..|p.log|] == p.log;
      assert forall op :: op in q.sendOps ==> op == p.nextOperation;
      assert SendOk(q.server, q.log, q.sendOps[p.nextOperation]);
      assert SendsOk(q.server, q.log, q.sendOps);
      assert HistoryOk(q);
      assert CountersOk(q);
      assert Operations(q);
      assert DraftsOk(q.draftVersion, q.message, q.sendOps);
    }
  }

  /** The acknowledgement itself: the reply is on the server and holds all earlier ones. */
  lemma AckKeeps(p: Panel, op: nat)
    requires Inv(p) && op in p.sendOps && p.sendOps[op].answer.Some?
    ensures Core(Write(p, AckOf(p.sendOps[op])))
    ensures var q := Write(p, AckOf(p.sendOps[op]));
            SendOk(q.server, q.log, p.sendOps[op]) && Summary(q.log).sendContext == p.sendOps[op].operationContext
  {
    hide TraceOk, WellKeyed, ReadOk, Summary, DraftsOk, AcksClosed;
    var s := p.sendOps[op];
    var e := AckOf(s);
    var log := p.log + [e];
    assert SendOk(p.server, p.log, s);
    TraceAppend(p.log, e);
    SummaryAppend(p.log, e);
    assert log[..s.began] == p.log[..s.began];
    forall r | r in p.readOps ensures ReadOk(log, p.readOps[r]) { ReadGrows(p.log, e, p.readOps[r]); }
  }

  lemma CoreCounters(p: Panel)
    requires Core(p)
    ensures CountersOk(p)
  {
    hide HistoryOk, CountersOk, OperationsOk;
  }

  lemma BySendOk(log: seq<Entry>, began: nat)
    requires began < |log| && log[began].SendBegan? && ContextUnchanged(log, began)
    ensures SourceOk(log, BySend(began))
  {
    hide Summary;
  }

  lemma CountersContext(p: Panel)
    requires CountersOk(p)
    ensures p.contextVersion == Summary(p.log).contexts && p.mounted == Summary(p.log).mounted
  {
    hide Summary;
  }

  lemma ShowReplyKeeps(p: Panel, s: Send)
    requires Core(p) && SendOk(p.server, p.log, s) && s.answer.Some?
    requires p.log != [] && p.log[|p.log| - 1] == AckOf(s)
    ensures var q := ShowReply(p, s);
            && Core(q) && JustAcked(q.log, s.draft)
            && q.message == p.message && q.draftVersion == p.draftVersion && q.sendOps == p.sendOps
            && Summary(q.log).sendContext == Summary(p.log).sendContext
  {
    hide Core, SourceOk, Summary, KeepsAcks, OnServer, CountersOk, Install;
    assert p.contextVersion == Summary(p.log).contexts && p.mounted == Summary(p.log).mounted by {
      assert CountersOk(p) by { CoreCounters(p); }
      CountersContext(p);
    }
    if SameContext(p, s) && s.operationVersion == p.mutationVersion {
      assert p.log[..|p.log|] == p.log;
      ContextsGrow(p.log, s.began, |p.log|);
      assert SourceOk(p.log, BySend(s.began)) by { BySendOk(p.log, s.began); }
      InstallKeeps(p, s.answer.value.reply, BySend(s.began), false);
      InstallOutcome(p, s.answer.value.reply, BySend(s.began), false);
    }
  }

  lemma ClearComposerKeeps(p: Panel, s: Send)
    requires Core(p) && (p.draftVersion == s.sentDraftVersion ==> JustAcked(p.log, p.message))
    ensures Core(ClearComposer(p, s)) && ClearComposer(p, s).sendOps == p.sendOps
    ensures Summary(ClearComposer(p, s).log).sendContext == Summary(p.log).sendContext
  {
    hide SendsOk, TraceOk, AcksOnServer, WellKeyed, ReadsOk, Summary, JustAcked, OperationsOk;
    var e := ComposerCleared(p.message);
    if p.mounted && p.draftVersion == s.sentDraftVersion {
      WriteKeeps(p, e);
      SummaryAppend(p.log, e);
    }
  }

  lemma EndSendKeeps(p: Panel, op: nat, s: Send)
    requires Core(p) && op in p.sendOps && s.operationContext == Summary(p.log).sendContext
    ensures Inv(EndSend(p, op, s))
  {
    hide SendOk, TraceOk, AcksOnServer, WellKeyed, ReadsOk, Summary, AcksClosed, OperationsOk, HistoryOk, CountersOk,
      AcksBefore;
    var stale := p.mounted && s.operationContext != p.contextVersion;
    var q := EndSend(p, op, s);
    OnlySend(p, op);
    assert HistoryOk(q) by {
      EndIsPermitted(p, s);
      EndKeepsHistory(p, q, stale);
    }
    assert AcksClosed(q.log) by { SendEndCloses(p.log, stale); }
    assert CountersOk(q) by { EndKeepsCounters(p, op, s); }
    assert Operations(q) by { EndKeepsOperations(p, op, s); }
    assert AcksBefore(q.log, q.sendOps) by { NoSendsLeft(q.log); }
  }

  lemma OnlySend(p: Panel, op: nat)
    requires Operations(p) && op in p.sendOps
    ensures p.sendOps - {op} == map[] && p.mutationPending
  {
  }

  lemma EndIsPermitted(p: Panel, s: Send)
    requires CountersOk(p) && p.mutationPending && s.operationContext == Summary(p.log).sendContext
    ensures Permitted(p.log, SendEnded(p.mounted && s.operationContext != p.contextVersion))
  {
    hide Summary;
  }

  lemma NoSendsLeft(log: seq<Entry>)
    ensures AcksBefore(log, map[])
  {
  }

  lemma EndKeepsOperations(p: Panel, op: nat, s: Send)
    requires Operations(p) && op in p.sendOps
    ensures Operations(EndSend(p, op, s))
  {
    OnlySend(p, op);
  }

  lemma EndKeepsHistory(p: Panel, q: Panel, stale: bool)
    requires HistoryOk(p) && Permitted(p.log, SendEnded(stale))
    requires q.log == p.log + [SendEnded(stale)] && q.server == p.server && q.readOps == p.readOps && q.sendOps == map[]
    ensures HistoryOk(q)
  {
    hide SendOk, TraceOk, AcksOnServer, WellKeyed, ReadsOk, Summary, Permitted;
    WriteKeeps(p.(sendOps := map[]), SendEnded(stale));
  }

  lemma EndKeepsCounters(p: Panel, op: nat, s: Send)
    requires CountersOk(p) && p.mutationPending && s.operationContext == Summary(p.log).sendContext
    ensures CountersOk(EndSend(p, op, s))
  {
    hide Summary;
    var stale := p.mounted && s.operationContext != p.contextVersion;
    SummaryAppend(p.log, SendEnded(stale));
  }

  lemma SendSucceededKeeps(p: Panel, op: nat)
    requires Inv(p) && op in p.sendOps && p.sendOps[op].answer.Some?
    ensures Inv(SendSucceeded(p, op))
  {
    hide Core, SendOk, Summary, HistoryOk, OperationsOk, CountersOk, ShowReply, ClearComposer, EndSend;
    var s := p.sendOps[op];
    var acked := Write(p, AckOf(s));
    AckKeeps(p, op);
    ShowReplyKeeps(acked, s);
    ClearComposerKeeps(ShowReply(acked, s), s);
    EndSendKeeps(ClearComposer(ShowReply(acked, s), s), op, s);
  }

  lemma SendFailedKeeps(p: Panel, op: nat)
    requires Inv(p) && op in p.sendOps
    ensures Inv(SendFailed(p, op))
  {
    hide AcksClosed, Summary, TraceOk, AcksOnServer, WellKeyed, ReadsOk, DraftsOk, KeepsAcks, OnServer;
    assert SendOk(p.server, p.log, p.sendOps[op]);
    var q := if SameContext(p, p.sendOps[op]) then p.(sendError := true) else p;
    EndSendKeeps(q, op, p.sendOps[op]);
  }

  // ---------------------------------------------------------------- effects

  lemma KillLoadsKeeps(p: Panel)
    requires Inv(p)
    ensures Inv(p.(readOps := KillLoads(p.readOps)))
  {
    hide AcksClosed, Summary, SendsOk, TraceOk, AcksOnServer, WellKeyed, DraftsOk, AnswerOk;
    var ops := KillLoads(p.readOps);
    forall op | op in ops ensures ReadOk(p.log, ops[op]) { assert ReadOk(p.log, p.readOps[op]); }
  }

  lemma KillAllKeeps(p: Panel)
    requires Inv(p)
    ensures Inv(p.(readOps := KillAll(p.readOps)))
  {
    hide AcksClosed, Summary, SendsOk, TraceOk, AcksOnServer, WellKeyed, DraftsOk, AnswerOk;
    var ops := KillAll(p.readOps);
    forall op | op in ops ensures ReadOk(p.log, ops[op]) { assert ReadOk(p.log, p.readOps[op]); }
  }

  lemma LocaleEffectsKeeps(p: Panel)
    requires Inv(p) && p.mounted
    ensures Inv(LocaleEffects(p))
  {
    hide AcksClosed, Summary, SendsOk, TraceOk, AcksOnServer, WellKeyed, ReadsOk;
    KillLoadsKeeps(p);
    var q := p.(readOps := KillLoads(p.readOps));
    WriteKeeps(q, LocaleChanged);
    ClosedAppend(q.log, LocaleChanged);
    SummaryAppend(q.log, LocaleChanged);
    BeginLoadKeeps(Write(q.(contextVersion := p.contextVersion + 2), LocaleChanged));
  }

  lemma UnmountEffectsKeeps(p: Panel)
    requires Inv(p) && p.mounted
    ensures Inv(UnmountEffects(p))
  {
    hide AcksClosed, Summary, SendsOk, TraceOk, AcksOnServer, WellKeyed, ReadsOk;
    KillAllKeeps(p);
    var q := p.(readOps := KillAll(p.readOps));
    WriteKeeps(q, Unmounted);
    ClosedAppend(q.log, Unmounted);
    SummaryAppend(q.log, Unmounted);
  }

  lemma RemountEffectsKeeps(p: Panel)
    requires Inv(p) && !p.mounted
    ensures Inv(RemountEffects(p))
  {
    hide AcksClosed, Summary, SendsOk, TraceOk, AcksOnServer, WellKeyed, ReadsOk;
    WriteKeeps(p, Remounted);
    ClosedAppend(p.log, Remounted);
    SummaryAppend(p.log, Remounted);
    BeginLoadKeeps(Write(p.(contextVersion := p.contextVersion + 1, mounted := true), Remounted));
  }

  // ---------------------------------------------------------------- the server's moments

  lemma ServerGrowsKeeps(p: Panel, next: Server)
    requires Inv(p) && Grows(p.server, next)
    ensures Inv(p.(server := next))
  {
    hide AcksClosed, Summary, TraceOk, ReadsOk, DraftsOk, KeepsAcks, OperationsOk;
    forall t: Thread | OnServer(p.server, t) ensures OnServer(next, t) {}
    forall op | op in p.sendOps ensures SendOk(next, p.log, p.sendOps[op]) {
      assert SendOk(p.server, p.log, p.sendOps[op]);
    }
  }

  lemma ReadStageKeeps(p: Panel, op: nat, stage: Stage)
    requires Inv(p) && op in p.readOps && p.readOps[op].began <= |p.log|
    requires AnswerOk(p.log[..p.readOps[op].began], stage)
    requires stage.ListAsked? || stage.ListAnswered? ==> p.readOps[op].isLoad
    ensures Inv(p.(readOps := p.readOps[op := p.readOps[op].(stage := stage)]))
  {
    hide AcksClosed, Summary, SendsOk, TraceOk, AcksOnServer, WellKeyed, DraftsOk, AnswerOk;
    assert ReadOk(p.log, p.readOps[op]);
  }

  lemma ListServedKeeps(p: Panel, op: nat, latest: Option<ThreadId>)
    requires Inv(p) && Asked(p, op, ListAsked) && (latest.None? ==> p.server == map[])
    ensures Inv(p.(readOps := p.readOps[op := p.readOps[op].(stage := ListAnswered(latest))]))
  {
    hide AcksClosed, Summary, SendsOk, TraceOk, WellKeyed, DraftsOk, Kept, OperationsOk;
    if latest.None? {
      var before := p.log[..p.readOps[op].began];
      forall i | 0 <= i < |before| ensures !before[i].Acked? { assert before[i] == p.log[i]; }
    }
    ReadStageKeeps(p, op, ListAnswered(latest));
  }

  lemma DetailServedKeeps(p: Panel, op: nat, id: ThreadId, withData: bool)
    requires Inv(p) && op in p.readOps && id in p.server
    ensures Inv(p.(readOps := p.readOps[op := p.readOps[op].(
                     stage := DetailAnswered(if withData then Some(p.server[id]) else None))]))
  {
    hide AcksClosed, Summary, SendsOk, TraceOk, DraftsOk, Kept, OperationsOk;
    var before := p.log[..p.readOps[op].began];
    assert KeepsAcks(p.log, p.server[id]) by { AckedOnServer(p, id); }
    forall i | 0 <= i < |before| && AckFor(before[i], p.server[id])
      ensures Holds(p.server[id], before[i].receipt, before[i].reply)
    {
      assert before[i] == p.log[i];
    }
    ReadStageKeeps(p, op, DetailAnswered(if withData then Some(p.server[id]) else None));
  }

  /** A message that was nowhere on the server has not been acknowledged before. */
  lemma TakenIsNew(
      server: Server, log: seq<Entry>, next: Server, receipt: Receipt, target: Option<ThreadId>, text: string)
    requires AcksOnServer(server, log) && Takes(server, next, receipt, target, text)
    ensures NewMessage(log, receipt.message)
  {
  }

  lemma SendServedKeeps(p: Panel, op: nat, next: Server, receipt: Receipt, reply: Option<Thread>)
    requires Inv(p) && op in p.sendOps && p.sendOps[op].answer.None?
    requires Takes(p.server, next, receipt, p.sendOps[op].target, Trim(p.sendOps[op].draft))
    requires reply.Some? ==> reply.value == next[receipt.thread]
    ensures Inv(p.(server := next, sendOps := p.sendOps[op := p.sendOps[op].(answer := Some(Answer(receipt, reply)))]))
  {
    hide AcksClosed, Summary, TraceOk, ReadsOk, Grows, Trim;
    var q := p.(server := next);
    ServerGrowsKeeps(p, next);
    var s := p.sendOps[op];
    assert SendOk(next, p.log, s);
    TakenIsNew(p.server, p.log, next, receipt, s.target, Trim(s.draft));
    AckedOnServer(q, receipt.thread);
    assert AnsweredRight(next, p.log, s.draft, s.began, Answer(receipt, reply));
  }

  lemma AckedOnServer(p: Panel, id: ThreadId)
    requires HistoryOk(p) && id in p.server
    ensures OnServer(p.server, p.server[id]) && KeepsAcks(p.log, p.server[id])
  {
    hide Summary, TraceOk, ReadsOk, SendsOk;
  }

  lemma PollBeginsKeeps(p: Panel)
    requires Inv(p) && p.mounted && p.thread.Some?
    ensures Inv(Step(p, PollBegins))
  {
    hide SendsOk, TraceOk, AcksOnServer, AcksClosed, WellKeyed, ReadOk, Summary, DraftsOk;
    NewPollOk(p.log, Read(false, p.mutationVersion, true, DetailAsked(p.thread.value.id), |p.log|));
  }

  lemma PollAbortedKeeps(p: Panel, op: nat)
    requires Inv(p)
    ensures Inv(Step(p, PollAborted(op)))
  {
    hide SendsOk, TraceOk, AcksOnServer, AcksClosed, WellKeyed, Summary, DraftsOk, AnswerOk;
    if op in p.readOps { assert ReadOk(p.log, p.readOps[op]); }
  }

  lemma StepKeeps(p: Panel, e: Event)
    requires Inv(p)
    ensures Inv(Step(p, e))
  {
    hide Inv;
    match e
    case ServerChanges(next) => if Grows(p.server, next) { ServerGrowsKeeps(p, next); }
    case ListServed(op, latest) =>
      if Asked(p, op, ListAsked) && (if latest.Some? then latest.value in p.server else p.server == map[]) {
        ListServedKeeps(p, op, latest);
      }
    case ListArrives(op) => if op in p.readOps && p.readOps[op].stage.ListAnswered? { ListArrivedKeeps(p, op); }
    case DetailServed(op, withData) =>
      if op in p.readOps && p.readOps[op].stage.DetailAsked? && p.readOps[op].stage.id in p.server {
        DetailServedKeeps(p, op, p.readOps[op].stage.id, withData);
      }
    case DetailArrives(op) => if op in p.readOps && p.readOps[op].stage.DetailAnswered? { DetailArrivedKeeps(p, op); }
    case ReadFails(op) => if op in p.readOps { ReadFailedKeeps(p, op); }
    case PollBegins => if p.mounted && p.thread.Some? { PollBeginsKeeps(p); }
    case PollAborted(op) => PollAbortedKeeps(p, op);
    case Submit => if p.mounted { BeginSendKeeps(p); }
    case SendServed(op, next, receipt, withData) =>
      if op in p.sendOps && p.sendOps[op].answer.None?
         && Takes(p.server, next, receipt, p.sendOps[op].target, Trim(p.sendOps[op].draft)) {
        SendServedKeeps(p, op, next, receipt, if withData then Some(next[receipt.thread]) else None);
      }
    case SendSucceeds(op) => if op in p.sendOps && p.sendOps[op].answer.Some? { SendSucceededKeeps(p, op); }
    case SendFails(op) => if op in p.sendOps { SendFailedKeeps(p, op); }
    case Edit(value) => EditKeeps(p, value);
    case ChangeLocale => if p.mounted { LocaleEffectsKeeps(p); }
    case Retry => RetryKeeps(p);
    case ReloadEffect =>
      if p.mounted {
        KillLoadsKeeps(p);
        BeginLoadKeeps(p.(readOps := KillLoads(p.readOps)));
      }
    case Unmount => if p.mounted { UnmountEffectsKeeps(p); }
    case Remount => if !p.mounted { RemountEffectsKeeps(p); }
  }

  /** Sends know no later draft than the panel's. */
  lemma DraftsBehind(p: Panel)
    requires Inv(p)
    ensures forall op :: op in p.sendOps ==> p.sendOps[op].sentDraftVersion <= p.draftVersion
  {
    hide HistoryOk, AcksClosed, AcksBefore, CountersOk, OperationsOk;
  }

  lemma EditKeeps(p: Panel, value: string)
    requires Inv(p)
    ensures Inv(Step(p, Edit(value)))
  {
    hide Summary, TraceOk, AcksOnServer, WellKeyed, ReadOk, SendOk, AcksClosed;
    WriteKeeps(p, Typed);
    ClosedAppend(p.log, Typed);
    SummaryAppend(p.log, Typed);
    DraftsBehind(p);
  }

  lemma RetryKeeps(p: Panel)
    requires Inv(p)
    ensures Inv(Step(p, Retry))
  {
    hide Summary, SendsOk, TraceOk, AcksOnServer, WellKeyed, ReadsOk, AcksClosed, DraftsOk;
  }

  lemma OpenKeeps(server: Server)
    requires WellKeyed(server)
    ensures Inv(Open(server))
  {
    hide WellKeyed;
    BeginLoadKeeps(Panel(server, true, 0, false, 1, 0, None, "", false, false, false, 0, 0, map[], map[], 0, []));
  }

  lemma {:induction false} RunKeeps(p: Panel, events: seq<Event>)
    requires Inv(p)
    ensures Inv(Run(p, events))
    decreases |events|
  {
    hide Inv, Step;
    if events == [] {
    } else {
      StepKeeps(p, events[0]);
      RunKeeps(Step(p, events[0]), events[1..]);
    }
  }
}
