/** What each answer, failure and handler does to the team-chat panel, in any run: nothing that should be
    displayed, reported or begun is left out, and nothing else happens. */
module TeamChatOutcomes {
  import opened Wrappers
  import opened TeamChat
  import opened TeamChatHistory
  import opened TeamChatProofs
  import opened TeamChatLoads
  import opened TeamChatTheorems

  // ---------------------------------------------------------------- answers to reads

  lemma AfterAlive(server: Server, events: seq<Event>)
    requires WellKeyed(server)
    ensures LoadsAlive(After(server, events).log, After(server, events).readOps)
  {
    hide Inv, Run, LoadsAlive;
    OpenKeeps(server);
    assert LoadsAlive(Open(server).log, Open(server).readOps) by { OpenAlive(server); }
    RunKeepsAlive(Open(server), events);
  }

  lemma OpenAlive(server: Server)
    ensures LoadsAlive(Open(server).log, Open(server).readOps)
  {
  }

  /** The answer to a read still counts: nothing overtook the load (or the poll's signal is not aborted),
      and no send was under way at any moment of the read. */
  ghost predicate Wins(p: Panel, r: Read) {
    && (if r.isLoad then NotOvertaken(p.log, r.began) else r.alive)
    && OverlapsNoSend(p.log, r.began)
  }

  lemma LoadAliveExactly(p: Panel, op: nat)
    requires Inv(p) && LoadsAlive(p.log, p.readOps) && op in p.readOps && p.readOps[op].isLoad
    ensures p.readOps[op].alive <==> NotOvertaken(p.log, p.readOps[op].began)
  {
    hide AcksClosed, AcksBefore, CountersOk, OperationsOk, TraceOk, WellKeyed, AcksOnServer, SendsOk, AnswerOk, Summary;
    assert ReadOk(p.log, p.readOps[op]);
  }

  /** The three tests of the code pass exactly for the reads whose answer still counts. */
  lemma WinsExactly(server: Server, events: seq<Event>, op: nat)
    requires WellKeyed(server) && op in After(server, events).readOps
    ensures var p := After(server, events); MayInstall(p, p.readOps[op]) <==> Wins(p, p.readOps[op])
  {
    hide Inv, Run, LoadsAlive, NotOvertaken, OverlapsNoSend, MayInstall;
    AfterKeeps(server, events);
    AfterAlive(server, events);
    MayInstallMeans(After(server, events), op);
    if After(server, events).readOps[op].isLoad { LoadAliveExactly(After(server, events), op); }
  }

  /** The entry that displaying `thread` writes. */
  function Display(thread: Option<Thread>, source: Source): Entry {
    if thread.Some? then Shown(thread.value, source) else Blanked(source, false)
  }

  lemma InstallDisplays(p: Panel, thread: Option<Thread>, source: Source, emptyList: bool)
    ensures var q := Install(p, thread, source, emptyList);
            && q.thread == thread
            && q.log == p.log + [if thread.Some? then Shown(thread.value, source) else Blanked(source, emptyList)]
  {
  }

  lemma ForgetKeepsDisplay(p: Panel, op: nat)
    ensures var q := Forget(p, op);
            q.thread == p.thread && q.log == p.log && q.message == p.message && q.initialError == p.initialError
  {
  }

  /** The thread's answer is displayed exactly when it still counts and, for a poll, has a thread;
      otherwise the display stays. */
  lemma DetailIsDisplayed(server: Server, events: seq<Event>, op: nat)
    requires WellKeyed(server)
    requires var p := After(server, events); op in p.readOps && p.readOps[op].stage.DetailAnswered?
    ensures var p := After(server, events);
            var q, r := Step(p, DetailArrives(op)), p.readOps[op];
            if Wins(p, r) && (r.isLoad || r.stage.thread.Some?)
            then q.thread == r.stage.thread && q.log == p.log + [Display(r.stage.thread, ByRead(r.began, r.isLoad))]
            else q.thread == p.thread && q.log == p.log
  {
    hide After, Wins, MayInstall, Install, Forget;
    WinsExactly(server, events, op);
    var p := After(server, events);
    var r := p.readOps[op];
    ForgetKeepsDisplay(p, op);
    InstallDisplays(Forget(p, op), r.stage.thread, ByRead(r.began, r.isLoad), false);
  }

  /** An empty list is displayed exactly when it still counts; a list with a thread leads to the request of
      that thread, by the same load. */
  lemma ListIsDisplayed(server: Server, events: seq<Event>, op: nat)
    requires WellKeyed(server)
    requires var p := After(server, events); op in p.readOps && p.readOps[op].stage.ListAnswered?
    ensures var p := After(server, events);
            var q, r := Step(p, ListArrives(op)), p.readOps[op];
            if r.stage.latest.Some?
            then q == p.(readOps := p.readOps[op := r.(stage := DetailAsked(r.stage.latest.value))])
            else if Wins(p, r) then q.thread == None && q.log == p.log + [Blanked(ByRead(r.began, true), true)]
            else q.thread == p.thread && q.log == p.log
  {
    hide After, Wins, MayInstall, Install, Forget;
    WinsExactly(server, events, op);
    var p := After(server, events);
    ForgetKeepsDisplay(p, op);
    InstallDisplays(Forget(p, op), None, ByRead(p.readOps[op].began, true), true);
  }

  /** A failed load is reported exactly when it still counts, and a failed poll never; what is displayed
      stays. */
  lemma ReadFailureIsReported(server: Server, events: seq<Event>, op: nat)
    requires WellKeyed(server) && op in After(server, events).readOps
    ensures var p := After(server, events);
            var q, r := Step(p, ReadFails(op)), p.readOps[op];
            && q.initialError == (p.initialError || (r.isLoad && Wins(p, r)))
            && q.thread == p.thread && q.log == p.log && q.message == p.message
  {
    hide After, Wins, MayInstall, Forget;
    WinsExactly(server, events, op);
    ForgetKeepsDisplay(After(server, events), op);
  }

  /** A displayed load was overtaken by nothing since it began. */
  lemma DisplayedLoadsAreLatest(server: Server, events: seq<Event>, j: nat, began: nat, k: nat)
    requires WellKeyed(server)
    requires var log := After(server, events).log;
             && j < |log| && (log[j].Shown? || log[j].Blanked?) && log[j].source == ByRead(began, true)
             && began < k < j
    ensures var log := After(server, events).log;
            log[began].LoadBegan? && !log[k].LoadBegan? && !log[k].LocaleChanged? && !log[k].Unmounted?
  {
    hide Run, Summary, OverlapsNoSend;
    PermittedAt(server, events, j);
    var log := After(server, events).log;
    assert log[..j][began] == log[began] && log[..j][k] == log[k];
  }

  // ---------------------------------------------------------------- sends

  lemma SendFacts(p: Panel, op: nat)
    requires Inv(p) && op in p.sendOps
    ensures SendOk(p.server, p.log, p.sendOps[op])
    ensures Summary(p.log).open == 1 && p.mutationVersion == Summary(p.log).bumps
    ensures p.contextVersion == Summary(p.log).contexts && p.mounted == Summary(p.log).mounted
    ensures p.draftVersion == Summary(p.log).typed
  {
    hide AcksClosed, AcksBefore, TraceOk, WellKeyed, AcksOnServer, ReadsOk, Summary, SendOk;
  }

  lemma {:induction false} UnmountedBumpsContext(log: seq<Entry>, m: nat)
    requires m <= |log| && (forall k :: m <= k < |log| ==> !ChangesContext(log[k]))
    requires forall k :: m <= k < |log| ==> !log[k].SendBegan? && !log[k].SendEnded?
    ensures Summary(log).bumps == Summary(log[..m]).bumps
  {
    hide Summary;
    Quiet(log, m);
  }

  /** A reply may be shown exactly when the panel is mounted and its context did not change since the send
      began. */
  lemma ReplyCounts(server: Server, events: seq<Event>, op: nat)
    requires WellKeyed(server) && op in After(server, events).sendOps
    ensures var p := After(server, events);
            var s := p.sendOps[op];
            && (SameContext(p, s) <==> p.mounted && ContextUnchanged(p.log, s.began))
            && (SameContext(p, s) ==> s.operationVersion == p.mutationVersion)
  {
    hide Inv, Run, Summary, Stores, AnsweredRight;
    AfterKeeps(server, events);
    var p := After(server, events);
    var s := p.sendOps[op];
    SendFacts(p, op);
    assert p.log[..|p.log|] == p.log;
    ContextsGrow(p.log, s.began, |p.log|);
    if ContextUnchanged(p.log, s.began) {
      UnmountedBumpsContext(p.log, s.began + 1);
      assert p.log[..s.began + 1] == p.log[..s.began] + [p.log[s.began]];
      SummaryAppend(p.log[..s.began], p.log[s.began]);
    }
  }

  lemma ShowReplyDisplays(p: Panel, s: Send)
    requires s.answer.Some? && (SameContext(p, s) ==> s.operationVersion == p.mutationVersion)
    ensures var q := ShowReply(p, s);
            if SameContext(p, s)
            then q.thread == s.answer.value.reply && q.log == p.log + [Display(s.answer.value.reply, BySend(s.began))]
            else q == p
  {
    hide Install, SameContext;
    InstallDisplays(p, s.answer.value.reply, BySend(s.began), false);
  }

  lemma EndingKeepsDisplay(p: Panel, op: nat, s: Send)
    ensures var q := EndSend(ClearComposer(p, s), op, s);
            && q.thread == p.thread && |q.log| >= |p.log| && q.log[..|p.log|] == p.log
            && op !in q.sendOps && !q.mutationPending
  {
  }

  /** A reply is displayed exactly when the panel is mounted in the context in which its send began;
      otherwise the display stays.  The send is over either way. */
  lemma ReplyIsDisplayed(server: Server, events: seq<Event>, op: nat)
    requires WellKeyed(server)
    requires var p := After(server, events); op in p.sendOps && p.sendOps[op].answer.Some?
    ensures var p := After(server, events);
            var q, s := Step(p, SendSucceeds(op)), p.sendOps[op];
            && (if p.mounted && ContextUnchanged(p.log, s.began)
                then q.thread == s.answer.value.reply
                     && |q.log| >= |p.log| + 2
                     && q.log[|p.log| + 1] == Display(s.answer.value.reply, BySend(s.began))
                else q.thread == p.thread)
            && op !in q.sendOps && !q.mutationPending
  {
    hide After, Summary, ContextUnchanged, ShowReply, ClearComposer, EndSend;
    ReplyCounts(server, events, op);
    var p := After(server, events);
    var s := p.sendOps[op];
    var acked := Write(p, AckOf(s));
    var shown := ShowReply(acked, s);
    ShowReplyDisplays(acked, s);
    EndingKeepsDisplay(shown, op, s);
    var q := Step(p, SendSucceeds(op));
    assert q.log[..|shown.log|] == shown.log;
    if SameContext(p, s) { assert q.log[|p.log| + 1] == shown.log[|p.log| + 1]; }
  }

  /** A failed send is reported exactly when the panel is mounted in the context in which it began; the
      display and the composer stay. */
  lemma SendFailureIsReported(server: Server, events: seq<Event>, op: nat)
    requires WellKeyed(server) && op in After(server, events).sendOps
    ensures var p := After(server, events);
            var q, s := Step(p, SendFails(op)), p.sendOps[op];
            && q.sendError == (p.sendError || (p.mounted && ContextUnchanged(p.log, s.began)))
            && q.thread == p.thread && q.message == p.message
            && op !in q.sendOps && !q.mutationPending
  {
    hide Run, Summary, SameContext, ContextUnchanged;
    ReplyCounts(server, events, op);
  }

  /** Some send ended while the panel was unmounted. */
  ghost predicate EndedUnmounted(log: seq<Entry>) {
    exists i :: 0 <= i < |log| && EndedUnmountedAt(log, i)
  }

  ghost predicate EndedUnmountedAt(log: seq<Entry>, i: nat)
    requires i < |log|
  {
    log[i].SendEnded? && !Summary(log[..i]).mounted
  }

  lemma {:induction false} LostMeans(log: seq<Entry>)
    ensures Summary(log).lost <==> EndedUnmounted(log)
  {
    if log == [] {
    } else {
      hide Summary;
      var shorter, last := log[..|log| - 1], log[|log| - 1];
      LostMeans(shorter);
      assert log == shorter + [last];
      SummaryAppend(shorter, last);
      forall i | 0 <= i < |shorter| ensures EndedUnmountedAt(log, i) <==> EndedUnmountedAt(shorter, i) {
        assert log[..i] == shorter[..i];
      }
      if EndedUnmountedAt(log, |log| - 1) { assert EndedUnmounted(log); }
    }
  }

  /** The button shows a send under way exactly while one is, or for good once one ended unmounted. */
  lemma SendingFlagExactly(server: Server, events: seq<Event>)
    requires WellKeyed(server)
    ensures var p := After(server, events); p.isSending <==> p.mutationPending || EndedUnmounted(p.log)
  {
    hide Run, Summary, HistoryOk, AcksClosed, AcksBefore, OperationsOk, EndedUnmounted;
    AfterKeeps(server, events);
    LostMeans(After(server, events).log);
  }

  lemma {:induction false} MountedThroughout(log: seq<Entry>, n: nat)
    requires n <= |log| && Summary(log).mounted && forall k :: 0 <= k < |log| ==> !log[k].Remounted?
    ensures Summary(log[..n]).mounted
    decreases |log|
  {
    if n == |log| {
      assert log[..n] == log;
    } else {
      hide Summary;
      var shorter, last := log[..|log| - 1], log[|log| - 1];
      assert log == shorter + [last];
      SummaryAppend(shorter, last);
      MountedThroughout(shorter, n);
      assert log[..n] == shorter[..n];
    }
  }

  /** In a panel that was never mounted again, the flag is exact while mounted. */
  lemma SendingFlagWithoutRemount(server: Server, events: seq<Event>)
    requires WellKeyed(server)
    requires var p := After(server, events); p.mounted && forall k :: 0 <= k < |p.log| ==> !p.log[k].Remounted?
    ensures var p := After(server, events); p.isSending == p.mutationPending
  {
    hide Run, Summary, HistoryOk, AcksClosed, AcksBefore, OperationsOk;
    var p := After(server, events);
    AfterKeeps(server, events);
    SendingFlagExactly(server, events);
    forall i: nat | i < |p.log| ensures !EndedUnmountedAt(p.log, i) { MountedThroughout(p.log, i); }
  }

  predicate White(s: string) {
    forall i :: 0 <= i < |s| ==> s[i] in WHITE_SPACE
  }

  lemma {:induction false} TrimStartIs(s: string) returns (i: nat)
    ensures i <= |s| && TrimStart(s) == s[i..] && White(s[..i]) && (i < |s| ==> s[i] !in WHITE_SPACE)
  {
    if s != [] && s[0] in WHITE_SPACE {
      i := TrimStartIs(s[1..]);
      i := i + 1;
      assert s[..i] == [s[0]] + s[1..][..i - 1];
      assert s[i..] == s[1..][i - 1..];
    } else {
      i := 0;
    }
  }

  lemma {:induction false} TrimEndIs(s: string) returns (j: nat)
    ensures j <= |s| && TrimEnd(s) == s[..j] && White(s[j..]) && (j > 0 ==> s[j - 1] !in WHITE_SPACE)
  {
    if s != [] && s[|s| - 1] in WHITE_SPACE {
      var shorter := s[..|s| - 1];
      j := TrimEndIs(shorter);
      assert s[..j] == shorter[..j];
      assert s[j..] == shorter[j..] + [s[|s| - 1]];
    } else {
      j := |s|;
    }
  }

  /** Trimming takes the white space off both ends and nothing else; a text is blank exactly when it is all
      white space. */
  lemma TrimIs(s: string) returns (i: nat, j: nat)
    ensures i <= j <= |s| && Trim(s) == s[i..j] && White(s[..i]) && White(s[j..])
    ensures Trim(s) != "" ==> Trim(s)[0] !in WHITE_SPACE && Trim(s)[|Trim(s)| - 1] !in WHITE_SPACE
    ensures Trim(s) == "" <==> White(s)
  {
    hide WHITE_SPACE;
    i := TrimStartIs(s);
    var rest := s[i..];
    var n := TrimEndIs(rest);
    j := i + n;
    assert s[i..j] == rest[..n] && s[j..] == rest[n..];
    if n > 0 {
      assert rest[0] == s[i] && s[i] !in WHITE_SPACE;
    } else {
      assert s == s[..i] + s[j..];
    }
  }

  /** A submit begins a send exactly when the panel is mounted, the draft is not blank, no send is under way
      and none ended unmounted.  It then sends the composer's text to the thread displayed, if that is open,
      and clears the last error; otherwise nothing happens. */
  lemma SendBeginsExactly(server: Server, events: seq<Event>)
    requires WellKeyed(server)
    ensures var p := After(server, events);
            var q := Step(p, Submit);
            if p.mounted && Trim(p.message) != "" && p.sendOps == map[] && !EndedUnmounted(p.log) then
              && q.log == p.log + [SendBegan]
              && p.nextOperation in q.sendOps
              && (var s := q.sendOps[p.nextOperation];
                  && s.draft == p.message && s.began == |p.log| && s.answer.None?
                  && s.target == if p.thread.Some? && p.thread.value.status !in {"CLOSED", "ARCHIVED"}
                                 then Some(p.thread.value.id) else None)
              && q.isSending && !q.sendError && q.message == p.message && q.thread == p.thread
            else q == p
  {
    hide Run, Summary, EndedUnmounted, Trim, Inv;
    SendingFlagExactly(server, events);
    OneSendUnderWay(server, events);
  }

  function BlockedBy(): seq<Event> {
    [Edit("hi"), Submit, Unmount, SendFails(1), Remount]
  }

  lemma {:induction false} RunLast(p: Panel, events: seq<Event>)
    requires events != []
    ensures Run(p, events) == Step(Run(p, events[..|events| - 1]), events[|events| - 1])
    decreases |events|
  {
    hide Step;
    if |events| == 1 {
      assert events[1..] == [];
    } else {
      RunLast(Step(p, events[0]), events[1..]);
      assert events[1..][..|events| - 2] == events[..|events| - 1][1..];
    }
  }

  /** A panel whose send fails while it is unmounted, and that is mounted again with its state, accepts no
      further submit. */
  lemma UnmountedFailureBlocks()
    ensures var p := After(map[], BlockedBy());
            p.mounted && p.sendOps == map[] && !p.mutationPending && p.isSending && Trim(p.message) != ""
  {
    hide Run, Step, Trim;
    var e := BlockedBy();
    var p := Open(map[]);
    assert e[..0] == [] && Run(p, []) == p by { EmptyRun(p); }
    var p1, p2 := Step(p, e[0]), Step(Step(p, e[0]), e[1]);
    var p3, p4 := Step(p2, e[2]), Step(Step(p2, e[2]), e[3]);
    assert e[..1][..0] == e[..0] && e[..2][..1] == e[..1] && e[..3][..2] == e[..2] && e[..4][..3] == e[..3];
    assert e[..5] == e;
    RunLast(p, e[..1]);
    RunLast(p, e[..2]);
    RunLast(p, e[..3]);
    RunLast(p, e[..4]);
    RunLast(p, e[..5]);
    SentThenGone(p);
    GoneThenBack(p3);
    TrimsToItself();
  }

  lemma EmptyRun(p: Panel)
    ensures Run(p, []) == p
  {
  }

  lemma SentThenGone(p: Panel)
    requires p == Open(map[])
    ensures var q := Step(Step(Step(p, Edit("hi")), Submit), Unmount);
            q.sendOps.Keys == {1} && q.isSending && q.message == "hi" && !q.mounted
  {
    hide Trim, KillAll;
    TrimsToItself();
    var sent := Step(Step(p, Edit("hi")), Submit);
    assert sent.nextOperation == 2 && sent.sendOps.Keys == {1} && sent.isSending && sent.message == "hi";
  }

  lemma GoneThenBack(p: Panel)
    requires p.sendOps.Keys == {1} && p.isSending && !p.mounted
    ensures var q := Step(Step(p, SendFails(1)), Remount);
            q.mounted && q.sendOps == map[] && !q.mutationPending && q.isSending && q.message == p.message
  {
    var ended := Step(p, SendFails(1));
    assert ended.sendOps == map[] && ended.isSending && !ended.mutationPending && !ended.mounted;
  }

  lemma TrimsToItself()
    ensures Trim("hi") == "hi"
  {
    assert "hi"[0] !in WHITE_SPACE && "hi"[1] !in WHITE_SPACE;
  }

  // ---------------------------------------------------------------- typing, polls and loads

  lemma {:induction false} TypedGrows(log: seq<Entry>, m: nat, n: nat)
    requires m <= n <= |log|
    ensures Summary(log[..m]).typed <= Summary(log[..n]).typed
    ensures Summary(log[..m]).typed == Summary(log[..n]).typed <==> forall k :: m <= k < n ==> !log[k].Typed?
  {
    hide Summary;
    if m == n {
    } else {
      TypedGrows(log, m, n - 1);
      assert log[..n] == log[..n - 1] + [log[n - 1]];
      SummaryAppend(log[..n - 1], log[n - 1]);
    }
  }

  /** Typing replaces the composer's text.  An acknowledged send empties the composer exactly when the panel
      is mounted and nothing was typed since the send began; it then held the draft acknowledged. */
  lemma ComposerKeepsWhatIsTyped(server: Server, events: seq<Event>, op: nat, value: string)
    requires WellKeyed(server)
    requires var p := After(server, events); op in p.sendOps && p.sendOps[op].answer.Some?
    ensures var p := After(server, events);
            && Step(p, Edit(value)).message == value && Step(p, Edit(value)).log == p.log + [Typed]
            && Step(p, SendSucceeds(op)).message
               == if p.mounted && NothingTyped(p.log, p.sendOps[op].began) then "" else p.message
    ensures var p := After(server, events);
            NothingTyped(p.log, p.sendOps[op].began) ==> p.message == p.sendOps[op].draft
  {
    hide Inv, Run, Summary, Stores, AnsweredRight, SendSucceeded;
    AfterKeeps(server, events);
    var p := After(server, events);
    SendFacts(p, op);
    assert p.log[..|p.log|] == p.log;
    TypedGrows(p.log, p.sendOps[op].began, |p.log|);
    ComposerClearedExactly(server, events, op);
    assert DraftsOk(p.draftVersion, p.message, p.sendOps) by { InvDrafts(p); }
  }

  lemma InvDrafts(p: Panel)
    requires Inv(p)
    ensures DraftsOk(p.draftVersion, p.message, p.sendOps)
  {
    hide HistoryOk, AcksClosed, AcksBefore, CountersOk, OperationsOk, DraftsOk;
  }

  ghost predicate NothingTyped(log: seq<Entry>, began: nat) {
    forall k :: began <= k < |log| ==> !log[k].Typed?
  }

  /** A poll asks for the thread on display, at the current version. */
  lemma PollAsksForTheDisplayedThread(p: Panel)
    requires p.mounted && p.thread.Some?
    ensures var q := Step(p, PollBegins);
            && p.nextOperation in q.readOps
            && q.readOps[p.nextOperation]
               == Read(false, q.mutationVersion, true, DetailAsked(p.thread.value.id), |p.log|)
            && q.thread == p.thread && q.log == p.log
  {
  }

  /** A change of locale, a mounting, and the effect after a retry each begin a load, asking for the list at
      the current version with the last load error cleared; it is then the only load alive. */
  lemma EffectsBeginALoad(server: Server, events: seq<Event>, e: Event)
    requires WellKeyed(server)
    requires var p := After(server, events); p.mounted != e.Remount? && (e.ChangeLocale? || e.Remount? || e.Retry?)
    ensures var p := After(server, events);
            var q := if e.Retry? then Step(Step(p, Retry), ReloadEffect) else Step(p, e);
            && q.log == p.log + (if e.ChangeLocale? then [LocaleChanged] else if e.Remount? then [Remounted] else [])
                              + [LoadBegan]
            && p.nextOperation in q.readOps
            && q.readOps[p.nextOperation] == Read(true, q.mutationVersion, true, ListAsked, |q.log| - 1)
            && !q.initialError && q.mounted
            && forall op :: op in q.readOps && op != p.nextOperation && q.readOps[op].isLoad ==> !q.readOps[op].alive
  {
    hide Run, Summary, HistoryOk, AcksClosed, AcksBefore;
    AfterKeeps(server, events);
    var p := After(server, events);
    assert p.loadedVersion <= p.reloadVersion by { assert CountersOk(p); }
  }
}
