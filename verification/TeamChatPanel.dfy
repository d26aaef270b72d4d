/** The team-chat component as an object: its refs and state setters, updated handler by handler. */
module TeamChatPanel {
  import opened Wrappers
  import opened TeamChat
  import opened TeamChatProofs
  import opened TeamChatTheorems

  /** Each method up to `Remount` is one uninterrupted stretch of a handler or effect, and keeps the
      invariant; the helpers after them are parts of such a stretch.  `readOps` and `sendOps` hold the
      local variables of the suspended operations, `server` what their requests meet; `log` only records. */
  class ClientTeamChatPanel {
    var mounted: bool
    var mutationVersion: nat
    var mutationPending: bool
    var contextVersion: nat
    var draftVersion: nat
    var thread: Option<Thread>
    var message: string
    var isSending: bool
    var sendError: bool
    var initialError: bool
    var reloadVersion: nat
    var loadedVersion: nat
    var readOps: map<nat, Read>
    var sendOps: map<nat, Send>
    var nextOperation: nat
    var server: Server
    var log: seq<Entry>

    function View(): Panel
      reads this
    {
      Panel(server, mounted, mutationVersion, mutationPending, contextVersion, draftVersion, thread, message,
            isSending, sendError, initialError, reloadVersion, loadedVersion, readOps, sendOps, nextOperation, log)
    }

    constructor (server: Server)
      requires WellKeyed(server)
      ensures View() == Open(server) && Inv(View())
    {
      mounted, mutationVersion, mutationPending, contextVersion, draftVersion := true, 0, false, 1, 0;
      thread, message, isSending, sendError, initialError := None, "", false, false, false;
      reloadVersion, loadedVersion, readOps, sendOps, nextOperation := 0, 0, map[], map[], 0;
      this.server, log := server, [];
      new;
      StartLoad();
      OpenKeeps(server);
    }

    // -------------------------------------------------------------- loads and polls

    /** The list response resumes `load`. */
    method ListResponse(op: nat)
      requires Inv(View()) && op in readOps && readOps[op].stage.ListAnswered?
      modifies this
      ensures View() == Step(old(View()), ListArrives(op)) && Inv(View())
    {
      hide Inv, Install, Forget;
      StepKeeps(View(), ListArrives(op));
      var r := readOps[op];
      if r.stage.latest.None? {
        var may := r.alive && !mutationPending && r.version == mutationVersion;
        DropRead(op);
        if may {
          SetThread(None, ByRead(r.began, true), true);
        }
        return;
      }
      readOps := readOps[op := r.(stage := DetailAsked(r.stage.latest.value))];
    }

    /** The thread's response resumes `load` or a poll. */
    method DetailResponse(op: nat)
      requires Inv(View()) && op in readOps && readOps[op].stage.DetailAnswered?
      modifies this
      ensures View() == Step(old(View()), DetailArrives(op)) && Inv(View())
    {
      hide Inv, Install, Forget;
      StepKeeps(View(), DetailArrives(op));
      var r := readOps[op];
      var may := r.alive && !mutationPending && r.version == mutationVersion;
      DropRead(op);
      if may && (r.isLoad || r.stage.thread.Some?) {
        SetThread(r.stage.thread, ByRead(r.began, r.isLoad), false);
      }
    }

    method ReadError(op: nat)
      requires Inv(View()) && op in readOps
      modifies this
      ensures View() == Step(old(View()), ReadFails(op)) && Inv(View())
    {
      hide Inv;
      StepKeeps(View(), ReadFails(op));
      var r := readOps[op];
      DropRead(op);
      if r.isLoad && r.alive && !mutationPending && r.version == mutationVersion {
        initialError := true;
      }
    }

    /** `poll` up to its await; without a thread it returns at once. */
    method Poll()
      requires Inv(View()) && mounted
      modifies this
      ensures View() == Step(old(View()), PollBegins) && Inv(View())
    {
      hide Inv;
      StepKeeps(View(), PollBegins);
      if thread.None? {
        return;
      }
      AwaitRead(Read(false, mutationVersion, true, DetailAsked(thread.value.id), |log|));
    }

    /** The poller aborts a poll's signal. */
    method AbortPoll(op: nat)
      requires Inv(View()) && op in readOps && !readOps[op].isLoad
      modifies this
      ensures View() == Step(old(View()), PollAborted(op)) && Inv(View())
    {
      hide Inv;
      StepKeeps(View(), PollAborted(op));
      readOps := readOps[op := readOps[op].(alive := false)];
    }

    // -------------------------------------------------------------- sends and the composer

    /** `submit` up to its await. */
    method SubmitDraft()
      requires Inv(View()) && mounted
      modifies this
      ensures View() == Step(old(View()), Submit) && Inv(View())
    {
      hide Inv, Trim, OpenMutation, SuspendSend, Target;
      StepKeeps(View(), Submit);
      if Trim(message) == "" || mutationPending || isSending {
        return;
      }
      var send := Send(mutationVersion + 1, draftVersion, contextVersion, Target(thread), message, None, |log|);
      MarkPending();
      AwaitSend(send);
    }

    /** A 2xx response resumes `submit`. */
    method SubmitReply(op: nat)
      requires Inv(View()) && op in sendOps && sendOps[op].answer.Some?
      modifies this
      ensures View() == Step(old(View()), SendSucceeds(op)) && Inv(View())
    {
      hide Inv, ShowReply, ClearComposer, EndSend;
      StepKeeps(View(), SendSucceeds(op));
      var s := sendOps[op];
      Record(AckOf(s));
      DisplayReply(s);
      EmptyComposer(s);
      FinishSubmit(op, s);
    }

    method SubmitError(op: nat)
      requires Inv(View()) && op in sendOps
      modifies this
      ensures View() == Step(old(View()), SendFails(op)) && Inv(View())
    {
      hide Inv, EndSend;
      StepKeeps(View(), SendFails(op));
      var s := sendOps[op];
      if mounted && s.operationContext == contextVersion {
        sendError := true;
      }
      FinishSubmit(op, s);
    }

    method OnChange(value: string)
      requires Inv(View())
      modifies this
      ensures View() == Step(old(View()), Edit(value)) && Inv(View())
    {
      hide Inv;
      StepKeeps(View(), Edit(value));
      draftVersion := draftVersion + 1;
      message := value;
      Record(Typed);
    }

    // -------------------------------------------------------------- effects

    /** The retry button. */
    method RequestReload()
      requires Inv(View()) && mounted
      modifies this
      ensures View() == Step(old(View()), Retry) && Inv(View())
    {
      hide Inv;
      StepKeeps(View(), Retry);
      reloadVersion := reloadVersion + 1;
    }

    /** The load effect reruns because `reloadVersion` moved. */
    method RerunLoad()
      requires Inv(View()) && mounted
      modifies this
      ensures View() == Step(old(View()), ReloadEffect) && Inv(View())
    {
      hide Inv, BeginLoad;
      StepKeeps(View(), ReloadEffect);
      if reloadVersion != loadedVersion {
        readOps := KillLoads(readOps);
        StartLoad();
      }
    }

    /** The cleanups and effects that a new locale reruns. */
    method LocaleEffect()
      requires Inv(View()) && mounted
      modifies this
      ensures View() == Step(old(View()), ChangeLocale) && Inv(View())
    {
      hide Inv, BeginLoad, KillLoads, Write;
      StepKeeps(View(), ChangeLocale);
      SwitchContext();
      Record(LocaleChanged);
      StartLoad();
    }

    method UnmountCleanups()
      requires Inv(View()) && mounted
      modifies this
      ensures View() == Step(old(View()), Unmount) && Inv(View())
    {
      hide Inv, KillAll, Write;
      StepKeeps(View(), Unmount);
      InvalidateAll();
      readOps := KillAll(readOps);
      Record(Unmounted);
    }

    /** Every effect runs again on the same refs and state. */
    method Remount()
      requires Inv(View()) && !mounted
      modifies this
      ensures View() == Step(old(View()), TeamChat.Remount) && Inv(View())
    {
      hide Inv, BeginLoad, Write;
      StepKeeps(View(), TeamChat.Remount);
      contextVersion := contextVersion + 1;
      mounted := true;
      Record(Remounted);
      StartLoad();
    }

    // -------------------------------------------------------------- parts of the above

    method Record(e: Entry)
      modifies this
      ensures View() == Write(old(View()), e)
    {
      log := log + [e];
    }

    method DropRead(op: nat)
      modifies this
      ensures View() == Forget(old(View()), op)
    {
      readOps := readOps - {op};
    }

    /** A load or poll waits at its first await. */
    method AwaitRead(r: Read)
      modifies this
      ensures View() == SuspendRead(old(View()), r)
    {
      readOps := readOps[nextOperation := r];
      nextOperation := nextOperation + 1;
    }

    /** `load` up to its first await. */
    method StartLoad()
      modifies this
      ensures View() == BeginLoad(old(View()))
    {
      hide SuspendRead;
      loadedVersion := reloadVersion;
      initialError := false;
      AwaitRead(Read(true, mutationVersion, true, ListAsked, |log|));
      Record(LoadBegan);
    }

    method SetThread(next: Option<Thread>, source: Source, emptyList: bool)
      modifies this
      ensures View() == Install(old(View()), next, source, emptyList)
    {
      thread := next;
      log := log + [if next.Some? then Shown(next.value, source) else Blanked(source, emptyList)];
    }

    method MarkPending()
      modifies this
      ensures View() == OpenMutation(old(View()))
    {
      mutationVersion := mutationVersion + 1;
      mutationPending := true;
      isSending := true;
      sendError := false;
    }

    /** `submit` waits at its await. */
    method AwaitSend(s: Send)
      modifies this
      ensures View() == SuspendSend(old(View()), s)
    {
      sendOps := sendOps[nextOperation := s];
      nextOperation := nextOperation + 1;
      log := log + [SendBegan];
    }

    method DisplayReply(s: Send)
      requires s.answer.Some?
      modifies this
      ensures View() == ShowReply(old(View()), s)
    {
      hide Install;
      if mounted && s.operationContext == contextVersion && s.operationVersion == mutationVersion {
        SetThread(s.answer.value.reply, BySend(s.began), false);
      }
    }

    method EmptyComposer(s: Send)
      modifies this
      ensures View() == ClearComposer(old(View()), s)
    {
      if mounted && draftVersion == s.sentDraftVersion {
        log := log + [ComposerCleared(message)];
        message := "";
      }
    }

    /** The finally clause of `submit`. */
    method FinishSubmit(op: nat, s: Send)
      modifies this
      ensures View() == EndSend(old(View()), op, s)
    {
      hide CloseMutation;
      var stale := mounted && s.operationContext != contextVersion;
      ClearPending(stale);
      sendOps := sendOps - {op};
      log := log + [SendEnded(stale)];
    }

    method ClearPending(stale: bool)
      modifies this
      ensures View() == CloseMutation(old(View()), stale)
    {
      mutationPending := false;
      mutationVersion := mutationVersion + 1;
      if mounted {
        isSending := false;
      }
      if stale {
        reloadVersion := reloadVersion + 1;
      }
    }

    /** The cleanups of the context and load effects, and the context effect. */
    method SwitchContext()
      modifies this
      ensures View() == old(View()).(contextVersion := old(contextVersion) + 2, readOps := KillLoads(old(readOps)))
    {
      hide KillLoads;
      contextVersion := contextVersion + 1;
      readOps := KillLoads(readOps);
      contextVersion := contextVersion + 1;
    }

    /** The cleanups of the context and mounting effects. */
    method InvalidateAll()
      modifies this
      ensures View() == SupersedeAll(old(View()))
    {
      contextVersion := contextVersion + 1;
      mounted := false;
      mutationVersion := mutationVersion + 1;
    }

    // -------------------------------------------------------------- any run

    /** Other people write on the server. */
    method ServerMoves(next: Server)
      requires Inv(View())
      modifies this
      ensures View() == Step(old(View()), ServerChanges(next)) && Inv(View())
    {
      hide Inv, Grows;
      StepKeeps(View(), ServerChanges(next));
      if Grows(server, next) {
        server := next;
      }
    }

    /** The server answers a read. */
    method AnswerRead(e: Event)
      requires Inv(View()) && (e.ListServed? || e.DetailServed?)
      modifies this
      ensures View() == Step(old(View()), e) && Inv(View())
    {
      hide Inv, Grows, Takes;
      StepKeeps(View(), e);
      readOps := Step(View(), e).readOps;
    }

    /** The server stores a message and answers its send. */
    method AnswerSend(op: nat, next: Server, receipt: Receipt, withData: bool)
      requires Inv(View())
      modifies this
      ensures View() == Step(old(View()), SendServed(op, next, receipt, withData)) && Inv(View())
    {
      hide Inv, Grows, Trim;
      StepKeeps(View(), SendServed(op, next, receipt, withData));
      if op !in sendOps || sendOps[op].answer.Some?
         || !Takes(server, next, receipt, sendOps[op].target, Trim(sendOps[op].draft)) {
        return;
      }
      server := next;
      var reply := if withData then Some(next[receipt.thread]) else None;
      sendOps := sendOps[op := sendOps[op].(answer := Some(Answer(receipt, reply)))];
    }

    /** One moment of the event loop; a moment that cannot happen now is skipped. */
    method Moment(e: Event)
      requires Inv(View())
      modifies this
      ensures View() == Step(old(View()), e) && Inv(View())
    {
      hide Inv, BeginLoad, BeginSend, SendSucceeded, SendFailed, ListArrived, DetailArrived, ReadFailed, LocaleEffects,
        UnmountEffects, RemountEffects, Grows, Takes;
      match e
      case ServerChanges(next) => ServerMoves(next);
      case ListServed(_, _) => AnswerRead(e);
      case DetailServed(_, _) => AnswerRead(e);
      case SendServed(op, next, receipt, withData) => AnswerSend(op, next, receipt, withData);
      case ListArrives(op) => if op in readOps && readOps[op].stage.ListAnswered? { ListResponse(op); }
      case DetailArrives(op) => if op in readOps && readOps[op].stage.DetailAnswered? { DetailResponse(op); }
      case ReadFails(op) => if op in readOps { ReadError(op); }
      case PollBegins => if mounted { Poll(); }
      case PollAborted(op) => if op in readOps && !readOps[op].isLoad { AbortPoll(op); }
      case Submit => if mounted { SubmitDraft(); }
      case SendSucceeds(op) => if op in sendOps && sendOps[op].answer.Some? { SubmitReply(op); }
      case SendFails(op) => if op in sendOps { SubmitError(op); }
      case Edit(value) => OnChange(value);
      case ChangeLocale => if mounted { LocaleEffect(); }
      case Retry => if mounted { RequestReload(); }
      case ReloadEffect => if mounted { RerunLoad(); }
      case Unmount => if mounted { UnmountCleanups(); }
      case Remount => if !mounted { Remount(); }
    }
  }

  /** The object after any run is the panel of the theorems: what they say of `After(server, events)`
      they say of it. */
  method Play(server: Server, events: seq<Event>) returns (panel: ClientTeamChatPanel)
    requires WellKeyed(server)
    ensures fresh(panel) && panel.View() == After(server, events) && Inv(panel.View())
  {
    hide Inv, Step, Open;
    panel := new ClientTeamChatPanel(server);
    for i := 0 to |events|
      invariant fresh(panel) && Inv(panel.View())
      invariant Run(panel.View(), events[i..]) == Run(Open(server), events)
    {
      assert events[i..][1..] == events[i + 1..];
      panel.Moment(events[i]);
    }
  }
}
