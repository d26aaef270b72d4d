/** The client's team-chat panel: loads, background polls and sends against one displayed
    thread, arbitrated by version counters, with a server whose threads only grow.

    Every `await` is split: an operation is asked, the server answers it at some later moment,
    and the panel resumes at a later moment still.  `Step` is one such moment; the adversary
    chooses them all, lets other people write on the server at any time, and may start any
    number of polls.  The log is what an observer of the panel could write down. */
module TeamChat {
  import opened Wrappers

  type ThreadId = nat
  datatype Message = Message(id: nat, body: string)
  datatype Thread = Thread(id: ThreadId, status: string, messages: seq<Message>)
  type Server = map<ThreadId, Thread>

  /** How far a read has come: the list is asked first by a load, the thread itself by both. */
  datatype Stage =
    | ListAsked
    | ListAnswered(latest: Option<ThreadId>)
    | DetailAsked(id: ThreadId)
    | DetailAnswered(thread: Option<Thread>)

  /** A load or poll between its first line and its last.  `alive` is the load's own `mounted`
      flag, or for a poll that its signal is not aborted; `began` is its place in the log. */
  datatype Read = Read(isLoad: bool, version: nat, alive: bool, stage: Stage, began: nat)

  /** What the server stored for a send, and where. */
  datatype Receipt = Receipt(thread: ThreadId, message: Message)

  /** A 2xx answer to a send: what was stored, and the body's snapshot of the thread if it has one. */
  datatype Answer = Answer(receipt: Receipt, reply: Option<Thread>)

  /** A submit between its first await and its `finally`. */
  datatype Send = Send(
    operationVersion: nat,
    sentDraftVersion: nat,
    operationContext: nat,
    target: Option<ThreadId>,
    draft: string,
    answer: Option<Answer>,
    began: nat)

  datatype Source = ByRead(began: nat, isLoad: bool) | BySend(began: nat)

  datatype Entry =
    | Typed
    | SendBegan
    | Acked(draft: string, began: nat, receipt: Receipt, reply: Option<Thread>)
    | SendEnded(stale: bool)          // stale: mounted, but in another context than it began in
    | LoadBegan
    | LocaleChanged
    | Unmounted
    | Remounted
    | Shown(thread: Thread, source: Source)
    | Blanked(source: Source, emptyList: bool)
    | ComposerCleared(content: string)

  datatype Panel = Panel(
    server: Server,
    mounted: bool,
    mutationVersion: nat,
    mutationPending: bool,
    contextVersion: nat,
    draftVersion: nat,
    thread: Option<Thread>,
    message: string,
    isSending: bool,
    sendError: bool,
    initialError: bool,
    reloadVersion: nat,
    loadedVersion: nat,               // the reloadVersion the running load effect saw
    readOps: map<nat, Read>,
    sendOps: map<nat, Send>,
    nextOperation: nat,
    log: seq<Entry>)

  datatype Event =
    | ServerChanges(next: Server)
    | ListServed(op: nat, latest: Option<ThreadId>)
    | ListArrives(op: nat)
    | DetailServed(op: nat, withData: bool)
    | DetailArrives(op: nat)
    | ReadFails(op: nat)
    | PollBegins
    | PollAborted(op: nat)
    | Submit
    | SendServed(op: nat, next: Server, receipt: Receipt, withData: bool)
    | SendSucceeds(op: nat)
    | SendFails(op: nat)
    | Edit(value: string)
    | ChangeLocale
    | Retry
    | ReloadEffect
    | Unmount
    | Remount

  // ---------------------------------------------------------------- the server

  /** No message of `a` is missing from `b`. */
  predicate Kept(a: Thread, b: Thread) {
    a.id == b.id && forall m :: m in a.messages ==> m in b.messages
  }

  predicate WellKeyed(server: Server) {
    forall id :: id in server ==> server[id].id == id
  }

  predicate Grows(server: Server, next: Server) {
    && WellKeyed(next)
    && forall id :: id in server ==> id in next && Kept(server[id], next[id])
  }

  predicate Stores(server: Server, receipt: Receipt) {
    receipt.thread in server && receipt.message in server[receipt.thread].messages
  }

  /** The server has taken the text as a new message: into the addressed thread, or one of its own choice. */
  predicate Takes(server: Server, next: Server, receipt: Receipt, target: Option<ThreadId>, text: string) {
    && Grows(server, next)
    && Stores(next, receipt)
    && receipt.message.body == text
    && (target.Some? ==> receipt.thread == target.value)
    && forall id :: id in server ==> receipt.message !in server[id].messages
  }

  predicate IsClosed(thread: Option<Thread>) {
    thread.Some? && thread.value.status in {"CLOSED", "ARCHIVED"}
  }

  const WHITE_SPACE: set<char> := {
    '\t', '\n', '\U{0B}', '\U{0C}', '\r', ' ', '\U{A0}', '\U{1680}', '\U{2000}', '\U{2001}', '\U{2002}',
    '\U{2003}', '\U{2004}', '\U{2005}', '\U{2006}', '\U{2007}', '\U{2008}', '\U{2009}', '\U{200A}', '\U{2028}',
    '\U{2029}', '\U{202F}', '\U{205F}', '\U{3000}', '\U{FEFF}'
  }

  function TrimStart(s: string): string {
    if s != [] && s[0] in WHITE_SPACE then TrimStart(s[1..]) else s
  }

  function TrimEnd(s: string): string {
    if s != [] && s[|s| - 1] in WHITE_SPACE then TrimEnd(s[..|s| - 1]) else s
  }

  function Trim(s: string): string {
    TrimEnd(TrimStart(s))
  }

  // ---------------------------------------------------------------- the panel

  function Write(p: Panel, e: Entry): Panel {
    p.(log := p.log + [e])
  }

  function KillLoads(ops: map<nat, Read>): map<nat, Read> {
    map op | op in ops :: if ops[op].isLoad then ops[op].(alive := false) else ops[op]
  }

  function KillAll(ops: map<nat, Read>): map<nat, Read> {
    map op | op in ops :: ops[op].(alive := false)
  }

  /** A load or poll waits at its first await. */
  function SuspendRead(p: Panel, r: Read): Panel {
    p.(readOps := p.readOps[p.nextOperation := r], nextOperation := p.nextOperation + 1)
  }

  /** The load effect: first line to the first await. */
  function BeginLoad(p: Panel): Panel {
    var q := p.(loadedVersion := p.reloadVersion, initialError := false);
    Write(SuspendRead(q, Read(true, p.mutationVersion, true, ListAsked, |p.log|)), LoadBegan)
  }

  /** The first commit: effects have run once. */
  function Open(server: Server): Panel {
    BeginLoad(Panel(server, true, 0, false, 1, 0, None, "", false, false, false, 0, 0, map[], map[], 0, []))
  }

  predicate MayInstall(p: Panel, r: Read) {
    r.alive && !p.mutationPending && r.version == p.mutationVersion
  }

  function Install(p: Panel, thread: Option<Thread>, source: Source, emptyList: bool): Panel {
    match thread
    case Some(t) => Write(p.(thread := thread), Shown(t, source))
    case None => Write(p.(thread := None), Blanked(source, emptyList))
  }

  function Forget(p: Panel, op: nat): Panel {
    p.(readOps := p.readOps - {op})
  }

  function ListArrived(p: Panel, op: nat): Panel
    requires op in p.readOps && p.readOps[op].stage.ListAnswered?
  {
    var r := p.readOps[op];
    match r.stage.latest
    case Some(id) => p.(readOps := p.readOps[op := r.(stage := DetailAsked(id))])
    case None => if MayInstall(p, r) then Install(Forget(p, op), None, ByRead(r.began, true), true) else Forget(p, op)
  }

  /** A load shows whatever came, a poll only a thread. */
  function DetailArrived(p: Panel, op: nat): Panel
    requires op in p.readOps && p.readOps[op].stage.DetailAnswered?
  {
    var r := p.readOps[op];
    if MayInstall(p, r) && (r.isLoad || r.stage.thread.Some?)
    then Install(Forget(p, op), r.stage.thread, ByRead(r.began, r.isLoad), false)
    else Forget(p, op)
  }

  function ReadFailed(p: Panel, op: nat): Panel
    requires op in p.readOps
  {
    var q := Forget(p, op);
    if p.readOps[op].isLoad && MayInstall(p, p.readOps[op]) then q.(initialError := true) else q
  }

  function OpenMutation(p: Panel): Panel {
    p.(mutationVersion := p.mutationVersion + 1, mutationPending := true, isSending := true, sendError := false)
  }

  /** A submit waits at its await. */
  function SuspendSend(p: Panel, s: Send): Panel {
    Write(p.(sendOps := p.sendOps[p.nextOperation := s], nextOperation := p.nextOperation + 1), SendBegan)
  }

  function Target(thread: Option<Thread>): Option<ThreadId> {
    if thread.Some? && !IsClosed(thread) then Some(thread.value.id) else None
  }

  function BeginSend(p: Panel): Panel {
    if Trim(p.message) == "" || p.mutationPending || p.isSending then p
    else
      SuspendSend(OpenMutation(p),
                  Send(p.mutationVersion + 1, p.draftVersion, p.contextVersion, Target(p.thread), p.message, None,
                       |p.log|))
  }

  function AckOf(s: Send): Entry
    requires s.answer.Some?
  {
    Acked(s.draft, s.began, s.answer.value.receipt, s.answer.value.reply)
  }

  predicate SameContext(p: Panel, s: Send) {
    p.mounted && s.operationContext == p.contextVersion
  }

  function ShowReply(p: Panel, s: Send): Panel
    requires s.answer.Some?
  {
    if SameContext(p, s) && s.operationVersion == p.mutationVersion
    then Install(p, s.answer.value.reply, BySend(s.began), false)
    else p
  }

  function ClearComposer(p: Panel, s: Send): Panel {
    if p.mounted && p.draftVersion == s.sentDraftVersion
    then Write(p.(message := ""), ComposerCleared(p.message))
    else p
  }

  function CloseMutation(p: Panel, stale: bool): Panel {
    p.(mutationPending := false,
       mutationVersion := p.mutationVersion + 1,
       isSending := p.isSending && !p.mounted,
       reloadVersion := if stale then p.reloadVersion + 1 else p.reloadVersion)
  }

  /** The `finally` clause of submit. */
  function EndSend(p: Panel, op: nat, s: Send): Panel {
    var stale := p.mounted && s.operationContext != p.contextVersion;
    var q := CloseMutation(p, stale);
    Write(q.(sendOps := q.sendOps - {op}), SendEnded(stale))
  }

  function SendSucceeded(p: Panel, op: nat): Panel
    requires op in p.sendOps && p.sendOps[op].answer.Some?
  {
    var s := p.sendOps[op];
    EndSend(ClearComposer(ShowReply(Write(p, AckOf(s)), s), s), op, s)
  }

  function SendFailed(p: Panel, op: nat): Panel
    requires op in p.sendOps
  {
    var s := p.sendOps[op];
    EndSend(if SameContext(p, s) then p.(sendError := true) else p, op, s)
  }

  function LocaleEffects(p: Panel): Panel {
    BeginLoad(Write(p.(contextVersion := p.contextVersion + 2, readOps := KillLoads(p.readOps)), LocaleChanged))
  }

  /** The cleanups of the context and mounting effects on unmount. */
  function SupersedeAll(p: Panel): Panel {
    p.(contextVersion := p.contextVersion + 1, mounted := false, mutationVersion := p.mutationVersion + 1)
  }

  function UnmountEffects(p: Panel): Panel {
    Write(SupersedeAll(p).(readOps := KillAll(p.readOps)), Unmounted)
  }

  function RemountEffects(p: Panel): Panel {
    BeginLoad(Write(p.(contextVersion := p.contextVersion + 1, mounted := true), Remounted))
  }

  predicate Asked(p: Panel, op: nat, stage: Stage) {
    op in p.readOps && p.readOps[op].stage == stage
  }

  /** One moment.  An event that cannot happen now changes nothing. */
  function Step(p: Panel, e: Event): Panel {
    match e
    case ServerChanges(next) => if Grows(p.server, next) then p.(server := next) else p
    case ListServed(op, latest) =>
      if Asked(p, op, ListAsked) && (if latest.Some? then latest.value in p.server else p.server == map[])
      then p.(readOps := p.readOps[op := p.readOps[op].(stage := ListAnswered(latest))]) else p
    case ListArrives(op) => if op in p.readOps && p.readOps[op].stage.ListAnswered? then ListArrived(p, op) else p
    case DetailServed(op, withData) =>
      if op in p.readOps && p.readOps[op].stage.DetailAsked? && p.readOps[op].stage.id in p.server then
        var body := if withData then Some(p.server[p.readOps[op].stage.id]) else None;
        p.(readOps := p.readOps[op := p.readOps[op].(stage := DetailAnswered(body))])
      else p
    case DetailArrives(op) =>
      if op in p.readOps && p.readOps[op].stage.DetailAnswered? then DetailArrived(p, op) else p
    case ReadFails(op) => if op in p.readOps then ReadFailed(p, op) else p
    case PollBegins =>
      if p.mounted && p.thread.Some? then
        SuspendRead(p, Read(false, p.mutationVersion, true, DetailAsked(p.thread.value.id), |p.log|))
      else p
    case PollAborted(op) =>
      if op in p.readOps && !p.readOps[op].isLoad
      then p.(readOps := p.readOps[op := p.readOps[op].(alive := false)])
      else p
    case Submit => if p.mounted then BeginSend(p) else p
    case SendServed(op, next, receipt, withData) =>
      if op in p.sendOps && p.sendOps[op].answer.None?
         && Takes(p.server, next, receipt, p.sendOps[op].target, Trim(p.sendOps[op].draft))
      then
        var answer := Answer(receipt, if withData then Some(next[receipt.thread]) else None);
        p.(server := next, sendOps := p.sendOps[op := p.sendOps[op].(answer := Some(answer))])
      else p
    case SendSucceeds(op) => if op in p.sendOps && p.sendOps[op].answer.Some? then SendSucceeded(p, op) else p
    case SendFails(op) => if op in p.sendOps then SendFailed(p, op) else p
    case Edit(value) => Write(p.(draftVersion := p.draftVersion + 1, message := value), Typed)
    case ChangeLocale => if p.mounted then LocaleEffects(p) else p
    case Retry => if p.mounted then p.(reloadVersion := p.reloadVersion + 1) else p
    case ReloadEffect =>
      if p.mounted && p.reloadVersion != p.loadedVersion then BeginLoad(p.(readOps := KillLoads(p.readOps))) else p
    case Unmount => if p.mounted then UnmountEffects(p) else p
    case Remount => if !p.mounted then RemountEffects(p) else p
  }

  function Run(p: Panel, events: seq<Event>): Panel
    decreases |events|
  {
    if events == [] then p else Run(Step(p, events[0]), events[1..])
  }
}
