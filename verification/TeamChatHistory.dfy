/** What a log of the team-chat panel says, and what every such log must satisfy. */
module TeamChatHistory {
  import opened Wrappers
  import opened TeamChat

  /** Counted from a log alone.  `typed` counts the edits, `bumps` the moments that supersede a running
      read, `contexts` those that supersede a running send, `open` the sends begun and not ended;
      `sendContext` is what `contexts` was when the last send began, and `lost` says that a send ended while
      the panel was unmounted. */
  datatype Facts = Facts(
    typed: nat,
    bumps: nat,
    contexts: nat,
    sendContext: nat,
    open: int,
    mounted: bool,
    lost: bool,
    shown: Option<Thread>,
    reloadOwed: bool)

  function Next(f: Facts, e: Entry): Facts {
    match e
    case Typed => f.(typed := f.typed + 1)
    case SendBegan => f.(bumps := f.bumps + 1, open := f.open + 1, sendContext := f.contexts)
    case SendEnded(stale) =>
      f.(bumps := f.bumps + 1, open := f.open - 1, reloadOwed := f.reloadOwed || stale, lost := f.lost || !f.mounted)
    case LoadBegan => f.(reloadOwed := false)
    case LocaleChanged => f.(contexts := f.contexts + 2)
    case Unmounted => f.(bumps := f.bumps + 1, contexts := f.contexts + 1, mounted := false, reloadOwed := false)
    case Remounted => f.(contexts := f.contexts + 1, mounted := true)
    case Shown(thread, _) => f.(shown := Some(thread))
    case Blanked(_, _) => f.(shown := None)
    case Acked(_, _, _, _) => f
    case ComposerCleared(_) => f
  }

  function Summary(log: seq<Entry>): Facts {
    if log == [] then Facts(0, 0, 1, 0, 0, true, false, None, false)
    else Next(Summary(log[..|log| - 1]), log[|log| - 1])
  }

  predicate Bumps(e: Entry) {
    e.SendBegan? || e.SendEnded? || e.Unmounted?
  }

  predicate ChangesContext(e: Entry) {
    e.LocaleChanged? || e.Unmounted? || e.Remounted?
  }

  predicate AckFor(e: Entry, t: Thread) {
    e.Acked? && e.receipt.thread == t.id
  }

  /** `t` has the message that was stored and all that the reply showed. */
  predicate Holds(t: Thread, receipt: Receipt, reply: Option<Thread>) {
    receipt.message in t.messages && (reply.Some? ==> Kept(reply.value, t))
  }

  /** `t` holds all that was acknowledged for its thread in `log`. */
  ghost predicate KeepsAcks(log: seq<Entry>, t: Thread) {
    forall i :: 0 <= i < |log| && AckFor(log[i], t) ==> Holds(t, log[i].receipt, log[i].reply)
  }

  ghost predicate NothingAcked(log: seq<Entry>) {
    forall i :: 0 <= i < |log| ==> !log[i].Acked?
  }

  /** No acknowledgement in `log` was for this message. */
  ghost predicate NewMessage(log: seq<Entry>, m: Message) {
    forall i :: 0 <= i < |log| && log[i].Acked? ==> log[i].receipt.message != m
  }

  /** The server stored the draft's text, in the thread that was on display when the send began unless
      there was none or it was closed, and the reply is of that thread and shows the message. */
  ghost predicate StoredRight(log: seq<Entry>, draft: string, began: nat, receipt: Receipt, reply: Option<Thread>) {
    && receipt.message.body == Trim(draft)
    && (reply.Some? ==> reply.value.id == receipt.thread && receipt.message in reply.value.messages)
    && began < |log| && log[began].SendBegan?
    && var target := Target(Summary(log[..began]).shown);
       target.Some? ==> receipt.thread == target.value
  }

  /** No send was open when `log` had length `began`, and none began or ended since. */
  ghost predicate OverlapsNoSend(log: seq<Entry>, began: nat) {
    && began <= |log|
    && Summary(log[..began]).open == 0
    && forall k :: began <= k < |log| ==> !log[k].SendBegan? && !log[k].SendEnded?
  }

  ghost predicate ContextUnchanged(log: seq<Entry>, began: nat) {
    began <= |log| && forall k :: began <= k < |log| ==> !ChangesContext(log[k])
  }

  /** What makes an older load's answer unwanted. */
  predicate Overtakes(e: Entry) {
    e.LoadBegan? || e.LocaleChanged? || e.Unmounted?
  }

  /** A load began at `began`, and nothing overtook it. */
  ghost predicate NotOvertaken(log: seq<Entry>, began: nat) {
    && began < |log| && log[began].LoadBegan?
    && forall k :: began < k < |log| ==> !Overtakes(log[k])
  }

  /** The log ends with the acknowledgement of `content`, perhaps followed by its display. */
  predicate JustAcked(log: seq<Entry>, content: string) {
    || (|log| >= 1 && log[|log| - 1].Acked? && log[|log| - 1].draft == content)
    || (|log| >= 2 && (log[|log| - 1].Shown? || log[|log| - 1].Blanked?)
        && log[|log| - 2].Acked? && log[|log| - 2].draft == content)
  }

  ghost predicate SourceOk(log: seq<Entry>, source: Source) {
    match source
    case ByRead(began, isLoad) => OverlapsNoSend(log, began) && (isLoad ==> NotOvertaken(log, began))
    case BySend(began) => began < |log| && log[began].SendBegan? && ContextUnchanged(log, began)
  }

  /** When an entry may come after the entries of `log`. */
  ghost predicate Permitted(log: seq<Entry>, e: Entry) {
    match e
    case SendBegan => Summary(log).open == 0
    case SendEnded(stale) =>
      var f := Summary(log);
      f.open == 1 && (stale <==> (f.mounted && f.sendContext != f.contexts))
    case Acked(draft, began, receipt, reply) =>
      && Summary(log).open == 1
      && StoredRight(log, draft, began, receipt, reply)
      && NewMessage(log, receipt.message)
    case Shown(thread, source) => Summary(log).mounted && SourceOk(log, source) && KeepsAcks(log, thread)
    case Blanked(source, emptyList) =>
      Summary(log).mounted && SourceOk(log, source) && (emptyList ==> source.ByRead? && NothingAcked(log))
    case ComposerCleared(content) => Summary(log).mounted && JustAcked(log, content)
    case _ => true
  }

  ghost predicate TraceOk(log: seq<Entry>) {
    forall j :: 0 <= j < |log| ==> Permitted(log[..j], log[j])
  }

  // ---------------------------------------------------------------- reading a growing log

  lemma SummaryAppend(log: seq<Entry>, e: Entry)
    ensures Summary(log + [e]) == Next(Summary(log), e)
  {
    assert (log + [e])[..|log|] == log;
  }

  lemma TraceAppend(log: seq<Entry>, e: Entry)
    requires TraceOk(log) && Permitted(log, e)
    ensures TraceOk(log + [e])
  {
    hide Permitted;
    var grown := log + [e];
    forall j | 0 <= j < |grown| ensures Permitted(grown[..j], grown[j]) {
      assert grown[..j] == log[..j];
      assert log[..|log|] == log;
    }
  }

  lemma {:induction false} BumpsGrow(log: seq<Entry>, m: nat, n: nat)
    requires m <= n <= |log|
    ensures Summary(log[..m]).bumps <= Summary(log[..n]).bumps
    ensures (exists k :: m <= k < n && Bumps(log[k])) ==> Summary(log[..m]).bumps < Summary(log[..n]).bumps
  {
    hide Summary;
    if m == n {
    } else {
      BumpsGrow(log, m, n - 1);
      assert log[..n] == log[..n - 1] + [log[n - 1]];
      SummaryAppend(log[..n - 1], log[n - 1]);
    }
  }

  lemma {:induction false} ContextsGrow(log: seq<Entry>, m: nat, n: nat)
    requires m <= n <= |log|
    ensures Summary(log[..m]).contexts <= Summary(log[..n]).contexts
    ensures (exists k :: m <= k < n && ChangesContext(log[k]))
            ==> Summary(log[..m]).contexts < Summary(log[..n]).contexts
    ensures (forall k :: m <= k < n ==> !ChangesContext(log[k]))
            ==> Summary(log[..m]).contexts == Summary(log[..n]).contexts
  {
    hide Summary;
    if m == n {
    } else {
      ContextsGrow(log, m, n - 1);
      assert log[..n] == log[..n - 1] + [log[n - 1]];
      SummaryAppend(log[..n - 1], log[n - 1]);
    }
  }

  /** Where nothing bumps the version, no send begins or ends and nothing unmounts, and back. */
  lemma {:induction false} Quiet(log: seq<Entry>, began: nat)
    requires began <= |log|
    ensures Summary(log).bumps == Summary(log[..began]).bumps
            <==> forall k :: began <= k < |log| ==> !Bumps(log[k])
    ensures Summary(log).bumps == Summary(log[..began]).bumps
            ==> Summary(log).open == Summary(log[..began]).open
    decreases |log| - began
  {
    hide Summary;
    assert log[..|log|] == log;
    if began == |log| {
    } else {
      assert log[..began + 1] == log[..began] + [log[began]];
      SummaryAppend(log[..began], log[began]);
      Quiet(log, began + 1);
      BumpsGrow(log, began + 1, |log|);
    }
  }
}
