/**
 * The installation of any number of nodes at once: registrations, triggers, polls and deregistrations
 * interleaved in any order, with commands that fail and tasks that are given up and run again.
 */
module InstallProtocol {
  import opened Wrappers
  import opened Cobbler
  import opened Registration
  import opened SyncTrigger

  /** How far the plan is with a node. */
  datatype Phase =
    | Idle
    | Registering(p: Params, order: seq<string>, next: nat)
    | Unregistered
    | Registered(p: Params)
    | PxeSeen(p: Params)
    | NodeUp(p: Params)
    | Removed(p: Params)
    | Installed

  datatype State = State(table: Table, xinetd: bool, phases: map<string, Phase>)

  datatype Event =
    /** `_add_system_callback` starts, is at its next command, */
    | Begin(p: Params, order: seq<string>)
    | Send(name: string, k: nat, rpc: Rpc, answers: Answers)
    /** the pre-install trigger fires, and finds the system or not, */
    | Trigger(objectType: string, name: string, found: bool)
    /** `_wait_for_pxe_boot` polls, */
    | PxePoll(name: string)
    /** `_wait_for_node` pings, removes the system, and syncs, the sync trigger giving `result`, */
    | Ping(name: string, up: bool)
    | Remove(name: string, rpc: Rpc)
    | Sync(name: string, rpc: Rpc, answers: Answers, result: int)
    /** a callback ends early: by a time-out, or because the plan was stopped. */
    | GiveUp(name: string)

  function PhaseOf(s: State, n: string): Phase {
    if n in s.phases then s.phases[n] else Idle
  }

  function NameOf(e: Event): string {
    if e.Begin? then e.p.name else e.name
  }

  /** Each wait starts only after what comes before it has succeeded. */
  ghost predicate Enabled(s: State, e: Event) {
    match e
    case Begin(p, order) => WellFormed(p) && Orders(order, p) && !PhaseOf(s, p.name).Registering?
    case Send(n, k, _, answers) =>
      PhaseOf(s, n).Registering? && InOrder(PhaseOf(s, n)) && k == PhaseOf(s, n).next && Honest(s.xinetd, answers)
    case Trigger(_, n, found) => found <==> n in s.table
    case PxePoll(n) => PhaseOf(s, n).Registered?
    case Ping(n, _) => PhaseOf(s, n).PxeSeen?
    case Remove(n, _) => PhaseOf(s, n).NodeUp?
    case Sync(n, _, answers, result) =>
      PhaseOf(s, n).Removed? && Honest(s.xinetd, answers) && result == Triggered(s.xinetd, s.table != map[], answers).1
    case GiveUp(_) => true
  }

  /** A command reaches Cobbler or not; a sync runs the sync trigger first. */
  function Executed(s: State, c: Command, rpc: Rpc, answers: Answers): (State, bool) {
    if rpc == LostBefore then (s, false)
    else if c.SyncSystems? then
      var (xinetd, result) := Triggered(s.xinetd, s.table != map[], answers);
      (s.(xinetd := xinetd), result == 0 && rpc == Delivered)
    else
      var (table, ok) := Exec(s.table, c);
      (s.(table := table), ok && rpc == Delivered)
  }

  /** The phase after the next command of a registration. */
  function AfterSend(p: Params, order: seq<string>, next: nat, ok: bool): Phase {
    if !ok then Unregistered
    else if next + 1 == |order| + 3 then Registered(p)
    else Registering(p, order, next + 1)
  }

  /** A callback that ends early: the registration starts over, the wait for the node pings again. */
  function Restarted(phase: Phase): Phase {
    match phase
    case Registering(_, _, _) => Unregistered
    case NodeUp(p) => PxeSeen(p)
    case Removed(p) => PxeSeen(p)
    case _ => phase
  }

  function Moved(s: State, n: string, phase: Phase): State {
    s.(phases := s.phases[n := phase])
  }

  ghost predicate InOrder(phase: Phase) {
    phase.Registering? ==> Orders(phase.order, phase.p) && phase.next < |phase.order| + 3
  }

  ghost function Next(s: State, e: Event): State
    requires Enabled(s, e)
  {
    match e
    case Begin(p, order) => Moved(s, p.name, Registering(p, order, 0))
    case Send(n, _, rpc, answers) =>
      var phase := PhaseOf(s, n);
      var (s1, ok) := Executed(s, CommandAt(phase.p, phase.order, phase.next), rpc, answers);
      Moved(s1, n, AfterSend(phase.p, phase.order, phase.next, ok))
    case Trigger(objectType, n, _) => s.(table := FireTrigger(s.table, objectType, n))
    case PxePoll(n) => if PxeCompleted(Find(s.table, n)) then Moved(s, n, PxeSeen(PhaseOf(s, n).p)) else s
    case Ping(n, up) => if up then Moved(s, n, NodeUp(PhaseOf(s, n).p)) else s
    case Remove(n, rpc) =>
      var (s1, ok) := Executed(s, RemoveSystem(n), rpc, Answers(0, 0, false));
      Moved(s1, n, if ok then Removed(PhaseOf(s, n).p) else PxeSeen(PhaseOf(s, n).p))
    case Sync(n, rpc, answers, _) =>
      var (s1, ok) := Executed(s, SyncSystems, rpc, answers);
      Moved(s1, n, if ok then Installed else PxeSeen(PhaseOf(s, n).p))
    case GiveUp(n) => Moved(s, n, Restarted(PhaseOf(s, n)))
  }

  // ---------- what has happened to a node since its record was last removed ----------

  /** The node's registration begins, or sends the removal of the record that it finds. */
  predicate Begins(e: Event, n: string) {
    (e.Begin? && e.p.name == n) || (e.Send? && e.name == n && e.k == 0)
  }

  /** The node's new record has been added. */
  predicate Adds(e: Event, n: string) {
    e.Send? && e.name == n && e.k == 1 && e.rpc == Delivered
  }

  predicate Fires(e: Event, n: string) {
    e.Trigger? && e.name == n && e.objectType == "system" && e.found
  }

  predicate Pings(e: Event, n: string) {
    e.Ping? && e.name == n && e.up
  }

  /** The latest registration has had its removal delivered, */
  predicate Begun(log: seq<Event>, n: string) {
    log != [] && if Begins(log[|log| - 1], n) then log[|log| - 1].Send? && log[|log| - 1].rpc == Delivered
                 else Begun(log[..|log| - 1], n)
  }

  /** after that its addition, */
  predicate Added(log: seq<Event>, n: string) {
    log != [] && !Begins(log[|log| - 1], n)
    && ((Adds(log[|log| - 1], n) && Begun(log[..|log| - 1], n)) || Added(log[..|log| - 1], n))
  }

  /** after that the trigger has fired and found the record, */
  predicate Fresh(log: seq<Event>, n: string) {
    log != [] && !Begins(log[|log| - 1], n)
    && ((Fires(log[|log| - 1], n) && Added(log[..|log| - 1], n)) || Fresh(log[..|log| - 1], n))
  }

  /** and after that a ping has been answered. */
  predicate Pinged(log: seq<Event>, n: string) {
    log != [] && !Begins(log[|log| - 1], n)
    && ((Pings(log[|log| - 1], n) && Fresh(log[..|log| - 1], n)) || Pinged(log[..|log| - 1], n))
  }

  predicate Deregisters(e: Event, n: string) {
    e.Remove? && e.name == n && e.rpc == Delivered
  }

  predicate Syncs(e: Event, n: string) {
    e.Sync? && e.name == n && e.rpc == Delivered && e.result == 0
  }

  /** After the ping the removal of the node has been delivered, */
  predicate Gone(log: seq<Event>, n: string) {
    log != [] && !Begins(log[|log| - 1], n)
    && ((Deregisters(log[|log| - 1], n) && Pinged(log[..|log| - 1], n)) || Gone(log[..|log| - 1], n))
  }

  /** and after that a sync has succeeded. */
  predicate Synced(log: seq<Event>, n: string) {
    log != [] && !Begins(log[|log| - 1], n)
    && ((Syncs(log[|log| - 1], n) && Gone(log[..|log| - 1], n)) || Synced(log[..|log| - 1], n))
  }

  /** An event of the node's callbacks, which the trigger is not. */
  predicate OfCallback(e: Event, n: string) {
    NameOf(e) == n && !e.Trigger?
  }

  /** The last thing that the node's callbacks did was to get an answer to a ping. */
  predicate JustPinged(log: seq<Event>, n: string) {
    log != []
    && if OfCallback(log[|log| - 1], n) then Pings(log[|log| - 1], n) else JustPinged(log[..|log| - 1], n)
  }

  /** The last thing they did was to have the removal delivered. */
  predicate JustRemoved(log: seq<Event>, n: string) {
    log != []
    && if OfCallback(log[|log| - 1], n) then Deregisters(log[|log| - 1], n) else JustRemoved(log[..|log| - 1], n)
  }

  // ---------- the invariant ----------

  /** The record of a registered node: all that the registration wrote, and perhaps the comment. */
  predicate Intact(t: Table, n: string, p: Params) {
    Bare(Find(t, n)) == Some(Target(p))
  }

  predicate CommentFresh(t: Table, log: seq<Event>, n: string) {
    PxeCompleted(Find(t, n)) ==> Fresh(log, n)
  }

  /** A node of whom the wait for PXE has succeeded: its record stays until it is pinged. */
  predicate Kept(s: State, log: seq<Event>, n: string, p: Params) {
    || (Intact(s.table, n, p) && s.xinetd)
    || (Pinged(log, n) && n !in s.table)
  }

  /** The record before command `k` of a registration, apart from a comment of which the trigger is the source. */
  ghost predicate Halfway(t: Table, log: seq<Event>, p: Params, order: seq<string>, k: nat)
    requires 1 <= k <= |order| + 3
  {
    Bare(Find(t, p.name)) == Stage(p, order, k) && CommentFresh(t, log, p.name)
  }

  ghost predicate NodeInv(s: State, log: seq<Event>, n: string) {
    (Gone(log, n) ==> n !in s.table) && PhaseInv(s, log, n)
  }

  ghost predicate PhaseInv(s: State, log: seq<Event>, n: string) {
    match PhaseOf(s, n)
    case Idle => true
    case Unregistered => true
    case Registering(p, order, k) =>
      && p.name == n && WellFormed(p) && Orders(order, p) && k < |order| + 3 && !Gone(log, n)
      && (k >= 2 ==> Added(log, n))
      && (k >= 1 ==> Begun(log, n) && Halfway(s.table, log, p, order, k))
    case Registered(p) =>
      && p.name == n && Begun(log, n) && Added(log, n)
      && Intact(s.table, n, p) && s.xinetd && CommentFresh(s.table, log, n)
    case PxeSeen(p) => p.name == n && Begun(log, n) && Fresh(log, n) && Kept(s, log, n, p)
    case NodeUp(p) =>
      && p.name == n && Begun(log, n) && Fresh(log, n) && Pinged(log, n) && JustPinged(log, n) && Kept(s, log, n, p)
    case Removed(p) =>
      && p.name == n && Begun(log, n) && Fresh(log, n) && Pinged(log, n) && Gone(log, n) && JustRemoved(log, n)
    case Installed => Begun(log, n) && Fresh(log, n) && Pinged(log, n) && Gone(log, n) && Synced(log, n)
  }

  ghost predicate Inv(s: State, log: seq<Event>) {
    forall n :: NodeInv(s, log, n)
  }

  // ---------- runs ----------

  /** The state after the events; None if they are not a run. */
  ghost function After(s0: State, log: seq<Event>): Option<State> {
    if log == [] then Some(s0)
    else
      var e := log[|log| - 1];
      match After(s0, log[..|log| - 1])
      case None => None
      case Some(s) => if Enabled(s, e) then Some(Next(s, e)) else None
  }

  /** A run, from any table, with no registration begun. */
  ghost predicate IsRun(s0: State, log: seq<Event>) {
    s0.phases == map[] && After(s0, log).Some?
  }

  lemma {:induction false} RunInv(s0: State, log: seq<Event>)
    requires IsRun(s0, log)
    ensures Inv(After(s0, log).value, log)
  {
    if log != [] {
      var front := log[..|log| - 1];
      RunInv(s0, front);
      InvKept(After(s0, front).value, front, log[|log| - 1]);
      assert front + [log[|log| - 1]] == log;
    }
  }

  // ---------- one step keeps the invariant ----------

  /** What a longer log still says of a node whose registration has not begun again. */
  lemma LogGrows(log: seq<Event>, e: Event, n: string)
    ensures Begun(log + [e], n) == if Begins(e, n) then e.Send? && e.rpc == Delivered else Begun(log, n)
    ensures Added(log + [e], n) == (!Begins(e, n) && ((Adds(e, n) && Begun(log, n)) || Added(log, n)))
    ensures Fresh(log + [e], n) == (!Begins(e, n) && ((Fires(e, n) && Added(log, n)) || Fresh(log, n)))
    ensures Pinged(log + [e], n) == (!Begins(e, n) && ((Pings(e, n) && Fresh(log, n)) || Pinged(log, n)))
    ensures Gone(log + [e], n) == (!Begins(e, n) && ((Deregisters(e, n) && Pinged(log, n)) || Gone(log, n)))
    ensures Synced(log + [e], n) == (!Begins(e, n) && ((Syncs(e, n) && Gone(log, n)) || Synced(log, n)))
    ensures JustPinged(log + [e], n) == if OfCallback(e, n) then Pings(e, n) else JustPinged(log, n)
    ensures JustRemoved(log + [e], n) == if OfCallback(e, n) then Deregisters(e, n) else JustRemoved(log, n)
  {
    assert (log + [e])[..|log|] == log;
  }

  /** An event of another node leaves the phase and the record, and does not stop xinetd under a system. */
  lemma OtherStep(s: State, e: Event, n: string)
    requires Enabled(s, e) && NameOf(e) != n
    requires PhaseOf(s, NameOf(e)).Registering? ==> PhaseOf(s, NameOf(e)).p.name == NameOf(e)
    ensures var s1 := Next(s, e);
      PhaseOf(s1, n) == PhaseOf(s, n) && Find(s1.table, n) == Find(s.table, n)
      && (n in s.table && s.xinetd ==> s1.xinetd)
  {
    match e
    case Send(m, _, rpc, answers) =>
      var phase := PhaseOf(s, m);
      var c := CommandAt(phase.p, phase.order, phase.next);
      ExecutedOther(s, c, rpc, answers, n);
    case Remove(m, rpc) => ExecutedOther(s, RemoveSystem(m), rpc, Answers(0, 0, false), n);
    case Sync(m, rpc, answers, _) => ExecutedOther(s, SyncSystems, rpc, answers, n);
    case _ =>
  }

  lemma ExecutedOther(s: State, c: Command, rpc: Rpc, answers: Answers, n: string)
    requires SystemOf(c) != Some(n)
    ensures var s1 := Executed(s, c, rpc, answers).0;
      s1.phases == s.phases && Find(s1.table, n) == Find(s.table, n) && (n in s.table && s.xinetd ==> s1.xinetd)
  {
    OthersKept(s.table, c, n);
  }

  lemma OtherInv(s: State, log: seq<Event>, e: Event, n: string)
    requires Inv(s, log) && Enabled(s, e) && NameOf(e) != n
    ensures NodeInv(Next(s, e), log + [e], n)
  {
    assert NodeInv(s, log, n) && NodeInv(s, log, NameOf(e));
    OtherStep(s, e, n);
    LogGrows(log, e, n);
  }

  lemma InvKept(s: State, log: seq<Event>, e: Event)
    requires Inv(s, log) && Enabled(s, e)
    ensures Inv(Next(s, e), log + [e])
  {
    forall n
      ensures NodeInv(Next(s, e), log + [e], n)
    {
      if n != NameOf(e) {
        OtherInv(s, log, e, n);
      } else {
        OwnInv(s, log, e);
      }
    }
  }

  lemma OwnInv(s: State, log: seq<Event>, e: Event)
    requires Inv(s, log) && Enabled(s, e)
    ensures NodeInv(Next(s, e), log + [e], NameOf(e))
  {
    var n := NameOf(e);
    assert NodeInv(s, log, n);
    LogGrows(log, e, n);
    match e
    case Send(_, _, _, _) => SendInv(s, log, e);
    case Trigger(_, _, _) => TriggerInv(s, log, e);
    case Remove(_, _) => RemoveInv(s, log, e);
    case Sync(_, _, _, _) => SyncInv(s, log, e);
    case _ =>
  }

  lemma RemoveInv(s: State, log: seq<Event>, e: Event)
    requires NodeInv(s, log, NameOf(e)) && e.Remove? && Enabled(s, e)
    ensures NodeInv(Next(s, e), log + [e], NameOf(e))
  {
    LogGrows(log, e, e.name);
  }

  lemma SyncInv(s: State, log: seq<Event>, e: Event)
    requires NodeInv(s, log, NameOf(e)) && e.Sync? && Enabled(s, e)
    ensures NodeInv(Next(s, e), log + [e], NameOf(e))
  {
    LogGrows(log, e, e.name);
  }

  lemma TriggerInv(s: State, log: seq<Event>, e: Event)
    requires NodeInv(s, log, NameOf(e)) && e.Trigger? && Enabled(s, e)
    ensures NodeInv(Next(s, e), log + [e], NameOf(e))
  {
    LogGrows(log, e, e.name);
    TriggerOnlyComments(s.table, e.name, e.name);
  }

  /** The next command of a registration builds the next stage under the comment, and never sets the comment. */
  lemma SendRecord(t: Table, log: seq<Event>, p: Params, order: seq<string>, k: nat)
    requires WellFormed(p) && Orders(order, p) && k < |order| + 3
    requires k >= 1 ==> Halfway(t, log, p, order, k)
    ensures Halfway(Exec(t, CommandAt(p, order, k)).0, log, p, order, k + 1)
  {
    var c := CommandAt(p, order, k);
    OwnCommands(p, order, k);
    NoCommentArgs(p, order, k);
    if !c.SyncSystems? {
      OwnRecord(t, c, p.name);
    }
    if k >= 1 {
      CommentApart(Find(t, p.name), c);
      StageStep(p, order, k);
    }
  }

  lemma AllSent(t: Table, log: seq<Event>, p: Params, order: seq<string>)
    requires WellFormed(p) && Orders(order, p) && Halfway(t, log, p, order, |order| + 3)
    ensures Intact(t, p.name, p) && CommentFresh(t, log, p.name) && t != map[]
  {
    OrderNotEmpty(p, order);
    LastStage(p, order);
    assert p.name in t;
  }

  /** A command that succeeds has changed the table, and has run the sync trigger if it is a sync. */
  lemma SendOutcome(s: State, e: Event)
    requires e.Send? && Enabled(s, e)
    ensures var (phase, s1) := (PhaseOf(s, e.name), Next(s, e));
      var c := CommandAt(phase.p, phase.order, phase.next);
      || PhaseOf(s1, e.name) == Unregistered
      || (&& PhaseOf(s1, e.name) == AfterSend(phase.p, phase.order, phase.next, true)
          && s1.table == Exec(s.table, c).0 && e.rpc == Delivered
          && (c.SyncSystems? && s.table != map[] ==> s1.xinetd))
  {
    Agrees(s.xinetd, s.table != map[], e.answers);
  }

  lemma SendKept(s1: State, log: seq<Event>, e: Event, p: Params, order: seq<string>, k: nat)
    requires e.Send? && e.k == k && k + 1 < |order| + 3 && WellFormed(p) && Orders(order, p) && e.name == p.name
    requires e.rpc == Delivered && (k >= 2 ==> Added(log, p.name)) && !Gone(log, p.name)
    requires PhaseOf(s1, p.name) == Registering(p, order, k + 1)
    requires Halfway(s1.table, log, p, order, k + 1) && (k >= 1 ==> Begun(log, p.name))
    ensures NodeInv(s1, log + [e], p.name)
  {
    LogGrows(log, e, p.name);
    if k == 0 {
      assert Stage(p, order, 1) == None;
      assert Find(s1.table, p.name) == None;
    }
    assert Halfway(s1.table, log + [e], p, order, k + 1);
  }

  lemma LastSendKept(s1: State, log: seq<Event>, e: Event, p: Params, order: seq<string>)
    requires e.Send? && e.k > 1 && WellFormed(p) && Orders(order, p) && e.name == p.name && Begun(log, p.name)
    requires Added(log, p.name) && !Gone(log, p.name)
    requires PhaseOf(s1, p.name) == Registered(p) && s1.xinetd
    requires Intact(s1.table, p.name, p) && CommentFresh(s1.table, log, p.name)
    ensures NodeInv(s1, log + [e], p.name)
  {
    LogGrows(log, e, p.name);
  }

  lemma SendInv(s: State, log: seq<Event>, e: Event)
    requires NodeInv(s, log, NameOf(e)) && e.Send? && Enabled(s, e)
    ensures NodeInv(Next(s, e), log + [e], NameOf(e))
  {
    var phase := PhaseOf(s, e.name);
    SendOutcome(s, e);
    if PhaseOf(Next(s, e), e.name) != Unregistered {
      var (p, order, k) := (phase.p, phase.order, phase.next);
      SendRecord(s.table, log, p, order, k);
      if k + 1 == |order| + 3 {
        AllSent(Next(s, e).table, log, p, order);
        LastSendKept(Next(s, e), log, e, p, order);
      } else {
        SendKept(Next(s, e), log, e, p, order, k);
      }
    } else {
      LogGrows(log, e, e.name);
    }
  }

  // ---------- what holds in every run ----------

  /** The removal of the node's latest registration was delivered at `b`. */
  predicate LatestBegin(log: seq<Event>, n: string, b: nat) {
    b < |log| && Begins(log[b], n) && log[b].Send? && log[b].rpc == Delivered
    && forall i | b < i < |log| :: !Begins(log[i], n)
  }

  /** Its addition was delivered at `a`, and the trigger fired at `j` and found the record. */
  predicate BootedAt(log: seq<Event>, n: string, b: nat, a: nat, j: nat) {
    LatestBegin(log, n, b) && b < a < j < |log| && Adds(log[a], n) && Fires(log[j], n)
  }

  /** And a ping was answered at `k`, after that. */
  predicate AnsweredAt(log: seq<Event>, n: string, b: nat, a: nat, j: nat, k: nat) {
    BootedAt(log, n, b, a, j) && j < k < |log| && Pings(log[k], n)
  }

  /** And after the ping the removal was delivered at `r`, and a sync succeeded at `t`. */
  predicate DeregisteredAt(log: seq<Event>, n: string, b: nat, a: nat, j: nat, k: nat, r: nat, t: nat) {
    AnsweredAt(log, n, b, a, j, k) && k < r < t < |log| && Deregisters(log[r], n) && Syncs(log[t], n)
  }

  lemma {:induction false} Latest(log: seq<Event>, n: string) returns (b: nat)
    requires Begun(log, n)
    ensures LatestBegin(log, n, b)
  {
    if Begins(log[|log| - 1], n) {
      b := |log| - 1;
    } else {
      b := Latest(log[..|log| - 1], n);
    }
  }

  lemma {:induction false} AddedAt(log: seq<Event>, n: string) returns (b: nat, a: nat)
    requires Added(log, n)
    ensures LatestBegin(log, n, b) && b < a < |log| && Adds(log[a], n)
  {
    var last, front := log[|log| - 1], log[..|log| - 1];
    if Adds(last, n) && Begun(front, n) {
      b := Latest(front, n);
      a := |front|;
    } else {
      b, a := AddedAt(front, n);
    }
  }

  lemma {:induction false} FreshAt(log: seq<Event>, n: string) returns (b: nat, a: nat, j: nat)
    requires Fresh(log, n)
    ensures BootedAt(log, n, b, a, j)
  {
    var last, front := log[|log| - 1], log[..|log| - 1];
    if Fires(last, n) && Added(front, n) {
      b, a := AddedAt(front, n);
      j := |front|;
    } else {
      b, a, j := FreshAt(front, n);
    }
  }

  lemma {:induction false} PingedAt(log: seq<Event>, n: string) returns (b: nat, a: nat, j: nat, k: nat)
    requires Pinged(log, n)
    ensures AnsweredAt(log, n, b, a, j, k)
  {
    var last, front := log[|log| - 1], log[..|log| - 1];
    if Pings(last, n) && Fresh(front, n) {
      b, a, j := FreshAt(front, n);
      k := |front|;
    } else {
      b, a, j, k := PingedAt(front, n);
    }
  }

  /** From the removal on, every longer log says that the node is gone. */
  lemma {:induction false} GoneAt(log: seq<Event>, n: string) returns (b: nat, a: nat, j: nat, k: nat, r: nat)
    requires Gone(log, n)
    ensures AnsweredAt(log, n, b, a, j, k) && k < r < |log| && Deregisters(log[r], n)
    ensures forall i | r < i <= |log| :: Gone(log[..i], n)
  {
    var last, front := log[|log| - 1], log[..|log| - 1];
    assert log[..|log|] == log;
    if Deregisters(last, n) && Pinged(front, n) {
      b, a, j, k := PingedAt(front, n);
      r := |front|;
    } else {
      b, a, j, k, r := GoneAt(front, n);
      forall i | r < i <= |front|
        ensures Gone(log[..i], n)
      {
        assert front[..i] == log[..i];
      }
    }
  }

  lemma {:induction false} SyncedAt(log: seq<Event>, n: string)
    returns (b: nat, a: nat, j: nat, k: nat, r: nat, t: nat)
    requires Synced(log, n)
    ensures DeregisteredAt(log, n, b, a, j, k, r, t) && forall i | r < i <= |log| :: Gone(log[..i], n)
  {
    var last, front := log[|log| - 1], log[..|log| - 1];
    assert log[..|log|] == log;
    if Syncs(last, n) && Gone(front, n) {
      b, a, j, k, r := GoneAt(front, n);
      t := |front|;
    } else {
      b, a, j, k, r, t := SyncedAt(front, n);
    }
    forall i | r < i <= |front|
      ensures Gone(log[..i], n)
    {
      assert front[..i] == log[..i];
    }
  }

  /** The node is in the table after the first `i` events. */
  ghost predicate InTable(s0: State, log: seq<Event>, i: nat, n: string) {
    i <= |log| && After(s0, log[..i]).Some? && n in After(s0, log[..i]).value.table
  }

  /** The removal at `b` and the addition at `a` took effect, and the trigger at `j` found the record. */
  ghost predicate TookEffect(s0: State, log: seq<Event>, n: string, b: nat, a: nat, j: nat) {
    b < a < j < |log| && !InTable(s0, log, b + 1, n) && InTable(s0, log, a + 1, n) && InTable(s0, log, j, n)
  }

  /** Every beginning of a run is one, and its next event is enabled. */
  lemma {:induction false} RunPrefix(s0: State, log: seq<Event>, i: nat)
    requires IsRun(s0, log) && i < |log|
    ensures IsRun(s0, log[..i]) && Enabled(After(s0, log[..i]).value, log[i])
    ensures After(s0, log[..i + 1]) == Some(Next(After(s0, log[..i]).value, log[i]))
  {
    var n := |log| - 1;
    if i < n {
      assert log[..n][..i] == log[..i] && log[..n][..i + 1] == log[..i + 1];
      RunPrefix(s0, log[..n], i);
    } else {
      assert log[..n + 1] == log;
    }
  }

  /** A removal or addition that is delivered takes effect. */
  lemma SentTakesEffect(s0: State, log: seq<Event>, n: string, i: nat)
    requires IsRun(s0, log) && i < |log|
    requires log[i].Send? && log[i].name == n && log[i].rpc == Delivered && log[i].k <= 1
    ensures InTable(s0, log, i + 1, n) <==> log[i].k == 1
  {
    RunPrefix(s0, log, i);
    var s := After(s0, log[..i]).value;
    RunInv(s0, log[..i]);
    assert NodeInv(s, log[..i], n);
    SentAlone(s, log[..i], log[i]);
  }

  lemma SentAlone(s: State, log: seq<Event>, e: Event)
    requires e.Send? && e.rpc == Delivered && e.k <= 1 && Enabled(s, e) && NodeInv(s, log, e.name)
    ensures e.name in Next(s, e).table <==> e.k == 1
  {
    var Registering(p, order, k) := PhaseOf(s, e.name);
    if k == 1 {
      assert Stage(p, order, 1) == None;
      assert Find(s.table, p.name) == None;
    }
  }

  lemma BootTakesEffect(s0: State, log: seq<Event>, n: string, b: nat, a: nat, j: nat)
    requires IsRun(s0, log) && BootedAt(log, n, b, a, j)
    ensures TookEffect(s0, log, n, b, a, j)
  {
    SentTakesEffect(s0, log, n, b);
    SentTakesEffect(s0, log, n, a);
    RunPrefix(s0, log, j);
  }

  /** The wait for PXE of the node has succeeded, and its registration has not begun again. */
  predicate PxeDone(phase: Phase) {
    phase.PxeSeen? || phase.NodeUp? || phase.Removed? || phase.Installed?
  }

  /**
   * No stale success: the latest registration of the node removed what an earlier one had left, then added
   * the new record, and after that the trigger fired and found it.
   */
  lemma NoStaleSuccess(s0: State, log: seq<Event>, n: string) returns (b: nat, a: nat, j: nat)
    requires IsRun(s0, log) && PxeDone(PhaseOf(After(s0, log).value, n))
    ensures BootedAt(log, n, b, a, j) && TookEffect(s0, log, n, b, a, j)
  {
    RunInv(s0, log);
    assert NodeInv(After(s0, log).value, log, n);
    b, a, j := FreshAt(log, n);
    BootTakesEffect(s0, log, n, b, a, j);
  }

  lemma GoneIsAbsent(s0: State, log: seq<Event>, n: string, i: nat)
    requires IsRun(s0, log) && i <= |log| && Gone(log[..i], n)
    ensures !InTable(s0, log, i, n)
  {
    if i < |log| {
      RunPrefix(s0, log, i);
    } else {
      assert log[..i] == log;
    }
    RunInv(s0, log[..i]);
    assert NodeInv(After(s0, log[..i]).value, log[..i], n);
  }

  /**
   * An installed node was registered, then booted, then answered a ping, then was removed, then a sync
   * succeeded, in this order; and it has been out of the table ever since its removal.
   */
  lemma InstalledInOrder(s0: State, log: seq<Event>, n: string)
    returns (b: nat, a: nat, j: nat, k: nat, r: nat, t: nat)
    requires IsRun(s0, log) && PhaseOf(After(s0, log).value, n).Installed?
    ensures DeregisteredAt(log, n, b, a, j, k, r, t) && TookEffect(s0, log, n, b, a, j)
    ensures forall i | r < i <= |log| :: !InTable(s0, log, i, n)
    ensures n !in After(s0, log).value.table
  {
    RunInv(s0, log);
    assert NodeInv(After(s0, log).value, log, n);
    b, a, j, k, r, t := SyncedAt(log, n);
    BootTakesEffect(s0, log, n, b, a, j);
    forall i | r < i <= |log|
      ensures !InTable(s0, log, i, n)
    {
      GoneIsAbsent(s0, log, n, i);
    }
  }

  lemma Extend(s0: State, log: seq<Event>, e: Event)
    requires IsRun(s0, log)
    ensures After(s0, log + [e]) ==
      if Enabled(After(s0, log).value, e) then Some(Next(After(s0, log).value, e)) else None
  {
    assert (log + [e])[..|log|] == log;
  }

  /** No event of one node touches the phase or the record of another, or stops xinetd under it. */
  lemma OthersUntouched(s0: State, log: seq<Event>, e: Event, n: string)
    requires IsRun(s0, log) && IsRun(s0, log + [e]) && NameOf(e) != n
    ensures var (s, s1) := (After(s0, log).value, After(s0, log + [e]).value);
      PhaseOf(s1, n) == PhaseOf(s, n) && Find(s1.table, n) == Find(s.table, n)
      && (n in s.table && s.xinetd ==> s1.xinetd)
  {
    Extend(s0, log, e);
    RunInv(s0, log);
    assert NodeInv(After(s0, log).value, log, NameOf(e));
    OtherStep(After(s0, log).value, e, n);
  }

  /**
   * A record leaves the table only by the first command of a new registration, or by the deregistration
   * that follows an answered ping.
   */
  lemma RecordLeaves(s0: State, log: seq<Event>, e: Event, n: string)
    requires IsRun(s0, log) && IsRun(s0, log + [e])
    requires n in After(s0, log).value.table && n !in After(s0, log + [e]).value.table
    ensures e.name == n
    ensures || (e.Send? && e.k == 0)
            || (e.Remove? && exists b, a, j, k :: AnsweredAt(log, n, b, a, j, k))
  {
    var s := After(s0, log).value;
    Extend(s0, log, e);
    RunInv(s0, log);
    assert NodeInv(s, log, n) && NodeInv(s, log, NameOf(e));
    if NameOf(e) != n {
      OtherStep(s, e, n);
    } else if e.Send? {
      var phase := PhaseOf(s, n);
      if phase.next > 0 {
        SendKeeps(s.table, phase.p, phase.order, phase.next);
      }
    } else if e.Remove? {
      var b, a, j, k := PingedAt(log, n);
    }
  }

  lemma {:induction false} JustPingedAt(log: seq<Event>, n: string) returns (k: nat)
    requires JustPinged(log, n)
    ensures k < |log| && Pings(log[k], n) && forall i | k < i < |log| :: !OfCallback(log[i], n)
  {
    if OfCallback(log[|log| - 1], n) {
      k := |log| - 1;
    } else {
      k := JustPingedAt(log[..|log| - 1], n);
    }
  }

  lemma {:induction false} JustRemovedAt(log: seq<Event>, n: string) returns (k: nat)
    requires JustRemoved(log, n)
    ensures k < |log| && Deregisters(log[k], n) && forall i | k < i < |log| :: !OfCallback(log[i], n)
  {
    if OfCallback(log[|log| - 1], n) {
      k := |log| - 1;
    } else {
      k := JustRemovedAt(log[..|log| - 1], n);
    }
  }

  /**
   * Every attempt at the wait for a node is made anew: a removal is sent right after an answered ping, and a
   * sync right after a delivered removal, nothing else of the node's callbacks in between.
   */
  lemma AttemptsStartOver(s0: State, log: seq<Event>, e: Event) returns (k: nat)
    requires IsRun(s0, log) && IsRun(s0, log + [e]) && (e.Remove? || e.Sync?)
    ensures k < |log| && forall i | k < i < |log| :: !OfCallback(log[i], e.name)
    ensures if e.Remove? then Pings(log[k], e.name) else Deregisters(log[k], e.name)
  {
    Extend(s0, log, e);
    RunInv(s0, log);
    assert NodeInv(After(s0, log).value, log, e.name);
    if e.Remove? {
      k := JustPingedAt(log, e.name);
    } else {
      k := JustRemovedAt(log, e.name);
    }
  }

  /** How far a registered node has come: waiting for PXE, waiting for the node, installed. */
  function Progress(phase: Phase): nat {
    match phase
    case Registered(_) => 1
    case PxeSeen(_) => 2
    case NodeUp(_) => 2
    case Removed(_) => 2
    case Installed => 3
    case _ => 0
  }

  /** No failed poll, ping, removal or sync, and no callback given up, sets a registered node back. */
  lemma ProgressKept(s0: State, log: seq<Event>, e: Event, n: string)
    requires IsRun(s0, log) && IsRun(s0, log + [e]) && !(e.Begin? && e.p.name == n)
    ensures Progress(PhaseOf(After(s0, log + [e]).value, n)) >= Progress(PhaseOf(After(s0, log).value, n))
  {
    Extend(s0, log, e);
    RunInv(s0, log);
    assert NodeInv(After(s0, log).value, log, NameOf(e));
    if NameOf(e) != n {
      OtherStep(After(s0, log).value, e, n);
    }
  }

  /** A registration under way always has a next command. */
  lemma NeverStuck(s0: State, log: seq<Event>, n: string, rpc: Rpc, answers: Answers)
    requires IsRun(s0, log) && PhaseOf(After(s0, log).value, n).Registering?
    requires Honest(After(s0, log).value.xinetd, answers)
    ensures IsRun(s0, log + [Send(n, PhaseOf(After(s0, log).value, n).next, rpc, answers)])
  {
    RunInv(s0, log);
    assert NodeInv(After(s0, log).value, log, n);
    Extend(s0, log, Send(n, PhaseOf(After(s0, log).value, n).next, rpc, answers));
  }

  /** A command that fails, or whose reply is lost, ends the registration; one that succeeds does not. */
  lemma FailureEndsRegistration(s0: State, log: seq<Event>, e: Event)
    requires IsRun(s0, log) && IsRun(s0, log + [e]) && e.Send?
    ensures var phase, phase1 := PhaseOf(After(s0, log).value, e.name), PhaseOf(After(s0, log + [e]).value, e.name);
      && (phase1.Registering? ==> phase1.next == e.k + 1 && phase1.p == phase.p && phase1.order == phase.order)
      && (phase1.Registered? ==> e.k == |phase.order| + 2 && phase1.p == phase.p)
      && (phase1.Registering? || phase1.Registered? ==> e.rpc == Delivered)
      && (e.rpc == Delivered && e.k < |phase.order| + 2 ==> phase1.Registering?)
  {
    Extend(s0, log, e);
    var phase := PhaseOf(After(s0, log).value, e.name);
    RunInv(s0, log);
    assert NodeInv(After(s0, log).value, log, e.name);
    if e.k >= 1 && e.rpc == Delivered {
      StageStep(phase.p, phase.order, e.k);
      OwnCommands(phase.p, phase.order, e.k);
      AcceptedApart(After(s0, log).value.table, phase.p, phase.order, e.k);
    }
  }

  /** Cobbler accepts the next command of a registration, whether or not the trigger has fired meanwhile. */
  lemma AcceptedApart(t: Table, p: Params, order: seq<string>, k: nat)
    requires WellFormed(p) && Orders(order, p) && 1 <= k < |order| + 3
    requires Bare(Find(t, p.name)) == Stage(p, order, k)
    ensures CommandAt(p, order, k).SyncSystems? || Exec(t, CommandAt(p, order, k)).1
  {
    var c := CommandAt(p, order, k);
    OwnCommands(p, order, k);
    NoCommentArgs(p, order, k);
    StageStep(p, order, k);
    CommentApart(Find(t, p.name), c);
    if !c.SyncSystems? {
      OwnRecord(t, c, p.name);
    }
  }

  lemma SendKeeps(t: Table, p: Params, order: seq<string>, k: nat)
    requires WellFormed(p) && Orders(order, p) && 0 < k < |order| + 3 && p.name in t
    ensures p.name in Exec(t, CommandAt(p, order, k)).0
  {
  }

  /** While a registered node boots, its record holds all that the registration wrote, and xinetd runs. */
  lemma WaitingNodeIsServed(s0: State, log: seq<Event>, n: string)
    requires IsRun(s0, log)
    ensures var s := After(s0, log).value;
      PhaseOf(s, n).Registered? ==> Intact(s.table, n, PhaseOf(s, n).p) && n in s.table && s.xinetd
    ensures var s := After(s0, log).value;
      PhaseOf(s, n).PxeSeen? && n in s.table ==> Intact(s.table, n, PhaseOf(s, n).p) && s.xinetd
  {
    RunInv(s0, log);
    assert NodeInv(After(s0, log).value, log, n);
  }

  /** The event is a sync: that of a deregistration, or the last command of a registration. */
  ghost predicate IsSync(s: State, e: Event) {
    e.Sync? || (e.Send? && PhaseOf(s, e.name).Registering? && e.k == |PhaseOf(s, e.name).order| + 2)
  }

  /**
   * After a sync that reaches Cobbler and whose service commands succeed, whether or not its reply arrives,
   * xinetd runs exactly if there are systems.
   */
  lemma SyncAgrees(s0: State, log: seq<Event>, e: Event)
    requires IsRun(s0, log) && IsRun(s0, log + [e]) && IsSync(After(s0, log).value, e) && e.rpc != LostBefore
    requires var s := After(s0, log).value; Triggered(s.xinetd, s.table != map[], e.answers).1 == 0
    ensures var s1 := After(s0, log + [e]).value; s1.xinetd <==> s1.table != map[]
  {
    var s := After(s0, log).value;
    Extend(s0, log, e);
    Agrees(s.xinetd, s.table != map[], e.answers);
    if e.Send? {
      assert CommandAt(PhaseOf(s, e.name).p, PhaseOf(s, e.name).order, e.k) == SyncSystems;
    }
  }

  // ---------- runs exist ----------

  /** A delivered command, with a sync trigger that has to start or stop xinetd and does. */
  function GoodSend(n: string, k: nat): Event {
    Send(n, k, Delivered, Answers(1, 0, false))
  }

  lemma GoodSendStep(s: State, p: Params, order: seq<string>, k: nat)
    requires PhaseOf(s, p.name) == Registering(p, order, k) && Orders(order, p) && k < |order| + 3
    requires Exec(s.table, CommandAt(p, order, k)).1
    ensures Enabled(s, GoodSend(p.name, k))
    ensures Next(s, GoodSend(p.name, k)).table == Exec(s.table, CommandAt(p, order, k)).0
    ensures PhaseOf(Next(s, GoodSend(p.name, k)), p.name) == AfterSend(p, order, k, true)
  {
  }

  lemma RegistrationStep(t: Table, p: Params, order: seq<string>, k: nat)
    requires Orders(order, p) && WellFormed(p) && k < |order| + 3
    ensures RunTo(t, Commands(p, order), k).1 && RunTo(t, Commands(p, order), k + 1).1
    ensures RunTo(t, Commands(p, order), k + 1) == Exec(RunTo(t, Commands(p, order), k).0, CommandAt(p, order, k))
  {
    StageReached(t, p, order, k + 1);
    if k > 0 {
      StageReached(t, p, order, k);
    }
  }

  lemma SendOnce(s0: State, log: seq<Event>, t: Table, p: Params, order: seq<string>, k: nat)
    requires Orders(order, p) && WellFormed(p) && k < |order| + 3
    requires IsRun(s0, log) && After(s0, log).value.table == RunTo(t, Commands(p, order), k).0
    requires PhaseOf(After(s0, log).value, p.name) == Registering(p, order, k)
    ensures IsRun(s0, log + [GoodSend(p.name, k)])
    ensures After(s0, log + [GoodSend(p.name, k)]).value.table == RunTo(t, Commands(p, order), k + 1).0
    ensures PhaseOf(After(s0, log + [GoodSend(p.name, k)]).value, p.name) == AfterSend(p, order, k, true)
  {
    RegistrationStep(t, p, order, k);
    GoodSendStep(After(s0, log).value, p, order, k);
    Extend(s0, log, GoodSend(p.name, k));
  }

  /** A registration under way can send the rest of its commands. */
  lemma {:induction false} CanSend(s0: State, log: seq<Event>, t: Table, p: Params, order: seq<string>, k: nat)
    returns (longer: seq<Event>)
    requires Orders(order, p) && WellFormed(p) && k < |order| + 3
    requires IsRun(s0, log) && After(s0, log).value.table == RunTo(t, Commands(p, order), k).0
    requires PhaseOf(After(s0, log).value, p.name) == Registering(p, order, k)
    ensures log <= longer && IsRun(s0, longer)
    ensures After(s0, longer).value.table == Run(t, Commands(p, order)).0
    ensures PhaseOf(After(s0, longer).value, p.name) == Registered(p)
    decreases |order| + 3 - k
  {
    SendOnce(s0, log, t, p, order, k);
    longer := log + [GoodSend(p.name, k)];
    if k + 1 < |order| + 3 {
      longer := CanSend(s0, longer, t, p, order, k + 1);
    }
  }

  lemma CanBegin(s0: State, log: seq<Event>, p: Params, order: seq<string>)
    requires IsRun(s0, log) && Enabled(After(s0, log).value, Begin(p, order))
    ensures IsRun(s0, log + [Begin(p, order)])
    ensures PhaseOf(After(s0, log + [Begin(p, order)]).value, p.name) == Registering(p, order, 0)
    ensures After(s0, log + [Begin(p, order)]).value.table == After(s0, log).value.table
  {
    Extend(s0, log, Begin(p, order));
  }

  /** The trigger, the poll that sees it, and the ping that is answered. */
  lemma CanBoot(s0: State, log: seq<Event>, n: string)
    requires IsRun(s0, log) && PhaseOf(After(s0, log).value, n).Registered?
    ensures var r := After(s0, log + [Trigger("system", n, true)] + [PxePoll(n)] + [Ping(n, true)]);
      r.Some? && PhaseOf(r.value, n).NodeUp? && r.value.table - {n} == After(s0, log).value.table - {n}
  {
    var fire, poll := log + [Trigger("system", n, true)], log + [Trigger("system", n, true)] + [PxePoll(n)];
    WaitingNodeIsServed(s0, log, n);
    TriggerOnlyComments(After(s0, log).value.table, n, n);
    Extend(s0, log, Trigger("system", n, true));
    Extend(s0, fire, PxePoll(n));
    Extend(s0, poll, Ping(n, true));
  }

  /** The removal and the sync that end an installation. */
  lemma CanDeregister(s0: State, log: seq<Event>, n: string, answers: Answers)
    requires IsRun(s0, log) && PhaseOf(After(s0, log).value, n).NodeUp?
    requires answers == Answers(1, 0, false)
    ensures var r := After(s0, log + [Remove(n, Delivered)] + [Sync(n, Delivered, answers, 0)]);
      && r.Some? && PhaseOf(r.value, n).Installed? && r.value.table == After(s0, log).value.table - {n}
      && (r.value.xinetd <==> r.value.table != map[])
  {
    Extend(s0, log, Remove(n, Delivered));
    Extend(s0, log + [Remove(n, Delivered)], Sync(n, Delivered, answers, 0));
    SyncAgrees(s0, log + [Remove(n, Delivered)], Sync(n, Delivered, answers, 0));
  }

  /** A registration that nothing disturbs leaves the other systems as they are. */
  lemma Registers(s0: State, log: seq<Event>, p: Params, order: seq<string>) returns (longer: seq<Event>)
    requires IsRun(s0, log) && Enabled(After(s0, log).value, Begin(p, order))
    ensures log <= longer && IsRun(s0, longer)
    ensures PhaseOf(After(s0, longer).value, p.name).Registered?
    ensures After(s0, longer).value.table == After(s0, log).value.table[p.name := Target(p)]
  {
    var t := After(s0, log).value.table;
    CanBegin(s0, log, p, order);
    longer := CanSend(s0, log + [Begin(p, order)], t, p, order, 0);
    RegistersTarget(t, p, order);
  }

  /** Whatever a node's callbacks were doing, they can be given up, and then its registration can begin. */
  lemma CanStartOver(s0: State, log: seq<Event>, p: Params, order: seq<string>)
    requires IsRun(s0, log) && WellFormed(p) && Orders(order, p)
    ensures IsRun(s0, log + [GiveUp(p.name)])
    ensures After(s0, log + [GiveUp(p.name)]).value.table == After(s0, log).value.table
    ensures Enabled(After(s0, log + [GiveUp(p.name)]).value, Begin(p, order))
  {
    Extend(s0, log, GiveUp(p.name));
  }

  /** From any point of any run, whatever failed before, a node can be registered, booted and installed. */
  lemma CanInstall(s0: State, log: seq<Event>, p: Params, order: seq<string>) returns (longer: seq<Event>)
    requires IsRun(s0, log) && WellFormed(p) && Orders(order, p)
    ensures log <= longer && IsRun(s0, longer)
    ensures PhaseOf(After(s0, longer).value, p.name).Installed?
    ensures After(s0, longer).value.table == After(s0, log).value.table - {p.name}
    ensures After(s0, longer).value.xinetd <==> After(s0, longer).value.table != map[]
  {
    var n, t := p.name, After(s0, log).value.table;
    CanStartOver(s0, log, p, order);
    var l0 := Registers(s0, log + [GiveUp(n)], p, order);
    CanBoot(s0, l0, n);
    var l1 := l0 + [Trigger("system", n, true)] + [PxePoll(n)] + [Ping(n, true)];
    CanDeregister(s0, l1, n, Answers(1, 0, false));
    longer := l1 + [Remove(n, Delivered)] + [Sync(n, Delivered, Answers(1, 0, false), 0)];
    assert t[n := Target(p)] - {n} == t - {n};
  }
}
