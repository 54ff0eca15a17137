/** `sync_pre_trigger.run`: each sync starts or stops xinetd by whether there are systems. */
module SyncTrigger {

  /**
   * How the service commands of one sync answer: the return code of the status query and of the start or
   * stop, and whether a start or stop that fails takes effect all the same.
   */
  datatype Answers = Answers(status: int, action: int, partly: bool)

  datatype ServiceCommand = Status | Start | Stop

  /** The status query answers 0 only for a service that runs. */
  predicate Honest(running: bool, a: Answers) {
    a.status == 0 ==> running
  }

  /** Whether xinetd runs after the trigger, and the trigger's result. */
  function Triggered(running: bool, systems: bool, a: Answers): (bool, int) {
    if systems then
      if a.status == 0 then (running, 0) else (running || a.action == 0 || a.partly, a.action)
    else (running && a.action != 0 && !a.partly, a.action)
  }

  class Xinetd {
    var running: bool
    var commands: seq<ServiceCommand>

    constructor (running: bool)
      ensures this.running == running && commands == []
    {
      this.running, commands := running, [];
    }

    method Call(c: ServiceCommand, rc: int, partly: bool) returns (r: int)
      modifies this
      ensures r == rc && commands == old(commands) + [c]
      ensures c == Status ==> running == old(running)
      ensures c == Start ==> running == (old(running) || rc == 0 || partly)
      ensures c == Stop ==> running == (old(running) && rc != 0 && !partly)
    {
      commands := commands + [c];
      if rc == 0 || partly {
        running := if c == Start then true else if c == Stop then false else running;
      }
      return rc;
    }

    /** `run` */
    method Run(systems: set<string>, a: Answers) returns (result: int)
      modifies this
      ensures (running, result) == Triggered(old(running), systems != {}, a)
      ensures commands == old(commands)
        + (if systems == {} then [Stop] else if a.status == 0 then [Status] else [Status, Start])
    {
      result := 0;
      if systems != {} {
        var status := Call(Status, a.status, false);
        if status != 0 {
          result := Call(Start, a.action, a.partly);
        }
      } else {
        result := Call(Stop, a.action, a.partly);
      }
    }
  }

  /** The trigger fails if and only if the start or stop that it needs fails; none is needed while xinetd runs. */
  lemma FailsExactly(running: bool, systems: bool, a: Answers)
    ensures Triggered(running, systems, a).1 != 0 <==> a.action != 0 && !(systems && a.status == 0)
  {
  }

  /** xinetd changes only by a start for systems or a stop without any that took effect. */
  lemma ChangesExactly(running: bool, systems: bool, a: Answers)
    requires Honest(running, a)
    ensures !running && Triggered(running, systems, a).0 <==> !running && systems && (a.action == 0 || a.partly)
    ensures running && !Triggered(running, systems, a).0 <==> running && !systems && (a.action == 0 || a.partly)
  {
  }

  /** A sync whose service commands succeed leaves xinetd running exactly when there are systems. */
  lemma Agrees(running: bool, systems: bool, a: Answers)
    requires Honest(running, a)
    ensures Triggered(running, systems, a).1 == 0 ==> Triggered(running, systems, a).0 == systems
    ensures systems && running ==> Triggered(running, systems, a).0
  {
  }
}
