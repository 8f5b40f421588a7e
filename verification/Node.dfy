/** One node: the state that heartbeat handlers and the deploy driver share under its mutex. */
module Node {

  datatype State = New | Deploying | RunImage | Done | Failed

  /** The fields guarded by the mutex. */
  datatype Guarded = Guarded(state: State, callbackURL: string, commandID: string, lastHeartbeat: int, driverStarted: bool)

  const FRESH := Guarded(New, "", "", 0, false)

  /** `RecordHeartbeat`: the second component tells the caller to start a driver. */
  function Heartbeat(n: Guarded, callbackURL: string, now: int): (Guarded, bool) {
    var starts := !n.driverStarted && n.state == New;
    (n.(callbackURL := callbackURL, lastHeartbeat := now, driverStarted := n.driverStarted || starts), starts)
  }

  /** `Transition`, the compare-and-swap. */
  function Swap(n: Guarded, from: State, to: State): (Guarded, bool) {
    if n.state == from then (n.(state := to), true) else (n, false)
  }

  /** The moves a node may make; done and failed have none. */
  predicate Edge(from: State, to: State) {
    || (from == New && to == Deploying)
    || (from == Deploying && (to == RunImage || to == Failed))
    || (from == RunImage && (to == Done || to == Failed))
  }

  class Node {
    const uuid: string
    const macs: seq<string>
    const agentToken: string
    const hostname: string
    var state: State
    var callbackURL: string
    var commandID: string
    var lastHeartbeat: int
    var driverStarted: bool

    function Value(): Guarded
      reads this
    {
      Guarded(state, callbackURL, commandID, lastHeartbeat, driverStarted)
    }

    /** `New`; the random identifier and token are parameters. */
    constructor (uuid: string, macs: seq<string>, agentToken: string, hostname: string)
      ensures Value() == FRESH
      ensures state == New && callbackURL == "" && commandID == "" && !driverStarted
      ensures this.uuid == uuid && this.macs == macs && this.agentToken == agentToken && this.hostname == hostname
    {
      this.uuid, this.macs, this.agentToken, this.hostname := uuid, macs, agentToken, hostname;
      state, callbackURL, commandID, lastHeartbeat, driverStarted := New, "", "", 0, false;
    }

    method RecordHeartbeat(callbackURL: string, now: int) returns (startDriver: bool)
      modifies this
      ensures (Value(), startDriver) == Heartbeat(old(Value()), callbackURL, now)
      ensures this.callbackURL == callbackURL && lastHeartbeat == now
      ensures startDriver <==> old(state == New && !driverStarted)
      ensures driverStarted <==> old(driverStarted) || startDriver
      ensures state == old(state) && commandID == old(commandID)
    {
      this.callbackURL := callbackURL;
      lastHeartbeat := now;
      if !driverStarted && state == New {
        driverStarted := true;
        return true;
      }
      return false;
    }

    method SetCommandID(id: string)
      modifies this
      ensures Value() == old(Value()).(commandID := id)
    {
      commandID := id;
    }

    method Transition(from: State, to: State) returns (ok: bool)
      modifies this
      ensures (Value(), ok) == Swap(old(Value()), from, to)
      ensures ok <==> old(state) == from
      ensures Value() == old(Value()).(state := if ok then to else old(state))
    {
      if state != from {
        return false;
      }
      state := to;
      return true;
    }

    method ForceState(s: State)
      modifies this
      ensures Value() == old(Value()).(state := s)
    {
      state := s;
    }
  }
}
