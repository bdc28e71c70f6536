// The server's steps taken apart: what happens under the state lock, and the sending to the input
// thread that follows once the lock is released. The receive loop, the housekeeping and the owner's
// commands may take turns in between.
module Races {
  import opened Wrappers
  import opened Messages
  import opened Protocol
  import opened Replay
  import opened Delivery
  import opened Holds
  import opened Sessions
  import opened Pairings
  import opened InputBackend
  import opened Server
  import opened ServerRuns

  // ── Lock sections ────────────────────────────────────────────────────

  // The message of an authentic packet that decodes.
  function HeardMessage(s: ServerState, address: Address, nonce: Nonce, ciphertext: Ciphertext): seq<ClientMessage> {
    if address !in s.sessions then []
    else
      match Received(s.sessions[address].receiveKey, s.sessions[address].accepted, nonce, ciphertext)
      case Plaintext(bytes) => (match Decoded(bytes) case Ok(message) => [message] case Err(_) => [])
      case _ => []
  }

  ghost predicate Hands(out: seq<ClientMessage>, releases: set<ClientMessage>) {
    Elements(out) == releases && forall m <- out :: IsRelease(m)
  }

  // What an event does under the lock, and the messages it then has to send.
  ghost predicate Locked(s: ServerState, event: ServerEvent, s': ServerState, out: seq<ClientMessage>) {
    && s'.config == s.config && s'.backend == s.backend
    && match event
       case Handshake(address, client, token, receiveKey, now) =>
         && s'.pairing == Admitted(s.pairing, client, token, now)
         && (if Decision(s.pairing, client, token, now) == Rejected
             then s'.sessions == s.sessions && out == []
             else exists dropped: set<Address> ::
                    && Inserted(s.sessions, s.config.maxSessions, address,
                                SessionState(client, now, NOTHING, receiveKey, {}), s'.sessions, dropped)
                    && Hands(out, ReleasesAt(s.sessions, dropped)))
       case Packet(address, nonce, ciphertext, now) =>
         && s'.pairing == s.pairing
         && s'.sessions == AfterPacket(s, address, nonce, ciphertext, now).sessions
         && out == HeardMessage(s, address, nonce, ciphertext)
       case Maintenance(now) =>
         var idle := Silent(s.sessions, now, s.config.sessionIdleTimeout);
         var live := s.sessions - idle;
         var quiet := Silent(live, now, s.config.heldInputTimeout);
         && s'.pairing == s.pairing
         && s'.sessions == LetGo(live, quiet)
         && Hands(out, ReleasesAt(s.sessions, idle) + ReleasesAt(live, quiet))
       case ForgetAll(saved) =>
         && s'.pairing == s.pairing.(trusted := {}, invitation := None)
         && (if !saved then s'.sessions == s.sessions && out == []
             else s'.sessions == map[] && Hands(out, ReleasesAt(s.sessions, s.sessions.Keys)))
       case Shutdown =>
         && s'.pairing == s.pairing
         && s'.sessions == LetGo(s.sessions, s.sessions.Keys)
         && Hands(out, ReleasesAt(s.sessions, s.sessions.Keys))
       case _ => Step(s, event, s') && out == []
  }

  // A step of the server is its lock section with the sending done at once.
  lemma StepIsLockThenSend(s: ServerState, event: ServerEvent, t: ServerState)
    ensures Step(s, event, t) <==>
            exists s', out :: Locked(s, event, s', out) && t == s'.(backend := AllApplied(s.backend, out))
  {
    hide Step, Locked, AllApplied;
    if Step(s, event, t) {
      var s', out := TakenApart(s, event, t);
    }
    if s', out :| Locked(s, event, s', out) && t == s'.(backend := AllApplied(s.backend, out)) {
      PutTogether(s, event, s', out);
    }
  }

  lemma HandedLift(backend: Backend, out: seq<ClientMessage>, releases: set<ClientMessage>)
    requires Hands(out, releases)
    ensures AllApplied(backend, out) == Lifted(backend, releases)
  {
    ReleasesLift(backend, out);
  }

  lemma PutTogether(s: ServerState, event: ServerEvent, s': ServerState, out: seq<ClientMessage>)
    requires Locked(s, event, s', out)
    ensures Step(s, event, s'.(backend := AllApplied(s.backend, out)))
  {
    hide Lifted, ReleasesAt, Hands, Inserted, Decision, Admitted, Received, Decoded, Applied, Observed, Silent, LetGo;
    match event
    case Handshake(address, client, token, receiveKey, now) =>
      if Decision(s.pairing, client, token, now) != Rejected {
        var dropped: set<Address> :|
          && Inserted(s.sessions, s.config.maxSessions, address,
                      SessionState(client, now, NOTHING, receiveKey, {}), s'.sessions, dropped)
          && Hands(out, ReleasesAt(s.sessions, dropped));
        HandedLift(s.backend, out, ReleasesAt(s.sessions, dropped));
      }
    case Packet(address, nonce, ciphertext, now) => PacketMessage(s, address, nonce, ciphertext, now);
    case Maintenance(now) =>
      var idle := Silent(s.sessions, now, s.config.sessionIdleTimeout);
      var live := s.sessions - idle;
      var quiet := Silent(live, now, s.config.heldInputTimeout);
      HandedLift(s.backend, out, ReleasesAt(s.sessions, idle) + ReleasesAt(live, quiet));
    case ForgetAll(saved) =>
      if saved {
        HandedLift(s.backend, out, ReleasesAt(s.sessions, s.sessions.Keys));
      }
    case Shutdown => HandedLift(s.backend, out, ReleasesAt(s.sessions, s.sessions.Keys));
    case _ =>
  }

  lemma PacketMessage(s: ServerState, address: Address, nonce: Nonce, ciphertext: Ciphertext, now: Time)
    ensures AllApplied(s.backend, HeardMessage(s, address, nonce, ciphertext))
            == AfterPacket(s, address, nonce, ciphertext, now).backend
    ensures AfterPacket(s, address, nonce, ciphertext, now).pairing == s.pairing
    ensures AfterPacket(s, address, nonce, ciphertext, now).config == s.config
  {
    hide Received, Decoded, Applied, Observed;
    var out := HeardMessage(s, address, nonce, ciphertext);
    if out != [] {
      assert out[..0] == [];
    }
  }

  // Any order of the releases will do.
  lemma {:induction false} SomeOrder(releases: set<ClientMessage>) returns (out: seq<ClientMessage>)
    requires forall m <- releases :: IsRelease(m)
    ensures Hands(out, releases)
  {
    if releases == {} {
      out := [];
    } else {
      var m :| m in releases;
      out := SomeOrder(releases - {m});
      assert forall x :: x in out <==> x in releases - {m} by {
        assert forall x :: x in Elements(out) <==> x in releases - {m};
      }
      out := out + [m];
      assert Elements(out) == releases;
    }
  }

  lemma ReleasesAreReleases(table: Table, addresses: set<Address>)
    ensures forall m <- ReleasesAt(table, addresses) :: IsRelease(m)
  {
  }

  lemma TakenApart(s: ServerState, event: ServerEvent, t: ServerState)
    returns (s': ServerState, out: seq<ClientMessage>)
    requires Step(s, event, t)
    ensures Locked(s, event, s', out) && t == s'.(backend := AllApplied(s.backend, out))
  {
    hide Lifted, ReleasesAt, Hands, Inserted, Decision, Admitted, Received, Decoded, Applied, Observed, Silent, LetGo,
         IsRelease;
    s', out := t.(backend := s.backend), [];
    match event
    case Handshake(address, client, token, receiveKey, now) =>
      if Decision(s.pairing, client, token, now) != Rejected {
        var dropped: set<Address> :|
          && Inserted(s.sessions, s.config.maxSessions, address,
                      SessionState(client, now, NOTHING, receiveKey, {}), t.sessions, dropped)
          && t.backend == Lifted(s.backend, ReleasesAt(s.sessions, dropped));
        ReleasesAreReleases(s.sessions, dropped);
        out := SomeOrder(ReleasesAt(s.sessions, dropped));
        HandedLift(s.backend, out, ReleasesAt(s.sessions, dropped));
      }
    case Packet(address, nonce, ciphertext, now) =>
      out := HeardMessage(s, address, nonce, ciphertext);
      PacketMessage(s, address, nonce, ciphertext, now);
    case Maintenance(now) =>
      var idle := Silent(s.sessions, now, s.config.sessionIdleTimeout);
      var live := s.sessions - idle;
      var quiet := Silent(live, now, s.config.heldInputTimeout);
      ReleasesAreReleases(s.sessions, idle);
      ReleasesAreReleases(live, quiet);
      out := SomeOrder(ReleasesAt(s.sessions, idle) + ReleasesAt(live, quiet));
      HandedLift(s.backend, out, ReleasesAt(s.sessions, idle) + ReleasesAt(live, quiet));
    case ForgetAll(saved) =>
      if saved {
        ReleasesAreReleases(s.sessions, s.sessions.Keys);
        out := SomeOrder(ReleasesAt(s.sessions, s.sessions.Keys));
        HandedLift(s.backend, out, ReleasesAt(s.sessions, s.sessions.Keys));
      }
    case Shutdown =>
      ReleasesAreReleases(s.sessions, s.sessions.Keys);
      out := SomeOrder(ReleasesAt(s.sessions, s.sessions.Keys));
      HandedLift(s.backend, out, ReleasesAt(s.sessions, s.sessions.Keys));
    case _ =>
  }

  // ── Tasks taking turns ───────────────────────────────────────────────

  datatype Task = Receive | Housekeeping | Console(n: nat)

  // The receive loop runs until it shuts down; once it has sent what was held it halts the input
  // thread, which drops whatever is sent later.
  datatype Stage = Serving | Stopping | Halted

  // `outbox` is what each task still has to send.
  datatype RaceState = RaceState(server: ServerState, outbox: map<Task, seq<ClientMessage>>, stage: Stage)

  datatype RaceEvent = Locks(task: Task, event: ServerEvent) | Sends(task: Task) | Halts

  function Outbox(r: RaceState, task: Task): seq<ClientMessage> {
    if task in r.outbox then r.outbox[task] else []
  }

  predicate RunsOn(event: ServerEvent, task: Task) {
    match event
    case Handshake(_, _, _, _, _) => task == Receive
    case Packet(_, _, _, _) => task == Receive
    case Shutdown => task == Receive
    case Maintenance(_) => task == Housekeeping
    case _ => task.Console?
  }

  function Sent(r: RaceState, task: Task): RaceState
    requires Outbox(r, task) != []
  {
    var backend := r.server.backend;
    r.(server := r.server.(backend := if r.stage == Halted then backend else Applied(backend, Outbox(r, task)[0])),
       outbox := r.outbox[task := Outbox(r, task)[1..]])
  }

  ghost predicate RaceStep(r: RaceState, event: RaceEvent, r': RaceState) {
    match event
    case Locks(task, what) =>
      && RunsOn(what, task) && Outbox(r, task) == [] && (task == Receive ==> r.stage == Serving)
      && r'.stage == (if what.Shutdown? then Stopping else r.stage)
      && task in r'.outbox && r'.outbox == r.outbox[task := r'.outbox[task]]
      && Locked(r.server, what, r'.server, r'.outbox[task])
    case Sends(task) => Outbox(r, task) != [] && r' == Sent(r, task)
    case Halts => r.stage == Stopping && Outbox(r, Receive) == [] && r' == r.(stage := Halted)
  }

  ghost predicate RaceRun(states: seq<RaceState>, events: seq<RaceEvent>) {
    && |states| == |events| + 1
    && Initial(states[0].server) && states[0].outbox == map[] && states[0].stage == Serving
    && forall i :: 0 <= i < |events| ==> RaceStep(states[i], events[i], states[i + 1])
  }

  // ── What still holds ─────────────────────────────────────────────────

  datatype Input = Key(usage: U16) | Button(button: MouseButtonKind)

  predicate IsDown(backend: Backend, input: Input) {
    match input case Key(k) => k in backend.keys case Button(b) => b in backend.buttons
  }

  predicate IsHeld(table: Table, input: Input) {
    match input case Key(k) => KeyHeld(table, k) case Button(b) => ButtonHeld(table, b)
  }

  predicate LetsGoOf(message: ClientMessage, input: Input) {
    match input
    case Key(k) => message.KeyRelease? && message.keycode == k
    case Button(b) => message == MouseButton(b, false)
  }

  predicate PutsDown(message: ClientMessage, input: Input) {
    match input
    case Key(k) => message.KeyPress? && message.keycode == k
    case Button(b) => message == MouseButton(b, true)
  }

  // Some task has a release of `input` still to send, and it will have an effect.
  predicate Promised(r: RaceState, input: Input) {
    r.stage != Halted && exists t <- r.outbox :: Releases(r.outbox[t], input)
  }

  predicate Releases(messages: seq<ClientMessage>, input: Input) {
    exists m <- messages :: LetsGoOf(m, input)
  }

  predicate Cared(r: RaceState, input: Input) {
    IsHeld(r.server.sessions, input) || Promised(r, input)
  }

  // `input` is down, no live session holds it and no release of it is on its way.
  predicate Lost(r: RaceState, input: Input) {
    IsDown(r.server.backend, input) && !Cared(r, input)
  }

  // Whatever is down is held by a live session or about to be released.
  ghost predicate Guarded(r: RaceState) {
    forall input :: !Lost(r, input)
  }

  // The next message of `task` puts down something that nobody holds any more.
  predicate Strays(r: RaceState, task: Task, input: Input) {
    r.stage != Halted && Outbox(r, task) != [] && PutsDown(Outbox(r, task)[0], input) && !Cared(r, input)
  }

  // A release of something that is down is still to be sent.
  predicate Owed(r: RaceState, input: Input) {
    IsDown(r.server.backend, input) && Promised(r, input)
  }

  // What a send changes.
  lemma SendEffect(r: RaceState, task: Task, input: Input)
    requires Outbox(r, task) != [] && r.stage != Halted
    ensures var m := Outbox(r, task)[0];
            && (PutsDown(m, input) ==> IsDown(Sent(r, task).server.backend, input))
            && (IsDown(Sent(r, task).server.backend, input) ==>
                  PutsDown(m, input) || (IsDown(r.server.backend, input) && !LetsGoOf(m, input)))
            && (Cared(Sent(r, task), input) ==> Cared(r, input))
            && (Cared(r, input) ==> Cared(Sent(r, task), input) || LetsGoOf(m, input))
  {
    var m, backend := Outbox(r, task)[0], r.server.backend;
    OnlyPressesPress(backend, m);
    ReleasesRelease(backend, m);
    PressesPress(backend, m);
    PromisedAfterSend(r, task, input);
    hide Applied, Promised;
  }

  lemma PressesPress(backend: Backend, message: ClientMessage)
    ensures message.KeyPress? ==> message.keycode in Applied(backend, message).keys
    ensures message.MouseButton? && message.pressed ==> message.button in Applied(backend, message).buttons
  {
  }

  lemma PromisedAfterSend(r: RaceState, task: Task, input: Input)
    requires Outbox(r, task) != []
    ensures Promised(Sent(r, task), input) ==> Promised(r, input)
    ensures Promised(r, input) ==> Promised(Sent(r, task), input) || LetsGoOf(Outbox(r, task)[0], input)
  {
    hide Applied, LetsGoOf;
    var box := Outbox(r, task);
    var r' := Sent(r, task);
    assert box == [box[0]] + box[1..];
    if Promised(r', input) {
      var t :| t in r'.outbox && Releases(r'.outbox[t], input);
      assert t in r.outbox && Releases(r.outbox[t], input);
    }
    if Promised(r, input) && !LetsGoOf(box[0], input) {
      var t :| t in r.outbox && Releases(r.outbox[t], input);
      assert t in r'.outbox && Releases(r'.outbox[t], input);
    }
  }

  // A lock section lets go of something only by handing over its release.
  lemma HandsOver(table: Table, addresses: set<Address>, table': Table, out: seq<ClientMessage>, input: Input)
    requires KeepsOthers(table, addresses, table') && ReleasesAt(table, addresses) <= Elements(out)
    requires IsHeld(table, input)
    ensures IsHeld(table', input) || Releases(out, input)
  {
    match input
    case Key(k) =>
      var a :| a in table && k in table[a].held.keys;
      var release := KeyRelease(k, table[a].held.keys[k]);
      if a in addresses {
        assert release in ReleasesOf(table[a].held);
        assert release in ReleasesAt(table, addresses);
        assert release in out && LetsGoOf(release, input);
      } else {
        assert a in table' && k in table'[a].held.keys;
      }
    case Button(b) =>
      var a :| a in table && b in table[a].held.buttons;
      var release := MouseButton(b, false);
      if a in addresses {
        assert release in ReleasesOf(table[a].held);
        assert release in ReleasesAt(table, addresses);
        assert release in out && LetsGoOf(release, input);
      } else {
        assert a in table' && b in table'[a].held.buttons;
      }
  }

  lemma HeardHandsOver(table: Table, address: Address, session: SessionState, message: ClientMessage, input: Input)
    requires address in table && session.held == Observed(table[address].held, message)
    ensures IsHeld(table, input) ==> IsHeld(table[address := session], input) || LetsGoOf(message, input)
    ensures PutsDown(message, input) ==> IsHeld(table[address := session], input)
  {
    var table' := table[address := session];
    match input
    case Key(k) =>
      if KeyHeld(table, k) && !LetsGoOf(message, input) {
        var a :| a in table && k in table[a].held.keys;
        assert a in table' && k in table'[a].held.keys;
      }
      if PutsDown(message, input) {
        assert address in table' && k in table'[address].held.keys;
      }
    case Button(b) =>
      if ButtonHeld(table, b) && !LetsGoOf(message, input) {
        var a :| a in table && b in table[a].held.buttons;
        assert a in table' && b in table'[a].held.buttons;
      }
      if PutsDown(message, input) {
        assert address in table' && b in table'[address].held.buttons;
      }
  }

  lemma PacketHandsOver(s: ServerState, address: Address, nonce: Nonce, ciphertext: Ciphertext, now: Time, input: Input)
    ensures var s', out := AfterPacket(s, address, nonce, ciphertext, now), HeardMessage(s, address, nonce, ciphertext);
            && (IsHeld(s.sessions, input) ==> IsHeld(s'.sessions, input) || Releases(out, input))
            && |out| <= 1
            && (out != [] && PutsDown(out[0], input) ==> IsHeld(s'.sessions, input))
  {
    var s', out := AfterPacket(s, address, nonce, ciphertext, now), HeardMessage(s, address, nonce, ciphertext);
    hide Received, Decoded, Applied, Observed, IsHeld, LetsGoOf, PutsDown;
    if address in s.sessions {
      if out != [] {
        HeardHandsOver(s.sessions, address, s'.sessions[address], out[0], input);
        assert LetsGoOf(out[0], input) ==> Releases(out, input);
      } else if s'.sessions != s.sessions {
        HeardStaysHeld(s.sessions, address, s'.sessions[address], input);
      }
    }
  }

  lemma HeardStaysHeld(table: Table, address: Address, session: SessionState, input: Input)
    requires address in table && session.held == table[address].held
    ensures IsHeld(table, input) ==> IsHeld(table[address := session], input)
  {
    var noop := LockScreen;
    HeardHandsOver(table, address, session, noop, input);
  }

  lemma MaintenanceHandsOver(table: Table, idle: set<Address>, quiet: set<Address>, out: seq<ClientMessage>,
                             input: Input)
    requires Hands(out, ReleasesAt(table, idle) + ReleasesAt(table - idle, quiet))
    requires IsHeld(table, input)
    ensures IsHeld(LetGo(table - idle, quiet), input) || Releases(out, input)
  {
    HandsOver(table, idle, table - idle, out, input);
    if IsHeld(table - idle, input) {
      HandsOver(table - idle, quiet, LetGo(table - idle, quiet), out, input);
    }
  }

  lemma LockHandsOver(s: ServerState, event: ServerEvent, s': ServerState, out: seq<ClientMessage>, input: Input)
    requires Locked(s, event, s', out) && IsHeld(s.sessions, input)
    ensures IsHeld(s'.sessions, input) || Releases(out, input)
  {
    hide Decision, Admitted, Inserted, ReleasesAt, Elements, IsHeld, Releases, Silent, IsRelease, AfterPacket,
         HeardMessage, LetGo;
    match event
    case Handshake(address, client, token, receiveKey, now) =>
      if Decision(s.pairing, client, token, now) != Rejected {
        var session := SessionState(client, now, NOTHING, receiveKey, {});
        var dropped: set<Address> :|
          && Inserted(s.sessions, s.config.maxSessions, address, session, s'.sessions, dropped)
          && Hands(out, ReleasesAt(s.sessions, dropped));
        InsertedKeepsOthers(s.sessions, s.config.maxSessions, address, session, s'.sessions, dropped);
        HandsOver(s.sessions, dropped, s'.sessions, out, input);
      }
    case Packet(address, nonce, ciphertext, now) => PacketHandsOver(s, address, nonce, ciphertext, now, input);
    case Maintenance(now) =>
      var idle := Silent(s.sessions, now, s.config.sessionIdleTimeout);
      MaintenanceHandsOver(s.sessions, idle, Silent(s.sessions - idle, now, s.config.heldInputTimeout), out, input);
    case ForgetAll(saved) =>
      if saved {
        HandsOver(s.sessions, s.sessions.Keys, map[], out, input);
      }
    case Shutdown => HandsOver(s.sessions, s.sessions.Keys, s'.sessions, out, input);
    case _ =>
  }

  // `a` holds `input`.
  predicate HeldAt(table: Table, a: Address, input: Input) {
    && a in table
    && match input case Key(k) => k in table[a].held.keys case Button(b) => b in table[a].held.buttons
  }

  lemma HeldSomewhere(table: Table, input: Input)
    ensures IsHeld(table, input) <==> exists a :: HeldAt(table, a, input)
  {
    match input
    case Key(k) =>
      if KeyHeld(table, k) {
        var a :| a in table && k in table[a].held.keys;
        assert HeldAt(table, a, input);
      }
    case Button(b) =>
      if ButtonHeld(table, b) {
        var a :| a in table && b in table[a].held.buttons;
        assert HeldAt(table, a, input);
      }
  }

  // From the shutdown on nobody holds anything.
  ghost predicate Ending(r: RaceState) {
    r.stage != Serving ==> forall input :: !IsHeld(r.server.sessions, input)
  }

  lemma OnlyReceiveHolds(s: ServerState, task: Task, event: ServerEvent, s': ServerState, out: seq<ClientMessage>,
                         input: Input)
    requires Locked(s, event, s', out) && RunsOn(event, task)
    requires (task != Receive && !IsHeld(s.sessions, input)) || event.Shutdown?
    ensures !IsHeld(s'.sessions, input)
  {
    hide ReleasesAt, Elements, IsRelease, IsHeld;
    HeldSomewhere(s.sessions, input);
    HeldSomewhere(s'.sessions, input);
    forall a ensures !HeldAt(s'.sessions, a, input) {
      assert !event.Shutdown? ==> !HeldAt(s.sessions, a, input);
    }
  }

  lemma StepKeepsEnding(r: RaceState, event: RaceEvent, r': RaceState)
    requires RaceStep(r, event, r') && Ending(r)
    ensures Ending(r')
  {
    hide IsHeld, Locked, Applied;
    if event.Locks? && r'.stage != Serving {
      forall input ensures !IsHeld(r'.server.sessions, input) {
        OnlyReceiveHolds(r.server, event.task, event.event, r'.server, r'.outbox[event.task], input);
      }
    }
  }

  lemma LockKeepsCared(r: RaceState, task: Task, event: ServerEvent, r': RaceState, input: Input)
    requires RaceStep(r, Locks(task, event), r') && Ending(r) && Cared(r, input)
    ensures Cared(r', input)
  {
    hide Locked, IsHeld, LetsGoOf;
    if IsHeld(r.server.sessions, input) {
      LockHandsOver(r.server, event, r'.server, r'.outbox[task], input);
      assert Releases(r'.outbox[task], input) ==> Promised(r', input);
    } else {
      var t :| t in r.outbox && Releases(r.outbox[t], input);
      assert t in r'.outbox && Releases(r'.outbox[t], input);
    }
  }

  lemma LockKeepsFound(r: RaceState, task: Task, event: ServerEvent, r': RaceState, input: Input)
    requires RaceStep(r, Locks(task, event), r') && Ending(r) && Lost(r', input)
    ensures Lost(r, input)
  {
    hide Cared;
    if Cared(r, input) {
      LockKeepsCared(r, task, event, r', input);
    }
  }

  // A press is sent that nobody holds any more, or the input thread halts while a release is still to
  // be sent.
  predicate Loses(r: RaceState, event: RaceEvent, input: Input) {
    match event
    case Locks(_, _) => false
    case Sends(task) => Strays(r, task, input)
    case Halts => Owed(r, input)
  }

  // Only so does something come to be lost.
  lemma BecomesLost(r: RaceState, event: RaceEvent, r': RaceState, input: Input)
    requires RaceStep(r, event, r') && Ending(r) && !Lost(r, input)
    ensures Lost(r', input) <==> Loses(r, event, input)
  {
    match event
    case Locks(task, what) =>
      hide Locked, Lost;
      if Lost(r', input) {
        LockKeepsFound(r, task, what, r', input);
      }
    case Sends(task) =>
      hide IsDown, IsHeld, PutsDown, LetsGoOf, Applied;
      if r.stage != Halted {
        SendEffect(r, task, input);
        PressOrRelease(Outbox(r, task)[0], input);
      }
    case Halts =>
      hide IsDown, IsHeld;
  }

  // Taking turns keeps everything guarded if and only if the step is not the sending of a press whose
  // holder has been let go in the meantime, nor the halt of the input thread while another task still
  // owes the release of something that is down.
  lemma TurnsKeepGuarded(r: RaceState, event: RaceEvent, r': RaceState)
    requires RaceStep(r, event, r') && Ending(r) && Guarded(r)
    ensures Guarded(r') <==> forall input :: !Loses(r, event, input)
  {
    hide RaceStep, Lost, Loses, Ending;
    forall input ensures Lost(r', input) <==> Loses(r, event, input) {
      assert !Lost(r, input);
      BecomesLost(r, event, r', input);
    }
  }

  lemma PressOrRelease(message: ClientMessage, input: Input)
    ensures !(PutsDown(message, input) && LetsGoOf(message, input))
    ensures IsRelease(message) ==> !PutsDown(message, input)
  {
  }

  // ── Undisturbed runs ─────────────────────────────────────────────────

  // The receive loop is about to send a press.
  predicate InFlight(r: RaceState, input: Input) {
    Outbox(r, Receive) != [] && PutsDown(Outbox(r, Receive)[0], input)
  }

  // Only the receive loop sends anything but releases, and that one message first.
  ghost predicate Tidy(r: RaceState) {
    forall t, i :: t in r.outbox && 0 <= i < |r.outbox[t]| && (i > 0 || t != Receive) ==> IsRelease(r.outbox[t][i])
  }

  ghost predicate Settled(r: RaceState) {
    && Guarded(r) && Tidy(r) && Ending(r)
    && forall input :: InFlight(r, input) ==> IsHeld(r.server.sessions, input)
  }

  // The step lets go of what the receive loop is about to press, or halts the input thread while
  // another task owes a release.
  ghost predicate Disturbs(r: RaceState, event: RaceEvent, r': RaceState) {
    match event
    case Locks(task, _) => task != Receive && exists input :: InFlight(r, input) && !IsHeld(r'.server.sessions, input)
    case Sends(_) => false
    case Halts => exists input :: Owed(r, input)
  }

  ghost predicate Undisturbed(states: seq<RaceState>, events: seq<RaceEvent>) {
    RaceRun(states, events) && forall i :: 0 <= i < |events| ==> !Disturbs(states[i], events[i], states[i + 1])
  }

  lemma LockedOut(s: ServerState, task: Task, event: ServerEvent, s': ServerState, out: seq<ClientMessage>)
    requires Locked(s, event, s', out) && RunsOn(event, task)
    ensures forall i :: 0 <= i < |out| && (i > 0 || task != Receive) ==> IsRelease(out[i])
    ensures forall input :: out != [] && PutsDown(out[0], input) ==> IsHeld(s'.sessions, input)
  {
    hide Decision, Admitted, Inserted, ReleasesAt, Elements, Silent, AfterPacket, HeardMessage, LetGo, IsHeld,
         PutsDown, IsRelease;
    forall input ensures out != [] && PutsDown(out[0], input) ==> IsHeld(s'.sessions, input) {
      if event.Packet? {
        PacketHandsOver(s, event.address, event.nonce, event.ciphertext, event.now, input);
      } else if out != [] {
        assert IsRelease(out[0]);
        PressOrRelease(out[0], input);
      }
    }
    if event.Packet? {
      PacketHandsOver(s, event.address, event.nonce, event.ciphertext, event.now, Key(0));
    }
  }

  lemma NoStrays(r: RaceState, task: Task, input: Input)
    requires Settled(r)
    ensures !Strays(r, task, input)
  {
    hide IsHeld, PutsDown, IsRelease, Guarded, Promised, Ending;
    if Outbox(r, task) != [] && task != Receive {
      PressOrRelease(Outbox(r, task)[0], input);
    }
    assert task == Receive && Outbox(r, task) != [] && PutsDown(Outbox(r, task)[0], input) ==> InFlight(r, input);
  }

  lemma SendKeepsFlight(r: RaceState, task: Task)
    requires Settled(r) && Outbox(r, task) != []
    ensures Tidy(Sent(r, task))
    ensures forall input :: InFlight(Sent(r, task), input) ==> IsHeld(r.server.sessions, input)
  {
    hide IsHeld, PutsDown, IsRelease, Guarded, Applied, Ending;
    var box, r' := Outbox(r, task), Sent(r, task);
    forall input ensures !(InFlight(r', input) && task == Receive) {
      if task == Receive && |box| > 1 {
        PressOrRelease(box[1], input);
      }
    }
    assert forall input :: task != Receive ==> InFlight(r', input) == InFlight(r, input);
  }

  lemma UndisturbedStep(r: RaceState, event: RaceEvent, r': RaceState)
    requires RaceStep(r, event, r') && Settled(r) && !Disturbs(r, event, r')
    ensures Settled(r')
  {
    TurnsKeepGuarded(r, event, r');
    StepKeepsEnding(r, event, r');
    match event
    case Locks(task, what) =>
      hide IsHeld, PutsDown, Locked, IsRelease, Guarded, Ending;
      LockedOut(r.server, task, what, r'.server, r'.outbox[task]);
    case Sends(task) =>
      hide IsHeld, Guarded, Ending, Strays, InFlight, Tidy;
      forall input ensures !Loses(r, event, input) {
        NoStrays(r, task, input);
      }
      SendKeepsFlight(r, task);
    case Halts =>
      hide IsHeld, Guarded, Ending, Owed;
  }

  // As long as nothing lets go of a press between its lock section and its sending, and no task owes a
  // release when the input thread halts, whatever is down is held or about to be released at every
  // moment, and held when nobody is sending.
  lemma {:induction false} NothingStuckBetweenTurns(states: seq<RaceState>, events: seq<RaceEvent>, i: nat)
    requires Undisturbed(states, events) && i < |states|
    ensures Settled(states[i])
    ensures (forall t <- states[i].outbox :: states[i].outbox[t] == [])
            ==> Covered(states[i].server.sessions, states[i].server.backend)
  {
    if i == 0 {
      assert forall input :: !IsDown(states[0].server.backend, input);
    } else {
      NothingStuckBetweenTurns(states, events, i - 1);
      assert RaceStep(states[i - 1], events[i - 1], states[i]);
      hide RaceStep, Settled, Disturbs;
      UndisturbedStep(states[i - 1], events[i - 1], states[i]);
    }
    if forall t <- states[i].outbox :: states[i].outbox[t] == [] {
      GuardedAtRest(states[i]);
    }
  }

  lemma GuardedAtRest(r: RaceState)
    requires Guarded(r) && forall t <- r.outbox :: r.outbox[t] == []
    ensures Covered(r.server.sessions, r.server.backend)
  {
    hide KeyHeld, ButtonHeld;
    assert forall input :: !Promised(r, input);
    forall k | k in r.server.backend.keys ensures KeyHeld(r.server.sessions, k) {
      assert !Lost(r, Key(k));
    }
    forall b | b in r.server.backend.buttons ensures ButtonHeld(r.server.sessions, b) {
      assert !Lost(r, Button(b));
    }
  }

  // ── What is down at the end ──────────────────────────────────────────

  // Event `j` sent a press of `input` that nobody held any more, and it has been lost ever since.
  ghost predicate StrayedAt(states: seq<RaceState>, events: seq<RaceEvent>, i: nat, input: Input, j: nat)
    requires |states| == |events| + 1 && i < |states|
  {
    && j < i && events[j].Sends? && Strays(states[j], events[j].task, input)
    && forall k :: j < k <= i ==> Lost(states[k], input)
  }

  lemma {:induction false} EndsUnheld(states: seq<RaceState>, events: seq<RaceEvent>, i: nat)
    requires RaceRun(states, events) && i < |states|
    ensures Ending(states[i])
  {
    hide RaceStep, IsHeld;
    if i == 0 {
      assert states[0].stage == Serving;
    } else {
      EndsUnheld(states, events, i - 1);
      StepKeepsEnding(states[i - 1], events[i - 1], states[i]);
    }
  }

  // Up to the halt only a stray press loses anything.
  lemma {:induction false} LostByStraying(states: seq<RaceState>, events: seq<RaceEvent>, i: nat, input: Input)
    returns (j: nat)
    requires RaceRun(states, events) && i < |states| && states[i].stage != Halted && Lost(states[i], input)
    ensures StrayedAt(states, events, i, input, j)
  {
    hide RaceStep, Lost, Strays, Ending;
    NothingLostAtFirst(states, events, input);
    if i == 0 {
    } else {
      var r, event := states[i - 1], events[i - 1];
      EndsUnheld(states, events, i - 1);
      HaltIsLast(r, event, states[i]);
      if Lost(r, input) {
        j := LostByStraying(states, events, i - 1, input);
      } else {
        BecomesLost(r, event, states[i], input);
        j := i - 1;
      }
    }
  }

  lemma NothingLostAtFirst(states: seq<RaceState>, events: seq<RaceEvent>, input: Input)
    requires RaceRun(states, events)
    ensures !Lost(states[0], input)
  {
  }

  lemma HaltIsLast(r: RaceState, event: RaceEvent, r': RaceState)
    requires RaceStep(r, event, r') && r'.stage != Halted
    ensures r.stage != Halted && event != Halts
  {
    hide Locked;
  }

  // In every run, what is down once the input thread has halted is exactly what a stray press left down
  // and what another task still owed the release of.
  lemma DownAfterTheHalt(states: seq<RaceState>, events: seq<RaceEvent>, i: nat, input: Input)
    requires RaceRun(states, events) && i < |events| && events[i] == Halts
    ensures IsDown(states[i + 1].server.backend, input) <==>
            Owed(states[i], input) || exists j :: StrayedAt(states, events, i, input, j)
  {
    assert RaceStep(states[i], Halts, states[i + 1]);
    EndsUnheld(states, events, i);
    hide RaceStep, IsDown, Strays;
    if Lost(states[i], input) {
      var j := LostByStraying(states, events, i, input);
    }
  }

  // And it stays as it is.
  lemma {:induction false} NothingChangesAfterTheHalt(states: seq<RaceState>, events: seq<RaceEvent>, i: nat, k: nat)
    requires RaceRun(states, events) && i < |events| && events[i] == Halts && i < k < |states|
    ensures states[k].stage == Halted && states[k].server.backend == states[i + 1].server.backend
    decreases k
  {
    assert RaceStep(states[k - 1], events[k - 1], states[k]);
    if i + 1 < k {
      NothingChangesAfterTheHalt(states, events, i, k - 1);
    }
  }

  // Another task lets go of something held exactly when it forgets every device, or is a housekeeping
  // pass by whose clock all that hold it have been silent too long.
  lemma WhatLetsGo(r: RaceState, task: Task, event: ServerEvent, r': RaceState, input: Input)
    requires RaceStep(r, Locks(task, event), r') && task != Receive && IsHeld(r.server.sessions, input)
    ensures !IsHeld(r'.server.sessions, input) <==>
            || event == ForgetAll(true)
            || (event.Maintenance? &&
                forall a :: HeldAt(r.server.sessions, a, input)
                            ==> a !in Recent(r.server.sessions, event.now, r.server.config))
  {
    HeldSomewhere(r.server.sessions, input);
    HeldSomewhere(r'.server.sessions, input);
    hide ReleasesAt, Elements, IsHeld, IsRelease;
    match event
    case Maintenance(now) =>
      forall a ensures HeldAt(r'.server.sessions, a, input) <==>
                       HeldAt(r.server.sessions, a, input) && a in Recent(r.server.sessions, now, r.server.config) {
      }
    case _ =>
  }

  // ── The gap ──────────────────────────────────────────────────────────

  function AllSent(r: RaceState, task: Task): RaceState
    decreases |Outbox(r, task)|
  {
    if Outbox(r, task) == [] then r else AllSent(Sent(r, task), task)
  }

  // What nobody cares for stays down through everything sent that does not name it.
  lemma {:induction false} StaysDown(r: RaceState, task: Task, input: Input)
    requires IsDown(r.server.backend, input) && !Releases(Outbox(r, task), input)
    ensures IsDown(AllSent(r, task).server.backend, input)
    decreases |Outbox(r, task)|
  {
    hide IsDown, Applied, LetsGoOf;
    var box := Outbox(r, task);
    if box == [] {
    } else {
      DownAfterOther(r.server.backend, box[0], input);
      assert Outbox(Sent(r, task), task) == box[1..];
      StaysDown(Sent(r, task), task, input);
    }
  }

  lemma DownAfterOther(backend: Backend, message: ClientMessage, input: Input)
    requires IsDown(backend, input) && !LetsGoOf(message, input)
    ensures IsDown(Applied(backend, message), input)
  {
  }

  // The shutdown releases what sessions hold, so something that is down and that nobody holds
  // outlives the server.
  lemma ShutdownLeavesStrays(r: RaceState, r': RaceState, input: Input)
    requires RaceStep(r, Locks(Receive, Shutdown), r')
    requires IsDown(r.server.backend, input) && !IsHeld(r.server.sessions, input)
    ensures IsDown(AllSent(r', Receive).server.backend, input)
  {
    HandedWereHeld(r.server.sessions, r'.outbox[Receive], input);
    StaysDown(r', Receive, input);
  }

  lemma HandedWereHeld(table: Table, out: seq<ClientMessage>, input: Input)
    requires Hands(out, ReleasesAt(table, table.Keys))
    ensures Releases(out, input) ==> IsHeld(table, input)
  {
    HeldSomewhere(table, input);
    if m :| m in out && LetsGoOf(m, input) {
      assert m in Elements(out);
      var a :| a in table && m in ReleasesOf(table[a].held);
      assert HeldAt(table, a, input);
    }
  }

  lemma {:induction false} AllSentRest(r: RaceState, task: Task)
    ensures AllSent(r, task).server.sessions == r.server.sessions
    ensures AllSent(r, task).stage == r.stage
    ensures AllSent(r, task).outbox == if Outbox(r, task) == [] then r.outbox else r.outbox[task := []]
    decreases |Outbox(r, task)|
  {
    hide Applied;
    if Outbox(r, task) != [] {
      AllSentRest(Sent(r, task), task);
    }
  }

  lemma {:induction false} DroppedAfterTheHalt(r: RaceState, task: Task)
    requires r.stage == Halted
    ensures AllSent(r, task).server == r.server
    decreases |Outbox(r, task)|
  {
    if Outbox(r, task) != [] {
      DroppedAfterTheHalt(Sent(r, task), task);
    }
  }

  // From any moment at which nobody is sending, for anything down that all its holders have been silent
  // with for too long: a housekeeping pass takes the hold, the server shuts down and halts the input
  // thread before the release is sent, and in the end nobody has anything to send, nobody holds
  // anything and it is still down.
  lemma PromiseBroken(r: RaceState, now: Time, input: Input) returns (r1: RaceState, r2: RaceState, r3: RaceState)
    requires r.stage == Serving && forall t <- r.outbox :: r.outbox[t] == []
    requires IsDown(r.server.backend, input)
    requires forall a :: HeldAt(r.server.sessions, a, input) ==> a !in Recent(r.server.sessions, now, r.server.config)
    ensures RaceStep(r, Locks(Housekeeping, Maintenance(now)), r1)
    ensures !Disturbs(r, Locks(Housekeeping, Maintenance(now)), r1)
    ensures RaceStep(r1, Locks(Receive, Shutdown), r2) && !Disturbs(r1, Locks(Receive, Shutdown), r2)
    ensures r3 == AllSent(r2, Receive) && RaceStep(r3, Halts, r3.(stage := Halted))
    ensures var end := AllSent(r3.(stage := Halted), Housekeeping);
            && IsDown(end.server.backend, input)
            && (forall t <- end.outbox :: end.outbox[t] == [])
            && (forall other :: !IsHeld(end.server.sessions, other))
  {
    hide Locked, IsHeld, IsDown, Applied, HeldAt, Recent, Disturbs;
    r1 := LockedBy(r, Housekeeping, Maintenance(now));
    NotHeldAfterPass(r, now, r1, input);
    r2 := LockedBy(r1, Receive, Shutdown);
    r3 := AllSent(r2, Receive);
    NobodyPresses(r, Locks(Housekeeping, Maintenance(now)), r1);
    NobodyPresses(r1, Locks(Receive, Shutdown), r2);
    AllSentRest(r2, Receive);
    ShutdownLeavesStrays(r1, r2, input);
    var halted := r3.(stage := Halted);
    DroppedAfterTheHalt(halted, Housekeeping);
    AllSentRest(halted, Housekeeping);
    forall other ensures !IsHeld(r2.server.sessions, other) {
      OnlyReceiveHolds(r1.server, Receive, Shutdown, r2.server, r2.outbox[Receive], other);
    }
  }

  lemma NobodyPresses(r: RaceState, event: RaceEvent, r': RaceState)
    requires event.Locks? && Outbox(r, Receive) == []
    ensures !Disturbs(r, event, r')
  {
  }

  lemma NotHeldAfterPass(r: RaceState, now: Time, r1: RaceState, input: Input)
    requires RaceStep(r, Locks(Housekeeping, Maintenance(now)), r1)
    requires forall a :: HeldAt(r.server.sessions, a, input) ==> a !in Recent(r.server.sessions, now, r.server.config)
    ensures !IsHeld(r1.server.sessions, input)
  {
    hide Locked, IsHeld, HeldAt, Recent;
    if IsHeld(r.server.sessions, input) {
      WhatLetsGo(r, Housekeeping, Maintenance(now), r1, input);
    } else {
      OnlyReceiveHolds(r.server, Housekeeping, Maintenance(now), r1.server, r1.outbox[Housekeeping], input);
    }
  }

  // A housekeeping pass or a shutdown, its releases in some order.
  lemma LockedBy(r: RaceState, task: Task, event: ServerEvent) returns (r': RaceState)
    requires event.Maintenance? || event.Shutdown?
    requires RunsOn(event, task) && Outbox(r, task) == [] && r.stage == Serving
    ensures RaceStep(r, Locks(task, event), r') && r'.stage == (if event.Shutdown? then Stopping else Serving)
    ensures r'.server.backend == r.server.backend && r'.outbox == r.outbox[task := Outbox(r', task)]
  {
    var s := r.server;
    if event.Maintenance? {
      hide ReleasesAt, IsRelease, Elements, Silent, LetGo;
      var idle := Silent(s.sessions, event.now, s.config.sessionIdleTimeout);
      var live := s.sessions - idle;
      var quiet := Silent(live, event.now, s.config.heldInputTimeout);
      ReleasesAreReleases(s.sessions, idle);
      ReleasesAreReleases(live, quiet);
      var out := SomeOrder(ReleasesAt(s.sessions, idle) + ReleasesAt(live, quiet));
      r' := r.(server := s.(sessions := LetGo(live, quiet)), outbox := r.outbox[task := out]);
    } else {
      hide ReleasesAt, IsRelease, Elements, LetGo;
      ReleasesAreReleases(s.sessions, s.sessions.Keys);
      var out := SomeOrder(ReleasesAt(s.sessions, s.sessions.Keys));
      r' := RaceState(s.(sessions := LetGo(s.sessions, s.sessions.Keys)), r.outbox[task := out], Stopping);
    }
  }

  // From any moment at which nobody is sending: a phone presses a key, the owner forgets every device
  // before that press is sent, and in the end no session is left, nobody has anything to send, and
  // the key is down.
  lemma ForgottenInTheGap(r: RaceState, n: nat, address: Address, nonce: Nonce, ciphertext: Ciphertext, now: Time,
                          usage: U16, mods: U8)
    returns (r1: RaceState, r2: RaceState, r3: RaceState)
    requires r.stage == Serving && forall t <- r.outbox :: r.outbox[t] == []
    requires HeardMessage(r.server, address, nonce, ciphertext) == [KeyPress(usage, mods)]
    ensures RaceStep(r, Locks(Receive, Packet(address, nonce, ciphertext, now)), r1)
    ensures RaceStep(r1, Locks(Console(n), ForgetAll(true)), r2)
    ensures r3 == AllSent(r2, Console(n)) && Outbox(r3, Receive) != []
    ensures var r4 := Sent(r3, Receive);
            && r4.server.sessions == map[] && (forall t <- r4.outbox :: r4.outbox[t] == [])
            && usage in r4.server.backend.keys
  {
    hide AfterPacket, HeardMessage, ReleasesAt, IsRelease, Elements, Applied;
    var out := [KeyPress(usage, mods)];
    var heard := AfterPacket(r.server, address, nonce, ciphertext, now);
    r1 := r.(server := r.server.(sessions := heard.sessions), outbox := r.outbox[Receive := out]);
    var table := heard.sessions;
    ReleasesAreReleases(table, table.Keys);
    var releases := SomeOrder(ReleasesAt(table, table.Keys));
    var forgotten := r1.server.pairing.(trusted := {}, invitation := None);
    r2 := r1.(server := r1.server.(pairing := forgotten, sessions := map[]),
              outbox := r1.outbox[Console(n) := releases]);
    r3 := AllSent(r2, Console(n));
    AllSentRest(r2, Console(n));
    assert Outbox(r3, Receive) == out;
    PressesPress(r3.server.backend, out[0]);
  }
}
