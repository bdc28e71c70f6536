// The server's handling of packets, housekeeping, the owner's commands and shutdown.
//
// Each step holds the state lock and then hands its messages to the input thread. Here the two are
// one step; the module Races takes them apart.
module Server {
  import opened Wrappers
  import opened Messages
  import opened Protocol
  import opened Codec
  import opened Replay
  import opened Delivery
  import opened Holds
  import opened Sessions
  import opened Pairings
  import opened InputBackend

  // ── The specification ────────────────────────────────────────────────

  datatype Config = Config(maxSessions: Cap, sessionIdleTimeout: Time, heldInputTimeout: Time)

  // `backend` is the computer's input once the input thread has caught up.
  datatype ServerState = ServerState(config: Config, pairing: PairingState, sessions: Table, backend: Backend)

  datatype ServerEvent =
    | Handshake(address: Address, client: PublicKey, token: Secret, receiveKey: Key, now: Time)
    | Packet(address: Address, nonce: Nonce, ciphertext: Ciphertext, now: Time)
    | Maintenance(now: Time)
    | OpenPairing(now: Time, duration: Time)
    | ClosePairing
    | CreateInvite(token: Secret, now: Time, ttl: Time)
    | ForgetAll(saved: bool)
    | Shutdown

  // A packet from an address with a session: opened, noted as a sign of life, and if it is a message,
  // remembered and applied.
  function AfterPacket(s: ServerState, address: Address, nonce: Nonce, ciphertext: Ciphertext, now: Time): ServerState {
    if address !in s.sessions then s
    else
      var session := s.sessions[address];
      match Received(session.receiveKey, session.accepted, nonce, ciphertext)
      case Plaintext(bytes) =>
        var heard := Heard(session, nonce, now);
        (match Decoded(bytes)
         case Err(_) => s.(sessions := s.sessions[address := heard])
         case Ok(message) =>
           s.(sessions := s.sessions[address := heard.(held := Observed(heard.held, message))],
              backend := Applied(s.backend, message)))
      case _ => s
  }

  // Idle sessions end, and of those that stay the quiet ones let go of what they hold.
  function AfterMaintenance(s: ServerState, now: Time): ServerState {
    var idle := Silent(s.sessions, now, s.config.sessionIdleTimeout);
    var live := s.sessions - idle;
    var quiet := Silent(live, now, s.config.heldInputTimeout);
    s.(sessions := LetGo(live, quiet),
       backend := Lifted(s.backend, ReleasesAt(s.sessions, idle) + ReleasesAt(live, quiet)))
  }

  ghost predicate HandshakeStep(s: ServerState, address: Address, client: PublicKey, token: Secret,
                                receiveKey: Key, now: Time, s': ServerState) {
    var session := SessionState(client, now, NOTHING, receiveKey, {});
    && s'.config == s.config
    && s'.pairing == Admitted(s.pairing, client, token, now)
    && if Decision(s.pairing, client, token, now) == Rejected
       then s'.sessions == s.sessions && s'.backend == s.backend
       else exists dropped: set<Address> ::
              && Inserted(s.sessions, s.config.maxSessions, address, session, s'.sessions, dropped)
              && s'.backend == Lifted(s.backend, ReleasesAt(s.sessions, dropped))
  }

  ghost predicate Step(s: ServerState, event: ServerEvent, s': ServerState) {
    match event
    case Handshake(address, client, token, receiveKey, now) =>
      HandshakeStep(s, address, client, token, receiveKey, now, s')
    case Packet(address, nonce, ciphertext, now) => s' == AfterPacket(s, address, nonce, ciphertext, now)
    case Maintenance(now) => s' == AfterMaintenance(s, now)
    case OpenPairing(now, duration) => s' == s.(pairing := s.pairing.(windowUntil := Some(now + duration)))
    case ClosePairing => s' == s.(pairing := s.pairing.(windowUntil := None))
    case CreateInvite(token, now, ttl) =>
      s' == s.(pairing := s.pairing.(invitation := Some(Invitation(token, now + ttl))))
    case ForgetAll(saved) =>
      // When the empty list cannot be saved the sessions are left alone.
      var forgotten := s.(pairing := s.pairing.(trusted := {}, invitation := None));
      s' == if !saved then forgotten
            else forgotten.(sessions := map[], backend := Lifted(s.backend, ReleasesAt(s.sessions, s.sessions.Keys)))
    case Shutdown =>
      s' == s.(sessions := LetGo(s.sessions, s.sessions.Keys),
               backend := Lifted(s.backend, ReleasesAt(s.sessions, s.sessions.Keys)))
  }

  // ── The server ───────────────────────────────────────────────────────

  class ServerProcess {
    const config: Config
    const pairing: Pairing
    const table: SessionTable
    const input: InputWorker

    ghost predicate Valid()
      reads this, table, table.Repr, input
    {
      && table.Valid() && input.Valid()
      && pairing !in table.Repr && input !in table.Repr
      && table.maxSessions == config.maxSessions
    }

    ghost function View(): ServerState
      requires Valid()
      reads this, table, table.Repr, input, pairing
    {
      ServerState(config, pairing.State(), table.View(), input.Settled())
    }

    constructor (config: Config, trusted: set<PublicKey>, mode: PairingMode, backend: Backend, now: Time)
      ensures Valid() && input.running
      ensures View() == ServerState(config, Started(trusted, mode, now), map[], backend)
    {
      this.config := config;
      pairing := new Pairing(trusted, mode, now);
      table := new SessionTable(config.maxSessions);
      input := new InputWorker(backend);
    }

    method Handshake(address: Address, client: PublicKey, token: Secret, sendKey: Key, receiveKey: Key, now: Time)
      returns (admission: Admission)
      requires Valid() && input.running
      modifies pairing, table.Repr, input
      ensures Valid() && input.running
      ensures fresh(table.Repr - old(table.Repr))
      ensures admission == Decision(old(View()).pairing, client, token, now)
      ensures Step(old(View()), ServerEvent.Handshake(address, client, token, receiveKey, now), View())
    {
      hide Decision, Admitted, Inserted, ReleasesAt, Lifted, AllApplied, Elements, SessionTable.View,
           SessionTable.Valid,
           InputWorker.Settled, InputWorker.Valid, Session.State, Session.Valid, AfterPacket, AfterMaintenance,
           IsRelease,
           ReplayWindow.Valid;
      ghost var before := View();
      admission := pairing.AdmitWithToken(client, token, now);
      if admission != Rejected {
        var transport := new NoiseTransport(sendKey, receiveKey);
        var session := new Session(transport, client, now);
        var releases; ghost var dropped;
        releases, dropped := table.Insert(address, session);
        OnlyReleases(before.sessions, dropped, releases);
        ReleasesLift(before.backend, releases);
        input.SendAll(releases);
      }
    }

    method Transport(address: Address, nonce: Nonce, ciphertext: Ciphertext, now: Time)
      requires Valid() && input.running
      modifies table.Repr, input
      ensures Valid() && input.running
      ensures table.Repr == old(table.Repr)
      ensures Step(old(View()), Packet(address, nonce, ciphertext, now), View())
    {
      hide Received, Decoded, Observed, Applied, SessionTable.View, SessionTable.Valid, InputWorker.Settled;
      var there := table.Contains(address);
      if !there {
        return;
      }
      var result := table.Open(address, nonce, ciphertext, now);
      if !result.Plaintext? {
        return;
      }
      var decoded := DecodeClient(result.bytes);
      if decoded.Err? {
        return;
      }
      var message := decoded.value;
      table.Observe(address, message);
      Dispatch(message);
    }

    // Input messages go to the input thread; the others are answered or set the clipboard.
    method Dispatch(message: ClientMessage)
      requires input.Valid() && input.running
      modifies input
      ensures input.Valid() && input.running
      ensures input.Settled() == Applied(old(input.Settled()), message)
    {
      hide Applied;
      match message
      case ClipboardSet(_) => NotInput(input.Settled(), message);
      case ClipboardGet => NotInput(input.Settled(), message);
      case NowPlayingQuery => NotInput(input.Settled(), message);
      case HostInfoQuery => NotInput(input.Settled(), message);
      case other => input.Send(other);
    }

    // One pass of the housekeeping.
    method MaintenancePass(now: Time)
      requires Valid() && input.running
      modifies table.Repr, input
      ensures Valid() && input.running
      ensures table.Repr == old(table.Repr)
      ensures Step(old(View()), Maintenance(now), View())
    {
      hide ReleasesAt, Lifted, AllApplied, Elements, Silent, LetGo, SessionTable.View, SessionTable.Valid,
           InputWorker.Settled;
      ghost var before := View();
      var expired, releases := table.ExpireIdle(now, config.sessionIdleTimeout);
      ghost var live := table.View();
      var more := table.ReleaseStaleHolds(now, config.heldInputTimeout);
      ElementsConcat(releases, more);
      OnlyReleases(before.sessions, Silent(before.sessions, now, config.sessionIdleTimeout), releases);
      OnlyReleases(live, Silent(live, now, config.heldInputTimeout), more);
      releases := releases + more;
      ReleasesLift(before.backend, releases);
      input.SendAll(releases);
    }

    method OpenWindow(now: Time, duration: Time)
      requires Valid()
      modifies pairing
      ensures Valid() && Step(old(View()), OpenPairing(now, duration), View())
    {
      hide SessionTable.View, SessionTable.Valid, InputWorker.Settled, InputWorker.Valid, AfterPacket, AfterMaintenance;
      pairing.OpenWindow(now, duration);
    }

    method CloseWindow()
      requires Valid()
      modifies pairing
      ensures Valid() && Step(old(View()), ClosePairing, View())
    {
      hide SessionTable.View, SessionTable.Valid, InputWorker.Settled, InputWorker.Valid, AfterPacket, AfterMaintenance;
      pairing.CloseWindow();
    }

    method Invite(token: Secret, now: Time, ttl: Time)
      requires Valid()
      modifies pairing
      ensures Valid() && Step(old(View()), CreateInvite(token, now, ttl), View())
    {
      hide SessionTable.View, SessionTable.Valid, InputWorker.Settled, InputWorker.Valid, AfterPacket, AfterMaintenance;
      pairing.Invite(token, now, ttl);
    }

    // Unpairs every device and ends their sessions; says how many were paired. `saved` is whether
    // the empty list could be written.
    method Forget(saved: bool) returns (count: Option<nat>)
      requires Valid() && input.running
      modifies pairing, table.Repr, input
      ensures Valid() && input.running
      ensures table.Repr == old(table.Repr)
      ensures count == if saved then Some(|old(View()).pairing.trusted|) else None
      ensures Step(old(View()), ForgetAll(saved), View())
    {
      hide ReleasesAt, Lifted, AllApplied, Elements, SessionTable.View, SessionTable.Valid, InputWorker.Settled;
      ghost var before := View();
      var paired := |pairing.trusted|;
      pairing.ForgetAll();
      if !saved {
        return None;
      }
      var releases := table.Clear();
      OnlyReleases(before.sessions, before.sessions.Keys, releases);
      ReleasesLift(before.backend, releases);
      input.SendAll(releases);
      return Some(paired);
    }

    // Lets go of everything and stops the input thread once it has done so.
    method Stop()
      requires Valid() && input.running
      modifies table.Repr, input
      ensures Valid() && !input.running
      ensures input.backend == View().backend
      ensures Step(old(View()), ServerEvent.Shutdown, View())
    {
      hide ReleasesAt, Lifted, AllApplied, Elements, LetGo, SessionTable.View, SessionTable.Valid, InputWorker.Settled;
      ghost var before := View();
      var releases := table.ReleaseAll();
      OnlyReleases(before.sessions, before.sessions.Keys, releases);
      ReleasesLift(before.backend, releases);
      input.SendAll(releases);
      input.Shutdown();
    }
  }

  lemma NotInput(backend: Backend, message: ClientMessage)
    requires message.ClipboardSet? || message.ClipboardGet? || message.NowPlayingQuery? || message.HostInfoQuery?
    ensures Applied(backend, message) == backend
  {
    NoEvents(backend.codes);
  }

  lemma OnlyReleases(table: Table, addresses: set<Address>, messages: seq<ClientMessage>)
    requires Elements(messages) == ReleasesAt(table, addresses)
    ensures forall m <- messages :: IsRelease(m)
  {
    forall m | m in messages ensures IsRelease(m) {
      assert m in Elements(messages);
    }
  }
}
