// What each session's record and the computer's input are in every run, told from the events before.
module Histories {
  import opened Wrappers
  import opened Messages
  import opened Replay
  import opened Delivery
  import opened Protocol
  import opened Holds
  import opened Sessions
  import opened Pairings
  import opened KeysDown
  import opened InputBackend
  import opened Server
  import opened ServerRuns

  // ── What an event is to a session ────────────────────────────────────

  // The handshake lets a device in at `address`.
  predicate Admits(s: ServerState, event: ServerEvent, address: Address) {
    && event.Handshake? && event.address == address
    && Decision(s.pairing, event.client, event.token, event.now) != Rejected
  }

  // What the packet carries, if it is one that opens.
  function Unsealed(s: ServerState, event: ServerEvent): Option<Bytes> {
    if event.Packet? && event.address in s.sessions then
      var session := s.sessions[event.address];
      match Received(session.receiveKey, session.accepted, event.nonce, event.ciphertext)
      case Plaintext(bytes) => Some(bytes)
      case _ => None
    else None
  }

  // The message it carries, if that is one.
  function Read(s: ServerState, event: ServerEvent): Option<ClientMessage> {
    match Unsealed(s, event)
    case None => None
    case Some(bytes) => (match Decoded(bytes) case Ok(message) => Some(message) case Err(_) => None)
  }

  predicate HeardFrom(s: ServerState, event: ServerEvent, address: Address) {
    event.Packet? && event.address == address && Unsealed(s, event).Some?
  }

  predicate Contact(s: ServerState, event: ServerEvent, address: Address) {
    Admits(s, event, address) || HeardFrom(s, event, address)
  }

  // The session is made to let go of everything: at shutdown, or when it has been quiet for too long.
  predicate Empties(s: ServerState, event: ServerEvent, address: Address) {
    || event.Shutdown?
    || (event.Maintenance? && address in s.sessions
        && event.now - s.sessions[address].lastSeen > s.config.heldInputTimeout)
  }

  // A session is what its handshake made it, or what it was with what the event says about it.
  ghost predicate Follows(s: ServerState, event: ServerEvent, address: Address, after: SessionState) {
    if Admits(s, event, address) then
      after == SessionState(event.client, event.now, NOTHING, event.receiveKey, {})
    else
      && address in s.sessions
      && var before := s.sessions[address];
         && after.client == before.client && after.receiveKey == before.receiveKey
         && (if HeardFrom(s, event, address)
             then after.lastSeen == event.now && after.accepted == before.accepted + {event.nonce}
             else after.lastSeen == before.lastSeen && after.accepted == before.accepted)
         && after.held == if Empties(s, event, address) then NOTHING
                          else if event.Packet? && event.address == address && Read(s, event).Some?
                          then Observed(before.held, Read(s, event).value)
                          else before.held
  }

  lemma HandshakeFollows(s: ServerState, event: ServerEvent, s': ServerState, address: Address)
    requires event.Handshake? && Step(s, event, s')
    ensures Admits(s, event, address) ==> address in s'.sessions
    ensures address in s'.sessions ==> Follows(s, event, address, s'.sessions[address])
  {
    hide Lifted, ReleasesAt, Inserted, Decision, Admitted, AfterPacket, AfterMaintenance;
    if Decision(s.pairing, event.client, event.token, event.now) != Rejected {
      var session := SessionState(event.client, event.now, NOTHING, event.receiveKey, {});
      var dropped: set<Address> :|
        && Inserted(s.sessions, s.config.maxSessions, event.address, session, s'.sessions, dropped)
        && s'.backend == Lifted(s.backend, ReleasesAt(s.sessions, dropped));
      InsertedSessions(s.sessions, s.config.maxSessions, event.address, session, s'.sessions, dropped);
      InsertedThere(s.sessions, s.config.maxSessions, event.address, session, s'.sessions, dropped);
    }
  }

  lemma InsertedThere(table: Table, cap: Cap, address: Address, session: SessionState,
                      table': Table, dropped: set<Address>)
    requires Inserted(table, cap, address, session, table', dropped)
    ensures address in table' && table'.Keys == (table.Keys - dropped) + {address}
  {
    hide IsOldest;
  }

  lemma PacketFollows(s: ServerState, event: ServerEvent, s': ServerState, address: Address)
    requires event.Packet? && Step(s, event, s')
    ensures address in s'.sessions ==> Follows(s, event, address, s'.sessions[address])
  {
    hide Received, Decoded, Applied, Observed, AfterMaintenance, HandshakeStep;
  }

  lemma MaintenanceFollows(s: ServerState, event: ServerEvent, s': ServerState, address: Address)
    requires event.Maintenance? && Step(s, event, s')
    ensures address in s'.sessions ==> Follows(s, event, address, s'.sessions[address])
  {
    hide Lifted, ReleasesAt, AfterPacket, HandshakeStep, Received, Decoded, Observed;
  }

  lemma SessionFollows(s: ServerState, event: ServerEvent, s': ServerState, address: Address)
    requires Step(s, event, s')
    ensures s'.config == s.config
    ensures Admits(s, event, address) ==> address in s'.sessions
    ensures address in s'.sessions ==> Follows(s, event, address, s'.sessions[address])
  {
    hide Lifted, ReleasesAt, AfterPacket, AfterMaintenance, Decision, Admitted, Inserted, Follows, Received;
    SameConfig(s, event, s');
    match event
    case Handshake(_, _, _, _, _) => HandshakeFollows(s, event, s', address);
    case Packet(_, _, _, _) => PacketFollows(s, event, s', address);
    case Maintenance(_) => MaintenanceFollows(s, event, s', address);
    case _ => OtherFollows(s, event, s', address);
  }

  lemma SameConfig(s: ServerState, event: ServerEvent, s': ServerState)
    requires Step(s, event, s')
    ensures s'.config == s.config
  {
    hide Lifted, ReleasesAt, Decision, Admitted, Inserted, Received, Decoded, Applied, Observed, Silent, LetGo;
  }

  lemma OtherFollows(s: ServerState, event: ServerEvent, s': ServerState, address: Address)
    requires !event.Handshake? && !event.Packet? && !event.Maintenance? && Step(s, event, s')
    ensures address in s'.sessions ==> Follows(s, event, address, s'.sessions[address])
  {
    hide Lifted, ReleasesAt, AfterPacket, AfterMaintenance, HandshakeStep, Received, Decoded, Observed;
  }

  // A session ends by a saved forgetting, by staying silent for too long, or by making room in a full
  // table for one elsewhere when none has been silent for longer; the first two always end it.
  lemma WhatEndsASession(s: ServerState, event: ServerEvent, s': ServerState, address: Address)
    requires Step(s, event, s') && address in s.sessions
    ensures event == ForgetAll(true) ==> address !in s'.sessions
    ensures event.Maintenance? ==>
              (address !in s'.sessions <==> event.now - s.sessions[address].lastSeen > s.config.sessionIdleTimeout)
    ensures address !in s'.sessions && event != ForgetAll(true) && !event.Maintenance? ==>
              event.Handshake? && MakesRoom(s, event, address)
  {
    hide Lifted, ReleasesAt, Inserted, AfterPacket, Decision, Admitted, MakesRoom;
    match event
    case Handshake(_, _, _, _, _) =>
      if address !in s'.sessions {
        HandshakeMakesRoom(s, event, s', address);
      }
    case Packet(_, _, _, _) => PacketEndsNone(s, event, s');
    case _ =>
  }

  predicate MakesRoom(s: ServerState, event: ServerEvent, address: Address)
    requires event.Handshake?
  {
    && Admits(s, event, event.address) && event.address != address && address in s.sessions
    && |s.sessions - {event.address}| >= s.config.maxSessions
    && forall a <- s.sessions :: a != event.address ==> s.sessions[address].lastSeen <= s.sessions[a].lastSeen
  }

  lemma HandshakeMakesRoom(s: ServerState, event: ServerEvent, s': ServerState, address: Address)
    requires event.Handshake? && Step(s, event, s') && address in s.sessions && address !in s'.sessions
    ensures MakesRoom(s, event, address)
  {
    hide Lifted, ReleasesAt, Inserted, Decision, Admitted, AfterPacket, AfterMaintenance;
    var session := SessionState(event.client, event.now, NOTHING, event.receiveKey, {});
    var dropped: set<Address> :|
      && Inserted(s.sessions, s.config.maxSessions, event.address, session, s'.sessions, dropped)
      && s'.backend == Lifted(s.backend, ReleasesAt(s.sessions, dropped));
    InsertedThere(s.sessions, s.config.maxSessions, event.address, session, s'.sessions, dropped);
    DroppedIsOldest(s.sessions, s.config.maxSessions, event.address, session, s'.sessions, dropped, address);
  }

  lemma DroppedIsOldest(table: Table, cap: Cap, address: Address, session: SessionState,
                        table': Table, dropped: set<Address>, a: Address)
    requires Inserted(table, cap, address, session, table', dropped)
    ensures dropped <= table.Keys && (address in table ==> address in dropped)
    ensures a in dropped && a != address ==>
              && |table - {address}| >= cap
              && forall b <- table :: b != address ==> table[a].lastSeen <= table[b].lastSeen
  {
    var rest := table - {address};
    assert forall b <- table :: b != address ==> b in rest && rest[b] == table[b];
  }

  lemma PacketEndsNone(s: ServerState, event: ServerEvent, s': ServerState)
    requires event.Packet? && Step(s, event, s')
    ensures s'.sessions.Keys == s.sessions.Keys
  {
    hide Received, Decoded, Applied, Observed;
  }

  // ── When a session was last heard from ───────────────────────────────

  // The `j`th event is the last sign of life from `address` before the `i`th.
  ghost predicate LatestContact(states: seq<ServerState>, events: seq<ServerEvent>, i: nat, address: Address, j: nat)
    requires |states| == |events| + 1
  {
    && j < i <= |events| && Contact(states[j], events[j], address) && (events[j].Handshake? || events[j].Packet?)
    && forall k :: j < k < i ==> !Contact(states[k], events[k], address)
  }

  // In every run a session was last heard from at its latest handshake or packet that opened.
  lemma {:induction false} SeenAtLatestContact(states: seq<ServerState>, events: seq<ServerEvent>, i: nat,
                                               address: Address)
    requires Run(states, events) && i < |states| && address in states[i].sessions
    ensures exists j: nat :: LatestContact(states, events, i, address, j)
                             && states[i].sessions[address].lastSeen == events[j].now
  {
    hide Step, Admits, HeardFrom, Empties;
    if i == 0 {
      assert false;
    } else {
      var s, event := states[i - 1], events[i - 1];
      SessionFollows(s, event, states[i], address);
      if Contact(s, event, address) {
        ContactEvent(s, event, address);
        assert LatestContact(states, events, i, address, i - 1);
      } else {
        SeenAtLatestContact(states, events, i - 1, address);
        var j: nat :| LatestContact(states, events, i - 1, address, j)
                      && states[i - 1].sessions[address].lastSeen == events[j].now;
        assert LatestContact(states, events, i, address, j);
      }
    }
  }

  lemma ContactEvent(s: ServerState, event: ServerEvent, address: Address)
    requires Contact(s, event, address)
    ensures (event.Handshake? || event.Packet?) && (Admits(s, event, address) ==> event.Handshake?)
  {
  }

  // So a housekeeping pass ends exactly the sessions whose latest sign of life lies further back than the
  // one timeout, and empties those that stay for which it lies further back than the other.
  lemma KeptExactlyWhileHeard(states: seq<ServerState>, events: seq<ServerEvent>, i: nat, address: Address, j: nat)
    requires Run(states, events) && i < |events| && events[i].Maintenance? && address in states[i].sessions
    requires LatestContact(states, events, i, address, j)
    ensures var s, s', silence := states[i], states[i + 1], events[i].now - events[j].now;
            && (address in s'.sessions <==> silence <= s.config.sessionIdleTimeout)
            && (address in s'.sessions ==>
                  s'.sessions[address] == if silence <= s.config.heldInputTimeout then s.sessions[address]
                                          else s.sessions[address].(held := NOTHING))
  {
    hide Step, Contact, Lifted, ReleasesAt, Observed, Read;
    var s, s' := states[i], states[i + 1];
    SeenAtLatestContact(states, events, i, address);
    var k: nat :| LatestContact(states, events, i, address, k) && s.sessions[address].lastSeen == events[k].now;
    assert j == k;
    assert Step(s, events[i], s');
    WhatEndsASession(s, events[i], s', address);
    SessionFollows(s, events[i], s', address);
  }

  // ── Whose session it is, and what it has accepted ────────────────────

  // The `j`th event let in the device that `address` has had its session from since.
  ghost predicate LatestAdmission(states: seq<ServerState>, events: seq<ServerEvent>, i: nat, address: Address, j: nat)
    requires |states| == |events| + 1
  {
    && j < i <= |events| && events[j].Handshake? && Admits(states[j], events[j], address)
    && forall k :: j < k < i ==> !Admits(states[k], events[k], address)
  }

  // A packet with this nonce was opened at `address` between the two events.
  ghost predicate OpenedBetween(states: seq<ServerState>, events: seq<ServerEvent>, j: nat, i: nat, address: Address,
                                nonce: Nonce)
    requires i <= |events| < |states|
  {
    exists k :: j < k < i && HeardFrom(states[k], events[k], address) && events[k].nonce == nonce
  }

  // In every run a session is that of the latest device let in at its address, with its key, and has
  // accepted the nonces opened there since and no others.
  lemma {:induction false} SessionOfLatestAdmission(states: seq<ServerState>, events: seq<ServerEvent>, i: nat,
                                                    address: Address, nonce: Nonce)
    requires Run(states, events) && i < |states| && address in states[i].sessions
    ensures exists j: nat :: LatestAdmission(states, events, i, address, j)
              && states[i].sessions[address].client == events[j].client
              && states[i].sessions[address].receiveKey == events[j].receiveKey
              && (nonce in states[i].sessions[address].accepted <==>
                    OpenedBetween(states, events, j, i, address, nonce))
  {
    hide Step, Admits, HeardFrom, Empties;
    if i == 0 {
      assert false;
    } else {
      var s, event := states[i - 1], events[i - 1];
      SessionFollows(s, event, states[i], address);
      if Admits(s, event, address) {
        ContactEvent(s, event, address);
        assert LatestAdmission(states, events, i, address, i - 1);
      } else {
        SessionOfLatestAdmission(states, events, i - 1, address, nonce);
        var j: nat :| LatestAdmission(states, events, i - 1, address, j)
          && s.sessions[address].client == events[j].client
          && s.sessions[address].receiveKey == events[j].receiveKey
          && (nonce in s.sessions[address].accepted <==> OpenedBetween(states, events, j, i - 1, address, nonce));
        OneMoreOpened(states, events, j, i, address, nonce);
        assert LatestAdmission(states, events, i, address, j);
      }
    }
  }

  lemma OneMoreOpened(states: seq<ServerState>, events: seq<ServerEvent>, j: nat, i: nat, address: Address,
                      nonce: Nonce)
    requires j + 1 < i <= |events| < |states|
    ensures OpenedBetween(states, events, j, i, address, nonce) <==>
            || OpenedBetween(states, events, j, i - 1, address, nonce)
            || (HeardFrom(states[i - 1], events[i - 1], address) && events[i - 1].nonce == nonce)
  {
    hide Unsealed;
  }

  // ── What a session holds ─────────────────────────────────────────────

  // A message read from `address`.
  function ReadFrom(s: ServerState, event: ServerEvent, address: Address): Option<ClientMessage> {
    if event.Packet? && event.address == address then Read(s, event) else None
  }

  predicate IsPress(message: ClientMessage) {
    message.KeyPress? || (message.MouseButton? && message.pressed)
  }

  // The message is about the key or button that `press` presses.
  predicate SameInput(message: ClientMessage, press: ClientMessage)
    requires IsPress(press)
  {
    if press.KeyPress? then NamesKey(message, press.keycode) else NamesButton(message, press.button)
  }

  // What is pressed is held, a key with the modifiers of the press.
  predicate HeldAs(held: Held, press: ClientMessage)
    requires IsPress(press)
  {
    if press.KeyPress? then press.keycode in held.keys && held.keys[press.keycode] == press.mods
    else press.button in held.buttons
  }

  // The event starts the session's record anew, or is a message from it about the key or button.
  predicate Settles(s: ServerState, event: ServerEvent, address: Address, press: ClientMessage)
    requires IsPress(press)
  {
    || Admits(s, event, address) || Empties(s, event, address)
    || (ReadFrom(s, event, address).Some? && SameInput(ReadFrom(s, event, address).value, press))
  }

  // The `j`th event is the last before the `i`th to do so.
  ghost predicate LatestSettled(states: seq<ServerState>, events: seq<ServerEvent>, i: nat, address: Address,
                                press: ClientMessage, j: nat)
    requires |states| == |events| + 1 && IsPress(press)
  {
    && j < i <= |events| && Settles(states[j], events[j], address, press)
    && forall k :: j < k < i ==> !Settles(states[k], events[k], address, press)
  }

  // In every run a session holds a key, with these modifiers, or a button, if and only if this press of it
  // is the last message about it since the handshake and since the session was last emptied.
  lemma {:induction false} HeldByLatestPress(states: seq<ServerState>, events: seq<ServerEvent>, i: nat,
                                             address: Address, press: ClientMessage)
    requires Run(states, events) && i < |states| && address in states[i].sessions && IsPress(press)
    ensures HeldAs(states[i].sessions[address].held, press) <==>
            exists j: nat :: LatestSettled(states, events, i, address, press, j)
                             && ReadFrom(states[j], events[j], address) == Some(press)
  {
    hide Step, Admits, HeardFrom, Empties, Read, HeldAs, SameInput, Observed;
    if i == 0 {
      assert false;
    } else {
      var s, event := states[i - 1], events[i - 1];
      SessionFollows(s, event, states[i], address);
      HeldAfter(s, event, address, states[i].sessions[address], press);
      if Settles(s, event, address, press) {
        assert LatestSettled(states, events, i, address, press, i - 1);
      } else {
        HeldByLatestPress(states, events, i - 1, address, press);
        assert forall j: nat :: LatestSettled(states, events, i, address, press, j) <==>
                                LatestSettled(states, events, i - 1, address, press, j);
      }
    }
  }

  lemma HeldAfter(s: ServerState, event: ServerEvent, address: Address, after: SessionState, press: ClientMessage)
    requires IsPress(press) && Follows(s, event, address, after)
    ensures Settles(s, event, address, press) ==>
              (HeldAs(after.held, press) <==> ReadFrom(s, event, address) == Some(press))
    ensures !Settles(s, event, address, press) ==>
              address in s.sessions && (HeldAs(after.held, press) <==> HeldAs(s.sessions[address].held, press))
  {
    hide Unsealed;
  }

  // ── What is down ─────────────────────────────────────────────────────

  predicate DownIn(backend: Backend, press: ClientMessage)
    requires IsPress(press)
  {
    if press.KeyPress? then press.keycode in backend.keys else press.button in backend.buttons
  }

  predicate HoldsInput(held: Held, press: ClientMessage)
    requires IsPress(press)
  {
    if press.KeyPress? then press.keycode in held.keys else press.button in held.buttons
  }

  // The session ends, is replaced or is emptied.
  predicate LetsGoOf(s: ServerState, event: ServerEvent, s': ServerState, address: Address) {
    && address in s.sessions
    && (address !in s'.sessions || Admits(s, event, address) || Empties(s, event, address))
  }

  // The event is a message about the key or button, or somebody who holds it lets go.
  predicate Moves(s: ServerState, event: ServerEvent, s': ServerState, press: ClientMessage)
    requires IsPress(press)
  {
    || (Read(s, event).Some? && SameInput(Read(s, event).value, press))
    || exists a <- s.sessions :: HoldsInput(s.sessions[a].held, press) && LetsGoOf(s, event, s', a)
  }

  ghost predicate LatestMove(states: seq<ServerState>, events: seq<ServerEvent>, i: nat, press: ClientMessage, j: nat)
    requires |states| == |events| + 1 && IsPress(press)
  {
    && j < i <= |events| && Moves(states[j], events[j], states[j + 1], press)
    && forall k :: j < k < i ==> !Moves(states[k], events[k], states[k + 1], press)
  }

  // In every run a key or button is down if and only if the latest event to move it was a message, from
  // whomever, that presses it.
  lemma {:induction false} DownByLatestPress(states: seq<ServerState>, events: seq<ServerEvent>, i: nat,
                                             press: ClientMessage)
    requires Run(states, events) && i < |states| && IsPress(press)
    ensures DownIn(states[i].backend, press) <==>
            exists j: nat :: LatestMove(states, events, i, press, j)
                             && Read(states[j], events[j]).Some? && IsPress(Read(states[j], events[j]).value)
  {
    hide Step, Moves, Read, LatestMove;
    if i == 0 {
      NoneYet(states, events, press);
    } else {
      var s, event := states[i - 1], events[i - 1];
      DownAfterEvent(s, event, states[i], press);
      forall j: nat ensures LatestMove(states, events, i, press, j) <==>
                            if Moves(s, event, states[i], press) then j == i - 1
                            else LatestMove(states, events, i - 1, press, j) {
        LatestMoveOneLater(states, events, i, press, j);
      }
      if !Moves(s, event, states[i], press) {
        DownByLatestPress(states, events, i - 1, press);
      }
    }
  }

  lemma NoneYet(states: seq<ServerState>, events: seq<ServerEvent>, press: ClientMessage)
    requires |states| == |events| + 1 && Initial(states[0]) && IsPress(press)
    ensures !DownIn(states[0].backend, press) && forall j: nat :: !LatestMove(states, events, 0, press, j)
  {
  }

  lemma LatestMoveOneLater(states: seq<ServerState>, events: seq<ServerEvent>, i: nat, press: ClientMessage, j: nat)
    requires 0 < i <= |events| && |states| == |events| + 1 && IsPress(press)
    ensures LatestMove(states, events, i, press, j) <==>
            if Moves(states[i - 1], events[i - 1], states[i], press) then j == i - 1
            else LatestMove(states, events, i - 1, press, j)
  {
    hide Moves;
  }

  lemma DownAfterEvent(s: ServerState, event: ServerEvent, s': ServerState, press: ClientMessage)
    requires Step(s, event, s') && IsPress(press)
    ensures DownIn(s'.backend, press) <==>
            if Moves(s, event, s', press) then Read(s, event).Some? && IsPress(Read(s, event).value)
            else DownIn(s.backend, press)
  {
    hide Lifted, ReleasesAt, AfterPacket, AfterMaintenance, Decision, Admitted, Inserted, Read, Moves, DownIn;
    match event
    case Packet(_, _, _, _) => PacketMoves(s, event, s', press);
    case Handshake(_, _, _, _, _) => HandshakeMoves(s, event, s', press);
    case Maintenance(_) => MaintenanceMoves(s, event, s', press);
    case ForgetAll(_) => EndMoves(s, event, s', press);
    case Shutdown => EndMoves(s, event, s', press);
    case _ => NothingMoves(s, event, s', press);
  }

  lemma PacketMoves(s: ServerState, event: ServerEvent, s': ServerState, press: ClientMessage)
    requires event.Packet? && Step(s, event, s') && IsPress(press)
    ensures Moves(s, event, s', press) <==> Read(s, event).Some? && SameInput(Read(s, event).value, press)
    ensures DownIn(s'.backend, press) <==>
            if Moves(s, event, s', press) then IsPress(Read(s, event).value) else DownIn(s.backend, press)
  {
    hide Received, Decoded, Applied, Observed, SameInput, DownIn, HoldsInput;
    PacketEndsNone(s, event, s');
    if Read(s, event).Some? {
      DownAfterMessage(s.backend, Read(s, event).value, press);
    }
  }

  lemma DownAfterMessage(backend: Backend, message: ClientMessage, press: ClientMessage)
    requires IsPress(press)
    ensures DownIn(Applied(backend, message), press) <==>
            if SameInput(message, press) then IsPress(message) else DownIn(backend, press)
  {
    hide DownAfter, KeyboardEvents;
  }

  // Releasing what the sessions at `addresses` hold.
  lemma DownAfterReleases(backend: Backend, table: Table, addresses: set<Address>, press: ClientMessage)
    requires IsPress(press)
    ensures DownIn(Lifted(backend, ReleasesAt(table, addresses)), press) <==>
            && DownIn(backend, press)
            && !exists a <- table :: a in addresses && HoldsInput(table[a].held, press)
  {
    var releases := ReleasesAt(table, addresses);
    if exists a <- table :: a in addresses && HoldsInput(table[a].held, press) {
      var a :| a in table && a in addresses && HoldsInput(table[a].held, press);
      var held := table[a].held;
      var release := if press.KeyPress? then KeyRelease(press.keycode, held.keys[press.keycode])
                     else MouseButton(press.button, false);
      assert release in ReleasesOf(held);
      assert release in releases;
    }
  }

  lemma HandshakeMoves(s: ServerState, event: ServerEvent, s': ServerState, press: ClientMessage)
    requires event.Handshake? && Step(s, event, s') && IsPress(press)
    ensures Read(s, event).None?
    ensures DownIn(s'.backend, press) <==> !Moves(s, event, s', press) && DownIn(s.backend, press)
  {
    hide Lifted, ReleasesAt, Decision, Admitted, Inserted, DownIn, HoldsInput;
    if Decision(s.pairing, event.client, event.token, event.now) != Rejected {
      var session := SessionState(event.client, event.now, NOTHING, event.receiveKey, {});
      var dropped: set<Address> :|
        && Inserted(s.sessions, s.config.maxSessions, event.address, session, s'.sessions, dropped)
        && s'.backend == Lifted(s.backend, ReleasesAt(s.sessions, dropped));
      InsertedThere(s.sessions, s.config.maxSessions, event.address, session, s'.sessions, dropped);
      DroppedIsOldest(s.sessions, s.config.maxSessions, event.address, session, s'.sessions, dropped, event.address);
      DownAfterReleases(s.backend, s.sessions, dropped, press);
      assert forall a <- s.sessions :: LetsGoOf(s, event, s', a) <==> a in dropped;
    }
  }

  lemma MaintenanceMoves(s: ServerState, event: ServerEvent, s': ServerState, press: ClientMessage)
    requires event.Maintenance? && Step(s, event, s') && IsPress(press)
    ensures Read(s, event).None?
    ensures DownIn(s'.backend, press) <==> !Moves(s, event, s', press) && DownIn(s.backend, press)
  {
    var idle := Silent(s.sessions, event.now, s.config.sessionIdleTimeout);
    var live := s.sessions - idle;
    var quiet := Silent(live, event.now, s.config.heldInputTimeout);
    hide Lifted, ReleasesAt, DownIn, HoldsInput;
    LiftedTwice(s.backend, ReleasesAt(s.sessions, idle), ReleasesAt(live, quiet));
    DownAfterReleases(s.backend, s.sessions, idle, press);
    DownAfterReleases(Lifted(s.backend, ReleasesAt(s.sessions, idle)), live, quiet, press);
    assert s'.sessions.Keys == live.Keys;
    assert forall a <- s.sessions :: LetsGoOf(s, event, s', a) <==> a in idle || a in quiet;
  }

  lemma EndMoves(s: ServerState, event: ServerEvent, s': ServerState, press: ClientMessage)
    requires (event.ForgetAll? || event.Shutdown?) && Step(s, event, s') && IsPress(press)
    ensures Read(s, event).None?
    ensures DownIn(s'.backend, press) <==> !Moves(s, event, s', press) && DownIn(s.backend, press)
  {
    hide Lifted, ReleasesAt, DownIn, HoldsInput, AfterPacket, AfterMaintenance;
    DownAfterReleases(s.backend, s.sessions, s.sessions.Keys, press);
  }

  lemma NothingMoves(s: ServerState, event: ServerEvent, s': ServerState, press: ClientMessage)
    requires event.OpenPairing? || event.ClosePairing? || event.CreateInvite?
    requires Step(s, event, s') && IsPress(press)
    ensures Read(s, event).None?
    ensures !Moves(s, event, s', press) && (DownIn(s'.backend, press) <==> DownIn(s.backend, press))
  {
  }
}
