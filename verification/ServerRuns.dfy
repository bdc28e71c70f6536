// What holds in every run of the server: nothing stays pressed without somebody holding it, only
// paired devices are connected, and no packet acts twice.
module ServerRuns {
  import opened Wrappers
  import opened Messages
  import opened Replay
  import opened Delivery
  import opened Protocol
  import opened Holds
  import opened Sessions
  import opened Pairings
  import opened Keymap
  import opened LinuxInput
  import opened KeysDown
  import opened InputBackend
  import opened Server

  // ── Runs ─────────────────────────────────────────────────────────────

  ghost predicate Initial(s: ServerState) {
    && s.sessions == map[]
    && s.backend.keys == {} && s.backend.buttons == {} && s.backend.codes == {}
  }

  // The states before and after each event of `events`.
  ghost predicate Run(states: seq<ServerState>, events: seq<ServerEvent>) {
    && |states| == |events| + 1
    && Initial(states[0])
    && forall i :: 0 <= i < |events| ==> Step(states[i], events[i], states[i + 1])
  }

  // ── Nothing is left pressed ──────────────────────────────────────────

  predicate KeyHeld(table: Table, key: U16) {
    exists a <- table :: key in table[a].held.keys
  }

  predicate ButtonHeld(table: Table, button: MouseButtonKind) {
    exists a <- table :: button in table[a].held.buttons
  }

  // Whatever is down is in the record of some live session.
  predicate Covered(table: Table, backend: Backend) {
    && (forall k <- backend.keys :: KeyHeld(table, k))
    && (forall b <- backend.buttons :: ButtonHeld(table, b))
  }

  // `table'` has the sessions of `table` outside `addresses`, holding what they held.
  predicate KeepsOthers(table: Table, addresses: set<Address>, table': Table) {
    forall a <- table :: a !in addresses ==> a in table' && table'[a].held == table[a].held
  }

  // Sessions may be dropped or emptied as long as what they held is released.
  lemma ReleasingKeepsCovered(table: Table, backend: Backend, addresses: set<Address>, table': Table)
    requires Covered(table, backend) && KeepsOthers(table, addresses, table')
    ensures Covered(table', Lifted(backend, ReleasesAt(table, addresses)))
  {
    var lifted := Lifted(backend, ReleasesAt(table, addresses));
    hide Lifted, ReleasesAt;
    forall k | k in lifted.keys ensures KeyHeld(table', k) {
      StillDownKey(table, backend, addresses, k);
      var a :| a in table && a !in addresses && k in table[a].held.keys;
      assert a in table' && k in table'[a].held.keys;
    }
    forall b | b in lifted.buttons ensures ButtonHeld(table', b) {
      StillDownButton(table, backend, addresses, b);
      var a :| a in table && a !in addresses && b in table[a].held.buttons;
      assert a in table' && b in table'[a].held.buttons;
    }
  }

  // A key that stays down through the releases of `addresses` is held elsewhere.
  lemma StillDownKey(table: Table, backend: Backend, addresses: set<Address>, key: U16)
    requires Covered(table, backend) && key in Lifted(backend, ReleasesAt(table, addresses)).keys
    ensures exists a :: a in table && a !in addresses && key in table[a].held.keys
  {
    assert KeyHeld(table, key);
    var a :| a in table && key in table[a].held.keys;
    var release := KeyRelease(key, table[a].held.keys[key]);
    assert release in ReleasesOf(table[a].held);
    assert a in addresses ==>
      release in ReleasesAt(table, addresses) && key in KeysOfReleases(ReleasesAt(table, addresses));
  }

  lemma StillDownButton(table: Table, backend: Backend, addresses: set<Address>, button: MouseButtonKind)
    requires Covered(table, backend) && button in Lifted(backend, ReleasesAt(table, addresses)).buttons
    ensures exists a :: a in table && a !in addresses && button in table[a].held.buttons
  {
    assert ButtonHeld(table, button);
    var a :| a in table && button in table[a].held.buttons;
    var release := MouseButton(button, false);
    assert release in ReleasesOf(table[a].held);
    assert a in addresses ==>
      release in ReleasesAt(table, addresses) && button in ButtonsOfReleases(ReleasesAt(table, addresses));
  }

  lemma MessageKeepsCovered(table: Table, backend: Backend, address: Address, session: SessionState,
                            message: ClientMessage)
    requires Covered(table, backend) && address in table && session.held == Observed(table[address].held, message)
    ensures Covered(table[address := session], Applied(backend, message))
  {
    OnlyPressesPress(backend, message);
    ReleasesRelease(backend, message);
    var table' := table[address := session];
    hide Applied;
    forall k | k in Applied(backend, message).keys ensures KeyHeld(table', k) {
      if message.KeyPress? && k == message.keycode {
        assert address in table' && k in table'[address].held.keys;
      } else {
        assert KeyHeld(table, k);
        var a :| a in table && k in table[a].held.keys;
        assert a in table' && k in table'[a].held.keys;
      }
    }
    forall b | b in Applied(backend, message).buttons ensures ButtonHeld(table', b) {
      if message.MouseButton? && b == message.button {
        assert address in table' && b in table'[address].held.buttons;
      } else {
        assert ButtonHeld(table, b);
        var a :| a in table && b in table[a].held.buttons;
        assert a in table' && b in table'[a].held.buttons;
      }
    }
  }

  lemma ReleasesRelease(backend: Backend, message: ClientMessage)
    ensures message.KeyRelease? ==> message.keycode !in Applied(backend, message).keys
    ensures message.MouseButton? && !message.pressed ==> message.button !in Applied(backend, message).buttons
  {
  }

  lemma HeardKeepsCovered(table: Table, backend: Backend, address: Address, session: SessionState)
    requires Covered(table, backend) && address in table && session.held == table[address].held
    ensures Covered(table[address := session], backend)
  {
    var table' := table[address := session];
    forall k | k in backend.keys ensures KeyHeld(table', k) {
      assert KeyHeld(table, k);
      var a :| a in table && k in table[a].held.keys;
      assert a in table' && k in table'[a].held.keys;
    }
    forall b | b in backend.buttons ensures ButtonHeld(table', b) {
      assert ButtonHeld(table, b);
      var a :| a in table && b in table[a].held.buttons;
      assert a in table' && b in table'[a].held.buttons;
    }
  }

  lemma InsertedKeepsOthers(table: Table, cap: Cap, address: Address, session: SessionState,
                            table': Table, dropped: set<Address>)
    requires Inserted(table, cap, address, session, table', dropped)
    ensures KeepsOthers(table, dropped, table')
  {
  }

  lemma MaintenanceKeepsCovered(s: ServerState, now: Time)
    requires Covered(s.sessions, s.backend)
    ensures Covered(AfterMaintenance(s, now).sessions, AfterMaintenance(s, now).backend)
  {
    var idle := Silent(s.sessions, now, s.config.sessionIdleTimeout);
    var live := s.sessions - idle;
    var quiet := Silent(live, now, s.config.heldInputTimeout);
    hide Covered, Lifted, ReleasesAt, Silent;
    ReleasingKeepsCovered(s.sessions, s.backend, idle, live);
    ReleasingKeepsCovered(live, Lifted(s.backend, ReleasesAt(s.sessions, idle)), quiet, LetGo(live, quiet));
    LiftedTwice(s.backend, ReleasesAt(s.sessions, idle), ReleasesAt(live, quiet));
  }

  lemma StepKeepsCovered(s: ServerState, event: ServerEvent, s': ServerState)
    requires Step(s, event, s') && Covered(s.sessions, s.backend)
    ensures Covered(s'.sessions, s'.backend)
  {
    hide Covered, Lifted, ReleasesAt, Inserted, AfterMaintenance, Decision, Admitted, Received, Decoded, Applied,
         Observed;
    match event
    case Handshake(address, client, token, receiveKey, now) =>
      if Decision(s.pairing, client, token, now) != Rejected {
        var session := SessionState(client, now, NOTHING, receiveKey, {});
        var dropped: set<Address> :| Inserted(s.sessions, s.config.maxSessions, address, session, s'.sessions, dropped)
          && s'.backend == Lifted(s.backend, ReleasesAt(s.sessions, dropped));
        InsertedKeepsOthers(s.sessions, s.config.maxSessions, address, session, s'.sessions, dropped);
        ReleasingKeepsCovered(s.sessions, s.backend, dropped, s'.sessions);
      }
    case Packet(address, nonce, ciphertext, now) =>
      if address in s.sessions {
        var session := s.sessions[address];
        match Received(session.receiveKey, session.accepted, nonce, ciphertext)
        case Plaintext(bytes) =>
          match Decoded(bytes) {
            case Err(_) => HeardKeepsCovered(s.sessions, s.backend, address, s'.sessions[address]);
            case Ok(message) => MessageKeepsCovered(s.sessions, s.backend, address, s'.sessions[address], message);
          }
        case _ =>
      }
    case Maintenance(now) => MaintenanceKeepsCovered(s, now);
    case ForgetAll(saved) =>
      if saved {
        ReleasingKeepsCovered(s.sessions, s.backend, s.sessions.Keys, map[]);
      }
    case Shutdown =>
      ReleasingKeepsCovered(s.sessions, s.backend, s.sessions.Keys, s'.sessions);
    case _ =>
  }

  // In every run, every key and button that is down is held by a live session.
  lemma {:induction false} NothingStuck(states: seq<ServerState>, events: seq<ServerEvent>, i: nat)
    requires Run(states, events) && i < |states|
    ensures Covered(states[i].sessions, states[i].backend)
  {
    hide Step, Covered;
    if i == 0 {
      InitiallyCovered(states[0]);
    } else {
      NothingStuck(states, events, i - 1);
      StepKeepsCovered(states[i - 1], events[i - 1], states[i]);
    }
  }

  lemma InitiallyCovered(s: ServerState)
    requires Initial(s)
    ensures Covered(s.sessions, s.backend) && CodesCovered(s.sessions, s.backend)
  {
  }

  // The sessions heard from within both timeouts.
  function Recent(table: Table, now: Time, config: Config): Table {
    map a | a in table && !SilentFor(table[a].lastSeen, now, config.heldInputTimeout)
                       && !SilentFor(table[a].lastSeen, now, config.sessionIdleTimeout) :: table[a]
  }

  // After a housekeeping pass, by a session heard from recently.
  lemma AfterMaintenanceOnlyRecentHolds(states: seq<ServerState>, events: seq<ServerEvent>, i: nat)
    requires Run(states, events) && i < |events| && events[i].Maintenance?
    ensures Covered(Recent(states[i + 1].sessions, events[i].now, states[i].config), states[i + 1].backend)
  {
    var s, s' := states[i], states[i + 1];
    NothingStuck(states, events, i + 1);
    assert Step(s, events[i], s');
    var recent := Recent(s'.sessions, events[i].now, s.config);
    forall a | a in s'.sessions && a !in recent ensures s'.sessions[a].held == NOTHING {
      OthersHoldNothing(s, events[i].now, a);
    }
    CoveredByHolders(s'.sessions, recent, s'.backend);
  }

  lemma OthersHoldNothing(s: ServerState, now: Time, address: Address)
    requires address in AfterMaintenance(s, now).sessions
    requires address !in Recent(AfterMaintenance(s, now).sessions, now, s.config)
    ensures AfterMaintenance(s, now).sessions[address].held == NOTHING
  {
  }

  lemma CoveredByHolders(table: Table, part: Table, backend: Backend)
    requires Covered(table, backend)
    requires forall a <- table :: if a in part then part[a] == table[a] else table[a].held == NOTHING
    ensures Covered(part, backend)
  {
    forall k | k in backend.keys ensures KeyHeld(part, k) {
      assert KeyHeld(table, k);
      var a :| a in table && k in table[a].held.keys;
      assert a in part;
    }
    forall b | b in backend.buttons ensures ButtonHeld(part, b) {
      assert ButtonHeld(table, b);
      var a :| a in table && b in table[a].held.buttons;
      assert a in part;
    }
  }

  // After shutdown, and after every device is forgotten, nothing is down.
  lemma NothingDownAtTheEnd(states: seq<ServerState>, events: seq<ServerEvent>, i: nat)
    requires Run(states, events) && i < |events|
    requires events[i].Shutdown? || events[i] == ForgetAll(true)
    ensures states[i + 1].backend.keys == {} && states[i + 1].backend.buttons == {}
  {
    var s' := states[i + 1];
    NothingStuck(states, events, i + 1);
    assert Step(states[i], events[i], s');
    NobodyHolds(s'.sessions, s'.backend);
  }

  lemma NobodyHolds(table: Table, backend: Backend)
    requires Covered(table, backend) && forall a <- table :: table[a].held == NOTHING
    ensures backend.keys == {} && backend.buttons == {}
  {
    assert forall k :: !KeyHeld(table, k);
    assert forall b :: !ButtonHeld(table, b);
  }

  // ── Modifiers ────────────────────────────────────────────────────────

  predicate CodeHeld(table: Table, code: KeyCode) {
    exists a <- table :: CodeHeldBy(table[a].held, code)
  }

  predicate CodeHeldBy(held: Held, code: KeyCode) {
    exists k <- held.keys :: code in CodesOf(k, held.keys[k])
  }

  // Each evdev code that is down belongs to a held key or the modifiers it was pressed with.
  predicate CodesCovered(table: Table, backend: Backend) {
    forall c <- backend.codes :: CodeHeld(table, c)
  }

  // A key message about a key that the session holds: what the recorded press put down, is still down
  // and the message does not name, somebody holds afterwards.
  ghost predicate Disciplined(table: Table, backend: Backend, address: Address, message: ClientMessage)
    requires address in table
  {
    var held := table[address].held;
    var after := table[address := table[address].(held := Observed(held, message))];
    (message.KeyPress? || message.KeyRelease?) && message.keycode in held.keys ==>
      forall c :: c in backend.codes && c in CodesOf(message.keycode, held.keys[message.keycode])
                  && c !in CodesOf(message.keycode, message.mods)
                  ==> CodeHeld(after, c)
  }

  ghost predicate DisciplinedEvent(s: ServerState, event: ServerEvent) {
    event.Packet? && event.address in s.sessions ==>
      var session := s.sessions[event.address];
      match Received(session.receiveKey, session.accepted, event.nonce, event.ciphertext)
      case Plaintext(bytes) =>
        (match Decoded(bytes)
         case Ok(message) => Disciplined(s.sessions, s.backend, event.address, message)
         case Err(_) => true)
      case _ => true
  }

  lemma StillDownCode(table: Table, backend: Backend, addresses: set<Address>, code: KeyCode)
    requires CodesCovered(table, backend) && code in Lifted(backend, ReleasesAt(table, addresses)).codes
    ensures exists a :: a in table && a !in addresses && CodeHeldBy(table[a].held, code)
  {
    hide CodesOf;
    assert CodeHeld(table, code);
    var a :| a in table && CodeHeldBy(table[a].held, code);
    var k :| k in table[a].held.keys && code in CodesOf(k, table[a].held.keys[k]);
    var release := KeyRelease(k, table[a].held.keys[k]);
    assert release in ReleasesOf(table[a].held);
    assert a in addresses ==>
      release in ReleasesAt(table, addresses) && code in CodesOfReleases(ReleasesAt(table, addresses));
  }

  lemma ReleasingKeepsCodes(table: Table, backend: Backend, addresses: set<Address>, table': Table)
    requires CodesCovered(table, backend) && KeepsOthers(table, addresses, table')
    ensures CodesCovered(table', Lifted(backend, ReleasesAt(table, addresses)))
  {
    var lifted := Lifted(backend, ReleasesAt(table, addresses));
    hide Lifted, ReleasesAt, CodeHeldBy;
    forall c | c in lifted.codes ensures CodeHeld(table', c) {
      StillDownCode(table, backend, addresses, c);
      var a :| a in table && a !in addresses && CodeHeldBy(table[a].held, c);
      assert a in table' && CodeHeldBy(table'[a].held, c);
    }
  }

  // What a key press and a key release do, without the events.
  lemma AppliedKey(backend: Backend, usage: U16, mods: U8)
    ensures Applied(backend, KeyPress(usage, mods))
            == backend.(keys := backend.keys + {usage}, codes := backend.codes + CodesOf(usage, mods))
    ensures Applied(backend, KeyRelease(usage, mods))
            == backend.(keys := backend.keys - {usage}, codes := backend.codes - CodesOf(usage, mods))
  {
    hide CodesOf, KeyEventsOf, DownAfter;
    DownAfterKey(backend.codes, usage, mods, true);
    DownAfterKey(backend.codes, usage, mods, false);
  }

  lemma ReleaseLiftsCodes(backend: Backend, message: ClientMessage)
    ensures message.KeyRelease? ==> Applied(backend, message).codes !! CodesOf(message.keycode, message.mods)
  {
    hide CodesOf;
    if message.KeyRelease? {
      AppliedKey(backend, message.keycode, message.mods);
    }
  }

  // What stays held through a message by its own session.
  lemma HeldCodeStays(held: Held, message: ClientMessage, code: KeyCode)
    requires CodeHeldBy(held, code)
    requires message.KeyRelease? ==> code !in CodesOf(message.keycode, message.mods)
    ensures || CodeHeldBy(Observed(held, message), code)
            || ((message.KeyPress? || message.KeyRelease?) && message.keycode in held.keys
                && code in CodesOf(message.keycode, held.keys[message.keycode])
                && code !in CodesOf(message.keycode, message.mods))
  {
    hide CodesOf;
    var k :| k in held.keys && code in CodesOf(k, held.keys[k]);
    var held' := Observed(held, message);
    if !((message.KeyPress? || message.KeyRelease?) && message.keycode == k) {
      assert k in held'.keys && code in CodesOf(k, held'.keys[k]);
    } else if message.KeyPress? {
      assert code in CodesOf(k, message.mods) ==> k in held'.keys && code in CodesOf(k, held'.keys[k]);
    }
  }

  // Only who holds what matters for the codes, not when it was last heard from.
  lemma SameHolders(table: Table, address: Address, session: SessionState, session': SessionState, code: KeyCode)
    requires session.held == session'.held
    ensures CodeHeld(table[address := session], code) <==> CodeHeld(table[address := session'], code)
  {
    hide CodeHeldBy;
    var one, other := table[address := session], table[address := session'];
    if CodeHeld(one, code) {
      var a :| a in one && CodeHeldBy(one[a].held, code);
      assert a in other && CodeHeldBy(other[a].held, code);
    }
    if CodeHeld(other, code) {
      var a :| a in other && CodeHeldBy(other[a].held, code);
      assert a in one && CodeHeldBy(one[a].held, code);
    }
  }

  lemma DisciplinedKeepsCodes(table: Table, backend: Backend, address: Address, message: ClientMessage)
    requires CodesCovered(table, backend) && address in table && Disciplined(table, backend, address, message)
    ensures CodesCovered(table[address := table[address].(held := Observed(table[address].held, message))],
                         Applied(backend, message))
  {
    OnlyPressesPress(backend, message);
    ReleaseLiftsCodes(backend, message);
    var session := table[address].(held := Observed(table[address].held, message));
    var table' := table[address := session];
    hide Applied, CodesOf;
    forall c | c in Applied(backend, message).codes ensures CodeHeld(table', c) {
      if message.KeyPress? && c in CodesOf(message.keycode, message.mods) {
        assert message.keycode in session.held.keys && session.held.keys[message.keycode] == message.mods;
        assert address in table' && CodeHeldBy(table'[address].held, c);
      } else {
        assert CodeHeld(table, c);
        var a :| a in table && CodeHeldBy(table[a].held, c);
        if a == address {
          HeldCodeStays(table[a].held, message, c);
          assert CodeHeldBy(table'[address].held, c) ==> CodeHeld(table', c);
        } else {
          assert a in table' && CodeHeldBy(table'[a].held, c);
        }
      }
    }
  }

  lemma UnnamedCodeStaysDown(backend: Backend, message: ClientMessage, code: KeyCode)
    requires message.KeyPress? || message.KeyRelease?
    requires code in backend.codes && code !in CodesOf(message.keycode, message.mods)
    ensures code in Applied(backend, message).codes
  {
    hide CodesOf;
    AppliedKey(backend, message.keycode, message.mods);
  }

  // A message keeps every code that is down covered if and only if it is disciplined.
  lemma MessageKeepsCodes(table: Table, backend: Backend, address: Address, session: SessionState,
                          message: ClientMessage)
    requires CodesCovered(table, backend) && address in table && session.held == Observed(table[address].held, message)
    ensures CodesCovered(table[address := session], Applied(backend, message)) <==>
            Disciplined(table, backend, address, message)
  {
    var after := table[address].(held := session.held);
    var table' := table[address := session];
    hide Applied, CodesOf, CodeHeld, Observed;
    forall c ensures CodeHeld(table', c) <==> CodeHeld(table[address := after], c) {
      SameHolders(table, address, session, after, c);
    }
    if Disciplined(table, backend, address, message) {
      DisciplinedKeepsCodes(table, backend, address, message);
    } else {
      var held := table[address].held;
      var c :| c in backend.codes && c in CodesOf(message.keycode, held.keys[message.keycode])
               && c !in CodesOf(message.keycode, message.mods) && !CodeHeld(table[address := after], c);
      UnnamedCodeStaysDown(backend, message, c);
    }
  }

  lemma HeardKeepsCodes(table: Table, backend: Backend, address: Address, session: SessionState)
    requires CodesCovered(table, backend) && address in table && session.held == table[address].held
    ensures CodesCovered(table[address := session], backend)
  {
    hide CodeHeldBy;
    var table' := table[address := session];
    forall c | c in backend.codes ensures CodeHeld(table', c) {
      assert CodeHeld(table, c);
      var a :| a in table && CodeHeldBy(table[a].held, c);
      assert a in table' && CodeHeldBy(table'[a].held, c);
    }
  }

  lemma MaintenanceKeepsCodes(s: ServerState, now: Time)
    requires CodesCovered(s.sessions, s.backend)
    ensures CodesCovered(AfterMaintenance(s, now).sessions, AfterMaintenance(s, now).backend)
  {
    var idle := Silent(s.sessions, now, s.config.sessionIdleTimeout);
    var live := s.sessions - idle;
    var quiet := Silent(live, now, s.config.heldInputTimeout);
    hide CodesCovered, Lifted, ReleasesAt, Silent;
    ReleasingKeepsCodes(s.sessions, s.backend, idle, live);
    ReleasingKeepsCodes(live, Lifted(s.backend, ReleasesAt(s.sessions, idle)), quiet, LetGo(live, quiet));
    LiftedTwice(s.backend, ReleasesAt(s.sessions, idle), ReleasesAt(live, quiet));
  }

  // A step keeps every code that is down covered if and only if it is disciplined.
  lemma StepKeepsCodes(s: ServerState, event: ServerEvent, s': ServerState)
    requires Step(s, event, s') && CodesCovered(s.sessions, s.backend)
    ensures CodesCovered(s'.sessions, s'.backend) <==> DisciplinedEvent(s, event)
  {
    hide CodesCovered, Lifted, ReleasesAt, Inserted, AfterMaintenance, Decision, Admitted, Received, Decoded,
         Applied, Observed, Disciplined;
    match event
    case Handshake(address, client, token, receiveKey, now) =>
      if Decision(s.pairing, client, token, now) != Rejected {
        var session := SessionState(client, now, NOTHING, receiveKey, {});
        var dropped: set<Address> :| Inserted(s.sessions, s.config.maxSessions, address, session, s'.sessions, dropped)
          && s'.backend == Lifted(s.backend, ReleasesAt(s.sessions, dropped));
        InsertedKeepsOthers(s.sessions, s.config.maxSessions, address, session, s'.sessions, dropped);
        ReleasingKeepsCodes(s.sessions, s.backend, dropped, s'.sessions);
      }
    case Packet(address, nonce, ciphertext, now) =>
      if address in s.sessions {
        var session := s.sessions[address];
        match Received(session.receiveKey, session.accepted, nonce, ciphertext)
        case Plaintext(bytes) =>
          match Decoded(bytes) {
            case Err(_) => HeardKeepsCodes(s.sessions, s.backend, address, s'.sessions[address]);
            case Ok(message) => MessageKeepsCodes(s.sessions, s.backend, address, s'.sessions[address], message);
          }
        case _ =>
      }
    case Maintenance(now) => MaintenanceKeepsCodes(s, now);
    case ForgetAll(saved) =>
      if saved {
        ReleasingKeepsCodes(s.sessions, s.backend, s.sessions.Keys, map[]);
      }
    case Shutdown =>
      ReleasingKeepsCodes(s.sessions, s.backend, s.sessions.Keys, s'.sessions);
    case _ =>
  }

  ghost predicate CoveredThrough(states: seq<ServerState>, n: nat)
    requires n < |states|
  {
    forall i :: 0 <= i <= n ==> CodesCovered(states[i].sessions, states[i].backend)
  }

  // In every run each kernel key code that is down stays that of a held key or its modifiers for
  // exactly as long as every packet is disciplined.
  lemma {:induction false} NoCodeStuck(states: seq<ServerState>, events: seq<ServerEvent>, n: nat)
    requires Run(states, events) && n < |states|
    ensures CoveredThrough(states, n) <==> forall i :: 0 <= i < n ==> DisciplinedEvent(states[i], events[i])
  {
    hide Step, CodesCovered, DisciplinedEvent;
    if n == 0 {
      InitiallyCovered(states[0]);
    } else {
      NoCodeStuck(states, events, n - 1);
      assert CoveredThrough(states, n)
        <==> CoveredThrough(states, n - 1) && CodesCovered(states[n].sessions, states[n].backend);
      if CoveredThrough(states, n - 1) {
        StepKeepsCodes(states[n - 1], events[n - 1], states[n]);
      }
    }
  }

  ghost predicate DisciplinedRun(states: seq<ServerState>, events: seq<ServerEvent>) {
    Run(states, events) && forall i :: 0 <= i < |events| ==> DisciplinedEvent(states[i], events[i])
  }

  lemma NoCodeDownAtTheEnd(states: seq<ServerState>, events: seq<ServerEvent>, i: nat)
    requires DisciplinedRun(states, events) && i < |events|
    requires events[i].Shutdown? || events[i] == ForgetAll(true)
    ensures states[i + 1].backend.codes == {}
  {
    var s' := states[i + 1];
    NoCodeStuck(states, events, i + 1);
    assert CodesCovered(s'.sessions, s'.backend);
    assert Step(states[i], events[i], s');
    assert forall c :: !CodeHeld(s'.sessions, c);
  }

  // Shutdown and a saved forgetting leave no code down if and only if each was covered just before.
  lemma EndIsCleanIfCovered(s: ServerState, event: ServerEvent, s': ServerState)
    requires Step(s, event, s') && (event.Shutdown? || event == ForgetAll(true))
    ensures s'.backend.codes == {} <==> CodesCovered(s.sessions, s.backend)
  {
    hide ReleasesAt, CodesOf;
    forall c ensures c in CodesOfReleases(ReleasesAt(s.sessions, s.sessions.Keys)) <==> CodeHeld(s.sessions, c) {
      ReleasedIsHeld(s.sessions, c);
    }
    assert forall c :: c in s'.backend.codes <==> c in s.backend.codes && !CodeHeld(s.sessions, c);
  }

  lemma ReleasedIsHeld(table: Table, code: KeyCode)
    ensures code in CodesOfReleases(ReleasesAt(table, table.Keys)) <==> CodeHeld(table, code)
  {
    hide CodesOf;
    if CodeHeld(table, code) {
      var a :| a in table && CodeHeldBy(table[a].held, code);
      var k :| k in table[a].held.keys && code in CodesOf(k, table[a].held.keys[k]);
      var release := KeyRelease(k, table[a].held.keys[k]);
      assert release in ReleasesOf(table[a].held);
      assert release in ReleasesAt(table, table.Keys);
    }
    if code in CodesOfReleases(ReleasesAt(table, table.Keys)) {
      var m :| m in ReleasesAt(table, table.Keys) && m.KeyRelease? && code in CodesOf(m.keycode, m.mods);
      var a :| a in table && m in ReleasesOf(table[a].held);
      assert m.keycode in table[a].held.keys && m.mods == table[a].held.keys[m.keycode];
      assert CodeHeldBy(table[a].held, code);
    }
  }

  // A phone that presses a held key again, and releases it, with at least the modifiers of its press is
  // disciplined whatever else is down.
  lemma SameModifiersAreDisciplined(table: Table, backend: Backend, address: Address, message: ClientMessage)
    requires address in table
    requires (message.KeyPress? || message.KeyRelease?) && message.keycode in table[address].held.keys ==>
               forall bit :: 0 <= bit < 8 && HasModifier(table[address].held.keys[message.keycode], bit)
                             ==> HasModifier(message.mods, bit)
    ensures Disciplined(table, backend, address, message)
  {
    hide CodeHeld, CodesOf, HasModifier, HidToEvdev;
    var held := table[address].held;
    if (message.KeyPress? || message.KeyRelease?) && message.keycode in held.keys {
      ReleaseUndoesPress(message.keycode, held.keys[message.keycode], message.mods);
    }
  }

  // Without that discipline a modifier stays down that nobody holds: a key pressed and released on
  // an idle computer leaves nothing down if and only if the key has no code or each modifier of
  // the press is a modifier of the release or the key itself.
  lemma PressAndReleaseLeaveNothing(backend: Backend, usage: U16, mods: U8, mods': U8)
    requires backend.codes == {}
    ensures Applied(Applied(backend, KeyPress(usage, mods)), KeyRelease(usage, mods')).codes == {} <==>
            HidToEvdev(usage).None? ||
            forall bit :: 0 <= bit < 8 && HasModifier(mods, bit) ==> HasModifier(mods', bit) || usage == 0xE0 + bit
  {
    hide HidToEvdev, CodesOf, HasModifier, Applied;
    var pressed := Applied(backend, KeyPress(usage, mods));
    AppliedKey(backend, usage, mods);
    AppliedKey(pressed, usage, mods');
    assert pressed.codes == CodesOf(usage, mods);
    ReleaseUndoesPress(usage, mods, mods');
    var left := pressed.codes - CodesOf(usage, mods');
    assert left == {} <==> CodesOf(usage, mods) <= CodesOf(usage, mods');
  }

  // Left Control held for the press of A and not for its release.
  lemma StuckControl(backend: Backend)
    requires backend.codes == {} && backend.keys == {}
    ensures var after := Applied(Applied(backend, KeyPress(0x04, 0x01)), KeyRelease(0x04, 0x00));
            after.keys == {} && after.codes == {KEY_LEFTCTRL}
  {
    hide Applied, CodesOf;
    var pressed := Applied(backend, KeyPress(0x04, 0x01));
    AppliedKey(backend, 0x04, 0x01);
    AppliedKey(pressed, 0x04, 0x00);
    ControlA();
    assert {KEY_LEFTCTRL, KEY_A} - {KEY_A} == {KEY_LEFTCTRL};
  }

  // Left Control held for the first press of A and not for the second: the release names all that the
  // record has, and Control stays down.
  lemma StuckAfterPressingAgain(backend: Backend)
    requires backend.codes == {} && backend.keys == {}
    ensures var again := Applied(Applied(backend, KeyPress(0x04, 0x01)), KeyPress(0x04, 0x00));
            var after := Applied(again, KeyRelease(0x04, 0x00));
            && Observed(Observed(NOTHING, KeyPress(0x04, 0x01)), KeyPress(0x04, 0x00)).keys[0x04] == 0x00
            && after.keys == {} && after.codes == {KEY_LEFTCTRL}
  {
    hide Applied, CodesOf;
    var pressed := Applied(backend, KeyPress(0x04, 0x01));
    var again := Applied(pressed, KeyPress(0x04, 0x00));
    AppliedKey(backend, 0x04, 0x01);
    AppliedKey(pressed, 0x04, 0x00);
    AppliedKey(again, 0x04, 0x00);
    ControlA();
    assert {KEY_LEFTCTRL, KEY_A} + {KEY_A} - {KEY_A} == {KEY_LEFTCTRL};
  }

  lemma ControlA()
    ensures CodesOf(0x04, 0x01) == {KEY_LEFTCTRL, KEY_A}
    ensures CodesOf(0x04, 0x00) == {KEY_A}
  {
    LettersAndControl();
    hide HidToEvdev, ModifierUsages;
    forall c ensures c in ModifierCodes(1) <==> c == KEY_LEFTCTRL {
      FewModifiers(1);
      EvdevCodesHas(ModifierUsages(1), c);
    }
    forall c ensures c !in ModifierCodes(0) {
      FewModifiers(0);
      EvdevCodesHas(ModifierUsages(0), c);
    }
  }

  lemma LettersAndControl()
    ensures HidToEvdev(0x04) == Some(KEY_A) && HidToEvdev(0xE0) == Some(KEY_LEFTCTRL)
  {
  }

  // No modifiers, and Left Control alone.
  lemma FewModifiers(mods: Modifiers)
    requires mods < 2
    ensures forall u :: u in ModifierUsages(mods) <==> mods == 1 && u == 0xE0
  {
    hide HasModifier, ModifierUsages;
    forall u: Usage ensures u in ModifierUsages(mods) <==> mods == 1 && u == 0xE0 {
      ModifierUsagesHas(mods, 0, u);
      if 0xE0 <= u < 0xE8 {
        OnlyLowestModifier(mods, u - 0xE0);
      }
    }
  }

  lemma OnlyLowestModifier(mods: Modifiers, bit: nat)
    requires mods < 2 && bit < 8
    ensures HasModifier(mods, bit) <==> mods == 1 && bit == 0
  {
  }

  // ── Who is connected ─────────────────────────────────────────────────

  // Every session belongs to a paired device, and there are no more of them than allowed.
  predicate Safe(s: ServerState) {
    && AllTrusted(s)
    && |s.sessions| <= s.config.maxSessions
  }

  predicate AllTrusted(s: ServerState) {
    forall a <- s.sessions :: s.sessions[a].client in s.pairing.trusted
  }

  lemma InsertedKeepsCap(table: Table, cap: Cap, address: Address, session: SessionState,
                         table': Table, dropped: set<Address>)
    requires Inserted(table, cap, address, session, table', dropped) && |table| <= cap
    ensures |table'| <= cap
  {
    InsertedKeys(table, cap, address, session, table', dropped);
    SmallerMap(table.Keys - {address}, table.Keys);
    assert |table'| == |table'.Keys| && |table| == |table.Keys|;
  }

  lemma InsertedKeys(table: Table, cap: Cap, address: Address, session: SessionState,
                     table': Table, dropped: set<Address>)
    requires Inserted(table, cap, address, session, table', dropped)
    ensures var rest := table.Keys - {address};
            if |rest| < cap then table'.Keys == rest + {address}
            else exists oldest <- rest :: table'.Keys == (rest - {oldest}) + {address}
  {
    var rest := table.Keys - {address};
    assert (table - {address}).Keys == rest && |table - {address}| == |rest|;
    KeysLeft(table, dropped, address, session);
    if |rest| >= cap {
      var oldest: Address :| IsOldest(table - {address}, oldest) && dropped == table.Keys * {address} + {oldest};
      OldestIsThere(table - {address}, oldest);
      KeysWithout(table.Keys, address, oldest);
    } else {
      KeysWithoutIt(table.Keys, address);
    }
  }

  lemma KeysLeft(table: Table, dropped: set<Address>, address: Address, session: SessionState)
    ensures (table - dropped)[address := session].Keys == (table.Keys - dropped) + {address}
  {
    assert (table - dropped).Keys == table.Keys - dropped;
  }

  lemma KeysWithout(keys: set<Address>, address: Address, oldest: Address)
    ensures (keys - (keys * {address} + {oldest})) + {address} == (keys - {address} - {oldest}) + {address}
  {
  }

  lemma KeysWithoutIt(keys: set<Address>, address: Address)
    ensures (keys - keys * {address}) + {address} == (keys - {address}) + {address}
  {
  }

  lemma LetGoKeepsSafe(s: ServerState, table: Table)
    requires Safe(s) && table.Keys <= s.sessions.Keys
    requires forall a <- table :: table[a].client == s.sessions[a].client
    ensures Safe(s.(sessions := table))
  {
    SmallerMap(table.Keys, s.sessions.Keys);
    assert |table| == |table.Keys| && |s.sessions| == |s.sessions.Keys|;
  }

  lemma {:induction false} SmallerMap(a: set<Address>, b: set<Address>)
    requires a <= b
    ensures |a| <= |b|
  {
    if a == {} {
    } else {
      var x :| x in a;
      SmallerMap(a - {x}, b - {x});
    }
  }

  lemma InsertedSessions(table: Table, cap: Cap, address: Address, session: SessionState,
                         table': Table, dropped: set<Address>)
    requires Inserted(table, cap, address, session, table', dropped)
    ensures forall a <- table' :: if a == address then table'[a] == session else a in table && table'[a] == table[a]
  {
  }

  lemma HandshakeKeepsSafe(s: ServerState, event: ServerEvent, s': ServerState)
    requires event.Handshake? && Step(s, event, s') && Safe(s)
    ensures Safe(s')
  {
    hide Lifted, ReleasesAt, Inserted;
    if Decision(s.pairing, event.client, event.token, event.now) != Rejected {
      var session := SessionState(event.client, event.now, NOTHING, event.receiveKey, {});
      var dropped: set<Address> :|
        && Inserted(s.sessions, s.config.maxSessions, event.address, session, s'.sessions, dropped)
        && s'.backend == Lifted(s.backend, ReleasesAt(s.sessions, dropped));
      InsertedKeepsCap(s.sessions, s.config.maxSessions, event.address, session, s'.sessions, dropped);
      InsertedSessions(s.sessions, s.config.maxSessions, event.address, session, s'.sessions, dropped);
      assert event.client in s'.pairing.trusted && s.pairing.trusted <= s'.pairing.trusted;
    }
  }

  // A step that is not a failed attempt to forget everybody keeps the server safe.
  lemma StepKeepsSafe(s: ServerState, event: ServerEvent, s': ServerState)
    requires Step(s, event, s') && Safe(s) && event != ForgetAll(false)
    ensures Safe(s')
  {
    hide Lifted, ReleasesAt, Received, Decoded, Applied, Observed, Silent, HandshakeStep, Decision, Admitted;
    match event
    case Handshake(_, _, _, _, _) => HandshakeKeepsSafe(s, event, s');
    case Packet(address, nonce, ciphertext, now) =>
      assert s'.sessions.Keys == s.sessions.Keys;
      LetGoKeepsSafe(s, s'.sessions);
    case Maintenance(now) => LetGoKeepsSafe(s, s'.sessions);
    case Shutdown => LetGoKeepsSafe(s, s'.sessions);
    case _ =>
  }

  // In a run in which forgetting everybody never fails to be saved, only paired devices are ever
  // connected and the table keeps to its cap.
  lemma {:induction false} OnlyPairedConnected(states: seq<ServerState>, events: seq<ServerEvent>, i: nat)
    requires Run(states, events) && ForgetAll(false) !in events && i < |states|
    ensures Safe(states[i])
  {
    hide Step, Safe;
    if i == 0 {
      InitiallySafe(states[0]);
    } else {
      OnlyPairedConnected(states, events, i - 1);
      StepKeepsSafe(states[i - 1], events[i - 1], states[i]);
    }
  }

  lemma InitiallySafe(s: ServerState)
    requires Initial(s)
    ensures Safe(s)
  {
  }

  // Forgetting everybody keeps the server safe if and only if the list was saved or nobody was
  // connected: the error returns before the sessions are ended.
  lemma ForgettingKeepsSafe(s: ServerState, saved: bool, s': ServerState)
    requires Step(s, ForgetAll(saved), s') && Safe(s)
    ensures Safe(s') <==> saved || s.sessions == map[]
  {
    hide Lifted, ReleasesAt;
    if !saved && s.sessions != map[] {
      var a :| a in s.sessions;
      assert a in s'.sessions && s'.sessions[a].client !in s'.pairing.trusted;
    }
  }

  // A saved one leaves no session, no paired device, no invitation and nothing down.
  lemma ForgottenEntirely(states: seq<ServerState>, events: seq<ServerEvent>, i: nat)
    requires Run(states, events) && i < |events| && events[i] == ForgetAll(true)
    ensures var s' := states[i + 1];
            && s'.sessions == map[] && s'.pairing.trusted == {} && s'.pairing.invitation == None
            && s'.backend.keys == {} && s'.backend.buttons == {}
  {
    assert Step(states[i], events[i], states[i + 1]);
    NothingDownAtTheEnd(states, events, i);
  }

  // ── Packets ──────────────────────────────────────────────────────────

  // The session at `address`, if there is one, has accepted `nonce`.
  predicate Spent(s: ServerState, address: Address, nonce: Nonce) {
    address in s.sessions ==> nonce in s.sessions[address].accepted
  }

  lemma StepKeepsSpent(s: ServerState, event: ServerEvent, s': ServerState, address: Address, nonce: Nonce)
    requires Step(s, event, s') && Spent(s, address, nonce)
    requires !(event.Handshake? && event.address == address)
    ensures Spent(s', address, nonce)
  {
    hide Lifted, ReleasesAt, Received, Decoded, Applied, Observed, Silent, Decision, Admitted;
    match event
    case Handshake(at, client, token, receiveKey, now) =>
      if Decision(s.pairing, client, token, now) != Rejected {
        var session := SessionState(client, now, NOTHING, receiveKey, {});
        var dropped: set<Address> :| Inserted(s.sessions, s.config.maxSessions, at, session, s'.sessions, dropped)
          && s'.backend == Lifted(s.backend, ReleasesAt(s.sessions, dropped));
      }
    case _ =>
  }

  lemma {:induction false} StaysSpent(states: seq<ServerState>, events: seq<ServerEvent>, i: nat, j: nat,
                                      address: Address, nonce: Nonce)
    requires Run(states, events) && i <= j < |states| && Spent(states[i], address, nonce)
    requires forall k :: i <= k < j ==> !(events[k].Handshake? && events[k].address == address)
    ensures Spent(states[j], address, nonce)
    decreases j - i
  {
    hide Step, Spent;
    if i >= j {
    } else {
      StaysSpent(states, events, i, j - 1, address, nonce);
      StepKeepsSpent(states[j - 1], events[j - 1], states[j], address, nonce);
    }
  }

  // A packet that had an effect has none again, whatever it now carries, until its sender connects
  // anew from the same address.
  lemma NoPacketActsTwice(states: seq<ServerState>, events: seq<ServerEvent>, i: nat, j: nat)
    requires Run(states, events) && i < j < |events|
    requires events[i].Packet? && events[j].Packet?
    requires events[i].address == events[j].address && events[i].nonce == events[j].nonce
    requires states[i + 1] != states[i]
    requires forall k :: i < k < j ==> !(events[k].Handshake? && events[k].address == events[i].address)
    ensures states[j + 1] == states[j]
  {
    var address, nonce := events[i].address, events[i].nonce;
    assert Step(states[i], events[i], states[i + 1]);
    EffectSpends(states[i], events[i], states[i + 1]);
    hide Step, Spent;
    StaysSpent(states, events, i + 1, j, address, nonce);
    SpentHasNoEffect(states[j], events[j], states[j + 1]);
  }

  lemma EffectSpends(s: ServerState, event: ServerEvent, s': ServerState)
    requires event.Packet? && Step(s, event, s') && s' != s
    ensures Spent(s', event.address, event.nonce)
  {
    hide Received, Decoded, Applied, Observed;
  }

  lemma SpentHasNoEffect(s: ServerState, event: ServerEvent, s': ServerState)
    requires event.Packet? && Step(s, event, s') && Spent(s, event.address, event.nonce)
    ensures s' == s
  {
    hide Decoded, Applied, Observed;
  }
}
