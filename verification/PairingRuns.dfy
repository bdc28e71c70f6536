// Who gets in, over whole runs: the gate's state told from its history.
module PairingRuns {
  import opened Wrappers
  import opened Sessions
  import opened Pairings
  import opened Replay
  import opened Delivery
  import opened Protocol
  import opened Holds
  import opened InputBackend
  import opened Server
  import opened ServerRuns

  // ── Histories ────────────────────────────────────────────────────────

  datatype GateEvent =
    | Asks(client: PublicKey, token: Secret, now: Time)
    | Opens(now: Time, duration: Time)
    | Closes
    | Invites(token: Secret, now: Time, ttl: Time)
    | Cancels
    | Forgets

  function After(state: PairingState, event: GateEvent): PairingState {
    match event
    case Asks(client, token, now) => Admitted(state, client, token, now)
    case Opens(now, duration) => state.(windowUntil := Some(now + duration))
    case Closes => state.(windowUntil := None)
    case Invites(token, now, ttl) => state.(invitation := Some(Invitation(token, now + ttl)))
    case Cancels => state.(invitation := None)
    case Forgets => state.(trusted := {}, invitation := None)
  }

  function Ran(start: PairingState, events: seq<GateEvent>): PairingState {
    if events == [] then start
    else After(Ran(start, events[..|events| - 1]), events[|events| - 1])
  }

  // Event `i` is a device that was not known and got in.
  predicate Pairs(start: PairingState, events: seq<GateEvent>, i: nat)
    requires i < |events|
  {
    && events[i].Asks?
    && Decision(Ran(start, events[..i]), events[i].client, events[i].token, events[i].now) == NewlyPaired
  }

  // It got in by the invitation.
  predicate UsesInvitation(start: PairingState, events: seq<GateEvent>, i: nat)
    requires i < |events|
  {
    Pairs(start, events, i) && InvitationAccepts(Ran(start, events[..i]), events[i].token, events[i].now)
  }

  lemma Earlier(start: PairingState, events: seq<GateEvent>, n: nat, i: nat)
    requires i < n <= |events|
    ensures Pairs(start, events[..n], i) == Pairs(start, events, i)
    ensures UsesInvitation(start, events[..n], i) == UsesInvitation(start, events, i)
  {
    assert events[..n][..i] == events[..i];
  }

  // ── Grants are conserved ─────────────────────────────────────────────

  function Outstanding(state: PairingState): nat {
    (if state.windowUntil.Some? then 1 else 0) + (if state.invitation.Some? then 1 else 0)
  }

  function Granted(events: seq<GateEvent>): nat {
    if events == [] then 0
    else
      var last := events[|events| - 1];
      Granted(events[..|events| - 1]) + (if last.Opens? || last.Invites? then 1 else 0)
  }

  function Paired(start: PairingState, events: seq<GateEvent>): nat {
    if events == [] then 0
    else Paired(start, events[..|events| - 1]) + (if Pairs(start, events, |events| - 1) then 1 else 0)
  }

  lemma {:induction false} GrantsConserved(start: PairingState, events: seq<GateEvent>)
    requires !start.acceptAny
    ensures !Ran(start, events).acceptAny
    ensures Paired(start, events) + Outstanding(Ran(start, events)) <= Outstanding(start) + Granted(events)
  {
    if events == [] {
    } else {
      GrantsConserved(start, events[..|events| - 1]);
    }
  }

  // The owner opens or invites at least as often as new devices get in, counting the window that
  // may be open at the start.
  lemma NoMorePairedThanGranted(trusted: set<PublicKey>, mode: PairingMode, now: Time, events: seq<GateEvent>)
    requires mode != AcceptAny
    ensures var start := Started(trusted, mode, now);
            && Paired(start, events) + Outstanding(Ran(start, events)) <= Outstanding(start) + Granted(events)
            && Outstanding(start) == (if mode.Window? || (mode.WhenUnpaired? && trusted == {}) then 1 else 0)
  {
    GrantsConserved(Started(trusted, mode, now), events);
  }

  // ── The state, told from the history ─────────────────────────────────

  // Known from the start or paired at some point, and not forgotten since.
  predicate TrustedFrom(start: PairingState, events: seq<GateEvent>, client: PublicKey) {
    || (client in start.trusted && Forgets !in events)
    || exists j :: 0 <= j < |events| && PairedAt(start, events, j, client)
  }

  predicate PairedAt(start: PairingState, events: seq<GateEvent>, j: nat, client: PublicKey)
    requires j < |events|
  {
    Pairs(start, events, j) && events[j].client == client && Forgets !in events[j + 1..]
  }

  predicate MovesWindow(start: PairingState, events: seq<GateEvent>, i: nat)
    requires i < |events|
  {
    events[i].Opens? || events[i].Closes? || Pairs(start, events, i)
  }

  predicate MovesInvitation(start: PairingState, events: seq<GateEvent>, i: nat)
    requires i < |events|
  {
    events[i].Invites? || events[i].Cancels? || events[i].Forgets? || UsesInvitation(start, events, i)
  }

  // Opened until `until`, and neither closed nor used since.
  predicate WindowFrom(start: PairingState, events: seq<GateEvent>, until: Time) {
    || (start.windowUntil == Some(until) && forall k :: 0 <= k < |events| ==> !MovesWindow(start, events, k))
    || exists j :: 0 <= j < |events| && OpenedAt(start, events, j, until)
  }

  predicate OpenedAt(start: PairingState, events: seq<GateEvent>, j: nat, until: Time)
    requires j < |events|
  {
    && events[j].Opens? && events[j].now + events[j].duration == until
    && forall k :: j < k < |events| ==> !MovesWindow(start, events, k)
  }

  // Made with `token` until `until`, and not replaced, cancelled, forgotten or used since.
  predicate InvitationFrom(start: PairingState, events: seq<GateEvent>, token: Secret, until: Time) {
    || (start.invitation == Some(Invitation(token, until)) &&
        forall k :: 0 <= k < |events| ==> !MovesInvitation(start, events, k))
    || exists j :: 0 <= j < |events| && InvitedAt(start, events, j, token, until)
  }

  predicate InvitedAt(start: PairingState, events: seq<GateEvent>, j: nat, token: Secret, until: Time)
    requires j < |events|
  {
    && events[j].Invites? && events[j].token == token && events[j].now + events[j].ttl == until
    && forall k :: j < k < |events| ==> !MovesInvitation(start, events, k)
  }

  lemma PairedBefore(start: PairingState, events: seq<GateEvent>, j: nat, client: PublicKey)
    requires j < |events| - 1
    ensures var n := |events| - 1;
            PairedAt(start, events, j, client) <==> PairedAt(start, events[..n], j, client) && !events[n].Forgets?
  {
    var n := |events| - 1;
    Earlier(start, events, n, j);
    assert events[j + 1..] == events[..n][j + 1..] + [events[n]];
  }

  // The trusted devices are exactly those.
  lemma {:induction false} TrustedExactly(start: PairingState, events: seq<GateEvent>, client: PublicKey)
    ensures client in Ran(start, events).trusted <==> TrustedFrom(start, events, client)
  {
    if events == [] {
    } else {
      var n := |events| - 1;
      var before, last := events[..n], events[n];
      TrustedExactly(start, before, client);
      assert events == before + [last];
      forall j | 0 <= j < n
        ensures PairedAt(start, events, j, client) <==> PairedAt(start, before, j, client) && !last.Forgets?
      {
        PairedBefore(start, events, j, client);
      }
      assert events[n + 1..] == [];
      assert PairedAt(start, events, n, client) <==> Pairs(start, events, n) && last.client == client;
      assert TrustedFrom(start, events, client)
        <==> (PairedAt(start, events, n, client) || (TrustedFrom(start, before, client) && !last.Forgets?));
    }
  }

  lemma {:induction false} WindowExactly(start: PairingState, events: seq<GateEvent>, until: Time)
    ensures Ran(start, events).windowUntil == Some(until) <==> WindowFrom(start, events, until)
  {
    if events == [] {
    } else {
      var n := |events| - 1;
      var before := events[..n];
      WindowExactly(start, before, until);
      forall k | 0 <= k < n ensures MovesWindow(start, events, k) == MovesWindow(start, before, k) {
        Earlier(start, events, n, k);
      }
      forall j | 0 <= j < n
        ensures OpenedAt(start, events, j, until)
           <==> OpenedAt(start, before, j, until) && !MovesWindow(start, events, n)
      {
      }
      assert OpenedAt(start, events, n, until) <==> events[n].Opens? && events[n].now + events[n].duration == until;
      assert WindowFrom(start, events, until)
        <==> (OpenedAt(start, events, n, until)
              || (WindowFrom(start, before, until) && !MovesWindow(start, events, n)));
    }
  }

  lemma {:induction false} InvitationExactly(start: PairingState, events: seq<GateEvent>, token: Secret, until: Time)
    ensures Ran(start, events).invitation == Some(Invitation(token, until))
       <==> InvitationFrom(start, events, token, until)
  {
    if events == [] {
    } else {
      var n := |events| - 1;
      var before := events[..n];
      InvitationExactly(start, before, token, until);
      forall k | 0 <= k < n ensures MovesInvitation(start, events, k) == MovesInvitation(start, before, k) {
        Earlier(start, events, n, k);
      }
      forall j | 0 <= j < n
        ensures InvitedAt(start, events, j, token, until)
           <==> InvitedAt(start, before, j, token, until) && !MovesInvitation(start, events, n)
      {
      }
      assert InvitedAt(start, events, n, token, until)
        <==> events[n].Invites? && events[n].token == token && events[n].now + events[n].ttl == until;
      assert InvitationFrom(start, events, token, until)
        <==> (InvitedAt(start, events, n, token, until)
              || (InvitationFrom(start, before, token, until) && !MovesInvitation(start, events, n)));
    }
  }

  lemma {:induction false} ModeStays(start: PairingState, events: seq<GateEvent>)
    ensures Ran(start, events).acceptAny == start.acceptAny
  {
    if events == [] {
    } else {
      ModeStays(start, events[..|events| - 1]);
    }
  }

  // At first the paired devices get in, and others for as long as the mode says.
  lemma AdmittedAtFirst(trusted: set<PublicKey>, mode: PairingMode, start: Time, client: PublicKey, token: Secret,
                        now: Time)
    ensures Decision(Started(trusted, mode, start), client, token, now) != Rejected <==>
            || client in trusted || mode.AcceptAny?
            || (mode.Window? && now - start < mode.duration)
            || (mode.WhenUnpaired? && trusted == {} && now - start < mode.duration)
  {
  }

  // A gate that starts by accepting everybody lets in everybody, whatever happens to it.
  lemma AcceptAnyAdmits(trusted: set<PublicKey>, start: Time, events: seq<GateEvent>, client: PublicKey, token: Secret,
                        now: Time)
    ensures Decision(Ran(Started(trusted, AcceptAny, start), events), client, token, now) != Rejected
  {
    hide Ran;
    ModeStays(Started(trusted, AcceptAny, start), events);
  }

  // A device gets in if and only if everybody does, or its history or a grant still good says so.
  lemma AdmittedExactly(start: PairingState, events: seq<GateEvent>, client: PublicKey, token: Secret, now: Time)
    ensures Decision(Ran(start, events), client, token, now) != Rejected <==>
            || start.acceptAny
            || TrustedFrom(start, events, client)
            || (exists until: Time :: now < until && WindowFrom(start, events, until))
            || (exists until: Time :: now < until && InvitationFrom(start, events, token, until))
  {
    var state := Ran(start, events);
    hide Ran, TrustedFrom, WindowFrom, InvitationFrom;
    ModeStays(start, events);
    TrustedExactly(start, events, client);
    forall until: Time ensures state.windowUntil == Some(until) <==> WindowFrom(start, events, until) {
      WindowExactly(start, events, until);
    }
    forall until: Time
      ensures state.invitation == Some(Invitation(token, until)) <==> InvitationFrom(start, events, token, until)
    {
      InvitationExactly(start, events, token, until);
    }
  }

  // ── One invitation, one device ───────────────────────────────────────

  // No token is handed out twice, nor one that is already out.
  predicate FreshTokens(start: PairingState, events: seq<GateEvent>) {
    && (forall i, j :: 0 <= i < j < |events| && events[i].Invites? && events[j].Invites?
                       ==> events[i].token != events[j].token)
    && (forall i :: 0 <= i < |events| && events[i].Invites? ==>
          start.invitation.None? || events[i].token != start.invitation.value.token)
  }

  // The last time an invitation with `token` was made, or -1 for the one there at the start.
  predicate Issued(start: PairingState, events: seq<GateEvent>, token: Secret, at: int) {
    if at == -1 then start.invitation.Some? && start.invitation.value.token == token
    else 0 <= at < |events| && events[at].Invites? && events[at].token == token
  }

  // An invitation is used while it is the latest one made, before it runs out, and never again.
  lemma UsedInvitation(start: PairingState, events: seq<GateEvent>, i: nat) returns (at: int)
    requires i < |events| && UsesInvitation(start, events, i)
    ensures -1 <= at < i && Issued(start, events, events[i].token, at)
    ensures forall k :: at < k < i ==> !MovesInvitation(start, events, k)
    ensures events[i].now < if at == -1 then start.invitation.value.until else events[at].now + events[at].ttl
  {
    var before := events[..i];
    var until := Ran(start, before).invitation.value.until;
    var token := events[i].token;
    InvitationExactly(start, before, token, until);
    forall k | 0 <= k < i ensures MovesInvitation(start, events, k) == MovesInvitation(start, before, k) {
      Earlier(start, events, i, k);
    }
    if j :| 0 <= j < i && InvitedAt(start, before, j, token, until) {
      at := j;
    } else {
      at := -1;
    }
  }

  lemma TokenPairsOnce(start: PairingState, events: seq<GateEvent>, i: nat, j: nat)
    requires FreshTokens(start, events)
    requires i < j < |events| && UsesInvitation(start, events, i) && UsesInvitation(start, events, j)
    ensures events[i].token != events[j].token
  {
    var a := UsedInvitation(start, events, i);
    var b := UsedInvitation(start, events, j);
    assert MovesInvitation(start, events, i);
    hide UsesInvitation, MovesInvitation;
    assert events[i].token == events[j].token ==> a == b;
  }

  // ── The server's gate ────────────────────────────────────────────────

  function GateEventOf(event: ServerEvent): Option<GateEvent> {
    match event
    case Handshake(_, client, token, _, now) => Some(Asks(client, token, now))
    case OpenPairing(now, duration) => Some(Opens(now, duration))
    case ClosePairing => Some(Closes)
    case CreateInvite(token, now, ttl) => Some(Invites(token, now, ttl))
    case ForgetAll(_) => Some(Forgets)
    case _ => None
  }

  function GateEvents(events: seq<ServerEvent>): seq<GateEvent> {
    if events == [] then []
    else
      var before := GateEvents(events[..|events| - 1]);
      match GateEventOf(events[|events| - 1])
      case Some(event) => before + [event]
      case None => before
  }

  lemma StepMovesGate(s: ServerState, event: ServerEvent, s': ServerState)
    requires Step(s, event, s')
    ensures s'.pairing == match GateEventOf(event) case Some(e) => After(s.pairing, e) case None => s.pairing
  {
    hide Inserted, AfterMaintenance, Admitted, Decision;
    match event
    case Packet(address, nonce, ciphertext, now) => PacketLeavesGate(s, address, nonce, ciphertext, now);
    case Maintenance(now) => MaintenanceLeavesGate(s, now);
    case _ =>
  }

  lemma PacketLeavesGate(s: ServerState, address: Address, nonce: Nonce, ciphertext: Ciphertext, now: Time)
    ensures AfterPacket(s, address, nonce, ciphertext, now).pairing == s.pairing
  {
    hide Received, Decoded, Applied, Observed;
  }

  lemma MaintenanceLeavesGate(s: ServerState, now: Time)
    ensures AfterMaintenance(s, now).pairing == s.pairing
  {
    hide Lifted, ReleasesAt, Silent, LetGo;
  }

  // In every run of the server the gate is what its history makes it.
  lemma {:induction false} GateFollowsHistory(states: seq<ServerState>, events: seq<ServerEvent>, i: nat)
    requires Run(states, events) && i < |states|
    ensures states[i].pairing == Ran(states[0].pairing, GateEvents(events[..i]))
  {
    hide Step, GateEventOf, After;
    if i == 0 {
    } else {
      GateFollowsHistory(states, events, i - 1);
      StepMovesGate(states[i - 1], events[i - 1], states[i]);
      assert events[..i][..i - 1] == events[..i - 1];
      var before := GateEvents(events[..i - 1]);
      match GateEventOf(events[i - 1])
      case Some(event) =>
        assert (before + [event])[..|before|] == before;
      case None =>
    }
  }

  // So every connected device was paired by the owner's leave and has not been forgotten since.
  lemma ConnectedByLeave(states: seq<ServerState>, events: seq<ServerEvent>, i: nat, address: Address)
    requires Run(states, events) && ForgetAll(false) !in events && i < |states|
    requires address in states[i].sessions
    ensures TrustedFrom(states[0].pairing, GateEvents(events[..i]), states[i].sessions[address].client)
  {
    hide Step, Ran, TrustedFrom;
    OnlyPairedConnected(states, events, i);
    GateFollowsHistory(states, events, i);
    TrustedExactly(states[0].pairing, GateEvents(events[..i]), states[i].sessions[address].client);
  }
}
