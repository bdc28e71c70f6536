// Who is connected, what they hold down, and when they are forgotten.
module Sessions {
  import opened Messages
  import opened Replay
  import opened Delivery
  import opened Holds

  // UDP addresses and public keys are only ever compared.
  type Address = nat
  type PublicKey = nat
  type Time = nat
  type Cap = n: nat | n >= 1 witness 1

  // ── The specification ────────────────────────────────────────────────

  datatype SessionState = SessionState(
    client: PublicKey,
    lastSeen: Time,
    held: Held,
    receiveKey: Key,
    accepted: History)

  type Table = map<Address, SessionState>

  // Silent for longer than `limit`; a clock behind `lastSeen` counts as no time at all.
  predicate SilentFor(lastSeen: Time, now: Time, limit: Time) {
    now - lastSeen > limit
  }

  function Silent(table: Table, now: Time, limit: Time): set<Address> {
    set a | a in table && SilentFor(table[a].lastSeen, now, limit)
  }

  // A session after an authentic packet.
  function Heard(session: SessionState, nonce: Nonce, now: Time): SessionState {
    session.(lastSeen := now, accepted := session.accepted + {nonce})
  }

  // The releases for everything the sessions at `addresses` hold.
  function ReleasesAt(table: Table, addresses: set<Address>): set<ClientMessage> {
    set a, m | a in table && a in addresses && m in ReleasesOf(table[a].held) :: m
  }

  // `table` with the sessions at `addresses` holding nothing.
  function LetGo(table: Table, addresses: set<Address>): Table {
    map a | a in table :: if a in addresses then table[a].(held := NOTHING) else table[a]
  }

  lemma ReleasesAtOneMore(table: Table, addresses: set<Address>, address: Address)
    requires address in table
    ensures ReleasesAt(table, addresses + {address}) == ReleasesAt(table, addresses) + ReleasesOf(table[address].held)
  {
    hide ReleasesOf;
    var more := ReleasesAt(table, addresses + {address});
    forall m ensures m in more <==> m in ReleasesAt(table, addresses) || m in ReleasesOf(table[address].held) {
    }
  }

  lemma ElementsConcat(a: seq<ClientMessage>, b: seq<ClientMessage>)
    ensures Elements(a + b) == Elements(a) + Elements(b)
  {
  }

  // Adding a session at `address` drops the one there before, and when the table is full one that
  // was quiet for longest.
  ghost predicate Inserted(table: Table, cap: Cap, address: Address, session: SessionState,
                     table': Table, dropped: set<Address>) {
    var rest := table - {address};
    && table' == (table - dropped)[address := session]
    && if |rest| < cap then dropped == table.Keys * {address}
       else exists oldest: Address :: IsOldest(rest, oldest) && dropped == table.Keys * {address} + {oldest}
  }

  ghost predicate IsOldest(table: Table, address: Address) {
    address in table && forall a <- table :: table[address].lastSeen <= table[a].lastSeen
  }

  // ── A session ────────────────────────────────────────────────────────

  class Session {
    const transport: NoiseTransport
    const clientPubkey: PublicKey
    var lastSeen: Time
    const held: HeldInputs

    ghost function Footprint(): set<object> {
      {this, transport, transport.window, held}
    }

    ghost predicate Valid()
      reads Footprint()
    {
      transport.window.Valid() && held.Valid()
    }

    ghost function State(): SessionState
      requires Valid()
      reads Footprint()
    {
      SessionState(clientPubkey, lastSeen, held.Contents(), transport.receiveKey, transport.window.accepted)
    }

    constructor (transport: NoiseTransport, clientPubkey: PublicKey, now: Time)
      requires transport.window.Valid()
      ensures this.transport == transport && fresh(held)
      ensures Valid()
      ensures State() == SessionState(clientPubkey, now, NOTHING, transport.receiveKey, transport.window.accepted)
    {
      this.transport, this.clientPubkey, lastSeen := transport, clientPubkey, now;
      held := new HeldInputs();
    }

    // Opens a packet; an authentic one is a sign of life.
    method Open(nonce: Nonce, ciphertext: Ciphertext, now: Time) returns (result: Decrypted)
      requires Valid()
      modifies this, transport.window
      ensures Valid()
      ensures result == Received(transport.receiveKey, old(State()).accepted, nonce, ciphertext)
      ensures State() == if result.Plaintext? then Heard(old(State()), nonce, now) else old(State())
    {
      hide HeldInputs.Contents, HeldInputs.Valid, ReplayWindow.Valid, Received;
      result := transport.Decrypt(nonce, ciphertext);
      if result.Plaintext? {
        lastSeen := now;
      }
    }
  }

  // Two sessions share nothing that changes.
  predicate Apart(s: Session, t: Session) {
    s != t && s.held != t.held && s.transport.window != t.transport.window
  }

  lemma OutOfReach(s: Session, t: Session)
    requires Apart(s, t)
    ensures t.held !in s.Footprint()
  {
  }

  lemma HeldIsNot(session: Session, table: SessionTable)
    ensures (session.held as object) != (table as object)
  {
  }

  lemma HeldOf(session: Session)
    requires session.Valid()
    ensures session.held.Valid() && session.State().held == session.held.Contents()
  {
  }

  lemma DisjointApart(s: Session, t: Session)
    requires s.Footprint() !! t.Footprint()
    ensures Apart(s, t) && Apart(t, s)
  {
    assert s in s.Footprint() && s.held in s.Footprint() && s.transport.window in s.Footprint();
  }

  // ── All live sessions ────────────────────────────────────────────────

  class SessionTable {
    var sessions: map<Address, Session>
    const maxSessions: Cap
    ghost var Repr: set<object>

    ghost predicate Valid()
      reads this, Repr
      ensures Valid() ==> this in Repr
    {
      && this in Repr
      && (forall a <- sessions :: sessions[a].Footprint() <= Repr && sessions[a].Valid())
      && (forall a, b :: a in sessions && b in sessions && a != b ==>
            Apart(sessions[a], sessions[b]))
    }

    ghost function View(): Table
      requires Valid()
      reads this, Repr
    {
      map a | a in sessions :: sessions[a].State()
    }

    constructor (maxSessions: nat)
      ensures Valid() && View() == map[] && Repr == {this}
      ensures this.maxSessions == if maxSessions < 1 then 1 else maxSessions
    {
      sessions := map[];
      this.maxSessions := if maxSessions < 1 then 1 else maxSessions;
      Repr := {this};
    }

    // The session quiet for longest; among several, any of them.
    method Oldest() returns (oldest: Address)
      requires Valid() && View() != map[]
      ensures IsOldest(View(), oldest)
    {
      var todo := sessions.Keys;
      oldest :| oldest in todo;
      todo := todo - {oldest};
      while todo != {}
        invariant todo <= sessions.Keys && oldest in sessions
        invariant forall a <- sessions.Keys - todo :: sessions[oldest].lastSeen <= sessions[a].lastSeen
        decreases todo
      {
        var a :| a in todo;
        if sessions[a].lastSeen < sessions[oldest].lastSeen {
          oldest := a;
        }
        todo := todo - {a};
      }
    }

    // Takes the session at `address` out of the table; it shares nothing with those left.
    method Detach(address: Address) returns (session: Session)
      requires Valid() && address in View()
      modifies this`sessions
      ensures Valid() && View() == old(View()) - {address}
      ensures session.Valid() && session.State() == old(View())[address]
      ensures session.Footprint() <= Repr && this !in session.Footprint()
      ensures forall a <- sessions :: session.held !in sessions[a].Footprint()
    {
      hide Session.State, Session.Valid, Apart;
      session := sessions[address];
      sessions := sessions - {address};
      forall a | a in sessions ensures session.held !in sessions[a].Footprint() {
        OutOfReach(sessions[a], session);
      }
    }

    // And what it held.
    method Remove(address: Address) returns (releases: seq<ClientMessage>)
      requires Valid() && address in View()
      modifies Repr
      ensures Valid() && Repr == old(Repr) && View() == old(View()) - {address}
      ensures Elements(releases) == ReleasesOf(old(View())[address].held)
    {
      hide ReleasesOf, Elements, HeldInputs.Valid, HeldInputs.Contents, KeyReleases, ButtonReleases,
           Session.State, Session.Valid, Apart, Valid, View;
      var session := Detach(address);
      HeldOf(session);
      HeldIsNot(session, this);
      label detached:
      releases := session.held.TakeReleaseMessages();
      StaysThrough@detached(session.held);
    }

    // Nothing changed but the record of a session outside the table.
    twostate lemma StaysThrough(held: HeldInputs)
      requires old(Valid()) && sessions == old(sessions) && Repr == old(Repr)
      requires forall a <- sessions :: held !in sessions[a].Footprint()
      requires forall a <- sessions :: forall o <- sessions[a].Footprint() :: unchanged(o)
      ensures Valid() && View() == old(View())
    {
      hide Session.State, Session.Valid, Apart;
    }

    method Len() returns (n: nat)
      requires Valid()
      ensures n == |View()|
    {
      assert View().Keys == sessions.Keys;
      n := |sessions|;
    }

    method Contains(address: Address) returns (there: bool)
      requires Valid()
      ensures there <==> address in View()
    {
      there := address in sessions;
    }

    method Put(address: Address, session: Session)
      requires Valid() && address !in View() && session.Valid() && session.Footprint() !! Repr
      modifies this
      ensures Valid() && Repr == old(Repr) + session.Footprint()
      ensures session.Valid() && session.State() == old(session.State())
      ensures View() == old(View())[address := session.State()]
    {
      hide Session.State, Session.Valid, Apart;
      ApartFromAll(session);
      sessions := sessions[address := session];
      Repr := Repr + session.Footprint();
    }

    lemma ApartFromAll(session: Session)
      requires Valid() && session.Footprint() !! Repr
      ensures this !in session.Footprint() && View().Keys == sessions.Keys
      ensures forall a <- sessions :: sessions[a].Valid() && this !in sessions[a].Footprint()
      ensures forall a <- sessions :: Apart(sessions[a], session) && Apart(session, sessions[a])
    {
      hide Session.State, Session.Valid, Apart;
      forall a | a in sessions ensures Apart(sessions[a], session) && Apart(session, sessions[a]) {
        DisjointApart(sessions[a], session);
      }
      assert this in Repr;
    }

    // Evicts the session quiet for longest when the table is full.
    method MakeRoom() returns (releases: seq<ClientMessage>, ghost evicted: set<Address>)
      requires Valid()
      modifies Repr
      ensures Valid() && Repr == old(Repr)
      ensures View() == old(View()) - evicted
      ensures Elements(releases) == ReleasesAt(old(View()), evicted)
      ensures Evicted(old(View()), maxSessions, evicted)
    {
      hide ReleasesOf, Elements, ReleasesAt, Valid, View, IsOldest;
      ghost var before := View();
      releases, evicted := [], {};
      NothingReleased(before);
      assert before - {} == before;
      var length := Len();
      if length >= maxSessions {
        assert |before| > 0;
        var oldest := Oldest();
        OldestIsThere(before, oldest);
        releases := Remove(oldest);
        ReleasesAtOneMore(before, {}, oldest);
        evicted := {oldest};
        assert {} + evicted == evicted;
      }
    }

    // Adds a session. One already at `address` is replaced, and a full table evicts one.
    method Insert(address: Address, session: Session)
      returns (releases: seq<ClientMessage>, ghost dropped: set<Address>)
      requires Valid() && session.Valid() && session.Footprint() !! Repr
      modifies Repr
      ensures Valid() && Repr == old(Repr) + session.Footprint()
      ensures session.Valid() && session.State() == old(session.State())
      ensures Inserted(old(View()), maxSessions, address, session.State(), View(), dropped)
      ensures Elements(releases) == ReleasesAt(old(View()), dropped)
    {
      hide ReleasesOf, Elements, ReleasesAt, Session.State, Session.Valid, Valid, View, Evicted, Inserted;
      ghost var before := View();
      releases, dropped := [], {};
      NothingReleased(before);
      var there := Contains(address);
      if there {
        releases := Remove(address);
        ReleasesAtOneMore(before, {}, address);
        dropped := {address};
        assert {} + dropped == dropped;
      }
      assert dropped == before.Keys * {address};
      ghost var rest := View();
      assert rest == before - {address};
      var more; ghost var evicted;
      more, evicted := MakeRoom();
      ElementsConcat(releases, more);
      releases := releases + more;
      InsertedAfterRoom(before, maxSessions, address, session.State(), evicted);
      EvictedWereThere(rest, maxSessions, evicted);
      ReleasesAtBoth(before, address, evicted);
      dropped := dropped + evicted;
      Put(address, session);
    }

    // Opens a packet of the session at `address`.
    method Open(address: Address, nonce: Nonce, ciphertext: Ciphertext, now: Time) returns (result: Decrypted)
      requires Valid() && address in View()
      modifies Repr
      ensures Valid() && Repr == old(Repr)
      ensures var session := old(View())[address];
              && result == Received(session.receiveKey, session.accepted, nonce, ciphertext)
              && View() == if result.Plaintext? then old(View())[address := Heard(session, nonce, now)] else old(View())
    {
      hide HeldInputs.Contents, HeldInputs.Valid, ReplayWindow.Valid, Received, Heard;
      var session := sessions[address];
      assert forall a <- sessions :: a != address ==> Apart(sessions[a], session);
      assert session.State().receiveKey == session.transport.receiveKey;
      hide Session.State, Session.Valid;
      result := session.Open(nonce, ciphertext, now);
      assert forall a <- sessions :: a != address ==>
        sessions[a].Valid() && sessions[a].State() == old(sessions[a].State());
    }

    // Notes what a message of the session at `address` presses or releases.
    method Observe(address: Address, message: ClientMessage)
      requires Valid() && address in View()
      modifies Repr
      ensures Valid() && Repr == old(Repr)
      ensures var session := old(View())[address];
              View() == old(View())[address := session.(held := Observed(session.held, message))]
    {
      hide HeldInputs.Contents, HeldInputs.Valid, ReplayWindow.Valid, Observed;
      var session := sessions[address];
      assert session.held.Valid();
      assert forall a <- sessions :: a != address ==> Apart(sessions[a], session);
      session.held.Observe(message);
      assert forall a <- sessions :: a != address ==>
        sessions[a].Valid() && sessions[a].State() == old(sessions[a].State());
    }

    // Ends the sessions silent for longer than `idle`.
    method ExpireIdle(now: Time, idle: Time) returns (count: nat, releases: seq<ClientMessage>)
      requires Valid()
      modifies Repr
      ensures Valid() && Repr == old(Repr)
      ensures View() == old(View()) - Silent(old(View()), now, idle)
      ensures count == |Silent(old(View()), now, idle)|
      ensures Elements(releases) == ReleasesAt(old(View()), Silent(old(View()), now, idle))
    {
      hide ReleasesOf, Elements, ReleasesAt, Session.State, Session.Valid, Valid, View;
      ghost var before := View();
      var expired := SilentAddresses(now, idle);
      count := |expired|;
      releases := [];
      NothingReleased(before);
      ghost var done := {};
      var todo := expired;
      assert before - {} == before;
      while todo != {}
        invariant Valid() && Repr == old(Repr)
        invariant done <= expired && todo == expired - done
        invariant View() == before - done
        invariant Elements(releases) == ReleasesAt(before, done)
        decreases todo
      {
        var a :| a in todo;
        todo := todo - {a};
        assert before - done - {a} == before - (done + {a});
        var more := Remove(a);
        ElementsConcat(releases, more);
        ReleasesAtOneMore(before, done, a);
        releases := releases + more;
        done := done + {a};
      }
      assert done == expired;
    }

    method SilentAddresses(now: Time, limit: Time) returns (silent: set<Address>)
      requires Valid()
      ensures silent == Silent(View(), now, limit)
    {
      hide Session.State, Session.Valid;
      silent := set a | a in sessions && SilentFor(sessions[a].lastSeen, now, limit);
      SeenInView();
    }

    lemma SeenInView()
      requires Valid()
      ensures View().Keys == sessions.Keys
      ensures forall a <- sessions :: View()[a].lastSeen == sessions[a].lastSeen
    {
    }

    // Has the session at `address` let go of everything, without ending it.
    method LetGoAt(address: Address) returns (releases: seq<ClientMessage>)
      requires Valid() && address in View()
      modifies Repr
      ensures Valid() && Repr == old(Repr) && sessions == old(sessions)
      ensures View() == LetGo(old(View()), {address})
      ensures Elements(releases) == ReleasesOf(old(View())[address].held)
    {
      hide ReleasesOf, Elements, HeldInputs.Valid, HeldInputs.Contents, ReplayWindow.Valid, KeyReleases, ButtonReleases;
      var session := sessions[address];
      assert session.held.Valid();
      assert forall a <- sessions :: a != address ==> Apart(sessions[a], session);
      releases := session.held.TakeReleaseMessages();
      assert forall a <- sessions :: a != address ==>
        sessions[a].Valid() && sessions[a].State() == old(sessions[a].State());
    }

    // Releases what sessions silent for longer than `quiet` hold.
    method ReleaseStaleHolds(now: Time, quiet: Time) returns (releases: seq<ClientMessage>)
      requires Valid()
      modifies Repr
      ensures Valid() && Repr == old(Repr)
      ensures View() == LetGo(old(View()), Silent(old(View()), now, quiet))
      ensures Elements(releases) == ReleasesAt(old(View()), Silent(old(View()), now, quiet))
    {
      hide ReleasesOf, Elements, ReleasesAt, Session.State, Session.Valid, LetGo, Valid, View;
      ghost var before := View();
      ghost var silent := Silent(before, now, quiet);
      releases := [];
      NothingReleased(before);
      LetGoOfNone(before);
      var addresses := Addresses();
      var todo := addresses;
      ghost var done := {};
      while todo != {}
        invariant Valid() && Repr == old(Repr)
        invariant todo <= before.Keys && done == silent - todo
        invariant View() == LetGo(before, done)
        invariant Elements(releases) == ReleasesAt(before, done)
        decreases todo
      {
        var a :| a in todo;
        todo := todo - {a};
        LetGoAgain(before, done, a);
        var holding, lastSeen := Peek(a);
        if SilentFor(lastSeen, now, quiet) {
          assert a in silent;
          ReleasesAtOneMore(before, done, a);
          if holding {
            var more := LetGoAt(a);
            ElementsConcat(releases, more);
            releases := releases + more;
          } else {
            NothingHeld(before, done, a);
          }
          done := done + {a};
        }
      }
      assert done == silent;
    }

    method Addresses() returns (addresses: set<Address>)
      requires Valid()
      ensures addresses == View().Keys
    {
      SeenInView();
      addresses := sessions.Keys;
    }

    // Whether the session at `address` holds anything, and when it was last heard from.
    method Peek(address: Address) returns (holding: bool, lastSeen: Time)
      requires Valid() && address in View()
      ensures holding <==> View()[address].held != NOTHING
      ensures lastSeen == View()[address].lastSeen
    {
      hide HeldInputs.Contents, HeldInputs.Valid, ReplayWindow.Valid;
      var empty := sessions[address].held.IsEmpty();
      holding, lastSeen := !empty, sessions[address].lastSeen;
    }

    // Releases everything every session holds.
    method ReleaseAll() returns (releases: seq<ClientMessage>)
      requires Valid()
      modifies Repr
      ensures Valid() && Repr == old(Repr)
      ensures View() == LetGo(old(View()), old(View()).Keys)
      ensures Elements(releases) == ReleasesAt(old(View()), old(View()).Keys)
    {
      hide ReleasesOf, Elements, ReleasesAt, Session.State, Session.Valid, LetGo, Valid, View;
      ghost var before := View();
      releases := [];
      NothingReleased(before);
      LetGoOfNone(before);
      var addresses := Addresses();
      var todo := addresses;
      ghost var done := {};
      while todo != {}
        invariant Valid() && Repr == old(Repr)
        invariant todo <= before.Keys && done == before.Keys - todo
        invariant View() == LetGo(before, done)
        invariant Elements(releases) == ReleasesAt(before, done)
        decreases todo
      {
        var a :| a in todo;
        todo := todo - {a};
        LetGoAgain(before, done, a);
        ReleasesAtOneMore(before, done, a);
        var more := LetGoAt(a);
        ElementsConcat(releases, more);
        releases := releases + more;
        done := done + {a};
      }
      assert done == before.Keys;
    }

    // Ends every session.
    method Clear() returns (releases: seq<ClientMessage>)
      requires Valid()
      modifies Repr
      ensures Valid() && Repr == old(Repr) && View() == map[]
      ensures Elements(releases) == ReleasesAt(old(View()), old(View()).Keys)
    {
      hide ReleasesOf, Elements, ReleasesAt, Session.State, Session.Valid, LetGo;
      releases := ReleaseAll();
      sessions := map[];
    }
  }

  lemma LetGoOfNone(table: Table)
    ensures LetGo(table, {}) == table
  {
  }

  lemma LetGoAgain(table: Table, addresses: set<Address>, address: Address)
    requires address in table && address !in addresses
    ensures LetGo(table, addresses).Keys == table.Keys
    ensures LetGo(table, addresses)[address] == table[address]
    ensures LetGo(LetGo(table, addresses), {address}) == LetGo(table, addresses + {address})
  {
  }

  lemma NothingHeld(table: Table, addresses: set<Address>, address: Address)
    requires address in table && address !in addresses && table[address].held == NOTHING
    ensures LetGo(table, addresses + {address}) == LetGo(table, addresses)
    ensures ReleasesOf(table[address].held) == {}
  {
    assert table[address].(held := NOTHING) == table[address];
  }

  // The sessions evicted from a full table: one of those quiet for longest.
  ghost predicate Evicted(table: Table, cap: Cap, evicted: set<Address>) {
    if |table| < cap then evicted == {} else exists oldest: Address :: IsOldest(table, oldest) && evicted == {oldest}
  }

  lemma EvictedWereThere(table: Table, cap: Cap, evicted: set<Address>)
    requires Evicted(table, cap, evicted)
    ensures evicted <= table.Keys
  {
  }

  lemma InsertedAfterRoom(table: Table, cap: Cap, address: Address, session: SessionState, evicted: set<Address>)
    requires Evicted(table - {address}, cap, evicted)
    ensures var dropped := table.Keys * {address} + evicted;
            && Inserted(table, cap, address, session, (table - {address} - evicted)[address := session], dropped)
            && address !in table - {address} - evicted
  {
    hide IsOldest;
    SameTable(table, address, session, evicted);
  }

  lemma SameTable(table: Table, address: Address, session: SessionState, evicted: set<Address>)
    ensures (table - {address} - evicted)[address := session]
            == (table - (table.Keys * {address} + evicted))[address := session]
  {
    var dropped := table.Keys * {address} + evicted;
    var left, right := (table - {address} - evicted)[address := session], (table - dropped)[address := session];
    assert left.Keys == right.Keys;
    assert left == right;
  }

  lemma ReleasesAtBoth(table: Table, address: Address, evicted: set<Address>)
    requires address !in evicted
    ensures ReleasesAt(table, table.Keys * {address} + evicted)
            == ReleasesAt(table, table.Keys * {address}) + ReleasesAt(table - {address}, evicted)
  {
    hide ReleasesOf;
    var first := table.Keys * {address};
    forall m ensures m in ReleasesAt(table, first + evicted)
                <==> m in ReleasesAt(table, first) || m in ReleasesAt(table - {address}, evicted) {
      if m in ReleasesAt(table, first + evicted) {
        var a :| a in table && a in first + evicted && m in ReleasesOf(table[a].held);
        if a in evicted {
          assert a in table - {address} && (table - {address})[a] == table[a];
        }
      }
      if m in ReleasesAt(table - {address}, evicted) {
        var a :| a in table - {address} && a in evicted && m in ReleasesOf((table - {address})[a].held);
        assert a in table;
      }
    }
  }

  lemma OldestIsThere(table: Table, address: Address)
    requires IsOldest(table, address)
    ensures address in table
  {
  }

  lemma NothingReleased(table: Table)
    ensures Elements([]) == {} && ReleasesAt(table, {}) == {}
  {
  }
}
