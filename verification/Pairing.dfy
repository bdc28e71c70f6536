// Who is allowed to connect: paired devices, and new ones by a window or an invitation.
module Pairings {
  import opened Wrappers
  import opened Sessions

  type Secret = seq<bv8>

  // ── The specification ────────────────────────────────────────────────

  datatype Invitation = Invitation(token: Secret, until: Time)

  datatype PairingState = PairingState(
    trusted: set<PublicKey>,
    acceptAny: bool,
    windowUntil: Option<Time>,
    invitation: Option<Invitation>)

  datatype PairingMode =
    | AcceptAny
    | Window(duration: Time)
    | WhenUnpaired(duration: Time)
    | Closed

  datatype Admission = Known | NewlyPaired | Rejected

  function Started(trusted: set<PublicKey>, mode: PairingMode, now: Time): PairingState {
    var shut := PairingState(trusted, false, None, None);
    match mode
    case AcceptAny => shut.(acceptAny := true)
    case Window(duration) => shut.(windowUntil := Some(now + duration))
    case WhenUnpaired(duration) => if trusted == {} then shut.(windowUntil := Some(now + duration)) else shut
    case Closed => shut
  }

  predicate WindowOpen(state: PairingState, now: Time) {
    state.windowUntil.Some? && now < state.windowUntil.value
  }

  predicate InvitationAccepts(state: PairingState, token: Secret, now: Time) {
    && state.invitation.Some?
    && now < state.invitation.value.until
    && state.invitation.value.token == token
  }

  function Decision(state: PairingState, client: PublicKey, token: Secret, now: Time): Admission {
    if client in state.trusted then Known
    else if InvitationAccepts(state, token, now) || state.acceptAny || WindowOpen(state, now) then NewlyPaired
    else Rejected
  }

  // A new device is remembered, shuts the window behind it and uses up the invitation it came by.
  function Admitted(state: PairingState, client: PublicKey, token: Secret, now: Time): PairingState {
    if Decision(state, client, token, now) != NewlyPaired then state
    else state.(
      trusted := state.trusted + {client},
      windowUntil := None,
      invitation := if InvitationAccepts(state, token, now) then None else state.invitation)
  }

  // ── The gate ─────────────────────────────────────────────────────────

  // Whether two secrets are the same, looking at every byte of them.
  method SecretsEqual(a: Secret, b: Secret) returns (equal: bool)
    ensures equal <==> a == b
  {
    if |a| != |b| {
      return false;
    }
    var difference: bv8 := 0;
    for i := 0 to |a|
      invariant difference == 0 <==> a[..i] == b[..i]
    {
      DifferenceGrows(difference, a[i], b[i]);
      assert a[..i + 1] == a[..i] + [a[i]] && b[..i + 1] == b[..i] + [b[i]];
      difference := difference | (a[i] ^ b[i]);
    }
    assert a[..|a|] == a && b[..|a|] == b;
    return difference == 0;
  }

  lemma DifferenceGrows(difference: bv8, x: bv8, y: bv8)
    ensures difference | (x ^ y) == 0 <==> difference == 0 && x == y
  {
  }

  class Pairing {
    var trusted: set<PublicKey>
    var acceptAny: bool
    var windowUntil: Option<Time>
    var invitation: Option<Invitation>

    function State(): PairingState
      reads this
    {
      PairingState(trusted, acceptAny, windowUntil, invitation)
    }

    constructor (trusted: set<PublicKey>, mode: PairingMode, now: Time)
      ensures State() == Started(trusted, mode, now)
    {
      this.trusted := trusted;
      acceptAny, windowUntil, invitation := false, None, None;
      new;
      match mode
      case AcceptAny => acceptAny := true;
      case Window(duration) => OpenWindow(now, duration);
      case WhenUnpaired(duration) =>
        if trusted == {} {
          OpenWindow(now, duration);
        }
      case Closed =>
    }

    method OpenWindow(now: Time, duration: Time)
      modifies this
      ensures State() == old(State()).(windowUntil := Some(now + duration))
    {
      windowUntil := Some(now + duration);
    }

    method CloseWindow()
      modifies this
      ensures State() == old(State()).(windowUntil := None)
    {
      windowUntil := None;
    }

    // `token` comes from the secure random number generator.
    method Invite(token: Secret, now: Time, ttl: Time)
      modifies this
      ensures State() == old(State()).(invitation := Some(Invitation(token, now + ttl)))
    {
      invitation := Some(Invitation(token, now + ttl));
    }

    method CancelInvitation()
      modifies this
      ensures State() == old(State()).(invitation := None)
    {
      invitation := None;
    }

    method Accepts(token: Secret, now: Time) returns (accepted: bool)
      ensures accepted <==> InvitationAccepts(State(), token, now)
    {
      match invitation
      case None => accepted := false;
      case Some(current) =>
        if now < current.until {
          accepted := SecretsEqual(current.token, token);
        } else {
          accepted := false;
        }
    }

    // Whether the device may connect. Saving the new list may fail; it is trusted all the same.
    method AdmitWithToken(client: PublicKey, token: Secret, now: Time) returns (admission: Admission)
      modifies this
      ensures admission == Decision(old(State()), client, token, now)
      ensures State() == Admitted(old(State()), client, token, now)
    {
      if client in trusted {
        return Known;
      }
      var invited := Accepts(token, now);
      var open := acceptAny || (windowUntil.Some? && now < windowUntil.value);
      if !invited && !open {
        return Rejected;
      }
      if invited {
        invitation := None;
      }
      trusted := trusted + {client};
      windowUntil := None;
      return NewlyPaired;
    }

    method ForgetAll()
      modifies this
      ensures State() == old(State()).(trusted := {}, invitation := None)
    {
      invitation := None;
      trusted := {};
    }
  }
}
