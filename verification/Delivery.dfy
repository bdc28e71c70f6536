// A transport session over a network that loses, duplicates, reorders and forges.
//
// Encryption is ideal: a ciphertext opens under a key only if it was sealed under that key for that
// nonce, and only the sender seals. Everything else about the network is up to the adversary.
module Delivery {
  import opened Wrappers
  import opened Replay
  import opened Utf8

  type Key = nat
  type Bytes = seq<Byte>

  datatype Ciphertext =
    | Sealed(key: Key, nonce: Nonce, plaintext: Bytes)
    | Junk(bytes: Bytes)

  datatype Decrypted =
    | Plaintext(bytes: Bytes)
    | ReplayDetected(nonce: Nonce)
    | NotAuthentic

  predicate Opens(key: Key, nonce: Nonce, ciphertext: Ciphertext) {
    ciphertext.Sealed? && ciphertext.key == key && ciphertext.nonce == nonce
  }

  // What a receiver that has accepted `accepted` makes of a packet.
  function Received(key: Key, accepted: History, nonce: Nonce, ciphertext: Ciphertext): Decrypted {
    if !Fresh(accepted, nonce) then ReplayDetected(nonce)
    else if Opens(key, nonce, ciphertext) then Plaintext(ciphertext.plaintext)
    else NotAuthentic
  }

  function NextNonce(nonce: Nonce): Nonce {
    (nonce + 1) % U64
  }

  // ── The transport ────────────────────────────────────────────────────

  class NoiseTransport {
    const sendKey: Key
    const receiveKey: Key
    var sendNonce: Nonce
    const window: ReplayWindow

    constructor (sendKey: Key, receiveKey: Key)
      ensures this.sendKey == sendKey && this.receiveKey == receiveKey
      ensures sendNonce == 0
      ensures fresh(window) && window.Valid() && window.accepted == {}
    {
      this.sendKey, this.receiveKey := sendKey, receiveKey;
      sendNonce := 0;
      window := new ReplayWindow();
    }

    // The counter is an atomic 64-bit one, so it wraps. It advances before the cipher is asked, which may
    // refuse: a text that is too long, or a nonce that is reserved.
    method Encrypt(plaintext: Bytes, refused: bool) returns (nonce: Nonce, ciphertext: Option<Ciphertext>)
      modifies this`sendNonce
      ensures nonce == old(sendNonce) && sendNonce == NextNonce(old(sendNonce))
      ensures ciphertext == if refused then None else Some(Sealed(sendKey, nonce, plaintext))
    {
      nonce := sendNonce;
      sendNonce := NextNonce(sendNonce);
      ciphertext := if refused then None else Some(Sealed(sendKey, nonce, plaintext));
    }

    // The window is asked before the ciphertext is opened and told only once it has been.
    method Decrypt(nonce: Nonce, ciphertext: Ciphertext) returns (result: Decrypted)
      requires window.Valid()
      modifies window
      ensures window.Valid()
      ensures result == Received(receiveKey, old(window.accepted), nonce, ciphertext)
      ensures result.Plaintext? ==> window.accepted == old(window.accepted) + {nonce}
      ensures !result.Plaintext? ==> unchanged(window)
    {
      var ok := window.Check(nonce);
      if !ok {
        return ReplayDetected(nonce);
      }
      if !Opens(receiveKey, nonce, ciphertext) {
        return NotAuthentic;
      }
      window.Update(nonce);
      return Plaintext(ciphertext.plaintext);
    }
  }

  // ── Whole runs ───────────────────────────────────────────────────────

  // A sender and a receiver sharing `key`: the sender's counter, what was sealed and under which nonce,
  // in order, and what came out.
  datatype Link = Link(counter: Nonce, sent: seq<(Nonce, Bytes)>, accepted: History, delivered: seq<(Nonce, Bytes)>)

  datatype Event =
    | Send(plaintext: Bytes, refused: bool)
    | Arrive(nonce: Nonce, ciphertext: Ciphertext)

  const EMPTY := Link(0, [], {}, [])

  predicate Genuine(key: Key, link: Link, ciphertext: Ciphertext) {
    exists p <- link.sent :: ciphertext == Sealed(key, p.0, p.1)
  }

  // Packets may be lost, repeated, reordered and made up, but not sealed under the session's key.
  predicate Possible(key: Key, link: Link, event: Event) {
    event.Arrive? && event.ciphertext.Sealed? && event.ciphertext.key == key
    ==> Genuine(key, link, event.ciphertext)
  }

  function Next(key: Key, link: Link, event: Event): Link {
    match event
    case Send(plaintext, refused) =>
      link.(counter := NextNonce(link.counter),
            sent := if refused then link.sent else link.sent + [(link.counter, plaintext)])
    case Arrive(nonce, ciphertext) =>
      match Received(key, link.accepted, nonce, ciphertext)
      case Plaintext(bytes) =>
        link.(accepted := link.accepted + {nonce}, delivered := link.delivered + [(nonce, bytes)])
      case _ => link
  }

  function After(key: Key, link: Link, events: seq<Event>): Link {
    if events == [] then link
    else Next(key, After(key, link, events[..|events| - 1]), events[|events| - 1])
  }

  ghost predicate PossibleRun(key: Key, events: seq<Event>) {
    forall i :: 0 <= i < |events| ==> Possible(key, After(key, EMPTY, events[..i]), events[i])
  }

  // Each delivered packet was sent, under the nonce it was sent with.
  ghost predicate OnlySent(link: Link) {
    forall k :: 0 <= k < |link.delivered| ==> link.delivered[k] in link.sent
  }

  predicate DistinctNonces(packets: seq<(Nonce, Bytes)>) {
    forall j, k :: 0 <= j < k < |packets| ==> packets[j].0 != packets[k].0
  }

  predicate AcceptedIsDelivered(link: Link) {
    && (forall k :: 0 <= k < |link.delivered| ==> link.delivered[k].0 in link.accepted)
    && (forall n <- link.accepted :: exists k :: 0 <= k < |link.delivered| && link.delivered[k].0 == n)
  }

  ghost predicate Honest(link: Link) {
    OnlySent(link) && DistinctNonces(link.delivered) && AcceptedIsDelivered(link)
  }

  lemma NextKeepsHonest(key: Key, link: Link, event: Event)
    requires Honest(link) && Possible(key, link, event)
    ensures Honest(Next(key, link, event))
  {
    var link' := Next(key, link, event);
    forall k | 0 <= k < |link'.delivered| ensures link'.delivered[k] in link'.sent {
      assert k < |link.delivered| ==> link.delivered[k] in link.sent;
    }
    forall n | n in link'.accepted
      ensures exists k :: 0 <= k < |link'.delivered| && link'.delivered[k].0 == n
    {
      if n in link.accepted {
        var k :| 0 <= k < |link.delivered| && link.delivered[k].0 == n;
        assert link'.delivered[k].0 == n;
      } else {
        assert link'.delivered[|link.delivered|].0 == n;
      }
    }
  }

  // Whatever the network does, only what was sent is delivered, and no nonce is delivered twice.
  lemma {:induction false} AtMostOnce(key: Key, events: seq<Event>)
    requires PossibleRun(key, events)
    ensures Honest(After(key, EMPTY, events))
  {
    if events == [] {
    } else {
      hide Honest, Next, Possible;
      var last := |events| - 1;
      var before := events[..last];
      assert forall i :: 0 <= i < last ==> before[..i] == events[..i];
      AtMostOnce(key, before);
      NextKeepsHonest(key, After(key, EMPTY, before), events[last]);
    }
  }

  // In any run, a genuine packet is delivered exactly when its nonce is new and fewer than 128
  // behind every nonce delivered before it; a packet that is not genuine changes nothing.
  lemma DeliveredExactlyWhenFresh(key: Key, events: seq<Event>, packet: Event)
    requires PossibleRun(key, events) && packet.Arrive?
    requires Possible(key, After(key, EMPTY, events), packet)
    ensures var link := After(key, EMPTY, events);
            Next(key, link, packet)
            == if Opens(key, packet.nonce, packet.ciphertext)
                  && (forall d <- link.delivered :: d.0 != packet.nonce && d.0 < packet.nonce + 128)
               then link.(accepted := link.accepted + {packet.nonce},
                          delivered := link.delivered + [(packet.nonce, packet.ciphertext.plaintext)])
               else link
  {
    AtMostOnce(key, events);
    var link := After(key, EMPTY, events);
    if forall d <- link.delivered :: d.0 != packet.nonce && d.0 < packet.nonce + WINDOW_SIZE {
      assert Fresh(link.accepted, packet.nonce);
    } else {
      var d :| d in link.delivered && !(d.0 != packet.nonce && d.0 < packet.nonce + WINDOW_SIZE);
      assert d.0 in link.accepted;
    }
  }

  // How often the sender was asked to seal.
  function Calls(events: seq<Event>): nat {
    if events == [] then 0
    else Calls(events[..|events| - 1]) + (if events[|events| - 1].Send? then 1 else 0)
  }

  // The counter is the number of calls, as far as 64 bits go.
  lemma {:induction false} CounterCountsCalls(key: Key, events: seq<Event>)
    ensures After(key, EMPTY, events).counter == Calls(events) % U64
  {
    if events == [] {
    } else {
      hide Received;
      CounterCountsCalls(key, events[..|events| - 1]);
      OneMoreCall(Calls(events[..|events| - 1]));
    }
  }

  lemma OneMoreCall(n: nat)
    ensures NextNonce(n % U64) == (n + 1) % U64
  {
  }

  // Two calls get the same nonce if and only if a multiple of 2^64 calls lies between them: never within
  // 2^64 calls, and the call after those gets the nonce of the first again.
  lemma NoncesRepeatAfterU64(key: Key, events: seq<Event>, more: seq<Event>)
    ensures Calls(events) <= Calls(events + more)
    ensures After(key, EMPTY, events).counter == After(key, EMPTY, events + more).counter
            <==> (Calls(events + more) - Calls(events)) % 0x1_0000_0000_0000_0000 == 0
  {
    CounterCountsCalls(key, events);
    CounterCountsCalls(key, events + more);
    MoreCalls(events, more);
    SameRemainder(Calls(events), Calls(events + more));
  }

  lemma {:induction false} MoreCalls(events: seq<Event>, more: seq<Event>)
    ensures Calls(events + more) >= Calls(events)
  {
    if more == [] {
      assert events + more == events;
    } else {
      MoreCalls(events, more[..|more| - 1]);
      assert (events + more)[..|events + more| - 1] == events + more[..|more| - 1];
    }
  }

  lemma SameRemainder(a: nat, b: nat)
    requires a <= b
    ensures a % U64 == b % U64 <==> (b - a) % U64 == 0
  {
  }

  // So within 2^64 calls the nonces of what was sealed rise.
  lemma {:induction false} NoncesRise(key: Key, events: seq<Event>)
    requires Calls(events) <= U64
    ensures var sent := After(key, EMPTY, events).sent;
            && (forall i, j :: 0 <= i < j < |sent| ==> sent[i].0 < sent[j].0)
            && (forall i :: 0 <= i < |sent| ==> sent[i].0 < Calls(events))
  {
    if events == [] {
    } else {
      hide Received;
      var before := events[..|events| - 1];
      NoncesRise(key, before);
      CounterCountsCalls(key, before);
      if events[|events| - 1].Send? {
        BelowLimit(Calls(before));
      }
    }
  }

  lemma BelowLimit(n: nat)
    requires n < U64
    ensures n % U64 == n
  {
  }

  // Then each message is delivered at most once: its nonce tells it from the others, and none comes out twice.
  lemma EachMessageAtMostOnce(key: Key, events: seq<Event>)
    requires PossibleRun(key, events) && Calls(events) <= U64
    ensures var link := After(key, EMPTY, events);
            && (forall i, j :: 0 <= i < j < |link.sent| ==> link.sent[i].0 < link.sent[j].0)
            && (forall k :: 0 <= k < |link.delivered| ==>
                  exists i :: 0 <= i < |link.sent| && link.sent[i] == link.delivered[k])
            && (forall j, k :: 0 <= j < k < |link.delivered| ==> link.delivered[j] != link.delivered[k])
  {
    AtMostOnce(key, events);
    NoncesRise(key, events);
    var link := After(key, EMPTY, events);
    hide After, Calls;
    forall k | 0 <= k < |link.delivered| ensures exists i :: 0 <= i < |link.sent| && link.sent[i] == link.delivered[k] {
      assert link.delivered[k] in link.sent;
    }
  }

  // The window costs nothing on a network that only reorders a little: if genuine packets arrive, each
  // under a nonce of its own and none of them overtaken by 128 places or more, all of them are delivered.
  lemma {:induction false} SlightReorderingLosesNothing(key: Key, link: Link, packets: seq<(Nonce, Bytes)>)
    requires link.accepted == {} && link.delivered == []
    requires forall j, k :: 0 <= j < k < |packets| ==>
               packets[j].0 != packets[k].0 && packets[j].0 < packets[k].0 as int + 128
    ensures var link' := After(key, link, Arrivals(key, packets));
            && link' == link.(accepted := link'.accepted, delivered := packets)
            && (forall n <- link'.accepted :: exists k :: 0 <= k < |packets| && packets[k].0 == n)
  {
    hide Next;
    if packets == [] {
    } else {
      var last := |packets| - 1;
      SlightReorderingLosesNothing(key, link, packets[..last]);
      var events := Arrivals(key, packets);
      assert events[..last] == Arrivals(key, packets[..last]);
      assert packets == packets[..last] + [packets[last]];
      NextArrives(key, After(key, link, events[..last]), packets, last);
    }
  }

  lemma NextArrives(key: Key, link: Link, packets: seq<(Nonce, Bytes)>, last: nat)
    requires last == |packets| - 1
    requires forall j :: 0 <= j < last ==>
               packets[j].0 != packets[last].0 && packets[j].0 < packets[last].0 + WINDOW_SIZE
    requires forall n <- link.accepted :: exists k :: 0 <= k < last && packets[..last][k].0 == n
    ensures var (nonce, bytes) := packets[last];
            var link' := Next(key, link, Arrive(nonce, Sealed(key, nonce, bytes)));
            && link' == link.(accepted := link.accepted + {nonce}, delivered := link.delivered + [packets[last]])
            && (forall n <- link'.accepted :: exists k :: 0 <= k < |packets| && packets[k].0 == n)
  {
    var nonce := packets[last].0;
    forall n | n in link.accepted ensures n != nonce && n < nonce + WINDOW_SIZE
                                  ensures exists k :: 0 <= k < |packets| && packets[k].0 == n {
      var k :| 0 <= k < last && packets[..last][k].0 == n;
      assert packets[k].0 == n;
    }
  }

  // The packets, as they arrive.
  function Arrivals(key: Key, packets: seq<(Nonce, Bytes)>): (events: seq<Event>)
    ensures |events| == |packets|
    ensures forall k :: 0 <= k < |packets| ==>
              events[k] == Arrive(packets[k].0, Sealed(key, packets[k].0, packets[k].1))
  {
    seq(|packets|, k requires 0 <= k < |packets| => Arrive(packets[k].0, Sealed(key, packets[k].0, packets[k].1)))
  }
}
