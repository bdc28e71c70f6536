// The anti-replay window of a transport session, and the delivery guarantee that follows from it.
//
// A 128-bit bitmap stands in for the set of every nonce accepted so far. `History` is that set;
// `ReplayWindow` is proved to answer as it would.
module Replay {
  import opened Bits

  const WINDOW_SIZE: nat := 128
  const U64: nat := 0x1_0000_0000_0000_0000

  type Nonce = n: nat | n < U64

  // ── The specification: the set of accepted nonces ────────────────────

  type History = set<Nonce>

  // A nonce is fresh when it was not accepted and fewer than 128 behind every accepted one.
  predicate Fresh(accepted: History, nonce: Nonce) {
    nonce !in accepted && forall m <- accepted :: m < nonce + WINDOW_SIZE
  }

  // ── The bitmap against the history ───────────────────────────────────

  // `maxNonce` is the highest accepted nonce, and for each of the 128 places from there down the
  // bitmap says whether the nonce in that place is accepted.
  ghost predicate Tracks(accepted: History, maxNonce: Nonce, bitmap: bv128) {
    && maxNonce in accepted
    && (forall m <- accepted :: m <= maxNonce)
    && (forall i :: 0 <= i < WINDOW_SIZE ==>
          (Bit(bitmap, i) <==> i <= maxNonce && maxNonce - i in accepted))
  }

  lemma FirstNonceTracks(nonce: Nonce)
    ensures Tracks({nonce}, nonce, 1)
  {
    hide Bit;
    forall i | 0 <= i < WINDOW_SIZE
      ensures Bit(1, i) <==> i <= nonce && nonce - i in {nonce}
    {
      BitOfOne(i);
    }
  }

  // A nonce far above the window leaves nothing of the old bitmap.
  lemma LeapTracks(accepted: History, maxNonce: Nonce, bitmap: bv128, nonce: Nonce)
    requires Tracks(accepted, maxNonce, bitmap) && nonce >= maxNonce + WINDOW_SIZE
    ensures Tracks(accepted + {nonce}, nonce, 1)
  {
    hide Bit;
    forall i | 0 <= i < WINDOW_SIZE
      ensures Bit(1, i) <==> i <= nonce && nonce - i in accepted + {nonce}
    {
      BitOfOne(i);
    }
  }

  lemma AdvanceTracks(accepted: History, maxNonce: Nonce, bitmap: bv128, nonce: Nonce)
    requires Tracks(accepted, maxNonce, bitmap) && maxNonce < nonce < maxNonce + WINDOW_SIZE
    ensures Tracks(accepted + {nonce}, nonce, Shifted(bitmap, nonce - maxNonce))
  {
    hide Bit, Shifted;
    var diff := nonce - maxNonce;
    var after := Shifted(bitmap, diff);
    forall i | 0 <= i < WINDOW_SIZE
      ensures Bit(after, i) <==> i <= nonce && nonce - i in accepted + {nonce}
    {
      BitOfShift(bitmap, diff, i);
    }
  }

  lemma LateTracks(accepted: History, maxNonce: Nonce, bitmap: bv128, nonce: Nonce)
    requires Tracks(accepted, maxNonce, bitmap) && nonce <= maxNonce < nonce + WINDOW_SIZE
    ensures Tracks(accepted + {nonce}, maxNonce, WithBit(bitmap, maxNonce - nonce))
  {
    hide Bit, WithBit;
    var diff := maxNonce - nonce;
    var after := WithBit(bitmap, diff);
    forall i | 0 <= i < WINDOW_SIZE
      ensures Bit(after, i) <==> i <= maxNonce && maxNonce - i in accepted + {nonce}
    {
      BitOfSet(bitmap, diff, i);
    }
  }

  // A nonce below the window has no place in the bitmap.
  lemma TooOldTracks(accepted: History, maxNonce: Nonce, bitmap: bv128, nonce: Nonce)
    requires Tracks(accepted, maxNonce, bitmap) && nonce + WINDOW_SIZE <= maxNonce
    ensures Tracks(accepted + {nonce}, maxNonce, bitmap)
  {
    hide Bit;
  }

  // ── The window ───────────────────────────────────────────────────────

  class ReplayWindow {
    var maxNonce: Nonce
    var bitmap: bv128
    var initialized: bool
    ghost var accepted: History

    ghost predicate Valid()
      reads this
    {
      && (initialized <==> accepted != {})
      && (initialized ==> Tracks(accepted, maxNonce, bitmap))
    }

    constructor ()
      ensures Valid() && accepted == {}
    {
      maxNonce, bitmap, initialized := 0, 0, false;
      accepted := {};
    }

    method Check(nonce: Nonce) returns (ok: bool)
      requires Valid()
      ensures ok <==> Fresh(accepted, nonce)
    {
      hide Bit;
      if !initialized {
        return true;
      }
      if nonce > maxNonce {
        return true;
      }
      var diff := maxNonce - nonce;
      if diff >= WINDOW_SIZE {
        return false;
      }
      MaskTest(bitmap, diff);
      assert Bit(bitmap, diff) <==> maxNonce - diff in accepted;
      return bitmap & ((1 as bv128) << diff) == 0;
    }

    method Update(nonce: Nonce)
      requires Valid()
      modifies this
      ensures Valid() && accepted == old(accepted) + {nonce}
    {
      hide Bit, Tracks, Shifted, WithBit;
      ghost var before := accepted;
      accepted := accepted + {nonce};
      if !initialized {
        FirstNonceTracks(nonce);
        assert accepted == {nonce};
        initialized, maxNonce, bitmap := true, nonce, 1;
        return;
      }
      if nonce > maxNonce {
        var diff := nonce - maxNonce;
        if diff >= WINDOW_SIZE {
          LeapTracks(before, maxNonce, bitmap, nonce);
          bitmap := 1;
        } else {
          AdvanceTracks(before, maxNonce, bitmap, nonce);
          bitmap := Shifted(bitmap, diff);
        }
        maxNonce := nonce;
      } else {
        var diff := maxNonce - nonce;
        if diff < WINDOW_SIZE {
          LateTracks(before, maxNonce, bitmap, nonce);
          bitmap := WithBit(bitmap, diff);
        } else {
          TooOldTracks(before, maxNonce, bitmap, nonce);
        }
      }
    }
  }
}
