// What one phone is holding down, and the messages that let go of it.
module Holds {
  import opened Messages

  // ── The specification ────────────────────────────────────────────────

  // The buttons held, and the modifiers each held key was last pressed with.
  datatype Held = Held(buttons: set<MouseButtonKind>, keys: map<U16, U8>)

  const NOTHING := Held({}, map[])

  function Observed(held: Held, message: ClientMessage): Held {
    match message
    case MouseButton(button, pressed) =>
      held.(buttons := if pressed then held.buttons + {button} else held.buttons - {button})
    case KeyPress(keycode, mods) => held.(keys := held.keys[keycode := mods])
    case KeyRelease(keycode, _) => held.(keys := held.keys - {keycode})
    case _ => held
  }

  // The messages that let go of everything held.
  function ReleasesOf(held: Held): set<ClientMessage> {
    (set k | k in held.keys :: KeyRelease(k, held.keys[k])) +
    (set b | b in held.buttons :: MouseButton(b, false))
  }

  predicate IsRelease(message: ClientMessage) {
    message.KeyRelease? || (message.MouseButton? && !message.pressed)
  }

  function Elements(messages: seq<ClientMessage>): set<ClientMessage> {
    set m | m in messages
  }

  // ── What observing messages adds up to ───────────────────────────────

  function AllObserved(messages: seq<ClientMessage>): Held {
    if messages == [] then NOTHING
    else Observed(AllObserved(messages[..|messages| - 1]), messages[|messages| - 1])
  }

  predicate NamesKey(message: ClientMessage, key: U16) {
    (message.KeyPress? || message.KeyRelease?) && message.keycode == key
  }

  predicate NamesButton(message: ClientMessage, button: MouseButtonKind) {
    message.MouseButton? && message.button == button
  }

  // The last message to name the key, or the button, is the `i`th.
  predicate LastForKey(messages: seq<ClientMessage>, key: U16, i: nat) {
    i < |messages| && NamesKey(messages[i], key) && forall j :: i < j < |messages| ==> !NamesKey(messages[j], key)
  }

  predicate LastForButton(messages: seq<ClientMessage>, button: MouseButtonKind, i: nat) {
    && i < |messages| && NamesButton(messages[i], button)
    && forall j :: i < j < |messages| ==> !NamesButton(messages[j], button)
  }

  // A key is held if and only if the last message to name it presses it, and with that press's modifiers.
  lemma {:induction false} KeyHeldByLastPress(messages: seq<ClientMessage>, key: U16, mods: U8)
    ensures key in AllObserved(messages).keys && AllObserved(messages).keys[key] == mods
            <==> exists i: nat :: LastForKey(messages, key, i) && messages[i] == KeyPress(key, mods)
  {
    if messages == [] {
    } else {
      var n := |messages| - 1;
      var before, last := messages[..n], messages[n];
      KeyHeldByLastPress(before, key, mods);
      if NamesKey(last, key) {
        assert LastForKey(messages, key, n);
      } else if exists i: nat :: LastForKey(before, key, i) && before[i] == KeyPress(key, mods) {
        var i: nat :| LastForKey(before, key, i) && before[i] == KeyPress(key, mods);
        assert LastForKey(messages, key, i);
      } else {
        assert forall i: nat :: LastForKey(messages, key, i) ==> LastForKey(before, key, i);
      }
    }
  }

  lemma {:induction false} ButtonHeldByLastPress(messages: seq<ClientMessage>, button: MouseButtonKind)
    ensures button in AllObserved(messages).buttons
            <==> exists i: nat :: LastForButton(messages, button, i) && messages[i].pressed
  {
    if messages == [] {
    } else {
      var n := |messages| - 1;
      var before, last := messages[..n], messages[n];
      ButtonHeldByLastPress(before, button);
      if NamesButton(last, button) {
        assert LastForButton(messages, button, n);
      } else if exists i: nat :: LastForButton(before, button, i) && before[i].pressed {
        var i: nat :| LastForButton(before, button, i) && before[i].pressed;
        assert LastForButton(messages, button, i);
      } else {
        assert forall i: nat :: LastForButton(messages, button, i) ==> LastForButton(before, button, i);
      }
    }
  }

  // ── The record kept for each session ─────────────────────────────────

  const BUTTONS: seq<MouseButtonKind> := [Left, Right, Middle]

  function ButtonSlot(button: MouseButtonKind): (slot: nat)
    ensures slot < 3 && BUTTONS[slot] == button
  {
    match button case Left => 0 case Right => 1 case Middle => 2
  }

  predicate DistinctKeys(keys: seq<(U16, U8)>) {
    forall i, j :: 0 <= i < j < |keys| ==> keys[i].0 != keys[j].0
  }

  function KeyMap(keys: seq<(U16, U8)>): map<U16, U8>
    requires DistinctKeys(keys)
  {
    map i | 0 <= i < |keys| :: keys[i].0 := keys[i].1
  }

  lemma KeyMapHas(keys: seq<(U16, U8)>, i: nat)
    requires DistinctKeys(keys) && i < |keys|
    ensures keys[i].0 in KeyMap(keys) && KeyMap(keys)[keys[i].0] == keys[i].1
  {
  }

  lemma KeyMapPair(keys: seq<(U16, U8)>, k: U16, v: U8)
    requires DistinctKeys(keys)
    ensures k in KeyMap(keys) && KeyMap(keys)[k] == v <==> (k, v) in keys
  {
    if (k, v) in keys {
      var i :| 0 <= i < |keys| && keys[i] == (k, v);
      KeyMapHas(keys, i);
    }
  }

  lemma SamePairElsewhere(keys: seq<(U16, U8)>, i: nat, mods: U8, pair: (U16, U8))
    requires i < |keys| && pair.0 != keys[i].0
    ensures pair in keys <==> pair in keys[i := (keys[i].0, mods)]
  {
    var keys' := keys[i := (keys[i].0, mods)];
    assert forall j :: 0 <= j < |keys| && j != i ==> keys'[j] == keys[j];
  }

  lemma KeyMapRepressed(keys: seq<(U16, U8)>, i: nat, mods: U8)
    requires DistinctKeys(keys) && i < |keys|
    ensures DistinctKeys(keys[i := (keys[i].0, mods)])
    ensures KeyMap(keys[i := (keys[i].0, mods)]) == KeyMap(keys)[keys[i].0 := mods]
  {
    hide KeyMap;
    var keys' := keys[i := (keys[i].0, mods)];
    var left, right := KeyMap(keys'), KeyMap(keys)[keys[i].0 := mods];
    KeyMapHas(keys', i);
    forall k: U16, v: U8 | k != keys[i].0 ensures (k, v) in keys <==> (k, v) in keys' {
      SamePairElsewhere(keys, i, mods, (k, v));
    }
    forall k | k in left ensures k in right && right[k] == left[k] {
      KeyMapPair(keys', k, left[k]);
      KeyMapPair(keys, k, left[k]);
    }
    forall k | k in right ensures k in left {
      if k != keys[i].0 {
        KeyMapPair(keys, k, right[k]);
        KeyMapPair(keys', k, right[k]);
      }
    }
  }

  lemma KeyMapPressed(keys: seq<(U16, U8)>, keycode: U16, mods: U8)
    requires DistinctKeys(keys) && forall i :: 0 <= i < |keys| ==> keys[i].0 != keycode
    ensures DistinctKeys(keys + [(keycode, mods)])
    ensures KeyMap(keys + [(keycode, mods)]) == KeyMap(keys)[keycode := mods]
  {
    var keys' := keys + [(keycode, mods)];
    forall k | k in KeyMap(keys)[keycode := mods]
      ensures k in KeyMap(keys') && KeyMap(keys')[k] == KeyMap(keys)[keycode := mods][k]
    {
      if k == keycode {
        KeyMapHas(keys', |keys|);
      } else {
        var j :| 0 <= j < |keys| && keys[j].0 == k;
        KeyMapHas(keys', j);
      }
    }
  }

  lemma KeyMapReleased(keys: seq<(U16, U8)>, keycode: U16, kept: seq<(U16, U8)>)
    requires DistinctKeys(keys) && DistinctKeys(kept)
    requires forall k <- kept :: k in keys && k.0 != keycode
    requires forall k <- keys :: k.0 != keycode ==> k in kept
    ensures KeyMap(kept) == KeyMap(keys) - {keycode}
  {
    hide KeyMap;
    var left, right := KeyMap(kept), KeyMap(keys) - {keycode};
    forall k | k in left ensures k in right && right[k] == left[k] {
      KeyMapPair(kept, k, left[k]);
      KeyMapPair(keys, k, left[k]);
    }
    forall k | k in right ensures k in left {
      KeyMapPair(keys, k, right[k]);
      KeyMapPair(kept, k, right[k]);
    }
  }

  // The place of a key in the list, or its end.
  function PlaceOf(keys: seq<(U16, U8)>, keycode: U16): (i: nat)
    ensures i <= |keys| && (i < |keys| ==> keys[i].0 == keycode)
    ensures forall j :: 0 <= j < i ==> keys[j].0 != keycode
  {
    if keys == [] || keys[0].0 == keycode then 0 else 1 + PlaceOf(keys[1..], keycode)
  }

  function Without(keys: seq<(U16, U8)>, keycode: U16): seq<(U16, U8)> {
    if keys == [] then []
    else
      var last := keys[|keys| - 1];
      Without(keys[..|keys| - 1], keycode) + (if last.0 == keycode then [] else [last])
  }

  // A key keeps its place while it is held.
  function KeysAfter(keys: seq<(U16, U8)>, message: ClientMessage): seq<(U16, U8)> {
    match message
    case KeyPress(keycode, mods) =>
      var i := PlaceOf(keys, keycode);
      if i < |keys| then keys[i := (keycode, mods)] else keys + [(keycode, mods)]
    case KeyRelease(keycode, _) => Without(keys, keycode)
    case _ => keys
  }

  lemma {:induction false} WithoutKey(keys: seq<(U16, U8)>, keycode: U16)
    requires DistinctKeys(keys)
    ensures DistinctKeys(Without(keys, keycode))
    ensures forall k :: k in Without(keys, keycode) <==> k in keys && k.0 != keycode
  {
    if keys == [] {
    } else {
      var before, last := keys[..|keys| - 1], keys[|keys| - 1];
      assert keys == before + [last];
      WithoutKey(before, keycode);
      forall k | k in before ensures k.0 != last.0 {
        var i :| 0 <= i < |before| && before[i] == k;
        assert keys[i] == k;
      }
    }
  }

  lemma KeysAfterMap(keys: seq<(U16, U8)>, message: ClientMessage)
    requires DistinctKeys(keys)
    ensures DistinctKeys(KeysAfter(keys, message))
    ensures forall buttons :: KeyMap(KeysAfter(keys, message)) == Observed(Held(buttons, KeyMap(keys)), message).keys
  {
    hide KeyMap;
    match message
    case KeyPress(keycode, mods) =>
      var i := PlaceOf(keys, keycode);
      if i < |keys| {
        KeyMapRepressed(keys, i, mods);
      } else {
        KeyMapPressed(keys, keycode, mods);
      }
    case KeyRelease(keycode, _) =>
      WithoutKey(keys, keycode);
      KeyMapReleased(keys, keycode, Without(keys, keycode));
    case _ =>
  }

  // ── In press order ───────────────────────────────────────────────────

  // The list after any messages.
  function AllKeys(messages: seq<ClientMessage>): seq<(U16, U8)> {
    if messages == [] then [] else KeysAfter(AllKeys(messages[..|messages| - 1]), messages[|messages| - 1])
  }

  lemma {:induction false} AllKeysMap(messages: seq<ClientMessage>)
    ensures DistinctKeys(AllKeys(messages)) && KeyMap(AllKeys(messages)) == AllObserved(messages).keys
  {
    hide KeyMap, KeysAfter;
    if messages == [] {
      NothingTaken([false, false, false]);
    } else {
      var before, last := messages[..|messages| - 1], messages[|messages| - 1];
      AllKeysMap(before);
      KeysAfterMap(AllKeys(before), last);
      var held := Held(AllObserved(before).buttons, KeyMap(AllKeys(before)));
      assert KeyMap(AllKeys(messages)) == Observed(held, last).keys;
    }
  }

  // The message since which a key is held.
  function Since(messages: seq<ClientMessage>, key: U16): (i: nat)
    requires key in AllObserved(messages).keys
    ensures i < |messages| && messages[i].KeyPress? && messages[i].keycode == key
    ensures key !in AllObserved(messages[..i]).keys
    ensures forall j :: i < j <= |messages| ==> key in AllObserved(messages[..j]).keys
  {
    var n := |messages| - 1;
    assert messages[..n + 1] == messages;
    if key in AllObserved(messages[..n]).keys then
      assert forall j :: 0 <= j <= n ==> messages[..n][..j] == messages[..j];
      Since(messages[..n], key)
    else n
  }

  ghost predicate InPressOrder(keys: seq<(U16, U8)>, messages: seq<ClientMessage>) {
    && (forall i :: 0 <= i < |keys| ==> keys[i].0 in AllObserved(messages).keys)
    && forall i, j :: 0 <= i < j < |keys| ==> Since(messages, keys[i].0) < Since(messages, keys[j].0)
  }

  lemma OneMoreInOrder(keys: seq<(U16, U8)>, key: (U16, U8), messages: seq<ClientMessage>)
    requires InPressOrder(keys, messages) && key.0 in AllObserved(messages).keys
    requires forall k <- keys :: k.0 in AllObserved(messages).keys && Since(messages, k.0) < Since(messages, key.0)
    ensures InPressOrder(keys + [key], messages)
  {
    hide AllObserved, Since;
  }

  lemma OneLessInOrder(keys: seq<(U16, U8)>, messages: seq<ClientMessage>)
    requires keys != [] && InPressOrder(keys, messages)
    ensures var before, last := keys[..|keys| - 1], keys[|keys| - 1];
            && InPressOrder(before, messages) && last.0 in AllObserved(messages).keys
            && forall k <- before :: k.0 in AllObserved(messages).keys && Since(messages, k.0) < Since(messages, last.0)
  {
    hide AllObserved, Since;
  }

  lemma {:induction false} WithoutInOrder(keys: seq<(U16, U8)>, keycode: U16, messages: seq<ClientMessage>)
    requires DistinctKeys(keys) && InPressOrder(keys, messages)
    ensures InPressOrder(Without(keys, keycode), messages)
  {
    hide AllObserved, InPressOrder;
    if keys == [] {
      EmptyInOrder(messages);
    } else {
      var before, last := keys[..|keys| - 1], keys[|keys| - 1];
      OneLessInOrder(keys, messages);
      WithoutInOrder(before, keycode, messages);
      WithoutKey(before, keycode);
      if last.0 != keycode {
        OneMoreInOrder(Without(before, keycode), last, messages);
      } else {
        assert Without(keys, keycode) == Without(before, keycode);
      }
    }
  }

  lemma EmptyInOrder(messages: seq<ClientMessage>)
    ensures InPressOrder([], messages)
  {
  }

  // Whoever stays in the list was in it since the same message.
  lemma StillInOrder(keys: seq<(U16, U8)>, messages: seq<ClientMessage>)
    requires messages != [] && InPressOrder(keys, messages[..|messages| - 1])
    requires forall i :: 0 <= i < |keys| ==> keys[i].0 in AllObserved(messages).keys
    ensures InPressOrder(keys, messages)
  {
  }

  // The list is always in the order in which its keys came to be held.
  lemma {:induction false} KeysInPressOrder(messages: seq<ClientMessage>)
    ensures InPressOrder(AllKeys(messages), messages)
  {
    hide KeyMap, InPressOrder, AllObserved;
    if messages == [] {
      EmptyInOrder(messages);
    } else {
      var before, last := messages[..|messages| - 1], messages[|messages| - 1];
      var keys, keys' := AllKeys(before), AllKeys(messages);
      KeysInPressOrder(before);
      AllKeysMap(before);
      AllKeysMap(messages);
      forall i | 0 <= i < |keys'| ensures keys'[i].0 in AllObserved(messages).keys {
        KeyMapHas(keys', i);
      }
      match last
      case KeyPress(keycode, mods) =>
        if PlaceOf(keys, keycode) < |keys| {
          SamePlaces(keys, PlaceOf(keys, keycode), mods, before);
          StillInOrder(keys', messages);
        } else {
          assert keys'[..|keys|] == keys;
          assert forall i :: 0 <= i < |keys| ==> keys'[i] == keys[i];
          StillInOrder(keys, messages);
          KeyMapLacks(keys, keycode);
          assert keys'[|keys|].0 == keycode;
          NewestLast(keys, (keycode, mods), messages);
        }
      case KeyRelease(keycode, _) =>
        WithoutInOrder(keys, keycode, before);
        StillInOrder(keys', messages);
      case _ => StillInOrder(keys', messages);
    }
  }

  lemma SamePlaces(keys: seq<(U16, U8)>, i: nat, mods: U8, messages: seq<ClientMessage>)
    requires i < |keys| && InPressOrder(keys, messages)
    ensures InPressOrder(keys[i := (keys[i].0, mods)], messages)
  {
  }

  lemma KeyMapLacks(keys: seq<(U16, U8)>, keycode: U16)
    requires DistinctKeys(keys) && PlaceOf(keys, keycode) == |keys|
    ensures keycode !in KeyMap(keys)
  {
  }

  // A key not held before is held since the last message.
  lemma NewestLast(keys: seq<(U16, U8)>, key: (U16, U8), messages: seq<ClientMessage>)
    requires messages != [] && InPressOrder(keys, messages)
    requires InPressOrder(keys, messages[..|messages| - 1])
    requires key.0 in AllObserved(messages).keys && key.0 !in AllObserved(messages[..|messages| - 1]).keys
    ensures InPressOrder(keys + [key], messages)
  {
    hide AllObserved;
    forall k | k in keys
      ensures k.0 in AllObserved(messages).keys && Since(messages, k.0) < Since(messages, key.0)
    {
      var i :| 0 <= i < |keys| && keys[i] == k;
    }
    OneMoreInOrder(keys, key, messages);
  }

  lemma {:induction false} KeyReleasesAt(keys: seq<(U16, U8)>, i: nat)
    requires i < |keys|
    ensures |KeyReleases(keys)| == |keys|
    ensures KeyReleases(keys)[i] == KeyRelease(keys[|keys| - 1 - i].0, keys[|keys| - 1 - i].1)
  {
    if i == |keys| - 1 {
      if i > 0 {
        KeyReleasesAt(keys[1..], 0);
      }
    } else {
      KeyReleasesAt(keys[1..], i);
    }
  }

  // So the releases of the keys come out newest first.
  lemma ReleasedNewestFirst(messages: seq<ClientMessage>, i: nat, j: nat)
    requires i < j < |KeyReleases(AllKeys(messages))|
    ensures var releases := KeyReleases(AllKeys(messages));
            && releases[i].KeyRelease? && releases[i].keycode in AllObserved(messages).keys
            && releases[j].KeyRelease? && releases[j].keycode in AllObserved(messages).keys
            && Since(messages, releases[i].keycode) > Since(messages, releases[j].keycode)
  {
    hide AllKeys;
    var keys := AllKeys(messages);
    KeyReleasesLength(keys);
    KeysInPressOrder(messages);
    KeyReleasesAt(keys, i);
    KeyReleasesAt(keys, j);
  }

  lemma {:induction false} KeyReleasesLength(keys: seq<(U16, U8)>)
    ensures |KeyReleases(keys)| == |keys|
  {
    if keys == [] {
    } else {
      KeyReleasesLength(keys[1..]);
    }
  }

  // The keys of `keys`, newest first, as releases.
  function KeyReleases(keys: seq<(U16, U8)>): seq<ClientMessage> {
    if keys == [] then [] else KeyReleases(keys[1..]) + [KeyRelease(keys[0].0, keys[0].1)]
  }

  // The held buttons from `slot` up, as releases.
  function ButtonReleases(buttons: seq<bool>, slot: nat): seq<ClientMessage>
    requires |buttons| == 3 && slot <= 3
    decreases 3 - slot
  {
    if slot == 3 then []
    else (if buttons[slot] then [MouseButton(BUTTONS[slot], false)] else []) + ButtonReleases(buttons, slot + 1)
  }

  function ButtonSet(buttons: seq<bool>): set<MouseButtonKind>
    requires |buttons| == 3
  {
    set b | buttons[ButtonSlot(b)]
  }

  lemma ButtonSetAfter(buttons: seq<bool>, button: MouseButtonKind, pressed: bool)
    requires |buttons| == 3
    ensures ButtonSet(buttons[ButtonSlot(button) := pressed])
            == if pressed then ButtonSet(buttons) + {button} else ButtonSet(buttons) - {button}
  {
    assert forall b :: b != button ==> ButtonSlot(b) != ButtonSlot(button);
  }

  lemma ButtonReleasesFrom(buttons: seq<bool>, slot: nat)
    requires |buttons| == 3 && slot < 3
    ensures ButtonReleases(buttons, slot)
            == (if buttons[slot] then [MouseButton(BUTTONS[slot], false)] else []) + ButtonReleases(buttons, slot + 1)
  {
  }

  lemma ButtonReleasesEnd(buttons: seq<bool>)
    requires |buttons| == 3
    ensures ButtonReleases(buttons, 3) == []
  {
  }

  lemma {:induction false} KeyReleasesHas(keys: seq<(U16, U8)>, message: ClientMessage)
    requires DistinctKeys(keys)
    ensures message in KeyReleases(keys) <==>
            message.KeyRelease? && message.keycode in KeyMap(keys) && message.mods == KeyMap(keys)[message.keycode]
  {
    hide KeyMap;
    if message.KeyRelease? {
      KeyMapPair(keys, message.keycode, message.mods);
    }
    if keys != [] {
      KeyReleasesHas(keys[1..], message);
      if message.KeyRelease? {
        KeyMapPair(keys[1..], message.keycode, message.mods);
      }
      assert keys == [keys[0]] + keys[1..];
    }
  }

  lemma ButtonReleasesHas(buttons: seq<bool>, message: ClientMessage)
    requires |buttons| == 3
    ensures message in ButtonReleases(buttons, 0) <==>
            message.MouseButton? && !message.pressed && message.button in ButtonSet(buttons)
  {
    assert ButtonReleases(buttons, 3) == [];
    assert ButtonReleases(buttons, 2) == if buttons[2] then [MouseButton(Middle, false)] else [];
  }

  lemma NothingTaken(buttons: seq<bool>)
    requires |buttons| == 3 && forall i :: 0 <= i < 3 ==> !buttons[i]
    ensures Held(ButtonSet(buttons), KeyMap([])) == NOTHING
  {
  }

  lemma TakenIsReleases(keys: seq<(U16, U8)>, buttons: seq<bool>)
    requires DistinctKeys(keys) && |buttons| == 3
    ensures Elements(KeyReleases(keys) + ButtonReleases(buttons, 0))
            == ReleasesOf(Held(ButtonSet(buttons), KeyMap(keys)))
  {
    hide KeyMap, ButtonSet, KeyReleases, ButtonReleases;
    var messages := KeyReleases(keys) + ButtonReleases(buttons, 0);
    forall m ensures m in messages <==> m in ReleasesOf(Held(ButtonSet(buttons), KeyMap(keys))) {
      KeyReleasesHas(keys, m);
      ButtonReleasesHas(buttons, m);
    }
  }

  class HeldInputs {
    var buttons: seq<bool>
    // In press order.
    var keys: seq<(U16, U8)>

    ghost predicate Valid()
      reads this
    {
      |buttons| == 3 && DistinctKeys(keys)
    }

    ghost function Contents(): Held
      requires Valid()
      reads this
    {
      Held(ButtonSet(buttons), KeyMap(keys))
    }

    constructor ()
      ensures Valid() && Contents() == NOTHING
    {
      buttons, keys := [false, false, false], [];
    }

    method Observe(message: ClientMessage)
      requires Valid()
      modifies this
      ensures Valid() && Contents() == Observed(old(Contents()), message)
      ensures keys == KeysAfter(old(keys), message)
    {
      hide KeyMap, ButtonSet;
      KeysAfterMap(keys, message);
      match message
      case MouseButton(button, pressed) =>
        ButtonSetAfter(buttons, button, pressed);
        buttons := buttons[ButtonSlot(button) := pressed];
      case KeyPress(keycode, mods) =>
        var i := 0;
        while i < |keys| && keys[i].0 != keycode
          invariant i <= |keys|
          invariant forall j :: 0 <= j < i ==> keys[j].0 != keycode
        {
          i := i + 1;
        }
        assert i == PlaceOf(keys, keycode);
        if i < |keys| {
          keys := keys[i := (keycode, mods)];
        } else {
          keys := keys + [(keycode, mods)];
        }
      case KeyRelease(keycode, _) =>
        var kept := [];
        for i := 0 to |keys|
          invariant unchanged(this)
          invariant kept == Without(keys[..i], keycode)
        {
          assert keys[..i + 1][..i] == keys[..i];
          if keys[i].0 != keycode {
            kept := kept + [keys[i]];
          }
        }
        assert keys[..|keys|] == keys;
        keys := kept;
      case _ =>
    }

    method IsEmpty() returns (empty: bool)
      requires Valid()
      ensures empty <==> Contents() == NOTHING
    {
      empty := !buttons[0] && !buttons[1] && !buttons[2] && keys == [];
      if !empty {
        if keys != [] {
          KeyMapHas(keys, 0);
        } else {
          var slot :| 0 <= slot < 3 && buttons[slot];
          assert ButtonSlot(BUTTONS[slot]) == slot;
          assert BUTTONS[slot] in ButtonSet(buttons);
        }
      }
    }

    // Hands over the releases for everything held, newest key first, and forgets it.
    method TakeReleaseMessages() returns (messages: seq<ClientMessage>)
      requires Valid()
      modifies this
      ensures Valid() && Contents() == NOTHING
      ensures messages == KeyReleases(old(keys)) + ButtonReleases(old(buttons), 0)
      ensures Elements(messages) == ReleasesOf(old(Contents()))
    {
      hide KeyMap, ButtonSet, ReleasesOf, Elements, ButtonReleases;
      TakenIsReleases(keys, buttons);
      messages := [];
      for i := |keys| downto 0
        invariant unchanged(this)
        invariant messages == KeyReleases(keys[i..])
      {
        assert keys[i..][1..] == keys[i + 1..];
        messages := messages + [KeyRelease(keys[i].0, keys[i].1)];
      }
      assert keys[0..] == keys;
      keys := [];
      var more := TakeButtonReleases();
      messages := messages + more;
      NothingTaken(buttons);
    }

    // The buttons' part of it.
    method TakeButtonReleases() returns (messages: seq<ClientMessage>)
      requires |buttons| == 3
      modifies this`buttons
      ensures |buttons| == 3 && forall i :: 0 <= i < 3 ==> !buttons[i]
      ensures messages == ButtonReleases(old(buttons), 0)
    {
      hide ButtonReleases;
      messages := [];
      var slot := 0;
      ButtonReleasesEnd(buttons);
      while slot < 3
        invariant slot <= 3 && |buttons| == 3
        invariant forall i :: 0 <= i < slot ==> !buttons[i]
        invariant forall i :: slot <= i < 3 ==> buttons[i] == old(buttons[i])
        invariant messages + ButtonReleases(old(buttons), slot) == ButtonReleases(old(buttons), 0)
      {
        ButtonReleasesFrom(old(buttons), slot);
        if buttons[slot] {
          buttons := buttons[slot := false];
          messages := messages + [MouseButton(BUTTONS[slot], false)];
        }
        slot := slot + 1;
      }
    }
  }
}
