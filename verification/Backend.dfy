// What a computer's input looks like from outside: what is down, and how messages change it.
module InputBackend {
  import opened Messages
  import opened Holds
  import opened Keymap
  import opened LinuxInput
  import opened KeysDown

  datatype Desktop = Kde | OtherDesktop

  // The key usages and buttons that are down, and on Linux the evdev codes of the virtual keyboard
  // that are; `entry` and `desktop` are settings.
  datatype Backend = Backend(
    keys: set<U16>,
    buttons: set<MouseButtonKind>,
    codes: set<KeyCode>,
    entry: TextEntry,
    desktop: Desktop)

  function MediaCode(action: MediaAction): KeyCode {
    match action
    case PlayPause => KEY_PLAYPAUSE
    case Next => KEY_NEXTSONG
    case Prev => KEY_PREVIOUSSONG
    case Stop => KEY_STOPCD
  }

  function VolumeCode(direction: VolumeDirection): KeyCode {
    match direction
    case Up => KEY_VOLUMEUP
    case Down => KEY_VOLUMEDOWN
    case Mute => KEY_MUTE
  }

  // The chord a launch action is on this desktop; the others run a program and press nothing.
  function LaunchChord(action: SystemAction, desktop: Desktop): seq<KeyCode> {
    match action
    case ShowDesktop => [KEY_LEFTMETA, KEY_D]
    case TaskView => if desktop == Kde then [KEY_LEFTMETA, KEY_W] else [KEY_LEFTMETA]
    case Screenshot => [KEY_SYSRQ]
    case _ => []
  }

  // The keyboard events a message comes to.
  function KeyboardEvents(backend: Backend, message: ClientMessage): seq<RawEvent> {
    match message
    case KeyPress(keycode, mods) => KeyEventsOf(keycode, mods, true)
    case KeyRelease(keycode, mods) => KeyEventsOf(keycode, mods, false)
    case TextInput(text) => TextEventsOf(text, backend.entry)
    case MediaCmd(action) => Taps([MediaCode(action)])
    case VolumeCmd(direction) => Taps([VolumeCode(direction)])
    case LaunchAction(action) =>
      var chord := LaunchChord(action, backend.desktop);
      Presses(chord) + Releases(chord)
    case _ => []
  }

  // Clipboard and query messages are not input and change nothing.
  function Applied(backend: Backend, message: ClientMessage): Backend {
    var codes := DownAfter(backend.codes, KeyboardEvents(backend, message));
    match message
    case KeyPress(keycode, _) => backend.(keys := backend.keys + {keycode}, codes := codes)
    case KeyRelease(keycode, _) => backend.(keys := backend.keys - {keycode}, codes := codes)
    case MouseButton(button, pressed) =>
      backend.(buttons := if pressed then backend.buttons + {button} else backend.buttons - {button}, codes := codes)
    case _ => backend.(codes := codes)
  }

  // The numbers of the keys behind media, volume and desktop actions, in the kernel's list.
  lemma ActionKeys(backend: Backend)
    ensures KeyboardEvents(backend, MediaCmd(PlayPause)) == Taps([164])
    ensures KeyboardEvents(backend, MediaCmd(Next)) == Taps([163])
    ensures KeyboardEvents(backend, MediaCmd(Prev)) == Taps([165])
    ensures KeyboardEvents(backend, MediaCmd(Stop)) == Taps([166])
    ensures KeyboardEvents(backend, VolumeCmd(Up)) == Taps([115])
    ensures KeyboardEvents(backend, VolumeCmd(Down)) == Taps([114])
    ensures KeyboardEvents(backend, VolumeCmd(Mute)) == Taps([113])
    ensures KeyboardEvents(backend, LaunchAction(ShowDesktop)) == Presses([125, 32]) + Releases([125, 32])
    ensures var keys := if backend.desktop == Kde then [125, 17] else [125];
            KeyboardEvents(backend, LaunchAction(TaskView)) == Presses(keys) + Releases(keys)
    ensures KeyboardEvents(backend, LaunchAction(Screenshot)) == Presses([99]) + Releases([99])
    ensures forall action :: action in {Browser, FileManager, TaskManager} ==>
              KeyboardEvents(backend, LaunchAction(action)) == []
  {
    hide Taps;
    assert Presses([]) == [] && Releases([]) == [];
  }

  function AllApplied(backend: Backend, messages: seq<ClientMessage>): Backend {
    if messages == [] then backend
    else Applied(AllApplied(backend, messages[..|messages| - 1]), messages[|messages| - 1])
  }

  // ── Releases ─────────────────────────────────────────────────────────

  function KeysOfReleases(releases: set<ClientMessage>): set<U16> {
    set m | m in releases && m.KeyRelease? :: m.keycode
  }

  function ButtonsOfReleases(releases: set<ClientMessage>): set<MouseButtonKind> {
    set m | m in releases && m.MouseButton? :: m.button
  }

  function CodesOfReleases(releases: set<ClientMessage>): set<KeyCode> {
    set m, c | m in releases && m.KeyRelease? && c in CodesOf(m.keycode, m.mods) :: c
  }

  function Lifted(backend: Backend, releases: set<ClientMessage>): Backend {
    backend.(
      keys := backend.keys - KeysOfReleases(releases),
      buttons := backend.buttons - ButtonsOfReleases(releases),
      codes := backend.codes - CodesOfReleases(releases))
  }

  lemma LiftedOne(backend: Backend, release: ClientMessage)
    requires IsRelease(release)
    ensures Applied(backend, release) == Lifted(backend, {release})
  {
    hide CodesOf, KeyEventsOf, DownAfter;
    NoEvents(backend.codes);
    if release.KeyRelease? {
      DownAfterKey(backend.codes, release.keycode, release.mods, false);
      assert CodesOfReleases({release}) == CodesOf(release.keycode, release.mods);
      assert KeysOfReleases({release}) == {release.keycode};
      assert ButtonsOfReleases({release}) == {};
    } else {
      assert CodesOfReleases({release}) == {} && KeysOfReleases({release}) == {};
      assert ButtonsOfReleases({release}) == {release.button};
    }
  }

  lemma NoEvents(down: set<KeyCode>)
    ensures DownAfter(down, []) == down
  {
  }

  lemma LiftedTwice(backend: Backend, a: set<ClientMessage>, b: set<ClientMessage>)
    ensures Lifted(Lifted(backend, a), b) == Lifted(backend, a + b)
  {
    hide CodesOf;
    assert CodesOfReleases(a + b) == CodesOfReleases(a) + CodesOfReleases(b);
    assert KeysOfReleases(a + b) == KeysOfReleases(a) + KeysOfReleases(b);
    assert ButtonsOfReleases(a + b) == ButtonsOfReleases(a) + ButtonsOfReleases(b);
  }

  // Releases only lift what they name, so their order and repetition do not matter.
  lemma {:induction false} ReleasesLift(backend: Backend, messages: seq<ClientMessage>)
    requires forall m <- messages :: IsRelease(m)
    ensures AllApplied(backend, messages) == Lifted(backend, Elements(messages))
  {
    hide Applied, Lifted, IsRelease;
    if messages == [] {
      LiftedByNothing(backend);
    } else {
      var before, last := messages[..|messages| - 1], messages[|messages| - 1];
      ReleasesLift(backend, before);
      LiftedOne(AllApplied(backend, before), last);
      LiftedTwice(backend, Elements(before), {last});
      assert messages == before + [last];
      assert Elements(messages) == Elements(before) + {last};
    }
  }

  lemma LiftedByNothing(backend: Backend)
    ensures Lifted(backend, Elements([])) == backend
  {
  }

  // Only a key or button press puts anything down.
  lemma OnlyPressesPress(backend: Backend, message: ClientMessage)
    ensures Applied(backend, message).keys <=
            backend.keys + (if message.KeyPress? then {message.keycode} else {})
    ensures Applied(backend, message).buttons <=
            backend.buttons + (if message.MouseButton? && message.pressed then {message.button} else {})
    ensures Applied(backend, message).codes <=
            backend.codes + (if message.KeyPress? then CodesOf(message.keycode, message.mods) else {})
  {
    hide CodesOf, KeyEventsOf, DownAfter, TextEventsOf, Taps, Presses, Releases;
    NoEvents(backend.codes);
    match message
    case KeyPress(keycode, mods) => DownAfterKey(backend.codes, keycode, mods, true);
    case KeyRelease(keycode, mods) => DownAfterKey(backend.codes, keycode, mods, false);
    case TextInput(text) => TypingHoldsNothing(backend.codes, text, backend.entry);
    case MediaCmd(action) => DownAfterTaps(backend.codes, [MediaCode(action)]);
    case VolumeCmd(direction) => DownAfterTaps(backend.codes, [VolumeCode(direction)]);
    case LaunchAction(action) => DownAfterChord(backend.codes, LaunchChord(action, backend.desktop));
    case _ =>
  }

  // ── The input thread ─────────────────────────────────────────────────

  datatype Command = Apply(message: ClientMessage) | Halt

  // The backend once the thread has worked through `queue`; what is queued after a halt is lost.
  function Drained(backend: Backend, queue: seq<Command>): Backend
    decreases |queue|
  {
    if queue == [] || queue[0].Halt? then backend
    else Drained(Applied(backend, queue[0].message), queue[1..])
  }

  // The input thread and the queue in front of it.
  class InputWorker {
    var queue: seq<Command>
    var backend: Backend
    var running: bool

    ghost predicate Valid()
      reads this
    {
      Halt !in queue && (!running ==> queue == [])
    }

    // The backend when everything queued has been applied.
    ghost function Settled(): Backend
      reads this
    {
      Drained(backend, queue)
    }

    constructor (backend: Backend)
      ensures Valid() && running && Settled() == backend
    {
      queue, this.backend, running := [], backend, true;
    }

    method Send(message: ClientMessage)
      requires Valid()
      modifies this
      ensures Valid() && running == old(running)
      ensures Settled() == if running then Applied(old(Settled()), message) else old(Settled())
    {
      hide Applied;
      if running {
        DrainedMore(backend, queue, message);
        queue := queue + [Apply(message)];
      }
    }

    method SendAll(messages: seq<ClientMessage>)
      requires Valid()
      modifies this
      ensures Valid() && running == old(running)
      ensures Settled() == if running then AllApplied(old(Settled()), messages) else old(Settled())
    {
      hide Applied;
      for i := 0 to |messages|
        invariant Valid() && running == old(running)
        invariant Settled() == if running then AllApplied(old(Settled()), messages[..i]) else old(Settled())
      {
        assert messages[..i + 1][..i] == messages[..i];
        Send(messages[i]);
      }
      assert messages[..|messages|] == messages;
    }

    // The thread: applies commands in order until the queue is empty or it is told to halt.
    method Work()
      modifies this
      ensures backend == old(Settled()) && queue == []
      ensures running == (old(running) && Halt !in old(queue))
      decreases |queue|
    {
      hide Applied;
      var stop := false;
      while queue != [] && !stop
        invariant stop ==> backend == old(Settled()) && Halt in old(queue)
        invariant !stop ==> Settled() == old(Settled()) && (Halt in queue <==> Halt in old(queue))
        invariant running == old(running)
        decreases |queue|
      {
        var command := queue[0];
        match command {
          case Apply(message) => backend := Applied(backend, message);
          case Halt => stop := true;
        }
        queue := queue[1..];
      }
      queue := [];
      running := running && !stop;
    }

    // Halts the thread once the queue has been worked through.
    method Shutdown()
      requires Valid()
      modifies this
      ensures Valid() && !running
      ensures backend == Settled() == old(Settled())
    {
      DrainedHalt(backend, queue);
      queue := if running then queue + [Halt] else queue;
      Work();
    }
  }

  lemma {:induction false} DrainedMore(backend: Backend, queue: seq<Command>, message: ClientMessage)
    requires Halt !in queue
    ensures Drained(backend, queue + [Apply(message)]) == Applied(Drained(backend, queue), message)
    decreases |queue|
  {
    hide Applied;
    if queue == [] {
      assert queue + [Apply(message)] == [Apply(message)];
      assert Drained(Applied(backend, message), [Apply(message)][1..]) == Applied(backend, message);
    } else {
      DrainedMore(Applied(backend, queue[0].message), queue[1..], message);
      assert (queue + [Apply(message)])[1..] == queue[1..] + [Apply(message)];
    }
  }

  lemma {:induction false} DrainedHalt(backend: Backend, queue: seq<Command>)
    requires Halt !in queue
    ensures Drained(backend, queue + [Halt]) == Drained(backend, queue)
    decreases |queue|
  {
    hide Applied;
    if queue == [] {
      assert queue + [Halt] == [Halt];
    } else {
      DrainedHalt(Applied(backend, queue[0].message), queue[1..]);
      assert (queue + [Halt])[1..] == queue[1..] + [Halt];
    }
  }
}
