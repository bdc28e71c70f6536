// The wire format of the messages: encoding onto a buffer, decoding from a cursor.
module Protocol {
  import opened Wrappers
  import opened Messages
  import opened Utf8

  datatype ProtocolError =
    | EmptyPacket
    | BufferTooShort(expected: nat, actual: nat)
    | UnknownMessageType(kind: U8)
    | InvalidUtf8
    | InvalidEnumValue(value: U8)
    | PayloadTooLarge(size: nat, max: nat)

  const MSG_TYPE_MOUSE_MOVE: U8 := 0x01
  const MSG_TYPE_MOUSE_BUTTON: U8 := 0x02
  const MSG_TYPE_SCROLL: U8 := 0x03
  const MSG_TYPE_KEY_PRESS: U8 := 0x04
  const MSG_TYPE_KEY_RELEASE: U8 := 0x05
  const MSG_TYPE_TEXT_INPUT: U8 := 0x06
  const MSG_TYPE_MEDIA_CMD: U8 := 0x07
  const MSG_TYPE_VOLUME_CMD: U8 := 0x08
  const MSG_TYPE_LOCK_SCREEN: U8 := 0x09
  const MSG_TYPE_CLIPBOARD_GET: U8 := 0x0E
  const MSG_TYPE_CLIPBOARD_SET: U8 := 0x0F
  const MSG_TYPE_LAUNCH_ACTION: U8 := 0x10
  const MSG_TYPE_NOW_PLAYING_Q: U8 := 0x11
  const MSG_TYPE_HOST_INFO_Q: U8 := 0x12
  const MSG_TYPE_CLIPBOARD_DATA: U8 := 0x80
  const MSG_TYPE_NOW_PLAYING: U8 := 0x81
  const MSG_TYPE_HOST_INFO: U8 := 0x82

  const U16_MAX: nat := 0xFFFF

  // ── Integers, least significant byte first ───────────────────────────

  function Le16(n: int): seq<Byte> {
    var u := n % 0x1_0000;
    [u % 0x100, u / 0x100]
  }

  function ReadU16(b: seq<Byte>): U16
    requires |b| >= 2
  {
    b[0] as int + 0x100 * b[1] as int
  }

  function Signed16(u: U16): I16 {
    if u < 0x8000 then u else u - 0x1_0000
  }

  const TWO32: nat := 0x1_0000_0000
  const TWO64: nat := 0x1_0000_0000_0000_0000

  function Le32(n: nat): seq<Byte>
    requires n < TWO32
  {
    Le16(n % 0x1_0000) + Le16(n / 0x1_0000)
  }

  function ReadU32(b: seq<Byte>): (n: nat)
    requires |b| >= 4
    ensures n < TWO32
  {
    ReadU16(b) + 0x1_0000 * ReadU16(b[2..])
  }

  function Le64(n: int): seq<Byte> {
    var u := n % TWO64;
    Le32(u % TWO32) + Le32(u / TWO32)
  }

  function ReadI64(b: seq<Byte>): I64
    requires |b| >= 8
  {
    var u := ReadU32(b) + TWO32 * ReadU32(b[4..]);
    if u < TWO64 / 2 then u else u - TWO64
  }

  lemma Read16(n: int, rest: seq<Byte>)
    ensures |Le16(n)| == 2
    ensures ReadU16(Le16(n) + rest) == n % 0x1_0000
    ensures (Le16(n) + rest)[2..] == rest
  {
  }

  lemma Read32(n: nat, rest: seq<Byte>)
    requires n < TWO32
    ensures |Le32(n)| == 4
    ensures ReadU32(Le32(n) + rest) == n
    ensures (Le32(n) + rest)[4..] == rest
  {
    hide Le16, ReadU16;
    var low, high := Le16(n % 0x1_0000), Le16(n / 0x1_0000);
    Read16(n % 0x1_0000, high + rest);
    Read16(n / 0x1_0000, rest);
    assert low + high + rest == low + (high + rest);
  }

  lemma Read64(n: I64, rest: seq<Byte>)
    ensures |Le64(n)| == 8
    ensures ReadI64(Le64(n) + rest) == n
    ensures (Le64(n) + rest)[8..] == rest
  {
    hide Le32, ReadU32, Le16, ReadU16;
    var u := n % TWO64;
    var low, high := Le32(u % TWO32), Le32(u / TWO32);
    Read32(u % TWO32, high + rest);
    Read32(u / TWO32, rest);
    assert low + high + rest == low + (high + rest);
  }

  // ── Enumerations as bytes ────────────────────────────────────────────

  function ButtonByte(button: MouseButtonKind): U8 {
    match button case Left => 0 case Right => 1 case Middle => 2
  }

  function ButtonOf(b: U8): Result<MouseButtonKind, ProtocolError> {
    match b case 0 => Ok(Left) case 1 => Ok(Right) case 2 => Ok(Middle) case _ => Err(InvalidEnumValue(b))
  }

  function MediaByte(action: MediaAction): U8 {
    match action case PlayPause => 0 case Next => 1 case Prev => 2 case Stop => 3
  }

  function MediaOf(b: U8): Result<MediaAction, ProtocolError> {
    match b
    case 0 => Ok(PlayPause) case 1 => Ok(Next) case 2 => Ok(Prev) case 3 => Ok(Stop)
    case _ => Err(InvalidEnumValue(b))
  }

  function VolumeByte(direction: VolumeDirection): U8 {
    match direction case Up => 0 case Down => 1 case Mute => 2
  }

  function VolumeOf(b: U8): Result<VolumeDirection, ProtocolError> {
    match b case 0 => Ok(Up) case 1 => Ok(Down) case 2 => Ok(Mute) case _ => Err(InvalidEnumValue(b))
  }

  function SystemByte(action: SystemAction): U8 {
    match action
    case ShowDesktop => 0 case TaskView => 1 case Browser => 2
    case FileManager => 3 case TaskManager => 4 case Screenshot => 5
  }

  function SystemOf(b: U8): Result<SystemAction, ProtocolError> {
    match b
    case 0 => Ok(ShowDesktop) case 1 => Ok(TaskView) case 2 => Ok(Browser)
    case 3 => Ok(FileManager) case 4 => Ok(TaskManager) case 5 => Ok(Screenshot)
    case _ => Err(InvalidEnumValue(b))
  }

  function OsByte(os: HostOs): U8 {
    match os case UnknownOs => 0 case Windows => 1 case MacOs => 2 case Linux => 3
  }

  // Any other byte is an unknown system, not an error.
  function OsOf(b: U8): HostOs {
    match b case 1 => Windows case 2 => MacOs case 3 => Linux case _ => UnknownOs
  }

  // ── Phone to server ──────────────────────────────────────────────────

  function EncodedText(kind: U8, text: string): Result<seq<Byte>, ProtocolError> {
    var bytes := Encode(text);
    if |bytes| > U16_MAX then Err(PayloadTooLarge(|bytes|, U16_MAX))
    else Ok([kind] + Le16(|bytes|) + bytes)
  }

  function Encoded(message: ClientMessage): Result<seq<Byte>, ProtocolError> {
    match message
    case MouseMove(dx, dy) => Ok([MSG_TYPE_MOUSE_MOVE] + Le16(dx) + Le16(dy))
    case MouseButton(button, pressed) =>
      Ok([MSG_TYPE_MOUSE_BUTTON, ButtonByte(button), if pressed then 1 else 0])
    case Scroll(delta) => Ok([MSG_TYPE_SCROLL] + Le16(delta))
    case KeyPress(keycode, mods) => Ok([MSG_TYPE_KEY_PRESS] + Le16(keycode) + [mods])
    case KeyRelease(keycode, mods) => Ok([MSG_TYPE_KEY_RELEASE] + Le16(keycode) + [mods])
    case TextInput(text) => EncodedText(MSG_TYPE_TEXT_INPUT, text)
    case MediaCmd(action) => Ok([MSG_TYPE_MEDIA_CMD, MediaByte(action)])
    case VolumeCmd(direction) => Ok([MSG_TYPE_VOLUME_CMD, VolumeByte(direction)])
    case LockScreen => Ok([MSG_TYPE_LOCK_SCREEN])
    case ClipboardGet => Ok([MSG_TYPE_CLIPBOARD_GET])
    case ClipboardSet(text) => EncodedText(MSG_TYPE_CLIPBOARD_SET, text)
    case LaunchAction(action) => Ok([MSG_TYPE_LAUNCH_ACTION, SystemByte(action)])
    case NowPlayingQuery => Ok([MSG_TYPE_NOW_PLAYING_Q])
    case HostInfoQuery => Ok([MSG_TYPE_HOST_INFO_Q])
  }

  // A length and that many bytes of UTF-8.
  function DecodedText(b: seq<Byte>): Result<string, ProtocolError> {
    if |b| < 2 then Err(BufferTooShort(2, |b|))
    else
      var length := ReadU16(b);
      var rest := b[2..];
      if |rest| < length then Err(BufferTooShort(length, |rest|))
      else
        match Decode(rest[..length])
        case None => Err(InvalidUtf8)
        case Some(text) => Ok(text)
  }

  function DecodedKey(b: seq<Byte>): Result<(U16, U8), ProtocolError> {
    if |b| < 3 then Err(BufferTooShort(3, |b|)) else Ok((ReadU16(b), b[2]))
  }

  function DecodedByte(b: seq<Byte>): Result<U8, ProtocolError> {
    if b == [] then Err(BufferTooShort(1, 0)) else Ok(b[0])
  }

  function Then<S, T>(r: Result<S, ProtocolError>, f: S -> Result<T, ProtocolError>): Result<T, ProtocolError> {
    match r case Err(e) => Err(e) case Ok(value) => f(value)
  }

  function Mapped<S, T>(r: Result<S, ProtocolError>, f: S -> T): Result<T, ProtocolError> {
    match r case Err(e) => Err(e) case Ok(value) => Ok(f(value))
  }

  function Decoded(packet: seq<Byte>): Result<ClientMessage, ProtocolError> {
    if packet == [] then Err(EmptyPacket) else DecodedAs(packet[0], packet[1..])
  }

  function DecodedAs(kind: U8, b: seq<Byte>): Result<ClientMessage, ProtocolError> {
    if kind == MSG_TYPE_MOUSE_MOVE then
      if |b| < 4 then Err(BufferTooShort(4, |b|))
      else Ok(MouseMove(Signed16(ReadU16(b)), Signed16(ReadU16(b[2..]))))
    else if kind == MSG_TYPE_MOUSE_BUTTON then
      if |b| < 2 then Err(BufferTooShort(2, |b|))
      else Mapped(ButtonOf(b[0]), button => MouseButton(button, b[1] != 0))
    else if kind == MSG_TYPE_SCROLL then
      if |b| < 2 then Err(BufferTooShort(2, |b|)) else Ok(Scroll(Signed16(ReadU16(b))))
    else if kind == MSG_TYPE_KEY_PRESS then
      Mapped(DecodedKey(b), (key: (U16, U8)) => KeyPress(key.0, key.1))
    else if kind == MSG_TYPE_KEY_RELEASE then
      Mapped(DecodedKey(b), (key: (U16, U8)) => KeyRelease(key.0, key.1))
    else if kind == MSG_TYPE_TEXT_INPUT then Mapped(DecodedText(b), text => TextInput(text))
    else if kind == MSG_TYPE_MEDIA_CMD then
      Mapped(Then(DecodedByte(b), MediaOf), action => MediaCmd(action))
    else if kind == MSG_TYPE_VOLUME_CMD then
      Mapped(Then(DecodedByte(b), VolumeOf), direction => VolumeCmd(direction))
    else if kind == MSG_TYPE_LOCK_SCREEN then Ok(LockScreen)
    else if kind == MSG_TYPE_CLIPBOARD_GET then Ok(ClipboardGet)
    else if kind == MSG_TYPE_CLIPBOARD_SET then Mapped(DecodedText(b), text => ClipboardSet(text))
    else if kind == MSG_TYPE_LAUNCH_ACTION then
      Mapped(Then(DecodedByte(b), SystemOf), action => LaunchAction(action))
    else if kind == MSG_TYPE_NOW_PLAYING_Q then Ok(NowPlayingQuery)
    else if kind == MSG_TYPE_HOST_INFO_Q then Ok(HostInfoQuery)
    else Err(UnknownMessageType(kind))
  }

  // ── Server to phone ──────────────────────────────────────────────────

  const MAX_NOW_PLAYING: nat := 255

  function Flags(state: NowPlayingState): (flags: U8)
    ensures flags < 32
  {
    var low := if state.isPlaying then 0x01 else 0;
    var title := if state.title.Some? then 0x02 else 0;
    var artist := if state.artist.Some? then 0x04 else 0;
    var album := if state.album.Some? then 0x08 else 0;
    var source := if state.sourceApp.Some? then 0x10 else 0;
    low + title + artist + album + source
  }

  // An absent or empty string is a zero length; a longer one is cut to fit its length byte.
  function EncodedStr(text: Option<string>): seq<Byte> {
    match text
    case None => [0]
    case Some(t) =>
      var bytes := Encode(Truncated(t, MAX_NOW_PLAYING));
      TruncatedIsLongest(t, MAX_NOW_PLAYING);
      [|bytes|] + bytes
  }

  function EncodedState(state: NowPlayingState): seq<Byte> {
    [Flags(state)] + Le64(state.positionMs.GetOr(-1)) + Le64(state.durationMs.GetOr(-1)) + EncodedStrings(state)
  }

  function EncodedStrings(state: NowPlayingState): seq<Byte> {
    EncodedStr(state.title) + EncodedStr(state.artist) + EncodedStr(state.album) + EncodedStr(state.sourceApp)
  }

  function EncodedReply(message: ServerMessage): Result<seq<Byte>, ProtocolError> {
    match message
    case ClipboardData(text) => EncodedText(MSG_TYPE_CLIPBOARD_DATA, text)
    case NowPlaying(state) => Ok([MSG_TYPE_NOW_PLAYING] + EncodedState(state))
    case HostInfoReply(info) =>
      Ok([MSG_TYPE_HOST_INFO, OsByte(info.os), info.capabilities, info.major, info.minor, info.patch])
  }

  // A string and what follows it.
  function DecodedStr(b: seq<Byte>, present: bool): Result<(Option<string>, seq<Byte>), ProtocolError> {
    var empty := if present then Some("") else None;
    if b == [] then Ok((empty, b))
    else
      var length, rest := b[0], b[1..];
      if length == 0 then Ok((empty, rest))
      else if |rest| < length then Err(BufferTooShort(length, |rest|))
      else
        match Decode(rest[..length])
        case None => Err(InvalidUtf8)
        case Some(text) => Ok((Some(text), rest[length..]))
  }

  function Positive(n: I64): Option<I64> {
    if n >= 0 then Some(n) else None
  }

  predicate HasFlag(flags: U8, bit: U8)
    requires bit != 0
  {
    flags / bit % 2 == 1
  }

  type Strings = (Option<string>, Option<string>, Option<string>, Option<string>)

  // The four strings of a reply, in order.
  function DecodedStrings(flags: U8, b: seq<Byte>): Result<Strings, ProtocolError> {
    match DecodedStr(b, HasFlag(flags, 0x02))
    case Err(e) => Err(e)
    case Ok((title, b1)) =>
      match DecodedStr(b1, HasFlag(flags, 0x04))
      case Err(e) => Err(e)
      case Ok((artist, b2)) =>
        match DecodedStr(b2, HasFlag(flags, 0x08))
        case Err(e) => Err(e)
        case Ok((album, b3)) =>
          match DecodedStr(b3, HasFlag(flags, 0x10))
          case Err(e) => Err(e)
          case Ok((sourceApp, _)) => Ok((title, artist, album, sourceApp))
  }

  function DecodedState(b: seq<Byte>): Result<NowPlayingState, ProtocolError> {
    if |b| < 17 then Err(BufferTooShort(17, |b|))
    else
      var flags, position, duration := b[0], ReadI64(b[1..]), ReadI64(b[9..]);
      match DecodedStrings(flags, b[17..])
      case Err(e) => Err(e)
      case Ok(strings) =>
        Ok(NowPlayingState(HasFlag(flags, 0x01), Positive(position), Positive(duration),
                           strings.0, strings.1, strings.2, strings.3))
  }

  function DecodedReply(packet: seq<Byte>): Result<ServerMessage, ProtocolError> {
    if packet == [] then Err(EmptyPacket)
    else
      var kind, b := packet[0], packet[1..];
      if kind == MSG_TYPE_CLIPBOARD_DATA then Mapped(DecodedText(b), text => ClipboardData(text))
      else if kind == MSG_TYPE_NOW_PLAYING then Mapped(DecodedState(b), state => NowPlaying(state))
      else if kind == MSG_TYPE_HOST_INFO then
        if |b| < 5 then Err(BufferTooShort(5, |b|))
        else Ok(HostInfoReply(HostInfo(OsOf(b[0]), b[1], b[2], b[3], b[4])))
      else Err(UnknownMessageType(kind))
  }

  // ── Round trips ──────────────────────────────────────────────────────

  lemma TextRoundTrip(kind: U8, text: string, rest: seq<Byte>)
    requires |Encode(text)| <= U16_MAX
    ensures DecodedText(Le16(|Encode(text)|) + Encode(text) + rest) == Ok(text)
  {
    hide Encode, Decode, Le16, ReadU16;
    var bytes := Encode(text);
    Read16(|bytes|, bytes + rest);
    assert Le16(|bytes|) + bytes + rest == Le16(|bytes|) + (bytes + rest);
    assert (bytes + rest)[..|bytes|] == bytes;
    DecodeUndoesEncode(text);
  }

  lemma TextMessageRoundTrip(message: ClientMessage, rest: seq<Byte>)
    requires message.TextInput? || message.ClipboardSet?
    requires Encoded(message).Ok?
    ensures Decoded(Encoded(message).value + rest) == Ok(message)
  {
    hide Encode, Le16, ReadU16, DecodedText;
    var text := if message.TextInput? then message.text else message.clip;
    var packet := Encoded(message).value + rest;
    TextRoundTrip(packet[0], text, rest);
    assert packet[1..] == Le16(|Encode(text)|) + Encode(text) + rest;
  }

  // Every message that can be encoded decodes to itself, whatever follows it in the packet.
  lemma ClientRoundTrip(message: ClientMessage, rest: seq<Byte>)
    requires Encoded(message).Ok?
    ensures Decoded(Encoded(message).value + rest) == Ok(message)
  {
    hide Encode, Le16, ReadU16, DecodedText, ButtonOf, MediaOf, VolumeOf, SystemOf;
    var packet := Encoded(message).value + rest;
    match message
    case MouseMove(_, _) => MoveRoundTrip(message, rest);
    case Scroll(_) => MoveRoundTrip(message, rest);
    case KeyPress(keycode, mods) =>
      KeyRoundTrip(keycode, mods, rest);
      assert packet[1..] == Le16(keycode) + [mods] + rest;
    case KeyRelease(keycode, mods) =>
      KeyRoundTrip(keycode, mods, rest);
      assert packet[1..] == Le16(keycode) + [mods] + rest;
    case TextInput(text) => TextMessageRoundTrip(message, rest);
    case ClipboardSet(text) => TextMessageRoundTrip(message, rest);
    case _ => ChoiceRoundTrip(message, rest);
  }

  lemma MoveRoundTrip(message: ClientMessage, rest: seq<Byte>)
    requires message.MouseMove? || message.Scroll?
    ensures Encoded(message).Ok? && Decoded(Encoded(message).value + rest) == Ok(message)
  {
    hide Encode, Le16, ReadU16, DecodedText, ButtonOf, MediaOf, VolumeOf, SystemOf;
    var packet := Encoded(message).value + rest;
    if message.MouseMove? {
      Read16(message.dx, Le16(message.dy) + rest);
      Read16(message.dy, rest);
      assert packet[1..] == Le16(message.dx) + (Le16(message.dy) + rest);
    } else {
      Read16(message.delta, rest);
      assert packet[1..] == Le16(message.delta) + rest;
    }
  }

  // The messages of one byte and of one choice.
  lemma ChoiceRoundTrip(message: ClientMessage, rest: seq<Byte>)
    requires !message.MouseMove? && !message.Scroll? && !message.KeyPress? && !message.KeyRelease?
    requires !message.TextInput? && !message.ClipboardSet?
    ensures Encoded(message).Ok? && Decoded(Encoded(message).value + rest) == Ok(message)
  {
    hide Encode, Le16, ReadU16, DecodedText;
  }

  lemma KeyRoundTrip(keycode: U16, mods: U8, rest: seq<Byte>)
    ensures DecodedKey(Le16(keycode) + [mods] + rest) == Ok((keycode, mods))
  {
    Read16(keycode, [mods] + rest);
    assert Le16(keycode) + [mods] + rest == Le16(keycode) + ([mods] + rest);
  }

  // Encoding fails only for a text that its 16-bit length cannot describe.
  lemma EncodingFailsOnlyForLongText(message: ClientMessage)
    ensures Encoded(message).Err? <==>
            || (message.TextInput? && |Encode(message.text)| > U16_MAX)
            || (message.ClipboardSet? && |Encode(message.clip)| > U16_MAX)
  {
  }

  // A packet cut short anywhere is refused as such, never taken for another message.
  lemma CutPacketsAreRefused(message: ClientMessage, k: nat)
    requires Encoded(message).Ok? && k < |Encoded(message).value|
    ensures Decoded(Encoded(message).value[..k]).Err?
    ensures var error := Decoded(Encoded(message).value[..k]).error; error.EmptyPacket? || error.BufferTooShort?
  {
    hide Encode, Decode, Le16, ReadU16, DecodedText, DecodedKey, ButtonOf, MediaOf, VolumeOf, SystemOf;
    var whole := Encoded(message).value;
    SixteenBitsAreTwoBytes();
    if k == 0 {
      assert whole[..0] == [];
    } else if message.TextInput? || message.ClipboardSet? {
      var bytes := Encode(if message.TextInput? then message.text else message.clip);
      assert whole == [whole[0]] + Le16(|bytes|) + bytes;
      CutTextIsRefused(bytes, k - 1);
      CutAfterKind(whole[0], Le16(|bytes|), bytes, k);
    } else {
      CutKeyIsRefused(whole[..k][1..]);
    }
  }

  lemma CutAfterKind(kind: U8, a: seq<Byte>, b: seq<Byte>, k: nat)
    requires 1 <= k <= 1 + |a| + |b|
    ensures ([kind] + a + b)[..k][1..] == (a + b)[..k - 1] && ([kind] + a + b)[..k][0] == kind
  {
    assert [kind] + a + b == [kind] + (a + b);
  }

  lemma CutKeyIsRefused(b: seq<Byte>)
    ensures |b| < 3 ==> DecodedKey(b) == Err(BufferTooShort(3, |b|))
  {
  }

  lemma SixteenBitsAreTwoBytes()
    ensures forall n: int :: |Le16(n)| == 2
  {
  }

  lemma CutTextIsRefused(bytes: seq<Byte>, k: nat)
    requires |bytes| <= U16_MAX && k < 2 + |bytes|
    ensures |Le16(|bytes|)| == 2
    ensures DecodedText((Le16(|bytes|) + bytes)[..k])
            == Err(if k < 2 then BufferTooShort(2, k) else BufferTooShort(|bytes|, k - 2))
  {
    hide Decode, Le16, ReadU16;
    SixteenBitsAreTwoBytes();
    if k >= 2 {
      Read16(|bytes|, bytes[..k - 2]);
      assert (Le16(|bytes|) + bytes)[..k] == Le16(|bytes|) + bytes[..k - 2];
    }
  }

  // ── What a reply carries ─────────────────────────────────────────────

  function Cut(text: Option<string>): Option<string> {
    match text case None => None case Some(t) => Some(Truncated(t, MAX_NOW_PLAYING))
  }

  function Shown(time: Option<I64>): Option<I64> {
    match time case None => None case Some(t) => Positive(t)
  }

  // A reply as the phone gets it: strings cut to 255 bytes, negative times left out.
  function Carried(message: ServerMessage): ServerMessage {
    match message
    case NowPlaying(s) =>
      NowPlaying(NowPlayingState(s.isPlaying, Shown(s.positionMs), Shown(s.durationMs),
                                 Cut(s.title), Cut(s.artist), Cut(s.album), Cut(s.sourceApp)))
    case _ => message
  }

  lemma StrRoundTrip(text: Option<string>, rest: seq<Byte>)
    ensures DecodedStr(EncodedStr(text) + rest, text.Some?) == Ok((Cut(text), rest))
  {
    hide Encode, Decode, Truncated;
    match text
    case None =>
    case Some(t) =>
      var cut := Truncated(t, MAX_NOW_PLAYING);
      var bytes := Encode(cut);
      TruncatedIsLongest(t, MAX_NOW_PLAYING);
      DecodeUndoesEncode(cut);
      EmptyEncoding(cut);
      assert (EncodedStr(text) + rest)[1..] == bytes + rest;
      assert (bytes + rest)[..|bytes|] == bytes && (bytes + rest)[|bytes|..] == rest;
  }

  lemma EmptyEncoding(text: string)
    ensures Encode(text) == [] <==> text == ""
  {
  }

  lemma FlagsRoundTrip(state: NowPlayingState)
    ensures HasFlag(Flags(state), 0x01) == state.isPlaying
    ensures HasFlag(Flags(state), 0x02) == state.title.Some?
    ensures HasFlag(Flags(state), 0x04) == state.artist.Some?
    ensures HasFlag(Flags(state), 0x08) == state.album.Some?
    ensures HasFlag(Flags(state), 0x10) == state.sourceApp.Some?
  {
  }

  lemma StringsRoundTrip(state: NowPlayingState, rest: seq<Byte>)
    ensures DecodedStrings(Flags(state), EncodedStrings(state) + rest)
            == Ok((Cut(state.title), Cut(state.artist), Cut(state.album), Cut(state.sourceApp)))
  {
    hide Flags, HasFlag, EncodedStr, DecodedStr, Cut;
    FlagsRoundTrip(state);
    var b3 := EncodedStr(state.sourceApp) + rest;
    var b2 := EncodedStr(state.album) + b3;
    var b1 := EncodedStr(state.artist) + b2;
    assert EncodedStrings(state) + rest == EncodedStr(state.title) + b1;
    StrRoundTrip(state.title, b1);
    StrRoundTrip(state.artist, b2);
    StrRoundTrip(state.album, b3);
    StrRoundTrip(state.sourceApp, rest);
  }

  lemma StateRoundTrip(state: NowPlayingState, rest: seq<Byte>)
    ensures DecodedState(EncodedState(state) + rest)
            == Ok(NowPlayingState(state.isPlaying, Shown(state.positionMs), Shown(state.durationMs),
                                  Cut(state.title), Cut(state.artist), Cut(state.album), Cut(state.sourceApp)))
  {
    hide Flags, HasFlag, EncodedStrings, DecodedStrings, Le64, ReadI64, Cut;
    var flags, strings := Flags(state), EncodedStrings(state) + rest;
    var position, duration := Le64(state.positionMs.GetOr(-1)), Le64(state.durationMs.GetOr(-1));
    var whole := EncodedState(state) + rest;
    FlagsRoundTrip(state);
    StringsRoundTrip(state, rest);
    Read64(state.positionMs.GetOr(-1), duration + strings);
    Read64(state.durationMs.GetOr(-1), strings);
    assert whole == [flags] + (position + (duration + strings));
    assert whole[1..] == position + (duration + strings);
    assert whole[9..] == duration + strings;
    assert whole[17..] == strings;
  }

  // Every reply that can be encoded decodes to what it carries, whatever follows it.
  lemma ServerRoundTrip(message: ServerMessage, rest: seq<Byte>)
    requires EncodedReply(message).Ok?
    ensures DecodedReply(EncodedReply(message).value + rest) == Ok(Carried(message))
  {
    hide EncodedState, DecodedState, Encode, Le16, ReadU16, DecodedText;
    var packet := EncodedReply(message).value + rest;
    match message
    case ClipboardData(text) =>
      TextRoundTrip(MSG_TYPE_CLIPBOARD_DATA, text, rest);
      assert packet[1..] == Le16(|Encode(text)|) + Encode(text) + rest;
    case NowPlaying(state) =>
      StateRoundTrip(state, rest);
      assert packet[1..] == EncodedState(state) + rest;
    case HostInfoReply(info) =>
  }
}
