// The wire format byte by byte: what stands where in each packet.
module WireFormat {
  import opened Wrappers
  import opened Messages
  import opened Utf8
  import opened Protocol

  // ── Numbers ──────────────────────────────────────────────────────────

  // The number in two bytes from `i`, the lower first, and as a signed one.
  function Word(b: seq<Byte>, i: nat): nat
    requires i + 2 <= |b|
  {
    b[i] as int + 256 * b[i + 1] as int
  }

  function SignedWord(b: seq<Byte>, i: nat): int
    requires i + 2 <= |b|
  {
    if b[i + 1] < 128 then Word(b, i) else Word(b, i) - 65536
  }

  // The same in eight bytes.
  function SignedLong(b: seq<Byte>, i: nat): int
    requires i + 8 <= |b|
  {
    var low := Word(b, i) + 65536 * Word(b, i + 2);
    var high := Word(b, i + 4) + 65536 * Word(b, i + 6);
    var n := low + 4294967296 * high;
    if b[i + 7] < 128 then n else n - 18446744073709551616
  }

  // ── Phone to server ──────────────────────────────────────────────────

  // From the second byte, a length in two bytes and that many bytes of UTF-8.
  predicate TextAt(b: seq<Byte>, text: string) {
    |b| >= 3 && |b| >= 3 + Word(b, 1) && Decode(b[3..3 + Word(b, 1)]) == Some(text)
  }

  function ButtonNumber(button: MouseButtonKind): nat {
    if button == Left then 0 else if button == Right then 1 else 2
  }

  function MediaNumber(action: MediaAction): nat {
    if action == PlayPause then 0 else if action == Next then 1 else if action == Prev then 2 else 3
  }

  function VolumeNumber(direction: VolumeDirection): nat {
    if direction == Up then 0 else if direction == Down then 1 else 2
  }

  function SystemNumber(action: SystemAction): nat {
    if action == ShowDesktop then 0 else if action == TaskView then 1 else if action == Browser then 2
    else if action == FileManager then 3 else if action == TaskManager then 4 else 5
  }

  // The bytes are a packet with this message, whatever follows it.
  predicate Says(b: seq<Byte>, message: ClientMessage) {
    b != [] &&
    match message
    case MouseMove(dx, dy) => b[0] == 0x01 && |b| >= 5 && dx == SignedWord(b, 1) && dy == SignedWord(b, 3)
    case MouseButton(button, pressed) =>
      b[0] == 0x02 && |b| >= 3 && b[1] == ButtonNumber(button) && (pressed <==> b[2] != 0)
    case Scroll(delta) => b[0] == 0x03 && |b| >= 3 && delta == SignedWord(b, 1)
    case KeyPress(keycode, mods) => b[0] == 0x04 && |b| >= 4 && keycode == Word(b, 1) && mods == b[3]
    case KeyRelease(keycode, mods) => b[0] == 0x05 && |b| >= 4 && keycode == Word(b, 1) && mods == b[3]
    case TextInput(text) => b[0] == 0x06 && TextAt(b, text)
    case MediaCmd(action) => b[0] == 0x07 && |b| >= 2 && b[1] == MediaNumber(action)
    case VolumeCmd(direction) => b[0] == 0x08 && |b| >= 2 && b[1] == VolumeNumber(direction)
    case LockScreen => b[0] == 0x09
    case ClipboardGet => b[0] == 0x0E
    case ClipboardSet(text) => b[0] == 0x0F && TextAt(b, text)
    case LaunchAction(action) => b[0] == 0x10 && |b| >= 2 && b[1] == SystemNumber(action)
    case NowPlayingQuery => b[0] == 0x11
    case HostInfoQuery => b[0] == 0x12
  }

  // The length of a packet with this message.
  function Size(message: ClientMessage): nat {
    match message
    case MouseMove(_, _) => 5
    case MouseButton(_, _) => 3
    case Scroll(_) => 3
    case KeyPress(_, _) => 4
    case KeyRelease(_, _) => 4
    case TextInput(text) => 3 + |Encode(text)|
    case ClipboardSet(text) => 3 + |Encode(text)|
    case MediaCmd(_) => 2
    case VolumeCmd(_) => 2
    case LaunchAction(_) => 2
    case _ => 1
  }

  lemma TwoBytes(n: int)
    ensures var b := Le16(n); |b| == 2 && Word(b, 0) == n % 65536
    ensures -32768 <= n < 32768 ==> SignedWord(Le16(n), 0) == n
  {
  }

  lemma WordsMatch(b: seq<Byte>)
    requires |b| >= 3
    ensures ReadU16(b[1..]) == Word(b, 1) && Signed16(ReadU16(b[1..])) == SignedWord(b, 1)
    ensures |b| >= 5 ==> Signed16(ReadU16(b[1..][2..])) == SignedWord(b, 3)
  {
  }

  lemma TextMatches(b: seq<Byte>, text: string)
    requires b != []
    ensures DecodedText(b[1..]) == Ok(text) <==> TextAt(b, text)
  {
    hide Decode, ReadU16, Word;
    if |b| >= 3 {
      WordsMatch(b);
      assert b[1..][2..] == b[3..];
      var length := Word(b, 1);
      assert |b| >= 3 + length ==> b[3..][..length] == b[3..3 + length];
    }
  }

  // A packet decodes to a message if and only if the bytes say so.
  lemma DecodedSays(b: seq<Byte>, message: ClientMessage)
    ensures Decoded(b) == Ok(message) <==> Says(b, message)
  {
    hide Decode, DecodedText, ReadU16, Signed16, Word, SignedWord, TextAt;
    if b != [] {
      if |b| >= 3 {
        WordsMatch(b);
      }
      if message.TextInput? {
        TextMatches(b, message.text);
      } else if message.ClipboardSet? {
        TextMatches(b, message.clip);
      }
    }
  }

  lemma SizeOfEncoded(message: ClientMessage)
    requires Encoded(message).Ok?
    ensures |Encoded(message).value| == Size(message)
    ensures message.MouseButton? ==> Encoded(message).value[2] <= 1
  {
    hide Encode, Le16;
    SixteenBitsAreTwoBytes();
  }

  // The number in a word leaves no choice of its bytes.
  lemma SameWord(b: seq<Byte>, c: seq<Byte>, i: nat)
    requires i + 2 <= |b| && i + 2 <= |c| && (Word(b, i) == Word(c, i) || SignedWord(b, i) == SignedWord(c, i))
    ensures b[i] == c[i] && b[i + 1] == c[i + 1]
  {
  }

  lemma SameText(b: seq<Byte>, c: seq<Byte>, text: string)
    requires TextAt(b, text) && TextAt(c, text)
    ensures Word(b, 1) == Word(c, 1) == |Encode(text)| && b[3..3 + Word(b, 1)] == c[3..3 + Word(b, 1)] == Encode(text)
  {
    hide Encode, Decode, Word;
    EncodeUndoesDecode(b[3..3 + Word(b, 1)]);
    EncodeUndoesDecode(c[3..3 + Word(c, 1)]);
  }

  // Only one packet of its size says it.
  lemma OnePacket(message: ClientMessage, b: seq<Byte>, c: seq<Byte>)
    requires Says(b, message) && Says(c, message) && |b| == |c| == Size(message)
    requires message.MouseButton? ==> b[2] <= 1 && c[2] <= 1
    ensures b == c
  {
    hide Word, SignedWord, TextAt, Encode;
    if message.TextInput? || message.ClipboardSet? {
      OneTextPacket(if message.TextInput? then message.text else message.clip, b, c);
    } else {
      if |b| >= 3 && !message.MouseButton? {
        SameWord(b, c, 1);
      }
      if message.MouseMove? {
        SameWord(b, c, 3);
      }
    }
  }

  lemma OneTextPacket(text: string, b: seq<Byte>, c: seq<Byte>)
    requires TextAt(b, text) && TextAt(c, text) && b[0] == c[0] && |b| == |c| == 3 + |Encode(text)|
    ensures b == c
  {
    hide Word, SignedWord, Encode, Decode;
    SameText(b, c, text);
    SameWord(b, c, 1);
    assert b == b[..3] + b[3..] && c == c[..3] + c[3..];
  }

  // And a message is encoded as the bytes that say so with nothing after them and a plain 0 or 1 for
  // whether a button goes down.
  lemma EncodedSays(message: ClientMessage, b: seq<Byte>)
    ensures Encoded(message) == Ok(b) <==>
            Says(b, message) && |b| == Size(message) && (message.MouseButton? ==> b[2] <= 1)
  {
    hide Encoded, Decoded, Says, Encode;
    if Encoded(message).Ok? {
      var packet := Encoded(message).value;
      ClientRoundTrip(message, []);
      assert packet + [] == packet;
      DecodedSays(packet, message);
      SizeOfEncoded(message);
      if Says(b, message) && |b| == Size(message) && (message.MouseButton? ==> b[2] <= 1) {
        OnePacket(message, b, packet);
      }
    } else {
      LongTextIsNotSaid(message, b);
    }
  }

  lemma LongTextIsNotSaid(message: ClientMessage, b: seq<Byte>)
    requires Encoded(message).Err?
    ensures !Says(b, message)
  {
    hide Encode, Decode, Decoded;
    EncodingFailsOnlyForLongText(message);
    if Says(b, message) {
      SameText(b, b, if message.TextInput? then message.text else message.clip);
    }
  }

  // How many bytes of a packet must follow the first.
  function Need(kind: U8): nat {
    if kind == 0x01 then 4
    else if kind in {0x04, 0x05} then 3
    else if kind in {0x02, 0x03, 0x06, 0x0F} then 2
    else if kind in {0x07, 0x08, 0x10} then 1
    else 0
  }

  // What is wrong with the bytes, if they are no packet.
  predicate Wrong(b: seq<Byte>, error: ProtocolError) {
    if b == [] then error == EmptyPacket
    else if !(0x01 <= b[0] <= 0x09 || 0x0E <= b[0] <= 0x12) then error == UnknownMessageType(b[0])
    else if |b| - 1 < Need(b[0]) then error == BufferTooShort(Need(b[0]), |b| - 1)
    else if b[0] in {0x06, 0x0F} then WrongText(b, error)
    else
      && b[0] in {0x02, 0x07, 0x08, 0x10} && error == InvalidEnumValue(b[1])
      && b[1] > if b[0] == 0x10 then 5 else if b[0] == 0x07 then 3 else 2
  }

  predicate WrongText(b: seq<Byte>, error: ProtocolError)
    requires |b| >= 3
  {
    if |b| < 3 + Word(b, 1) then error == BufferTooShort(Word(b, 1), |b| - 3)
    else error == InvalidUtf8 && Decode(b[3..3 + Word(b, 1)]) == None
  }

  lemma TextWrong(b: seq<Byte>, error: ProtocolError)
    requires b != []
    ensures DecodedText(b[1..]) == Err(error) <==>
            if |b| < 3 then error == BufferTooShort(2, |b| - 1) else WrongText(b, error)
  {
    hide Decode, ReadU16, Word;
    if |b| >= 3 {
      WordsMatch(b);
      assert b[1..][2..] == b[3..];
      var length := Word(b, 1);
      assert |b| >= 3 + length ==> b[3..][..length] == b[3..3 + length];
    }
  }

  // Bytes are refused with an error if and only if that is what is wrong with them.
  lemma DecodedRefuses(b: seq<Byte>, error: ProtocolError)
    ensures Decoded(b) == Err(error) <==> Wrong(b, error)
  {
    hide Decode, DecodedText, ReadU16, Signed16, WrongText;
    if b != [] {
      TextWrong(b, error);
    }
  }

  // ── Server to phone ──────────────────────────────────────────────────

  // A string field from `i`: a length byte and that much UTF-8. One that is missing at the end of the
  // packet is as good as an empty one; whether an empty one is there at all is told by its flag.
  function FieldEnd(b: seq<Byte>, i: nat): nat {
    if i < |b| then i + 1 + b[i] else i
  }

  predicate FieldSays(b: seq<Byte>, i: nat, present: bool, text: Option<string>) {
    if i >= |b| || b[i] == 0 then text == if present then Some("") else None
    else text.Some? && i + 1 + b[i] <= |b| && Decode(b[i + 1..i + 1 + b[i]]) == text
  }

  predicate TimeSays(n: int, time: Option<I64>) {
    if n < 0 then time == None else time == Some(n)
  }

  // The flags from the lowest bit: playing, title, artist, album, source; then two times of eight bytes
  // and the four strings in the order of their flags.
  predicate StateSays(b: seq<Byte>, state: NowPlayingState) {
    && |b| >= 18
    && (state.isPlaying <==> b[1] % 2 == 1)
    && TimeSays(SignedLong(b, 2), state.positionMs)
    && TimeSays(SignedLong(b, 10), state.durationMs)
    && StringsSay(b, state.title, state.artist, state.album, state.sourceApp)
  }

  predicate StringsSay(b: seq<Byte>, title: Option<string>, artist: Option<string>, album: Option<string>,
                       sourceApp: Option<string>)
    requires |b| >= 18
  {
    var afterTitle := FieldEnd(b, 18);
    var afterArtist := FieldEnd(b, afterTitle);
    var afterAlbum := FieldEnd(b, afterArtist);
    && FieldSays(b, 18, b[1] / 2 % 2 == 1, title)
    && FieldSays(b, afterTitle, b[1] / 4 % 2 == 1, artist)
    && FieldSays(b, afterArtist, b[1] / 8 % 2 == 1, album)
    && FieldSays(b, afterAlbum, b[1] / 16 % 2 == 1, sourceApp)
  }

  predicate ReplySays(b: seq<Byte>, message: ServerMessage) {
    b != [] &&
    match message
    case ClipboardData(text) => b[0] == 0x80 && TextAt(b, text)
    case NowPlaying(state) => b[0] == 0x81 && StateSays(b, state)
    case HostInfoReply(info) =>
      && b[0] == 0x82 && |b| >= 6
      && (b[1] == 1 <==> info.os == Windows) && (b[1] == 2 <==> info.os == MacOs) && (b[1] == 3 <==> info.os == Linux)
      && info.capabilities == b[2] && info.major == b[3] && info.minor == b[4] && info.patch == b[5]
  }

  lemma FieldMatches(b: seq<Byte>, i: nat, present: bool, text: Option<string>)
    requires i <= |b|
    ensures var decoded := DecodedStr(b[i..], present);
            && (decoded.Ok? && decoded.value.0 == text <==> FieldSays(b, i, present, text))
            && (decoded.Ok? ==> FieldEnd(b, i) <= |b| && decoded.value.1 == b[FieldEnd(b, i)..])
  {
    hide Decode;
    if i < |b| && b[i] > 0 && i + 1 + b[i] <= |b| {
      assert b[i..][1..][..b[i]] == b[i + 1..i + 1 + b[i]];
    }
  }

  lemma LongsMatch(b: seq<Byte>, i: nat)
    requires i + 8 <= |b|
    ensures ReadI64(b[i..]) == SignedLong(b, i)
  {
  }

  // A reply decodes to a message if and only if the bytes say so.
  lemma DecodedReplySays(b: seq<Byte>, message: ServerMessage)
    ensures DecodedReply(b) == Ok(message) <==> ReplySays(b, message)
  {
    hide DecodedText, DecodedState, StateSays, Word, TextAt;
    if b != [] {
      match message
      case ClipboardData(text) => TextMatches(b, text);
      case NowPlaying(state) => StateMatches(b, state);
      case HostInfoReply(_) =>
    }
  }

  lemma StateMatches(b: seq<Byte>, state: NowPlayingState)
    requires b != []
    ensures DecodedState(b[1..]) == Ok(state) <==> StateSays(b, state)
  {
    hide Decode, DecodedStrings, StringsSay, ReadI64, SignedLong;
    if |b| >= 18 {
      LongsMatch(b, 2);
      LongsMatch(b, 10);
      assert b[1..][1..] == b[2..] && b[1..][9..] == b[10..] && b[1..][17..] == b[18..];
      StringsMatch(b, state.title, state.artist, state.album, state.sourceApp);
    }
  }

  lemma StringsMatch(b: seq<Byte>, title: Option<string>, artist: Option<string>, album: Option<string>,
                     sourceApp: Option<string>)
    requires |b| >= 18
    ensures DecodedStrings(b[1], b[18..]) == Ok((title, artist, album, sourceApp)) <==>
            StringsSay(b, title, artist, album, sourceApp)
  {
    hide DecodedStr, FieldSays, FieldEnd;
    FieldMatches(b, 18, HasFlag(b[1], 0x02), title);
    if DecodedStr(b[18..], HasFlag(b[1], 0x02)).Ok? {
      var i := FieldEnd(b, 18);
      FieldMatches(b, i, HasFlag(b[1], 0x04), artist);
      if DecodedStr(b[i..], HasFlag(b[1], 0x04)).Ok? {
        var j := FieldEnd(b, i);
        FieldMatches(b, j, HasFlag(b[1], 0x08), album);
        if DecodedStr(b[j..], HasFlag(b[1], 0x08)).Ok? {
          FieldMatches(b, FieldEnd(b, j), HasFlag(b[1], 0x10), sourceApp);
        }
      }
    }
  }

  // A reply is refused for its length only if it is a text longer than two bytes can say.
  lemma ReplyFailsOnlyForLongText(message: ServerMessage)
    ensures EncodedReply(message).Err? <==> message.ClipboardData? && |Encode(message.data)| > 65535
  {
  }

  // Otherwise its bytes say what it carries and nothing more; a time that is not known is -1.
  lemma EncodedReplySays(message: ServerMessage, b: seq<Byte>)
    requires EncodedReply(message) == Ok(b)
    ensures ReplySays(b, Carried(message))
    ensures message.ClipboardData? ==> |b| == 3 + |Encode(message.data)|
    ensures message.HostInfoReply? ==> |b| == 6 && b[1] <= 3
    ensures message.NowPlaying? ==> StateIsExact(b, message.state)
  {
    hide Encode, Le16, EncodedState, Carried, ReplySays, StateIsExact;
    ServerRoundTrip(message, []);
    assert b + [] == b;
    DecodedReplySays(b, Carried(message));
    SixteenBitsAreTwoBytes();
    if message.NowPlaying? {
      StateExactly(message.state, b);
    }
  }

  // A string of at most 255 bytes arrives as it is, and of a longer one the most that fits.
  lemma WhatArrives(text: string)
    ensures var cut := Cut(Some(text)).value;
            && cut <= text && |Encode(cut)| <= 255
            && (|Encode(text)| <= 255 ==> cut == text)
            && (|cut| < |text| ==> |Encode(text[..|cut| + 1])| > 255)
  {
    hide Encode;
    var cut := Cut(Some(text)).value;
    TruncatedIsLongest(text, 255);
    if |Encode(text)| <= 255 {
      WholeTextFits(text, 255);
    }
  }

  predicate StateIsExact(b: seq<Byte>, state: NowPlayingState) {
    && |b| >= 18 && b[1] < 32
    && SignedLong(b, 2) == state.positionMs.GetOr(-1) && SignedLong(b, 10) == state.durationMs.GetOr(-1)
    && var last := FieldEnd(b, FieldEnd(b, FieldEnd(b, 18)));
       last < |b| && FieldEnd(b, last) == |b|
  }

  lemma StateExactly(state: NowPlayingState, b: seq<Byte>)
    requires b == [0x81] + EncodedState(state)
    ensures StateIsExact(b, state)
  {
    hide Flags, EncodedStrings, Le64, SignedLong, FieldEnd;
    var position, duration := state.positionMs.GetOr(-1), state.durationMs.GetOr(-1);
    Read64(position, []);
    Read64(duration, []);
    assert b[2..] == Le64(position) + (Le64(duration) + EncodedStrings(state));
    assert b[10..] == Le64(duration) + EncodedStrings(state);
    TimeExactly(b, 2, position, Le64(duration) + EncodedStrings(state));
    TimeExactly(b, 10, duration, EncodedStrings(state));
    FieldsExactly(b, state);
  }

  lemma TimeExactly(b: seq<Byte>, i: nat, time: I64, rest: seq<Byte>)
    requires i + 8 <= |b| && b[i..] == Le64(time) + rest
    ensures SignedLong(b, i) == time
  {
    hide Le64, ReadI64, SignedLong;
    Read64(time, rest);
    LongsMatch(b, i);
  }

  lemma FieldsExactly(b: seq<Byte>, state: NowPlayingState)
    requires |b| >= 18 && b[18..] == EncodedStrings(state)
    ensures var last := FieldEnd(b, FieldEnd(b, FieldEnd(b, 18)));
            last < |b| && FieldEnd(b, last) == |b|
  {
    hide EncodedStr, FieldEnd;
    var title, artist := EncodedStr(state.title), EncodedStr(state.artist);
    var album, source := EncodedStr(state.album), EncodedStr(state.sourceApp);
    var i := 18 + |title|;
    var j := i + |artist|;
    assert b[18..] == title + (artist + (album + source));
    FieldExactly(b, 18, state.title, artist + (album + source));
    FieldExactly(b, i, state.artist, album + source);
    FieldExactly(b, j, state.album, source);
    FieldExactly(b, j + |album|, state.sourceApp, []);
  }

  lemma FieldExactly(b: seq<Byte>, i: nat, text: Option<string>, rest: seq<Byte>)
    requires i <= |b| && b[i..] == EncodedStr(text) + rest
    ensures i < |b| && FieldEnd(b, i) == i + |EncodedStr(text)| <= |b|
    ensures b[i + |EncodedStr(text)|..] == rest
  {
    hide EncodedStr;
    FieldLength(text);
    var field := EncodedStr(text);
    assert b[i] == b[i..][0] == field[0];
    assert b[i + |field|..] == b[i..][|field|..];
  }

  lemma FieldLength(text: Option<string>)
    ensures var field := EncodedStr(text); field != [] && |field| == 1 + field[0] as int
  {
    hide Encode, Truncated;
  }
}
