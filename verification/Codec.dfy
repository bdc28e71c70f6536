// The encoder and decoder as they work: appending to a buffer, and moving a cursor along a packet.
module Codec {
  import opened Wrappers
  import opened Messages
  import opened Utf8
  import opened Protocol

  class BytesMut {
    var bytes: seq<Byte>

    constructor ()
      ensures bytes == []
    {
      bytes := [];
    }

    method PutU8(b: U8)
      modifies this
      ensures bytes == old(bytes) + [b]
    {
      bytes := bytes + [b];
    }

    method PutU16Le(n: int)
      modifies this
      ensures bytes == old(bytes) + Le16(n)
    {
      bytes := bytes + Le16(n);
    }

    method PutI64Le(n: I64)
      modifies this
      ensures bytes == old(bytes) + Le64(n)
    {
      bytes := bytes + Le64(n);
    }

    method PutSlice(slice: seq<Byte>)
      modifies this
      ensures bytes == old(bytes) + slice
    {
      bytes := bytes + slice;
    }
  }

  // A type byte, a 16-bit length and the text, unless it is too long for its length.
  method PutText(buf: BytesMut, kind: U8, text: string) returns (r: Result<(), ProtocolError>)
    modifies buf
    ensures match EncodedText(kind, text)
            case Ok(encoded) => r == Ok(()) && buf.bytes == old(buf.bytes) + encoded
            case Err(e) => r == Err(e) && buf.bytes == old(buf.bytes)
  {
    hide Encode, Le16;
    var encoded := Encode(text);
    if |encoded| > U16_MAX {
      return Err(PayloadTooLarge(|encoded|, U16_MAX));
    }
    buf.PutU8(kind);
    buf.PutU16Le(|encoded|);
    buf.PutSlice(encoded);
    return Ok(());
  }

  // A string of a reply: its length in one byte, backing off to a character boundary.
  method PutStr(buf: BytesMut, text: Option<string>)
    modifies buf
    ensures buf.bytes == old(buf.bytes) + EncodedStr(text)
  {
    hide Encode, Truncated, IsCharBoundary;
    match text
    case None =>
      buf.PutU8(0);
    case Some(t) =>
      EmptyEncoding(t);
      var encoded := Encode(t);
      if t == "" {
        WholeTextFits(t, MAX_NOW_PLAYING);
        buf.PutU8(0);
      } else {
        var end := BackOff(t, encoded);
        buf.PutU8(end);
        buf.PutSlice(encoded[..end]);
      }
  }

  // Where a string of a reply is cut.
  method BackOff(ghost t: string, encoded: seq<Byte>) returns (end: nat)
    requires encoded == Encode(t)
    ensures end <= 255 && end <= |encoded| && encoded[..end] == Encode(Truncated(t, MAX_NOW_PLAYING))
  {
    hide Encode, Truncated, IsCharBoundary;
    end := if |encoded| < 255 then |encoded| else 255;
    ghost var cut := Encode(Truncated(t, MAX_NOW_PLAYING));
    CutIsPrefix(t);
    if |encoded| > 255 {
      BoundariesBelow(t, MAX_NOW_PLAYING);
    } else {
      WholeTextFits(t, MAX_NOW_PLAYING);
      EndsAreBoundaries(encoded);
    }
    while !IsCharBoundary(encoded, end)
      invariant |cut| <= end <= 255 && end <= |encoded| && end <= |cut| + 3
      decreases end
    {
      end := end - 1;
    }
  }

  // Appends `message`, or leaves the buffer alone when it cannot be encoded.
  method EncodeClient(message: ClientMessage, buf: BytesMut) returns (r: Result<(), ProtocolError>)
    modifies buf
    ensures match Encoded(message)
            case Ok(encoded) => r == Ok(()) && buf.bytes == old(buf.bytes) + encoded
            case Err(e) => r == Err(e) && buf.bytes == old(buf.bytes)
  {
    hide Encode, Le16;
    r := Ok(());
    match message
    case MouseMove(dx, dy) =>
      buf.PutU8(MSG_TYPE_MOUSE_MOVE);
      buf.PutU16Le(dx);
      buf.PutU16Le(dy);
    case MouseButton(button, pressed) =>
      buf.PutU8(MSG_TYPE_MOUSE_BUTTON);
      buf.PutU8(ButtonByte(button));
      buf.PutU8(if pressed then 1 else 0);
    case Scroll(delta) =>
      buf.PutU8(MSG_TYPE_SCROLL);
      buf.PutU16Le(delta);
    case KeyPress(keycode, mods) =>
      buf.PutU8(MSG_TYPE_KEY_PRESS);
      buf.PutU16Le(keycode);
      buf.PutU8(mods);
    case KeyRelease(keycode, mods) =>
      buf.PutU8(MSG_TYPE_KEY_RELEASE);
      buf.PutU16Le(keycode);
      buf.PutU8(mods);
    case TextInput(text) =>
      r := PutText(buf, MSG_TYPE_TEXT_INPUT, text);
    case MediaCmd(action) =>
      buf.PutU8(MSG_TYPE_MEDIA_CMD);
      buf.PutU8(MediaByte(action));
    case VolumeCmd(direction) =>
      buf.PutU8(MSG_TYPE_VOLUME_CMD);
      buf.PutU8(VolumeByte(direction));
    case LockScreen =>
      buf.PutU8(MSG_TYPE_LOCK_SCREEN);
    case ClipboardGet =>
      buf.PutU8(MSG_TYPE_CLIPBOARD_GET);
    case ClipboardSet(text) =>
      r := PutText(buf, MSG_TYPE_CLIPBOARD_SET, text);
    case LaunchAction(action) =>
      buf.PutU8(MSG_TYPE_LAUNCH_ACTION);
      buf.PutU8(SystemByte(action));
    case NowPlayingQuery =>
      buf.PutU8(MSG_TYPE_NOW_PLAYING_Q);
    case HostInfoQuery =>
      buf.PutU8(MSG_TYPE_HOST_INFO_Q);
  }

  method PutState(buf: BytesMut, state: NowPlayingState)
    modifies buf
    ensures buf.bytes == old(buf.bytes) + EncodedState(state)
  {
    hide Le64, EncodedStrings;
    var flags := 0;
    if state.isPlaying {
      flags := flags + 0x01;
    }
    if state.title.Some? {
      flags := flags + 0x02;
    }
    if state.artist.Some? {
      flags := flags + 0x04;
    }
    if state.album.Some? {
      flags := flags + 0x08;
    }
    if state.sourceApp.Some? {
      flags := flags + 0x10;
    }
    assert flags == Flags(state);
    buf.PutU8(flags);
    buf.PutI64Le(state.positionMs.GetOr(-1));
    buf.PutI64Le(state.durationMs.GetOr(-1));
    PutStrings(buf, state);
  }

  method PutStrings(buf: BytesMut, state: NowPlayingState)
    modifies buf
    ensures buf.bytes == old(buf.bytes) + EncodedStrings(state)
  {
    hide EncodedStr;
    PutStr(buf, state.title);
    PutStr(buf, state.artist);
    PutStr(buf, state.album);
    PutStr(buf, state.sourceApp);
  }

  method EncodeServer(message: ServerMessage, buf: BytesMut) returns (r: Result<(), ProtocolError>)
    modifies buf
    ensures match EncodedReply(message)
            case Ok(encoded) => r == Ok(()) && buf.bytes == old(buf.bytes) + encoded
            case Err(e) => r == Err(e) && buf.bytes == old(buf.bytes)
  {
    hide Encode, Le16, EncodedState;
    r := Ok(());
    match message
    case ClipboardData(text) =>
      r := PutText(buf, MSG_TYPE_CLIPBOARD_DATA, text);
    case NowPlaying(state) =>
      buf.PutU8(MSG_TYPE_NOW_PLAYING);
      PutState(buf, state);
    case HostInfoReply(info) =>
      buf.PutU8(MSG_TYPE_HOST_INFO);
      buf.PutU8(OsByte(info.os));
      buf.PutU8(info.capabilities);
      buf.PutU8(info.major);
      buf.PutU8(info.minor);
      buf.PutU8(info.patch);
  }

  // ── Decoding ─────────────────────────────────────────────────────────

  method ReadText(packet: seq<Byte>) returns (r: Result<string, ProtocolError>)
    ensures r == DecodedText(packet)
  {
    hide Decode, ReadU16;
    var buf := packet;
    if |buf| < 2 {
      return Err(BufferTooShort(2, |buf|));
    }
    var length := ReadU16(buf);
    buf := buf[2..];
    if |buf| < length {
      return Err(BufferTooShort(length, |buf|));
    }
    match Decode(buf[..length])
    case None => return Err(InvalidUtf8);
    case Some(text) => return Ok(text);
  }

  method DecodeClient(packet: seq<Byte>) returns (r: Result<ClientMessage, ProtocolError>)
    ensures r == Decoded(packet)
  {
    hide DecodedText, ReadU16, Signed16;
    var buf := packet;
    if buf == [] {
      return Err(EmptyPacket);
    }
    var kind := buf[0];
    buf := buf[1..];
    if kind == MSG_TYPE_MOUSE_MOVE {
      if |buf| < 4 {
        return Err(BufferTooShort(4, |buf|));
      }
      var dx := Signed16(ReadU16(buf));
      buf := buf[2..];
      var dy := Signed16(ReadU16(buf));
      return Ok(MouseMove(dx, dy));
    } else if kind == MSG_TYPE_MOUSE_BUTTON {
      if |buf| < 2 {
        return Err(BufferTooShort(2, |buf|));
      }
      var button := ButtonOf(buf[0]);
      buf := buf[1..];
      match button
      case Err(e) => return Err(e);
      case Ok(value) => return Ok(MouseButton(value, buf[0] != 0));
    } else if kind == MSG_TYPE_SCROLL {
      if |buf| < 2 {
        return Err(BufferTooShort(2, |buf|));
      }
      return Ok(Scroll(Signed16(ReadU16(buf))));
    } else if kind == MSG_TYPE_KEY_PRESS || kind == MSG_TYPE_KEY_RELEASE {
      if |buf| < 3 {
        return Err(BufferTooShort(3, |buf|));
      }
      var keycode := ReadU16(buf);
      buf := buf[2..];
      var mods := buf[0];
      return Ok(if kind == MSG_TYPE_KEY_PRESS then KeyPress(keycode, mods) else KeyRelease(keycode, mods));
    } else if kind == MSG_TYPE_TEXT_INPUT || kind == MSG_TYPE_CLIPBOARD_SET {
      var text := ReadText(buf);
      match text
      case Err(e) => return Err(e);
      case Ok(value) => return Ok(if kind == MSG_TYPE_TEXT_INPUT then TextInput(value) else ClipboardSet(value));
    } else if kind == MSG_TYPE_MEDIA_CMD || kind == MSG_TYPE_VOLUME_CMD || kind == MSG_TYPE_LAUNCH_ACTION {
      if buf == [] {
        return Err(BufferTooShort(1, 0));
      }
      if kind == MSG_TYPE_MEDIA_CMD {
        return Mapped(MediaOf(buf[0]), action => MediaCmd(action));
      } else if kind == MSG_TYPE_VOLUME_CMD {
        return Mapped(VolumeOf(buf[0]), direction => VolumeCmd(direction));
      } else {
        return Mapped(SystemOf(buf[0]), action => LaunchAction(action));
      }
    } else if kind == MSG_TYPE_LOCK_SCREEN {
      return Ok(LockScreen);
    } else if kind == MSG_TYPE_CLIPBOARD_GET {
      return Ok(ClipboardGet);
    } else if kind == MSG_TYPE_NOW_PLAYING_Q {
      return Ok(NowPlayingQuery);
    } else if kind == MSG_TYPE_HOST_INFO_Q {
      return Ok(HostInfoQuery);
    }
    return Err(UnknownMessageType(kind));
  }

  // One string of a reply; the cursor moves past it.
  method ReadStr(buf: seq<Byte>, present: bool)
    returns (r: Result<Option<string>, ProtocolError>, rest: seq<Byte>)
    ensures match DecodedStr(buf, present)
            case Ok((text, after)) => r == Ok(text) && rest == after
            case Err(e) => r == Err(e)
  {
    hide Decode;
    rest := buf;
    if rest == [] {
      return Ok(if present then Some("") else None), rest;
    }
    var length := rest[0];
    rest := rest[1..];
    if length == 0 {
      return Ok(if present then Some("") else None), rest;
    }
    if |rest| < length {
      return Err(BufferTooShort(length, |rest|)), rest;
    }
    match Decode(rest[..length])
    case None => return Err(InvalidUtf8), rest;
    case Some(text) =>
      rest := rest[length..];
      return Ok(Some(text)), rest;
  }

  method ReadState(packet: seq<Byte>) returns (r: Result<NowPlayingState, ProtocolError>)
    ensures r == DecodedState(packet)
  {
    hide DecodedStr, HasFlag, ReadI64;
    var buf := packet;
    if |buf| < 17 {
      return Err(BufferTooShort(17, |buf|));
    }
    var flags := buf[0];
    buf := buf[1..];
    var position := ReadI64(buf);
    buf := buf[8..];
    var duration := ReadI64(buf);
    buf := buf[8..];
    assert buf == packet[17..] && packet[1..][8..] == packet[9..];
    var title, artist, album, sourceApp;
    title, buf := ReadStr(buf, HasFlag(flags, 0x02));
    if title.Err? {
      return Err(title.error);
    }
    artist, buf := ReadStr(buf, HasFlag(flags, 0x04));
    if artist.Err? {
      return Err(artist.error);
    }
    album, buf := ReadStr(buf, HasFlag(flags, 0x08));
    if album.Err? {
      return Err(album.error);
    }
    sourceApp, buf := ReadStr(buf, HasFlag(flags, 0x10));
    if sourceApp.Err? {
      return Err(sourceApp.error);
    }
    return Ok(NowPlayingState(HasFlag(flags, 0x01), Positive(position), Positive(duration),
                              title.value, artist.value, album.value, sourceApp.value));
  }

  method DecodeServer(packet: seq<Byte>) returns (r: Result<ServerMessage, ProtocolError>)
    ensures r == DecodedReply(packet)
  {
    hide DecodedText, DecodedState;
    var buf := packet;
    if buf == [] {
      return Err(EmptyPacket);
    }
    var kind := buf[0];
    buf := buf[1..];
    if kind == MSG_TYPE_CLIPBOARD_DATA {
      var text := ReadText(buf);
      return Mapped(text, value => ClipboardData(value));
    } else if kind == MSG_TYPE_NOW_PLAYING {
      var state := ReadState(buf);
      return Mapped(state, value => NowPlaying(value));
    } else if kind == MSG_TYPE_HOST_INFO {
      if |buf| < 5 {
        return Err(BufferTooShort(5, |buf|));
      }
      return Ok(HostInfoReply(HostInfo(OsOf(buf[0]), buf[1], buf[2], buf[3], buf[4])));
    }
    return Err(UnknownMessageType(kind));
  }

  lemma CutIsPrefix(text: string)
    ensures Encode(Truncated(text, MAX_NOW_PLAYING)) <= Encode(text)
    ensures |Encode(Truncated(text, MAX_NOW_PLAYING))| <= MAX_NOW_PLAYING
  {
    EncodePrefix(text, CharsWithin(text, MAX_NOW_PLAYING));
    TruncatedIsLongest(text, MAX_NOW_PLAYING);
  }

  lemma EndsAreBoundaries(bytes: seq<Byte>)
    ensures IsCharBoundary(bytes, 0) && IsCharBoundary(bytes, |bytes|)
  {
  }
}
