// The messages between a phone and the server.
module Messages {
  import opened Wrappers
  import opened Utf8

  type U8 = Byte
  type U16 = n: int | 0 <= n < 0x1_0000
  type I16 = n: int | -0x8000 <= n < 0x8000
  type I64 = n: int | -0x8000_0000_0000_0000 <= n < 0x8000_0000_0000_0000

  datatype MouseButtonKind = Left | Right | Middle

  datatype MediaAction = PlayPause | Next | Prev | Stop

  datatype VolumeDirection = Up | Down | Mute

  datatype SystemAction = ShowDesktop | TaskView | Browser | FileManager | TaskManager | Screenshot

  datatype HostOs = UnknownOs | Windows | MacOs | Linux

  datatype HostInfo = HostInfo(os: HostOs, capabilities: U8, major: U8, minor: U8, patch: U8)

  datatype NowPlayingState = NowPlayingState(
    isPlaying: bool,
    positionMs: Option<I64>,
    durationMs: Option<I64>,
    title: Option<string>,
    artist: Option<string>,
    album: Option<string>,
    sourceApp: Option<string>)

  datatype ClientMessage =
    | MouseMove(dx: I16, dy: I16)
    | MouseButton(button: MouseButtonKind, pressed: bool)
    | Scroll(delta: I16)
    | KeyPress(keycode: U16, mods: U8)
    | KeyRelease(keycode: U16, mods: U8)
    | TextInput(text: string)
    | MediaCmd(media: MediaAction)
    | VolumeCmd(direction: VolumeDirection)
    | LockScreen
    | ClipboardGet
    | ClipboardSet(clip: string)
    | LaunchAction(action: SystemAction)
    | NowPlayingQuery
    | HostInfoQuery

  datatype ServerMessage =
    | ClipboardData(data: string)
    | NowPlaying(state: NowPlayingState)
    | HostInfoReply(info: HostInfo)
}
