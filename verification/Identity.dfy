// The server's identity: one key file, whichever process creates it first.
module Identity {
  import opened Wrappers

  type Data = seq<bv8>

  const KEY_LEN: nat := 32

  // ── The file system ──────────────────────────────────────────────────

  datatype Name = KeyPath | Temp(random: nat)

  // Names refer to files, and more than one name may refer to the same.
  datatype Files = Files(names: map<Name, nat>, data: seq<Data>)

  predicate WellFormed(files: Files) {
    forall n <- files.names :: files.names[n] < |files.data|
  }

  function Contents(files: Files): map<Name, Data>
    requires WellFormed(files)
  {
    map n | n in files.names :: files.data[files.names[n]]
  }

  function Created(files: Files, name: Name): Files {
    Files(files.names[name := |files.data|], files.data + [[]])
  }

  function Appended(files: Files, file: nat, bytes: Data): Files
    requires file < |files.data|
  {
    files.(data := files.data[file := files.data[file] + bytes])
  }

  function Linked(files: Files, from: Name, to: Name): Files
    requires from in files.names
  {
    files.(names := files.names[to := files.names[from]])
  }

  function Removed(files: Files, name: Name): Files {
    files.(names := files.names - {name})
  }

  datatype LinkResult = LinkMade | AlreadyExists | Refused

  lemma AppendedTwice(files: Files, file: nat, a: Data, b: Data)
    requires file < |files.data|
    ensures Appended(Appended(files, file, a), file, b) == Appended(files, file, a + b)
    ensures Appended(files, file, []) == files
  {
    assert files.data[file] + a + b == files.data[file] + (a + b);
    assert files.data[file] + [] == files.data[file];
  }

  lemma WrittenOut(files: Files, name: Name, bytes: Data)
    ensures Appended(Created(files, name), |files.data|, bytes)
            == Files(files.names[name := |files.data|], files.data + [bytes])
  {
    assert [] + bytes == bytes;
  }

  lemma ContentsAfter(files: Files, name: Name, bytes: Data)
    requires WellFormed(files)
    ensures var data := files.data + [bytes];
            && WellFormed(Files(files.names, data)) && Contents(Files(files.names, data)) == Contents(files)
            && WellFormed(Files(files.names[name := |files.data|], data))
            && Contents(Files(files.names[name := |files.data|], data)) == Contents(files)[name := bytes]
  {
  }

  lemma NamesAfter(names: map<Name, nat>, tmp: Name, path: Name, file: nat)
    requires tmp !in names && tmp != path
    ensures names[tmp := file] - {tmp} == names
    ensures names[tmp := file][path := file] - {tmp} == names[path := file]
  {
  }

  class Disk {
    var files: Files
    // Whether the file system has hard links.
    const links: bool

    constructor (files: Files, links: bool)
      ensures this.files == files && this.links == links
    {
      this.files, this.links := files, links;
    }

    method HardLink(from: Name, to: Name) returns (result: LinkResult)
      requires from in files.names
      modifies this
      ensures result == if to in old(files).names then AlreadyExists else if links then LinkMade else Refused
      ensures files == if result == LinkMade then Linked(old(files), from, to) else old(files)
    {
      if to in files.names {
        result := AlreadyExists;
      } else if links {
        files := Linked(files, from, to);
        result := LinkMade;
      } else {
        result := Refused;
      }
    }

    method Rename(from: Name, to: Name)
      requires from in files.names && from != to
      modifies this
      ensures files == Removed(Linked(old(files), from, to), from)
    {
      files := Removed(Linked(files, from, to), from);
    }

    // Writes as much at a time as the system takes.
    method WriteAll(file: nat, bytes: Data)
      requires file < |files.data|
      modifies this
      ensures files == Appended(old(files), file, bytes)
    {
      var done := 0;
      AppendedTwice(files, file, [], []);
      while done < |bytes|
        invariant done <= |bytes|
        invariant files == Appended(old(files), file, bytes[..done])
      {
        var count :| 1 <= count <= |bytes| - done;
        assert bytes[..done + count] == bytes[..done] + bytes[done..done + count];
        AppendedTwice(old(files), file, bytes[..done], bytes[done..done + count]);
        files := Appended(files, file, bytes[done..done + count]);
        done := done + count;
      }
      assert bytes[..|bytes|] == bytes;
    }

    // Writes `bytes` to `path` by way of the temporary `tmp`. Without `replace` an existing file is
    // left alone, and the answer says whether this call wrote it.
    method AtomicWrite(path: Name, bytes: Data, replace: bool, tmp: Name) returns (written: Option<bool>)
      requires WellFormed(files) && tmp != path
      modifies this
      ensures WellFormed(files)
      ensures written == if tmp in old(files).names then None else Some(replace || path !in old(files).names)
      ensures Contents(files) ==
              if written == Some(true) then Contents(old(files))[path := bytes] else Contents(old(files))
    {
      hide Contents, WellFormed;
      if tmp in files.names {
        return None;
      }
      ContentsAfter(files, path, bytes);
      var file := |files.data|;
      files := Created(files, tmp);
      WriteAll(file, bytes);
      WrittenOut(old(files), tmp, bytes);
      var won := MoveInto(path, replace, tmp);
      files := Removed(files, tmp);
      NamesAfter(old(files).names, tmp, path, file);
      return Some(won);
    }

    // Gives the file at `tmp` the name `path` if it may.
    method MoveInto(path: Name, replace: bool, tmp: Name) returns (won: bool)
      requires tmp in files.names && tmp != path
      modifies this
      ensures won <==> replace || path !in old(files).names
      ensures Removed(files, tmp) == Removed(if won then Linked(old(files), tmp, path) else old(files), tmp)
    {
      if replace {
        Rename(tmp, path);
        return true;
      }
      var result := HardLink(tmp, path);
      match result {
        case LinkMade => won := true;
        case AlreadyExists => won := false;
        case Refused =>
          if path !in files.names {
            Rename(tmp, path);
            won := true;
          } else {
            won := false;
          }
      }
    }

    method Load() returns (key: Option<Data>)
      requires WellFormed(files)
      ensures key == if KeyPath in files.names && |Contents(files)[KeyPath]| == KEY_LEN
                     then Some(Contents(files)[KeyPath]) else None
    {
      if KeyPath !in files.names {
        return None;
      }
      var bytes := files.data[files.names[KeyPath]];
      key := if |bytes| == KEY_LEN then Some(bytes) else None;
    }

    // The key on disk, or `made` after writing it there.
    method LoadOrGenerate(made: Data, random: nat) returns (key: Option<Data>)
      requires WellFormed(files) && |made| == KEY_LEN
      modifies this
      ensures WellFormed(files)
      ensures KeyPath in old(files).names ==> Contents(files) == Contents(old(files))
      ensures KeyPath !in old(files).names && Temp(random) !in old(files).names ==>
              Contents(files) == Contents(old(files))[KeyPath := made]
      ensures key.Some? ==> KeyPath in files.names && Contents(files)[KeyPath] == key.value
      ensures key.None? <==> if KeyPath in old(files).names then |Contents(old(files))[KeyPath]| != KEY_LEN
                             else Temp(random) in old(files).names
    {
      if KeyPath in files.names {
        key := Load();
        return;
      }
      var written := AtomicWrite(KeyPath, made, false, Temp(random));
      match written
      case None => key := None;
      case Some(won) =>
        if won {
          assert KeyPath in Contents(files);
          key := Some(made);
        } else {
          key := Load();
        }
    }
  }

  // ── Processes taking turns ───────────────────────────────────────────

  // Where a process stands, between two operations on the file system.
  datatype Phase =
    | Start
    | Making(key: Data)
    | Writing(key: Data, tmp: Name, file: nat)
    | Linking(key: Data, tmp: Name)
    | Looking(key: Data, tmp: Name)
    | Renaming(key: Data, tmp: Name)
    | Cleaning(key: Data, tmp: Name, won: bool)
    | Loading
    | Returned(key: Data, won: bool)
    | GaveUp

  // What chance and the system bring: a fresh key, a temporary name, how much is written at once, a
  // failing operation, the end of the process.
  datatype Chance = Goes | Generates(key: Data) | Picks(random: nat) | Takes(count: nat) | Fails | Crashes

  type Pid = nat

  datatype World = World(files: Files, processes: map<Pid, Phase>)

  datatype Event = Starts(pid: Pid) | Turns(pid: Pid, chance: Chance)

  function WriteTurn(files: Files, phase: Phase, chance: Chance): (Files, Phase)
    requires phase.Writing?
  {
    var file := phase.file;
    if file >= |files.data| then (files, GaveUp)
    else
      var done := |files.data[file]|;
      match chance
      case Takes(count) =>
        var left := if done <= |phase.key| then phase.key[done..] else [];
        (Appended(files, file, if count < |left| then left[..count] else left), phase)
      case Goes => if done < |phase.key| then (files, phase) else (files, Linking(phase.key, phase.tmp))
      case Fails => (files, GaveUp)
      case _ => (files, phase)
  }

  // One operation of a process.
  function Turn(files: Files, phase: Phase, chance: Chance): (Files, Phase) {
    if chance == Crashes && !phase.Returned? then (files, GaveUp)
    else
      match phase
      case Start =>
        if KeyPath in files.names then (files, Loading)
        else if chance.Generates? && |chance.key| == KEY_LEN then (files, Making(chance.key))
        else (files, Start)
      case Making(key) =>
        if !chance.Picks? then (files, if chance.Fails? then GaveUp else phase)
        else if Temp(chance.random) in files.names then (files, GaveUp)
        else (Created(files, Temp(chance.random)), Writing(key, Temp(chance.random), |files.data|))
      case Writing(_, _, _) => WriteTurn(files, phase, chance)
      case Linking(key, tmp) =>
        if KeyPath in files.names then (files, Cleaning(key, tmp, false))
        else if chance.Fails? || tmp !in files.names then (files, Looking(key, tmp))
        else (Linked(files, tmp, KeyPath), Cleaning(key, tmp, true))
      case Looking(key, tmp) =>
        (files, if KeyPath in files.names then Cleaning(key, tmp, false) else Renaming(key, tmp))
      case Renaming(key, tmp) =>
        if tmp !in files.names then (files, GaveUp)
        else (Removed(Linked(files, tmp, KeyPath), tmp), Cleaning(key, tmp, true))
      case Cleaning(key, tmp, won) => (Removed(files, tmp), if won then Returned(key, true) else Loading)
      case Loading =>
        if KeyPath !in files.names || files.names[KeyPath] >= |files.data| then (files, GaveUp)
        else
          var bytes := files.data[files.names[KeyPath]];
          (files, if |bytes| == KEY_LEN then Returned(bytes, false) else GaveUp)
      case _ => (files, phase)
  }

  function After(world: World, event: Event): World {
    match event
    case Starts(pid) => if pid in world.processes then world else world.(processes := world.processes[pid := Start])
    case Turns(pid, chance) =>
      if pid !in world.processes then world
      else
        var (files, phase) := Turn(world.files, world.processes[pid], chance);
        World(files, world.processes[pid := phase])
  }

  function Ran(files: Files, events: seq<Event>): World {
    if events == [] then World(files, map[])
    else After(Ran(files, events[..|events| - 1]), events[|events| - 1])
  }

  // ── One identity ─────────────────────────────────────────────────────

  // The key file is not there, or holds a whole key.
  predicate WholeOrAbsent(files: Files) {
    && WellFormed(files)
    && (KeyPath in files.names ==> |files.data[files.names[KeyPath]]| == KEY_LEN)
  }

  predicate Holds(files: Files, key: Data) {
    KeyPath in files.names && files.names[KeyPath] < |files.data| && files.data[files.names[KeyPath]] == key
  }

  predicate Owns(phase: Phase) {
    phase.Writing? || phase.Linking? || phase.Cleaning?
  }

  predicate Won(phase: Phase) {
    (phase.Cleaning? || phase.Returned?) && phase.won
  }

  // What is so of a process at its place.
  predicate InPlace(files: Files, phase: Phase)
    requires WellFormed(files)
  {
    match phase
    case Making(key) => |key| == KEY_LEN
    case Writing(key, tmp, file) =>
      && |key| == KEY_LEN && tmp.Temp? && tmp in files.names && files.names[tmp] == file
      && files.data[file] <= key
      && forall n <- files.names :: files.names[n] == file ==> n == tmp
    case Linking(key, tmp) =>
      |key| == KEY_LEN && tmp.Temp? && tmp in files.names && files.data[files.names[tmp]] == key
    case Looking(_, _) => false
    case Renaming(_, _) => false
    case Cleaning(key, tmp, won) =>
      && tmp.Temp? && tmp in files.names
      && KeyPath in files.names && (won ==> Holds(files, key))
    case Loading => KeyPath in files.names
    case Returned(key, _) => Holds(files, key)
    case _ => true
  }

  predicate Sound(world: World) {
    && WholeOrAbsent(world.files)
    && (forall p <- world.processes :: InPlace(world.files, world.processes[p]))
    && (forall p, q :: p in world.processes && q in world.processes && p != q
                       && Owns(world.processes[p]) && Owns(world.processes[q])
          ==> world.processes[p].tmp != world.processes[q].tmp)
    && (forall p, q :: p in world.processes && q in world.processes
                       && Won(world.processes[p]) && Won(world.processes[q])
          ==> p == q)
    && (KeyPath !in world.files.names ==> forall p <- world.processes :: !Won(world.processes[p]))
  }

  // A hard link fails for another reason than that the key file exists.
  predicate LinkRefused(world: World, event: Event) {
    && event.Turns? && event.pid in world.processes
    && world.processes[event.pid].Linking? && event.chance.Fails? && KeyPath !in world.files.names
  }

  // The key file, once there, is still there and the same.
  ghost predicate Kept(files: Files, files': Files) {
    forall key :: Holds(files, key) ==> Holds(files', key)
  }

  predicate NoRefusal(files: Files, phase: Phase, chance: Chance) {
    !(phase.Linking? && chance.Fails? && KeyPath !in files.names)
  }

  // A process's own operation leaves it in place, the key file whole, and once there the same.
  lemma OwnTurn(files: Files, phase: Phase, chance: Chance)
    requires WholeOrAbsent(files) && InPlace(files, phase) && NoRefusal(files, phase, chance)
    ensures var (files', phase') := Turn(files, phase, chance);
            WholeOrAbsent(files') && InPlace(files', phase') && Kept(files, files')
  {
    if phase.Writing? && chance.Takes? {
      OwnWrite(files, phase, chance);
    }
  }

  lemma OwnWrite(files: Files, phase: Phase, chance: Chance)
    requires WholeOrAbsent(files) && InPlace(files, phase) && phase.Writing? && chance.Takes?
    ensures var (files', phase') := WriteTurn(files, phase, chance);
            WholeOrAbsent(files') && InPlace(files', phase') && Kept(files, files')
  {
    var file := phase.file;
    var done := |files.data[file]|;
    var left := phase.key[done..];
    var more := if chance.count < |left| then left[..chance.count] else left;
    assert files.data[file] + more == phase.key[..done + |more|];
  }

  // And another process in its place.
  lemma OthersTurn(files: Files, phase: Phase, chance: Chance, other: Phase)
    requires WholeOrAbsent(files) && InPlace(files, phase) && NoRefusal(files, phase, chance) && InPlace(files, other)
    requires Owns(phase) && Owns(other) ==> phase.tmp != other.tmp
    ensures WellFormed(Turn(files, phase, chance).0) && InPlace(Turn(files, phase, chance).0, other)
  {
    OwnTurn(files, phase, chance);
    if phase.Writing? && chance.Takes? {
      OthersWrite(files, phase, chance, other);
    }
  }

  lemma OthersWrite(files: Files, phase: Phase, chance: Chance, other: Phase)
    requires WholeOrAbsent(files) && InPlace(files, phase) && InPlace(files, other) && phase.Writing? && chance.Takes?
    requires Owns(other) ==> phase.tmp != other.tmp
    ensures WellFormed(WriteTurn(files, phase, chance).0) && InPlace(WriteTurn(files, phase, chance).0, other)
  {
    OwnWrite(files, phase, chance);
    var files' := WriteTurn(files, phase, chance).0;
    assert forall n <- files.names :: n != phase.tmp ==> files'.data[files.names[n]] == files.data[files.names[n]];
  }

  // A temporary name is taken only while nobody has it.
  lemma OwnName(files: Files, phase: Phase, chance: Chance, other: Phase)
    requires WholeOrAbsent(files) && InPlace(files, phase) && NoRefusal(files, phase, chance) && InPlace(files, other)
    requires Owns(phase) && Owns(other) ==> phase.tmp != other.tmp
    ensures var phase' := Turn(files, phase, chance).1; Owns(phase') && Owns(other) ==> phase'.tmp != other.tmp
  {
  }

  // The key file is won only while it is not there, and then it is.
  lemma OwnWin(files: Files, phase: Phase, chance: Chance)
    requires WholeOrAbsent(files) && InPlace(files, phase) && NoRefusal(files, phase, chance)
    ensures var (files', phase') := Turn(files, phase, chance);
            && (Won(phase') && !Won(phase) ==> KeyPath !in files.names)
            && (Won(phase') ==> KeyPath in files'.names)
            && (KeyPath in files.names ==> KeyPath in files'.names)
  {
  }

  lemma TurnKeepsSound(world: World, pid: Pid, chance: Chance)
    requires Sound(world) && pid in world.processes && NoRefusal(world.files, world.processes[pid], chance)
    ensures Sound(After(world, Turns(pid, chance)))
    ensures Kept(world.files, After(world, Turns(pid, chance)).files)
  {
    hide Turn, InPlace, WholeOrAbsent, Won, NoRefusal, Holds;
    var phase := world.processes[pid];
    var world' := After(world, Turns(pid, chance));
    OwnTurn(world.files, phase, chance);
    OwnWin(world.files, phase, chance);
    assert WellFormed(world.files) && WellFormed(world'.files) by {
      WholeIsWellFormed(world.files);
      WholeIsWellFormed(world'.files);
    }
    forall q | q in world.processes && q != pid
      ensures InPlace(world'.files, world.processes[q])
      ensures Owns(world'.processes[pid]) && Owns(world.processes[q])
              ==> world'.processes[pid].tmp != world.processes[q].tmp
    {
      OthersTurn(world.files, phase, chance, world.processes[q]);
      OwnName(world.files, phase, chance, world.processes[q]);
    }
  }

  lemma WholeIsWellFormed(files: Files)
    requires WholeOrAbsent(files)
    ensures WellFormed(files)
  {
  }

  lemma StepKeepsSound(world: World, event: Event)
    requires Sound(world) && !LinkRefused(world, event)
    ensures Sound(After(world, event)) && Kept(world.files, After(world, event).files)
  {
    if event.Turns? && event.pid in world.processes {
      TurnKeepsSound(world, event.pid, event.chance);
    }
  }

  // In no step is a hard link refused.
  ghost predicate LinksWork(files: Files, events: seq<Event>) {
    forall i :: 0 <= i < |events| ==> !LinkRefused(Ran(files, events[..i]), events[i])
  }

  lemma LinksWorkEarlier(files: Files, events: seq<Event>, n: nat)
    requires LinksWork(files, events) && n <= |events|
    ensures LinksWork(files, events[..n])
  {
    forall i | 0 <= i < n ensures !LinkRefused(Ran(files, events[..n][..i]), events[..n][i]) {
      assert events[..n][..i] == events[..i];
    }
  }

  // Whatever number of processes start, and wherever each is overtaken, fails or dies.
  lemma {:induction false} AlwaysSound(files: Files, events: seq<Event>)
    requires WholeOrAbsent(files) && LinksWork(files, events)
    ensures Sound(Ran(files, events))
  {
    hide Sound, LinkRefused, After;
    if events == [] {
      SoundAtFirst(files);
    } else {
      var n := |events| - 1;
      LinksWorkEarlier(files, events, n);
      AlwaysSound(files, events[..n]);
      StepKeepsSound(Ran(files, events[..n]), events[n]);
    }
  }

  lemma SoundAtFirst(files: Files)
    requires WholeOrAbsent(files)
    ensures Sound(World(files, map[]))
  {
  }

  // The key file never changes once it is there, ...
  lemma {:induction false} KeyNeverChanges(files: Files, events: seq<Event>, i: nat)
    requires WholeOrAbsent(files) && LinksWork(files, events) && i <= |events|
    ensures Kept(Ran(files, events[..i]).files, Ran(files, events).files)
  {
    hide LinkRefused, After, WholeOrAbsent;
    var n := |events| - 1;
    if i == |events| {
      assert events[..i] == events;
    } else {
      LinksWorkEarlier(files, events, n);
      KeyNeverChanges(files, events[..n], i);
      AlwaysSound(files, events[..n]);
      StepKeepsSound(Ran(files, events[..n]), events[n]);
      assert events[..n][..i] == events[..i];
    }
  }

  // ... and is what every process that returns has, at most one of which made it.
  lemma OneIdentity(files: Files, events: seq<Event>, p: Pid, q: Pid)
    requires WholeOrAbsent(files) && LinksWork(files, events)
    requires p in Ran(files, events).processes && q in Ran(files, events).processes
    requires Ran(files, events).processes[p].Returned? && Ran(files, events).processes[q].Returned?
    ensures var world := Ran(files, events);
            && Holds(world.files, world.processes[p].key)
            && world.processes[p].key == world.processes[q].key
            && (world.processes[p].won && world.processes[q].won ==> p == q)
  {
    AlwaysSound(files, events);
    var world := Ran(files, events);
    assert InPlace(world.files, world.processes[p]) && InPlace(world.files, world.processes[q]);
  }

  // ── With and without hard links ──────────────────────────────────────

  predicate HasTmp(phase: Phase) {
    phase.Writing? || phase.Linking? || phase.Looking? || phase.Renaming? || phase.Cleaning?
  }

  // What is so of a process at its place, links refused or not.
  predicate Placed(files: Files, phase: Phase)
    requires WellFormed(files)
  {
    match phase
    case Making(key) => |key| == KEY_LEN
    case Writing(_, _, _) => InPlace(files, phase)
    case Linking(_, _) => InPlace(files, phase)
    case Looking(key, tmp) => InPlace(files, Linking(key, tmp))
    case Renaming(key, tmp) => InPlace(files, Linking(key, tmp))
    case Cleaning(_, tmp, _) => tmp.Temp?
    case _ => true
  }

  ghost predicate Whole(world: World) {
    && WholeOrAbsent(world.files)
    && (forall p <- world.processes :: Placed(world.files, world.processes[p]))
    && (forall p, q :: p in world.processes && q in world.processes && p != q
                       && HasTmp(world.processes[p]) && HasTmp(world.processes[q])
          ==> world.processes[p].tmp != world.processes[q].tmp)
  }

  // A temporary name is drawn that another process still has, although the file is gone.
  ghost predicate DrawnAgain(world: World, event: Event) {
    && event.Turns? && event.pid in world.processes
    && world.processes[event.pid].Making? && event.chance.Picks?
    && Temp(event.chance.random) !in world.files.names
    && exists q <- world.processes :: HasTmp(world.processes[q]) && world.processes[q].tmp == Temp(event.chance.random)
  }

  // The fallback rename replaces a key file that is there and holds another key.
  predicate Overwrites(files: Files, phase: Phase, chance: Chance) {
    && phase.Renaming? && !chance.Crashes?
    && KeyPath in files.names && files.names[KeyPath] < |files.data| && files.data[files.names[KeyPath]] != phase.key
  }

  lemma OwnTurnWhole(files: Files, phase: Phase, chance: Chance)
    requires WholeOrAbsent(files) && Placed(files, phase)
    ensures var (files', phase') := Turn(files, phase, chance);
            && WholeOrAbsent(files') && Placed(files', phase')
            && (Kept(files, files') <==> !Overwrites(files, phase, chance))
  {
    if phase.Renaming? {
      OwnRename(files, phase, chance);
    } else if phase.Writing? && chance.Takes? {
      OwnWrite(files, phase, chance);
    }
  }

  lemma OwnRename(files: Files, phase: Phase, chance: Chance)
    requires WholeOrAbsent(files) && Placed(files, phase) && phase.Renaming?
    ensures var (files', phase') := Turn(files, phase, chance);
            && WholeOrAbsent(files') && Placed(files', phase')
            && (Kept(files, files') <==> !Overwrites(files, phase, chance))
  {
    if Overwrites(files, phase, chance) {
      assert Holds(files, files.data[files.names[KeyPath]]);
    }
  }

  lemma OthersTurnWhole(files: Files, phase: Phase, chance: Chance, other: Phase)
    requires WholeOrAbsent(files) && Placed(files, phase) && Placed(files, other)
    requires HasTmp(phase) && HasTmp(other) ==> phase.tmp != other.tmp
    ensures WellFormed(Turn(files, phase, chance).0) && Placed(Turn(files, phase, chance).0, other)
  {
    OwnTurnWhole(files, phase, chance);
    if phase.Writing? && chance.Takes? {
      OthersWriteWhole(files, phase, chance, other);
    }
  }

  lemma OthersWriteWhole(files: Files, phase: Phase, chance: Chance, other: Phase)
    requires WholeOrAbsent(files) && Placed(files, phase) && Placed(files, other) && phase.Writing? && chance.Takes?
    requires HasTmp(other) ==> phase.tmp != other.tmp
    ensures WellFormed(WriteTurn(files, phase, chance).0) && Placed(WriteTurn(files, phase, chance).0, other)
  {
    OwnWrite(files, phase, chance);
    var files' := WriteTurn(files, phase, chance).0;
    assert forall n <- files.names :: n != phase.tmp ==> files'.data[files.names[n]] == files.data[files.names[n]];
  }

  // A process has the temporary name it had, or one it has just drawn.
  lemma OwnNameWhole(files: Files, phase: Phase, chance: Chance)
    ensures var phase' := Turn(files, phase, chance).1;
            HasTmp(phase') ==>
              || (HasTmp(phase) && phase'.tmp == phase.tmp)
              || (phase.Making? && chance.Picks? && Temp(chance.random) !in files.names
                  && phase'.tmp == Temp(chance.random))
  {
  }

  // A step keeps the key file whole or absent, and as it is unless it is an overwriting rename.
  lemma StepKeepsWhole(world: World, event: Event)
    requires Whole(world) && !DrawnAgain(world, event)
    ensures Whole(After(world, event))
    ensures Kept(world.files, After(world, event).files) <==>
            !(event.Turns? && event.pid in world.processes
              && Overwrites(world.files, world.processes[event.pid], event.chance))
  {
    hide Turn, Placed, WholeOrAbsent, Overwrites, Holds;
    if event.Turns? && event.pid in world.processes {
      var pid, phase := event.pid, world.processes[event.pid];
      var world' := After(world, event);
      OwnTurnWhole(world.files, phase, event.chance);
      OwnNameWhole(world.files, phase, event.chance);
      WholeIsWellFormed(world.files);
      WholeIsWellFormed(world'.files);
      forall q | q in world.processes && q != pid
        ensures Placed(world'.files, world.processes[q])
        ensures HasTmp(world'.processes[pid]) && HasTmp(world.processes[q])
                ==> world'.processes[pid].tmp != world.processes[q].tmp
      {
        OthersTurnWhole(world.files, phase, event.chance, world.processes[q]);
      }
    } else {
      StartIsPlaced(world.files);
    }
  }

  lemma StartIsPlaced(files: Files)
    requires WholeOrAbsent(files)
    ensures WellFormed(files) && Placed(files, Start) && !HasTmp(Start)
  {
  }

  ghost predicate NamesDistinct(files: Files, events: seq<Event>) {
    forall i :: 0 <= i < |events| ==> !DrawnAgain(Ran(files, events[..i]), events[i])
  }

  // With temporary names that are not drawn again while in use, the key file is never half written, in
  // every run, whatever is refused and wherever each process fails or dies.
  lemma {:induction false} NeverHalfAKey(files: Files, events: seq<Event>)
    requires WholeOrAbsent(files) && NamesDistinct(files, events)
    ensures Whole(Ran(files, events))
  {
    hide Whole, DrawnAgain, After, WholeOrAbsent;
    if events == [] {
      WholeAtFirst(files);
    } else {
      var n := |events| - 1;
      forall i | 0 <= i < n ensures !DrawnAgain(Ran(files, events[..n][..i]), events[..n][i]) {
        assert events[..n][..i] == events[..i];
      }
      NeverHalfAKey(files, events[..n]);
      StepKeepsWhole(Ran(files, events[..n]), events[n]);
    }
  }

  lemma WholeAtFirst(files: Files)
    requires WholeOrAbsent(files)
    ensures Whole(World(files, map[]))
  {
  }

  // Where hard links work no name in use is ever free to be drawn.
  lemma LinksKeepNamesDistinct(files: Files, events: seq<Event>)
    requires WholeOrAbsent(files) && LinksWork(files, events)
    ensures NamesDistinct(files, events)
  {
    hide Ran, WholeOrAbsent, LinkRefused;
    forall i | 0 <= i < |events| ensures !DrawnAgain(Ran(files, events[..i]), events[i]) {
      LinksWorkEarlier(files, events, i);
      AlwaysSound(files, events[..i]);
      NamesInUseAreThere(Ran(files, events[..i]), events[i]);
    }
  }

  lemma NamesInUseAreThere(world: World, event: Event)
    requires Sound(world)
    ensures !DrawnAgain(world, event)
  {
    forall q | q in world.processes && HasTmp(world.processes[q]) ensures world.processes[q].tmp in world.files.names {
      assert InPlace(world.files, world.processes[q]);
    }
  }

  // ── Without hard links ───────────────────────────────────────────────

  // The fallback keeps the key file as it is if and only if it is not there yet or holds that key.
  lemma RenamingReplaces(files: Files, key: Data, tmp: Name)
    requires WellFormed(files) && tmp.Temp? && tmp in files.names
    ensures Kept(files, Turn(files, Renaming(key, tmp), Goes).0) <==>
            KeyPath !in files.names || Contents(files)[KeyPath] == Contents(files)[tmp]
  {
    var files' := Turn(files, Renaming(key, tmp), Goes).0;
    assert Holds(files', Contents(files)[tmp]);
    if KeyPath in files.names {
      assert Holds(files, Contents(files)[KeyPath]);
    }
  }

  lemma OneMore(files: Files, events: seq<Event>, event: Event)
    ensures Ran(files, events + [event]) == After(Ran(files, events), event)
  {
    assert (events + [event])[..|events|] == events;
  }

  // A process that finds no key file gets as far as having its own written out.
  lemma Overtakes(files: Files, events: seq<Event>, pid: Pid, key: Data, random: nat) returns (more: seq<Event>)
    requires |key| == KEY_LEN
    requires var world := Ran(files, events);
             pid !in world.processes && KeyPath !in world.files.names && Temp(random) !in world.files.names
    ensures var world := Ran(files, events);
            Ran(files, more) == World(Files(world.files.names[Temp(random) := |world.files.data|],
                                            world.files.data + [key]),
                                      world.processes[pid := Linking(key, Temp(random))])
  {
    hide Ran;
    var world := Ran(files, events);
    more := events + [Starts(pid)];
    OneMore(files, events, Starts(pid));
    OneMore(files, more, Turns(pid, Generates(key)));
    more := more + [Turns(pid, Generates(key))];
    assert Ran(files, more) == World(world.files, world.processes[pid := Making(key)]);
    OneMore(files, more, Turns(pid, Picks(random)));
    more := more + [Turns(pid, Picks(random))];
    var made := Created(world.files, Temp(random));
    assert Ran(files, more) == World(made, world.processes[pid := Writing(key, Temp(random), |world.files.data|)]);
    OneMore(files, more, Turns(pid, Takes(KEY_LEN)));
    more := more + [Turns(pid, Takes(KEY_LEN))];
    assert [] + key[0..] == key;
    var written := Files(made.names, world.files.data + [key]);
    assert Ran(files, more) == World(written, world.processes[pid := Writing(key, Temp(random), |world.files.data|)]);
    OneMore(files, more, Turns(pid, Goes));
    more := more + [Turns(pid, Goes)];
  }

  // Its link refused, a process finds no key file.
  lemma FallsBack(files: Files, events: seq<Event>, pid: Pid) returns (more: seq<Event>)
    requires var world := Ran(files, events);
             pid in world.processes && world.processes[pid].Linking? && KeyPath !in world.files.names
    ensures var world := Ran(files, events);
            var phase := world.processes[pid];
            Ran(files, more) == World(world.files, world.processes[pid := Renaming(phase.key, phase.tmp)])
  {
    hide Ran;
    OneMore(files, events, Turns(pid, Fails));
    more := events + [Turns(pid, Fails)];
    OneMore(files, more, Turns(pid, Goes));
    more := more + [Turns(pid, Goes)];
  }

  lemma MovesIn(files: Files, events: seq<Event>, pid: Pid) returns (more: seq<Event>)
    requires var world := Ran(files, events);
             && pid in world.processes && world.processes[pid].Renaming?
             && world.processes[pid].tmp.Temp? && world.processes[pid].tmp in world.files.names
    ensures var world := Ran(files, events);
            var phase := world.processes[pid];
            Ran(files, more) == World(Removed(Linked(world.files, phase.tmp, KeyPath), phase.tmp),
                                      world.processes[pid := Returned(phase.key, true)])
  {
    hide Ran;
    OneMore(files, events, Turns(pid, Goes));
    more := events + [Turns(pid, Goes)];
    OneMore(files, more, Turns(pid, Goes));
    more := more + [Turns(pid, Goes)];
  }

  // Two processes that both find no key file before either has moved its own into place: each goes
  // away with its own key, and only one of them is on disk.
  lemma WithoutLinksTwoIdentities(k: Data, l: Data) returns (events: seq<Event>)
    requires |k| == KEY_LEN && |l| == KEY_LEN
    ensures var world := Ran(Files(map[], []), events);
            && world.processes == map[0 := Returned(k, true), 1 := Returned(l, true)]
            && Holds(world.files, l)
  {
    var files := Files(map[], []);
    NothingYet(files);
    hide Ran;
    events := Overtakes(files, [], 0, k, 0);
    events := Overtakes(files, events, 1, l, 1);
    events := FallsBack(files, events, 0);
    events := FallsBack(files, events, 1);
    events := MovesIn(files, events, 0);
    events := MovesIn(files, events, 1);
  }

  lemma NothingYet(files: Files)
    ensures Ran(files, []) == World(files, map[])
  {
  }

  // ── A process nobody disturbs ────────────────────────────────────────

  function Alone(files: Files, phase: Phase, chances: seq<Chance>): (Files, Phase)
    decreases |chances|
  {
    if chances == [] then (files, phase)
    else
      var (files', phase') := Turn(files, phase, chances[0]);
      Alone(files', phase', chances[1..])
  }

  function Pieces(counts: seq<nat>): seq<Chance> {
    if counts == [] then [] else [Takes(counts[0])] + Pieces(counts[1..])
  }

  function Total(counts: seq<nat>): nat {
    if counts == [] then 0 else counts[0] + Total(counts[1..])
  }

  // What chance brings when nothing fails but, without hard links, the link.
  function Undisturbed(key: Data, random: nat, counts: seq<nat>, links: bool): seq<Chance> {
    [Generates(key), Picks(random)] + (Pieces(counts) + MovingIn(links))
  }

  function MovingIn(links: bool): seq<Chance> {
    if links then [Goes, Goes, Goes] else [Goes, Fails, Goes, Goes, Goes]
  }

  lemma {:induction false} OverIsOver(files: Files, phase: Phase, chances: seq<Chance>)
    requires phase.Returned? || phase.GaveUp?
    ensures Alone(files, phase, chances) == (files, phase)
    decreases |chances|
  {
    if chances == [] {
    } else {
      OverIsOver(files, phase, chances[1..]);
    }
  }

  // In whatever pieces it is written, the key is written out.
  lemma {:induction false} WritesAlone(files: Files, phase: Phase, counts: seq<nat>, rest: seq<Chance>)
    requires phase.Writing? && phase.file < |files.data| && files.data[phase.file] <= phase.key
    requires |phase.key| - |files.data[phase.file]| <= Total(counts)
    ensures Alone(files, phase, Pieces(counts) + rest)
            == Alone(files.(data := files.data[phase.file := phase.key]), phase, rest)
    decreases |counts|
  {
    hide Turn;
    if counts == [] {
      assert Pieces(counts) + rest == rest;
      assert files.data[phase.file] == phase.key[..|phase.key|] == phase.key;
      assert files.data[phase.file := phase.key] == files.data;
    } else {
      var chances := Pieces(counts) + rest;
      OnePiece(files, phase, counts[0]);
      assert chances[0] == Takes(counts[0]) && chances[1..] == Pieces(counts[1..]) + rest;
      WritesAlone(Turn(files, phase, chances[0]).0, phase, counts[1..], rest);
    }
  }

  lemma OnePiece(files: Files, phase: Phase, count: nat)
    requires phase.Writing? && phase.file < |files.data| && files.data[phase.file] <= phase.key
    ensures var (files', phase') := Turn(files, phase, Takes(count));
            var done, done' := |files.data[phase.file]|, |files'.data[phase.file]|;
            && phase' == phase && files'.names == files.names && |files'.data| == |files.data|
            && files'.data[phase.file] <= phase.key
            && done' == (if done + count <= |phase.key| then done + count else |phase.key|)
            && files'.data[phase.file := phase.key] == files.data[phase.file := phase.key]
  {
    var done := files.data[phase.file];
    var left := phase.key[|done|..];
    var more := if count < |left| then left[..count] else left;
    assert done + more == phase.key[..|done| + |more|];
  }

  lemma MovesInAlone(files: Files, key: Data, tmp: Name, file: nat, links: bool)
    requires tmp.Temp? && tmp in files.names && files.names[tmp] == file && KeyPath !in files.names
    requires file < |files.data| && files.data[file] == key
    ensures Alone(files, Writing(key, tmp, file), MovingIn(links))
            == (files.(names := files.names[KeyPath := file] - {tmp}), Returned(key, true))
  {
    var chances := MovingIn(links);
    var linking := Linking(key, tmp);
    var linked := Linked(files, tmp, KeyPath);
    if links {
      assert chances[1..] == [Goes, Goes] && [Goes, Goes][1..] == [Goes] && [Goes][1..] == [];
      assert Alone(linked, Cleaning(key, tmp, true), [Goes]) == (Removed(linked, tmp), Returned(key, true));
      assert Alone(files, linking, [Goes, Goes]) == Alone(linked, Cleaning(key, tmp, true), [Goes]);
    } else {
      RefusedAlone(files, key, tmp);
      assert chances[1..] == [Fails, Goes, Goes, Goes];
    }
  }

  lemma RefusedAlone(files: Files, key: Data, tmp: Name)
    requires tmp.Temp? && tmp in files.names && KeyPath !in files.names
    ensures Alone(files, Linking(key, tmp), [Fails, Goes, Goes, Goes])
            == (Removed(Linked(files, tmp, KeyPath), tmp), Returned(key, true))
  {
    var moved := Removed(Linked(files, tmp, KeyPath), tmp);
    assert [Fails, Goes, Goes, Goes][1..] == [Goes, Goes, Goes] && [Goes, Goes, Goes][1..] == [Goes, Goes];
    assert [Goes, Goes][1..] == [Goes] && [Goes][1..] == [];
    assert Removed(moved, tmp) == moved;
    assert Alone(moved, Cleaning(key, tmp, true), [Goes]) == (moved, Returned(key, true));
    assert Alone(files, Renaming(key, tmp), [Goes, Goes]) == (moved, Returned(key, true));
    assert Alone(files, Looking(key, tmp), [Goes, Goes, Goes]) == (moved, Returned(key, true));
  }

  // A process nobody disturbs, with or without hard links and in whatever pieces it writes, returns the key
  // on disk if that is a whole one, and otherwise its own, which is then the one on disk.
  lemma IdentityAlone(files: Files, key: Data, random: nat, counts: seq<nat>, links: bool)
    requires WellFormed(files) && |key| == 32 <= Total(counts)
    ensures var (files', phase) := Alone(files, Start, Undisturbed(key, random, counts, links));
            && WellFormed(files')
            && if KeyPath in files.names then
                 && files' == files
                 && var there := Contents(files)[KeyPath];
                    phase == if |there| == 32 then Returned(there, false) else GaveUp
               else if Temp(random) in files.names then files' == files && phase == GaveUp
               else Contents(files') == Contents(files)[KeyPath := key] && phase == Returned(key, true)
  {
    var chances := Undisturbed(key, random, counts, links);
    var rest := Pieces(counts) + MovingIn(links);
    assert chances[1..] == [Picks(random)] + rest && chances[1..][1..] == rest;
    if KeyPath in files.names {
      var phase := Turn(files, Loading, Picks(random)).1;
      assert Alone(files, Start, chances) == Alone(files, phase, rest);
      OverIsOver(files, phase, rest);
    } else if Temp(random) in files.names {
      assert Alone(files, Start, chances) == Alone(files, GaveUp, rest);
      OverIsOver(files, GaveUp, rest);
    } else {
      MakesKeyAlone(files, key, random, counts, links);
      assert Alone(files, Start, chances) == Alone(files, Making(key), [Picks(random)] + rest);
    }
  }

  lemma MakesKeyAlone(files: Files, key: Data, random: nat, counts: seq<nat>, links: bool)
    requires WellFormed(files) && |key| == KEY_LEN <= Total(counts)
    requires KeyPath !in files.names && Temp(random) !in files.names
    ensures var (files', phase) := Alone(files, Making(key), [Picks(random)] + (Pieces(counts) + MovingIn(links)));
            && WellFormed(files') && Contents(files') == Contents(files)[KeyPath := key]
            && phase == Returned(key, true)
  {
    hide Contents, WellFormed;
    var tmp, file := Temp(random), |files.data|;
    var rest := Pieces(counts) + MovingIn(links);
    var created := Created(files, tmp);
    assert ([Picks(random)] + rest)[1..] == rest;
    WritesAlone(created, Writing(key, tmp, file), counts, MovingIn(links));
    var written := Files(files.names[tmp := file], files.data + [key]);
    assert created.(data := created.data[file := key]) == written;
    MovesInAlone(written, key, tmp, file, links);
    NamesAfter(files.names, tmp, KeyPath, file);
    ContentsAfter(files, KeyPath, key);
  }

  // And a process gives up only when an operation of its fails, its temporary name is in use, or it dies.
  lemma GivesUpOnlyByFailure(files: Files, events: seq<Event>, pid: Pid, chance: Chance)
    requires WholeOrAbsent(files) && LinksWork(files, events)
    requires pid in Ran(files, events).processes && !Ran(files, events).processes[pid].GaveUp?
    requires NoRefusal(Ran(files, events).files, Ran(files, events).processes[pid], chance)
    ensures Ran(files, events + [Turns(pid, chance)]).processes[pid].GaveUp? ==>
              || chance.Crashes? || chance.Fails?
              || (chance.Picks? && Temp(chance.random) in Ran(files, events).files.names)
  {
    AlwaysSound(files, events);
    OneMore(files, events, Turns(pid, chance));
    var world := Ran(files, events);
    assert InPlace(world.files, world.processes[pid]);
    hide Ran;
  }
}
