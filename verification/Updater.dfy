// Looking for updates and installing them, on any number of threads that share one state.
module Updater {
  import opened Wrappers

  // ── The state ────────────────────────────────────────────────────────

  // A newer release, and what there is to download for this computer.
  datatype Available = Available(release: nat, install: Option<nat>)

  datatype Failure = Failure(message: string, how: Option<string>, declined: bool)

  datatype State =
    | Unknown
    | Checking
    | UpToDate
    | Found(update: Available)
    | Downloading(update: Available, done: nat, total: Option<nat>)
    | Installing(update: Available)
    | Restarting(update: Available)
    | CheckFailed(message: string)
    | InstallFailed(update: Available, failure: Failure)

  predicate IsBusy(state: State) {
    state.Checking? || state.Downloading? || state.Installing? || state.Restarting?
  }

  function UpdateOf(state: State): Option<Available> {
    match state
    case Found(update) => Some(update)
    case Downloading(update, _, _) => Some(update)
    case Installing(update) => Some(update)
    case Restarting(update) => Some(update)
    case InstallFailed(update, _) => Some(update)
    case _ => None
  }

  datatype Answer = Newest | Newer(update: Available) | NoAnswer(error: string)

  function Answered(answer: Answer): State {
    match answer
    case Newest => UpToDate
    case Newer(update) => Found(update)
    case NoAnswer(error) => CheckFailed(error)
  }

  datatype ApplyError = Declined(text: string) | ByHand(why: string, way: Option<string>) | Broken(text: string)

  function FailureOf(error: ApplyError): Failure {
    match error
    case Declined(text) => Failure(text, None, true)
    case ByHand(why, way) => Failure(why, way, false)
    case Broken(text) => Failure(text, None, false)
  }

  // The update that installing would take up.
  function Installable(state: State): Option<Available> {
    match state
    case Found(update) => if update.install.Some? then Some(update) else None
    case InstallFailed(update, _) => if update.install.Some? then Some(update) else None
    case _ => None
  }

  // ── The lock sections ────────────────────────────────────────────────

  // What happens around one run of the installer, in order.
  datatype Fortune = Fortune(
    unprepared: Option<string>,
    progress: seq<(nat, Option<nat>)>,
    undownloaded: Option<string>,
    unapplied: Option<ApplyError>)

  // Where an installation that nobody interrupts ends.
  function EndOf(update: Available, fortune: Fortune): State {
    if fortune.unprepared.Some? then InstallFailed(update, Failure(fortune.unprepared.value, None, false))
    else if fortune.undownloaded.Some? then InstallFailed(update, Failure(fortune.undownloaded.value, None, false))
    else if fortune.unapplied.Some? then InstallFailed(update, FailureOf(fortune.unapplied.value))
    else Restarting(update)
  }

  class Updater {
    var state: State
    // How often the program was told to quit.
    var restarts: nat

    constructor ()
      ensures state == Unknown && restarts == 0
    {
      state, restarts := Unknown, 0;
    }

    method StartCheck() returns (started: bool)
      modifies this`state
      ensures started <==> !IsBusy(old(state))
      ensures state == if started then Checking else old(state)
    {
      started := !IsBusy(state);
      if started {
        state := Checking;
      }
    }

    method CheckBlocking(answer: Answer)
      modifies this`state
      ensures state == if IsBusy(old(state)) then old(state) else Answered(answer)
      ensures !IsBusy(old(state)) ==>
                && (forall u :: UpdateOf(state) == Some(u) <==> answer == Newer(u))
                && (forall e :: state == CheckFailed(e) <==> answer == NoAnswer(e))
                && !IsBusy(state)
    {
      var started := StartCheck();
      if started {
        state := Answered(answer);
      }
    }

    method StartInstall() returns (update: Option<Available>)
      modifies this`state
      ensures update == Installable(old(state))
      ensures state == match update case Some(u) => Downloading(u, 0, None) case None => old(state)
    {
      update := Installable(state);
      if update.Some? {
        state := Downloading(update.value, 0, None);
      }
    }

    method Download(update: Available, progress: seq<(nat, Option<nat>)>)
      requires state == Downloading(update, 0, None)
      modifies this`state
      ensures state == if progress == [] then old(state)
                       else Downloading(update, progress[|progress| - 1].0, progress[|progress| - 1].1)
    {
      for i := 0 to |progress|
        invariant state == if i == 0 then old(state) else Downloading(update, progress[i - 1].0, progress[i - 1].1)
      {
        state := Downloading(update, progress[i].0, progress[i].1);
      }
    }

    method InstallBlocking(fortune: Fortune)
      modifies this
      ensures state == match Installable(old(state)) case Some(u) => EndOf(u, fortune) case None => old(state)
      ensures restarts == old(restarts) + if state.Restarting? && !old(state).Restarting? then 1 else 0
    {
      var taken := StartInstall();
      if taken.None? {
        return;
      }
      var update := taken.value;
      if fortune.unprepared.Some? {
        state := InstallFailed(update, Failure(fortune.unprepared.value, None, false));
        return;
      }
      Download(update, fortune.progress);
      if fortune.undownloaded.Some? {
        state := InstallFailed(update, Failure(fortune.undownloaded.value, None, false));
        return;
      }
      state := Installing(update);
      match fortune.unapplied
      case None =>
        state := Restarting(update);
        restarts := restarts + 1;
      case Some(error) => state := InstallFailed(update, FailureOf(error));
    }
  }

  // ── Threads taking turns ─────────────────────────────────────────────

  // Where a thread stands, between two lock sections or two acts outside the lock. A thread that dies
  // in a job leaves it unfinished.
  datatype Phase =
    | ToCheck
    | Looking
    | ToInstall
    | Preparing(update: Available)
    | Fetching(update: Available)
    | Saving(update: Available)
    | Verifying(update: Available)
    | Applying(update: Available)
    | Ringing(update: Available)
    | ToSweep
    | Ended
    | Dead

  // The folder for downloads, and the file in it.
  datatype Folder = Absent | Empty | Holding(update: Available)

  type Thread = nat

  datatype Machine = Machine(state: State, threads: map<Thread, Phase>, restarts: nat, folder: Folder)

  // What the world answers a thread.
  datatype World =
    | LookedUp(answer: Answer)
    | GoesWell
    | Progress(done: nat, total: Option<nat>)
    | Failed(failure: Failure)
    | Dies

  datatype Event = Spawns(thread: Thread, task: Phase) | Turns(thread: Thread, world: World)

  function FailedAt(m: Machine, thread: Thread, update: Available, failure: Failure): Machine {
    m.(state := InstallFailed(update, failure), threads := m.threads[thread := Ended])
  }

  // The installer, from preparing the folder to the update being in place. The file can only be created
  // in a folder that is there, and only be opened for its checksum if it is still there; the folder is
  // not looked at again before the update is applied from it.
  function JobTurn(m: Machine, thread: Thread, world: World): Machine
    requires thread in m.threads && Installs(m.threads[thread])
  {
    var phase := m.threads[thread];
    var update := phase.update;
    match world
    case Failed(failure) => FailedAt(m, thread, update, failure)
    case Progress(done, total) => if phase.Saving? then m.(state := Downloading(update, done, total)) else m
    case GoesWell =>
      (match phase
       case Preparing(_) => m.(folder := Empty, threads := m.threads[thread := Fetching(update)])
       case Fetching(_) =>
         if m.folder == Empty then m.(folder := Holding(update), threads := m.threads[thread := Saving(update)]) else m
       case Saving(_) =>
         if m.folder == Holding(update) then m.(threads := m.threads[thread := Verifying(update)]) else m
       case Verifying(_) => m.(state := Installing(update), threads := m.threads[thread := Applying(update)])
       case _ => m.(state := Restarting(update), threads := m.threads[thread := Ringing(update)]))
    case _ => m
  }

  // A thread up to the end of its next lock section, or its next act outside the lock.
  function Turn(m: Machine, thread: Thread, world: World): Machine
    requires thread in m.threads
  {
    if world.Dies? && InFlight(m.threads[thread]) then m.(threads := m.threads[thread := Dead])
    else if Installs(m.threads[thread]) then JobTurn(m, thread, world)
    else
      match m.threads[thread]
      case ToCheck =>
        if IsBusy(m.state) then m.(threads := m.threads[thread := Ended])
        else m.(state := Checking, threads := m.threads[thread := Looking])
      case Looking =>
        (match world
         case LookedUp(answer) => m.(state := Answered(answer), threads := m.threads[thread := Ended])
         case _ => m)
      case ToInstall =>
        (match Installable(m.state)
         case None => m.(threads := m.threads[thread := Ended])
         case Some(update) =>
           m.(state := Downloading(update, 0, None), threads := m.threads[thread := Preparing(update)]))
      case Ringing(_) => m.(restarts := m.restarts + 1, threads := m.threads[thread := Ended])
      case ToSweep => m.(folder := Absent, threads := m.threads[thread := Ended])
      case _ => m
  }

  predicate Installs(phase: Phase) {
    phase.Preparing? || phase.Fetching? || phase.Saving? || phase.Verifying? || phase.Applying?
  }

  // A job is under way.
  predicate InFlight(phase: Phase) {
    phase.Looking? || Installs(phase)
  }

  function After(m: Machine, event: Event): Machine {
    match event
    case Spawns(thread, task) =>
      if thread in m.threads || !(task.ToCheck? || task.ToInstall? || task.ToSweep?) then m
      else m.(threads := m.threads[thread := task])
    case Turns(thread, world) => if thread in m.threads then Turn(m, thread, world) else m
  }

  function Ran(folder: Folder, events: seq<Event>): Machine {
    if events == [] then Machine(Unknown, map[], 0, folder)
    else After(Ran(folder, events[..|events| - 1]), events[|events| - 1])
  }

  // One thread running on its own.
  function Alone(m: Machine, thread: Thread, worlds: seq<World>): Machine
    requires thread in m.threads
    decreases |worlds|
  {
    if worlds == [] then m else Alone(Turn(m, thread, worlds[0]), thread, worlds[1..])
  }

  function Reports(progress: seq<(nat, Option<nat>)>): seq<World> {
    if progress == [] then [] else [Progress(progress[0].0, progress[0].1)] + Reports(progress[1..])
  }

  // What the world answers an installer with this fortune: once the file is written, once the folder is
  // to be prepared, and from its first lock section on.
  function AfterSaving(fortune: Fortune): seq<World> {
    if fortune.undownloaded.Some? then [Failed(Failure(fortune.undownloaded.value, None, false))]
    else
      [GoesWell, GoesWell] +
      if fortune.unapplied.Some? then [Failed(FailureOf(fortune.unapplied.value))] else [GoesWell, GoesWell]
  }

  function AfterTaking(fortune: Fortune): seq<World> {
    if fortune.unprepared.Some? then [Failed(Failure(fortune.unprepared.value, None, false))]
    else [GoesWell, GoesWell] + (Reports(fortune.progress) + AfterSaving(fortune))
  }

  function Answers(fortune: Fortune): seq<World> {
    [GoesWell] + AfterTaking(fortune)
  }

  lemma {:induction false} AloneInTwo(m: Machine, thread: Thread, a: seq<World>, b: seq<World>)
    requires thread in m.threads
    ensures thread in Alone(m, thread, a).threads
    ensures Alone(m, thread, a + b) == Alone(Alone(m, thread, a), thread, b)
    decreases |a|
  {
    hide Turn;
    if a == [] {
      assert a + b == b;
    } else {
      TurnKeepsThread(m, thread, a[0]);
      AloneInTwo(Turn(m, thread, a[0]), thread, a[1..], b);
      assert (a + b)[1..] == a[1..] + b;
    }
  }

  lemma TurnKeepsThread(m: Machine, thread: Thread, world: World)
    requires thread in m.threads
    ensures thread in Turn(m, thread, world).threads
  {
  }

  lemma {:induction false} OverIsOver(m: Machine, thread: Thread, worlds: seq<World>)
    requires thread in m.threads && m.threads[thread] == Ended
    ensures Alone(m, thread, worlds) == m
    decreases |worlds|
  {
    if worlds == [] {
    } else {
      OverIsOver(m, thread, worlds[1..]);
    }
  }

  // While the file is written the latest report shows.
  lemma {:induction false} ReportsAlone(m: Machine, thread: Thread, update: Available,
                                        progress: seq<(nat, Option<nat>)>)
    requires thread in m.threads && m.threads[thread] == Saving(update)
    ensures var n := |progress|;
            Alone(m, thread, Reports(progress))
            == if n == 0 then m else m.(state := Downloading(update, progress[n - 1].0, progress[n - 1].1))
    decreases |progress|
  {
    if progress == [] {
    } else {
      var m' := Turn(m, thread, Progress(progress[0].0, progress[0].1));
      assert Reports(progress)[1..] == Reports(progress[1..]);
      ReportsAlone(m', thread, update, progress[1..]);
    }
  }

  // What an installer comes to.
  predicate EndsAs(m: Machine, m': Machine, update: Available, fortune: Fortune) {
    && m'.state == EndOf(update, fortune)
    && m'.restarts == m.restarts + (if m'.state.Restarting? then 1 else 0)
  }

  // On its own, the thread does what the installer's method does.
  lemma InstallerAlone(m: Machine, thread: Thread, fortune: Fortune)
    requires thread in m.threads && m.threads[thread] == ToInstall
    ensures var m' := Alone(m, thread, Answers(fortune));
            match Installable(m.state)
            case None => m'.state == m.state && m'.restarts == m.restarts
            case Some(update) => EndsAs(m, m', update, fortune)
  {
    var m1 := Turn(m, thread, GoesWell);
    assert Answers(fortune)[1..] == AfterTaking(fortune);
    assert Alone(m, thread, Answers(fortune)) == Alone(m1, thread, AfterTaking(fortune));
    if Installable(m.state).None? {
      OverIsOver(m1, thread, AfterTaking(fortune));
    } else {
      TakenAlone(m1, thread, Installable(m.state).value, fortune);
    }
  }

  lemma TakenAlone(m: Machine, thread: Thread, update: Available, fortune: Fortune)
    requires thread in m.threads && m.threads[thread] == Preparing(update)
    ensures EndsAs(m, Alone(m, thread, AfterTaking(fortune)), update, fortune)
  {
    if fortune.unprepared.Some? {
      FailsAlone(m, thread, update, Failure(fortune.unprepared.value, None, false), AfterTaking(fortune));
    } else {
      hide Turn, EndOf, AfterSaving, Reports;
      var reports, rest := Reports(fortune.progress), AfterSaving(fortune);
      WellTwice(m, thread, reports + rest);
      SavesFile(m, thread, update);
      var m2 := Turn(Turn(m, thread, GoesWell), thread, GoesWell);
      AloneInTwo(m2, thread, reports, rest);
      ReportsAlone(m2, thread, update, fortune.progress);
      SavedAlone(Alone(m2, thread, reports), thread, update, fortune);
    }
  }

  lemma FailsAlone(m: Machine, thread: Thread, update: Available, failure: Failure, answers: seq<World>)
    requires thread in m.threads && Installs(m.threads[thread]) && m.threads[thread].update == update
    requires answers == [Failed(failure)]
    ensures Alone(m, thread, answers) == FailedAt(m, thread, update, failure)
  {
    OverIsOver(Turn(m, thread, answers[0]), thread, answers[1..]);
  }

  lemma SavesFile(m: Machine, thread: Thread, update: Available)
    requires thread in m.threads && m.threads[thread] == Preparing(update)
    ensures thread in Turn(m, thread, GoesWell).threads
    ensures Turn(Turn(m, thread, GoesWell), thread, GoesWell)
            == m.(folder := Holding(update), threads := m.threads[thread := Saving(update)])
  {
  }

  lemma WellTwice(m: Machine, thread: Thread, rest: seq<World>)
    requires thread in m.threads
    ensures thread in Turn(m, thread, GoesWell).threads
    ensures thread in Turn(Turn(m, thread, GoesWell), thread, GoesWell).threads
    ensures Alone(m, thread, [GoesWell, GoesWell] + rest)
            == Alone(Turn(Turn(m, thread, GoesWell), thread, GoesWell), thread, rest)
  {
    hide Turn;
    var worlds := [GoesWell, GoesWell] + rest;
    TurnKeepsThread(m, thread, GoesWell);
    TurnKeepsThread(Turn(m, thread, GoesWell), thread, GoesWell);
    assert worlds[1..] == [GoesWell] + rest && worlds[1..][1..] == rest;
  }

  lemma SavedAlone(m: Machine, thread: Thread, update: Available, fortune: Fortune)
    requires thread in m.threads && m.threads[thread] == Saving(update) && m.folder == Holding(update)
    requires fortune.unprepared.None?
    ensures EndsAs(m, Alone(m, thread, AfterSaving(fortune)), update, fortune)
  {
    if fortune.undownloaded.Some? {
      FailsAlone(m, thread, update, Failure(fortune.undownloaded.value, None, false), AfterSaving(fortune));
    } else {
      var rest := AfterSaving(fortune)[2..];
      assert AfterSaving(fortune) == [GoesWell, GoesWell] + rest;
      WellTwice(m, thread, rest);
      AppliedAlone(Turn(Turn(m, thread, GoesWell), thread, GoesWell), thread, update, fortune, rest);
    }
  }

  lemma AppliedAlone(m: Machine, thread: Thread, update: Available, fortune: Fortune, rest: seq<World>)
    requires thread in m.threads && m.threads[thread] == Applying(update)
    requires fortune.unprepared.None? && fortune.undownloaded.None?
    requires rest == if fortune.unapplied.Some? then [Failed(FailureOf(fortune.unapplied.value))]
                     else [GoesWell, GoesWell]
    ensures EndsAs(m, Alone(m, thread, rest), update, fortune)
  {
    if fortune.unapplied.Some? {
      FailsAlone(m, thread, update, FailureOf(fortune.unapplied.value), rest);
    } else {
      assert rest == [GoesWell, GoesWell] + [];
      WellTwice(m, thread, []);
    }
  }

  // ── One job at a time ────────────────────────────────────────────────

  // The state is the one that the job in `phase` put there.
  predicate Shows(state: State, phase: Phase) {
    match phase
    case Looking => state == Checking
    case Preparing(update) => state.Downloading? && state.update == update
    case Fetching(update) => state.Downloading? && state.update == update
    case Saving(update) => state.Downloading? && state.update == update
    case Verifying(update) => state.Downloading? && state.update == update
    case Applying(update) => state == Installing(update)
    case Ringing(update) => state == Restarting(update)
    case Dead => IsBusy(state) && !state.Restarting?
    case _ => true
  }

  ghost predicate Exclusive(m: Machine) {
    && (forall t <- m.threads :: Shows(m.state, m.threads[t]))
    && (forall t, u :: t in m.threads && u in m.threads && Engaged(m.threads[t]) && Engaged(m.threads[u]) ==> t == u)
    && (IsBusy(m.state) && !m.state.Restarting? ==> exists t <- m.threads :: Unfinished(m.threads[t]))
    && m.restarts <= 1
    && (m.restarts == 1 ==> m.state.Restarting? && forall t <- m.threads :: !Engaged(m.threads[t]))
  }

  // A job is under way or its thread died.
  predicate Unfinished(phase: Phase) {
    InFlight(phase) || phase.Dead?
  }

  predicate Engaged(phase: Phase) {
    Unfinished(phase) || phase.Ringing?
  }

  lemma SpawnKeepsExclusive(m: Machine, thread: Thread, task: Phase)
    requires Exclusive(m)
    ensures Exclusive(After(m, Spawns(thread, task)))
  {
    var m' := After(m, Spawns(thread, task));
    if m' != m {
      StillInFlight(m, thread, task);
    }
  }

  lemma StillInFlight(m: Machine, thread: Thread, phase: Phase)
    requires thread in m.threads ==> !Unfinished(m.threads[thread])
    ensures (exists t <- m.threads :: Unfinished(m.threads[t])) ==>
            var threads := m.threads[thread := phase]; exists t <- threads :: Unfinished(threads[t])
  {
    if exists t <- m.threads :: Unfinished(m.threads[t]) {
      var t :| t in m.threads && Unfinished(m.threads[t]);
      assert t in m.threads[thread := phase] && Unfinished(m.threads[thread := phase][t]);
    }
  }

  lemma StartKeepsExclusive(m: Machine, thread: Thread, world: World)
    requires Exclusive(m) && thread in m.threads && !Engaged(m.threads[thread])
    ensures Exclusive(Turn(m, thread, world))
  {
    hide Installable;
    var phase := m.threads[thread];
    StillInFlight(m, thread, Turn(m, thread, world).threads[thread]);
    if phase.ToCheck? || phase.ToInstall? {
      if IsBusy(m.state) {
        NoJobStarts(m, thread, world);
      } else {
        JobStarts(m, thread, world);
      }
    }
  }

  lemma NoJobStarts(m: Machine, thread: Thread, world: World)
    requires Exclusive(m) && thread in m.threads && (m.threads[thread].ToCheck? || m.threads[thread].ToInstall?)
    requires IsBusy(m.state)
    ensures Exclusive(Turn(m, thread, world))
  {
    StillInFlight(m, thread, Ended);
    assert Turn(m, thread, world) == m.(threads := m.threads[thread := Ended]);
  }

  lemma JobStarts(m: Machine, thread: Thread, world: World)
    requires Exclusive(m) && thread in m.threads && (m.threads[thread].ToCheck? || m.threads[thread].ToInstall?)
    requires !IsBusy(m.state)
    ensures Exclusive(Turn(m, thread, world))
  {
    assert forall t <- m.threads :: !Engaged(m.threads[t]);
    assert thread in Turn(m, thread, world).threads;
  }

  // What a turn of a job can come to.
  lemma JobTurnShows(m: Machine, thread: Thread, world: World)
    requires thread in m.threads && Engaged(m.threads[thread]) && Shows(m.state, m.threads[thread])
    ensures var m' := Turn(m, thread, world);
            && m'.threads == m.threads[thread := m'.threads[thread]]
            && Shows(m'.state, m'.threads[thread])
            && (IsBusy(m'.state) && !m'.state.Restarting? ==> Unfinished(m'.threads[thread]))
            && (m'.restarts == m.restarts
                || (m'.restarts == m.restarts + 1 && m.threads[thread].Ringing? && !Engaged(m'.threads[thread])))
            && (m.state.Restarting? ==> m'.state == m.state)
  {
    hide Installable;
  }

  lemma JobKeepsExclusive(m: Machine, thread: Thread, world: World)
    requires Exclusive(m) && thread in m.threads && Engaged(m.threads[thread])
    ensures Exclusive(Turn(m, thread, world))
  {
    assert Shows(m.state, m.threads[thread]);
    JobTurnShows(m, thread, world);
    hide Turn;
    var m' := Turn(m, thread, world);
    forall t | t in m'.threads ensures Shows(m'.state, m'.threads[t]) {
      assert t != thread ==> Shows(m.state, m.threads[t]) && !Engaged(m.threads[t]);
    }
    assert thread in m'.threads;
  }

  // However many threads look and install, and however they take turns, at most one job is under
  // way, the state is the one that job put there, and the program is told to quit at most once.
  lemma {:induction false} OneJobAtATime(folder: Folder, events: seq<Event>)
    ensures Exclusive(Ran(folder, events))
  {
    hide Exclusive, Turn;
    if events == [] {
      NobodyEngaged(folder);
    } else {
      var before, last := events[..|events| - 1], events[|events| - 1];
      OneJobAtATime(folder, before);
      match last
      case Spawns(thread, task) => SpawnKeepsExclusive(Ran(folder, before), thread, task);
      case Turns(thread, world) =>
        if thread in Ran(folder, before).threads {
          if Engaged(Ran(folder, before).threads[thread]) {
            JobKeepsExclusive(Ran(folder, before), thread, world);
          } else {
            StartKeepsExclusive(Ran(folder, before), thread, world);
          }
        }
    }
  }

  lemma NobodyEngaged(folder: Folder)
    ensures Exclusive(Machine(Unknown, map[], 0, folder))
  {
  }

  // A result stays until a new job starts: the state changes only when an idle updater is asked for
  // something, or by the job under way. Once restarting it changes no more.
  lemma ResultsAreNotOverwritten(folder: Folder, events: seq<Event>, event: Event)
    ensures var m, m' := Ran(folder, events), Ran(folder, events + [event]);
            m'.state != m.state ==>
              && event.Turns? && event.thread in m.threads
              && !m.state.Restarting?
              && (IsBusy(m.state) ==>
                    && InFlight(m.threads[event.thread])
                    && forall t <- m.threads :: Unfinished(m.threads[t]) ==> t == event.thread)
              && (!IsBusy(m.state) ==>
                    || m'.state == Checking
                    || (Installable(m.state).Some? && m'.state == Downloading(Installable(m.state).value, 0, None)))
  {
    OneJobAtATime(folder, events);
    assert (events + [event])[..|events|] == events;
    var m := Ran(folder, events);
    if event.Turns? && event.thread in m.threads {
      assert Shows(m.state, m.threads[event.thread]);
    }
  }

  // A thread died in the middle of a job.
  predicate SomeoneDied(m: Machine) {
    exists t <- m.threads :: m.threads[t].Dead?
  }

  // Then the state is never anything else again.
  lemma {:induction false} DeathWedges(folder: Folder, events: seq<Event>, more: seq<Event>)
    requires SomeoneDied(Ran(folder, events))
    ensures SomeoneDied(Ran(folder, events + more)) && Ran(folder, events + more).state == Ran(folder, events).state
  {
    if more == [] {
      assert events + more == events;
    } else {
      var n := |more| - 1;
      var before := events + more[..n];
      DeathWedges(folder, events, more[..n]);
      assert events + more == before + [more[n]];
      DeathLasts(folder, before, more[n]);
    }
  }

  lemma DeathLasts(folder: Folder, events: seq<Event>, event: Event)
    requires SomeoneDied(Ran(folder, events))
    ensures SomeoneDied(Ran(folder, events + [event]))
    ensures Ran(folder, events + [event]).state == Ran(folder, events).state
  {
    ResultsAreNotOverwritten(folder, events, event);
    OneJobAtATime(folder, events);
    assert (events + [event])[..|events|] == events;
    var m := Ran(folder, events);
    var t :| t in m.threads && m.threads[t].Dead?;
    assert Shows(m.state, m.threads[t]);
    hide JobTurn, Installable, Ran, Exclusive;
    var m' := After(m, event);
    assert event.Turns? && event.thread == t ==> m' == m;
    assert t in m'.threads && m'.threads[t].Dead?;
  }

  // A busy updater that is not restarting can become idle again if and only if no job's thread has died.
  lemma WedgedOnlyByDeath(folder: Folder, events: seq<Event>)
    requires IsBusy(Ran(folder, events).state) && !Ran(folder, events).state.Restarting?
    ensures (exists more :: !IsBusy(Ran(folder, events + more).state)) <==> !SomeoneDied(Ran(folder, events))
  {
    hide Turn, Ran, IsBusy;
    if SomeoneDied(Ran(folder, events)) {
      forall more ensures IsBusy(Ran(folder, events + more).state) {
        DeathWedges(folder, events, more);
      }
    } else {
      var event := CanEnd(folder, events);
      assert !IsBusy(Ran(folder, events + [event]).state);
    }
  }

  lemma CanEnd(folder: Folder, events: seq<Event>) returns (event: Event)
    requires IsBusy(Ran(folder, events).state) && !Ran(folder, events).state.Restarting?
    requires !SomeoneDied(Ran(folder, events))
    ensures !IsBusy(Ran(folder, events + [event]).state)
  {
    OneJobAtATime(folder, events);
    var m := Ran(folder, events);
    var t :| t in m.threads && Unfinished(m.threads[t]);
    event := Turns(t, if m.threads[t].Looking? then LookedUp(Newest) else Failed(Failure("", None, false)));
    assert (events + [event])[..|events|] == events;
  }

  // ── What a check and an installation come to ─────────────────────────

  // The state shows what a check was answered.
  predicate Tells(state: State, answer: Answer) {
    match answer
    case Newest => state == UpToDate
    case Newer(update) => state == Found(update)
    case NoAnswer(error) => state == CheckFailed(error)
  }

  predicate AnswersCheck(m: Machine, event: Event) {
    event.Turns? && event.thread in m.threads && m.threads[event.thread].Looking? && event.world.LookedUp?
  }

  // A job begins.
  predicate Starts(m: Machine, event: Event) {
    && event.Turns? && event.thread in m.threads
    && ((m.threads[event.thread].ToCheck? && !IsBusy(m.state))
        || (m.threads[event.thread].ToInstall? && Installable(m.state).Some?))
  }

  // The `j`th event was this answer, and no job has begun since.
  ghost predicate LatestAnswer(folder: Folder, events: seq<Event>, answer: Answer, j: nat) {
    && j < |events|
    && AnswersCheck(Ran(folder, events[..j]), events[j]) && events[j].world.answer == answer
    && forall k :: j < k < |events| ==> !Starts(Ran(folder, events[..k]), events[k])
  }

  // In every run an update is on offer, nothing newer is known, or a failed check shows, if and only if that
  // was the answer to the latest check and no job has begun since.
  lemma {:induction false} ResultStands(folder: Folder, events: seq<Event>, answer: Answer)
    ensures Tells(Ran(folder, events).state, answer) <==> exists j: nat :: LatestAnswer(folder, events, answer, j)
  {
    hide After, Exclusive, Tells, LatestAnswer;
    if events == [] {
      NoAnswerYet(folder, answer);
    } else {
      var n := |events| - 1;
      var before, m := events[..n], Ran(folder, events[..n]);
      OneJobAtATime(folder, before);
      ToldAfter(m, events[n], answer);
      ResultStands(folder, before, answer);
      forall j: nat ensures LatestAnswer(folder, events, answer, j) <==>
                            || (j == n && AnswersCheck(m, events[n]) && events[n].world.answer == answer)
                            || (LatestAnswer(folder, before, answer, j) && !Starts(m, events[n])) {
        LatestAnswerOneLater(folder, events, answer, j);
      }
      LatestAnswerOneLater(folder, events, answer, n);
    }
  }

  lemma NoAnswerYet(folder: Folder, answer: Answer)
    ensures !Tells(Ran(folder, []).state, answer) && forall j: nat :: !LatestAnswer(folder, [], answer, j)
  {
  }

  lemma ToldAfter(m: Machine, event: Event, answer: Answer)
    requires Exclusive(m)
    ensures Tells(After(m, event).state, answer) <==>
            || (AnswersCheck(m, event) && event.world.answer == answer)
            || (Tells(m.state, answer) && !Starts(m, event))
    ensures AnswersCheck(m, event) ==> !Tells(m.state, answer)
  {
    if event.Turns? && event.thread in m.threads {
      assert Shows(m.state, m.threads[event.thread]);
    }
  }

  lemma LatestAnswerOneLater(folder: Folder, events: seq<Event>, answer: Answer, j: nat)
    requires events != []
    ensures var n := |events| - 1;
            var m := Ran(folder, events[..n]);
            LatestAnswer(folder, events, answer, j) <==>
            || (j == n && AnswersCheck(m, events[n]) && events[n].world.answer == answer)
            || (LatestAnswer(folder, events[..n], answer, j) && !Starts(m, events[n]))
  {
    hide Ran, Starts, AnswersCheck;
    var n := |events| - 1;
    assert forall k :: 0 <= k < n ==> events[..n][..k] == events[..k];
  }

  // One thread's turns.
  function TurnsOf(thread: Thread, worlds: seq<World>): seq<Event> {
    if worlds == [] then [] else [Turns(thread, worlds[0])] + TurnsOf(thread, worlds[1..])
  }

  // A check and its answer; an installation and its fortune.
  function CheckBy(thread: Thread, answer: Answer): seq<Event> {
    [Spawns(thread, ToCheck)] + TurnsOf(thread, [GoesWell, LookedUp(answer)])
  }

  function InstallBy(thread: Thread, fortune: Fortune): seq<Event> {
    [Spawns(thread, ToInstall)] + TurnsOf(thread, Answers(fortune))
  }

  lemma RanOneMore(folder: Folder, events: seq<Event>, event: Event)
    ensures Ran(folder, events + [event]) == After(Ran(folder, events), event)
  {
    assert (events + [event])[..|events|] == events;
  }

  // In a run, a thread's turns without others' between are the thread on its own.
  lemma {:induction false} AloneInRun(folder: Folder, events: seq<Event>, thread: Thread, worlds: seq<World>)
    requires thread in Ran(folder, events).threads
    ensures Ran(folder, events + TurnsOf(thread, worlds)) == Alone(Ran(folder, events), thread, worlds)
    decreases |worlds|
  {
    hide Turn, Ran;
    if worlds == [] {
      assert events + [] == events;
    } else {
      var turn := Turns(thread, worlds[0]);
      RanOneMore(folder, events, turn);
      TurnKeepsThread(Ran(folder, events), thread, worlds[0]);
      assert Ran(folder, events + [turn]) == Turn(Ran(folder, events), thread, worlds[0]);
      AloneInRun(folder, events + [turn], thread, worlds[1..]);
      assert TurnsOf(thread, worlds) == [turn] + TurnsOf(thread, worlds[1..]);
      assert events + TurnsOf(thread, worlds) == events + [turn] + TurnsOf(thread, worlds[1..]);
    }
  }

  predicate Waiting(state: State) {
    state.Unknown? || state.UpToDate? || state.Found? || state.CheckFailed? || state.InstallFailed?
  }

  // From every state without a job, a check shows its answer.
  lemma CheckRuns(folder: Folder, events: seq<Event>, thread: Thread, answer: Answer)
    requires thread !in Ran(folder, events).threads && Waiting(Ran(folder, events).state)
    ensures var m, m' := Ran(folder, events), Ran(folder, events + CheckBy(thread, answer));
            && Tells(m'.state, answer)
            && m'.threads.Keys == m.threads.Keys + {thread} && m'.restarts == m.restarts
  {
    hide Ran;
    var spawned := events + [Spawns(thread, ToCheck)];
    RanOneMore(folder, events, Spawns(thread, ToCheck));
    var worlds := [GoesWell, LookedUp(answer)];
    AloneInRun(folder, spawned, thread, worlds);
    assert events + CheckBy(thread, answer) == spawned + TurnsOf(thread, worlds);
    CheckAlone(Ran(folder, spawned), thread, answer);
  }

  lemma CheckAlone(m: Machine, thread: Thread, answer: Answer)
    requires thread in m.threads && m.threads[thread] == ToCheck && Waiting(m.state)
    ensures var m' := Alone(m, thread, [GoesWell, LookedUp(answer)]);
            Tells(m'.state, answer) && m'.threads.Keys == m.threads.Keys && m'.restarts == m.restarts
  {
    var worlds := [GoesWell, LookedUp(answer)];
    var m1 := Turn(m, thread, GoesWell);
    assert worlds[1..] == [LookedUp(answer)] && worlds[1..][1..] == [];
    assert Alone(m1, thread, worlds[1..]) == Turn(m1, thread, LookedUp(answer));
  }

  predicate Well(fortune: Fortune) {
    fortune.unprepared.None? && fortune.undownloaded.None? && fortune.unapplied.None?
  }

  // From every state that offers an update there is something to download for, an installation that goes
  // well ends in the restart, and any other with the message of the first thing to fail, to be tried again.
  lemma InstallRuns(folder: Folder, events: seq<Event>, thread: Thread, update: Available, fortune: Fortune)
    requires thread !in Ran(folder, events).threads && update.install.Some?
    requires var state := Ran(folder, events).state;
             state == Found(update) || (state.InstallFailed? && state.update == update)
    ensures var m, m' := Ran(folder, events), Ran(folder, events + InstallBy(thread, fortune));
            && (Well(fortune) ==> m'.state == Restarting(update) && m'.restarts == m.restarts + 1)
            && (!Well(fortune) ==> m'.state.InstallFailed? && m'.state.update == update && m'.restarts == m.restarts)
            && (!Well(fortune) ==> Explains(m'.state.failure, fortune))
  {
    hide Ran, Turn;
    var spawned := events + [Spawns(thread, ToInstall)];
    RanOneMore(folder, events, Spawns(thread, ToInstall));
    AloneInRun(folder, spawned, thread, Answers(fortune));
    assert events + InstallBy(thread, fortune) == spawned + TurnsOf(thread, Answers(fortune));
    InstallerAlone(Ran(folder, spawned), thread, fortune);
  }

  // The failure has the first error's message; only a refusal counts as declined, and only an error that
  // says how to go on by hand has a way.
  predicate Explains(failure: Failure, fortune: Fortune)
    requires !Well(fortune)
  {
    if fortune.unprepared.Some? then failure == Failure(fortune.unprepared.value, None, false)
    else if fortune.undownloaded.Some? then failure == Failure(fortune.undownloaded.value, None, false)
    else
      && failure.declined == fortune.unapplied.value.Declined?
      && (fortune.unapplied.value.ByHand? ==>
            failure.message == fortune.unapplied.value.why && failure.how == fortune.unapplied.value.way)
      && (!fortune.unapplied.value.ByHand? ==>
            failure.message == fortune.unapplied.value.text && failure.how == None)
  }

  // So whatever has happened before, a check that finds an update for this computer and an installation
  // that goes well end in the restart, and in one.
  lemma FoundIsInstalled(folder: Folder, events: seq<Event>, checker: Thread, installer: Thread, update: Available,
                         fortune: Fortune)
    requires Waiting(Ran(folder, events).state) && checker != installer
    requires checker !in Ran(folder, events).threads && installer !in Ran(folder, events).threads
    requires update.install.Some? && Well(fortune)
    ensures var m := Ran(folder, events + CheckBy(checker, Newer(update)) + InstallBy(installer, fortune));
            m.state == Restarting(update) && m.restarts == 1
  {
    hide Ran, CheckBy, InstallBy;
    OneJobAtATime(folder, events);
    CheckRuns(folder, events, checker, Newer(update));
    InstallRuns(folder, events + CheckBy(checker, Newer(update)), installer, update, fortune);
  }

  // ── What is installed is what was found ──────────────────────────────

  // At `j` the update was found, and it has been the one in hand ever since.
  ghost predicate FoundAt(folder: Folder, events: seq<Event>, update: Available, j: nat) {
    && j <= |events|
    && Ran(folder, events[..j]).state == Found(update)
    && forall k :: j <= k <= |events| ==> UpdateOf(Ran(folder, events[..k]).state) == Some(update)
  }

  lemma {:induction false} InstalledIsFound(folder: Folder, events: seq<Event>, update: Available) returns (j: nat)
    requires UpdateOf(Ran(folder, events).state) == Some(update)
    ensures FoundAt(folder, events, update, j)
    ensures Ran(folder, events).state.Found? || update.install.Some?
  {
    assert events[..|events|] == events;
    if Ran(folder, events).state.Found? {
      j := |events|;
    } else {
      var n := |events| - 1;
      var before := events[..n];
      HandedOn(folder, before, events[n], update);
      assert before + [events[n]] == events;
      j := InstalledIsFound(folder, before, update);
      forall k | j <= k <= |events| ensures UpdateOf(Ran(folder, events[..k]).state) == Some(update) {
        assert k <= n ==> before[..k] == events[..k];
      }
      assert before[..j] == events[..j];
    }
  }

  lemma HandedOn(folder: Folder, events: seq<Event>, event: Event, update: Available)
    requires var state := Ran(folder, events + [event]).state; UpdateOf(state) == Some(update) && !state.Found?
    ensures UpdateOf(Ran(folder, events).state) == Some(update)
    ensures Ran(folder, events).state.Found? ==> update.install.Some?
  {
    OneJobAtATime(folder, events);
    assert (events + [event])[..|events|] == events;
    var m := Ran(folder, events);
    if event.Turns? && event.thread in m.threads {
      assert Shows(m.state, m.threads[event.thread]);
    }
  }

  // ── The download folder ──────────────────────────────────────────────

  // From the opening for the checksum until the update is in place, it is the file in the folder that
  // counts.
  predicate NeedsFile(phase: Phase) {
    phase.Verifying? || phase.Applying?
  }

  ghost predicate Undisturbed(m: Machine) {
    forall t <- m.threads :: NeedsFile(m.threads[t]) ==> m.folder == Holding(m.threads[t].update)
  }

  // Old downloads are cleared, without the lock, while an installer needs its file.
  predicate Clears(m: Machine, event: Event) {
    && event.Turns? && event.thread in m.threads && m.threads[event.thread].ToSweep?
    && exists t <- m.threads :: NeedsFile(m.threads[t])
  }

  // The folder stays the installer's own if and only if the step is not such a clearing.
  lemma FolderStaysItsOwn(folder: Folder, events: seq<Event>, event: Event)
    requires Undisturbed(Ran(folder, events))
    ensures Undisturbed(Ran(folder, events + [event])) <==> !Clears(Ran(folder, events), event)
  {
    OneJobAtATime(folder, events);
    assert (events + [event])[..|events|] == events;
    hide Ran;
    var m, m' := Ran(folder, events), Ran(folder, events + [event]);
    if Clears(m, event) {
      var t :| t in m.threads && NeedsFile(m.threads[t]);
      assert t in m'.threads && m'.threads[t] == m.threads[t];
    } else {
      NotCleared(m, event);
    }
  }

  lemma NotCleared(m: Machine, event: Event)
    requires Exclusive(m) && Undisturbed(m) && !Clears(m, event)
    ensures Undisturbed(After(m, event))
  {
    if event.Turns? && event.thread in m.threads {
      TurnNotCleared(m, event.thread, event.world);
    }
  }

  // The folder is changed by a clearing or by the one job under way, before it needs its file.
  lemma FolderChanges(m: Machine, thread: Thread, world: World)
    requires thread in m.threads
    ensures var m' := Turn(m, thread, world);
            && m'.threads == m.threads[thread := m'.threads[thread]]
            && (m'.folder != m.folder ==> m.threads[thread].ToSweep? || Engaged(m.threads[thread]))
            && (NeedsFile(m'.threads[thread]) ==>
                  || (NeedsFile(m.threads[thread]) && m'.folder == m.folder
                      && m'.threads[thread].update == m.threads[thread].update)
                  || m'.folder == Holding(m'.threads[thread].update))
  {
    hide Installable, IsBusy, Answered;
  }

  lemma TurnNotCleared(m: Machine, thread: Thread, world: World)
    requires Exclusive(m) && Undisturbed(m) && thread in m.threads && !Clears(m, Turns(thread, world))
    ensures Undisturbed(Turn(m, thread, world))
  {
    FolderChanges(m, thread, world);
    hide Turn;
    var m' := Turn(m, thread, world);
    forall t | t in m'.threads && NeedsFile(m'.threads[t]) ensures m'.folder == Holding(m'.threads[t].update) {
      assert t != thread ==> m'.threads[t] == m.threads[t] && Engaged(m.threads[t]);
    }
  }

  ghost predicate OwnAt(folder: Folder, events: seq<Event>, i: nat)
    requires i <= |events|
  {
    Undisturbed(Ran(folder, events[..i]))
  }

  predicate ClearedAt(folder: Folder, events: seq<Event>, i: nat)
    requires i < |events|
  {
    Clears(Ran(folder, events[..i]), events[i])
  }

  // In every run an update is checked and applied from what its own job downloaded for exactly as long
  // as there is no such clearing.
  lemma {:induction false} FolderIsItsOwn(folder: Folder, events: seq<Event>, n: nat)
    requires n <= |events|
    ensures (forall i :: 0 <= i <= n ==> OwnAt(folder, events, i)) <==>
            (forall i :: 0 <= i < n ==> !ClearedAt(folder, events, i))
  {
    hide OwnAt, ClearedAt;
    if n == 0 {
      NobodyInstalls(folder, events);
    } else {
      FolderIsItsOwn(folder, events, n - 1);
      if OwnAt(folder, events, n - 1) {
        OwnNext(folder, events, n - 1);
      }
    }
  }

  lemma OwnNext(folder: Folder, events: seq<Event>, i: nat)
    requires i < |events| && OwnAt(folder, events, i)
    ensures OwnAt(folder, events, i + 1) <==> !ClearedAt(folder, events, i)
  {
    hide Clears, Undisturbed, Ran;
    FolderStaysItsOwn(folder, events[..i], events[i]);
    assert events[..i] + [events[i]] == events[..i + 1];
  }

  lemma NobodyInstalls(folder: Folder, events: seq<Event>)
    ensures OwnAt(folder, events, 0)
  {
    assert events[..0] == [];
  }

  // A clearing before the opening makes the download fail instead: until then the job can only fail.
  lemma ClearedBeforeOpening(m: Machine, thread: Thread, world: World)
    requires thread in m.threads && m.threads[thread].Saving? && m.folder == Absent
    ensures Turn(m, thread, world).threads[thread] in {m.threads[thread], Ended, Dead}
  {
  }
}
