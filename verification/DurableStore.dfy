/** The durable cached store: save_bytes_atomic of storage.rs under the lock-and-cache pattern of zone_store.rs,
    as a machine of single steps. The process may die and the power fail anywhere. A task that is dropped gives up the
    lock, while the blocking save it began runs on beside whoever takes the lock next. */
module DurableStore {
  import opened CrashDisk
  import opened Text

  // ---------------------------------------------------------------------------
  // The machine
  // ---------------------------------------------------------------------------

  /** What a task does under the lock: read, or change the data, or find nothing to change. */
  datatype Job<!V> = Read | Change(f: V -> Option<V>)

  /** Where the task that holds the lock stands: before its load, or saving what f made. */
  datatype Stage<!V> = Unlocked | Loading(job: Job<V>) | Saving(f: V -> Option<V>, save: Save<V>)

  /** `orphans` are the saves of dropped tasks. The other fields from `jobs` on only record: the jobs that got the lock;
      the line of the value this process works on; that of the last value whose operation returned Ok or that came
      back from a power loss; those of the values readers were given; and those of the values a power loss may bring
      back, in the order in which they were renamed into place. */
  datatype Machine<!V> = Machine(disk: Disk<V>, cache: Option<V>, stage: Stage<V>, orphans: seq<Save<V>>,
                                 jobs: seq<Job<V>>, line: seq<V>, ok: seq<V>, given: seq<seq<V>>, lines: seq<seq<V>>)

  /** PowerLoss also ends the process; Restart leaves the disk as the process found it. */
  datatype Action<!V> =
    | Acquire(job: Job<V>)
    | Proceed(ok: bool, mixed: Content<V>)
    | Drop
    | RunOn(orphan: nat, ok: bool, mixed: Content<V>)
    | ReadCache
    | Restart
    | PowerLoss(left: Disk<V>)

  function Line<V>(s: Save<V>): seq<V> {
    s.from + [s.v]
  }

  predicate Filled<V>(lines: seq<seq<V>>) {
    lines != [] && forall k :: 0 <= k < |lines| ==> lines[k] != []
  }

  /** The values that end the lines. */
  function Tips<V>(lines: seq<seq<V>>): seq<V>
    requires Filled(lines)
  {
    seq(|lines|, k requires 0 <= k < |lines| => Last(lines[k]))
  }

  /** PossibleAfter, with lines for values. */
  function LinesAfter<V>(lines: seq<seq<V>>, d: Disk<V>, s: Save<V>, ok: bool): (r: seq<seq<V>>)
    requires Filled(lines)
    ensures Filled(r)
  {
    if ok && s.at.Renaming? && d.tmp.Some? then lines + [Line(s)]
    else if ok && s.at.SyncingDir? then [Last(lines)]
    else lines
  }

  predicate HasRecords<V>(m: Machine<V>) {
    m.line != [] && m.ok != [] && Filled(m.lines)
  }

  function Give<V>(m: Machine<V>): Machine<V> {
    m.(given := m.given + [m.line])
  }

  /** load_locked and what follows it: the cache if there is one, else the file, which then fills the cache. */
  function LoadStep<V>(m: Machine<V>, ok: bool, default: V): Machine<V>
    requires m.stage.Loading?
  {
    var loaded := if m.cache.Some? then Value(m.cache.value)
                  else if ok then ReadFinal(m.disk, default) else ParseError;
    match loaded
    case ParseError => m.(stage := Unlocked)
    case Value(v) =>
      var m' := Give(m.(cache := Some(v)));
      match m.stage.job
      case Read => m'.(stage := Unlocked)
      case Change(f) =>
        m'.(stage := match f(v) case None => Unlocked case Some(w) => Saving(f, Save(m.line, w, Creating, 0)))
  }

  /** One step of the lock holder. */
  function ProceedStep<V>(m: Machine<V>, ok: bool, mixed: Content<V>, default: V): Machine<V>
    requires HasRecords(m)
  {
    match m.stage
    case Unlocked => m
    case Loading(_) => LoadStep(m, ok, default)
    case Saving(f, s) =>
      if s.at.Publishing? then m.(cache := Some(s.v), stage := Unlocked, line := Line(s), ok := Line(s))
      else
        var (disk, s') := SaveStep(m.disk, s, ok, mixed);
        m.(disk := disk, stage := match s' case None => Unlocked case Some(s') => Saving(f, s'),
           lines := LinesAfter(m.lines, m.disk, s, ok))
  }

  /** A dropped save runs on until its last call; it never publishes. */
  function RunOnStep<V>(m: Machine<V>, k: nat, ok: bool, mixed: Content<V>): Machine<V>
    requires HasRecords(m) && k < |m.orphans|
  {
    var s := m.orphans[k];
    var (disk, s') := SaveStep(m.disk, s, ok, mixed);
    m.(disk := disk, lines := LinesAfter(m.lines, m.disk, s, ok),
       orphans := if s'.Some? && !s'.value.at.Publishing? then m.orphans[k := s'.value] else Dropped(m.orphans, k))
  }

  function DropStep<V>(m: Machine<V>): Machine<V> {
    var m' := m.(stage := Unlocked);
    if m.stage.Saving? && !m.stage.save.at.Publishing? then m'.(orphans := m.orphans + [m.stage.save]) else m'
  }

  /** A new process over the same files: it will work on what was renamed into place last. */
  function RestartStep<V>(m: Machine<V>): Machine<V>
    requires HasRecords(m)
  {
    m.(cache := None, stage := Unlocked, orphans := [], line := Last(m.lines))
  }

  /** The first line that ends in v. */
  function LineTo<V(==)>(lines: seq<seq<V>>, v: V): (r: seq<V>)
    requires Filled(lines)
    ensures r != [] && Last(r) == v
    ensures (exists k :: 0 <= k < |lines| && Last(lines[k]) == v) ==> r in lines
  {
    if Last(lines[0]) == v then lines[0] else if |lines| == 1 then [v] else LineTo(lines[1..], v)
  }

  /** A new process over what a power loss left. */
  function Reboot<V(==)>(m: Machine<V>, left: Disk<V>, default: V): Machine<V>
    requires HasRecords(m)
  {
    var back := ReadFinal(left, default);
    var line := if back.Value? then LineTo(m.lines, back.value) else m.line;
    Machine(left, None, Unlocked, [], m.jobs, line, line, m.given, [line])
  }

  function Step<V(==)>(m: Machine<V>, a: Action<V>, default: V): (m': Machine<V>)
    requires HasRecords(m)
    ensures HasRecords(m')
  {
    match a
    case Acquire(job) => if m.stage.Unlocked? then m.(stage := Loading(job), jobs := m.jobs + [job]) else m
    case Proceed(ok, mixed) => ProceedStep(m, ok, mixed, default)
    case Drop => DropStep(m)
    case RunOn(k, ok, mixed) => if k < |m.orphans| then RunOnStep(m, k, ok, mixed) else m
    case ReadCache => if m.cache.Some? then Give(m) else m
    case Restart => RestartStep(m)
    case PowerLoss(left) => if MaySurvive(m.disk, left) then Reboot(m, left, default) else m
  }

  // ---------------------------------------------------------------------------
  // What every machine keeps in which no save begins while a dropped one has its rename ahead
  // ---------------------------------------------------------------------------

  predicate Crowded<V(==)>(m: Machine<V>, a: Action<V>, default: V) {
    && a.Proceed? && m.stage.Loading? && LoadStep(m, a.ok, default).stage.Saving?
    && exists k :: 0 <= k < |m.orphans| && Pending(m.orphans[k])
  }

  predicate At<V>(m: Machine<V>, p: Point) {
    m.stage.Saving? && m.stage.save.at == p
  }

  /** Some job makes v from x. */
  predicate Makes<V(==)>(jobs: seq<Job<V>>, x: V, v: V) {
    exists k :: 0 <= k < |jobs| && jobs[k].Change? && jobs[k].f(x) == Some(v)
  }

  /** Each value of the line was made by some job from the one before. */
  predicate Grown<V(==)>(jobs: seq<Job<V>>, line: seq<V>) {
    line != [] && forall i {:trigger MadeAt(jobs, line, i)} :: 0 < i < |line| ==> MadeAt(jobs, line, i)
  }

  predicate MadeAt<V(==)>(jobs: seq<Job<V>>, line: seq<V>, i: nat)
    requires 0 < i < |line|
  {
    Makes(jobs, line[i - 1], line[i])
  }

  /** At most one save has its rename ahead. */
  predicate Alone<V>(stage: Stage<V>, orphans: seq<Save<V>>) {
    && (forall j, k :: 0 <= j < k < |orphans| ==> !(Pending(orphans[j]) && Pending(orphans[k])))
    && (stage.Saving? ==> forall k :: 0 <= k < |orphans| ==> !Pending(orphans[k]))
  }

  predicate SavesReady<V(==)>(d: Disk<V>, stage: Stage<V>, orphans: seq<Save<V>>) {
    && (stage.Saving? ==> Ready(d, stage.save))
    && (forall k :: 0 <= k < |orphans| ==> Ready(d, orphans[k]) && !orphans[k].at.Publishing?)
  }

  /** The save was made by some job from the value the process works on. */
  predicate MadeHere<V(==)>(jobs: seq<Job<V>>, line: seq<V>, s: Save<V>)
    requires line != []
  {
    s.from == line && Makes(jobs, Last(line), s.v)
  }

  predicate SavesMadeHere<V(==)>(jobs: seq<Job<V>>, line: seq<V>, stage: Stage<V>, orphans: seq<Save<V>>)
    requires line != []
  {
    && (forall k :: 0 <= k < |orphans| && Pending(orphans[k]) ==> MadeHere(jobs, line, orphans[k]))
    && (stage.Saving? ==> stage.f(Last(line)) == Some(stage.save.v) && MadeHere(jobs, line, stage.save))
    && (stage.Loading? && stage.job.Change? && stage.job.f(Last(line)).Some? ==>
          Makes(jobs, Last(line), stage.job.f(Last(line)).value))
  }

  /** A line that leads on from the last Ok value, and is at most one step longer than the process's own. */
  predicate Fits<V(==)>(jobs: seq<Job<V>>, ok: seq<V>, line: seq<V>, l: seq<V>) {
    ok <= l && Grown(jobs, l) && |l| <= |line| + 1
  }

  /** The last line renamed into place is a longest one. */
  predicate LinesFit<V(==)>(jobs: seq<Job<V>>, ok: seq<V>, line: seq<V>, lines: seq<seq<V>>)
    requires lines != []
  {
    && ok <= line <= Last(lines) && Grown(jobs, line)
    && (forall k {:trigger lines[k]} :: 0 <= k < |lines| ==>
          Fits(jobs, ok, line, lines[k]) && |lines[k]| <= |Last(lines)|)
  }

  /** The holder's own rename is the last one. */
  predicate HolderIsLast<V(==)>(stage: Stage<V>, lines: seq<seq<V>>)
    requires lines != []
  {
    stage.Saving? ==>
      && (stage.save.at.SyncingDir? ==> Last(lines) == Line(stage.save))
      && (stage.save.at.Publishing? ==> lines == [Line(stage.save)])
  }

  predicate CacheAgrees<V(==)>(m: Machine<V>)
    requires HasRecords(m)
  {
    match m.cache
    case Some(v) => v == Last(m.line)
    case None => m.orphans == [] && !m.stage.Saving? && m.line == Last(m.lines)
  }

  predicate Inv<V(==)>(m: Machine<V>, default: V) {
    && HasRecords(m) && Sound(m.disk) && Names(m.disk, Tips(m.lines), default)
    && Alone(m.stage, m.orphans) && SavesReady(m.disk, m.stage, m.orphans)
    && SavesMadeHere(m.jobs, m.line, m.stage, m.orphans)
    && LinesFit(m.jobs, m.ok, m.line, m.lines) && HolderIsLast(m.stage, m.lines) && CacheAgrees(m)
  }

  // ---------------------------------------------------------------------------
  // Every step keeps it
  // ---------------------------------------------------------------------------

  lemma TipsAfter<V>(lines: seq<seq<V>>, d: Disk<V>, s: Save<V>, ok: bool)
    requires Filled(lines)
    ensures Tips(LinesAfter(lines, d, s, ok)) == PossibleAfter(Tips(lines), d, s, ok)
  {
  }

  lemma GrownByOne<V>(jobs: seq<Job<V>>, line: seq<V>, v: V)
    requires Grown(jobs, line) && Makes(jobs, Last(line), v)
    ensures Grown(jobs, line + [v])
  {
    forall i | 0 < i < |line + [v]| ensures MadeAt(jobs, line + [v], i) {
      assert i < |line| ==> MadeAt(jobs, line, i);
    }
  }

  /** A rename by the one save that has it ahead adds a line, a directory sync leaves the last one. */
  lemma LinesStillFit<V>(jobs: seq<Job<V>>, ok: seq<V>, line: seq<V>, lines: seq<seq<V>>, d: Disk<V>, s: Save<V>,
                         called: bool)
    requires Filled(lines) && LinesFit(jobs, ok, line, lines) && (Pending(s) ==> MadeHere(jobs, line, s))
    ensures LinesFit(jobs, ok, line, LinesAfter(lines, d, s, called))
  {
    if called && s.at.Renaming? && d.tmp.Some? {
      GrownByOne(jobs, line, s.v);
      assert Fits(jobs, ok, line, Line(s));
    }
  }

  /** A call of the lock holder's save: no dropped save owns the temporary file. */
  lemma HolderKeepsInv<V>(m: Machine<V>, ok: bool, mixed: Content<V>, default: V)
    requires Inv(m, default) && m.stage.Saving? && !m.stage.save.at.Publishing?
    ensures Inv(ProceedStep(m, ok, mixed, default), default)
  {
    var s := m.stage.save;
    var m' := ProceedStep(m, ok, mixed, default);
    TipsAfter(m.lines, m.disk, s, ok);
    SaveStepKeepsNames(m.disk, s, ok, mixed, Tips(m.lines), default);
    LinesStillFit(m.jobs, m.ok, m.line, m.lines, m.disk, s, ok);
    assert forall k :: 0 <= k < |m.orphans| ==> !Pending(m.orphans[k]);
    assert SavesReady(m'.disk, m'.stage, m'.orphans);
  }

  /** A directory sync disturbs no other save. */
  lemma DirSyncIsHarmless<V>(d: Disk<V>, s: Save<V>, ok: bool, mixed: Content<V>, other: Save<V>)
    requires s.at.SyncingDir? && Ready(d, other)
    ensures Ready(SaveStep(d, s, ok, mixed).0, other)
  {
  }

  /** A call of a dropped save: either it alone owns the temporary file, or it only syncs the directory. */
  lemma OrphanSavesReady<V>(m: Machine<V>, k: nat, ok: bool, mixed: Content<V>, default: V)
    requires Inv(m, default) && k < |m.orphans|
    ensures var m' := RunOnStep(m, k, ok, mixed);
      Alone(m'.stage, m'.orphans) && SavesReady(m'.disk, m'.stage, m'.orphans)
  {
    var s := m.orphans[k];
    var m' := RunOnStep(m, k, ok, mixed);
    SaveStepKeepsNames(m.disk, s, ok, mixed, Tips(m.lines), default);
    if Pending(s) {
      assert forall j :: 0 <= j < |m.orphans| && j != k ==> !Pending(m.orphans[j]);
    } else {
      forall other | Ready(m.disk, other) ensures Ready(m'.disk, other) {
        DirSyncIsHarmless(m.disk, s, ok, mixed, other);
      }
    }
  }

  lemma OrphanKeepsInv<V>(m: Machine<V>, k: nat, ok: bool, mixed: Content<V>, default: V)
    requires Inv(m, default) && k < |m.orphans|
    ensures Inv(RunOnStep(m, k, ok, mixed), default)
  {
    var s := m.orphans[k];
    var m' := RunOnStep(m, k, ok, mixed);
    TipsAfter(m.lines, m.disk, s, ok);
    SaveStepKeepsNames(m.disk, s, ok, mixed, Tips(m.lines), default);
    LinesStillFit(m.jobs, m.ok, m.line, m.lines, m.disk, s, ok);
    OrphanSavesReady(m, k, ok, mixed, default);
    assert SavesMadeHere(m'.jobs, m'.line, m'.stage, m'.orphans);
  }

  /** A load fails, or finds the value that ends the process's line. */
  lemma LoadFindsTheLine<V>(m: Machine<V>, ok: bool, default: V)
    requires Inv(m, default) && m.stage.Loading?
    ensures var m' := LoadStep(m, ok, default);
      || m' == m.(stage := Unlocked)
      || (m' == m.(cache := Some(Last(m.line)), given := m.given + [m.line], stage := m'.stage) &&
          (m'.stage.Unlocked? ||
           (m.stage.job.Change? && m.stage.job.f(Last(m.line)).Some? &&
            m'.stage == Saving(m.stage.job.f, Save(m.line, m.stage.job.f(Last(m.line)).value, Creating, 0)))))
  {
    assert m.cache == None ==> Leads(m.disk, m.disk.final, Last(m.line), default);
  }

  lemma LoadKeepsInv<V>(m: Machine<V>, ok: bool, mixed: Content<V>, default: V)
    requires Inv(m, default) && m.stage.Loading? && !Crowded(m, Proceed(ok, mixed), default)
    ensures Inv(LoadStep(m, ok, default), default)
  {
    LoadFindsTheLine(m, ok, default);
  }

  lemma PublishKeepsInv<V>(m: Machine<V>, ok: bool, mixed: Content<V>, default: V)
    requires Inv(m, default) && At(m, Publishing)
    ensures Inv(ProceedStep(m, ok, mixed, default), default)
  {
    GrownByOne(m.jobs, m.line, m.stage.save.v);
  }

  lemma DropKeepsInv<V>(m: Machine<V>, default: V)
    requires Inv(m, default)
    ensures Inv(DropStep(m), default)
  {
  }

  lemma RestartKeepsInv<V>(m: Machine<V>, default: V)
    requires Inv(m, default)
    ensures Inv(RestartStep(m), default)
  {
    assert Fits(m.jobs, m.ok, m.line, m.lines[|m.lines| - 1]);
  }

  lemma MadeByMore<V>(jobs: seq<Job<V>>, job: Job<V>, x: V, v: V)
    ensures Makes(jobs, x, v) ==> Makes(jobs + [job], x, v)
    ensures job.Change? && job.f(x) == Some(v) ==> Makes(jobs + [job], x, v)
  {
    var all := jobs + [job];
    assert all[|jobs|] == job;
    if k :| 0 <= k < |jobs| && jobs[k].Change? && jobs[k].f(x) == Some(v) {
      assert all[k] == jobs[k];
    }
  }

  lemma GrownByMore<V>(jobs: seq<Job<V>>, job: Job<V>, line: seq<V>)
    requires Grown(jobs, line)
    ensures Grown(jobs + [job], line)
  {
    forall i | 0 < i < |line| ensures MadeAt(jobs + [job], line, i) {
      assert MadeAt(jobs, line, i);
      MadeByMore(jobs, job, line[i - 1], line[i]);
    }
  }

  lemma AcquireKeepsInv<V>(m: Machine<V>, job: Job<V>, default: V)
    requires Inv(m, default) && m.stage.Unlocked?
    ensures Inv(m.(stage := Loading(job), jobs := m.jobs + [job]), default)
  {
    var x := Last(m.line);
    GrownByMore(m.jobs, job, m.line);
    forall k | 0 <= k < |m.lines| ensures Fits(m.jobs + [job], m.ok, m.line, m.lines[k]) {
      GrownByMore(m.jobs, job, m.lines[k]);
    }
    forall k | 0 <= k < |m.orphans| && Pending(m.orphans[k]) ensures MadeHere(m.jobs + [job], m.line, m.orphans[k]) {
      MadeByMore(m.jobs, job, x, m.orphans[k].v);
    }
    if job.Change? && job.f(x).Some? {
      MadeByMore(m.jobs, job, x, job.f(x).value);
    }
  }

  lemma PowerLossKeepsInv<V>(m: Machine<V>, left: Disk<V>, default: V)
    requires Inv(m, default) && MaySurvive(m.disk, left)
    ensures Inv(Reboot(m, left, default), default)
    ensures var m' := Reboot(m, left, default);
      && ReadFinal(left, default) == Value(Last(m'.line)) && m'.line in m.lines
      && Fits(m.jobs, m.ok, m.line, m'.line)
  {
    var k := OneComesBack(m.disk, left, Tips(m.lines), default);
    var m' := Reboot(m, left, default);
    assert Last(m.lines[k]) == Tips(m.lines)[k];
    assert Tips(m'.lines) == [Tips(m.lines)[k]];
    var j :| 0 <= j < |m.lines| && m.lines[j] == m'.line;
  }

  lemma StepKeepsInv<V>(m: Machine<V>, a: Action<V>, default: V)
    requires Inv(m, default) && !Crowded(m, a, default)
    ensures Inv(Step(m, a, default), default)
  {
    match a
    case Acquire(job) =>
      if m.stage.Unlocked? {
        AcquireKeepsInv(m, job, default);
      }
    case Proceed(ok, mixed) =>
      if m.stage.Loading? {
        LoadKeepsInv(m, ok, mixed, default);
      } else if At(m, Publishing) {
        PublishKeepsInv(m, ok, mixed, default);
      } else if m.stage.Saving? {
        HolderKeepsInv(m, ok, mixed, default);
      }
    case Drop => DropKeepsInv(m, default);
    case RunOn(k, ok, mixed) =>
      if k < |m.orphans| {
        OrphanKeepsInv(m, k, ok, mixed, default);
      }
    case ReadCache =>
    case Restart => RestartKeepsInv(m, default);
    case PowerLoss(left) =>
      if MaySurvive(m.disk, left) {
        PowerLossKeepsInv(m, left, default);
      }
  }

  // ---------------------------------------------------------------------------
  // Whole runs: any interleaving of tasks, failures, dropped tasks, restarts and power losses
  // ---------------------------------------------------------------------------

  function Installed<V>(default: V): Machine<V> {
    Machine(Disk(map[], {}, None, None, {None}, 0), None, Unlocked, [], [], [default], [default], [], [[default]])
  }

  function Run<V(==)>(actions: seq<Action<V>>, default: V): (m: Machine<V>)
    ensures HasRecords(m)
  {
    if actions == [] then Installed(default)
    else Step(Run(actions[..|actions| - 1], default), actions[|actions| - 1], default)
  }

  /** No save began while a dropped save had its rename ahead. */
  predicate Uncrowded<V(==)>(actions: seq<Action<V>>, default: V) {
    actions == [] ||
    (Uncrowded(actions[..|actions| - 1], default)
     && !Crowded(Run(actions[..|actions| - 1], default), actions[|actions| - 1], default))
  }

  lemma {:induction false} RunKeepsInv<V>(actions: seq<Action<V>>, default: V)
    requires Uncrowded(actions, default)
    ensures Inv(Run(actions, default), default)
  {
    if actions == [] {
      var m := Installed(default);
      assert Tips(m.lines) == [default];
      assert Leads(m.disk, None, [default][0], default);
    } else {
      RunKeepsInv(actions[..|actions| - 1], default);
      StepKeepsInv(Run(actions[..|actions| - 1], default), actions[|actions| - 1], default);
    }
  }

  /** The power may fail at any step: what comes back is whole, has the last Ok value in its line, and is at most one
      job away from what the process worked on. Calls may fail, tasks be dropped, and processes die. */
  lemma PowerLossIsSafe<V>(actions: seq<Action<V>>, left: Disk<V>, default: V)
    requires Uncrowded(actions, default) && MaySurvive(Run(actions, default).disk, left)
    ensures var m := Run(actions, default);
      var back := Reboot(m, left, default).line;
      && ReadFinal(left, default) == Value(Last(back)) && back in m.lines
      && m.ok <= back && |back| <= |m.line| + 1 && Grown(m.jobs, back)
  {
    RunKeepsInv(actions, default);
    PowerLossKeepsInv(Run(actions, default), left, default);
  }

  lemma OkGrows<V>(m: Machine<V>, a: Action<V>, default: V)
    requires Inv(m, default)
    ensures m.ok <= Step(m, a, default).ok
  {
    if a.PowerLoss? && MaySurvive(m.disk, a.left) {
      PowerLossKeepsInv(m, a.left, default);
    }
  }

  lemma {:induction false} OkOnlyGrows<V>(actions: seq<Action<V>>, k: nat, default: V)
    requires Uncrowded(actions, default) && k <= |actions|
    ensures Run(actions[..k], default).ok <= Run(actions, default).ok
  {
    if k < |actions| {
      var before := actions[..|actions| - 1];
      RunKeepsInv(before, default);
      OkOnlyGrows(before, k, default);
      OkGrows(Run(before, default), actions[|actions| - 1], default);
      assert before[..k] == actions[..k];
    } else {
      assert actions[..k] == actions;
    }
  }

  /** Nothing whose operation returned Ok is ever lost: whatever a power loss brings back at any later step grew from
      it, through any number of earlier power losses and restarts. */
  lemma OkIsNeverLost<V>(actions: seq<Action<V>>, k: nat, left: Disk<V>, default: V)
    requires Uncrowded(actions, default) && k <= |actions| && MaySurvive(Run(actions, default).disk, left)
    ensures Run(actions[..k], default).ok <= Reboot(Run(actions, default), left, default).line
  {
    OkOnlyGrows(actions, k, default);
    PowerLossIsSafe(actions, left, default);
  }

  /** No update is lost: what an operation returns Ok for is its job's result on the value the process worked on, which
      grew from the last value before whose operation returned Ok. */
  lemma CommitsFollowEachOther<V>(actions: seq<Action<V>>, ok: bool, mixed: Content<V>, default: V)
    requires Uncrowded(actions, default) && At(Run(actions, default), Publishing)
    ensures var m := Run(actions, default);
      var m' := Step(m, Proceed(ok, mixed), default);
      && m.ok <= m.line && m'.ok == m'.line == m.line + [m.stage.save.v] && Grown(m.jobs, m'.line)
      && m.stage.f(Last(m.line)) == Some(m.stage.save.v)
      && m'.cache == Some(m.stage.save.v) && ReadFinal(m'.disk, default) == Value(m.stage.save.v)
  {
    RunKeepsInv(actions, default);
    GrownByOne(Run(actions, default).jobs, Run(actions, default).line, Run(actions, default).stage.save.v);
  }

  // ---------------------------------------------------------------------------
  // An operation that nothing disturbs succeeds
  // ---------------------------------------------------------------------------

  /** n successful steps of the lock holder. */
  function Steps<V>(n: nat): seq<Action<V>> {
    seq(n, _ => Proceed(true, Torn))
  }

  /** How many steps a save has still to make, the last one its return. */
  function StepsLeft<V>(s: Save<V>): nat {
    match s.at
    case Creating => 6 case Writing => 5 case SyncingFile => 4 case Renaming => 3 case SyncingDir => 2
    case Publishing => 1
  }

  /** The operation that saves v behind the given line has returned Ok. */
  predicate Committed<V(==)>(m: Machine<V>, line: seq<V>, default: V)
    requires line != []
  {
    && m.stage.Unlocked? && m.ok == m.line == line && m.lines == [line] && m.cache == Some(Last(line))
    && ReadFinal(m.disk, default) == Value(Last(line))
  }

  lemma FirstOfSteps<V>(actions: seq<Action<V>>, n: nat)
    requires n > 0
    ensures actions + Steps(n) == actions + [Proceed(true, Torn)] + Steps(n - 1)
  {
    Regroup(actions, [Proceed(true, Torn)], Steps(n - 1));
  }

  lemma SaveAdvances<V>(m: Machine<V>, default: V)
    requires Inv(m, default) && m.stage.Saving? && !m.stage.save.at.Publishing?
    ensures var m' := ProceedStep(m, true, Torn, default);
      && m'.stage.Saving? && Line(m'.stage.save) == Line(m.stage.save)
      && StepsLeft(m'.stage.save) == StepsLeft(m.stage.save) - 1
  {
  }

  lemma {:induction false} SaveCommits<V>(actions: seq<Action<V>>, n: nat, default: V)
    requires Uncrowded(actions, default)
    requires Run(actions, default).stage.Saving? && StepsLeft(Run(actions, default).stage.save) == n
    ensures Uncrowded(actions + Steps(n), default)
    ensures Committed(Run(actions + Steps(n), default), Line(Run(actions, default).stage.save), default)
    decreases n
  {
    var next := actions + [Proceed(true, Torn)];
    RunKeepsInv(actions, default);
    OneMoreStep(actions, Proceed(true, Torn), default);
    FirstOfSteps(actions, n);
    if n == 1 {
      CommitsFollowEachOther(actions, true, Torn, default);
      assert next + Steps(0) == next;
    } else {
      SaveAdvances(Run(actions, default), default);
      SaveCommits(next, n - 1, default);
    }
  }

  /** An operation that gets the lock while no dropped save has its rename ahead, and whose calls all succeed, returns
      Ok: its job's result on the value the process works on is in the file and in the cache, and the only value a
      power loss may bring back. If the job finds nothing to change, the disk stays as it is. */
  lemma UndisturbedOperation<V>(actions: seq<Action<V>>, f: V -> Option<V>, default: V)
    requires Uncrowded(actions, default) && Run(actions, default).stage.Unlocked?
    requires forall k :: 0 <= k < |Run(actions, default).orphans| ==> !Pending(Run(actions, default).orphans[k])
    ensures var m := Run(actions, default);
      match f(Last(m.line))
      case Some(v) => Committed(Run(actions + [Acquire(Change(f))] + Steps(7), default), m.line + [v], default)
      case None =>
        var m' := Run(actions + [Acquire(Change(f))] + Steps(1), default);
        m' == m.(cache := Some(Last(m.line)), jobs := m.jobs + [Change(f)], given := m.given + [m.line])
  {
    var m, locked := Run(actions, default), actions + [Acquire(Change(f))];
    LockedAndLoaded(actions, f, default);
    if f(Last(m.line)).Some? {
      FirstOfSteps(locked, 7);
      SaveCommits(locked + [Proceed(true, Torn)], 6, default);
    } else {
      assert Steps<V>(1) == [Proceed(true, Torn)];
    }
  }

  lemma LockedAndLoaded<V>(actions: seq<Action<V>>, f: V -> Option<V>, default: V)
    requires Uncrowded(actions, default) && Run(actions, default).stage.Unlocked?
    requires forall k :: 0 <= k < |Run(actions, default).orphans| ==> !Pending(Run(actions, default).orphans[k])
    ensures var m, next := Run(actions, default), actions + [Acquire(Change(f))] + [Proceed(true, Torn)];
      Uncrowded(next, default) && Run(next, default) == Begun(m, f)
  {
    var locked := actions + [Acquire(Change(f))];
    OneMoreStep(actions, Acquire(Change(f)), default);
    OneMoreStep(locked, Proceed(true, Torn), default);
    RunKeepsInv(locked, default);
    LoadSucceeds(Run(locked, default), f, default);
  }

  /** What a change begins with: its value loaded and the job done in memory. */
  function Begun<V(==)>(m: Machine<V>, f: V -> Option<V>): Machine<V>
    requires HasRecords(m)
  {
    var v := Last(m.line);
    m.(cache := Some(v), jobs := m.jobs + [Change(f)], given := m.given + [m.line],
       stage := match f(v) case None => Unlocked case Some(w) => Saving(f, Save(m.line, w, Creating, 0)))
  }

  /** A read that does not fail finds the value that ends the process's line. */
  lemma LoadSucceeds<V>(m: Machine<V>, f: V -> Option<V>, default: V)
    requires Inv(m, default) && m.stage == Loading(Change(f))
    ensures var v := Last(m.line);
      LoadStep(m, true, default) == m.(cache := Some(v), given := m.given + [m.line],
        stage := match f(v) case None => Unlocked case Some(w) => Saving(f, Save(m.line, w, Creating, 0)))
  {
    assert m.cache == None ==> Leads(m.disk, m.disk.final, Last(m.line), default);
  }

  // ---------------------------------------------------------------------------
  // What may come back, exactly
  // ---------------------------------------------------------------------------

  /** The holder's value, once renamed into place, until its operation returns. */
  function InFlight<V>(m: Machine<V>): Option<seq<V>> {
    if At(m, SyncingDir) || At(m, Publishing) then Some(Line(m.stage.save)) else None
  }

  predicate SyncsDir<V>(m: Machine<V>, a: Action<V>) {
    || (a.Proceed? && a.ok && At(m, SyncingDir))
    || (a.RunOn? && a.ok && a.orphan < |m.orphans| && m.orphans[a.orphan].at.SyncingDir?)
  }

  /** No directory sync has put another value in place of the last Ok one. */
  predicate OkStands<V(==)>(actions: seq<Action<V>>, default: V) {
    actions == [] ||
    var m, a := Run(actions[..|actions| - 1], default), actions[|actions| - 1];
    StandsAfter(m, a, OkStands(actions[..|actions| - 1], default))
  }

  predicate StandsAfter<V(==)>(m: Machine<V>, a: Action<V>, stands: bool)
    requires HasRecords(m)
  {
    || (a.PowerLoss? && MaySurvive(m.disk, a.left))
    || (a.Proceed? && At(m, Publishing))
    || (stands && (SyncsDir(m, a) ==> Last(m.lines) == m.ok))
  }

  /** The values renamed into place by operations that will not return Ok, since the last successful directory sync:
      that sync failed, the task was dropped or the process died before it could return, or the save was a dropped
      one already. */
  function Abandoned<V(==)>(actions: seq<Action<V>>, default: V): seq<seq<V>> {
    if actions == [] then []
    else
      var before := actions[..|actions| - 1];
      AbandonedAfter(Run(before, default), actions[|actions| - 1], Abandoned(before, default))
  }

  function AbandonedAfter<V(==)>(m: Machine<V>, a: Action<V>, abandoned: seq<seq<V>>): seq<seq<V>>
    requires HasRecords(m)
  {
    if SyncsDir(m, a) then (if Last(m.lines) in abandoned then [Last(m.lines)] else [])
    else match a
      case Proceed(ok, _) => if At(m, SyncingDir) then abandoned + [Line(m.stage.save)] else abandoned
      case Drop => if InFlight(m).Some? then abandoned + [InFlight(m).value] else abandoned
      case Restart => if InFlight(m).Some? then abandoned + [InFlight(m).value] else abandoned
      case RunOn(k, ok, _) =>
        if k < |m.orphans| && ok && m.orphans[k].at.Renaming? && m.disk.tmp.Some?
        then abandoned + [Line(m.orphans[k])] else abandoned
      case PowerLoss(left) => if MaySurvive(m.disk, left) then [] else abandoned
      case _ => abandoned
  }

  predicate AllAccounted<V(==)>(lines: seq<seq<V>>, ok: seq<V>, stands: bool, abandoned: seq<seq<V>>,
                                inFlight: Option<seq<V>>)
  {
    && (forall l :: l in lines ==> (stands && l == ok) || l in abandoned || inFlight == Some(l))
    && (stands ==> ok in lines) && (forall l :: l in abandoned ==> l in lines)
    && (inFlight.Some? ==> inFlight.value in lines)
  }

  predicate Accounted<V(==)>(m: Machine<V>, stands: bool, abandoned: seq<seq<V>>) {
    AllAccounted(m.lines, m.ok, stands, abandoned, InFlight(m))
  }

  lemma AccountRename<V>(lines: seq<seq<V>>, ok: seq<V>, stands: bool, abandoned: seq<seq<V>>, l: seq<V>)
    requires AllAccounted(lines, ok, stands, abandoned, None)
    ensures AllAccounted(lines + [l], ok, stands, abandoned, Some(l))
  {
  }

  lemma AccountSync<V>(lines: seq<seq<V>>, ok: seq<V>, stands: bool, abandoned: seq<seq<V>>, inFlight: Option<seq<V>>)
    requires lines != [] && AllAccounted(lines, ok, stands, abandoned, inFlight)
    requires inFlight.Some? ==> Last(lines) == inFlight.value
    ensures AllAccounted([Last(lines)], ok, stands && Last(lines) == ok,
                         if Last(lines) in abandoned then [Last(lines)] else [], inFlight)
  {
    assert lines[|lines| - 1] in lines;
  }

  lemma AccountFailedSync<V>(lines: seq<seq<V>>, ok: seq<V>, stands: bool, abandoned: seq<seq<V>>, l: seq<V>)
    requires AllAccounted(lines, ok, stands, abandoned, Some(l))
    ensures AllAccounted(lines, ok, stands, abandoned + [l], None)
  {
  }

  lemma AccountPublish<V>(ok: seq<V>, stands: bool, abandoned: seq<seq<V>>, l: seq<V>)
    requires AllAccounted([l], ok, stands, abandoned, Some(l))
    ensures AllAccounted([l], l, true, abandoned, None)
  {
  }

  lemma AccountHolder<V>(m: Machine<V>, ok: bool, mixed: Content<V>, stands: bool, abandoned: seq<seq<V>>, default: V)
    requires HasRecords(m) && Accounted(m, stands, abandoned) && HolderIsLast(m.stage, m.lines)
    requires m.stage.Saving? ==> Ready(m.disk, m.stage.save)
    ensures var a := Proceed(ok, mixed);
      Accounted(ProceedStep(m, ok, mixed, default), StandsAfter(m, a, stands), AbandonedAfter(m, a, abandoned))
  {
    if At(m, Renaming) && ok {
      AccountRename(m.lines, m.ok, stands, abandoned, Line(m.stage.save));
    } else if At(m, SyncingDir) {
      AccountSync(m.lines, m.ok, stands, abandoned, InFlight(m));
      AccountFailedSync(m.lines, m.ok, stands, abandoned, Line(m.stage.save));
    } else if At(m, Publishing) {
      AccountPublish(m.ok, stands, abandoned, Line(m.stage.save));
    }
  }

  lemma AccountOrphan<V>(m: Machine<V>, k: nat, ok: bool, mixed: Content<V>, stands: bool, abandoned: seq<seq<V>>)
    requires HasRecords(m) && Accounted(m, stands, abandoned) && HolderIsLast(m.stage, m.lines)
    requires Alone(m.stage, m.orphans) && k < |m.orphans|
    ensures var a := RunOn(k, ok, mixed);
      Accounted(RunOnStep(m, k, ok, mixed), StandsAfter(m, a, stands), AbandonedAfter(m, a, abandoned))
  {
    if m.orphans[k].at.SyncingDir? && ok {
      if InFlight(m).Some? {
        AccountSync(m.lines, m.ok, stands, abandoned, InFlight(m));
      } else {
        AccountSync(m.lines, m.ok, stands, abandoned, None);
      }
    }
  }

  /** A process that ends, or gives up its save, abandons what it has in flight. */
  lemma AccountOther<V>(m: Machine<V>, a: Action<V>, stands: bool, abandoned: seq<seq<V>>, default: V)
    requires HasRecords(m) && Accounted(m, stands, abandoned)
    requires a.Acquire? || a.Drop? || a.ReadCache? || a.Restart?
    ensures Accounted(Step(m, a, default), StandsAfter(m, a, stands), AbandonedAfter(m, a, abandoned))
  {
  }

  lemma AccountOneMore<V>(m: Machine<V>, a: Action<V>, stands: bool, abandoned: seq<seq<V>>, default: V)
    requires Inv(m, default) && Accounted(m, stands, abandoned)
    ensures Accounted(Step(m, a, default), StandsAfter(m, a, stands), AbandonedAfter(m, a, abandoned))
  {
    match a
    case Proceed(ok, mixed) => AccountHolder(m, ok, mixed, stands, abandoned, default);
    case RunOn(k, ok, mixed) =>
      if k < |m.orphans| {
        AccountOrphan(m, k, ok, mixed, stands, abandoned);
      }
    case PowerLoss(left) =>
      if MaySurvive(m.disk, left) {
        PowerLossKeepsInv(m, left, default);
      }
    case _ => AccountOther(m, a, stands, abandoned, default);
  }

  lemma {:induction false} AccountForAll<V>(actions: seq<Action<V>>, default: V)
    requires Uncrowded(actions, default)
    ensures Accounted(Run(actions, default), OkStands(actions, default), Abandoned(actions, default))
  {
    if actions != [] {
      var before := actions[..|actions| - 1];
      AccountForAll(before, default);
      RunKeepsInv(before, default);
      AccountOneMore(Run(before, default), actions[|actions| - 1], OkStands(before, default),
                     Abandoned(before, default), default);
    }
  }

  /** The value that ends one of the lines. */
  predicate EndsOne<V(==)>(lines: seq<seq<V>>, v: V) {
    exists l :: l in lines && l != [] && Last(l) == v
  }

  lemma TipsEndLines<V>(lines: seq<seq<V>>, v: V)
    requires Filled(lines)
    ensures v in Tips(lines) <==> EndsOne(lines, v)
  {
    if v in Tips(lines) {
      var k :| 0 <= k < |lines| && Tips(lines)[k] == v;
      assert lines[k] in lines && Last(lines[k]) == v;
    }
    if EndsOne(lines, v) {
      var l :| l in lines && l != [] && Last(l) == v;
      var k :| 0 <= k < |lines| && lines[k] == l;
      assert Tips(lines)[k] == v;
    }
  }

  /** A power loss may bring back exactly: the last Ok value, unless a directory sync has replaced it; the value in
      flight; and the abandoned ones. So it is one of the first two in every case exactly if the abandoned
      operations stored no other value. */
  lemma WhatMayComeBack<V(!new)>(actions: seq<Action<V>>, default: V)
    requires Uncrowded(actions, default)
    ensures var m, abandoned := Run(actions, default), Abandoned(actions, default);
      forall back :: MayComeBack(m.disk, back, default) <==>
        && back.Value?
        && (|| (OkStands(actions, default) && back.value == Last(m.ok))
            || (InFlight(m).Some? && back.value == Last(InFlight(m).value))
            || EndsOne(abandoned, back.value))
    ensures var m, abandoned := Run(actions, default), Abandoned(actions, default);
      (forall back :: MayComeBack(m.disk, back, default) ==>
         back == Value(Last(m.ok)) || (InFlight(m).Some? && back == Value(Last(InFlight(m).value))))
      <==> forall v :: EndsOne(abandoned, v) ==>
        v == Last(m.ok) || (InFlight(m).Some? && v == Last(InFlight(m).value))
  {
    var m, abandoned := Run(actions, default), Abandoned(actions, default);
    RunKeepsInv(actions, default);
    AccountForAll(actions, default);
    forall back
      ensures MayComeBack(m.disk, back, default) <==> back.Value? && EndsOne(m.lines, back.value)
    {
      ExactlyThePossible(m.disk, Tips(m.lines), back, default);
      if back.Value? {
        TipsEndLines(m.lines, back.value);
      }
    }
    forall v
      ensures EndsOne(m.lines, v) <==>
        || (OkStands(actions, default) && v == Last(m.ok))
        || (InFlight(m).Some? && v == Last(InFlight(m).value)) || EndsOne(abandoned, v)
    {
      AccountedTips(m, OkStands(actions, default), abandoned, v);
    }
    forall v | EndsOne(abandoned, v) ensures MayComeBack(m.disk, Value(v), default) {
      assert EndsOne(m.lines, v);
    }
  }

  lemma AccountedTips<V>(m: Machine<V>, stands: bool, abandoned: seq<seq<V>>, v: V)
    requires Accounted(m, stands, abandoned) && m.ok != []
    ensures EndsOne(m.lines, v) <==>
      || (stands && v == Last(m.ok))
      || (InFlight(m).Some? && v == Last(InFlight(m).value)) || EndsOne(abandoned, v)
  {
    if EndsOne(m.lines, v) {
      var l :| l in m.lines && l != [] && Last(l) == v;
      assert l in abandoned ==> EndsOne(abandoned, v);
    }
    if stands {
      assert m.ok in m.lines && Last(m.ok) == Last(m.ok);
    }
    if InFlight(m).Some? {
      assert InFlight(m).value in m.lines;
    }
    if EndsOne(abandoned, v) {
      var l :| l in abandoned && l != [] && Last(l) == v;
      assert l in m.lines;
    }
  }

  lemma LastMayComeBack<V(!new)>(m: Machine<V>, default: V)
    requires HasRecords(m) && Sound(m.disk) && Names(m.disk, Tips(m.lines), default)
    ensures MayComeBack(m.disk, Value(Last(Last(m.lines))), default)
  {
    assert Tips(m.lines)[|m.lines| - 1] == Last(Last(m.lines));
    ExactlyThePossible(m.disk, Tips(m.lines), Value(Last(Last(m.lines))), default);
  }

  /** A directory sync that fails for a new value: the operation returns an error, and its value may come back. */
  lemma FailedDirSyncIsUnsafe<V(!new)>(actions: seq<Action<V>>, mixed: Content<V>, default: V)
    requires Uncrowded(actions, default) && At(Run(actions, default), SyncingDir)
    requires Run(actions, default).stage.save.v != Last(Run(actions, default).ok)
    ensures var m := Run(actions, default);
      var m' := Step(m, Proceed(false, mixed), default);
      && m'.ok == m.ok && InFlight(m') == None
      && MayComeBack(m'.disk, Value(m.stage.save.v), default) && m.stage.save.v != Last(m'.ok)
  {
    RunKeepsInv(actions, default);
    LastMayComeBack(Run(actions, default), default);
  }

  // ---------------------------------------------------------------------------
  // What readers are given
  // ---------------------------------------------------------------------------

  /** A process started behind a rename, and no directory sync has succeeded since that rename: the lines of several
      names are still possible. */
  predicate Behind<V(==)>(actions: seq<Action<V>>, default: V) {
    && actions != [] && |Run(actions, default).lines| > 1
    && (actions[|actions| - 1].Restart? || Behind(actions[..|actions| - 1], default))
  }

  /** No power loss came while a process was behind a rename. */
  predicate NoLossBehind<V(==)>(actions: seq<Action<V>>, default: V) {
    actions == [] ||
    (NoLossBehind(actions[..|actions| - 1], default)
     && (actions[|actions| - 1].PowerLoss?
         && MaySurvive(Run(actions[..|actions| - 1], default).disk, actions[|actions| - 1].left)
         ==> !Behind(actions[..|actions| - 1], default)))
  }

  /** Whatever comes back, it grew from the value the process works on. */
  predicate AllLeadOn<V(==)>(line: seq<V>, lines: seq<seq<V>>) {
    forall k :: 0 <= k < |lines| ==> line <= lines[k]
  }

  predicate GivenStand<V(==)>(line: seq<V>, given: seq<seq<V>>) {
    forall g :: g in given ==> g <= line
  }

  lemma LeadOnOneMore<V>(m: Machine<V>, a: Action<V>, default: V)
    requires Inv(m, default) && !Crowded(m, a, default) && AllLeadOn(m.line, m.lines)
    requires a.Restart? ==> |m.lines| == 1
    ensures AllLeadOn(Step(m, a, default).line, Step(m, a, default).lines)
  {
  }

  lemma OneLeadsOn<V>(m: Machine<V>, default: V)
    requires Inv(m, default) && |m.lines| == 1
    ensures AllLeadOn(m.line, m.lines)
  {
  }

  lemma {:induction false} LeadOnUnlessBehind<V>(actions: seq<Action<V>>, default: V)
    requires Uncrowded(actions, default) && !Behind(actions, default)
    ensures AllLeadOn(Run(actions, default).line, Run(actions, default).lines)
  {
    RunKeepsInv(actions, default);
    if |Run(actions, default).lines| == 1 {
      OneLeadsOn(Run(actions, default), default);
    } else {
      var before := actions[..|actions| - 1];
      RunKeepsInv(before, default);
      LeadOnUnlessBehind(before, default);
      LeadOnOneMore(Run(before, default), actions[|actions| - 1], default);
    }
  }

  /** Unless a power loss takes a line away, the process's line only grows. */
  lemma LineGrows<V>(m: Machine<V>, a: Action<V>, default: V)
    requires Inv(m, default)
    requires a.PowerLoss? && MaySurvive(m.disk, a.left) ==> AllLeadOn(m.line, m.lines)
    ensures m.line <= Step(m, a, default).line
  {
    if a.PowerLoss? && MaySurvive(m.disk, a.left) {
      PowerLossKeepsInv(m, a.left, default);
    }
  }

  lemma OnlyTheLineIsGiven<V>(m: Machine<V>, a: Action<V>, default: V)
    requires HasRecords(m)
    ensures Step(m, a, default).given == m.given || Step(m, a, default).given == m.given + [m.line]
  {
  }

  lemma GivenOneMore<V>(m: Machine<V>, a: Action<V>, default: V)
    requires Inv(m, default) && GivenStand(m.line, m.given)
    requires a.PowerLoss? && MaySurvive(m.disk, a.left) ==> AllLeadOn(m.line, m.lines)
    ensures GivenStand(Step(m, a, default).line, Step(m, a, default).given)
  {
    LineGrows(m, a, default);
    OnlyTheLineIsGiven(m, a, default);
  }

  lemma {:induction false} AllGivenStand<V>(actions: seq<Action<V>>, default: V)
    requires Uncrowded(actions, default) && NoLossBehind(actions, default)
    ensures GivenStand(Run(actions, default).line, Run(actions, default).given)
  {
    if actions != [] {
      var before, a := actions[..|actions| - 1], actions[|actions| - 1];
      RunKeepsInv(before, default);
      AllGivenStand(before, default);
      if a.PowerLoss? && MaySurvive(Run(before, default).disk, a.left) {
        LeadOnUnlessBehind(before, default);
      }
      GivenOneMore(Run(before, default), a, default);
    }
  }

  /** What a reader is given from the cache or the file is the value that ends the process's line. */
  lemma ReadersAreGivenTheLine<V>(actions: seq<Action<V>>, a: Action<V>, default: V)
    requires Uncrowded(actions, default) && (a.ReadCache? || (a.Proceed? && Run(actions, default).stage.Loading?))
    ensures var m, m' := Run(actions, default), Step(Run(actions, default), a, default);
      && (m'.given == m.given || m'.given == m.given + [m.line])
      && (m'.given != m.given ==> m'.cache == Some(Last(m.line)))
      && (a.ReadCache? && m.cache.Some? ==> m'.given != m.given)
  {
    RunKeepsInv(actions, default);
    if a.Proceed? {
      LoadFindsTheLine(Run(actions, default), a.ok, default);
    }
  }

  /** No reader is ever ahead of the disk, as long as no process is behind a rename: whatever was given to a reader at
      any earlier step, what a power loss brings back grew from it. */
  lemma ReadersAreNeverAhead<V>(actions: seq<Action<V>>, g: seq<V>, left: Disk<V>, default: V)
    requires Uncrowded(actions, default) && NoLossBehind(actions, default) && !Behind(actions, default)
    requires g in Run(actions, default).given && MaySurvive(Run(actions, default).disk, left)
    ensures var m := Run(actions, default);
      var back := Reboot(m, left, default).line;
      && g <= back && back in m.lines && Grown(m.jobs, back) && ReadFinal(left, default) == Value(Last(back))
  {
    PowerLossIsSafe(actions, left, default);
    AllGivenStand(actions, default);
    LeadOnUnlessBehind(actions, default);
    var m := Run(actions, default);
    var k :| 0 <= k < |m.lines| && m.lines[k] == Reboot(m, left, default).line;
  }

  lemma OneMoreStep<V>(actions: seq<Action<V>>, a: Action<V>, default: V)
    ensures Run(actions + [a], default) == Step(Run(actions, default), a, default)
    ensures Uncrowded(actions + [a], default) <==>
      Uncrowded(actions, default) && !Crowded(Run(actions, default), a, default)
  {
    assert (actions + [a])[..|actions|] == actions;
  }

  lemma ShorterLine<V>(m: Machine<V>, k: nat, default: V)
    requires Inv(m, default) && k < |m.lines|
    ensures Last(m.lines) <= m.lines[k] <==> m.lines[k] == Last(m.lines)
  {
    assert Fits(m.jobs, m.ok, m.line, m.lines[k]);
  }

  /** A new process starts and serves its first reader. */
  function RestartAndRead<V>(): seq<Action<V>> {
    [Restart, Acquire(Read), Proceed(true, Torn)]
  }

  function AfterFirstRead<V(==)>(m: Machine<V>, default: V): Machine<V>
    requires HasRecords(m)
  {
    Step(Step(RestartStep(m), Acquire(Read), default), Proceed(true, Torn), default)
  }

  lemma RunOfFirstRead<V>(actions: seq<Action<V>>, default: V)
    ensures Run(actions + RestartAndRead(), default) == AfterFirstRead(Run(actions, default), default)
  {
    var one, two := actions + [Restart], actions + [Restart] + [Acquire(Read)];
    OneMoreStep(actions, Restart, default);
    OneMoreStep(one, Acquire(Read), default);
    OneMoreStep(two, Proceed(true, Torn), default);
    assert actions + RestartAndRead() == two + [Proceed(true, Torn)];
  }

  lemma FirstRead<V>(m: Machine<V>, default: V)
    requires Inv(m, default)
    ensures var m' := AfterFirstRead(m, default);
      m'.given == m.given + [Last(m.lines)] && m'.cache == Some(Last(Last(m.lines))) && m'.disk == m.disk
  {
    assert Leads(m.disk, m.disk.final, Last(Tips(m.lines)), default);
  }

  lemma EachLineMayComeBack<V(!new)>(m: Machine<V>, k: nat, default: V)
    requires Inv(m, default) && k < |m.lines|
    ensures MayComeBack(m.disk, Value(Last(m.lines[k])), default)
  {
    assert Tips(m.lines)[k] == Last(m.lines[k]);
    ExactlyThePossible(m.disk, Tips(m.lines), Value(Last(m.lines[k])), default);
  }

  /** Behind a rename that assumption is needed: the next process gives its first reader the value renamed into place
      last, and what comes back with another name's line does not have it. */
  lemma FirstReadBehindRename<V(!new)>(actions: seq<Action<V>>, k: nat, default: V)
    requires Uncrowded(actions, default) && k < |Run(actions, default).lines|
    ensures var m := Run(actions, default);
      var m' := Run(actions + RestartAndRead(), default);
      && m'.given == m.given + [Last(m.lines)] && m'.cache == Some(Last(Last(m.lines)))
      && MayComeBack(m'.disk, Value(Last(m.lines[k])), default)
      && (Last(m.lines) <= m.lines[k] <==> m.lines[k] == Last(m.lines))
  {
    var m := Run(actions, default);
    RunKeepsInv(actions, default);
    RunOfFirstRead(actions, default);
    FirstRead(m, default);
    ShorterLine(m, k, default);
    EachLineMayComeBack(m, k, default);
  }

  /** How many calls before its rename a save has still to make. */
  function CallsLeft<V>(s: Save<V>): nat {
    match s.at case Creating => 3 case Writing => 2 case SyncingFile => 1 case _ => 0
  }

  /** The holder can make n calls for v and then its rename. */
  predicate HolderCanRename<V(==)>(m: Machine<V>, line: seq<V>, lines: seq<seq<V>>, n: nat) {
    && m.stage.Saving? && Pending(m.stage.save) && CallsLeft(m.stage.save) == n && Line(m.stage.save) == line
    && Sound(m.disk) && Ready(m.disk, m.stage.save) && m.lines == lines
  }

  lemma HolderAdvances<V>(actions: seq<Action<V>>, line: seq<V>, lines: seq<seq<V>>, n: nat, default: V)
    requires Uncrowded(actions, default) && HolderCanRename(Run(actions, default), line, lines, n) && n > 0
    ensures var next := actions + [Proceed(true, Torn)];
      Uncrowded(next, default) && HolderCanRename(Run(next, default), line, lines, n - 1)
  {
    OneMoreStep(actions, Proceed(true, Torn), default);
    TmpStepDoesNotShow(Run(actions, default).disk, Run(actions, default).stage.save, true, Torn);
  }

  lemma HolderRenames<V>(actions: seq<Action<V>>, line: seq<V>, lines: seq<seq<V>>, default: V)
    requires Uncrowded(actions, default) && HolderCanRename(Run(actions, default), line, lines, 0)
    ensures var next := actions + [Proceed(true, Torn)];
      Uncrowded(next, default) && Run(next, default).lines == lines + [line]
  {
    OneMoreStep(actions, Proceed(true, Torn), default);
  }

  lemma {:induction false} SaveReachesRename<V>(actions: seq<Action<V>>, line: seq<V>, lines: seq<seq<V>>, n: nat,
                                                default: V)
    returns (more: seq<Action<V>>)
    requires Uncrowded(actions, default) && HolderCanRename(Run(actions, default), line, lines, n)
    ensures Uncrowded(actions + more, default) && Run(actions + more, default).lines == lines + [line]
    decreases n
  {
    var go: seq<Action<V>> := [Proceed(true, Torn)];
    if n == 0 {
      HolderRenames(actions, line, lines, default);
      more := go;
    } else {
      HolderAdvances(actions, line, lines, n, default);
      var rest := SaveReachesRename(actions + go, line, lines, n - 1, default);
      more := go + rest;
      Regroup(actions, go, rest);
    }
  }

  lemma ReadIsLost<V(!new)>(m: Machine<V>, line: seq<V>, lines: seq<seq<V>>, default: V)
    requires Inv(m, default) && lines != [] && m.lines == lines + [line]
    ensures line != [] && Last(lines) != []
    ensures var m' := AfterFirstRead(m, default);
      line in m'.given && m'.cache == Some(Last(line)) && MayComeBack(m'.disk, Value(Last(Last(lines))), default)
  {
    var k := |lines| - 1;
    assert m.lines[k] == Last(lines) && m.lines[k + 1] == Last(m.lines) == line;
    FirstRead(m, default);
    EachLineMayComeBack(m, k, default);
  }

  /** So every save, from any step before its rename on, can lead to a reader being given its value and a power loss
      bringing back the one before: the process dies behind the rename, the next one reads, and the power fails. */
  lemma EverySaveCanLoseARead<V(!new)>(actions: seq<Action<V>>, default: V) returns (more: seq<Action<V>>)
    requires Uncrowded(actions, default)
    requires Run(actions, default).stage.Saving? && Pending(Run(actions, default).stage.save)
    ensures var m, m' := Run(actions, default), Run(actions + more, default);
      && Line(m.stage.save) in m'.given && m'.cache == Some(m.stage.save.v)
      && MayComeBack(m'.disk, Value(Last(Last(m.lines))), default)
  {
    RunKeepsInv(actions, default);
    var m := Run(actions, default);
    var line, lines := Line(m.stage.save), m.lines;
    var way := SaveReachesRename(actions, line, lines, CallsLeft(m.stage.save), default);
    RunKeepsInv(actions + way, default);
    ReadIsLost(Run(actions + way, default), line, lines, default);
    RunOfFirstRead(actions + way, default);
    more := way + RestartAndRead();
    Regroup(actions, way, RestartAndRead());
  }

  // ---------------------------------------------------------------------------
  // Crowding is the only way to lose the file
  // ---------------------------------------------------------------------------

  /** Orphan k can make n calls and then its rename, while the holder waits. */
  predicate CanReachRename<V(==)>(m: Machine<V>, k: nat, n: nat, holder: Point) {
    && HasRecords(m) && At(m, holder) && k < |m.orphans| && Pending(m.orphans[k]) && CallsLeft(m.orphans[k]) == n
    && Sound(m.disk) && Ready(m.disk, m.orphans[k])
  }

  lemma OrphanAdvances<V>(actions: seq<Action<V>>, k: nat, n: nat, holder: Point, default: V)
    requires CanReachRename(Run(actions, default), k, n, holder) && n > 0
    ensures CanReachRename(Run(actions + [RunOn(k, true, Torn)], default), k, n - 1, holder)
  {
    OneMoreStep(actions, RunOn(k, true, Torn), default);
    TmpStepDoesNotShow(Run(actions, default).disk, Run(actions, default).orphans[k], true, Torn);
  }

  /** A dropped save can run on to its rename while the holder waits to create its temporary file. */
  lemma {:induction false} OrphanReachesRename<V>(actions: seq<Action<V>>, k: nat, n: nat, holder: Point, default: V)
    returns (more: seq<Action<V>>)
    requires CanReachRename(Run(actions, default), k, n, holder)
    ensures CanReachRename(Run(actions + more, default), k, 0, holder)
    decreases n
  {
    if n == 0 {
      more := [];
      assert actions + more == actions;
    } else {
      var go: seq<Action<V>> := [RunOn(k, true, Torn)];
      OrphanAdvances(actions, k, n, holder, default);
      var rest := OrphanReachesRename(actions + go, k, n - 1, holder, default);
      more := go + rest;
      Regroup(actions, go, rest);
    }
  }

  /** The holder cuts the temporary file to nothing, and the dropped save renames it into place. */
  lemma EmptyFileIsRenamed<V(!new)>(m: Machine<V>, k: nat, default: V)
    requires CanReachRename(m, k, 0, Creating)
    ensures var m' := Step(Step(m, Proceed(true, Torn), default), RunOn(k, true, Torn), default);
      MayComeBack(m'.disk, ParseError, default)
  {
    var d := Step(Step(m, Proceed(true, Torn), default), RunOn(k, true, Torn), default).disk;
    var left := d.(finals := {d.final}, synced := d.data.Keys);
    assert MaySurvive(d, left) && ReadFinal(left, default) == ParseError;
  }

  lemma CrowdedOrphanCanRename<V>(m: Machine<V>, a: Action<V>, k: nat, default: V)
    requires Inv(m, default) && Crowded(m, a, default) && k < |m.orphans| && Pending(m.orphans[k])
    ensures CanReachRename(Step(m, a, default), k, CallsLeft(m.orphans[k]), Creating)
  {
    LoadFindsTheLine(m, a.ok, default);
  }

  lemma EmptyFileBehind<V(!new)>(actions: seq<Action<V>>, k: nat, default: V) returns (more: seq<Action<V>>)
    requires CanReachRename(Run(actions, default), k, 0, Creating)
    ensures MayComeBack(Run(actions + more, default).disk, ParseError, default)
  {
    var cut, rename := [Proceed(true, Torn)], [RunOn(k, true, Torn)];
    OneMoreStep(actions, cut[0], default);
    OneMoreStep(actions + cut, rename[0], default);
    EmptyFileIsRenamed(Run(actions, default), k, default);
    more := cut + rename;
    Regroup(actions, cut, rename);
  }

  /** Once a save begins while a dropped one has its rename ahead, the two share a temporary file: there is a way on
      behind which the file does not parse. */
  lemma CrowdedSaveTears<V(!new)>(actions: seq<Action<V>>, a: Action<V>, default: V) returns (more: seq<Action<V>>)
    requires Uncrowded(actions, default) && Crowded(Run(actions, default), a, default)
    ensures MayComeBack(Run(actions + [a] + more, default).disk, ParseError, default)
  {
    var m := Run(actions, default);
    var k :| 0 <= k < |m.orphans| && Pending(m.orphans[k]);
    RunKeepsInv(actions, default);
    OneMoreStep(actions, a, default);
    CrowdedOrphanCanRename(m, a, k, default);
    var way := OrphanReachesRename(actions + [a], k, CallsLeft(m.orphans[k]), Creating, default);
    var tear := EmptyFileBehind(actions + [a] + way, k, default);
    more := way + tear;
    Regroup(actions + [a], way, tear);
  }

  lemma TwoSteps<V>(actions: seq<Action<V>>, a: Action<V>, b: Action<V>, m: Machine<V>, m': Machine<V>, default: V)
    requires Uncrowded(actions, default) && m == Run(actions, default) && m' == Step(m, a, default)
    requires !Crowded(m, a, default) && !Crowded(m', b, default)
    ensures Uncrowded(actions + [a] + [b], default) && Run(actions + [a] + [b], default) == Step(m', b, default)
  {
    OneMoreStep(actions, a, default);
    OneMoreStep(actions + [a], b, default);
  }

  /** Crowding does occur: a task is dropped as its save begins, and the next one loads and saves. */
  lemma CrowdingOccurs<V>(f: V -> Option<V>, g: V -> Option<V>, default: V)
    requires f(default).Some? && g(default).Some?
    ensures var actions := [Acquire(Change(f)), Proceed(true, Torn), Drop, Acquire(Change(g))];
      Uncrowded(actions, default) && Crowded(Run(actions, default), Proceed(true, Torn), default)
  {
    var m0 := Installed(default);
    var m1 := Step(m0, Acquire(Change(f)), default);
    var m2 := Step(m1, Proceed(true, Torn), default);
    assert m2.stage.Saving? && m2.orphans == [] && m2.cache == Some(default);
    var m3 := Step(m2, Drop, default);
    var m4 := Step(m3, Acquire(Change(g)), default);
    assert m4.orphans == [m2.stage.save] && Pending(m4.orphans[0]);
    var first: seq<Action<V>> := [Acquire(Change(f)), Proceed(true, Torn)];
    assert [] + [Acquire(Change(f))] + [Proceed(true, Torn)] == first;
    assert first + [Drop] + [Acquire(Change(g))] == [Acquire(Change(f)), Proceed(true, Torn), Drop, Acquire(Change(g))];
    TwoSteps([], Acquire(Change(f)), Proceed(true, Torn), m0, m1, default);
    TwoSteps(first, Drop, Acquire(Change(g)), m2, m3, default);
  }
}
