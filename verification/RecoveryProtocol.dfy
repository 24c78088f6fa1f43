/** The fault-recovery protocol: a trainer process with its token log, an
    autosave thread, a crash at any point, and a restart from the latest
    checkpoint. Updates arrive at any moment: the queue's consumer runs beside
    the trainer, so a request's last messages may come after its log is cleared.
    The body of the autosave runs as one step, except that a crash may separate
    the replaced autosave file from the copy. */
module RecoveryProtocol {
  import opened Options
  import opened TokenLog

  /** Where the trainer stands inside an iteration: freshly booted, log
      cleared, iteration number set, log loaded, rollout running. */
  datatype Phase = Fresh | Cleared | Numbered | Loaded | Running

  datatype Memory = Memory(
    phase: Phase,
    iteration: nat,
    tokens: Tokens,
    finishedStep: bool,   // the iteration was loaded from its own file
    started: bool,        // the autosave thread exists
    armed: bool,          // the autosave thread has seen `finishedStep` false
    saved: set<nat>       // iterations whose file this process wrote
  )

  datatype System = System(files: Files, mem: Option<Memory>)

  datatype Action =
    | Boot
    | Crash
    | Update(globalIds: map<string, Gid>, updates: seq<(string, NewInfo)>)
    | Arm
    | Save
    | TornSave
    | Checkpoint
    | Clear
    | Number
    | Load
    | StartSave

  const INITIAL := System(Files(0, None, map[]), None)

  /** When an action may happen. */
  ghost predicate Enabled(s: System, a: Action) {
    match a
    case Boot => s.mem.None?
    case Crash => s.mem.Some?
    case Update(_, _) => s.mem.Some?
    case Arm => s.mem.Some? && s.mem.value.started && !s.mem.value.finishedStep
    case Save => s.mem.Some? && s.mem.value.armed
    case TornSave => s.mem.Some? && s.mem.value.armed
    case Checkpoint => s.mem.Some? && s.mem.value.phase == Running
    case Clear => s.mem.Some? && (s.mem.value.phase == Fresh || s.mem.value.phase == Running) && MayClear(s.files, s.mem.value)
    case Number => s.mem.Some? && s.mem.value.phase == Cleared
    case Load => s.mem.Some? && s.mem.value.phase == Numbered
    case StartSave => s.mem.Some? && s.mem.value.phase == Loaded
  }

  /** The same, but no iteration is left before one of its requests was
      recorded or the iteration itself was checkpointed, and no late update
      spoils the file of the iteration that was left. */
  ghost predicate Guarded(s: System, a: Action, batchSize: nat) {
    && Enabled(s, a)
    && (a.Clear? && s.mem.value.phase == Running ==> s.mem.value.tokens != map[] || s.files.ckpt >= s.mem.value.iteration)
    && (a.Update? && s.mem.value.phase == Cleared && Live(s.mem.value) ==>
          KeepsFile(s.files, s.mem.value.iteration, RecordAll(s.mem.value.tokens, a.globalIds, a.updates), batchSize))
  }

  /** The autosave thread may write before the flag is set again. */
  ghost predicate Live(m: Memory) {
    m.armed || (m.started && !m.finishedStep)
  }

  /** Saving `tokens` for iteration `i` takes nothing from its file. */
  ghost predicate KeepsFile(f: Files, i: nat, tokens: Tokens, batchSize: nat) {
    i in f.steps && i > f.ckpt && Complete(tokens, batchSize) ==> Extends(f.steps[i].tokens, tokens)
  }

  /** The condition `clear` waits for. */
  ghost predicate MayClear(f: Files, m: Memory) {
    m.tokens == map[] || (AllFinished(m.tokens) && m.iteration in f.steps)
  }

  function Loading(f: Files, m: Memory): Memory {
    if m.iteration in f.steps then m.(tokens := f.steps[m.iteration].tokens, finishedStep := true, phase := Loaded)
    else if f.auto.Some? && f.auto.value.iter == m.iteration then
      m.(tokens := f.auto.value.tokens, finishedStep := false, phase := Loaded)
    else m.(finishedStep := false, phase := Loaded)
  }

  /** The first iteration of a process is the one after the checkpoint. */
  function NextNumber(s: System): nat
    requires s.mem.Some?
  {
    if s.mem.value.started then s.mem.value.iteration + 1 else s.files.ckpt + 1
  }

  ghost function Apply(s: System, a: Action, batchSize: nat): System
    requires Enabled(s, a)
  {
    match a
    case Boot => s.(mem := Some(Memory(Fresh, 0, map[], false, false, false, {})))
    case Crash => s.(mem := None)
    case Update(ids, updates) => s.(mem := Some(s.mem.value.(tokens := RecordAll(s.mem.value.tokens, ids, updates))))
    case Arm => s.(mem := Some(s.mem.value.(armed := true)))
    case Save =>
      var m := s.mem.value;
      System(Saved(s.files, m.iteration, m.tokens, batchSize),
             Some(m.(armed := false, saved := if Complete(m.tokens, batchSize) then m.saved + {m.iteration} else m.saved)))
    case TornSave =>
      System(s.files.(auto := Some(Snapshot(s.mem.value.iteration, s.mem.value.tokens))), None)
    case Checkpoint => s.(files := s.files.(ckpt := s.mem.value.iteration))
    case Clear =>
      var m := s.mem.value;
      System(Expired(s.files, m.saved),
             Some(m.(tokens := map[], phase := Cleared, saved := set i | i in m.saved && i > s.files.ckpt)))
    case Number =>
      var m := s.mem.value;
      s.(mem := Some(m.(phase := Numbered, iteration := NextNumber(s))))
    case Load => s.(mem := Some(Loading(s.files, s.mem.value)))
    case StartSave => s.(mem := Some(s.mem.value.(started := true, phase := Running)))
  }

  // ----- the invariant -----

  /** Every iteration after the checkpoint and before `i` has its file. */
  ghost predicate FiledBefore(f: Files, i: nat) {
    forall j :: f.ckpt < j < i ==> j in f.steps
  }

  /** The autosave file holds ids that no other file has and that are still
      needed. */
  ghost predicate OnlyCopy(f: Files) {
    f.auto.Some? && Worthy(f.auto.value.tokens) && f.auto.value.iter > f.ckpt && f.auto.value.iter !in f.steps
  }

  ghost predicate FilesOk(f: Files, batchSize: nat) {
    && (forall m :: m in f.steps ==> f.steps[m].iter == m && Complete(f.steps[m].tokens, batchSize))
    && (forall m :: m in f.steps ==> FiledBefore(f, m))
    && (OnlyCopy(f) ==> FiledBefore(f, f.auto.value.iter))
  }

  /** No file of a later iteration exists: the process is not replaying. */
  ghost predicate Newest(f: Files, i: nat) {
    forall m :: m in f.steps && m > f.ckpt ==> m <= i
  }

  /** What the files hold for the current iteration is in memory; an iteration
      loaded as finished has its own file, and that is not empty. */
  ghost predicate InMemory(f: Files, m: Memory) {
    && (m.finishedStep ==> m.iteration in f.steps)
    && (m.iteration in f.steps ==> m.tokens != map[])
    && Extends(Recovered(f, m.iteration), m.tokens)
  }

  ghost predicate MemoryOk(f: Files, m: Memory, batchSize: nat) {
    && (m.armed ==> m.started)
    && (m.phase == Fresh ==> !m.started && m.iteration == 0 && m.saved == {})
    && (m.phase == Running ==> m.started)
    && (m.started || m.phase in {Numbered, Loaded} ==> f.ckpt <= m.iteration)
    && (m.phase == Numbered || (m.phase == Loaded && !m.started) ==> f.ckpt < m.iteration)
    && (m.phase == Cleared && m.started ==> FiledBefore(f, m.iteration + 1))
    && (m.phase in {Numbered, Loaded, Running} ==> FiledBefore(f, m.iteration))
    && (m.phase in {Loaded, Running} ==> InMemory(f, m))
    && (m.phase in {Loaded, Running} && (m.armed || !m.finishedStep) ==>
          Newest(f, m.iteration) && (OnlyCopy(f) ==> f.auto.value.iter == m.iteration))
    && (m.phase == Cleared && Live(m) ==>
          Newest(f, m.iteration) && !OnlyCopy(f) && KeepsFile(f, m.iteration, m.tokens, batchSize))
    && (m.phase == Numbered && Live(m) ==>
          && Newest(f, m.iteration) && (OnlyCopy(f) ==> f.auto.value.iter == m.iteration)
          && Extends(Recovered(f, m.iteration), m.tokens))
  }

  ghost predicate Inv(s: System, batchSize: nat) {
    FilesOk(s.files, batchSize) && (s.mem.Some? ==> MemoryOk(s.files, s.mem.value, batchSize))
  }

  lemma UpdateKeeps(s: System, a: Action, batchSize: nat)
    requires a.Update? && Inv(s, batchSize) && Guarded(s, a, batchSize)
    ensures Inv(Apply(s, a, batchSize), batchSize)
  {
    var m := s.mem.value;
    var tokens := RecordAll(m.tokens, a.globalIds, a.updates);
    RecordAllKeeps(m.tokens, a.globalIds, a.updates);
    RecordAllExtends(m.tokens, a.globalIds, a.updates);
    if Extends(Recovered(s.files, m.iteration), m.tokens) {
      ExtendsTransitive(Recovered(s.files, m.iteration), m.tokens, tokens);
    }
    hide Extends, Recovered, Complete;
  }

  lemma ClearKeeps(s: System, batchSize: nat)
    requires batchSize > 0 && Inv(s, batchSize) && Guarded(s, Clear, batchSize)
    ensures Inv(Apply(s, Clear, batchSize), batchSize)
  {
    ClearKeepsFiles(s, batchSize);
    ClearKeepsMemory(s, batchSize);
    hide FilesOk, MemoryOk, Expired;
  }

  lemma ClearKeepsFiles(s: System, batchSize: nat)
    requires batchSize > 0 && Inv(s, batchSize) && Guarded(s, Clear, batchSize)
    ensures FilesOk(Apply(s, Clear, batchSize).files, batchSize)
  {
    hide Extends, Recovered;
  }

  lemma ClearKeepsMemory(s: System, batchSize: nat)
    requires batchSize > 0 && Inv(s, batchSize) && Guarded(s, Clear, batchSize)
    ensures var t := Apply(s, Clear, batchSize); t.mem.Some? && MemoryOk(t.files, t.mem.value, batchSize)
  {
    hide Extends, Recovered;
  }

  lemma LoadKeeps(s: System, batchSize: nat)
    requires batchSize > 0 && Inv(s, batchSize) && Guarded(s, Load, batchSize)
    ensures Inv(Apply(s, Load, batchSize), batchSize)
  {
    var f, i := s.files, s.mem.value.iteration;
    if i in f.steps {
      CompleteIsNotEmpty(f.steps[i].tokens, batchSize);
    }
    ExtendsItself(Recovered(f, i));
    hide Complete, Extends;
  }

  lemma SaveKeeps(s: System, a: Action, batchSize: nat)
    requires a.Save? || a.TornSave?
    requires batchSize > 0 && Inv(s, batchSize) && Guarded(s, a, batchSize)
    ensures Inv(Apply(s, a, batchSize), batchSize)
  {
    SaveKeepsFiles(s, a, batchSize);
    SaveKeepsMemory(s, a, batchSize);
    hide FilesOk, MemoryOk, Saved;
  }

  lemma SaveKeepsFiles(s: System, a: Action, batchSize: nat)
    requires a.Save? || a.TornSave?
    requires batchSize > 0 && Inv(s, batchSize) && Guarded(s, a, batchSize)
    ensures FilesOk(Apply(s, a, batchSize).files, batchSize)
  {
  }

  lemma SaveKeepsMemory(s: System, a: Action, batchSize: nat)
    requires a.Save? || a.TornSave?
    requires batchSize > 0 && Inv(s, batchSize) && Guarded(s, a, batchSize)
    ensures var t := Apply(s, a, batchSize); t.mem.Some? ==> MemoryOk(t.files, t.mem.value, batchSize)
  {
    SavedFiles(s.files, s.mem.value.iteration, s.mem.value.tokens, batchSize);
    hide OnlyCopy, Newest, FiledBefore, Recovered, Saved, KeepsFile, Complete, Extends, FilesOk;
  }

  /** What saving the log of iteration `i` does to the files. */
  lemma SavedFiles(f: Files, i: nat, tokens: Tokens, batchSize: nat)
    requires batchSize > 0
    ensures var g := Saved(f, i, tokens, batchSize);
            && g.ckpt == f.ckpt && (Newest(f, i) ==> Newest(g, i))
            && (OnlyCopy(g) ==> g.auto.value.iter == i) && (i <= f.ckpt || FiledBefore(f, i + 1) ==> !OnlyCopy(g))
            && (forall j :: FiledBefore(f, j) ==> FiledBefore(g, j))
            && (Extends(Recovered(f, i), tokens) ==> Extends(Recovered(g, i), tokens))
            && (i in f.steps ==> i in g.steps) && (i in g.steps ==> i in f.steps || tokens != map[])
            && (KeepsFile(f, i, tokens, batchSize) ==> KeepsFile(g, i, tokens, batchSize))
  {
    ExtendsItself(tokens);
    hide Extends;
    if Complete(tokens, batchSize) {
      CompleteIsNotEmpty(tokens, batchSize);
    }
  }

  /** Every step of the protocol keeps the invariant. */
  lemma StepKeepsInv(s: System, a: Action, batchSize: nat)
    requires batchSize > 0 && Inv(s, batchSize) && Guarded(s, a, batchSize)
    ensures Inv(Apply(s, a, batchSize), batchSize)
  {
    match a
    case Update(_, _) => UpdateKeeps(s, a, batchSize);
    case Clear => ClearKeeps(s, batchSize);
    case Load => LoadKeeps(s, batchSize);
    case Save => SaveKeeps(s, a, batchSize);
    case TornSave => SaveKeeps(s, a, batchSize);
    case _ =>
  }

  lemma SaveKeepsRecoverable(s: System, a: Action, batchSize: nat, i: nat)
    requires a.Save? || a.TornSave?
    requires batchSize > 0 && Inv(s, batchSize) && Enabled(s, a) && i > s.files.ckpt
    ensures Extends(Recovered(s.files, i), Recovered(Apply(s, a, batchSize).files, i))
  {
    var f, m := s.files, s.mem.value;
    ExtendsItself(Recovered(f, i));
    hide FilesOk, Newest, Complete;
  }

  /** No step shrinks what an iteration after the checkpoint would recover. */
  lemma StepKeepsRecoverable(s: System, a: Action, batchSize: nat, i: nat)
    requires batchSize > 0 && Inv(s, batchSize) && Guarded(s, a, batchSize)
    requires i > Apply(s, a, batchSize).files.ckpt
    ensures Extends(Recovered(s.files, i), Recovered(Apply(s, a, batchSize).files, i))
  {
    if a.Save? || a.TornSave? {
      SaveKeepsRecoverable(s, a, batchSize, i);
    } else {
      ExtendsItself(Recovered(s.files, i));
      hide MemoryOk, FilesOk, Extends;
    }
  }

  /** Files disappear only at or below the checkpoint, and the checkpoint
      never moves back. */
  lemma StepRemovesExpired(s: System, a: Action, batchSize: nat, i: nat)
    requires batchSize > 0 && Inv(s, batchSize) && Guarded(s, a, batchSize)
    ensures s.files.ckpt <= Apply(s, a, batchSize).files.ckpt
    ensures i in s.files.steps && i > s.files.ckpt ==> i in Apply(s, a, batchSize).files.steps
  {
  }

  // ----- runs -----

  /** The actions can happen one after the other, none leaving an iteration
      that is neither recorded nor checkpointed. */
  ghost predicate Can(s: System, actions: seq<Action>, batchSize: nat)
    decreases |actions|
  {
    actions == [] || (Guarded(s, actions[0], batchSize) && Can(Apply(s, actions[0], batchSize), actions[1..], batchSize))
  }

  /** Where they lead. */
  ghost function Final(s: System, actions: seq<Action>, batchSize: nat): System
    requires Can(s, actions, batchSize)
    decreases |actions|
  {
    if actions == [] then s else Final(Apply(s, actions[0], batchSize), actions[1..], batchSize)
  }

  lemma {:induction false} CanConcat(s: System, a: seq<Action>, c: seq<Action>, batchSize: nat)
    ensures Can(s, a + c, batchSize) <==> Can(s, a, batchSize) && Can(Final(s, a, batchSize), c, batchSize)
    ensures Can(s, a + c, batchSize) ==> Final(s, a + c, batchSize) == Final(Final(s, a, batchSize), c, batchSize)
    decreases |a|
  {
    hide Apply, Enabled;
    if a == [] {
      assert a + c == c;
    } else {
      assert (a + c)[1..] == a[1..] + c && (a + c)[0] == a[0];
      if Guarded(s, a[0], batchSize) {
        CanConcat(Apply(s, a[0], batchSize), a[1..], c, batchSize);
      }
    }
  }

  /** Iteration `i` is not loaded on the way. */
  ghost predicate NotLoaded(s: System, actions: seq<Action>, batchSize: nat, i: nat)
    requires Can(s, actions, batchSize)
    decreases |actions|
  {
    actions == [] || ((actions[0].Load? ==> s.mem.value.iteration != i)
                      && NotLoaded(Apply(s, actions[0], batchSize), actions[1..], batchSize, i))
  }

  lemma {:induction false} NotLoadedConcat(s: System, a: seq<Action>, c: seq<Action>, batchSize: nat, i: nat)
    requires Can(s, a, batchSize) && Can(Final(s, a, batchSize), c, batchSize)
    requires NotLoaded(s, a, batchSize, i) && NotLoaded(Final(s, a, batchSize), c, batchSize, i)
    ensures Can(s, a + c, batchSize) && NotLoaded(s, a + c, batchSize, i)
    decreases |a|
  {
    CanConcat(s, a, c, batchSize);
    hide Apply, Enabled;
    if a == [] {
      assert a + c == c;
    } else {
      assert (a + c)[1..] == a[1..] + c && (a + c)[0] == a[0];
      NotLoadedConcat(Apply(s, a[0], batchSize), a[1..], c, batchSize, i);
    }
  }

  lemma InitialInv(batchSize: nat)
    ensures Inv(INITIAL, batchSize)
  {
  }

  lemma {:induction false} RunInv(s: System, actions: seq<Action>, batchSize: nat)
    requires batchSize > 0 && Inv(s, batchSize) && Can(s, actions, batchSize)
    ensures Inv(Final(s, actions, batchSize), batchSize)
    decreases |actions|
  {
    hide Inv, Apply, Enabled;
    if actions != [] {
      StepKeepsInv(s, actions[0], batchSize);
      RunInv(Apply(s, actions[0], batchSize), actions[1..], batchSize);
    }
  }

  lemma {:induction false} RunKeepsRecoverable(s: System, actions: seq<Action>, batchSize: nat, i: nat)
    requires batchSize > 0 && Inv(s, batchSize) && Can(s, actions, batchSize)
    ensures s.files.ckpt <= Final(s, actions, batchSize).files.ckpt
    ensures i > Final(s, actions, batchSize).files.ckpt ==>
              Extends(Recovered(s.files, i), Recovered(Final(s, actions, batchSize).files, i))
    decreases |actions|
  {
    hide Inv, Apply, Enabled, Extends, Recovered;
    if actions == [] {
      ExtendsItself(Recovered(s.files, i));
    } else {
      var t := Apply(s, actions[0], batchSize);
      StepKeepsInv(s, actions[0], batchSize);
      StepRemovesExpired(s, actions[0], batchSize, i);
      RunKeepsRecoverable(t, actions[1..], batchSize, i);
      if i > Final(s, actions, batchSize).files.ckpt {
        StepKeepsRecoverable(s, actions[0], batchSize, i);
        ExtendsTransitive(Recovered(s.files, i), Recovered(t.files, i), Recovered(Final(s, actions, batchSize).files, i));
      }
    }
  }

  /** In every run, whatever the interleaving of updates, autosaves, iteration
      advances, crashes and restarts: what could be recovered at an earlier
      moment for an iteration later than the current checkpoint can still be
      recovered. */
  lemma RecoverableNeverShrinks(actions: seq<Action>, more: seq<Action>, batchSize: nat, i: nat)
    requires batchSize > 0 && Can(INITIAL, actions + more, batchSize)
    requires i > Final(INITIAL, actions + more, batchSize).files.ckpt
    ensures Can(INITIAL, actions, batchSize)
    ensures Extends(Recovered(Final(INITIAL, actions, batchSize).files, i),
                    Recovered(Final(INITIAL, actions + more, batchSize).files, i))
  {
    hide *;
    CanConcat(INITIAL, actions, more, batchSize);
    InitialInv(batchSize);
    RunInv(INITIAL, actions, batchSize);
    RunKeepsRecoverable(Final(INITIAL, actions, batchSize), more, batchSize, i);
  }

  /** Once an iteration is loaded, what a crash would bring back of each request is a
      prefix of what has been recorded for it. */
  lemma RecoveredIsPrefix(actions: seq<Action>, batchSize: nat)
    requires batchSize > 0 && Can(INITIAL, actions, batchSize)
    ensures var s := Final(INITIAL, actions, batchSize);
            s.mem.Some? && s.mem.value.phase in {Loaded, Running} ==>
              Extends(Recovered(s.files, s.mem.value.iteration), s.mem.value.tokens)
  {
    InitialInv(batchSize);
    RunInv(INITIAL, actions, batchSize);
    hide Can, Final, Extends;
  }

  /** The file of iteration `i` only ever holds that iteration's log, with all
      requests of the batch in it and finished; and while one exists after
      the checkpoint, so do those of all iterations between. */
  lemma StepFilesComplete(actions: seq<Action>, batchSize: nat, i: nat)
    requires batchSize > 0 && Can(INITIAL, actions, batchSize)
    requires i in Final(INITIAL, actions, batchSize).files.steps
    ensures var f := Final(INITIAL, actions, batchSize).files;
            f.steps[i].iter == i && Complete(f.steps[i].tokens, batchSize) && FiledBefore(f, i)
  {
    InitialInv(batchSize);
    RunInv(INITIAL, actions, batchSize);
    hide Can, Final, MemoryOk, Complete;
  }

  /** A process that has left an iteration after the checkpoint has its file. */
  lemma LeftIterationsAreFiled(actions: seq<Action>, batchSize: nat, i: nat)
    requires batchSize > 0 && Can(INITIAL, actions, batchSize)
    requires var s := Final(INITIAL, actions, batchSize);
             && s.mem.Some? && s.mem.value.phase in {Numbered, Loaded, Running}
             && s.files.ckpt < i < s.mem.value.iteration
    ensures i in Final(INITIAL, actions, batchSize).files.steps
  {
    InitialInv(batchSize);
    RunInv(INITIAL, actions, batchSize);
    hide Can, Final, FilesOk;
  }

  // ----- leaving an iteration that recorded nothing -----

  /** What could be recovered for `i` before the actions can be afterwards. */
  ghost predicate Keeps(s: System, actions: seq<Action>, batchSize: nat, i: nat) {
    Can(s, actions, batchSize) && i > Final(s, actions, batchSize).files.ckpt ==>
      Extends(Recovered(s.files, i), Recovered(Final(s, actions, batchSize).files, i))
  }

  /** From `s` on nothing recoverable is ever lost. */
  ghost predicate NothingLost(s: System, batchSize: nat) {
    forall actions: seq<Action>, more: seq<Action>, i: nat ::
      Can(s, actions, batchSize) ==> Keeps(Final(s, actions, batchSize), more, batchSize, i)
  }

  lemma InvLosesNothing(s: System, batchSize: nat)
    requires batchSize > 0 && Inv(s, batchSize)
    ensures NothingLost(s, batchSize)
  {
    hide Inv, Can, Final, Extends, Recovered;
    forall actions: seq<Action>, more: seq<Action>, i: nat | Can(s, actions, batchSize)
      ensures Keeps(Final(s, actions, batchSize), more, batchSize, i)
    {
      RunInv(s, actions, batchSize);
      if Can(Final(s, actions, batchSize), more, batchSize) {
        RunKeepsRecoverable(Final(s, actions, batchSize), more, batchSize, i);
      }
    }
  }

  lemma Single(s: System, a: Action, batchSize: nat)
    requires Guarded(s, a, batchSize)
    ensures Can(s, [a], batchSize) && Final(s, [a], batchSize) == Apply(s, a, batchSize)
  {
    hide Enabled, Apply;
    assert [a][1..] == [];
  }

  lemma Then(s: System, actions: seq<Action>, a: Action, batchSize: nat)
    requires Can(s, actions, batchSize) && Guarded(Final(s, actions, batchSize), a, batchSize)
    ensures Can(s, actions + [a], batchSize)
    ensures Final(s, actions + [a], batchSize) == Apply(Final(s, actions, batchSize), a, batchSize)
  {
    hide *;
    Single(Final(s, actions, batchSize), a, batchSize);
    CanConcat(s, actions, [a], batchSize);
  }

  /** The same for a step that does not load iteration `i`. */
  lemma NotLoadedThen(s: System, actions: seq<Action>, a: Action, batchSize: nat, i: nat)
    requires Can(s, actions, batchSize) && Guarded(Final(s, actions, batchSize), a, batchSize)
    requires NotLoaded(s, actions, batchSize, i) && (a.Load? ==> Final(s, actions, batchSize).mem.value.iteration != i)
    ensures Can(s, actions + [a], batchSize) && NotLoaded(s, actions + [a], batchSize, i)
  {
    hide Guarded, Enabled, Apply;
    var t := Final(s, actions, batchSize);
    Single(t, a, batchSize);
    assert NotLoaded(t, [a], batchSize, i) by {
      assert [a][1..] == [];
    }
    hide *;
    NotLoadedConcat(s, actions, [a], batchSize, i);
  }

  const REOPEN := [Number] + [Load] + [StartSave]

  ghost function Opened(f: Files, m: Memory): Memory {
    var i := if m.started then m.iteration + 1 else f.ckpt + 1;
    m.(phase := Running, iteration := i, tokens := Recovered(f, i), finishedStep := i in f.steps, started := true)
  }

  /** The opening of the next iteration, once the log is cleared. */
  lemma Reopen(s: System, batchSize: nat)
    requires s.mem.Some? && s.mem.value.phase == Cleared && s.mem.value.tokens == map[]
    ensures Can(s, REOPEN, batchSize)
    ensures Final(s, REOPEN, batchSize) == System(s.files, Some(Opened(s.files, s.mem.value)))
  {
    Single(s, Number, batchSize);
    Then(s, [Number], Load, batchSize);
    Then(s, [Number] + [Load], StartSave, batchSize);
    hide Can, Final;
  }

  /** The next iteration of a process that has written no file of its own. */
  lemma NextIteration(s: System, batchSize: nat)
    requires s.mem.Some? && s.mem.value.saved == {} && Guarded(s, Clear, batchSize)
    ensures Can(s, [Clear] + REOPEN, batchSize)
    ensures Final(s, [Clear] + REOPEN, batchSize) == System(s.files, Some(Opened(s.files, s.mem.value)))
  {
    hide Can, Final, Recovered;
    Single(s, Clear, batchSize);
    var t := Apply(s, Clear, batchSize);
    assert t.files == s.files && t.mem.value.saved == {};
    Reopen(t, batchSize);
    CanConcat(s, [Clear], REOPEN, batchSize);
  }

  lemma NextIterationIs(s: System, batchSize: nat, i: nat)
    requires s.mem.Some? && s.mem.value.saved == {} && Guarded(s, Clear, batchSize) && NextNumber(s) != i
    ensures Can(s, [Clear] + REOPEN, batchSize) && NotLoaded(s, [Clear] + REOPEN, batchSize, i)
  {
    hide Can, Final, Recovered, NotLoaded;
    NothingYet(s, batchSize, i);
    Single(s, Clear, batchSize);
    NotLoadedThen(s, [], Clear, batchSize, i);
    assert [] + [Clear] == [Clear];
    Then(s, [Clear], Number, batchSize);
    NotLoadedThen(s, [Clear], Number, batchSize, i);
    Then(s, [Clear] + [Number], Load, batchSize);
    NotLoadedThen(s, [Clear] + [Number], Load, batchSize, i);
    NotLoadedThen(s, [Clear] + [Number] + [Load], StartSave, batchSize, i);
    assert [Clear] + [Number] + [Load] + [StartSave] == [Clear] + REOPEN;
  }

  lemma NothingYet(s: System, batchSize: nat, i: nat)
    ensures Can(s, [], batchSize) && Final(s, [], batchSize) == s && NotLoaded(s, [], batchSize, i)
  {
  }

  /** The files of a loss in the making: iteration `i` and those behind it have
      no file of their own, all others after the checkpoint do. */
  ghost predicate Gap(f: Files, i: nat, batchSize: nat) {
    && f.ckpt < i && i !in f.steps && i + 1 !in f.steps
    && (forall j :: f.ckpt < j < i ==> j in f.steps && Complete(f.steps[j].tokens, batchSize))
  }

  ghost function Process(phase: Phase, i: nat, tokens: Tokens, finishedStep: bool, started: bool): Memory {
    Memory(phase, i, tokens, finishedStep, started, false, {})
  }

  /** A restarted process replays the filed iterations and opens `k`. */
  lemma {:induction false} Replay(f: Files, i: nat, k: nat, batchSize: nat) returns (actions: seq<Action>)
    requires batchSize > 0 && Gap(f, i, batchSize) && f.ckpt < k <= i
    ensures Can(System(f, None), actions, batchSize)
    ensures Final(System(f, None), actions, batchSize)
      == System(f, Some(Process(Running, k, Recovered(f, k), k in f.steps, true)))
    ensures k < i ==> NotLoaded(System(f, None), actions, batchSize, i)
    decreases k
  {
    hide Can, Final, Complete, NotLoaded;
    var s := System(f, None);
    var before: seq<Action>, t: System;
    if k == f.ckpt + 1 {
      Single(s, Boot, batchSize);
      NothingYet(s, batchSize, i);
      NotLoadedThen(s, [], Boot, batchSize, i);
      assert [] + [Boot] == [Boot];
      before, t := [Boot], System(f, Some(Process(Fresh, 0, map[], false, false)));
    } else {
      before := Replay(f, i, k - 1, batchSize);
      t := System(f, Some(Process(Running, k - 1, f.steps[k - 1].tokens, true, true)));
      CompleteIsNotEmpty(f.steps[k - 1].tokens, batchSize);
    }
    NextIteration(t, batchSize);
    actions := before + ([Clear] + REOPEN);
    CanConcat(s, before, [Clear] + REOPEN, batchSize);
    if k < i {
      NextIterationIs(t, batchSize, i);
      NotLoadedConcat(s, before, [Clear] + REOPEN, batchSize, i);
    }
  }

  lemma CompleteIsNotEmpty(tokens: Tokens, batchSize: nat)
    requires batchSize > 0 && Complete(tokens, batchSize)
    ensures tokens != map[] && AllFinished(tokens)
  {
  }

  /** An autosave that does not complete the rollout. */
  lemma ArmThenSave(s: System, batchSize: nat)
    requires s.mem.Some? && s.mem.value.started && !s.mem.value.finishedStep && !Complete(s.mem.value.tokens, batchSize)
    ensures Can(s, [Arm] + [Save], batchSize)
    ensures Final(s, [Arm] + [Save], batchSize) ==
            System(s.files.(auto := Some(Snapshot(s.mem.value.iteration, s.mem.value.tokens))), Some(s.mem.value.(armed := false)))
  {
    Single(s, Arm, batchSize);
    Then(s, [Arm], Save, batchSize);
    hide Can, Final;
  }

  /** New information about one request: an id, and that it is not finished. */
  const UPDATE := Update(map["r" := "0"], [("r", NewInfo(Some([7]), Some(false), map[]))])

  /** A batch of one update for a registered request. */
  lemma OneEntry(tokens: Tokens, a: Action)
    requires a.Update? && |a.updates| == 1 && a.updates[0].0 in a.globalIds
    ensures RecordAll(tokens, a.globalIds, a.updates) == Record(tokens, a.globalIds[a.updates[0].0], a.updates[0].1)
  {
    assert a.updates[..0] == [];
    assert RecordAll(tokens, a.globalIds, a.updates[..0]) == tokens;
  }

  lemma OneUpdate(tokens: Tokens, batchSize: nat)
    requires Ids(tokens, "0") == []
    ensures var t := RecordAll(tokens, UPDATE.globalIds, UPDATE.updates); Ids(t, "0") == [7] && !Complete(t, batchSize)
  {
    OneEntry(tokens, UPDATE);
    var t := RecordAll(tokens, UPDATE.globalIds, UPDATE.updates);
    assert t == Record(tokens, "0", UPDATE.updates[0].1);
    assert "0" in t && !t["0"].finished;
  }

  const RECORD := REOPEN + [UPDATE] + ([Arm] + [Save])

  /** The process goes on to the next iteration, records an id and saves it. */
  lemma RecordsNext(s: System, i: nat, batchSize: nat)
    requires s.mem.Some? && s.mem.value.phase == Cleared && s.mem.value.tokens == map[]
    requires s.mem.value.started && s.mem.value.iteration == i && i + 1 !in s.files.steps && Ids(Recovered(s.files, i + 1), "0") == []
    ensures Can(s, RECORD, batchSize)
    ensures var t := Final(s, RECORD, batchSize);
            && t.mem.Some? && t.files.auto.Some? && t.files.auto.value.iter == i + 1 && Ids(t.files.auto.value.tokens, "0") == [7]
            && t.files == s.files.(auto := t.files.auto)
  {
    hide Can, Final, Complete, Recovered, RecordAll, Ids;
    Reopen(s, batchSize);
    var u := Final(s, REOPEN, batchSize);
    OneUpdate(u.mem.value.tokens, batchSize);
    Then(s, REOPEN, UPDATE, batchSize);
    var v := Apply(u, UPDATE, batchSize);
    ArmThenSave(v, batchSize);
    CanConcat(s, REOPEN + [UPDATE], [Arm] + [Save], batchSize);
  }

  /** After a crash the replay comes to the iteration without a file, and its
      first autosave overwrites what the next iteration had saved. */
  lemma OverwritesNext(s: System, i: nat, batchSize: nat) returns (actions: seq<Action>)
    requires batchSize > 0 && s.mem.Some? && Gap(s.files, i, batchSize)
    requires s.files.auto.Some? && s.files.auto.value.iter == i + 1
    ensures Can(s, actions, batchSize)
    ensures Final(s, actions, batchSize).files == s.files.(auto := Some(Snapshot(i, map[])))
  {
    hide Can, Final;
    var f := s.files;
    Single(s, Crash, batchSize);
    var replay := Replay(f, i, i, batchSize);
    CanConcat(s, [Crash], replay, batchSize);
    var t := Final(System(f, None), replay, batchSize);
    ArmThenSave(t, batchSize);
    CanConcat(s, [Crash] + replay, [Arm] + [Save], batchSize);
    actions := [Crash] + replay + ([Arm] + [Save]);
  }

  /** The files behind a process that leaves an iteration without a record. */
  lemma EmptyLeavesGap(s: System, batchSize: nat)
    requires batchSize > 0 && Inv(s, batchSize) && Enabled(s, Clear) && !Guarded(s, Clear, batchSize)
    ensures var i, t := s.mem.value.iteration, Apply(s, Clear, batchSize);
            && t.mem.Some? && t.mem.value.phase == Cleared && t.mem.value.tokens == map[]
            && t.mem.value.started && t.mem.value.iteration == i
            && Gap(t.files, i, batchSize) && Ids(Recovered(t.files, i + 1), "0") == []
  {
    var f, m := s.files, s.mem.value;
    assert !m.finishedStep && m.iteration !in f.steps;
    assert m.iteration + 1 !in f.steps;
    if f.auto.Some? && f.auto.value.iter == m.iteration + 1 {
      assert !OnlyCopy(f);
      assert Ids(f.auto.value.tokens, "0") <= Ids(map[], "0");
    }
  }

  /** A process that leaves an iteration neither recorded nor checkpointed, and
      goes on, can lose ids: it records some for the next iteration and
      crashes, and the replay overwrites them. */
  lemma EmptyRolloutLosesTokens(s: System, batchSize: nat) returns (actions: seq<Action>, more: seq<Action>)
    requires batchSize > 0 && Inv(s, batchSize) && Enabled(s, Clear) && !Guarded(s, Clear, batchSize)
    ensures Can(Apply(s, Clear, batchSize), actions, batchSize)
    ensures s.mem.Some? && !Keeps(Final(Apply(s, Clear, batchSize), actions, batchSize), more, batchSize, s.mem.value.iteration + 1)
  {
    assert s.mem.Some?;
    hide Inv, Enabled, Guarded, Apply, Can, Final;
    var i, t := s.mem.value.iteration, Apply(s, Clear, batchSize);
    EmptyLeavesGap(s, batchSize);
    RecordsNext(t, i, batchSize);
    actions := RECORD;
    var u := Final(t, RECORD, batchSize);
    more := OverwritesNext(u, i, batchSize);
    var v := Final(u, more, batchSize);
    assert Ids(Recovered(u.files, i + 1), "0") == [7];
    assert Ids(Recovered(v.files, i + 1), "0") == [];
  }

  lemma SomethingLost(s: System, actions: seq<Action>, more: seq<Action>, batchSize: nat, i: nat)
    requires Can(s, actions, batchSize) && !Keeps(Final(s, actions, batchSize), more, batchSize, i)
    ensures !NothingLost(s, batchSize)
  {
    hide Can, Final, Keeps;
  }

  /** Such a process exists: the first rollout of a run that records nothing. */
  lemma EmptyRolloutIsReachable(batchSize: nat)
    ensures Can(INITIAL, [Boot] + ([Clear] + REOPEN), batchSize)
    ensures var s := Final(INITIAL, [Boot] + ([Clear] + REOPEN), batchSize); Enabled(s, Clear) && !Guarded(s, Clear, batchSize)
  {
    hide Can, Final;
    Single(INITIAL, Boot, batchSize);
    var t := Apply(INITIAL, Boot, batchSize);
    NextIteration(t, batchSize);
    CanConcat(INITIAL, [Boot], [Clear] + REOPEN, batchSize);
  }

  // ----- the exact conditions -----

  /** A late update that spoils a file: the next autosave loses its ids. */
  lemma SpoiledFileIsSaved(s: System, a: Action, batchSize: nat) returns (more: seq<Action>)
    requires batchSize > 0 && Inv(s, batchSize) && a.Update? && Enabled(s, a) && !Guarded(s, a, batchSize)
    ensures s.mem.Some? && !Keeps(Apply(s, a, batchSize), more, batchSize, s.mem.value.iteration)
  {
    var t, i := Apply(s, a, batchSize), s.mem.value.iteration;
    if s.mem.value.armed {
      more := [Save];
      Single(t, Save, batchSize);
    } else {
      more := [Arm] + [Save];
      Single(t, Arm, batchSize);
      Then(t, [Arm], Save, batchSize);
    }
    hide Can, Final, Extends, Complete, RecordAll;
    var u := Final(t, more, batchSize);
    assert Recovered(t.files, i) == s.files.steps[i].tokens && Recovered(u.files, i) == t.mem.value.tokens;
  }

  /** In every run, any step is safe for what could be recovered, whatever
      happens next, exactly when it respects the guard. */
  lemma StepIsSafeIff(actions: seq<Action>, a: Action, batchSize: nat)
    requires batchSize > 0 && Can(INITIAL, actions, batchSize)
    requires Enabled(Final(INITIAL, actions, batchSize), a)
    ensures var s := Final(INITIAL, actions, batchSize);
            NothingLost(Apply(s, a, batchSize), batchSize) <==> Guarded(s, a, batchSize)
  {
    hide *;
    var s := Final(INITIAL, actions, batchSize);
    InitialInv(batchSize);
    RunInv(INITIAL, actions, batchSize);
    if Guarded(s, a, batchSize) {
      StepKeepsInv(s, a, batchSize);
      InvLosesNothing(Apply(s, a, batchSize), batchSize);
    } else {
      OnlyTwoAreGuarded(s, a, batchSize);
      if a.Clear? {
        var before, after := EmptyRolloutLosesTokens(s, batchSize);
        SomethingLost(Apply(s, a, batchSize), before, after, batchSize, s.mem.value.iteration + 1);
      } else {
        var more := SpoiledFileIsSaved(s, a, batchSize);
        NothingYet(Apply(s, a, batchSize), batchSize, 0);
        SomethingLost(Apply(s, a, batchSize), [], more, batchSize, s.mem.value.iteration);
      }
    }
  }

  lemma OnlyTwoAreGuarded(s: System, a: Action, batchSize: nat)
    requires Enabled(s, a) && !Guarded(s, a, batchSize)
    ensures a.Clear? || a.Update?
  {
    hide Enabled, KeepsFile;
  }

  /** In particular, leaving an iteration is safe exactly when one of its
      requests was recorded or it was checkpointed. */
  lemma LeavingIsSafeIff(actions: seq<Action>, batchSize: nat)
    requires batchSize > 0 && Can(INITIAL, actions, batchSize)
    requires Enabled(Final(INITIAL, actions, batchSize), Clear)
    ensures var s := Final(INITIAL, actions, batchSize);
            NothingLost(Apply(s, Clear, batchSize), batchSize) <==>
              (s.mem.value.phase == Running ==> s.mem.value.tokens != map[] || s.files.ckpt >= s.mem.value.iteration)
  {
    StepIsSafeIff(actions, Clear, batchSize);
    hide Can, Final, NothingLost, Apply, Enabled;
  }

  /** And an update is safe exactly when it does not complete, with other ids,
      the cleared log of an iteration whose file is still needed. */
  lemma LateUpdateIsSafeIff(actions: seq<Action>, a: Action, batchSize: nat)
    requires batchSize > 0 && Can(INITIAL, actions, batchSize)
    requires a.Update? && Enabled(Final(INITIAL, actions, batchSize), a)
    ensures var s := Final(INITIAL, actions, batchSize);
            NothingLost(Apply(s, a, batchSize), batchSize) <==>
              (s.mem.value.phase == Cleared && Live(s.mem.value) ==>
                 KeepsFile(s.files, s.mem.value.iteration, Apply(s, a, batchSize).mem.value.tokens, batchSize))
  {
    StepIsSafeIff(actions, a, batchSize);
    hide Can, Final, NothingLost, KeepsFile, Live;
  }

  // ----- late messages -----

  /** There is something to load for iteration `i`. */
  ghost predicate Loadable(f: Files, i: nat) {
    i in f.steps || (f.auto.Some? && f.auto.value.iter == i)
  }

  /** Loading brings back what can be recovered exactly when there is something
      to load or no message came after the log was cleared: with nothing to
      load, the entries of late messages stay. */
  lemma ReloadBringsBack(s: System, batchSize: nat)
    requires Enabled(s, Load)
    ensures var f, m, n := s.files, s.mem.value, Apply(s, Load, batchSize).mem.value;
            && (n.finishedStep <==> m.iteration in f.steps)
            && (n.tokens == Recovered(f, m.iteration) <==> Loadable(f, m.iteration) || m.tokens == map[])
            && (!Loadable(f, m.iteration) ==> n.tokens == m.tokens)
  {
  }

  const LOG := map["0" := Info([7], true, map[])]

  /** One request, its whole answer; what is sent behind it; and a message that
      marks it as finished again. */
  const WHOLE := Update(map["r" := "0"], [("r", NewInfo(Some([7]), Some(true), map[]))])
  const TRAILING := Update(map["r" := "0"], [("r", NewInfo(None, None, map["num_preempted" := 0]))])
  const REPEATED := Update(map["r" := "0"], [("r", NewInfo(None, Some(true), map[]))])

  lemma FirstRecord(update: NewInfo)
    ensures Record(map[], "0", update)
      == map["0" := Info(if update.ids.Some? then update.ids.value else [], update.finished == Some(true), update.extras)]
  {
    assert [] + (if update.ids.Some? then update.ids.value else []) == if update.ids.Some? then update.ids.value else [];
    assert map[] + update.extras == update.extras;
  }

  lemma CompleteAlone(ids: seq<int>)
    ensures Complete(map["0" := Info(ids, true, map[])], 1)
  {
    var tokens := map["0" := Info(ids, true, map[])];
    assert tokens.Keys == {"0"} && |tokens.Keys| == |tokens|;
  }

  const FINISH := [Boot] + ([Clear] + REOPEN) + [WHOLE] + [Arm] + [Save] + [Clear]

  /** A first iteration with one request, recorded, saved and cleared. */
  lemma FinishedIteration()
    ensures Can(INITIAL, FINISH, 1)
    ensures Final(INITIAL, FINISH, 1)
      == System(Files(0, Some(Snapshot(1, LOG)), map[1 := Snapshot(1, LOG)]), Some(Memory(Cleared, 1, map[], false, true, false, {1})))
  {
    hide Can, Final, RecordAll;
    var start := [Boot] + ([Clear] + REOPEN);
    FirstOpened(1);
    OneEntry(map[], WHOLE);
    FirstRecord(WHOLE.updates[0].1);
    CompleteAlone([7]);
    Then(INITIAL, start, WHOLE, 1);
    Then(INITIAL, start + [WHOLE], Arm, 1);
    Then(INITIAL, start + [WHOLE] + [Arm], Save, 1);
    SavedAndCleared();
    Then(INITIAL, start + [WHOLE] + [Arm] + [Save], Clear, 1);
  }

  lemma SavedAndCleared()
    ensures var file := Snapshot(1, LOG);
            var armed := Process(Running, 1, LOG, false, true).(armed := true);
            var saved := System(Files(0, Some(file), map[1 := file]), Some(armed.(armed := false, saved := {1})));
            && Apply(System(INITIAL.files, Some(armed)), Save, 1) == saved
            && Enabled(saved, Clear)
            && Apply(saved, Clear, 1)
                 == System(saved.files, Some(Memory(Cleared, 1, map[], false, true, false, {1})))
  {
    CompleteAlone([7]);
    hide Complete;
    var file := Snapshot(1, LOG);
    assert Saved(INITIAL.files, 1, LOG, 1) == Files(0, Some(file), map[1 := file]);
    var none: set<nat>, one: set<nat> := {}, {1};
    assert none + {1} == one;
    assert (set i | i in one && i > 0) == one;
    assert Expired(Files(0, Some(file), map[1 := file]), one).steps == map[1 := file];
  }

  lemma FirstOpened(batchSize: nat)
    ensures Can(INITIAL, [Boot] + ([Clear] + REOPEN), batchSize)
    ensures Final(INITIAL, [Boot] + ([Clear] + REOPEN), batchSize) == System(INITIAL.files, Some(Process(Running, 1, map[], false, true)))
  {
    hide Can, Final;
    Single(INITIAL, Boot, batchSize);
    NextIteration(Apply(INITIAL, Boot, batchSize), batchSize);
    CanConcat(INITIAL, [Boot], [Clear] + REOPEN, batchSize);
  }

  /** The next iteration inherits the entry of a message that comes late. */
  lemma StaleEntriesAreInherited()
    ensures Can(INITIAL, FINISH + [TRAILING] + [Number] + [Load], 1)
    ensures var s := Final(INITIAL, FINISH + [TRAILING] + [Number] + [Load], 1);
            && s.mem.Some? && s.mem.value.phase == Loaded && s.mem.value.iteration == 2
            && s.mem.value.tokens == map["0" := Info([], false, map["num_preempted" := 0])]
            && Recovered(s.files, 2) == map[]
  {
    hide Can, Final, RecordAll;
    FinishedIteration();
    OneEntry(map[], TRAILING);
    var stale := map["0" := Info([], false, map["num_preempted" := 0])];
    FirstRecord(TRAILING.updates[0].1);
    assert !Complete(stale, 1) by {
      assert "0" in stale;
    }
    Then(INITIAL, FINISH, TRAILING, 1);
    Then(INITIAL, FINISH + [TRAILING], Number, 1);
    Then(INITIAL, FINISH + [TRAILING] + [Number], Load, 1);
  }

  /** A late update that is not safe: it completes the cleared log. */
  lemma LateCompletionIsReachable()
    ensures Can(INITIAL, FINISH, 1)
    ensures Enabled(Final(INITIAL, FINISH, 1), REPEATED) && !Guarded(Final(INITIAL, FINISH, 1), REPEATED, 1)
  {
    hide Can, Final, RecordAll;
    FinishedIteration();
    OneEntry(map[], REPEATED);
    var late := map["0" := Info([], true, map[])];
    FirstRecord(REPEATED.updates[0].1);
    CompleteAlone([]);
    assert Ids(LOG, "0") == [7] && Ids(late, "0") == [];
  }

  // ----- what a restarted process brings back -----

  /** A process on its way to iteration `i`: apart from the checkpoint the
      files are `f`, all iterations in between have theirs, and so the autosave
      thread does not write. */
  ghost predicate Replaying(s: System, f: Files, i: nat) {
    && s.files == f.(ckpt := s.files.ckpt) && s.files.ckpt < i && FiledBefore(s.files, i)
    && (s.mem.Some? ==> Harmless(s.mem.value, i))
  }

  ghost predicate Harmless(m: Memory, i: nat) {
    && m.iteration <= i && (m.phase != Numbered ==> m.iteration < i)
    && m.saved == {} && !m.armed && (m.started || m.phase in {Loaded, Running} ==> m.finishedStep)
  }

  lemma ReplayStep(s: System, a: Action, batchSize: nat, f: Files, i: nat)
    requires Inv(s, batchSize) && Replaying(s, f, i) && Enabled(s, a) && (a.Load? ==> s.mem.value.iteration != i)
    ensures Replaying(Apply(s, a, batchSize), f, i)
  {
    hide FilesOk, InMemory, Newest, OnlyCopy, KeepsFile, Saved, Complete, AllFinished;
  }

  lemma {:induction false} ReplayRun(s: System, actions: seq<Action>, batchSize: nat, f: Files, i: nat)
    requires batchSize > 0 && Inv(s, batchSize) && Replaying(s, f, i)
    requires Can(s, actions, batchSize) && NotLoaded(s, actions, batchSize, i)
    ensures Inv(Final(s, actions, batchSize), batchSize) && Replaying(Final(s, actions, batchSize), f, i)
    decreases |actions|
  {
    hide Inv, Replaying, Enabled, Apply;
    if actions != [] {
      ReplayStep(s, actions[0], batchSize, f, i);
      StepKeepsInv(s, actions[0], batchSize);
      ReplayRun(Apply(s, actions[0], batchSize), actions[1..], batchSize, f, i);
    }
  }

  /** A crash in iteration `i`, before it is checkpointed, leaves files from
      which a prefix of its log can be recovered. */
  lemma CrashLeaves(s: System, crash: Action, batchSize: nat)
    requires batchSize > 0 && Inv(s, batchSize) && Enabled(s, crash) && (crash.Crash? || crash.TornSave?)
    requires s.mem.Some? && s.mem.value.phase in {Loaded, Running}
    ensures var u, i := Apply(s, crash, batchSize), s.mem.value.iteration;
            && u.mem == None && u.files.ckpt == s.files.ckpt && u.files.steps == s.files.steps
            && Extends(Recovered(u.files, i), s.mem.value.tokens)
            && (u.files.ckpt < i ==> Replaying(u, u.files, i))
  {
    ExtendsItself(s.mem.value.tokens);
    hide FilesOk, Newest, OnlyCopy, KeepsFile, Complete, Extends;
  }

  /** The log that a load of iteration `i` leaves in memory. */
  ghost function LoadedLog(s: System, batchSize: nat): Tokens
    requires Enabled(s, Load)
  {
    Apply(s, Load, batchSize).mem.value.tokens
  }

  /** `more` leads from `s` to the first load of iteration `i`. */
  ghost predicate LeadsToLoad(s: System, more: seq<Action>, batchSize: nat, i: nat) {
    && Can(s, more, batchSize) && NotLoaded(s, more, batchSize, i)
    && Enabled(Final(s, more, batchSize), Load) && Final(s, more, batchSize).mem.value.iteration == i
  }

  /** A process crashes while iteration `i` is loaded or running. Whatever
      happens until a process loads `i` again, what can be recovered for `i` stays
      as the crash left it, a prefix of the log at the crash; if there is a file,
      that is what the load brings back, and otherwise late messages stay. */
  lemma ReloadIsPrefix(actions: seq<Action>, crash: Action, more: seq<Action>, batchSize: nat)
    requires batchSize > 0 && Can(INITIAL, actions, batchSize) && (crash.Crash? || crash.TornSave?)
    requires var s := Final(INITIAL, actions, batchSize);
             && s.mem.Some? && s.mem.value.phase in {Loaded, Running} && Enabled(s, crash)
             && LeadsToLoad(Apply(s, crash, batchSize), more, batchSize, s.mem.value.iteration)
    ensures var s := Final(INITIAL, actions, batchSize);
            var u, i := Apply(s, crash, batchSize), s.mem.value.iteration;
            var t := Final(u, more, batchSize);
            && Recovered(t.files, i) == Recovered(u.files, i) && Extends(Recovered(u.files, i), s.mem.value.tokens)
            && LoadedLog(t, batchSize) == if Loadable(u.files, i) then Recovered(u.files, i) else t.mem.value.tokens
  {
    hide *;
    InitialInv(batchSize);
    RunInv(INITIAL, actions, batchSize);
    ReloadAfterCrash(Final(INITIAL, actions, batchSize), crash, more, batchSize);
  }

  lemma ReloadAfterCrash(s: System, crash: Action, more: seq<Action>, batchSize: nat)
    requires batchSize > 0 && Inv(s, batchSize) && Enabled(s, crash) && (crash.Crash? || crash.TornSave?)
    requires s.mem.Some? && s.mem.value.phase in {Loaded, Running}
    requires LeadsToLoad(Apply(s, crash, batchSize), more, batchSize, s.mem.value.iteration)
    ensures var u, i := Apply(s, crash, batchSize), s.mem.value.iteration;
            var t := Final(u, more, batchSize);
            && u.mem == None && u.files.ckpt < i && FiledBefore(u.files, i) && Harmless(t.mem.value, i)
            && Recovered(t.files, i) == Recovered(u.files, i) && Extends(Recovered(u.files, i), s.mem.value.tokens)
            && LoadedLog(t, batchSize) == if Loadable(u.files, i) then Recovered(u.files, i) else t.mem.value.tokens
  {
    var u, i := Apply(s, crash, batchSize), s.mem.value.iteration;
    var t := Final(u, more, batchSize);
    CrashLeaves(s, crash, batchSize);
    StepKeepsInv(s, crash, batchSize);
    RunInv(u, more, batchSize);
    RunKeepsRecoverable(u, more, batchSize, i);
    NumberedIsNew(t, batchSize);
    ReplayRun(u, more, batchSize, u.files, i);
    SameFiles(t, u.files, i);
    ReloadBringsBack(t, batchSize);
    hide *;
    ReplayingParts(u, u.files, i);
    ReplayingParts(t, u.files, i);
    LoadedLogIs(t, batchSize);
  }

  lemma LeadsToLoadIs(s: System, more: seq<Action>, batchSize: nat, i: nat)
    requires LeadsToLoad(s, more, batchSize, i)
    ensures Can(s, more, batchSize) && Enabled(Final(s, more, batchSize), Load)
  {
  }

  lemma LoadedLogIs(s: System, batchSize: nat)
    requires Enabled(s, Load)
    ensures s.mem.Some? && LoadedLog(s, batchSize) == Apply(s, Load, batchSize).mem.value.tokens
  {
    hide Apply;
  }

  lemma NumberedIsNew(s: System, batchSize: nat)
    requires Inv(s, batchSize) && Enabled(s, Load)
    ensures s.files.ckpt < s.mem.value.iteration
  {
    hide FilesOk, InMemory, Newest, OnlyCopy, KeepsFile;
  }

  lemma SameFiles(s: System, f: Files, i: nat)
    requires Replaying(s, f, i)
    ensures Recovered(s.files, i) == Recovered(f, i) && (Loadable(s.files, i) <==> Loadable(f, i))
  {
    hide FiledBefore, Harmless;
  }

  lemma ReplayingParts(s: System, f: Files, i: nat)
    requires Replaying(s, f, i)
    ensures s.files.ckpt < i && FiledBefore(s.files, i) && (s.mem.Some? ==> Harmless(s.mem.value, i))
  {
    hide FiledBefore, Harmless;
  }

  /** A message with one id that comes after its log was cleared. */
  function Late(id: int): Action {
    Update(map["r" := "0"], [("r", NewInfo(Some([id]), None, map[]))])
  }

  /** A restarted process comes to the clearing in front of iteration `i`. */
  lemma ClearedBefore(f: Files, i: nat, batchSize: nat) returns (actions: seq<Action>)
    requires batchSize > 0 && Gap(f, i, batchSize)
    ensures Can(System(f, None), actions, batchSize) && NotLoaded(System(f, None), actions, batchSize, i)
    ensures var t := Final(System(f, None), actions, batchSize);
            && t.files == f && t.mem.Some? && t.mem.value.phase == Cleared && t.mem.value.tokens == map[]
            && !Live(t.mem.value) && NextNumber(t) == i
  {
    hide Can, Final, Complete, NotLoaded, Recovered;
    var s := System(f, None);
    var before: seq<Action>, t: System;
    if i == f.ckpt + 1 {
      NothingYet(s, batchSize, i);
      Then(s, [], Boot, batchSize);
      NotLoadedThen(s, [], Boot, batchSize, i);
      before, t := [] + [Boot], System(f, Some(Process(Fresh, 0, map[], false, false)));
    } else {
      before := Replay(f, i, i - 1, batchSize);
      t := System(f, Some(Process(Running, i - 1, Recovered(f, i - 1), true, true)));
      CompleteIsNotEmpty(f.steps[i - 1].tokens, batchSize);
      FiledIsRecovered(f, i - 1);
    }
    Then(s, before, Clear, batchSize);
    NotLoadedThen(s, before, Clear, batchSize, i);
    actions := before + [Clear];
    assert Expired(f, {}) == f;
  }

  lemma FiledIsRecovered(f: Files, i: nat)
    requires i in f.steps
    ensures Recovered(f, i) == f.steps[i].tokens
  {
  }

  /** With nothing on file for iteration `i`, ids of late messages come back. */
  lemma LateIdsComeBack(f: Files, i: nat, id: int, batchSize: nat) returns (more: seq<Action>)
    requires batchSize > 0 && Gap(f, i, batchSize) && !Loadable(f, i)
    ensures LeadsToLoad(System(f, None), more, batchSize, i)
    ensures Ids(LoadedLog(Final(System(f, None), more, batchSize), batchSize), "0") == [id]
  {
    hide Can, Final, NotLoaded, Complete, Loadable;
    var s := System(f, None);
    var cleared := ClearedBefore(f, i, batchSize);
    var t := Final(s, cleared, batchSize);
    Then(s, cleared, Late(id), batchSize);
    NotLoadedThen(s, cleared, Late(id), batchSize, i);
    Then(s, cleared + [Late(id)], Number, batchSize);
    NotLoadedThen(s, cleared + [Late(id)], Number, batchSize, i);
    more := cleared + [Late(id)] + [Number];
    OneEntry(map[], Late(id));
    FirstRecord(Late(id).updates[0].1);
    ReloadBringsBack(Final(s, more, batchSize), batchSize);
  }

  /** A crash in iteration `i` leaves nothing of a later one. */
  lemma CrashLeavesGap(s: System, crash: Action, batchSize: nat)
    requires batchSize > 0 && Inv(s, batchSize) && Enabled(s, crash) && (crash.Crash? || crash.TornSave?)
    requires s.mem.Some? && s.mem.value.phase in {Loaded, Running}
    ensures var f, i := Apply(s, crash, batchSize).files, s.mem.value.iteration;
            f.ckpt < i && !Loadable(f, i) ==> Gap(f, i, batchSize)
  {
    hide Extends, Complete, KeepsFile, OnlyCopy;
  }

  /** Whatever happens after the crash, the first load of `i` brings back only
      what had been recorded. */
  ghost predicate AlwaysPrefix(u: System, i: nat, tokens: Tokens, batchSize: nat) {
    forall more: seq<Action> :: LeadsToLoad(u, more, batchSize, i) ==> Extends(LoadedLog(Final(u, more, batchSize), batchSize), tokens)
  }

  /** That is so exactly when the crash left a file to load, or iteration `i` is
      checkpointed and not loaded again. */
  lemma ReloadIsPrefixIff(actions: seq<Action>, crash: Action, batchSize: nat)
    requires batchSize > 0 && Can(INITIAL, actions, batchSize) && (crash.Crash? || crash.TornSave?)
    requires var s := Final(INITIAL, actions, batchSize);
             s.mem.Some? && s.mem.value.phase in {Loaded, Running} && Enabled(s, crash)
    ensures var s := Final(INITIAL, actions, batchSize);
            var u, i := Apply(s, crash, batchSize), s.mem.value.iteration;
            AlwaysPrefix(u, i, s.mem.value.tokens, batchSize) <==> Loadable(u.files, i) || i <= u.files.ckpt
  {
    hide *;
    InitialInv(batchSize);
    RunInv(INITIAL, actions, batchSize);
    PrefixIff(Final(INITIAL, actions, batchSize), crash, batchSize);
  }

  lemma PrefixIff(s: System, crash: Action, batchSize: nat)
    requires batchSize > 0 && Inv(s, batchSize) && Enabled(s, crash) && (crash.Crash? || crash.TornSave?)
    requires s.mem.Some? && s.mem.value.phase in {Loaded, Running}
    ensures var u, i := Apply(s, crash, batchSize), s.mem.value.iteration;
            AlwaysPrefix(u, i, s.mem.value.tokens, batchSize) <==> Loadable(u.files, i) || i <= u.files.ckpt
  {
    var u, i, tokens := Apply(s, crash, batchSize), s.mem.value.iteration, s.mem.value.tokens;
    assert u == System(u.files, None);
    hide Inv, Enabled, Apply, LeadsToLoad, Loadable, LoadedLog, Extends, Recovered, Gap, Harmless;
    if Loadable(u.files, i) || i <= u.files.ckpt {
      forall more: seq<Action> | LeadsToLoad(u, more, batchSize, i)
        ensures Extends(LoadedLog(Final(u, more, batchSize), batchSize), tokens)
      {
        ReloadAfterCrash(s, crash, more, batchSize);
      }
    } else {
      CrashLeavesGap(s, crash, batchSize);
      var id := NotFirst(Ids(tokens, "0"));
      var more := LateIdsComeBack(u.files, i, id, batchSize);
      NotExtended(LoadedLog(Final(u, more, batchSize), batchSize), tokens, id);
    }
  }

  function NotFirst(ids: seq<int>): int {
    if ids == [] then 0 else ids[0] + 1
  }

  lemma NotExtended(a: Tokens, b: Tokens, id: int)
    requires Ids(a, "0") == [id] && id == NotFirst(Ids(b, "0"))
    ensures !Extends(a, b)
  {
    assert !(Ids(a, "0") <= Ids(b, "0"));
  }

  // ----- late messages without ids -----

  /** Updates outside an iteration carry no ids. */
  ghost predicate Quiet(s: System, actions: seq<Action>, batchSize: nat)
    requires Can(s, actions, batchSize)
    decreases |actions|
  {
    actions == [] || (QuietStep(s, actions[0]) && Quiet(Apply(s, actions[0], batchSize), actions[1..], batchSize))
  }

  ghost predicate QuietStep(s: System, a: Action) {
    a.Update? && s.mem.Some? && s.mem.value.phase !in {Loaded, Running} ==>
      forall k :: 0 <= k < |a.updates| ==> a.updates[k].1.ids == None || a.updates[k].1.ids == Some([])
  }

  ghost predicate NoIds(s: System) {
    s.mem.Some? && s.mem.value.phase !in {Loaded, Running} ==> Extends(s.mem.value.tokens, map[])
  }

  lemma {:induction false} QuietRun(s: System, actions: seq<Action>, batchSize: nat)
    requires Can(s, actions, batchSize) && Quiet(s, actions, batchSize) && NoIds(s)
    ensures NoIds(Final(s, actions, batchSize))
    decreases |actions|
  {
    hide NoIds, Enabled, Apply, QuietStep;
    if actions != [] {
      QuietStepKeeps(s, actions[0], batchSize);
      QuietRun(Apply(s, actions[0], batchSize), actions[1..], batchSize);
    }
  }

  lemma QuietStepKeeps(s: System, a: Action, batchSize: nat)
    requires Enabled(s, a) && QuietStep(s, a) && NoIds(s)
    ensures NoIds(Apply(s, a, batchSize))
  {
    ExtendsItself(map[]);
    hide Extends, RecordAll, MayClear;
    if a.Update? && s.mem.value.phase !in {Loaded, Running} {
      RecordNoIds(s.mem.value.tokens, a.globalIds, a.updates);
      ExtendsTransitive(RecordAll(s.mem.value.tokens, a.globalIds, a.updates), s.mem.value.tokens, map[]);
    }
  }

  /** As long as late messages carry no ids, every reload is a prefix of what
      had been recorded before the crash. */
  lemma QuietReloadIsPrefix(actions: seq<Action>, crash: Action, more: seq<Action>, batchSize: nat)
    requires batchSize > 0 && Can(INITIAL, actions, batchSize) && (crash.Crash? || crash.TornSave?)
    requires var s := Final(INITIAL, actions, batchSize);
             && s.mem.Some? && s.mem.value.phase in {Loaded, Running} && Enabled(s, crash)
             && LeadsToLoad(Apply(s, crash, batchSize), more, batchSize, s.mem.value.iteration)
             && Quiet(Apply(s, crash, batchSize), more, batchSize)
    ensures var s := Final(INITIAL, actions, batchSize);
            Extends(LoadedLog(Final(Apply(s, crash, batchSize), more, batchSize), batchSize), s.mem.value.tokens)
  {
    hide *;
    ReloadIsPrefix(actions, crash, more, batchSize);
    var s := Final(INITIAL, actions, batchSize);
    var u := Apply(s, crash, batchSize);
    NoProcess(s, crash, batchSize);
    LeadsToLoadIs(u, more, batchSize, s.mem.value.iteration);
    QuietRun(u, more, batchSize);
    NoIdsExtends(Final(u, more, batchSize), s.mem.value.tokens);
  }

  lemma NoProcess(s: System, crash: Action, batchSize: nat)
    requires Enabled(s, crash) && (crash.Crash? || crash.TornSave?)
    ensures NoIds(Apply(s, crash, batchSize))
  {
    hide Extends;
  }

  lemma NoIdsExtends(s: System, tokens: Tokens)
    requires NoIds(s) && Enabled(s, Load)
    ensures s.mem.Some? && Extends(s.mem.value.tokens, tokens)
  {
    forall g: Gid ensures Ids(s.mem.value.tokens, g) <= Ids(tokens, g) {
      assert Ids(s.mem.value.tokens, g) <= Ids(map[], g);
    }
  }
}
