/** The actor that owns the token log: its fields, its lock-protected methods
    and the files it writes. Its methods take the steps of the recovery
    protocol. */
module TokensDict {
  import opened Options
  import opened TokenLog
  import Protocol = RecoveryProtocol

  /** The directory the log is saved in. */
  class FileStore {
    var auto: Option<Snapshot>
    var steps: map<nat, Snapshot>

    constructor ()
      ensures auto == None && steps == map[]
    {
      auto, steps := None, map[];
    }

    /** The files, together with the latest model checkpoint's step. */
    ghost function View(ckpt: nat): Files
      reads this
    {
      Files(ckpt, auto, steps)
    }
  }

  /** What one pass of a waiting loop came to. */
  datatype Wait = Waiting | Done

  class Log {
    const store: FileStore
    const batchSize: nat
    var iteration: nat
    var indexPromptTokens: Tokens
    var savedStepCkpt: set<nat>
    var isRolloutFinishedStep: bool
    var saving: bool

    /** The protocol's state with this memory and these files; its phase and
        whether the autosave thread is past its test of the flag are not fields. */
    ghost predicate Represents(s: Protocol.System)
      reads this, store
    {
      && s.mem.Some? && s.files == store.View(s.files.ckpt)
      && s.mem.value.iteration == iteration && s.mem.value.tokens == indexPromptTokens
      && s.mem.value.finishedStep == isRolloutFinishedStep && s.mem.value.started == saving
      && s.mem.value.saved == savedStepCkpt
    }

    /** Where the protocol can take step `a`, that step is what was done. */
    twostate predicate Takes(a: Protocol.Action)
      reads this, store
    {
      forall s :: old(Represents(s)) && Protocol.Enabled(s, a) ==> Represents(Protocol.Apply(s, a, batchSize))
    }

    /** The actor after a restart, over the files that are there. */
    constructor (store: FileStore, batchSize: nat)
      ensures forall ckpt :: Represents(Protocol.Apply(Protocol.System(store.View(ckpt), None), Protocol.Boot, batchSize))
      ensures this.store == store && this.batchSize == batchSize
      ensures iteration == 0 && indexPromptTokens == map[] && savedStepCkpt == {} && !isRolloutFinishedStep && !saving
    {
      this.store, this.batchSize := store, batchSize;
      iteration, indexPromptTokens, savedStepCkpt := 0, map[], {};
      isRolloutFinishedStep, saving := false, false;
    }

    method StartSave()
      modifies this`saving
      ensures saving
      ensures Takes(Protocol.StartSave)
    {
      if !saving {
        saving := true;
      }
    }

    method UpdateData(globalId: Gid, info: NewInfo)
      modifies this`indexPromptTokens
      ensures indexPromptTokens == Record(old(indexPromptTokens), globalId, info)
    {
      if globalId !in indexPromptTokens {
        indexPromptTokens := indexPromptTokens[globalId := Info([], false, map[])];
      }
      var entry := indexPromptTokens[globalId];
      if info.ids.Some? {
        entry := entry.(ids := entry.ids + info.ids.value);
      }
      if info.finished.Some? {
        entry := entry.(finished := info.finished.value);
      }
      entry := entry.(extras := entry.extras + info.extras);
      assert entry.ids == Merge(InfoOf(old(indexPromptTokens), globalId), info).ids;
      indexPromptTokens := indexPromptTokens[globalId := entry];
    }

    /** Unregistered requests are skipped; the others are recorded in order. */
    method UpdateDatas(globalIds: map<string, Gid>, updates: seq<(string, NewInfo)>)
      modifies this`indexPromptTokens
      ensures indexPromptTokens == RecordAll(old(indexPromptTokens), globalIds, updates)
      ensures Takes(Protocol.Update(globalIds, updates))
    {
      for k := 0 to |updates|
        invariant indexPromptTokens == RecordAll(old(indexPromptTokens), globalIds, updates[..k])
      {
        var (request, info) := updates[k];
        assert updates[..k + 1][..k] == updates[..k];
        if request in globalIds {
          UpdateData(globalIds[request], info);
        }
      }
      assert updates[..|updates|] == updates;
    }

    method UpdateIter(i: nat)
      modifies this`iteration
      ensures iteration == i
      ensures forall s :: old(Represents(s)) && Protocol.Enabled(s, Protocol.Number) && i == Protocol.NextNumber(s) ==>
                Represents(Protocol.Apply(s, Protocol.Number, batchSize))
    {
      iteration := i;
    }

    lemma FinishedWith(done: set<Gid>, g: Gid)
      requires done <= indexPromptTokens.Keys && g in indexPromptTokens && g !in done
      ensures |set h | h in done + {g} && indexPromptTokens[h].finished|
        == |set h | h in done && indexPromptTokens[h].finished| + if indexPromptTokens[g].finished then 1 else 0
    {
      var before := set h | h in done && indexPromptTokens[h].finished;
      var after := set h | h in done + {g} && indexPromptTokens[h].finished;
      assert after == if indexPromptTokens[g].finished then before + {g} else before;
    }

    /** How many requests are marked finished, and whether all are. */
    method CountFinished() returns (count: nat, all: bool)
      ensures count == |set g | g in indexPromptTokens && indexPromptTokens[g].finished|
      ensures all <==> AllFinished(indexPromptTokens)
    {
      var todo, done := indexPromptTokens.Keys, {};
      count, all := 0, true;
      while todo != {}
        invariant done !! todo && done + todo == indexPromptTokens.Keys
        invariant count == |set g | g in done && indexPromptTokens[g].finished|
        invariant all <==> forall g :: g in done ==> indexPromptTokens[g].finished
        decreases todo
      {
        var g :| g in todo;
        FinishedWith(done, g);
        todo, done := todo - {g}, done + {g};
        if indexPromptTokens[g].finished {
          count := count + 1;
        } else {
          all := false;
        }
      }
      assert done == indexPromptTokens.Keys;
      assert (set g | g in done && indexPromptTokens[g].finished) == set g | g in indexPromptTokens && indexPromptTokens[g].finished;
    }

    lemma CountIsComplete(count: nat, all: bool)
      requires count == |set g | g in indexPromptTokens && indexPromptTokens[g].finished|
      requires all <==> AllFinished(indexPromptTokens)
      ensures (all && count == batchSize) <==> Complete(indexPromptTokens, batchSize)
    {
      if all {
        assert (set g | g in indexPromptTokens && indexPromptTokens[g].finished) == indexPromptTokens.Keys;
        assert |indexPromptTokens.Keys| == |indexPromptTokens|;
      }
    }

    /** One pass of the autosave thread: it looks at the flag without the lock,
        and saves unless the iteration was loaded finished. */
    method AutoSave(ghost ckpt: nat)
      modifies this`savedStepCkpt, store
      ensures isRolloutFinishedStep ==> savedStepCkpt == old(savedStepCkpt) && store.View(ckpt) == old(store.View(ckpt))
      ensures !isRolloutFinishedStep ==>
                && store.View(ckpt) == Saved(old(store.View(ckpt)), iteration, indexPromptTokens, batchSize)
                && savedStepCkpt == if Complete(indexPromptTokens, batchSize) then old(savedStepCkpt) + {iteration} else old(savedStepCkpt)
      ensures forall s :: old(Represents(s)) && Protocol.Enabled(s, Protocol.Arm) ==>
                Represents(Protocol.Apply(Protocol.Apply(s, Protocol.Arm, batchSize), Protocol.Save, batchSize))
    {
      if !isRolloutFinishedStep {
        SaveTokens(ckpt);
      }
    }

    /** The part under the lock. */
    method SaveTokens(ghost ckpt: nat)
      modifies this`savedStepCkpt, store
      ensures store.View(ckpt) == Saved(old(store.View(ckpt)), iteration, indexPromptTokens, batchSize)
      ensures savedStepCkpt == if Complete(indexPromptTokens, batchSize) then old(savedStepCkpt) + {iteration} else old(savedStepCkpt)
      ensures Takes(Protocol.Save)
    {
      store.auto := Some(Snapshot(iteration, indexPromptTokens));
      var finished, all := CountFinished();
      CountIsComplete(finished, all);
      if all && finished == batchSize {
        store.steps := store.steps[iteration := store.auto.value];
        savedStepCkpt := savedStepCkpt + {iteration};
      }
    }

    /** One pass of the wait in `clear`: nothing happens until the log is empty
        or all its requests are finished and on file; then memory is emptied
        and the files that the checkpoint has overtaken are removed. */
    method Clear(latestModelCkptStep: nat) returns (w: Wait)
      modifies this`indexPromptTokens, this`savedStepCkpt, store
      ensures w.Done? <==> old(indexPromptTokens) == map[] || (AllFinished(old(indexPromptTokens)) && iteration in old(store.steps))
      ensures w.Done? ==>
                && indexPromptTokens == map[]
                && store.View(latestModelCkptStep) == Expired(old(store.View(latestModelCkptStep)), old(savedStepCkpt))
                && savedStepCkpt == set i | i in old(savedStepCkpt) && i > latestModelCkptStep
      ensures w.Waiting? ==>
                && indexPromptTokens == old(indexPromptTokens) && savedStepCkpt == old(savedStepCkpt)
                && store.auto == old(store.auto) && store.steps == old(store.steps)
      ensures forall s :: old(Represents(s)) && s.files.ckpt == latestModelCkptStep ==>
                && (w.Done? <==> Protocol.MayClear(s.files, s.mem.value))
                && (Protocol.Enabled(s, Protocol.Clear) ==> Represents(Protocol.Apply(s, Protocol.Clear, batchSize)))
    {
      var _, all := CountFinished();
      if indexPromptTokens != map[] && !(all && iteration in store.steps) {
        return Waiting;
      }
      indexPromptTokens := map[];
      var todo := savedStepCkpt;
      ghost var before := store.steps;
      while todo != {}
        invariant indexPromptTokens == map[] && todo <= old(savedStepCkpt) && store.auto == old(store.auto)
        invariant forall i :: i in savedStepCkpt <==> i in old(savedStepCkpt) && (i in todo || i > latestModelCkptStep)
        invariant store.steps == map m | m in before && !(m in old(savedStepCkpt) && m !in todo && m <= latestModelCkptStep) :: before[m]
        decreases todo
      {
        var i :| i in todo;
        todo := todo - {i};
        if i <= latestModelCkptStep {
          store.steps := store.steps - {i};
          savedStepCkpt := savedStepCkpt - {i};
        }
      }
      w := Done;
    }

    /** The finished iteration's own file wins over the autosave file, which
        counts only if it was written for this iteration. */
    method TryLoad(ghost ckpt: nat) returns (loaded: bool)
      modifies this`indexPromptTokens, this`isRolloutFinishedStep
      ensures isRolloutFinishedStep <==> iteration in store.steps
      ensures loaded <==> iteration in store.steps || (store.auto.Some? && store.auto.value.iter == iteration)
      ensures indexPromptTokens == if loaded then Recovered(store.View(ckpt), iteration) else old(indexPromptTokens)
      ensures Takes(Protocol.Load)
    {
      if iteration in store.steps {
        indexPromptTokens := store.steps[iteration].tokens;
        isRolloutFinishedStep := true;
        return true;
      }
      isRolloutFinishedStep := false;
      if store.auto.Some? {
        if store.auto.value.iter == iteration {
          indexPromptTokens := store.auto.value.tokens;
          return true;
        }
      }
      return false;
    }
  }

  /** A message of the tokens queue: a request's registration under its global
      id, or new information about requests. */
  datatype Message = Register(request: string, globalId: Gid) | NewTokens(updates: seq<(string, NewInfo)>)

  /** The registrations in force after a run of messages. */
  function Registered(globalIds: map<string, Gid>, queue: seq<Message>): map<string, Gid> {
    if queue == [] then globalIds
    else
      var before := Registered(globalIds, queue[..|queue| - 1]);
      match queue[|queue| - 1]
      case Register(r, g) => before[r := g]
      case NewTokens(_) => before
  }

  /** The log after a run of messages, each update seen with the registrations
      that were in force when it was taken from the queue. */
  function Consumed(tokens: Tokens, globalIds: map<string, Gid>, queue: seq<Message>): Tokens {
    if queue == [] then tokens
    else
      var before := Consumed(tokens, globalIds, queue[..|queue| - 1]);
      match queue[|queue| - 1]
      case Register(_, _) => before
      case NewTokens(updates) => RecordAll(before, Registered(globalIds, queue[..|queue| - 1]), updates)
  }

  /** The queue consumer, up to the messages that have arrived. */
  method ConsumeQueue(log: Log, globalIds: map<string, Gid>, queue: seq<Message>) returns (registered: map<string, Gid>)
    modifies log`indexPromptTokens
    ensures registered == Registered(globalIds, queue)
    ensures log.indexPromptTokens == Consumed(old(log.indexPromptTokens), globalIds, queue)
  {
    registered := globalIds;
    for k := 0 to |queue|
      invariant registered == Registered(globalIds, queue[..k])
      invariant log.indexPromptTokens == Consumed(old(log.indexPromptTokens), globalIds, queue[..k])
    {
      assert queue[..k + 1][..k] == queue[..k];
      match queue[k] {
        case Register(request, globalId) => registered := registered[request := globalId];
        case NewTokens(updates) => log.UpdateDatas(registered, updates);
      }
    }
    assert queue[..|queue|] == queue;
  }

  predicate Registers(message: Message, request: string) {
    message.Register? && message.request == request
  }

  /** Message `k` is the last one that registers `request`. */
  ghost predicate RegistersLast(queue: seq<Message>, request: string, k: nat) {
    k < |queue| && Registers(queue[k], request) && forall j :: k < j < |queue| ==> !Registers(queue[j], request)
  }

  ghost predicate NeverRegisters(queue: seq<Message>, request: string) {
    forall j :: 0 <= j < |queue| ==> !Registers(queue[j], request)
  }

  function GlobalId(globalIds: map<string, Gid>, request: string): Option<Gid> {
    if request in globalIds then Some(globalIds[request]) else None
  }

  lemma NextRegistered(globalIds: map<string, Gid>, queue: seq<Message>, request: string)
    requires queue != []
    ensures var last := queue[|queue| - 1];
            var before := GlobalId(Registered(globalIds, queue[..|queue| - 1]), request);
            GlobalId(Registered(globalIds, queue), request) == if Registers(last, request) then Some(last.globalId) else before
  {
  }

  /** A request's global id is the one it was last registered under. */
  lemma {:induction false} RegisteredIs(globalIds: map<string, Gid>, queue: seq<Message>, request: string)
    ensures forall k: nat :: RegistersLast(queue, request, k) ==>
              GlobalId(Registered(globalIds, queue), request) == Some(queue[k].globalId)
    ensures NeverRegisters(queue, request) ==>
              GlobalId(Registered(globalIds, queue), request) == GlobalId(globalIds, request)
    decreases |queue|
  {
    if queue != [] {
      var m := |queue| - 1;
      RegisteredIs(globalIds, queue[..m], request);
      NextRegistered(globalIds, queue, request);
      hide Registered, Registers, GlobalId;
      forall k: nat | RegistersLast(queue, request, k)
        ensures GlobalId(Registered(globalIds, queue), request) == Some(queue[k].globalId)
      {
        if k < m {
          assert RegistersLast(queue[..m], request, k);
          assert !Registers(queue[m], request);
        }
      }
      if NeverRegisters(queue, request) {
        assert NeverRegisters(queue[..m], request);
      }
    }
  }

  /** The ids that a run of messages carries for request `gid`, each message
      seen with the registrations before it. */
  function Carried(globalIds: map<string, Gid>, queue: seq<Message>, gid: Gid): seq<int> {
    if queue == [] then []
    else
      var front := queue[..|queue| - 1];
      var last := queue[|queue| - 1];
      Carried(globalIds, front, gid)
        + (if last.NewTokens? then Arrived(Registered(globalIds, front), last.updates, gid) else [])
  }

  /** Consuming messages appends the ids that they carry, in order. */
  lemma {:induction false} ConsumedIds(tokens: Tokens, globalIds: map<string, Gid>, queue: seq<Message>, gid: Gid)
    ensures Ids(Consumed(tokens, globalIds, queue), gid) == Ids(tokens, gid) + Carried(globalIds, queue, gid)
    decreases |queue|
  {
    if queue != [] {
      var front := queue[..|queue| - 1];
      var last := queue[|queue| - 1];
      ConsumedIds(tokens, globalIds, front, gid);
      hide Ids, RecordAll, Arrived;
      if last.NewTokens? {
        RecordedIds(Consumed(tokens, globalIds, front), Registered(globalIds, front), last.updates, gid);
      }
    }
  }

  /** Consuming messages only ever appends to a request's ids. */
  lemma {:induction false} ConsumedExtends(tokens: Tokens, globalIds: map<string, Gid>, queue: seq<Message>)
    ensures Extends(tokens, Consumed(tokens, globalIds, queue))
    decreases |queue|
  {
    if queue != [] {
      var front := queue[..|queue| - 1];
      ConsumedExtends(tokens, globalIds, front);
      if queue[|queue| - 1].NewTokens? {
        RecordAllExtends(Consumed(tokens, globalIds, front), Registered(globalIds, front), queue[|queue| - 1].updates);
        ExtendsTransitive(tokens, Consumed(tokens, globalIds, front), Consumed(tokens, globalIds, queue));
      }
    }
  }
}
