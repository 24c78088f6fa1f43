/** The token log of one training iteration, its snapshots on disk, and the
    effects of the log's operations on memory and files. */
module TokenLog {
  import opened Options

  type Gid = string

  /** What is known of one request: the ids generated so far, whether it has
      finished, and the latest value of every other field. */
  datatype Info = Info(ids: seq<int>, finished: bool, extras: map<string, int>)

  /** New information about a request; a field that is absent is left alone. */
  datatype NewInfo = NewInfo(ids: Option<seq<int>>, finished: Option<bool>, extras: map<string, int>)

  type Tokens = map<Gid, Info>

  datatype Snapshot = Snapshot(iter: nat, tokens: Tokens)

  /** The files that survive a crash: the autosave file, the per-iteration
      files of finished rollouts, and the step of the latest model checkpoint. */
  datatype Files = Files(ckpt: nat, auto: Option<Snapshot>, steps: map<nat, Snapshot>)

  // ----- token updates -----

  function InfoOf(tokens: Tokens, gid: Gid): Info {
    if gid in tokens then tokens[gid] else Info([], false, map[])
  }

  /** New ids are appended; every other field is replaced. */
  function Merge(before: Info, update: NewInfo): Info {
    Info(
      before.ids + (if update.ids.Some? then update.ids.value else []),
      if update.finished.Some? then update.finished.value else before.finished,
      before.extras + update.extras)
  }

  function Record(tokens: Tokens, gid: Gid, update: NewInfo): Tokens {
    tokens[gid := Merge(InfoOf(tokens, gid), update)]
  }

  /** A batch of updates, in the order they arrived; requests that are not
      registered are skipped. */
  function RecordAll(tokens: Tokens, globalIds: map<string, Gid>, updates: seq<(string, NewInfo)>): Tokens {
    if updates == [] then tokens
    else
      var last := updates[|updates| - 1];
      var before := RecordAll(tokens, globalIds, updates[..|updates| - 1]);
      if last.0 in globalIds then Record(before, globalIds[last.0], last.1) else before
  }

  // ----- snapshots -----

  predicate AllFinished(tokens: Tokens) {
    forall g :: g in tokens ==> tokens[g].finished
  }

  /** The rollout of the iteration is complete. */
  predicate Complete(tokens: Tokens, batchSize: nat) {
    AllFinished(tokens) && |tokens| == batchSize
  }

  /** Replace the autosave file; once the rollout is complete, also copy it to
      the iteration's own file. */
  function Saved(f: Files, iteration: nat, tokens: Tokens, batchSize: nat): Files {
    var s := Snapshot(iteration, tokens);
    if Complete(tokens, batchSize) then f.(auto := Some(s), steps := f.steps[iteration := s])
    else f.(auto := Some(s))
  }

  /** Remove the files this process wrote that the checkpoint has overtaken. */
  function Expired(f: Files, saved: set<nat>): Files {
    f.(steps := map m | m in f.steps && !(m in saved && m <= f.ckpt) :: f.steps[m])
  }

  /** What loading iteration `i` would bring back. */
  function Recovered(f: Files, i: nat): Tokens {
    if i in f.steps then f.steps[i].tokens
    else if f.auto.Some? && f.auto.value.iter == i then f.auto.value.tokens
    else map[]
  }

  // ----- prefix order -----

  function Ids(tokens: Tokens, gid: Gid): seq<int> {
    InfoOf(tokens, gid).ids
  }

  /** Every request's ids in `a` are a prefix of its ids in `b`. */
  ghost predicate Extends(a: Tokens, b: Tokens) {
    forall g: Gid :: Ids(a, g) <= Ids(b, g)
  }

  /** Some request has recorded ids. */
  ghost predicate Worthy(tokens: Tokens) {
    !Extends(tokens, map[])
  }

  lemma RecordExtends(tokens: Tokens, gid: Gid, update: NewInfo)
    ensures Extends(tokens, Record(tokens, gid, update))
  {
  }

  lemma ExtendsItself(a: Tokens)
    ensures Extends(a, a)
  {
  }

  lemma ExtendsTransitive(a: Tokens, b: Tokens, c: Tokens)
    requires Extends(a, b) && Extends(b, c)
    ensures Extends(a, c)
  {
    forall g: Gid ensures Ids(a, g) <= Ids(c, g) {
      assert Ids(a, g) <= Ids(b, g) <= Ids(c, g);
    }
  }

  lemma {:induction false} RecordAllExtends(tokens: Tokens, globalIds: map<string, Gid>, updates: seq<(string, NewInfo)>)
    ensures Extends(tokens, RecordAll(tokens, globalIds, updates))
    decreases |updates|
  {
    if updates != [] {
      var last := updates[|updates| - 1];
      var before := RecordAll(tokens, globalIds, updates[..|updates| - 1]);
      RecordAllExtends(tokens, globalIds, updates[..|updates| - 1]);
      if last.0 in globalIds {
        RecordExtends(before, globalIds[last.0], last.1);
        ExtendsTransitive(tokens, before, RecordAll(tokens, globalIds, updates));
      }
    }
  }

  /** Updates forget no request. */
  lemma {:induction false} RecordAllKeeps(tokens: Tokens, globalIds: map<string, Gid>, updates: seq<(string, NewInfo)>)
    ensures tokens.Keys <= RecordAll(tokens, globalIds, updates).Keys
    ensures tokens != map[] ==> RecordAll(tokens, globalIds, updates) != map[]
    decreases |updates|
  {
    if updates != [] {
      RecordAllKeeps(tokens, globalIds, updates[..|updates| - 1]);
    }
    if tokens != map[] {
      var g :| g in tokens;
      assert g in RecordAll(tokens, globalIds, updates);
    }
  }

  /** The ids that the updates carry for request `gid`, in arrival order. */
  function Arrived(globalIds: map<string, Gid>, updates: seq<(string, NewInfo)>, gid: Gid): seq<int> {
    if updates == [] then []
    else
      var last := updates[|updates| - 1];
      Arrived(globalIds, updates[..|updates| - 1], gid)
        + (if last.0 in globalIds && globalIds[last.0] == gid && last.1.ids.Some? then last.1.ids.value else [])
  }

  /** No recorded id is lost, duplicated or moved between requests. */
  lemma {:induction false} RecordedIds(tokens: Tokens, globalIds: map<string, Gid>, updates: seq<(string, NewInfo)>, gid: Gid)
    ensures Ids(RecordAll(tokens, globalIds, updates), gid) == Ids(tokens, gid) + Arrived(globalIds, updates, gid)
    decreases |updates|
  {
    if updates != [] {
      RecordedIds(tokens, globalIds, updates[..|updates| - 1], gid);
    }
  }

  // ----- what a log holds after updates -----

  predicate IsFor(globalIds: map<string, Gid>, update: (string, NewInfo), gid: Gid) {
    update.0 in globalIds && globalIds[update.0] == gid
  }

  /** The requests that the updates are for. */
  function Addressed(globalIds: map<string, Gid>, updates: seq<(string, NewInfo)>): set<Gid> {
    set k | 0 <= k < |updates| && updates[k].0 in globalIds :: globalIds[updates[k].0]
  }

  /** Update `k` is the last one for request `gid` that carries a flag. */
  ghost predicate SentLastFlag(globalIds: map<string, Gid>, updates: seq<(string, NewInfo)>, gid: Gid, k: nat) {
    && k < |updates| && IsFor(globalIds, updates[k], gid) && updates[k].1.finished.Some?
    && forall j :: k < j < |updates| && IsFor(globalIds, updates[j], gid) ==> updates[j].1.finished.None?
  }

  ghost predicate SentNoFlag(globalIds: map<string, Gid>, updates: seq<(string, NewInfo)>, gid: Gid) {
    forall j :: 0 <= j < |updates| && IsFor(globalIds, updates[j], gid) ==> updates[j].1.finished.None?
  }

  /** Update `k` is the last one for request `gid` that carries field `name`. */
  ghost predicate SentLastExtra(globalIds: map<string, Gid>, updates: seq<(string, NewInfo)>, gid: Gid, name: string, k: nat) {
    && k < |updates| && IsFor(globalIds, updates[k], gid) && name in updates[k].1.extras
    && forall j :: k < j < |updates| && IsFor(globalIds, updates[j], gid) ==> name !in updates[j].1.extras
  }

  ghost predicate SentNoExtra(globalIds: map<string, Gid>, updates: seq<(string, NewInfo)>, gid: Gid, name: string) {
    forall j :: 0 <= j < |updates| && IsFor(globalIds, updates[j], gid) ==> name !in updates[j].1.extras
  }

  /** What one more update does to the info of a request. */
  lemma LastUpdate(tokens: Tokens, globalIds: map<string, Gid>, updates: seq<(string, NewInfo)>, gid: Gid)
    requires updates != []
    ensures var before := RecordAll(tokens, globalIds, updates[..|updates| - 1]);
            var last := updates[|updates| - 1];
            InfoOf(RecordAll(tokens, globalIds, updates), gid)
              == if IsFor(globalIds, last, gid) then Merge(InfoOf(before, gid), last.1) else InfoOf(before, gid)
  {
  }

  /** A request's flag is the one sent last, or the old one when none was sent. */
  lemma {:induction false} RecordedFlag(tokens: Tokens, globalIds: map<string, Gid>, updates: seq<(string, NewInfo)>, gid: Gid)
    ensures forall k: nat :: SentLastFlag(globalIds, updates, gid, k) ==>
              InfoOf(RecordAll(tokens, globalIds, updates), gid).finished == updates[k].1.finished.value
    ensures SentNoFlag(globalIds, updates, gid) ==>
              InfoOf(RecordAll(tokens, globalIds, updates), gid).finished == InfoOf(tokens, gid).finished
    decreases |updates|
  {
    if updates != [] {
      var m := |updates| - 1;
      var front := updates[..m];
      RecordedFlag(tokens, globalIds, front, gid);
      LastUpdate(tokens, globalIds, updates, gid);
      hide RecordAll, InfoOf;
      forall k: nat | SentLastFlag(globalIds, updates, gid, k)
        ensures InfoOf(RecordAll(tokens, globalIds, updates), gid).finished == updates[k].1.finished.value
      {
        if k < m {
          assert SentLastFlag(globalIds, front, gid, k);
          assert IsFor(globalIds, updates[m], gid) ==> updates[m].1.finished.None?;
        }
      }
      if SentNoFlag(globalIds, updates, gid) {
        assert SentNoFlag(globalIds, front, gid);
      }
    }
  }

  /** Every other field of a request is the value sent last, or the old one. */
  lemma {:induction false} RecordedExtra(tokens: Tokens, globalIds: map<string, Gid>, updates: seq<(string, NewInfo)>, gid: Gid, name: string)
    ensures forall k: nat :: SentLastExtra(globalIds, updates, gid, name, k) ==>
              var extras := InfoOf(RecordAll(tokens, globalIds, updates), gid).extras;
              name in extras && extras[name] == updates[k].1.extras[name]
    ensures SentNoExtra(globalIds, updates, gid, name) ==>
              var extras, prior := InfoOf(RecordAll(tokens, globalIds, updates), gid).extras, InfoOf(tokens, gid).extras;
              (name in extras <==> name in prior) && (name in extras ==> extras[name] == prior[name])
    decreases |updates|
  {
    if updates != [] {
      var m := |updates| - 1;
      var front := updates[..m];
      RecordedExtra(tokens, globalIds, front, gid, name);
      LastUpdate(tokens, globalIds, updates, gid);
      hide RecordAll, InfoOf;
      forall k: nat | SentLastExtra(globalIds, updates, gid, name, k)
        ensures var extras := InfoOf(RecordAll(tokens, globalIds, updates), gid).extras;
                name in extras && extras[name] == updates[k].1.extras[name]
      {
        if k < m {
          assert SentLastExtra(globalIds, front, gid, name, k);
          assert IsFor(globalIds, updates[m], gid) ==> name !in updates[m].1.extras;
        }
      }
      if SentNoExtra(globalIds, updates, gid, name) {
        assert SentNoExtra(globalIds, front, gid, name);
      }
    }
  }

  /** The log has an entry for the requests it had and those addressed. */
  lemma {:induction false} RecordedKeys(tokens: Tokens, globalIds: map<string, Gid>, updates: seq<(string, NewInfo)>)
    ensures RecordAll(tokens, globalIds, updates).Keys == tokens.Keys + Addressed(globalIds, updates)
    decreases |updates|
  {
    if updates != [] {
      var m := |updates| - 1;
      RecordedKeys(tokens, globalIds, updates[..m]);
      hide Merge;
      forall g ensures g in Addressed(globalIds, updates) <==> g in Addressed(globalIds, updates[..m]) || IsFor(globalIds, updates[m], g) {
        AddressedIff(globalIds, updates, g);
        AddressedIff(globalIds, updates[..m], g);
        assert forall k :: 0 <= k < m ==> updates[..m][k] == updates[k];
      }
    }
  }

  lemma AddressedIff(globalIds: map<string, Gid>, updates: seq<(string, NewInfo)>, g: Gid)
    ensures g in Addressed(globalIds, updates) <==> exists k :: 0 <= k < |updates| && IsFor(globalIds, updates[k], g)
  {
    if k :| 0 <= k < |updates| && IsFor(globalIds, updates[k], g) {
      assert updates[k].0 in globalIds;
    }
  }

  /** Some flag was sent for a request, or none. */
  lemma {:induction false} FlagSent(globalIds: map<string, Gid>, updates: seq<(string, NewInfo)>, gid: Gid) returns (k: nat)
    requires !SentNoFlag(globalIds, updates, gid)
    ensures SentLastFlag(globalIds, updates, gid, k)
    decreases |updates|
  {
    var m := |updates| - 1;
    if IsFor(globalIds, updates[m], gid) && updates[m].1.finished.Some? {
      k := m;
    } else {
      k := FlagSent(globalIds, updates[..m], gid);
    }
  }

  /** The log of a rollout is complete exactly when as many requests as the
      batch has were addressed, and each was last sent as finished. */
  lemma CompleteIff(globalIds: map<string, Gid>, updates: seq<(string, NewInfo)>, batchSize: nat)
    ensures Complete(RecordAll(map[], globalIds, updates), batchSize) <==>
      && |Addressed(globalIds, updates)| == batchSize
      && forall g :: g in Addressed(globalIds, updates) ==>
           exists k: nat :: SentLastFlag(globalIds, updates, g, k) && updates[k].1.finished == Some(true)
  {
    var log, gids := RecordAll(map[], globalIds, updates), Addressed(globalIds, updates);
    RecordedKeys(map[], globalIds, updates);
    assert log.Keys == gids && |log| == |log.Keys|;
    forall g | g in gids
      ensures log[g].finished <==> exists k: nat :: SentLastFlag(globalIds, updates, g, k) && updates[k].1.finished == Some(true)
    {
      FinishedIff(globalIds, updates, g);
      assert g in log.Keys && log[g] == InfoOf(log, g);
    }
    hide RecordAll, Addressed, SentLastFlag;
  }

  lemma FinishedIff(globalIds: map<string, Gid>, updates: seq<(string, NewInfo)>, g: Gid)
    ensures InfoOf(RecordAll(map[], globalIds, updates), g).finished
      <==> exists k: nat :: SentLastFlag(globalIds, updates, g, k) && updates[k].1.finished == Some(true)
  {
    RecordedFlag(map[], globalIds, updates, g);
    hide RecordAll, SentLastFlag, SentNoFlag;
    if !SentNoFlag(globalIds, updates, g) {
      var k := FlagSent(globalIds, updates, g);
      LastFlagIsOne(globalIds, updates, g, k);
      assert updates[k].1.finished == Some(updates[k].1.finished.value);
    } else {
      NoFlagSent(globalIds, updates, g);
    }
  }

  lemma LastFlagIsOne(globalIds: map<string, Gid>, updates: seq<(string, NewInfo)>, g: Gid, k: nat)
    requires SentLastFlag(globalIds, updates, g, k)
    ensures k < |updates| && updates[k].1.finished.Some?
    ensures forall j: nat :: SentLastFlag(globalIds, updates, g, j) ==> j == k
  {
    forall j: nat | SentLastFlag(globalIds, updates, g, j) ensures j == k {
      assert j < k || k < j || j == k;
    }
  }

  lemma NoFlagSent(globalIds: map<string, Gid>, updates: seq<(string, NewInfo)>, g: Gid)
    requires SentNoFlag(globalIds, updates, g)
    ensures forall j: nat :: !SentLastFlag(globalIds, updates, g, j)
  {
  }

  /** Updates that carry no ids leave every request's ids alone. */
  lemma RecordNoIds(tokens: Tokens, globalIds: map<string, Gid>, updates: seq<(string, NewInfo)>)
    requires forall k :: 0 <= k < |updates| ==> updates[k].1.ids == None || updates[k].1.ids == Some([])
    ensures Extends(RecordAll(tokens, globalIds, updates), tokens)
  {
    forall g: Gid ensures Ids(RecordAll(tokens, globalIds, updates), g) <= Ids(tokens, g) {
      RecordedIds(tokens, globalIds, updates, g);
      NothingArrived(globalIds, updates, g);
    }
  }

  lemma {:induction false} NothingArrived(globalIds: map<string, Gid>, updates: seq<(string, NewInfo)>, gid: Gid)
    requires forall k :: 0 <= k < |updates| ==> updates[k].1.ids == None || updates[k].1.ids == Some([])
    ensures Arrived(globalIds, updates, gid) == []
    decreases |updates|
  {
    if updates != [] {
      NothingArrived(globalIds, updates[..|updates| - 1], gid);
    }
  }
}
