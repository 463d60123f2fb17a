/**
 Scoped batches. A guard starts a batch if none is in progress, and only the guard that started it may
 end it: by a commit, an abort, or by leaving its scope. Ending it may fail.
 */
module LockedTxn {
  import opened Options

  /** What happens inside the database: success, an exception before the batch is touched, or a failing commit. */
  datatype Outcome = Ok | FailsBefore | FailsInside

  /** Stored contents, contents as the batch sees them, the batch in progress, and the number of the next batch. */
  datatype Db<S> = Db(committed: S, working: S, batch: Option<nat>, nextId: nat) {

    function Visible(): S {
      if batch.Some? then working else committed
    }

    function Started(): Db<S> {
      if batch.Some? then this else this.(working := committed, batch := Some(nextId), nextId := nextId + 1)
    }

    predicate StopThrows(o: Outcome) {
      batch.None? || o != Ok
    }

    predicate CommitFails(o: Outcome) {
      batch.Some? && o == FailsInside
    }

    /** A failing commit discards the batch before the exception goes on. */
    function Stopped(o: Outcome): Db<S> {
      if batch.None? || o == FailsBefore then this
      else if o == FailsInside then this.(batch := None)
      else this.(committed := working, batch := None)
    }

    /** There is no commit to fail in an abort. */
    predicate AbortThrows(o: Outcome) {
      batch.None? || o == FailsBefore
    }

    function Aborted(o: Outcome): Db<S> {
      if AbortThrows(o) then this else this.(batch := None)
    }

    function Written(s: S): Db<S> {
      if batch.Some? then this.(working := s) else this.(committed := s)
    }
  }

  // The classes

  class BlockchainDb<S> {
    var state: Db<S>

    constructor (initial: S)
      ensures state == Db(initial, initial, None, 0)
    {
      state := Db(initial, initial, None, 0);
    }

    /** `batch_start` */
    method BatchStart() returns (started: bool)
      modifies this
      ensures state == old(state).Started()
      ensures started <==> old(state).batch.None?
    {
      if state.batch.Some? {
        return false;
      }
      state := state.(working := state.committed, batch := Some(state.nextId), nextId := state.nextId + 1);
      return true;
    }

    /** `batch_stop` */
    method BatchStop(o: Outcome) returns (threw: bool)
      modifies this
      ensures state == old(state).Stopped(o)
      ensures threw <==> old(state).StopThrows(o)
    {
      if state.batch.None? || o == FailsBefore {
        return true;
      }
      if o == Ok {
        state := state.(committed := state.working);
      }
      state := state.(batch := None);
      return o != Ok;
    }

    /** `batch_abort` */
    method BatchAbort(o: Outcome) returns (threw: bool)
      modifies this
      ensures state == old(state).Aborted(o)
      ensures threw <==> old(state).AbortThrows(o)
    {
      if state.batch.None? || o == FailsBefore {
        return true;
      }
      state := state.(batch := None);
      return false;
    }
  }

  /**
   The fields of a guard, whether a commit of it failed half-way, the batch it started and the contents at
   that time.
   */
  datatype Guard<S> = Guard(batch: bool, active: bool, failed: bool, id: nat, start: S) {

    predicate Acts() {
      batch && active
    }
  }

  class LockedTXN<S> {
    const db: BlockchainDb<S>
    var batch: bool
    var active: bool
    ghost var failed: bool
    ghost var id: nat
    ghost var start: S

    ghost function AsGuard(): Guard<S>
      reads this
    {
      Guard(batch, active, failed, id, start)
    }

    constructor (db: BlockchainDb<S>)
      modifies db
      ensures this.db == db && db.state == old(db.state).Started()
      ensures AsGuard() == Opened(old(db.state))
    {
      this.db := db;
      batch := false;
      active := false;
      failed := false;
      id := db.state.nextId;
      start := db.state.committed;
      new;
      batch := this.db.BatchStart();
      active := true;
    }

    /** `commit` */
    method Commit(o: Outcome)
      modifies this, db
      ensures (AsGuard(), db.state) == AfterCommit(old(AsGuard()), old(db.state), o)
    {
      if batch && active {
        failed := failed || db.state.CommitFails(o);
        var threw := db.BatchStop(o);
        if !threw {
          active := false;
        }
      }
    }

    /** `abort`, which the destructor calls as well */
    method Abort(o: Outcome)
      modifies this, db
      ensures (AsGuard(), db.state) == AfterAbort(old(AsGuard()), old(db.state), o)
    {
      if batch && active {
        var threw := db.BatchAbort(o);
        if !threw {
          active := false;
        }
      }
    }
  }

  function Opened<S>(db: Db<S>): Guard<S> {
    Guard(db.batch.None?, true, false, db.nextId, db.committed)
  }

  function AfterCommit<S>(g: Guard<S>, db: Db<S>, o: Outcome): (Guard<S>, Db<S>) {
    if g.Acts() then (g.(active := db.StopThrows(o), failed := g.failed || db.CommitFails(o)), db.Stopped(o))
    else (g, db)
  }

  function AfterAbort<S>(g: Guard<S>, db: Db<S>, o: Outcome): (Guard<S>, Db<S>) {
    if g.Acts() then (g.(active := db.AbortThrows(o)), db.Aborted(o)) else (g, db)
  }

  // Runs: scopes nest, so guards form a stack

  datatype Event<S> =
    | Open
    | Write(contents: S)
    | Commit(guard: nat, outcome: Outcome)
    | Abort(guard: nat, outcome: Outcome)
    | Leave(outcome: Outcome)

  datatype State<S> = State(db: Db<S>, guards: seq<Guard<S>>)

  function Step<S>(s: State<S>, e: Event<S>): State<S> {
    match e
    case Open => State(s.db.Started(), s.guards + [Opened(s.db)])
    case Write(contents) => State(s.db.Written(contents), s.guards)
    case Commit(i, o) =>
      if i < |s.guards| then var (g, db) := AfterCommit(s.guards[i], s.db, o); State(db, s.guards[i := g]) else s
    case Abort(i, o) =>
      if i < |s.guards| then var (g, db) := AfterAbort(s.guards[i], s.db, o); State(db, s.guards[i := g]) else s
    case Leave(o) =>
      if |s.guards| > 0 then
        var i := |s.guards| - 1; State(AfterAbort(s.guards[i], s.db, o).1, s.guards[..i])
      else s
  }

  function Run<S>(s: State<S>, events: seq<Event<S>>): State<S> {
    if |events| == 0 then s else Step(Run(s, events[..|events| - 1]), events[|events| - 1])
  }

  /** The number of the guard that an event calls, or -1. */
  function Actor<S>(s: State<S>, e: Event<S>): int {
    match e
    case Commit(i, _) => if i < |s.guards| then i else -1
    case Abort(i, _) => if i < |s.guards| then i else -1
    case Leave(_) => |s.guards| - 1
    case _ => -1
  }

  predicate EndsBatch<S>(s: State<S>, e: Event<S>) {
    s.db.batch.Some? && Step(s, e).db.batch.None?
  }

  /** The actor believes its batch is in progress, but another one is. */
  predicate Stale<S>(s: State<S>, i: int) {
    && 0 <= i < |s.guards| && s.guards[i].Acts()
    && s.db.batch.Some? && s.db.batch.value != s.guards[i].id
  }

  predicate Touches(o: Outcome) {
    o != FailsBefore
  }

  function OutcomeOf<S>(e: Event<S>): Outcome {
    match e
    case Commit(_, o) => o
    case Abort(_, o) => o
    case Leave(o) => o
    case _ => Ok
  }

  /** A batch in progress is ended exactly by a guard whose fields say it may, unless the database refuses. */
  lemma EndsBatchIff<S>(s: State<S>, e: Event<S>)
    requires s.db.batch.Some?
    ensures EndsBatch(s, e) <==> Actor(s, e) >= 0 && s.guards[Actor(s, e)].Acts() && Touches(OutcomeOf(e))
  {}

  /** A guard that did not start a batch changes nothing. */
  lemma InnerScopesChangeNothing<S>(s: State<S>, e: Event<S>)
    requires Actor(s, e) >= 0 && !s.guards[Actor(s, e)].batch
    ensures Step(s, e).db == s.db
    ensures Step(s, e).guards == if e.Leave? then s.guards[..|s.guards| - 1] else s.guards
  {}

  // What every run keeps

  ghost predicate Initial<S>(s: State<S>) {
    s.guards == [] && (s.db.batch.Some? ==> s.db.batch.value < s.db.nextId)
  }

  /**
   Batches are numbered in order. While a batch is in progress, its guard, if it is still open, is
   active, and the stored contents are those of the time it was started.
   */
  ghost predicate Inv<S>(s: State<S>) {
    && (s.db.batch.Some? ==> s.db.batch.value < s.db.nextId)
    && (forall i | 0 <= i < |s.guards| && s.guards[i].batch :: s.guards[i].id < s.db.nextId)
    && (forall i, j | 0 <= i < j < |s.guards| && s.guards[i].batch && s.guards[j].batch ::
        s.guards[i].id < s.guards[j].id)
    && (forall i | 0 <= i < |s.guards| && s.guards[i].batch && s.db.batch == Some(s.guards[i].id) ::
          s.guards[i].active && s.db.committed == s.guards[i].start)
  }

  lemma OpenKeepsInv<S>(s: State<S>)
    requires Inv(s)
    ensures Inv(Step(s, Open))
  {}

  predicate SameBatch<S>(g: Guard<S>, h: Guard<S>) {
    g.batch == h.batch && g.id == h.id
  }

  /** A call changes nothing, or ends the batch. */
  lemma CallEffect<S>(s: State<S>, i: nat, e: Event<S>)
    requires i < |s.guards| && Actor(s, e) == i && !e.Leave?
    ensures var t := Step(s, e);
            || t == s
            || (&& t.db.batch.None? && t.db.nextId == s.db.nextId
                && |t.guards| == |s.guards| && t.guards == s.guards[i := t.guards[i]]
                && SameBatch(s.guards[i], t.guards[i]))
  {
    var t := Step(s, e);
    if t.db == s.db {
      assert t.guards == s.guards;
    }
  }

  lemma EndKeepsInv<S>(s: State<S>, i: nat, g: Guard<S>, db: Db<S>)
    requires Inv(s) && i < |s.guards| && SameBatch(s.guards[i], g) && db.batch.None? && db.nextId == s.db.nextId
    ensures Inv(State(db, s.guards[i := g]))
  {}

  lemma LeaveKeepsInv<S>(s: State<S>, o: Outcome)
    requires Inv(s)
    ensures Inv(Step(s, Leave(o)))
  {}

  lemma StepKeepsInv<S>(s: State<S>, e: Event<S>)
    requires Inv(s)
    ensures Inv(Step(s, e))
  {
    var t := Step(s, e);
    match e
    case Open =>
      OpenKeepsInv(s);
    case Write(_) =>
    case Leave(o) =>
      LeaveKeepsInv(s, o);
    case _ =>
      hide Inv;
      var i := Actor(s, e);
      if i >= 0 {
        CallEffect(s, i, e);
        if t != s {
          EndKeepsInv(s, i, t.guards[i], t.db);
        }
      }
  }

  lemma {:induction false} RunKeepsInv<S>(s: State<S>, events: seq<Event<S>>)
    requires Inv(s)
    ensures Inv(Run(s, events))
  {
    hide Step, Inv;
    if |events| > 0 {
      RunKeepsInv(s, events[..|events| - 1]);
      StepKeepsInv(Run(s, events[..|events| - 1]), events[|events| - 1]);
    }
  }

  /**
   If the step ends a batch, the acting guard started that batch. A successful commit stores its
   contents; any other end leaves the stored contents of the time the batch was started.
   */
  ghost predicate SafeStep<S>(s: State<S>, e: Event<S>) {
    EndsBatch(s, e) ==>
      && Actor(s, e) >= 0
      && var g := s.guards[Actor(s, e)];
         && g.batch && s.db.batch == Some(g.id)
         && Step(s, e).db.committed == if e.Commit? && e.outcome == Ok then s.db.working else g.start
  }

  /** A step is safe exactly if it is not a call of a stale guard that reaches the batch. */
  lemma SafeStepIff<S>(s: State<S>, e: Event<S>)
    requires Inv(s)
    ensures SafeStep(s, e) <==> !(Stale(s, Actor(s, e)) && Touches(OutcomeOf(e)))
  {
    if s.db.batch.Some? {
      EndsBatchIff(s, e);
      var a := Actor(s, e);
      if a >= 0 && s.db.batch.value == s.guards[a].id && s.guards[a].batch {
        assert s.db.committed == s.guards[a].start;
      }
    }
  }

  /** Once ended, a batch never comes back: it is ended, and its contents are stored, at most once. */
  lemma {:induction false} EndedForGood<S>(s: State<S>, events: seq<Event<S>>, id: nat)
    requires id < s.db.nextId && s.db.batch != Some(id)
    ensures id < Run(s, events).db.nextId && Run(s, events).db.batch != Some(id)
  {
    hide Step;
    if |events| > 0 {
      EndedForGood(s, events[..|events| - 1], id);
      StepStartsNext(Run(s, events[..|events| - 1]), events[|events| - 1]);
    }
  }

  lemma StepStartsNext<S>(s: State<S>, e: Event<S>)
    ensures Step(s, e).db.nextId >= s.db.nextId
    ensures Step(s, e).db.batch in {s.db.batch, None, Some(s.db.nextId)}
  {}

  // A scope that is left without a commit

  ghost predicate StaysInside<S>(s: State<S>, body: seq<Event<S>>, depth: nat) {
    forall k | 0 <= k <= |body| :: |Run(s, body[..k]).guards| > depth
  }

  lemma StepKeepsGuard<S>(s: State<S>, e: Event<S>, depth: nat)
    requires depth < |s.guards| && depth < |Step(s, e).guards|
    ensures var g, h := s.guards[depth], Step(s, e).guards[depth];
            g.batch == h.batch && g.id == h.id && g.start == h.start
  {}

  /** While a guard is open, its batch and the contents it started from are fixed. */
  lemma {:induction false} GuardStays<S>(s: State<S>, body: seq<Event<S>>, depth: nat)
    requires StaysInside(s, body, depth) && |s.guards| > depth
    ensures |Run(s, body).guards| > depth
    ensures var g, h := s.guards[depth], Run(s, body).guards[depth];
            g.batch == h.batch && g.id == h.id && g.start == h.start
  {
    hide Step;
    assert body[..|body|] == body;
    if |body| > 0 {
      var n := |body| - 1;
      StaysInsidePrefix(s, body, depth, n);
      GuardStays(s, body[..n], depth);
      StepKeepsGuard(Run(s, body[..n]), body[n], depth);
    }
  }

  /** The step changes the stored contents: a write outside any batch, or a commit that succeeds. */
  ghost predicate Stores<S>(s: State<S>, e: Event<S>) {
    (e.Write? && s.db.batch.None?) || (e.Commit? && e.outcome == Ok && EndsBatch(s, e))
  }

  ghost predicate NothingStored<S>(s: State<S>, body: seq<Event<S>>) {
    forall k | 0 <= k < |body| :: !Stores(Run(s, body[..k]), body[k])
  }

  /** No other step does, however it ends a batch. */
  lemma StepKeepsCommitted<S>(s: State<S>, e: Event<S>)
    requires !Stores(s, e)
    ensures Step(s, e).db.committed == s.db.committed
  {}

  lemma {:induction false} RunKeepsCommitted<S>(s: State<S>, body: seq<Event<S>>)
    requires NothingStored(s, body)
    ensures Run(s, body).db.committed == s.db.committed
  {
    hide Step, Stores;
    if |body| > 0 {
      var n := |body| - 1;
      assert !Stores(Run(s, body[..n]), body[n]);
      forall k | 0 <= k < n
        ensures !Stores(Run(s, body[..n][..k]), body[..n][k])
      {
        assert body[..n][..k] == body[..k];
      }
      RunKeepsCommitted(s, body[..n]);
      StepKeepsCommitted(Run(s, body[..n]), body[n]);
    }
  }

  /**
   A scope in which nothing is stored restores the stored contents, whatever it wrote to batches, whatever
   commits failed, and whatever was aborted; without a batch in progress they are the visible contents.
   */
  lemma ScopeRestores<S>(s: State<S>, body: seq<Event<S>>, o: Outcome)
    requires NothingStored(Step(s, Open), body)
    ensures var t := Step(Run(Step(s, Open), body), Leave(o));
            && t.db.committed == s.db.committed
            && (s.db.batch.None? && t.db.batch.None? ==> t.db.Visible() == s.db.Visible())
  {
    hide Run;
    RunKeepsCommitted(Step(s, Open), body);
    StepKeepsCommitted(Run(Step(s, Open), body), Leave(o));
  }

  /** While a batch is in progress and calls are safe, only a commit of the guard that started it can store anything. */
  lemma OnlyOwnCommitStores<S>(s: State<S>, e: Event<S>)
    requires Inv(s) && SafeStep(s, e) && s.db.batch.Some? && Stores(s, e)
    ensures e.Commit? && e.outcome == Ok && e.guard < |s.guards|
    ensures s.guards[e.guard].batch && s.db.batch == Some(s.guards[e.guard].id)
  {}

  /** As long as its batch is in progress, nothing is stored unless the guard that opened the scope commits. */
  lemma UncommittedBatch<S>(s: State<S>, body: seq<Event<S>>)
    requires Inv(s) && s.db.batch.None? && StaysInside(Step(s, Open), body, |s.guards|)
    requires forall k | 0 <= k < |body| ::
               && Run(Step(s, Open), body[..k]).db.batch == Some(s.db.nextId)
               && SafeStep(Run(Step(s, Open), body[..k]), body[k])
               && body[k] != Commit(|s.guards|, Ok)
    ensures NothingStored(Step(s, Open), body)
    ensures Run(Step(s, Open), body).db.committed == s.db.committed
  {
    hide Run, SafeStep;
    var u, depth := Step(s, Open), |s.guards|;
    OpenKeepsInv(s);
    forall k | 0 <= k < |body|
      ensures !Stores(Run(u, body[..k]), body[k])
    {
      var t := Run(u, body[..k]);
      assert t.db.batch == Some(s.db.nextId) && SafeStep(t, body[k]) && body[k] != Commit(depth, Ok);
      RunKeepsInv(u, body[..k]);
      StaysInsidePrefix(u, body, depth, k);
      GuardStays(u, body[..k], depth);
      if Stores(t, body[k]) {
        OnlyOwnCommitStores(t, body[k]);
      }
    }
    RunKeepsCommitted(u, body);
  }

  lemma StaysInsidePrefix<S>(s: State<S>, body: seq<Event<S>>, depth: nat, n: nat)
    requires StaysInside(s, body, depth) && n <= |body|
    ensures StaysInside(s, body[..n], depth)
  {
    forall k | 0 <= k <= n
      ensures |Run(s, body[..n][..k]).guards| > depth
    {
      assert body[..n][..k] == body[..k];
    }
  }

  /** A scope that still has its batch when it is left discards it, even if other batches were stored before. */
  lemma ScopeDiscards<S>(s: State<S>, body: seq<Event<S>>, o: Outcome)
    requires Inv(s) && s.db.batch.None? && Touches(o)
    requires StaysInside(Step(s, Open), body, |s.guards|)
    requires var t := Run(Step(s, Open), body); |t.guards| == |s.guards| + 1 && t.db.batch == Some(s.db.nextId)
    ensures Step(Run(Step(s, Open), body), Leave(o)).db.Visible() == s.db.Visible()
  {
    hide Run, StaysInside;
    OpenKeepsInv(s);
    RunKeepsInv(Step(s, Open), body);
    GuardStays(Step(s, Open), body, |s.guards|);
  }

  // What is seen and what is stored

  /** Starting a batch changes nothing that is seen. */
  lemma OpenKeepsVisible<S>(s: State<S>)
    ensures Step(s, Open).db.Visible() == s.db.Visible() && Step(s, Open).db.committed == s.db.committed
    ensures Step(s, Open).db.batch.Some?
  {}

  /** What is seen changes by writes, and by batches that end without a successful commit. */
  lemma StepVisible<S>(s: State<S>, e: Event<S>)
    ensures Step(s, e).db.Visible() ==
            if e.Write? then e.contents
            else if EndsBatch(s, e) && !(e.Commit? && e.outcome == Ok) then s.db.committed
            else s.db.Visible()
  {}

  /** What is stored when something is: the contents written, or those that the batch saw. */
  lemma StepStores<S>(s: State<S>, e: Event<S>)
    requires Stores(s, e)
    ensures Step(s, e).db.committed == if e.Write? then e.contents else s.db.Visible()
  {}

  /** The contents of the last write, or `initial` if there is none. */
  function LastWrite<S>(events: seq<Event<S>>, initial: S): S {
    if |events| == 0 then initial
    else if events[|events| - 1].Write? then events[|events| - 1].contents
    else LastWrite(events[..|events| - 1], initial)
  }

  /** A batch is in progress before and after every event. */
  ghost predicate KeepsBatch<S>(s: State<S>, events: seq<Event<S>>, id: nat) {
    forall k | 0 <= k <= |events| :: Run(s, events[..k]).db.batch == Some(id)
  }

  lemma KeepsBatchPrefix<S>(s: State<S>, events: seq<Event<S>>, id: nat, n: nat)
    requires KeepsBatch(s, events, id) && n <= |events|
    ensures KeepsBatch(s, events[..n], id) && Run(s, events[..n]).db.batch == Some(id)
  {
    hide Run;
    forall k | 0 <= k <= n
      ensures Run(s, events[..n][..k]).db.batch == Some(id)
    {
      assert events[..n][..k] == events[..k];
    }
  }

  /** A batch sees the last of the writes made in it, on top of what was seen before. */
  lemma {:induction false} BatchSeesLastWrite<S>(s: State<S>, events: seq<Event<S>>, id: nat)
    requires KeepsBatch(s, events, id)
    ensures Run(s, events).db.Visible() == LastWrite(events, s.db.Visible())
  {
    hide Step, KeepsBatch;
    if |events| > 0 {
      var n := |events| - 1;
      KeepsBatchPrefix(s, events, id, n);
      KeepsBatchPrefix(s, events, id, n + 1);
      assert events[..n + 1] == events;
      BatchSeesLastWrite(s, events[..n], id);
      StepVisible(Run(s, events[..n]), events[n]);
    }
  }

  /**
   A scope whose own guard commits its batch stores the last write made while the batch was in progress; without one
   it stores what was stored before.
   */
  lemma ScopeStoresLastWrite<S>(s: State<S>, body: seq<Event<S>>)
    requires Inv(s) && s.db.batch.None?
    requires StaysInside(Step(s, Open), body, |s.guards|) && KeepsBatch(Step(s, Open), body, s.db.nextId)
    ensures var t := Step(Run(Step(s, Open), body), Commit(|s.guards|, Ok));
            && t.db.batch.None? && t.db.committed == LastWrite(body, s.db.committed)
            && t.db.Visible() == LastWrite(body, s.db.committed)
  {
    hide Run, StaysInside, KeepsBatch, LastWrite;
    var u := Step(s, Open);
    OpenKeepsInv(s);
    OpenKeepsVisible(s);
    RunKeepsInv(u, body);
    GuardStays(u, body, |s.guards|);
    KeepsBatchPrefix(u, body, s.db.nextId, |body|);
    assert body[..|body|] == body;
    BatchSeesLastWrite(u, body, s.db.nextId);
  }

  // The exact condition for a run to be safe

  /** A guard whose commit failed half-way is called while some batch is in progress. */
  ghost predicate CallsFailed<S>(s: State<S>, e: Event<S>) {
    var a := Actor(s, e);
    a >= 0 && s.guards[a].Acts() && s.guards[a].failed && s.db.batch.Some? && Touches(OutcomeOf(e))
  }

  /** An active guard has lost its batch exactly if a commit of it failed. */
  ghost predicate FailedTracks<S>(s: State<S>) {
    forall i | 0 <= i < |s.guards| && s.guards[i].Acts() :: s.guards[i].failed <==> s.db.batch != Some(s.guards[i].id)
  }

  lemma SafeStepIffNotFailed<S>(s: State<S>, e: Event<S>)
    requires Inv(s) && FailedTracks(s)
    ensures SafeStep(s, e) <==> !CallsFailed(s, e)
  {
    hide SafeStep;
    SafeStepIff(s, e);
  }

  lemma StepKeepsTrack<S>(s: State<S>, e: Event<S>)
    requires Inv(s) && FailedTracks(s) && SafeStep(s, e)
    ensures FailedTracks(Step(s, e))
  {
    var t, a := Step(s, e), Actor(s, e);
    forall i | 0 <= i < |t.guards| && t.guards[i].Acts()
      ensures t.guards[i].failed <==> t.db.batch != Some(t.guards[i].id)
    {
      if i < |s.guards| {
        assert s.guards[i].Acts() && (s.guards[i].failed <==> s.db.batch != Some(s.guards[i].id));
        if 0 <= a != i && s.guards[a].Acts() {
          assert s.guards[a].id != s.guards[i].id;
        }
      }
    }
  }

  ghost predicate AllSafe<S>(s: State<S>, events: seq<Event<S>>, n: nat)
    requires n <= |events|
  {
    forall k | 0 <= k < n :: SafeStep(Run(s, events[..k]), events[k])
  }

  ghost predicate NeverCallsFailed<S>(s: State<S>, events: seq<Event<S>>, n: nat)
    requires n <= |events|
  {
    forall k | 0 <= k < n :: !CallsFailed(Run(s, events[..k]), events[k])
  }

  lemma RunNext<S>(s: State<S>, events: seq<Event<S>>, n: nat)
    requires n < |events|
    ensures Run(s, events[..n + 1]) == Step(Run(s, events[..n]), events[n])
  {
    assert events[..n + 1][..n] == events[..n];
  }

  lemma {:induction false} SafeRunKeepsTrack<S>(s: State<S>, events: seq<Event<S>>, n: nat)
    requires Initial(s) && n <= |events| && AllSafe(s, events, n)
    ensures FailedTracks(Run(s, events[..n]))
  {
    hide SafeStep, Step, FailedTracks, Run;
    if n == 0 {
      NothingTracked(s, events);
    } else {
      SafeRunKeepsTrack(s, events, n - 1);
      RunKeepsInv(s, events[..n - 1]);
      RunNext(s, events, n - 1);
      StepKeepsTrack(Run(s, events[..n - 1]), events[n - 1]);
    }
  }

  lemma NothingTracked<S>(s: State<S>, events: seq<Event<S>>)
    requires Initial(s)
    ensures FailedTracks(Run(s, events[..0]))
  {}

  /**
   Whatever guards are called and whatever fails: every batch is ended by the guard that started it, all or nothing,
   exactly if no guard is called after its commit failed half-way while another batch is in progress.
   */
  lemma {:induction false} RunSafeIff<S>(s: State<S>, events: seq<Event<S>>, n: nat)
    requires Initial(s) && n <= |events|
    ensures AllSafe(s, events, n) <==> NeverCallsFailed(s, events, n)
  {
    hide SafeStep, Step, Run, FailedTracks, CallsFailed;
    if n > 0 {
      RunSafeIff(s, events, n - 1);
      if AllSafe(s, events, n - 1) {
        var before := Run(s, events[..n - 1]);
        SafeRunKeepsTrack(s, events, n - 1);
        RunKeepsInv(s, events[..n - 1]);
        SafeStepIffNotFailed(before, events[n - 1]);
      }
    }
  }

  // Runs in which no commit fails half-way

  ghost predicate NoFailingCommit<S>(events: seq<Event<S>>) {
    forall k | 0 <= k < |events| :: events[k].Commit? ==> events[k].outcome != FailsInside
  }

  ghost predicate NoneStale<S>(s: State<S>) {
    forall i | 0 <= i < |s.guards| && s.guards[i].Acts() :: s.db.batch == Some(s.guards[i].id)
  }

  lemma StepKeepsNoneStale<S>(s: State<S>, e: Event<S>)
    requires Inv(s) && NoneStale(s) && !(e.Commit? && e.outcome == FailsInside)
    ensures NoneStale(Step(s, e))
  {
    var t := Step(s, e);
    forall i | 0 <= i < |t.guards| && t.guards[i].Acts()
      ensures t.db.batch == Some(t.guards[i].id)
    {
      var a := Actor(s, e);
      if i < |s.guards| && a >= 0 && i != a {
        assert s.guards[i].Acts() && s.db.batch == Some(s.guards[i].id);
      }
    }
  }

  lemma {:induction false} RunKeepsNoneStale<S>(s: State<S>, events: seq<Event<S>>)
    requires Initial(s) && NoFailingCommit(events)
    ensures NoneStale(Run(s, events))
  {
    hide Step;
    if |events| > 0 {
      var n := |events| - 1;
      RunKeepsNoneStale(s, events[..n]);
      RunKeepsInv(s, events[..n]);
      StepKeepsNoneStale(Run(s, events[..n]), events[n]);
    }
  }

  /** Whatever guards are called, if no commit fails half-way, every step of the run is safe. */
  lemma SafeWithoutFailingCommit<S>(s: State<S>, events: seq<Event<S>>, k: nat)
    requires Initial(s) && NoFailingCommit(events) && k < |events|
    ensures SafeStep(Run(s, events[..k]), events[k])
  {
    hide SafeStep, Step, Run;
    RunKeepsInv(s, events[..k]);
    RunKeepsNoneStale(s, events[..k]);
    SafeStepIff(Run(s, events[..k]), events[k]);
  }

  // Runs in which commits may fail, but only the innermost guard is called and aborts do what they can

  ghost predicate CallsInnermost<S>(s: State<S>, e: Event<S>) {
    && (Actor(s, e) >= 0 ==> Actor(s, e) == |s.guards| - 1)
    && ((e.Abort? || e.Leave?) ==> e.outcome != FailsBefore)
  }

  ghost predicate Disciplined<S>(s: State<S>, events: seq<Event<S>>) {
    forall k | 0 <= k < |events| :: CallsInnermost(Run(s, events[..k]), events[k])
  }

  /** The last guard that started a batch, or -1. */
  function LastOwner<S>(guards: seq<Guard<S>>): (i: int)
    ensures -1 <= i < |guards|
    ensures i >= 0 ==> guards[i].batch
  {
    if |guards| == 0 then -1
    else var last := |guards| - 1; if guards[last].batch then last else LastOwner(guards[..last])
  }

  /** A batch in progress belongs to the last guard that started one. */
  ghost predicate LastOwns<S>(s: State<S>) {
    var i := LastOwner(s.guards);
    i >= 0 && s.db.batch.Some? ==> s.db.batch.value == s.guards[i].id
  }

  lemma LastOwnerOpened<S>(guards: seq<Guard<S>>, g: Guard<S>)
    ensures LastOwner(guards + [g]) == if g.batch then |guards| else LastOwner(guards)
  {
    assert (guards + [g])[..|guards|] == guards;
  }

  lemma LastOwnerCalled<S>(guards: seq<Guard<S>>, g: Guard<S>)
    requires |guards| > 0 && SameBatch(guards[|guards| - 1], g)
    ensures LastOwner(guards[|guards| - 1 := g]) == LastOwner(guards)
  {
    var last := |guards| - 1;
    assert guards[last := g][..last] == guards[..last];
  }

  lemma StepKeepsLastOwns<S>(s: State<S>, e: Event<S>)
    requires Inv(s) && LastOwns(s) && CallsInnermost(s, e)
    ensures LastOwns(Step(s, e))
  {
    var t, last := Step(s, e), |s.guards| - 1;
    match e
    case Open =>
      LastOwnerOpened(s.guards, Opened(s.db));
    case Write(_) =>
    case Leave(_) =>
      if last >= 0 && s.guards[last].batch {
        LastLeaves(s, e);
      }
    case _ =>
      hide LastOwner, Inv;
      if Actor(s, e) >= 0 {
        CallEffect(s, last, e);
        if t != s {
          LastOwnerCalled(s.guards, t.guards[last]);
        }
      }
  }

  /** A guard that started a batch and is the last to do so leaves none in progress. */
  lemma LastLeaves<S>(s: State<S>, e: Event<S>)
    requires Inv(s) && LastOwns(s) && CallsInnermost(s, e) && e.Leave?
    requires |s.guards| > 0 && s.guards[|s.guards| - 1].batch
    ensures Step(s, e).db.batch.None?
  {
    var last := |s.guards| - 1;
    if s.db.batch.Some? {
      assert s.db.batch == Some(s.guards[last].id);
    }
  }

  lemma {:induction false} RunKeepsLastOwns<S>(s: State<S>, events: seq<Event<S>>)
    requires Inv(s) && LastOwns(s) && Disciplined(s, events)
    ensures LastOwns(Run(s, events))
  {
    hide Step, CallsInnermost;
    if |events| > 0 {
      var n := |events| - 1;
      assert Disciplined(s, events[..n]) by {
        forall k | 0 <= k < n
          ensures CallsInnermost(Run(s, events[..n][..k]), events[..n][k])
        {
          assert events[..n][..k] == events[..k];
        }
      }
      RunKeepsLastOwns(s, events[..n]);
      RunKeepsInv(s, events[..n]);
      StepKeepsLastOwns(Run(s, events[..n]), events[n]);
    }
  }

  /** If only innermost guards are called and aborts succeed, every step is safe, however commits fail. */
  lemma SafeWithInnermostCalls<S>(s: State<S>, events: seq<Event<S>>, k: nat)
    requires Initial(s) && Disciplined(s, events) && k < |events|
    ensures SafeStep(Run(s, events[..k]), events[k])
  {
    hide SafeStep, Step, Run;
    var before := events[..k];
    forall i | 0 <= i < |before|
      ensures CallsInnermost(Run(s, before[..i]), before[i])
    {
      assert before[..i] == events[..i];
    }
    RunKeepsInv(s, before);
    RunKeepsLastOwns(s, before);
    assert CallsInnermost(Run(s, events[..k]), events[k]);
    SafeStepIff(Run(s, before), events[k]);
  }

  /**
   A disciplined scope in which nothing is stored leaves no batch behind and restores what was visible, even
   after a commit that failed half-way.
   */
  lemma DisciplinedScopeRestores<S>(s: State<S>, body: seq<Event<S>>, o: Outcome)
    requires Inv(s) && LastOwns(s) && s.db.batch.None? && Touches(o)
    requires Disciplined(Step(s, Open), body) && NothingStored(Step(s, Open), body)
    requires StaysInside(Step(s, Open), body, |s.guards|) && |Run(Step(s, Open), body).guards| == |s.guards| + 1
    ensures var t := Step(Run(Step(s, Open), body), Leave(o));
            t.db.batch.None? && t.db.Visible() == s.db.Visible()
  {
    hide Run, Disciplined, NothingStored, StaysInside, LastOwns;
    var u := Step(s, Open);
    OpenKeepsInv(s);
    StepKeepsLastOwns(s, Open);
    RunKeepsInv(u, body);
    RunKeepsLastOwns(u, body);
    GuardStays(u, body, |s.guards|);
    LastLeaves(Run(u, body), Leave(o));
    ScopeRestores(s, body, o);
  }

  // Neither condition can be dropped

  /** A guard whose commit failed, and the batch of an inner guard. */
  ghost function AfterFailingCommit(): State<int> {
    State(Db(0, 0, Some(1), 2), [Guard(true, true, true, 0, 0), Guard(true, true, false, 1, 0)])
  }

  lemma FailingCommit()
    ensures Run(State(Db(0, 0, None, 0), []), [Open, Commit(0, FailsInside), Open]) == AfterFailingCommit()
  {
    var s := State(Db(0, 0, None, 0), []);
    RunThree(s, Open, Commit(0, FailsInside), Open);
    var s1 := Step(s, Open);
    assert s1 == State(Db(0, 0, Some(0), 1), [Guard(true, true, false, 0, 0)]);
    var s2 := Step(s1, Commit(0, FailsInside));
    assert s2 == State(Db(0, 0, None, 1), [Guard(true, true, true, 0, 0)]);
  }

  /** After a failing commit the guard still believes in its batch and ends the one of an inner guard. */
  lemma OuterGuardEndsInnerBatch()
    ensures !SafeStep(Run(State(Db(0, 0, None, 0), []), [Open, Commit(0, FailsInside), Open]), Commit(0, Ok))
  {
    hide Run;
    FailingCommit();
  }

  /** If the inner guard cannot abort, its batch is left to the outer one. */
  lemma OuterGuardInheritsBatch()
    ensures var s := Run(State(Db(0, 0, None, 0), []), [Open, Commit(0, FailsInside), Open]);
            !SafeStep(Step(s, Leave(FailsBefore)), Leave(Ok))
  {
    hide Run;
    FailingCommit();
    assert Step(AfterFailingCommit(), Leave(FailsBefore))
           == State(Db(0, 0, Some(1), 2), [Guard(true, true, true, 0, 0)]);
  }

  lemma RunThree<S>(s: State<S>, a: Event<S>, b: Event<S>, c: Event<S>)
    ensures Run(s, [a, b, c]) == Step(Step(Step(s, a), b), c)
  {
    hide Step;
    assert [a, b, c][..2] == [a, b] && [a, b][..1] == [a];
    assert Run(s, [a]) == Step(s, a);
    assert Run(s, [a, b]) == Step(Step(s, a), b);
  }
}
