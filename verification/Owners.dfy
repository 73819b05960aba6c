/** Switching people off and changing their roles at once: the row locks that keep a shop from losing its last owner. */
module Owners {
  import Runs

  type User = nat
  type TxId = nat

  datatype Outcome = Committed | NoSuchUser | LastOwner | Aborted

  /** How somebody has the owner's role: not at all, as their main role, or as another they hold. */
  datatype Held = NotHeld | AsMain | AsAnother

  /** What a transaction is to do: switch its target off, or leave them with their roles changed. */
  datatype Job = SwitchOff | SetRoles(held: Held)

  /**
   * A transaction from one statement to the next. A role change has a snapshot, with whether the role was held as
   * another, before it gets its target's row; others is what OtherOwners has counted and locked.
   */
  datatype Tx =
    | Begun(job: Job, target: User)
    | Snapped(job: Job, target: User, another: bool)
    | RoleRead(job: Job, target: User)
    | Counting(job: Job, target: User, left: set<User>, others: set<User>)
    | Cleared(job: Job, target: User, others: set<User>)
    | Updated(job: Job, target: User, others: set<User>)
    | Done(job: Job, target: User, outcome: Outcome)

  /** What is committed, in the two tables roles are in, who holds which row's lock, and every transaction begun. */
  datatype State = State(
    active: map<User, bool>, main: set<User>, another: set<User>, locks: map<User, TxId>, txs: map<TxId, Tx>)

  datatype Step =
    | Begin(t: TxId, job: Job, target: User)
    | Snap(t: TxId)
    | ReadRole(t: TxId)
    | StartCount(t: TxId)
    | LockNext(t: TxId, u: User, keep: bool)
    | Decide(t: TxId)
    | Update(t: TxId)
    | Commit(t: TxId)
    | Abort(t: TxId)
    | Reactivate(u: User)
    | AddStaff(u: User, owner: bool)

  /** Who has the owner's role, as their main one or another. */
  function OwnersOf(s: State): set<User> {
    s.main + s.another
  }

  predicate ActiveOwner(s: State, u: User) {
    u in s.active && s.active[u] && u in OwnersOf(s)
  }

  /** The rows OtherOwners asks for, in the statement's snapshot. */
  function OtherOwners(s: State, target: User): set<User> {
    set u | u in s.active && ActiveOwner(s, u) && u != target
  }

  predicate Free(s: State, u: User, t: TxId) {
    u in s.locks ==> s.locks[u] == t
  }

  predicate HeldBy(s: State, u: User, t: TxId) {
    u in s.locks && s.locks[u] == t
  }

  /** Whether the job would take the owner's role, or its use, away. */
  predicate Takes(job: Job) {
    job == SwitchOff || job == SetRoles(NotHeld)
  }

  /** Switching off reads the role without a lock; changing roles waits for the row after its snapshot. */
  predicate CanRead(s: State, t: TxId, tx: Tx) {
    if tx.job.SwitchOff? then tx.Begun? else tx.Snapped? && Free(s, tx.target, t)
  }

  predicate Enabled(s: State, step: Step) {
    match step
    case Begin(t, _, _) => t !in s.txs
    case Snap(t) => t in s.txs && s.txs[t].Begun? && s.txs[t].job.SetRoles?
    case ReadRole(t) => t in s.txs && CanRead(s, t, s.txs[t])
    case StartCount(t) => t in s.txs && s.txs[t].RoleRead?
    case LockNext(t, u, _) => t in s.txs && s.txs[t].Counting? && u in s.txs[t].left && Free(s, u, t) && u in s.active
    case Decide(t) => t in s.txs && s.txs[t].Counting? && s.txs[t].left == {}
    case Update(t) => t in s.txs && s.txs[t].Cleared? && Free(s, s.txs[t].target, t)
    case Commit(t) => t in s.txs && s.txs[t].Updated?
    case Abort(t) => t in s.txs && !s.txs[t].Done?
    case Reactivate(u) => u in s.active && u !in s.locks
    case AddStaff(u, _) => u !in s.active && u !in OwnersOf(s)
  }

  /** The rows a transaction holds. */
  function RowsOf(s: State, t: TxId): set<User> {
    set u | u in s.locks && HeldBy(s, u, t)
  }

  /** A transaction ends, and its locks with it. */
  function Ended(s: State, t: TxId, outcome: Outcome): State
    requires t in s.txs
  {
    s.(locks := s.locks - RowsOf(s, t),
       txs := s.txs[t := Done(s.txs[t].job, s.txs[t].target, outcome)])
  }

  /** What a job's commit makes visible. */
  function Effect(s: State, job: Job, target: User): State {
    match job
    case SwitchOff => s.(active := s.active[target := false])
    case SetRoles(held) =>
      s.(main := if held.AsMain? then s.main + {target} else s.main - {target},
         another := if held.AsAnother? then s.another + {target} else s.another - {target})
  }

  function AfterSnap(s: State, t: TxId, tx: Tx): State
    requires t in s.txs && tx.Begun?
  {
    if tx.target !in s.active then Ended(s, t, NoSuchUser)
    else s.(txs := s.txs[t := Snapped(tx.job, tx.target, tx.target in s.another)])
  }

  /**
   * What a transaction takes its target to be. The row is looked at again once its lock is held, and the main role is
   * in the row; other roles are not, and stay as they were in the snapshot.
   */
  predicate ReadAsOwner(s: State, tx: Tx) {
    if tx.Snapped? then tx.target in s.main || tx.another else tx.target in OwnersOf(s)
  }

  function AfterRead(s: State, t: TxId, tx: Tx): State
    requires t in s.txs && CanRead(s, t, tx)
  {
    var locked := if tx.Snapped? then s.(locks := s.locks[tx.target := t]) else s;
    if tx.target !in s.active then Ended(s, t, NoSuchUser)
    else if Takes(tx.job) && ReadAsOwner(s, tx) then locked.(txs := s.txs[t := RoleRead(tx.job, tx.target)])
    else locked.(txs := s.txs[t := Cleared(tx.job, tx.target, {})])
  }

  function AfterLock(s: State, t: TxId, u: User, keep: bool): State
    requires t in s.txs && s.txs[t].Counting? && u in s.active
  {
    // Looked at again, the user may have been switched off since the snapshot; their role is read in the snapshot.
    var tx := s.txs[t];
    var counted := if s.active[u] then tx.others + {u} else tx.others;
    s.(locks := if s.active[u] || keep then s.locks[u := t] else s.locks,
       txs := s.txs[t := Counting(tx.job, tx.target, tx.left - {u}, counted)])
  }

  function Apply(s: State, step: Step): State
    requires Enabled(s, step)
  {
    match step
    case Begin(t, job, target) => s.(txs := s.txs[t := Begun(job, target)])
    case Snap(t) => AfterSnap(s, t, s.txs[t])
    case ReadRole(t) => AfterRead(s, t, s.txs[t])
    case StartCount(t) =>
      var tx := s.txs[t];
      s.(txs := s.txs[t := Counting(tx.job, tx.target, OtherOwners(s, tx.target), {})])
    case LockNext(t, u, keep) => AfterLock(s, t, u, keep)
    case Decide(t) =>
      var tx := s.txs[t];
      if tx.others == {} then Ended(s, t, LastOwner) else s.(txs := s.txs[t := Cleared(tx.job, tx.target, tx.others)])
    case Update(t) =>
      var tx := s.txs[t];
      s.(locks := s.locks[tx.target := t], txs := s.txs[t := Updated(tx.job, tx.target, tx.others)])
    case Commit(t) => Ended(Effect(s, s.txs[t].job, s.txs[t].target), t, Committed)
    case Abort(t) => Ended(s, t, Aborted)
    case Reactivate(u) => s.(active := s.active[u := true])
    case AddStaff(u, owner) => s.(active := s.active[u := true], main := if owner then s.main + {u} else s.main)
  }

  /** Steps that cannot happen, or would have to wait, are passed over. */
  function Next(s: State, step: Step): State {
    if Enabled(s, step) then Apply(s, step) else s
  }

  function Run(s: State, steps: seq<Step>): State {
    Runs.Run(Next, s, steps)
  }

  function Init(active: map<User, bool>, main: set<User>, another: set<User>): State {
    State(active, main, another, map[], map[])
  }

  ghost predicate SomeOwner(s: State) {
    exists u :: ActiveOwner(s, u)
  }

  /** A shop to begin with: whoever has the owner's role exists, and one of them can sign in. */
  ghost predicate Opens(s: State) {
    OwnersOf(s) <= s.active.Keys && SomeOwner(s)
  }

  // ---------- What has to be quiet when a role changes

  /** Whether a transaction that counts has counted somebody, or has listed somebody who is no owner any more. */
  predicate CountsInError(s: State, tx: Tx) {
    match tx
    case Counting(_, _, left, others) => others != {} || !(left <= OwnersOf(s))
    case Cleared(_, _, others) => others != {}
    case Updated(_, _, others) => others != {}
    case _ => false
  }

  /**
   * What a transaction has read is not so any more, in a way that matters: its target was read as no owner and is one,
   * or a switch-off has counted nobody yet and listed somebody who is no owner, or a role change counts in error while
   * nobody but its target is an active owner.
   */
  predicate Misled(s: State, t: TxId) {
    t in s.txs &&
    match s.txs[t]
    case Snapped(job, u, another) => Takes(job) && !another && u in s.another - s.main
    case Cleared(SwitchOff, u, others) => others == {} && u in OwnersOf(s)
    case Counting(SwitchOff, _, left, others) => others == {} && !(left <= OwnersOf(s))
    case _ =>
      s.txs[t].job == SetRoles(NotHeld) && CountsInError(s, s.txs[t]) && OtherOwners(s, s.txs[t].target) == {}
  }

  /** A role change commits at a quiet moment if it misleads nobody. Every other step is quiet. */
  predicate Quiet(s: State, step: Step) {
    step.Commit? && Enabled(s, step) && s.txs[step.t].job.SetRoles? ==>
      forall t :: t in s.txs && Misled(Apply(s, step), t) ==> Misled(s, t)
  }

  ghost predicate QuietRun(s: State, steps: seq<Step>) {
    steps == [] ||
    (QuietRun(s, steps[..|steps| - 1]) && Quiet(Run(s, steps[..|steps| - 1]), steps[|steps| - 1]))
  }

  // ---------- Safety

  /** Somebody a transaction has counted is locked by it, and so still an active owner. */
  ghost predicate Guarded(s: State, t: TxId, target: User, others: set<User>) {
    others == {} || exists o :: o in others && HeldBy(s, o, t) && ActiveOwner(s, o) && o != target
  }

  ghost predicate TxInv(s: State, t: TxId, tx: Tx) {
    (!tx.Begun? && !tx.Done? ==> tx.target in s.active) &&
    (tx.job.SetRoles? && !tx.Begun? && !tx.Snapped? && !tx.Done? ==> HeldBy(s, tx.target, t)) &&
    match tx
    case Begun(_, _) => true
    case Snapped(_, _, _) => true
    case RoleRead(_, _) => true
    case Counting(job, target, left, others) => target !in left && (job.SwitchOff? ==> Guarded(s, t, target, others))
    case Cleared(job, target, others) =>
      if job.SwitchOff? then Guarded(s, t, target, others)
      else others == {} && Takes(job) ==> target !in OwnersOf(s)
    case Updated(job, target, others) =>
      HeldBy(s, target, t) && (others == {} && Takes(job) ==> target !in OwnersOf(s)) &&
      (job.SwitchOff? ==> Guarded(s, t, target, others))
    case Done(_, _, _) => forall u :: u in s.locks ==> s.locks[u] != t
  }

  ghost predicate Inv(s: State) {
    Opens(s) && (forall u :: u in s.locks ==> s.locks[u] in s.txs && u in s.active) &&
    forall t :: t in s.txs ==> TxInv(s, t, s.txs[t]) && !Misled(s, t)
  }

  /** What a transaction holds a lock on keeps what the transaction relies on true. */
  lemma StillHeld(s: State, s': State, t: TxId, tx: Tx)
    requires TxInv(s, t, tx)
    requires s.active.Keys <= s'.active.Keys
    requires forall u :: HeldBy(s, u, t) ==> HeldBy(s', u, t) && (u in OwnersOf(s) <==> u in OwnersOf(s'))
    requires forall u :: HeldBy(s, u, t) && ActiveOwner(s, u) ==> ActiveOwner(s', u)
    requires tx.Done? ==> forall u :: u in s'.locks ==> s'.locks[u] != t
    ensures TxInv(s', t, tx)
  {
    hide OwnersOf, ActiveOwner;
  }

  /** One transaction moves on, at most its own target changes, and nobody else is misled. */
  lemma MovedOn(s: State, s': State, t: TxId)
    requires Inv(s) && t in s.txs && s'.txs.Keys == s.txs.Keys && !s.txs[t].Done?
    requires s'.active.Keys == s.active.Keys
    requires forall i :: i in s.txs && i != t ==> s'.txs[i] == s.txs[i] && !Misled(s', i)
    requires forall u :: u in s.locks && s.locks[u] != t ==> HeldBy(s', u, s.locks[u])
    requires forall u :: u in s'.locks && s'.locks[u] != t ==> HeldBy(s, u, s'.locks[u])
    requires s'.locks.Keys <= s'.active.Keys
    requires forall u :: u in s.active && s'.active[u] != s.active[u] ==> HeldBy(s, u, t)
    requires forall u :: u in OwnersOf(s) && u !in OwnersOf(s') ==> HeldBy(s, u, t)
    requires forall u :: u in OwnersOf(s') && u !in OwnersOf(s) ==> HeldBy(s, u, t)
    requires TxInv(s', t, s'.txs[t]) && !Misled(s', t) && Opens(s')
    ensures Inv(s')
  {
    hide SomeOwner, Misled, OwnersOf, Opens;
    forall i | i in s'.txs && i != t ensures TxInv(s', i, s'.txs[i]) {
      StillHeld(s, s', i, s.txs[i]);
    }
  }

  /** Nobody is misled by what does not change people or their roles. */
  lemma SameForOthers(s: State, s': State, i: TxId)
    requires s'.active == s.active && s'.main == s.main && s'.another == s.another
    requires i in s.txs && i in s'.txs && s'.txs[i] == s.txs[i]
    ensures Misled(s', i) <==> Misled(s, i)
  {
    assert OtherOwners(s', s.txs[i].target) == OtherOwners(s, s.txs[i].target);
  }

  /** One transaction moves on and changes nobody. */
  lemma MovedAlone(s: State, s': State, t: TxId)
    requires Inv(s) && t in s.txs && s'.txs.Keys == s.txs.Keys && !s.txs[t].Done?
    requires s'.active == s.active && s'.main == s.main && s'.another == s.another
    requires forall i :: i in s.txs && i != t ==> s'.txs[i] == s.txs[i]
    requires forall u :: u in s.locks && s.locks[u] != t ==> HeldBy(s', u, s.locks[u])
    requires forall u :: u in s'.locks && s'.locks[u] != t ==> HeldBy(s, u, s'.locks[u])
    requires s'.locks.Keys <= s'.active.Keys
    requires TxInv(s', t, s'.txs[t]) && !Misled(s', t)
    ensures Inv(s')
  {
    hide Misled, TxInv;
    forall i | i in s.txs && i != t ensures !Misled(s', i) {
      SameForOthers(s, s', i);
    }
    OwnersStay(s, s');
    hide SomeOwner, ActiveOwner;
    MovedOn(s, s', t);
  }

  lemma OwnersStay(s: State, s': State)
    requires SomeOwner(s) && OwnersOf(s) <= OwnersOf(s')
    requires forall u :: u in s.active && s.active[u] ==> u in s'.active && s'.active[u]
    ensures SomeOwner(s')
  {
    var u :| ActiveOwner(s, u);
    assert ActiveOwner(s', u);
  }

  /** An active owner besides the target is left, if the target's going matters. */
  lemma AnotherLeft(s: State, t: TxId) returns (o: User)
    requires Inv(s) && t in s.txs && s.txs[t].Updated? && s.txs[t].others != {} && Takes(s.txs[t].job)
    ensures ActiveOwner(s, o) && o != s.txs[t].target
    ensures s.txs[t].job.SwitchOff? ==> HeldBy(s, o, t)
  {
    var tx := s.txs[t];
    assert TxInv(s, t, tx) && !Misled(s, t);
    if tx.job.SwitchOff? {
      o :| o in tx.others && HeldBy(s, o, t) && ActiveOwner(s, o) && o != tx.target;
    } else {
      o :| o in OtherOwners(s, tx.target);
    }
  }

  /** Whatever a commit takes away, an active owner is left. */
  lemma CommitLeavesOwner(s: State, t: TxId)
    requires Inv(s) && Enabled(s, Commit(t))
    ensures SomeOwner(Apply(s, Commit(t)))
  {
    var s', tx := Apply(s, Commit(t)), s.txs[t];
    assert TxInv(s, t, tx);
    if tx.others != {} && Takes(tx.job) {
      var o := AnotherLeft(s, t);
      assert ActiveOwner(s', o);
    } else {
      var u :| ActiveOwner(s, u);
      assert ActiveOwner(s', u);
    }
  }

  /** Switching off leaves the one it has locked, who is no role change's target. */
  lemma SwitchOffMisleadsNobody(s: State, t: TxId, i: TxId)
    requires Inv(s) && Enabled(s, Commit(t)) && s.txs[t].job.SwitchOff? && i in s.txs && i != t
    ensures !Misled(Apply(s, Commit(t)), i)
  {
    var s', tx, other := Apply(s, Commit(t)), s.txs[t], s.txs[i];
    assert !Misled(s, i) && TxInv(s, i, other) && TxInv(s, t, tx);
    if tx.others != {} {
      var o := AnotherLeft(s, t);
      assert o in OtherOwners(s', other.target) || o == other.target;
    } else {
      assert OtherOwners(s', other.target) == OtherOwners(s, other.target);
    }
  }

  lemma CommitKeepsInv(s: State, t: TxId)
    requires Inv(s) && Enabled(s, Commit(t)) && Quiet(s, Commit(t))
    ensures Inv(Apply(s, Commit(t)))
  {
    hide SomeOwner;
    CommitLeavesOwner(s, t);
    var s', tx := Apply(s, Commit(t)), s.txs[t];
    assert TxInv(s, t, tx);
    assert TxInv(s', t, s'.txs[t]);
    forall i | i in s.txs && i != t ensures !Misled(s', i) {
      if tx.job.SwitchOff? {
        SwitchOffMisleadsNobody(s, t, i);
      }
    }
    assert !Misled(s', t);
    hide Inv, TxInv, Misled;
    MovedOn(s, s', t);
  }

  lemma LockNextKeepsInv(s: State, t: TxId, u: User, keep: bool)
    requires Inv(s) && Enabled(s, LockNext(t, u, keep))
    ensures Inv(Apply(s, LockNext(t, u, keep)))
  {
    var s', tx := Apply(s, LockNext(t, u, keep)), s.txs[t];
    assert TxInv(s, t, tx) && !Misled(s, t);
    assert OtherOwners(s', tx.target) == OtherOwners(s, tx.target);
    CountedKeepsInv(s, t, u, keep);
    hide Inv, TxInv, Misled, SomeOwner;
    MovedAlone(s, s', t);
  }

  lemma CountedKeepsInv(s: State, t: TxId, u: User, keep: bool)
    requires Inv(s) && Enabled(s, LockNext(t, u, keep))
    ensures var s' := Apply(s, LockNext(t, u, keep)); TxInv(s', t, s'.txs[t]) && !Misled(s', t)
  {
    var s', tx := Apply(s, LockNext(t, u, keep)), s.txs[t];
    assert TxInv(s, t, tx) && !Misled(s, t);
    assert OtherOwners(s', tx.target) == OtherOwners(s, tx.target);
    if tx.others == {} && tx.left <= OwnersOf(s) && s.active[u] {
      assert u in OtherOwners(s, tx.target);
      assert HeldBy(s', u, t) && ActiveOwner(s', u);
    }
  }

  lemma EndedKeepsInv(s: State, t: TxId, outcome: Outcome)
    requires Inv(s) && t in s.txs && !s.txs[t].Done?
    ensures Inv(Ended(s, t, outcome))
  {
    var s' := Ended(s, t, outcome);
    assert TxInv(s', t, s'.txs[t]) && !Misled(s', t);
    hide Inv, TxInv, Misled, SomeOwner;
    MovedAlone(s, s', t);
  }

  lemma SnapKeepsInv(s: State, t: TxId)
    requires Inv(s) && Enabled(s, Snap(t))
    ensures Inv(Apply(s, Snap(t)))
  {
    if s.txs[t].target !in s.active {
      EndedKeepsInv(s, t, NoSuchUser);
    } else {
      var s' := Apply(s, Snap(t));
      assert TxInv(s', t, s'.txs[t]) && !Misled(s', t);
      hide Inv, TxInv, Misled, SomeOwner;
      MovedAlone(s, s', t);
    }
  }

  lemma ReadRoleKeepsInv(s: State, t: TxId)
    requires Inv(s) && Enabled(s, ReadRole(t))
    ensures Inv(Apply(s, ReadRole(t)))
  {
    if s.txs[t].target !in s.active {
      EndedKeepsInv(s, t, NoSuchUser);
    } else {
      var s' := Apply(s, ReadRole(t));
      assert TxInv(s, t, s.txs[t]) && !Misled(s, t);
      assert TxInv(s', t, s'.txs[t]) && !Misled(s', t);
      hide Inv, TxInv, Misled, SomeOwner;
      MovedAlone(s, s', t);
    }
  }

  lemma StartCountKeepsInv(s: State, t: TxId)
    requires Inv(s) && Enabled(s, StartCount(t))
    ensures Inv(Apply(s, StartCount(t)))
  {
    var s' := Apply(s, StartCount(t));
    assert TxInv(s, t, s.txs[t]);
    assert s'.txs[t].left <= OwnersOf(s');
    assert TxInv(s', t, s'.txs[t]) && !Misled(s', t);
    hide Inv, TxInv, Misled, SomeOwner;
    MovedAlone(s, s', t);
  }

  lemma DecideKeepsInv(s: State, t: TxId)
    requires Inv(s) && Enabled(s, Decide(t))
    ensures Inv(Apply(s, Decide(t)))
  {
    if s.txs[t].others == {} {
      EndedKeepsInv(s, t, LastOwner);
    } else {
      var s' := Apply(s, Decide(t));
      assert TxInv(s, t, s.txs[t]) && !Misled(s, t);
      assert OtherOwners(s', s.txs[t].target) == OtherOwners(s, s.txs[t].target);
      assert TxInv(s', t, s'.txs[t]) && !Misled(s', t);
      hide Inv, TxInv, Misled, SomeOwner;
      MovedAlone(s, s', t);
    }
  }

  lemma UpdateKeepsInv(s: State, t: TxId)
    requires Inv(s) && Enabled(s, Update(t))
    ensures Inv(Apply(s, Update(t)))
  {
    var s' := Apply(s, Update(t));
    assert TxInv(s, t, s.txs[t]) && !Misled(s, t);
    assert OtherOwners(s', s.txs[t].target) == OtherOwners(s, s.txs[t].target);
    assert TxInv(s', t, s'.txs[t]) && !Misled(s', t);
    hide Inv, TxInv, Misled, SomeOwner;
    MovedAlone(s, s', t);
  }

  lemma BeginKeepsInv(s: State, step: Step)
    requires Inv(s) && Enabled(s, step) && step.Begin?
    ensures Inv(Apply(s, step))
  {
    var s' := Apply(s, step);
    OwnersStay(s, s');
    forall i | i in s.txs ensures TxInv(s', i, s.txs[i]) && !Misled(s', i) {
      assert TxInv(s, i, s.txs[i]) && !Misled(s, i);
      StillHeld(s, s', i, s.txs[i]);
      SameForOthers(s, s', i);
    }
    hide SomeOwner;
  }

  /** Somebody switched on or hired, even as an owner, misleads nobody. */
  lemma MoreMisleadNobody(s: State, step: Step, i: TxId)
    requires Inv(s) && Enabled(s, step) && (step.Reactivate? || step.AddStaff?) && i in s.txs
    ensures !Misled(Apply(s, step), i)
  {
    var s', target := Apply(s, step), s.txs[i].target;
    assert !Misled(s, i) && TxInv(s, i, s.txs[i]);
    assert OtherOwners(s, target) <= OtherOwners(s', target);
  }

  lemma MoreKeepInv(s: State, step: Step)
    requires Inv(s) && Enabled(s, step) && (step.Reactivate? || step.AddStaff?)
    ensures Inv(Apply(s, step))
  {
    var s' := Apply(s, step);
    OwnersStay(s, s');
    hide SomeOwner, Misled;
    forall i | i in s.txs ensures TxInv(s', i, s.txs[i]) && !Misled(s', i) {
      assert TxInv(s, i, s.txs[i]);
      StillHeld(s, s', i, s.txs[i]);
      MoreMisleadNobody(s, step, i);
    }
  }

  lemma StepKeepsInv(s: State, step: Step)
    requires Inv(s) && Enabled(s, step) && Quiet(s, step)
    ensures Inv(Apply(s, step))
  {
    hide Inv;
    match step
    case Begin(_, _, _) => BeginKeepsInv(s, step);
    case Snap(t) => SnapKeepsInv(s, t);
    case ReadRole(t) => ReadRoleKeepsInv(s, t);
    case StartCount(t) => StartCountKeepsInv(s, t);
    case LockNext(t, u, keep) => LockNextKeepsInv(s, t, u, keep);
    case Decide(t) => DecideKeepsInv(s, t);
    case Update(t) => UpdateKeepsInv(s, t);
    case Commit(t) => CommitKeepsInv(s, t);
    case Abort(t) => EndedKeepsInv(s, t, Aborted);
    case Reactivate(_) => MoreKeepInv(s, step);
    case AddStaff(_, _) => MoreKeepInv(s, step);
  }

  lemma {:induction false} QuietRunKeepsInv(s: State, steps: seq<Step>)
    requires Inv(s) && QuietRun(s, steps)
    ensures Inv(Run(s, steps))
  {
    hide Inv, Apply, Enabled, Quiet;
    if steps != [] {
      QuietRunKeepsInv(s, steps[..|steps| - 1]);
      var before := Run(s, steps[..|steps| - 1]);
      if Enabled(before, steps[|steps| - 1]) {
        StepKeepsInv(before, steps[|steps| - 1]);
      }
    }
  }

  lemma EveryQuietRun(active: map<User, bool>, main: set<User>, another: set<User>, steps: seq<Step>)
    requires Opens(Init(active, main, another)) && QuietRun(Init(active, main, another), steps)
    ensures Inv(Run(Init(active, main, another), steps))
  {
    InitInv(active, main, another);
    QuietRunKeepsInv(Init(active, main, another), steps);
  }

  lemma InitInv(active: map<User, bool>, main: set<User>, another: set<User>)
    requires Opens(Init(active, main, another))
    ensures Inv(Init(active, main, another))
  {
    hide Opens;
  }

  /**
   * However transactions that switch off and change roles interleave, wait and are aborted, somebody can still sign in
   * as owner, as long as the role changes commit at quiet moments.
   */
  lemma AlwaysAnOwner(active: map<User, bool>, main: set<User>, another: set<User>, steps: seq<Step>)
    requires Opens(Init(active, main, another)) && QuietRun(Init(active, main, another), steps)
    ensures SomeOwner(Run(Init(active, main, another), steps))
  {
    EveryQuietRun(active, main, another, steps);
  }

  /** No role change is begun, and none of those excepted commits. */
  predicate RolesFixed(steps: seq<Step>, except: set<TxId>) {
    forall step :: step in steps ==>
      !(step.Begin? && step.job.SetRoles?) && !(step.Commit? && step.t in except)
  }

  /** Whatever is under way switches off, but for the exceptions. */
  predicate NoRoleChange(s: State, except: set<TxId>) {
    forall t :: t in s.txs && !s.txs[t].Done? && t !in except ==> s.txs[t].job.SwitchOff?
  }

  lemma {:induction false} FixedRolesAreQuiet(s: State, steps: seq<Step>, except: set<TxId>)
    requires RolesFixed(steps, except) && NoRoleChange(s, except)
    ensures QuietRun(s, steps) && NoRoleChange(Run(s, steps), except)
  {
    hide Apply, Enabled, Quiet, NoRoleChange;
    if steps != [] {
      var before, last := Run(s, steps[..|steps| - 1]), steps[|steps| - 1];
      FixedRolesAreQuiet(s, steps[..|steps| - 1], except);
      FixedRolesStay(before, last, except);
      assert Run(s, steps) == Next(before, last);
    }
  }

  lemma FixedRolesStay(s: State, step: Step, except: set<TxId>)
    requires NoRoleChange(s, except)
    requires !(step.Begin? && step.job.SetRoles?) && !(step.Commit? && step.t in except)
    ensures Quiet(s, step) && NoRoleChange(Next(s, step), except)
  {
    hide Misled;
  }

  /** While nobody's roles are changed nothing has to be quiet: two owners cannot both switch the other off. */
  lemma AlwaysAnOwnerWithFixedRoles(active: map<User, bool>, main: set<User>, another: set<User>, steps: seq<Step>)
    requires Opens(Init(active, main, another)) && RolesFixed(steps, {})
    ensures SomeOwner(Run(Init(active, main, another), steps))
  {
    FixedRolesAreQuiet(Init(active, main, another), steps, {});
    AlwaysAnOwner(active, main, another, steps);
  }

  // ---------- No refusal without need

  /** Nobody is switched on or hired, and the owner's role is granted to nobody. */
  predicate OnlyTakesAway(steps: seq<Step>) {
    forall step :: step in steps ==> TakesAway(step)
  }

  predicate TakesAway(step: Step) {
    !step.Reactivate? && !step.AddStaff? && (step.Begin? ==> Takes(step.job))
  }

  /** While nobody becomes an active owner, the snapshot misses none. */
  ghost predicate CountComplete(s: State, tx: Tx) {
    Takes(tx.job) &&
    match tx
    case Counting(_, target, left, others) => forall u :: ActiveOwner(s, u) && u != target ==> u in left + others
    case Done(_, target, LastOwner) => forall u :: ActiveOwner(s, u) ==> u == target
    case _ => true
  }

  ghost predicate AllComplete(s: State) {
    forall t :: t in s.txs ==> CountComplete(s, s.txs[t])
  }

  lemma FewerOwners(s: State, step: Step)
    requires AllComplete(s) && Enabled(s, step) && TakesAway(step)
    ensures forall u :: ActiveOwner(Apply(s, step), u) ==> ActiveOwner(s, u)
  {}

  lemma StepKeepsComplete(s: State, step: Step)
    requires AllComplete(s) && Enabled(s, step) && TakesAway(step)
    ensures AllComplete(Apply(s, step))
  {
    var s' := Apply(s, step);
    FewerOwners(s, step);
    forall i | i in s'.txs ensures CountComplete(s', s'.txs[i]) {
      assert i in s.txs ==> CountComplete(s, s.txs[i]);
    }
  }

  lemma {:induction false} RunKeepsComplete(s: State, steps: seq<Step>)
    requires AllComplete(s) && OnlyTakesAway(steps)
    ensures AllComplete(Run(s, steps))
  {
    hide Apply, Enabled, CountComplete, TakesAway;
    if steps != [] {
      var before := Run(s, steps[..|steps| - 1]);
      RunKeepsComplete(s, steps[..|steps| - 1]);
      if Enabled(before, steps[|steps| - 1]) {
        StepKeepsComplete(before, steps[|steps| - 1]);
      }
    }
  }

  /** Whoever is refused as the last owner is the one active owner. */
  lemma RefusedIsLast(active: map<User, bool>, main: set<User>, another: set<User>, steps: seq<Step>, t: TxId)
    requires Opens(Init(active, main, another))
    requires OnlyTakesAway(steps) && QuietRun(Init(active, main, another), steps)
    requires var s := Run(Init(active, main, another), steps);
             t in s.txs && s.txs[t].Done? && s.txs[t].outcome.LastOwner?
    ensures var s := Run(Init(active, main, another), steps);
            forall u :: ActiveOwner(s, u) <==> u == s.txs[t].target
  {
    hide Apply, Enabled, Runs.Run, ActiveOwner, QuietRun, Opens;
    AlwaysAnOwner(active, main, another, steps);
    RunKeepsComplete(Init(active, main, another), steps);
    var s := Run(Init(active, main, another), steps);
    assert CountComplete(s, s.txs[t]);
  }

  /** Switching on and hiring make exactly those owners they should. */
  lemma AddedOwners(s: State, u: User, owner: bool, v: User)
    ensures Enabled(s, Reactivate(u)) ==>
              (ActiveOwner(Apply(s, Reactivate(u)), v) <==> ActiveOwner(s, v) || (v == u && u in s.main + s.another))
    ensures Enabled(s, AddStaff(u, owner)) ==>
              (ActiveOwner(Apply(s, AddStaff(u, owner)), v) <==> ActiveOwner(s, v) || (v == u && owner))
  {}

  // ---------- The operation itself

  /** What a transaction comes to when nothing else is under way. */
  function Verdict(s: State, job: Job, target: User): Outcome {
    if target !in s.active then NoSuchUser
    else if Takes(job) && target in OwnersOf(s) && OtherOwners(s, target) == {} then LastOwner
    else Committed
  }

  lemma CountedExactly(s: State, user: User)
    ensures |OtherOwners(s, user)| == 0 <==>
            forall u :: u in s.active && s.active[u] && (u in s.main || u in s.another) ==> u == user
  {
    if u :| u in s.active && s.active[u] && (u in s.main || u in s.another) && u != user {
      assert u in OtherOwners(s, user);
    }
  }

  datatype Reply = Forbidden | RefusedSelf | RefusedLast | UnknownUser | Deactivated

  type Token = nat

  /** A shop's users and who is signed in, one transaction at a time. */
  class Accounts {
    var active: map<User, bool>
    var main: set<User>
    var another: set<User>
    var sessions: map<Token, User>

    ghost function View(): State
      reads this
    {
      Init(active, main, another)
    }

    method OtherOwnersCount(user: User) returns (n: nat)
      ensures n == |OtherOwners(View(), user)|
    {
      n := |set u | u in active && active[u] && (u in main || u in another) && u != user|;
      assert (set u | u in active && active[u] && (u in main || u in another) && u != user) ==
             OtherOwners(View(), user);
    }

    /** Turns a user off and ends their sessions, both or neither. */
    method Deactivate(runsTheShop: bool, caller: User, user: User) returns (reply: Reply)
      modifies this`active, this`sessions
      ensures reply.Deactivated? <==> runsTheShop && user != caller && Verdict(old(View()), SwitchOff, user).Committed?
      ensures reply.Deactivated? ==> active == old(active)[user := false]
      ensures reply.Deactivated? ==> forall t :: t in sessions <==> t in old(sessions) && old(sessions)[t] != user
      ensures reply.Deactivated? ==> forall t :: t in sessions ==> sessions[t] == old(sessions)[t]
      ensures !reply.Deactivated? ==> active == old(active) && sessions == old(sessions)
      ensures reply.Forbidden? <==> !runsTheShop
      ensures reply.RefusedSelf? <==> runsTheShop && user == caller
      ensures reply.UnknownUser? <==> runsTheShop && user != caller && user !in old(active)
      ensures reply.RefusedLast? <==>
              runsTheShop && user != caller && user in old(active) && (user in main || user in another) &&
                forall u :: u in old(active) && old(active)[u] && (u in main || u in another) ==> u == user
      ensures old(SomeOwner(View())) ==> SomeOwner(View())
    {
      if !runsTheShop {
        return Forbidden;
      }
      if user == caller {
        return RefusedSelf;
      }
      if user !in active {
        return UnknownUser;
      }
      var isOwner := user in main || user in another;
      if isOwner {
        var others := OtherOwnersCount(user);
        CountedExactly(View(), user);
        if others == 0 {
          return RefusedLast;
        }
      }
      SomeoneLeft(View(), user);
      active := active[user := false];
      sessions := map token | token in sessions && sessions[token] != user :: sessions[token];
      return Deactivated;
    }
  }

  lemma SomeoneLeft(s: State, user: User)
    requires Verdict(s, SwitchOff, user).Committed?
    ensures SomeOwner(s) ==> SomeOwner(s.(active := s.active[user := false]))
  {
    if u :| ActiveOwner(s, u) {
      var o: User := u;
      if user in OwnersOf(s) {
        o :| o in OtherOwners(s, user);
      }
      assert ActiveOwner(s.(active := s.active[user := false]), o);
    }
  }
}
