/** What a transaction of `Owners` comes to when no other moves, whatever rows the others hold. */
module OwnersAlone {
  import Runs
  import opened Owners

  /** The state a transaction leaves when nothing else moves. */
  function Settled(s: State, t: TxId, job: Job, target: User): State {
    var verdict := Verdict(s, job, target);
    (if verdict.Committed? then Effect(s, job, target) else s).(txs := s.txs[t := Done(job, target, verdict)])
  }

  /** Nobody else does anything, and the transaction is not aborted. */
  predicate Alone(steps: seq<Step>, t: TxId, job: Job, target: User) {
    forall step :: step in steps ==> IsOwn(step, t, job, target)
  }

  predicate IsOwn(step: Step, t: TxId, job: Job, target: User) {
    match step
    case Begin(i, j, u) => i == t && j == job && u == target
    case Snap(i) => i == t
    case ReadRole(i) => i == t
    case StartCount(i) => i == t
    case LockNext(i, _, _) => i == t
    case Decide(i) => i == t
    case Update(i) => i == t
    case Commit(i) => i == t
    case _ => false
  }

  /** Before a transaction begins, every lock belongs to one begun before. */
  predicate Fresh(from: State, t: TxId) {
    t !in from.txs && forall u :: u in from.locks ==> from.locks[u] in from.txs
  }

  /** The others hold what they held, and the rest is the transaction's own. */
  ghost predicate LocksKept(from: State, t: TxId, s: State) {
    (forall u :: u in from.locks ==> HeldBy(s, u, from.locks[u])) &&
    forall u :: u in s.locks && s.locks[u] != t ==> HeldBy(from, u, s.locks[u])
  }

  /** Where a transaction alone has come to. */
  ghost predicate OnItsWay(from: State, t: TxId, job: Job, target: User, s: State) {
    if t !in s.txs then s == from
    else if s.txs[t].Done? then s == Settled(from, t, job, target)
    else
      s.active == from.active && s.main == from.main && s.another == from.another && LocksKept(from, t, s) &&
      s.txs == from.txs[t := s.txs[t]] && s.txs[t].job == job && s.txs[t].target == target &&
      StageReached(from, job, target, s.txs[t])
  }

  ghost predicate StageReached(from: State, job: Job, target: User, tx: Tx) {
    var takes, others := Takes(job) && target in OwnersOf(from), OtherOwners(from, target);
    (!tx.Begun? ==> target in from.active) &&
    match tx
    case Begun(_, _) => true
    case Snapped(_, _, another) => job.SetRoles? && (another <==> target in from.another)
    case RoleRead(_, _) => takes
    case Counting(_, _, left, counted) => takes && left + counted == others
    case Cleared(_, _, counted) => counted == (if takes then others else {}) && (takes ==> counted != {})
    case Updated(_, _, counted) => counted == (if takes then others else {}) && (takes ==> counted != {})
    case Done(_, _, _) => true
  }

  lemma LocksBack(from: State, t: TxId, s: State)
    requires Fresh(from, t) && LocksKept(from, t, s)
    ensures s.locks - RowsOf(s, t) == from.locks
  {}

  /** From one statement to the next. */
  lemma MovesOnItsWay(from: State, t: TxId, job: Job, target: User, s: State, step: Step)
    requires Fresh(from, t)
    requires OnItsWay(from, t, job, target, s) && Enabled(s, step) && IsOwn(step, t, job, target)
    requires step.Begin? || step.StartCount? || step.Update?
    ensures OnItsWay(from, t, job, target, Apply(s, step))
  {
    hide Settled;
    assert t in s.txs ==> OtherOwners(s, target) == OtherOwners(from, target);
  }

  lemma ReadsOnItsWay(from: State, t: TxId, job: Job, target: User, s: State, step: Step)
    requires Fresh(from, t)
    requires OnItsWay(from, t, job, target, s) && Enabled(s, step) && IsOwn(step, t, job, target)
    requires step.Snap? || step.ReadRole?
    ensures OnItsWay(from, t, job, target, Apply(s, step))
  {
    LocksBack(from, t, s);
  }

  lemma LocksOnItsWay(from: State, t: TxId, job: Job, target: User, s: State, step: Step)
    requires Fresh(from, t)
    requires OnItsWay(from, t, job, target, s) && Enabled(s, step) && IsOwn(step, t, job, target) && step.LockNext?
    ensures OnItsWay(from, t, job, target, Apply(s, step))
  {
    hide Settled;
    var tx := s.txs[t];
    assert step.u in OtherOwners(from, target);
    assert tx.left - {step.u} + (tx.others + {step.u}) == tx.left + tx.others;
  }

  lemma EndsOnItsWay(from: State, t: TxId, job: Job, target: User, s: State, step: Step)
    requires Fresh(from, t)
    requires OnItsWay(from, t, job, target, s) && Enabled(s, step) && IsOwn(step, t, job, target)
    requires step.Decide? || step.Commit?
    ensures OnItsWay(from, t, job, target, Apply(s, step))
  {
    LocksBack(from, t, s);
    assert {} + s.txs[t].others == s.txs[t].others;
  }

  lemma OwnStepOnItsWay(from: State, t: TxId, job: Job, target: User, s: State, step: Step)
    requires Fresh(from, t)
    requires OnItsWay(from, t, job, target, s) && Enabled(s, step) && IsOwn(step, t, job, target)
    ensures OnItsWay(from, t, job, target, Apply(s, step))
  {
    hide OnItsWay, Apply, Enabled, Fresh;
    match step
    case Begin(_, _, _) => MovesOnItsWay(from, t, job, target, s, step);
    case Snap(_) => ReadsOnItsWay(from, t, job, target, s, step);
    case ReadRole(_) => ReadsOnItsWay(from, t, job, target, s, step);
    case StartCount(_) => MovesOnItsWay(from, t, job, target, s, step);
    case LockNext(_, _, _) => LocksOnItsWay(from, t, job, target, s, step);
    case Decide(_) => EndsOnItsWay(from, t, job, target, s, step);
    case Update(_) => MovesOnItsWay(from, t, job, target, s, step);
    case Commit(_) => EndsOnItsWay(from, t, job, target, s, step);
  }

  lemma {:induction false} AloneOnItsWay(from: State, t: TxId, job: Job, target: User, steps: seq<Step>)
    requires Fresh(from, t) && Alone(steps, t, job, target)
    ensures OnItsWay(from, t, job, target, Run(from, steps))
  {
    hide OnItsWay, Apply, Enabled, IsOwn, Fresh;
    if steps == [] {
      NotBegun(from, t, job, target);
    } else {
      var last := steps[|steps| - 1];
      AloneOnItsWay(from, t, job, target, steps[..|steps| - 1]);
      var before := Run(from, steps[..|steps| - 1]);
      if Enabled(before, last) {
        OwnStepOnItsWay(from, t, job, target, before, last);
      }
    }
  }

  lemma NotBegun(from: State, t: TxId, job: Job, target: User)
    requires Fresh(from, t)
    ensures OnItsWay(from, t, job, target, from)
  {}

  /**
   * Alone and not aborted, in whatever order it locks the rows it counts, a transaction that ends is refused exactly
   * for an unknown user or the last active owner, and otherwise does its job and nothing else.
   */
  lemma AloneMeetsVerdict(from: State, t: TxId, job: Job, target: User, steps: seq<Step>)
    requires Fresh(from, t) && Alone(steps, t, job, target)
    requires var s := Run(from, steps); t in s.txs && s.txs[t].Done?
    ensures Run(from, steps) == Settled(from, t, job, target)
  {
    hide Runs.Run, Alone, Settled;
    AloneOnItsWay(from, t, job, target, steps);
  }

  // ---------- It can end

  /** How many kinds of step a transaction has before it. */
  function StepsLeft(s: State, t: TxId): nat {
    if t !in s.txs then 7
    else
      match s.txs[t]
      case Begun(_, _) => 6
      case Snapped(_, _, _) => 5
      case RoleRead(_, _) => 4
      case Counting(_, _, _, _) => 3
      case Cleared(_, _, _) => 2
      case Updated(_, _, _) => 1
      case Done(_, _, _) => 0
  }

  function RowsLeft(s: State, t: TxId): set<User> {
    if t in s.txs && s.txs[t].Counting? then s.txs[t].left else {}
  }

  /** Nobody else holds a row the transaction needs. */
  predicate RowsFree(from: State, target: User) {
    from.locks.Keys !! OtherOwners(from, target) + {target}
  }

  lemma NextAlone(from: State, t: TxId, job: Job, target: User, s: State) returns (step: Step)
    requires Fresh(from, t) && RowsFree(from, target)
    requires OnItsWay(from, t, job, target, s) && StepsLeft(s, t) > 0
    ensures Enabled(s, step) && IsOwn(step, t, job, target)
    ensures StepsLeft(Apply(s, step), t) < StepsLeft(s, t) ||
            (StepsLeft(Apply(s, step), t) == StepsLeft(s, t) && RowsLeft(Apply(s, step), t) < RowsLeft(s, t))
  {
    if t !in s.txs {
      step := Begin(t, job, target);
    } else {
      assert target in s.locks ==> s.locks[target] == t;
      match s.txs[t]
      case Begun(_, _) => step := if job.SetRoles? then Snap(t) else ReadRole(t);
      case Snapped(_, _, _) => step := ReadRole(t);
      case RoleRead(_, _) => step := StartCount(t);
      case Counting(_, _, left, counted) =>
        if u :| u in left {
          assert u in OtherOwners(from, target);
          assert u in s.locks ==> s.locks[u] == t;
          step := LockNext(t, u, true);
        } else {
          step := Decide(t);
        }
      case Cleared(_, _, _) => step := Update(t);
      case Updated(_, _, _) => step := Commit(t);
    }
  }

  lemma One(s: State, step: Step)
    requires Enabled(s, step)
    ensures Run(s, [step]) == Apply(s, step)
  {
    assert [step][..0] == [];
    assert Run(s, [step][..0]) == s;
  }

  /** From wherever it has come to, a transaction alone can be taken to its end. */
  lemma {:induction false} AloneCanEnd(from: State, t: TxId, job: Job, target: User, s: State)
    returns (steps: seq<Step>)
    requires Fresh(from, t) && RowsFree(from, target)
    requires OnItsWay(from, t, job, target, s) && StepsLeft(s, t) > 0
    ensures Alone(steps, t, job, target) && StepsLeft(Run(s, steps), t) == 0
    decreases StepsLeft(s, t), RowsLeft(s, t)
  {
    var step := NextAlone(from, t, job, target, s);
    OwnStepOnItsWay(from, t, job, target, s, step);
    var next := Apply(s, step);
    hide OnItsWay, Apply, Enabled, Runs.Run, IsOwn;
    One(s, step);
    steps := [step];
    if StepsLeft(next, t) > 0 {
      var rest := AloneCanEnd(from, t, job, target, next);
      Runs.Join(Next, s, [step], rest);
      steps := [step] + rest;
    }
  }

  /** One transaction from its beginning to its end, nothing else moving. */
  lemma Settles(from: State, t: TxId, job: Job, target: User) returns (steps: seq<Step>)
    requires Fresh(from, t) && RowsFree(from, target)
    ensures Alone(steps, t, job, target) && Run(from, steps) == Settled(from, t, job, target)
  {
    hide Runs.Run, OnItsWay, Alone, Settled;
    NotBegun(from, t, job, target);
    steps := AloneCanEnd(from, t, job, target, from);
    AloneMeetsVerdict(from, t, job, target, steps);
  }
}
