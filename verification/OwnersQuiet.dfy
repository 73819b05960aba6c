/** Why the moments at which roles change have to be quiet, and runs in which they are not. */
module OwnersQuiet {
  import Runs
  import opened Owners
  import opened OwnersAlone

  // ---------- Runs put together

  lemma {:induction false} QuietJoin(s: State, a: seq<Step>, b: seq<Step>)
    requires QuietRun(s, a) && QuietRun(Run(s, a), b)
    ensures QuietRun(s, a + b)
  {
    hide Runs.Run, Quiet;
    if b == [] {
      assert a + b == a;
    } else {
      QuietJoin(s, a, b[..|b| - 1]);
      Runs.Join(Next, s, a, b[..|b| - 1]);
      assert (a + b)[..|a + b| - 1] == a + b[..|b| - 1];
    }
  }

  lemma Joined(s: State, a: seq<Step>, b: seq<Step>)
    requires QuietRun(s, a) && QuietRun(Run(s, a), b)
    ensures QuietRun(s, a + b) && Run(s, a + b) == Run(Run(s, a), b)
  {
    hide Runs.Run, QuietRun;
    QuietJoin(s, a, b);
    Runs.Join(Next, s, a, b);
  }

  lemma QuietOne(s: State, step: Step)
    requires Enabled(s, step) && Quiet(s, step)
    ensures QuietRun(s, [step]) && Run(s, [step]) == Apply(s, step)
  {
    hide Quiet, Enabled, Apply;
    One(s, step);
    assert [step][..0] == [];
    assert Run(s, [step][..0]) == s;
  }

  // ---------- What every run keeps, quiet or not

  /** Which rows a transaction can hold, from one statement to the next. */
  predicate MayHold(s: State, tx: Tx, u: User) {
    match tx
    case Begun(_, _) => false
    case Snapped(_, _, _) => false
    case RoleRead(job, target) => job.SetRoles? && u == target
    case Counting(job, target, left, others) =>
      u !in left && if u == target then job.SetRoles? else u in others || (u in s.active && !s.active[u])
    case Cleared(job, target, others) => (job.SetRoles? && u == target) || others != {}
    case Updated(_, _, _) => true
    case Done(_, _, _) => false
  }

  ghost predicate TidyTx(s: State, t: TxId, tx: Tx) {
    (!tx.Begun? && !tx.Done? ==> tx.target in s.active) &&
    (tx.job.SetRoles? && !tx.Begun? && !tx.Snapped? && !tx.Done? ==> HeldBy(s, tx.target, t)) &&
    (tx.Snapped? ==> tx.job.SetRoles?) && (tx.RoleRead? || tx.Counting? ==> Takes(tx.job)) &&
    (tx.Counting? ==> tx.left <= s.active.Keys && tx.target !in tx.left)
  }

  ghost predicate Tidy(s: State) {
    (forall u :: u in s.locks ==> u in s.active && s.locks[u] in s.txs && MayHold(s, s.txs[s.locks[u]], u)) &&
    forall t :: t in s.txs ==> TidyTx(s, t, s.txs[t])
  }

  /** One transaction moves on, and whoever it does not concern holds what they held. */
  lemma MovesTidily(s: State, s': State, t: TxId)
    requires Tidy(s) && t in s.txs && s'.txs.Keys == s.txs.Keys && s'.active.Keys == s.active.Keys
    requires forall i :: i in s.txs && i != t ==> s'.txs[i] == s.txs[i]
    requires forall u :: u in s.active && !s.active[u] ==> !s'.active[u]
    requires forall u :: u in s'.locks ==> if s'.locks[u] == t then u in s'.active && MayHold(s', s'.txs[t], u)
                                            else HeldBy(s, u, s'.locks[u])
    requires forall u :: u in s.locks && s.locks[u] != t ==> HeldBy(s', u, s.locks[u])
    requires TidyTx(s', t, s'.txs[t])
    ensures Tidy(s')
  {
    forall i | i in s.txs && i != t ensures TidyTx(s', i, s'.txs[i]) {
      assert TidyTx(s, i, s.txs[i]);
    }
  }

  lemma ReadKeepsTidy(s: State, step: Step)
    requires Tidy(s) && Enabled(s, step) && step.ReadRole?
    ensures Tidy(Apply(s, step))
  {
    var s' := Apply(s, step);
    assert TidyTx(s, step.t, s.txs[step.t]);
    assert TidyTx(s', step.t, s'.txs[step.t]);
    MovesTidily(s, s', step.t);
  }

  lemma SnapshotKeepsTidy(s: State, step: Step)
    requires Tidy(s) && Enabled(s, step) && (step.Snap? || step.StartCount?)
    ensures Tidy(Apply(s, step))
  {
    var s' := Apply(s, step);
    assert TidyTx(s, step.t, s.txs[step.t]);
    assert TidyTx(s', step.t, s'.txs[step.t]);
    MovesTidily(s, s', step.t);
  }

  lemma LockNextKeepsTidy(s: State, step: Step)
    requires Tidy(s) && Enabled(s, step) && step.LockNext?
    ensures Tidy(Apply(s, step))
  {
    var s' := Apply(s, step);
    assert TidyTx(s, step.t, s.txs[step.t]);
    assert TidyTx(s', step.t, s'.txs[step.t]);
    MovesTidily(s, s', step.t);
  }

  lemma EndKeepsTidy(s: State, step: Step)
    requires Tidy(s) && Enabled(s, step) && (step.Decide? || step.Update? || step.Commit? || step.Abort?)
    ensures Tidy(Apply(s, step))
  {
    var s' := Apply(s, step);
    assert TidyTx(s, step.t, s.txs[step.t]);
    assert TidyTx(s', step.t, s'.txs[step.t]);
    MovesTidily(s, s', step.t);
  }

  lemma MoreKeepTidy(s: State, step: Step)
    requires Tidy(s) && Enabled(s, step)
    requires step.Begin? || step.Reactivate? || step.AddStaff?
    ensures Tidy(Apply(s, step))
  {}

  lemma StepKeepsTidy(s: State, step: Step)
    requires Tidy(s) && Enabled(s, step)
    ensures Tidy(Apply(s, step))
  {
    hide Tidy;
    if step.ReadRole? {
      ReadKeepsTidy(s, step);
    } else if step.Snap? || step.StartCount? {
      SnapshotKeepsTidy(s, step);
    } else if step.LockNext? {
      LockNextKeepsTidy(s, step);
    } else if step.Begin? || step.Reactivate? || step.AddStaff? {
      MoreKeepTidy(s, step);
    } else {
      EndKeepsTidy(s, step);
    }
  }

  lemma {:induction false} RunKeepsTidy(s: State, steps: seq<Step>)
    requires Tidy(s)
    ensures Tidy(Run(s, steps))
  {
    hide Apply, Enabled, Tidy;
    if steps != [] {
      var before := Run(s, steps[..|steps| - 1]);
      RunKeepsTidy(s, steps[..|steps| - 1]);
      if Enabled(before, steps[|steps| - 1]) {
        StepKeepsTidy(before, steps[|steps| - 1]);
      }
    }
  }

  // ---------- One transaction left

  function Live(s: State): set<TxId> {
    set t | t in s.txs && !s.txs[t].Done?
  }

  /** Nothing else is under way. */
  ghost predicate Only(s: State, t: TxId) {
    Tidy(s) && Live(s) == {t}
  }

  lemma AbortsOne(s: State, t: TxId) returns (steps: seq<Step>)
    requires Tidy(s) && t in Live(s)
    ensures QuietRun(s, steps)
    ensures var s' := Run(s, steps);
            s'.active == s.active && s'.main == s.main && s'.another == s.another && Tidy(s') &&
            Live(s') == Live(s) - {t} && forall i :: i in s.txs && i != t ==> i in s'.txs && s'.txs[i] == s.txs[i]
  {
    steps := [Abort(t)];
    QuietOne(s, Abort(t));
    StepKeepsTidy(s, Abort(t));
  }

  /** Everything under way but one transaction is aborted. */
  lemma {:induction false} AbortsOthers(s: State, t: TxId) returns (steps: seq<Step>)
    requires Tidy(s) && t in Live(s)
    ensures QuietRun(s, steps)
    ensures var s' := Run(s, steps);
            s'.active == s.active && s'.main == s.main && s'.another == s.another && Only(s', t) &&
            t in s'.txs && s'.txs[t] == s.txs[t]
    decreases Live(s)
  {
    if i :| i in Live(s) && i != t {
      var one := AbortsOne(s, i);
      assert t in Run(s, one).txs && Run(s, one).txs[t] == s.txs[t];
      hide Run, Tidy, QuietRun;
      var rest := AbortsOthers(Run(s, one), t);
      hide Live;
      Joined(s, one, rest);
      steps := one + rest;
    } else {
      steps := [];
      assert Run(s, []) == s;
      assert Live(s) == {t};
    }
  }

  lemma OnlyHolder(s: State, t: TxId, u: User)
    requires Only(s, t) && u in s.locks
    ensures t in s.txs && s.locks[u] == t && MayHold(s, s.txs[t], u)
  {
    assert s.locks[u] in Live(s);
  }

  lemma OnlyFree(s: State, t: TxId, u: User)
    requires Only(s, t)
    ensures t in s.txs && Free(s, u, t) && (u in s.locks ==> HeldBy(s, u, t)) && TidyTx(s, t, s.txs[t])
  {
    assert t in Live(s);
    if u in s.locks {
      OnlyHolder(s, t, u);
    }
  }

  /** Switched on, or on already. */
  lemma Wakes(s: State, t: TxId, u: User)
    requires Only(s, t) && u in s.active && u !in s.locks
    ensures var s' := s.(active := s.active[u := true]);
            QuietRun(s, [Reactivate(u)]) && Run(s, [Reactivate(u)]) == s' && Only(s', t)
  {
    QuietOne(s, Reactivate(u));
    StepKeepsTidy(s, Reactivate(u));
    assert Live(s.(active := s.active[u := true])) == Live(s);
  }

  lemma DoneIsNotMisled(s: State, t: TxId)
    requires t in s.txs && s.txs[t].Done?
    ensures !Misled(s, t)
  {}

  lemma LastCommitIsQuiet(s: State, t: TxId)
    requires Only(s, t) && Enabled(s, Commit(t))
    ensures Quiet(s, Commit(t))
  {
    hide Misled;
    var s' := Apply(s, Commit(t));
    forall i | i in s.txs ensures !Misled(s', i) {
      assert i in Live(s) ==> i == t;
      DoneIsNotMisled(s', i);
    }
  }

  lemma Commits(s: State, t: TxId)
    requires Only(s, t) && t in s.txs && s.txs[t].Updated?
    ensures QuietRun(s, [Commit(t)])
    ensures Run(s, [Commit(t)]) == Ended(Effect(s, s.txs[t].job, s.txs[t].target), t, Committed)
  {
    hide Quiet, Only, Ended, Effect, QuietRun, Runs.Run;
    LastCommitIsQuiet(s, t);
    QuietOne(s, Commit(t));
  }

  /** The only one left writes and commits, and what it commits misleads nobody. */
  lemma WritesAndCommits(s: State, t: TxId) returns (steps: seq<Step>)
    requires Only(s, t) && t in s.txs && s.txs[t].Cleared?
    ensures QuietRun(s, steps)
    ensures Run(s, steps) == Ended(Effect(s, s.txs[t].job, s.txs[t].target), t, Committed)
  {
    OnlyFree(s, t, s.txs[t].target);
    UpdateThenCommit(s, t);
    var s1 := Apply(s, Update(t));
    QuietOne(s, Update(t));
    StepKeepsTidy(s, Update(t));
    assert Live(s1) == Live(s);
    Commits(s1, t);
    hide Apply, Only, QuietRun, Runs.Run;
    Joined(s, [Update(t)], [Commit(t)]);
    steps := [Update(t)] + [Commit(t)];
  }

  lemma UpdateThenCommit(s: State, t: TxId)
    requires t in s.txs && s.txs[t].Cleared? && Free(s, s.txs[t].target, t)
    ensures Enabled(s, Update(t)) && Enabled(Apply(s, Update(t)), Commit(t))
    ensures Apply(Apply(s, Update(t)), Commit(t)) == Ended(Effect(s, s.txs[t].job, s.txs[t].target), t, Committed)
  {
    var s1 := Apply(s, Update(t));
    assert s1.locks - RowsOf(s1, t) == s.locks - RowsOf(s, t);
  }

  lemma LastOneGoes(s: State, t: TxId, job: Job, u: User)
    requires t in s.txs && OtherOwners(s, u) == {} && Takes(job)
    ensures !SomeOwner(Ended(Effect(s, job, u), t, Committed))
  {
    var s' := Ended(Effect(s, job, u), t, Committed);
    forall o ensures !ActiveOwner(s', o) {
      assert o !in OtherOwners(s, u);
    }
  }

  /** With nobody but its target left, a transaction that has been cleared takes the last owner away. */
  lemma ClearedTakesLast(s: State, t: TxId) returns (steps: seq<Step>)
    requires Only(s, t) && t in s.txs && s.txs[t].Cleared? && Takes(s.txs[t].job)
    requires OtherOwners(s, s.txs[t].target) == {}
    ensures QuietRun(s, steps) && !SomeOwner(Run(s, steps))
  {
    hide Only, QuietRun, Runs.Run;
    steps := WritesAndCommits(s, t);
    LastOneGoes(s, t, s.txs[t].job, s.txs[t].target);
  }

  /** A count that will count somebody goes through. */
  lemma {:induction false} CountsRest(s: State, t: TxId) returns (steps: seq<Step>)
    requires Only(s, t) && t in s.txs && s.txs[t].Counting?
    requires s.txs[t].others != {} || exists v :: v in s.txs[t].left && v in s.active && s.active[v]
    ensures QuietRun(s, steps)
    ensures var s' := Run(s, steps);
            s'.active == s.active && s'.main == s.main && s'.another == s.another && Only(s', t) && t in s'.txs &&
            s'.txs[t].Cleared? && s'.txs[t].job == s.txs[t].job && s'.txs[t].target == s.txs[t].target
    decreases s.txs[t].left
  {
    var tx := s.txs[t];
    if tx.left != {} {
      var u :| u in tx.left && (tx.others != {} || (u in s.active && s.active[u]));
      OnlyFree(s, t, u);
      var step := LockNext(t, u, true);
      var s1 := Apply(s, step);
      QuietOne(s, step);
      StepKeepsTidy(s, step);
      assert Live(s1) == Live(s);
      assert s1.txs[t].others != {} && s1.txs[t].left < tx.left;
      hide Apply, Only, QuietRun, Run;
      var rest := CountsRest(s1, t);
      Joined(s, [step], rest);
      steps := [step] + rest;
    } else {
      QuietOne(s, Decide(t));
      StepKeepsTidy(s, Decide(t));
      assert Live(Apply(s, Decide(t))) == Live(s);
      steps := [Decide(t)];
    }
  }

  lemma CountTakesLast(s: State, t: TxId) returns (steps: seq<Step>)
    requires Only(s, t) && t in s.txs && s.txs[t].Counting?
    requires s.txs[t].others != {} || exists v :: v in s.txs[t].left && v in s.active && s.active[v]
    requires OtherOwners(s, s.txs[t].target) == {}
    ensures QuietRun(s, steps) && !SomeOwner(Run(s, steps))
  {
    OnlyFree(s, t, s.txs[t].target);
    var counts := CountsRest(s, t);
    var s1 := Run(s, counts);
    assert OtherOwners(s1, s.txs[t].target) == OtherOwners(s, s.txs[t].target);
    hide Only, QuietRun, Runs.Run, SomeOwner;
    var rest := ClearedTakesLast(s1, t);
    Joined(s, counts, rest);
    steps := counts + rest;
  }

  // ---------- The other owners switched off

  lemma {:induction false} FreshId(ids: set<TxId>) returns (t: TxId)
    ensures forall i :: i in ids ==> i < t
  {
    if ids == {} {
      t := 0;
    } else {
      var i :| i in ids;
      var after := FreshId(ids - {i});
      t := if after > i then after else i + 1;
      forall j | j in ids ensures j < t {
        assert j == i || j in ids - {i};
      }
    }
  }

  /** An owner whose row, like every active person's, is free: whoever else is switched off can count them. */
  ghost predicate Countable(s: State, t: TxId, u: User) {
    Only(s, t) && ActiveOwner(s, u) && forall x :: x in s.locks ==> x in s.active && !s.active[x]
  }

  /** Roles, locks and the one transaction are as they were. */
  ghost predicate OnlyPeople(s: State, s': State, t: TxId) {
    s'.main == s.main && s'.another == s.another && s'.locks == s.locks && s'.active.Keys == s.active.Keys &&
    t in s.txs && t in s'.txs && s'.txs[t] == s.txs[t]
  }

  lemma OwnsFixRoles(steps: seq<Step>, i: TxId, u: User, t: TxId)
    requires Alone(steps, i, SwitchOff, u) && i != t
    ensures RolesFixed(steps, {t})
  {}

  lemma OnlyOneChanges(s: State, t: TxId)
    requires Only(s, t)
    ensures NoRoleChange(s, {t}) && t in s.txs && forall u :: u in s.locks ==> s.locks[u] in s.txs
  {
    assert t in Live(s);
    forall i | i in s.txs && !s.txs[i].Done? ensures i == t {
      assert i in Live(s);
    }
  }

  /** One other owner is switched off, which takes nothing but the countable one. */
  lemma SwitchesOff(s: State, t: TxId, u: User, w: User) returns (steps: seq<Step>)
    requires Countable(s, t, u) && w in OtherOwners(s, u)
    ensures QuietRun(s, steps)
    ensures var s' := Run(s, steps);
            Countable(s', t, u) && OnlyPeople(s, s', t) && OtherOwners(s', u) == OtherOwners(s, u) - {w}
  {
    OnlyOneChanges(s, t);
    var i := FreshId(s.txs.Keys);
    assert i !in s.txs.Keys;
    assert u in OtherOwners(s, w);
    hide Runs.Run, Alone, QuietRun, Tidy;
    steps := Settles(s, i, SwitchOff, w);
    OwnsFixRoles(steps, i, w, t);
    FixedRolesAreQuiet(s, steps, {t});
    RunKeepsTidy(s, steps);
    assert Live(Run(s, steps)) == Live(s);
  }

  lemma {:induction false} SwitchesOthersOff(s: State, t: TxId, u: User) returns (steps: seq<Step>)
    requires Countable(s, t, u) && t in s.txs
    ensures QuietRun(s, steps)
    ensures var s' := Run(s, steps); Countable(s', t, u) && OnlyPeople(s, s', t) && OtherOwners(s', u) == {}
    decreases OtherOwners(s, u)
  {
    if w :| w in OtherOwners(s, u) {
      hide Run, Countable, QuietRun;
      var one := SwitchesOff(s, t, u, w);
      var rest := SwitchesOthersOff(Run(s, one), t, u);
      Joined(s, one, rest);
      steps := one + rest;
    } else {
      steps := [];
      assert Run(s, []) == s;
    }
  }

  // ---------- Whoever is misled can take the last owner away

  /** Read as no owner, its target is left as the only one, and is switched off without a count. */
  lemma ReadAsNoOwnerLoses(s: State, t: TxId) returns (steps: seq<Step>)
    requires Only(s, t) && t in s.txs && Misled(s, t) && s.txs[t].Cleared? && s.txs[t].job.SwitchOff?
    ensures QuietRun(s, steps) && !SomeOwner(Run(s, steps))
  {
    var u := s.txs[t].target;
    OnlyFree(s, t, u);
    forall x ensures x !in s.locks {
      if x in s.locks {
        OnlyHolder(s, t, x);
      }
    }
    Wakes(s, t, u);
    var s1 := s.(active := s.active[u := true]);
    assert Countable(s1, t, u);
    hide Only, QuietRun, Run, Misled;
    var others := SwitchesOthersOff(s1, t, u);
    var s2 := Run(s1, others);
    assert Only(s2, t);
    hide Countable;
    var rest := ClearedTakesLast(s2, t);
    Joined(s1, others, rest);
    Joined(s, [Reactivate(u)], others + rest);
    steps := [Reactivate(u)] + (others + rest);
  }

  /** A role taken as not held, since the snapshot is older, is taken away without a count. */
  lemma OldSnapshotLoses(s: State, t: TxId) returns (steps: seq<Step>)
    requires Only(s, t) && t in s.txs && Misled(s, t) && s.txs[t].Snapped?
    ensures QuietRun(s, steps) && !SomeOwner(Run(s, steps))
  {
    var u := s.txs[t].target;
    OnlyFree(s, t, u);
    forall x ensures x !in s.locks {
      if x in s.locks {
        OnlyHolder(s, t, x);
      }
    }
    Wakes(s, t, u);
    var s1 := s.(active := s.active[u := true]);
    assert Countable(s1, t, u);
    hide Only, QuietRun, Run;
    var others := SwitchesOthersOff(s1, t, u);
    var s2 := Run(s1, others);
    assert Only(s2, t) && Misled(s2, t);
    hide Countable;
    var rest := SnapshotTakesLast(s2, t);
    Joined(s1, others, rest);
    Joined(s, [Reactivate(u)], others + rest);
    steps := [Reactivate(u)] + (others + rest);
  }

  lemma SnapshotTakesLast(s: State, t: TxId) returns (steps: seq<Step>)
    requires Only(s, t) && t in s.txs && Misled(s, t) && s.txs[t].Snapped?
    requires OtherOwners(s, s.txs[t].target) == {}
    ensures QuietRun(s, steps) && !SomeOwner(Run(s, steps))
  {
    OnlyFree(s, t, s.txs[t].target);
    var s1 := Apply(s, ReadRole(t));
    QuietOne(s, ReadRole(t));
    StepKeepsTidy(s, ReadRole(t));
    assert Live(s1) == Live(s);
    assert OtherOwners(s1, s.txs[t].target) == OtherOwners(s, s.txs[t].target);
    hide Apply, Only, QuietRun, Run, SomeOwner;
    var rest := ClearedTakesLast(s1, t);
    Joined(s, [ReadRole(t)], rest);
    steps := [ReadRole(t)] + rest;
  }

  /** A switch-off that has counted nobody yet, and has listed somebody who is no owner any more. */
  predicate ListsNoOwner(s: State, t: TxId) {
    t in s.txs && s.txs[t].Counting? && s.txs[t].job.SwitchOff? && Misled(s, t)
  }

  lemma {:induction false} GrantIsQuiet(s: State, t: TxId, i: TxId, u: User, steps: seq<Step>)
    requires Only(s, t) && ListsNoOwner(s, t) && Fresh(s, i) && Alone(steps, i, SetRoles(AsMain), u)
    ensures QuietRun(s, steps)
  {
    if steps != [] {
      var before, last := steps[..|steps| - 1], steps[|steps| - 1];
      GrantIsQuiet(s, t, i, u, before);
      AloneOnItsWay(s, i, SetRoles(AsMain), u, before);
      GrantStepIsQuiet(s, t, i, u, Run(s, before), last);
    }
  }

  lemma GrantStepIsQuiet(s: State, t: TxId, i: TxId, u: User, now: State, step: Step)
    requires Only(s, t) && ListsNoOwner(s, t) && Fresh(s, i)
    requires OnItsWay(s, i, SetRoles(AsMain), u, now) && IsOwn(step, i, SetRoles(AsMain), u)
    ensures Quiet(now, step)
  {
    if step.Commit? && Enabled(now, step) {
      forall j | j in now.txs && Misled(Apply(now, step), j) ensures Misled(now, j) {
        if j != i {
          assert j in Live(s);
        }
      }
    }
  }

  /** Its target is made an owner if they are none. */
  lemma Grants(s: State, t: TxId, u: User) returns (steps: seq<Step>)
    requires Only(s, t) && ListsNoOwner(s, t) && u in s.active && s.active[u]
    requires forall x :: x in s.locks ==> !s.active[x]
    ensures QuietRun(s, steps)
    ensures var s' := Run(s, steps);
            Countable(s', t, u) && s'.active == s.active && s'.locks == s.locks && OwnersOf(s') == OwnersOf(s) + {u} &&
            t in s'.txs && s'.txs[t] == s.txs[t]
  {
    OnlyOneChanges(s, t);
    var i := FreshId(s.txs.Keys);
    assert i !in s.txs.Keys;
    hide Runs.Run, Alone, QuietRun, Tidy;
    steps := Settles(s, i, SetRoles(AsMain), u);
    GrantIsQuiet(s, t, i, u, steps);
    RunKeepsTidy(s, steps);
    assert Live(Run(s, steps)) == Live(s);
  }

  /** The target is made the only owner, and the listed one, no owner any more, is counted. */
  lemma ListedLoses(s: State, t: TxId) returns (steps: seq<Step>)
    requires Only(s, t) && ListsNoOwner(s, t)
    ensures QuietRun(s, steps) && !SomeOwner(Run(s, steps))
  {
    var u := s.txs[t].target;
    OnlyFree(s, t, u);
    forall x | x in s.locks ensures x != u && x !in s.txs[t].left && x in s.active && !s.active[x] {
      OnlyHolder(s, t, x);
    }
    var v :| v in s.txs[t].left && v !in OwnersOf(s);
    Wakes(s, t, u);
    var s1 := s.(active := s.active[u := true]);
    assert ListsNoOwner(s1, t);
    hide Only, QuietRun, Run, Misled;
    var grants := Grants(s1, t, u);
    var s2 := Run(s1, grants);
    var others := SwitchesOthersOff(s2, t, u);
    var s3 := Run(s2, others);
    assert Only(s3, t);
    hide Countable;
    var rest := ListedCounted(s3, t, v);
    Joined(s2, others, rest);
    Joined(s1, grants, others + rest);
    Joined(s, [Reactivate(u)], grants + (others + rest));
    steps := [Reactivate(u)] + (grants + (others + rest));
  }

  /** With nobody but its target left, a count that lists somebody who is no owner takes the last owner away. */
  lemma ListedCounted(s: State, t: TxId, v: User) returns (steps: seq<Step>)
    requires Only(s, t) && t in s.txs && s.txs[t].Counting? && v in s.txs[t].left && v !in OwnersOf(s)
    requires OtherOwners(s, s.txs[t].target) == {}
    ensures QuietRun(s, steps) && !SomeOwner(Run(s, steps))
  {
    OnlyFree(s, t, v);
    if v in s.locks {
      OnlyHolder(s, t, v);
    }
    Wakes(s, t, v);
    var s1 := s.(active := s.active[v := true]);
    assert OtherOwners(s1, s.txs[t].target) == OtherOwners(s, s.txs[t].target);
    assert v in s1.txs[t].left && v in s1.active && s1.active[v];
    hide Only, QuietRun, Run, SomeOwner;
    var rest := CountTakesLast(s1, t);
    Joined(s, [Reactivate(v)], rest);
    steps := [Reactivate(v)] + rest;
  }

  /** A role change that counts in error, with nobody but its target left, takes the last owner away. */
  lemma CountedInErrorLoses(s: State, t: TxId) returns (steps: seq<Step>)
    requires Only(s, t) && t in s.txs && Misled(s, t) && s.txs[t].job.SetRoles? && !s.txs[t].Snapped?
    ensures QuietRun(s, steps) && !SomeOwner(Run(s, steps))
  {
    var tx := s.txs[t];
    OnlyFree(s, t, tx.target);
    if tx.Cleared? {
      steps := ClearedTakesLast(s, t);
    } else if tx.Updated? {
      Commits(s, t);
      LastOneGoes(s, t, tx.job, tx.target);
      steps := [Commit(t)];
    } else if tx.others == {} {
      var v :| v in tx.left && v !in OwnersOf(s);
      steps := ListedCounted(s, t, v);
    } else {
      steps := CountTakesLast(s, t);
    }
  }

  /** From any state with somebody misled, quiet steps alone can take the last owner away. */
  lemma MisledLoses(s: State, t: TxId) returns (steps: seq<Step>)
    requires Tidy(s) && Misled(s, t)
    ensures QuietRun(s, steps) && !SomeOwner(Run(s, steps))
  {
    var aborts := AbortsOthers(s, t);
    var s1 := Run(s, aborts);
    SameForOthers(s, s1, t);
    hide Only, QuietRun, Run, SomeOwner;
    var rest: seq<Step>;
    if s1.txs[t].Snapped? {
      rest := OldSnapshotLoses(s1, t);
    } else if s1.txs[t].job.SetRoles? {
      rest := CountedInErrorLoses(s1, t);
    } else if s1.txs[t].Cleared? {
      rest := ReadAsNoOwnerLoses(s1, t);
    } else {
      rest := ListedLoses(s1, t);
    }
    Joined(s, aborts, rest);
    steps := aborts + rest;
  }

  lemma InitTidy(active: map<User, bool>, main: set<User>, another: set<User>)
    ensures Tidy(Init(active, main, another))
  {}

  /**
   * Quiet is exactly what it takes: after a quiet run, a step is quiet if and only if no quiet steps after it can leave
   * a shop without an active owner.
   */
  lemma QuietExactly(active: map<User, bool>, main: set<User>, another: set<User>, steps: seq<Step>, step: Step)
    requires Opens(Init(active, main, another)) && QuietRun(Init(active, main, another), steps)
    requires Enabled(Run(Init(active, main, another), steps), step)
    ensures var s := Run(Init(active, main, another), steps); var s' := Apply(s, step);
            Quiet(s, step) <==> forall more :: QuietRun(s', more) ==> SomeOwner(Run(s', more))
  {
    var s := Run(Init(active, main, another), steps);
    var s' := Apply(s, step);
    EveryQuietRun(active, main, another, steps);
    InitTidy(active, main, another);
    RunKeepsTidy(Init(active, main, another), steps);
    StepKeepsTidy(s, step);
    hide Tidy, Apply, Enabled, Runs.Run, QuietRun, SomeOwner, Misled;
    if Quiet(s, step) {
      StepKeepsInv(s, step);
      forall more | QuietRun(s', more) ensures SomeOwner(Run(s', more)) {
        QuietRunKeepsInv(s', more);
      }
    } else {
      var i :| i in s.txs && Misled(s', i) && !Misled(s, i);
      var more := MisledLoses(s', i);
    }
  }

  // ---------- Runs that leave nobody

  lemma OneMore(s0: State, before: seq<Step>, s: State, step: Step) returns (steps: seq<Step>, s': State)
    requires s == Run(s0, before) && Enabled(s, step)
    ensures steps == before + [step] && s' == Run(s0, steps) == Apply(s, step)
  {
    hide Apply, Enabled;
    steps := before + [step];
    assert steps[..|before|] == before;
    s' := Run(s0, steps);
  }

  lemma OneWhole(s0: State, before: seq<Step>, s: State, t: TxId, job: Job, u: User)
    returns (steps: seq<Step>, s': State)
    requires s == Run(s0, before) && Fresh(s, t) && RowsFree(s, u)
    ensures s' == Run(s0, steps) == Settled(s, t, job, u)
  {
    hide Runs.Run, Settled, Fresh, RowsFree;
    var own := Settles(s, t, job, u);
    Runs.Join(Next, s0, before, own);
    steps, s' := before + own, Run(s, own);
  }

  /** A count that has one row left locks it, and its transaction goes through to its commit. */
  lemma CountsAndCommits(s0: State, before: seq<Step>, s: State, t: TxId, u: User)
    returns (steps: seq<Step>, s': State)
    requires s == Run(s0, before) && t in s.txs && s.txs[t].Counting? && s.txs[t].left == {u}
    requires u in s.active && s.active[u] && u != s.txs[t].target && Free(s, u, t) && Free(s, s.txs[t].target, t)
    ensures s' == Run(s0, steps)
    ensures s' == Ended(Effect(s.(locks := s.locks[u := t]), s.txs[t].job, s.txs[t].target), t, Committed)
  {
    hide Runs.Run;
    var job, target := s.txs[t].job, s.txs[t].target;
    steps, s' := OneMore(s0, before, s, LockNext(t, u, true));
    assert u in s'.txs[t].others;
    steps, s' := OneMore(s0, steps, s', Decide(t));
    steps, s' := WrittenAndCommitted(s0, steps, s', t);
  }

  lemma WrittenAndCommitted(s0: State, before: seq<Step>, s: State, t: TxId) returns (steps: seq<Step>, s': State)
    requires s == Run(s0, before) && t in s.txs && s.txs[t].Cleared? && Free(s, s.txs[t].target, t)
    ensures s' == Run(s0, steps) == Ended(Effect(s, s.txs[t].job, s.txs[t].target), t, Committed)
  {
    UpdateThenCommit(s, t);
    hide Runs.Run, Apply, Enabled, Ended, Effect;
    steps, s' := OneMore(s0, before, s, Update(t));
    steps, s' := OneMore(s0, steps, s', Commit(t));
  }

  /**
   * Granted meanwhile: 2 is being switched off as no owner, and before that commits is made an owner and the only other
   * owner, 1, is not one any more.
   */
  lemma GrantedMeanwhile() returns (steps: seq<Step>)
    ensures Opens(Init(map[1 := true, 2 := true], {1}, {}))
    ensures !SomeOwner(Run(Init(map[1 := true, 2 := true], {1}, {}), steps))
  {
    hide Runs.Run;
    var s0 := Init(map[1 := true, 2 := true], {1}, {});
    assert ActiveOwner(s0, 1);
    Start(s0);
    var s;
    steps, s := OneMore(s0, [], s0, Begin(0, SwitchOff, 2));
    steps, s := OneMore(s0, steps, s, ReadRole(0));
    steps, s := OneWhole(s0, steps, s, 1, SetRoles(AsMain), 2);
    assert 2 in OtherOwners(s, 1);
    steps, s := OneWhole(s0, steps, s, 2, SetRoles(NotHeld), 1);
    steps, s := WrittenAndCommitted(s0, steps, s, 0);
  }

  /**
   * Read in an old snapshot: a change that leaves 2 with other roles has its snapshot when 2 is made an owner by
   * another role, and 1, no owner any more. It takes the role away as if 2 had never had it.
   */
  lemma GrantedAfterSnapshot() returns (steps: seq<Step>)
    ensures Opens(Init(map[1 := true, 2 := true], {1}, {}))
    ensures !SomeOwner(Run(Init(map[1 := true, 2 := true], {1}, {}), steps))
  {
    hide Runs.Run;
    var s0 := Init(map[1 := true, 2 := true], {1}, {});
    assert ActiveOwner(s0, 1);
    Start(s0);
    var s;
    steps, s := OneMore(s0, [], s0, Begin(0, SetRoles(NotHeld), 2));
    steps, s := OneMore(s0, steps, s, Snap(0));
    steps, s := OneWhole(s0, steps, s, 1, SetRoles(AsAnother), 2);
    assert 2 in OtherOwners(s, 1);
    steps, s := OneWhole(s0, steps, s, 2, SetRoles(NotHeld), 1);
    steps, s := OneMore(s0, steps, s, ReadRole(0));
    steps, s := WrittenAndCommitted(s0, steps, s, 0);
  }

  /** Taken meanwhile: a switch-off has listed 2, whose role is taken before it locks them, and still counts them. */
  lemma TakenMeanwhile() returns (steps: seq<Step>)
    ensures Opens(Init(map[1 := true, 2 := true], {1, 2}, {}))
    ensures !SomeOwner(Run(Init(map[1 := true, 2 := true], {1, 2}, {}), steps))
  {
    hide Runs.Run;
    var s0 := Init(map[1 := true, 2 := true], {1, 2}, {});
    assert ActiveOwner(s0, 1);
    Start(s0);
    var s;
    steps, s := OneMore(s0, [], s0, Begin(0, SwitchOff, 1));
    steps, s := OneMore(s0, steps, s, ReadRole(0));
    steps, s := OneMore(s0, steps, s, StartCount(0));
    assert s.txs[0].left == {2};
    assert 1 in OtherOwners(s, 2);
    steps, s := OneWhole(s0, steps, s, 1, SetRoles(NotHeld), 2);
    steps, s := CountsAndCommits(s0, steps, s, 0, 2);
  }

  /** A role change reads its target as an owner, with their row, and lists the other active owners. */
  lemma BeginsCount(s0: State, before: seq<Step>, s: State, t: TxId, u: User) returns (steps: seq<Step>, s': State)
    requires s == Run(s0, before) && t !in s.txs && u in s.active && u in OwnersOf(s) && u !in s.locks
    ensures s' == Run(s0, steps)
    ensures s' == s.(locks := s.locks[u := t],
                     txs := s.txs[t := Counting(SetRoles(NotHeld), u, OtherOwners(s, u), {})])
  {
    hide Runs.Run;
    steps, s' := OneMore(s0, before, s, Begin(t, SetRoles(NotHeld), u));
    steps, s' := OneMore(s0, steps, s', Snap(t));
    steps, s' := OneMore(s0, steps, s', ReadRole(t));
    assert OtherOwners(s', u) == OtherOwners(s, u);
    steps, s' := OneMore(s0, steps, s', StartCount(t));
  }

  const THREE: State := Init(map[1 := true, 2 := true, 3 := true], {1, 3}, {})

  /** 3 is being switched off, with 1 listed, who is off meanwhile; and 2 has become an owner since. */
  lemma ListedBefore() returns (steps: seq<Step>, s: State)
    ensures s == Run(THREE, steps)
    ensures s.active == map[1 := false, 2 := true, 3 := true] && s.main == {1, 2, 3} && s.another == {}
    ensures s.txs.Keys == {0, 1, 2} && s.txs[0] == Counting(SwitchOff, 3, {1}, {}) && s.locks == map[]
  {
    hide Runs.Run;
    Start(THREE);
    steps, s := OneMore(THREE, [], THREE, Begin(0, SwitchOff, 3));
    steps, s := OneMore(THREE, steps, s, ReadRole(0));
    steps, s := OneMore(THREE, steps, s, StartCount(0));
    assert s.txs[0].left == {1};
    assert 3 in OtherOwners(s, 1);
    steps, s := OneWhole(THREE, steps, s, 1, SwitchOff, 1);
    steps, s := OneWhole(THREE, steps, s, 2, SetRoles(AsMain), 2);
  }

  /** 2's role is being taken, with 3 listed; 1 is on again, and has been counted to switch 3 off. */
  lemma ListedApart() returns (steps: seq<Step>, s: State)
    ensures s == Run(THREE, steps)
    ensures s.active == map[1 := true, 2 := true, 3 := false] && s.main == {1, 2, 3} && s.another == {}
    ensures s.txs.Keys == {0, 1, 2, 3} && s.txs[3] == Counting(SetRoles(NotHeld), 2, {3}, {})
    ensures s.locks == map[2 := 3]
  {
    hide Runs.Run;
    steps, s := ListedBefore();
    assert OtherOwners(s, 2) == {3};
    steps, s := BeginsCount(THREE, steps, s, 3, 2);
    steps, s := OneMore(THREE, steps, s, Reactivate(1));
    steps, s := CountsAndCommits(THREE, steps, s, 0, 1);
  }

  /** Then 2's role is taken, with 1's being taken; and 3 is on again. */
  lemma TakenOnce() returns (steps: seq<Step>, s: State)
    ensures s == Run(THREE, steps)
    ensures s.active == map[1 := true, 2 := true, 3 := true] && s.main == {1, 3} && s.another == {}
    ensures s.txs.Keys == {0, 1, 2, 3, 4} && s.txs[4] == Counting(SetRoles(NotHeld), 1, {2}, {})
    ensures s.locks == map[1 := 4]
  {
    hide Runs.Run;
    steps, s := ListedApart();
    assert OtherOwners(s, 1) == {2};
    steps, s := BeginsCount(THREE, steps, s, 4, 1);
    steps, s := OneMore(THREE, steps, s, Reactivate(3));
    steps, s := CountsAndCommits(THREE, steps, s, 3, 3);
  }

  /**
   * Taken twice: 1's role is being taken when 2's is, and 3's when 1's is, each from the one person the other has
   * listed. Neither would leave nobody by itself.
   */
  lemma TakenTwice() returns (steps: seq<Step>)
    ensures Opens(THREE) && !SomeOwner(Run(THREE, steps))
  {
    hide Runs.Run;
    assert ActiveOwner(THREE, 1);
    var s;
    steps, s := TakenOnce();
    assert OtherOwners(s, 3) == {1};
    steps, s := BeginsCount(THREE, steps, s, 5, 3);
    steps, s := CountsAndCommits(THREE, steps, s, 4, 2);
    assert OwnersOf(s) == {3} && s.locks == map[3 := 5];
    steps, s := CountsAndCommits(THREE, steps, s, 5, 1);
    assert OwnersOf(s) == {};
  }

  lemma Start(s: State)
    ensures Run(s, []) == s
  {}
}
