/**
 * The migration runner: what a start does to the recorded versions, however it ends, and which releases start after
 * it.
 */
module Migrate {
  import opened MigrationFiles
  import opened Wrappers

  /** A recorded version; rollback "" is one recorded without. */
  datatype Row = Row(checksum: string, rollback: string)

  /** The tracking table, and the versions whose text has taken effect, in the order they did. */
  datatype Db = Db(recorded: map<int, Row>, ran: seq<int>)

  /** What may go wrong with one migration's transaction; a failed commit may have kept its work. */
  datatype Fault = NoFault | BeginFails | ApplyFails | RecordFails | CommitFails(kept: bool)

  datatype Outcome =
    | Started(ahead: seq<int>)
    | Invalid(problem: Problem)
    | NoTracking
    | TextChanged(version: int)
    | Broken(version: int, fault: Fault)
    | FileDeleted(versions: seq<int>)
    | NotSafe(versions: seq<int>)

  function FaultAt(faults: map<int, Fault>, version: int): Fault {
    if version in faults then faults[version] else NoFault
  }

  predicate TextDiffers(applied: map<int, Row>, m: Migration) {
    m.version in applied && applied[m.version].checksum != m.checksum
  }

  /** The run ends at this migration. */
  predicate Stops(applied: map<int, Row>, faults: map<int, Fault>, m: Migration) {
    if m.version in applied then TextDiffers(applied, m) else FaultAt(faults, m.version) != NoFault
  }

  function StopAt(ms: seq<Migration>, applied: map<int, Row>, faults: map<int, Fault>): (i: nat)
    ensures i <= |ms| && (i < |ms| ==> Stops(applied, faults, ms[i]))
    ensures forall j :: 0 <= j < i ==> !Stops(applied, faults, ms[j])
  {
    if ms == [] || Stops(applied, faults, ms[0]) then 0 else 1 + StopAt(ms[1..], applied, faults)
  }

  /** The migrations not applied yet, in order. */
  function Missing(ms: seq<Migration>, applied: map<int, Row>): seq<Migration> {
    if ms == [] then []
    else
      var m := ms[|ms| - 1];
      Missing(ms[..|ms| - 1], applied) + if m.version in applied then [] else [m]
  }

  function WithMigration(db: Db, m: Migration): Db {
    Db(db.recorded[m.version := Row(m.checksum, m.rollback)], db.ran + [m.version])
  }

  function After(db: Db, ms: seq<Migration>): Db {
    if ms == [] then db else WithMigration(After(db, ms[..|ms| - 1]), ms[|ms| - 1])
  }

  // ---------- What the versions without a file mean

  predicate Known(ms: seq<Migration>, v: int) {
    exists i :: 0 <= i < |ms| && ms[i].version == v
  }

  /** The highest version of the release, from 0. */
  function Highest(ms: seq<Migration>): (h: int)
    ensures h >= 0 && forall i :: 0 <= i < |ms| ==> ms[i].version <= h
    ensures h == 0 || Known(ms, h)
  {
    if ms == [] then 0
    else
      var h := Highest(ms[..|ms| - 1]);
      if ms[|ms| - 1].version > h then ms[|ms| - 1].version else h
  }

  function Deleted(ms: seq<Migration>, applied: map<int, Row>): set<int> {
    set v | v in applied && !Known(ms, v) && v < Highest(ms)
  }

  function Ahead(ms: seq<Migration>, applied: map<int, Row>): set<int> {
    set v | v in applied && !Known(ms, v) && v >= Highest(ms)
  }

  function Unsafe(ms: seq<Migration>, applied: map<int, Row>): set<int> {
    set v | v in applied && !Known(ms, v) && v >= Highest(ms) && applied[v].rollback != "safe"
  }

  /** A set of versions, listed in ascending order. */
  ghost predicate Lists(versions: seq<int>, vs: set<int>) {
    (forall i, j :: 0 <= i < j < |versions| ==> versions[i] < versions[j]) && forall v :: v in versions <==> v in vs
  }

  ghost predicate Judged(ms: seq<Migration>, applied: map<int, Row>, out: Outcome) {
    if Deleted(ms, applied) != {} then out.FileDeleted? && Lists(out.versions, Deleted(ms, applied))
    else if Unsafe(ms, applied) != {} then out.NotSafe? && Lists(out.versions, Unsafe(ms, applied))
    else out.Started? && Lists(out.ahead, Ahead(ms, applied))
  }

  /** What a run of a release does: from one database to the next, with its outcome. */
  ghost predicate MigratesTo(ms: seq<Migration>, db: Db, faults: map<int, Fault>, db': Db, out: Outcome) {
    var i := StopAt(ms, db.recorded, faults);
    if i == |ms| then db' == After(db, Missing(ms, db.recorded)) && Judged(ms, db.recorded, out)
    else if TextDiffers(db.recorded, ms[i]) then
      db' == After(db, Missing(ms[..i], db.recorded)) && out == TextChanged(ms[i].version)
    else
      var fault := FaultAt(faults, ms[i].version);
      db' == After(db, Missing(ms[..if fault == CommitFails(true) then i + 1 else i], db.recorded)) &&
      out == Broken(ms[i].version, fault)
  }

  // ---------- The runner

  function InsertVersion(versions: seq<int>, v: int): seq<int> {
    if versions == [] || v < versions[0] then [v] + versions else [versions[0]] + InsertVersion(versions[1..], v)
  }

  lemma {:induction false} InsertLists(versions: seq<int>, vs: set<int>, v: int)
    requires Lists(versions, vs) && v !in vs
    ensures Lists(InsertVersion(versions, v), vs + {v})
  {
    if versions != [] && versions[0] < v {
      assert forall x :: x in versions <==> x == versions[0] || x in versions[1..];
      InsertLists(versions[1..], vs - {versions[0]}, v);
      var rest := InsertVersion(versions[1..], v);
      forall j | 0 <= j < |rest| ensures versions[0] < rest[j] {
        assert rest[j] in rest;
      }
    } else if versions != [] {
      assert versions[0] in versions;
    }
  }

  lemma KnownOneMore(ms: seq<Migration>, i: nat, v: int)
    requires i < |ms|
    ensures ms[..i + 1][..i] == ms[..i]
    ensures Known(ms[..i + 1], v) <==> Known(ms[..i], v) || v == ms[i].version
  {
    assert ms[..i + 1][i] == ms[i];
    if k :| 0 <= k < |ms[..i]| && ms[..i][k].version == v {
      assert ms[..i + 1][k].version == v;
    }
  }

  method KnownVersions(ms: seq<Migration>) returns (known: set<int>, highest: int)
    ensures forall v :: v in known <==> Known(ms, v)
    ensures highest == Highest(ms)
  {
    known, highest := {}, 0;
    for i := 0 to |ms|
      invariant forall v :: v in known <==> Known(ms[..i], v)
      invariant highest == Highest(ms[..i])
    {
      forall v ensures Known(ms[..i + 1], v) <==> Known(ms[..i], v) || v == ms[i].version {
        KnownOneMore(ms, i, v);
      }
      KnownOneMore(ms, i, 0);
      known := known + {ms[i].version};
      if ms[i].version > highest {
        highest := ms[i].version;
      }
    }
    assert ms[..|ms|] == ms;
  }

  /** Sorts the recorded versions without a file: deleted, ahead, and those ahead not marked safe. */
  method Judge(ms: seq<Migration>, applied: map<int, Row>) returns (out: Outcome)
    ensures Judged(ms, applied, out) && (out.Started? || out.FileDeleted? || out.NotSafe?)
  {
    var known, highest := KnownVersions(ms);
    ghost var gone, newer, risky := Deleted(ms, applied), Ahead(ms, applied), Unsafe(ms, applied);
    assert forall v :: v in gone <==> v in applied && v !in known && v < highest;
    assert forall v :: v in newer <==> v in applied && v !in known && v >= highest;
    assert forall v :: v in risky <==> v in newer && applied[v].rollback != "safe";
    hide Known, Highest, Deleted, Ahead, Unsafe, Lists, InsertVersion;
    var deleted, ahead, unsafe := [], [], [];
    NothingListed();
    var left := applied.Keys;
    while left != {}
      invariant left <= applied.Keys
      invariant Lists(deleted, gone - left) && Lists(ahead, newer - left) && Lists(unsafe, risky - left)
    {
      var v :| v in left;
      ghost var before := left;
      left := left - {v};
      OneLess(gone, before, v);
      OneLess(newer, before, v);
      OneLess(risky, before, v);
      if v in known {
      } else if v < highest {
        InsertLists(deleted, gone - before, v);
        deleted := InsertVersion(deleted, v);
      } else {
        InsertLists(ahead, newer - before, v);
        ahead := InsertVersion(ahead, v);
        if applied[v].rollback != "safe" {
          InsertLists(unsafe, risky - before, v);
          unsafe := InsertVersion(unsafe, v);
        }
      }
    }
    NoneLeft(gone, left);
    NoneLeft(newer, left);
    NoneLeft(risky, left);
    ListedAny(deleted, gone);
    ListedAny(unsafe, risky);
    if |deleted| > 0 {
      return FileDeleted(deleted);
    }
    if |unsafe| > 0 {
      return NotSafe(unsafe);
    }
    return Started(ahead);
  }

  lemma NothingListed()
    ensures forall vs: set<int>, left: set<int> :: vs <= left ==> Lists([], vs - left)
  {}

  lemma OneLess(vs: set<int>, left: set<int>, v: int)
    requires v in left
    ensures vs - (left - {v}) == if v in vs then vs - left + {v} else vs - left
  {}

  lemma NoneLeft(vs: set<int>, left: set<int>)
    requires left == {}
    ensures vs - left == vs
  {}

  lemma ListedAny(versions: seq<int>, vs: set<int>)
    requires Lists(versions, vs)
    ensures |versions| > 0 <==> vs != {}
  {
    if |versions| > 0 {
      assert versions[0] in versions;
    } else {
      assert forall v :: v in vs ==> v in versions;
      assert vs == {};
    }
  }

  lemma OneMore(ms: seq<Migration>, i: nat, applied: map<int, Row>)
    requires i < |ms|
    ensures Missing(ms[..i + 1], applied) == Missing(ms[..i], applied) + if ms[i].version in applied then []
            else [ms[i]]
  {
    assert ms[..i + 1][..i] == ms[..i];
  }

  lemma AfterOneMore(db: Db, ms: seq<Migration>, m: Migration)
    ensures After(db, ms + [m]) == WithMigration(After(db, ms), m)
    ensures ms + [] == ms
  {
    assert (ms + [m])[..|ms|] == ms;
  }

  /** The database the migrations are recorded in; the advisory lock keeps other runs away while one is under way. */
  class Database {
    var recorded: map<int, Row>
    var ran: seq<int>

    ghost function View(): Db
      reads this
    {
      Db(recorded, ran)
    }

    /** One migration in one transaction: its text and its record, both or neither. */
    method ApplyOne(m: Migration, fault: Fault) returns (ok: bool)
      modifies this
      ensures ok <==> fault == NoFault
      ensures View() == if ok || fault == CommitFails(true) then WithMigration(old(View()), m) else old(View())
    {
      if fault.BeginFails? {
        return false;
      }
      var txRecorded, txRan := recorded, ran;
      if fault.ApplyFails? {
        return false;
      }
      txRan := txRan + [m.version];
      if fault.RecordFails? {
        return false;
      }
      txRecorded := txRecorded[m.version := Row(m.checksum, m.rollback)];
      if fault == CommitFails(false) {
        return false;
      }
      recorded, ran := txRecorded, txRan;
      return fault.NoFault?;
    }

    /** Applies the missing migrations in order, until one cannot be. */
    method ApplyMissing(ms: seq<Migration>, faults: map<int, Fault>) returns (stopped: Option<Outcome>)
      modifies this
      ensures stopped.None? ==>
                StopAt(ms, old(recorded), faults) == |ms| && View() == After(old(View()), Missing(ms, old(recorded)))
      ensures stopped.Some? ==>
                StopAt(ms, old(recorded), faults) < |ms| &&
                MigratesTo(ms, old(View()), faults, View(), stopped.value)
      ensures stopped.Some? ==> stopped.value.TextChanged? || stopped.value.Broken?
    {
      hide Judged, After, Missing;
      var applied := recorded;
      NothingYet(View(), ms, applied);
      for i := 0 to |ms|
        invariant View() == After(old(View()), Missing(ms[..i], applied))
        invariant forall j :: 0 <= j < i ==> !Stops(applied, faults, ms[j])
      {
        var m := ms[i];
        OneMore(ms, i, applied);
        AfterOneMore(old(View()), Missing(ms[..i], applied), m);
        if m.version in applied {
          if applied[m.version].checksum != m.checksum {
            assert StopAt(ms, applied, faults) == i;
            return Some(TextChanged(m.version));
          }
        } else {
          var fault := FaultAt(faults, m.version);
          var ok := ApplyOne(m, fault);
          if !ok {
            assert StopAt(ms, applied, faults) == i;
            return Some(Broken(m.version, fault));
          }
        }
      }
      assert ms[..|ms|] == ms;
      assert StopAt(ms, applied, faults) == |ms|;
      return None;
    }

    /** Applies a release's missing migrations, and judges what newer releases have left. */
    method MigrateWith(files: seq<File>, noTracking: bool, faults: map<int, Fault>) returns (out: Outcome)
      modifies this
      ensures out.Invalid? <==> !AllFit(files)
      ensures out.Invalid? ==>
                exists i :: 0 <= i < |files| && Says(files, i, out.problem) && forall j :: 0 <= j < i ==> Fits(files, j)
      ensures out.NoTracking? <==> AllFit(files) && noTracking
      ensures out.Invalid? || out.NoTracking? ==> View() == old(View())
      ensures !out.Invalid? && !out.NoTracking? ==>
                exists ms :: IsRelease(files, ms) && MigratesTo(ms, old(View()), faults, View(), out)
    {
      hide Fits, Says, AllFit, IsRelease, Judged, After, Missing, StopAt;
      var loaded := Load(files);
      if loaded.Err? {
        return Invalid(loaded.error);
      }
      if noTracking {
        return NoTracking;
      }
      var ms := loaded.value;
      var applied := recorded;
      var stopped := ApplyMissing(ms, faults);
      if stopped.Some? {
        return stopped.value;
      }
      out := Judge(ms, applied);
      assert MigratesTo(ms, old(View()), faults, View(), out);
    }
  }

  lemma NothingYet(db: Db, ms: seq<Migration>, applied: map<int, Row>)
    ensures After(db, Missing(ms[..0], applied)) == db
  {}

  // ---------- However a run ends

  lemma {:induction false} MissingPrefix(ms: seq<Migration>, i: nat, applied: map<int, Row>)
    requires i <= |ms|
    ensures Missing(ms[..i], applied) <= Missing(ms, applied)
    decreases |ms|
  {
    if i == |ms| {
      assert ms[..i] == ms;
    } else {
      MissingPrefix(ms[..|ms| - 1], i, applied);
      assert ms[..|ms| - 1][..i] == ms[..i];
    }
  }

  lemma {:induction false} MissingMembers(ms: seq<Migration>, applied: map<int, Row>)
    ensures forall m :: m in Missing(ms, applied) <==> m in ms && m.version !in applied
  {
    if ms != [] {
      MissingMembers(ms[..|ms| - 1], applied);
      assert ms == ms[..|ms| - 1] + [ms[|ms| - 1]];
    }
  }

  function Versions(ms: seq<Migration>): seq<int> {
    seq(|ms|, i requires 0 <= i < |ms| => ms[i].version)
  }

  predicate AllNew(db: Db, ms: seq<Migration>) {
    forall i :: 0 <= i < |ms| ==> ms[i].version !in db.recorded
  }

  predicate OldRowsKept(db: Db, db': Db) {
    forall v :: v in db.recorded ==> v in db'.recorded && db'.recorded[v] == db.recorded[v]
  }

  predicate HasRow(db: Db, m: Migration) {
    m.version in db.recorded && db.recorded[m.version] == Row(m.checksum, m.rollback)
  }

  lemma {:induction false} AfterKeeps(db: Db, ms: seq<Migration>)
    requires AllNew(db, ms)
    ensures OldRowsKept(db, After(db, ms))
  {
    if ms != [] {
      AfterKeeps(db, ms[..|ms| - 1]);
    }
  }

  lemma {:induction false} AfterHas(db: Db, ms: seq<Migration>, i: nat)
    requires Ascending(ms) && i < |ms|
    ensures HasRow(After(db, ms), ms[i])
  {
    if i < |ms| - 1 {
      AfterHas(db, ms[..|ms| - 1], i);
    }
  }

  lemma {:induction false} AfterOnly(db: Db, ms: seq<Migration>, v: int)
    requires v in After(db, ms).recorded
    ensures v in db.recorded || Known(ms, v)
  {
    if ms != [] {
      var init, last := ms[..|ms| - 1], ms[|ms| - 1];
      if v == last.version {
        assert ms[|ms| - 1].version == v;
      } else {
        AfterOnly(db, init, v);
        if k :| 0 <= k < |init| && init[k].version == v {
          assert ms[k].version == v;
        }
      }
    }
  }

  lemma {:induction false} AfterRan(db: Db, ms: seq<Migration>)
    ensures After(db, ms).ran == db.ran + Versions(ms)
  {
    if ms == [] {
      assert db.ran + [] == db.ran;
    } else {
      AfterRan(db, ms[..|ms| - 1]);
      assert Versions(ms) == Versions(ms[..|ms| - 1]) + [ms[|ms| - 1].version];
    }
  }

  lemma {:induction false} MissingAscends(ms: seq<Migration>, applied: map<int, Row>)
    requires Ascending(ms)
    ensures Ascending(Missing(ms, applied))
  {
    if ms != [] {
      var init := ms[..|ms| - 1];
      MissingAscends(init, applied);
      MissingMembers(init, applied);
      var missing := Missing(init, applied);
      forall j | 0 <= j < |missing| ensures missing[j].version < ms[|ms| - 1].version {
        assert missing[j] in init;
      }
    }
  }

  lemma PrefixIsNew(ms: seq<Migration>, db: Db, k: nat)
    requires Ascending(ms) && k <= |Missing(ms, db.recorded)|
    ensures Ascending(Missing(ms, db.recorded)[..k]) && AllNew(db, Missing(ms, db.recorded)[..k])
  {
    MissingAscends(ms, db.recorded);
    MissingMembers(ms, db.recorded);
    forall i | 0 <= i < k ensures Missing(ms, db.recorded)[i].version !in db.recorded {
      assert Missing(ms, db.recorded)[i] in Missing(ms, db.recorded);
    }
  }

  /** However a run ends, it leaves the old rows as they were, plus the rows of a prefix of the missing migrations. */
  lemma EndsAtPrefix(ms: seq<Migration>, db: Db, faults: map<int, Fault>, db': Db, out: Outcome) returns (k: nat)
    requires Ascending(ms) && MigratesTo(ms, db, faults, db', out)
    ensures k <= |Missing(ms, db.recorded)| && db' == After(db, Missing(ms, db.recorded)[..k])
    ensures OldRowsKept(db, db') && db'.ran == db.ran + Versions(Missing(ms, db.recorded)[..k])
    ensures !out.TextChanged? && !out.Broken? ==> k == |Missing(ms, db.recorded)|
  {
    hide Missing, After, Judged;
    var i := StopAt(ms, db.recorded, faults);
    var done := if i < |ms| && out == Broken(ms[i].version, CommitFails(true)) then i + 1 else i;
    MissingPrefix(ms, done, db.recorded);
    k := |Missing(ms[..done], db.recorded)|;
    assert ms[..|ms|] == ms;
    assert Missing(ms, db.recorded)[..k] == Missing(ms[..done], db.recorded);
    PrefixIsNew(ms, db, k);
    AfterKeeps(db, Missing(ms, db.recorded)[..k]);
    AfterRan(db, Missing(ms, db.recorded)[..k]);
  }

  ghost predicate AllRecorded(ms: seq<Migration>, applied: map<int, Row>) {
    forall i :: 0 <= i < |ms| ==> ms[i].version in applied && applied[ms[i].version].checksum == ms[i].checksum
  }

  lemma Finished(ms: seq<Migration>, db: Db, faults: map<int, Fault>, db': Db, out: Outcome)
    requires MigratesTo(ms, db, faults, db', out) && !out.TextChanged? && !out.Broken?
    ensures db' == After(db, Missing(ms, db.recorded)) &&
            forall i :: 0 <= i < |ms| ==> !Stops(db.recorded, faults, ms[i])
  {}

  lemma NewRow(ms: seq<Migration>, i: nat, db: Db, faults: map<int, Fault>, db': Db, out: Outcome)
    requires Ascending(ms) && MigratesTo(ms, db, faults, db', out) && !out.TextChanged? && !out.Broken?
    requires i < |ms| && ms[i].version !in db.recorded
    ensures HasRow(db', ms[i])
  {
    hide Judged, Missing, After, HasRow;
    var missing := Missing(ms, db.recorded);
    Finished(ms, db, faults, db', out);
    hide MigratesTo, Stops;
    MissingMembers(ms, db.recorded);
    MissingAscends(ms, db.recorded);
    assert ms[i] in missing;
    var j :| 0 <= j < |missing| && missing[j] == ms[i];
    AfterHas(db, missing, j);
  }

  lemma OldRow(ms: seq<Migration>, i: nat, db: Db, faults: map<int, Fault>, db': Db, out: Outcome)
    requires Ascending(ms) && MigratesTo(ms, db, faults, db', out) && !out.TextChanged? && !out.Broken?
    requires i < |ms| && ms[i].version in db.recorded
    ensures ms[i].version in db'.recorded && db'.recorded[ms[i].version].checksum == ms[i].checksum
  {
    hide Judged, Missing, After;
    Finished(ms, db, faults, db', out);
    hide MigratesTo;
    var k := EndsAtPrefix(ms, db, faults, db', out);
    assert !Stops(db.recorded, faults, ms[i]);
  }

  /** A run that is not stopped on the way records every file with its checksum, and nothing else. */
  lemma FinishedRecordsAll(ms: seq<Migration>, db: Db, faults: map<int, Fault>, db': Db, out: Outcome)
    requires Ascending(ms) && MigratesTo(ms, db, faults, db', out) && !out.TextChanged? && !out.Broken?
    ensures AllRecorded(ms, db'.recorded)
    ensures forall v :: v in db'.recorded ==> v in db.recorded || Known(ms, v)
  {
    hide Judged, Missing, After, Stops, StopAt;
    Finished(ms, db, faults, db', out);
    forall i | 0 <= i < |ms|
      ensures ms[i].version in db'.recorded && db'.recorded[ms[i].version].checksum == ms[i].checksum
    {
      if ms[i].version in db.recorded {
        OldRow(ms, i, db, faults, db', out);
      } else {
        NewRow(ms, i, db, faults, db', out);
      }
    }
    hide MigratesTo;
    forall v | v in db'.recorded ensures v in db.recorded || Known(ms, v) {
      OnlyFiles(ms, db, v);
    }
  }

  lemma OnlyFiles(ms: seq<Migration>, db: Db, v: int)
    requires v in After(db, Missing(ms, db.recorded)).recorded
    ensures v in db.recorded || Known(ms, v)
  {
    hide Missing, After;
    var missing := Missing(ms, db.recorded);
    AfterOnly(db, missing, v);
    MissingMembers(ms, db.recorded);
    if j :| 0 <= j < |missing| && missing[j].version == v {
      assert missing[j] in missing && missing[j] in ms;
    }
  }

  lemma {:induction false} NothingMissing(ms: seq<Migration>, applied: map<int, Row>)
    requires AllRecorded(ms, applied)
    ensures Missing(ms, applied) == []
  {
    if ms != [] {
      NothingMissing(ms[..|ms| - 1], applied);
    }
  }

  /**
   * With every file recorded as it is, a run changes nothing, whatever might fail, and only judges the other versions.
   */
  lemma RecordedRunsNothing(ms: seq<Migration>, db: Db, faults: map<int, Fault>, db': Db, out: Outcome)
    requires AllRecorded(ms, db.recorded) && MigratesTo(ms, db, faults, db', out)
    ensures db' == db && Judged(ms, db.recorded, out)
  {
    NothingMissing(ms, db.recorded);
    assert StopAt(ms, db.recorded, faults) == |ms|;
  }

  lemma {:induction false} ListsUnique(a: seq<int>, b: seq<int>, vs: set<int>)
    requires Lists(a, vs) && Lists(b, vs)
    ensures a == b
  {
    ListedAny(a, vs);
    ListedAny(b, vs);
    if a != [] {
      assert a[0] in a && a[0] in b;
      assert b[0] in b && b[0] in a;
      assert a[0] == b[0];
      RestLists(a, vs);
      RestLists(b, vs);
      ListsUnique(a[1..], b[1..], vs - {a[0]});
    }
  }

  lemma RestLists(a: seq<int>, vs: set<int>)
    requires a != [] && Lists(a, vs)
    ensures Lists(a[1..], vs - {a[0]})
  {
    forall v ensures v in a[1..] <==> v in vs - {a[0]} {
      assert a == [a[0]] + a[1..];
      if v in a[1..] {
        var k :| 0 <= k < |a[1..]| && a[1..][k] == v;
        assert a[k + 1] == v;
      }
    }
  }

  lemma JudgedKinds(ms: seq<Migration>, applied: map<int, Row>, out: Outcome)
    requires Judged(ms, applied, out)
    ensures !out.TextChanged? && !out.Broken?
  {}

  lemma JudgedUnique(ms: seq<Migration>, applied: map<int, Row>, a: Outcome, b: Outcome)
    requires Judged(ms, applied, a) && Judged(ms, applied, b)
    ensures a == b
  {
    hide Lists, Deleted, Ahead, Unsafe;
    if Deleted(ms, applied) != {} {
      ListsUnique(a.versions, b.versions, Deleted(ms, applied));
    } else if Unsafe(ms, applied) != {} {
      ListsUnique(a.versions, b.versions, Unsafe(ms, applied));
    } else {
      ListsUnique(a.ahead, b.ahead, Ahead(ms, applied));
    }
  }

  /** Rows of the release's own files play no part in what is judged. */
  lemma SameJudgement(ms: seq<Migration>, applied: map<int, Row>, applied': map<int, Row>, out: Outcome)
    requires Judged(ms, applied, out)
    requires forall v :: v in applied ==> v in applied' && applied'[v] == applied[v]
    requires forall v :: v in applied' ==> v in applied || Known(ms, v)
    ensures Judged(ms, applied', out)
  {
    hide Known, Highest;
    assert Deleted(ms, applied) == Deleted(ms, applied');
    assert Ahead(ms, applied) == Ahead(ms, applied');
    assert Unsafe(ms, applied) == Unsafe(ms, applied');
  }

  /** A run that came to its end is repeated without doing anything, and says the same. */
  lemma RerunSaysTheSame(ms: seq<Migration>, db: Db, faults: map<int, Fault>, db1: Db, out1: Outcome,
                         faults2: map<int, Fault>, db2: Db, out2: Outcome)
    requires Ascending(ms) && MigratesTo(ms, db, faults, db1, out1) && !out1.TextChanged? && !out1.Broken?
    requires MigratesTo(ms, db1, faults2, db2, out2)
    ensures db2 == db1 && out2 == out1
  {
    var k := EndsAtPrefix(ms, db, faults, db1, out1);
    FinishedRecordsAll(ms, db, faults, db1, out1);
    RecordedRunsNothing(ms, db1, faults2, db2, out2);
    hide Judged, After, Missing;
    SameJudgement(ms, db.recorded, db1.recorded, out1);
    JudgedUnique(ms, db1.recorded, out1, out2);
  }

  // ---------- An interrupted run is made good by the next

  lemma {:induction false} AfterJoins(db: Db, a: seq<Migration>, b: seq<Migration>)
    ensures After(After(db, a), b) == After(db, a + b)
  {
    if b == [] {
      assert a + b == a;
    } else {
      AfterJoins(db, a, b[..|b| - 1]);
      assert (a + b)[..|a + b| - 1] == a + b[..|b| - 1];
    }
  }

  /**
   * With the missing ones among the first d recorded, a migration's row is the old one, its own, or still not there.
   */
  lemma RowNow(ms: seq<Migration>, d: nat, db: Db, j: nat)
    requires Ascending(ms) && d <= |ms| && j < |ms|
    ensures var db' := After(db, Missing(ms[..d], db.recorded));
            OldRowsKept(db, db') &&
            (ms[j].version !in db.recorded ==> if j < d then HasRow(db', ms[j]) else ms[j].version !in db'.recorded)
  {
    var missing := Missing(ms[..d], db.recorded);
    MissingMembers(ms[..d], db.recorded);
    MissingAscends(ms[..d], db.recorded);
    forall i | 0 <= i < |missing| ensures missing[i].version !in db.recorded {
      assert missing[i] in missing;
    }
    hide Missing, After;
    AfterKeeps(db, missing);
    if ms[j].version !in db.recorded {
      if j < d {
        assert ms[..d][j] in missing;
        var i :| 0 <= i < |missing| && missing[i] == ms[j];
        AfterHas(db, missing, i);
      } else {
        assert !Known(ms[..d], ms[j].version);
        if ms[j].version in After(db, missing).recorded {
          OnlyFiles(ms[..d], db, ms[j].version);
        }
      }
    }
  }

  lemma {:induction false} MissingRest(ms: seq<Migration>, d: nat, i: nat, db: Db)
    requires Ascending(ms) && d <= i <= |ms|
    ensures var db' := After(db, Missing(ms[..d], db.recorded));
            Missing(ms[..i], db.recorded) == Missing(ms[..d], db.recorded) + Missing(ms[..i], db'.recorded)
  {
    hide Missing, After;
    var db' := After(db, Missing(ms[..d], db.recorded));
    if i == d {
      forall j | 0 <= j < d
        ensures ms[..d][j].version in db'.recorded && (ms[j].version in db.recorded || HasRow(db', ms[j]))
      {
        RowNow(ms, d, db, j);
      }
      AllThere(ms[..d], db'.recorded);
    } else {
      MissingRest(ms, d, i - 1, db);
      OneMore(ms, i - 1, db.recorded);
      OneMore(ms, i - 1, db'.recorded);
      RowNow(ms, d, db, i - 1);
    }
  }

  lemma {:induction false} AllThere(ms: seq<Migration>, applied: map<int, Row>)
    requires forall i :: 0 <= i < |ms| ==> ms[i].version in applied
    ensures Missing(ms, applied) == []
  {
    if ms != [] {
      AllThere(ms[..|ms| - 1], applied);
    }
  }

  lemma NoLater(ms: seq<Migration>, applied: map<int, Row>, faults: map<int, Fault>, i: nat)
    requires i < |ms| && Stops(applied, faults, ms[i])
    ensures StopAt(ms, applied, faults) <= i
  {}

  /** How far a run got, and it is no further than where a clean one stops. */
  lemma GotTo(ms: seq<Migration>, db: Db, faults: map<int, Fault>, db': Db, out: Outcome) returns (d: nat)
    requires MigratesTo(ms, db, faults, db', out)
    ensures d <= StopAt(ms, db.recorded, map[]) && db' == After(db, Missing(ms[..d], db.recorded))
  {
    hide Judged, Missing, After;
    var stop, end := StopAt(ms, db.recorded, faults), StopAt(ms, db.recorded, map[]);
    if end < |ms| {
      NoLater(ms, db.recorded, faults, end);
    }
    d := if stop < |ms| && out == Broken(ms[stop].version, CommitFails(true)) then stop + 1 else stop;
    assert ms[..|ms|] == ms;
  }

  lemma SameStop(ms: seq<Migration>, d: nat, db: Db)
    requires Ascending(ms) && d <= |ms|
    ensures var db' := After(db, Missing(ms[..d], db.recorded));
            StopAt(ms, db'.recorded, map[]) == StopAt(ms, db.recorded, map[]) &&
            forall j :: 0 <= j < |ms| ==> (TextDiffers(db'.recorded, ms[j]) <==> TextDiffers(db.recorded, ms[j]))
  {
    hide Missing, After;
    var db' := After(db, Missing(ms[..d], db.recorded));
    forall j | 0 <= j < |ms|
      ensures Stops(db'.recorded, map[], ms[j]) <==> Stops(db.recorded, map[], ms[j])
      ensures TextDiffers(db'.recorded, ms[j]) <==> TextDiffers(db.recorded, ms[j])
    {
      RowNow(ms, d, db, j);
    }
    hide Stops, TextDiffers;
    var here, there := StopAt(ms, db'.recorded, map[]), StopAt(ms, db.recorded, map[]);
    if here < |ms| {
      NoLater(ms, db.recorded, map[], here);
    }
    if there < |ms| {
      NoLater(ms, db'.recorded, map[], there);
    }
  }

  /**
   * A run that ended anywhere leaves the next one exactly what is left to do: together they do what one clean run
   * does.
   */
  lemma InterruptionIsHarmless(ms: seq<Migration>, db: Db, faults: map<int, Fault>, db1: Db, out1: Outcome,
                               db2: Db, out2: Outcome, clean: Db, out: Outcome)
    requires Ascending(ms) && MigratesTo(ms, db, faults, db1, out1) && MigratesTo(ms, db1, map[], db2, out2)
    requires MigratesTo(ms, db, map[], clean, out)
    ensures db2 == clean && out2 == out
  {
    hide Judged, Missing, After, TextDiffers, Stops;
    var end := StopAt(ms, db.recorded, map[]);
    var d := GotTo(ms, db, faults, db1, out1);
    SameStop(ms, d, db);
    MissingRest(ms, d, end, db);
    AfterJoins(db, Missing(ms[..d], db.recorded), Missing(ms[..end], db1.recorded));
    assert ms[..|ms|] == ms;
    if end == |ms| {
      forall v | v in db1.recorded ensures v in db.recorded || Known(ms, v) {
        OnlyThese(ms, d, db, v);
      }
      RowsKept(ms, d, db);
      SameJudgement(ms, db.recorded, db1.recorded, out);
      JudgedUnique(ms, db1.recorded, out, out2);
    } else {
      CleanStop(ms, db, clean, out);
      CleanStop(ms, db1, db2, out2);
    }
  }

  /** Without faults, only a changed text stops a run. */
  lemma CleanStop(ms: seq<Migration>, db: Db, db': Db, out: Outcome)
    requires MigratesTo(ms, db, map[], db', out) && StopAt(ms, db.recorded, map[]) < |ms|
    ensures var end := StopAt(ms, db.recorded, map[]);
            db' == After(db, Missing(ms[..end], db.recorded)) && out == TextChanged(ms[end].version)
  {
    hide Judged, Missing, After;
  }

  lemma RowsKept(ms: seq<Migration>, d: nat, db: Db)
    requires d <= |ms|
    ensures OldRowsKept(db, After(db, Missing(ms[..d], db.recorded)))
  {
    var missing := Missing(ms[..d], db.recorded);
    MissingMembers(ms[..d], db.recorded);
    forall i | 0 <= i < |missing| ensures missing[i].version !in db.recorded {
      assert missing[i] in missing;
    }
    AfterKeeps(db, missing);
  }

  lemma OnlyThese(ms: seq<Migration>, d: nat, db: Db, v: int)
    requires d <= |ms| && v in After(db, Missing(ms[..d], db.recorded)).recorded
    ensures v in db.recorded || Known(ms, v)
  {
    hide Missing, After;
    OnlyFiles(ms[..d], db, v);
    if k :| 0 <= k < d && ms[..d][k].version == v {
      assert ms[k].version == v;
    }
  }

  // ---------- Where a run ends, and what it says

  /** Nothing is wrong with a migration: recorded with the same text, or its transaction goes through. */
  predicate GoesThrough(db: Db, faults: map<int, Fault>, m: Migration) {
    if m.version in db.recorded then db.recorded[m.version].checksum == m.checksum
    else m.version !in faults || faults[m.version] == NoFault
  }

  lemma GoesThroughExactly(db: Db, faults: map<int, Fault>, m: Migration)
    ensures GoesThrough(db, faults, m) <==> !Stops(db.recorded, faults, m)
  {}

  /** A run is stopped exactly where something is wrong with a migration, and by the first such. */
  lemma StoppedOrNot(ms: seq<Migration>, db: Db, faults: map<int, Fault>, db': Db, out: Outcome)
    requires MigratesTo(ms, db, faults, db', out)
    ensures !out.TextChanged? && !out.Broken? <==> forall i :: 0 <= i < |ms| ==> GoesThrough(db, faults, ms[i])
  {
    var stop := StopAt(ms, db.recorded, faults);
    hide Stops, After, Missing;
    forall i | 0 <= i < |ms| ensures GoesThrough(db, faults, ms[i]) <==> !Stops(db.recorded, faults, ms[i]) {
      GoesThroughExactly(db, faults, ms[i]);
    }
    if stop == |ms| {
      JudgedKinds(ms, db.recorded, out);
    } else {
      assert Stops(db.recorded, faults, ms[stop]);
    }
  }

  /**
   * A stopped run names the first migration that does not go through, and why, and has recorded what was missing
   * before it. That one is recorded too if only its commit's answer was lost; nothing after it is.
   */
  lemma StoppedAt(ms: seq<Migration>, db: Db, faults: map<int, Fault>, db': Db, out: Outcome) returns (i: nat)
    requires Ascending(ms) && MigratesTo(ms, db, faults, db', out) && (out.TextChanged? || out.Broken?)
    ensures i < |ms| && !GoesThrough(db, faults, ms[i]) && forall j :: 0 <= j < i ==> GoesThrough(db, faults, ms[j])
    ensures out == if ms[i].version in db.recorded then TextChanged(ms[i].version)
                   else Broken(ms[i].version, faults[ms[i].version])
    ensures OldRowsKept(db, db')
    ensures forall j :: 0 <= j < |ms| && ms[j].version !in db.recorded ==>
              (ms[j].version in db'.recorded <==>
                 j < i || (j == i && faults[ms[j].version] == CommitFails(true)))
  {
    hide After, Missing, Judged;
    i := StopAt(ms, db.recorded, faults);
    if i == |ms| {
      assert Judged(ms, db.recorded, out);
      JudgedKinds(ms, db.recorded, out);
      assert false;
    }
    forall j | 0 <= j <= i ensures GoesThrough(db, faults, ms[j]) <==> !Stops(db.recorded, faults, ms[j]) {
      GoesThroughExactly(db, faults, ms[j]);
    }
    var done := if out == Broken(ms[i].version, CommitFails(true)) then i + 1 else i;
    assert db' == After(db, Missing(ms[..done], db.recorded));
    hide MigratesTo, Stops, GoesThrough;
    RowsKept(ms, done, db);
    forall j | 0 <= j < |ms| && ms[j].version !in db.recorded ensures ms[j].version in db'.recorded <==> j < done {
      RowNow(ms, done, db, j);
    }
  }

  /** A recorded version without a file, within the release's own range: below one of its versions, or below zero. */
  ghost predicate WasDeleted(ms: seq<Migration>, db: Db, v: int) {
    v in db.recorded && (forall i :: 0 <= i < |ms| ==> ms[i].version != v) &&
    (v < 0 || exists i :: 0 <= i < |ms| && v < ms[i].version)
  }

  /** A recorded version above all of the release's. */
  ghost predicate IsAhead(ms: seq<Migration>, db: Db, v: int) {
    v in db.recorded && v >= 0 && forall i :: 0 <= i < |ms| ==> ms[i].version < v
  }

  lemma GoneOrNewer(ms: seq<Migration>, db: Db, v: int)
    ensures v in Deleted(ms, db.recorded) <==> WasDeleted(ms, db, v)
    ensures v in Ahead(ms, db.recorded) <==> IsAhead(ms, db, v)
    ensures v in Unsafe(ms, db.recorded) <==> IsAhead(ms, db, v) && db.recorded[v].rollback != "safe"
  {
    var h := Highest(ms);
    if h != 0 {
      var i :| 0 <= i < |ms| && ms[i].version == h;
      assert v < h ==> v < ms[i].version;
      assert v > h ==> ms[i].version < v;
    }
  }

  /**
   * A run not stopped on the way ends in one of three ways. It refuses if a version within the release's range has
   * lost its file, else if a version ahead of it is not marked safe, and lists exactly those; else it starts and
   * lists exactly the versions ahead.
   */
  lemma FinishedExactly(ms: seq<Migration>, db: Db, faults: map<int, Fault>, db': Db, out: Outcome)
    requires MigratesTo(ms, db, faults, db', out) && !out.TextChanged? && !out.Broken?
    ensures out.FileDeleted? <==> exists v :: WasDeleted(ms, db, v)
    ensures out.FileDeleted? ==> Lists(out.versions, set v | v in db.recorded && WasDeleted(ms, db, v))
    ensures out.NotSafe? <==>
            (forall v :: !WasDeleted(ms, db, v)) &&
              exists v :: IsAhead(ms, db, v) && db.recorded[v].rollback != "safe"
    ensures out.NotSafe? ==>
              Lists(out.versions, set v | v in db.recorded && IsAhead(ms, db, v) && db.recorded[v].rollback != "safe")
    ensures !out.FileDeleted? && !out.NotSafe? ==>
              out.Started? && Lists(out.ahead, set v | v in db.recorded && IsAhead(ms, db, v))
  {
    hide Lists, Known, Highest, Missing, After;
    assert Judged(ms, db.recorded, out);
    hide MigratesTo, Deleted, Ahead, Unsafe, WasDeleted, IsAhead;
    ThreeSets(ms, db);
    var gone, risky := Deleted(ms, db.recorded), Unsafe(ms, db.recorded);
    assert forall v :: WasDeleted(ms, db, v) <==> v in gone;
    assert forall v :: IsAhead(ms, db, v) && db.recorded[v].rollback != "safe" <==> v in risky;
    if gone != {} {
      var v :| v in gone;
    } else if risky != {} {
      var v :| v in risky;
    }
  }

  lemma ThreeSets(ms: seq<Migration>, db: Db)
    ensures Deleted(ms, db.recorded) == set v | v in db.recorded && WasDeleted(ms, db, v)
    ensures Ahead(ms, db.recorded) == set v | v in db.recorded && IsAhead(ms, db, v)
    ensures Unsafe(ms, db.recorded) ==
            set v | v in db.recorded && IsAhead(ms, db, v) && db.recorded[v].rollback != "safe"
    ensures forall v :: WasDeleted(ms, db, v) || IsAhead(ms, db, v) ==> v in db.recorded
  {
    forall v
      ensures v in Deleted(ms, db.recorded) <==> WasDeleted(ms, db, v)
      ensures v in Ahead(ms, db.recorded) <==> IsAhead(ms, db, v)
      ensures v in Unsafe(ms, db.recorded) <==> IsAhead(ms, db, v) && db.recorded[v].rollback != "safe"
    {
      GoneOrNewer(ms, db, v);
    }
    hide Deleted, Ahead, Unsafe;
  }

  /** A release's files after a run that was not stopped: each recorded with its text, a new one with its rollback. */
  lemma FilesRecorded(files: seq<File>, ms: seq<Migration>, db: Db, faults: map<int, Fault>, db': Db, out: Outcome,
                      i: nat)
    requires IsRelease(files, ms) && i < |files| && WellNamed(files[i].fileName) && files[i].body.Some?
    requires MigratesTo(ms, db, faults, db', out) && !out.TextChanged? && !out.Broken?
    ensures var v, body := VersionOf(files[i].fileName), files[i].body.value;
            v in db'.recorded && db'.recorded[v].checksum == body.checksum &&
            (v !in db.recorded ==> db'.recorded[v].rollback == body.rollback)
  {
    hide MigratesTo;
    assert Loaded(files[i], MigrationOf(files[i]));
    assert MigrationOf(files[i]) in ms;
    var k :| 0 <= k < |ms| && ms[k] == MigrationOf(files[i]);
    if ms[k].version in db.recorded {
      OldRow(ms, k, db, faults, db', out);
    } else {
      NewRow(ms, k, db, faults, db', out);
    }
  }

  // ---------- Older releases

  /**
   * A release whose versions all lie below the others recorded, and that can apply what it still has to,
   * starts exactly when every one of those others was recorded "safe".
   */
  lemma OlderReleaseStarts(ms: seq<Migration>, db: Db, faults: map<int, Fault>, db': Db, out: Outcome)
    requires MigratesTo(ms, db, faults, db', out) && !out.TextChanged? && !out.Broken?
    requires forall v :: v in db.recorded && !Known(ms, v) ==> v >= Highest(ms)
    ensures out.Started? || out.NotSafe?
    ensures out.Started? <==> forall v :: v in db.recorded && !Known(ms, v) ==> db.recorded[v].rollback == "safe"
    ensures out.Started? ==> Lists(out.ahead, set v | v in db.recorded && !Known(ms, v))
    ensures out.NotSafe? ==>
              Lists(out.versions, set v | v in db.recorded && !Known(ms, v) && db.recorded[v].rollback != "safe")
  {
    hide Known, Highest, Lists, Missing, After;
    assert Judged(ms, db.recorded, out);
    assert Deleted(ms, db.recorded) == {};
    assert Ahead(ms, db.recorded) == set v | v in db.recorded && !Known(ms, v);
    assert Unsafe(ms, db.recorded) == set v | v in db.recorded && !Known(ms, v) && db.recorded[v].rollback != "safe";
    if v :| v in db.recorded && !Known(ms, v) && db.recorded[v].rollback != "safe" {
      assert v in Unsafe(ms, db.recorded);
    }
  }

  /** Rolling back one release: the one before starts exactly when each migration the newer one added said "safe". */
  lemma RollbackStarts(ms: seq<Migration>, more: seq<Migration>, db: Db, faults: map<int, Fault>, db1: Db,
                       faults2: map<int, Fault>, db2: Db, out: Outcome)
    requires Ascending(ms + more) && forall i :: 0 <= i < |more| ==> more[i].version >= 0
    requires forall v :: v in db.recorded ==> Known(ms, v)
    requires MigratesTo(ms + more, db, faults, db1, Started([]))
    requires MigratesTo(ms, db1, faults2, db2, out)
    ensures db2 == db1 && (out.Started? || out.NotSafe?)
    ensures out.Started? <==> forall i :: 0 <= i < |more| ==> more[i].rollback == "safe"
  {
    hide Judged, MigratesTo, Lists;
    var all := ms + more;
    FinishedRecordsAll(all, db, faults, db1, Started([]));
    forall i | 0 <= i < |ms|
      ensures ms[i].version in db1.recorded && db1.recorded[ms[i].version].checksum == ms[i].checksum
    {
      assert all[i] == ms[i];
    }
    forall v | v in db1.recorded && !Known(ms, v) ensures exists i :: 0 <= i < |more| && more[i].version == v {
      var k :| 0 <= k < |all| && all[k].version == v;
      assert k >= |ms|;
      assert more[k - |ms|].version == v;
    }
    forall i | 0 <= i < |more|
      ensures !Known(ms, more[i].version) && more[i].version >= Highest(ms) && HasRow(db1, more[i])
    {
      assert all[|ms| + i] == more[i];
      forall j | 0 <= j < |ms| ensures ms[j].version < more[i].version {
        assert all[j] == ms[j];
      }
      NewRow(all, |ms| + i, db, faults, db1, Started([]));
    }
    RecordedRunsNothing(ms, db1, faults2, db2, out);
    JudgedKinds(ms, db1.recorded, out);
    OlderReleaseStarts(ms, db1, faults2, db2, out);
  }

  // ---------- Many runs, of any releases

  datatype Attempt = Attempt(ms: seq<Migration>, faults: map<int, Fault>, out: Outcome)

  ghost predicate Chain(dbs: seq<Db>, attempts: seq<Attempt>) {
    |dbs| == |attempts| + 1 &&
    forall i :: 0 <= i < |attempts| ==>
      Ascending(attempts[i].ms) && MigratesTo(attempts[i].ms, dbs[i], attempts[i].faults, dbs[i + 1], attempts[i].out)
  }

  /** The versions recorded are those whose text has taken effect, each once. */
  ghost predicate RanOnce(db: Db) {
    (forall i, j :: 0 <= i < j < |db.ran| ==> db.ran[i] != db.ran[j]) && forall v :: v in db.ran <==> v in db.recorded
  }

  lemma {:induction false} AfterRanOnce(db: Db, ms: seq<Migration>)
    requires RanOnce(db) && Ascending(ms) && AllNew(db, ms)
    ensures RanOnce(After(db, ms))
  {
    if ms != [] {
      var init, last := ms[..|ms| - 1], ms[|ms| - 1];
      AfterRanOnce(db, init);
      if last.version in After(db, init).recorded {
        AfterOnly(db, init, last.version);
        assert false;
      }
      var before := After(db, init);
      forall v ensures v in before.ran + [last.version] <==> v in before.ran || v == last.version {}
    }
  }

  /**
   * Over any number of runs of any releases, no migration runs twice, none is half done, and no row is ever altered.
   */
  lemma {:induction false} ManyRuns(dbs: seq<Db>, attempts: seq<Attempt>)
    requires Chain(dbs, attempts) && RanOnce(dbs[0])
    ensures RanOnce(dbs[|attempts|]) && OldRowsKept(dbs[0], dbs[|attempts|])
  {
    if attempts != [] {
      var n := |attempts| - 1;
      ManyRuns(dbs[..n + 1], attempts[..n]);
      var a := attempts[n];
      var k := EndsAtPrefix(a.ms, dbs[n], a.faults, dbs[n + 1], a.out);
      hide MigratesTo, After, Missing;
      PrefixIsNew(a.ms, dbs[n], k);
      AfterRanOnce(dbs[n], Missing(a.ms, dbs[n].recorded)[..k]);
    }
  }
}
