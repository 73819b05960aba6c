/** Which modules a shop runs, kept for a moment: readers that cannot put back what a switch has made old. */
module ModuleCache {
  import Runs
  import opened Wrappers

  type Shop = string
  type Module = string
  type ReaderId = nat

  /** How long an entry answers, in milliseconds. */
  const KEPT_FOR: nat := 5000

  datatype Entry = Entry(on: set<Module>, at: nat)

  datatype Cache = Cache(shops: map<Shop, Entry>, gen: nat)

  // ---------- The critical sections

  function Hit(c: Cache, shop: Shop, now: nat): Option<set<Module>> {
    if shop in c.shops && now - c.shops[shop].at < KEPT_FOR then Some(c.shops[shop].on) else None
  }

  /** A read stores what it found only if nothing was forgotten since it looked. */
  function Stored(c: Cache, shop: Shop, on: set<Module>, now: nat, gen: nat): Cache {
    if c.gen == gen then c.(shops := c.shops[shop := Entry(on, now)]) else c
  }

  function Forgotten(c: Cache): Cache {
    Cache(map[], c.gen + 1)
  }

  class ModuleCache {
    var shops: map<Shop, Entry>
    var gen: nat

    ghost function View(): Cache
      reads this
    {
      Cache(shops, gen)
    }

    constructor ()
      ensures View() == Cache(map[], 0)
    {
      shops, gen := map[], 0;
    }

    method Lookup(shop: Shop, now: nat) returns (hit: Option<set<Module>>, seen: nat)
      ensures hit == Hit(View(), shop, now) && seen == gen
    {
      hit, seen := None, gen;
      if shop in shops {
        var cached := shops[shop];
        if now - cached.at < KEPT_FOR {
          hit := Some(cached.on);
        }
      }
    }

    method Store(shop: Shop, on: set<Module>, now: nat, seen: nat)
      modifies this`shops
      ensures View() == Stored(old(View()), shop, on, now, seen)
    {
      if gen == seen {
        shops := shops[shop := Entry(on, now)];
      }
    }

    method Forget()
      modifies this
      ensures View() == Forgotten(old(View()))
    {
      shops := map[];
      gen := gen + 1;
    }

    /** One request with nothing else under way; found is what the database says, or none when reading it fails. */
    method Runs(shop: Shop, m: Module, found: Option<seq<Module>>, looked: nat, stored: nat)
      returns (answer: Option<bool>)
      modifies this`shops
      ensures shop == "" ==> answer == Some(false) && View() == old(View())
      ensures shop != "" && old(Hit(View(), shop, looked)).Some? ==>
                answer == Some(m in old(Hit(View(), shop, looked)).value) && View() == old(View())
      ensures shop != "" && old(Hit(View(), shop, looked)).None? && found.None? ==>
                answer == None && View() == old(View())
      ensures shop != "" && old(Hit(View(), shop, looked)).None? && found.Some? ==>
                answer == Some(m in found.value) &&
                View() == Stored(old(View()), shop, (set x | x in found.value), stored, old(gen))
    {
      if shop == "" {
        return Some(false);
      }
      var hit, seen := Lookup(shop, looked);
      if hit.Some? {
        return Some(m in hit.value);
      }
      if found.None? {
        return None;
      }
      var on: set<Module> := {};
      for i := 0 to |found.value|
        invariant on == set x | x in found.value[..i]
      {
        on := on + {found.value[i]};
      }
      assert found.value[..|found.value|] == found.value;
      Store(shop, on, stored, seen);
      return Some(m in on);
    }
  }

  // ---------- Readers and switches, interleaved

  /** A request, from looking to storing. */
  datatype Reader =
    | Looked(shop: Shop, m: Module, gen: nat)
    | Found(shop: Shop, m: Module, gen: nat, on: set<Module>)
    | Answered(shop: Shop, m: Module, answer: bool)
    | Failed

  /**
   * What the database holds, the cache, the committed switches still waiting for their forget, and the shops
   * whose modules have changed since anything was last forgotten.
   */
  datatype State = State(db: map<Shop, set<Module>>, cache: Cache, pending: multiset<Shop>, changed: set<Shop>,
                         readers: map<ReaderId, Reader>, now: nat)

  datatype Step =
    | Look(r: ReaderId, shop: Shop, m: Module)
    | Read(r: ReaderId)
    | ReadFails(r: ReaderId)
    | Store(r: ReaderId)
    | CommitSwitch(shop: Shop, on: set<Module>)
    | Forget(shop: Shop)
    | ChangedElsewhere(shop: Shop, on: set<Module>)
    | Tick(passed: nat)

  function Modules(db: map<Shop, set<Module>>, shop: Shop): set<Module> {
    if shop in db then db[shop] else {}
  }

  function Init(db: map<Shop, set<Module>>): State {
    State(db, Cache(map[], 0), multiset{}, {}, map[], 0)
  }

  predicate Enabled(s: State, step: Step) {
    match step
    case Look(r, _, _) => r !in s.readers
    case Read(r) => r in s.readers && s.readers[r].Looked?
    case ReadFails(r) => r in s.readers && s.readers[r].Looked?
    case Store(r) => r in s.readers && s.readers[r].Found?
    case Forget(shop) => shop in s.pending
    case _ => true
  }

  function Apply(s: State, step: Step): State
    requires Enabled(s, step)
  {
    match step
    case Look(r, shop, m) =>
      var hit := Hit(s.cache, shop, s.now);
      s.(readers := s.readers[r := if shop == "" then Answered(shop, m, false)
                                   else if hit.Some? then Answered(shop, m, m in hit.value)
                                   else Looked(shop, m, s.cache.gen)])
    case Read(r) =>
      var reader := s.readers[r];
      s.(readers := s.readers[r := Found(reader.shop, reader.m, reader.gen, Modules(s.db, reader.shop))])
    case ReadFails(r) => s.(readers := s.readers[r := Failed])
    case Store(r) =>
      var reader := s.readers[r];
      s.(cache := Stored(s.cache, reader.shop, reader.on, s.now, reader.gen),
         readers := s.readers[r := Answered(reader.shop, reader.m, reader.m in reader.on)])
    case CommitSwitch(shop, on) =>
      s.(db := s.db[shop := on], pending := s.pending + multiset{shop}, changed := s.changed + {shop})
    case Forget(shop) => s.(cache := Forgotten(s.cache), pending := s.pending - multiset{shop}, changed := {})
    case ChangedElsewhere(shop, on) => s.(db := s.db[shop := on], changed := s.changed + {shop})
    case Tick(passed) => s.(now := s.now + passed)
  }

  /** Steps that cannot happen are passed over. */
  function Next(s: State, step: Step): State {
    if Enabled(s, step) then Apply(s, step) else s
  }

  function Run(s: State, steps: seq<Step>): State {
    Runs.Run(Next, s, steps)
  }

  /**
   * A shop not changed since the last forget is cached right, and a reader that may still store found what is right.
   */
  ghost predicate Inv(s: State) {
    (forall shop :: shop in s.cache.shops && shop !in s.changed ==> s.cache.shops[shop].on == Modules(s.db, shop)) &&
    (forall shop :: shop in s.cache.shops ==> s.cache.shops[shop].at <= s.now) &&
    (forall r :: r in s.readers && s.readers[r].Looked? ==>
       s.readers[r].shop != "" && s.readers[r].gen <= s.cache.gen) &&
    (forall r :: r in s.readers && s.readers[r].Found? ==>
       s.readers[r].shop != "" && s.readers[r].gen <= s.cache.gen &&
       (s.readers[r].gen == s.cache.gen && s.readers[r].shop !in s.changed ==>
          s.readers[r].on == Modules(s.db, s.readers[r].shop)))
  }

  lemma StepKeepsInv(s: State, step: Step)
    requires Inv(s) && Enabled(s, step)
    ensures Inv(Apply(s, step))
  {}

  lemma {:induction false} EveryRun(db: map<Shop, set<Module>>, steps: seq<Step>)
    ensures Inv(Run(Init(db), steps))
  {
    hide Apply, Enabled;
    if steps != [] {
      EveryRun(db, steps[..|steps| - 1]);
      var before := Run(Init(db), steps[..|steps| - 1]);
      if Enabled(before, steps[|steps| - 1]) {
        StepKeepsInv(before, steps[|steps| - 1]);
      }
    }
  }

  predicate OnlySwitched(steps: seq<Step>) {
    forall step :: step in steps ==> !step.ChangedElsewhere?
  }

  /** A switch made in this process waits for its own forget until something is forgotten. */
  lemma {:induction false} ChangesWait(db: map<Shop, set<Module>>, steps: seq<Step>)
    requires OnlySwitched(steps)
    ensures forall shop :: shop in Run(Init(db), steps).changed ==> shop in Run(Init(db), steps).pending
  {
    if steps != [] {
      ChangesWait(db, steps[..|steps| - 1]);
      var before := Run(Init(db), steps[..|steps| - 1]);
      assert Run(Init(db), steps) == Next(before, steps[|steps| - 1]);
    }
  }

  /** A switch and its forget leave nothing waiting that did not wait before. */
  lemma SwitchAndForget(s: State, shop: Shop, on: set<Module>)
    ensures var after := Apply(Apply(s, CommitSwitch(shop, on)), Forget(shop));
            after.pending == s.pending && after.changed == {} && Modules(after.db, shop) == on
  {
    assert s.pending + multiset{shop} - multiset{shop} == s.pending;
  }

  /** While no committed switch waits for its forget, everything cached is what the database holds. */
  lemma CacheIsRight(db: map<Shop, set<Module>>, steps: seq<Step>, shop: Shop)
    requires OnlySwitched(steps)
    requires var s := Run(Init(db), steps); shop in s.cache.shops && shop !in s.pending
    ensures var s := Run(Init(db), steps); s.cache.shops[shop].on == Modules(s.db, shop)
  {
    hide Runs.Run;
    EveryRun(db, steps);
    ChangesWait(db, steps);
  }

  /** An answer from the cache is right unless the shop was changed after the last forget, whoever changed it. */
  lemma HitIsRight(db: map<Shop, set<Module>>, steps: seq<Step>, r: ReaderId, shop: Shop, m: Module)
    requires var s := Run(Init(db), steps); Enabled(s, Look(r, shop, m)) && shop != "" && shop !in s.changed
    ensures var s := Run(Init(db), steps); var reader := Apply(s, Look(r, shop, m)).readers[r];
            reader == Looked(shop, m, s.cache.gen) || reader == Answered(shop, m, m in Modules(s.db, shop))
  {
    hide Runs.Run;
    EveryRun(db, steps);
  }

  // ---------- How old an answer can be

  /** What a found or cached set of modules is: what the database held for the shop at some moment of the run. */
  ghost predicate WasHeld(db: map<Shop, set<Module>>, steps: seq<Step>, shop: Shop, on: set<Module>) {
    exists i :: 0 <= i <= |steps| && Modules(Run(Init(db), steps[..i]).db, shop) == on
  }

  /** An entry was held by the database at or before the moment it is dated. */
  ghost predicate WasStored(db: map<Shop, set<Module>>, steps: seq<Step>, shop: Shop, e: Entry) {
    exists j :: 0 <= j <= |steps| && Run(Init(db), steps[..j]).now == e.at && WasHeld(db, steps[..j], shop, e.on)
  }

  /** No shop runs nothing; another answer is what the database said at some moment of the run. */
  ghost predicate WasTrue(db: map<Shop, set<Module>>, steps: seq<Step>, shop: Shop, m: Module, answer: bool) {
    if shop == "" then !answer else exists on :: WasHeld(db, steps, shop, on) && (answer <==> m in on)
  }

  lemma HeldStill(db: map<Shop, set<Module>>, steps: seq<Step>, n: nat, shop: Shop, on: set<Module>)
    requires n <= |steps| && WasHeld(db, steps[..n], shop, on)
    ensures WasHeld(db, steps, shop, on)
  {
    hide Run, Modules;
    var i :| 0 <= i <= n && Modules(Run(Init(db), steps[..n][..i]).db, shop) == on;
    assert steps[..n][..i] == steps[..i];
  }

  lemma HeldNow(db: map<Shop, set<Module>>, steps: seq<Step>, shop: Shop)
    ensures WasHeld(db, steps, shop, Modules(Run(Init(db), steps).db, shop))
  {
    hide Run, Modules;
    assert steps[..|steps|] == steps;
  }

  lemma StoredStill(db: map<Shop, set<Module>>, steps: seq<Step>, n: nat, shop: Shop, e: Entry)
    requires n <= |steps| && WasStored(db, steps[..n], shop, e)
    ensures WasStored(db, steps, shop, e)
  {
    hide Run, WasHeld;
    var j :| 0 <= j <= n && Run(Init(db), steps[..n][..j]).now == e.at && WasHeld(db, steps[..n][..j], shop, e.on);
    assert steps[..n][..j] == steps[..j];
  }

  lemma TrueStill(db: map<Shop, set<Module>>, steps: seq<Step>, a: Reader)
    requires steps != [] && a.Answered? && WasTrue(db, steps[..|steps| - 1], a.shop, a.m, a.answer)
    ensures WasTrue(db, steps, a.shop, a.m, a.answer)
  {
    hide WasHeld;
    if a.shop != "" {
      var on :| WasHeld(db, steps[..|steps| - 1], a.shop, on) && (a.answer <==> a.m in on);
      HeldStill(db, steps, |steps| - 1, a.shop, on);
    }
  }

  /** A new answer is from an entry of the cache, or from what its reader has found. */
  lemma TrueNow(db: map<Shop, set<Module>>, steps: seq<Step>, before: State, s: State, r: ReaderId)
    requires steps != [] && before == Run(Init(db), steps[..|steps| - 1]) && s == Next(before, steps[|steps| - 1])
    requires forall q :: q in before.readers && before.readers[q].Found? ==>
               before.readers[q].shop != "" &&
                 WasHeld(db, steps[..|steps| - 1], before.readers[q].shop, before.readers[q].on)
    requires forall shop :: shop in before.cache.shops ==>
               WasStored(db, steps[..|steps| - 1], shop, before.cache.shops[shop])
    requires r in s.readers && s.readers[r].Answered? && (r in before.readers ==> before.readers[r] != s.readers[r])
    ensures WasTrue(db, steps, s.readers[r].shop, s.readers[r].m, s.readers[r].answer)
  {
    hide WasHeld, WasStored, Run;
    var n, step := |steps| - 1, steps[|steps| - 1];
    if step.Store? {
      HeldStill(db, steps, n, before.readers[r].shop, before.readers[r].on);
    } else if step.shop != "" {
      var e := before.cache.shops[step.shop];
      StoredHeld(db, steps, n, step.shop, e);
    }
  }

  lemma StoredHeld(db: map<Shop, set<Module>>, steps: seq<Step>, n: nat, shop: Shop, e: Entry)
    requires n <= |steps| && WasStored(db, steps[..n], shop, e)
    ensures WasHeld(db, steps, shop, e.on)
  {
    hide Run, WasHeld;
    var j :| 0 <= j <= n && Run(Init(db), steps[..n][..j]).now == e.at && WasHeld(db, steps[..n][..j], shop, e.on);
    assert steps[..n][..j] == steps[..j];
    HeldStill(db, steps, j, shop, e.on);
  }

  /** Everything found, cached or answered was once what the database held. */
  lemma {:induction false} AllWasHeld(db: map<Shop, set<Module>>, steps: seq<Step>)
    ensures var s := Run(Init(db), steps);
            (forall r :: r in s.readers && s.readers[r].Found? ==>
               WasHeld(db, steps, s.readers[r].shop, s.readers[r].on)) &&
            (forall r :: r in s.readers && s.readers[r].Answered? ==>
               WasTrue(db, steps, s.readers[r].shop, s.readers[r].m, s.readers[r].answer)) &&
            forall shop :: shop in s.cache.shops ==> WasStored(db, steps, shop, s.cache.shops[shop])
  {
    hide WasHeld, WasStored, WasTrue, Modules;
    if steps != [] {
      var n := |steps| - 1;
      AllWasHeld(db, steps[..n]);
      EveryRun(db, steps[..n]);
      var before, s := Run(Init(db), steps[..n]), Run(Init(db), steps);
      assert s == Next(before, steps[n]);
      forall r | r in s.readers && s.readers[r].Found? ensures WasHeld(db, steps, s.readers[r].shop, s.readers[r].on) {
        if r in before.readers && before.readers[r] == s.readers[r] {
          HeldStill(db, steps, n, s.readers[r].shop, s.readers[r].on);
        } else {
          HeldNow(db, steps, s.readers[r].shop);
        }
      }
      forall r | r in s.readers && s.readers[r].Answered?
        ensures WasTrue(db, steps, s.readers[r].shop, s.readers[r].m, s.readers[r].answer)
      {
        if r in before.readers && before.readers[r] == s.readers[r] {
          TrueStill(db, steps, s.readers[r]);
        } else {
          TrueNow(db, steps, before, s, r);
        }
      }
      forall shop | shop in s.cache.shops ensures WasStored(db, steps, shop, s.cache.shops[shop]) {
        if shop in before.cache.shops && before.cache.shops[shop] == s.cache.shops[shop] {
          StoredStill(db, steps, n, shop, s.cache.shops[shop]);
        } else {
          StoredNow(db, steps, steps[n].r, shop);
        }
      }
    }
  }

  lemma StoredNow(db: map<Shop, set<Module>>, steps: seq<Step>, r: ReaderId, shop: Shop)
    requires steps != []
    requires var before := Run(Init(db), steps[..|steps| - 1]);
             r in before.readers && before.readers[r].Found? && before.readers[r].shop == shop &&
             WasHeld(db, steps[..|steps| - 1], shop, before.readers[r].on)
    requires var before, s := Run(Init(db), steps[..|steps| - 1]), Run(Init(db), steps);
             shop in s.cache.shops && s.cache.shops[shop] == Entry(before.readers[r].on, before.now) &&
             s.now == before.now
    ensures WasStored(db, steps, shop, Run(Init(db), steps).cache.shops[shop])
  {
    hide Run;
    HeldStill(db, steps, |steps| - 1, shop, Run(Init(db), steps[..|steps| - 1]).readers[r].on);
    assert steps[..|steps|] == steps;
  }

  /**
   * Whoever changes the database, and however it is read, a request answered from the cache is told what the database
   * held before a moment less than five seconds ago, and any other request reads the database.
   */
  lemma HitIsRecent(db: map<Shop, set<Module>>, steps: seq<Step>, r: ReaderId, shop: Shop, m: Module)
    returns (read: nat, stored: nat)
    requires var s := Run(Init(db), steps); Enabled(s, Look(r, shop, m)) && shop != ""
    ensures read <= stored <= |steps|
    ensures var s := Run(Init(db), steps); var reader := Apply(s, Look(r, shop, m)).readers[r];
            reader == Looked(shop, m, s.cache.gen) ||
            (s.now < Run(Init(db), steps[..stored]).now + 5000 &&
             reader == Answered(shop, m, m in Modules(Run(Init(db), steps[..read]).db, shop)))
  {
    AllWasHeld(db, steps);
    var s := Run(Init(db), steps);
    hide Run, Modules;
    read, stored := 0, 0;
    if Hit(s.cache, shop, s.now).Some? {
      var e := s.cache.shops[shop];
      var j :| 0 <= j <= |steps| && Run(Init(db), steps[..j]).now == e.at && WasHeld(db, steps[..j], shop, e.on);
      var i :| 0 <= i <= j && Modules(Run(Init(db), steps[..j][..i]).db, shop) == e.on;
      assert steps[..j][..i] == steps[..i];
      read, stored := i, j;
    }
  }

  /** What is stored answers for five seconds, and not after that; nothing answers after a forget. */
  lemma KeptForFiveSeconds(c: Cache, shop: Shop, on: set<Module>, at: nat, now: nat)
    ensures Hit(Stored(c, shop, on, at, c.gen), shop, now) == if now < at + 5000 then Some(on) else None
    ensures forall other :: other != shop ==> Hit(Stored(c, shop, on, at, c.gen), other, now) == Hit(c, other, now)
    ensures Hit(Forgotten(c), shop, now) == None
  {}

  // ---------- What was read before a forget is never stored after it

  /** A reader stays the one that looked: it keeps what it asked and, until it answers, the count it saw. */
  ghost predicate SameReader(s: State, s': State, r: ReaderId) {
    r in s.readers && (s.readers[r].Looked? || s.readers[r].Found?) && r in s'.readers &&
    (s'.readers[r].Failed? ||
     (s'.readers[r].shop == s.readers[r].shop && s'.readers[r].m == s.readers[r].m &&
      (s'.readers[r].Answered? || s'.readers[r].gen == s.readers[r].gen)))
  }

  lemma {:induction false} ReaderKeepsCount(s: State, steps: seq<Step>, r: ReaderId)
    requires r in s.readers && (s.readers[r].Looked? || s.readers[r].Found?)
    ensures SameReader(s, Run(s, steps), r) && s.cache.gen <= Run(s, steps).cache.gen
  {
    if steps != [] {
      ReaderKeepsCount(s, steps[..|steps| - 1], r);
      var before := Run(s, steps[..|steps| - 1]);
      assert Run(s, steps) == Next(before, steps[|steps| - 1]);
      hide Runs.Run;
    }
  }

  lemma NothingOldStored(db: map<Shop, set<Module>>, before: seq<Step>, shop: Shop, after: seq<Step>, r: ReaderId)
    requires var s := Run(Init(db), before);
             Enabled(s, Forget(shop)) && r in s.readers && (s.readers[r].Looked? || s.readers[r].Found?)
    requires Enabled(Run(Init(db), before + [Forget(shop)] + after), Store(r))
    ensures var s := Run(Init(db), before + [Forget(shop)] + after); Apply(s, Store(r)).cache == s.cache
  {
    var s := Run(Init(db), before);
    EveryRun(db, before);
    assert (before + [Forget(shop)])[..|before|] == before;
    assert Run(Init(db), before + [Forget(shop)]) == Apply(s, Forget(shop));
    Runs.Join(Next, Init(db), before + [Forget(shop)], after);
    ReaderKeepsCount(Apply(s, Forget(shop)), after, r);
  }
}
