/** Initialization runs that must be possible, and when the lock is free. */
module InitRuns {
  import opened Prelude
  import opened InitProtocol

  // The other half of src/engine/instance.rs, `initialize`, and
  // src/engine/instance_fs.rs, `Control::lock`: the invariants bound what may
  // happen, and the lemmas here say what can. From every world that a run reaches,
  // some continuation completes the initialization.

  // ------------------------------------------------------------------ the lock

  /** A caller's descriptors refer to the description it opened, and nobody who has
      only opened the lock file holds the lock. */
  ghost predicate LockOk(w: World) {
    OwnFds(w) && OpenedOnly(w)
  }

  ghost predicate OwnFds(w: World) {
    forall f <- w.fds :: f.holder.Caller? ==>
      var pc := PcOf(w, f.holder.c); !pc.Ready? && !pc.Gone? && pc.od == f.od
  }

  ghost predicate OpenedOnly(w: World) {
    forall c <- w.controllers :: PcOf(w, c).Opened? ==> w.locked != Some(PcOf(w, c).od)
  }

  lemma OwnKept(accepts: Validator, w: World, s: Step)
    requires OwnFds(w) && Enabled(accepts, w, s)
    ensures OwnFds(After(accepts, w, s))
  {
    hide Loadable, Allows, ValidAttempt;
  }

  lemma OpenedKept(accepts: Validator, w: World, s: Step)
    requires FdsOk(w) && CallersOk(w) && KidsOk(w) && OpenedOnly(w) && Enabled(accepts, w, s)
    ensures OpenedOnly(After(accepts, w, s))
  {
    hide Loadable, Allows, ValidAttempt, FdsOk, KidsOk;
    var v := After(accepts, w, s);
    LockBound(w);
    forall c | c in v.controllers && PcOf(v, c).Opened? ensures v.locked != Some(PcOf(v, c).od) {
      if c in w.controllers {
        assert PcOk(w, c, PcOf(w, c));
      }
      if s.Lock? && s.c != c {
        assert PcOk(w, s.c, PcOf(w, s.c));
      }
    }
  }

  lemma LockKept(accepts: Validator, w: World, s: Step)
    requires FdsOk(w) && CallersOk(w) && KidsOk(w) && LockOk(w) && Enabled(accepts, w, s)
    ensures LockOk(After(accepts, w, s))
  {
    hide FdsOk, CallersOk, KidsOk, Enabled, After, PcOf;
    OwnKept(accepts, w, s);
    OpenedKept(accepts, w, s);
  }

  lemma LockBound(w: World)
    requires FdsOk(w) && KidsOk(w)
    ensures w.locked.Some? ==> w.locked.value < |w.owners|
  {
    if w.locked.Some? {
      var f :| f in w.fds && f.od == w.locked.value;
      assert FdOk(w, f);
      if f.holder.Child? {
        assert KidOk(w, f.holder.k);
      }
    }
  }

  lemma {:induction false} LockInvariant(accepts: Validator, ws: seq<World>, steps: seq<Step>, i: nat)
    requires Run(accepts, ws, steps) && i < |ws|
    ensures LockOk(ws[i])
  {
    hide Enabled, After, MemoriesOk, JournalOk, AttemptsOk, FdsOk, CallersOk, KidsOk;
    if i > 0 {
      LockInvariant(accepts, ws, steps, i - 1);
      Invariant(accepts, ws, steps, i - 1);
      LockKept(accepts, ws[i - 1], steps[i - 1]);
    }
  }

  /** In every world of every run the lock is free exactly when no engine child
      lives and no caller stands between `lock` and its return. */
  lemma LockExact(accepts: Validator, ws: seq<World>, steps: seq<Step>, i: nat)
    requires Run(accepts, ws, steps) && i < |ws|
    ensures ws[i].locked.None? <==>
            (forall k: nat :: !Live(ws[i], k)) && forall c <- ws[i].controllers :: !Past(PcOf(ws[i], c))
  {
    hide Run, MemoriesOk, JournalOk, AttemptsOk;
    Invariant(accepts, ws, steps, i);
    LockInvariant(accepts, ws, steps, i);
    var w := ws[i];
    forall k: nat | Live(w, k) ensures w.locked.Some? {
      assert KidOk(w, k);
    }
    forall c | c in w.controllers && Past(PcOf(w, c)) ensures w.locked.Some? {
      assert PcOk(w, c, PcOf(w, c));
    }
    if w.locked.Some? {
      var f :| f in w.fds && f.od == w.locked.value;
      assert FdOk(w, f);
      if f.holder.Child? {
        assert Live(w, f.holder.k);
      } else {
        assert Past(PcOf(w, f.holder.c));
      }
    }
  }

  // ---------------------------------------------------------- longer runs

  function Last(ws: seq<World>): World
    requires ws != []
  {
    ws[|ws| - 1]
  }

  lemma RunMore(accepts: Validator, ws: seq<World>, steps: seq<Step>, s: Step)
    requires Run(accepts, ws, steps) && Enabled(accepts, Last(ws), s)
    ensures Run(accepts, ws + [After(accepts, Last(ws), s)], steps + [s])
  {
    hide Enabled, After, Initial;
    var us, more := ws + [After(accepts, Last(ws), s)], steps + [s];
    forall i | 0 <= i < |more| ensures Enabled(accepts, us[i], more[i]) && us[i + 1] == After(accepts, us[i], more[i]) {
      if i < |steps| {
        assert us[i] == ws[i] && us[i + 1] == ws[i + 1] && more[i] == steps[i];
      }
    }
  }

  /** One run continues another. */
  ghost predicate Extends(accepts: Validator, ws: seq<World>, steps: seq<Step>, us: seq<World>, more: seq<Step>) {
    Run(accepts, us, more) && us != [] && ws <= us && steps <= more
  }

  lemma Continue(accepts: Validator, ws: seq<World>, steps: seq<Step>, us: seq<World>, more: seq<Step>, s: Step)
    returns (vs: seq<World>, most: seq<Step>)
    requires Extends(accepts, ws, steps, us, more) && Enabled(accepts, Last(us), s)
    ensures vs != [] && Extends(accepts, ws, steps, vs, most) && Last(vs) == After(accepts, Last(us), s)
  {
    hide Run, Enabled, After;
    RunMore(accepts, us, more, s);
    vs, most := us + [After(accepts, Last(us), s)], more + [s];
  }

  // -------------------------------------------------------- freeing the lock

  /** Neither the journal nor what is known of callers and attempts changed. */
  ghost predicate SameRecords(v: World, w: World) {
    v.journal == w.journal && v.attempts == w.attempts && v.controllers.Keys == w.controllers.Keys
    && |v.kids| == |w.kids|
  }

  lemma LeaveKeeps(accepts: Validator, w: World, c: nat)
    requires c in w.controllers && Past(PcOf(w, c))
    ensures Enabled(accepts, w, Leave(c))
    ensures var v := After(accepts, w, Leave(c));
            SameRecords(v, w) && v.kids == w.kids && forall d :: PcOf(v, d) == if d == c then Gone else PcOf(w, d)
  {
  }

  lemma EndKeeps(accepts: Validator, w: World, k: nat, status: Status)
    requires Live(w, k) && !status.Alive?
    ensures Enabled(accepts, w, KidEnds(k, status))
    ensures var v := After(accepts, w, KidEnds(k, status));
            && SameRecords(v, w) && v.controllers == w.controllers
            && v.kids == w.kids[k := w.kids[k].(status := status)]
  {
  }

  /** Whoever is past the lock may return and a living child may end; then the lock
      is free, with the journal as it was. */
  lemma Drains(accepts: Validator, ws: seq<World>, steps: seq<Step>) returns (us: seq<World>, more: seq<Step>)
    requires Run(accepts, ws, steps)
    ensures Extends(accepts, ws, steps, us, more) && SameRecords(Last(us), Last(ws)) && Last(us).locked.None?
  {
    hide *;
    RunEnds(accepts, ws, steps);
    us, more := ws, steps;
    var w := Last(ws);
    Invariant(accepts, ws, steps, |ws| - 1);
    InvParts(accepts, w);
    if c :| c in w.controllers && Past(PcOf(w, c)) {
      forall d | d in w.controllers && Past(PcOf(w, d)) ensures d == c {
        Alone(w, c, d);
      }
      LeaveKeeps(accepts, w, c);
      us, more := Continue(accepts, ws, steps, us, more, Leave(c));
      NobodyPast(w, Last(us), c);
    }
    us, more := DrainKid(accepts, ws, steps, us, more);
  }

  lemma InvParts(accepts: Validator, w: World)
    requires Inv(accepts, w)
    ensures CallersOk(w) && FdsOk(w) && KidsOk(w) && JournalOk(accepts, w) && Loadable(w.journal)
  {
    hide CallersOk, FdsOk, KidsOk, MemoriesOk, AttemptsOk, Loadable;
  }

  lemma RunEnds(accepts: Validator, ws: seq<World>, steps: seq<Step>)
    requires Run(accepts, ws, steps)
    ensures ws != [] && |ws| == |steps| + 1 && Extends(accepts, ws, steps, ws, steps)
    ensures SameRecords(Last(ws), Last(ws)) && Last(ws) == ws[|ws| - 1]
  {
    hide Enabled, After, Initial;
  }

  lemma NobodyPast(w: World, v: World, c: nat)
    requires forall d | d in w.controllers && Past(PcOf(w, d)) :: d == c
    requires v.controllers.Keys == w.controllers.Keys || SameRecords(v, w)
    requires forall d :: PcOf(v, d) == if d == c then Gone else PcOf(w, d)
    ensures forall d <- v.controllers :: !Past(PcOf(v, d))
  {
  }

  lemma DrainKid(accepts: Validator, ws: seq<World>, steps: seq<Step>, us: seq<World>, more: seq<Step>)
    returns (vs: seq<World>, most: seq<Step>)
    requires Run(accepts, ws, steps) && Extends(accepts, ws, steps, us, more) && ws != []
    requires SameRecords(Last(us), Last(ws)) && forall d <- Last(us).controllers :: !Past(PcOf(Last(us), d))
    ensures Extends(accepts, ws, steps, vs, most) && SameRecords(Last(vs), Last(ws)) && Last(vs).locked.None?
  {
    hide *;
    hide Live;
    vs, most := us, more;
    ExtendsRun(accepts, ws, steps, us, more);
    var w := Last(us);
    if k: nat :| Live(w, k) {
      MutualExclusion(accepts, us, more, |us| - 1);
      EndKeeps(accepts, w, k, Signalled);
      vs, most := Continue(accepts, ws, steps, us, more, KidEnds(k, Signalled));
      var v := Last(vs);
      SamePast(w, v);
      NoneLive(w, v, k);
      SameTwice(v, w, Last(ws));
      ExtendsRun(accepts, ws, steps, vs, most);
    }
    LockExact(accepts, vs, most, |vs| - 1);
  }

  lemma ExtendsRun(accepts: Validator, ws: seq<World>, steps: seq<Step>, us: seq<World>, more: seq<Step>)
    requires Extends(accepts, ws, steps, us, more)
    ensures Run(accepts, us, more) && us != [] && |us| == |more| + 1 && Last(us) == us[|us| - 1]
  {
    hide Enabled, After, Initial;
  }

  lemma SameTwice(a: World, b: World, c: World)
    requires SameRecords(a, b) && SameRecords(b, c)
    ensures SameRecords(a, c)
  {
  }

  lemma SamePast(w: World, v: World)
    requires v.controllers == w.controllers && forall d <- w.controllers :: !Past(PcOf(w, d))
    ensures forall d <- v.controllers :: !Past(PcOf(v, d))
  {
  }

  lemma NoneLive(w: World, v: World, k: nat)
    requires Live(w, k) && v.kids == w.kids[k := w.kids[k].(status := Signalled)]
    requires forall j: nat :: Live(w, j) ==> j == k
    ensures forall j: nat :: !Live(v, j)
  {
    forall j: nat ensures !Live(v, j) {
      if j < |w.kids| && j != k {
        assert !Live(w, j);
      }
    }
  }

  // ---------------------------------------------- completing an initialization

  /** What one caller and everybody share, as this caller's steps go on. */
  ghost predicate Stage(v: World, c: nat, kind: Kind, pc: Pc, journal: State, kids: seq<Kid>, attempts: set<bytes>,
                        locked: bool) {
    && c in v.controllers && PcOf(v, c) == pc && KindOf(v, c) == kind && v.journal == journal && v.kids == kids
    && v.attempts == attempts && v.locked.Some? == locked
  }

  lemma GoesToLock(accepts: Validator, w: World, c: nat, kind: Kind)
    requires c !in w.controllers && w.locked.None?
    ensures Enabled(accepts, w, Start(c, kind))
    ensures var v := After(accepts, w, Start(c, kind));
            && Enabled(accepts, v, Open(c))
            && var u := After(accepts, v, Open(c));
            && Enabled(accepts, u, Lock(c))
            && Stage(After(accepts, u, Lock(c)), c, kind, Holding(|w.owners|), w.journal, w.kids, w.attempts, true)
  {
    hide Loadable, Allows, ValidAttempt;
  }

  lemma GoesToIntent(accepts: Validator, w: World, c: nat, kind: Kind, od: nat, journal: State, kids: seq<Kid>,
                     attempts: set<bytes>, id: bytes)
    requires Stage(w, c, kind, Holding(od), journal, kids, attempts, true)
    requires Loadable(journal) && ValidAttempt(id) && id !in attempts
    requires (kind == Init && journal.phase == Registered)
          || (kind == Resume && (journal.phase == InitIntent || journal.phase == Unknown))
    ensures Enabled(accepts, w, Load(c))
    ensures var v := After(accepts, w, Load(c));
            && Enabled(accepts, v, Prepare(c, id))
            && var u := After(accepts, v, Prepare(c, id));
            && Enabled(accepts, u, SaveIntent(c, Published))
            && var intent := State(InitIntent, Some(Attempt(id, kind == Resume)), None);
            Stage(After(accepts, u, SaveIntent(c, Published)), c, kind, Intended(od, intent), intent, kids,
                  attempts + {id}, true)
  {
    hide ValidAttempt;
  }

  lemma GoesToChild(accepts: Validator, w: World, c: nat, kind: Kind, od: nat, attempt: Attempt, kids: seq<Kid>,
                    attempts: set<bytes>, pid: nat)
    requires var intent := State(InitIntent, Some(attempt), None);
             Stage(w, c, kind, Intended(od, intent), intent, kids, attempts, true)
    ensures var intent := State(InitIntent, Some(attempt), None);
            && Enabled(accepts, w, Spawn(c, pid))
            && Stage(After(accepts, w, Spawn(c, pid)), c, kind, Running(od, intent, |kids|), intent,
                     kids + [Kid(pid, attempt, od, Alive)], attempts, true)
  {
    hide Loadable, Allows, ValidAttempt;
  }

  lemma ChildEnds(accepts: Validator, w: World, c: nat, kind: Kind, od: nat, state: State, attempt: Attempt,
                  kids: seq<Kid>, attempts: set<bytes>, pid: nat)
    requires Stage(w, c, kind, Running(od, state, |kids|), state, kids + [Kid(pid, attempt, od, Alive)], attempts, true)
    requires Fd(Caller(c), od, Guard) in w.fds && w.locked == Some(od)
    ensures Enabled(accepts, w, KidEnds(|kids|, Exited(0)))
    ensures Stage(After(accepts, w, KidEnds(|kids|, Exited(0))), c, kind, Running(od, state, |kids|), state,
                  kids + [Kid(pid, attempt, od, Exited(0))], attempts, true)
  {
    hide Loadable, Allows, ValidAttempt;
    var v := After(accepts, w, KidEnds(|kids|, Exited(0)));
    assert Fd(Caller(c), od, Guard) in v.fds;
  }

  lemma GoesToEnd(accepts: Validator, w: World, c: nat, kind: Kind, od: nat, attempt: Attempt, kids: seq<Kid>,
                  attempts: set<bytes>, pid: nat, output: Output, genesis: bytes)
    requires var intent := State(InitIntent, Some(attempt), None);
             Stage(w, c, kind, Running(od, intent, |kids|), intent, kids + [Kid(pid, attempt, od, Exited(0))], attempts, true)
    requires accepts(attempt, pid, output) == Some(genesis)
    ensures var all := kids + [Kid(pid, attempt, od, Exited(0))];
            var done := State(Initialized, Some(attempt), Some(genesis));
            && Enabled(accepts, w, Succeed(c, output))
            && var v := After(accepts, w, Succeed(c, output));
            && Enabled(accepts, v, SaveFinal(c, Published))
            && var u := After(accepts, v, SaveFinal(c, Published));
            && Stage(u, c, kind, Leaving(od), done, all, attempts, true)
            && Enabled(accepts, u, Leave(c))
            && var t := After(accepts, u, Leave(c));
            t.journal == done && t.kids == all && PcOf(t, c) == Gone
  {
    hide Loadable, Allows, ValidAttempt;
  }

  /** One to eighty letters, digits, underscores and hyphens. */
  predicate UsableId(id: bytes) {
    1 <= |id| <= 80
    && forall i :: 0 <= i < |id| ==>
         0x30 <= id[i] <= 0x39 || 0x41 <= id[i] <= 0x5A || 0x61 <= id[i] <= 0x7A || id[i] == 0x5F || id[i] == 0x2D
  }

  lemma UsableIs(id: bytes)
    ensures ValidAttempt(id) <==> UsableId(id)
  {
    forall i | 0 <= i < |id| ensures id[i] in id {
    }
  }

  /** From any world with a free lock and an unfinished initialization, a new caller
      can complete it: fresh if nobody ever started, and by resuming if an earlier
      attempt was left at its intent or with its outcome unknown. */
  lemma Completes(accepts: Validator, ws: seq<World>, steps: seq<Step>, us: seq<World>, more: seq<Step>,
                  c: nat, id: bytes, pid: nat, output: Output, genesis: bytes)
    returns (vs: seq<World>, most: seq<Step>)
    requires Run(accepts, ws, steps) && Extends(accepts, ws, steps, us, more) && us != []
    requires var w := Last(us);
             && w.locked.None? && c !in w.controllers && UsableId(id) && id !in w.attempts
             && w.journal.phase != Initialized
             && accepts(Attempt(id, w.journal.phase != Registered), pid, output) == Some(genesis)
    ensures vs != [] && Extends(accepts, ws, steps, vs, most)
    ensures var attempt := Attempt(id, Last(us).journal.phase != Registered);
            && Last(vs).journal == State(Initialized, Some(attempt), Some(genesis))
            && |Last(vs).kids| == |Last(us).kids| + 1
            && Last(vs).kids[|Last(us).kids|].attempt == attempt && Last(vs).kids[|Last(us).kids|].pid == pid
  {
    UsableIs(id);
    hide *;
    hide Live;
    var w := Last(us);
    ExtendsRun(accepts, ws, steps, us, more);
    Invariant(accepts, us, more, |us| - 1);
    InvParts(accepts, w);
    var kind := if w.journal.phase == Registered then Init else Resume;
    var attempt, od := Attempt(id, kind == Resume), |w.owners|;
    GoesToLock(accepts, w, c, kind);
    vs, most := Continue(accepts, ws, steps, us, more, Start(c, kind));
    vs, most := Continue(accepts, ws, steps, vs, most, Open(c));
    vs, most := Continue(accepts, ws, steps, vs, most, Lock(c));
    GoesToIntent(accepts, Last(vs), c, kind, od, w.journal, w.kids, w.attempts, id);
    vs, most := Continue(accepts, ws, steps, vs, most, Load(c));
    vs, most := Continue(accepts, ws, steps, vs, most, Prepare(c, id));
    vs, most := Continue(accepts, ws, steps, vs, most, SaveIntent(c, Published));
    GoesToChild(accepts, Last(vs), c, kind, od, attempt, w.kids, w.attempts + {id}, pid);
    vs, most := Continue(accepts, ws, steps, vs, most, Spawn(c, pid));
    ExtendsRun(accepts, ws, steps, vs, most);
    Invariant(accepts, vs, most, |vs| - 1);
    InvParts(accepts, Last(vs));
    var intent := State(InitIntent, Some(attempt), None);
    HoldsGuard(Last(vs), c, kind, od, intent, w.kids + [Kid(pid, attempt, od, Alive)], w.attempts + {id}, |w.kids|);
    ChildEnds(accepts, Last(vs), c, kind, od, intent, attempt, w.kids, w.attempts + {id}, pid);
    vs, most := Continue(accepts, ws, steps, vs, most, KidEnds(|w.kids|, Exited(0)));
    GoesToEnd(accepts, Last(vs), c, kind, od, attempt, w.kids, w.attempts + {id}, pid, output, genesis);
    vs, most := Continue(accepts, ws, steps, vs, most, Succeed(c, output));
    vs, most := Continue(accepts, ws, steps, vs, most, SaveFinal(c, Published));
    vs, most := Continue(accepts, ws, steps, vs, most, Leave(c));
  }

  lemma HoldsGuard(w: World, c: nat, kind: Kind, od: nat, state: State, kids: seq<Kid>, attempts: set<bytes>, kid: nat)
    requires Stage(w, c, kind, Running(od, state, kid), state, kids, attempts, true) && CallersOk(w)
    ensures Fd(Caller(c), od, Guard) in w.fds && w.locked == Some(od)
  {
    assert PcOk(w, c, PcOf(w, c));
  }

  /** From every world that a run reaches short of Initialized, whoever crashed in
      it and wherever, some continuation completes the initialization. */
  lemma Recoverable(accepts: Validator, ws: seq<World>, steps: seq<Step>, c: nat, id: bytes, pid: nat, output: Output,
                    genesis: bytes)
    returns (vs: seq<World>, most: seq<Step>)
    requires Run(accepts, ws, steps) && ws != []
    requires var w := Last(ws);
             && c !in w.controllers && UsableId(id) && id !in w.attempts && w.journal.phase != Initialized
             && accepts(Attempt(id, w.journal.phase != Registered), pid, output) == Some(genesis)
    ensures vs != [] && Extends(accepts, ws, steps, vs, most)
    ensures Last(vs).journal == State(Initialized, Some(Attempt(id, Last(ws).journal.phase != Registered)), Some(genesis))
  {
    hide Run, Extends, UsableId;
    var us, more := Drains(accepts, ws, steps);
    ExtendsRun(accepts, ws, steps, us, more);
    vs, most := Completes(accepts, ws, steps, us, more, c, id, pid, output, genesis);
  }

  // ------------------------------------------------------ what each step does

  /** A save changes the journal unless it was lost, but its caller goes on only if
      the save says so, and a failure is recorded as an unknown outcome of the same
      attempt. */
  lemma SavesExact(accepts: Validator, ws: seq<World>, steps: seq<Step>, i: nat)
    requires Run(accepts, ws, steps) && i < |steps|
    ensures steps[i].SaveIntent? ==>
              var (c, saved) := (steps[i].c, steps[i].saved);
              && ws[i + 1].journal == (if saved == Lost then ws[i].journal else PcOf(ws[i], c).state)
              && (PcOf(ws[i + 1], c).Intended? <==> saved == Published)
              && (saved != Published ==> PcOf(ws[i + 1], c).Leaving?)
    ensures steps[i].SaveFinal? ==>
              ws[i + 1].journal == (if steps[i].saved == Lost then ws[i].journal else PcOf(ws[i], steps[i].c).state)
    ensures !steps[i].SaveIntent? && !steps[i].SaveFinal? ==> ws[i + 1].journal == ws[i].journal
    ensures steps[i].Fail? ==>
              PcOf(ws[i + 1], steps[i].c).state == PcOf(ws[i], steps[i].c).state.(phase := Unknown)
  {
    assert Enabled(accepts, ws[i], steps[i]) && ws[i + 1] == After(accepts, ws[i], steps[i]);
    hide Loadable, Allows, ValidAttempt, Run;
  }
}
