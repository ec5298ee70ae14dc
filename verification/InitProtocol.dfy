/** The one-shot initialization protocol, as a transition system. */
module InitProtocol {
  import opened Prelude

  // src/engine/instance.rs, `initialize` and `load`; src/engine/instance_fs.rs,
  // `Control::lock`, `Control::attempt` and `OperationLock::child_stdin`;
  // src/engine/managed.rs, `run`. Any number of controllers run side by side, each
  // can stop at any point, and an engine child outlives the controller that
  // spawned it.

  // ------------------------------------------------------------- the journal

  datatype Phase = Registered | InitIntent | Initialized | Unknown

  datatype Attempt = Attempt(id: bytes, resume: bool)

  datatype State = State(phase: Phase, attempt: Option<Attempt>, genesis: Option<bytes>)

  predicate ValidAttempt(id: bytes) {
    0 < |id| <= 80
    && forall b <- id :: 0x30 <= b <= 0x39 || 0x41 <= b <= 0x5A || 0x61 <= b <= 0x7A || b == 0x5F || b == 0x2D
  }

  /** The states that `load` does not reject as corrupt. */
  predicate Loadable(s: State) {
    && (s.phase == Registered <==> s.attempt.None?)
    && (s.phase == Initialized <==> s.genesis.Some?)
    && (s.attempt.Some? ==> ValidAttempt(s.attempt.value.id))
  }

  /** What a save can do: publish and say so, publish and still report an error,
      or report an error without publishing. */
  datatype Saved = Published | PublishedUnsure | Lost

  // ------------------------------------------------- processes and descriptors

  datatype Kind = Init | Resume | Observe

  /** Which phases `init` and `resume-init` may start from. */
  predicate Allows(kind: Kind, phase: Phase) {
    match kind
    case Init => phase == Registered
    case Resume => phase == InitIntent || phase == Unknown
    case Observe => false
  }

  /** Where a controller stands; `od` is the open file description it locked. */
  datatype Pc =
    | Ready
    | Opened(od: nat)
    | Holding(od: nat)
    | Checked(od: nat)
    | Prepared(od: nat, state: State)
    | Intended(od: nat, state: State)
    | Running(od: nat, state: State, kid: nat)
    | Judged(od: nat, state: State)
    | Leaving(od: nat)
    | Gone

  datatype Controller = Controller(kind: Kind, pc: Pc)

  datatype Status = Alive | Exited(code: int) | Signalled

  /** An engine child, under its process number and the description on its stdin. */
  datatype Kid = Kid(pid: nat, attempt: Attempt, od: nat, status: Status)

  datatype Holder = Caller(c: nat) | Child(k: nat)

  datatype Role = Guard | Clone | Stdin

  datatype Fd = Fd(holder: Holder, od: nat, role: Role)

  /** `owners` lists who opened each description of the lock file, `locked` which
      description holds the flock; `kids` lists every child in spawn order. */
  datatype World = World(
    controllers: map<nat, Controller>,
    kids: seq<Kid>,
    fds: set<Fd>,
    owners: seq<nat>,
    locked: Option<nat>,
    attempts: set<bytes>,
    journal: State)

  datatype Output = Output(stdout: bytes, report: bytes, instance: bytes)

  /** `validate_success` for the bound instance: the genesis hash it returns. */
  type Validator = (Attempt, nat, Output) -> Option<bytes>

  datatype Step =
    | Start(c: nat, kind: Kind)
    | Open(c: nat)
    | Lock(c: nat)
    | Load(c: nat)
    | Prepare(c: nat, id: bytes)
    | SaveIntent(c: nat, saved: Saved)
    | Spawn(c: nat, pid: nat)
    | Fail(c: nat)
    | Succeed(c: nat, output: Output)
    | SaveFinal(c: nat, saved: Saved)
    | Leave(c: nat)
    | KidEnds(k: nat, status: Status)

  function PcOf(w: World, c: nat): Pc {
    if c in w.controllers then w.controllers[c].pc else Gone
  }

  function KindOf(w: World, c: nat): Kind {
    if c in w.controllers then w.controllers[c].kind else Observe
  }

  predicate Enabled(accepts: Validator, w: World, s: Step) {
    match s
    case Start(c, _) => c !in w.controllers
    case Open(c) => PcOf(w, c).Ready?
    case Lock(c) => PcOf(w, c).Opened? && w.locked.None?
    case Load(c) => PcOf(w, c).Holding? && Allows(KindOf(w, c), w.journal.phase) && Loadable(w.journal)
    case Prepare(c, id) => PcOf(w, c).Checked? && id !in w.attempts && ValidAttempt(id)
    case SaveIntent(c, _) => PcOf(w, c).Prepared?
    case Spawn(c, _) => PcOf(w, c).Intended?
    case Fail(c) => PcOf(w, c).Intended? || PcOf(w, c).Running?
    case Succeed(c, output) =>
      PcOf(w, c).Running? && PcOf(w, c).kid < |w.kids| && PcOf(w, c).state.attempt.Some?
      && w.kids[PcOf(w, c).kid].status == Exited(0)
      && accepts(PcOf(w, c).state.attempt.value, w.kids[PcOf(w, c).kid].pid, output).Some?
    case SaveFinal(c, _) => PcOf(w, c).Judged?
    case Leave(c) => c in w.controllers && !PcOf(w, c).Gone?
    case KidEnds(k, status) => k < |w.kids| && w.kids[k].status.Alive? && !status.Alive?
  }

  /** An flock lasts as long as some descriptor refers to its description. */
  function Release(fds: set<Fd>, locked: Option<nat>): Option<nat> {
    if locked.Some? && exists f <- fds :: f.od == locked.value then locked else None
  }

  function Close(w: World, holder: Holder): World {
    var fds := set f <- w.fds | f.holder != holder;
    w.(fds := fds, locked := Release(fds, w.locked))
  }

  function Move(w: World, c: nat, pc: Pc): World {
    w.(controllers := w.controllers[c := Controller(KindOf(w, c), pc)])
  }

  function Written(w: World, state: State, saved: Saved): World {
    if saved.Lost? then w else w.(journal := state)
  }

  function Handed(w: World, c: nat, od: nat, kid: Kid): World {
    w.(kids := w.kids + [kid],
       fds := w.fds - {Fd(Caller(c), od, Clone)} + {Fd(Child(|w.kids|), od, Stdin)})
  }

  function After(accepts: Validator, w: World, s: Step): World
    requires Enabled(accepts, w, s)
  {
    match s
    case Start(c, kind) => w.(controllers := w.controllers[c := Controller(kind, Ready)])
    case Open(c) =>
      var od := |w.owners|;
      Move(w.(owners := w.owners + [c], fds := w.fds + {Fd(Caller(c), od, Guard)}), c, Opened(od))
    case Lock(c) => Move(w.(locked := Some(PcOf(w, c).od)), c, Holding(PcOf(w, c).od))
    case Load(c) => Move(w, c, Checked(PcOf(w, c).od))
    case Prepare(c, id) =>
      var od := PcOf(w, c).od;
      var intent := State(InitIntent, Some(Attempt(id, KindOf(w, c) == Resume)), w.journal.genesis);
      Move(w.(attempts := w.attempts + {id}, fds := w.fds + {Fd(Caller(c), od, Clone)}), c, Prepared(od, intent))
    case SaveIntent(c, saved) =>
      var (od, state) := (PcOf(w, c).od, PcOf(w, c).state);
      Move(Written(w, state, saved), c, if saved.Published? then Intended(od, state) else Leaving(od))
    case Spawn(c, pid) =>
      var (od, state) := (PcOf(w, c).od, PcOf(w, c).state);
      var attempt := if state.attempt.Some? then state.attempt.value else Attempt([], false);
      Move(Handed(w, c, od, Kid(pid, attempt, od, Alive)), c, Running(od, state, |w.kids|))
    case Fail(c) => Move(w, c, Judged(PcOf(w, c).od, PcOf(w, c).state.(phase := Unknown)))
    case Succeed(c, output) =>
      var (pc, state) := (PcOf(w, c), PcOf(w, c).state);
      var genesis := accepts(state.attempt.value, w.kids[pc.kid].pid, output);
      Move(w, c, Judged(pc.od, State(Initialized, state.attempt, genesis)))
    case SaveFinal(c, saved) =>
      Move(Written(w, PcOf(w, c).state, saved), c, Leaving(PcOf(w, c).od))
    case Leave(c) => Close(Move(w, c, Gone), Caller(c))
    case KidEnds(k, status) => Close(w.(kids := w.kids[k := w.kids[k].(status := status)]), Child(k))
  }

  /** A freshly registered instance, before any caller. */
  predicate Initial(w: World) {
    w == World(map[], [], {}, [], None, {}, State(Registered, None, None))
  }

  /** A run of the system: worlds joined by enabled steps. */
  ghost predicate Run(accepts: Validator, ws: seq<World>, steps: seq<Step>) {
    && |ws| == |steps| + 1 && Initial(ws[0])
    && forall i :: 0 <= i < |steps| ==> Enabled(accepts, ws[i], steps[i]) && ws[i + 1] == After(accepts, ws[i], steps[i])
  }

  // ------------------------------------------------------------ the invariant

  /** Past `lock`, and not yet returned or crashed. */
  predicate Past(pc: Pc) {
    !pc.Ready? && !pc.Opened? && !pc.Gone?
  }

  /** Descriptors belong to whoever opened them, or to the child it spawned. */
  ghost predicate FdOk(w: World, f: Fd) {
    match f.holder
    case Caller(c) => f.od < |w.owners| && w.owners[f.od] == c
    case Child(k) => k < |w.kids| && w.kids[k].od == f.od && w.kids[k].status.Alive?
  }

  ghost predicate FdsOk(w: World) {
    && (forall f <- w.fds :: FdOk(w, f))
    && (w.locked.Some? ==> exists f <- w.fds :: f.od == w.locked.value)
  }

  ghost predicate PcOk(w: World, c: nat, pc: Pc) {
    !pc.Ready? && !pc.Gone? ==>
      && pc.od < |w.owners| && w.owners[pc.od] == c && Fd(Caller(c), pc.od, Guard) in w.fds
      && (Past(pc) ==> w.locked == Some(pc.od))
  }

  ghost predicate CallersOk(w: World) {
    && (forall c <- w.controllers :: PcOk(w, c, PcOf(w, c)))
    && (forall c <- w.owners :: c in w.controllers && !PcOf(w, c).Ready?)
  }

  /** A child's description is its spawner's, which is at or past the wait. */
  ghost predicate KidOk(w: World, k: nat)
    requires k < |w.kids|
  {
    var kid := w.kids[k];
    && kid.od < |w.owners|
    && var pc := PcOf(w, w.owners[kid.od]);
    && (pc.Running? || pc.Judged? || pc.Leaving? || pc.Gone?)
    && (pc.Running? ==> pc.kid == k)
    && (kid.status.Alive? ==> w.locked == Some(kid.od) && Fd(Child(k), kid.od, Stdin) in w.fds)
  }

  ghost predicate KidsOk(w: World) {
    && (forall k :: 0 <= k < |w.kids| ==> KidOk(w, k))
    && (forall j, k :: 0 <= j < k < |w.kids| ==> w.kids[j].od != w.kids[k].od)
  }

  /** Some child ran this attempt, exited with 0 and passed validation. */
  ghost predicate Verified(accepts: Validator, kids: seq<Kid>, s: State) {
    exists k, output: Output ::
      && 0 <= k < |kids| && s.attempt == Some(kids[k].attempt) && kids[k].status == Exited(0)
      && accepts(kids[k].attempt, kids[k].pid, output) == s.genesis
  }

  ghost predicate FreshIntent(w: World, kind: Kind, s: State) {
    && s.phase == InitIntent && s.attempt.Some? && s.genesis.None?
    && ValidAttempt(s.attempt.value.id) && s.attempt.value.id in w.attempts
    && (s.attempt.value.resume <==> kind == Resume) && kind != Observe
  }

  ghost predicate Unspawned(w: World, kind: Kind, s: State) {
    && FreshIntent(w, kind, s)
    && (forall k :: 0 <= k < |w.kids| ==> w.kids[k].attempt.id != s.attempt.value.id)
    && (kind == Init ==> w.kids == [])
  }

  /** What a controller remembers agrees with the journal, which it alone may
      write while it is past the lock. */
  ghost predicate MemoryOk(accepts: Validator, w: World, kind: Kind, pc: Pc) {
    match pc
    case Checked(_) => Allows(kind, w.journal.phase)
    case Prepared(_, s) =>
      Allows(kind, w.journal.phase) && Unspawned(w, kind, s) && s.attempt != w.journal.attempt
    case Intended(_, s) => w.journal == s && Unspawned(w, kind, s)
    case Running(_, s, k) =>
      w.journal == s && FreshIntent(w, kind, s) && k < |w.kids| && s.attempt == Some(w.kids[k].attempt)
    case Judged(_, s) =>
      && FreshIntent(w, kind, w.journal) && s.attempt == w.journal.attempt && Loadable(s)
      && (s.phase == Unknown || (s.phase == Initialized && Verified(accepts, w.kids, s)))
    case _ => true
  }

  ghost predicate MemoriesOk(accepts: Validator, w: World) {
    forall c <- w.controllers :: MemoryOk(accepts, w, KindOf(w, c), PcOf(w, c))
  }

  ghost predicate JournalOk(accepts: Validator, w: World) {
    && Loadable(w.journal)
    && (w.journal.phase == Registered ==> w.kids == [])
    && (w.journal.phase == Initialized ==> Verified(accepts, w.kids, w.journal))
  }

  ghost predicate AttemptsOk(w: World) {
    && (w.journal.attempt.Some? ==> w.journal.attempt.value.id in w.attempts)
    && (forall k :: 0 <= k < |w.kids| ==> w.kids[k].attempt.id in w.attempts)
    && (forall k :: 0 < k < |w.kids| ==> w.kids[k].attempt.resume)
    && (forall j, k :: 0 <= j < k < |w.kids| ==> w.kids[j].attempt.id != w.kids[k].attempt.id)
  }

  ghost predicate Inv(accepts: Validator, w: World) {
    FdsOk(w) && CallersOk(w) && KidsOk(w) && MemoriesOk(accepts, w) && JournalOk(accepts, w) && AttemptsOk(w)
  }

  // ------------------------------------------------- every step keeps it

  /** The caller that takes the step, if one does. */
  function Actor(s: Step): Option<nat> {
    if s.KidEnds? then None else Some(s.c)
  }

  /** Only one caller is past the lock. */
  lemma Alone(w: World, c: nat, d: nat)
    requires CallersOk(w) && c in w.controllers && d in w.controllers
    requires Past(PcOf(w, c)) && Past(PcOf(w, d))
    ensures c == d
  {
    assert PcOk(w, c, PcOf(w, c)) && PcOk(w, d, PcOf(w, d));
  }

  /** While a child lives, nobody but its spawner is past the lock, and its
      spawner is waiting for it or has given up on it. */
  lemma LiveKid(w: World, k: nat, c: nat)
    requires CallersOk(w) && KidsOk(w) && k < |w.kids| && w.kids[k].status.Alive?
    requires c in w.controllers && Past(PcOf(w, c))
    ensures w.kids[k].od < |w.owners| && w.owners[w.kids[k].od] == c
    ensures var pc := PcOf(w, c); (pc.Running? && pc.kid == k) || pc.Judged? || pc.Leaving?
  {
    assert KidOk(w, k) && PcOk(w, c, PcOf(w, c));
  }

  lemma FdsKept(accepts: Validator, w: World, s: Step)
    requires FdsOk(w) && CallersOk(w) && Enabled(accepts, w, s)
    ensures FdsOk(After(accepts, w, s))
  {
    hide Loadable, Allows, ValidAttempt;
    if s.Lock? || s.Prepare? || s.Spawn? {
      assert PcOk(w, s.c, PcOf(w, s.c));
    }
  }

  lemma CallersKept(accepts: Validator, w: World, s: Step)
    requires FdsOk(w) && CallersOk(w) && Enabled(accepts, w, s)
    ensures CallersOk(After(accepts, w, s))
  {
    hide Loadable, Allows, ValidAttempt, PcOk;
    var v := After(accepts, w, s);
    forall d | d in v.controllers ensures PcOk(v, d, PcOf(v, d)) {
      PcKept(accepts, w, s, d);
    }
  }

  lemma PcKept(accepts: Validator, w: World, s: Step, d: nat)
    requires FdsOk(w) && CallersOk(w) && Enabled(accepts, w, s)
    ensures var v := After(accepts, w, s); PcOk(v, d, PcOf(v, d))
  {
    hide Loadable, Allows, ValidAttempt;
    if d in w.controllers {
      assert PcOk(w, d, PcOf(w, d));
    }
  }

  lemma KidsKept(accepts: Validator, w: World, s: Step)
    requires FdsOk(w) && CallersOk(w) && KidsOk(w) && Enabled(accepts, w, s)
    ensures KidsOk(After(accepts, w, s))
  {
    hide Loadable, Allows, ValidAttempt;
    var v := After(accepts, w, s);
    if s.Spawn? {
      assert PcOk(w, s.c, PcOf(w, s.c));
    }
    forall k | 0 <= k < |w.kids| ensures KidOk(v, k) {
      KidKept(accepts, w, s, k);
    }
    forall j, k | 0 <= j < k < |v.kids| ensures v.kids[j].od != v.kids[k].od {
      assert KidOk(w, j);
    }
  }

  lemma KidKept(accepts: Validator, w: World, s: Step, k: nat)
    requires FdsOk(w) && CallersOk(w) && KidsOk(w) && Enabled(accepts, w, s) && k < |w.kids|
    ensures KidOk(After(accepts, w, s), k)
  {
    hide Loadable, Allows, ValidAttempt, PcOk;
    assert KidOk(w, k);
    if s.KidEnds? {
      assert KidOk(w, s.k);
    }
  }

  /** Children keep their identity and, once they have ended, their status. */
  ghost predicate KidsGrow(w: World, v: World) {
    && |w.kids| <= |v.kids|
    && forall k :: 0 <= k < |w.kids| ==>
         && v.kids[k].attempt == w.kids[k].attempt && v.kids[k].pid == w.kids[k].pid
         && (!w.kids[k].status.Alive? ==> v.kids[k].status == w.kids[k].status)
  }

  lemma KidsGrown(accepts: Validator, w: World, s: Step)
    requires Enabled(accepts, w, s)
    ensures KidsGrow(w, After(accepts, w, s))
  {
    hide Loadable, Allows, ValidAttempt;
  }

  lemma VerifiedKept(accepts: Validator, w: World, v: World, s: State)
    requires KidsGrow(w, v) && Verified(accepts, w.kids, s)
    ensures Verified(accepts, v.kids, s)
  {
    var k, output: Output :|
      && 0 <= k < |w.kids| && s.attempt == Some(w.kids[k].attempt) && w.kids[k].status == Exited(0)
      && accepts(w.kids[k].attempt, w.kids[k].pid, output) == s.genesis;
    assert accepts(v.kids[k].attempt, v.kids[k].pid, output) == s.genesis;
  }

  /** What one caller remembers stays right while nobody else touches the
      journal or spawns. */
  lemma MemoryFrame(accepts: Validator, w: World, v: World, kind: Kind, pc: Pc)
    requires MemoryOk(accepts, w, kind, pc) && KidsGrow(w, v)
    requires v.journal == w.journal && |v.kids| == |w.kids| && w.attempts <= v.attempts
    ensures MemoryOk(accepts, v, kind, pc)
  {
    hide ValidAttempt, Loadable, Allows, Verified;
    if pc.Judged? && pc.state.phase == Initialized {
      VerifiedKept(accepts, w, v, pc.state);
    }
  }

  lemma OthersRemember(accepts: Validator, w: World, s: Step, d: nat)
    requires CallersOk(w) && MemoriesOk(accepts, w) && Enabled(accepts, w, s)
    requires d in w.controllers && Actor(s) != Some(d)
    ensures var v := After(accepts, w, s); MemoryOk(accepts, v, KindOf(v, d), PcOf(v, d))
  {
    hide ValidAttempt, Loadable, Allows, Verified, MemoryOk, PcOk;
    var v := After(accepts, w, s);
    KidsGrown(accepts, w, s);
    assert MemoryOk(accepts, w, KindOf(w, d), PcOf(w, d));
    if (s.SaveIntent? || s.SaveFinal? || s.Spawn?) && Past(PcOf(w, d)) {
      Alone(w, s.c, d);
    } else if Past(PcOf(w, d)) {
      MemoryFrame(accepts, w, v, KindOf(w, d), PcOf(w, d));
    } else {
      Outside(accepts, v, KindOf(w, d), PcOf(w, d));
    }
  }

  lemma Outside(accepts: Validator, w: World, kind: Kind, pc: Pc)
    requires !Past(pc) || pc.Holding? || pc.Leaving?
    ensures MemoryOk(accepts, w, kind, pc)
  {
  }

  lemma ActorRemembers(accepts: Validator, w: World, s: Step)
    requires MemoriesOk(accepts, w) && JournalOk(accepts, w) && AttemptsOk(w) && Enabled(accepts, w, s)
    requires !s.KidEnds?
    ensures var v := After(accepts, w, s); MemoryOk(accepts, v, KindOf(v, s.c), PcOf(v, s.c))
  {
    hide ValidAttempt, CallersOk, Verified;
    var v := After(accepts, w, s);
    if s.c in w.controllers {
      assert MemoryOk(accepts, w, KindOf(w, s.c), PcOf(w, s.c));
    }
    if s.Succeed? {
      SucceedVerified(accepts, w, s);
    }
  }

  lemma SucceedVerified(accepts: Validator, w: World, s: Step)
    requires s.Succeed? && Enabled(accepts, w, s) && MemoryOk(accepts, w, KindOf(w, s.c), PcOf(w, s.c))
    ensures Verified(accepts, w.kids, PcOf(After(accepts, w, s), s.c).state)
    ensures PcOf(After(accepts, w, s), s.c).state.genesis.Some?
  {
    hide ValidAttempt;
    var pc := PcOf(w, s.c);
    assert accepts(w.kids[pc.kid].attempt, w.kids[pc.kid].pid, s.output).Some?;
  }

  lemma MemoriesKept(accepts: Validator, w: World, s: Step)
    requires Inv(accepts, w) && Enabled(accepts, w, s)
    ensures MemoriesOk(accepts, After(accepts, w, s))
  {
    hide Enabled, After, MemoryOk, FdsOk, CallersOk, KidsOk, JournalOk, AttemptsOk;
    var v := After(accepts, w, s);
    StepControllers(accepts, w, s);
    forall d | d in v.controllers ensures MemoryOk(accepts, v, KindOf(v, d), PcOf(v, d)) {
      if Actor(s) == Some(d) {
        ActorRemembers(accepts, w, s);
      } else {
        OthersRemember(accepts, w, s, d);
      }
    }
  }

  lemma StepControllers(accepts: Validator, w: World, s: Step)
    requires Enabled(accepts, w, s)
    ensures After(accepts, w, s).controllers.Keys == w.controllers.Keys + if s.KidEnds? then {} else {s.c}
  {
    hide Loadable, Allows, ValidAttempt;
  }

  lemma JournalKept(accepts: Validator, w: World, s: Step)
    requires MemoriesOk(accepts, w) && JournalOk(accepts, w) && Enabled(accepts, w, s)
    ensures JournalOk(accepts, After(accepts, w, s))
  {
    hide ValidAttempt, Verified;
    var v := After(accepts, w, s);
    KidsGrown(accepts, w, s);
    if !s.KidEnds? && s.c in w.controllers {
      assert MemoryOk(accepts, w, KindOf(w, s.c), PcOf(w, s.c));
    }
    if v.journal.phase == Initialized {
      VerifiedKept(accepts, w, v, v.journal);
    }
  }

  lemma AttemptsKept(accepts: Validator, w: World, s: Step)
    requires MemoriesOk(accepts, w) && AttemptsOk(w) && Enabled(accepts, w, s)
    ensures AttemptsOk(After(accepts, w, s))
  {
    hide ValidAttempt, Loadable, Allows;
    if s.Spawn? {
      assert MemoryOk(accepts, w, KindOf(w, s.c), PcOf(w, s.c));
    }
  }

  lemma InvKept(accepts: Validator, w: World, s: Step)
    requires Inv(accepts, w) && Enabled(accepts, w, s)
    ensures Inv(accepts, After(accepts, w, s))
  {
    hide Enabled, After, FdsOk, CallersOk, KidsOk, MemoriesOk, JournalOk, AttemptsOk;
    FdsKept(accepts, w, s);
    CallersKept(accepts, w, s);
    KidsKept(accepts, w, s);
    MemoriesKept(accepts, w, s);
    JournalKept(accepts, w, s);
    AttemptsKept(accepts, w, s);
  }

  lemma {:induction false} Invariant(accepts: Validator, ws: seq<World>, steps: seq<Step>, i: nat)
    requires Run(accepts, ws, steps) && i < |ws|
    ensures Inv(accepts, ws[i])
  {
    hide Enabled, After;
    if i > 0 {
      Invariant(accepts, ws, steps, i - 1);
      InvKept(accepts, ws[i - 1], steps[i - 1]);
    }
  }

  // ------------------------------------------------------------ the theorems

  predicate Live(w: World, k: nat) {
    k < |w.kids| && w.kids[k].status.Alive?
  }

  /** Mutual exclusion: in every world of every run at most one engine child
      lives, `lock` succeeds only while none does, and whoever is past the lock
      while a child lives is the caller that spawned it and can spawn no more. */
  lemma MutualExclusion(accepts: Validator, ws: seq<World>, steps: seq<Step>, i: nat)
    requires Run(accepts, ws, steps) && i < |ws|
    ensures forall j: nat, k: nat :: Live(ws[i], j) && Live(ws[i], k) ==> j == k
    ensures i < |steps| && steps[i].Lock? ==> forall k: nat :: !Live(ws[i], k)
    ensures forall k: nat, c <- ws[i].controllers :: Live(ws[i], k) && Past(PcOf(ws[i], c)) ==>
              ws[i].kids[k].od < |ws[i].owners| && ws[i].owners[ws[i].kids[k].od] == c
              && (PcOf(ws[i], c).Running? || PcOf(ws[i], c).Judged? || PcOf(ws[i], c).Leaving?)
  {
    Invariant(accepts, ws, steps, i);
    var w := ws[i];
    if i < |steps| && steps[i].Lock? {
      assert Enabled(accepts, w, steps[i]);
    }
    hide Run, Enabled, After, MemoriesOk, JournalOk, AttemptsOk, FdsOk, PcOk, Past;
    forall k: nat | Live(w, k) ensures w.locked == Some(w.kids[k].od) {
      assert KidOk(w, k);
    }
    forall k: nat, c | Live(w, k) && c in w.controllers && Past(PcOf(w, c))
      ensures w.kids[k].od < |w.owners| && w.owners[w.kids[k].od] == c
      ensures PcOf(w, c).Running? || PcOf(w, c).Judged? || PcOf(w, c).Leaving?
    {
      LiveKid(w, k, c);
    }
  }

  /** A child starts only once the journal durably holds the intent for its
      attempt, and no earlier child ran that attempt. */
  lemma IntentBeforeSpawn(accepts: Validator, ws: seq<World>, steps: seq<Step>, i: nat)
    requires Run(accepts, ws, steps) && i < |steps| && steps[i].Spawn?
    ensures var kids := ws[i + 1].kids;
            && |kids| == |ws[i].kids| + 1 && kids[..|ws[i].kids|] == ws[i].kids
            && ws[i].journal == ws[i + 1].journal == State(InitIntent, Some(kids[|ws[i].kids|].attempt), None)
            && forall k :: 0 <= k < |ws[i].kids| ==> kids[k].attempt.id != kids[|ws[i].kids|].attempt.id
  {
    Invariant(accepts, ws, steps, i);
    var w := ws[i];
    hide FdsOk, CallersOk, KidsOk, JournalOk, AttemptsOk, ValidAttempt;
    assert Enabled(accepts, w, steps[i]) && ws[i + 1] == After(accepts, w, steps[i]);
    assert MemoryOk(accepts, w, KindOf(w, steps[i].c), PcOf(w, steps[i].c));
  }

  /** A fresh `init` child is spawned at most once, and before every other: all
      later children resume, each under an attempt of its own. */
  lemma OneFreshInit(accepts: Validator, ws: seq<World>, steps: seq<Step>, i: nat)
    requires Run(accepts, ws, steps) && i < |ws|
    ensures forall k :: 0 <= k < |ws[i].kids| && !ws[i].kids[k].attempt.resume ==> k == 0
    ensures forall j, k :: 0 <= j < k < |ws[i].kids| ==> ws[i].kids[j].attempt.id != ws[i].kids[k].attempt.id
  {
    hide Enabled, After;
    Invariant(accepts, ws, steps, i);
  }

  /** Every durable state passes the checks of `load`; and Initialized stands
      only for an attempt whose child exited with 0 and passed validation under
      its own process number, with the genesis hash that validation returned. */
  lemma DurableStates(accepts: Validator, ws: seq<World>, steps: seq<Step>, i: nat)
    requires Run(accepts, ws, steps) && i < |ws|
    ensures var s := ws[i].journal;
            && (s.phase == Registered <==> s.attempt == None) && (s.phase == Initialized <==> s.genesis.Some?)
            && (s.attempt.Some? ==> 1 <= |s.attempt.value.id| <= 80) && Loadable(s)
    ensures ws[i].journal.phase == Initialized ==> Verified(accepts, ws[i].kids, ws[i].journal)
    ensures ws[i].journal.phase == Registered ==> ws[i].kids == []
  {
    hide Enabled, After;
    Invariant(accepts, ws, steps, i);
  }

  predicate Resumes(s: State) {
    s.attempt.Some? && s.attempt.value.resume
  }

  /** The edges along which the durable state may move. */
  predicate Edge(a: State, b: State) {
    match a.phase
    case Registered => b.phase == InitIntent && !Resumes(b)
    case InitIntent =>
      (b.phase == InitIntent && Resumes(b) && b.attempt != a.attempt)
      || ((b.phase == Unknown || b.phase == Initialized) && b.attempt == a.attempt)
    case Unknown => b.phase == InitIntent && Resumes(b) && b.attempt != a.attempt
    case Initialized => false
  }

  lemma StepMoves(accepts: Validator, w: World, s: Step)
    requires MemoriesOk(accepts, w) && JournalOk(accepts, w) && AttemptsOk(w) && Enabled(accepts, w, s)
    ensures var v := After(accepts, w, s); v.journal == w.journal || Edge(w.journal, v.journal)
    ensures s.Spawn? ==> w.journal.phase == InitIntent
  {
    hide ValidAttempt, Verified;
    if !s.KidEnds? && s.c in w.controllers {
      assert MemoryOk(accepts, w, KindOf(w, s.c), PcOf(w, s.c));
    }
  }

  /** The journal moves only along those edges: intent before outcome, a new
      attempt for every resumption, and never back to Registered. */
  lemma JournalMoves(accepts: Validator, ws: seq<World>, steps: seq<Step>, i: nat)
    requires Run(accepts, ws, steps) && i < |steps|
    ensures ws[i + 1].journal == ws[i].journal || Edge(ws[i].journal, ws[i + 1].journal)
  {
    Invariant(accepts, ws, steps, i);
    hide Enabled, After, MemoriesOk, JournalOk, AttemptsOk, FdsOk, CallersOk, KidsOk;
    StepMoves(accepts, ws[i], steps[i]);
  }

  /** Initialized is final: the record never changes again and nothing spawns. */
  lemma {:induction false} InitializedAbsorbs(accepts: Validator, ws: seq<World>, steps: seq<Step>, i: nat, j: nat)
    requires Run(accepts, ws, steps) && i <= j < |ws| && ws[i].journal.phase == Initialized
    ensures ws[j].journal == ws[i].journal && |ws[j].kids| == |ws[i].kids|
  {
    if i < j {
      InitializedAbsorbs(accepts, ws, steps, i, j - 1);
      Invariant(accepts, ws, steps, j - 1);
      StepMoves(accepts, ws[j - 1], steps[j - 1]);
      hide MemoriesOk, JournalOk, AttemptsOk, FdsOk, CallersOk, KidsOk;
      KidsCount(accepts, ws[j - 1], steps[j - 1]);
    }
  }

  lemma KidsCount(accepts: Validator, w: World, s: Step)
    requires Enabled(accepts, w, s) && !s.Spawn?
    ensures |After(accepts, w, s).kids| == |w.kids|
  {
    hide Loadable, Allows, ValidAttempt;
  }

  // ----------------------------------------------------------- one caller's run

  datatype Refusal = Busy | WrongPhase | Precondition | OutcomeUnknown

  /** The caller that this step lets touch the journal or the engine. */
  function Writer(s: Step): set<nat> {
    if s.SaveIntent? || s.Spawn? || s.SaveFinal? then {s.c} else {}
  }

  ghost function Writers(steps: seq<Step>): set<nat> {
    if steps == [] then {} else Writers(steps[..|steps| - 1]) + Writer(steps[|steps| - 1])
  }

  /** The system as a caller finds it: between its own steps, anyone else may
      take any number of theirs. `ws` and `steps` record the run so far. */
  class Machine {
    var world: World
    const accepts: Validator
    ghost var ws: seq<World>
    ghost var steps: seq<Step>

    ghost predicate Valid()
      reads this
    {
      Run(accepts, ws, steps) && world == ws[|steps|]
    }

    constructor (accepts: Validator)
      ensures Valid() && steps == [] && this.accepts == accepts
    {
      this.accepts := accepts;
      world := World(map[], [], {}, [], None, {}, State(Registered, None, None));
      ws := [World(map[], [], {}, [], None, {}, State(Registered, None, None))];
      steps := [];
    }

    method Do(s: Step)
      requires Valid() && Enabled(accepts, world, s)
      modifies this
      ensures Valid() && world == After(accepts, old(world), s)
      ensures steps == old(steps) + [s] && ws == old(ws) + [world]
      ensures Writers(steps) == old(Writers(steps)) + Writer(s)
    {
      hide Enabled, After, Writer;
      assert (steps + [s])[..|steps|] == steps;
      world := After(accepts, world, s);
      ws := ws + [world];
      steps := steps + [s];
    }

    /** Steps of everyone but `c`, who notices nothing of them where it stands. */
    method Others(c: nat)
      requires Valid()
      modifies this
      ensures Valid() && old(ws) <= ws && old(steps) <= steps
      ensures c in Writers(steps) <==> c in old(Writers(steps))
      ensures PcOf(world, c) == old(PcOf(world, c)) && KindOf(world, c) == old(KindOf(world, c))
      ensures |old(world.kids)| <= |world.kids| && old(world.attempts) <= world.attempts
    {
      var turns: int := *;
      for turn := 0 to if turns < 0 then 0 else turns
        invariant Valid() && old(ws) <= ws && old(steps) <= steps
        invariant c in Writers(steps) <==> c in old(Writers(steps))
        invariant PcOf(world, c) == old(PcOf(world, c)) && KindOf(world, c) == old(KindOf(world, c))
        invariant |old(world.kids)| <= |world.kids| && old(world.attempts) <= world.attempts
      {
        var s: Step := *;
        if Actor(s) != Some(c) && Enabled(accepts, world, s) {
          Bystander(accepts, world, s, c);
          hide After, Enabled, Run, Writers;
          Do(s);
        }
      }
    }

    /** A step of a caller, and then any number by the others. */
    method Turn(s: Step)
      requires Valid() && Enabled(accepts, world, s) && !s.KidEnds?
      modifies this
      ensures Valid() && old(ws) <= ws && old(steps) + [s] <= steps && |ws| == |steps| + 1
      ensures s.c in Writers(steps) <==> s.c in old(Writers(steps)) + Writer(s)
      ensures Leads(s, PcOf(world, s.c))
      ensures KindOf(world, s.c) == if s.Start? then s.kind else old(KindOf(world, s.c))
      ensures s.Spawn? ==> PcOf(world, s.c).kid < |world.kids|
      ensures s.SaveFinal? && s.saved.Published? ==> ws[|old(steps)| + 1].journal == old(PcOf(world, s.c)).state
      ensures |old(ws)| < |ws| && ws[|old(ws)|] == After(accepts, old(world), s)
      ensures PcOf(world, s.c) == PcOf(ws[|old(ws)|], s.c) && Inv(accepts, world)
      ensures old(world.attempts) <= world.attempts
    {
      ActorMoves(accepts, world, s);
      hide Enabled, After, Leads, Writers, Writer, Inv;
      Do(s);
      Others(s.c);
      Invariant(accepts, ws, steps, |steps|);
    }
  }

  /** Where a caller's step leads it. */
  predicate Leads(s: Step, next: Pc)
    requires !s.KidEnds?
  {
    match s
    case Start(_, _) => next.Ready?
    case Open(_) => next.Opened?
    case Lock(_) => next.Holding?
    case Load(_) => next.Checked?
    case Prepare(_, _) => next.Prepared?
    case SaveIntent(_, saved) => if saved.Published? then next.Intended? else next.Leaving?
    case Spawn(_, _) => next.Running?
    case Fail(_) => next.Judged?
    case Succeed(_, _) => next.Judged?
    case SaveFinal(_, _) => next.Leaving?
    case Leave(_) => next.Gone?
  }

  lemma ActorMoves(accepts: Validator, w: World, s: Step)
    requires Enabled(accepts, w, s) && !s.KidEnds?
    ensures var v := After(accepts, w, s);
            && Leads(s, PcOf(v, s.c))
            && KindOf(v, s.c) == (if s.Start? then s.kind else KindOf(w, s.c))
            && (s.Spawn? ==> PcOf(v, s.c).kid < |v.kids|)
            && (s.SaveFinal? && s.saved.Published? ==> v.journal == PcOf(w, s.c).state)
            && w.attempts <= v.attempts
  {
    hide Loadable, Allows, ValidAttempt;
  }

  lemma Bystander(accepts: Validator, w: World, s: Step, c: nat)
    requires Enabled(accepts, w, s) && Actor(s) != Some(c)
    ensures var v := After(accepts, w, s);
            && PcOf(v, c) == PcOf(w, c) && KindOf(v, c) == KindOf(w, c) && |w.kids| <= |v.kids|
            && w.attempts <= v.attempts
  {
    hide Loadable, Allows, ValidAttempt;
  }

  /** What the surroundings have in store for one caller: whether its preparations
      succeed and under which attempt id, what its saves do, and what becomes of its
      child as far as the caller can see. */
  datatype Luck = Luck(
    ready: bool, id: bytes, intent: Saved, started: bool, pid: nat, polls: nat, patient: bool, captured: bool,
    output: Output, final: Saved)

  /** Where in the run a caller asked for the lock, read the journal, and looked at
      its child for the last time. */
  datatype Marks = Marks(asked: nat, read: nat, looked: nat)

  /** Opens the lock file and asks for the lock, without waiting for it. */
  method Acquire(m: Machine, c: nat, kind: Kind) returns (ok: bool, ghost asked: nat)
    requires m.Valid() && c !in m.world.controllers
    modifies m
    ensures m.Valid() && old(m.ws) <= m.ws && old(m.steps) <= m.steps && Inv(m.accepts, m.world)
    ensures c in Writers(m.steps) <==> c in old(Writers(m.steps))
    ensures if ok then PcOf(m.world, c).Holding? && KindOf(m.world, c) == kind else PcOf(m.world, c).Gone?
    ensures |old(m.ws)| <= asked < |m.ws| && PcOf(m.ws[asked], c).Opened? && (ok <==> m.ws[asked].locked.None?)
  {
    hide After, Run, Writers, Inv;
    m.Turn(Start(c, kind));
    m.Turn(Open(c));
    asked := |m.ws| - 1;
    WorldLast(m);
    ok := m.world.locked.None?;
    m.Turn(if ok then Lock(c) else Leave(c));
  }

  lemma WorldLast(m: Machine)
    requires m.Valid()
    ensures |m.ws| == |m.steps| + 1 && m.world == m.ws[|m.ws| - 1]
  {
    hide Enabled, After, Initial;
  }

  lemma PreparedState(accepts: Validator, w: World, c: nat, id: bytes)
    requires Inv(accepts, w) && PcOf(w, c).Checked? && Enabled(accepts, w, Prepare(c, id))
    ensures PcOf(After(accepts, w, Prepare(c, id)), c).state
         == State(InitIntent, Some(Attempt(id, KindOf(w, c) == Resume)), None)
  {
    hide ValidAttempt, Verified;
    assert MemoryOk(accepts, w, KindOf(w, c), PcOf(w, c));
  }

  /** The journal of a reachable world passes the checks of `load`. */
  lemma NeverCorrupt(accepts: Validator, w: World)
    requires Inv(accepts, w)
    ensures Loadable(w.journal)
  {
    hide FdsOk, CallersOk, KidsOk, MemoriesOk, AttemptsOk, Loadable;
  }

  /** Locks the instance and decides whether it may be initialized. */
  method Enter(m: Machine, c: nat, resume: bool, luck: Luck)
    returns (r: Result<(), Refusal>, ghost asked: nat, ghost read: nat)
    requires m.Valid() && c !in m.world.controllers
    modifies m
    ensures m.Valid() && old(m.ws) <= m.ws && old(m.steps) <= m.steps && Inv(m.accepts, m.world)
    ensures c in Writers(m.steps) <==> c in old(Writers(m.steps))
    ensures r.Err? ==> PcOf(m.world, c).Gone? && r.error in {Busy, WrongPhase, Precondition}
    ensures |old(m.ws)| <= asked < |m.ws| && PcOf(m.ws[asked], c).Opened?
    ensures r == Err(Busy) <==> m.ws[asked].locked.Some?
    ensures r != Err(Busy) ==> asked < read < |m.ws| && PcOf(m.ws[read], c).Holding?
    ensures r != Err(Busy) ==>
              var phase := m.ws[read].journal.phase;
              r == Err(WrongPhase) <==> if resume then phase == Registered || phase == Initialized else phase != Registered
    ensures r == Err(Precondition) ==> !luck.ready || !ValidAttempt(luck.id) || luck.id in m.world.attempts
    ensures r.Ok? ==> luck.ready && ValidAttempt(luck.id) && PcOf(m.world, c).Prepared?
                      && PcOf(m.world, c).state == State(InitIntent, Some(Attempt(luck.id, resume)), None)
  {
    hide *;
    hide Writers, Inv;
    var locked;
    locked, asked := Acquire(m, c, if resume then Resume else Init);
    read := asked;
    if !locked {
      return Err(Busy), asked, read;
    }
    WorldLast(m);
    read := |m.ws| - 1;
    r := Judge(m, c, resume, luck);
  }

  /** Reads the journal under the lock, and prepares an attempt if it may. */
  method Judge(m: Machine, c: nat, resume: bool, luck: Luck) returns (r: Result<(), Refusal>)
    requires m.Valid() && PcOf(m.world, c).Holding? && Inv(m.accepts, m.world)
    requires KindOf(m.world, c) == if resume then Resume else Init
    modifies m
    ensures m.Valid() && old(m.ws) <= m.ws && old(m.steps) <= m.steps && Inv(m.accepts, m.world)
    ensures c in Writers(m.steps) <==> c in old(Writers(m.steps))
    ensures r.Err? ==> PcOf(m.world, c).Gone? && r.error in {WrongPhase, Precondition}
    ensures var phase := old(m.world.journal.phase);
            r == Err(WrongPhase) <==> if resume then phase == Registered || phase == Initialized else phase != Registered
    ensures r == Err(Precondition) ==> !luck.ready || !ValidAttempt(luck.id) || luck.id in m.world.attempts
    ensures r.Ok? ==> luck.ready && ValidAttempt(luck.id) && PcOf(m.world, c).Prepared?
                      && PcOf(m.world, c).state == State(InitIntent, Some(Attempt(luck.id, resume)), None)
  {
    hide After, Run, Writers, Inv, ValidAttempt, Enabled, Allows, KindOf, PcOf;
    MayLoad(m.accepts, m.world, c);
    MayStart(resume, m.world.journal.phase);
    if !Allows(KindOf(m.world, c), m.world.journal.phase) {
      m.Turn(Leave(c));
      return Err(WrongPhase);
    }
    m.Turn(Load(c));
    r := MakeReady(m, c, luck);
  }

  /** The preparations between the journal's reading and the intent. */
  method MakeReady(m: Machine, c: nat, luck: Luck) returns (r: Result<(), Refusal>)
    requires m.Valid() && PcOf(m.world, c).Checked? && Inv(m.accepts, m.world)
    modifies m
    ensures m.Valid() && old(m.ws) <= m.ws && old(m.steps) <= m.steps && Inv(m.accepts, m.world)
    ensures c in Writers(m.steps) <==> c in old(Writers(m.steps))
    ensures r.Err? ==> PcOf(m.world, c).Gone? && r.error == Precondition
    ensures r.Err? ==> !luck.ready || !ValidAttempt(luck.id) || luck.id in m.world.attempts
    ensures r.Ok? ==> luck.ready && ValidAttempt(luck.id) && PcOf(m.world, c).Prepared?
                      && PcOf(m.world, c).state
                         == State(InitIntent, Some(Attempt(luck.id, old(KindOf(m.world, c)) == Resume)), None)
  {
    hide After, Run, Writers, Inv, ValidAttempt, Enabled, KindOf;
    MayPrepare(m.accepts, m.world, c, luck.id);
    if !luck.ready || luck.id in m.world.attempts || !ValidAttempt(luck.id) {
      m.Turn(Leave(c));
      return Err(Precondition);
    }
    PreparedState(m.accepts, m.world, c, luck.id);
    m.Turn(Prepare(c, luck.id));
    r := Ok(());
  }

  lemma MayStart(resume: bool, phase: Phase)
    ensures Allows(if resume then Resume else Init, phase) <==>
            if resume then phase == InitIntent || phase == Unknown else phase == Registered
  {
  }

  lemma MayLoad(accepts: Validator, w: World, c: nat)
    requires PcOf(w, c).Holding? && Inv(accepts, w)
    ensures Enabled(accepts, w, Leave(c))
    ensures Enabled(accepts, w, Load(c)) <==> Allows(KindOf(w, c), w.journal.phase)
  {
    NeverCorrupt(accepts, w);
    hide Inv, Loadable, Allows;
  }

  lemma MayPrepare(accepts: Validator, w: World, c: nat, id: bytes)
    requires PcOf(w, c).Checked?
    ensures Enabled(accepts, w, Leave(c))
    ensures Enabled(accepts, w, Prepare(c, id)) <==> id !in w.attempts && ValidAttempt(id)
  {
    hide ValidAttempt, Loadable;
  }

  lemma IntentStays(accepts: Validator, w: World, c: nat)
    requires PcOf(w, c).Prepared? && Enabled(accepts, w, SaveIntent(c, Published))
    ensures PcOf(After(accepts, w, SaveIntent(c, Published)), c).state == PcOf(w, c).state
  {
    hide ValidAttempt, Loadable;
  }

  lemma SpawnStays(accepts: Validator, w: World, c: nat, pid: nat)
    requires PcOf(w, c).Intended? && Enabled(accepts, w, Spawn(c, pid))
    ensures var v := After(accepts, w, Spawn(c, pid));
            PcOf(v, c).state == PcOf(w, c).state && PcOf(v, c).kid < |v.kids|
  {
    hide ValidAttempt, Loadable;
  }

  /** What a caller makes of its child: the validated result, or an unknown one. */
  lemma Judgement(accepts: Validator, w: World, s: Step)
    requires Enabled(accepts, w, s) && (s.Fail? || s.Succeed?)
    ensures var (pc, next) := (PcOf(w, s.c), PcOf(After(accepts, w, s), s.c).state);
            if s.Fail? then next == State(Unknown, pc.state.attempt, pc.state.genesis)
            else pc.Running? && pc.kid < |w.kids| && pc.state.attempt.Some?
                 && w.kids[pc.kid].status == Exited(0)
                 && accepts(pc.state.attempt.value, w.kids[pc.kid].pid, s.output).Some?
                 && next == State(Initialized, pc.state.attempt,
                                  accepts(pc.state.attempt.value, w.kids[pc.kid].pid, s.output))
  {
    hide ValidAttempt, Loadable;
  }

  /** The child that caller `c` waits for ended with 0 and a valid result. */
  predicate EndedWell(accepts: Validator, w: World, c: nat, attempt: Attempt, output: Output) {
    var pc := PcOf(w, c);
    pc.Running? && pc.kid < |w.kids| && w.kids[pc.kid].status == Exited(0)
    && accepts(attempt, w.kids[pc.kid].pid, output).Some?
  }

  /** Spawns the engine and waits for it, for as long as patience lasts. */
  method Operate(m: Machine, c: nat, luck: Luck) returns (ghost looked: nat)
    requires m.Valid() && PcOf(m.world, c).Intended? && PcOf(m.world, c).state.attempt.Some?
    modifies m
    ensures m.Valid() && old(m.ws) <= m.ws && old(m.steps) <= m.steps
    ensures PcOf(m.world, c).Judged? && looked < |m.ws|
    ensures var (state, before) := (PcOf(m.world, c).state, old(PcOf(m.world, c).state));
            var well := luck.started && luck.patient && luck.captured
                        && EndedWell(m.accepts, m.ws[looked], c, before.attempt.value, luck.output);
            state == if well then State(Initialized, before.attempt,
                                        m.accepts(before.attempt.value,
                                                  m.ws[looked].kids[PcOf(m.ws[looked], c).kid].pid, luck.output))
                     else State(Unknown, before.attempt, before.genesis)
  {
    hide After, Run, Writers, Inv;
    looked := 0;
    WorldLast(m);
    if !luck.started {
      Judgement(m.accepts, m.world, Fail(c));
      m.Turn(Fail(c));
      return;
    }
    ghost var state := PcOf(m.world, c).state;
    SpawnStays(m.accepts, m.world, c, luck.pid);
    m.Turn(Spawn(c, luck.pid));
    var kid := PcOf(m.world, c).kid;
    for poll := 0 to luck.polls
      invariant m.Valid() && old(m.ws) <= m.ws && old(m.steps) <= m.steps
      invariant PcOf(m.world, c).Running? && PcOf(m.world, c).kid == kid < |m.world.kids|
      invariant PcOf(m.world, c).state == state
    {
      if !m.world.kids[kid].status.Alive? {
        break;
      }
      m.Others(c);
    }
    looked := Decide(m, c, luck);
  }

  /** The child has ended, or the caller no longer waits for it. */
  method Decide(m: Machine, c: nat, luck: Luck) returns (ghost looked: nat)
    requires m.Valid() && PcOf(m.world, c).Running? && PcOf(m.world, c).state.attempt.Some?
    modifies m
    ensures m.Valid() && old(m.ws) <= m.ws && old(m.steps) <= m.steps
    ensures PcOf(m.world, c).Judged? && looked < |m.ws|
    ensures var (state, before) := (PcOf(m.world, c).state, old(PcOf(m.world, c).state));
            var well := luck.patient && luck.captured
                        && EndedWell(m.accepts, m.ws[looked], c, before.attempt.value, luck.output);
            state == if well then State(Initialized, before.attempt,
                                        m.accepts(before.attempt.value,
                                                  m.ws[looked].kids[PcOf(m.ws[looked], c).kid].pid, luck.output))
                     else State(Unknown, before.attempt, before.genesis)
  {
    hide After, Run, Writers, Inv;
    WorldLast(m);
    looked := |m.ws| - 1;
    SucceedMay(m.accepts, m.world, c, luck.output);
    hide Enabled;
    if luck.patient && luck.captured && Enabled(m.accepts, m.world, Succeed(c, luck.output)) {
      Judgement(m.accepts, m.world, Succeed(c, luck.output));
      m.Turn(Succeed(c, luck.output));
    } else {
      Judgement(m.accepts, m.world, Fail(c));
      m.Turn(Fail(c));
    }
  }

  lemma SucceedMay(accepts: Validator, w: World, c: nat, output: Output)
    requires PcOf(w, c).Running? && PcOf(w, c).state.attempt.Some?
    ensures Enabled(accepts, w, Succeed(c, output)) <==> EndedWell(accepts, w, c, PcOf(w, c).state.attempt.value, output)
    ensures Enabled(accepts, w, Fail(c))
  {
    hide ValidAttempt, Loadable;
  }

  /** The final record that an attempt deserves, from the world in which its caller
      looked at its child for the last time. */
  ghost function Earned(accepts: Validator, w: World, c: nat, attempt: Attempt, luck: Luck): State {
    if luck.started && luck.patient && luck.captured && EndedWell(accepts, w, c, attempt, luck.output)
    then State(Initialized, Some(attempt), accepts(attempt, w.kids[PcOf(w, c).kid].pid, luck.output))
    else State(Unknown, Some(attempt), None)
  }

  /** From the prepared attempt to the end: the intent, the engine, the record. */
  method Undertake(m: Machine, c: nat, attempt: Attempt, luck: Luck) returns (r: Result<State, Refusal>, ghost looked: nat)
    requires m.Valid() && PcOf(m.world, c).Prepared?
    requires PcOf(m.world, c).state == State(InitIntent, Some(attempt), None)
    modifies m
    ensures m.Valid() && old(m.ws) <= m.ws && old(m.steps) <= m.steps && PcOf(m.world, c).Gone?
    ensures r.Ok? <==> luck.intent == Published && luck.final == Published
    ensures r.Err? ==> r.error == OutcomeUnknown
    ensures r.Ok? ==> exists i :: |old(m.steps)| <= i < |m.steps| && m.steps[i] == SaveFinal(c, Published)
                                  && m.ws[i + 1].journal == r.value
    ensures r.Ok? ==> looked < |m.ws| && r.value == Earned(m.accepts, m.ws[looked], c, attempt, luck)
  {
    hide After, Run, Writers, Inv, ValidAttempt, Enabled, EndedWell;
    looked := 0;
    MayStep(m.accepts, m.world, c);
    IntentStays(m.accepts, m.world, c);
    m.Turn(SaveIntent(c, luck.intent));
    MayStep(m.accepts, m.world, c);
    if !luck.intent.Published? {
      m.Turn(Leave(c));
      return Err(OutcomeUnknown), looked;
    }
    looked := Operate(m, c, luck);
    r := Finish(m, c, luck.final);
  }

  /** The last save, and the way out. */
  method Finish(m: Machine, c: nat, final: Saved) returns (r: Result<State, Refusal>)
    requires m.Valid() && PcOf(m.world, c).Judged?
    modifies m
    ensures m.Valid() && old(m.ws) <= m.ws && old(m.steps) <= m.steps && PcOf(m.world, c).Gone?
    ensures r == if final.Published? then Ok(old(PcOf(m.world, c).state)) else Err(OutcomeUnknown)
    ensures r.Ok? ==> exists i :: |old(m.steps)| <= i < |m.steps| && m.steps[i] == SaveFinal(c, Published)
                                  && m.ws[i + 1].journal == r.value
  {
    hide After, Run, Writers, Inv, ValidAttempt, Enabled;
    var state := PcOf(m.world, c).state;
    ghost var i := |m.steps|;
    MayStep(m.accepts, m.world, c);
    m.Turn(SaveFinal(c, final));
    assert m.steps[i] == SaveFinal(c, final);
    MayStep(m.accepts, m.world, c);
    m.Turn(Leave(c));
    assert m.steps[i] == SaveFinal(c, final);
    r := if final.Published? then Ok(state) else Err(OutcomeUnknown);
  }

  /** `initialize`: every execution, with any interference and any failure, is a
      stretch of a run, and its result is decided: busy exactly when the lock was
      held, a wrong phase exactly by the journal it read, an unknown outcome exactly
      when a save did not report success, and otherwise the published record, which
      is Initialized exactly when the child ended with a valid result. */
  method Initialize(m: Machine, c: nat, resume: bool, luck: Luck)
    returns (r: Result<State, Refusal>, ghost at: Marks)
    requires m.Valid() && c !in m.world.controllers
    modifies m
    ensures m.Valid() && old(m.ws) <= m.ws && old(m.steps) <= m.steps && PcOf(m.world, c).Gone?
    ensures |old(m.ws)| <= at.asked < |m.ws| && PcOf(m.ws[at.asked], c).Opened?
    ensures r == Err(Busy) <==> m.ws[at.asked].locked.Some?
    ensures r != Err(Busy) ==> at.asked < at.read < |m.ws| && PcOf(m.ws[at.read], c).Holding?
    ensures r != Err(Busy) ==>
              var phase := m.ws[at.read].journal.phase;
              r == Err(WrongPhase) <==> if resume then phase == Registered || phase == Initialized else phase != Registered
    ensures r == Err(Precondition) ==> !luck.ready || !ValidAttempt(luck.id) || luck.id in m.world.attempts
    ensures r.Ok? || r == Err(OutcomeUnknown) ==> luck.ready && ValidAttempt(luck.id)
    ensures r == Err(OutcomeUnknown) ==> luck.intent != Published || luck.final != Published
    ensures r.Err? ==> r.error in {Busy, WrongPhase, Precondition, OutcomeUnknown}
    ensures r.Ok? ==> exists i :: |old(m.steps)| <= i < |m.steps| && m.steps[i] == SaveFinal(c, Published)
                                  && m.ws[i + 1].journal == r.value
    ensures r.Ok? ==> luck.intent == Published && luck.final == Published && at.looked < |m.ws|
                      && r.value == Earned(m.accepts, m.ws[at.looked], c, Attempt(luck.id, resume), luck)
    ensures r.Err? && r.error != OutcomeUnknown ==> (c in Writers(m.steps) <==> c in old(Writers(m.steps)))
  {
    hide *;
    hide Writers;
    var entered;
    ghost var asked, read, looked := 0, 0, 0;
    entered, asked, read := Enter(m, c, resume, luck);
    if entered.Err? {
      return Err(entered.error), Marks(asked, read, looked);
    }
    r, looked := Undertake(m, c, Attempt(luck.id, resume), luck);
    at := Marks(asked, read, looked);
  }

  /** No failure is ruled out: a save may have any outcome, spawning and waiting may
      be given up, a child may end in any way, and a caller may stop anywhere. */
  lemma MayStep(accepts: Validator, w: World, c: nat)
    ensures PcOf(w, c).Prepared? ==> forall saved :: Enabled(accepts, w, SaveIntent(c, saved))
    ensures PcOf(w, c).Judged? ==> forall saved :: Enabled(accepts, w, SaveFinal(c, saved))
    ensures !PcOf(w, c).Gone? ==> Enabled(accepts, w, Leave(c))
    ensures PcOf(w, c).Intended? ==> Enabled(accepts, w, Fail(c)) && forall pid :: Enabled(accepts, w, Spawn(c, pid))
    ensures PcOf(w, c).Running? ==> Enabled(accepts, w, Fail(c))
    ensures forall k: nat, status: Status :: k < |w.kids| && w.kids[k].status.Alive? && !status.Alive? ==>
              Enabled(accepts, w, KidEnds(k, status))
  {
    hide Loadable, Allows, ValidAttempt;
  }
}
