/** One export among others, with its outcome decided. */
module Export {
  import opened Prelude
  import opened Publication
  import opened PublicationRuns

  // src/engine/diagnostic_io.rs, `write_export` and the methods of `Pending`, as
  // methods that take their steps in a shared directory.

  datatype Linking = Made | Unheard | Broken

  /** What the surroundings have in store for one exporter: the names it tries, the
      pieces its file system takes, and which of its operations report success. */
  datatype Luck = Luck(
    names: seq<bytes>, pieces: seq<nat>, written: bool, rechecked: bool, linking: Linking, synced: bool,
    removed: bool, checked: bool, looked: bool, dropped: bool)

  /** The directory as one exporter finds it: between its own steps the others
      may take any number of theirs. */
  class Directory {
    var world: World
    ghost var ws: seq<World>
    ghost var steps: seq<Step>

    ghost predicate Valid()
      reads this
    {
      Run(ws, steps) && |ws| == |steps| + 1 && world == ws[|steps|]
    }

    constructor (w: World)
      requires Initial(w)
      ensures Valid() && world == w
    {
      world := w;
      ws, steps := [w], [];
    }

    method Do(s: Step)
      requires Valid() && Enabled(world, s)
      modifies this
      ensures Valid() && world == Next(old(world), s) && old(steps) + [s] == steps && old(ws) <= ws
    {
      hide Enabled, Next;
      world := Next(world, s);
      ws := ws + [world];
      steps := steps + [s];
    }

    method Others(e: nat)
      requires Valid() && e in world.exporters
      modifies this
      ensures Valid() && old(steps) <= steps && old(ws) <= ws
      ensures e in world.exporters && Get(world, e) == old(Get(world, e)) && Filled(world, e) == old(Filled(world, e))
    {
      hide Enabled, Next, Run, Inv, Filled, Get;
      var turns: int := *;
      for turn := 0 to if turns < 0 then 0 else turns
        invariant Valid() && old(steps) <= steps && old(ws) <= ws
        invariant e in world.exporters && Get(world, e) == old(Get(world, e))
        invariant Filled(world, e) == old(Filled(world, e))
      {
        var s: Step := *;
        if s.e != e && Enabled(world, s) {
          Bystander(world, s, e);
          Invariant(ws, steps, |steps|);
          FilledStays(world, s, e);
          Do(s);
        }
      }
    }

    /** A step of one exporter, and then any number by the others. */
    method Turn(s: Step)
      requires Valid() && Enabled(world, s)
      modifies this
      ensures Valid() && old(steps) + [s] <= steps && old(ws) <= ws
      ensures s.e in world.exporters && Get(world, s.e) == Get(Next(old(world), s), s.e)
      ensures ExporterOk(world, s.e) && Filled(world, s.e) == Filled(Next(old(world), s), s.e)
    {
      ExportersAfter(world, s);
      hide Enabled, Next, Run, ExporterOk, Filled, Get;
      Do(s);
      Others(s.e);
      Invariant(ws, steps, |steps|);
    }
  }

  // ------------------------------------------------------------ single steps

  lemma LookMoves(w: World, e: nat)
    requires e in w.exporters && Get(w, e).pc.Begin?
    ensures Enabled(w, Look(e))
    ensures Get(Next(w, Look(e)), e)
         == Get(w, e).(pc := if Get(w, e).dest in w.names then Done(Refused) else Absent)
  {
  }

  /** Before the link a failure refuses, after it a failure leaves a doubt. */
  lemma FailMoves(w: World, e: nat)
    requires e in w.exporters && ExporterOk(w, e)
    ensures !Get(w, e).pc.Done? && !Get(w, e).pc.Crashed? ==> Enabled(w, Fail(e))
    ensures Get(w, e).pc.Absent? ==> Get(Next(w, Fail(e)), e) == Get(w, e).(pc := Done(Refused))
    ensures Get(w, e).pc.Writing? || Get(w, e).pc.Ready? || Get(w, e).pc.Confirmed? ==>
              Get(Next(w, Fail(e)), e) == Get(w, e).(pc := Closing(Refused))
    ensures Get(w, e).pc.Linked? || Get(w, e).pc.Removing? || Get(w, e).pc.Tidied? ==>
              Get(Next(w, Fail(e)), e) == Get(w, e).(pc := Closing(Uncertain))
  {
    hide Full;
  }

  lemma FillMoves(w: World, e: nat)
    requires e in w.exporters && ExporterOk(w, e) && Get(w, e).pc.Writing?
    ensures var had := Filled(w, e);
            && had <= |Get(w, e).raw|
            && (forall count: nat :: had + count <= |Get(w, e).raw| ==>
                  Enabled(w, Write(e, count)) && Get(Next(w, Write(e, count)), e) == Get(w, e))
            && (had == |Get(w, e).raw| ==>
                  Enabled(w, Finish(e)) && Get(Next(w, Finish(e)), e) == Get(w, e).(pc := Ready))
  {
  }

  lemma ConfirmMoves(w: World, e: nat)
    requires e in w.exporters && ExporterOk(w, e) && Get(w, e).pc.Ready?
    ensures Enabled(w, Confirm(e)) && Get(Next(w, Confirm(e)), e) == Get(w, e).(pc := Confirmed)
  {
  }

  lemma LinkMoves(w: World, e: nat)
    requires e in w.exporters && ExporterOk(w, e) && Get(w, e).pc.Confirmed?
    ensures Enabled(w, Link(e))
    ensures Get(Next(w, Link(e)), e)
         == if Get(w, e).dest in w.names then Get(w, e).(pc := Closing(Refused))
            else Get(w, e).(pc := Linked, linked := true)
    ensures Get(w, e).dest !in w.names ==>
              Enabled(w, LinkUnheard(e))
              && Get(Next(w, LinkUnheard(e)), e) == Get(w, e).(pc := Closing(Refused), linked := true, unheard := true)
  {
    hide Full;
  }

  lemma TidyMoves(w: World, e: nat)
    requires e in w.exporters && ExporterOk(w, e)
    ensures Get(w, e).pc.Linked? ==>
              Enabled(w, Inspect(e)) && Get(Next(w, Inspect(e)), e) == Get(w, e).(pc := Removing)
    ensures Get(w, e).pc.Removing? ==>
              Enabled(w, Unlink(e)) && Get(Next(w, Unlink(e)), e) == Get(w, e).(pc := Tidied)
  {
    hide Failed, Full;
  }

  lemma ConcludeMoves(w: World, e: nat)
    requires e in w.exporters && ExporterOk(w, e) && Get(w, e).pc.Tidied?
    ensures Enabled(w, Conclude(e)) && Get(Next(w, Conclude(e)), e) == Get(w, e).(pc := Closing(Success))
  {
  }

  lemma ClosingMoves(w: World, e: nat, s: Step)
    requires e in w.exporters && Get(w, e).pc.Closing? && (s == Inspect(e) || s == Fail(e))
    ensures Enabled(w, s)
    ensures Get(Next(w, s), e) in {Get(w, e).(pc := Dropping(Get(w, e).pc.outcome)),
                                   Get(w, e).(pc := Done(Get(w, e).pc.outcome))}
  {
    hide Held, Full;
  }

  lemma DroppingMoves(w: World, e: nat, s: Step)
    requires e in w.exporters && Get(w, e).pc.Dropping? && (s == Unlink(e) || s == Fail(e)) && ExporterOk(w, e)
    ensures Enabled(w, s) && Get(Next(w, s), e) == Get(w, e).(pc := Done(Get(w, e).pc.outcome))
  {
    hide Full, LinkedOk;
  }

  lemma CreateMoves(w: World, e: nat, name: bytes)
    requires e in w.exporters && ExporterOk(w, e) && Get(w, e).pc.Absent? && name !in w.names
    ensures Enabled(w, Create(e, name))
    ensures var x := Get(Next(w, Create(e, name)), e);
            x.pc.Writing? && x.dest == Get(w, e).dest && x.raw == Get(w, e).raw && !x.linked && !x.unheard
  {
    hide Full, Failed;
  }

  // ------------------------------------------------------------ the methods

  /** The attempts at a private name. */
  method CreatePrivate(dir: Directory, e: nat, luck: Luck) returns (created: bool)
    requires dir.Valid() && e in dir.world.exporters && Get(dir.world, e).pc.Absent? && ExporterOk(dir.world, e)
    requires !Get(dir.world, e).linked && !Get(dir.world, e).unheard
    modifies dir
    ensures dir.Valid() && old(dir.steps) <= dir.steps && old(dir.ws) <= dir.ws && e in dir.world.exporters
    ensures ExporterOk(dir.world, e)
    ensures var x := Get(dir.world, e);
            && (if created then x.pc.Writing? else x.pc.Absent?)
            && x.dest == old(Get(dir.world, e).dest) && x.raw == old(Get(dir.world, e).raw) && !x.linked && !x.unheard
    ensures !created ==> forall i :: 0 <= i < |luck.names| && i < 64 ==>
                           exists k :: 0 <= k < |dir.ws| && luck.names[i] in dir.ws[k].names
  {
    hide Run, Next, Enabled, Get, ExporterOk;
    created := false;
    var tries := 0;
    while !created && tries < |luck.names| && tries < 64
      invariant dir.Valid() && old(dir.steps) <= dir.steps && old(dir.ws) <= dir.ws && e in dir.world.exporters
      invariant ExporterOk(dir.world, e) && 0 <= tries <= |luck.names|
      invariant var x := Get(dir.world, e);
                && (if created then x.pc.Writing? else x.pc.Absent?)
                && x.dest == old(Get(dir.world, e).dest) && x.raw == old(Get(dir.world, e).raw) && !x.linked && !x.unheard
      invariant !created ==> forall i :: 0 <= i < tries ==>
                               exists k :: 0 <= k < |dir.ws| && luck.names[i] in dir.ws[k].names
      decreases 64 - tries
    {
      var name := luck.names[tries];
      if name !in dir.world.names {
        CreateMoves(dir.world, e, name);
        dir.Turn(Create(e, name));
        created := true;
      } else {
        LastWorld(dir);
        assert name in dir.ws[|dir.ws| - 1].names;
      }
      tries := tries + 1;
    }
  }

  lemma LastWorld(dir: Directory)
    requires dir.Valid()
    ensures |dir.ws| == |dir.steps| + 1 && dir.world == dir.ws[|dir.ws| - 1]
  {
    hide Run;
  }

  /** `write_all` in pieces, to the end or until it fails, and the checks after it. */
  method WriteData(dir: Directory, e: nat, luck: Luck)
    requires dir.Valid() && e in dir.world.exporters && Get(dir.world, e).pc.Writing? && ExporterOk(dir.world, e)
    modifies dir
    ensures dir.Valid() && old(dir.steps) <= dir.steps && old(dir.ws) <= dir.ws && e in dir.world.exporters
    ensures ExporterOk(dir.world, e)
    ensures Get(dir.world, e) == old(Get(dir.world, e)).(pc := if luck.written then Ready else Closing(Refused))
  {
    hide Run, Next, Enabled, Get, ExporterOk;
    for i := 0 to |luck.pieces|
      invariant dir.Valid() && old(dir.steps) <= dir.steps && old(dir.ws) <= dir.ws && e in dir.world.exporters
      invariant ExporterOk(dir.world, e) && Get(dir.world, e) == old(Get(dir.world, e))
    {
      FillMoves(dir.world, e);
      if Enabled(dir.world, Write(e, luck.pieces[i])) {
        WriteStays(dir.world, e, luck.pieces[i]);
        dir.Turn(Write(e, luck.pieces[i]));
      }
    }
    if !luck.written {
      FailMoves(dir.world, e);
      dir.Turn(Fail(e));
      return;
    }
    FillMoves(dir.world, e);
    var more := |Get(dir.world, e).raw| - Filled(dir.world, e);
    WriteStays(dir.world, e, more);
    dir.Turn(Write(e, more));
    FillMoves(dir.world, e);
    dir.Turn(Finish(e));
  }

  /** How much of its export an exporter has written. */
  function Filled(w: World, e: nat): nat {
    var x := Get(w, e);
    if x.private.Some? && x.private.value.inode < |w.inodes| then |w.inodes[x.private.value.inode]| else 0
  }

  lemma FilledStays(w: World, s: Step, e: nat)
    requires Inv(w) && Enabled(w, s) && s.e != e && e in w.exporters
    ensures Filled(Next(w, s), e) == Filled(w, e)
  {
    assert ExporterOk(w, e);
    if s.e in w.exporters {
      assert ExporterOk(w, s.e);
    }
    hide Failed, Full, NamesOk, LinkedOk;
  }

  lemma WriteStays(w: World, e: nat, count: nat)
    requires Enabled(w, Write(e, count))
    ensures Get(Next(w, Write(e, count)), e) == Get(w, e)
    ensures Filled(Next(w, Write(e, count)), e) == Filled(w, e) + count
  {
  }

  /** After the link: whatever fails from here on leaves a doubt. */
  method Tidy(dir: Directory, e: nat, luck: Luck)
    requires dir.Valid() && e in dir.world.exporters && Get(dir.world, e).pc.Linked? && ExporterOk(dir.world, e)
    modifies dir
    ensures dir.Valid() && old(dir.steps) <= dir.steps && old(dir.ws) <= dir.ws && e in dir.world.exporters
    ensures ExporterOk(dir.world, e)
    ensures Get(dir.world, e) == old(Get(dir.world, e)).(
                pc := Closing(if luck.synced && luck.removed && luck.checked then Success else Uncertain))
  {
    hide Run, Next, Enabled, Get, ExporterOk;
    FailMoves(dir.world, e);
    TidyMoves(dir.world, e);
    dir.Turn(if luck.synced then Inspect(e) else Fail(e));
    if luck.synced {
      FailMoves(dir.world, e);
      TidyMoves(dir.world, e);
      dir.Turn(if luck.removed then Unlink(e) else Fail(e));
      if luck.removed {
        FailMoves(dir.world, e);
        ConcludeMoves(dir.world, e);
        dir.Turn(if luck.checked then Conclude(e) else Fail(e));
      }
    }
  }

  /** The link. */
  method LinkDestination(dir: Directory, e: nat, luck: Luck) returns (free: bool)
    requires dir.Valid() && e in dir.world.exporters && Get(dir.world, e).pc.Confirmed? && ExporterOk(dir.world, e)
    modifies dir
    ensures dir.Valid() && old(dir.steps) <= dir.steps && old(dir.ws) <= dir.ws && e in dir.world.exporters
    ensures ExporterOk(dir.world, e)
    ensures free <==> old(Get(dir.world, e).dest !in dir.world.names)
    ensures Get(dir.world, e) ==
              if !free || luck.linking.Broken? then old(Get(dir.world, e)).(pc := Closing(Refused))
              else if luck.linking.Unheard? then
                old(Get(dir.world, e)).(pc := Closing(Refused), linked := true, unheard := true)
              else old(Get(dir.world, e)).(pc := Linked, linked := true)
  {
    hide Run, Next, Enabled, ExporterOk;
    free := Get(dir.world, e).dest !in dir.world.names;
    LinkMoves(dir.world, e);
    FailMoves(dir.world, e);
    hide Get;
    dir.Turn(if luck.linking.Broken? then Fail(e)
             else if free && luck.linking.Unheard? then LinkUnheard(e) else Link(e));
  }

  /** `Pending::publish` and what follows it. `free` tells whether the destination
      was free when it linked, in the world that `at` names. */
  method Publish(dir: Directory, e: nat, luck: Luck) returns (free: bool, ghost at: nat)
    requires dir.Valid() && e in dir.world.exporters && Get(dir.world, e).pc.Ready? && ExporterOk(dir.world, e)
    modifies dir
    ensures dir.Valid() && old(dir.steps) <= dir.steps && old(dir.ws) <= dir.ws && e in dir.world.exporters
    ensures ExporterOk(dir.world, e)
    ensures at < |dir.ws| && (luck.rechecked ==> (free <==> old(Get(dir.world, e).dest) !in dir.ws[at].names))
    ensures Get(dir.world, e) ==
              if !luck.rechecked || !free || luck.linking.Broken? then old(Get(dir.world, e)).(pc := Closing(Refused))
              else if luck.linking.Unheard? then
                old(Get(dir.world, e)).(pc := Closing(Refused), linked := true, unheard := true)
              else old(Get(dir.world, e)).(
                     pc := Closing(if luck.synced && luck.removed && luck.checked then Success else Uncertain),
                     linked := true)
  {
    hide Run, Next, Enabled, ExporterOk, Get;
    LastWorld(dir);
    at, free := 0, false;
    FailMoves(dir.world, e);
    ConfirmMoves(dir.world, e);
    if !luck.rechecked {
      dir.Turn(Fail(e));
      return;
    }
    dir.Turn(Confirm(e));
    LastWorld(dir);
    at := |dir.ws| - 1;
    free := LinkDestination(dir, e, luck);
    if Get(dir.world, e).pc.Linked? {
      Tidy(dir, e, luck);
    }
  }

  /** `Drop`: the private name goes, if it is still this exporter's. */
  method Close(dir: Directory, e: nat, luck: Luck)
    requires dir.Valid() && e in dir.world.exporters && Get(dir.world, e).pc.Closing?
    modifies dir
    ensures dir.Valid() && old(dir.steps) <= dir.steps && old(dir.ws) <= dir.ws && e in dir.world.exporters
    ensures Get(dir.world, e) == old(Get(dir.world, e)).(pc := Done(old(Get(dir.world, e).pc.outcome)))
  {
    hide Run, Next, Enabled, Get, ExporterOk;
    ClosingMoves(dir.world, e, if luck.looked then Inspect(e) else Fail(e));
    dir.Turn(if luck.looked then Inspect(e) else Fail(e));
    if Get(dir.world, e).pc.Dropping? {
      DroppingMoves(dir.world, e, if luck.dropped then Unlink(e) else Fail(e));
      dir.Turn(if luck.dropped then Unlink(e) else Fail(e));
    }
  }

  /** Where an export looked at its destination and where it linked, whether it found
      it free, and whether it found a private name. */
  datatype Found = Found(looked: nat, free: bool, created: bool, linking: nat, stillFree: bool)

  /** The export got as far as a link that took effect. */
  predicate Reaches(luck: Luck, found: Found) {
    found.free && found.created && luck.written && luck.rechecked && found.stillFree && !luck.linking.Broken?
  }

  /** The outcome that luck and findings amount to. */
  function Verdict(luck: Luck, found: Found): Outcome {
    if !Reaches(luck, found) || luck.linking.Unheard? then Refused
    else if luck.synced && luck.removed && luck.checked then Success
    else Uncertain
  }

  /** From the private file to the end, for an export that found its destination
      free. */
  method Proceed(dir: Directory, e: nat, luck: Luck) returns (created: bool, stillFree: bool, ghost linking: nat)
    requires dir.Valid() && e in dir.world.exporters && Get(dir.world, e).pc.Absent? && ExporterOk(dir.world, e)
    requires !Get(dir.world, e).linked && !Get(dir.world, e).unheard
    modifies dir
    ensures dir.Valid() && old(dir.steps) <= dir.steps && old(dir.ws) <= dir.ws && e in dir.world.exporters
    ensures !created ==> forall i :: 0 <= i < |luck.names| && i < 64 ==>
                           exists k :: 0 <= k < |dir.ws| && luck.names[i] in dir.ws[k].names
    ensures linking < |dir.ws|
    ensures created && luck.written && luck.rechecked ==>
              (stillFree <==> old(Get(dir.world, e).dest) !in dir.ws[linking].names)
    ensures var x := Get(dir.world, e);
            var found := Found(0, true, created, linking, stillFree);
            && x.pc == Done(Verdict(luck, found)) && x.dest == old(Get(dir.world, e).dest)
            && x.raw == old(Get(dir.world, e).raw) && (x.linked <==> Reaches(luck, found))
  {
    hide Run, Next, Enabled, Get, ExporterOk;
    LastWorld(dir);
    linking, stillFree := 0, false;
    created := CreatePrivate(dir, e, luck);
    if !created {
      FailMoves(dir.world, e);
      dir.Turn(Fail(e));
      return;
    }
    WriteData(dir, e, luck);
    if luck.written {
      stillFree, linking := Publish(dir, e, luck);
    }
    Close(dir, e, luck);
  }

  /** `write_export`: every execution, among any other exporters, is a stretch of a
      run, and its outcome is decided. It succeeds exactly when its destination was
      free when it looked and when it linked, some private name was, and nothing
      failed; a doubt remains exactly when something failed after a link that was
      reported as made. */
  method WriteExport(dir: Directory, e: nat, dest: bytes, raw: bytes, luck: Luck)
    returns (r: Outcome, ghost found: Found)
    requires dir.Valid() && e !in dir.world.exporters
    modifies dir
    ensures dir.Valid() && old(dir.steps) <= dir.steps && old(dir.ws) <= dir.ws
    ensures |raw| > 1_048_576 ==> r.Refused? && dir.world == old(dir.world)
    ensures |raw| <= 1_048_576 ==>
              && r == Verdict(luck, found) && found.looked < |dir.ws| && found.linking < |dir.ws|
              && (found.free <==> dest !in dir.ws[found.looked].names)
              && (found.free && found.created && luck.written && luck.rechecked ==>
                    (found.stillFree <==> dest !in dir.ws[found.linking].names))
              && (found.free && !found.created ==> forall i :: 0 <= i < |luck.names| && i < 64 ==>
                    exists k :: 0 <= k < |dir.ws| && luck.names[i] in dir.ws[k].names)
    ensures |raw| <= 1_048_576 ==>
              && e in dir.world.exporters
              && (Reaches(luck, found) <==> LinkedTo(dir.world, e, dest)) && Get(dir.world, e).raw == raw
              && (Reaches(luck, found) ==> Published(dir.world, e))
    ensures r == Uncertain ==> FailedAfterLink(dir.steps, |dir.steps|, e)
    ensures |raw| <= 1_048_576 && Smooth(dir.ws, dir.steps, |dir.steps|, e) ==> r == Success
  {
    hide Run, Next, Enabled, Get, ExporterOk, Published, FailedAfterLink, Smooth, Initial;
    LastWorld(dir);
    found := Found(0, false, false, 0, false);
    if |raw| > MAX_BYTES {
      return Refused, found;
    }
    Starts(dir.world, e, dest, raw);
    dir.Turn(Start(e, dest, raw));
    LastWorld(dir);
    LookMoves(dir.world, e);
    found := Found(|dir.ws| - 1, dest !in dir.world.names, false, 0, false);
    dir.Turn(Look(e));
    if Get(dir.world, e).pc.Absent? {
      var created, stillFree;
      ghost var linking;
      created, stillFree, linking := Proceed(dir, e, luck);
      found := Found(found.looked, found.free, created, linking, stillFree);
    }
    r := Get(dir.world, e).pc.outcome;
    Concluded(dir, e);
  }

  lemma Starts(w: World, e: nat, dest: bytes, raw: bytes)
    requires e !in w.exporters && |raw| <= MAX_BYTES
    ensures Enabled(w, Start(e, dest, raw))
    ensures Get(Next(w, Start(e, dest, raw)), e) == Exporter(dest, raw, Begin, None, false, false)
  {
  }

  lemma Concluded(dir: Directory, e: nat)
    requires dir.Valid() && e in dir.world.exporters && Get(dir.world, e).pc.Done?
    ensures Get(dir.world, e).pc.outcome == Uncertain ==> FailedAfterLink(dir.steps, |dir.steps|, e)
    ensures Smooth(dir.ws, dir.steps, |dir.steps|, e) ==> Get(dir.world, e).pc.outcome == Success
    ensures Get(dir.world, e).linked ==> Published(dir.world, e)
    ensures forall dest :: LinkedTo(dir.world, e, dest) <==> Get(dir.world, e).linked && Get(dir.world, e).dest == dest
  {
    LastWorld(dir);
    hide Run, FailedAfterLink, Smooth, Published, Get;
    Outcomes(dir.ws, dir.steps, |dir.steps|);
    if Get(dir.world, e).pc.outcome == Uncertain {
      UncertainOnly(dir.ws, dir.steps, |dir.steps|, e);
    }
    if Smooth(dir.ws, dir.steps, |dir.steps|, e) {
      SmoothSucceeds(dir.ws, dir.steps, |dir.steps|, e);
    }
  }
}
