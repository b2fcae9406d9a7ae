/**
 Putting the boot loader in the place of the Microsoft boot manager and taking it back.

 Every delete, move and copy is a step of its own; a run may stop between any two of them, any of them may fail, and
 Windows may put a new boot manager in place at any time.
 */
module EfiBoot {
  import opened Wrappers

  /** bootmgfw.efi, bootmgfw_ms.vc and DcsBoot.efi. */
  datatype Name = Boot | Aux | Dcs

  /**
   How a file is recognised, by the string DcsInt.dcs and by the string bootmgfw.pdb, and whether it really is a
   Microsoft boot manager.
   */
  datatype Look<!C> = Look(isDcs: C -> bool, isMsft: C -> bool, genuine: C -> bool)

  /** A boot manager of Microsoft has its mark and not ours. */
  ghost predicate Sound<C(!new)>(l: Look<C>) {
    forall c :: l.genuine(c) ==> l.isMsft(c) && !l.isDcs(c)
  }

  type Files<C> = map<Name, C>

  predicate Is<C>(p: C -> bool, f: Files<C>, n: Name) {
    n in f && p(f[n])
  }

  /** What the tools take for a boot manager that may be renamed. */
  predicate LooksGenuine<C>(l: Look<C>, f: Files<C>, n: Name) {
    Is(l.isMsft, f, n) && !Is(l.isDcs, f, n)
  }

  // ---- the machine --------------------------------------------------------------------------------

  /** What the running tool does next. */
  datatype Pc =
    | Idle
    | ReplaceDelete | ReplaceMove | ReplaceCopy | ReplaceCopying
    | RestoreLook | RestoreDelete | RestoreMove | RestoreDrop

  datatype State<C> = State(files: Files<C>, pc: Pc)

  /** dc_replace_msft_boot up to its first change; every caller may run it. */
  ghost predicate StartReplace<C>(l: Look<C>, s: State<C>, t: State<C>) {
    && s.pc == Idle && Boot in s.files && t.files == s.files
    && if LooksGenuine(l, s.files, Boot) then t.pc == ReplaceDelete else Aux in s.files && t.pc == ReplaceCopy
  }

  /** The guard of a restore, dc_is_msft_boot_replaced: the boot file is ours. */
  ghost predicate GuardRestore<C>(l: Look<C>, s: State<C>, t: State<C>) {
    s.pc == Idle && Is(l.isDcs, s.files, Boot) && t == s.(pc := RestoreLook)
  }

  /**
   dc_restore_msft_boot loads the boot file again: if it is ours still, the renamed file is moved back; if it is not,
   the renamed file is deleted.
   */
  ghost predicate LookAgain<C>(l: Look<C>, s: State<C>, t: State<C>) {
    && s.pc == RestoreLook && Boot in s.files && t.files == s.files
    && if l.isDcs(s.files[Boot]) then Aux in s.files && t.pc == RestoreDelete else t.pc == RestoreDrop
  }

  ghost predicate Deleted<C>(s: State<C>, t: State<C>, n: Name, at: Pc, next: Pc) {
    s.pc == at && t.pc == next && (t.files == s.files - {n} || t.files == s.files)
  }

  /** MoveFile does not overwrite. */
  ghost predicate Moved<C>(s: State<C>, t: State<C>, from: Name, to: Name, at: Pc, next: Pc) {
    && s.pc == at && t.pc == next && from in s.files && to !in s.files
    && t.files == (s.files - {from})[to := s.files[from]]
  }

  /** A copy in progress leaves a part of a file of ours, which never bears the mark of Microsoft's. */
  ghost predicate CopyBegun<C(!new)>(l: Look<C>, s: State<C>, t: State<C>) {
    && s.pc == ReplaceCopy && Dcs in s.files && t.pc == ReplaceCopying
    && exists part :: !l.isMsft(part) && t.files == s.files[Boot := part]
  }

  ghost predicate CopyDone<C>(s: State<C>, t: State<C>) {
    s.pc == ReplaceCopying && Dcs in s.files && t == State(s.files[Boot := s.files[Dcs]], Idle)
  }

  ghost predicate Stopped<C>(s: State<C>, t: State<C>) {
    t == s.(pc := Idle)
  }

  ghost predicate WindowsUpdated<C(!new)>(l: Look<C>, s: State<C>, t: State<C>) {
    t.pc == s.pc && exists c :: l.genuine(c) && t.files == s.files[Boot := c]
  }

  /** Our own loader files are installed, updated or deleted. */
  ghost predicate DcsChanged<C(!new)>(l: Look<C>, s: State<C>, t: State<C>) {
    t.pc == s.pc && (t.files == s.files - {Dcs} || exists c :: !l.isMsft(c) && t.files == s.files[Dcs := c])
  }

  ghost predicate Next<C(!new)>(l: Look<C>, s: State<C>, t: State<C>) {
    || StartReplace(l, s, t)
    || Deleted(s, t, Aux, ReplaceDelete, ReplaceMove)
    || Moved(s, t, Boot, Aux, ReplaceMove, ReplaceCopy)
    || CopyBegun(l, s, t)
    || CopyDone(s, t)
    || GuardRestore(l, s, t)
    || LookAgain(l, s, t)
    || Deleted(s, t, Boot, RestoreDelete, RestoreMove)
    || Moved(s, t, Aux, Boot, RestoreMove, Idle)
    || Deleted(s, t, Aux, RestoreDrop, Idle)
    || Stopped(s, t)
    || WindowsUpdated(l, s, t)
    || DcsChanged(l, s, t)
  }

  // ---- the invariant ------------------------------------------------------------------------------

  /** A genuine boot manager is there, in its place or renamed. */
  ghost predicate Kept<C>(l: Look<C>, f: Files<C>) {
    Is(l.genuine, f, Boot) || Is(l.genuine, f, Aux)
  }

  ghost predicate Safe<C>(l: Look<C>, f: Files<C>) {
    && Kept(l, f)
    && (LooksGenuine(l, f, Boot) ==> Is(l.genuine, f, Boot))
    && !Is(l.isMsft, f, Dcs)
  }

  ghost predicate Inv<C>(l: Look<C>, s: State<C>) {
    && Safe(l, s.files)
    && (s.pc in {ReplaceDelete, ReplaceMove, RestoreDrop} ==> Is(l.genuine, s.files, Boot))
    && (s.pc in {ReplaceCopy, ReplaceCopying, RestoreLook, RestoreDelete, RestoreMove} ==> Is(l.genuine, s.files, Aux))
    && (s.pc == RestoreLook ==> Is(l.isDcs, s.files, Boot) || Is(l.genuine, s.files, Boot))
  }

  lemma NextKeepsInv<C(!new)>(l: Look<C>, s: State<C>, t: State<C>)
    requires Sound(l) && Inv(l, s) && Next(l, s, t)
    ensures Inv(l, t)
  {
    if StartReplace(l, s, t) {
    } else if Deleted(s, t, Aux, ReplaceDelete, ReplaceMove) {
    } else if Moved(s, t, Boot, Aux, ReplaceMove, ReplaceCopy) {
    } else if CopyBegun(l, s, t) {
    } else if CopyDone(s, t) {
    } else if GuardRestore(l, s, t) {
    } else if LookAgain(l, s, t) {
    } else if Deleted(s, t, Boot, RestoreDelete, RestoreMove) {
    } else if Moved(s, t, Aux, Boot, RestoreMove, Idle) {
    } else if Deleted(s, t, Aux, RestoreDrop, Idle) {
    } else if Stopped(s, t) {
    } else if WindowsUpdated(l, s, t) {
    } else {
      assert DcsChanged(l, s, t);
    }
  }

  ghost predicate Run<C(!new)>(l: Look<C>, states: seq<State<C>>) {
    states != [] && forall i | 0 <= i < |states| - 1 :: Next(l, states[i], states[i + 1])
  }

  /** At every point of every run a genuine Microsoft boot manager exists, in place or renamed. */
  lemma {:induction false} RunKeeps<C(!new)>(l: Look<C>, states: seq<State<C>>, i: nat)
    requires Sound(l) && Run(l, states) && Inv(l, states[0]) && i < |states|
    ensures Inv(l, states[i]) && Kept(l, states[i].files)
  {
    if i > 0 {
      RunKeeps(l, states, i - 1);
      NextKeepsInv(l, states[i - 1], states[i]);
    }
  }

  /** When a restore gets to its end, by the move or by the deletion, the genuine boot manager is in its place. */
  lemma RestorePutsBack<C(!new)>(l: Look<C>, states: seq<State<C>>, i: nat)
    requires Sound(l) && Run(l, states) && Inv(l, states[0]) && i + 1 < |states|
    requires || Moved(states[i], states[i + 1], Aux, Boot, RestoreMove, Idle)
             || Deleted(states[i], states[i + 1], Aux, RestoreDrop, Idle)
    ensures Is(l.genuine, states[i + 1].files, Boot)
    ensures Moved(states[i], states[i + 1], Aux, Boot, RestoreMove, Idle) ==> Aux !in states[i + 1].files
  {
    RunKeeps(l, states, i);
  }

  // ---- the restore without its guard --------------------------------------------------------------

  /** dc_restore_msft_boot as it is: a boot file that is not ours costs the renamed one its life. */
  function Unguarded<C>(l: Look<C>, f: Files<C>): Files<C> {
    if Boot !in f then f
    else if l.isDcs(f[Boot]) then
      if Aux in f then (f - {Aux})[Boot := f[Aux]] else f
    else f - {Aux}
  }

  /** It keeps a genuine boot manager exactly when the boot file is missing or bears one of the two marks. */
  lemma UnguardedKeepsIff<C(!new)>(l: Look<C>, f: Files<C>)
    requires Sound(l) && Safe(l, f)
    ensures Kept(l, Unguarded(l, f)) <==> Boot !in f || l.isDcs(f[Boot]) || l.isMsft(f[Boot])
  {
  }

  /** A replacement whose copy stops half way. */
  lemma HalfReplaced<C(!new)>(l: Look<C>, part: C, msft: C, dcs: C) returns (states: seq<State<C>>)
    requires l.isMsft(msft) && !l.isDcs(msft) && !l.isMsft(part)
    ensures Run(l, states) && states[0] == State(map[Boot := msft, Dcs := dcs], Idle)
    ensures states[|states| - 1] == State(map[Boot := part, Aux := msft, Dcs := dcs], Idle)
  {
    var f0: Files<C> := map[Boot := msft, Dcs := dcs];
    var f1: Files<C> := map[Aux := msft, Dcs := dcs];
    var f2: Files<C> := map[Boot := part, Aux := msft, Dcs := dcs];
    assert f0 - {Aux} == f0;
    assert (f0 - {Boot})[Aux := f0[Boot]] == f1;
    assert f1[Boot := part] == f2;
    states := [State(f0, Idle)];
    assert StartReplace(l, State(f0, Idle), State(f0, ReplaceDelete));
    states := Grow(l, states, State(f0, ReplaceDelete));
    states := Grow(l, states, State(f0, ReplaceMove));
    states := Grow(l, states, State(f1, ReplaceCopy));
    states := Grow(l, states, State(f2, ReplaceCopying));
    states := Grow(l, states, State(f2, Idle));
  }

  /** A run made one state longer. */
  lemma Grow<C(!new)>(l: Look<C>, states: seq<State<C>>, t: State<C>) returns (longer: seq<State<C>>)
    requires Run(l, states) && Next(l, states[|states| - 1], t)
    ensures Run(l, longer) && longer[0] == states[0] && longer[|longer| - 1] == t
  {
    longer := states + [t];
    forall i | 0 <= i < |longer| - 1 ensures Next(l, longer[i], longer[i + 1]) {
      if i < |states| - 1 {
        assert longer[i] == states[i] && longer[i + 1] == states[i + 1];
      }
    }
  }

  /** Such a disk, reached by a run, loses its boot manager to a restore without the guard. */
  lemma UnguardedLoses<C(!new)>(l: Look<C>, part: C, msft: C, dcs: C) returns (states: seq<State<C>>)
    requires Sound(l) && l.genuine(msft) && !l.isDcs(part) && !l.isMsft(part) && !l.isMsft(dcs)
    ensures Run(l, states) && Inv(l, states[0]) && states[0].files == map[Boot := msft, Dcs := dcs]
    ensures !Kept(l, Unguarded(l, states[|states| - 1].files))
  {
    states := HalfReplaced(l, part, msft, dcs);
  }

  // ---- what the tool can bring back by itself -----------------------------------------------------

  /** What a user can let the tool do, with every call succeeding: install or update its own files, replace, restore. */
  datatype Op<C> = Provide(dcs: C) | Replacing | Restoring

  function Perform<C>(l: Look<C>, f: Files<C>, op: Op<C>): Files<C> {
    match op
    case Provide(dcs) => f[Dcs := dcs]
    case Replacing =>
      if Boot !in f || Dcs !in f then
        if LooksGenuine(l, f, Boot) then (f - {Boot})[Aux := f[Boot]] else f
      else if LooksGenuine(l, f, Boot) then f[Aux := f[Boot]][Boot := f[Dcs]]
      else if Aux in f then f[Boot := f[Dcs]]
      else f
    case Restoring => if Is(l.isDcs, f, Boot) && Aux in f then (f - {Aux})[Boot := f[Aux]] else f
  }

  function PerformAll<C>(l: Look<C>, f: Files<C>, ops: seq<Op<C>>): Files<C>
    decreases |ops|
  {
    if ops == [] then f else PerformAll(l, Perform(l, f, ops[0]), ops[1..])
  }

  // ---- the code -----------------------------------------------------------------------------------

  datatype Status = Ok | NotInstalled

  /** Which system calls succeed. */
  datatype Luck = Luck(delete: bool, move: bool, copy: bool)

  class Esp<!C(!new)> {
    const look: Look<C>
    var files: Files<C>

    constructor (look: Look<C>, files: Files<C>)
      ensures this.look == look && this.files == files
    {
      this.look, this.files := look, files;
    }

    /**
     dc_replace_msft_boot, which reports success whatever happens.  The trace says which steps of the machine it
     takes; part is what a copy in progress leaves.
     */
    method Replace(luck: Luck, part: C) returns (r: Status, ghost trace: seq<State<C>>)
      requires !look.isMsft(part)
      modifies this
      ensures r == Ok
      ensures Run(look, trace) && trace[0] == State(old(files), Idle) && trace[|trace| - 1] == State(files, Idle)
      ensures luck == Luck(true, true, true) ==> files == Perform(look, old(files), Replacing)
    {
      r := Ok;
      trace := [State(files, Idle)];
      if Boot !in files {
        return;
      }
      if look.isMsft(files[Boot]) && !look.isDcs(files[Boot]) {
        trace := Grow(look, trace, State(files, ReplaceDelete));
        var moved;
        ghost var away;
        moved, away := MoveAway(luck);
        trace := Join(look, trace, away);
        if !moved {
          return;
        }
      } else if Aux !in files {
        return;
      } else {
        trace := Grow(look, trace, State(files, ReplaceCopy));
      }
      ghost var tail := CopyOver(luck, part);
      trace := Join(look, trace, tail);
    }

    /** dc_ren_efi_file from the boot file to the renamed one. */
    method MoveAway(luck: Luck) returns (moved: bool, ghost trace: seq<State<C>>)
      requires Boot in files
      modifies this
      ensures Run(look, trace) && trace[0] == State(old(files), ReplaceDelete)
      ensures trace[|trace| - 1] == State(files, if moved then ReplaceCopy else Idle)
      ensures luck.delete && luck.move ==> moved
      ensures moved ==> files == (old(files) - {Boot})[Aux := old(files)[Boot]]
    {
      trace := [State(files, ReplaceDelete)];
      if luck.delete {
        files := files - {Aux};
      }
      trace := Grow(look, trace, State(files, ReplaceMove));
      moved := luck.move && Aux !in files;
      if moved {
        files := (files - {Boot})[Aux := files[Boot]];
        trace := Grow(look, trace, State(files, ReplaceCopy));
      } else {
        trace := Grow(look, trace, State(files, Idle));
      }
    }

    /** dc_copy_efi_file over the boot file; it may stop half way. */
    method CopyOver(luck: Luck, part: C) returns (ghost trace: seq<State<C>>)
      requires !look.isMsft(part)
      modifies this
      ensures Run(look, trace) && trace[0] == State(old(files), ReplaceCopy) && trace[|trace| - 1] == State(files, Idle)
      ensures files == if Dcs !in old(files) then old(files)
                       else old(files)[Boot := if luck.copy then old(files)[Dcs] else part]
    {
      trace := [State(files, ReplaceCopy)];
      if Dcs in files {
        files := files[Boot := part];
        trace := Grow(look, trace, State(files, ReplaceCopying));
        if luck.copy {
          files := files[Boot := files[Dcs]];
        }
      }
      trace := Grow(look, trace, State(files, Idle));
    }

    /**
     dc_efi_restore_msft_boot: the guard, then dc_restore_msft_boot with a look of its own.  update is the boot manager
     that Windows puts in place between the two, if it does.
     */
    method Restore(luck: Luck, update: Option<C>) returns (r: Status, ghost trace: seq<State<C>>)
      requires update.Some? ==> look.genuine(update.value)
      modifies this
      ensures r == if Is(look.isDcs, old(files), Boot) then Ok else NotInstalled
      ensures Run(look, trace) && trace[0] == State(old(files), Idle) && trace[|trace| - 1] == State(files, Idle)
      ensures luck.delete && luck.move && update.None? ==> files == Perform(look, old(files), Restoring)
      ensures luck.delete && r == Ok && update.Some? && !look.isDcs(update.value) ==>
                files == old(files)[Boot := update.value] - {Aux}
    {
      trace := [State(files, Idle)];
      if Boot !in files || !look.isDcs(files[Boot]) {
        return NotInstalled, trace;
      }
      r := Ok;
      trace := Grow(look, trace, State(files, RestoreLook));
      if update.Some? {
        files := files[Boot := update.value];
        trace := Grow(look, trace, State(files, RestoreLook));
      }
      ghost var rest := RestoreAfterGuard(luck);
      trace := Join(look, trace, rest);
    }

    /** dc_restore_msft_boot. */
    method RestoreAfterGuard(luck: Luck) returns (ghost trace: seq<State<C>>)
      requires Boot in files
      modifies this
      ensures Run(look, trace) && trace[0] == State(old(files), RestoreLook) && trace[|trace| - 1] == State(files, Idle)
      ensures luck.delete && luck.move && look.isDcs(old(files)[Boot]) ==> files == Perform(look, old(files), Restoring)
      ensures luck.delete && !look.isDcs(old(files)[Boot]) ==> files == old(files) - {Aux}
    {
      trace := [State(files, RestoreLook)];
      if look.isDcs(files[Boot]) {
        if Aux in files {
          trace := Grow(look, trace, State(files, RestoreDelete));
          ghost var tail := MoveBack(luck);
          trace := Join(look, trace, tail);
        } else {
          trace := Grow(look, trace, State(files, Idle));
        }
      } else {
        trace := Grow(look, trace, State(files, RestoreDrop));
        if luck.delete {
          files := files - {Aux};
        }
        trace := Grow(look, trace, State(files, Idle));
      }
    }

    /** dc_ren_efi_file from the renamed file to the boot file. */
    method MoveBack(luck: Luck) returns (ghost trace: seq<State<C>>)
      requires Boot in files && Aux in files
      modifies this
      ensures Run(look, trace)
      ensures trace[0] == State(old(files), RestoreDelete) && trace[|trace| - 1] == State(files, Idle)
      ensures luck.delete && luck.move ==> files == (old(files) - {Aux})[Boot := old(files)[Aux]]
    {
      trace := [State(files, RestoreDelete)];
      if luck.delete {
        files := files - {Boot};
      }
      trace := Grow(look, trace, State(files, RestoreMove));
      if luck.move && Boot !in files {
        files := (files - {Aux})[Boot := files[Aux]];
      }
      trace := Grow(look, trace, State(files, Idle));
    }
  }

  /** A run continued by another one. */
  lemma Join<C(!new)>(l: Look<C>, a: seq<State<C>>, b: seq<State<C>>) returns (c: seq<State<C>>)
    requires Run(l, a) && Run(l, b) && a[|a| - 1] == b[0]
    ensures Run(l, c) && c[0] == a[0] && c[|c| - 1] == b[|b| - 1]
  {
    c := a + b[1..];
    forall i | 0 <= i < |c| - 1 ensures Next(l, c[i], c[i + 1]) {
      if i < |a| - 1 {
        assert c[i] == a[i] && c[i + 1] == a[i + 1];
      } else {
        assert c[i] == b[i + 1 - |a|] && c[i + 1] == b[i + 2 - |a|];
      }
    }
  }

  // ---- what that is worth -------------------------------------------------------------------------

  /** The files the tool installs are whole loaders. */
  ghost predicate Proper<C>(l: Look<C>, ops: seq<Op<C>>) {
    forall i | 0 <= i < |ops| && ops[i].Provide? :: l.isDcs(ops[i].dcs) && !l.isMsft(ops[i].dcs)
  }

  lemma {:induction false} MissingStaysMissing<C(!new)>(l: Look<C>, f: Files<C>, ops: seq<Op<C>>)
    requires Boot !in f
    ensures Boot !in PerformAll(l, f, ops)
    decreases |ops|
  {
    if ops != [] {
      MissingStaysMissing(l, Perform(l, f, ops[0]), ops[1..]);
    }
  }

  /** Installing, replacing and restoring, one after the other, puts the genuine boot manager in its place. */
  lemma BroughtBack<C(!new)>(l: Look<C>, f: Files<C>, dcs: C)
    requires Sound(l) && Safe(l, f) && Boot in f && l.isDcs(dcs) && !l.isMsft(dcs)
    ensures Is(l.genuine, PerformAll(l, f, [Provide(dcs), Replacing, Restoring]), Boot)
  {
    var ops := [Provide(dcs), Replacing, Restoring];
    assert ops[1..] == [Replacing, Restoring] && ops[1..][1..] == [Restoring] && ops[1..][1..][1..] == [];
    var f1 := Perform(l, f, Provide(dcs));
    var f2 := Perform(l, f1, Replacing);
    var f3 := Perform(l, f2, Restoring);
    assert Is(l.isDcs, f2, Boot) && Is(l.genuine, f2, Aux);
    assert PerformAll(l, f, ops) == PerformAll(l, f1, ops[1..]) == PerformAll(l, f2, ops[1..][1..]);
    assert PerformAll(l, f2, [Restoring]) == PerformAll(l, f3, [Restoring][1..]) == f3;
  }

  /**
   From a state that a run can stop in, the tool can put the genuine boot manager in its place by itself exactly when
   there is a boot file at all: with none, both routines give up at loading it.
   */
  lemma BringsBackIff<C(!new)>(l: Look<C>, f: Files<C>, dcs: C)
    requires Sound(l) && Safe(l, f) && l.isDcs(dcs) && !l.isMsft(dcs)
    ensures (exists ops :: Proper(l, ops) && Is(l.genuine, PerformAll(l, f, ops), Boot)) <==> Boot in f
  {
    if Boot in f {
      var ops := [Provide(dcs), Replacing, Restoring];
      BroughtBack(l, f, dcs);
      assert Proper(l, ops);
    } else {
      forall ops: seq<Op<C>> ensures Boot !in PerformAll(l, f, ops) {
        MissingStaysMissing(l, f, ops);
      }
    }
  }

  /** A run that stops between the move and the copy of a replacement leaves such a state. */
  lemma StoppedBeforeCopy<C(!new)>(l: Look<C>, msft: C, dcs: C) returns (states: seq<State<C>>)
    requires Sound(l) && l.genuine(msft) && !l.isMsft(dcs)
    ensures Run(l, states) && states[0] == State(map[Boot := msft, Dcs := dcs], Idle) && Inv(l, states[0])
    ensures states[|states| - 1] == State(map[Aux := msft, Dcs := dcs], Idle)
  {
    var f0: Files<C> := map[Boot := msft, Dcs := dcs];
    var f1: Files<C> := map[Aux := msft, Dcs := dcs];
    assert f0 - {Aux} == f0;
    assert (f0 - {Boot})[Aux := f0[Boot]] == f1;
    states := [State(f0, Idle)];
    states := Grow(l, states, State(f0, ReplaceDelete));
    states := Grow(l, states, State(f0, ReplaceMove));
    states := Grow(l, states, State(f1, ReplaceCopy));
    states := Grow(l, states, State(f1, Idle));
  }
}
