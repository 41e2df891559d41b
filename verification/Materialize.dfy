/** Publishing a Workspace atomically, over any number of attempts and crashes. */
module Materialize {
  import opened Base
  import opened Trees
  import opened Snapshot
  import opened Workspace
  import opened WorkspaceTree

  datatype Result = Done(files: nat, bytes: nat) | Failed | Crashed

  function TotalBytes(files: seq<FrozenFile>): nat {
    if files == [] then 0 else TotalBytes(files[..|files| - 1]) + files[|files| - 1].recordSize
  }

  function Statistics(files: seq<FrozenFile>): Result {
    Done(|files|, TotalBytes(files))
  }

  method SumSizes(files: seq<FrozenFile>) returns (r: Option<nat>)
    ensures r == if TotalBytes(files) > U64_MAX then None else Some(TotalBytes(files))
  {
    var total: nat, i := 0, 0;
    assert files[..0] == [];
    while i < |files|
      invariant i <= |files| && total == TotalBytes(files[..i]) <= U64_MAX
    {
      assert files[..i + 1][..i] == files[..i];
      if total + files[i].recordSize > U64_MAX {
        TotalsGrow(files, i + 1);
        return None;
      }
      total := total + files[i].recordSize;
      i := i + 1;
    }
    assert files[..i] == files;
    r := Some(total);
  }

  lemma {:induction false} TotalsGrow(files: seq<FrozenFile>, n: nat)
    requires n <= |files|
    ensures TotalBytes(files[..n]) <= TotalBytes(files)
  {
    if n == |files| {
      assert files[..n] == files;
    } else {
      TotalsGrow(files[..|files| - 1], n);
      assert files[..|files| - 1][..n] == files[..n];
    }
  }

  // ---- Any number of materializers of one snapshot ----

  /** Where one process stands: it has found the destination absent, written its private staging tree,
      renamed it into place, or found that someone else was first. */
  datatype Process = Idle | Building | Staged(tree: Tree) | Renamed | Beaten

  /** The destination all processes share, where each of them stands, and what they reported. */
  datatype World = World(dest: Option<Tree>, processes: map<nat, Process>, results: seq<Result>) {
    function At(p: nat): Process {
      if p in processes then processes[p] else Idle
    }

    function Set(p: nat, process: Process): World {
      this.(processes := processes[p := process])
    }

    function Report(p: nat, result: Result): World {
      this.(processes := processes[p := Idle], results := results + [result])
    }
  }

  const NOTHING := World(None, map[], [])

  /** The atomic moves of a process, and its death at any point. */
  datatype Move = Look(p: nat) | Write(p: nat, objects: Objects, tree: Tree) | Rename(p: nat) | Return(p: nat)
      | Crash(p: nat)

  ghost function Verdict(files: seq<FrozenFile>, dest: Tree): Result {
    if Exact(dest, files) then Statistics(files) else Failed
  }

  /** One move; a move that does not apply where the process stands changes nothing. */
  ghost function Step(files: seq<FrozenFile>, w: World, m: Move): World {
    match m
    case Look(p) =>
      if w.At(p) != Idle then w
      else if TotalBytes(files) > U64_MAX then w.Report(p, Failed)
      else if w.dest.Some? then w.Report(p, Verdict(files, w.dest.value))
      else w.Set(p, Building)
    case Write(p, objects, tree) =>
      if w.At(p) != Building then w
      else if !Buildable(files, objects) then w.Report(p, Failed)
      else if Exact(tree, files) then w.Set(p, Staged(tree)) else w
    case Rename(p) =>
      if !w.At(p).Staged? then w
      else if w.dest.None? then w.(dest := Some(w.At(p).tree)).Set(p, Renamed)
      else w.Set(p, Beaten)
    case Return(p) =>
      if w.At(p) == Renamed then w.Report(p, Statistics(files))
      else if w.At(p) == Beaten && w.dest.Some? then w.Report(p, Verdict(files, w.dest.value))
      else w
    case Crash(p) => w.Set(p, Idle)
  }

  ghost function Run(files: seq<FrozenFile>, w: World, moves: seq<Move>): World {
    if moves == [] then w else Step(files, Run(files, w, moves[..|moves| - 1]), moves[|moves| - 1])
  }

  ghost predicate AbsentOrExact(files: seq<FrozenFile>, dest: Option<Tree>) {
    dest.Some? ==> Exact(dest.value, files)
  }

  ghost predicate Inv(files: seq<FrozenFile>, w: World) {
    && AbsentOrExact(files, w.dest)
    && (forall p <- w.processes :: w.processes[p].Staged? ==> Exact(w.processes[p].tree, files))
    && (forall r <- w.results :: r == Statistics(files) || r == Failed)
  }

  lemma StepKeepsInv(files: seq<FrozenFile>, w: World, m: Move)
    requires Inv(files, w)
    ensures Inv(files, Step(files, w, m))
    ensures w.dest.Some? ==> Step(files, w, m).dest == w.dest
  {
    hide Exact, Buildable;
  }

  lemma {:induction false} RunKeepsInv(files: seq<FrozenFile>, moves: seq<Move>)
    ensures Inv(files, Run(files, NOTHING, moves))
  {
    hide Step;
    if moves != [] {
      RunKeepsInv(files, moves[..|moves| - 1]);
      StepKeepsInv(files, Run(files, NOTHING, moves[..|moves| - 1]), moves[|moves| - 1]);
    }
  }

  lemma {:induction false} DestinationStays(files: seq<FrozenFile>, moves: seq<Move>, n: nat)
    requires n <= |moves| && Run(files, NOTHING, moves[..n]).dest.Some?
    ensures Run(files, NOTHING, moves).dest == Run(files, NOTHING, moves[..n]).dest
  {
    hide Step;
    if n == |moves| {
      assert moves[..n] == moves;
    } else {
      var init := moves[..|moves| - 1];
      assert init[..n] == moves[..n];
      DestinationStays(files, init, n);
      RunKeepsInv(files, init);
      StepKeepsInv(files, Run(files, NOTHING, init), moves[|moves| - 1]);
    }
  }

  /** In every interleaving of any number of materializers of a snapshot, each of which may die at any
      point: the destination is absent or exactly the snapshot's tree; once there it never changes; every
      success reports the same statistics; and no process ever fails because of what it finds there. */
  lemma DestinationIsAllOrNothing(files: seq<FrozenFile>, moves: seq<Move>, n: nat)
    requires n <= |moves|
    ensures var before, after := Run(files, NOTHING, moves[..n]), Run(files, NOTHING, moves);
            && AbsentOrExact(files, before.dest)
            && (before.dest.Some? ==> after.dest == before.dest)
            && (forall r <- after.results :: r == Statistics(files) || r == Failed)
  {
    hide Exact, Step;
    RunKeepsInv(files, moves[..n]);
    RunKeepsInv(files, moves);
    if Run(files, NOTHING, moves[..n]).dest.Some? {
      DestinationStays(files, moves, n);
    }
  }

  /** What a move reports, if it reports at all. Failure has two reasons only: sizes that do not add up in
      64 bits, and a snapshot that could not be written. So an attempt that finds the destination there
      succeeds again, with the same statistics, even if the Volume has lost its objects since. */
  lemma OnlyTwoFailures(files: seq<FrozenFile>, moves: seq<Move>, m: Move)
    ensures var w := Run(files, NOTHING, moves);
            var w' := Step(files, w, m);
            && (w'.results == w.results || w'.results == w.results + [Statistics(files)]
                 || w'.results == w.results + [Failed])
            && (w'.results == w.results + [Failed] ==>
                  (m.Look? && TotalBytes(files) > U64_MAX) || (m.Write? && !Buildable(files, m.objects)))
            && (m.Look? && w.At(m.p) == Idle && w.dest.Some? && TotalBytes(files) <= U64_MAX ==>
                  w'.results == w.results + [Statistics(files)])
  {
    hide Exact, Buildable, Run;
    RunKeepsInv(files, moves);
    var results := Run(files, NOTHING, moves).results;
    assert (results + [Statistics(files)])[|results|] != (results + [Failed])[|results|];
  }

  // ---- One of them, in place ----

  datatype Death = Survives | DiesBeforeRename | DiesAfterRename

  lemma RunMore(files: seq<FrozenFile>, w: World, moves: seq<Move>, m: Move)
    ensures Run(files, w, moves + [m]) == Step(files, Run(files, w, moves), m)
  {
    assert (moves + [m])[..|moves|] == moves;
  }

  class WorkspaceMaterializer {
    var destination: Option<Tree>

    constructor ()
      ensures destination == None
    {
      destination := None;
    }

    /** Verifies what is there, or writes a private staging tree and renames it into place without
        replacing. `rival` is what process `q` publishes between this one's writing and its rename. This
        process takes its moves as `p` in any world `w` in which the two stand so. */
    method MaterializeOnce(files: seq<FrozenFile>, objects: Objects, death: Death, rival: Option<Tree>,
                           ghost w: World, ghost p: nat, ghost q: nat)
        returns (r: Result, ghost moves: seq<Move>)
      requires ValidSnapshot(files)
      requires destination.Some? ==> WellFormed(destination.value)
      requires w.dest == destination && w.At(p) == Idle
      requires rival.Some? ==> WellFormed(rival.value) && p != q && w.At(q) == Staged(rival.value)
      modifies this
      ensures destination.Some? ==> WellFormed(destination.value)
      ensures var w' := Run(files, w, moves);
              w'.dest == destination && w'.At(p) == Idle
              && w'.results == if r.Crashed? then w.results else w.results + [r]
      ensures old(destination).Some? ==> destination == old(destination)
      ensures old(destination).None? && destination.Some? ==> destination == rival || Exact(destination.value, files)
      ensures r.Done? ==> r == Statistics(files) && destination.Some? && Exact(destination.value, files)
      ensures r.Failed? ==>
                || TotalBytes(files) > U64_MAX
                || (destination.Some? && !Exact(destination.value, files))
                || (destination.None? && !Buildable(files, objects))
      ensures r.Crashed? ==> death != Survives && (death == DiesBeforeRename ==> destination == old(destination))
    {
      hide Exact, Buildable, WellFormed, ValidSnapshot, Step;
      moves := [Look(p)];
      RunNone(files, w);
      RunMore(files, w, [], Look(p));
      assert [] + [Look(p)] == [Look(p)];
      LookMoves(files, w, p);
      var bytes := SumSizes(files);
      if bytes.None? {
        return Failed, moves;
      }
      if destination.Some? {
        var same := VerifyTree(destination.value, files);
        return if same then Done(|files|, bytes.value) else Failed, moves;
      }
      var staging := WriteTree(files, objects);
      ghost var w1 := Run(files, w, moves);
      ghost var tree := if staging.Some? then staging.value else map[];
      RunMore(files, w, moves, Write(p, objects, tree));
      moves := moves + [Write(p, objects, tree)];
      WriteMoves(files, w1, p, objects, tree);
      if staging.None? {
        return Failed, moves;
      }
      ghost var w2 := Run(files, w, moves);
      CrashMoves(files, w2, p);
      if death == DiesBeforeRename {
        RunMore(files, w, moves, Crash(p));
        moves := moves + [Crash(p)];
        return Crashed, moves;
      }
      if rival.Some? {
        RunMore(files, w, moves, Rename(q));
        moves := moves + [Rename(q)];
        RenameMoves(files, w2, q);
        destination := rival;
      }
      ghost var w3 := Run(files, w, moves);
      RunMore(files, w, moves, Rename(p));
      moves := moves + [Rename(p)];
      RenameMoves(files, w3, p);
      ghost var w4 := Run(files, w, moves);
      var beaten := destination.Some?;
      if !beaten {
        destination := staging;
      }
      if death == DiesAfterRename {
        CrashMoves(files, w4, p);
        RunMore(files, w, moves, Crash(p));
        moves := moves + [Crash(p)];
        return Crashed, moves;
      }
      ReturnMoves(files, w4, p);
      RunMore(files, w, moves, Return(p));
      moves := moves + [Return(p)];
      if beaten {
        var same := VerifyTree(destination.value, files);
        return if same then Done(|files|, bytes.value) else Failed, moves;
      }
      r := Done(|files|, bytes.value);
    }
  }

  lemma RunNone(files: seq<FrozenFile>, w: World)
    ensures Run(files, w, []) == w
  {
  }

  lemma LookMoves(files: seq<FrozenFile>, w: World, p: nat)
    requires w.At(p) == Idle
    ensures Step(files, w, Look(p)) ==
            if TotalBytes(files) > U64_MAX then w.Report(p, Failed)
            else if w.dest.Some? then w.Report(p, Verdict(files, w.dest.value))
            else w.Set(p, Building)
  {
  }

  lemma WriteMoves(files: seq<FrozenFile>, w: World, p: nat, objects: Objects, tree: Tree)
    ensures w.At(p) == Building && !Buildable(files, objects) ==>
            Step(files, w, Write(p, objects, tree)) == w.Report(p, Failed)
    ensures w.At(p) == Building && Buildable(files, objects) && Exact(tree, files) ==>
              Step(files, w, Write(p, objects, tree)) == w.Set(p, Staged(tree))
  {
  }

  lemma RenameMoves(files: seq<FrozenFile>, w: World, p: nat)
    requires w.At(p).Staged?
    ensures Step(files, w, Rename(p)) ==
            if w.dest.None? then w.(dest := Some(w.At(p).tree)).Set(p, Renamed) else w.Set(p, Beaten)
  {
  }

  lemma ReturnMoves(files: seq<FrozenFile>, w: World, p: nat)
    ensures w.At(p) == Renamed ==> Step(files, w, Return(p)) == w.Report(p, Statistics(files))
    ensures w.At(p) == Beaten && w.dest.Some? ==> Step(files, w, Return(p)) == w.Report(p, Verdict(files, w.dest.value))
  {
  }

  lemma CrashMoves(files: seq<FrozenFile>, w: World, p: nat)
    ensures Step(files, w, Crash(p)) == w.Set(p, Idle)
  {
  }
}
