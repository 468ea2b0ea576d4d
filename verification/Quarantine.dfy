/**
 Moving a corrupt health store aside: a manifest first, then one rename per member, resumable after
 a crash at any file operation.

 Paths are structural: the store's three members, their destinations under a token, the manifest
 and a staging file per process.  Every file operation is atomic; nothing else writes these files
 while the worker is fenced.
 */
module Quarantine {
  import opened Prelude

  datatype Suffix = Main | Wal | Shm

  datatype Path =
    | Source(suffix: Suffix)
    | Destination(suffix: Suffix, token: string)
    | ManifestPath
    | Staging(pid: nat)
    | Elsewhere(name: string)

  /** An entry read back from a manifest, or something that is not one. */
  datatype Item = Member(source: Path, destination: Path, required: bool) | Malformed

  datatype File = Data(text: string) | Manifest(items: seq<Item>)

  type Files = map<Path, File>

  datatype Outcome = Finished(moved: seq<Path>) | Raised(reason: string) | Died

  datatype Ran = Ran(files: Files, outcome: Outcome)

  function Suffixes(): seq<Suffix> {
    [Main, Wal, Shm]
  }

  // ---- the manifest --------------------------------------------------------------------------

  function ItemFor(files: Files, token: string, s: Suffix): Item {
    Member(Source(s), Destination(s, token), Source(s) in files)
  }

  function Planned(files: Files, token: string): seq<Item> {
    [ItemFor(files, token, Main), ItemFor(files, token, Wal), ItemFor(files, token, Shm)]
  }

  predicate Belongs(item: Item) {
    && item.Member? && item.source.Source? && item.destination.Destination?
    && item.destination.suffix == item.source.suffix
  }

  // ---- one run, which dies when its file operations are used up -----------------------------------

  function Renaming(files: Files, items: seq<Item>, left: nat, moved: seq<Path>): Ran
    decreases |items|
  {
    if items == [] then
      if left == 0 then Ran(files, Died) else Ran(files - {ManifestPath}, Finished(moved))
    else if !Belongs(items[0]) then Ran(files, Raised("autopilot health quarantine manifest is malformed"))
    else
      var source, destination := items[0].source, items[0].destination;
      if destination in files then
        if source in files then Ran(files, Raised("autopilot health quarantine destination collision"))
        else Renaming(files, items[1..], left, moved + [destination])
      else if source !in files then
        if items[0].required then Ran(files, Raised("autopilot health quarantine member disappeared"))
        else Renaming(files, items[1..], left, moved)
      else if left == 0 then Ran(files, Died)
      else Renaming(files[destination := files[source]] - {source}, items[1..], left - 1, moved + [destination])
  }

  function Resume(files: Files, left: nat): Ran
    requires ManifestPath in files
  {
    match files[ManifestPath]
    case Data(_) => Ran(files, Raised("autopilot health quarantine manifest is unreadable"))
    case Manifest(items) =>
      if |items| != 3 then Ran(files, Raised("autopilot health quarantine manifest is malformed"))
      else Renaming(files, items, left, [])
  }

  /** Creating the staging file, writing it and replacing the manifest are three operations. */
  function Attempt(files: Files, token: string, pid: nat, left: nat): Ran {
    if ManifestPath in files then Resume(files, left)
    else if Staging(pid) in files then Ran(files, Raised("staging file exists"))
    else if left == 0 then Ran(files, Died)
    else if left == 1 then Ran(files[Staging(pid) := Data("")], Died)
    else if left == 2 then Ran(files[Staging(pid) := Manifest(Planned(files, token))], Died)
    else Resume(files[ManifestPath := Manifest(Planned(files, token))], left - 3)
  }

  // ---- what survives every crash ----------------------------------------------------------------------

  predicate Same(a: Files, b: Files, p: Path) {
    (p in a <==> p in b) && (p in a && p in b ==> a[p] == b[p])
  }

  /** A member is where it was, or at a destination that was free, with its original content. */
  predicate Kept(original: Files, files: Files, token: string, s: Suffix) {
    || (Same(original, files, Source(s)) && Same(original, files, Destination(s, token)))
    || (Source(s) in original && Destination(s, token) !in original
        && Source(s) !in files && Destination(s, token) in files && files[Destination(s, token)] == original[Source(s)])
  }

  predicate IsMember(p: Path, token: string) {
    p.Source? || (p.Destination? && p.token == token)
  }

  /** Members are kept and no other file changes, the manifest aside. */
  ghost predicate KeptAll(original: Files, files: Files, token: string) {
    && (forall s :: Kept(original, files, token, s))
    && (forall p :: !IsMember(p, token) && p != ManifestPath ==> Same(original, files, p))
  }

  /** Between a visible manifest and its removal. */
  ghost predicate Progress(original: Files, files: Files, token: string) {
    && ManifestPath in files && files[ManifestPath] == Manifest(Planned(original, token))
    && KeptAll(original, files, token)
  }

  /** Every recorded member is at its destination with its original content and no source is left. */
  ghost predicate Complete(original: Files, files: Files, token: string) {
    && ManifestPath !in files
    && KeptAll(original, files, token)
    && (forall s :: Source(s) !in files)
    && (forall s :: Source(s) in original ==>
          Destination(s, token) !in original && Destination(s, token) in files
          && files[Destination(s, token)] == original[Source(s)])
  }

  /** The suffixes handled before the remaining items of a plan. */
  predicate Handled(done: nat, s: Suffix) {
    match s
    case Main => done >= 1
    case Wal => done >= 2
    case Shm => done >= 3
  }

  lemma {:induction false} RenamingKeeps(
    original: Files, files: Files, token: string, done: nat, left: nat, moved: seq<Path>)
    requires done <= 3 && Progress(original, files, token)
    requires forall s :: Handled(done, s) ==> Source(s) !in files
    ensures var r := Renaming(files, Planned(original, token)[done..], left, moved);
      if r.outcome.Finished? then Complete(original, r.files, token) else Progress(original, r.files, token)
    decreases 3 - done
  {
    var items := Planned(original, token)[done..];
    if done < 3 {
      var s := Suffixes()[done];
      assert items[0] == ItemFor(original, token, s) && items[1..] == Planned(original, token)[done + 1..];
      assert Kept(original, files, token, s);
      if Source(s) in files && Destination(s, token) !in files && left > 0 {
        var next := files[Destination(s, token) := files[Source(s)]] - {Source(s)};
        RenameKeeps(original, files, token, s);
        RenamingKeeps(original, next, token, done + 1, left - 1, moved + [Destination(s, token)]);
      } else if Source(s) !in files {
        RenamingKeeps(
          original, files, token, done + 1, left,
          if Destination(s, token) in files then moved + [Destination(s, token)] else moved);
      }
    } else if left > 0 {
      FinishCompletes(original, files, token);
    }
  }

  lemma {:induction false} RenameKeeps(original: Files, files: Files, token: string, s: Suffix)
    requires Progress(original, files, token) && Source(s) in files && Destination(s, token) !in files
    ensures Progress(original, files[Destination(s, token) := files[Source(s)]] - {Source(s)}, token)
  {
    var next := files[Destination(s, token) := files[Source(s)]] - {Source(s)};
    assert Kept(original, files, token, s);
    forall t ensures Kept(original, next, token, t) {
      assert Kept(original, files, token, t);
    }
    forall p | !IsMember(p, token) && p != ManifestPath ensures Same(original, next, p) {
      assert Same(original, files, p);
    }
  }

  lemma {:induction false} FinishCompletes(original: Files, files: Files, token: string)
    requires Progress(original, files, token) && forall s :: Source(s) !in files
    ensures Complete(original, files - {ManifestPath}, token)
  {
    var next := files - {ManifestPath};
    forall s ensures Kept(original, next, token, s)
      ensures Source(s) in original ==>
        (Destination(s, token) !in original && Destination(s, token) in next
         && next[Destination(s, token)] == original[Source(s)])
    {
      assert Kept(original, files, token, s);
    }
    forall p | !IsMember(p, token) && p != ManifestPath ensures Same(original, next, p) {
      assert Same(original, files, p);
    }
  }

  /** A run that finds the manifest finishes it or leaves it resumable; its own token is not used. */
  lemma {:induction false} ResumeKeeps(original: Files, files: Files, token: string, left: nat)
    requires Progress(original, files, token)
    ensures var r := Resume(files, left);
      if r.outcome.Finished? then Complete(original, r.files, token) else Progress(original, r.files, token)
  {
    RenamingKeeps(original, files, token, 0, left, []);
    assert Planned(original, token)[0..] == Planned(original, token);
  }

  /**
   A run that finds no manifest either changes nothing but its staging file, or makes the manifest
   visible and then keeps the promise of every later run.
   */
  lemma {:induction false} FirstAttempt(files: Files, token: string, pid: nat, left: nat)
    requires ManifestPath !in files
    ensures var r := Attempt(files, token, pid, left);
      || (!r.outcome.Finished? && forall p :: p != Staging(pid) ==> Same(files, r.files, p))
      || (if r.outcome.Finished? then Complete(files, r.files, token) else Progress(files, r.files, token))
  {
    if Staging(pid) !in files && left >= 3 {
      var visible := files[ManifestPath := Manifest(Planned(files, token))];
      assert Progress(files, visible, token);
      ResumeKeeps(files, visible, token, left - 3);
    }
  }

  // ---- any number of crashes and reruns ---------------------------------------------------------------------

  datatype Try = Try(token: string, pid: nat, left: nat)

  /** The runs after the manifest became visible, up to the first that finishes. */
  function Retried(files: Files, tries: seq<Try>): Ran {
    if tries == [] then Ran(files, Died)
    else
      var r := Retried(files, Init(tries));
      if r.outcome.Finished? then r else Attempt(r.files, Last(tries).token, Last(tries).pid, Last(tries).left)
  }

  /**
   However often the rename phase dies, raises or is started again, the run that finishes leaves
   every recorded member at its destination with its original content; until then all stay resumable.
   */
  lemma {:induction false} RerunsComplete(original: Files, files: Files, token: string, tries: seq<Try>)
    requires Progress(original, files, token)
    ensures var r := Retried(files, tries);
      if r.outcome.Finished? then Complete(original, r.files, token) else Progress(original, r.files, token)
  {
    if tries != [] {
      RerunsComplete(original, files, token, Init(tries));
      var r := Retried(files, Init(tries));
      if !r.outcome.Finished? {
        ResumeKeeps(original, r.files, token, Last(tries).left);
      }
    }
  }

  /** Content is conserved: no existing destination is overwritten and no member's content is lost. */
  lemma {:induction false} NothingIsLost(original: Files, files: Files, token: string, tries: seq<Try>, p: Path)
    requires Progress(original, files, token) && p in original && p != ManifestPath
    ensures var after := Retried(files, tries).files;
      || (p in after && after[p] == original[p])
      || (p.Source? && Destination(p.suffix, token) !in original
          && Destination(p.suffix, token) in after && after[Destination(p.suffix, token)] == original[p])
  {
    RerunsComplete(original, files, token, tries);
    var after := Retried(files, tries).files;
    if IsMember(p, token) {
      assert Kept(original, after, token, p.suffix);
    } else {
      assert Same(original, after, p);
    }
  }

  // ---- from a store that was never touched --------------------------------------------------------------------

  /** Nothing but staging files of dead processes has changed. */
  ghost predicate StagingAside(original: Files, files: Files) {
    forall p: Path :: !p.Staging? ==> Same(original, files, p)
  }

  /** Some earlier run made its manifest visible on what was still the original store. */
  ghost predicate Begun(original: Files, files: Files, token: string, finished: bool) {
    exists base :: StagingAside(original, base)
      && if finished then Complete(base, files, token) else Progress(base, files, token)
  }

  /** Every member is at its destination under the token, and every other file is where it was. */
  ghost predicate Moved(original: Files, files: Files, token: string) {
    && ManifestPath !in files
    && (forall s :: Source(s) !in files)
    && (forall s :: Source(s) in original ==>
          Destination(s, token) !in original && Destination(s, token) in files
          && files[Destination(s, token)] == original[Source(s)])
    && (forall p :: p in original && !p.Source? && !p.Staging? ==> p in files && files[p] == original[p])
  }

  /** No content of the original store is lost, the staging files aside. */
  ghost predicate Preserved(original: Files, files: Files, token: string) {
    forall p :: p in original && !p.Staging? ==>
      || (p in files && files[p] == original[p])
      || (p.Source? && Destination(p.suffix, token) !in original
          && Destination(p.suffix, token) in files && files[Destination(p.suffix, token)] == original[p])
  }

  lemma {:induction false} RetriedBegins(original: Files, tries: seq<Try>)
    requires ManifestPath !in original
    ensures var r := Retried(original, tries);
      || (!r.outcome.Finished? && StagingAside(original, r.files))
      || exists k :: 0 <= k < |tries| && Begun(original, r.files, tries[k].token, r.outcome.Finished?)
  {
    if tries != [] {
      var before, last := Retried(original, Init(tries)), Last(tries);
      RetriedBegins(original, Init(tries));
      if !before.outcome.Finished? && StagingAside(original, before.files) {
        BeginsHere(original, before.files, last);
        assert tries[|tries| - 1] == last;
      } else {
        var k :| 0 <= k < |tries| - 1 && Begun(original, before.files, Init(tries)[k].token, before.outcome.Finished?);
        assert Init(tries)[k] == tries[k];
        if !before.outcome.Finished? {
          BegunGoesOn(original, before.files, tries[k].token, last);
        }
      }
    }
  }

  lemma {:induction false} BeginsHere(original: Files, files: Files, t: Try)
    requires ManifestPath !in original && StagingAside(original, files)
    ensures var r := Attempt(files, t.token, t.pid, t.left);
      (!r.outcome.Finished? && StagingAside(original, r.files))
        || Begun(original, r.files, t.token, r.outcome.Finished?)
  {
    assert Same(original, files, ManifestPath);
    FirstAttempt(files, t.token, t.pid, t.left);
    var r := Attempt(files, t.token, t.pid, t.left);
    if !r.outcome.Finished? && forall p :: p != Staging(t.pid) ==> Same(files, r.files, p) {
      forall p: Path | !p.Staging? ensures Same(original, r.files, p) {
        assert Same(original, files, p) && Same(files, r.files, p);
      }
    }
  }

  lemma {:induction false} BegunGoesOn(original: Files, files: Files, token: string, t: Try)
    requires Begun(original, files, token, false)
    ensures var r := Attempt(files, t.token, t.pid, t.left); Begun(original, r.files, token, r.outcome.Finished?)
  {
    var base :| StagingAside(original, base) && Progress(base, files, token);
    ResumeKeeps(base, files, token, t.left);
  }

  lemma {:induction false} BegunPreserves(original: Files, files: Files, token: string, finished: bool)
    requires ManifestPath !in original && Begun(original, files, token, finished)
    ensures Preserved(original, files, token)
    ensures finished ==> Moved(original, files, token)
  {
    var base :| StagingAside(original, base)
      && if finished then Complete(base, files, token) else Progress(base, files, token);
    assert forall s :: Same(original, base, Source(s)) && Same(original, base, Destination(s, token));
    forall p | p in original && !p.Staging?
      ensures (p in files && files[p] == original[p])
        || (p.Source? && Destination(p.suffix, token) !in original
            && Destination(p.suffix, token) in files && files[Destination(p.suffix, token)] == original[p])
      ensures !p.Source? ==> p in files && files[p] == original[p]
    {
      assert Same(original, base, p);
      if IsMember(p, token) {
        assert Kept(base, files, token, p.suffix);
      } else {
        assert Same(base, files, p);
      }
    }
  }

  /**
   From a store nobody has touched, through any crashes at any file operation and any reruns by any
   processes: no content is ever lost, and the run that finishes leaves every member under the token
   of one of the runs, every other file in place and no manifest.
   */
  lemma {:induction false} QuarantineCompletes(original: Files, tries: seq<Try>)
    requires ManifestPath !in original
    ensures var r := Retried(original, tries);
      && (r.outcome.Finished? ==> exists k :: 0 <= k < |tries| && Moved(original, r.files, tries[k].token))
      && (StagingAside(original, r.files)
          || exists k :: 0 <= k < |tries| && Preserved(original, r.files, tries[k].token))
  {
    var r := Retried(original, tries);
    RetriedBegins(original, tries);
    if !(!r.outcome.Finished? && StagingAside(original, r.files)) {
      var k :| 0 <= k < |tries| && Begun(original, r.files, tries[k].token, r.outcome.Finished?);
      BegunPreserves(original, r.files, tries[k].token, r.outcome.Finished?);
    }
  }

  /** A member that meets an occupied destination. */
  predicate Blocked(files: Files, token: string, s: Suffix) {
    Source(s) in files && Destination(s, token) in files
  }

  lemma {:induction false} RenameUnblocks(files: Files, token: string, s: Suffix)
    requires Source(s) in files && Destination(s, token) !in files
    ensures var next := files[Destination(s, token) := files[Source(s)]] - {Source(s)};
      forall t :: Blocked(next, token, t) <==> Blocked(files, token, t)
  {
  }

  /** One member's turn in a run that has operations left. */
  lemma {:induction false} RenamingStep(
    original: Files, files: Files, token: string, done: nat, left: nat, moved: seq<Path>)
    requires done < 3 && left > 0 && Kept(original, files, token, Suffixes()[done])
    ensures var s, items := Suffixes()[done], Planned(original, token)[done..];
      var rest := Planned(original, token)[done + 1..];
      var source, destination := Source(s), Destination(s, token);
      Renaming(files, items, left, moved) ==
        if source in files && destination in files then
          Ran(files, Raised("autopilot health quarantine destination collision"))
        else if source in files then
          Renaming(files[destination := files[source]] - {source}, rest, left - 1, moved + [destination])
        else Renaming(files, rest, left, if destination in files then moved + [destination] else moved)
  {
    var items := Planned(original, token)[done..];
    assert items[0] == ItemFor(original, token, Suffixes()[done]);
    assert items[1..] == Planned(original, token)[done + 1..];
  }

  /** A run finishes if it may do enough operations, exactly when no member meets an occupied destination. */
  lemma {:induction false} RenamingFinishes(
    original: Files, files: Files, token: string, done: nat, left: nat, moved: seq<Path>)
    requires done <= 3 && left >= 4 - done && Progress(original, files, token)
    requires forall s :: Handled(done, s) ==> Source(s) !in files
    ensures Renaming(files, Planned(original, token)[done..], left, moved).outcome.Finished? <==>
      forall s :: !Blocked(files, token, s)
    decreases 3 - done
  {
    if done < 3 {
      var s := Suffixes()[done];
      RenamingStep(original, files, token, done, left, moved);
      if Blocked(files, token, s) {
      } else if Source(s) in files {
        var next := files[Destination(s, token) := files[Source(s)]] - {Source(s)};
        RenameKeeps(original, files, token, s);
        RenameUnblocks(files, token, s);
        RenamingFinishes(original, next, token, done + 1, left - 1, moved + [Destination(s, token)]);
      } else {
        RenamingFinishes(
          original, files, token, done + 1, left,
          if Destination(s, token) in files then moved + [Destination(s, token)] else moved);
      }
    }
  }

  lemma {:induction false} ResumeFinishes(original: Files, files: Files, token: string, left: nat)
    requires Progress(original, files, token) && left >= 4
    ensures Resume(files, left).outcome.Finished? <==> forall s :: !Blocked(original, token, s)
  {
    RenamingFinishes(original, files, token, 0, left, []);
    assert Planned(original, token)[0..] == Planned(original, token);
    forall s ensures Blocked(files, token, s) <==> Blocked(original, token, s) {
      assert Kept(original, files, token, s);
    }
  }

  /** A first run with enough operations finishes exactly when no member's destination is occupied. */
  lemma {:induction false} AttemptFinishes(files: Files, token: string, pid: nat, left: nat)
    requires ManifestPath !in files && Staging(pid) !in files && left >= 7
    ensures Attempt(files, token, pid, left).outcome.Finished? <==>
      forall s :: Source(s) in files ==> Destination(s, token) !in files
  {
    var next := files[ManifestPath := Manifest(Planned(files, token))];
    ResumeFinishes(files, next, token, left - 3);
    assert forall s :: Blocked(files, token, s) <==> Source(s) in files && Destination(s, token) in files;
  }

  /** Items that name a member of the store and a place for it beside the store. */
  predicate WellFormed(items: seq<Item>) {
    forall i :: 0 <= i < |items| ==>
      && items[i].Member? && items[i].source.Source? && items[i].destination.Destination?
      && items[i].source.suffix == items[i].destination.suffix
  }

  /**
   A run finishes only on items that are well formed, whatever wrote the manifest: no member it names is
   left, and every member recorded as required is at its destination.
   */
  lemma {:induction false} RenamingIsChecked(files: Files, items: seq<Item>, left: nat, moved: seq<Path>)
    requires Renaming(files, items, left, moved).outcome.Finished?
    ensures WellFormed(items)
    ensures var r := Renaming(files, items, left, moved);
      && (forall p: Path :: p.Destination? && p in files ==> p in r.files)
      && (forall p: Path :: p.Source? && p !in files ==> p !in r.files)
      && (forall i :: 0 <= i < |items| ==>
            items[i].source !in r.files && (items[i].required ==> items[i].destination in r.files))
    decreases |items|
  {
    if items != [] {
      var source, destination, rest := items[0].source, items[0].destination, items[1..];
      assert forall i :: 0 < i < |items| ==> items[i] == rest[i - 1];
      if destination in files {
        RenamingIsChecked(files, rest, left, moved + [destination]);
      } else if source !in files {
        RenamingIsChecked(files, rest, left, moved);
      } else {
        RenamingIsChecked(files[destination := files[source]] - {source}, rest, left - 1, moved + [destination]);
      }
    }
  }

  /** A manifest that cannot be read, or does not list three items, stops the run and moves nothing. */
  lemma {:induction false} StrangeManifestsAreRefused(files: Files, left: nat)
    requires ManifestPath in files
    requires files[ManifestPath].Data? || |files[ManifestPath].items| != 3
    ensures Resume(files, left).outcome.Raised? && Resume(files, left).files == files
  {
  }

  // ---- the files on disk ---------------------------------------------------------------------------------------

  class Disk {
    var files: Files

    constructor (files: Files)
      ensures this.files == files
    {
      this.files := files;
    }

    /** Renames the members of a visible manifest one by one and removes the manifest last. */
    method RenameMembers(items: seq<Item>, left: nat) returns (outcome: Outcome)
      modifies this
      ensures Ran(files, outcome) == Renaming(old(files), items, left, [])
    {
      var moved: seq<Path> := [];
      var budget := left;
      for i := 0 to |items|
        invariant Renaming(files, items[i..], budget, moved) == Renaming(old(files), items, left, [])
      {
        assert items[i..][0] == items[i] && items[i..][1..] == items[i + 1..];
        if !Belongs(items[i]) {
          return Raised("autopilot health quarantine manifest is malformed");
        }
        var source, destination := items[i].source, items[i].destination;
        if destination in files {
          if source in files {
            return Raised("autopilot health quarantine destination collision");
          }
          moved := moved + [destination];
          continue;
        }
        if source !in files {
          if items[i].required {
            return Raised("autopilot health quarantine member disappeared");
          }
          continue;
        }
        if budget == 0 {
          return Died;
        }
        files := files[destination := files[source]] - {source};
        budget := budget - 1;
        moved := moved + [destination];
      }
      if budget == 0 {
        return Died;
      }
      files := files - {ManifestPath};
      return Finished(moved);
    }

    /** One run; the process dies once it has done `left` file operations. */
    method QuarantineStore(token: string, pid: nat, left: nat) returns (outcome: Outcome)
      modifies this
      ensures Ran(files, outcome) == Attempt(old(files), token, pid, left)
    {
      var budget := left;
      if ManifestPath !in files {
        var items := Planned(files, token);
        if Staging(pid) in files {
          return Raised("staging file exists");
        }
        if budget == 0 {
          return Died;
        }
        files := files[Staging(pid) := Data("")];
        if budget == 1 {
          return Died;
        }
        files := files[Staging(pid) := Manifest(items)];
        if budget == 2 {
          return Died;
        }
        files := files[ManifestPath := files[Staging(pid)]] - {Staging(pid)};
        assert files == old(files)[ManifestPath := Manifest(items)];
        budget := budget - 3;
      }
      match files[ManifestPath]
      case Data(_) => return Raised("autopilot health quarantine manifest is unreadable");
      case Manifest(items) =>
        if |items| != 3 {
          return Raised("autopilot health quarantine manifest is malformed");
        }
        outcome := RenameMembers(items, budget);
    }
  }

  // ---- the heartbeat ----------------------------------------------------------------------------------------------

  /** What reading the store says: contention, corruption, or a progress instant if it has a usable one. */
  datatype Reading = Busy | Corrupt(name: string) | NoProgress | BadProgress | Progressed(at: int)

  datatype Heartbeat = Heartbeat(stale: bool, reason: string, corrupt: bool)

  function HeartbeatState(files: Files, reading: Reading, now: int, staleAfter: int): Result<Heartbeat> {
    if staleAfter < 1 then Rejected("stale_seconds must be positive")
    else if ManifestPath in files then Ok(Heartbeat(true, "heartbeat_quarantine_incomplete", true))
    else if Source(Main) !in files then Ok(Heartbeat(true, "heartbeat_store_missing", false))
    else
      match reading
      case Busy => Rejected("locked")
      case Corrupt(name) => Ok(Heartbeat(true, "heartbeat_store_corrupt_" + name, true))
      case NoProgress => Ok(Heartbeat(true, "heartbeat_missing", false))
      case BadProgress => Ok(Heartbeat(true, "heartbeat_invalid", false))
      case Progressed(at) =>
        if now < at then Ok(Heartbeat(true, "heartbeat_future_untrusted", false))
        else if now - at > staleAfter then Ok(Heartbeat(true, "heartbeat_stale", false))
        else Ok(Heartbeat(false, "heartbeat_fresh", false))
  }

  /**
   The heartbeat is fresh exactly while the store is there, no quarantine is under way, and progress is
   dated in the past, at most so long ago; it is corrupt exactly in a quarantine or when the store cannot
   be read; and a store that is only busy gives no answer.
   */
  lemma {:induction false} HeartbeatExactlyWhen(files: Files, reading: Reading, now: int, staleAfter: int)
    ensures var r := HeartbeatState(files, reading, now, staleAfter);
      var present := ManifestPath !in files && Source(Main) in files;
      && (r.Rejected? <==> staleAfter < 1 || (present && reading.Busy?))
      && (r.Ok? ==>
            && (!r.value.stale <==> present && reading.Progressed? && 0 <= now - reading.at <= staleAfter)
            && (r.value.corrupt <==> ManifestPath in files || (present && reading.Corrupt?))
            && (!r.value.stale <==> r.value.reason == "heartbeat_fresh")
            && (present && reading.Progressed? && now - reading.at > staleAfter ==> r.value.reason == "heartbeat_stale")
            && (present && reading.Progressed? && now < reading.at ==>
                  r.value.reason == "heartbeat_future_untrusted")
            && (present && reading.NoProgress? ==> r.value.reason == "heartbeat_missing")
            && (present && reading.BadProgress? ==> r.value.reason == "heartbeat_invalid"))
  {
    var prefix, name := "heartbeat_store_corrupt_", if reading.Corrupt? then reading.name else "";
    assert |prefix + name| >= |prefix| > |"heartbeat_fresh"|;
  }

  /** Until some run finishes, every check reports stale and corrupt, so every watchdog pass resumes. */
  lemma {:induction false} UnfinishedIsStaleAndCorrupt(
    original: Files, files: Files, token: string, tries: seq<Try>, reading: Reading, now: int, staleAfter: int)
    requires Progress(original, files, token) && staleAfter >= 1
    requires !Retried(files, tries).outcome.Finished?
    ensures HeartbeatState(Retried(files, tries).files, reading, now, staleAfter) ==
      Ok(Heartbeat(true, "heartbeat_quarantine_incomplete", true))
  {
    RerunsComplete(original, files, token, tries);
  }

  /** A finished quarantine is never mistaken for an unfinished one. */
  lemma {:induction false} FinishedIsMissing(
    original: Files, files: Files, token: string, tries: seq<Try>, reading: Reading, now: int, staleAfter: int)
    requires Progress(original, files, token) && staleAfter >= 1
    requires Retried(files, tries).outcome.Finished?
    ensures HeartbeatState(Retried(files, tries).files, reading, now, staleAfter) ==
      Ok(Heartbeat(true, "heartbeat_store_missing", false))
  {
    RerunsComplete(original, files, token, tries);
  }
}
