/** Installing the files of the accepted writes, and what a failed install leaves behind. */
module Install {
  import opened Common
  import opened CacheModel
  import opened Index
  import opened Admission

  /** What the file system does to one write. */
  datatype Fault = NoFault | RenameFails | StatFails

  datatype Outcome = Outcome(files: map<Path, Blob>, installed: set<Path>, ok: bool)

  /** The final file exists with the length and checksum of the write. */
  predicate Present(files: map<Path, Blob>, w: PendingWrite)
  {
    FinalPath(w) in files && files[FinalPath(w)] == Blob(w.compressedSize, w.checksum)
  }

  /** One write: an intact file is kept; otherwise the temporary file is renamed into place, and
      only after a successful stat is it remembered as installed. */
  function InstallOne(o: Outcome, w: PendingWrite, fault: Fault): Outcome
  {
    if !o.ok || Present(o.files, w) then o
    else
      var renamed := o.files[FinalPath(w) := Blob(w.compressedSize, w.checksum)];
      match fault
      case RenameFails => o.(ok := false)
      case StatFails => o.(files := renamed, ok := false)
      case NoFault => o.(files := renamed, installed := o.installed + {FinalPath(w)})
  }

  function InstallAll(files: map<Path, Blob>, writes: seq<PendingWrite>, faults: seq<Fault>): Outcome
    requires |writes| <= |faults|
  {
    if writes == [] then Outcome(files, {}, true)
    else
      var n := |writes| - 1;
      InstallOne(InstallAll(files, writes[..n], faults), writes[n], faults[n])
  }

  /** All files get into place and the directory is synced if it changed. */
  predicate Installs(files: map<Path, Blob>, writes: seq<PendingWrite>, faults: seq<Fault>, syncFails: bool)
    requires |writes| <= |faults|
  {
    var o := InstallAll(files, writes, faults);
    o.ok && !(o.installed != {} && syncFails)
  }

  /** Some rename succeeded and the stat that follows it failed. */
  predicate StatFailed(files: map<Path, Blob>, writes: seq<PendingWrite>, faults: seq<Fault>)
    requires |writes| <= |faults|
  {
    && writes != []
    && var n := |writes| - 1;
       var o := InstallAll(files, writes[..n], faults);
       StatFailed(files, writes[..n], faults) || (o.ok && !Present(o.files, writes[n]) && faults[n] == StatFails)
  }

  ghost predicate Intact(files: map<Path, Blob>)
  {
    forall f :: f in files ==> files[f] == Contents(f)
  }

  ghost function PathSet(writes: seq<PendingWrite>): set<Path> { set w | w in writes :: FinalPath(w) }

  ghost predicate AllWellFormed(writes: seq<PendingWrite>)
  {
    forall w :: w in writes ==> WellFormedWrite(w)
  }

  /** Files are only added, each with its recorded contents, and only for the given paths. */
  ghost predicate OnlyAdds(files: map<Path, Blob>, o: Outcome, paths: set<Path>)
  {
    && Intact(o.files) && o.installed !! files.Keys && files.Keys + o.installed <= o.files.Keys
    && o.files.Keys <= files.Keys + paths
    && (o.ok ==> o.files.Keys == files.Keys + paths && o.files.Keys == files.Keys + o.installed)
  }

  lemma OnlyAddsStep(files: map<Path, Blob>, o: Outcome, paths: set<Path>, w: PendingWrite, fault: Fault)
    requires OnlyAdds(files, o, paths) && WellFormedWrite(w)
    ensures OnlyAdds(files, InstallOne(o, w, fault), paths + {FinalPath(w)})
  {
  }

  lemma PathSetStep(writes: seq<PendingWrite>, n: nat)
    requires n < |writes|
    ensures PathSet(writes[..n + 1]) == PathSet(writes[..n]) + {FinalPath(writes[n])}
  {
    assert writes[..n + 1] == writes[..n] + [writes[n]];
  }

  lemma {:induction false} InstallFacts(files: map<Path, Blob>, writes: seq<PendingWrite>, faults: seq<Fault>)
    requires |writes| <= |faults| && Intact(files) && AllWellFormed(writes)
    ensures OnlyAdds(files, InstallAll(files, writes, faults), PathSet(writes))
  {
    if writes != [] {
      hide PathSet, OnlyAdds;
      var n := |writes| - 1;
      assert forall w :: w in writes[..n] ==> w in writes;
      InstallFacts(files, writes[..n], faults);
      PathSetStep(writes, n);
      assert writes[..n + 1] == writes && writes[n] in writes;
      OnlyAddsStep(files, InstallAll(files, writes[..n], faults), PathSet(writes[..n]), writes[n], faults[n]);
    } else {
      assert PathSet(writes) == {};
    }
  }

  /** A rollback, which deletes the installed files, restores the directory if and only if no
      stat failed after its rename. */
  lemma {:induction false} RollbackRestores(files: map<Path, Blob>, writes: seq<PendingWrite>, faults: seq<Fault>)
    requires |writes| <= |faults| && Intact(files) && AllWellFormed(writes)
    ensures var o := InstallAll(files, writes, faults);
            && (o.files - o.installed == files <==> !StatFailed(files, writes, faults))
            && (o.ok ==> !StatFailed(files, writes, faults))
  {
    if writes != [] {
      var n := |writes| - 1;
      assert forall w :: w in writes[..n] ==> w in writes;
      RollbackRestores(files, writes[..n], faults);
      InstallFacts(files, writes[..n], faults);
      InstallFacts(files, writes, faults);
      var a, b := InstallAll(files, writes[..n], faults), InstallAll(files, writes, faults);
      var f := FinalPath(writes[n]);
      assert writes[n] in writes;
      if a.ok && !Present(a.files, writes[n]) {
        assert f !in a.files;
        if faults[n] == StatFails {
          assert f in (b.files - b.installed).Keys && f !in files;
        } else if faults[n] == NoFault {
          assert b.files - b.installed == a.files - a.installed;
        }
      }
    }
  }

  /** A failed batch whose stat failed: the directory gains a file that no item will name. */
  lemma LeakExample()
    ensures var w := PendingWrite("base", "key", 1, 4096, "x", [], 60, "{}", 0);
            var o := InstallAll(map[], [w], [StatFails]);
            !o.ok && o.files - o.installed == map[FinalPath(w) := Blob(1, "x")]
  {
    var w := PendingWrite("base", "key", 1, 4096, "x", [], 60, "{}", 0);
    assert InstallAll(map[], [], [StatFails]) == Outcome(map[], {}, true);
    assert [w][..0] == [];
  }

  /** Moves the files of the accepted writes into place. */
  method InstallBatchFiles(p: Provider, writes: seq<PendingWrite>, faults: seq<Fault>, syncFails: bool)
    returns (installed: set<Path>, ok: bool)
    requires |writes| <= |faults|
    modifies p`files
    ensures var o := InstallAll(old(p.files), writes, faults);
            p.files == o.files && installed == o.installed && ok == (o.ok && !(installed != {} && syncFails))
  {
    installed := {};
    for i := 0 to |writes|
      invariant InstallAll(old(p.files), writes[..i], faults) == Outcome(p.files, installed, true)
    {
      var w := writes[i];
      assert writes[..i + 1][..i] == writes[..i];
      if Present(p.files, w) {
        continue;
      }
      if faults[i] == RenameFails {
        Stuck(old(p.files), writes, faults, i + 1);
        return installed, false;
      }
      p.files := p.files[FinalPath(w) := Blob(w.compressedSize, w.checksum)];
      if faults[i] == StatFails {
        Stuck(old(p.files), writes, faults, i + 1);
        return installed, false;
      }
      installed := installed + {FinalPath(w)};
    }
    assert writes[..|writes|] == writes;
    ok := installed == {} || !syncFails;
  }

  lemma {:induction false} Stuck(files: map<Path, Blob>, writes: seq<PendingWrite>, faults: seq<Fault>, i: nat)
    requires i <= |writes| <= |faults| && !InstallAll(files, writes[..i], faults).ok
    ensures InstallAll(files, writes, faults) == InstallAll(files, writes[..i], faults)
    decreases |writes|
  {
    if i == |writes| {
      assert writes[..i] == writes;
    } else {
      var n := |writes| - 1;
      assert writes[..n][..i] == writes[..i];
      Stuck(files, writes[..n], faults, i);
    }
  }
}
