// One-step rollbacks alternate between two releases (release_tools/updater.py, 1659-1714, 1837-1929).
module JournalAlternation {
  import opened FileTrees
  import opened ReleaseFiles
  import opened Journal
  import opened JournalSafety
  import opened JournalTheorems

  // Files that are `here` apart from receipts, and whose latest receipt names a snapshot of `there`.
  ghost predicate Names(snaps: map<nat, Snapshot>, o: Owned, here: Owned, there: Owned) {
    && Active(o) == here
    && LatestReceipt(o).Readable?
    && var id := LatestReceipt(o).receipt.snapshot;
    id in snaps && snaps[id].manifest.Some? && Active(snaps[id].copy) == there
  }

  // The settled files are `here` and a rollback would lead `there`.  Until a committed unlink is
  // durable its transaction may still be undone, and then the two change places again.
  ghost predicate Between(w: World, here: Owned, there: Owned) {
    && Names(w.snaps, w.base, here, there)
    && (w.process.Unlinked? && w.process.ending == Committed ==>
          && w.process.t.snapshot in w.snaps && w.snaps[w.process.t.snapshot].manifest.Some?
          && Names(w.snaps, w.snaps[w.process.t.snapshot].copy, there, here))
  }

  predicate Commits(w: World, a: Act) {
    a.Unlink? && w.process.Receipted?
  }

  predicate Uncommits(w: World, a: Act) {
    a.Rewrite? && w.process.Unlinked? && w.process.ending == Committed
  }

  // How many commits of the run stayed committed.
  ghost function Settlements(w: World, acts: seq<Act>): int
    requires Legal(w, acts)
    decreases acts
  {
    if acts == [] then 0
    else
      (if Commits(w, acts[0]) then 1 else if Uncommits(w, acts[0]) then -1 else 0)
      + Settlements(Do(w, acts[0]), acts[1..])
  }

  // Nothing but rollbacks commits, and no settled installation is edited.  Updates may be started
  // and fail; crashes, failed rollbacks and recoveries may come anywhere.
  ghost predicate OnlyRollbacks(w: World, acts: seq<Act>)
    requires Legal(w, acts)
    decreases acts
  {
    acts == []
    || (&& !acts[0].DoubleFault?
        && !(acts[0].Edit? && w.marker.None?)
        && !(Commits(w, acts[0]) && w.process.t.action == Update)
        && OnlyRollbacks(Do(w, acts[0]), acts[1..]))
  }

  // ---------------------------------------------------------------- one step

  lemma NamesKept(before: map<nat, Snapshot>, after: map<nat, Snapshot>, o: Owned, here: Owned, there: Owned)
    requires Names(before, o, here, there) && KeepsSealed(before, after)
    ensures Names(after, o, here, there)
  {
  }

  lemma ReceiptsAreNotActive(files: Owned, name: Rel, t: Pending)
    requires State in files.dirs && ReceiptName(name)
    ensures Active(WithReceipts(files, name, t)) == Active(files)
  {
    ReceiptNamesAreTheirOwn();
    var after := WithReceipts(files, name, t);
    assert WithoutReceipts(after.dirs[State]) == WithoutReceipts(files.dirs[State]);
    assert Active(after).dirs == Active(files).dirs;
  }

  // A commit puts the accepted files here, and what was here there.
  lemma CommitTurns(w: World)
    requires Inv(w) && Enabled(w, Unlink) && w.process.Receipted?
    ensures var v := Do(w, Unlink);
      && v.snaps == w.snaps && v.process == Unlinked(w.process.t, Committed)
      && Names(v.snaps, v.base, Active(w.process.files), Active(w.base))
  {
    var p := w.process;
    assert w.live == WithReceipts(p.files, p.name, p.t);
    ReceiptsAreNotActive(p.files, p.name, p.t);
    NewReceiptCoherent(w, p.t, p.files, p.name);
  }

  lemma RollbackTurns(w: World, here: Owned, there: Owned)
    requires Inv(w) && Enabled(w, Unlink) && w.process.Receipted? && w.process.t.action == Rollback
    requires Between(w, here, there)
    ensures Between(Do(w, Unlink), there, here)
  {
    CommitTurns(w);
    assert Accepted(w, w.process.t, w.process.files);
    assert w.snaps[w.process.t.snapshot].copy == w.base && Intact(w.snaps[w.process.t.snapshot]);
    hide Inv, Enabled, Do, Active;
  }

  lemma RewriteTurnsBack(w: World, here: Owned, there: Owned)
    requires Inv(w) && Enabled(w, Rewrite) && Uncommits(w, Rewrite) && Between(w, here, there)
    ensures Between(Do(w, Rewrite), there, here)
  {
    hide Names;
  }

  lemma OtherStepsKeepBase(w: World, a: Act)
    requires Inv(w) && Enabled(w, a) && !a.DoubleFault? && !Commits(w, a) && !Uncommits(w, a)
    requires !(a.Edit? && w.marker.None?)
    ensures Do(w, a).base == w.base && KeepsSealed(w.snaps, Do(w, a).snaps)
    ensures !(Do(w, a).process.Unlinked? && Do(w, a).process.ending == Committed)
  {
    SnapshotsAreKept(w, a);
  }

  // ---------------------------------------------------------------- every run

  // After any number of crashes, failures and recoveries: an even number of rollbacks that stayed
  // committed is back where it began, an odd number is at the other release.
  lemma {:induction false} RollbacksAlternate(w: World, acts: seq<Act>, here: Owned, there: Owned)
    requires Inv(w) && Between(w, here, there) && Legal(w, acts) && OnlyRollbacks(w, acts)
    ensures var v := After(w, acts);
      && Inv(v)
      && (if Settlements(w, acts) % 2 == 0 then Between(v, here, there) else Between(v, there, here))
      && (v.marker.None? ==> Active(v.live) == if Settlements(w, acts) % 2 == 0 then here else there)
    decreases acts
  {
    hide Inv, Enabled, Do, Active;
    if acts == [] {
      if w.marker.None? {
        SettledLive(w);
      }
    } else {
      var a := acts[0];
      var v := Do(w, a);
      StepKeepsInv(w, a);
      if Commits(w, a) {
        RollbackTurns(w, here, there);
        RollbacksAlternate(v, acts[1..], there, here);
      } else if Uncommits(w, a) {
        RewriteTurnsBack(w, here, there);
        RollbacksAlternate(v, acts[1..], there, here);
      } else {
        OtherStepsKeepBase(w, a);
        NamesKept(w.snaps, v.snaps, w.base, here, there);
        RollbacksAlternate(v, acts[1..], here, there);
      }
    }
  }

  lemma SettledLive(w: World)
    requires Inv(w) && w.marker.None?
    ensures w.live == w.base
  {
  }

  lemma FinishSettles(w: World)
    requires w.process.Unlinked?
    ensures Enabled(w, Finish)
    ensures var v := Do(w, Finish); v.snaps == w.snaps && v.base == w.base && v.process.Idle?
  {
  }

  // An update from A to B leaves B here and A there, so n rollbacks that succeed after it end at
  // A when n is odd and at B when n is even.
  lemma RollbacksAfterUpdate(w: World, acts: seq<Act>)
    requires Inv(w) && Enabled(w, Unlink) && w.process.Receipted? && w.process.t.action == Update
    requires Legal(Do(w, Unlink), [Finish] + acts) && OnlyRollbacks(Do(Do(w, Unlink), Finish), acts)
    ensures var v := After(Do(w, Unlink), [Finish] + acts);
      v.marker.None? ==>
        Active(v.live) == if Settlements(Do(Do(w, Unlink), Finish), acts) % 2 == 0
                          then Active(w.process.files) else Active(w.base)
  {
    var u := Do(w, Unlink);
    CommitTurns(w);
    StepKeepsInv(w, Unlink);
    StepKeepsInv(u, Finish);
    assert ([Finish] + acts)[1..] == acts;
    hide Inv, Enabled, Do, Active, Names;
    FinishSettles(u);
    RollbacksAlternate(Do(u, Finish), acts, Active(w.process.files), Active(w.base));
  }
}
