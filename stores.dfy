/**
 * The two stores as mutable state and the routines of the sync script that
 * change them: the contacts table `local` (keyed by id) and the worksheet
 * rows `remote` (data row i is sheet row i + 2). Each routine is proved to
 * compute the corresponding function of module Reconcile.
 */
module Sync {
  import opened Records
  import opened Reconcile

  class Stores {
    var local: map<int, LocalRow>
    var remote: seq<SheetRow>

    constructor (local0: map<int, LocalRow>, remote0: seq<SheetRow>)
      ensures local == local0 && remote == remote0
    {
      local := local0;
      remote := remote0;
    }

    /** Drop and recreate the contacts table. */
    method Reset()
      modifies this`local
      ensures local == map[] && remote == old(remote)
    {
      local := map[];
    }

    /** Linear search for the first row whose id matches `k`, stopping at the first hit. */
    static method FindRow(all: seq<SheetRow>, k: int) returns (pos: Option<nat>)
      ensures pos == FirstMatch(all, k)
    {
      pos := None;
      var i := 0;
      while i < |all|
        invariant 0 <= i <= |all|
        invariant forall j :: 0 <= j < i ==> all[j].id != Num(k)
      {
        if all[i].id == Num(k) {
          pos := Some(i);
          break;
        }
        i := i + 1;
      }
    }

    /**
     * Write "now" into the updated_at cell of the first row of the `all`
     * snapshot whose id is `k`; nothing is written when no row matches or
     * when the remote service does not accept the write. Returns the cell
     * that was targeted.
     */
    method StampTimestamp(k: int, all: seq<SheetRow>, now: int, accepted: bool) returns (target: Option<Cell>)
      requires |all| <= |remote|
      modifies this`remote
      ensures target == StampTarget(all, k)
      ensures remote == StampRows(old(remote), all, k, now, accepted)
      ensures local == old(local)
    {
      var pos := FindRow(all, k);
      match pos
      case None =>
        target := None;
      case Some(i) =>
        target := Some(Cell(PhysicalRow(i), UpdatedAtColumn));
        if accepted {
          remote := remote[i := remote[i].(updatedAt := Some(now))];
        }
    }

    /**
     * Sheet to local table. `sheet` is the data the loop reads, `all` the
     * records used to locate rows for stamping; the local table on entry is
     * the snapshot every row is compared against. Stamp writes for ids in
     * `rejected` fail. `stamped` lists, in order, the ids a stamp was
     * issued for.
     */
    method SyncToLocal(sheet: seq<SheetRow>, all: seq<SheetRow>, now: int, rejected: set<int>)
      returns (completed: bool, stamped: seq<int>)
      requires |all| <= |remote|
      requires NoRepeatedNewId(sheet, local)
      modifies this
      ensures RemoteToLocal(sheet, old(local), all, old(remote), now, rejected)
           == PullOutcome(completed, local, remote, stamped)
    {
      var snap := local;
      stamped := [];
      ghost var goal := PullLoop(sheet, Progress(snap, remote, []), snap, all, now, rejected);
      var i := 0;
      while i < |sheet|
        invariant 0 <= i <= |sheet|
        invariant |all| <= |remote|
        invariant PullLoop(sheet[i..], Progress(local, remote, stamped), snap, all, now, rejected) == goal
      {
        assert sheet[i..][1..] == sheet[i + 1..];
        var row := sheet[i];
        if IsDigitId(row.id) {
          var rowId := row.id.n;
          var updatedAt := row.updatedAt.GetOr(now);
          if rowId !in snap {
            local := local[rowId := LocalRow(row.fields, Some(updatedAt))];
            var _ := StampTimestamp(rowId, all, now, rowId !in rejected);
            stamped := stamped + [rowId];
          } else {
            var dbUpdatedAt := snap[rowId].updatedAt;
            if Newer(updatedAt, dbUpdatedAt) {
              local := local[rowId := LocalRow(row.fields, Some(updatedAt))];
              var _ := StampTimestamp(rowId, all, now, rowId !in rejected);
              stamped := stamped + [rowId];
            }
          }
        }
        i := i + 1;
      }
      assert sheet[i..] == [];
      assert goal == Progress(local, remote, stamped);
      if HasNonIntegerId(sheet) {
        // the id-set conversion raises; the transaction is never committed
        local := snap;
        completed := false;
        return;
      }
      var idsInSheet := set j | 0 <= j < |sheet| && sheet[j].id.Num? :: sheet[j].id.n;
      var toDelete := snap.Keys - idsInSheet;
      ghost var loopResult := local;
      while toDelete != {}
        invariant toDelete <= snap.Keys - idsInSheet
        invariant local == loopResult - ((snap.Keys - idsInSheet) - toDelete)
        invariant remote == goal.remote
        decreases toDelete
      {
        HasElement(toDelete);
        var d :| d in toDelete;
        local := local - {d};
        toDelete := toDelete - {d};
      }
      assert idsInSheet == SheetIds(sheet);
      assert (snap.Keys - idsInSheet) - toDelete == snap.Keys - idsInSheet;
      completed := true;

    }

    /**
     * Local table to sheet, against the snapshot `sheet` taken before the
     * pass: ids the snapshot lacks are appended, rows whose local timestamp
     * is strictly newer are overwritten in columns B to I.
     */
    method SyncToSheet(sheet: seq<SheetRow>) returns (completed: bool)
      requires |sheet| <= |remote|
      modifies this`remote
      ensures LocalToRemote(sheet, local, old(remote)) == PushOutcome(completed, remote)
      ensures local == old(local)
    {
      if !DistinctIds(sheet) {
        // indexing the snapshot by id rejects a repeated id
        completed := false;
        return;
      }
      var ids := Ascending(local.Keys);
      ghost var goal := PushLoop(ids, local, sheet, PushOutcome(true, remote));
      var i := 0;
      while i < |ids|
        invariant 0 <= i <= |ids|
        invariant |sheet| <= |remote|
        invariant PushLoop(ids[i..], local, sheet, PushOutcome(true, remote)) == goal
      {
        assert ids[i..][1..] == ids[i + 1..];
        var sid := ids[i];
        var row := local[sid];
        ghost var before := PushOutcome(true, remote);
        assert PushLoop(ids[i..], local, sheet, before)
            == PushLoop(ids[i + 1..], local, sheet, PushStep(before, sid, row, sheet));
        var pos := FindRow(sheet, sid);
        match pos {
          case None =>
            remote := remote + [SheetRow(Num(sid), row.fields, row.updatedAt)];
          case Some(p) =>
            if row.updatedAt.None? {
              // comparing a missing timestamp with one from the sheet raises
              completed := false;
              return;
            }
            if Newer(row.updatedAt.value, sheet[p].updatedAt) {
              remote := remote[p := remote[p].(fields := row.fields, updatedAt := row.updatedAt)];
            }
        }
        assert PushStep(before, sid, row, sheet) == PushOutcome(true, remote);
        i := i + 1;
      }
      assert ids[i..] == [];
      completed := true;
    }

    /**
     * One reconciliation pass over the current stores: both snapshots are
     * taken first, then sheet to local table, then local table to sheet
     * against the original sheet snapshot. A sheet without data rows fails
     * before either direction runs.
     */
    method Pass(now: int, rejected: set<int>) returns (completed: bool)
      requires NoRepeatedNewId(remote, local)
      modifies this
      ensures RunPass(old(local), old(remote), now, rejected) == PassOutcome(completed, local, remote)
    {
      if remote == [] {
        // the records of an empty sheet have no updated_at column to parse
        completed := false;
        return;
      }
      var sheet := remote;
      var allRecords := remote;
      var stamped;
      completed, stamped := SyncToLocal(sheet, allRecords, now, rejected);
      if completed {
        completed := SyncToSheet(sheet);
      }
    }

    /** The script's entry point: recreate the local table, then run one pass. */
    method Run(now: int, rejected: set<int>) returns (completed: bool)
      requires NoRepeatedNewId(remote, map[])
      modifies this
      ensures RunPass(map[], old(remote), now, rejected) == PassOutcome(completed, local, remote)
    {
      Reset();
      completed := Pass(now, rejected);
    }
  }
}
