/**
 * The reconciliation pass as functions of the two stores: remote to local
 * (with timestamp stamping), local to remote, and the pass that runs them in
 * that order. The methods of module Sync are proved to compute exactly these.
 */
module Reconcile {
  import opened Records

  /* ---------------------------------------------------------------------- */
  /* Timestamp stamping                                                      */

  /**
   * Position of the first row whose id matches `k` (the lookup compares the
   * id cell's text with the decimal text of `k`).
   */
  function FirstMatch(rows: seq<SheetRow>, k: int): (r: Option<nat>)
    ensures r.Some? ==> r.value < |rows| && rows[r.value].id == Num(k)
    ensures r.Some? ==> forall j :: 0 <= j < r.value ==> rows[j].id != Num(k)
    ensures r.None? <==> forall j :: 0 <= j < |rows| ==> rows[j].id != Num(k)
    decreases |rows|
  {
    if rows == [] then None
    else if rows[0].id == Num(k) then Some(0)
    else match FirstMatch(rows[1..], k)
      case None => None
      case Some(j) => Some(j + 1)
  }

  /**
   * The live sheet after stamping id `k`: the row found in the `all`
   * snapshot gets "now" in its updated_at cell, unless the write is not
   * `accepted` by the remote service.
   */
  function StampRows(live: seq<SheetRow>, all: seq<SheetRow>, k: int, now: int, accepted: bool): (r: seq<SheetRow>)
    requires |all| <= |live|
    ensures |r| == |live|
    ensures forall j :: 0 <= j < |r| ==> r[j].id == live[j].id && r[j].fields == live[j].fields
  {
    match FirstMatch(all, k)
    case None => live
    case Some(i) => if accepted then live[i := live[i].(updatedAt := Some(now))] else live
  }

  /** The cell a stamp of `k` targets, if any row matches. */
  function StampTarget(all: seq<SheetRow>, k: int): (t: Option<Cell>)
    ensures t.Some? <==> exists i :: 0 <= i < |all| && all[i].id == Num(k)
    ensures t.Some? ==>
      && t.value.column == UpdatedAtColumn
      && 2 <= t.value.row < |all| + 2
      && all[t.value.row - 2].id == Num(k)
      && forall i :: 0 <= i < t.value.row - 2 ==> all[i].id != Num(k)
  {
    match FirstMatch(all, k)
    case None => None
    case Some(i) => Some(Cell(PhysicalRow(i), UpdatedAtColumn))
  }

  /* ---------------------------------------------------------------------- */
  /* Remote to local                                                         */

  /** What one sheet row does to the local table. */
  datatype Decision =
    | Malformed
    | Insert(id: int, row: LocalRow)
    | Update(id: int, row: LocalRow)
    | UpToDate(id: int)
  {
    predicate Writes() { Insert? || Update? }
  }

  /**
   * Last-write-wins for one sheet row against the local snapshot: a row
   * without a digit id is skipped; an unknown id is inserted; a known id is
   * overwritten only when the sheet's timestamp (or "now" when it is
   * missing) is strictly newer.
   */
  function Decide(r: SheetRow, snap: map<int, LocalRow>, now: int): (d: Decision)
    ensures d.Malformed? <==> !IsDigitId(r.id)
    ensures !d.Malformed? ==> r.id == Num(d.id)
    ensures d.Writes() ==> d.row == LocalRow(r.fields, Some(r.updatedAt.GetOr(now)))
    ensures d.Insert? <==> IsDigitId(r.id) && r.id.n !in snap
  {
    if !IsDigitId(r.id) then Malformed
    else
      var k := r.id.n;
      var t := r.updatedAt.GetOr(now);
      if k !in snap then Insert(k, LocalRow(r.fields, Some(t)))
      else if Newer(t, snap[k].updatedAt) then Update(k, LocalRow(r.fields, Some(t)))
      else UpToDate(k)
  }

  /** State of the remote-to-local loop: local table, live sheet, stamped ids in order. */
  datatype Progress = Progress(local: map<int, LocalRow>, remote: seq<SheetRow>, stamped: seq<int>)

  /** One iteration of the loop over the sheet rows. */
  function PullStep(p: Progress, r: SheetRow, snap: map<int, LocalRow>, all: seq<SheetRow>,
                    now: int, rejected: set<int>): (q: Progress)
    requires |all| <= |p.remote|
    ensures |q.remote| == |p.remote|
    ensures q.stamped == p.stamped || (IsDigitId(r.id) && q.stamped == p.stamped + [r.id.n])
    ensures !IsDigitId(r.id) ==> q == p
  {
    var d := Decide(r, snap, now);
    if d.Writes() then
      Progress(p.local[d.id := d.row], StampRows(p.remote, all, d.id, now, d.id !in rejected), p.stamped + [d.id])
    else p
  }

  /** The loop over `rows`, in order, from state `p`. */
  function PullLoop(rows: seq<SheetRow>, p: Progress, snap: map<int, LocalRow>, all: seq<SheetRow>,
                    now: int, rejected: set<int>): (q: Progress)
    requires |all| <= |p.remote|
    ensures |q.remote| == |p.remote|
    ensures forall j :: 0 <= j < |q.remote| ==> q.remote[j].id == p.remote[j].id && q.remote[j].fields == p.remote[j].fields
    decreases |rows|
  {
    if rows == [] then p
    else PullLoop(rows[1..], PullStep(p, rows[0], snap, all, now, rejected), snap, all, now, rejected)
  }

  datatype PullOutcome = PullOutcome(completed: bool, local: map<int, LocalRow>, remote: seq<SheetRow>, stamped: seq<int>)

  /**
   * The whole remote-to-local direction from local table `snap` and live
   * sheet `live`. After the loop, local ids that the sheet no longer has are
   * deleted. A non-integer id makes the id-set conversion fail before the
   * transaction is committed: the local table stays `snap`, while the stamps
   * already written to the sheet remain.
   */
  function RemoteToLocal(sheet: seq<SheetRow>, snap: map<int, LocalRow>, all: seq<SheetRow>,
                         live: seq<SheetRow>, now: int, rejected: set<int>): (o: PullOutcome)
    requires |all| <= |live|
    ensures |o.remote| == |live|
    ensures o.completed <==> !HasNonIntegerId(sheet)
    ensures !o.completed ==> o.local == snap
  {
    var p := PullLoop(sheet, Progress(snap, live, []), snap, all, now, rejected);
    if HasNonIntegerId(sheet) then PullOutcome(false, snap, p.remote, p.stamped)
    else PullOutcome(true, p.local - (snap.Keys - SheetIds(sheet)), p.remote, p.stamped)
  }

  /* ---------------------------------------------------------------------- */
  /* Local to remote                                                         */

  /** The smallest element of a non-empty set. */
  function Least(s: set<int>): (m: int)
    requires s != {}
    ensures m in s && forall k :: k in s ==> m <= k
  {
    LeastExists(s);
    var m :| m in s && forall k :: k in s ==> m <= k; m
  }

  lemma {:induction false} LeastExists(s: set<int>)
    requires s != {}
    ensures exists m :: m in s && forall k :: k in s ==> m <= k
    decreases |s|
  {
    HasElement(s);
    var x :| x in s;
    var rest := s - {x};
    if rest == {} {
      forall k | k in s
        ensures x <= k
      {
        assert k !in rest;
      }
    } else {
      LeastExists(rest);
      var m :| m in rest && forall k :: k in rest ==> m <= k;
      var least := if x < m then x else m;
      forall k | k in s
        ensures least <= k
      {
        if k != x {
          assert k in rest;
        }
      }
      assert least in s;
    }
  }

  lemma HasElement(s: set<int>)
    requires s != {}
    ensures exists x :: x in s
  {
    assert (forall x :: x !in s) ==> s == {};
  }

  /** The keys of the local table in the order a full-table select returns them. */
  function Ascending(s: set<int>): (r: seq<int>)
    ensures |r| == |s|
    ensures forall k :: k in r <==> k in s
    ensures forall i, j :: 0 <= i < j < |r| ==> r[i] < r[j]
    decreases |s|
  {
    if s == {} then []
    else
      var m := Least(s);
      [m] + Ascending(s - {m})
  }

  datatype PushOutcome = PushOutcome(completed: bool, remote: seq<SheetRow>)

  /**
   * One local row against the original sheet snapshot: an id the snapshot
   * lacks is appended; a matching row is overwritten in columns B to I only
   * when the local timestamp is strictly newer. Comparing a missing local
   * timestamp raises, which ends the direction.
   */
  function PushStep(s: PushOutcome, k: int, w: LocalRow, sheet: seq<SheetRow>): (t: PushOutcome)
    requires |sheet| <= |s.remote|
    ensures |t.remote| >= |s.remote|
  {
    match FirstMatch(sheet, k)
    case None => PushOutcome(true, s.remote + [SheetRow(Num(k), w.fields, w.updatedAt)])
    case Some(i) =>
      if w.updatedAt.None? then PushOutcome(false, s.remote)
      else if Newer(w.updatedAt.value, sheet[i].updatedAt) then
        PushOutcome(true, s.remote[i := s.remote[i].(fields := w.fields, updatedAt := w.updatedAt)])
      else s
  }

  /** The loop over the local keys `ks`, stopping at the first failure. */
  function PushLoop(ks: seq<int>, local: map<int, LocalRow>, sheet: seq<SheetRow>, s: PushOutcome): (t: PushOutcome)
    requires forall k :: k in ks ==> k in local
    requires |sheet| <= |s.remote|
    ensures |t.remote| >= |s.remote|
    decreases |ks|
  {
    if ks == [] || !s.completed then s
    else PushLoop(ks[1..], local, sheet, PushStep(s, ks[0], local[ks[0]], sheet))
  }

  /**
   * The whole local-to-remote direction: `sheet` is the snapshot taken
   * before the pass, `live` the sheet as it is now. Building the id index
   * of the snapshot fails on a repeated id, before anything is written.
   */
  function LocalToRemote(sheet: seq<SheetRow>, local: map<int, LocalRow>, live: seq<SheetRow>): (o: PushOutcome)
    requires |sheet| <= |live|
    ensures |o.remote| >= |live|
    ensures !DistinctIds(sheet) ==> o == PushOutcome(false, live)
  {
    if !DistinctIds(sheet) then PushOutcome(false, live)
    else PushLoop(Ascending(local.Keys), local, sheet, PushOutcome(true, live))
  }

  /* ---------------------------------------------------------------------- */
  /* One pass                                                                */

  datatype PassOutcome = PassOutcome(completed: bool, local: map<int, LocalRow>, remote: seq<SheetRow>)

  /**
   * Remote to local against snapshots of both stores, then local to remote
   * against the same sheet snapshot; a failure in the first direction means
   * the second never runs. A sheet without data rows reads as a frame with
   * no `updated_at` column, and parsing that column raises before either
   * direction runs.
   */
  function RunPass(local: map<int, LocalRow>, remote: seq<SheetRow>, now: int, rejected: set<int>): (o: PassOutcome)
    ensures |o.remote| >= |remote|
    ensures remote == [] ==> o == PassOutcome(false, local, remote)
    ensures HasNonIntegerId(remote) ==> !o.completed && o.local == local
  {
    if remote == [] then PassOutcome(false, local, remote)
    else
    var a := RemoteToLocal(remote, local, remote, remote, now, rejected);
    if !a.completed then PassOutcome(false, a.local, a.remote)
    else
      var b := LocalToRemote(remote, a.local, a.remote);
      PassOutcome(b.completed, a.local, b.remote)
  }
}
