/**
 * What the reconciliation pass guarantees, proved about the functions of
 * module Reconcile (and so, through their contracts, about the methods of
 * module Sync).
 */
module Properties {
  import opened Records
  import opened Reconcile

  /* ---------------------------------------------------------------------- */
  /* Reference definitions                                                   */

  /** The sheet rows whose id is a run of digits, in order. */
  function WellFormedRows(rows: seq<SheetRow>): (r: seq<SheetRow>)
    ensures forall i :: 0 <= i < |r| ==> IsDigitId(r[i].id)
    ensures forall x :: x in r <==> x in rows && IsDigitId(x.id)
    ensures |r| <= |rows|
    decreases |rows|
  {
    if rows == [] then []
    else if IsDigitId(rows[0].id) then [rows[0]] + WellFormedRows(rows[1..])
    else WellFormedRows(rows[1..])
  }

  /** Filtering distributes over concatenation: kept rows stay in order, with their repeats. */
  lemma {:induction false} WellFormedRowsAppend(a: seq<SheetRow>, b: seq<SheetRow>)
    ensures WellFormedRows(a + b) == WellFormedRows(a) + WellFormedRows(b)
    decreases |a|
  {
    if a == [] {
      assert a + b == b;
    } else {
      WellFormedRowsAppend(a[1..], b);
      WellFormedRowsAppendStep(a, b);
    }
  }

  /** The inductive step of WellFormedRowsAppend: distributing over the tail lifts to the whole. */
  lemma WellFormedRowsAppendStep(a: seq<SheetRow>, b: seq<SheetRow>)
    requires a != []
    requires WellFormedRows(a[1..] + b) == WellFormedRows(a[1..]) + WellFormedRows(b)
    ensures WellFormedRows(a + b) == WellFormedRows(a) + WellFormedRows(b)
  {
    var h := if IsDigitId(a[0].id) then [a[0]] else [];
    var wt, wb := WellFormedRows(a[1..]), WellFormedRows(b);
    WellFormedRowsUnfold(a);
    AppendTail(a, b);
    WellFormedRowsUnfold(a + b);
    AppendAssociative(h, wt, wb);
  }

  /** Concatenation of sequences is associative. */
  lemma AppendAssociative<T>(x: seq<T>, y: seq<T>, z: seq<T>)
    ensures x + (y + z) == (x + y) + z
  {
  }

  /** Appending to a non-empty sequence keeps its head and appends to its tail. */
  lemma AppendTail<T>(a: seq<T>, b: seq<T>)
    requires a != []
    ensures (a + b)[0] == a[0] && (a + b)[1..] == a[1..] + b
  {
  }

  /** One step of the filter: the first row is kept exactly when its id is a run of digits. */
  lemma WellFormedRowsUnfold(rows: seq<SheetRow>)
    requires rows != []
    ensures WellFormedRows(rows) == (if IsDigitId(rows[0].id) then [rows[0]] else []) + WellFormedRows(rows[1..])
  {
    if !IsDigitId(rows[0].id) {
      assert [] + WellFormedRows(rows[1..]) == WellFormedRows(rows[1..]);
    }
  }

  /** A single row is kept exactly when its id is a run of digits. */
  lemma WellFormedRowsSingle(x: SheetRow)
    ensures WellFormedRows([x]) == if IsDigitId(x.id) then [x] else []
  {
    assert [x][1..] == [];
  }

  /** The local row written for id `k` by the first sheet row with that id, if it writes. */
  function WriteFor(rows: seq<SheetRow>, snap: map<int, LocalRow>, now: int, k: int): Option<LocalRow> {
    match FirstMatch(rows, k)
    case None => None
    case Some(i) =>
      var d := Decide(rows[i], snap, now);
      if d.Writes() then Some(d.row) else None
  }

  /** Data row `j` of `all` receives a stamp while the rows `rows` are pulled. */
  predicate StampedRow(all: seq<SheetRow>, j: nat, rows: seq<SheetRow>, snap: map<int, LocalRow>,
                       now: int, rejected: set<int>)
    requires j < |all|
  {
    && all[j].id.Num?
    && FirstMatch(all, all[j].id.n) == Some(j)
    && all[j].id.n !in rejected
    && WriteFor(rows, snap, now, all[j].id.n).Some?
  }

  /** The local rows, in the order of `ks`, whose id the sheet snapshot lacks, as new sheet rows. */
  function Missing(ks: seq<int>, local: map<int, LocalRow>, sheet: seq<SheetRow>): (r: seq<SheetRow>)
    requires forall k :: k in ks ==> k in local
    ensures forall m :: 0 <= m < |r| ==>
      && r[m].id.Num? && r[m].id.n in ks && FirstMatch(sheet, r[m].id.n).None?
      && r[m] == SheetRow(r[m].id, local[r[m].id.n].fields, local[r[m].id.n].updatedAt)
    decreases |ks|
  {
    if ks == [] then []
    else
      var head := if FirstMatch(sheet, ks[0]).None?
        then [SheetRow(Num(ks[0]), local[ks[0]].fields, local[ks[0]].updatedAt)] else [];
      head + Missing(ks[1..], local, sheet)
  }

  /** Every key of `ks` that the snapshot lacks is among the rows to append. */
  lemma {:induction false} MissingComplete(ks: seq<int>, local: map<int, LocalRow>, sheet: seq<SheetRow>, k: int)
    requires forall k :: k in ks ==> k in local
    requires k in ks && FirstMatch(sheet, k).None?
    ensures exists m :: 0 <= m < |Missing(ks, local, sheet)| && Missing(ks, local, sheet)[m].id == Num(k)
    decreases |ks|
  {
    var r := Missing(ks, local, sheet);
    if ks[0] == k {
      assert r[0].id == Num(k);
    } else {
      assert k in ks[1..] by { assert ks == [ks[0]] + ks[1..]; }
      assert forall m :: m in ks[1..] ==> m in ks;
      MissingComplete(ks[1..], local, sheet, k);
      var rest := Missing(ks[1..], local, sheet);
      var m :| 0 <= m < |rest| && rest[m].id == Num(k);
      var h := |r| - |rest|;
      assert r == r[..h] + rest;
      assert r[h + m] == rest[m];
    }
  }

  /** Strictly increasing integer ids. */
  predicate IncreasingIds(r: seq<SheetRow>) {
    forall a, b :: 0 <= a < b < |r| ==> r[a].id.Num? && r[b].id.Num? && r[a].id.n < r[b].id.n
  }

  lemma IncreasingIdsCons(x: SheetRow, rest: seq<SheetRow>)
    requires x.id.Num? && IncreasingIds(rest)
    requires forall m :: 0 <= m < |rest| ==> rest[m].id.Num? && x.id.n < rest[m].id.n
    ensures IncreasingIds([x] + rest)
  {
    var r := [x] + rest;
    forall a, b | 0 <= a < b < |r| ensures r[a].id.Num? && r[b].id.Num? && r[a].id.n < r[b].id.n {
      assert r[b] == rest[b - 1];
      if a > 0 {
        assert r[a] == rest[a - 1];
      }
    }
  }

  lemma IncreasingTail(ks: seq<int>)
    requires ks != [] && forall i, j :: 0 <= i < j < |ks| ==> ks[i] < ks[j]
    ensures forall i, j :: 0 <= i < j < |ks[1..]| ==> ks[1..][i] < ks[1..][j]
    ensures forall m :: m in ks[1..] ==> ks[0] < m
  {
  }

  /** For keys in increasing order, the rows to append come in increasing id order. */
  lemma {:induction false} MissingSorted(ks: seq<int>, local: map<int, LocalRow>, sheet: seq<SheetRow>)
    requires forall k :: k in ks ==> k in local
    requires forall i, j :: 0 <= i < j < |ks| ==> ks[i] < ks[j]
    ensures IncreasingIds(Missing(ks, local, sheet))
    decreases |ks|
  {
    if ks != [] {
      var tail := ks[1..];
      IncreasingTail(ks);
      assert forall m :: m in tail ==> m in ks;
      MissingSorted(tail, local, sheet);
      var rest := Missing(tail, local, sheet);
      if FirstMatch(sheet, ks[0]).None? {
        var x := SheetRow(Num(ks[0]), local[ks[0]].fields, local[ks[0]].updatedAt);
        IncreasingIdsCons(x, rest);
        assert Missing(ks, local, sheet) == [x] + rest;
      } else {
        assert Missing(ks, local, sheet) == rest;
      }
    }
  }

  /** Sheet row `j` of the snapshot is older than the local row with its id. */
  predicate PushWanted(ks: seq<int>, local: map<int, LocalRow>, sheet: seq<SheetRow>, j: nat)
    requires forall k :: k in ks ==> k in local
  {
    && j < |sheet|
    && sheet[j].id.Num?
    && sheet[j].id.n in ks
    && local[sheet[j].id.n].updatedAt.Some?
    && Newer(local[sheet[j].id.n].updatedAt.value, sheet[j].updatedAt)
  }

  predicate NoRepeats(ks: seq<int>) {
    forall i, j :: 0 <= i < j < |ks| ==> ks[i] != ks[j]
  }

  /* ---------------------------------------------------------------------- */
  /* Small facts about rows and ids                                          */

  lemma DistinctNumIdsTail(rows: seq<SheetRow>)
    requires rows != [] && DistinctNumIds(rows)
    ensures DistinctNumIds(rows[1..])
    ensures rows[0].id.Num? ==> FirstMatch(rows[1..], rows[0].id.n).None?
  {
    if rows[0].id.Num? {
      forall j | 0 <= j < |rows[1..]|
        ensures rows[1..][j].id != rows[0].id
      {
        assert rows[1..][j] == rows[j + 1];
      }
    }
  }

  /** With distinct integer ids, the first match of a row's id is that row. */
  lemma FirstMatchOfDistinct(rows: seq<SheetRow>, j: nat)
    requires DistinctNumIds(rows) && j < |rows| && rows[j].id.Num?
    ensures FirstMatch(rows, rows[j].id.n) == Some(j)
  {
    var r := FirstMatch(rows, rows[j].id.n);
    assert r.Some?;
  }

  lemma FirstMatchTail(rows: seq<SheetRow>, k: int)
    requires rows != [] && rows[0].id != Num(k)
    ensures FirstMatch(rows, k) == match FirstMatch(rows[1..], k)
      case None => None
      case Some(j) => Some(j + 1)
  {
  }

  /** How the write for `k` depends on the first row and on the others. */
  lemma WriteForCons(rows: seq<SheetRow>, snap: map<int, LocalRow>, now: int, k: int)
    requires rows != [] && DistinctNumIds(rows)
    ensures rows[0].id == Num(k) ==>
      && WriteFor(rows[1..], snap, now, k).None?
      && WriteFor(rows, snap, now, k)
         == (if Decide(rows[0], snap, now).Writes() then Some(Decide(rows[0], snap, now).row) else None)
    ensures rows[0].id != Num(k) ==> WriteFor(rows, snap, now, k) == WriteFor(rows[1..], snap, now, k)
  {
    DistinctNumIdsTail(rows);
    if rows[0].id != Num(k) {
      FirstMatchTail(rows, k);
      match FirstMatch(rows[1..], k)
      case None =>
      case Some(j) => assert rows[j + 1] == rows[1..][j];
    }
  }

  /** A row that writes writes under its own id. */
  lemma DecideId(r: SheetRow, snap: map<int, LocalRow>, now: int)
    ensures Decide(r, snap, now).Writes() ==> r.id == Num(Decide(r, snap, now).id) && IsDigitId(r.id)
  {
  }

  lemma {:induction false} WriteForIsDigit(rows: seq<SheetRow>, snap: map<int, LocalRow>, now: int, k: int)
    ensures WriteFor(rows, snap, now, k).Some? ==> k >= 0 && k in SheetIds(rows)
  {
    match FirstMatch(rows, k)
    case None =>
    case Some(i) =>
      assert rows[i].id == Num(k);
  }

  /* ---------------------------------------------------------------------- */
  /* The remote-to-local loop                                                */

  /** Rows whose id is not a run of digits have no effect: no insert, no update, no stamp. */
  lemma {:induction false} MalformedRowsIgnored(rows: seq<SheetRow>, p: Progress, snap: map<int, LocalRow>,
                                                all: seq<SheetRow>, now: int, rejected: set<int>)
    requires |all| <= |p.remote|
    ensures PullLoop(rows, p, snap, all, now, rejected) == PullLoop(WellFormedRows(rows), p, snap, all, now, rejected)
    decreases |rows|
  {
    if rows != [] {
      var p' := PullStep(p, rows[0], snap, all, now, rejected);
      MalformedRowsIgnored(rows[1..], p', snap, all, now, rejected);
      if IsDigitId(rows[0].id) {
        var w := [rows[0]] + WellFormedRows(rows[1..]);
        assert w[1..] == WellFormedRows(rows[1..]);
      } else {
        assert p' == p;
      }
    }
  }

  /** The loop's effect on the local table, one id at a time. */
  lemma {:induction false} PullLoopLocalAt(rows: seq<SheetRow>, p: Progress, snap: map<int, LocalRow>,
                                           all: seq<SheetRow>, now: int, rejected: set<int>, k: int)
    requires |all| <= |p.remote|
    requires DistinctNumIds(rows)
    ensures var q := PullLoop(rows, p, snap, all, now, rejected);
      && (k in q.local <==> k in p.local || WriteFor(rows, snap, now, k).Some?)
      && (k in q.local ==> q.local[k] == if WriteFor(rows, snap, now, k).Some? then WriteFor(rows, snap, now, k).value else p.local[k])
    decreases |rows|
  {
    if rows != [] {
      var p' := PullStep(p, rows[0], snap, all, now, rejected);
      DistinctNumIdsTail(rows);
      PullLoopLocalAt(rows[1..], p', snap, all, now, rejected, k);
      WriteForCons(rows, snap, now, k);
      DecideId(rows[0], snap, now);
    }
  }

  /** The loop stamps each written id exactly once and nothing else. */
  lemma {:induction false} PullLoopStampsAt(rows: seq<SheetRow>, p: Progress, snap: map<int, LocalRow>,
                                            all: seq<SheetRow>, now: int, rejected: set<int>, k: int)
    requires |all| <= |p.remote|
    requires DistinctNumIds(rows)
    ensures multiset(PullLoop(rows, p, snap, all, now, rejected).stamped)[k]
         == multiset(p.stamped)[k] + (if WriteFor(rows, snap, now, k).Some? then 1 else 0)
    decreases |rows|
  {
    if rows != [] {
      var p' := PullStep(p, rows[0], snap, all, now, rejected);
      DistinctNumIdsTail(rows);
      PullLoopStampsAt(rows[1..], p', snap, all, now, rejected, k);
      WriteForCons(rows, snap, now, k);
      DecideId(rows[0], snap, now);
    }
  }

  /** The loop's effect on one row of the live sheet: at most its timestamp cell becomes "now". */
  lemma {:induction false} PullLoopRemoteAt(rows: seq<SheetRow>, p: Progress, snap: map<int, LocalRow>,
                                            all: seq<SheetRow>, now: int, rejected: set<int>, j: nat)
    requires |all| <= |p.remote| && j < |p.remote|
    requires DistinctNumIds(rows)
    ensures PullLoop(rows, p, snap, all, now, rejected).remote[j]
         == if j < |all| && StampedRow(all, j, rows, snap, now, rejected)
            then p.remote[j].(updatedAt := Some(now)) else p.remote[j]
    decreases |rows|
  {
    if rows != [] {
      var p' := PullStep(p, rows[0], snap, all, now, rejected);
      DistinctNumIdsTail(rows);
      PullLoopRemoteAt(rows[1..], p', snap, all, now, rejected, j);
      DecideId(rows[0], snap, now);
      if j < |all| && all[j].id.Num? {
        WriteForCons(rows, snap, now, all[j].id.n);
      }
    }
  }

  /* ---------------------------------------------------------------------- */
  /* Remote to local, as a whole                                             */

  /** An id only the sheet has is inserted with the sheet row's fields and timestamp, or "now" when it has none. */
  lemma InsertRemoteOnly(sheet: seq<SheetRow>, snap: map<int, LocalRow>, all: seq<SheetRow>, live: seq<SheetRow>,
                         now: int, rejected: set<int>, i: nat)
    requires |all| <= |live| && DistinctNumIds(sheet) && !HasNonIntegerId(sheet)
    requires i < |sheet| && IsDigitId(sheet[i].id) && sheet[i].id.n !in snap
    ensures var o := RemoteToLocal(sheet, snap, all, live, now, rejected);
      && o.completed
      && sheet[i].id.n in o.local
      && o.local[sheet[i].id.n] == LocalRow(sheet[i].fields, Some(sheet[i].updatedAt.GetOr(now)))
  {
    var k := sheet[i].id.n;
    FirstMatchOfDistinct(sheet, i);
    PullLoopLocalAt(sheet, Progress(snap, live, []), snap, all, now, rejected, k);
    assert k in SheetIds(sheet);
  }

  /**
   * An id both stores have is overwritten, all seven fields and the
   * timestamp, exactly when the sheet's timestamp, or "now" when it is
   * missing, is strictly newer than a present local timestamp; otherwise,
   * and whenever the local timestamp is missing, the local row stays as it
   * was.
   */
  lemma StrictLastWriteWins(sheet: seq<SheetRow>, snap: map<int, LocalRow>, all: seq<SheetRow>, live: seq<SheetRow>,
                            now: int, rejected: set<int>, i: nat)
    requires |all| <= |live| && DistinctNumIds(sheet) && !HasNonIntegerId(sheet)
    requires i < |sheet| && IsDigitId(sheet[i].id) && sheet[i].id.n in snap
    ensures var o := RemoteToLocal(sheet, snap, all, live, now, rejected);
      var k := sheet[i].id.n;
      var t := sheet[i].updatedAt.GetOr(now);
      && o.completed
      && k in o.local
      && o.local[k] == if Newer(t, snap[k].updatedAt) then LocalRow(sheet[i].fields, Some(t)) else snap[k]
  {
    var k := sheet[i].id.n;
    FirstMatchOfDistinct(sheet, i);
    PullLoopLocalAt(sheet, Progress(snap, live, []), snap, all, now, rejected, k);
    assert k in SheetIds(sheet);
  }

  /**
   * Deletion is the set difference: a local id survives exactly when the
   * sheet still has it, and no id the local table lacked appears unless a
   * digit row of the sheet carries it.
   */
  lemma DeleteBySetDifference(sheet: seq<SheetRow>, snap: map<int, LocalRow>, all: seq<SheetRow>, live: seq<SheetRow>,
                              now: int, rejected: set<int>, k: int)
    requires |all| <= |live| && DistinctNumIds(sheet) && !HasNonIntegerId(sheet)
    ensures var o := RemoteToLocal(sheet, snap, all, live, now, rejected);
      && o.completed
      && (k in snap ==> (k in o.local <==> k in SheetIds(sheet)))
      && (k !in snap ==> (k in o.local <==> k >= 0 && k in SheetIds(sheet)))
      && (k in snap && k in SheetIds(sheet) && k < 0 ==> o.local[k] == snap[k])
  {
    PullLoopLocalAt(sheet, Progress(snap, live, []), snap, all, now, rejected, k);
    WriteForIsDigit(sheet, snap, now, k);
    if k in SheetIds(sheet) && k >= 0 && k !in snap {
      var i :| 0 <= i < |sheet| && sheet[i].id.Num? && sheet[i].id.n == k;
      FirstMatchOfDistinct(sheet, i);
    }
  }

  /** One stamp per insert or update, none for a skipped or up-to-date row. */
  lemma StampOncePerWrite(sheet: seq<SheetRow>, snap: map<int, LocalRow>, all: seq<SheetRow>, live: seq<SheetRow>,
                          now: int, rejected: set<int>, k: int)
    requires |all| <= |live| && DistinctNumIds(sheet)
    ensures var o := RemoteToLocal(sheet, snap, all, live, now, rejected);
      multiset(o.stamped)[k] == if exists i :: 0 <= i < |sheet| && sheet[i].id == Num(k) && Decide(sheet[i], snap, now).Writes()
                                then 1 else 0
  {
    PullLoopStampsAt(sheet, Progress(snap, live, []), snap, all, now, rejected, k);
    if i :| 0 <= i < |sheet| && sheet[i].id == Num(k) && Decide(sheet[i], snap, now).Writes() {
      FirstMatchOfDistinct(sheet, i);
    } else {
      match FirstMatch(sheet, k)
      case None =>
      case Some(i) =>
    }
  }

  /**
   * With the sheet read as both snapshots and as the live sheet (the
   * script's call order), exactly the rows that were inserted or updated
   * and whose stamp was accepted get "now" in their timestamp cell; every
   * other cell of the sheet is unchanged.
   */
  lemma StampsOnSheet(sheet: seq<SheetRow>, snap: map<int, LocalRow>, now: int, rejected: set<int>, j: nat)
    requires DistinctNumIds(sheet) && j < |sheet|
    ensures var o := RemoteToLocal(sheet, snap, sheet, sheet, now, rejected);
      && |o.remote| == |sheet|
      && o.remote[j] == if Decide(sheet[j], snap, now).Writes() && sheet[j].id.n !in rejected
                        then sheet[j].(updatedAt := Some(now)) else sheet[j]
  {
    PullLoopRemoteAt(sheet, Progress(snap, sheet, []), snap, sheet, now, rejected, j);
    if sheet[j].id.Num? {
      FirstMatchOfDistinct(sheet, j);
    }
  }

  /* ---------------------------------------------------------------------- */
  /* The local-to-remote loop                                                */

  /** Rows below the snapshot's last row are never rewritten by the loop. */
  lemma {:induction false} PushLoopFrozen(ks: seq<int>, local: map<int, LocalRow>, sheet: seq<SheetRow>,
                                          s: PushOutcome, j: nat)
    requires forall k :: k in ks ==> k in local
    requires |sheet| <= j < |s.remote|
    ensures PushLoop(ks, local, sheet, s).remote[j] == s.remote[j]
    decreases |ks|
  {
    if ks != [] && s.completed {
      PushLoopFrozen(ks[1..], local, sheet, PushStep(s, ks[0], local[ks[0]], sheet), j);
    }
  }

  /** No row is removed and every existing row keeps its id and position. */
  lemma {:induction false} PushLoopKeepsRows(ks: seq<int>, local: map<int, LocalRow>, sheet: seq<SheetRow>,
                                             s: PushOutcome, j: nat)
    requires forall k :: k in ks ==> k in local
    requires |sheet| <= |s.remote| && j < |s.remote|
    ensures PushLoop(ks, local, sheet, s).remote[j].id == s.remote[j].id
    decreases |ks|
  {
    if ks != [] && s.completed {
      PushLoopKeepsRows(ks[1..], local, sheet, PushStep(s, ks[0], local[ks[0]], sheet), j);
    }
  }

  /**
   * A snapshot row is rewritten only when the local row with its id is
   * strictly newer, and, when the loop completes, every such row is
   * rewritten in columns B to I with the local values.
   */
  lemma {:induction false} PushLoopRowAt(ks: seq<int>, local: map<int, LocalRow>, sheet: seq<SheetRow>,
                                         s: PushOutcome, j: nat)
    requires forall k :: k in ks ==> k in local
    requires DistinctIds(sheet) && NoRepeats(ks)
    requires |sheet| <= |s.remote| && j < |s.remote|
    ensures var t := PushLoop(ks, local, sheet, s);
      && (!PushWanted(ks, local, sheet, j) ==> t.remote[j] == s.remote[j])
      && (s.completed && t.completed && PushWanted(ks, local, sheet, j) ==>
            var w := local[sheet[j].id.n];
            t.remote[j] == s.remote[j].(fields := w.fields, updatedAt := w.updatedAt))
    decreases |ks|
  {
    if ks != [] && s.completed {
      var k := ks[0];
      var s' := PushStep(s, k, local[k], sheet);
      assert forall m :: m in ks[1..] ==> m in ks;
      assert NoRepeats(ks[1..]) by {
        forall a, b | 0 <= a < b < |ks[1..]| ensures ks[1..][a] != ks[1..][b] {
          assert ks[1..][a] == ks[a + 1] && ks[1..][b] == ks[b + 1];
        }
      }
      PushLoopRowAt(ks[1..], local, sheet, s', j);
      if j < |sheet| && sheet[j].id.Num? {
        assert sheet[j].id.n in ks[1..] <==> sheet[j].id.n in ks && sheet[j].id.n != k by {
          if sheet[j].id.n == k {
            forall a | 0 <= a < |ks[1..]| ensures ks[1..][a] != k {
              assert ks[1..][a] == ks[a + 1];
            }
          }
          assert ks == [k] + ks[1..];
        }
        if sheet[j].id.n == k {
          FirstMatchOfDistinct(sheet, j);
        }
      }
    }
  }

  /**
   * The rows appended so far are always a prefix of the missing local rows
   * in key order, and all of them once the loop completes.
   */
  lemma {:induction false} PushLoopAppends(ks: seq<int>, local: map<int, LocalRow>, sheet: seq<SheetRow>,
                                           s: PushOutcome)
    requires forall k :: k in ks ==> k in local
    requires |sheet| <= |s.remote|
    ensures var t := PushLoop(ks, local, sheet, s);
      && t.remote[|s.remote|..] <= Missing(ks, local, sheet)
      && (s.completed && t.completed ==> t.remote[|s.remote|..] == Missing(ks, local, sheet))
    decreases |ks|
  {
    if ks != [] && s.completed {
      var k := ks[0];
      var s' := PushStep(s, k, local[k], sheet);
      var t := PushLoop(ks, local, sheet, s);
      assert forall m :: m in ks[1..] ==> m in ks;
      PushLoopAppends(ks[1..], local, sheet, s');
      assert t == PushLoop(ks[1..], local, sheet, s');
      if FirstMatch(sheet, k).None? {
        var row := SheetRow(Num(k), local[k].fields, local[k].updatedAt);
        assert s'.remote == s.remote + [row];
        PushLoopFrozen(ks[1..], local, sheet, s', |s.remote|);
        assert t.remote[|s.remote|..] == [row] + t.remote[|s'.remote|..];
        assert Missing(ks, local, sheet) == [row] + Missing(ks[1..], local, sheet);
      } else {
        assert Missing(ks, local, sheet) == Missing(ks[1..], local, sheet);
      }
    }
  }

  /** The loop completes exactly when no local row lacking a timestamp is matched in the snapshot. */
  lemma {:induction false} PushLoopCompletes(ks: seq<int>, local: map<int, LocalRow>, sheet: seq<SheetRow>,
                                             s: PushOutcome)
    requires forall k :: k in ks ==> k in local
    requires |sheet| <= |s.remote| && s.completed
    ensures PushLoop(ks, local, sheet, s).completed
        <==> forall k :: k in ks && FirstMatch(sheet, k).Some? ==> local[k].updatedAt.Some?
    decreases |ks|
  {
    if ks != [] {
      var k := ks[0];
      var s' := PushStep(s, k, local[k], sheet);
      assert forall m :: m in ks <==> m == k || m in ks[1..];
      if s'.completed {
        PushLoopCompletes(ks[1..], local, sheet, s');
      }
    }
  }

  /* ---------------------------------------------------------------------- */
  /* Local to remote, as a whole                                             */

  lemma AscendingFacts(local: map<int, LocalRow>)
    ensures forall k :: k in Ascending(local.Keys) ==> k in local
    ensures NoRepeats(Ascending(local.Keys))
  {
    var ks := Ascending(local.Keys);
    assert forall i, j :: 0 <= i < j < |ks| ==> ks[i] < ks[j];
  }

  /** The local-to-remote direction never removes a sheet row and keeps the order of existing rows. */
  lemma NeverDeletesRemoteRows(sheet: seq<SheetRow>, local: map<int, LocalRow>, live: seq<SheetRow>, j: nat)
    requires |sheet| <= |live| && j < |live|
    ensures var o := LocalToRemote(sheet, local, live);
      |o.remote| >= |live| && o.remote[j].id == live[j].id
  {
    AscendingFacts(local);
    if DistinctIds(sheet) {
      PushLoopKeepsRows(Ascending(local.Keys), local, sheet, PushOutcome(true, live), j);
    }
  }

  /**
   * Local ids missing from the snapshot are appended after the existing
   * rows, in key order, with the local fields and timestamp; a partial run
   * has appended a prefix of them.
   */
  lemma AppendsMissingIds(sheet: seq<SheetRow>, local: map<int, LocalRow>, live: seq<SheetRow>)
    requires |sheet| <= |live|
    ensures var o := LocalToRemote(sheet, local, live);
      && o.remote[|live|..] <= Missing(Ascending(local.Keys), local, sheet)
      && (o.completed ==> o.remote[|live|..] == Missing(Ascending(local.Keys), local, sheet))
  {
    AscendingFacts(local);
    if DistinctIds(sheet) {
      PushLoopAppends(Ascending(local.Keys), local, sheet, PushOutcome(true, live));
    }
  }

  /**
   * When the direction completes, every local id the snapshot lacks has
   * been appended, and the appended rows come in increasing id order.
   */
  lemma AppendsEveryMissingId(sheet: seq<SheetRow>, local: map<int, LocalRow>, live: seq<SheetRow>, k: int)
    requires |sheet| <= |live|
    ensures var o := LocalToRemote(sheet, local, live);
      && (o.completed ==> IncreasingIds(o.remote[|live|..]))
      && (o.completed && k in local && FirstMatch(sheet, k).None? ==>
            exists m :: |live| <= m < |o.remote| && o.remote[m].id == Num(k))
  {
    var o := LocalToRemote(sheet, local, live);
    var ks := Ascending(local.Keys);
    AscendingFacts(local);
    AppendsMissingIds(sheet, local, live);
    MissingSorted(ks, local, sheet);
    if o.completed && k in local && FirstMatch(sheet, k).None? {
      MissingComplete(ks, local, sheet, k);
      var ms := Missing(ks, local, sheet);
      var m :| 0 <= m < |ms| && ms[m].id == Num(k);
      assert o.remote[|live| + m] == o.remote[|live|..][m];
    }
  }

  /**
   * A snapshot row is overwritten (columns B to I) only when the local row
   * with its id has a strictly newer timestamp, and every such row is
   * overwritten when the direction completes.
   */
  lemma OverwritesOnlyWhenNewer(sheet: seq<SheetRow>, local: map<int, LocalRow>, live: seq<SheetRow>, j: nat)
    requires |sheet| <= |live| && j < |live|
    ensures var o := LocalToRemote(sheet, local, live);
      var wanted := PushWanted(Ascending(local.Keys), local, sheet, j);
      && (!wanted ==> o.remote[j] == live[j])
      && (o.completed && wanted ==>
            o.remote[j] == live[j].(fields := local[sheet[j].id.n].fields, updatedAt := local[sheet[j].id.n].updatedAt))
  {
    AscendingFacts(local);
    if DistinctIds(sheet) {
      PushLoopRowAt(Ascending(local.Keys), local, sheet, PushOutcome(true, live), j);
    }
  }

  /** The direction fails exactly on a repeated snapshot id or on a matched local row without a timestamp. */
  lemma LocalToRemoteCompletes(sheet: seq<SheetRow>, local: map<int, LocalRow>, live: seq<SheetRow>)
    requires |sheet| <= |live|
    ensures LocalToRemote(sheet, local, live).completed
        <==> DistinctIds(sheet) && forall k :: k in local && FirstMatch(sheet, k).Some? ==> local[k].updatedAt.Some?
  {
    AscendingFacts(local);
    if DistinctIds(sheet) {
      PushLoopCompletes(Ascending(local.Keys), local, sheet, PushOutcome(true, live));
    }
  }

  /* ---------------------------------------------------------------------- */
  /* The pass                                                                */

  lemma DistinctWhenAllIntegers(rows: seq<SheetRow>)
    requires DistinctNumIds(rows) && !HasNonIntegerId(rows)
    ensures DistinctIds(rows)
  {
    forall i, j | 0 <= i < j < |rows| ensures rows[i].id != rows[j].id {
      assert rows[i].id.Num?;
    }
  }

  /** A snapshot row whose local counterpart is not strictly newer is neither rewritten nor appended again. */
  lemma PushLeavesRow(sheet: seq<SheetRow>, local: map<int, LocalRow>, live: seq<SheetRow>, j: nat)
    requires |sheet| <= |live| && j < |sheet| && sheet[j].id.Num? && sheet[j].id.n in local
    requires local[sheet[j].id.n].updatedAt.Some? ==> !Newer(local[sheet[j].id.n].updatedAt.value, sheet[j].updatedAt)
    ensures var o := LocalToRemote(sheet, local, live);
      && |o.remote| >= |live|
      && o.remote[j] == live[j]
      && forall m :: |live| <= m < |o.remote| ==> o.remote[m].id != sheet[j].id
  {
    OverwritesOnlyWhenNewer(sheet, local, live, j);
    AppendsMissingIds(sheet, local, live);
    var o := LocalToRemote(sheet, local, live);
    var ms := Missing(Ascending(local.Keys), local, sheet);
    forall m | |live| <= m < |o.remote| ensures o.remote[m].id != sheet[j].id {
      assert o.remote[m] == o.remote[|live|..][m - |live|];
      assert o.remote[m] == ms[m - |live|];
    }
  }

  /** The pass, split into its two directions. */
  lemma RunPassSteps(local: map<int, LocalRow>, remote: seq<SheetRow>, now: int, rejected: set<int>)
    ensures var a := RemoteToLocal(remote, local, remote, remote, now, rejected);
      && |a.remote| == |remote|
      && RunPass(local, remote, now, rejected)
         == if remote == [] then PassOutcome(false, local, remote)
            else if a.completed then PassOutcome(LocalToRemote(remote, a.local, a.remote).completed, a.local,
                                            LocalToRemote(remote, a.local, a.remote).remote)
            else PassOutcome(false, a.local, a.remote)
  {
  }

  /**
   * No write-back of a freshly copied row: a sheet row that was just
   * inserted into or updated in the local table is neither overwritten nor
   * appended again by the local-to-remote direction of the same pass.
   */
  lemma NoWriteBack(local: map<int, LocalRow>, remote: seq<SheetRow>, now: int, rejected: set<int>, j: nat)
    requires DistinctNumIds(remote) && !HasNonIntegerId(remote)
    requires j < |remote| && Decide(remote[j], local, now).Writes()
    ensures var a := RemoteToLocal(remote, local, remote, remote, now, rejected);
      var o := RunPass(local, remote, now, rejected);
      && a.completed
      && |o.remote| >= |remote|
      && o.remote[j] == a.remote[j]
      && forall m :: |remote| <= m < |o.remote| ==> o.remote[m].id != remote[j].id
  {
    var a := RemoteToLocal(remote, local, remote, remote, now, rejected);
    DecideId(remote[j], local, now);
    var k := remote[j].id.n;
    FirstMatchOfDistinct(remote, j);
    PullLoopLocalAt(remote, Progress(local, remote, []), local, remote, now, rejected, k);
    assert k in SheetIds(remote);
    assert a.local[k] == Decide(remote[j], local, now).row;
    RunPassSteps(local, remote, now, rejected);
    PushLeavesRow(remote, a.local, a.remote, j);
  }

  /** Every local row is matched in the snapshot, carries a timestamp, and is not newer than its match. */
  predicate MatchedAndNotNewer(sheet: seq<SheetRow>, local: map<int, LocalRow>) {
    forall k :: k in local ==>
      && FirstMatch(sheet, k).Some?
      && local[k].updatedAt.Some?
      && !Newer(local[k].updatedAt.value, sheet[FirstMatch(sheet, k).value].updatedAt)
  }

  lemma PushIsNoopRow(sheet: seq<SheetRow>, local: map<int, LocalRow>, live: seq<SheetRow>, j: nat)
    requires |sheet| <= |live| && DistinctIds(sheet) && MatchedAndNotNewer(sheet, local) && j < |live|
    ensures LocalToRemote(sheet, local, live).remote[j] == live[j]
  {
    NeverDeletesRemoteRows(sheet, local, live, j);
    OverwritesOnlyWhenNewer(sheet, local, live, j);
    if j < |sheet| && sheet[j].id.Num? && sheet[j].id.n in local {
      FirstMatchOfDistinct(sheet, j);
    }
  }

  lemma PushIsNoopLength(sheet: seq<SheetRow>, local: map<int, LocalRow>, live: seq<SheetRow>)
    requires |sheet| <= |live| && DistinctIds(sheet) && MatchedAndNotNewer(sheet, local)
    ensures LocalToRemote(sheet, local, live).completed
    ensures |LocalToRemote(sheet, local, live).remote| == |live|
  {
    var o := LocalToRemote(sheet, local, live);
    LocalToRemoteCompletes(sheet, local, live);
    AppendsMissingIds(sheet, local, live);
    AscendingFacts(local);
    MissingEmpty(Ascending(local.Keys), local, sheet);
    assert |o.remote[|live|..]| == 0;
  }

  lemma {:induction false} MissingEmpty(ks: seq<int>, local: map<int, LocalRow>, sheet: seq<SheetRow>)
    requires forall k :: k in ks ==> k in local && FirstMatch(sheet, k).Some?
    ensures Missing(ks, local, sheet) == []
    decreases |ks|
  {
    if ks != [] {
      assert forall m :: m in ks[1..] ==> m in ks;
      MissingEmpty(ks[1..], local, sheet);
    }
  }

  /** When every local row is matched in the snapshot and none is newer, local to remote writes nothing. */
  lemma PushIsNoop(sheet: seq<SheetRow>, local: map<int, LocalRow>, live: seq<SheetRow>)
    requires |sheet| <= |live| && DistinctIds(sheet) && MatchedAndNotNewer(sheet, local)
    ensures LocalToRemote(sheet, local, live) == PushOutcome(true, live)
  {
    var o := LocalToRemote(sheet, local, live);
    PushIsNoopLength(sheet, local, live);
    forall j | 0 <= j < |live| ensures o.remote[j] == live[j] {
      PushIsNoopRow(sheet, local, live, j);
    }
  }

  /** Remote to local from an empty table: every digit-id row is inserted and stamped. */
  lemma PullFromEmpty(remote: seq<SheetRow>, now: int, rejected: set<int>)
    requires DistinctNumIds(remote) && !HasNonIntegerId(remote)
    ensures var a := RemoteToLocal(remote, map[], remote, remote, now, rejected);
      && a.completed
      && (forall k :: k in a.local <==> k >= 0 && k in SheetIds(remote))
      && (forall i :: 0 <= i < |remote| && IsDigitId(remote[i].id) ==>
            a.local[remote[i].id.n] == LocalRow(remote[i].fields, Some(remote[i].updatedAt.GetOr(now))))
      && |a.remote| == |remote|
      && (forall j :: 0 <= j < |remote| ==>
            a.remote[j] == if IsDigitId(remote[j].id) && remote[j].id.n !in rejected
                           then remote[j].(updatedAt := Some(now)) else remote[j])
  {
    var snap: map<int, LocalRow> := map[];
    var a := RemoteToLocal(remote, snap, remote, remote, now, rejected);
    forall k ensures k in a.local <==> k >= 0 && k in SheetIds(remote) {
      DeleteBySetDifference(remote, snap, remote, remote, now, rejected, k);
    }
    forall i | 0 <= i < |remote| && IsDigitId(remote[i].id)
      ensures a.local[remote[i].id.n] == LocalRow(remote[i].fields, Some(remote[i].updatedAt.GetOr(now)))
    {
      InsertRemoteOnly(remote, snap, remote, remote, now, rejected, i);
    }
    forall j | 0 <= j < |remote|
      ensures a.remote[j] == if IsDigitId(remote[j].id) && remote[j].id.n !in rejected
                             then remote[j].(updatedAt := Some(now)) else remote[j]
    {
      StampsOnSheet(remote, snap, now, rejected, j);
    }
  }

  /**
   * The script as shipped: the local table is recreated empty, so one pass
   * copies every digit-id row into the local table (timestamp, or "now"
   * when it has none), stamps each of those rows on the sheet unless the
   * write is rejected, and writes nothing else to the sheet. It fails only
   * on a sheet without data rows, leaving the recreated table empty.
   */
  lemma ShippedRun(remote: seq<SheetRow>, now: int, rejected: set<int>)
    requires DistinctNumIds(remote) && !HasNonIntegerId(remote)
    ensures var o := RunPass(map[], remote, now, rejected);
      && (o.completed <==> remote != [])
      && (forall k :: k in o.local <==> k >= 0 && k in SheetIds(remote))
      && (forall i :: 0 <= i < |remote| && IsDigitId(remote[i].id) ==>
            o.local[remote[i].id.n] == LocalRow(remote[i].fields, Some(remote[i].updatedAt.GetOr(now))))
      && |o.remote| == |remote|
      && (forall j :: 0 <= j < |remote| ==>
            o.remote[j] == if IsDigitId(remote[j].id) && remote[j].id.n !in rejected
                           then remote[j].(updatedAt := Some(now)) else remote[j])
  {
    var a := RemoteToLocal(remote, map[], remote, remote, now, rejected);
    PullFromEmpty(remote, now, rejected);
    DistinctWhenAllIntegers(remote);
    forall k | k in a.local
      ensures FirstMatch(remote, k).Some? && a.local[k].updatedAt.Some?
      ensures !Newer(a.local[k].updatedAt.value, remote[FirstMatch(remote, k).value].updatedAt)
    {
      var i :| 0 <= i < |remote| && remote[i].id.Num? && remote[i].id.n == k;
      FirstMatchOfDistinct(remote, i);
    }
    assert MatchedAndNotNewer(remote, a.local);
    PushIsNoop(remote, a.local, a.remote);
    RunPassSteps(map[], remote, now, rejected);
  }

  /**
   * The stores do not settle: after a run, a copied row whose stamp was
   * accepted carries "now" on the sheet while the table keeps the older
   * timestamp, so a further pass over the same stores without recreating the
   * table decides to update that row (and stamp it) again.
   */
  lemma RunDoesNotSettle(remote: seq<SheetRow>, now: int, rejected: set<int>, j: nat, later: int)
    requires DistinctNumIds(remote) && !HasNonIntegerId(remote)
    requires j < |remote| && IsDigitId(remote[j].id) && remote[j].id.n !in rejected
    requires remote[j].updatedAt.Some? && remote[j].updatedAt.value < now
    ensures var o := RunPass(map[], remote, now, rejected);
      Decide(o.remote[j], o.local, later).Update?
  {
    ShippedRun(remote, now, rejected);
  }

  /** Every id the sheet-to-table loop leaves in the table was there before or is carried by some row. */
  lemma {:induction false} PullLoopKeysFromSheet(rows: seq<SheetRow>, p: Progress, snap: map<int, LocalRow>,
                                                 all: seq<SheetRow>, now: int, rejected: set<int>, k: int)
    requires |all| <= |p.remote|
    ensures k in PullLoop(rows, p, snap, all, now, rejected).local ==> k in p.local || FirstMatch(rows, k).Some?
    decreases |rows|
  {
    if rows != [] {
      var p' := PullStep(p, rows[0], snap, all, now, rejected);
      PullLoopKeysFromSheet(rows[1..], p', snap, all, now, rejected, k);
      DecideId(rows[0], snap, now);
      match FirstMatch(rows[1..], k)
      case None =>
      case Some(j) => assert rows[j + 1] == rows[1..][j];
    }
  }

  /** After a completed sheet-to-table direction, every local id is an integer id of the sheet. */
  lemma PulledKeysMatched(local: map<int, LocalRow>, remote: seq<SheetRow>, now: int, rejected: set<int>)
    ensures var a := RemoteToLocal(remote, local, remote, remote, now, rejected);
      a.completed ==> forall k :: k in a.local ==> FirstMatch(remote, k).Some?
  {
    var a := RemoteToLocal(remote, local, remote, remote, now, rejected);
    if a.completed {
      forall k | k in a.local ensures FirstMatch(remote, k).Some? {
        PullLoopKeysFromSheet(remote, Progress(local, remote, []), local, remote, now, rejected, k);
        if k in SheetIds(remote) {
          var i :| 0 <= i < |remote| && remote[i].id.Num? && remote[i].id.n == k;
          assert remote[i].id == Num(k);
        }
      }
    }
  }

  /**
   * In the script's call order nothing is ever appended to the sheet: the
   * deletions have already removed every local id that the sheet snapshot
   * lacks, so the pass keeps the sheet's length and every row's id.
   */
  lemma PassNeverAppends(local: map<int, LocalRow>, remote: seq<SheetRow>, now: int, rejected: set<int>)
    ensures var o := RunPass(local, remote, now, rejected);
      && |o.remote| == |remote|
      && forall j :: 0 <= j < |remote| ==> o.remote[j].id == remote[j].id
  {
    RunPassSteps(local, remote, now, rejected);
    if remote != [] {
      var a := RemoteToLocal(remote, local, remote, remote, now, rejected);
      if a.completed {
        PulledKeysMatched(local, remote, now, rejected);
        AscendingFacts(a.local);
        MissingEmpty(Ascending(a.local.Keys), a.local, remote);
        AppendsMissingIds(remote, a.local, a.remote);
        var b := LocalToRemote(remote, a.local, a.remote);
        assert |b.remote[|a.remote|..]| == 0;
        forall j | 0 <= j < |remote| ensures b.remote[j].id == remote[j].id {
          NeverDeletesRemoteRows(remote, a.local, a.remote, j);
        }
      }
    }
  }

  /**
   * A record only the local table has is deleted and never pushed: after
   * the pass its id is neither in the table nor on the sheet.
   */
  lemma LocalOnlyDropped(local: map<int, LocalRow>, remote: seq<SheetRow>, now: int, rejected: set<int>, k: int)
    requires remote != [] && !HasNonIntegerId(remote)
    requires k in local && k !in SheetIds(remote)
    ensures var o := RunPass(local, remote, now, rejected);
      && k !in o.local
      && forall j :: 0 <= j < |o.remote| ==> o.remote[j].id != Num(k)
  {
    PassNeverAppends(local, remote, now, rejected);
    RunPassSteps(local, remote, now, rejected);
  }
}
