/**
 Batched SQLite commits (lib/report/sqlite_report.py, lib/report/factory.py) under
 the threaded fuzzer and its pause (lib/core/fuzzer.py), up to the session export
 (lib/controller/controller.py): a saved session must not be ahead of the durable
 report rows.
 */
module SqliteExport {
  import opened Wrappers

  type Path = string

  datatype Row = Row(path: Path, status: nat)

  // ------------------------------------------------------------------- the report

  /** Rows committed to the database file, and rows of the open transaction. */
  datatype Db = Db(durable: seq<Row>, open_: seq<Row>)

  function Commit(db: Db): Db {
    Db(db.durable + db.open_, [])
  }

  function AfterSave(db: Db, row: Row, batch: nat): Db {
    var written := db.(open_ := db.open_ + [row]);
    if |written.open_| >= batch then Commit(written) else written
  }

  class SQLiteReport {
    const batch: nat
    var db: Db
    var pendingWrites: nat
    ghost var saved: seq<Row>

    /** The durable rows are a prefix of the saved ones, missing fewer than a batch. */
    ghost predicate Valid()
      reads this
    {
      && db.durable + db.open_ == saved
      && |db.open_| == pendingWrites < batch
    }

    constructor (batch: nat, existing: seq<Row>)
      requires batch >= 1
      ensures Valid() && this.batch == batch && db == Db(existing, []) && saved == existing
    {
      this.batch := batch;
      db := Db(existing, []);
      pendingWrites := 0;
      saved := existing;
    }

    /** A batch size below one is refused. */
    static method Open(batch: int, existing: seq<Row>) returns (r: Result<SQLiteReport, string>)
      ensures r.Ok? <==> batch >= 1
      ensures r.Ok? ==> fresh(r.value) && r.value.Valid() && r.value.batch == batch && r.value.db == Db(existing, [])
    {
      if batch < 1 {
        return Err("SQLite commit batch size must be a positive integer");
      }
      var report := new SQLiteReport(batch, existing);
      return Ok(report);
    }

    method CommitOpen()
      requires db.durable + db.open_ == saved && batch >= 1
      modifies this`db, this`pendingWrites
      ensures Valid() && db == Commit(old(db)) == Db(saved, [])
    {
      db := Commit(db);
      pendingWrites := 0;
    }

    method Save(row: Row)
      requires Valid()
      modifies this
      ensures Valid() && saved == old(saved) + [row] && db == AfterSave(old(db), row, batch)
      ensures db == if |old(db.open_)| + 1 < batch then Db(old(db.durable), old(db.open_) + [row])
                    else Db(old(db.durable) + (old(db.open_) + [row]), [])
    {
      db := db.(open_ := db.open_ + [row]);
      saved := saved + [row];
      pendingWrites := pendingWrites + 1;
      if pendingWrites >= batch {
        CommitOpen();
      }
    }

    method Flush()
      requires Valid()
      modifies this
      ensures Valid() && saved == old(saved) && db == Db(saved, [])
    {
      CommitOpen();
    }

    /** Power loss, or a process killed without finishing: the open transaction is lost. */
    method Crash()
      requires Valid()
      modifies this
      ensures Valid() && db == Db(old(db.durable), []) && saved == old(db.durable)
      ensures saved <= old(saved) && |old(saved)| - |saved| < batch
    {
      db := db.(open_ := []);
      saved := db.durable;
      pendingWrites := 0;
    }
  }

  // ------------------------------------------------------------------- the machine

  /** Where a worker thread is; last says that it found no more paths. */
  datatype Phase =
    | Idle
    | Scanning(path: Path)   // requesting, or in callbacks that save rows
    | Failing                // its claim released, an exception on its way
    | Checking(last: bool)   // about to look at the play event
    | Posted(last: bool)     // the pause semaphore released, not yet waiting
    | Waiting(last: bool)    // waiting for the play event
    | Woken(last: bool)      // past the wait
    | Done

  datatype Controller =
    | Watching
    | Acquiring(k: nat, looked: bool, taken: nat) // pause() at thread k; permits taken so far
    | Menu(acknowledged: bool)
    | Flushed(acknowledged: bool)
    | Exported(pending: seq<Path>)

  datatype Sys = Sys(
    batch: nat,
    queue: seq<Path>,
    workers: seq<Phase>,
    playing: bool,
    quit: bool,
    permits: nat,
    controller: Controller,
    db: Db,
    // history
    saved: seq<Row>,
    released: seq<Path>,
    late: seq<Path>      // released since the last flush
  )

  datatype Action =
    | Claim(w: nat) | Exhaust(w: nat) | SaveRow(w: nat, status: nat) | Release(w: nat, raised: bool) | StopAll(w: nat)
    | Pass(w: nat) | Post(w: nat) | Block(w: nat) | Resume(w: nat)
    | Pause | Look | Take | TimeOut | Acknowledge | Play | Quit | Flush | Export

  function Start(batch: nat, paths: seq<Path>, threads: nat): Sys {
    Sys(batch, paths, seq(threads, _ => Idle), true, false, 0, Watching, Db([], []), [], [], [])
  }

  function Wake(ws: seq<Phase>): (woken: seq<Phase>)
    ensures |woken| == |ws|
  {
    seq(|ws|, i requires 0 <= i < |ws| => if ws[i].Waiting? then Woken(ws[i].last) else ws[i])
  }

  predicate At(s: Sys, w: nat) {
    w < |s.workers|
  }

  predicate Enabled(s: Sys, a: Action) {
    match a
    case Claim(w) => At(s, w) && s.workers[w].Idle? && s.queue != []
    case Exhaust(w) => At(s, w) && s.workers[w].Idle? && s.queue == []
    case SaveRow(w, _) => At(s, w) && s.workers[w].Scanning?
    case Release(w, _) => At(s, w) && s.workers[w].Scanning?
    case StopAll(w) => At(s, w) && s.workers[w].Failing?
    case Pass(w) => At(s, w) && s.workers[w].Checking? && s.playing
    case Post(w) => At(s, w) && s.workers[w].Checking? && !s.playing
    case Block(w) => At(s, w) && s.workers[w].Posted?
    case Resume(w) => At(s, w) && s.workers[w].Woken?
    case Pause => s.controller.Watching?
    case Look => s.controller.Acquiring? && !s.controller.looked && s.controller.k < |s.workers|
    case Take => s.controller.Acquiring? && s.controller.looked && s.permits > 0
    case TimeOut => s.controller.Acquiring? && s.controller.looked && s.permits == 0
    case Acknowledge => s.controller.Acquiring? && s.controller.k == |s.workers|
    case Play => s.controller.Menu?
    case Quit => s.controller.Menu?
    case Flush => s.controller.Menu?
    case Export => s.controller.Flushed?
  }

  /** A worker that may go on: to the next path, or out. */
  function Onward(s: Sys, last: bool): Phase {
    if last || s.quit then Done else Idle
  }

  function Move(s: Sys, w: nat, phase: Phase): Sys
    requires At(s, w)
  {
    s.(workers := s.workers[w := phase])
  }

  function Next(s: Sys, a: Action): Sys
    requires Enabled(s, a)
  {
    match a
    case Claim(w) => Move(s, w, Scanning(s.queue[0])).(queue := s.queue[1..])
    case Exhaust(w) => Move(s, w, Checking(true))
    case SaveRow(w, status) =>
      var row := Row(s.workers[w].path, status);
      s.(db := AfterSave(s.db, row, s.batch), saved := s.saved + [row])
    case Release(w, raised) =>
      var path := s.workers[w].path;
      Move(s, w, if raised then Failing else Checking(false)).(released := s.released + [path], late := s.late + [path])
    case StopAll(w) =>
      var t := Move(s, w, Checking(false));
      t.(quit := true, playing := true, workers := Wake(t.workers))
    case Pass(w) => Move(s, w, Onward(s, s.workers[w].last))
    case Post(w) => Move(s, w, Posted(s.workers[w].last)).(permits := s.permits + 1)
    case Block(w) => Move(s, w, if s.playing then Woken(s.workers[w].last) else Waiting(s.workers[w].last))
    case Resume(w) => Move(s, w, Onward(s, s.workers[w].last))
    case Pause => s.(playing := false, controller := Acquiring(0, false, 0))
    case Look =>
      var c := s.controller;
      s.(controller := if s.workers[c.k].Done? then Acquiring(c.k + 1, false, c.taken) else c.(looked := true))
    case Take =>
      var c := s.controller;
      s.(permits := s.permits - 1, controller := Acquiring(c.k + 1, false, c.taken + 1))
    case TimeOut => s.(controller := Menu(false))
    case Acknowledge => s.(controller := Menu(true))
    case Play => s.(playing := true, workers := Wake(s.workers), controller := Watching)
    case Quit => s.(quit := true, playing := true, workers := Wake(s.workers), controller := Watching)
    case Flush => s.(db := Commit(s.db), late := [], controller := Flushed(s.controller.acknowledged))
    case Export => s.(controller := Exported(Claimed(s.workers, |s.workers|) + s.queue))
  }

  function PathOf(p: Phase): seq<Path> {
    if p.Scanning? then [p.path] else []
  }

  /** The claimed paths, which a snapshot puts back before the unclaimed ones. */
  function Claimed(ws: seq<Phase>, n: nat): seq<Path>
    requires n <= |ws|
  {
    if n == 0 then [] else Claimed(ws, n - 1) + PathOf(ws[n - 1])
  }

  // -------------------------------------------------- invariants of every run at all

  ghost predicate Conserves(s: Sys, all: multiset<Path>) {
    multiset(s.queue) + multiset(Claimed(s.workers, |s.workers|)) + multiset(s.released) == all
  }

  predicate Batched(s: Sys) {
    s.db.durable + s.db.open_ == s.saved && |s.db.open_| < s.batch
  }

  /** Rows that are not durable belong to claimed paths or to paths released since the flush. */
  predicate OpenRowsAccounted(s: Sys) {
    forall i :: 0 <= i < |s.db.open_| ==> s.db.open_[i].path in Claimed(s.workers, |s.workers|) + s.late
  }

  ghost predicate Inv(s: Sys, all: multiset<Path>) {
    Conserves(s, all) && Batched(s) && OpenRowsAccounted(s)
  }

  lemma {:induction false} ClaimedSame(ws: seq<Phase>, n: nat, w: nat, phase: Phase)
    requires n <= |ws| && w < |ws| && (n <= w || PathOf(phase) == PathOf(ws[w]))
    ensures Claimed(ws[w := phase], n) == Claimed(ws, n)
  {
    if n > 0 {
      ClaimedSame(ws, n - 1, w, phase);
    }
  }

  lemma Regroup(a: seq<Path>, b: seq<Path>, c: seq<Path>)
    ensures a + b + c == a + (b + c)
  {
  }

  /** The claimed paths around one worker's, whatever that worker is at. */
  lemma {:induction false} ClaimedAround(ws: seq<Phase>, n: nat, w: nat, phase: Phase)
    returns (before: seq<Path>, after: seq<Path>)
    requires w < n <= |ws|
    ensures Claimed(ws, n) == before + PathOf(ws[w]) + after
    ensures Claimed(ws[w := phase], n) == before + PathOf(phase) + after
  {
    if w == n - 1 {
      ClaimedSame(ws, w, w, phase);
      before, after := Claimed(ws, w), [];
    } else {
      var last := PathOf(ws[n - 1]);
      assert ws[w := phase][n - 1] == ws[n - 1];
      var middle: seq<Path>;
      before, middle := ClaimedAround(ws, n - 1, w, phase);
      after := middle + last;
      Regroup(before + PathOf(ws[w]), middle, last);
      Regroup(before + PathOf(phase), middle, last);
    }
  }

  lemma SwapMiddle(before: seq<Path>, x: seq<Path>, y: seq<Path>, after: seq<Path>)
    ensures multiset(before + y + after) + multiset(x) == multiset(before + x + after) + multiset(y)
  {
  }

  lemma ClaimedSwap(ws: seq<Phase>, n: nat, w: nat, phase: Phase)
    requires w < n <= |ws|
    ensures multiset(Claimed(ws[w := phase], n)) + multiset(PathOf(ws[w])) ==
            multiset(Claimed(ws, n)) + multiset(PathOf(phase))
  {
    var before, after := ClaimedAround(ws, n, w, phase);
    SwapMiddle(before, PathOf(ws[w]), PathOf(phase), after);
  }

  lemma {:induction false} ClaimedWake(ws: seq<Phase>, n: nat)
    requires n <= |ws|
    ensures Claimed(Wake(ws), n) == Claimed(ws, n)
  {
    if n > 0 {
      ClaimedWake(ws, n - 1);
    }
  }

  lemma FirstOut(s: seq<Path>)
    requires s != []
    ensures multiset(s) == multiset([s[0]]) + multiset(s[1..])
  {
    assert s == [s[0]] + s[1..];
  }

  /** A path that is claimed or late stays so when the claims only grow. */
  lemma Kept(s: Sys, t: Sys, path: Path)
    requires path in Claimed(s.workers, |s.workers|) + s.late
    requires multiset(Claimed(s.workers, |s.workers|)) + multiset(s.late) <=
             multiset(Claimed(t.workers, |t.workers|)) + multiset(t.late)
    ensures path in Claimed(t.workers, |t.workers|) + t.late
  {
    assert path in multiset(Claimed(s.workers, |s.workers|)) + multiset(s.late);
  }

  /** The same, for all the rows of the open transaction. */
  lemma RowsStayAccounted(s: Sys, t: Sys)
    requires OpenRowsAccounted(s) && t.db == s.db
    requires multiset(Claimed(s.workers, |s.workers|)) + multiset(s.late) <=
             multiset(Claimed(t.workers, |t.workers|)) + multiset(t.late)
    ensures OpenRowsAccounted(t)
  {
    forall i | 0 <= i < |t.db.open_|
      ensures t.db.open_[i].path in Claimed(t.workers, |t.workers|) + t.late
    {
      Kept(s, t, t.db.open_[i].path);
    }
  }

  /** What a claim moves from the queue to the claimed paths. */
  lemma ClaimMoves(s: Sys, w: nat) returns (before: multiset<Path>, after: multiset<Path>)
    requires Enabled(s, Claim(w))
    ensures var (t, path) := (Next(s, Claim(w)), s.queue[0]);
            && before == multiset(Claimed(s.workers, |s.workers|)) && after == multiset(Claimed(t.workers, |t.workers|))
            && after == before + multiset([path])
            && multiset(s.queue) == multiset([path]) + multiset(t.queue)
  {
    var t := Next(s, Claim(w));
    before, after := multiset(Claimed(s.workers, |s.workers|)), multiset(Claimed(t.workers, |t.workers|));
    ClaimedSwap(s.workers, |s.workers|, w, Scanning(s.queue[0]));
    FirstOut(s.queue);
  }

  lemma ClaimKeepsInv(s: Sys, w: nat, all: multiset<Path>)
    requires Inv(s, all) && Enabled(s, Claim(w))
    ensures Inv(Next(s, Claim(w)), all)
  {
    var t := Next(s, Claim(w));
    var before, after := ClaimMoves(s, w);
    RowsStayAccounted(s, t);
  }

  /** What a release moves from the claimed paths to the released ones. */
  lemma ReleaseMoves(s: Sys, w: nat, raised: bool) returns (before: multiset<Path>, after: multiset<Path>)
    requires Enabled(s, Release(w, raised))
    ensures var (t, path) := (Next(s, Release(w, raised)), s.workers[w].path);
            && before == multiset(Claimed(s.workers, |s.workers|)) && after == multiset(Claimed(t.workers, |t.workers|))
            && before == after + multiset([path])
            && multiset(t.released) == multiset(s.released) + multiset([path])
            && multiset(t.late) == multiset(s.late) + multiset([path])
  {
    var t := Next(s, Release(w, raised));
    before, after := multiset(Claimed(s.workers, |s.workers|)), multiset(Claimed(t.workers, |t.workers|));
    var phase := if raised then Failing else Checking(false);
    assert PathOf(phase) == [];
    ClaimedSwap(s.workers, |s.workers|, w, phase);
  }

  lemma ReleaseKeepsInv(s: Sys, w: nat, raised: bool, all: multiset<Path>)
    requires Inv(s, all) && Enabled(s, Release(w, raised))
    ensures Inv(Next(s, Release(w, raised)), all)
  {
    var t := Next(s, Release(w, raised));
    var before, after := ReleaseMoves(s, w, raised);
    RowsStayAccounted(s, t);
  }

  lemma {:induction false} ScanningIsClaimed(ws: seq<Phase>, n: nat, w: nat)
    requires w < n <= |ws| && ws[w].Scanning?
    ensures ws[w].path in Claimed(ws, n)
  {
    if w < n - 1 {
      ScanningIsClaimed(ws, n - 1, w);
    }
  }

  lemma SaveStaysBatched(db: Db, row: Row, batch: nat, saved: seq<Row>)
    requires db.durable + db.open_ == saved && |db.open_| < batch
    ensures var d := AfterSave(db, row, batch);
            d.durable + d.open_ == saved + [row] && |d.open_| < batch && (d.open_ == [] || d.open_ == db.open_ + [row])
  {
    assert db.durable + (db.open_ + [row]) == saved + [row];
    assert db.durable + (db.open_ + [row]) + [] == db.durable + (db.open_ + [row]);
  }

  lemma SaveKeepsInv(s: Sys, w: nat, status: nat, all: multiset<Path>)
    requires Inv(s, all) && Enabled(s, SaveRow(w, status))
    ensures Inv(Next(s, SaveRow(w, status)), all)
  {
    ScanningIsClaimed(s.workers, |s.workers|, w);
    SaveStaysBatched(s.db, Row(s.workers[w].path, status), s.batch, s.saved);
  }

  /** Steps of a worker that neither take nor give back a claim. */
  lemma MoveKeepsInv(s: Sys, w: nat, phase: Phase, all: multiset<Path>)
    requires Inv(s, all) && At(s, w) && !s.workers[w].Scanning? && !phase.Scanning?
    ensures Inv(Move(s, w, phase), all)
  {
    ClaimedSame(s.workers, |s.workers|, w, phase);
  }

  /** Every step of every thread keeps the accounts, paused or not. */
  lemma StepKeepsInv(s: Sys, a: Action, all: multiset<Path>)
    requires Inv(s, all) && Enabled(s, a)
    ensures Inv(Next(s, a), all)
  {
    match a {
      case Claim(w) => ClaimKeepsInv(s, w, all);
      case Release(w, raised) => ReleaseKeepsInv(s, w, raised, all);
      case SaveRow(w, status) => SaveKeepsInv(s, w, status, all);
      case Exhaust(w) => MoveKeepsInv(s, w, Checking(true), all);
      case StopAll(w) =>
        MoveKeepsInv(s, w, Checking(false), all);
        ClaimedWake(s.workers[w := Checking(false)], |s.workers|);
      case Pass(w) => MoveKeepsInv(s, w, Onward(s, s.workers[w].last), all);
      case Post(w) => MoveKeepsInv(s, w, Posted(s.workers[w].last), all);
      case Block(w) =>
        MoveKeepsInv(s, w, if s.playing then Woken(s.workers[w].last) else Waiting(s.workers[w].last), all);
      case Resume(w) => MoveKeepsInv(s, w, Onward(s, s.workers[w].last), all);
      case Play => ClaimedWake(s.workers, |s.workers|);
      case Quit => ClaimedWake(s.workers, |s.workers|);
      case Flush => assert s.db.durable + s.db.open_ + [] == s.saved;
      case _ =>
    }
  }

  // ------------------------------------------------------------ the acknowledged pause

  predicate Parked(p: Phase) {
    p.Posted? || p.Waiting?
  }

  function ParkedCount(ws: seq<Phase>, n: nat): nat
    requires n <= |ws|
  {
    if n == 0 then 0 else ParkedCount(ws, n - 1) + if Parked(ws[n - 1]) then 1 else 0
  }

  function DoneCount(ws: seq<Phase>, n: nat): nat
    requires n <= |ws|
  {
    if n == 0 then 0 else DoneCount(ws, n - 1) + if ws[n - 1].Done? then 1 else 0
  }

  /** Every worker is gone or waits for the play event. */
  predicate Quiescent(ws: seq<Phase>) {
    forall i :: 0 <= i < |ws| ==> Parked(ws[i]) || ws[i].Done?
  }

  /**
   The steps of an orderly run: no pause times out, and no callback stops the
   fuzzer while a pause is being collected.
   */
  predicate Orderly(s: Sys, a: Action) {
    !a.TimeOut? && (a.StopAll? ==> s.controller.Watching?)
  }

  ghost predicate PauseInv(s: Sys) {
    match s.controller
    case Watching => s.playing && s.permits == 0
    case Acquiring(k, looked, taken) =>
      && !s.playing && k <= |s.workers| && (looked ==> k < |s.workers|)
      && s.permits + taken <= ParkedCount(s.workers, |s.workers|)
      && taken + DoneCount(s.workers, k) >= k
    case Menu(acknowledged) => !s.playing && acknowledged && s.permits == 0 && Quiescent(s.workers)
    case Flushed(acknowledged) => !s.playing && Quiescent(s.workers) && s.db.open_ == []
    case Exported(pending) =>
      && !s.playing && Quiescent(s.workers) && s.db.open_ == []
      && pending == Claimed(s.workers, |s.workers|) + s.queue
  }

  lemma {:induction false} CountsUpdate(ws: seq<Phase>, n: nat, w: nat, phase: Phase)
    requires n <= |ws| && w < |ws| && !ws[w].Done?
    ensures DoneCount(ws[w := phase], n) >= DoneCount(ws, n)
    ensures !Parked(ws[w]) || Parked(phase) ==> ParkedCount(ws[w := phase], n) >= ParkedCount(ws, n)
    ensures !Parked(ws[w]) && Parked(phase) && w < n ==> ParkedCount(ws[w := phase], n) == ParkedCount(ws, n) + 1
    ensures w >= n || Parked(ws[w]) == Parked(phase) ==> ParkedCount(ws[w := phase], n) == ParkedCount(ws, n)
  {
    if n > 0 {
      CountsUpdate(ws, n - 1, w, phase);
    }
  }

  lemma {:induction false} CountsBound(ws: seq<Phase>, n: nat)
    requires n <= |ws|
    ensures ParkedCount(ws, n) + DoneCount(ws, n) <= n
    ensures ParkedCount(ws, n) + DoneCount(ws, n) == n ==> forall i :: 0 <= i < n ==> Parked(ws[i]) || ws[i].Done?
  {
    if n > 0 {
      CountsBound(ws, n - 1);
    }
  }

  /** When a permit was taken for every living thread, every thread is parked. */
  lemma AcknowledgedIsQuiescent(s: Sys)
    requires PauseInv(s) && Enabled(s, Acknowledge)
    ensures Quiescent(s.workers) && s.permits == 0
  {
    CountsBound(s.workers, |s.workers|);
  }

  lemma MoveKeepsPause(s: Sys, w: nat, phase: Phase)
    requires PauseInv(s) && At(s, w) && !s.workers[w].Done? && (Parked(s.workers[w]) ==> Parked(phase))
    requires s.controller.Watching? || s.controller.Acquiring? || Parked(phase)
    ensures PauseInv(Move(s, w, phase))
  {
    CountsUpdate(s.workers, |s.workers|, w, phase);
    if s.controller.Acquiring? {
      CountsUpdate(s.workers, s.controller.k, w, phase);
    }
    if !s.controller.Watching? && !s.controller.Acquiring? {
      ClaimedSame(s.workers, |s.workers|, w, phase);
    }
  }

  lemma CollectKeepsPause(s: Sys, a: Action)
    requires PauseInv(s) && Enabled(s, a) && (a.Look? || a.Take?)
    ensures PauseInv(Next(s, a))
  {
  }

  /** Every step of an orderly run keeps the pause accounts. */
  lemma StepKeepsPause(s: Sys, a: Action)
    requires PauseInv(s) && Enabled(s, a) && Orderly(s, a)
    ensures PauseInv(Next(s, a))
  {
    match a {
      case Claim(w) => MoveKeepsPause(s, w, Scanning(s.queue[0]));
      case Exhaust(w) => MoveKeepsPause(s, w, Checking(true));
      case Release(w, raised) => MoveKeepsPause(s, w, if raised then Failing else Checking(false));
      case Pass(w) => MoveKeepsPause(s, w, Onward(s, s.workers[w].last));
      case Post(w) =>
        CountsUpdate(s.workers, |s.workers|, w, Posted(s.workers[w].last));
        MoveKeepsPause(s, w, Posted(s.workers[w].last));
      case Block(w) =>
        if !s.playing {
          MoveKeepsPause(s, w, Waiting(s.workers[w].last));
        }
      case Resume(w) => MoveKeepsPause(s, w, Onward(s, s.workers[w].last));
      case Look => CollectKeepsPause(s, a);
      case Take => CollectKeepsPause(s, a);
      case Acknowledge => AcknowledgedIsQuiescent(s);
      case _ =>
    }
  }

  // ------------------------------------------------------------------------- runs

  ghost predicate IsRun(s: Sys, actions: seq<Action>, t: Sys)
    decreases |actions|
  {
    if actions == [] then s == t
    else Enabled(s, actions[0]) && IsRun(Next(s, actions[0]), actions[1..], t)
  }

  ghost predicate IsOrderlyRun(s: Sys, actions: seq<Action>, t: Sys)
    decreases |actions|
  {
    if actions == [] then s == t
    else Enabled(s, actions[0]) && Orderly(s, actions[0]) && IsOrderlyRun(Next(s, actions[0]), actions[1..], t)
  }

  lemma {:induction false} RunThen(s: Sys, actions: seq<Action>, t: Sys, a: Action)
    requires IsRun(s, actions, t) && Enabled(t, a)
    ensures IsRun(s, actions + [a], Next(t, a))
    decreases |actions|
  {
    if actions == [] {
      assert [] + [a] == [a] && [a][1..] == [];
    } else {
      assert (actions + [a])[1..] == actions[1..] + [a];
      RunThen(Next(s, actions[0]), actions[1..], t, a);
    }
  }

  lemma RunThenTwo(s: Sys, actions: seq<Action>, t: Sys, a: Action, b: Action)
    requires IsRun(s, actions, t) && Enabled(t, a) && Enabled(Next(t, a), b)
    ensures IsRun(s, actions + [a] + [b], Next(Next(t, a), b))
  {
    RunThen(s, actions, t, a);
    RunThen(s, actions + [a], Next(t, a), b);
  }

  lemma {:induction false} StartClaims(n: nat, k: nat)
    requires k <= n
    ensures Claimed(seq(n, _ => Idle), k) == []
  {
    if k > 0 {
      StartClaims(n, k - 1);
    }
  }

  lemma StartInv(batch: nat, paths: seq<Path>, threads: nat)
    requires batch >= 1
    ensures Inv(Start(batch, paths, threads), multiset(paths)) && PauseInv(Start(batch, paths, threads))
  {
    StartClaims(threads, threads);
  }

  lemma {:induction false} RunKeepsInv(s: Sys, actions: seq<Action>, t: Sys, all: multiset<Path>)
    requires Inv(s, all) && IsRun(s, actions, t)
    ensures Inv(t, all) && t.batch == s.batch
    decreases |actions|
  {
    if actions != [] {
      StepKeepsInv(s, actions[0], all);
      RunKeepsInv(Next(s, actions[0]), actions[1..], t, all);
    }
  }

  lemma {:induction false} OrderlyRunKeepsPause(s: Sys, actions: seq<Action>, t: Sys)
    requires PauseInv(s) && IsOrderlyRun(s, actions, t)
    ensures PauseInv(t) && IsRun(s, actions, t)
    decreases |actions|
  {
    if actions != [] {
      StepKeepsPause(s, actions[0]);
      OrderlyRunKeepsPause(Next(s, actions[0]), actions[1..], t);
    }
  }

  /** The statuses saved in the course of some actions. */
  function Statuses(actions: seq<Action>): seq<nat> {
    if actions == [] then []
    else (if actions[0].SaveRow? then [actions[0].status] else []) + Statuses(actions[1..])
  }

  function RowStatuses(rows: seq<Row>): seq<nat> {
    seq(|rows|, i requires 0 <= i < |rows| => rows[i].status)
  }

  /** A save adds one row, of the path its thread is at, and no other action adds any. */
  lemma SavedOfStep(s: Sys, a: Action)
    requires Enabled(s, a)
    ensures Next(s, a).saved == if a.SaveRow? then s.saved + [Row(s.workers[a.w].path, a.status)] else s.saved
    ensures RowStatuses(Next(s, a).saved) == RowStatuses(s.saved) + if a.SaveRow? then [a.status] else []
  {
  }

  /** The rows saved in a run carry the statuses of its saves, in order. */
  lemma {:induction false} SavedOfRun(s: Sys, actions: seq<Action>, t: Sys)
    requires IsRun(s, actions, t)
    ensures RowStatuses(t.saved) == RowStatuses(s.saved) + Statuses(actions)
    decreases |actions|
  {
    if actions != [] {
      SavedOfStep(s, actions[0]);
      SavedOfRun(Next(s, actions[0]), actions[1..], t);
    }
  }

  // ------------------------------------------------- when saving a session is safe

  /** Worker w is at a path, or can take one without any other thread's help. */
  predicate CanScan(s: Sys, w: nat)
    requires w < |s.workers|
  {
    var p := s.workers[w];
    p.Scanning? || (s.queue != [] && (p.Idle? || (p.Woken? && !p.last && !s.quit)))
  }

  predicate NoneCanScan(s: Sys) {
    forall w :: 0 <= w < |s.workers| ==> !CanScan(s, w)
  }

  /** Every row of a path that the saved session will not request again is durable. */
  predicate NothingLost(t: Sys)
    requires t.controller.Exported?
  {
    forall i :: |t.db.durable| <= i < |t.saved| ==> t.saved[i].path in t.controller.pending
  }

  /** However the threads are scheduled from the flush of this menu on, saving loses no row. */
  ghost predicate SavesSafely(m: Sys)
    requires m.controller.Menu?
  {
    forall after, t :: IsRun(Next(m, Flush), after, t) && t.controller.Exported? ==> NothingLost(t)
  }

  /** Outside a scan that runs freely, only quit sets the play event. */
  predicate PlaysToQuit(s: Sys) {
    s.playing ==> s.quit || s.controller.Watching?
  }

  lemma {:induction false} RunPlaysToQuit(s: Sys, actions: seq<Action>, t: Sys)
    requires PlaysToQuit(s) && IsRun(s, actions, t)
    ensures PlaysToQuit(t)
    decreases |actions|
  {
    if actions != [] {
      RunPlaysToQuit(Next(s, actions[0]), actions[1..], t);
    }
  }

  /** After the flush with nobody able to scan: no row is ever written again. */
  predicate Frozen(s: Sys) {
    && (s.controller.Flushed? || s.controller.Exported?)
    && (s.playing ==> s.quit) && NoneCanScan(s) && s.db.open_ == []
    && (s.controller.Exported? ==> s.controller.pending == Claimed(s.workers, |s.workers|) + s.queue)
  }

  lemma SameScanners(s: Sys, t: Sys)
    requires NoneCanScan(s) && t.workers == s.workers && t.queue == s.queue && t.quit == s.quit
    ensures NoneCanScan(t)
  {
    assert forall w :: 0 <= w < |t.workers| ==> CanScan(t, w) == CanScan(s, w);
  }

  lemma MoveKeepsNone(s: Sys, w: nat, phase: Phase)
    requires NoneCanScan(s) && At(s, w) && !CanScan(Move(s, w, phase), w)
    ensures NoneCanScan(Move(s, w, phase))
    ensures Claimed(Move(s, w, phase).workers, |s.workers|) == Claimed(s.workers, |s.workers|)
  {
    var t := Move(s, w, phase);
    forall v | 0 <= v < |t.workers|
      ensures !CanScan(t, v)
    {
      assert v != w ==> t.workers[v] == s.workers[v] && !CanScan(s, v);
    }
    assert !CanScan(s, w);
    ClaimedSame(s.workers, |s.workers|, w, phase);
  }

  lemma StopAllKeepsNone(s: Sys, w: nat)
    requires NoneCanScan(s) && Enabled(s, StopAll(w))
    ensures NoneCanScan(Next(s, StopAll(w)))
    ensures Claimed(Next(s, StopAll(w)).workers, |s.workers|) == Claimed(s.workers, |s.workers|)
  {
    var t := Next(s, StopAll(w));
    forall v | 0 <= v < |t.workers|
      ensures !CanScan(t, v)
    {
      assert v != w ==> !CanScan(s, v);
    }
    ClaimedSame(s.workers, |s.workers|, w, Checking(false));
    ClaimedWake(s.workers[w := Checking(false)], |s.workers|);
  }

  /** Once nobody can scan, only play lets anybody scan again. */
  lemma StepKeepsNone(s: Sys, a: Action)
    requires NoneCanScan(s) && (s.playing ==> s.quit) && Enabled(s, a) && !a.Play? && !a.Quit?
    ensures NoneCanScan(Next(s, a)) && (Next(s, a).playing ==> Next(s, a).quit)
    ensures Claimed(Next(s, a).workers, |s.workers|) == Claimed(s.workers, |s.workers|) && Next(s, a).queue == s.queue
    ensures !a.SaveRow? && !a.Release?
  {
    match a {
      case Claim(w) => assert CanScan(s, w);
      case SaveRow(w, status) => assert CanScan(s, w);
      case Release(w, raised) => assert CanScan(s, w);
      case Exhaust(w) => MoveKeepsNone(s, w, Checking(true));
      case StopAll(w) => StopAllKeepsNone(s, w);
      case Pass(w) => MoveKeepsNone(s, w, Onward(s, s.workers[w].last));
      case Post(w) =>
        MoveKeepsNone(s, w, Posted(s.workers[w].last));
        SameScanners(Move(s, w, Posted(s.workers[w].last)), Next(s, a));
      case Block(w) => MoveKeepsNone(s, w, if s.playing then Woken(s.workers[w].last) else Waiting(s.workers[w].last));
      case Resume(w) =>
        assert !CanScan(s, w);
        MoveKeepsNone(s, w, Onward(s, s.workers[w].last));
      case Play =>
      case Quit =>
      case _ => SameScanners(s, Next(s, a));
    }
  }

  lemma StepKeepsFrozen(s: Sys, a: Action)
    requires Frozen(s) && Enabled(s, a)
    ensures Frozen(Next(s, a))
  {
    StepKeepsNone(s, a);
  }

  lemma {:induction false} RunKeepsFrozen(s: Sys, actions: seq<Action>, t: Sys)
    requires Frozen(s) && IsRun(s, actions, t)
    ensures Frozen(t)
    decreases |actions|
  {
    if actions != [] {
      StepKeepsFrozen(s, actions[0]);
      RunKeepsFrozen(Next(s, actions[0]), actions[1..], t);
    }
  }

  /** At the menu of any run: once nobody can scan, a saved session is not ahead of the report. */
  lemma FrozenExportIsDurable(batch: nat, paths: seq<Path>, threads: nat,
                              before: seq<Action>, m: Sys, after: seq<Action>, t: Sys)
    requires batch >= 1 && IsRun(Start(batch, paths, threads), before, m) && m.controller.Menu? && NoneCanScan(m)
    requires IsRun(Next(m, Flush), after, t) && t.controller.Exported?
    ensures t.db.durable == t.saved
    ensures multiset(t.controller.pending) + multiset(t.released) == multiset(paths)
  {
    var start, f := Start(batch, paths, threads), Next(m, Flush);
    StartInv(batch, paths, threads);
    RunKeepsInv(start, before, m, multiset(paths));
    RunPlaysToQuit(start, before, m);
    StepKeepsInv(m, Flush, multiset(paths));
    assert Frozen(f) by {
      assert forall w :: 0 <= w < |f.workers| ==> CanScan(f, w) == CanScan(m, w);
    }
    RunKeepsFrozen(f, after, t);
    RunKeepsInv(f, after, t, multiset(paths));
    assert t.db.durable + [] == t.db.durable;
  }

  /**
   With the workers paused, and whatever happened before: every path absent from
   the saved queue was released and has all its rows durable.
   */
  lemma ExportIsDurable(batch: nat, paths: seq<Path>, threads: nat,
                        before: seq<Action>, m: Sys, after: seq<Action>, t: Sys)
    requires batch >= 1 && IsRun(Start(batch, paths, threads), before, m) && m.controller.Menu? && Quiescent(m.workers)
    requires IsRun(Next(m, Flush), after, t) && t.controller.Exported?
    ensures t.db.durable == t.saved
    ensures multiset(t.controller.pending) + multiset(t.released) == multiset(paths)
  {
    FrozenExportIsDurable(batch, paths, threads, before, m, after, t);
  }

  /** A worker that can scan gets to a path in at most two steps of its own. */
  lemma ReachScanning(s: Sys, w: nat) returns (actions: seq<Action>, t: Sys)
    requires w < |s.workers| && CanScan(s, w)
    ensures IsRun(s, actions, t) && w < |t.workers| && t.workers[w].Scanning?
    ensures t == s.(queue := t.queue, workers := s.workers[w := t.workers[w]])
    ensures s.workers[w].Scanning? ==> t == s
    ensures !s.workers[w].Scanning? ==> t.queue == s.queue[1..]
  {
    actions, t := [], s;
    assert s.workers[w := s.workers[w]] == s.workers;
    if s.workers[w].Woken? {
      RunThen(s, actions, t, Resume(w));
      actions, t := actions + [Resume(w)], Next(t, Resume(w));
    }
    if !s.workers[w].Scanning? {
      RunThen(s, actions, t, Claim(w));
      actions, t := actions + [Claim(w)], Next(t, Claim(w));
    }
  }

  lemma {:induction false} RunConcat(s: Sys, a: seq<Action>, t: Sys, b: seq<Action>, u: Sys)
    requires IsRun(s, a, t) && IsRun(t, b, u)
    ensures IsRun(s, a + b, u)
    decreases |a|
  {
    if a == [] {
      assert a + b == b;
    } else {
      assert (a + b)[1..] == a[1..] + b;
      RunConcat(Next(s, a[0]), a[1..], t, b, u);
    }
  }

  /** As the dictionary holds them. */
  predicate Distinct(paths: seq<Path>) {
    forall i, j :: 0 <= i < j < |paths| ==> paths[i] != paths[j]
  }

  lemma {:induction false} DistinctCounts(paths: seq<Path>, p: Path)
    requires Distinct(paths)
    ensures multiset(paths)[p] <= 1
    ensures p !in paths ==> multiset(paths)[p] == 0
  {
    if paths != [] {
      DistinctCounts(paths[1..], p);
      FirstOut(paths);
    }
  }

  /** From a flushed menu, a scanning worker saves a row, releases its path, and the session is saved. */
  lemma SaveReleaseExport(f: Sys, w: nat) returns (actions: seq<Action>, t: Sys)
    requires f.controller.Flushed? && w < |f.workers| && f.workers[w].Scanning?
    requires f.batch >= 2 && f.db.open_ == [] && f.db.durable == f.saved
    ensures IsRun(f, actions, t) && t.controller.Exported? && t.saved == f.saved + [Row(f.workers[w].path, 200)]
    ensures t.db.durable == f.saved && f.workers[w].path in t.released
    ensures t.controller.pending == Claimed(t.workers, |t.workers|) + t.queue
  {
    RunThenTwo(f, [], f, SaveRow(w, 200), Release(w, false));
    var g := Next(Next(f, SaveRow(w, 200)), Release(w, false));
    actions := [] + [SaveRow(w, 200)] + [Release(w, false)];
    RunThen(f, actions, g, Export);
    actions, t := actions + [Export], Next(g, Export);
  }

  lemma NotPending(t: Sys, paths: seq<Path>, p: Path)
    requires Distinct(paths) && Conserves(t, multiset(paths)) && p in t.released
    ensures p !in Claimed(t.workers, |t.workers|) + t.queue
  {
    DistinctCounts(paths, p);
    var claimed := Claimed(t.workers, |t.workers|);
    assert multiset(t.queue)[p] + multiset(claimed)[p] + multiset(t.released)[p] == multiset(paths)[p];
  }

  /** A flushed menu from which a thread can scan has a continuation that loses a row. */
  lemma LateScan(f: Sys, paths: seq<Path>, w: nat) returns (actions: seq<Action>, t: Sys)
    requires Distinct(paths) && Inv(f, multiset(paths)) && f.controller.Flushed?
    requires f.batch >= 2 && f.db.open_ == [] && f.db.durable == f.saved && w < |f.workers| && CanScan(f, w)
    ensures IsRun(f, actions, t) && t.controller.Exported? && !NothingLost(t)
  {
    var reach, g := ReachScanning(f, w);
    var rest;
    rest, t := SaveReleaseExport(g, w);
    RunConcat(f, reach, g, rest, t);
    actions := reach + rest;
    RunKeepsInv(f, actions, t, multiset(paths));
    NotPending(t, paths, g.workers[w].path);
    assert t.saved[|t.db.durable|].path == g.workers[w].path;
  }

  lemma LateScanLosesRow(batch: nat, paths: seq<Path>, threads: nat, before: seq<Action>, m: Sys, w: nat)
    requires batch >= 2 && Distinct(paths) && IsRun(Start(batch, paths, threads), before, m) && m.controller.Menu?
    requires w < |m.workers| && CanScan(m, w)
    ensures !SavesSafely(m)
  {
    var start, f := Start(batch, paths, threads), Next(m, Flush);
    StartInv(batch, paths, threads);
    RunKeepsInv(start, before, m, multiset(paths));
    StepKeepsInv(m, Flush, multiset(paths));
    assert f.db.durable + [] == f.db.durable;
    assert CanScan(f, w);
    var actions, t := LateScan(f, paths, w);
  }

  /**
   Saving the session from a menu loses no row on any schedule exactly when rows
   are committed one by one or no thread can still scan.
   */
  lemma SavesSafelyExactly(batch: nat, paths: seq<Path>, threads: nat, before: seq<Action>, m: Sys)
    requires batch >= 1 && Distinct(paths) && IsRun(Start(batch, paths, threads), before, m) && m.controller.Menu?
    ensures SavesSafely(m) <==> batch == 1 || NoneCanScan(m)
  {
    if batch == 1 || NoneCanScan(m) {
      forall after, t | IsRun(Next(m, Flush), after, t) && t.controller.Exported?
        ensures NothingLost(t)
      {
        if NoneCanScan(m) {
          FrozenExportIsDurable(batch, paths, threads, before, m, after, t);
        } else {
          StartInv(batch, paths, threads);
          RunKeepsInv(Start(batch, paths, threads), before, m, multiset(paths));
          StepKeepsInv(m, Flush, multiset(paths));
          RunKeepsInv(Next(m, Flush), after, t, multiset(paths));
        }
      }
    } else {
      var w: nat :| w < |m.workers| && CanScan(m, w);
      LateScanLosesRow(batch, paths, threads, before, m, w);
    }
  }

  /**
   A pause that starts with no more permits than parked threads, is acknowledged,
   and is not disturbed by a failing callback stops every worker and leaves no
   permit behind, so that the next pause starts the same way.
   */
  lemma AcknowledgedPauseStops(s: Sys, actions: seq<Action>, t: Sys)
    requires s.controller.Watching? && s.permits <= ParkedCount(s.workers, |s.workers|)
    requires IsOrderlyRun(Next(s, Pause), actions, t) && t.controller.Menu?
    ensures Quiescent(t.workers) && !t.playing && t.permits == 0
  {
    OrderlyRunKeepsPause(Next(s, Pause), actions, t);
  }

  lemma MissingRowsAccounted(t: Sys)
    requires Batched(t) && OpenRowsAccounted(t)
    ensures forall i :: |t.db.durable| <= i < |t.saved| ==>
              t.saved[i].path in Claimed(t.workers, |t.workers|) + t.late
  {
    forall i | |t.db.durable| <= i < |t.saved|
      ensures t.saved[i].path in Claimed(t.workers, |t.workers|) + t.late
    {
      assert t.saved[i] == t.db.open_[i - |t.db.durable|];
    }
  }

  /**
   In every run at all, the durable rows are a prefix of the saved rows and miss
   fewer than a batch; a missing row belongs to a pending path or to one released
   after the last flush. With a batch of one nothing is ever missing.
   */
  lemma RowsMissFewerThanBatch(batch: nat, paths: seq<Path>, threads: nat, actions: seq<Action>, t: Sys)
    requires batch >= 1 && IsRun(Start(batch, paths, threads), actions, t)
    ensures t.db.durable <= t.saved && |t.saved| - |t.db.durable| < batch
    ensures forall i :: |t.db.durable| <= i < |t.saved| ==>
              t.saved[i].path in Claimed(t.workers, |t.workers|) + t.late
  {
    StartInv(batch, paths, threads);
    RunKeepsInv(Start(batch, paths, threads), actions, t, multiset(paths));
    MissingRowsAccounted(t);
  }

  // --------------------------------------------------- why the pause must be orderly

  /** One thread is claimed on a path when a pause times out. */
  lemma OneThreadTimesOut(batch: nat, path: Path, more: seq<Path>) returns (actions: seq<Action>, t: Sys)
    ensures IsRun(Start(batch, [path] + more, 1), actions, t)
    ensures t == Sys(batch, more, [Scanning(path)], false, false, 0, Menu(false), Db([], []), [], [], [])
  {
    var s := Start(batch, [path] + more, 1);
    assert s.workers == [Idle] && s.queue[1..] == more;
    RunThenTwo(s, [], s, Claim(0), Pause);
    var s2 := Sys(batch, more, [Scanning(path)], false, false, 0, Acquiring(0, false, 0), Db([], []), [], [], []);
    assert Next(Next(s, Claim(0)), Pause) == s2;
    RunThenTwo(s, [] + [Claim(0)] + [Pause], s2, Look, TimeOut);
    actions := [] + [Claim(0)] + [Pause] + [Look] + [TimeOut];
    t := Next(Next(s2, Look), TimeOut);
  }

  /**
   Saving the session from the menu of a pause that timed out can lose a row for
   good: the path is not pending any more and its row is not durable.
   */
  lemma TimedOutPauseLosesRow(path: Path) returns (actions: seq<Action>, t: Sys)
    ensures IsRun(Start(2, [path], 1), actions, t)
    ensures t.controller == Exported([]) && t.saved == [Row(path, 200)] && t.db.durable == []
  {
    var start := Start(2, [path], 1);
    assert [path] + [] == [path];
    var prefix, s := OneThreadTimesOut(2, path, []);
    RunThenTwo(start, prefix, s, Flush, SaveRow(0, 200));
    var row := Row(path, 200);
    var s2 := Sys(2, [], [Scanning(path)], false, false, 0, Flushed(false), Db([], [row]), [row], [], []);
    assert Next(Next(s, Flush), SaveRow(0, 200)) == s2;
    var actions2 := prefix + [Flush] + [SaveRow(0, 200)];
    RunThenTwo(start, actions2, s2, Release(0, false), Export);
    actions := actions2 + [Release(0, false)] + [Export];
    t := Next(Next(s2, Release(0, false)), Export);
    assert Next(s2, Release(0, false)).workers == [Checking(false)];
    assert Claimed([Checking(false)], 1) == [];
  }

  /** The thread parks after a pause that timed out. */
  lemma LatePost(path: Path, other: Path) returns (actions: seq<Action>, t: Sys)
    ensures IsRun(Start(2, [path, other], 1), actions, t)
    ensures t == Sys(2, [other], [Posted(false)], false, false, 1, Menu(false), Db([], []), [], [path], [path])
  {
    assert [path] + [other] == [path, other];
    var prefix, s := OneThreadTimesOut(2, path, [other]);
    RunThenTwo(Start(2, [path, other], 1), prefix, s, Release(0, false), Post(0));
    actions := prefix + [Release(0, false)] + [Post(0)];
    t := Next(Next(s, Release(0, false)), Post(0));
  }

  /** Its permit is left behind when the fuzzer plays on. */
  lemma PermitLeftBehind(path: Path, other: Path) returns (actions: seq<Action>, t: Sys)
    ensures IsRun(Start(2, [path, other], 1), actions, t)
    ensures t == Sys(2, [other], [Woken(false)], true, false, 1, Watching, Db([], []), [], [path], [path])
  {
    var prefix, s := LatePost(path, other);
    RunThenTwo(Start(2, [path, other], 1), prefix, s, Play, Block(0));
    actions := prefix + [Play] + [Block(0)];
    t := Next(Next(s, Play), Block(0));
  }

  /** The next pause is then acknowledged while the thread is still scanning. */
  lemma StalePermitAcknowledges(path: Path, other: Path) returns (actions: seq<Action>, t: Sys)
    ensures IsRun(Start(2, [path, other], 1), actions, t)
    ensures t.controller == Menu(true) && t.workers == [Scanning(other)]
  {
    var start := Start(2, [path, other], 1);
    var prefix, s := NextPauseLooks(path, other);
    RunThenTwo(start, prefix, s, Take, Acknowledge);
    actions := prefix + [Take] + [Acknowledge];
    t := Next(Next(s, Take), Acknowledge);
  }

  lemma NextPauseLooks(path: Path, other: Path) returns (actions: seq<Action>, t: Sys)
    ensures IsRun(Start(2, [path, other], 1), actions, t)
    ensures t.workers == [Scanning(other)] && t.permits == 1 && t.controller == Acquiring(0, true, 0)
  {
    var start := Start(2, [path, other], 1);
    var prefix, s := PermitLeftBehind(path, other);
    RunThenTwo(start, prefix, s, Resume(0), Claim(0));
    var s2 := Sys(2, [], [Scanning(other)], true, false, 1, Watching, Db([], []), [], [path], [path]);
    assert Next(Next(s, Resume(0)), Claim(0)) == s2;
    var actions2 := prefix + [Resume(0)] + [Claim(0)];
    RunThenTwo(start, actions2, s2, Pause, Look);
    actions := actions2 + [Pause] + [Look];
    t := Next(Next(s2, Pause), Look);
  }

  /** Three threads have claimed a path each when a pause starts. */
  lemma ThreeThreadsScan(a: Path, b: Path, c: Path) returns (actions: seq<Action>, t: Sys)
    ensures IsRun(Start(2, [a, b, c], 3), actions, t)
    ensures t == Sys(2, [], [Scanning(a), Scanning(b), Scanning(c)], false, false, 0, Acquiring(0, false, 0),
                     Db([], []), [], [], [])
  {
    var start := Start(2, [a, b, c], 3);
    assert start.workers == [Idle, Idle, Idle] && [a, b, c][1..] == [b, c] && [b, c][1..] == [c];
    RunThenTwo(start, [], start, Claim(0), Claim(1));
    var s := Sys(2, [c], [Scanning(a), Scanning(b), Idle], true, false, 0, Watching, Db([], []), [], [], []);
    assert Next(Next(start, Claim(0)), Claim(1)) == s;
    RunThenTwo(start, [] + [Claim(0)] + [Claim(1)], s, Claim(2), Pause);
    actions := [] + [Claim(0)] + [Claim(1)] + [Claim(2)] + [Pause];
    t := Next(Next(s, Claim(2)), Pause);
  }

  /** One of them parks, and another one's callback raises. */
  lemma OneParksOneFails(a: Path, b: Path, c: Path) returns (actions: seq<Action>, t: Sys)
    ensures IsRun(Start(2, [a, b, c], 3), actions, t)
    ensures t == Sys(2, [], [Posted(false), Checking(false), Scanning(c)], true, true, 1, Acquiring(0, false, 0),
                     Db([], []), [], [a, b], [a, b])
  {
    var start := Start(2, [a, b, c], 3);
    var prefix, s := ThreeThreadsScan(a, b, c);
    RunThenTwo(start, prefix, s, Release(0, false), Post(0));
    var s2 := s.(workers := [Posted(false), Scanning(b), Scanning(c)], permits := 1, released := [a], late := [a]);
    assert Next(Next(s, Release(0, false)), Post(0)) == s2;
    var actions2 := prefix + [Release(0, false)] + [Post(0)];
    RunThenTwo(start, actions2, s2, Release(1, true), StopAll(1));
    actions := actions2 + [Release(1, true)] + [StopAll(1)];
    t := Next(Next(s2, Release(1, true)), StopAll(1));
  }

  /** The parked thread and the failed one leave. */
  lemma TwoThreadsLeave(a: Path, b: Path, c: Path) returns (actions: seq<Action>, t: Sys)
    ensures IsRun(Start(2, [a, b, c], 3), actions, t)
    ensures t == Sys(2, [], [Done, Done, Scanning(c)], true, true, 1, Acquiring(1, false, 0),
                     Db([], []), [], [a, b], [a, b])
  {
    var start := Start(2, [a, b, c], 3);
    var prefix, s := OneParksOneFails(a, b, c);
    RunThenTwo(start, prefix, s, Block(0), Resume(0));
    var s2 := s.(workers := [Done, Checking(false), Scanning(c)]);
    assert Next(Next(s, Block(0)), Resume(0)) == s2;
    var actions2 := prefix + [Block(0)] + [Resume(0)];
    RunThenTwo(start, actions2, s2, Pass(1), Look);
    actions := actions2 + [Pass(1)] + [Look];
    t := Next(Next(s2, Pass(1)), Look);
  }

  /**
   The permit of a thread that has left is taken for the third one, and the pause
   is acknowledged while that one is still scanning.
   */
  lemma FailedCallbackAcknowledges(a: Path, b: Path, c: Path) returns (actions: seq<Action>, t: Sys)
    ensures IsRun(Start(2, [a, b, c], 3), actions, t)
    ensures t.controller == Menu(true) && t.workers == [Done, Done, Scanning(c)]
  {
    var start := Start(2, [a, b, c], 3);
    var prefix, s := TwoThreadsLeave(a, b, c);
    RunThenTwo(start, prefix, s, Look, Look);
    var s2 := s.(controller := Acquiring(2, true, 0));
    assert Next(Next(s, Look), Look) == s2;
    var actions2 := prefix + [Look] + [Look];
    RunThenTwo(start, actions2, s2, Take, Acknowledge);
    actions := actions2 + [Take] + [Acknowledge];
    t := Next(Next(s2, Take), Acknowledge);
  }
}
