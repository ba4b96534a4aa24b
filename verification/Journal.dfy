/**
 Crash-consistent structured reports (lib/report/factory.py).

 Entries are appended to a journal next to the report. A flush appends a commit
 record naming the state it is about to write, replaces the report atomically
 and then unlinks the journal. Any disk write may fail or the process may die
 instead of making it; the report and journal on disk must always recover to the
 original report followed by every saved entry.
 */
module Journal {
  import opened Wrappers

  type Entry = string

  datatype Report = Report(info: string, results: seq<Entry>)

  // The hash of a report state. Carrying the state makes it injective.
  datatype Digest = Digest(state: Report)

  datatype Record =
    | Header(base: Digest, format: string, version: int)
    | ResultEntry(entry: Entry)
    | Commit(entries: int, report: Digest)
    | Malformed

  // Missing stands for an absent or empty file, Foreign for one that does not parse.
  datatype ReportFile = Missing | Readable(report: Report) | Foreign

  datatype State = State(journalBase: Digest, journalEntries: nat, appliedEntries: nat)

  const JOURNAL_VERSION := 1

  /** Apply journal entries to a report. */
  function Plus(r: Report, entries: seq<Entry>): Report {
    r.(results := r.results + entries)
  }

  // ---------------------------------------------------------- reading a journal

  function EntriesUpTo(records: seq<Record>, m: nat): seq<Entry>
    requires m <= |records|
  {
    if m == 0 then [] else
    EntriesUpTo(records, m - 1) + (if records[m - 1].ResultEntry? then [records[m - 1].entry] else [])
  }

  predicate ValidRecord(records: seq<Record>, i: nat)
    requires i < |records|
  {
    match records[i]
    case ResultEntry(_) => true
    case Commit(entries, _) => 0 <= entries <= |EntriesUpTo(records, i)|
    case _ => false
  }

  /** The largest entry count committed under digest d, or -1. */
  function LastCommit(records: seq<Record>, m: nat, d: Digest): int
    requires m <= |records|
  {
    if m == 0 then -1 else
    var r := records[m - 1];
    if r.Commit? && r.report == d then Max(LastCommit(records, m - 1, d), r.entries)
    else LastCommit(records, m - 1, d)
  }

  datatype Recovered = Recovered(base: Digest, entries: seq<Entry>, applied: nat, data: Report)

  ghost predicate ValidJournal(records: seq<Record>, format: string) {
    && |records| > 0
    && records[0].Header? && records[0].format == format && records[0].version == JOURNAL_VERSION
    && forall i :: 1 <= i < |records| ==> ValidRecord(records, i)
  }

  /** What reading the journal next to the report yields. */
  ghost function Recovery(records: seq<Record>, format: string, data: Report): Option<Recovered> {
    if ValidJournal(records, format)
       && (Digest(data) == records[0].base || LastCommit(records, |records|, Digest(data)) >= 0)
    then
      var entries := EntriesUpTo(records, |records|);
      var applied := if Digest(data) == records[0].base then 0 else LastCommit(records, |records|, Digest(data));
      if applied <= |entries| then Some(Recovered(records[0].base, entries, applied, Plus(data, entries[applied..])))
      else None
    else None
  }

  lemma {:induction false} EntriesCount(records: seq<Record>, m: nat)
    requires m <= |records|
    ensures |EntriesUpTo(records, m)| == |set j | 0 <= j < m && records[j].ResultEntry?|
  {
    if m > 0 {
      EntriesCount(records, m - 1);
      var before := set j | 0 <= j < m - 1 && records[j].ResultEntry?;
      var all := set j | 0 <= j < m && records[j].ResultEntry?;
      if records[m - 1].ResultEntry? {
        assert all == before + {m - 1};
      } else {
        assert all == before;
      }
    }
  }

  /** Entry j stands behind the entries of the result records before it. */
  lemma {:induction false} EntryPlace(records: seq<Record>, j: nat, m: nat)
    requires j < m <= |records| && records[j].ResultEntry?
    ensures var k := |set i | 0 <= i < j && records[i].ResultEntry?|;
            k < |EntriesUpTo(records, m)| && EntriesUpTo(records, m)[k] == records[j].entry
    decreases m
  {
    if j < m - 1 {
      EntryPlace(records, j, m - 1);
    } else {
      EntriesCount(records, j);
    }
  }

  lemma {:induction false} LastCommitIsLargest(records: seq<Record>, m: nat, d: Digest)
    requires 1 <= m <= |records| && records[0].Header? && forall i :: 1 <= i < m ==> ValidRecord(records, i)
    ensures LastCommit(records, m, d) < 0 <==>
            forall i :: 1 <= i < m ==> !(records[i].Commit? && records[i].report == d)
    ensures forall i :: 1 <= i < m && records[i].Commit? && records[i].report == d ==>
                          records[i].entries <= LastCommit(records, m, d)
    ensures LastCommit(records, m, d) >= 0 ==>
              exists i :: 1 <= i < m && records[i] == Commit(LastCommit(records, m, d), d)
  {
    if m > 1 {
      LastCommitIsLargest(records, m - 1, d);
      var r, before := records[m - 1], LastCommit(records, m - 1, d);
      assert ValidRecord(records, m - 1);
      if r.Commit? && r.report == d && r.entries >= before {
        assert records[m - 1] == Commit(LastCommit(records, m, d), d);
      }
    }
  }

  lemma {:induction false} LastCommitCovered(records: seq<Record>, m: nat, d: Digest)
    requires m <= |records| && forall i :: 1 <= i < m ==> ValidRecord(records, i)
    requires m > 0 ==> records[0].Header?
    ensures LastCommit(records, m, d) <= |EntriesUpTo(records, m)|
  {
    if m > 1 {
      LastCommitCovered(records, m - 1, d);
      assert ValidRecord(records, m - 1);
    }
  }

  lemma RecordsValidity(records: seq<Record>)
    ensures forall i :: 1 <= i < |records| ==>
                          (ValidRecord(records, i) <==>
                           records[i].ResultEntry?
                           || (records[i].Commit? && 0 <= records[i].entries
                               <= |set j | 0 <= j < i && records[j].ResultEntry?|))
  {
    forall i | 1 <= i < |records| {
      EntriesCount(records, i);
    }
  }

  /** Which journals are refused, told of the records alone. */
  lemma RecoveryRefuses(records: seq<Record>, format: string, data: Report)
    ensures Recovery(records, format, data).None? <==>
              || records == [] || !records[0].Header? || records[0].format != format || records[0].version != 1
              || (exists i :: 1 <= i < |records| && !records[i].ResultEntry?
                              && !(records[i].Commit? && 0 <= records[i].entries
                                   <= |set j | 0 <= j < i && records[j].ResultEntry?|))
              || (records[0].base != Digest(data)
                  && forall i :: 1 <= i < |records| ==> !(records[i].Commit? && records[i].report == Digest(data)))
  {
    RecordsValidity(records);
    if ValidJournal(records, format) {
      LastCommitIsLargest(records, |records|, Digest(data));
      LastCommitCovered(records, |records|, Digest(data));
    }
  }

  /** What an accepted journal yields: every result in order, and the report with those it did not hold yet. */
  lemma RecoveryYields(records: seq<Record>, format: string, data: Report)
    ensures Recovery(records, format, data).Some? ==>
              var r := Recovery(records, format, data).value;
              && r.base == records[0].base
              && |r.entries| == |set j | 0 <= j < |records| && records[j].ResultEntry?|
              && (forall j :: 0 <= j < |records| && records[j].ResultEntry? ==>
                                var k := |set i | 0 <= i < j && records[i].ResultEntry?|;
                                k < |r.entries| && r.entries[k] == records[j].entry)
              && r.applied <= |r.entries|
              && (if records[0].base == Digest(data) then r.applied == 0
                  else (exists i :: 1 <= i < |records| && records[i] == Commit(r.applied, Digest(data)))
                       && forall i :: 1 <= i < |records| && records[i].Commit? && records[i].report == Digest(data) ==>
                                        records[i].entries <= r.applied)
              && r.data == Report(data.info, data.results + r.entries[r.applied..])
  {
    if Recovery(records, format, data).Some? {
      EntriesCount(records, |records|);
      LastCommitIsLargest(records, |records|, Digest(data));
      forall j | 0 <= j < |records| && records[j].ResultEntry? {
        EntryPlace(records, j, |records|);
      }
    }
  }

  /** The entries and commits listed after the header; None if some record is neither. */
  method ParseRecords(records: seq<Record>) returns (parsed: Option<(seq<Entry>, seq<(int, Digest)>)>)
    requires |records| > 0 && records[0].Header?
    ensures parsed.Some? <==> forall i :: 1 <= i < |records| ==> ValidRecord(records, i)
    ensures parsed.Some? ==>
              && parsed.value.0 == EntriesUpTo(records, |records|)
              && forall d :: LastCommit(records, |records|, d) == Largest(parsed.value.1, |parsed.value.1|, d)
                             <= |parsed.value.0|
  {
    var entries: seq<Entry> := [];
    var commits: seq<(int, Digest)> := [];
    for i := 1 to |records|
      invariant entries == EntriesUpTo(records, i)
      invariant forall k :: 1 <= k < i ==> ValidRecord(records, k)
      invariant forall d :: LastCommit(records, i, d) == Largest(commits, |commits|, d) <= |entries|
    {
      match records[i]
      case ResultEntry(entry) =>
        assert forall d :: LastCommit(records, i + 1, d) == LastCommit(records, i, d);
        entries := entries + [entry];
      case Commit(count, report) =>
        if !(0 <= count <= |entries|) {
          assert !ValidRecord(records, i);
          return None;
        }
        LargestAppends(commits, (count, report));
        commits := commits + [(count, report)];
      case _ =>
        assert !ValidRecord(records, i);
        return None;
    }
    parsed := Some((entries, commits));
  }

  /**
   Parse the records and apply to data the entries it does not hold yet. None
   stands for the errors raised on an invalid journal or one that does not fit.
   */
  method ReadJournal(records: seq<Record>, format: string, data: Report) returns (r: Option<Recovered>)
    ensures r == Recovery(records, format, data)
    ensures r.None? <==>
              || records == [] || !records[0].Header? || records[0].format != format || records[0].version != 1
              || (exists i :: 1 <= i < |records| && !records[i].ResultEntry?
                              && !(records[i].Commit? && 0 <= records[i].entries
                                   <= |set j | 0 <= j < i && records[j].ResultEntry?|))
              || (records[0].base != Digest(data)
                  && forall i :: 1 <= i < |records| ==> !(records[i].Commit? && records[i].report == Digest(data)))
  {
    RecoveryRefuses(records, format, data);
    if |records| == 0 || !records[0].Header? {
      return None;
    }
    var header := records[0];
    if header.format != format || header.version != JOURNAL_VERSION {
      return None;
    }
    var parsed := ParseRecords(records);
    if parsed.None? {
      return None;
    }
    var (entries, commits) := parsed.value;
    var current := Digest(data);
    var applied := 0;
    if current != header.base {
      applied := -1;
      for k := 0 to |commits|
        invariant applied == Largest(commits, k, current)
      {
        if commits[k].1 == current {
          applied := Max(applied, commits[k].0);
        }
      }
      if applied < 0 {
        return None;
      }
    }
    r := Some(Recovered(header.base, entries, applied, Plus(data, entries[applied..])));
  }

  function Largest(commits: seq<(int, Digest)>, m: nat, d: Digest): int
    requires m <= |commits|
  {
    if m == 0 then -1 else
    if commits[m - 1].1 == d then Max(Largest(commits, m - 1, d), commits[m - 1].0) else Largest(commits, m - 1, d)
  }

  lemma LargestAppends(commits: seq<(int, Digest)>, c: (int, Digest))
    ensures forall d :: Largest(commits + [c], |commits| + 1, d) ==
                        if c.1 == d then Max(Largest(commits, |commits|, d), c.0) else Largest(commits, |commits|, d)
  {
    forall d {
      LargestFrame(commits, commits + [c], |commits|, d);
    }
  }

  lemma {:induction false} LargestFrame(a: seq<(int, Digest)>, b: seq<(int, Digest)>, m: nat, d: Digest)
    requires m <= |a| && a <= b
    ensures Largest(a, m, d) == Largest(b, m, d)
  {
    if m > 0 {
      LargestFrame(a, b, m - 1, d);
    }
  }

  // ------------------------------------------------- what is on disk, and why

  /**
   The journal belongs to the report base plus the first folded entries of log,
   lists the rest of log, and every commit names the state it would have written.
   The report on disk holds applied of the listed entries, and that was committed.
   */
  ghost predicate JournalFits(records: seq<Record>, format: string, base: Report, log: seq<Entry>,
                              folded: nat, applied: nat)
  {
    && |records| > 0 && folded <= |log| && applied <= |log| - folded
    && records[0] == Header(Digest(Plus(base, log[..folded])), format, JOURNAL_VERSION)
    && EntriesUpTo(records, |records|) == log[folded..]
    && RecordsFit(records, |records|, base, log, folded)
    && (applied == 0 || Committed(records, |records|, applied))
  }

  /** The first m records are a header followed by valid entries and commits that fit the log. */
  ghost predicate RecordsFit(records: seq<Record>, m: nat, base: Report, log: seq<Entry>, folded: nat)
    requires m <= |records|
  {
    m <= 1 || (RecordsFit(records, m - 1, base, log, folded)
               && ValidRecord(records, m - 1) && CommitFits(records[m - 1], base, log, folded))
  }

  /** One of the first m records commits count entries. */
  predicate Committed(records: seq<Record>, m: nat, count: nat)
    requires m <= |records|
  {
    m > 1 && ((records[m - 1].Commit? && records[m - 1].entries == count) || Committed(records, m - 1, count))
  }

  ghost predicate CommitFits(r: Record, base: Report, log: seq<Entry>, folded: nat) {
    r.Commit? ==>
      && 0 <= r.entries && folded + r.entries <= |log|
      && r.report == Digest(Plus(base, log[..folded + r.entries]))
  }

  lemma {:induction false} EntriesFrame(a: seq<Record>, b: seq<Record>, m: nat)
    requires m <= |a| && a <= b
    ensures EntriesUpTo(a, m) == EntriesUpTo(b, m)
  {
    if m > 0 {
      EntriesFrame(a, b, m - 1);
    }
  }

  // Report states along the log are told apart by their length.
  lemma StatesDiffer(base: Report, log: seq<Entry>, m: nat, n: nat)
    requires m <= |log| && n <= |log| && Plus(base, log[..m]) == Plus(base, log[..n])
    ensures m == n
  {
    assert |Plus(base, log[..m]).results| == |base.results| + m;
    assert |Plus(base, log[..n]).results| == |base.results| + n;
  }

  /** The commits found for the current report are exactly those of its own entry count. */
  lemma {:induction false} LastCommitIsApplied(records: seq<Record>, base: Report, log: seq<Entry>,
                                               folded: nat, applied: nat, m: nat)
    requires 1 <= m <= |records| && folded + applied <= |log| && records[0].Header?
    requires RecordsFit(records, m, base, log, folded)
    ensures LastCommit(records, m, Digest(Plus(base, log[..folded + applied]))) ==
            if Committed(records, m, applied) then applied else -1
  {
    if m > 1 {
      LastCommitIsApplied(records, base, log, folded, applied, m - 1);
      var r := records[m - 1];
      if r.Commit? && r.report == Digest(Plus(base, log[..folded + applied])) {
        StatesDiffer(base, log, folded + r.entries, folded + applied);
      }
    }
  }

  lemma {:induction false} FittingRecordsValid(records: seq<Record>, m: nat, base: Report, log: seq<Entry>, folded: nat)
    requires m <= |records| && RecordsFit(records, m, base, log, folded)
    ensures forall i :: 1 <= i < m ==> ValidRecord(records, i)
  {
    if m > 1 {
      FittingRecordsValid(records, m - 1, base, log, folded);
    }
  }

  /** A fitting journal always recovers the base report plus the whole log. */
  lemma FittingJournalRecovers(records: seq<Record>, format: string, base: Report, log: seq<Entry>,
                               folded: nat, applied: nat)
    requires JournalFits(records, format, base, log, folded, applied)
    ensures var data := Plus(base, log[..folded + applied]);
            Recovery(records, format, data) ==
            Some(Recovered(Digest(Plus(base, log[..folded])), log[folded..], applied, Plus(base, log)))
  {
    var data := Plus(base, log[..folded + applied]);
    FittingRecordsValid(records, |records|, base, log, folded);
    LastCommitIsApplied(records, base, log, folded, applied, |records|);
    if Digest(data) == records[0].base {
      StatesDiffer(base, log, folded, folded + applied);
    }
    PlusRest(base, log, folded, applied);
  }

  lemma PlusRest(base: Report, log: seq<Entry>, folded: nat, applied: nat)
    requires folded + applied <= |log|
    ensures Plus(Plus(base, log[..folded + applied]), log[folded..][applied..]) == Plus(base, log)
  {
    assert log == log[..folded + applied] + log[folded..][applied..];
    assert base.results + log[..folded + applied] + log[folded..][applied..] == base.results + log;
  }

  lemma HeaderFits(format: string, base: Report, log: seq<Entry>)
    ensures JournalFits([Header(Digest(Plus(base, log)), format, JOURNAL_VERSION)], format, base, log, |log|, 0)
  {
    assert log[..|log|] == log;
    var records := [Header(Digest(Plus(base, log)), format, JOURNAL_VERSION)];
    assert EntriesUpTo(records, 1) == EntriesUpTo(records, 0) + [];
  }

  // Appending a record, or growing the log, leaves the earlier records as they were.
  lemma {:induction false} FitFrame(records: seq<Record>, grown: seq<Record>, m: nat,
                                    base: Report, log: seq<Entry>, log': seq<Entry>, folded: nat)
    requires m <= |records| && records <= grown && log <= log'
    requires RecordsFit(records, m, base, log, folded)
    ensures RecordsFit(grown, m, base, log', folded)
    ensures EntriesUpTo(grown, m) == EntriesUpTo(records, m)
    ensures forall count: nat :: Committed(grown, m, count) == Committed(records, m, count)
  {
    EntriesFrame(records, grown, m);
    if m > 1 {
      FitFrame(records, grown, m - 1, base, log, log', folded);
      EntriesFrame(records, grown, m - 1);
      var r := records[m - 1];
      if r.Commit? {
        assert log'[..folded + r.entries] == log[..folded + r.entries];
      }
    }
  }

  /** Appending a result record is what saves its entry. */
  lemma AppendEntryFits(records: seq<Record>, format: string, base: Report, log: seq<Entry>,
                        folded: nat, applied: nat, entry: Entry)
    requires JournalFits(records, format, base, log, folded, applied)
    ensures JournalFits(records + [ResultEntry(entry)], format, base, log + [entry], folded, applied)
    ensures (log + [entry])[..folded + applied] == log[..folded + applied]
  {
    FitFrame(records, records + [ResultEntry(entry)], |records|, base, log, log + [entry], folded);
    assert (log + [entry])[..folded] == log[..folded];
    assert (log + [entry])[folded..] == log[folded..] + [entry];
  }

  /** A commit record names the state the report is about to become. */
  lemma AppendCommitFits(records: seq<Record>, format: string, base: Report, log: seq<Entry>, folded: nat, applied: nat)
    requires JournalFits(records, format, base, log, folded, applied)
    ensures var grown := records + [Commit(|log| - folded, Digest(Plus(base, log)))];
            && JournalFits(grown, format, base, log, folded, applied)
            && JournalFits(grown, format, base, log, folded, |log| - folded)
  {
    FitFrame(records, records + [Commit(|log| - folded, Digest(Plus(base, log)))], |records|, base, log, log, folded);
    assert log[..|log|] == log;
  }

  // ------------------------------------------------------------ the operations

  // The n-th disk write of an operation raises, or the process dies instead of making it.
  datatype Fault = NoFault | ErrorAt(n: nat) | CrashAt(n: nat)

  datatype Outcome = Returned | Raised | Crashed

  class StructuredReport {
    const format: string
    // The disk.
    var file: ReportFile
    var journal: Option<seq<Record>>
    // The process: the entry for this file, if the report was initiated.
    var state: Option<State>
    // The fault of the running operation, and the disk writes it has tried.
    var fault: Fault
    var writes: nat
    // The report before any entry, and every entry whose record reached the disk.
    ghost var base: Option<Report>
    ghost var log: seq<Entry>
    ghost var folded: nat
    ghost var applied: nat

    ghost predicate Valid()
      reads this
    {
      match base
      case None => !file.Readable? && journal == None && state == None && log == []
      case Some(b) =>
        && folded + applied <= |log|
        && file == Readable(Plus(b, log[..folded + applied]))
        && match journal
           case None =>
             && folded == |log|
             && (state.Some? ==> state.value == State(Digest(Plus(b, log)), 0, 0))
           case Some(records) =>
             && JournalFits(records, format, b, log, folded, applied)
             && (state.Some? ==> state.value == State(records[0].base, |log| - folded, applied))
    }

    /** What a reader of report and journal reconstructs. */
    ghost function Contents(): Option<Report>
      reads this
    {
      if !file.Readable? then None
      else if journal.None? then Some(file.report)
      else match Recovery(journal.value, format, file.report)
           case Some(r) => Some(r.data)
           case None => None
    }

    /** Base plus every saved entry, once each and in order. */
    lemma ContentsComplete()
      requires Valid()
      ensures Contents() == if base.None? then None else Some(Plus(base.value, log))
    {
      if base.Some? {
        if journal.None? {
          assert log[..|log|] == log;
        } else {
          FittingJournalRecovers(journal.value, format, base.value, log, folded, applied);
        }
      }
    }

    constructor (format: string, file: ReportFile)
      ensures Valid() && this.format == format && this.file == file && journal == None && state == None && log == []
      ensures base == if file.Readable? then Some(file.report) else None
    {
      this.format, this.file := format, file;
      journal, state, fault, writes := None, None, NoFault, 0;
      base := if file.Readable? then Some(file.report) else None;
      log, folded, applied := [], 0, 0;
    }

    /** The process ends, by itself or by force; only the disk remains. */
    method Kill()
      requires Valid()
      modifies this`state
      ensures Valid() && state == None
    {
      state := None;
    }

    /** Whether the next disk write is made, raises or is preempted by a crash. */
    method Attempt() returns (o: Outcome)
      modifies this`writes, this`state
      ensures writes == old(writes) + 1
      ensures o == if fault == ErrorAt(old(writes)) then Raised
                   else if fault == CrashAt(old(writes)) then Crashed else Returned
      ensures state == if o.Crashed? then None else old(state)
    {
      o := if fault == ErrorAt(writes) then Raised else if fault == CrashAt(writes) then Crashed else Returned;
      writes := writes + 1;
      if o.Crashed? {
        state := None;
      }
    }

    /** Create the journal if there is none: only its header, nothing listed yet. */
    method EnsureJournal(s: State) returns (o: Outcome)
      requires Valid() && base.Some? && state == Some(s)
      modifies this`journal, this`writes, this`state, this`applied
      ensures Valid()
      ensures o.Returned? ==> journal.Some? && state == Some(s) && (old(journal).Some? ==> journal == old(journal))
      ensures o.Returned? && old(journal).None? ==> journal == Some([Header(s.journalBase, format, 1)])
      ensures !o.Returned? ==> journal == old(journal)
      ensures o.Raised? ==> state == Some(s)
      ensures o.Crashed? ==> state == None
      ensures fault == NoFault ==> o.Returned?
    {
      if journal.Some? {
        return Returned;
      }
      if s.journalEntries != 0 || s.appliedEntries != 0 {
        return Raised; // the journal disappeared
      }
      o := Attempt();
      if o.Returned? {
        HeaderFits(format, base.value, log);
        journal := Some([Header(s.journalBase, format, JOURNAL_VERSION)]);
        applied := 0;
      }
    }

    /** Append one result record to the journal and count it; appended tells if the record reached the disk. */
    method AppendEntry(s: State, entry: Entry) returns (o: Outcome, appended: bool)
      requires Valid() && base.Some? && journal.Some? && state == Some(s)
      modifies this`journal, this`writes, this`state, this`log
      ensures Valid()
      ensures log == if appended then old(log) + [entry] else old(log)
      ensures journal == if appended then Some(old(journal).value + [ResultEntry(entry)]) else old(journal)
      ensures (o.Returned? ==> appended && state.Some?) && (o.Raised? ==> !appended && state == Some(s))
      ensures o.Crashed? ==> state == None
      ensures fault == NoFault ==> o.Returned?
    {
      o := Attempt();
      appended := o.Returned?;
      if appended {
        AppendEntryFits(journal.value, format, base.value, log, folded, applied, entry);
        journal := Some(journal.value + [ResultEntry(entry)]);
        log := log + [entry];
        state := Some(s.(journalEntries := s.journalEntries + 1));
        if fault == CrashAt(writes) {
          state := None;
          o := Crashed;
        }
      }
    }

    /**
     Save one entry. It is part of the recovered report exactly if its record was
     appended: always when the call returns, never when it raises.
     */
    method SaveEntry(entry: Entry, f: Fault) returns (o: Outcome, appended: bool)
      requires Valid()
      modifies this
      ensures Valid() && base == old(base)
      ensures log == if appended then old(log) + [entry] else old(log)
      ensures (o.Returned? ==> appended) && (o.Raised? ==> !appended)
      ensures file == old(file)
      ensures appended ==> old(state).Some?
      ensures appended && old(journal).Some? ==> journal == Some(old(journal).value + [ResultEntry(entry)])
      ensures appended && old(journal).None? ==>
                journal == Some([Header(old(state).value.journalBase, format, 1)] + [ResultEntry(entry)])
      ensures o.Crashed? ==> state == None
      ensures f == NoFault && old(state).Some? ==> o.Returned?
      ensures !o.Crashed? ==> state.Some? == old(state).Some?
    {
      if state.None? {
        return Raised, false; // the report was not initiated
      }
      fault, writes := f, 0;
      var s := state.value;
      appended := false;
      o := EnsureJournal(s);
      if o.Returned? {
        o, appended := AppendEntry(s, entry);
      }
    }

    /** Unlink the journal; a failure to do so is not reported. */
    method RemoveJournal(whole: Report) returns (o: Outcome)
      requires Valid() && base.Some? && journal.Some? && state.Some? && folded + applied == |log|
      requires whole == Plus(base.value, log)
      modifies this`journal, this`writes, this`state, this`folded, this`applied
      ensures Valid()
      ensures !o.Raised?
      ensures o.Crashed? ==> state == None
      ensures o.Returned? ==> state.Some?
      ensures fault == NoFault ==> o.Returned? && journal == None
    {
      o := Attempt();
      if o.Returned? {
        assert log[..|log|] == log;
        journal := None;
        folded, applied := |log|, 0;
        state := Some(State(Digest(whole), 0, 0));
      } else if o.Raised? {
        o := Returned;
      }
    }

    /** Append the record that commits the state about to be written. */
    method AppendCommit(r: Recovered) returns (o: Outcome)
      requires Valid() && base.Some? && journal.Some? && state.Some?
      requires |r.entries| == |log| - folded && r.data == Plus(base.value, log)
      modifies this`journal, this`writes, this`state
      ensures Valid() && journal.Some?
      ensures o.Returned? ==> state == old(state)
      ensures o.Returned? ==> JournalFits(journal.value, format, base.value, log, folded, |log| - folded)
      ensures o.Returned? ==> journal == Some(old(journal).value + [Commit(|r.entries|, Digest(r.data))])
      ensures o.Raised? ==> state.Some?
      ensures o.Crashed? ==> state == None
      ensures fault == NoFault ==> o.Returned?
    {
      o := Attempt();
      if o.Returned? {
        AppendCommitFits(journal.value, format, base.value, log, folded, applied);
        journal := Some(journal.value + [Commit(|r.entries|, Digest(r.data))]);
      }
    }

    /** Replace the report by the committed state, atomically. */
    method ReplaceReport(r: Recovered) returns (o: Outcome)
      requires Valid() && base.Some? && journal.Some? && state.Some?
      requires JournalFits(journal.value, format, base.value, log, folded, |log| - folded)
      requires r.base == journal.value[0].base && |r.entries| == |log| - folded && r.data == Plus(base.value, log)
      modifies this`writes, this`state, this`file, this`applied
      ensures Valid()
      ensures o.Returned? ==> file == Readable(r.data) && state.Some? && folded + applied == |log|
      ensures o.Raised? ==> state.Some?
      ensures o.Crashed? ==> state == None
      ensures fault == NoFault ==> o.Returned?
    {
      o := Attempt();
      if o.Returned? {
        assert log[..|log|] == log;
        file := Readable(r.data);
        applied := |log| - folded;
        state := Some(State(r.base, |r.entries|, |r.entries|));
      }
    }

    /** Read the journal next to the report and take the counters from it. It cannot fail to fit. */
    method LoadJournal() returns (r: Recovered)
      requires Valid() && base.Some? && journal.Some?
      modifies this`state
      ensures Valid() && state.Some?
      ensures r == Recovered(Digest(Plus(base.value, log[..folded])), log[folded..], applied, Plus(base.value, log))
    {
      FittingJournalRecovers(journal.value, format, base.value, log, folded, applied);
      var recovered := ReadJournal(journal.value, format, file.report);
      r := recovered.value;
      state := Some(State(r.base, |r.entries|, r.applied));
    }

    /**
     Fold the journal into the report. Saved entries survive every outcome; a
     call without fault leaves them all in the report and no journal.
     */
    method Compact(f: Fault) returns (o: Outcome)
      requires Valid()
      modifies this
      ensures Valid() && base == old(base) && log == old(log)
      ensures o.Crashed? ==> state == None
      ensures !o.Crashed? ==> state.Some? == old(state).Some?
      ensures f == NoFault ==> o.Returned?
      ensures f == NoFault && old(state).Some? ==> journal == None
      ensures f == NoFault && old(state).Some? ==> file == Readable(Report(base.value.info, base.value.results + log))
      ensures f == NoFault && old(state).Some? && old(journal).None? ==> file == old(file) && state == old(state)
    {
      if state.None? {
        return Returned; // nothing to flush
      }
      fault, writes := f, 0;
      if journal.None? {
        assert log[..|log|] == log;
        if state.value.journalEntries != 0 || state.value.appliedEntries != 0 {
          return Raised; // the journal disappeared
        }
        return Returned;
      }
      var r := LoadJournal();
      if |r.entries| == r.applied {
        assert log[..|log|] == log;
        o := RemoveJournal(r.data);
        return;
      }
      o := WriteBack(r);
    }

    /** Commit what was recovered, then make it the report, then drop the journal. */
    method WriteBack(r: Recovered) returns (o: Outcome)
      requires Valid() && base.Some? && journal.Some? && state.Some?
      requires r.base == journal.value[0].base && |r.entries| == |log| - folded && r.data == Plus(base.value, log)
      modifies this`writes, this`state, this`file, this`journal, this`folded, this`applied
      ensures Valid()
      ensures o.Crashed? <==> state == None
      ensures fault == NoFault ==> o.Returned? && journal == None && file == Readable(r.data)
    {
      o := AppendCommit(r);
      if o.Returned? {
        o := ReplaceReport(r);
        if o.Returned? {
          o := RemoveJournal(r.data);
        }
      }
    }

    /** Create a missing report in the state newState. */
    method EnsureReport(newState: Report) returns (o: Outcome)
      requires Valid() && state == None && !file.Foreign?
      modifies this`writes, this`state, this`file, this`base, this`folded, this`applied
      ensures Valid() && state == None
      ensures base == old(base) || (old(base).None? && base == Some(newState))
      ensures o.Returned? ==> file.Readable? && base.Some?
      ensures file == if o.Returned? && old(file).Missing? then Readable(newState) else old(file)
      ensures fault == NoFault ==> o.Returned?
    {
      if file.Readable? {
        return Returned;
      }
      o := Attempt();
      if o.Returned? {
        file := Readable(newState);
        base := Some(newState);
        folded, applied := 0, 0;
      }
    }

    /**
     Open the report in a new process, recovering whatever is on disk. A missing
     report is created in the state newState; a foreign file is refused.
     */
    method Initiate(newState: Report, f: Fault) returns (o: Outcome)
      requires Valid()
      modifies this
      ensures Valid() && log == old(log)
      ensures base == old(base) || (old(base).None? && base == Some(newState))
      ensures o.Returned? ==> state.Some? && base.Some?
      ensures o.Crashed? || o.Raised? ==> state == None
      ensures f == NoFault && !old(file).Foreign? ==> o.Returned?
      ensures old(file).Foreign? ==> o.Raised? && file == Foreign
      ensures old(file).Readable? ==> file == old(file)
      ensures old(file).Missing? && old(state).None? && o.Returned? ==> file == Readable(newState)
      ensures f == NoFault && o.Returned? && old(state).None? ==>
                journal.None? || state.value.appliedEntries < state.value.journalEntries
    {
      if state.Some? {
        return Returned;
      }
      fault, writes := f, 0;
      if file.Foreign? {
        return Raised;
      }
      o := EnsureReport(newState);
      if !o.Returned? {
        return;
      }
      o := Adopt();
    }

    /** Take the report and its journal as they are on disk, dropping a journal that lists nothing new. */
    method Adopt() returns (o: Outcome)
      requires Valid() && state == None && base.Some?
      modifies this`writes, this`state, this`journal, this`folded, this`applied
      ensures Valid() && !o.Raised?
      ensures o.Crashed? <==> state == None
      ensures fault == NoFault ==>
                o.Returned? && (journal.None? || state.value.appliedEntries < state.value.journalEntries)
    {
      if journal.None? {
        assert log[..|log|] == log;
        state := Some(State(Digest(file.report), 0, 0));
        return Returned;
      }
      var r := LoadJournal();
      if |r.entries| == r.applied {
        assert log[..|log|] == log;
        o := RemoveJournal(r.data);
        return;
      }
      return Returned;
    }

    /**
     From any state a crash can leave behind, opening the report and flushing once
     folds everything into it and removes the journal; flushing again changes nothing.
     */
    method ReopenAndFlush(newState: Report) returns (saved: Report)
      requires Valid() && base.Some?
      modifies this
      ensures Valid() && base == old(base) && log == old(log)
      ensures Some(saved) == old(Contents()) == Contents()
      ensures file == Readable(Report(base.value.info, base.value.results + log)) == Readable(saved) && journal == None
    {
      ContentsComplete();
      Kill();
      var o := Initiate(newState, NoFault);
      o := Compact(NoFault);
      saved := file.report;
      ghost var once := state;
      o := Compact(NoFault);
      assert file == Readable(saved) && state == once;
      ContentsComplete();
    }
  }

  // -------------------------------------------------------------- whole runs

  datatype Op = Save(entry: Entry, fault: Fault) | Flush(fault: Fault) | Open(newState: Report, fault: Fault) | Die

  /** The entries whose record reached the disk, in call order. */
  function Saved(ops: seq<Op>, appended: seq<bool>, m: nat): seq<Entry>
    requires m <= |ops| && m <= |appended|
  {
    if m == 0 then [] else
    Saved(ops, appended, m - 1) + if ops[m - 1].Save? && appended[m - 1] then [ops[m - 1].entry] else []
  }

  lemma {:induction false} SavedCount(ops: seq<Op>, appended: seq<bool>, m: nat)
    requires m <= |ops| && m <= |appended|
    ensures |Saved(ops, appended, m)| == |set j | 0 <= j < m && ops[j].Save? && appended[j]|
  {
    if m > 0 {
      SavedCount(ops, appended, m - 1);
      var before := set j | 0 <= j < m - 1 && ops[j].Save? && appended[j];
      var all := set j | 0 <= j < m && ops[j].Save? && appended[j];
      if ops[m - 1].Save? && appended[m - 1] {
        assert all == before + {m - 1};
      } else {
        assert all == before;
      }
    }
  }

  /** What save j appended stands behind what the saves before it appended. */
  lemma {:induction false} SavedPlace(ops: seq<Op>, appended: seq<bool>, j: nat, m: nat)
    requires j < m <= |ops| && m <= |appended| && ops[j].Save? && appended[j]
    ensures var k := |set i | 0 <= i < j && ops[i].Save? && appended[i]|;
            k < |Saved(ops, appended, m)| && Saved(ops, appended, m)[k] == ops[j].entry
    decreases m
  {
    if j < m - 1 {
      SavedPlace(ops, appended, j, m - 1);
    } else {
      SavedCount(ops, appended, j);
    }
  }

  lemma {:induction false} SavedFrame(ops: seq<Op>, a: seq<bool>, b: seq<bool>, m: nat)
    requires m <= |ops| && m <= |a| && a <= b
    ensures Saved(ops, a, m) == Saved(ops, b, m)
  {
    if m > 0 {
      SavedFrame(ops, a, b, m - 1);
    }
  }

  /** One operation of a run; saved tells if it appended an entry. */
  method Perform(report: StructuredReport, op: Op) returns (o: Outcome, saved: bool)
    requires report.Valid()
    modifies report
    ensures report.Valid()
    ensures report.log == old(report.log) + if op.Save? && saved then [op.entry] else []
    ensures op.Save? ==> (o.Returned? ==> saved) && (o.Raised? ==> !saved)
    ensures report.base == old(report.base)
            || (old(report.base).None? && op.Open? && report.base == Some(op.newState))
  {
    o, saved := Returned, false;
    match op {
      case Save(entry, fault) => o, saved := report.SaveEntry(entry, fault);
      case Flush(fault) => o := report.Compact(fault);
      case Open(newState, fault) => o := report.Initiate(newState, fault);
      case Die => report.Kill();
    }
  }

  /**
   Any sequence of saves, flushes, reopenings and process deaths, with any fault
   in each: what is on disk recovers to the report the run started from followed
   by every saved entry, once each and in order; without a report at the start it is
   the new state of one of the reopenings. A save that returned is among them, a save
   that raised is not.
   */
  method RunAll(format: string, start: ReportFile, ops: seq<Op>)
    returns (report: StructuredReport, outcomes: seq<Outcome>, appended: seq<bool>)
    ensures report.Valid() && |outcomes| == |appended| == |ops|
    ensures forall i :: 0 <= i < |ops| && ops[i].Save? ==>
                          (outcomes[i].Returned? ==> appended[i]) && (outcomes[i].Raised? ==> !appended[i])
    ensures start.Readable? ==>
              var whole := Report(start.report.info, start.report.results + Saved(ops, appended, |ops|));
              && report.Contents() == Some(whole)
              && report.file.Readable?
              && match report.journal
                 case None => report.file.report == whole
                 case Some(records) =>
                   var r := Recovery(records, report.format, report.file.report);
                   r.Some? && r.value.data == whole
    ensures !start.Readable? && report.Contents().None? ==> Saved(ops, appended, |ops|) == []
    ensures !start.Readable? && report.Contents().Some? ==>
              exists k :: 0 <= k < |ops| && ops[k].Open?
                          && report.Contents() == Some(Plus(ops[k].newState, Saved(ops, appended, |ops|)))
  {
    report := new StructuredReport(format, start);
    outcomes, appended := [], [];
    for i := 0 to |ops|
      invariant fresh(report) && report.Valid() && |outcomes| == |appended| == i
      invariant report.log == Saved(ops, appended, i)
      invariant forall k :: 0 <= k < i && ops[k].Save? ==>
                              (outcomes[k].Returned? ==> appended[k]) && (outcomes[k].Raised? ==> !appended[k])
      invariant start.Readable? ==> report.base == Some(start.report)
      invariant !start.Readable? && report.base.Some? ==>
                  exists k :: 0 <= k < i && ops[k].Open? && report.base == Some(ops[k].newState)
    {
      var o, saved := Perform(report, ops[i]);
      SavedFrame(ops, appended, appended + [saved], i);
      outcomes, appended := outcomes + [o], appended + [saved];
    }
    report.ContentsComplete();
  }
}
