/**
 The JSONL response store (lib/report/jsonl_response_store.py): every record is
 streamed to the end of the file, and a failed write is undone by truncation.

 The operating system may write less than asked, fail, and fail to truncate.
 */
module ResponseStore {
  import opened Wrappers
  import opened ByteStrings
  import opened Base64
  import opened JsonLines

  /** A write from before towards whole that stopped short. */
  predicate Partial(before: Bytes, whole: Bytes, after: Bytes) {
    before <= after <= whole && |after| < |whole|
  }

  lemma PartialWithin(start: Bytes, before: Bytes, piece: Bytes, whole: Bytes, after: Bytes)
    requires start <= before && piece <= whole && Partial(before, piece, after)
    ensures Partial(start, whole, after)
  {
  }

  lemma PrefixTransitive(a: Bytes, b: Bytes, c: Bytes)
    requires a <= b <= c
    ensures a <= c
  {
  }

  /** The stages of writing a record, all on the way to the whole. */
  lemma Stages(start: Bytes, before: Bytes, e: Entry, whole: Bytes)
    requires start <= before && whole == before + (RecordLine(e) + [LF])
    ensures var t1 := before + e.prefix;
            var t2 := t1 + Encode(e.body);
            start <= t1 <= whole && start <= t2 <= whole && t2 + [QUOTE, BRACE, LF] == whole
  {
  }

  lemma AppendStage(start: Bytes, x: Bytes, y: Bytes, z: Bytes, whole: Bytes)
    requires x + y == z <= whole
    ensures (start + x) + y == start + z && start <= start + x && start + z <= start + whole
  {
  }

  /** What has been written of a body whose first bytes, up to offset, went out in chunks. */
  function BodySoFar(before: Bytes, body: Bytes, offset: nat): Bytes {
    before + Encode(body[..Min(offset, |body|)])
  }

  /** One more chunk of a body is one more stage of the whole. */
  lemma BodyStage(start: Bytes, before: Bytes, body: Bytes, offset: nat, whole: Bytes)
    requires offset < |body| && offset % 3 == 0
    requires start <= before && before + Encode(body) <= whole
    ensures var done, next := BodySoFar(before, body, offset), BodySoFar(before, body, offset + CHUNK_SIZE);
            var end := Min(offset + CHUNK_SIZE, |body|);
            start <= done && done + Encode(body[offset..end]) == next <= whole
  {
    var end := Min(offset + CHUNK_SIZE, |body|);
    ChunkExtends(body, offset);
    EncodingIsPrefix(body, offset, end);
    AppendStage(before, Encode(body[..offset]), Encode(body[offset..end]), Encode(body[..end]), Encode(body));
    PrefixTransitive(start, before, BodySoFar(before, body, offset));
    PrefixTransitive(before + Encode(body[..end]), before + Encode(body), whole);
  }

  // ---------------------------------------------------- what the system delivers

  /** What one write call does: write up to so many bytes, or raise an error. */
  datatype WriteOutcome = Wrote(count: nat) | Failed

  /** How many bytes got written, whether that was all, and the outcomes of the writes to come. */
  datatype Delivery = Delivery(count: nat, complete: bool, left: seq<WriteOutcome>)

  function Plus(n: nat, d: Delivery): Delivery {
    d.(count := n + d.count)
  }

  /** One piece of data, written in a loop; without outcomes left every write succeeds in full. */
  function Deliver(size: nat, outcomes: seq<WriteOutcome>): Delivery
    decreases |outcomes|
  {
    if size == 0 then Delivery(0, true, outcomes)
    else if outcomes == [] then Delivery(size, true, [])
    else
      var n := if outcomes[0].Failed? then 0 else Min(outcomes[0].count, size);
      if n == 0 then Delivery(0, false, outcomes[1..]) else Plus(n, Deliver(size - n, outcomes[1..]))
  }

  lemma PieceWritten(before: Bytes, data: Bytes, done: nat, n: nat)
    requires done + n <= |data|
    ensures before + data[..done] + data[done..][..n] == before + data[..done + n]
  {
    assert data[..done] + data[done..][..n] == data[..done + n];
    Assoc(before, data[..done], data[done..][..n]);
  }

  /** Several pieces in turn, up to the first that is not complete. */
  function DeliverAll(sizes: seq<nat>, outcomes: seq<WriteOutcome>): Delivery {
    if sizes == [] then Delivery(0, true, outcomes) else
    var d := Deliver(sizes[0], outcomes);
    if d.complete then Plus(d.count, DeliverAll(sizes[1..], d.left)) else d
  }

  /** The sizes of the encoded chunks of a body from offset on. */
  function ChunkSizes(body: Bytes, offset: nat): seq<nat>
    decreases |body| - offset
  {
    if offset >= |body| then [] else
    [|Encode(body[offset..Min(offset + CHUNK_SIZE, |body|)])|] + ChunkSizes(body, offset + CHUNK_SIZE)
  }

  /** A body goes out in chunks of 58368 bytes, the last one perhaps shorter. */
  lemma {:induction false} ChunkCount(body: Bytes, offset: nat)
    requires offset <= |body|
    ensures |ChunkSizes(body, offset)| == (|body| - offset + 58367) / 58368
    decreases |body| - offset
  {
    if offset + CHUNK_SIZE < |body| {
      ChunkCount(body, offset + CHUNK_SIZE);
    }
  }

  /** The pieces a record is written in. */
  function PieceSizes(separate: bool, e: Entry): seq<nat> {
    (if separate then [1] else []) + ([|e.prefix|] + (ChunkSizes(e.body, 0) + [3]))
  }

  lemma {:induction false} DeliverConcat(a: seq<nat>, b: seq<nat>, outcomes: seq<WriteOutcome>)
    ensures var d := DeliverAll(a, outcomes);
            DeliverAll(a + b, outcomes) == if d.complete then Plus(d.count, DeliverAll(b, d.left)) else d
  {
    if a == [] {
      assert a + b == b;
    } else {
      assert (a + b)[1..] == a[1..] + b;
      DeliverConcat(a[1..], b, Deliver(a[0], outcomes).left);
    }
  }

  lemma DeliverOne(size: nat, outcomes: seq<WriteOutcome>)
    ensures DeliverAll([size], outcomes) == Deliver(size, outcomes)
  {
    assert [size][1..] == [];
  }

  lemma DeliverFirst(size: nat, rest: seq<nat>, outcomes: seq<WriteOutcome>)
    ensures var d := Deliver(size, outcomes);
            DeliverAll([size] + rest, outcomes) == if d.complete then Plus(d.count, DeliverAll(rest, d.left)) else d
  {
    assert ([size] + rest)[1..] == rest;
  }

  /** A delivery is complete unless a write fails or writes nothing, and stops there. */
  lemma {:induction false} DeliverUses(size: nat, outcomes: seq<WriteOutcome>)
    ensures var d := Deliver(size, outcomes); var used := |outcomes| - |d.left|;
            && 0 <= used && d.left == outcomes[used..]
            && (d.complete ==> forall i :: 0 <= i < used ==> outcomes[i].Wrote? && outcomes[i].count > 0)
            && (!d.complete ==> used > 0 && outcomes[used - 1] in {Failed, Wrote(0)})
    decreases |outcomes|
  {
    if size > 0 && outcomes != [] && outcomes[0].Wrote? && outcomes[0].count > 0 {
      DeliverUses(size - Min(outcomes[0].count, size), outcomes[1..]);
    }
  }

  lemma {:induction false} DeliverAllUses(sizes: seq<nat>, outcomes: seq<WriteOutcome>)
    ensures var d := DeliverAll(sizes, outcomes); var used := |outcomes| - |d.left|;
            && 0 <= used && d.left == outcomes[used..]
            && (d.complete ==> forall i :: 0 <= i < used ==> outcomes[i].Wrote? && outcomes[i].count > 0)
            && (!d.complete ==> used > 0 && outcomes[used - 1] in {Failed, Wrote(0)})
  {
    if sizes != [] {
      var d := Deliver(sizes[0], outcomes);
      DeliverUses(sizes[0], outcomes);
      if d.complete {
        DeliverAllUses(sizes[1..], d.left);
      }
    }
  }

  // --------------------------------------------------------------------- its runs

  /**
   What became of one save: recorded, refused with the file as it was, or failed
   with so many bytes left behind because the truncation failed as well.
   */
  datatype Attempt = Recorded(entry: Entry) | Refused(entry: Entry) | Left(entry: Entry, count: nat)

  datatype State = State(file: Bytes, needsSeparator: bool)

  function After(s: State, a: Attempt): State {
    match a
    case Recorded(e) => State(s.file + Appended(s.needsSeparator, e), false)
    case Refused(_) => s
    case Left(e, count) =>
      var added := Appended(s.needsSeparator, e);
      s.(file := s.file + added[..Min(count, |added|)])
  }

  /** The store after the saves since it was opened. */
  function Run(initial: Bytes, attempts: seq<Attempt>): State {
    if attempts == [] then State(initial, NeedsSeparator(initial))
    else After(Run(initial, attempts[..|attempts| - 1]), attempts[|attempts| - 1])
  }

  lemma RunAppend(initial: Bytes, attempts: seq<Attempt>, a: Attempt)
    ensures Run(initial, attempts + [a]) == After(Run(initial, attempts), a)
  {
    assert (attempts + [a])[..|attempts|] == attempts;
  }

  /** Nothing is left behind beyond what was to be written. */
  predicate Possible(initial: Bytes, attempts: seq<Attempt>) {
    attempts == [] ||
    var before, a := attempts[..|attempts| - 1], attempts[|attempts| - 1];
    Possible(initial, before) && WellFormed(a.entry)
    && (a.Left? ==> a.count < |Appended(Run(initial, before).needsSeparator, a.entry)|)
  }

  lemma PossibleAppend(initial: Bytes, attempts: seq<Attempt>, a: Attempt)
    requires Possible(initial, attempts) && WellFormed(a.entry)
    requires a.Left? ==> a.count < |Appended(Run(initial, attempts).needsSeparator, a.entry)|
    ensures Possible(initial, attempts + [a])
  {
    assert (attempts + [a])[..|attempts|] == attempts;
  }

  // ------------------------------------------------------------------- the store

  class JsonlResponseStore {
    var file: Bytes
    var needsSeparator: bool
    var closed: bool
    var outcomes: seq<WriteOutcome>  // of the writes to come; later ones succeed in full
    ghost const initial: Bytes
    ghost var attempts: seq<Attempt>

    ghost predicate Valid()
      reads this
    {
      State(file, needsSeparator) == Run(initial, attempts) && Possible(initial, attempts)
    }

    constructor (existing: Bytes, outcomes: seq<WriteOutcome>)
      ensures Valid() && file == initial == existing && attempts == [] && !closed && this.outcomes == outcomes
      ensures needsSeparator == NeedsSeparator(existing)
      ensures needsSeparator <==> existing != [] && existing[|existing| - 1] != 10
    {
      file := existing;
      needsSeparator := existing != [] && existing[|existing| - 1] != LF;
      closed := false;
      this.outcomes := outcomes;
      initial := existing;
      attempts := [];
    }

    /** One system call; None stands for an OSError. */
    method Write(data: Bytes) returns (written: Option<nat>)
      modifies this`file, this`outcomes
      ensures outcomes == if old(outcomes) == [] then [] else old(outcomes)[1..]
      ensures written == if old(outcomes) == [] then Some(|data|)
                         else match old(outcomes)[0]
                              case Failed => None
                              case Wrote(count) => Some(Min(count, |data|))
      ensures file == old(file) + if written.Some? then data[..written.value] else []
    {
      if outcomes == [] {
        file := file + data;
        return Some(|data|);
      }
      var outcome := outcomes[0];
      outcomes := outcomes[1..];
      match outcome {
        case Failed => return None;
        case Wrote(count) =>
          var n := Min(count, |data|);
          file := file + data[..n];
          return Some(n);
      }
    }

    /**
     Write all the data, or stop at an error or a zero-length write. The ghost
     arguments say which longer write this is a stage of.
     */
    method WriteAll(data: Bytes, ghost start: Bytes, ghost whole: Bytes) returns (ok: bool)
      requires start <= file && file + data <= whole
      modifies this`file, this`outcomes
      ensures ok ==> file == old(file) + data
      ensures !ok ==> Partial(start, whole, file)
      ensures |file| >= |old(file)|
      ensures Deliver(|data|, old(outcomes)) == Delivery(|file| - |old(file)|, ok, outcomes)
    {
      ghost var before := file;
      var done := 0;
      while done < |data|
        invariant 0 <= done <= |data| && file == before + data[..done]
        invariant Deliver(|data|, old(outcomes)) == Plus(done, Deliver(|data| - done, outcomes))
      {
        var written := Write(data[done..]);
        if written.None? || written.value == 0 {
          PartialWithin(start, before, before + data, whole, file);
          return false;
        }
        PieceWritten(before, data, done, written.value);
        done := done + written.value;
      }
      return true;
    }

    /** Stream a body in separately encoded chunks. */
    method WriteBody(body: Bytes, ghost start: Bytes, ghost whole: Bytes) returns (ok: bool)
      requires start <= file && file + Encode(body) <= whole
      modifies this`file, this`outcomes
      ensures ok ==> file == old(file) + Encode(body)
      ensures !ok ==> Partial(start, whole, file)
      ensures |file| >= |old(file)|
      ensures DeliverAll(ChunkSizes(body, 0), old(outcomes)) == Delivery(|file| - |old(file)|, ok, outcomes)
    {
      ghost var before := file;
      var offset := 0;
      while offset < |body|
        invariant offset % 3 == 0
        invariant file == BodySoFar(before, body, offset)
        invariant DeliverAll(ChunkSizes(body, 0), old(outcomes)) ==
                  Plus(|file| - |before|, DeliverAll(ChunkSizes(body, offset), outcomes))
      {
        var end := Min(offset + CHUNK_SIZE, |body|);
        BodyStage(start, before, body, offset, whole);
        DeliverFirst(|Encode(body[offset..end])|, ChunkSizes(body, offset + CHUNK_SIZE), outcomes);
        ok := WriteAll(Encode(body[offset..end]), start, whole);
        if !ok {
          return;
        }
        NextOffset(offset);
        offset := offset + CHUNK_SIZE;
      }
      assert body[..|body|] == body;
      return true;
    }

    /** The pieces of a record after the separator. */
    method WritePieces(e: Entry, ghost start: Bytes, ghost whole: Bytes) returns (ok: bool)
      requires start <= file && whole == file + (RecordLine(e) + [LF])
      modifies this`file, this`outcomes
      ensures if ok then file == whole else Partial(start, whole, file)
      ensures |file| >= |old(file)|
      ensures DeliverAll(PieceSizes(false, e), old(outcomes)) == Delivery(|file| - |old(file)|, ok, outcomes)
    {
      ghost var chunks := ChunkSizes(e.body, 0);
      Stages(start, file, e, whole);
      DeliverFirst(|e.prefix|, chunks + [3], outcomes);
      assert PieceSizes(false, e) == [|e.prefix|] + (chunks + [3]);
      ok := WriteAll(e.prefix, start, whole);
      if !ok {
        return;
      }
      DeliverConcat(chunks, [3], outcomes);
      ok := WriteBody(e.body, start, whole);
      if !ok {
        return;
      }
      DeliverOne(3, outcomes);
      ok := WriteAll([QUOTE, BRACE, LF], start, whole);
    }

    /** Stream one record at the end of the file. */
    method WriteRecord(e: Entry) returns (ok: bool)
      modifies this`file, this`outcomes
      ensures var whole := old(file) + Appended(needsSeparator, e);
              if ok then file == whole else Partial(old(file), whole, file)
      ensures |file| >= |old(file)|
      ensures DeliverAll(PieceSizes(needsSeparator, e), old(outcomes)) == Delivery(|file| - |old(file)|, ok, outcomes)
    {
      ghost var start, whole := file, file + Appended(needsSeparator, e);
      if needsSeparator {
        Assoc(start, [LF], RecordLine(e) + [LF]);
        DeliverFirst(1, PieceSizes(false, e), outcomes);
        assert PieceSizes(true, e) == [1] + PieceSizes(false, e);
        ok := WriteAll([LF], start, whole);
        if !ok {
          return;
        }
      } else {
        assert Appended(false, e) == RecordLine(e) + [LF];
      }
      ok := WritePieces(e, start, whole);
    }

    method Truncate(size: nat)
      requires size <= |file|
      modifies this`file
      ensures file == old(file[..size])
    {
      file := file[..size];
    }

    /** Write a record; a write that stops short is truncated away, if that works. */
    method Append(e: Entry, truncateWorks: bool) returns (ok: bool)
      modifies this`file, this`outcomes
      ensures var d, added := DeliverAll(PieceSizes(needsSeparator, e), old(outcomes)), Appended(needsSeparator, e);
              && ok == d.complete && outcomes == d.left
              && (ok ==> file == old(file) + added)
              && (!ok && truncateWorks ==> file == old(file))
              && (!ok && !truncateWorks ==> d.count < |added| && file == old(file) + added[..d.count])
    {
      var originalSize := |file|;
      ok := WriteRecord(e);
      if !ok && truncateWorks {
        Truncate(originalSize);
      }
    }

    /**
     Save a record in any state of the store, also one that a failed truncation
     left behind. The file, the flag and the outcome are those of the attempt.
     */
    method Save(e: Entry, truncateWorks: bool) returns (ok: bool)
      requires Valid() && WellFormed(e)
      modifies this`file, this`needsSeparator, this`outcomes, this`attempts
      ensures Valid()
      ensures var d := DeliverAll(PieceSizes(old(needsSeparator), e), old(outcomes));
              && ok == (!closed && d.complete)
              && outcomes == (if closed then old(outcomes) else d.left)
              && attempts == old(attempts) +
                  [if ok then Recorded(e) else if closed || truncateWorks then Refused(e) else Left(e, d.count)]
      ensures ok ==> file == old(file) + ((if old(needsSeparator) then [10] else []) +
                                          (e.prefix + Encode(e.body) + [34, 125] + [10]))
      ensures needsSeparator == (!ok && old(needsSeparator))
      ensures closed || (!ok && truncateWorks) ==> file == old(file)
      ensures closed ==> !ok
    {
      if closed {
        RunAppend(initial, attempts, Refused(e));
        PossibleAppend(initial, attempts, Refused(e));
        attempts := attempts + [Refused(e)];
        return false;
      }
      ghost var d := DeliverAll(PieceSizes(needsSeparator, e), outcomes);
      ok := Append(e, truncateWorks);
      ghost var a := if ok then Recorded(e) else if truncateWorks then Refused(e) else Left(e, d.count);
      RunAppend(initial, attempts, a);
      PossibleAppend(initial, attempts, a);
      attempts := attempts + [a];
      if ok {
        needsSeparator := false;
      }
    }

    method Close()
      modifies this`closed
      ensures closed
    {
      closed := true;
    }
  }

  // ---------------------------------------------------- what a run leaves behind

  function Successes(attempts: seq<Attempt>): seq<Entry> {
    if attempts == [] then [] else
    var a := attempts[|attempts| - 1];
    Successes(attempts[..|attempts| - 1]) + if a.Recorded? then [a.entry] else []
  }

  /** All the bytes that failed truncations left in the file. */
  function LeftBytes(attempts: seq<Attempt>): nat {
    if attempts == [] then 0 else
    var a := attempts[|attempts| - 1];
    LeftBytes(attempts[..|attempts| - 1]) + if a.Left? then a.count else 0
  }

  /** The flag stands for a missing final newline until the first record. */
  lemma {:induction false} FlagOfRun(initial: Bytes, attempts: seq<Attempt>)
    ensures Run(initial, attempts).needsSeparator == (Successes(attempts) == [] && NeedsSeparator(initial))
  {
    if attempts != [] {
      FlagOfRun(initial, attempts[..|attempts| - 1]);
    }
  }

  lemma {:induction false} SuccessesWellFormed(initial: Bytes, attempts: seq<Attempt>)
    requires Possible(initial, attempts)
    ensures AllWellFormed(Successes(attempts))
  {
    if attempts != [] {
      SuccessesWellFormed(initial, attempts[..|attempts| - 1]);
    }
  }

  /**
   While every failed save was undone, or wrote nothing, the file is the initial
   content and exactly the records of the successful saves.
   */
  lemma {:induction false} CleanRun(initial: Bytes, attempts: seq<Attempt>)
    requires LeftBytes(attempts) == 0
    ensures Run(initial, attempts).file == Layout(initial, Successes(attempts))
  {
    if attempts != [] {
      var before, a := attempts[..|attempts| - 1], attempts[|attempts| - 1];
      CleanRun(initial, before);
      FlagOfRun(initial, before);
      if a.Recorded? {
        LayoutAppend(initial, Successes(before), a.entry);
      } else {
        assert Successes(before) + [] == Successes(before);
      }
    }
  }

  /** Clean runs before and after a reopening lay the file out like one clean run. */
  lemma ReopenedRun(initial: Bytes, earlier: seq<Attempt>, later: seq<Attempt>)
    requires LeftBytes(earlier) == 0 && LeftBytes(later) == 0
    ensures Run(Run(initial, earlier).file, later).file == Layout(initial, Successes(earlier) + Successes(later))
  {
    CleanRun(initial, earlier);
    CleanRun(Run(initial, earlier).file, later);
    LayoutReopened(initial, Successes(earlier), Successes(later));
  }

  /** Close a store and open its file again. */
  method Reopen(store: JsonlResponseStore, outcomes: seq<WriteOutcome>) returns (next: JsonlResponseStore)
    requires store.Valid()
    modifies store`closed
    ensures store.Valid() && store.closed && fresh(next) && next.Valid() && !next.closed
    ensures next.initial == next.file == Run(store.initial, store.attempts).file && next.attempts == []
    ensures next.needsSeparator == NeedsSeparator(next.file)
  {
    store.Close();
    next := new JsonlResponseStore(store.file, outcomes);
  }

  lemma RecordWidth(entries: seq<Entry>, e: Entry)
    ensures Width(RecordLines(entries + [e])) == Width(RecordLines(entries)) + |RecordLine(e)| + 1
  {
    assert RecordLines(entries + [e]) == RecordLines(entries) + [RecordLine(e)];
    WidthConcat(RecordLines(entries), [RecordLine(e)]);
    assert [RecordLine(e)][1..] == [];
  }

  lemma AppendedLength(separate: bool, e: Entry)
    ensures |Appended(separate, e)| == |RecordLine(e)| + if separate then 2 else 1
  {
  }

  /** Every byte of the file is accounted for. */
  lemma {:induction false} LengthOfRun(initial: Bytes, attempts: seq<Attempt>)
    requires Possible(initial, attempts)
    ensures var saved := Successes(attempts);
            |Run(initial, attempts).file| == |initial| + Width(RecordLines(saved)) + LeftBytes(attempts)
                                             + if saved == [] then 0 else |Separator(initial)|
  {
    if attempts != [] {
      var before, a := attempts[..|attempts| - 1], attempts[|attempts| - 1];
      LengthOfRun(initial, before);
      FlagOfRun(initial, before);
      if a.Recorded? {
        RecordWidth(Successes(before), a.entry);
        AppendedLength(Run(initial, before).needsSeparator, a.entry);
      } else {
        assert Successes(before) + [] == Successes(before);
      }
    }
  }

  lemma AppendedStarts(e: Entry, n: nat)
    requires n <= 1
    ensures n <= |Appended(true, e)| && Appended(true, e)[..n] == if n == 1 then [LF] else []
  {
  }

  /** Before the first record, a lone separator can be left behind without harm. */
  lemma {:induction false} SeparatorLeft(initial: Bytes, attempts: seq<Attempt>)
    requires Possible(initial, attempts) && Successes(attempts) == [] && LeftBytes(attempts) <= |Separator(initial)|
    ensures Run(initial, attempts).file == initial + if LeftBytes(attempts) == 0 then [] else [LF]
  {
    if attempts != [] {
      var before, a := attempts[..|attempts| - 1], attempts[|attempts| - 1];
      SeparatorLeft(initial, before);
      FlagOfRun(initial, before);
      if a.Left? && NeedsSeparator(initial) {
        AppendedStarts(a.entry, a.count);
      }
    }
  }

  /** The bytes a run may leave behind: nothing, or a needed separator as long as no record follows. */
  predicate LeftNothingWrong(initial: Bytes, attempts: seq<Attempt>) {
    LeftBytes(attempts) <= if Successes(attempts) == [] then |Separator(initial)| else 0
  }

  /**
   Over any run of saves, with any writes and truncations failing: the file has the
   initial lines and one line per successful save, exactly if nothing wrong was left
   behind.
   */
  lemma LinesOfRun(initial: Bytes, attempts: seq<Attempt>)
    requires Possible(initial, attempts)
    ensures Lines(Run(initial, attempts).file) == Lines(initial) + RecordLines(Successes(attempts))
            <==> LeftNothingWrong(initial, attempts)
  {
    var saved, file := Successes(attempts), Run(initial, attempts).file;
    SuccessesWellFormed(initial, attempts);
    if LeftBytes(attempts) == 0 {
      CleanRun(initial, attempts);
      LinesOfLayout(initial, saved);
    } else if LeftNothingWrong(initial, attempts) {
      SeparatorLeft(initial, attempts);
      SeparatorAddsNoLine(initial);
      assert RecordLines(saved) == [] && Lines(initial) + [] == Lines(initial);
    } else {
      LengthOfRun(initial, attempts);
      LinesWidth(initial);
      LinesWidth(file);
      WidthConcat(Lines(initial), RecordLines(saved));
    }
  }

  // --------------------------------------------------------------- two failing runs

  /** The first write of a record delivers one byte and the second one fails. */
  lemma OneByteDelivered(size: nat, rest: seq<nat>)
    requires size > 0
    ensures size > 1 ==> DeliverAll([size] + rest, [Wrote(1), Failed]) == Delivery(1, false, [])
    ensures size == 1 && rest != [] && rest[0] > 0 ==>
              DeliverAll([size] + rest, [Wrote(1), Failed]) == Delivery(1, false, [])
  {
    var outcomes := [Wrote(1), Failed];
    assert outcomes[1..] == [Failed] && [Failed][1..] == [];
    assert Deliver(size - 1, [Failed]) == if size == 1 then Delivery(0, true, [Failed]) else Delivery(0, false, []);
    DeliverFirst(size, rest, outcomes);
    if size == 1 && rest != [] && rest[0] > 0 {
      assert Deliver(rest[0], [Failed]) == Delivery(0, false, []);
    }
  }

  /** A system that does not fail delivers everything. */
  lemma {:induction false} AllDelivered(sizes: seq<nat>)
    ensures DeliverAll(sizes, []).complete && DeliverAll(sizes, []).left == []
  {
    if sizes != [] {
      AllDelivered(sizes[1..]);
    }
  }

  lemma GluedBytes(first: Bytes, line: Bytes)
    requires LF !in first && LF !in line
    ensures Lines(first + ([] + (line + [LF]))) == [first + line]
  {
    assert first + ([] + (line + [LF])) == (first + line) + [LF] + [];
    FirstLine(first + line, []);
  }

  lemma GluedLine(e: Entry, first: Bytes)
    requires WellFormed(e) && LF !in first
    ensures Lines(first + Appended(false, e)) == [first + RecordLine(e)]
  {
    RecordLineHasNoNewline(e);
    GluedBytes(first, RecordLine(e));
  }

  lemma BlankLine(existing: Bytes, e: Entry)
    requires NeedsSeparator(existing) && WellFormed(e)
    ensures Lines(existing + [LF] + Appended(true, e)) == Lines(existing) + [[], RecordLine(e)]
  {
    RecordLineHasNoNewline(e);
    var separated, line := existing + [LF], RecordLine(e);
    SeparatorAddsNoLine(existing);
    LinesConcat(separated, [LF] + (line + [LF]));
    FirstLine([], line + [LF]);
    assert [] + [LF] + (line + [LF]) == [LF] + (line + [LF]) && line + [LF] + [] == line + [LF];
    FirstLine(line, []);
  }

  /** One byte left behind, then a record. */
  function LeftThenRecorded(e: Entry): seq<Attempt> {
    [Left(e, 1)] + [Recorded(e)]
  }

  lemma RunOfTwo(existing: Bytes, e: Entry)
    ensures var s := After(State(existing, NeedsSeparator(existing)), Left(e, 1));
            Run(existing, [Left(e, 1)]) == s && Run(existing, LeftThenRecorded(e)) == After(s, Recorded(e))
  {
    RunAppend(existing, [], Left(e, 1));
    assert [] + [Left(e, 1)] == [Left(e, 1)];
    RunAppend(existing, [Left(e, 1)], Recorded(e));
  }

  lemma GluedLines(e: Entry)
    requires WellFormed(e) && e.prefix != []
    ensures !Run([], [Left(e, 1)]).needsSeparator
    ensures Lines(Run([], LeftThenRecorded(e)).file) == [[e.prefix[0]] + RecordLine(e)]
  {
    RunOfTwo([], e);
    var first := [e.prefix[0]];
    assert [] + Appended(false, e)[..1] == first;
    GluedLine(e, first);
  }

  lemma BlankLines(existing: Bytes, e: Entry)
    requires NeedsSeparator(existing) && WellFormed(e)
    ensures Run(existing, [Left(e, 1)]).needsSeparator
    ensures Lines(Run(existing, LeftThenRecorded(e)).file) == Lines(existing) + [[], RecordLine(e)]
  {
    RunOfTwo(existing, e);
    AppendedStarts(e, 1);
    BlankLine(existing, e);
  }

  /** One byte of a record and no truncation: the next record is glued to that byte. */
  method GluedRun(e: Entry) returns (store: JsonlResponseStore)
    requires WellFormed(e) && |e.prefix| >= 2
    ensures fresh(store) && store.Valid() && store.attempts == LeftThenRecorded(e)
    ensures Lines(store.file) == [[e.prefix[0]] + RecordLine(e)]
  {
    store := new JsonlResponseStore([], [Wrote(1), Failed]);
    OneByteDelivered(|e.prefix|, ChunkSizes(e.body, 0) + [3]);
    assert PieceSizes(false, e) == [|e.prefix|] + (ChunkSizes(e.body, 0) + [3]);
    var ok := store.Save(e, false);
    assert store.attempts == [Left(e, 1)] && store.outcomes == [];
    GluedLines(e);
    AllDelivered(PieceSizes(false, e));
    ok := store.Save(e, true);
  }

  /** A separator, no record and no truncation: the next save writes a blank line. */
  method BlankLineRun(existing: Bytes, e: Entry) returns (store: JsonlResponseStore)
    requires NeedsSeparator(existing) && WellFormed(e)
    ensures fresh(store) && store.Valid() && store.attempts == LeftThenRecorded(e)
    ensures Lines(store.file) == Lines(existing) + [[], RecordLine(e)]
  {
    store := new JsonlResponseStore(existing, [Wrote(1), Failed]);
    OneByteDelivered(1, PieceSizes(false, e));
    assert PieceSizes(true, e) == [1] + PieceSizes(false, e);
    var ok := store.Save(e, false);
    assert store.attempts == [Left(e, 1)] && store.outcomes == [];
    BlankLines(existing, e);
    AllDelivered(PieceSizes(true, e));
    ok := store.Save(e, true);
  }
}
