/**
 A pause of the native fuzzer gets its answer (lib/core/fuzzer.py:561-597, 719-730): once
 the cancel flag of the scan is up, a bounded number of steps takes the fuzzer to the
 acknowledgement or to its end, whatever the workers do meanwhile. The coordinator
 first takes and delivers all chunks that are due, and reads the flag after that.
 */
module PauseAnswer {
  import opened Dictionary
  import opened NativeFuzzer
  import SW = ScanWorkers

  /** A pause was requested, and the cancel flag of a scan in progress is up. */
  predicate Asked(s: Sys) {
    !s.play && !s.quit && (Active(s) && SW.Running(s.scan) ==> s.scan.cancelled)
  }

  /** A step towards the acknowledgement. */
  predicate Answers(a: Action) {
    || a.AckPause? || a.ScanReturned? || a.ScanFailed? || a.RequeueAndRaise?
    || a.EnterCallback? || a.StopChunk? || a.Release?
    || (a.ScanStep? && SW.WindsUp(a.step))
  }

  /** The pause is taken back, or the fuzzer is told to quit. */
  predicate Interrupts(a: Action) {
    a.ResetCancel? || a.Play? || a.Quit?
  }

  predicate Uninterrupted(run: seq<Action>) {
    forall k :: 0 <= k < |run| ==> !Interrupts(run[k])
  }

  function AnswerSteps(run: seq<Action>): nat {
    if run == [] then 0 else (if Answers(run[0]) then 1 else 0) + AnswerSteps(run[1..])
  }

  predicate Answered(s: Sys) {
    s.py.Paused? || s.py.Done?
  }

  /** Every answering step lowers this measure. */
  function PauseLeft(s: Sys): int {
    match s.py
    case Top => 1
    case Raised => 2
    case Scanning => 4 * SW.CoordinatorLeft(s.scan) + 5
    case Handing(_, _, _, _) => 4 * SW.CoordinatorLeft(s.scan) + 4
    case AtEvent(_, _) => 4 * SW.CoordinatorLeft(s.scan) + 3
    case AtResult(_) => 4 * SW.CoordinatorLeft(s.scan) + 3
    case _ => 0
  }

  lemma PauseLeftBounds(s: Sys)
    requires Inv(s)
    ensures 0 <= PauseLeft(s) <= if Active(s) then 28 * |Current(s)| + 69 else 2
  {
    if Active(s) {
      SW.CoordinatorLeftBounds(s.scan);
    }
  }

  /** Until the answer, the fuzzer can move towards it. */
  lemma CanAnswer(s: Sys) returns (a: Action)
    requires Inv(s) && Asked(s) && !Answered(s)
    ensures Answers(a) && a != ScanStep(SW.Fail) && Enabled(s, a)
  {
    match s.py {
      case Top => a := AckPause;
      case Raised => a := RequeueAndRaise;
      case Handing(_, _, _, _) =>
        DeliveredChunkOk(s);
        a := Release(false);
      case Scanning => a := ScanAnswers(s);
      case _ => a := StopChunk;
    }
  }

  lemma ScanAnswers(s: Sys) returns (a: Action)
    requires DictInv(s) && SW.CoordinatorInv(s.scan) && Asked(s) && s.py.Scanning?
    ensures Answers(a) && a != ScanStep(SW.Fail) && Enabled(s, a)
  {
    match s.scan.phase {
      case Idle =>
        a := ScanStep(if s.scan.flushing then SW.StartTake(true)
                      else if s.scan.taking.Some? then SW.StartTake(s.scan.taking.value) else SW.ReturnCancelled);
      case Reading(_) => a := ScanStep(if SW.FlagSeen(s.scan) then SW.ReadFlag else SW.StopReading);
      case Draining(_) => a := ScanStep(SW.Drain);
      case Cutting(_) => a := ScanStep(SW.Cut);
      case Delivering(_) => a := EnterCallback;
      case Returned(_) => a := ScanReturned;
      case Failed => a := ScanFailed;
    }
  }

  lemma ScanAnswerDecreases(s: Sys, a: Action)
    requires Asked(s) && Enabled(s, a) && Answers(a) && a.ScanStep? && SW.CoordinatorInv(s.scan)
    ensures PauseLeft(Next(s, a)) < PauseLeft(s) && Asked(Next(s, a))
  {
    SW.CoordinatorStepDecreases(s.scan, a.step);
    SW.CoordinatorFrame(s.scan, a.step);
    ScanStepFrame(s.scan, a.step);
  }

  lemma CallbackAnswerDecreases(s: Sys, a: Action)
    requires Asked(s) && Enabled(s, a) && (a.EnterCallback? || a.StopChunk? || a.Release?)
    requires s.scan.phase.Delivering? && SW.CoordinatorInv(s.scan)
    ensures PauseLeft(Next(s, a)) < PauseLeft(s) && Asked(Next(s, a))
  {
    SW.CoordinatorLeftBounds(s.scan);
    SW.CoordinatorStepDecreases(s.scan, SW.Accept);
  }

  lemma AnswerDecreases(s: Sys, a: Action)
    requires Active(s) ==> SW.CoordinatorInv(s.scan)
    requires Asked(s) && Enabled(s, a) && Answers(a)
    ensures PauseLeft(Next(s, a)) < PauseLeft(s) && Asked(Next(s, a))
  {
    if a.ScanStep? {
      ScanAnswerDecreases(s, a);
    } else if a.EnterCallback? || a.StopChunk? || a.Release? {
      CallbackAnswerDecreases(s, a);
    } else if Active(s) {
      SW.CoordinatorLeftBounds(s.scan);
    }
  }

  /** Whatever else happens in a pause leaves the measure alone. */
  lemma ScanBesideStays(s: Sys, a: Action)
    requires Asked(s) && Enabled(s, a) && a.ScanStep? && !Answers(a)
    ensures PauseLeft(Next(s, a)) == PauseLeft(s) && Asked(Next(s, a))
  {
  }

  lemma BesideStays(s: Sys, a: Action)
    requires Asked(s) && Enabled(s, a) && !Answers(a) && !Interrupts(a)
    ensures PauseLeft(Next(s, a)) == PauseLeft(s) && Asked(Next(s, a))
  {
    if a.ScanStep? {
      ScanBesideStays(s, a);
    }
  }

  /**
   In every run in which the pause is not taken back, at most 28 answering steps per
   claimed path and 69 more happen, and as long as the pause is not answered one can.
   */
  lemma {:induction false} PauseIsAnswered(s: Sys, run: seq<Action>)
    requires Inv(s) && Asked(s) && ValidRun(s, run) && Uninterrupted(run)
    ensures AnswerSteps(run) <= PauseLeft(s) <= if Active(s) then 28 * |Current(s)| + 69 else 2
    ensures Asked(Final(s, run))
    ensures !Answered(Final(s, run)) ==>
              exists a :: Answers(a) && a != ScanStep(SW.Fail) && Enabled(Final(s, run), a)
    decreases |run|
  {
    PauseLeftBounds(s);
    if run == [] {
      if !Answered(s) {
        var a := CanAnswer(s);
      }
    } else {
      assert forall k :: 0 <= k < |run[1..]| ==> run[1..][k] == run[k + 1];
      StepKeepsInv(s, run[0]);
      if Answers(run[0]) {
        AnswerDecreases(s, run[0]);
      } else {
        BesideStays(s, run[0]);
      }
      PauseIsAnswered(Next(s, run[0]), run[1..]);
    }
  }
}
