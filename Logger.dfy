/** The step tracker: for every task, the record of each named step, and the
    `stepUpdate` events published when a record changes. */
module StepLogger {
  import opened Wrappers

  datatype Status = Processing | Completed | Failed

  datatype Level = Info | Warn | Error

  /** One step's record; `endTime`, `duration` and `error` are absent until set. */
  datatype StepInfo = StepInfo(
    step: string,
    message: string,
    status: Status,
    startTime: int,
    endTime: Option<int>,
    level: Level,
    duration: Option<int>,
    error: Option<string>)

  /** A `stepUpdate` event: the task id and a snapshot of the record. */
  datatype StepEvent = StepEvent(taskId: string, info: StepInfo)

  /** taskId -> step -> record */
  type Steps = map<string, map<string, StepInfo>>

  function Lookup(s: Steps, taskId: string, step: string): Option<StepInfo> {
    if taskId in s && step in s[taskId] then Some(s[taskId][step]) else None
  }

  /** The record `startStep` stores. */
  function NewRecord(step: string, message: string, now: int): (r: StepInfo)
    ensures r.status == Processing && r.level == Info && r.endTime == None
    ensures r.step == step && r.message == message && r.startTime == now
    ensures r.duration == None && r.error == None
  {
    StepInfo(step, message, Processing, now, None, Info, None, None)
  }

  /** What `completeStep` does to an existing record: an empty or absent message keeps the old one. */
  function CompleteRecord(r: StepInfo, message: Option<string>, now: int): (c: StepInfo)
    ensures c.status == Completed && c.endTime == Some(now) && c.duration == Some(now - r.startTime)
    ensures c.message == if message == None || message == Some("") then r.message else message.value
    ensures c.step == r.step && c.startTime == r.startTime && c.level == r.level && c.error == r.error
  {
    var m := if message.Some? && message.value != "" then message.value else r.message;
    r.(duration := Some(now - r.startTime), status := Completed, endTime := Some(now), message := m)
  }

  /** What `failStep` does to an existing record; message and duration are left as they were. */
  function FailRecord(r: StepInfo, error: string, now: int): (f: StepInfo)
    ensures f.status == Failed && f.endTime == Some(now) && f.error == Some(error) && f.level == Error
    ensures f.step == r.step && f.message == r.message && f.startTime == r.startTime
    ensures f.duration == r.duration
  {
    r.(status := Failed, endTime := Some(now), error := Some(error), level := Error)
  }

  /** The steps after `startStep`: the pair's record is (re)placed, creating the task's map if absent. */
  function AfterStart(s: Steps, taskId: string, step: string, message: string, now: int): (r: Steps)
    ensures Lookup(r, taskId, step) == Some(NewRecord(step, message, now))
    ensures forall t, p :: (t, p) != (taskId, step) ==> Lookup(r, t, p) == Lookup(s, t, p)
    ensures r.Keys == s.Keys + {taskId}
  {
    var inner := if taskId in s then s[taskId] else map[];
    s[taskId := inner[step := NewRecord(step, message, now)]]
  }

  /** Replaces the record of an existing pair. */
  function Update(s: Steps, taskId: string, step: string, rec: StepInfo): (r: Steps)
    requires Lookup(s, taskId, step).Some?
    ensures Lookup(r, taskId, step) == Some(rec)
    ensures forall t, p :: (t, p) != (taskId, step) ==> Lookup(r, t, p) == Lookup(s, t, p)
    ensures r.Keys == s.Keys
  {
    s[taskId := s[taskId][step := rec]]
  }

  /** The steps after `completeStep`: unchanged when the pair has no record. */
  function AfterComplete(s: Steps, taskId: string, step: string, message: Option<string>, now: int): (r: Steps)
    ensures Lookup(s, taskId, step).None? ==> r == s
    ensures Lookup(s, taskId, step).Some? ==>
      Lookup(r, taskId, step) == Some(CompleteRecord(Lookup(s, taskId, step).value, message, now))
    ensures forall t, p :: (t, p) != (taskId, step) ==> Lookup(r, t, p) == Lookup(s, t, p)
  {
    match Lookup(s, taskId, step)
    case None => s
    case Some(rec) => Update(s, taskId, step, CompleteRecord(rec, message, now))
  }

  /** The steps after `failStep`: unchanged when the pair has no record. */
  function AfterFail(s: Steps, taskId: string, step: string, error: string, now: int): (r: Steps)
    ensures Lookup(s, taskId, step).None? ==> r == s
    ensures Lookup(s, taskId, step).Some? ==>
      Lookup(r, taskId, step) == Some(FailRecord(Lookup(s, taskId, step).value, error, now))
    ensures forall t, p :: (t, p) != (taskId, step) ==> Lookup(r, t, p) == Lookup(s, t, p)
  {
    match Lookup(s, taskId, step)
    case None => s
    case Some(rec) => Update(s, taskId, step, FailRecord(rec, error, now))
  }

  class Logger {
    var steps: Steps
    /** Every `stepUpdate` event emitted so far, oldest first. */
    ghost var events: seq<StepEvent>

    constructor ()
      ensures steps == map[] && events == []
    {
      steps := map[];
      events := [];
    }

    method StartStep(taskId: string, step: string, message: string, now: int)
      modifies this
      ensures steps == AfterStart(old(steps), taskId, step, message, now)
      ensures events == old(events) + [StepEvent(taskId, NewRecord(step, message, now))]
    {
      var stepInfo := NewRecord(step, message, now);
      if taskId !in steps {
        steps := steps[taskId := map[]];
      }
      steps := steps[taskId := steps[taskId][step := stepInfo]];
      events := events + [StepEvent(taskId, stepInfo)];
    }

    method CompleteStep(taskId: string, step: string, message: Option<string>, now: int)
      modifies this
      ensures steps == AfterComplete(old(steps), taskId, step, message, now)
      ensures Lookup(old(steps), taskId, step).None? ==> events == old(events)
      ensures Lookup(old(steps), taskId, step).Some? ==>
        events == old(events) + [StepEvent(taskId, Lookup(steps, taskId, step).value)]
    {
      if taskId in steps && step in steps[taskId] {
        var stepInfo := CompleteRecord(steps[taskId][step], message, now);
        steps := steps[taskId := steps[taskId][step := stepInfo]];
        events := events + [StepEvent(taskId, stepInfo)];
      }
      // otherwise only a console warning is printed
    }

    method FailStep(taskId: string, step: string, error: string, now: int)
      modifies this
      ensures steps == AfterFail(old(steps), taskId, step, error, now)
      ensures Lookup(old(steps), taskId, step).None? ==> events == old(events)
      ensures Lookup(old(steps), taskId, step).Some? ==>
        events == old(events) + [StepEvent(taskId, Lookup(steps, taskId, step).value)]
    {
      if taskId in steps && step in steps[taskId] {
        var stepInfo := FailRecord(steps[taskId][step], error, now);
        steps := steps[taskId := steps[taskId][step := stepInfo]];
        events := events + [StepEvent(taskId, stepInfo)];
      }
    }

    /** The task's records, or an empty map (not stored) for an unknown task. */
    method GetTaskSteps(taskId: string) returns (r: map<string, StepInfo>)
      ensures taskId in steps ==> r == steps[taskId]
      ensures taskId !in steps ==> r == map[]
      ensures forall p :: Lookup(steps, taskId, p) == (if p in r then Some(r[p]) else None)
    {
      r := if taskId in steps then steps[taskId] else map[];
    }
  }

  /** A call on the tracker, with the clock reading it sees. */
  datatype Call =
    | Start(taskId: string, step: string, text: string, now: int)
    | Complete(taskId: string, step: string, reply: Option<string>, now: int)
    | Fail(taskId: string, step: string, error: string, now: int)

  function Apply(s: Steps, c: Call): Steps {
    match c
    case Start(t, p, m, now) => AfterStart(s, t, p, m, now)
    case Complete(t, p, m, now) => AfterComplete(s, t, p, m, now)
    case Fail(t, p, e, now) => AfterFail(s, t, p, e, now)
  }

  /** The steps after a run of calls on a fresh tracker. */
  function Replay(calls: seq<Call>): Steps {
    if calls == [] then map[] else Apply(Replay(calls[..|calls| - 1]), calls[|calls| - 1])
  }

  /** Whether a call applies to a record that exists, i.e. emits an event. */
  predicate Effective(s: Steps, c: Call) {
    c.Start? || Lookup(s, c.taskId, c.step).Some?
  }

  predicate IsStartOf(c: Call, taskId: string, step: string) {
    c.Start? && c.taskId == taskId && c.step == step
  }

  /** A pair has a record exactly when some call started it: completing or failing
      an unknown pair never synthesises a record. */
  lemma {:induction false} RecordIffStarted(calls: seq<Call>, taskId: string, step: string)
    ensures Lookup(Replay(calls), taskId, step).Some? <==>
      exists i :: 0 <= i < |calls| && IsStartOf(calls[i], taskId, step)
    decreases |calls|
  {
    if calls != [] {
      var init := calls[..|calls| - 1];
      RecordIffStarted(init, taskId, step);
      ApplyKeepsRecords(Replay(init), calls[|calls| - 1], taskId, step);
      StartedSplit(calls, taskId, step);
    }
  }

  /** One call gives a pair a record exactly when it had one or the call starts it. */
  lemma ApplyKeepsRecords(s: Steps, c: Call, taskId: string, step: string)
    ensures Lookup(Apply(s, c), taskId, step).Some? <==>
      Lookup(s, taskId, step).Some? || IsStartOf(c, taskId, step)
  {
    if (c.taskId, c.step) != (taskId, step) {
      assert Lookup(Apply(s, c), taskId, step) == Lookup(s, taskId, step);
    }
  }

  /** A start among the calls is a start among all but the last, or the last. */
  lemma StartedSplit(calls: seq<Call>, taskId: string, step: string)
    requires calls != []
    ensures var init := calls[..|calls| - 1];
      (exists i :: 0 <= i < |calls| && IsStartOf(calls[i], taskId, step)) <==>
      (exists i :: 0 <= i < |init| && IsStartOf(init[i], taskId, step)) || IsStartOf(calls[|calls| - 1], taskId, step)
  {
    var init := calls[..|calls| - 1];
    if exists i :: 0 <= i < |init| && IsStartOf(init[i], taskId, step) {
      var i :| 0 <= i < |init| && IsStartOf(init[i], taskId, step);
      assert calls[i] == init[i];
    }
    if exists i :: 0 <= i < |calls| && IsStartOf(calls[i], taskId, step) {
      var i :| 0 <= i < |calls| && IsStartOf(calls[i], taskId, step);
      if i < |init| { assert init[i] == calls[i]; }
    }
  }

  /** The last call on a pair decides its status, whatever the status was before:
      a failed step can later be completed, and a completed one failed. */
  lemma {:induction false} LastCallDecidesStatus(calls: seq<Call>, c: Call)
    requires Lookup(Replay(calls), c.taskId, c.step).Some?
    ensures Lookup(Replay(calls + [c]), c.taskId, c.step).value.status ==
      match c
      case Start(_, _, _, _) => Processing
      case Complete(_, _, _, _) => Completed
      case Fail(_, _, _, _) => Failed
  {
    assert (calls + [c])[..|calls + [c]| - 1] == calls;
  }

  /** Calls on one pair never change another pair's record. */
  lemma {:induction false} OtherPairsUntouched(calls: seq<Call>, c: Call, taskId: string, step: string)
    requires (c.taskId, c.step) != (taskId, step)
    ensures Lookup(Replay(calls + [c]), taskId, step) == Lookup(Replay(calls), taskId, step)
  {
    assert (calls + [c])[..|calls + [c]| - 1] == calls;
  }
}
