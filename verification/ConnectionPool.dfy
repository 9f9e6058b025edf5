/**
 The eight-slot connection pool of the agent (agent/Sources/MacosAuthAgent/Transport.swift), over any interleaving.
 */
module ConnectionPools {
  import opened Bytes

  const LIMIT: nat := 8

  /** Submitted work waits for a worker, runs, and is over however it ended; or it was refused at once. */
  datatype Job = Queued | Working | Over | Refused

  datatype State = State(free: nat, jobs: map<nat, Job>)

  const EMPTY := State(LIMIT, map[])

  datatype Action = Submit | Start | End

  function Apply(s: State, i: nat, a: Action): Option<State> {
    match a
    case Submit =>
      if i in s.jobs then None
      else if s.free == 0 then Some(s.(jobs := s.jobs[i := Refused]))
      else Some(State(s.free - 1, s.jobs[i := Queued]))
    case Start => if i in s.jobs && s.jobs[i].Queued? then Some(s.(jobs := s.jobs[i := Working])) else None
    case End => if i in s.jobs && s.jobs[i].Working? then Some(State(s.free + 1, s.jobs[i := Over])) else None
  }

  predicate Serves(j: Job) { j.Queued? || j.Working? }

  function Busy(s: State): set<nat> { set i | i in s.jobs && Serves(s.jobs[i]) }

  lemma BusyAfter(s: State, free: nat, i: nat, j: Job)
    ensures Busy(State(free, s.jobs[i := j])) == if Serves(j) then Busy(s) + {i} else Busy(s) - {i}
  {
  }

  lemma StepKeeps(s: State, i: nat, a: Action)
    requires s.free + |Busy(s)| == LIMIT && Apply(s, i, a).Some?
    ensures Apply(s, i, a).value.free + |Busy(Apply(s, i, a).value)| == LIMIT
  {
    var t := Apply(s, i, a).value;
    BusyAfter(s, t.free, i, t.jobs[i]);
    match a
    case Submit => assert i !in Busy(s);
    case Start => assert i in Busy(s) && Busy(s) + {i} == Busy(s);
    case End => assert i in Busy(s);
  }

  datatype Step = Step(job: nat, action: Action)

  function Run(steps: seq<Step>): Option<State> {
    if steps == [] then Some(EMPTY)
    else
      match Run(steps[..|steps| - 1])
      case None => None
      case Some(s) => Apply(s, steps[|steps| - 1].job, steps[|steps| - 1].action)
  }

  lemma {:induction false} RunKeeps(steps: seq<Step>)
    requires Run(steps).Some?
    ensures Run(steps).value.free + |Busy(Run(steps).value)| == LIMIT
  {
    if steps == [] {
      assert Busy(EMPTY) == {};
    } else {
      RunKeeps(steps[..|steps| - 1]);
      StepKeeps(Run(steps[..|steps| - 1]).value, steps[|steps| - 1].job, steps[|steps| - 1].action);
    }
  }

  /** Never more than eight connections at once; a connection is refused exactly when eight are being served. */
  lemma RefusedExactlyWhenFull(steps: seq<Step>, i: nat)
    requires Run(steps).Some? && i !in Run(steps).value.jobs
    ensures var s := Run(steps).value;
            && |Busy(s)| <= LIMIT
            && Apply(s, i, Submit).Some?
            && (Apply(s, i, Submit).value.jobs[i] == Refused <==> |Busy(s)| == LIMIT)
  {
    RunKeeps(steps);
  }

  /** No slot is lost: once no work is under way, all of them are free again. */
  lemma SlotsComeBack(steps: seq<Step>)
    requires Run(steps).Some? && Busy(Run(steps).value) == {}
    ensures Run(steps).value.free == LIMIT
  {
    RunKeeps(steps);
  }
}
