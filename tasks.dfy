// The scheduler registrations the manager holds, read off its call log.
module Tasks {
  import opened Trajectory

  /** The live registrations after one more call. A registration that the
      scheduler refused comes back as -1 and registers nothing. */
  function Registered(live: set<int>, e: Effect): set<int>
  {
    match e
    case AddEvent(h, _) => if h == -1 then live else live + {h}
    case DelEvent(h) => live - {h}
    case _ => live
  }

  /** The registrations made through the log and not yet deleted. */
  function LiveTasks(log: seq<Effect>): set<int>
  {
    if log == [] then {} else Registered(LiveTasks(log[..|log| - 1]), log[|log| - 1])
  }

  predicate IsDriveCall(e: Effect)
  {
    e.SetSpeed? || e.SetDirection? || e.SetRotationSpeed?
  }

  lemma LiveTasksAppend(log: seq<Effect>, e: Effect)
    ensures LiveTasks(log + [e]) == Registered(LiveTasks(log), e)
  {
    assert (log + [e])[..|log|] == log;
  }

  /** Calls to the drive register and delete nothing. */
  lemma {:induction false} DriveCallsKeepTasks(log: seq<Effect>, calls: seq<Effect>)
    requires forall i :: 0 <= i < |calls| ==> IsDriveCall(calls[i])
    ensures LiveTasks(log + calls) == LiveTasks(log)
  {
    if calls != [] {
      var front, last := calls[..|calls| - 1], calls[|calls| - 1];
      assert log + calls == (log + front) + [last];
      assert IsDriveCall(last);
      LiveTasksAppend(log + front, last);
      assert Registered(LiveTasks(log + front), last) == LiveTasks(log + front);
      DriveCallsKeepTasks(log, front);
    } else {
      assert log + calls == log;
    }
  }
}
