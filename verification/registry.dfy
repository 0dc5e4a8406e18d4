/**
 * The two module-level tables of the server: `stop_events`, one stop flag
 * per task id, and `threads`, one worker handle per task id, with the
 * `cleanup_tasks` sweep that every request starts with.
 */
module Registry {

  type TaskId = string

  /** The ids whose stop flag is set: the `completed` list of the sweep. */
  function Completed(flags: map<TaskId, bool>): set<TaskId> {
    set id | id in flags && flags[id]
  }

  /** The flag table after a sweep. */
  function SweptFlags(flags: map<TaskId, bool>): map<TaskId, bool> {
    flags - Completed(flags)
  }

  /** The thread table after a sweep, given the flag table it started from. */
  function SweptThreads<Handle>(flags: map<TaskId, bool>, threads: map<TaskId, Handle>): map<TaskId, Handle> {
    threads - Completed(flags)
  }

  class TaskRegistry<Handle> {
    /** `stop_events`: whether each task's `Event` is set. */
    var stopEvents: map<TaskId, bool>
    /** `threads`: the worker started for each task. */
    var threads: map<TaskId, Handle>

    /** Both tables start empty. */
    constructor ()
      ensures stopEvents == map[] && threads == map[]
    {
      stopEvents := map[];
      threads := map[];
    }

    /** A new task gets a fresh, unset flag and its worker. */
    method Register(id: TaskId, handle: Handle)
      modifies this
      ensures stopEvents == old(stopEvents)[id := false]
      ensures threads == old(threads)[id := handle]
    {
      stopEvents := stopEvents[id := false];
      threads := threads[id := handle];
    }

    /**
     * `cleanup_tasks`: collects the ids whose flag is set, then deletes each
     * from the flag table and, when present there, from the thread table.
     * Whether the worker has finished is not looked at.
     */
    method Cleanup()
      modifies this
      ensures stopEvents == SweptFlags(old(stopEvents))
      ensures threads == SweptThreads(old(stopEvents), old(threads))
    {
      var completed := Completed(stopEvents);
      ghost var flags0, threads0 := stopEvents, threads;
      var pending := completed;
      while pending != {}
        invariant pending <= completed
        invariant stopEvents == flags0 - (completed - pending)
        invariant threads == threads0 - (completed - pending)
        decreases |pending|
      {
        var id :| id in pending;
        stopEvents := stopEvents - {id};
        if id in threads {
          threads := threads - {id};
        }
        pending := pending - {id};
      }
    }
  }

  /** After a sweep no remaining flag is set. */
  lemma SweepLeavesNoSetFlag(flags: map<TaskId, bool>)
    ensures forall id :: id in SweptFlags(flags) ==> !SweptFlags(flags)[id]
  {
  }

  /** A task whose flag is unset survives the sweep with its flag unchanged. */
  lemma SweepKeepsUnset(flags: map<TaskId, bool>, id: TaskId)
    requires id in flags && !flags[id]
    ensures id in SweptFlags(flags) && SweptFlags(flags)[id] == flags[id]
  {
  }

  /**
   * A thread entry is removed exactly when its id had a set flag; every
   * other entry, including one with no flag at all, is untouched.
   */
  lemma SweepThreadsExactly<Handle>(flags: map<TaskId, bool>, threads: map<TaskId, Handle>, id: TaskId)
    ensures id in SweptThreads(flags, threads) <==> id in threads && !(id in flags && flags[id])
    ensures id in SweptThreads(flags, threads) ==> SweptThreads(flags, threads)[id] == threads[id]
  {
  }

  /** The flag and thread tables lose the same ids. */
  lemma SweepRemovesSameIds<Handle>(flags: map<TaskId, bool>, threads: map<TaskId, Handle>, id: TaskId)
    requires id in flags && id in threads
    ensures id in SweptFlags(flags) <==> id in SweptThreads(flags, threads)
  {
  }

  /** A second sweep with no flag set in between changes nothing. */
  lemma SweepIdempotent<Handle>(flags: map<TaskId, bool>, threads: map<TaskId, Handle>)
    ensures SweptFlags(SweptFlags(flags)) == SweptFlags(flags)
    ensures SweptThreads(SweptFlags(flags), SweptThreads(flags, threads)) == SweptThreads(flags, threads)
  {
    assert Completed(SweptFlags(flags)) == {};
  }
}
