/** The session objects and the execution manager they share; a call only submits tasks. */
module SessionAdvanced {
  import opened Results
  import opened Strings
  import T = TaskChains

  /** Hands out task and session numbers and records what is submitted.  What the sessions keep
      themselves is gathered in a ghost field. */
  class ExecutionManager {
    var tasks: seq<T.Task>
    var sessionCount: nat
    ghost var sessions: seq<T.Local>

    ghost function View(): T.World
      reads this
    {
      T.World(tasks, sessions)
    }

    constructor ()
      ensures sessionCount == |sessions|
      ensures View() == T.Run([])
    {
      tasks, sessionCount, sessions := [], 0, [];
    }

    method RegisterNewSession(ghost local: T.Local) returns (id: nat)
      requires sessionCount == |sessions|
      modifies this`sessionCount, this`sessions
      ensures sessionCount == |sessions|
      ensures id == |old(sessions)| && sessions == old(sessions) + [local]
    {
      id := sessionCount;
      sessionCount := sessionCount + 1;
      sessions := sessions + [local];
    }

    method AddTask(session: nat, kind: T.Kind, deps: set<nat>) returns (id: nat)
      modifies this`tasks
      ensures id == |old(tasks)| && tasks == old(tasks) + [T.Task(session, kind, deps)]
    {
      id := |tasks|;
      tasks := tasks + [T.Task(session, kind, deps)];
    }
  }

  class Session {
    const id: nat
    const manager: ExecutionManager
    var sessionState: T.Phase
    var lastTaskIds: set<nat>

    ghost predicate Valid()
      reads this, manager
    {
      manager.sessionCount == |manager.sessions| && id < |manager.sessions|
          && manager.sessions[id] == T.Local(sessionState, lastTaskIds)
    }

    constructor (m: ExecutionManager)
      requires m.sessionCount == |m.sessions|
      modifies m
      ensures manager == m && Valid()
      ensures id == |old(m.sessions)|
      ensures m.View() == T.Apply(old(m.View()), T.New).0
    {
      id := m.sessionCount;
      manager := m;
      sessionState, lastTaskIds := T.Fresh, {};
      new;
      var registered := m.RegisterNewSession(T.Local(T.Fresh, {}));
    }

    constructor ForClone(m: ExecutionManager, number: nat, state: T.Phase, last: set<nat>)
      ensures id == number && manager == m && sessionState == state && lastTaskIds == last
    {
      id, manager, sessionState, lastTaskIds := number, m, state, last;
    }

    ghost method Mirror()
      requires id < |manager.sessions|
      modifies manager`sessions
      ensures manager.sessions == old(manager.sessions)[id := T.Local(sessionState, lastTaskIds)]
    {
      manager.sessions := manager.sessions[id := T.Local(sessionState, lastTaskIds)];
    }

    method RunPrefillAsync()
      requires Valid()
      modifies this, manager
      ensures Valid()
      ensures manager.View() == T.Apply(old(manager.View()), T.RunPrefill(id)).0
    {
      var taskId := manager.AddTask(id, T.Prefill, lastTaskIds);
      sessionState := T.Prefilled;
      lastTaskIds := {taskId};
      Mirror();
    }

    method RunDecodeAsync(templated: bool) returns (error: Option<Code>)
      requires Valid()
      modifies this, manager
      ensures Valid()
      ensures (manager.View(), error) == T.Apply(old(manager.View()), T.RunDecode(id, templated))
    {
      if sessionState != T.Prefilled {
        return Some(Internal);
      }
      if templated {
        var prefillId := manager.AddTask(id, T.Prefill, lastTaskIds);
        lastTaskIds := {prefillId};
      }
      sessionState := T.Decoded;
      var taskId := manager.AddTask(id, T.Decode, lastTaskIds);
      lastTaskIds := {taskId};
      Mirror();
      assert manager.sessions == T.Apply(old(manager.View()), T.RunDecode(id, templated)).0.sessions;
      return None;
    }

    method RunTextScoringAsync()
      requires Valid()
      modifies manager
      ensures Valid()
      ensures manager.View() == T.Apply(old(manager.View()), T.RunScoring(id)).0
    {
      var taskId := manager.AddTask(id, T.Score, lastTaskIds);
    }

    method CloneAsync() returns (clone: Session)
      requires Valid()
      modifies this, manager
      ensures Valid() && clone.Valid() && clone.manager == manager && clone.id == |old(manager.sessions)|
      ensures manager.View() == T.Apply(old(manager.View()), T.RunClone(id)).0
    {
      var child := manager.sessionCount;
      var taskId := manager.AddTask(id, T.Clone(child), lastTaskIds);
      lastTaskIds := {taskId};
      Mirror();
      var sessionId := manager.RegisterNewSession(T.Local(sessionState, lastTaskIds));
      clone := new Session.ForClone(manager, sessionId, sessionState, lastTaskIds);
    }
  }
}
