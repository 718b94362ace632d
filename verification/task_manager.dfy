/**
 * The downstream task manager of the mining proxy: spawned tasks are sent,
 * with the connection they belong to, over a channel to a receiving task
 * that files their abort handles in a table keyed by connection id (`None`
 * for tasks that belong to no connection). A connection's tasks are aborted
 * together by dropping their handles.
 */
module TaskManagement {
  import opened Wrappers
  import opened Utils

  newtype u32 = x: int | 0 <= x < 0x1_0000_0000

  /** The kinds of task the manager tracks, each owning its abort handles. */
  datatype Task =
    | AcceptConnection(accept: AbortOnDrop)
    | ReceiveDownstream(receive: AbortOnDrop)
    | SendDownstream(send: AbortOnDrop)
    | Notify(notify: AbortOnDrop)
    | Update(update: AbortOnDrop)
    | SharesMonitor(monitor: AbortOnDrop)

  /** The same kind of task as `t`, owning `handle` instead. */
  function WithHandle(t: Task, handle: AbortOnDrop): Task {
    match t
    case AcceptConnection(_) => AcceptConnection(handle)
    case ReceiveDownstream(_) => ReceiveDownstream(handle)
    case SendDownstream(_) => SendDownstream(handle)
    case Notify(_) => Notify(handle)
    case Update(_) => Update(handle)
    case SharesMonitor(_) => SharesMonitor(handle)
  }

  /** `From<Task> for AbortOnDrop`: the handle the task wraps, whatever its kind. */
  function Aborter(t: Task): (handle: AbortOnDrop)
    ensures WithHandle(t, handle) == t
  {
    match t
    case AcceptConnection(h) => h
    case ReceiveDownstream(h) => h
    case SendDownstream(h) => h
    case Notify(h) => h
    case Update(h) => h
    case SharesMonitor(h) => h
  }

  /** The tasks that serve one downstream connection. */
  predicate PerConnection(t: Task) {
    t.ReceiveDownstream? || t.SendDownstream? || t.Notify? || t.Update?
  }

  type Message = (Option<u32>, Task)

  /** The handles filed under `key`; an absent key reads as an empty list
      (`entry(key).or_default()`). */
  function ListFor(tasks: map<Option<u32>, seq<AbortOnDrop>>, key: Option<u32>): seq<AbortOnDrop> {
    if key in tasks then tasks[key] else []
  }

  /** The table after filing `handle` under `key`: appended to that key's
      list, which is created empty first when missing; every other key keeps
      its list. */
  function Filed(tasks: map<Option<u32>, seq<AbortOnDrop>>, key: Option<u32>, handle: AbortOnDrop)
    : (r: map<Option<u32>, seq<AbortOnDrop>>)
    ensures key in r && r[key] == ListFor(tasks, key) + [handle]
    ensures forall k :: k != key ==> (k in r <==> k in tasks)
    ensures forall k :: k != key && k in tasks ==> r[k] == tasks[k]
  {
    tasks[key := ListFor(tasks, key) + [handle]]
  }

  /** The table after filing every message of `msgs`, in order. */
  function FiledAll(tasks: map<Option<u32>, seq<AbortOnDrop>>, msgs: seq<Message>): map<Option<u32>, seq<AbortOnDrop>>
    decreases |msgs|
  {
    if msgs == [] then tasks
    else FiledAll(Filed(tasks, msgs[0].0, Aborter(msgs[0].1)), msgs[1..])
  }

  /** The handles of the messages addressed to `key`, in the order sent. */
  function HandlesFor(msgs: seq<Message>, key: Option<u32>): seq<AbortOnDrop> {
    if msgs == [] then []
    else (if msgs[0].0 == key then [Aborter(msgs[0].1)] else []) + HandlesFor(msgs[1..], key)
  }

  /** After the receiving task has filed a run of messages, each key's list
      is its old list followed by the handles sent for it, in the order sent. */
  lemma {:induction false} FiledAllLists(tasks: map<Option<u32>, seq<AbortOnDrop>>, msgs: seq<Message>, key: Option<u32>)
    ensures ListFor(FiledAll(tasks, msgs), key) == ListFor(tasks, key) + HandlesFor(msgs, key)
    decreases |msgs|
  {
    if msgs != [] {
      FiledAllLists(Filed(tasks, msgs[0].0, Aborter(msgs[0].1)), msgs[1..], key);
    }
  }

  /** A key has an entry after filing exactly when it had one before or a
      message was sent for it. */
  lemma {:induction false} FiledAllKeys(tasks: map<Option<u32>, seq<AbortOnDrop>>, msgs: seq<Message>, key: Option<u32>)
    ensures key in FiledAll(tasks, msgs) <==> key in tasks || exists i :: 0 <= i < |msgs| && msgs[i].0 == key
    decreases |msgs|
  {
    if msgs != [] {
      FiledAllKeys(Filed(tasks, msgs[0].0, Aborter(msgs[0].1)), msgs[1..], key);
      if key in FiledAll(tasks, msgs) && key !in tasks && msgs[0].0 != key {
        var i :| 0 <= i < |msgs[1..]| && msgs[1..][i].0 == key;
        assert msgs[i + 1].0 == key;
      }
      if exists i :: 0 <= i < |msgs| && msgs[i].0 == key {
        var i :| 0 <= i < |msgs| && msgs[i].0 == key;
        if i > 0 {
          assert msgs[1..][i - 1].0 == key;
        }
      }
    }
  }

  /** The task ids aborted by dropping every handle of `hs`, in order. */
  ghost function AbortedBy(hs: seq<AbortOnDrop>): seq<TaskId>
    reads hs
  {
    if hs == [] then [] else AbortedBy(hs[..|hs| - 1]) + hs[|hs| - 1].handles
  }

  class TaskManager {
    /** Messages sent on the task channel and not yet received. */
    var channel: seq<Message>
    /** The `tasks` table: abort handles by connection id. */
    var tasks: map<Option<u32>, seq<AbortOnDrop>>
    /** The handle of the receiving task itself, until it is taken. */
    var abort: Option<AbortOnDrop>
    /** Every abort call issued by dropping handles, in order. */
    var aborted: seq<TaskId>

    /** Connection tasks travel under their connection's id, the others under `None`. */
    ghost predicate Valid()
      reads this
    {
      forall i :: 0 <= i < |channel| ==> (channel[i].0.Some? <==> PerConnection(channel[i].1))
    }

    /** `initialize`: an empty table, an empty channel and the receiving
        task's handle (spawning it is the runtime's part). */
    constructor Initialize(receiver: AbortOnDrop)
      ensures Valid()
      ensures channel == [] && tasks == map[] && abort == Some(receiver) && aborted == []
    {
      channel := [];
      tasks := map[];
      abort := Some(receiver);
      aborted := [];
    }

    /** `get_aborter`: hands out the receiving task's handle once; the field
        is left empty, so every later call gets `None`. */
    method GetAborter() returns (r: Option<AbortOnDrop>)
      modifies this
      ensures r == old(abort) && abort == None
      ensures channel == old(channel) && tasks == old(tasks) && aborted == old(aborted)
    {
      r := abort;
      abort := None;
    }

    method AddReceiveDownstream(abortable: AbortOnDrop, connectionId: u32)
      requires Valid()
      modifies this
      ensures Valid()
      ensures channel == old(channel) + [(Some(connectionId), ReceiveDownstream(abortable))]
      ensures tasks == old(tasks) && abort == old(abort) && aborted == old(aborted)
    {
      channel := channel + [(Some(connectionId), ReceiveDownstream(abortable))];
    }

    method AddUpdate(abortable: AbortOnDrop, connectionId: u32)
      requires Valid()
      modifies this
      ensures Valid()
      ensures channel == old(channel) + [(Some(connectionId), Update(abortable))]
      ensures tasks == old(tasks) && abort == old(abort) && aborted == old(aborted)
    {
      channel := channel + [(Some(connectionId), Update(abortable))];
    }

    method AddNotify(abortable: AbortOnDrop, connectionId: u32)
      requires Valid()
      modifies this
      ensures Valid()
      ensures channel == old(channel) + [(Some(connectionId), Notify(abortable))]
      ensures tasks == old(tasks) && abort == old(abort) && aborted == old(aborted)
    {
      channel := channel + [(Some(connectionId), Notify(abortable))];
    }

    method AddSendDownstream(abortable: AbortOnDrop, connectionId: u32)
      requires Valid()
      modifies this
      ensures Valid()
      ensures channel == old(channel) + [(Some(connectionId), SendDownstream(abortable))]
      ensures tasks == old(tasks) && abort == old(abort) && aborted == old(aborted)
    {
      channel := channel + [(Some(connectionId), SendDownstream(abortable))];
    }

    method AddAcceptConnection(abortable: AbortOnDrop)
      requires Valid()
      modifies this
      ensures Valid()
      ensures channel == old(channel) + [(None, AcceptConnection(abortable))]
      ensures tasks == old(tasks) && abort == old(abort) && aborted == old(aborted)
    {
      channel := channel + [(None, AcceptConnection(abortable))];
    }

    method AddSharesMonitor(abortable: AbortOnDrop)
      requires Valid()
      modifies this
      ensures Valid()
      ensures channel == old(channel) + [(None, SharesMonitor(abortable))]
      ensures tasks == old(tasks) && abort == old(abort) && aborted == old(aborted)
    {
      channel := channel + [(None, SharesMonitor(abortable))];
    }

    /** One pass of the receiving task's loop: the oldest message is taken
        off the channel and its handle filed under its key. */
    method ReceiveOne()
      requires Valid() && channel != []
      modifies this
      ensures Valid()
      ensures channel == old(channel)[1..]
      ensures tasks == Filed(old(tasks), old(channel)[0].0, Aborter(old(channel)[0].1))
      ensures abort == old(abort) && aborted == old(aborted)
    {
      var (key, task) := channel[0];
      channel := channel[1..];
      tasks := Filed(tasks, key, Aborter(task));
    }

    /** The receiving task's loop run until the channel is empty. */
    method ReceiveAll()
      requires Valid()
      modifies this
      ensures Valid() && channel == []
      ensures tasks == FiledAll(old(tasks), old(channel))
      ensures abort == old(abort) && aborted == old(aborted)
    {
      while channel != []
        invariant Valid()
        invariant FiledAll(tasks, channel) == FiledAll(old(tasks), old(channel))
        invariant abort == old(abort) && aborted == old(aborted)
        decreases |channel|
      {
        ReceiveOne();
      }
    }

    /** `abort_tasks_for_connection_id`: the entry for `Some(connectionId)`
        is removed and each of its handles dropped, which aborts their tasks
        in order; every other entry, `None` included, stays as it was. With
        no entry for the id the table is left unchanged. */
    method AbortTasksForConnectionId(connectionId: u32)
      requires Valid()
      modifies this
      ensures Valid()
      ensures tasks == old(tasks) - {Some(connectionId)}
      ensures Some(connectionId) in old(tasks) ==> aborted == old(aborted) + AbortedBy(old(tasks)[Some(connectionId)])
      ensures Some(connectionId) !in old(tasks) ==> aborted == old(aborted)
      ensures channel == old(channel) && abort == old(abort)
    {
      var key := Some(connectionId);
      if key in tasks {
        var handles := tasks[key];
        tasks := tasks - {key};
        for i := 0 to |handles|
          invariant tasks == old(tasks) - {key} && channel == old(channel) && abort == old(abort)
          invariant aborted == old(aborted) + AbortedBy(handles[..i])
        {
          var ids := handles[i].Drop();
          assert handles[..i + 1][..i] == handles[..i];
          aborted := aborted + ids;
        }
        assert handles[..|handles|] == handles;
      }
    }
  }
}
