/** Queue sets as queue.c keeps them: the set is itself a queue, and what it holds are the handles of its members. */

module QueueSets {
  import opened Basics
  import opened Queues
  import opened Words
  import P = QueueProtocol
  import S = QueueSetProtocol

  /** A handle as an item of the set's queue. */
  function Handle(q: S.QueueId): (r: seq<byte>)
    ensures |r| == WORD_BYTES
  {
    WordBytes(q % WORD_LIMIT)
  }

  lemma HandleRoundTrip(q: S.QueueId)
    requires q < WORD_LIMIT
    ensures WordOf(Handle(q)) == q
  {
    hide WordBytes, WordOf;
    WordRoundTrip(q);
  }

  function Stored(handles: seq<S.QueueId>): (r: seq<seq<byte>>)
    ensures |r| == |handles|
  {
    if handles == [] then [] else [Handle(handles[0])] + Stored(handles[1..])
  }

  lemma {:induction false} StoredAppend(handles: seq<S.QueueId>, q: S.QueueId)
    ensures Stored(handles + [q]) == Stored(handles) + [Handle(q)]
  {
    hide Handle;
    if handles != [] {
      StoredAppend(handles[1..], q);
      assert (handles + [q])[1..] == handles[1..] + [q];
      var first, rest := [Handle(handles[0])], Stored(handles[1..]);
      assert first + (rest + [Handle(q)]) == (first + rest) + [Handle(q)];
    }
  }

  /** The first item holds the first handle. */
  lemma FirstStored(handles: seq<S.QueueId>, item: seq<byte>, rest: seq<seq<byte>>)
    requires handles != [] && handles[0] < WORD_LIMIT && Stored(handles) == [item] + rest
    ensures |item| == WORD_BYTES && WordOf(item) == handles[0] && rest == Stored(handles[1..])
  {
    hide Handle, WordOf;
    HandleRoundTrip(handles[0]);
    assert ([item] + rest)[0] == item && ([item] + rest)[1..] == rest;
    assert Stored(handles)[1..] == Stored(handles[1..]);
  }

  /** A member queue is as the protocol of the set has it. */
  ghost predicate Agree(m: S.Member, queue: Queue)
    reads queue
  {
    queue.Valid() && m.length == queue.length && m.messages == queue.messagesWaiting && m.txLock == queue.txLock
  }

  /** A selection is no business of the member's. */
  lemma SelectionAgrees(m: S.Member, queue: Queue)
    requires Agree(m, queue)
    ensures Agree(m.(selected := m.selected + 1), queue)
  {
  }

  /** The set's queue after n handles have been put in: an interrupt could have sent them. */
  function Told(s: P.State, n: int): P.State
    decreases n
  {
    if n <= 0 then s else Told(P.ApplyIsrSend(s, false), n - 1)
  }

  /** Telling a set is a run of the protocol of its queue, so what holds in every such run holds for the tasks that wait
      to select from the set. */
  lemma {:induction false} ToldIsRun(s: P.State, n: nat)
    requires n == 0 || s.txLock + n <= P.INT8_MAX
    ensures var es := seq(n, _ => P.IsrSend); P.RunEnabled(s, es) && P.Run(s, es) == Told(s, n)
    decreases n
  {
    var es := seq(n, _ => P.IsrSend);
    if n > 0 {
      var s1 := P.Apply(s, P.IsrSend);
      ToldIsRun(s1, n - 1);
      assert es[1..] == seq(n - 1, _ => P.IsrSend);
    }
  }

  class QueueSet {
    /** The queue of handles, and the members; a handle is the number of its queue here. */
    const container: Queue
    const members: seq<Queue>
    /** The set as its protocol sees it. */
    ghost var state: S.State

    /** No two of the queues are the same or share their storage. */
    ghost predicate Apart() {
      && (forall q :: 0 <= q < |members| ==> members[q] != container && members[q].storage != container.storage)
      && (forall q, r :: 0 <= q < r < |members| ==>
            members[q] != members[r] && members[q].storage != members[r].storage)
    }

    ghost predicate HandlesOk()
      reads this, container, container.storage
    {
      && |members| <= WORD_LIMIT
      && container.Valid() && container.itemSize == WORD_BYTES && container.length == state.setLength
      && (forall h :: h in state.handles ==> h < |members|)
      && container.Contents() == Stored(state.handles)
    }

    ghost predicate Valid()
      reads this, members, container, container.storage
    {
      && Apart() && HandlesOk() && |state.members| == |members|
      && forall q :: 0 <= q < |members| ==> Agree(state.members[q], members[q])
    }

    /** xQueueCreateSet and xQueueAddToSet for queues that are empty. */
    constructor (setLength: nat, members: seq<Queue>)
      requires setLength > 0 && |members| <= WORD_LIMIT
      requires forall q :: 0 <= q < |members| ==>
                 members[q].Valid() && members[q].messagesWaiting == 0 && members[q].txLock == P.UNLOCKED
      requires forall q, r :: 0 <= q < r < |members| ==>
                 members[q] != members[r] && members[q].storage != members[r].storage
      ensures Valid() && fresh(container) && fresh(container.storage)
      ensures this.members == members && container.State() == P.New(setLength)
      ensures S.TotalLength(state.members) <= setLength ==> S.Initial(state)
    {
      this.members := members;
      container := new Queue(setLength, WORD_BYTES);
      state := S.State(seq(|members|, q requires 0 <= q < |members| => S.Member(members[q].length, 0, P.UNLOCKED, 0)),
                       [], setLength);
    }

    /** prvNotifyQueueSetContainer: whatever the state of the set's queue, its event list or its lock count follows. */
    method NotifyContainer(q: S.QueueId)
      requires Valid() && q < |members|
      modifies this`state, container, container.storage
      ensures Valid() && state == S.Notify(old(state), q)
      ensures container.State() == P.ApplyIsrSend(old(container.State()), false)
    {
      hide Handle, Stored, Agree, Queue.Contents;
      if container.messagesWaiting < container.length {
        var txLock := container.txLock;
        StoredAppend(state.handles, q);
        container.CopyDataToQueue(Handle(q), Back);
        state := S.Notify(state, q);
        if txLock == P.UNLOCKED {
          var _ := container.WakeReceiver();
        } else {
          container.txLock := P.Bump(txLock);
        }
      }
    }

    /** prvCopyDataToQueue for a member. */
    method CopyDataToMember(q: S.QueueId, item: seq<byte>, position: Position)
      requires Valid() && q < |members| && |item| == members[q].itemSize
      requires members[q].messagesWaiting < members[q].length || position.Overwrite?
      requires position.Overwrite? ==> members[q].length == 1
      modifies this`state, members[q], members[q].storage
      ensures Valid()
      ensures var m := old(state).members[q];
              state == S.With(old(state), q,
                         m.(messages := if position.Overwrite? && m.messages > 0 then m.messages else m.messages + 1))
      ensures members[q].State() == P.Added(old(members[q].State()), position.Overwrite?)
      ensures position.Back? ==> members[q].Contents() == old(members[q].Contents()) + [item]
      ensures position.Front? ==> members[q].Contents() == [item] + old(members[q].Contents())
      ensures position.Overwrite? ==> members[q].Contents() == [item]
    {
      hide Handle, Stored, Queue.Contents;
      assert Agree(state.members[q], members[q]);
      members[q].CopyDataToQueue(item, position);
      state := S.With(state, q, state.members[q].(messages := members[q].messagesWaiting));
    }

    /** The critical section at the top of the loop of xQueueGenericSend, run by task t for a member: whoever waits for
        the member itself is not woken, the set is told instead. */
    method SendSection(t: TaskId, q: S.QueueId, item: seq<byte>, position: Position) returns (sent: bool)
      requires Valid() && q < |members| && |item| == members[q].itemSize && members[q].txLock == P.UNLOCKED
      requires position.Overwrite? ==> members[q].length == 1
      modifies this`state, members[q], members[q].storage, container, container.storage
      ensures Valid() && state == S.ApplySend(old(state), q, position.Overwrite?, false)
      ensures sent == (old(members[q].messagesWaiting) < members[q].length || position.Overwrite?)
      ensures sent && position.Back? ==> members[q].Contents() == old(members[q].Contents()) + [item]
      ensures sent && position.Front? ==> members[q].Contents() == [item] + old(members[q].Contents())
      ensures sent && position.Overwrite? ==> members[q].Contents() == [item]
      ensures !sent ==> members[q].Contents() == old(members[q].Contents())
      ensures var was := P.Rerun(old(members[q].State()), t);
              members[q].State() == if sent then P.Added(was, position.Overwrite?) else was
      ensures var told := sent && !(position.Overwrite? && old(members[q].messagesWaiting) > 0);
              container.State() == Told(old(container.State()), if told then 1 else 0)
    {
      hide Handle, Stored, Queue.Contents;
      var queue := members[q];
      queue.wokenR, queue.wokenS := queue.wokenR - {t}, queue.wokenS - {t};
      sent := queue.messagesWaiting < queue.length || position.Overwrite?;
      assert Agree(state.members[q], queue);
      if sent {
        var previousMessagesWaiting := queue.messagesWaiting;
        CopyDataToMember(q, item, position);
        if !(position.Overwrite? && previousMessagesWaiting != 0) {
          NotifyContainer(q);
        }
      }
    }

    /** xQueueGenericSendFromISR for a member. */
    method SendFromISR(q: S.QueueId, item: seq<byte>, position: Position) returns (sent: bool)
      requires Valid() && q < |members| && |item| == members[q].itemSize
      requires position.Overwrite? ==> members[q].length == 1
      modifies this`state, members[q], members[q].storage, container, container.storage
      ensures Valid() && state == S.ApplySend(old(state), q, position.Overwrite?, true)
      ensures sent == (old(members[q].messagesWaiting) < members[q].length || position.Overwrite?)
      ensures sent && position.Back? ==> members[q].Contents() == old(members[q].Contents()) + [item]
      ensures sent && position.Front? ==> members[q].Contents() == [item] + old(members[q].Contents())
      ensures sent && position.Overwrite? ==> members[q].Contents() == [item]
      ensures !sent ==> members[q].Contents() == old(members[q].Contents())
      ensures var was := old(members[q].State());
              members[q].State() == if !sent then was
                                    else if was.txLock == P.UNLOCKED then P.Added(was, position.Overwrite?)
                                    else P.Added(was, position.Overwrite?).(txLock := P.Bump(was.txLock))
      ensures var told := sent && old(members[q].txLock) == P.UNLOCKED
                          && !(position.Overwrite? && old(members[q].messagesWaiting) > 0);
              container.State() == Told(old(container.State()), if told then 1 else 0)
    {
      hide Handle, Stored, Queue.Contents;
      var queue := members[q];
      sent := queue.messagesWaiting < queue.length || position.Overwrite?;
      assert Agree(state.members[q], queue);
      if sent {
        var txLock, previousMessagesWaiting := queue.txLock, queue.messagesWaiting;
        CopyDataToMember(q, item, position);
        if txLock == P.UNLOCKED {
          if !(position.Overwrite? && previousMessagesWaiting != 0) {
            NotifyContainer(q);
          }
        } else {
          queue.txLock := P.Bump(txLock);
          state := S.With(state, q, state.members[q].(txLock := queue.txLock));
        }
      }
    }

    /** prvLockQueue for a member. */
    method LockQueue(q: S.QueueId)
      requires Valid() && q < |members| && P.Enabled(members[q].State(), P.Lock) && members[q].txLock == P.UNLOCKED
      modifies this`state, members[q]
      ensures Valid() && state == S.Apply(old(state), S.Lock(q))
      ensures members[q].State() == P.Apply(old(members[q].State()), P.Lock)
    {
      assert Agree(state.members[q], members[q]);
      members[q].LockQueue();
      state := S.Apply(state, S.Lock(q));
    }

    /** The first critical section of prvUnlockQueue for a member: the loop goes on to the end of the count. */
    method UnlockTx(q: S.QueueId)
      requires Valid() && q < |members| && P.Enabled(members[q].State(), P.UnlockTx) && members[q].txLock != P.UNLOCKED
      modifies this`state, members[q], container, container.storage
      ensures Valid() && state == S.Apply(old(state), S.UnlockTx(q))
      ensures members[q].State() == old(members[q].State()).(txLock := P.UNLOCKED, locker := P.TxUnlocked)
      ensures container.State() == Told(old(container.State()), old(members[q].txLock))
    {
      hide Handle, Stored, Queue.Contents;
      assert Agree(state.members[q], members[q]);
      var txLock := members[q].txLock;
      ghost var done, told := S.Replay(state, q, txLock), Told(container.State(), txLock);
      while txLock > P.LOCKED_UNMODIFIED
        invariant Valid() && S.Replay(state, q, txLock) == done && Told(container.State(), txLock) == told
        invariant state.members == old(state).members && members[q].State() == old(members[q].State())
      {
        NotifyContainer(q);
        txLock := txLock - 1;
      }
      assert state == done;
      members[q].txLock := P.UNLOCKED;
      members[q].locker := P.TxUnlocked;
      state := state.(members := state.members[q := state.members[q].(txLock := P.UNLOCKED)]);
    }

    /** One round of xQueueSelectFromSet, run by task t: the oldest handle, if there is one. */
    method SelectFromSet(t: TaskId) returns (selected: bool, q: S.QueueId)
      requires Valid()
      modifies this`state, container
      ensures Valid() && selected == (old(state).handles != [])
      ensures state == if selected then S.Apply(old(state), S.Select) else old(state)
      ensures selected ==> q == old(state).handles[0] < |members|
      ensures container.State() == P.ApplyReceive(old(container.State()), t)
    {
      hide Handle, WordOf, Stored, Queue.Contents, Queue.Valid, Agree;
      ghost var handles := state.handles;
      var item: seq<byte>;
      selected, item := container.ReceiveSection(t);
      q := 0;
      if selected {
        assert handles[0] in handles;
        FirstStored(handles, item, container.Contents());
        q := WordOf(item);
        forall h | h in handles[1..] ensures h < |members| { assert h in handles; }
        state := S.Apply(state, S.Select);
        SelectionAgrees(old(state).members[q], members[q]);
      }
    }

    /** The critical section at the top of the loop of xQueueReceive for a member that was selected. */
    method ReceiveSection(t: TaskId, q: S.QueueId) returns (item: seq<byte>)
      requires Valid() && S.Enabled(state, S.Receive(q))
      modifies this`state, members[q]
      ensures Valid() && state == S.Apply(old(state), S.Receive(q))
      ensures old(members[q].Contents()) == [item] + members[q].Contents()
      ensures members[q].State() == P.ApplyReceive(old(members[q].State()), t)
    {
      hide Handle, Stored, Queue.Contents;
      assert Agree(state.members[q], members[q]);
      var _, item' := members[q].ReceiveSection(t);
      item := item';
      state := S.Apply(state, S.Receive(q));
    }
  }
}
