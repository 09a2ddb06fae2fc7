/** Queue sets: a set is a queue of handles, one for every item its member queues have taken in. */

module QueueSetProtocol {
  import Q = QueueProtocol

  type QueueId = nat

  /** A member queue; `selected` counts the times its handle was read from the set without an item having been
      received from it since. */
  datatype Member = Member(length: nat, messages: nat, txLock: int, selected: nat)

  /** Members are numbered; `handles` is what the set holds, oldest first. */
  datatype State = State(members: seq<Member>, handles: seq<QueueId>, setLength: nat)

  datatype Step =
    | Send(q: QueueId) | Overwrite(q: QueueId)
    | IsrSend(q: QueueId) | IsrOverwrite(q: QueueId)
    | Lock(q: QueueId) | UnlockTx(q: QueueId)
    | Select
    | Receive(q: QueueId)

  function With(s: State, q: QueueId, m: Member): State
    requires q < |s.members|
  {
    s.(members := s.members[q := m])
  }

  /** prvNotifyQueueSetContainer: the handle goes in at the back if there is room, and is dropped if there is not. */
  function Notify(s: State, q: QueueId): State {
    if |s.handles| < s.setLength then s.(handles := s.handles + [q]) else s
  }

  /** The loop of prvUnlockQueue for a member of a set. */
  function Replay(s: State, q: QueueId, count: int): State
    decreases count
  {
    if count <= Q.LOCKED_UNMODIFIED then s else Replay(Notify(s, q), q, count - 1)
  }

  /** Adding an item: the set is told unless an item was overwritten, at once or when the queue is unlocked. */
  function ApplySend(s: State, q: QueueId, overwrite: bool, fromIsr: bool): State
    requires q < |s.members|
  {
    var m := s.members[q];
    if m.messages < m.length || overwrite then
      var s1 := With(s, q, m.(messages := if overwrite && m.messages > 0 then m.messages else m.messages + 1));
      if fromIsr && m.txLock != Q.UNLOCKED then With(s1, q, s1.members[q].(txLock := Q.Bump(m.txLock)))
      else if overwrite && m.messages != 0 then s1
      else Notify(s1, q)
    else s
  }

  /** Tasks run only while no queue is locked by the task that suspended the scheduler; a member is received from
      only after it was selected. */
  predicate Enabled(s: State, e: Step) {
    match e
    case Send(q) => q < |s.members| && s.members[q].txLock == Q.UNLOCKED
    case Overwrite(q) => q < |s.members| && s.members[q].txLock == Q.UNLOCKED && s.members[q].length == 1
    case IsrSend(q) => q < |s.members|
    case IsrOverwrite(q) => q < |s.members| && s.members[q].length == 1
    case Lock(q) => q < |s.members| && s.members[q].txLock == Q.UNLOCKED
    case UnlockTx(q) => q < |s.members| && s.members[q].txLock != Q.UNLOCKED
    case Select => s.handles != []
    case Receive(q) => q < |s.members| && s.members[q].selected > 0 && s.members[q].messages > 0
  }

  function Apply(s: State, e: Step): State
    requires Enabled(s, e)
  {
    match e
    case Send(q) => ApplySend(s, q, false, false)
    case Overwrite(q) => ApplySend(s, q, true, false)
    case IsrSend(q) => ApplySend(s, q, false, true)
    case IsrOverwrite(q) => ApplySend(s, q, true, true)
    case Lock(q) => With(s, q, s.members[q].(txLock := Q.LOCKED_UNMODIFIED))
    case UnlockTx(q) =>
      var s1 := Replay(s, q, s.members[q].txLock);
      s1.(members := s.members[q := s.members[q].(txLock := Q.UNLOCKED)])
    case Select =>
      var q := s.handles[0];
      var s1 := s.(handles := s.handles[1..]);
      if q < |s.members| then With(s1, q, s.members[q].(selected := s.members[q].selected + 1)) else s1
    case Receive(q) =>
      With(s, q, s.members[q].(messages := s.members[q].messages - 1, selected := s.members[q].selected - 1))
  }

  // ---- Counting ----

  function Copies(handles: seq<QueueId>, q: QueueId): nat {
    if handles == [] then 0 else (if handles[0] == q then 1 else 0) + Copies(handles[1..], q)
  }

  function Below(handles: seq<QueueId>, k: nat): nat {
    if handles == [] then 0 else (if handles[0] < k then 1 else 0) + Below(handles[1..], k)
  }

  function TotalLength(members: seq<Member>): nat {
    if members == [] then 0 else TotalLength(members[..|members| - 1]) + members[|members| - 1].length
  }

  lemma {:induction false} CopiesAppend(handles: seq<QueueId>, q: QueueId, q': QueueId)
    ensures Copies(handles + [q], q') == Copies(handles, q') + if q == q' then 1 else 0
  {
    if handles != [] {
      CopiesAppend(handles[1..], q, q');
      assert (handles + [q])[1..] == handles[1..] + [q];
    }
  }

  lemma {:induction false} BelowOneMore(handles: seq<QueueId>, k: nat)
    ensures Below(handles, k + 1) == Below(handles, k) + Copies(handles, k)
  {
    if handles != [] { BelowOneMore(handles[1..], k); }
  }

  lemma {:induction false} BelowZero(handles: seq<QueueId>)
    ensures Below(handles, 0) == 0
  {
    if handles != [] { BelowZero(handles[1..]); }
  }

  lemma {:induction false} AllBelow(handles: seq<QueueId>, n: nat)
    requires forall q :: q in handles ==> q < n
    ensures Below(handles, n) == |handles|
  {
    if handles != [] {
      forall q | q in handles[1..] ensures q < n { assert q in handles; }
      assert handles[0] in handles;
      AllBelow(handles[1..], n);
    }
  }

  /** With no more copies of a handle than its queue has places, and fewer for one queue, the handles of the first k
      queues are fewer than their places. */
  lemma {:induction false} HandlesFit(members: seq<Member>, handles: seq<QueueId>, short: QueueId)
    requires forall q :: 0 <= q < |members| ==> Copies(handles, q) <= members[q].length
    requires short < |members| ==> Copies(handles, short) < members[short].length
    ensures Below(handles, |members|) + (if short < |members| then 1 else 0) <= TotalLength(members)
  {
    if members == [] {
      BelowZero(handles);
    } else {
      var front := members[..|members| - 1];
      forall q | 0 <= q < |front| ensures Copies(handles, q) <= front[q].length { assert front[q] == members[q]; }
      if short < |front| { assert front[short] == members[short]; }
      HandlesFit(front, handles, short);
      BelowOneMore(handles, |front|);
    }
  }

  // ---- Invariant ----

  /** Each item of a member is accounted for once: by a copy of the handle in the set, by the count under the lock, or
      by a selection whose item has not been received. `owed` is what a replay loop still has to tell the set. */
  predicate Accounted(m: Member, copies: nat, owed: nat) {
    m.messages == copies + owed + m.selected
  }

  ghost predicate Inv(s: State) {
    && (forall q :: 0 <= q < |s.members| ==>
          s.members[q].messages <= s.members[q].length && s.members[q].txLock >= Q.UNLOCKED
          && Accounted(s.members[q], Copies(s.handles, q), Q.Pending(s.members[q].txLock)))
    && (forall q :: q in s.handles ==> q < |s.members|)
    && TotalLength(s.members) <= s.setLength
  }

  /** As Inv, with `owed` standing for the pending count of q. */
  ghost predicate InvOwing(s: State, q: QueueId, owed: nat)
    requires q < |s.members|
  {
    && (forall q' :: 0 <= q' < |s.members| ==>
          s.members[q'].messages <= s.members[q'].length && s.members[q'].txLock >= Q.UNLOCKED
          && Accounted(s.members[q'], Copies(s.handles, q'), if q' == q then owed else Q.Pending(s.members[q'].txLock)))
    && (forall q' :: q' in s.handles ==> q' < |s.members|)
    && TotalLength(s.members) <= s.setLength
  }

  /** While an item is unannounced the set has room for its handle, so the handle goes in. */
  lemma NotifyPays(s: State, q: QueueId, owed: nat)
    requires q < |s.members| && InvOwing(s, q, owed + 1)
    ensures |s.handles| < s.setLength && Notify(s, q) == s.(handles := s.handles + [q])
    ensures InvOwing(Notify(s, q), q, owed)
  {
    forall q' | 0 <= q' < |s.members| ensures Copies(s.handles, q') <= s.members[q'].length {
      assert Accounted(s.members[q'], Copies(s.handles, q'), if q' == q then owed + 1 else Q.Pending(s.members[q'].txLock));
    }
    HandlesFit(s.members, s.handles, q);
    AllBelow(s.handles, |s.members|);
    var s' := Notify(s, q);
    forall q' | 0 <= q' < |s'.members|
      ensures Accounted(s'.members[q'], Copies(s'.handles, q'), if q' == q then owed else Q.Pending(s'.members[q'].txLock))
    {
      CopiesAppend(s.handles, q, q');
    }
  }

  lemma {:induction false} ReplayPays(s: State, q: QueueId, count: int)
    requires q < |s.members| && InvOwing(s, q, Q.Pending(count))
    ensures Replay(s, q, count).members == s.members && Replay(s, q, count).setLength == s.setLength
    ensures |Replay(s, q, count).handles| == |s.handles| + Q.Pending(count)
    ensures InvOwing(Replay(s, q, count), q, 0)
    decreases count
  {
    if count > Q.LOCKED_UNMODIFIED {
      NotifyPays(s, q, count - 1);
      ReplayPays(Notify(s, q), q, count - 1);
    }
  }

  lemma {:induction false} SameTotal(a: seq<Member>, b: seq<Member>)
    requires |a| == |b| && forall q :: 0 <= q < |a| ==> a[q].length == b[q].length
    ensures TotalLength(a) == TotalLength(b)
  {
    if a != [] {
      var c, d := a[..|a| - 1], b[..|b| - 1];
      forall q | 0 <= q < |c| ensures c[q].length == d[q].length { assert c[q] == a[q] && d[q] == b[q]; }
      SameTotal(c, d);
    }
  }

  /** What the source asserts before counting under a lock, and the one combination left out: an interrupt overwriting
      the item of a locked member counts although no item was added. */
  predicate WithinRules(s: State, e: Step)
    requires Enabled(s, e)
  {
    && (e.IsrSend? || e.IsrOverwrite? ==> s.members[e.q].txLock < Q.INT8_MAX)
    && (e.IsrOverwrite? ==> s.members[e.q].txLock == Q.UNLOCKED || s.members[e.q].messages == 0)
  }

  /** An item added to an unlocked member is still to be announced. */
  lemma AddedIsOwed(s: State, q: QueueId)
    requires Inv(s) && q < |s.members| && s.members[q].messages < s.members[q].length
    requires s.members[q].txLock == Q.UNLOCKED
    ensures InvOwing(With(s, q, s.members[q].(messages := s.members[q].messages + 1)), q, 1)
  {
    SameTotal(With(s, q, s.members[q].(messages := s.members[q].messages + 1)).members, s.members);
  }

  /** An item added to a locked member is counted. */
  lemma AddedIsCounted(s: State, q: QueueId)
    requires Inv(s) && q < |s.members| && s.members[q].messages < s.members[q].length
    requires Q.UNLOCKED < s.members[q].txLock < Q.INT8_MAX
    ensures var m := s.members[q];
            Inv(With(s, q, m.(messages := m.messages + 1, txLock := Q.Bump(m.txLock))))
  {
    var m := s.members[q];
    SameTotal(With(s, q, m.(messages := m.messages + 1, txLock := Q.Bump(m.txLock))).members, s.members);
  }

  /** What a send within the rules comes to. */
  lemma SendCases(s: State, q: QueueId, overwrite: bool, fromIsr: bool)
    requires q < |s.members| && (fromIsr || s.members[q].txLock == Q.UNLOCKED)
    requires overwrite && fromIsr ==> s.members[q].txLock == Q.UNLOCKED || s.members[q].messages == 0
    ensures var m := s.members[q];
            ApplySend(s, q, overwrite, fromIsr) ==
            if if overwrite then m.messages > 0 else m.messages >= m.length then s
            else if m.txLock != Q.UNLOCKED then With(s, q, m.(messages := m.messages + 1, txLock := Q.Bump(m.txLock)))
            else Notify(With(s, q, m.(messages := m.messages + 1)), q)
  {
    var m := s.members[q];
    assert s.members[q := m] == s.members;
    if m.txLock != Q.UNLOCKED {
      var added := m.(messages := m.messages + 1);
      assert s.members[q := added][q := added.(txLock := Q.Bump(m.txLock))] == s.members[q := added.(txLock := Q.Bump(m.txLock))];
    }
  }

  lemma PaidIsInv(s: State, q: QueueId)
    requires q < |s.members| && s.members[q].txLock == Q.UNLOCKED && InvOwing(s, q, 0)
    ensures Inv(s)
  {
  }

  lemma SendKeepsInv(s: State, q: QueueId, overwrite: bool, fromIsr: bool)
    requires Inv(s) && q < |s.members| && (overwrite ==> s.members[q].length == 1)
    requires fromIsr || s.members[q].txLock == Q.UNLOCKED
    requires s.members[q].txLock < Q.INT8_MAX
    requires overwrite && fromIsr ==> s.members[q].txLock == Q.UNLOCKED || s.members[q].messages == 0
    ensures Inv(ApplySend(s, q, overwrite, fromIsr))
  {
    var m := s.members[q];
    SendCases(s, q, overwrite, fromIsr);
    if m.messages < m.length {
      if m.txLock != Q.UNLOCKED {
        AddedIsCounted(s, q);
      } else {
        var s1 := With(s, q, m.(messages := m.messages + 1));
        AddedIsOwed(s, q);
        NotifyPays(s1, q, 0);
        hide Inv, InvOwing, ApplySend;
        PaidIsInv(Notify(s1, q), q);
      }
    }
  }

  lemma UnlockKeepsInv(s: State, q: QueueId)
    requires Inv(s) && q < |s.members| && s.members[q].txLock != Q.UNLOCKED
    ensures Inv(Apply(s, UnlockTx(q)))
  {
    var s' := Apply(s, UnlockTx(q));
    assert InvOwing(s, q, Q.Pending(s.members[q].txLock));
    ReplayPays(s, q, s.members[q].txLock);
    SameTotal(s'.members, s.members);
  }

  lemma SelectKeepsInv(s: State)
    requires Inv(s) && s.handles != []
    ensures Inv(Apply(s, Select))
  {
    var s', first := Apply(s, Select), s.handles[0];
    assert first in s.handles;
    SameTotal(s'.members, s.members);
    forall q | q in s'.handles ensures q < |s'.members| { assert q in s.handles; }
    forall q | 0 <= q < |s'.members|
      ensures Accounted(s'.members[q], Copies(s'.handles, q), Q.Pending(s'.members[q].txLock))
    {
      assert Accounted(s.members[q], Copies(s.handles, q), Q.Pending(s.members[q].txLock));
    }
  }

  lemma ReceiveKeepsInv(s: State, q: QueueId)
    requires Inv(s) && Enabled(s, Receive(q))
    ensures Inv(Apply(s, Receive(q)))
  {
    SameTotal(Apply(s, Receive(q)).members, s.members);
  }

  lemma LockKeepsInv(s: State, q: QueueId)
    requires Inv(s) && Enabled(s, Lock(q))
    ensures Inv(Apply(s, Lock(q)))
  {
    SameTotal(Apply(s, Lock(q)).members, s.members);
  }

  lemma StepKeepsInv(s: State, e: Step)
    requires Inv(s) && Enabled(s, e) && WithinRules(s, e)
    ensures Inv(Apply(s, e))
  {
    match e
    case Send(q) => SendKeepsInv(s, q, false, false);
    case Overwrite(q) => SendKeepsInv(s, q, true, false);
    case IsrSend(q) => SendKeepsInv(s, q, false, true);
    case IsrOverwrite(q) => SendKeepsInv(s, q, true, true);
    case UnlockTx(q) => UnlockKeepsInv(s, q);
    case Lock(q) => LockKeepsInv(s, q);
    case Select => SelectKeepsInv(s);
    case Receive(q) => ReceiveKeepsInv(s, q);
  }

  // ---- Every run ----

  /** A set of empty members, together no longer than the set. */
  predicate Initial(s: State) {
    && (forall q :: 0 <= q < |s.members| ==>
          s.members[q].messages == 0 && s.members[q].txLock == Q.UNLOCKED && s.members[q].selected == 0)
    && s.handles == [] && TotalLength(s.members) <= s.setLength
  }

  predicate RunEnabled(s: State, es: seq<Step>)
    decreases es
  {
    es != [] ==> Enabled(s, es[0]) && WithinRules(s, es[0]) && RunEnabled(Apply(s, es[0]), es[1..])
  }

  function Run(s: State, es: seq<Step>): State
    requires RunEnabled(s, es)
    decreases es
  {
    if es == [] then s else Run(Apply(s, es[0]), es[1..])
  }

  lemma {:induction false} RunKeepsInv(s: State, es: seq<Step>)
    requires Inv(s) && RunEnabled(s, es)
    ensures Inv(Run(s, es))
    decreases es
  {
    if es != [] {
      StepKeepsInv(s, es[0]);
      RunKeepsInv(Apply(s, es[0]), es[1..]);
    }
  }

  /** In every run a member's messages are the copies of its handle in the set, the sends counted under its lock and
      the selections not yet received; the set never holds more than it has room for. */
  lemma MessagesAreConserved(s: State, es: seq<Step>, q: QueueId)
    requires Initial(s) && RunEnabled(s, es) && q < |Run(s, es).members|
    ensures var s' := Run(s, es);
            var m := s'.members[q];
            m.messages == Copies(s'.handles, q) + Q.Pending(m.txLock) + m.selected
    ensures |Run(s, es).handles| <= Run(s, es).setLength
  {
    RunKeepsInv(s, es);
    var s' := Run(s, es);
    assert Accounted(s'.members[q], Copies(s'.handles, q), Q.Pending(s'.members[q].txLock));
    forall q' | 0 <= q' < |s'.members| ensures Copies(s'.handles, q') <= s'.members[q'].length {
      assert Accounted(s'.members[q'], Copies(s'.handles, q'), Q.Pending(s'.members[q'].txLock));
    }
    HandlesFit(s'.members, s'.handles, |s'.members|);
    AllBelow(s'.handles, |s'.members|);
  }

  /** An interrupt's send to an unlocked member announces its item. */
  lemma SendIsAnnounced(s: State, q: QueueId)
    requires Inv(s) && q < |s.members| && s.members[q].txLock == Q.UNLOCKED
    requires s.members[q].messages < s.members[q].length
    ensures Apply(s, IsrSend(q)).handles == s.handles + [q]
  {
    var m := s.members[q];
    var s1 := With(s, q, m.(messages := m.messages + 1));
    SameTotal(s1.members, s.members);
    assert InvOwing(s1, q, 1);
    NotifyPays(s1, q, 0);
  }

  /** No step of a run finds the set full: each one adds as many handles as it announces items. */
  lemma NoHandleIsDropped(s: State, es: seq<Step>, q: QueueId)
    requires Initial(s) && RunEnabled(s, es) && q < |Run(s, es).members|
    ensures var s' := Run(s, es);
            var m := s'.members[q];
            && (m.txLock == Q.UNLOCKED && m.messages < m.length ==> Apply(s', IsrSend(q)).handles == s'.handles + [q])
            && (m.txLock != Q.UNLOCKED ==> |Apply(s', UnlockTx(q)).handles| == |s'.handles| + Q.Pending(m.txLock))
  {
    RunKeepsInv(s, es);
    var s' := Run(s, es);
    var m := s'.members[q];
    if m.txLock != Q.UNLOCKED {
      assert InvOwing(s', q, Q.Pending(m.txLock));
      ReplayPays(s', q, m.txLock);
    } else if m.messages < m.length {
      SendIsAnnounced(s', q);
    }
  }

  /** What xQueueRemoveFromSet relies on when it lets an empty member go: none of its handles is left behind. */
  lemma EmptyMemberLeavesNothing(s: State, es: seq<Step>, q: QueueId)
    requires Initial(s) && RunEnabled(s, es) && q < |Run(s, es).members| && Run(s, es).members[q].messages == 0
    ensures q !in Run(s, es).handles && Q.Pending(Run(s, es).members[q].txLock) == 0
  {
    MessagesAreConserved(s, es, q);
    NoCopies(Run(s, es).handles, q);
  }

  lemma {:induction false} NoCopies(handles: seq<QueueId>, q: QueueId)
    requires Copies(handles, q) == 0
    ensures q !in handles
  {
    if handles != [] { NoCopies(handles[1..], q); }
  }

  /** The rule about overwriting from an interrupt is needed: under a lock it is counted, and the set is told of an
      item that is not there. */
  lemma OverwriteUnderLockMiscounts(s: State, q: QueueId)
    requires Inv(s) && q < |s.members| && s.members[q].length == 1 && s.members[q].messages == 1
    requires 0 <= s.members[q].txLock < Q.INT8_MAX
    ensures var m := Apply(s, IsrOverwrite(q)).members[q];
            m.messages + 1 == Copies(Apply(s, IsrOverwrite(q)).handles, q) + Q.Pending(m.txLock) + m.selected
  {
    assert Accounted(s.members[q], Copies(s.handles, q), Q.Pending(s.members[q].txLock));
  }
}
