/** The internal publish/subscribe bus used for notices between avatars. */
module Events {
  import opened Wrappers

  /** `InternalMessage`; payload values are kept as text. */
  datatype InternalMessage = InternalMessage(
    sender: string,
    messageType: string,
    payload: map<string, string>,
    recipient: Option<string>)

  /** A subscribed coroutine function, compared by identity. */
  datatype Callback = Callback(name: string)

  /** One invocation of a callback during dispatch, and whether it raised. */
  datatype Delivery = Delivery(callback: Callback, message: InternalMessage, failed: bool)

  /** Which invocations raise: a property of the callbacks, outside the bus. */
  type Failures = (Callback, InternalMessage) -> bool

  /** The callback list under `key`; a missing key reads as the empty list. */
  function Subscribers(subs: map<string, seq<Callback>>, key: string): seq<Callback> {
    if key in subs then subs[key] else []
  }

  /** The position of the first occurrence of `c`. */
  function FirstIndex(s: seq<Callback>, c: Callback): (i: nat)
    requires c in s
    ensures i < |s| && s[i] == c
    ensures forall j :: 0 <= j < i ==> s[j] != c
  {
    if s[0] == c then 0 else 1 + FirstIndex(s[1..], c)
  }

  /** `list.remove`: drop the first occurrence, if any. */
  function RemoveFirst(s: seq<Callback>, c: Callback): (r: seq<Callback>)
    ensures |r| == if c in s then |s| - 1 else |s|
    ensures c !in s ==> r == s
  {
    if c in s then s[..FirstIndex(s, c)] + s[FirstIndex(s, c) + 1..] else s
  }

  /** Removal takes away exactly one copy of the callback, if there is one, and nothing else. */
  lemma RemoveFirstDropsOneCopy(s: seq<Callback>, c: Callback)
    ensures multiset(RemoveFirst(s, c)) == multiset(s) - multiset{c}
  {
    if c in s {
      var i := FirstIndex(s, c);
      assert s == s[..i] + [c] + s[i + 1..];
    }
  }

  /** Only the first occurrence goes: what precedes it stays, and so does everything after it. */
  lemma RemoveFirstSplits(before: seq<Callback>, c: Callback, after: seq<Callback>)
    requires forall j :: 0 <= j < |before| ==> before[j] != c
    ensures RemoveFirst(before + [c] + after, c) == before + after
  {
    var s := before + [c] + after;
    assert s[|before|] == c;
    var i := FirstIndex(s, c);
    assert i == |before|;
    assert s[..i] == before;
    assert s[i + 1..] == after;
  }

  /** A message goes to the recipient's subscribers (when it names a recipient), then to its type's. */
  function Targets(subs: map<string, seq<Callback>>, m: InternalMessage): seq<Callback> {
    (if m.recipient.Some? && m.recipient.value != "" then Subscribers(subs, "to_" + m.recipient.value) else [])
      + Subscribers(subs, m.messageType)
  }

  function Deliver(callbacks: seq<Callback>, m: InternalMessage, fails: Failures): (r: seq<Delivery>)
    ensures |r| == |callbacks|
    ensures forall i :: 0 <= i < |callbacks| ==> r[i] == Delivery(callbacks[i], m, fails(callbacks[i], m))
  {
    seq(|callbacks|, i requires 0 <= i < |callbacks| => Delivery(callbacks[i], m, fails(callbacks[i], m)))
  }

  /** Dispatching the messages one after the other, in queue order. */
  function DispatchAll(subs: map<string, seq<Callback>>, msgs: seq<InternalMessage>, fails: Failures): seq<Delivery> {
    if msgs == [] then []
    else DispatchAll(subs, msgs[..|msgs| - 1], fails) + Deliver(Targets(subs, msgs[|msgs| - 1]), msgs[|msgs| - 1], fails)
  }

  /** Dispatching one more message of the queue appends its deliveries. */
  lemma DispatchOneMore(subs: map<string, seq<Callback>>, msgs: seq<InternalMessage>, k: nat, fails: Failures)
    requires k < |msgs|
    ensures DispatchAll(subs, msgs[..k + 1], fails) == DispatchAll(subs, msgs[..k], fails) + Deliver(Targets(subs, msgs[k]), msgs[k], fails)
  {
    assert msgs[..k + 1][..k] == msgs[..k];
  }

  lemma AppendAssoc(x: seq<Delivery>, y: seq<Delivery>, z: seq<Delivery>)
    ensures x + y + z == x + (y + z)
  {
  }

  /** FIFO: the deliveries for an earlier batch all come before those for a later one. */
  lemma {:induction false} DispatchAllAppend(subs: map<string, seq<Callback>>, a: seq<InternalMessage>, b: seq<InternalMessage>, fails: Failures)
    ensures DispatchAll(subs, a + b, fails) == DispatchAll(subs, a, fails) + DispatchAll(subs, b, fails)
    decreases |b|
  {
    if b == [] {
      assert a + b == a;
    } else {
      var b', m := b[..|b| - 1], b[|b| - 1];
      assert (a + b)[..|a + b| - 1] == a + b';
      assert (a + b)[|a + b| - 1] == m;
      DispatchAllAppend(subs, a, b', fails);
      AppendAssoc(DispatchAll(subs, a, fails), DispatchAll(subs, b', fails), Deliver(Targets(subs, m), m, fails));
    }
  }

  /**
   * Failure isolation: which callbacks are invoked, and in what order, does
   * not depend on which of them raise.
   */
  lemma {:induction false} FailuresDoNotStopDelivery(subs: map<string, seq<Callback>>, msgs: seq<InternalMessage>, f1: Failures, f2: Failures)
    ensures |DispatchAll(subs, msgs, f1)| == |DispatchAll(subs, msgs, f2)|
    ensures forall i :: 0 <= i < |DispatchAll(subs, msgs, f1)| ==>
      DispatchAll(subs, msgs, f1)[i].callback == DispatchAll(subs, msgs, f2)[i].callback &&
      DispatchAll(subs, msgs, f1)[i].message == DispatchAll(subs, msgs, f2)[i].message
  {
    if msgs != [] {
      FailuresDoNotStopDelivery(subs, msgs[..|msgs| - 1], f1, f2);
    }
  }

  class InternalEventBus {
    /** `_subscribers`: a default dictionary of callback lists. */
    var subscribers: map<string, seq<Callback>>
    /** `_queue`: head first. */
    var queue: seq<InternalMessage>
    /** `_processing_task is not None` */
    var processing: bool
    /** How many processing tasks have been created and cancelled. */
    ghost var tasksCreated: nat
    ghost var tasksCancelled: nat

    constructor ()
      ensures subscribers == map[] && queue == [] && !processing
      ensures tasksCreated == 0 && tasksCancelled == 0
    {
      subscribers, queue, processing := map[], [], false;
      tasksCreated, tasksCancelled := 0, 0;
    }

    /** `subscribe`: the callback goes at the end of its key's list; other keys keep theirs. */
    method Subscribe(messageType: string, callback: Callback)
      modifies this
      ensures subscribers == old(subscribers)[messageType := Subscribers(old(subscribers), messageType) + [callback]]
      ensures queue == old(queue) && processing == old(processing)
      ensures tasksCreated == old(tasksCreated) && tasksCancelled == old(tasksCancelled)
    {
      var current := if messageType in subscribers then subscribers[messageType] else [];
      subscribers := subscribers[messageType := current + [callback]];
    }

    /**
     * `unsubscribe`: the first occurrence of the callback leaves its key's
     * list; looking the key up in the default dictionary creates it when absent.
     */
    method Unsubscribe(messageType: string, callback: Callback)
      modifies this
      ensures subscribers == old(subscribers)[messageType := RemoveFirst(Subscribers(old(subscribers), messageType), callback)]
      ensures queue == old(queue) && processing == old(processing)
      ensures tasksCreated == old(tasksCreated) && tasksCancelled == old(tasksCancelled)
    {
      if messageType !in subscribers {
        subscribers := subscribers[messageType := []];
      }
      var current := subscribers[messageType];
      if callback in current {
        subscribers := subscribers[messageType := RemoveFirst(current, callback)];
      }
    }

    /** `publish`: the message joins the tail of the queue. */
    method Publish(m: InternalMessage)
      modifies this
      ensures queue == old(queue) + [m]
      ensures subscribers == old(subscribers) && processing == old(processing)
      ensures tasksCreated == old(tasksCreated) && tasksCancelled == old(tasksCancelled)
    {
      queue := queue + [m];
    }

    /**
     * `_process_single_message`: each target callback is awaited in turn; one
     * that raises is logged and the next one still runs.
     */
    method ProcessSingleMessage(m: InternalMessage, fails: Failures) returns (log: seq<Delivery>)
      ensures log == Deliver(Targets(subscribers, m), m, fails)
    {
      log := [];
      var first: seq<Callback> := [];
      if m.recipient.Some? && m.recipient.value != "" {
        var key := "to_" + m.recipient.value;
        if key in subscribers {
          first := subscribers[key];
          var i := 0;
          while i < |first|
            invariant 0 <= i <= |first|
            invariant log == Deliver(first[..i], m, fails)
          {
            log := log + [Delivery(first[i], m, fails(first[i], m))];
            i := i + 1;
          }
          assert first[..i] == first;
        }
      }
      if m.messageType in subscribers {
        var general := subscribers[m.messageType];
        var j := 0;
        while j < |general|
          invariant 0 <= j <= |general|
          invariant log == Deliver(first + general[..j], m, fails)
        {
          assert first + general[..j + 1] == (first + general[..j]) + [general[j]];
          log := log + [Delivery(general[j], m, fails(general[j], m))];
          j := j + 1;
        }
        assert general[..j] == general;
      } else {
        assert first + [] == first;
      }
    }

    /**
     * One turn of `process_messages`: take the head of the queue and dispatch
     * it. With an empty queue the consumer waits: nothing happens.
     */
    method ProcessNext(fails: Failures) returns (log: Option<seq<Delivery>>)
      modifies this
      ensures old(queue) == [] ==> log == None && queue == []
      ensures old(queue) != [] ==>
        queue == old(queue)[1..] && log == Some(Deliver(Targets(subscribers, old(queue)[0]), old(queue)[0], fails))
      ensures subscribers == old(subscribers) && processing == old(processing)
      ensures tasksCreated == old(tasksCreated) && tasksCancelled == old(tasksCancelled)
    {
      if queue == [] {
        return None;
      }
      var m := queue[0];
      queue := queue[1..];
      var delivered := ProcessSingleMessage(m, fails);
      log := Some(delivered);
    }

    /** Running the consumer until the queue is empty dispatches every message in FIFO order. */
    method Drain(fails: Failures) returns (log: seq<Delivery>)
      modifies this
      ensures queue == []
      ensures log == DispatchAll(subscribers, old(queue), fails)
      ensures subscribers == old(subscribers) && processing == old(processing)
      ensures tasksCreated == old(tasksCreated) && tasksCancelled == old(tasksCancelled)
    {
      log := [];
      ghost var all := queue;
      ghost var k := 0;
      while queue != []
        invariant 0 <= k <= |all| && queue == all[k..]
        invariant log == DispatchAll(subscribers, all[..k], fails)
        invariant subscribers == old(subscribers) && processing == old(processing)
        invariant tasksCreated == old(tasksCreated) && tasksCancelled == old(tasksCancelled)
        decreases |queue|
      {
        var step := ProcessNext(fails);
        DispatchOneMore(subscribers, all, k, fails);
        log := log + step.value;
        k := k + 1;
      }
      assert all[..k] == all;
    }

    /** `start_processing`: a task is created only when none is running. */
    method StartProcessing()
      modifies this
      ensures processing
      ensures tasksCreated == old(tasksCreated) + (if old(processing) then 0 else 1)
      ensures tasksCancelled == old(tasksCancelled)
      ensures subscribers == old(subscribers) && queue == old(queue)
    {
      if !processing {
        processing := true;
        tasksCreated := tasksCreated + 1;
      }
    }

    /** `stop_processing`: a running task is cancelled and forgotten; otherwise nothing happens. */
    method StopProcessing()
      modifies this
      ensures !processing
      ensures tasksCancelled == old(tasksCancelled) + (if old(processing) then 1 else 0)
      ensures tasksCreated == old(tasksCreated)
      ensures subscribers == old(subscribers) && queue == old(queue)
    {
      if processing {
        processing := false;
        tasksCancelled := tasksCancelled + 1;
      }
    }
  }
}
