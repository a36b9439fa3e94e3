/** Sending events to queues and topics, and receiving messages from a queue. */
module Messaging {
  import opened Wrappers
  import opened Decimal
  import opened Resources
  import opened Wildcard
  import opened FilterPattern
  import opened RulesIndex
  import opened Arn
  import opened Deliveries
  import Configuration
  import EventQueue

  /** The message lists and the worker pool's task queue. */
  class Broker {
    var lists: Lists
    var tasks: seq<Task>

    method RPush(key: string, value: string)
      modifies `lists
      ensures lists == old(lists)[key := ListAt(old(lists), key) + [value]]
    {
      lists := lists[key := ListAt(lists, key) + [value]];
    }

    method LRange(key: string, count: nat) returns (values: seq<string>)
      ensures values == EventQueue.Front(ListAt(lists, key), count)
    {
      var list := ListAt(lists, key);
      values := if count <= |list| then list[..count] else list;
    }

    /** An empty list is no key at all. */
    method LTrim(key: string, count: nat)
      modifies `lists
      ensures ListAt(lists, key) == EventQueue.Back(ListAt(old(lists), key), count)
      ensures forall k :: k != key ==> ListAt(lists, k) == ListAt(old(lists), k)
    {
      var list := ListAt(lists, key);
      if |list| <= count {
        lists := lists - {key};
      } else {
        lists := lists[key := list[count..]];
      }
    }

    /** The body of sendEvent's loop: a queue gets the message, a topic one task per endpoint. */
    method DeliverTo(r: Resource, message: string)
      modifies this
      ensures forall key :: ListAt(lists, key) == ListAt(old(lists), key) + SentTo(r, key, message)
      ensures tasks == old(tasks) + if r.service == SNS then TasksFor(r.endpoints, message) else []
    {
      if r.service == SQS {
        RPush(ServiceName(r.service) + ":" + r.accountID + ":" + r.name, message);
      } else if r.service == SNS {
        for j := 0 to |r.endpoints|
          invariant lists == old(lists)
          invariant tasks == old(tasks) + TasksFor(r.endpoints, message)[..j]
        {
          tasks := tasks + [Task(r.endpoints[j], message)];
        }
        assert TasksFor(r.endpoints, message)[..|r.endpoints|] == TasksFor(r.endpoints, message);
      }
    }

    /** The loop of sendEvent in both programs; they differ in the payload only. */
    method Deliver(matched: seq<Resource>, payload: Resource -> string)
      modifies this
      ensures forall key :: ListAt(lists, key) == ListAt(old(lists), key) + Sent(matched, key, payload)
      ensures old(tasks) <= tasks
      ensures forall t ::
                multiset(tasks)[t]
                == multiset(old(tasks))[t]
                   + |set i, k | 0 <= i < |matched| && matched[i].service == SNS && 0 <= k < |matched[i].endpoints|
                                 && t.uri == matched[i].endpoints[k] && t.payload == payload(matched[i]) :: (i, k)|
      ensures forall i :: 0 <= i < |matched| && matched[i].service == SNS ==>
                exists at, end :: |old(tasks)| <= at <= end <= |tasks| && |tasks[at..end]| == |matched[i].endpoints|
                  && forall k :: 0 <= k < |matched[i].endpoints| ==>
                       tasks[at..end][k] == Task(matched[i].endpoints[k], payload(matched[i]))
    {
      ghost var done: seq<Resource> := [];
      for i := 0 to |matched|
        invariant done == matched[..i]
        invariant Delivered(old(lists), old(tasks), done, payload, lists, tasks)
      {
        ghost var before, queued := lists, tasks;
        DeliverTo(matched[i], payload(matched[i]));
        DeliveredMore(old(lists), old(tasks), done, payload, before, queued, matched[i], lists, tasks);
        done := done + [matched[i]];
      }
      assert done == matched;
      forall key ensures ListAt(lists, key) == ListAt(old(lists), key) + Sent(matched, key, payload) {
        assert Gained(ListAt(old(lists), key), ListAt(lists, key), done, key, payload);
      }
      TasksTold(matched, payload, old(tasks), tasks);
    }

    /** sendEvent: the configuration is looked up for the event and the object, and every match gets
        the event once.  The matches are the naive scan's, in some order.  When a filter makes the
        matcher panic, nobody gets anything, and the result says so. */
    method SendEvent(config: Config, e: EventName, objectName: string, payload: Resource -> string)
      returns (sent: bool, ghost matched: seq<Resource>)
      requires e != NO_EVENT
      modifies this
      ensures var all := config.queues + config.topics;
              !sent <==> exists k, i :: 0 <= k < |all| && 0 <= i < |all[k].events| && e in Expand(all[k].events[i])
                                        && FilterSays(all[k].rules, objectName, Panic)
      ensures sent ==>
                var all := config.queues + config.topics;
                forall x ::
                  multiset(matched)[x]
                  == |set k, i | 0 <= k < |all| && 0 <= i < |all[k].events| && all[k].resource == x
                                 && e in Expand(all[k].events[i])
                                 && FilterSays(all[k].rules, objectName, Yes) :: (k, i)|
      ensures !sent ==> lists == old(lists) && tasks == old(tasks)
      ensures sent ==> forall key :: ListAt(lists, key) == ListAt(old(lists), key) + Sent(matched, key, payload)
      ensures sent ==> old(tasks) <= tasks
      ensures sent ==>
                forall t ::
                  multiset(tasks)[t]
                  == multiset(old(tasks))[t]
                     + |set i, k | 0 <= i < |matched| && matched[i].service == SNS && 0 <= k < |matched[i].endpoints|
                                   && t.uri == matched[i].endpoints[k] && t.payload == payload(matched[i]) :: (i, k)|
      ensures sent ==>
                forall i :: 0 <= i < |matched| && matched[i].service == SNS ==>
                  exists at, end :: |old(tasks)| <= at <= end <= |tasks| && |tasks[at..end]| == |matched[i].endpoints|
                    && forall k :: 0 <= k < |matched[i].endpoints| ==>
                         tasks[at..end][k] == Task(matched[i].endpoints[k], payload(matched[i]))
    {
      matched := [];
      var found := Configuration.Lookup(config, e, objectName);
      if found.None? {
        return false, [];
      }
      Deliver(found.value, payload);
      sent, matched := true, found.value;
    }

    /** Pushes of the producers while a consumer is between two calls. */
    method PushAll(key: string, messages: seq<string>)
      modifies `lists
      ensures ListAt(lists, key) == ListAt(old(lists), key) + messages
      ensures forall k :: k != key ==> ListAt(lists, k) == ListAt(old(lists), k)
    {
      for i := 0 to |messages|
        invariant ListAt(lists, key) == ListAt(old(lists), key) + messages[..i]
        invariant forall k :: k != key ==> ListAt(lists, k) == ListAt(old(lists), k)
      {
        RPush(key, messages[i]);
      }
      assert messages[..|messages|] == messages;
    }

    /** The two calls of a receive, with the messages that producers push between them. */
    method TakeBatch(key: string, count: nat, between: seq<string>) returns (bodies: seq<string>)
      modifies `lists
      ensures var list := ListAt(old(lists), key);
              var taken := if count <= |list| then count else |list|;
              var lost := if count - taken <= |between| then count - taken else |between|;
              bodies == list[..taken] && ListAt(lists, key) == list[taken..] + between[lost..]
      ensures forall k :: k != key ==> ListAt(lists, k) == ListAt(old(lists), k)
    {
      ReceivedIs(ListAt(lists, key), count, between);
      bodies := LRange(key, count);
      PushAll(key, between);
      LTrim(key, count);
    }

    /** ReceiveMessage: the first messages of the list, between 1 and 10 of them, are answered and taken
        off.  A queue that is not found is answered with nothing, and then served all the same.  Of the
        messages pushed meanwhile the first ones go too when the list held fewer than were asked for. */
    method ReceiveMessage(accountID: string, queueName: string, maxNumberOfMessages: string, found: bool,
                          between: seq<string>)
      returns (replies: seq<Reply>)
      modifies `lists
      ensures var key, asked := "sqs:" + accountID + ":" + queueName, BatchSize(maxNumberOfMessages);
              var list := ListAt(old(lists), key);
              var taken := if asked <= |list| then asked else |list|;
              var lost := if asked - taken <= |between| then asked - taken else |between|;
              && replies == (if found then [Messages(list[..taken])] else [Nothing, Messages(list[..taken])])
              && ListAt(lists, key) == list[taken..] + between[lost..]
      ensures forall k :: k != "sqs:" + accountID + ":" + queueName ==> ListAt(lists, k) == ListAt(old(lists), k)
    {
      replies := if found then [] else [Nothing];
      var maxMsgNum := 0;
      var parsed := Atoi(maxNumberOfMessages);
      if parsed.Some? {
        maxMsgNum := parsed.value;
      }
      if parsed.None? || maxMsgNum <= 0 {
        maxMsgNum := 1;
      }
      if maxMsgNum > 10 {
        maxMsgNum := 10;
      }
      assert maxMsgNum == BatchSize(maxNumberOfMessages);
      var key := "sqs:" + accountID + ":" + queueName;
      var values := TakeBatch(key, maxMsgNum, between);
      var msgs: seq<string> := [];
      for i := 0 to |values|
        invariant msgs == values[..i]
      {
        msgs := msgs + [values[i]];
      }
      assert msgs == values;
      replies := replies + [Messages(msgs)];
    }
  }

  datatype Reply = Nothing | Messages(bodies: seq<string>)

  /** One message unless the request asks for more, and at most ten. */
  function BatchSize(maxNumberOfMessages: string): (n: nat)
    ensures 1 <= n <= 10
  {
    match Atoi(maxNumberOfMessages)
    case None => 1
    case Some(n) => if n <= 0 then 1 else if n > 10 then 10 else n
  }

  /** A number from 1 to 10 asks for so many messages, a larger one for ten; less than one, or no
      number, for one. */
  lemma BatchSizeMeaning(n: int, text: string)
    requires -MAX_INT - 1 <= n <= MAX_INT && Atoi(text) == None
    ensures 1 <= n <= 10 ==> BatchSize(Itoa(n)) == n
    ensures n > 10 ==> BatchSize(Itoa(n)) == 10
    ensures n <= 0 ==> BatchSize(Itoa(n)) == 1
    ensures BatchSize(text) == 1
  {
    AtoiItoa(n);
  }

  /** The queue protocol's run of one receive with pushes in its gap. */
  ghost function Received(list: seq<string>, asked: nat, between: seq<string>): EventQueue.State {
    var s := EventQueue.State(list, [], None);
    EventQueue.ReceiveWindow(s, asked, between);
    EventQueue.Run(s, [EventQueue.Range(asked)] + EventQueue.Pushes(between) + [EventQueue.Trim])
  }

  /** What the two calls of a receive do is the run of the protocol. */
  lemma ReceivedIs(list: seq<string>, asked: nat, between: seq<string>)
    ensures var taken := if asked <= |list| then asked else |list|;
            var lost := if asked - taken <= |between| then asked - taken else |between|;
            Received(list, asked, between).delivered == list[..taken] == EventQueue.Front(list, asked)
            && Received(list, asked, between).waiting == list[taken..] + between[lost..]
                                                      == EventQueue.Back(list + between, asked)
  {
    EventQueue.ReceiveWindow(EventQueue.State(list, [], None), asked, between);
  }
}
