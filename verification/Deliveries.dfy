/** What the matched resources of an event are sent: messages for queues, tasks for topics. */
module Deliveries {
  import opened Resources
  import opened RulesIndex
  import opened Arn

  /** A delivery handed to the worker pool for one endpoint of a topic. */
  datatype Task = Task(uri: string, payload: string)

  type Lists = map<string, seq<string>>

  /** A missing key is an empty list. */
  function ListAt(lists: Lists, key: string): seq<string> {
    if key in lists then lists[key] else []
  }

  // ---------------------------------------------------------------- what a producer sends

  /** The messages the matched resources put on one list, in order; the payload of a message
      depends on the resource it is for. */
  function Sent(matched: seq<Resource>, key: string, payload: Resource -> string): seq<string> {
    if matched == [] then []
    else
      var r := matched[|matched| - 1];
      Sent(matched[..|matched| - 1], key, payload)
        + SentTo(r, key, payload(r))
  }

  function SentTo(r: Resource, key: string, message: string): seq<string> {
    if r.service == SQS && ProducerKey(r) == key then [message] else []
  }

  function TasksFor(endpoints: seq<string>, payload: string): seq<Task> {
    seq(|endpoints|, k requires 0 <= k < |endpoints| => Task(endpoints[k], payload))
  }

  function Delegated(matched: seq<Resource>, payload: Resource -> string): seq<Task> {
    if matched == [] then []
    else
      var r := matched[|matched| - 1];
      Delegated(matched[..|matched| - 1], payload)
        + if r.service == SNS then TasksFor(r.endpoints, payload(r)) else []
  }

  ghost predicate Gained(before: seq<string>, now: seq<string>, done: seq<Resource>, key: string,
                           payload: Resource -> string)
  {
    now == before + Sent(done, key, payload)
  }

  /** After the given resources have been served, every list and the task queue have grown by theirs. */
  ghost predicate Delivered(lists: Lists, tasks: seq<Task>, done: seq<Resource>, payload: Resource -> string,
                            lists': Lists, tasks': seq<Task>) {
    && (forall key :: Gained(ListAt(lists, key), ListAt(lists', key), done, key, payload))
    && tasks' == tasks + Delegated(done, payload)
  }

  lemma GainedMore(before: seq<string>, now: seq<string>, done: seq<Resource>, key: string,
                     payload: Resource -> string, r: Resource)
    requires Gained(before, now, done, key, payload)
    ensures Gained(before, now + SentTo(r, key, payload(r)), done + [r], key, payload)
  {
    assert (done + [r])[..|done|] == done;
  }

  lemma DelegatedMore(done: seq<Resource>, r: Resource, payload: Resource -> string)
    ensures Delegated(done + [r], payload)
            == Delegated(done, payload) + if r.service == SNS then TasksFor(r.endpoints, payload(r)) else []
  {
    assert (done + [r])[..|done|] == done;
  }

  lemma DeliveredMore(lists: Lists, tasks: seq<Task>, done: seq<Resource>, payload: Resource -> string,
                      lists': Lists, tasks': seq<Task>, r: Resource, lists'': Lists, tasks'': seq<Task>)
    requires Delivered(lists, tasks, done, payload, lists', tasks')
    requires forall key :: ListAt(lists'', key) == ListAt(lists', key) + SentTo(r, key, payload(r))
    requires tasks'' == tasks' + if r.service == SNS then TasksFor(r.endpoints, payload(r)) else []
    ensures Delivered(lists, tasks, done + [r], payload, lists'', tasks'')
  {
    DelegatedMore(done, r, payload);
    forall key ensures Gained(ListAt(lists, key), ListAt(lists'', key), done + [r], key, payload) {
      GainedMore(ListAt(lists, key), ListAt(lists', key), done, key, payload, r);
    }
  }

  // ---------------------------------------------------------------- the messages of a queue

  predicate IsOf(r: Resource, accountID: string, queueName: string) {
    r.service == SQS && r.accountID == accountID && r.name == queueName
  }

  /** These are the payloads of the matches at the given places. */
  ghost predicate AreFrom(messages: seq<string>, matched: seq<Resource>, payload: Resource -> string, from: seq<nat>) {
    |from| == |messages|
    && forall n :: 0 <= n < |from| ==> from[n] < |matched| && messages[n] == payload(matched[from[n]])
  }

  /** These places, from first to last, hold exactly the matches of the queue. */
  ghost predicate AreOwn(from: seq<nat>, matched: seq<Resource>, accountID: string, queueName: string) {
    && (forall n, m :: 0 <= n < m < |from| ==> from[n] < from[m])
    && (forall n :: 0 <= n < |from| ==> from[n] < |matched| && IsOf(matched[from[n]], accountID, queueName))
    && (forall i: nat :: i < |matched| && IsOf(matched[i], accountID, queueName) ==> i in from)
  }

  /** The list a consumer reads gets the payload of each match of its own queue, in the order of the
      matches, and nothing else. */
  lemma {:induction false} OwnMessagesOnly(matched: seq<Resource>, accountID: string, queueName: string,
                                           payload: Resource -> string) returns (from: seq<nat>)
    requires ':' !in accountID && forall r :: r in matched ==> ':' !in r.accountID
    ensures AreFrom(Sent(matched, "sqs:" + accountID + ":" + queueName, payload), matched, payload, from)
    ensures AreOwn(from, matched, accountID, queueName)
  {
    if matched == [] {
      from := [];
    } else {
      var last: nat := |matched| - 1;
      var front, r := matched[..last], matched[last];
      var rest := OwnMessagesOnly(front, accountID, queueName, payload);
      var before := Sent(front, "sqs:" + accountID + ":" + queueName, payload);
      from := if IsOf(r, accountID, queueName) then rest + [last] else rest;
      assert matched == front + [r];
      AreFromMore(before, front, r, payload, rest);
      AreOwnMore(front, r, accountID, queueName, rest);
      KeysAgree(r, accountID, queueName);
    }
  }

  lemma AreFromMore(messages: seq<string>, front: seq<Resource>, r: Resource, payload: Resource -> string,
                    rest: seq<nat>)
    requires AreFrom(messages, front, payload, rest)
    ensures AreFrom(messages, front + [r], payload, rest)
    ensures AreFrom(messages + [payload(r)], front + [r], payload, rest + [|front|])
  {
  }

  lemma AreOwnMore(front: seq<Resource>, r: Resource, accountID: string, queueName: string, rest: seq<nat>)
    requires AreOwn(rest, front, accountID, queueName)
    ensures IsOf(r, accountID, queueName) ==> AreOwn(rest + [|front|], front + [r], accountID, queueName)
    ensures !IsOf(r, accountID, queueName) ==> AreOwn(rest, front + [r], accountID, queueName)
  {
    var all, from := front + [r], rest + [|front|];
    assert forall i :: 0 <= i < |front| ==> all[i] == front[i];
    assert forall n :: 0 <= n < |rest| ==> from[n] == rest[n];
  }

  // ---------------------------------------------------------------- the tasks of a topic

  function EndpointsFor(endpoints: seq<string>, uri: string): set<int> {
    set k | 0 <= k < |endpoints| && uri == endpoints[k]
  }

  lemma {:induction false} TasksCounted(endpoints: seq<string>, message: string, t: Task)
    ensures multiset(TasksFor(endpoints, message))[t]
            == if t.payload == message then |EndpointsFor(endpoints, t.uri)| else 0
  {
    if endpoints != [] {
      var last: nat := |endpoints| - 1;
      var rest := endpoints[..last];
      TasksCounted(rest, message, t);
      assert TasksFor(endpoints, message) == TasksFor(rest, message) + [Task(endpoints[last], message)];
      EndpointsMore(rest, endpoints[last], t.uri);
      assert endpoints == rest + [endpoints[last]];
    }
  }

  lemma EndpointsMore(rest: seq<string>, endpoint: string, uri: string)
    ensures |EndpointsFor(rest + [endpoint], uri)| == |EndpointsFor(rest, uri)| + if uri == endpoint then 1 else 0
  {
    var all, more := rest + [endpoint], if uri == endpoint then {|rest|} else {};
    assert forall k :: 0 <= k < |rest| ==> all[k] == rest[k];
    assert EndpointsFor(all, uri) == EndpointsFor(rest, uri) + more;
    assert |rest| !in EndpointsFor(rest, uri);
  }

  /** Why there is a task: a matched topic and one of its endpoints. */
  function TaskGrounds(matched: seq<Resource>, payload: Resource -> string, t: Task): set<(int, int)> {
    set i, k | 0 <= i < |matched| && matched[i].service == SNS && 0 <= k < |matched[i].endpoints|
               && t.uri == matched[i].endpoints[k] && t.payload == payload(matched[i]) :: (i, k)
  }

  lemma TaskGroundsMore(rest: seq<Resource>, r: Resource, payload: Resource -> string, t: Task)
    ensures |TaskGrounds(rest + [r], payload, t)|
            == |TaskGrounds(rest, payload, t)|
               + if r.service == SNS && t.payload == payload(r) then |EndpointsFor(r.endpoints, t.uri)| else 0
  {
    var all := rest + [r];
    var more := if r.service == SNS && t.payload == payload(r)
                then set k | k in EndpointsFor(r.endpoints, t.uri) :: (|rest|, k) else {};
    assert forall i :: 0 <= i < |rest| ==> all[i] == rest[i];
    assert TaskGrounds(all, payload, t) == TaskGrounds(rest, payload, t) + more;
    PairSize(|rest|, EndpointsFor(r.endpoints, t.uri));
  }

  /** Each task is there once per matched topic and endpoint that ask for it. */
  lemma {:induction false} DelegatedCounted(matched: seq<Resource>, payload: Resource -> string, t: Task)
    ensures multiset(Delegated(matched, payload))[t] == |TaskGrounds(matched, payload, t)|
  {
    if matched != [] {
      var last: nat := |matched| - 1;
      var rest, r := matched[..last], matched[last];
      assert matched == rest + [r];
      DelegatedCounted(rest, payload, t);
      TaskGroundsMore(rest, r, payload, t);
      TasksCounted(r.endpoints, payload(r), t);
    }
  }

  /** The tasks of a match stand together, in the order of its endpoints. */
  ghost predicate StandAt(tasks: seq<Task>, at: nat, r: Resource, message: string) {
    at + |r.endpoints| <= |tasks|
    && forall k :: 0 <= k < |r.endpoints| ==> tasks[at + k] == Task(r.endpoints[k], message)
  }

  lemma {:induction false} DelegatedInOrder(matched: seq<Resource>, payload: Resource -> string, i: nat)
    returns (at: nat)
    requires i < |matched| && matched[i].service == SNS
    ensures StandAt(Delegated(matched, payload), at, matched[i], payload(matched[i]))
  {
    var last: nat := |matched| - 1;
    if i == last {
      at := |Delegated(matched[..last], payload)|;
    } else {
      at := DelegatedInOrder(matched[..last], payload, i);
    }
  }

  lemma TasksTold(matched: seq<Resource>, payload: Resource -> string, before: seq<Task>, tasks: seq<Task>)
    requires tasks == before + Delegated(matched, payload)
    ensures before <= tasks
    ensures forall t ::
              multiset(tasks)[t]
              == multiset(before)[t]
                 + |set i, k | 0 <= i < |matched| && matched[i].service == SNS && 0 <= k < |matched[i].endpoints|
                               && t.uri == matched[i].endpoints[k] && t.payload == payload(matched[i]) :: (i, k)|
    ensures forall i :: 0 <= i < |matched| && matched[i].service == SNS ==>
              exists at, end :: |before| <= at <= end <= |tasks| && |tasks[at..end]| == |matched[i].endpoints|
                && forall k :: 0 <= k < |matched[i].endpoints| ==>
                     tasks[at..end][k] == Task(matched[i].endpoints[k], payload(matched[i]))
  {
    forall t ensures multiset(tasks)[t] == multiset(before)[t] + |TaskGrounds(matched, payload, t)| {
      DelegatedCounted(matched, payload, t);
    }
    forall i: nat | i < |matched| && matched[i].service == SNS
      ensures exists at, end :: |before| <= at <= end <= |tasks| && |tasks[at..end]| == |matched[i].endpoints|
                && forall k :: 0 <= k < |matched[i].endpoints| ==>
                     tasks[at..end][k] == Task(matched[i].endpoints[k], payload(matched[i]))
    {
      var at, end := InOrderAfter(matched, payload, before, tasks, i);
    }
  }

  lemma InOrderAfter(matched: seq<Resource>, payload: Resource -> string, before: seq<Task>, tasks: seq<Task>,
                     i: nat) returns (at: nat, end: nat)
    requires tasks == before + Delegated(matched, payload) && i < |matched| && matched[i].service == SNS
    ensures |before| <= at <= end <= |tasks| && |tasks[at..end]| == |matched[i].endpoints|
    ensures forall k :: 0 <= k < |matched[i].endpoints| ==>
              tasks[at..end][k] == Task(matched[i].endpoints[k], payload(matched[i]))
  {
    var m := DelegatedInOrder(matched, payload, i);
    at, end := StandAfter(before, Delegated(matched, payload), m, matched[i], payload(matched[i]));
  }

  lemma StandAfter(before: seq<Task>, more: seq<Task>, m: nat, r: Resource, message: string)
    returns (at: nat, end: nat)
    requires StandAt(more, m, r, message)
    ensures var tasks := before + more;
            |before| <= at <= end <= |tasks| && |tasks[at..end]| == |r.endpoints|
            && forall k :: 0 <= k < |r.endpoints| ==> tasks[at..end][k] == Task(r.endpoints[k], message)
  {
    at, end := |before| + m, |before| + m + |r.endpoints|;
    assert (before + more)[at..end] == more[m..m + |r.endpoints|];
  }
}
