/**
  One message list.  Producers append; a consumer first reads a batch from the front and then, in a
  second call, trims as many elements as it had asked for.  Both calls are steps of their own, so
  producers may append between them.
 */
module EventQueue {
  import opened Wrappers

  type Message = string

  datatype Op =
    | Push(message: Message)
    | Range(count: nat)
    | Trim

  /** `asked` is the batch size of a receive between its two calls. */
  datatype State = State(waiting: seq<Message>, delivered: seq<Message>, asked: Option<nat>)

  function Min(a: nat, b: nat): nat {
    if a <= b then a else b
  }

  /** LRANGE 0 count-1. */
  function Front(list: seq<Message>, count: nat): seq<Message> {
    list[..Min(count, |list|)]
  }

  /** LTRIM count -1. */
  function Back(list: seq<Message>, count: nat): seq<Message> {
    list[Min(count, |list|)..]
  }

  /** Receives do not overlap: a batch is read when no receive is open and trimmed when one is. */
  ghost predicate Enabled(s: State, op: Op) {
    match op
    case Push(_) => true
    case Range(_) => s.asked.None?
    case Trim => s.asked.Some?
  }

  function Step(s: State, op: Op): State
    requires Enabled(s, op)
  {
    match op
    case Push(x) => s.(waiting := s.waiting + [x])
    case Range(m) => s.(delivered := s.delivered + Front(s.waiting, m), asked := Some(m))
    case Trim => s.(waiting := Back(s.waiting, s.asked.value), asked := None)
  }

  ghost predicate Legal(s: State, ops: seq<Op>)
    decreases |ops|
  {
    ops == [] || (Enabled(s, ops[0]) && Legal(Step(s, ops[0]), ops[1..]))
  }

  function Run(s: State, ops: seq<Op>): State
    requires Legal(s, ops)
    decreases |ops|
  {
    if ops == [] then s else Run(Step(s, ops[0]), ops[1..])
  }

  function Pushed(ops: seq<Op>): seq<Message> {
    if ops == [] then []
    else (if ops[0].Push? then [ops[0].message] else []) + Pushed(ops[1..])
  }

  // ---------------------------------------------------------------- the reference: counting only

  /** A push is dropped when it falls between the two calls of a receive that had asked for more
      messages than the list holds at that moment. */
  predicate Dropped(length: nat, asked: Option<nat>) {
    asked.Some? && length < asked.value
  }

  /** The pushes that are not dropped, told from the length of the list alone. */
  function Kept(length: nat, asked: Option<nat>, ops: seq<Op>): seq<Message>
    decreases |ops|
  {
    if ops == [] then []
    else
      match ops[0]
      case Push(x) => (if Dropped(length, asked) then [] else [x]) + Kept(length + 1, asked, ops[1..])
      case Range(m) => Kept(length, Some(m), ops[1..])
      case Trim => Kept(if asked.Some? then length - Min(asked.value, length) else length, None, ops[1..])
  }

  /** What would be waiting if an open receive trimmed now. */
  function Remaining(s: State): seq<Message> {
    if s.asked.Some? then Back(s.waiting, s.asked.value) else s.waiting
  }

  /** Over every run of pushes and non-overlapping receives: what has been delivered, followed by
      what remains, is what there was at the start followed by the kept pushes, in order. */
  lemma {:induction false} Conservation(s: State, ops: seq<Op>)
    requires Legal(s, ops)
    ensures Run(s, ops).delivered + Remaining(Run(s, ops))
      == s.delivered + Remaining(s) + Kept(|s.waiting|, s.asked, ops)
    decreases |ops|
  {
    if ops == [] {
      assert s.delivered + Remaining(s) + [] == s.delivered + Remaining(s);
    } else {
      var t := Step(s, ops[0]);
      Conservation(t, ops[1..]);
      StepKeeps(s, ops[0]);
      var kept := Kept(|t.waiting|, t.asked, ops[1..]);
      match ops[0]
      case Push(x) =>
        if Dropped(|s.waiting|, s.asked) {
        } else {
          assert s.delivered + Remaining(s) + [x] + kept == s.delivered + Remaining(s) + ([x] + kept);
        }
      case Range(m) =>
      case Trim =>
    }
  }

  lemma StepKeeps(s: State, op: Op)
    requires Enabled(s, op)
    ensures var t := Step(s, op);
      t.delivered + Remaining(t) == s.delivered + Remaining(s)
        + if op.Push? && !Dropped(|s.waiting|, s.asked) then [op.message] else []
  {
  }

  /** No push of the run falls into the gap of a receive that found too few messages. */
  predicate NoneDropped(length: nat, asked: Option<nat>, ops: seq<Op>)
    decreases |ops|
  {
    ops == [] ||
    match ops[0]
    case Push(_) => !Dropped(length, asked) && NoneDropped(length + 1, asked, ops[1..])
    case Range(m) => NoneDropped(length, Some(m), ops[1..])
    case Trim => NoneDropped(if asked.Some? then length - Min(asked.value, length) else length, None, ops[1..])
  }

  lemma {:induction false} KeptAll(length: nat, asked: Option<nat>, ops: seq<Op>)
    ensures |Kept(length, asked, ops)| <= |Pushed(ops)|
    ensures NoneDropped(length, asked, ops) ==> Kept(length, asked, ops) == Pushed(ops)
    ensures !NoneDropped(length, asked, ops) ==> |Kept(length, asked, ops)| < |Pushed(ops)|
    decreases |ops|
  {
    if ops != [] {
      match ops[0]
      case Push(_) => KeptAll(length + 1, asked, ops[1..]);
      case Range(m) => KeptAll(length, Some(m), ops[1..]);
      case Trim => KeptAll(if asked.Some? then length - Min(asked.value, length) else length, None, ops[1..]);
    }
  }

  /** A run from an empty list delivers or still holds exactly what was pushed, in order, if and
      only if no push fell into the gap of a receive that found too few messages. */
  lemma NothingLostExactlyWhen(ops: seq<Op>)
    requires Legal(State([], [], None), ops) && Run(State([], [], None), ops).asked.None?
    ensures var t := Run(State([], [], None), ops);
      t.delivered + t.waiting == Pushed(ops) <==> NoneDropped(0, None, ops)
  {
    var s: State := State([], [], None);
    Conservation(s, ops);
    KeptAll(0, None, ops);
    var t := Run(s, ops);
    assert t.delivered + t.waiting == Kept(0, None, ops);
  }

  // ---------------------------------------------------------------- one receive with pushes in its gap

  function Pushes(messages: seq<Message>): seq<Op> {
    seq(|messages|, k requires 0 <= k < |messages| => Push(messages[k]))
  }

  lemma {:induction false} RunPushes(s: State, messages: seq<Message>, rest: seq<Op>)
    requires Legal(s.(waiting := s.waiting + messages), rest)
    ensures Legal(s, Pushes(messages) + rest)
    ensures Run(s, Pushes(messages) + rest) == Run(s.(waiting := s.waiting + messages), rest)
    decreases |messages|
  {
    var ops := Pushes(messages) + rest;
    if messages == [] {
      assert ops == rest && s.waiting + messages == s.waiting;
    } else {
      var t := Step(s, ops[0]);
      assert t.waiting + messages[1..] == s.waiting + messages;
      assert ops[1..] == Pushes(messages[1..]) + rest;
      RunPushes(t, messages[1..], rest);
    }
  }

  /** The receive gets the first k of its m messages; of the pushes between its two calls exactly
      the first m - k are dropped, none when the batch was full. */
  lemma ReceiveWindow(s: State, m: nat, between: seq<Message>)
    requires s.asked.None?
    ensures var ops := [Range(m)] + Pushes(between) + [Trim];
      var k := Min(m, |s.waiting|);
      && Legal(s, ops)
      && Run(s, ops) == State(s.waiting[k..] + between[Min(|between|, m - k)..], s.delivered + s.waiting[..k], None)
  {
    var ops := [Range(m)] + Pushes(between) + [Trim];
    var t := Step(s, Range(m));
    var u := t.(waiting := t.waiting + between);
    var k := Min(m, |s.waiting|);
    assert ops[0] == Range(m) && ops[1..] == Pushes(between) + [Trim];
    assert Legal(u, [Trim]) && Run(u, [Trim]) == Step(u, Trim) by {
      assert [Trim][1..] == [];
      assert Enabled(u, Trim) && Legal(Step(u, Trim), []);
    }
    RunPushes(t, between, [Trim]);
    assert Back(s.waiting + between, m) == s.waiting[k..] + between[Min(|between|, m - k)..];
  }
}
