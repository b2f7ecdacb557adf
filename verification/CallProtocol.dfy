/**
One guest call, from the host's push of the function call to its pop of the result, with
any host calls and log messages the guest makes on the way. The guest is any sequence of
`GuestOp`; the outb handler is the pop of the request and the push of the response.
*/
module CallProtocol {
  import opened Bytes
  import opened IoStack
  import opened SharedMem
  import GuestIo

  /** Where the two buffers lie. */
  datatype Buffers = Buffers(inStart: nat, inSize: nat, outStart: nat, outSize: nat) {
    predicate Valid(memSize: nat) {
      8 <= inSize && 8 <= outSize && inStart + inSize <= memSize && outStart + outSize <= memSize < TWO64 &&
      (inStart + inSize <= outStart || outStart + outSize <= inStart)
    }
  }

  /**
   What guest code does between taking its call and leaving its result: call a host
   function, read the return value that is on top of the input stack, or log. A host
   function that fails gives no response.
   */
  datatype GuestOp =
    | HostCall(request: Message, response: Option<Message>)
    | ReadReturn
    | LogMessage(record: Message)

  /** What a reader got, or the guest's request that did not fit. Every completed `GuestOp` has exactly one event. */
  datatype Event =
    | HostGotCall(m: Message)
    | GuestGotReturn(m: Message)
    | HostGotLog(m: Message)
    | RequestRefused(m: Message)

  predicate Sound(m: Message) {
    SizePrefixed(m) && |m| < TWO32
  }

  ghost predicate AllSound(s: seq<Message>) {
    forall k | 0 <= k < |s| :: Sound(s[k])
  }

  predicate SoundOp(op: GuestOp) {
    match op
    case HostCall(q, a) => Sound(q) && (a.Some? ==> Sound(a.value))
    case ReadReturn => true
    case LogMessage(r) => Sound(r)
  }

  ghost predicate SoundOps(ops: seq<GuestOp>) {
    forall k | 0 <= k < |ops| :: SoundOp(ops[k])
  }

  /** A decoder that keeps the bytes of the message. */
  function TakeMessage(b: seq<byte>): Option<Message> {
    if 4 <= |b| && FromLE(b[..4]) + 4 <= |b| then Some(b[..FromLE(b[..4]) + 4]) else None
  }

  lemma TakeMessageDecodes()
    ensures PrefixDetermined(TakeMessage)
    ensures forall m | SizePrefixed(m) :: TakeMessage(m) == Some(m)
  {
    forall m, rest | SizePrefixed(m) ensures TakeMessage(m + rest) == TakeMessage(m) {
      assert (m + rest)[..4] == m[..4];
      assert (m + rest)[..|m|] == m[..|m|];
    }
    forall m | SizePrefixed(m) ensures TakeMessage(m) == Some(m) {
      assert m[..|m|] == m;
    }
  }

  // ------------------------------------------------------------- the call on two stacks

  datatype Run = Run(events: seq<Event>, input: seq<Message>, completed: bool)

  /**
   One operation: its event and the input stack after it, or what was seen before the call
   failed. A request that does not fit is an error the guest can go on from; a record that
   does not fit and a read of nothing are guest panics, a failure on the host's side ends the run.
   */
  datatype Effect = Does(event: Event, input: seq<Message>) | Fails(seen: seq<Event>)

  function OpEffect(input: seq<Message>, output: seq<Message>, op: GuestOp, g: Buffers): Effect {
    match op
    case HostCall(request, response) =>
      if !Fits(output, |request|, g.outSize) then Does(RequestRefused(request), input)
      else if response == None || !Fits(input, |response.value|, g.inSize) then Fails([HostGotCall(request)])
      else Does(HostGotCall(request), input + [response.value])
    case ReadReturn =>
      if input == [] then Fails([])
      else Does(GuestGotReturn(input[|input| - 1]), input[..|input| - 1])
    case LogMessage(record) =>
      if !Fits(output, |record|, g.outSize) then Fails([]) else Does(HostGotLog(record), input)
  }

  /** The guest's operations on the input stack; the output stack is the same after each. */
  function Behave(input: seq<Message>, output: seq<Message>, ops: seq<GuestOp>, g: Buffers): Run
    decreases |ops|
  {
    if ops == [] then Run([], input, true)
    else match OpEffect(input, output, ops[0], g)
      case Fails(seen) => Run(seen, input, false)
      case Does(event, next) =>
        var r := Behave(next, output, ops[1..], g);
        r.(events := [event] + r.events)
  }

  /** A host call whose request reaches the host. */
  predicate Reaches(op: GuestOp, output: seq<Message>, g: Buffers) {
    op.HostCall? && Fits(output, |op.request|, g.outSize)
  }

  /** Starting with `depth` unread return values, every read has its own call and all are read. */
  predicate Balanced(ops: seq<GuestOp>, depth: nat, output: seq<Message>, g: Buffers)
    decreases |ops|
  {
    if ops == [] then depth == 0
    else if Reaches(ops[0], output, g) then Balanced(ops[1..], depth + 1, output, g)
    else if ops[0].ReadReturn? then depth > 0 && Balanced(ops[1..], depth - 1, output, g)
    else Balanced(ops[1..], depth, output, g)
  }

  /** A guest that reads all its return values leaves the input stack as it found it. */
  lemma {:induction false} BalancedKeepsInput(below: seq<Message>, unread: seq<Message>, output: seq<Message>,
                                              ops: seq<GuestOp>, g: Buffers)
    requires Balanced(ops, |unread|, output, g)
    requires Behave(below + unread, output, ops, g).completed
    ensures Behave(below + unread, output, ops, g).input == below
    decreases |ops|
  {
    hide Fits;
    if ops == [] {
    } else if Reaches(ops[0], output, g) {
      var a := ops[0].response.value;
      assert below + unread + [a] == below + (unread + [a]);
      BalancedKeepsInput(below, unread + [a], output, ops[1..], g);
    } else if ops[0].ReadReturn? {
      assert (below + unread)[..|below + unread| - 1] == below + unread[..|unread| - 1];
      BalancedKeepsInput(below, unread[..|unread| - 1], output, ops[1..], g);
    } else {
      BalancedKeepsInput(below, unread, output, ops[1..], g);
    }
  }

  /** Running `a` and then `b` is running `a + b`. */
  lemma {:induction false} BehaveAppend(input: seq<Message>, output: seq<Message>,
                                        a: seq<GuestOp>, b: seq<GuestOp>, g: Buffers)
    ensures var ra := Behave(input, output, a, g);
            var r := Behave(input, output, a + b, g);
            if ra.completed
            then var rb := Behave(ra.input, output, b, g);
                 r == Run(ra.events + rb.events, rb.input, rb.completed)
            else r == ra
    decreases |a|
  {
    hide OpEffect;
    if a == [] {
      assert a + b == b;
    } else {
      assert (a + b)[1..] == a[1..] + b && (a + b)[0] == a[0];
      match OpEffect(input, output, a[0], g)
      case Fails(_) =>
      case Does(_, next) => BehaveAppend(next, output, a[1..], b, g);
    }
  }

  lemma {:induction false} OneEventEach(input: seq<Message>, output: seq<Message>, ops: seq<GuestOp>, g: Buffers)
    requires Behave(input, output, ops, g).completed
    ensures |Behave(input, output, ops, g).events| == |ops|
    decreases |ops|
  {
    if ops == [] {
    } else {
      OneEventEach(OpEffect(input, output, ops[0], g).input, output, ops[1..], g);
    }
  }

  /** A host call, a balanced stretch and the read: the read gets the response. */
  lemma BracketedRead(input: seq<Message>, output: seq<Message>, call: GuestOp, body: seq<GuestOp>,
                      post: seq<GuestOp>, g: Buffers)
    requires Reaches(call, output, g) && Balanced(body, 0, output, g)
    requires Behave(input, output, [call] + (body + ([ReadReturn] + post)), g).completed
    ensures var events := Behave(input, output, [call] + (body + ([ReadReturn] + post)), g).events;
            call.response.Some? && |body| + 1 < |events| && events[|body| + 1] == GuestGotReturn(call.response.value)
  {
    hide Balanced, Fits;
    var tail := [ReadReturn] + post;
    var ops := [call] + (body + tail);
    assert ops[1..] == body + tail && ops[0] == call;
    var input1 := input + [call.response.value];
    BehaveAppend(input1, output, body, tail, g);
    assert input1 + [] == input1;
    BalancedKeepsInput(input1, [], output, body, g);
    OneEventEach(input1, output, body, g);
    assert tail[0] == ReadReturn;
  }

  /**
   Every read returns the response of the host call it is bracketed with, whatever lies
   below on the input stack and however many return values were left unread before.
   */
  lemma MatchedRead(input: seq<Message>, output: seq<Message>, ops: seq<GuestOp>, g: Buffers, i: nat, j: nat)
    requires Behave(input, output, ops, g).completed
    requires i < j < |ops| && Reaches(ops[i], output, g) && ops[j].ReadReturn? && Balanced(ops[i + 1..j], 0, output, g)
    ensures |Behave(input, output, ops, g).events| == |ops| && ops[i].response.Some?
    ensures Behave(input, output, ops, g).events[j] == GuestGotReturn(ops[i].response.value)
  {
    hide Balanced, Behave, Reaches;
    var pre, body, post := ops[..i], ops[i + 1..j], ops[j + 1..];
    var rest := [ops[i]] + (body + ([ReadReturn] + post));
    assert ops == pre + rest;
    BehaveAppend(input, output, pre, rest, g);
    BracketedRead(Behave(input, output, pre, g).input, output, ops[i], body, post, g);
    OneEventEach(input, output, ops, g);
    OneEventEach(input, output, pre, g);
  }

  /** The host gets every log record and the request of every host call that fits, as the guest wrote them. */
  lemma {:induction false} HostGetsWhatWasWritten(input: seq<Message>, output: seq<Message>,
                                                  ops: seq<GuestOp>, g: Buffers, j: nat)
    requires Behave(input, output, ops, g).completed && j < |ops|
    ensures |Behave(input, output, ops, g).events| == |ops|
    ensures ops[j].HostCall? ==>
              Behave(input, output, ops, g).events[j] ==
              if Reaches(ops[j], output, g) then HostGotCall(ops[j].request) else RequestRefused(ops[j].request)
    ensures ops[j].LogMessage? ==>
              Fits(output, |ops[j].record|, g.outSize) && Behave(input, output, ops, g).events[j] == HostGotLog(ops[j].record)
    decreases |ops|
  {
    OneEventEach(input, output, ops, g);
    if j == 0 {
    } else {
      HostGetsWhatWasWritten(OpEffect(input, output, ops[0], g).input, output, ops[1..], g, j - 1);
    }
  }

  /** What an operation needs: room for what is written, and something to read. */
  predicate CanDo(input: seq<Message>, output: seq<Message>, op: GuestOp, g: Buffers) {
    match op
    case HostCall(request, response) =>
      Fits(output, |request|, g.outSize) ==> response.Some? && Fits(input, |response.value|, g.inSize)
    case ReadReturn => input != []
    case LogMessage(record) => Fits(output, |record|, g.outSize)
  }

  /** A sequence completes exactly when each operation can be done after those before it. */
  lemma {:induction false} CompletesIff(input: seq<Message>, output: seq<Message>, ops: seq<GuestOp>, g: Buffers)
    ensures Behave(input, output, ops, g).completed <==>
            forall j | 0 <= j < |ops| :: CanDo(Behave(input, output, ops[..j], g).input, output, ops[j], g)
    decreases |ops|
  {
    if ops == [] {
    } else {
      var n, last := |ops| - 1, ops[|ops| - 1];
      var front := ops[..n];
      assert ops == front + [last];
      CompletesIff(input, output, front, g);
      BehaveAppend(input, output, front, [last], g);
      OneOp(Behave(input, output, front, g).input, output, last, g);
      forall j | 0 <= j < n ensures ops[..j] == front[..j] {
      }
      hide Behave, CanDo;
      assert forall j | 0 <= j < n :: CanDo(Behave(input, output, ops[..j], g).input, output, ops[j], g) <==>
                                      CanDo(Behave(input, output, front[..j], g).input, output, front[j], g);
    }
  }

  lemma OneOp(input: seq<Message>, output: seq<Message>, op: GuestOp, g: Buffers)
    ensures Behave(input, output, [op], g).completed <==> CanDo(input, output, op, g)
    ensures !CanDo(input, output, op, g) ==>
              Behave(input, output, [op], g) == Run(if Reaches(op, output, g) then [HostGotCall(op.request)] else [], input, false)
  {
    assert [op][1..] == [];
  }

  /** A sequence that does not complete stops at the first operation that cannot be done; a request it sent has arrived. */
  lemma {:induction false} FirstFailure(input: seq<Message>, output: seq<Message>, ops: seq<GuestOp>, g: Buffers) returns (j: nat)
    requires !Behave(input, output, ops, g).completed
    ensures j < |ops| && Behave(input, output, ops[..j], g).completed
    ensures var before := Behave(input, output, ops[..j], g);
            !CanDo(before.input, output, ops[j], g) && Behave(input, output, ops, g).input == before.input &&
            Behave(input, output, ops, g).events ==
            before.events + (if Reaches(ops[j], output, g) then [HostGotCall(ops[j].request)] else [])
    decreases |ops|
  {
    var n := |ops| - 1;
    var front, last := ops[..n], ops[n];
    assert ops == front + [last];
    BehaveAppend(input, output, front, [last], g);
    if Behave(input, output, front, g).completed {
      OneOp(Behave(input, output, front, g).input, output, last, g);
      j := n;
    } else {
      j := FirstFailure(input, output, front, g);
      assert front[..j] == ops[..j];
    }
  }

  // ------------------------------------------------------------- the call on the memory

  /** The two buffers are the images of the two stacks. */
  ghost predicate Represents(m: seq<byte>, g: Buffers, input: seq<Message>, output: seq<Message>)
    requires g.Valid(|m|)
  {
    Holds(Window(m, g.inStart, g.inSize), input) && Holds(Window(m, g.outStart, g.outSize), output)
  }

  ghost predicate SameElsewhere(m: seq<byte>, m': seq<byte>, g: Buffers) {
    |m| == |m'| && forall k | 0 <= k < |m| && !(g.inStart <= k < g.inStart + g.inSize) &&
                              !(g.outStart <= k < g.outStart + g.outSize) :: m[k] == m'[k]
  }

  lemma SameElsewhereTrans(a: seq<byte>, b: seq<byte>, c: seq<byte>, g: Buffers)
    requires SameElsewhere(a, b, g)
    requires SameOutside(b, c, g.inStart, g.inSize) || SameOutside(b, c, g.outStart, g.outSize) || SameElsewhere(b, c, g)
    ensures SameElsewhere(a, c, g)
  {
  }

  /** The same stacks in the same places, and nothing else changed: not a byte differs. */
  lemma SameStacksSameBytes(m: seq<byte>, m': seq<byte>, g: Buffers, input: seq<Message>, output: seq<Message>)
    requires g.Valid(|m|) && SameElsewhere(m, m', g)
    requires Represents(m, g, input, output) && Represents(m', g, input, output)
    ensures m == m'
  {
  }

  method HostPush(shm: SharedMemory, g: Buffers, ghost input: seq<Message>, ghost output: seq<Message>, data: Message)
    returns (ok: bool)
    requires g.Valid(shm.mem.Length) && Represents(shm.mem[..], g, input, output)
    modifies shm.mem
    ensures ok <==> Fits(input, |data|, g.inSize)
    ensures Represents(shm.mem[..], g, if ok then input + [data] else input, output)
    ensures SameElsewhere(old(shm.mem[..]), shm.mem[..], g)
  {
    hide Holds, SameOutside;
    ghost var m := shm.mem[..];
    ok := shm.PushBuffer(g.inStart, g.inSize, data);
    KeepsWindow(m, shm.mem[..], g.inStart, g.inSize, g.outStart, g.outSize);
    SameElsewhereTrans(m, m, shm.mem[..], g);
  }

  method GuestPush(shm: SharedMemory, g: Buffers, ghost input: seq<Message>, ghost output: seq<Message>, data: Message)
    returns (r: Outcome<()>)
    requires g.Valid(shm.mem.Length) && Represents(shm.mem[..], g, input, output)
    modifies shm.mem
    ensures !r.Panic? && (r.Ok? <==> Fits(output, |data|, g.outSize))
    ensures Represents(shm.mem[..], g, input, if r.Ok? then output + [data] else output)
    ensures SameElsewhere(old(shm.mem[..]), shm.mem[..], g)
  {
    hide Holds, SameOutside, StepBytes, Fits;
    ghost var m := shm.mem[..];
    r := GuestIo.PushSharedOutputData(shm, g.outStart, g.outSize, data);
    KeepsWindow(m, shm.mem[..], g.outStart, g.outSize, g.inStart, g.inSize);
    SameElsewhereTrans(m, m, shm.mem[..], g);
  }

  method GuestPop(shm: SharedMemory, g: Buffers, ghost input: seq<Message>, ghost output: seq<Message>)
    returns (r: Outcome<Message>)
    requires g.Valid(shm.mem.Length) && Represents(shm.mem[..], g, input, output) && AllSound(input)
    modifies shm.mem
    ensures input == [] ==> r == Err && shm.mem[..] == old(shm.mem[..])
    ensures input != [] ==> r == Ok(input[|input| - 1]) && Represents(shm.mem[..], g, input[..|input| - 1], output)
    ensures SameElsewhere(old(shm.mem[..]), shm.mem[..], g)
  {
    hide Holds, SameOutside, SizePrefixed;
    ghost var m := shm.mem[..];
    TakeMessageDecodes();
    r := GuestIo.TryPopSharedInputDataInto(shm, g.inStart, g.inSize, TakeMessage);
    KeepsWindow(m, shm.mem[..], g.inStart, g.inSize, g.outStart, g.outSize);
    SameElsewhereTrans(m, m, shm.mem[..], g);
    if input != [] {
      ghost var below, top := input[..|input| - 1], input[|input| - 1];
      assert input == below + [top];
      assert PaidFor(Window(shm.mem[..], g.inStart, g.inSize), TakeMessage, r, below, top);
    }
  }

  /** One guest operation together with the host's side of it. */
  method DoOp(shm: SharedMemory, g: Buffers, ghost input: seq<Message>, ghost output: seq<Message>, op: GuestOp)
    returns (ok: bool, seen: seq<Event>)
    requires g.Valid(shm.mem.Length) && Represents(shm.mem[..], g, input, output)
    requires AllSound(input) && AllSound(output) && SoundOp(op)
    modifies shm.mem
    ensures SameElsewhere(old(shm.mem[..]), shm.mem[..], g)
    ensures match OpEffect(input, output, op, g)
            case Fails(es) => !ok && seen == es && Represents(shm.mem[..], g, input, output)
            case Does(e, next) => ok && seen == [e] && Represents(shm.mem[..], g, next, output)
  {
    hide Represents, SameElsewhere, SizePrefixed, Fits;
    ghost var m := shm.mem[..];
    match op
    case HostCall(request, response) =>
      var pushed := GuestPush(shm, g, input, output, request);
      if !pushed.Ok? {
        return true, [RequestRefused(request)];
      }
      ghost var m1 := shm.mem[..];
      var call := HostTake(shm, g, input, output + [request]);
      assert (output + [request])[..|output|] == output;
      SameElsewhereTrans(m, m1, shm.mem[..], g);
      if response == None {
        return false, [HostGotCall(call.value)];
      }
      ghost var m2 := shm.mem[..];
      var answered := HostPush(shm, g, input, output, response.value);
      SameElsewhereTrans(m, m2, shm.mem[..], g);
      return answered, [HostGotCall(call.value)];
    case ReadReturn =>
      var value := GuestPop(shm, g, input, output);
      if !value.Ok? {
        return false, [];
      }
      return true, [GuestGotReturn(value.value)];
    case LogMessage(record) =>
      var pushed := GuestPush(shm, g, input, output, record);
      if !pushed.Ok? {
        return false, [];
      }
      ghost var m1 := shm.mem[..];
      var logged := HostTake(shm, g, input, output + [record]);
      assert (output + [record])[..|output|] == output;
      SameElsewhereTrans(m, m1, shm.mem[..], g);
      return true, [HostGotLog(logged.value)];
  }

  lemma EffectSound(input: seq<Message>, output: seq<Message>, op: GuestOp, g: Buffers)
    requires AllSound(input) && SoundOp(op)
    ensures match OpEffect(input, output, op, g) case Does(_, next) => AllSound(next) case Fails(_) => true
  {
  }

  /** The guest function's body: all its operations, up to the first that fails. */
  method RunGuest(shm: SharedMemory, g: Buffers, ghost input: seq<Message>, ghost output: seq<Message>, ops: seq<GuestOp>)
    returns (ok: bool, events: seq<Event>)
    requires g.Valid(shm.mem.Length) && Represents(shm.mem[..], g, input, output)
    requires AllSound(input) && AllSound(output) && SoundOps(ops)
    modifies shm.mem
    ensures SameElsewhere(old(shm.mem[..]), shm.mem[..], g)
    ensures var r := Behave(input, output, ops, g);
            ok == r.completed && events == r.events && Represents(shm.mem[..], g, r.input, output)
  {
    hide Represents, SameElsewhere, OpEffect, AllSound;
    SameElsewhereRefl(shm.mem[..], g);
    var i := 0;
    ghost var cur := input;
    events := [];
    assert ops[0..] == ops;
    while i < |ops|
      invariant 0 <= i <= |ops|
      invariant AllSound(cur) && Represents(shm.mem[..], g, cur, output)
      invariant SameElsewhere(old(shm.mem[..]), shm.mem[..], g)
      invariant var rest := Behave(cur, output, ops[i..], g);
                Behave(input, output, ops, g) == Run(events + rest.events, rest.input, rest.completed)
    {
      ghost var m := shm.mem[..];
      assert ops[i..][0] == ops[i] && ops[i..][1..] == ops[i + 1..];
      EffectSound(cur, output, ops[i], g);
      var done, seen := DoOp(shm, g, cur, output, ops[i]);
      SameElsewhereTrans(old(shm.mem[..]), m, shm.mem[..], g);
      events := events + seen;
      if !done {
        return false, events;
      }
      cur := OpEffect(cur, output, ops[i], g).input;
      i := i + 1;
    }
    return true, events;
  }

  lemma SameElsewhereRefl(m: seq<byte>, g: Buffers)
    ensures SameElsewhere(m, m, g)
  {
  }

  /**
   A whole call: the host pushes `call`, the guest takes it, runs `ops` and pushes
   `result`, the host pops the result. The guest gets the call the host wrote, the host
   gets the result the guest wrote, and after a call that read all its return values
   not one byte of the buffers differs. If the result does not fit, the host finds what
   was on the output stack before. A guest function that fails leaves no result; then, or
   when the stack guard is overwritten, the host does not read one.
   */
  method CallFunctionOnGuest(shm: SharedMemory, g: Buffers, ghost input: seq<Message>, ghost output: seq<Message>,
                             call: Message, ops: seq<GuestOp>, result: Option<Message>, guardIntact: bool)
    returns (r: Outcome<Message>, taken: Option<Message>, events: seq<Event>)
    requires g.Valid(shm.mem.Length) && Represents(shm.mem[..], g, input, output)
    requires AllSound(input) && AllSound(output) && Sound(call) && SoundOps(ops) && (result.Some? ==> Sound(result.value))
    modifies shm.mem
    ensures SameElsewhere(old(shm.mem[..]), shm.mem[..], g)
    ensures !Fits(input, |call|, g.inSize) ==> r == Err && taken == None && shm.mem[..] == old(shm.mem[..])
    ensures Fits(input, |call|, g.inSize) ==>
              taken == Some(call) && events == Behave(input, output, ops, g).events
    ensures Fits(input, |call|, g.inSize) && !Behave(input, output, ops, g).completed ==>
              r == Err && Represents(shm.mem[..], g, Behave(input, output, ops, g).input, output)
    ensures Fits(input, |call|, g.inSize) && Behave(input, output, ops, g).completed ==>
              var left := result.Some? && Fits(output, |result.value|, g.outSize);
              var after := Behave(input, output, ops, g).input;
              if result == None || !guardIntact
              then r == Err && Represents(shm.mem[..], g, after, if left then output + [result.value] else output)
              else if left then r == Ok(result.value) && Represents(shm.mem[..], g, after, output)
              else if output == [] then r == Err && Represents(shm.mem[..], g, after, [])
              else r == Ok(output[|output| - 1]) && Represents(shm.mem[..], g, after, output[..|output| - 1])
    ensures Fits(input, |call|, g.inSize) && Behave(input, output, ops, g).completed && Balanced(ops, 0, output, g) ==>
              result.Some? && guardIntact && Fits(output, |result.value|, g.outSize) ==> shm.mem[..] == old(shm.mem[..])
  {
    hide Represents, SameElsewhere, Balanced, SizePrefixed, Fits, Behave;
    ghost var m := shm.mem[..];
    events, taken := [], None;
    var sent := HostPush(shm, g, input, output, call);
    if !sent {
      SameStacksSameBytes(m, shm.mem[..], g, input, output);
      return Err, taken, events;
    }
    ghost var m1 := shm.mem[..];
    var got := GuestPop(shm, g, input + [call], output);
    assert (input + [call])[..|input|] == input;
    SameElsewhereTrans(m, m1, shm.mem[..], g);
    taken := Some(got.value);
    ghost var m2 := shm.mem[..];
    var ok;
    ok, events := RunGuest(shm, g, input, output, ops);
    ghost var after := Behave(input, output, ops, g).input;
    SameElsewhereTrans(m, m2, shm.mem[..], g);
    if !ok || result == None {
      return Err, taken, events;
    }
    ghost var m3 := shm.mem[..];
    var left := GuestPush(shm, g, after, output, result.value);
    SameElsewhereTrans(m, m3, shm.mem[..], g);
    if !guardIntact {
      return Err, taken, events;
    }
    ghost var m4 := shm.mem[..];
    r := HostTake(shm, g, after, if left.Ok? then output + [result.value] else output);
    SameElsewhereTrans(m, m4, shm.mem[..], g);
    if left.Ok? {
      assert (output + [result.value])[..|output|] == output;
      if Balanced(ops, 0, output, g) {
        assert input + [] == input;
        BalancedKeepsInput(input, [], output, ops, g);
        SameStacksSameBytes(m, shm.mem[..], g, input, output);
      }
    }
  }

  /** The host's pop of whatever is on top of the output stack. */
  method HostTake(shm: SharedMemory, g: Buffers, ghost input: seq<Message>, ghost output: seq<Message>)
    returns (r: Outcome<Message>)
    requires g.Valid(shm.mem.Length) && Represents(shm.mem[..], g, input, output) && AllSound(output)
    modifies shm.mem
    ensures output == [] ==> r == Err && Represents(shm.mem[..], g, input, [])
    ensures output != [] ==> r == Ok(output[|output| - 1]) && Represents(shm.mem[..], g, input, output[..|output| - 1])
    ensures SameElsewhere(old(shm.mem[..]), shm.mem[..], g)
  {
    hide Holds, SameOutside, SizePrefixed;
    ghost var m := shm.mem[..];
    TakeMessageDecodes();
    r := shm.TryPopBufferInto(g.outStart, g.outSize, TakeMessage);
    KeepsWindow(m, shm.mem[..], g.outStart, g.outSize, g.inStart, g.inSize);
    SameElsewhereTrans(m, m, shm.mem[..], g);
    if output != [] {
      ghost var below, top := output[..|output| - 1], output[|output| - 1];
      assert output == below + [top];
      assert PaidFor(Window(shm.mem[..], g.outStart, g.outSize), TakeMessage, r, below, top);
    }
  }

  // -------------------------------------------------- any mix of operations on both buffers

  datatype Side = InputSide | OutputSide

  /** An operation of the host or the guest on one of the buffers. */
  datatype Access =
    | HostPushes(side: Side, data: Message)
    | HostPops(side: Side)
    | GuestPushes(side: Side, data: Message)
    | GuestPops(side: Side)

  function StepOf(a: Access): Op {
    match a
    case HostPushes(_, data) => Push(data)
    case GuestPushes(_, data) => Push(data)
    case _ => Pop(true)
  }

  /** The operations on one side, in order, whoever performs them. */
  function OnSide(accesses: seq<Access>, side: Side): seq<Op> {
    if accesses == [] then []
    else (if accesses[0].side == side then [StepOf(accesses[0])] else []) + OnSide(accesses[1..], side)
  }

  ghost predicate SoundAccesses(accesses: seq<Access>) {
    forall k | 0 <= k < |accesses| && StepOf(accesses[k]).Push? :: Sound(StepOf(accesses[k]).data)
  }

  function StartOf(g: Buffers, side: Side): nat {
    if side.InputSide? then g.inStart else g.outStart
  }

  function SizeOf(g: Buffers, side: Side): nat {
    if side.InputSide? then g.inSize else g.outSize
  }

  function Other(side: Side): Side {
    if side.InputSide? then OutputSide else InputSide
  }

  /** One access to any contents changes nothing outside its buffer, and on a stack it is one step. */
  ghost predicate Accessed(m: seq<byte>, m': seq<byte>, start: nat, size: nat, step: Op)
    requires start + size <= |m|
  {
    SameOutside(m, m', start, size) &&
    forall s | AllSound(s) && Holds(Window(m, start, size), s) :: Holds(Window(m', start, size), StepStack(s, step, size))
  }

  lemma PushAccess(m: seq<byte>, m': seq<byte>, start: nat, size: nat, data: Message, ok: bool)
    requires 8 <= size && start + size <= |m| < TWO64 && Pushed(m, m', start, size, data, ok)
    ensures Accessed(m, m', start, size, Push(data))
  {
    hide Holds, SameOutside, StepBytes;
  }

  lemma PopAccess(m: seq<byte>, m': seq<byte>, start: nat, size: nat, r: Outcome<Message>)
    requires 8 <= size && start + size <= |m| < TWO64 && Popped(m, m', start, size, TakeMessage, r)
    ensures Accessed(m, m', start, size, Pop(true))
  {
    hide Holds, SizePrefixed;
    TakeMessageDecodes();
    var b, b' := Window(m, start, size), Window(m', start, size);
    forall s | AllSound(s) && Holds(b, s) ensures Holds(b', StepStack(s, Pop(true), size)) {
      if s != [] {
        var below, top := s[..|s| - 1], s[|s| - 1];
        assert s == below + [top];
        assert PaidFor(b', TakeMessage, r, below, top);
      }
    }
  }

  method DoAccess(shm: SharedMemory, g: Buffers, a: Access)
    requires g.Valid(shm.mem.Length)
    modifies shm.mem
    ensures Accessed(old(shm.mem[..]), shm.mem[..], StartOf(g, a.side), SizeOf(g, a.side), StepOf(a))
  {
    hide Pushed, Popped, Accessed;
    ghost var m := shm.mem[..];
    var start, size := StartOf(g, a.side), SizeOf(g, a.side);
    match a
    case HostPushes(_, data) =>
      var ok := shm.PushBuffer(start, size, data);
      PushAccess(m, shm.mem[..], start, size, data, ok);
    case GuestPushes(_, data) =>
      var r := GuestIo.PushSharedOutputData(shm, start, size, data);
      PushAccess(m, shm.mem[..], start, size, data, r.Ok?);
    case HostPops(_) =>
      var r := shm.TryPopBufferInto(start, size, TakeMessage);
      PopAccess(m, shm.mem[..], start, size, r);
    case GuestPops(_) =>
      TakeMessageDecodes();
      var r := GuestIo.TryPopSharedInputDataInto(shm, start, size, TakeMessage);
      PopAccess(m, shm.mem[..], start, size, r);
  }

  /** Nothing outside the buffer of `side` changed. */
  ghost predicate OnlyOn(m: seq<byte>, m': seq<byte>, g: Buffers, side: Side) {
    SameOutside(m, m', StartOf(g, side), SizeOf(g, side))
  }

  /**
   Any mix of operations of host and guest on both buffers, in any order. Whatever the
   buffers hold, operations on one leave every byte outside it alone. If they hold stacks,
   each ends as the stack that its own operations alone give.
   */
  method RunMixed(shm: SharedMemory, g: Buffers, accesses: seq<Access>, ghost input: seq<Message>, ghost output: seq<Message>)
    requires g.Valid(shm.mem.Length) && SoundAccesses(accesses) && AllSound(input) && AllSound(output)
    modifies shm.mem
    ensures SameElsewhere(old(shm.mem[..]), shm.mem[..], g)
    ensures forall side | OnSide(accesses, Other(side)) == [] :: OnlyOn(old(shm.mem[..]), shm.mem[..], g, side)
    ensures old(Represents(shm.mem[..], g, input, output)) ==>
              Represents(shm.mem[..], g, RunStack(input, OnSide(accesses, InputSide), g.inSize),
                         RunStack(output, OnSide(accesses, OutputSide), g.outSize))
  {
    hide SameElsewhere, OnlyOn, Represents, Accessed, AllSound, OnSide, StepStack, RunStack;
    ghost var m0, i0, o0 := shm.mem[..], input, output;
    SameElsewhereRefl(m0, g);
    OnlyOnRefl(m0, g);
    assert accesses[0..] == accesses;
    for k := 0 to |accesses|
      invariant SameElsewhere(m0, shm.mem[..], g) && AllSound(i0) && AllSound(o0)
      invariant forall side | OnSide(accesses, Other(side)) == [] :: OnlyOn(m0, shm.mem[..], g, side)
      invariant forall side | OnSide(accesses, Other(side)) == [] :: OnSide(accesses[k..], Other(side)) == []
      invariant Represents(m0, g, input, output) ==> Represents(shm.mem[..], g, i0, o0)
      invariant RunStack(i0, OnSide(accesses[k..], InputSide), g.inSize) == RunStack(input, OnSide(accesses, InputSide), g.inSize)
      invariant RunStack(o0, OnSide(accesses[k..], OutputSide), g.outSize) == RunStack(output, OnSide(accesses, OutputSide), g.outSize)
    {
      ghost var m := shm.mem[..];
      var a := accesses[k];
      DoAccess(shm, g, a);
      AccessKeeps(m0, m, shm.mem[..], g, a);
      NextOnSide(accesses, k, InputSide, i0, g.inSize);
      NextOnSide(accesses, k, OutputSide, o0, g.outSize);
      if Represents(m0, g, input, output) {
        AccessStacks(m, shm.mem[..], g, a, i0, o0);
      }
      StepSound(i0, StepOf(a), g.inSize);
      StepSound(o0, StepOf(a), g.outSize);
      if a.side == InputSide {
        i0 := StepStack(i0, StepOf(a), g.inSize);
      } else {
        o0 := StepStack(o0, StepOf(a), g.outSize);
      }
    }
    assert accesses[|accesses|..] == [];
    NoneOnSide(InputSide, i0, g.inSize);
    NoneOnSide(OutputSide, o0, g.outSize);
  }

  lemma OnlyOnRefl(m: seq<byte>, g: Buffers)
    ensures forall side :: OnlyOn(m, m, g, side)
  {
  }

  lemma NoneOnSide(side: Side, s: seq<Message>, size: nat)
    ensures RunStack(s, OnSide([], side), size) == s
  {
  }

  /** Access `k` is a step of its own side's stack and none of the other's. */
  lemma NextOnSide(accesses: seq<Access>, k: nat, side: Side, s: seq<Message>, size: nat)
    requires k < |accesses|
    ensures OnSide(accesses[k..], side) == [] ==> OnSide(accesses[k + 1..], side) == [] && accesses[k].side != side
    ensures RunStack(s, OnSide(accesses[k..], side), size) ==
            RunStack(if accesses[k].side == side then StepStack(s, StepOf(accesses[k]), size) else s,
                     OnSide(accesses[k + 1..], side), size)
  {
    hide StepStack;
    var rest := OnSide(accesses[k + 1..], side);
    assert accesses[k..][1..] == accesses[k + 1..];
    if accesses[k].side == side {
      assert ([StepOf(accesses[k])] + rest)[1..] == rest;
    } else {
      assert [] + rest == rest;
    }
  }

  lemma StepSound(s: seq<Message>, step: Op, size: nat)
    requires AllSound(s) && (step.Push? ==> Sound(step.data))
    ensures AllSound(StepStack(s, step, size))
  {
  }

  lemma AccessKeeps(m0: seq<byte>, m: seq<byte>, m': seq<byte>, g: Buffers, a: Access)
    requires g.Valid(|m|) && Accessed(m, m', StartOf(g, a.side), SizeOf(g, a.side), StepOf(a))
    requires SameElsewhere(m0, m, g)
    ensures SameElsewhere(m0, m', g)
    ensures OnlyOn(m0, m, g, a.side) ==> OnlyOn(m0, m', g, a.side)
  {
    hide Holds;
    SameElsewhereTrans(m0, m, m', g);
  }

  lemma AccessStacks(m: seq<byte>, m': seq<byte>, g: Buffers, a: Access, input: seq<Message>, output: seq<Message>)
    requires g.Valid(|m|) && |m'| == |m| && AllSound(input) && AllSound(output)
    requires Accessed(m, m', StartOf(g, a.side), SizeOf(g, a.side), StepOf(a)) && Represents(m, g, input, output)
    ensures if a.side == InputSide then Represents(m', g, StepStack(input, StepOf(a), g.inSize), output)
            else Represents(m', g, input, StepStack(output, StepOf(a), g.outSize))
  {
    hide Holds, AllSound, StepStack, SameOutside;
    if a.side == InputSide {
      KeepsWindow(m, m', g.inStart, g.inSize, g.outStart, g.outSize);
    } else {
      KeepsWindow(m, m', g.outStart, g.outSize, g.inStart, g.inSize);
    }
  }
}
