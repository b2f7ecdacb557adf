/**
The stack of memory snapshots. `restore_state_from_last_snapshot` and
`pop_and_restore_state_from_snapshot` are proved, over any sequence of operations and
arbitrary writes in between, to bring back the memory as it was at the matching push.
*/
module Snapshots {
  import opened Bytes
  import opened SharedMem

  type Image = seq<byte>

  /** Memory and the snapshots taken of it, newest last. */
  datatype State = State(mem: Image, snapshots: seq<Image>)

  /** `lockFree` says whether the memory's write lock could be taken. */
  datatype Op =
    | PushState(lockFree: bool)
    | RestoreLast(lockFree: bool)
    | PopAndRestore(lockFree: bool)
    | Write(contents: Image)

  /** The new state, and whether the operation reported success. */
  function Step(s: State, op: Op): (State, bool) {
    match op
    case PushState(lockFree) =>
      if lockFree then (s.(snapshots := s.snapshots + [s.mem]), true) else (s, false)
    case RestoreLast(lockFree) =>
      if s.snapshots != [] && lockFree then (s.(mem := s.snapshots[|s.snapshots| - 1]), true) else (s, false)
    case PopAndRestore(lockFree) =>
      if s.snapshots == [] then (s, false)
      else
        var below := s.snapshots[..|s.snapshots| - 1];
        if below != [] && lockFree then (State(below[|below| - 1], below), true) else (State(s.mem, below), false)
    case Write(contents) => (s.(mem := contents), true)
  }

  function Run(s: State, ops: seq<Op>): State
    decreases |ops|
  {
    if ops == [] then s else Run(Step(s, ops[0]).0, ops[1..])
  }

  class SandboxMemoryManager {
    const shm: SharedMemory
    var snapshots: seq<Image>

    ghost predicate Valid()
      reads this
    {
      forall i | 0 <= i < |snapshots| :: |snapshots[i]| == shm.mem.Length
    }

    ghost function Abstract(): State
      reads this, shm.mem
    {
      State(shm.mem[..], snapshots)
    }

    constructor (shm: SharedMemory)
      ensures Valid() && this.shm == shm && Abstract() == State(shm.mem[..], [])
    {
      this.shm, snapshots := shm, [];
    }

    method Push(lockFree: bool) returns (ok: bool)
      requires Valid()
      modifies this
      ensures Valid()
      ensures (Abstract(), ok) == Step(old(Abstract()), PushState(lockFree))
      ensures ok <==> lockFree
      ensures snapshots == if ok then old(snapshots) + [old(shm.mem[..])] else old(snapshots)
    {
      if !lockFree {
        return false;
      }
      var image := shm.CopyToSlice(0, shm.mem.Length);
      assert shm.mem[0..shm.mem.Length] == shm.mem[..];
      snapshots := snapshots + [image.value];
      return true;
    }

    method Restore(lockFree: bool) returns (ok: bool)
      requires Valid()
      modifies shm.mem
      ensures Valid()
      ensures (Abstract(), ok) == Step(old(Abstract()), RestoreLast(lockFree))
      ensures ok <==> snapshots != [] && lockFree
      ensures shm.mem[..] == if ok then snapshots[|snapshots| - 1] else old(shm.mem[..])
    {
      if snapshots == [] || !lockFree {
        return false;
      }
      ok := shm.CopyFromSlice(snapshots[|snapshots| - 1], 0);
      assert shm.mem[..] == snapshots[|snapshots| - 1];
    }

    /** The snapshot is gone even when there is nothing left to restore from. */
    method PopRestore(lockFree: bool) returns (ok: bool)
      requires Valid()
      modifies this, shm.mem
      ensures Valid()
      ensures (Abstract(), ok) == Step(old(Abstract()), PopAndRestore(lockFree))
      ensures ok <==> |old(snapshots)| > 1 && lockFree
      ensures snapshots == if old(snapshots) == [] then [] else old(snapshots)[..|old(snapshots)| - 1]
      ensures shm.mem[..] == if ok then old(snapshots)[|old(snapshots)| - 2] else old(shm.mem[..])
    {
      if snapshots == [] {
        return false;
      }
      snapshots := snapshots[..|snapshots| - 1];
      ok := Restore(lockFree);
    }
  }

  // ------------------------------------------------------------------------ whole runs

  /** From `depth` own snapshots on, no pop goes below the start and every snapshot taken is popped. */
  predicate Balanced(ops: seq<Op>, depth: nat)
    decreases |ops|
  {
    if ops == [] then depth == 0
    else match ops[0]
      case PushState(lockFree) => Balanced(ops[1..], if lockFree then depth + 1 else depth)
      case PopAndRestore(_) => depth > 0 && Balanced(ops[1..], depth - 1)
      case RestoreLast(_) => Balanced(ops[1..], depth)
      case Write(_) => Balanced(ops[1..], depth)
  }

  /** A balanced stretch leaves the snapshots below it alone and takes its own away. */
  lemma {:induction false} BalancedKeepsBelow(mem: Image, below: seq<Image>, own: seq<Image>, ops: seq<Op>)
    requires Balanced(ops, |own|)
    ensures Run(State(mem, below + own), ops).snapshots == below
    decreases |ops|
  {
    if ops == [] {
    } else {
      var s := Step(State(mem, below + own), ops[0]).0;
      var own' := match ops[0]
        case PushState(lockFree) => if lockFree then own + [mem] else own
        case PopAndRestore(_) => own[..|own| - 1]
        case _ => own;
      assert s.snapshots == below + own';
      BalancedKeepsBelow(s.mem, below, own', ops[1..]);
    }
  }

  lemma {:induction false} RunAppend(s: State, a: seq<Op>, b: seq<Op>)
    ensures Run(s, a + b) == Run(Run(s, a), b)
    decreases |a|
  {
    if a == [] {
      assert a + b == b;
    } else {
      assert (a + b)[1..] == a[1..] + b;
      RunAppend(Step(s, a[0]).0, a[1..], b);
    }
  }

  /** What a push and a balanced stretch leave behind: the pushed image on top. */
  lemma AfterPush(s: State, ops: seq<Op>)
    requires Balanced(ops, 0)
    ensures Run(s, [PushState(true)] + ops).snapshots == s.snapshots + [s.mem]
  {
    assert ([PushState(true)] + ops)[1..] == ops;
    assert s.snapshots + [s.mem] + [] == s.snapshots + [s.mem];
    BalancedKeepsBelow(s.mem, s.snapshots + [s.mem], [], ops);
  }

  /** Restoring brings back the memory of the matching push, whatever was written since. */
  lemma RestoreUndoes(s: State, ops: seq<Op>)
    requires Balanced(ops, 0)
    ensures Run(s, [PushState(true)] + ops + [RestoreLast(true)]) == State(s.mem, s.snapshots + [s.mem])
  {
    var all := [PushState(true)] + ops;
    AfterPush(s, ops);
    RunAppend(s, all, [RestoreLast(true)]);
    assert [RestoreLast(true)][1..] == [];
  }

  /**
   Popping brings back the image one level below the push, and the snapshots that were
   there before it. With no level below the pop fails and memory stays as it is.
   */
  lemma PopUndoes(s: State, ops: seq<Op>)
    requires Balanced(ops, 0)
    ensures var all := [PushState(true)] + ops;
            var r := Run(s, all + [PopAndRestore(true)]);
            r.snapshots == s.snapshots &&
            (s.snapshots != [] ==> r.mem == s.snapshots[|s.snapshots| - 1]) &&
            (s.snapshots == [] ==> r.mem == Run(s, all).mem && !Step(Run(s, all), PopAndRestore(true)).1)
  {
    var all := [PushState(true)] + ops;
    AfterPush(s, ops);
    RunAppend(s, all, [PopAndRestore(true)]);
    assert [PopAndRestore(true)][1..] == [];
    assert (s.snapshots + [s.mem])[..|s.snapshots|] == s.snapshots;
  }
}
