/**
`VirtualCPU::run`, the loop that runs the vCPU until it halts, and the lookup that turns
a fault into an access violation. The hypervisor is the sequence of exits it produces.
*/
module VCpu {
  import opened Bytes
  import opened Regions
  import opened Layout
  import opened Bits

  /** An exit of the vCPU. For an outb, `handled` is whether its handler returned without error. */
  datatype Exit =
    | Halt
    | IoOut(port: nat, data: seq<byte>, handled: bool)
    | Mmio(addr: nat, guardIntact: bool)
    | AccessViolation(addr: nat, tried: Flags, permission: Flags)
    | Cancelled
    | Unknown
    | Retry
    | DriverError

  datatype Error =
    | StackOverflow
    | MemoryAccessViolation(addr: nat, tried: Flags, permission: Flags)
    | ExecutionCanceledByHost
    | OutbFailed
    | MmioAccess(addr: nat)
    | UnexpectedExit
    | DriverFailed

  /** `Running` stands for a vCPU that has produced only exits the loop goes on from. */
  datatype Result = Finished | Failed(error: Error) | Running

  /** The flags of the hypervisor handler that a cancelled run sets. */
  class HandlerFlags {
    var running: bool
    var runCancelled: bool

    constructor ()
      ensures !running && !runCancelled
    {
      running, runCancelled := false, false;
    }
  }

  predicate GoesOn(e: Exit) {
    e.Retry? || (e.IoOut? && e.handled)
  }

  /** How many of the first `n` exits are outb writes. */
  function OutCount(exits: seq<Exit>, n: nat): nat
    requires n <= |exits|
  {
    if n == 0 then 0 else OutCount(exits, n - 1) + (if exits[n - 1].IoOut? then 1 else 0)
  }

  /** `calls` are the outb writes among the first `n` exits: each at the place its predecessors leave it. */
  ghost predicate HandledInOrder(exits: seq<Exit>, n: nat, calls: seq<(nat, seq<byte>)>)
    requires n <= |exits|
  {
    |calls| == OutCount(exits, n) &&
    forall i | 0 <= i < n && exits[i].IoOut? ::
      OutCount(exits, i) < |calls| && calls[OutCount(exits, i)] == (exits[i].port, exits[i].data)
  }

  /** What the exit that ends the loop means for the caller. */
  function Verdict(e: Exit): Result
    requires !GoesOn(e)
  {
    match e
    case Halt => Finished
    case IoOut(_, _, _) => Failed(OutbFailed)
    case Mmio(addr, guardIntact) => Failed(if guardIntact then MmioAccess(addr) else StackOverflow)
    case AccessViolation(addr, tried, permission) =>
      Failed(if permission.stackGuard then StackOverflow else MemoryAccessViolation(addr, tried, permission))
    case Cancelled => Failed(ExecutionCanceledByHost)
    case Unknown => Failed(UnexpectedExit)
    case DriverError => Failed(DriverFailed)
  }

  /** What the caller learns from a result: which exit ended the run. */
  ghost predicate Tells(r: Result, e: Exit) {
    (r == Finished <==> e == Halt) && r != Running &&
    (r == Failed(OutbFailed) <==> e.IoOut? && !e.handled) &&
    (r == Failed(StackOverflow) <==> (e.Mmio? && !e.guardIntact) || (e.AccessViolation? && e.permission.stackGuard)) &&
    (r.Failed? && r.error.MmioAccess? <==> e.Mmio? && e.guardIntact) && (e.Mmio? && e.guardIntact ==> r.error.addr == e.addr) &&
    (r.Failed? && r.error.MemoryAccessViolation? <==> e.AccessViolation? && !e.permission.stackGuard) &&
    (e.AccessViolation? && !e.permission.stackGuard ==>
       r.error.addr == e.addr && r.error.tried == e.tried && r.error.permission == e.permission) &&
    (r == Failed(ExecutionCanceledByHost) <==> e == Cancelled) &&
    (r == Failed(UnexpectedExit) <==> e == Unknown) && (r == Failed(DriverFailed) <==> e == DriverError)
  }

  lemma VerdictTells(e: Exit)
    requires !GoesOn(e)
    ensures Tells(Verdict(e), e) && e != Retry && !(e.IoOut? && e.handled)
  {
  }

  /**
   Runs over any trace of exits. The first exit that is neither a retry nor a handled
   outb decides: the run succeeds exactly when that exit is a halt. The handler is called
   once for every outb up to there, in order. Only a cancelled exit touches the flags, and
   only if there is a hypervisor handler to have them; a run for the C API has none.
   */
  method Run(exits: seq<Exit>, flags: HandlerFlags?) returns (r: Result, calls: seq<(nat, seq<byte>)>, ghost stop: nat)
    modifies flags
    ensures stop <= |exits| && forall j | 0 <= j < stop :: exits[j] == Retry || (exits[j].IoOut? && exits[j].handled)
    ensures if stop == |exits| then r == Running && HandledInOrder(exits, stop, calls)
            else Tells(r, exits[stop]) && exits[stop] != Retry && HandledInOrder(exits, stop + 1, calls)
    ensures flags != null ==>
              if stop < |exits| && exits[stop] == Cancelled
              then !flags.running && flags.runCancelled
              else flags.running == old(flags.running) && flags.runCancelled == old(flags.runCancelled)
  {
    calls, stop := [], 0;
    var i := 0;
    while i < |exits|
      invariant 0 <= i <= |exits| && stop == i
      invariant forall j | 0 <= j < i :: exits[j] == Retry || (exits[j].IoOut? && exits[j].handled)
      invariant HandledInOrder(exits, i, calls)
      invariant flags != null ==> flags.running == old(flags.running) && flags.runCancelled == old(flags.runCancelled)
    {
      match exits[i] {
        case Halt =>
          return Finished, calls, stop;
        case IoOut(port, data, handled) =>
          calls := calls + [(port, data)];
          if !handled {
            return Failed(OutbFailed), calls, stop;
          }
        case Mmio(addr, guardIntact) =>
          if !guardIntact {
            return Failed(StackOverflow), calls, stop;
          }
          return Failed(MmioAccess(addr)), calls, stop;
        case AccessViolation(addr, tried, permission) =>
          if permission.stackGuard {
            return Failed(StackOverflow), calls, stop;
          }
          return Failed(MemoryAccessViolation(addr, tried, permission)), calls, stop;
        case Cancelled =>
          if flags != null {
            flags.running := false;
            flags.runCancelled := true;
          }
          return Failed(ExecutionCanceledByHost), calls, stop;
        case Unknown =>
          return Failed(UnexpectedExit), calls, stop;
        case DriverError =>
          return Failed(DriverFailed), calls, stop;
        case Retry =>
      }
      i, stop := i + 1, i + 1;
    }
    return Running, calls, stop;
  }

  // ------------------------------------------------------------------- access violations

  predicate Contains(f: Flags, g: Flags) {
    (g.read ==> f.read) && (g.write ==> f.write) && (g.execute ==> f.execute) && (g.stackGuard ==> f.stackGuard)
  }

  /** `get_memory_access_violation`: the first region that contains the address decides. */
  function GetMemoryAccessViolation(gpa: nat, regions: seq<MemoryRegion>, access: Flags): Option<Exit> {
    match FirstMatch(regions, gpa)
    case None => None
    case Some(k) =>
      if !Contains(regions[k].flags, access) || regions[k].flags.stackGuard
      then Some(AccessViolation(gpa, access, regions[k].flags)) else None
  }

  /**
   A fault anywhere in a guard page, by any kind of access, ends the run as a stack
   overflow; the guard regions of a layout are exactly its three guard pages.
   */
  lemma GuardFaultIsStackOverflow(l: SandboxMemoryLayout, host: nat, executableHeap: bool, k: nat, gpa: nat, access: Flags)
    requires Tiles(LayoutRegions(l, host, executableHeap), BASE_ADDRESS, host)
    requires k < 16 && LayoutRegions(l, host, executableHeap)[k].guest.Contains(gpa)
    ensures var rs := LayoutRegions(l, host, executableHeap);
            var fault := GetMemoryAccessViolation(gpa, rs, access);
            (rs[k].kind == GuardPage <==> k in {10, 12, 14}) &&
            (rs[k].kind == GuardPage ==> fault.Some? && !GoesOn(fault.value) && Verdict(fault.value) == Failed(StackOverflow)) &&
            (rs[k].kind != GuardPage && fault.Some? ==>
               Verdict(fault.value) == Failed(MemoryAccessViolation(gpa, access, rs[k].flags)) &&
               !Contains(rs[k].flags, access))
  {
    OnlyMatch(LayoutRegions(l, host, executableHeap), BASE_ADDRESS, host, gpa, k);
  }

  /**
   Which accesses fault, offset by offset: in a guard page all of them; elsewhere a read
   never, a write exactly in the host function definitions, an execution exactly outside
   the code and an executable heap. Behind guest memory there is no region to judge by.
   */
  lemma FaultsByOffset(l: SandboxMemoryLayout, stackSize: nat, host: nat, executableHeap: bool, off: nat, access: Flags)
    requires Built(l, stackSize) && GetMemorySize(l).Ok?
    ensures var fault := GetMemoryAccessViolation(0x20_0000 + off, LayoutRegions(l, host, executableHeap), access);
            if off < GetMemorySize(l).value
            then (fault.Some? <==> InGuard(l, off) || (access.write && InDefinitions(l, off)) || access.stackGuard ||
                                   (access.execute && !Executable(l, off, executableHeap))) &&
                 (fault.Some? ==> fault.value.AccessViolation? && fault.value.addr == 0x20_0000 + off &&
                                  fault.value.tried == access && (fault.value.permission.stackGuard <==> InGuard(l, off)))
            else fault == None
  {
    hide New, LayoutRegions, GetMemorySize, FirstMatch, InCode, InHeap, KindFits;
    RegionByOffset(l, stackSize, host, executableHeap, off);
    DistinctSections(l, stackSize, off);
  }

  lemma DistinctSections(l: SandboxMemoryLayout, stackSize: nat, off: nat)
    requires Built(l, stackSize)
    ensures !(InGuard(l, off) && (InDefinitions(l, off) || InCode(l, off) || InHeap(l, off)))
  {
    hide New;
    BuiltAscends(l, stackSize);
  }

  /** A fault is judged by the same region that gave its page its flags. */
  lemma FaultUsesRegionOfPage(rs: seq<MemoryRegion>, host: nat, gpa: nat, access: Flags)
    requires Tiles(rs, BASE_ADDRESS, host)
    ensures var page := FirstMatch(rs, gpa - gpa % PAGE_SIZE);
            match GetMemoryAccessViolation(gpa, rs, access)
            case Some(e) => page.Some? && e == AccessViolation(gpa, access, rs[page.value].flags)
            case None => page.Some? ==> Contains(rs[page.value].flags, access) && !rs[page.value].flags.stackGuard
  {
    SameRegionInPage(rs, BASE_ADDRESS, host, gpa);
  }
}
