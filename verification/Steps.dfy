/** How a step on the disk, a database or a container ends. */
module Steps {
  datatype Status = Done | Failed | Crashed {
    predicate IsFailure() {
      !Done?
    }

    function PropagateFailure(): Status
      requires IsFailure()
    {
      this
    }
  }

  /** What the steps depend on: disks, databases, containers. */
  class Environment {
    /** Whether it always does what it is asked to do. */
    const reliable: bool
    /** How often it did not. */
    ghost var faults: nat
    /** Whether the process runs. No step is taken after its death. */
    ghost var alive: bool

    constructor (reliable: bool)
      ensures this.reliable == reliable && faults == 0 && alive
    {
      this.reliable := reliable;
      faults := 0;
      alive := true;
    }

    /** A step that leaves no trace in the modelled state. */
    method Attempt() returns (s: Status)
      requires alive
      modifies this
      ensures alive <==> !s.Crashed?
      ensures s.Done? ==> faults == old(faults)
      ensures !s.Done? ==> faults > old(faults)
      ensures reliable ==> s.Done?
    {
      s := Done;
      if !reliable {
        s := *;
      }
      if !s.Done? {
        faults := faults + 1;
      }
      alive := !s.Crashed?;
    }

    /** The process is started again. */
    ghost method Restart()
      modifies this
      ensures alive && faults == old(faults)
    {
      alive := true;
    }

    /** The environment did something else than it reported. */
    ghost method Blame()
      requires !reliable
      modifies this
      ensures faults > old(faults) && alive == old(alive)
    {
      faults := faults + 1;
    }
  }
}
