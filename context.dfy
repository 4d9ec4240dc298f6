/** The output context: a sink holding one write cursor into the caller's buffer. */
module Context {

  /** The static type of the context a serializer is called with.  Serializers
      may behave differently per context type; MyTest stands for MyTestContext,
      which derives from BasicOutputContext over a char pointer and changes
      nothing else. */
  datatype ContextType = Basic | MyTest

  /** BasicOutputContext: decorates an output position (here an index into the
      caller's char buffer).  It has no default constructor: a starting
      position must be given. */
  class BasicOutputContext {
    const kind: ContextType
    var out: nat

    constructor (kind: ContextType, dFirst: nat)
      ensures this.kind == kind && out == dFirst
    {
      this.kind := kind;
      out := dFirst;
    }

    /** The position the next write starts at. */
    method Output() returns (it: nat)
      ensures it == out
    {
      it := out;
    }

    /** Commits a new position and returns it. */
    method AdvanceTo(it: nat) returns (r: nat)
      modifies this`out
      ensures out == it && r == it
    {
      out := it;
      r := out;
    }
  }
}
