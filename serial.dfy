/** The dispatcher: each argument is promoted to a (value, serializer) pair, the
    serializer writes at the context's cursor, and the dispatcher commits the
    position it returns.  Arguments are handled strictly left to right. */
module Serial {
  import opened Decimal
  import opened Buffer
  import opened Context
  import opened TestSerializers

  /** SerialArg<T, U>: a value bound to the serializer that must serialize it. */
  datatype SerialArg = SerialArg(arg: Value, serializer: Serializer)

  /** One argument of a Serialize call: a bare value, or a value already paired
      with an explicit serializer. */
  datatype Arg = Bare(value: Value) | Explicit(pair: SerialArg)

  /** MakeSerialArg(arg, serializer): a pair holding copies of both inputs. */
  function MakeSerialArg(arg: Value, serializer: Serializer): (p: SerialArg)
    ensures p.arg == arg && p.serializer == serializer
  {
    SerialArg(arg, serializer)
  }

  /** ForwardAsSerialArg(arg, serializer): a pair referring to both inputs.  With
      values instead of references it holds the same two things as MakeSerialArg. */
  function ForwardAsSerialArg(arg: Value, serializer: Serializer): (p: SerialArg)
    ensures p.arg == arg && p.serializer == serializer
  {
    SerialArg(arg, serializer)
  }

  /** An argument that is already a SerialArg passes through untouched; a bare
      value is paired with the default-constructed serializer of its type. */
  function PromoteToSerialArg(a: Arg): (p: SerialArg)
    ensures a.Explicit? ==> p == a.pair
    ensures a.Bare? ==> p.arg == a.value && p.serializer == DefaultFor(a.value)
  {
    match a
    case Explicit(pair) => pair
    case Bare(v) => ForwardAsSerialArg(v, DefaultFor(v))
  }

  /** The call serializer.Serialize(value, ctx) for this argument is well-typed;
      otherwise the C++ program does not compile. */
  predicate Compiles(a: Arg) {
    var p := PromoteToSerialArg(a);
    p.serializer.Accepts(p.arg)
  }

  predicate AllCompile(args: seq<Arg>) {
    forall i :: 0 <= i < |args| ==> Compiles(args[i])
  }

  /** The text a single argument produces in a context of type kind. */
  function ArgOutput(kind: ContextType, a: Arg): (r: string)
    requires Compiles(a)
  {
    var p := PromoteToSerialArg(a);
    p.serializer.Rendered(kind, p.arg)
  }

  /** The text a whole argument list produces: each argument's text, in order. */
  function Output(kind: ContextType, args: seq<Arg>): (r: string)
    requires AllCompile(args)
  {
    if |args| == 0 then "" else Output(kind, args[..|args| - 1]) + ArgOutput(kind, args[|args| - 1])
  }

  /** Concatenation law: the text of a + b is the text of a followed by the text of b. */
  lemma {:induction false} OutputConcat(kind: ContextType, a: seq<Arg>, b: seq<Arg>)
    requires AllCompile(a) && AllCompile(b)
    ensures AllCompile(a + b)
    ensures Output(kind, a + b) == Output(kind, a) + Output(kind, b)
  {
    if |b| == 0 {
      assert a + b == a;
    } else {
      var b' := b[..|b| - 1];
      assert (a + b)[..|a + b| - 1] == a + b';
      assert (a + b)[|a + b| - 1] == b[|b| - 1];
      OutputConcat(kind, a, b');
      assert Output(kind, b) == Output(kind, b') + ArgOutput(kind, b[|b| - 1]);
    }
  }

  /** A bare value produces exactly what it produces when explicitly paired with a
      default-constructed serializer of its type. */
  lemma DefaultResolution(kind: ContextType, v: Value)
    ensures Compiles(Bare(v)) && Compiles(Explicit(MakeSerialArg(v, DefaultFor(v))))
    ensures ArgOutput(kind, Bare(v)) == ArgOutput(kind, Explicit(MakeSerialArg(v, DefaultFor(v))))
  {
  }

  /** Override precedence: an explicitly paired serializer is the one used, even
      when the value's type has a default serializer that writes something else. */
  lemma OverridePrecedence(kind: ContextType, v: Value, s: Serializer)
    requires s.Accepts(v)
    ensures Compiles(Explicit(MakeSerialArg(v, s)))
    ensures ArgOutput(kind, Explicit(MakeSerialArg(v, s))) == s.Rendered(kind, v)
  {
  }

  /** A bare int in a basic context is written as "INT " and a decimal text that
      reads back as the int. */
  lemma DefaultIntOutput(n: Int32)
    ensures var text := ArgOutput(Basic, Bare(IntV(n)));
            |text| > 4 && text[..4] == "INT " && IsDecimal(text[4..]) && ParseInt(text[4..]) == n as int
  {
    IntRenderedReadsBack(DefaultIntPrefix, Basic, n);
  }

  /** Serialize(ctx, arg) with one argument: promote it, let its serializer write,
      and commit the returned position to the context. */
  method SerializeOne(ctx: BasicOutputContext, a: Arg, buf: array<char>)
    requires Compiles(a)
    requires ctx.out + |ArgOutput(ctx.kind, a)| <= buf.Length
    modifies ctx, buf
    ensures ctx.out == old(ctx.out) + |ArgOutput(ctx.kind, a)|
    ensures buf[..] == Splice(old(buf[..]), old(ctx.out), ArgOutput(ctx.kind, a))
  {
    var p := PromoteToSerialArg(a);
    var it := p.serializer.Serialize(p.arg, ctx, buf);
    var _ := ctx.AdvanceTo(it);
  }

  /** Serialize(ctx, args...): the one-argument step applied to each argument in
      order; with no argument nothing changes. */
  method Serialize(ctx: BasicOutputContext, args: seq<Arg>, buf: array<char>)
    requires AllCompile(args)
    requires ctx.out + |Output(ctx.kind, args)| <= buf.Length
    modifies ctx, buf
    ensures ctx.out == old(ctx.out) + |Output(ctx.kind, args)|
    ensures buf[..] == Splice(old(buf[..]), old(ctx.out), Output(ctx.kind, args))
  {
    var i := 0;
    while i < |args|
      invariant 0 <= i <= |args|
      invariant AllCompile(args[..i])
      invariant ctx.out == old(ctx.out) + |Output(ctx.kind, args[..i])| <= buf.Length
      invariant buf[..] == Splice(old(buf[..]), old(ctx.out), Output(ctx.kind, args[..i]))
    {
      ghost var done := Output(ctx.kind, args[..i]);
      assert args[..i + 1][..i] == args[..i];
      ghost var next := Output(ctx.kind, args[..i + 1]);
      assert next == done + ArgOutput(ctx.kind, args[i]);
      assert args == args[..i + 1] + args[i + 1..];
      OutputConcat(ctx.kind, args[..i + 1], args[i + 1..]);
      SerializeOne(ctx, args[i], buf);
      SpliceConcat(old(buf[..]), old(ctx.out), done, ArgOutput(ctx.kind, args[i]));
      i := i + 1;
    }
    assert args[..i] == args;
  }

  /** SerializeInto(dFirst, args...): Serialize into a fresh basic context started
      at dFirst, and return that context's final position. */
  method SerializeInto(dFirst: nat, args: seq<Arg>, buf: array<char>) returns (end: nat)
    requires AllCompile(args)
    requires dFirst + |Output(Basic, args)| <= buf.Length
    modifies buf
    ensures end == dFirst + |Output(Basic, args)|
    ensures buf[..] == Splice(old(buf[..]), dFirst, Output(Basic, args))
  {
    var ctx := new BasicOutputContext(Basic, dFirst);
    Serialize(ctx, args, buf);
    end := ctx.Output();
  }

  /** Two consecutive Serialize calls on one context, with a and then b, end at the
      position and leave the buffer that one call with a + b is specified to. */
  method ConsecutiveCallsMatchOneCall(ctx: BasicOutputContext, a: seq<Arg>, b: seq<Arg>,
                                      buf: array<char>)
    requires AllCompile(a) && AllCompile(b)
    requires ctx.out + |Output(ctx.kind, a)| + |Output(ctx.kind, b)| <= buf.Length
    modifies ctx, buf
    ensures AllCompile(a + b) && Output(ctx.kind, a + b) == Output(ctx.kind, a) + Output(ctx.kind, b)
    ensures ctx.out == old(ctx.out) + |Output(ctx.kind, a + b)|
    ensures buf[..] == Splice(old(buf[..]), old(ctx.out), Output(ctx.kind, a + b))
  {
    OutputConcat(ctx.kind, a, b);
    Serialize(ctx, a, buf);
    Serialize(ctx, b, buf);
    SpliceConcat(old(buf[..]), old(ctx.out), Output(ctx.kind, a), Output(ctx.kind, b));
  }
}
