/** The serializers registered for the value types the tests use: Serializer<int>
    (a configurable prefix, then the decimal digits) and Serializer<std::string>
    (a verbatim copy).  Each writes its text into the buffer at the context's
    cursor and returns the position one past the last char written; it never
    moves the context's cursor itself. */
module TestSerializers {
  import opened Decimal
  import opened Buffer
  import opened Context

  /** A C++ int. */
  newtype Int32 = x: int | -0x8000_0000 <= x < 0x8000_0000

  /** The values the tests serialize: an int or a std::string. */
  datatype Value = IntV(i: Int32) | StrV(s: string)

  /** The prefix a default-constructed Serializer<int> writes. */
  const DefaultIntPrefix: string := "INT "

  /** What Serializer<int> writes first when the context is a MyTestContext. */
  const CustomContextHeader: string := "CUSTOM CONTEXT: "

  /** What Serializer<int> writes before its prefix in a context of type kind:
      the header in a MyTestContext, nothing in any other context. */
  function Header(kind: ContextType): (h: string)
    ensures kind == MyTest ==> h == CustomContextHeader
    ensures kind != MyTest ==> h == ""
  {
    if kind == MyTest then CustomContextHeader else ""
  }

  /** A serializer object: IntSerializer(prefix) is a Serializer<int> constructed
      with that prefix, StringSerializer the (stateless) Serializer<std::string>. */
  datatype Serializer = IntSerializer(prefix: string) | StringSerializer {

    /** Serialize(v, ctx) is well-typed for this serializer: anything else is
        rejected by the C++ compiler. */
    predicate Accepts(v: Value) {
      match this
      case IntSerializer(_) => v.IntV?
      case StringSerializer => v.StrV?
    }

    /** The text this serializer writes for v in a context of type kind. */
    function Rendered(kind: ContextType, v: Value): (r: string)
      requires Accepts(v)
      ensures StringSerializer? ==> r == v.s
      ensures IntSerializer? ==>
        var head := Header(kind) + prefix;
        |head| < |r| && r[..|head|] == head && IsDecimal(r[|head|..])
    {
      match this
      case IntSerializer(prefix) =>
        Header(kind) + prefix + ToString(v.i as int)
      case StringSerializer => v.s
    }

    /** Writes Rendered(ctx.kind, v) at ctx's cursor and returns the position just
        past it; the context itself is left alone. */
    method Serialize(v: Value, ctx: BasicOutputContext, buf: array<char>) returns (it: nat)
      requires Accepts(v)
      requires ctx.out + |Rendered(ctx.kind, v)| <= buf.Length
      modifies buf
      ensures it == ctx.out + |Rendered(ctx.kind, v)|
      ensures buf[..] == Splice(old(buf[..]), ctx.out, Rendered(ctx.kind, v))
    {
      match this
      case IntSerializer(prefix) =>
        it := SerializeInt(prefix, v.i, ctx, buf);
      case StringSerializer =>
        it := SerializeString(v.s, ctx, buf);
    }
  }

  /** Serializer<int>::Serialize: builds the text by appending the context header
      (for MyTestContext only), the prefix and the decimal digits, then copies it
      to the cursor. */
  method SerializeInt(prefix: string, val: Int32, ctx: BasicOutputContext, buf: array<char>)
    returns (it: nat)
    requires ctx.out + |IntSerializer(prefix).Rendered(ctx.kind, IntV(val))| <= buf.Length
    modifies buf
    ensures it == ctx.out + |IntSerializer(prefix).Rendered(ctx.kind, IntV(val))|
    ensures buf[..] == Splice(old(buf[..]), ctx.out, IntSerializer(prefix).Rendered(ctx.kind, IntV(val)))
  {
    var out: string := "";
    if ctx.kind == MyTest {
      out := out + CustomContextHeader;
    }
    assert out == Header(ctx.kind);
    out := out + prefix;
    out := out + ToString(val as int);
    assert out == Header(ctx.kind) + prefix + ToString(val as int);
    assert out == IntSerializer(prefix).Rendered(ctx.kind, IntV(val));
    var at := ctx.Output();
    it := Copy(out, buf, at);
  }

  /** Serializer<std::string>::Serialize: copies the string verbatim to the cursor. */
  method SerializeString(val: string, ctx: BasicOutputContext, buf: array<char>) returns (it: nat)
    requires ctx.out + |val| <= buf.Length
    modifies buf
    ensures it == ctx.out + |val|
    ensures buf[..] == Splice(old(buf[..]), ctx.out, val)
  {
    var at := ctx.Output();
    it := Copy(val, buf, at);
  }

  /** Serializer<decay_t<T>>{} for a value of type T: the default-constructed
      serializer registered for the value's type. */
  function DefaultFor(v: Value): (s: Serializer)
    ensures s.Accepts(v)
    ensures v.IntV? ==> s == IntSerializer(DefaultIntPrefix)
  {
    match v
    case IntV(_) => IntSerializer(DefaultIntPrefix)
    case StrV(_) => StringSerializer
  }

  /** An int serializer writes the context header (for MyTestContext only), its
      prefix, and a decimal text that reads back as the value. */
  lemma IntRenderedReadsBack(prefix: string, kind: ContextType, n: Int32)
    ensures var text := IntSerializer(prefix).Rendered(kind, IntV(n));
            var head := Header(kind) + prefix;
            |head| < |text| && text[..|head|] == head &&
            IsDecimal(text[|head|..]) && ParseInt(text[|head|..]) == n as int
  {
    var head := Header(kind) + prefix;
    var text := IntSerializer(prefix).Rendered(kind, IntV(n));
    assert text == head + ToString(n as int);
    assert text[|head|..] == ToString(n as int);
    ToStringRoundTrip(n as int);
  }

  /** The context type changes what an int serializer writes by exactly the
      header, and does not change what the string serializer writes. */
  lemma ContextTypeEffect(s: Serializer, v: Value)
    requires s.Accepts(v)
    ensures s.IntSerializer? ==> s.Rendered(MyTest, v) == CustomContextHeader + s.Rendered(Basic, v)
    ensures s.StringSerializer? ==> s.Rendered(MyTest, v) == s.Rendered(Basic, v) == v.s
  {
    match s
    case IntSerializer(prefix) =>
      var rest := prefix + ToString(v.i as int);
      assert Header(Basic) + rest == rest;
      assert s.Rendered(MyTest, v) == CustomContextHeader + rest;
    case StringSerializer =>
  }

  /** No serializer writes a NUL unless its configuration or the string value
      holds one. */
  lemma RenderedHasNoNul(s: Serializer, kind: ContextType, v: Value)
    requires s.Accepts(v)
    requires s.IntSerializer? ==> '\0' !in s.prefix
    requires v.StrV? ==> '\0' !in v.s
    ensures '\0' !in s.Rendered(kind, v)
  {
  }
}
