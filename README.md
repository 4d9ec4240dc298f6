# Serial: a verified model of the serialization dispatcher

This project models the `serial` library: a dispatcher that serializes a list of
arguments, strictly left to right, into an output context. Each argument is
first promoted to a (value, serializer) pair. A bare value gets the
default-constructed `Serializer<T>` of its type. A `SerialArg` that already
names a serializer passes through unchanged. The serializer writes its text at
the context's cursor and returns the position just past it. The dispatcher then
commits that position with `AdvanceTo`. `SerializeInto` runs the dispatcher on
a fresh `BasicOutputContext` and returns the final cursor.

The serializers themselves come from the test suite:

- `Serializer<int>` writes a prefix (default `"INT "`) and then the decimal digits.
  In a `MyTestContext` it first writes `"CUSTOM CONTEXT: "`.
- `Serializer<std::string>` copies the string verbatim.

Modules:

- `Decimal` (decimal.dfy): `std::to_string` of an `int`, with a parser that reads it back.
- `Buffer` (buffer.dfy): what writing a text at a cursor does to the char buffer (`Splice`).
  It also holds the `std::copy` and `std::fill` loops, and the read-back of a NUL-terminated text.
- `Context` (context.dfy): the `BasicOutputContext` class with its one mutable cursor.
- `TestSerializers` (test_serializers.dfy): the two serializers, the text each one writes,
  and the type-directed default (`DefaultFor`).
- `Serial` (serial.dfy): `SerialArg`, promotion, the `Serialize` loop, `SerializeInto`
  and the concatenation law.
- `SerializerTests` (serializer_tests.dfy): the four test scenarios. `TestBasicOutputContext` only
  moves a context over a two-cell array and proves the positions it reports. The three `Serialize`
  and `SerializeInto` scenarios run the model on a zero-filled 256-char buffer and prove the
  expected cursor positions and texts.

The cursor is a `nat` index into one `array<char>`. What the dispatcher writes
is specified by the pure function `Serial.Output`: the concatenation of the
texts of the arguments, in order. `Serialize` is proved to leave the cursor at
`start + |Output|`. It is also proved to leave the buffer equal to the old buffer
with `Output` written from `start`, and every other cell unchanged.

`AdvanceTo` accepts any position, including one before the current cursor,
and so does the model. The dispatcher itself only moves the cursor forward, by
the length of what was written.

## Model

| member | source | states |
|---|---|---|
| Context.BasicOutputContext.constructor | include/Serial/Serializer.hpp:148-149 | a context can only be built from an explicit starting position, which it then holds |
| Context.BasicOutputContext.Output | include/Serial/Serializer.hpp:151 | returns the current cursor and changes nothing |
| Context.BasicOutputContext.AdvanceTo | include/Serial/Serializer.hpp:152 | sets the cursor to the given position and returns that position; only the cursor changes |
| Serial.MakeSerialArg | include/Serial/Serializer.hpp:42-45 | the pair holds exactly the given value and serializer |
| Serial.ForwardAsSerialArg | include/Serial/Serializer.hpp:58-62 | the pair holds exactly the given value and serializer |
| Serial.PromoteToSerialArg | include/Serial/Serializer.hpp:84-92 | an explicit SerialArg is returned unchanged; a bare value is paired with the default serializer of its type |
| Serial.DefaultResolution | include/Serial/Serializer.hpp:89-90 | a bare value writes exactly what it writes when explicitly paired with its type's default-constructed serializer |
| Serial.OverridePrecedence | include/Serial/Serializer.hpp:87-88 | an explicitly paired serializer is the one whose text is written, whatever the type's default |
| Serial.OutputConcat | include/Serial/Serializer.hpp:134-135 | the text of the argument list a + b is the text of a followed by the text of b |
| Serial.SerializeOne | include/Serial/Serializer.hpp:129-132 | one argument: the cursor ends exactly where the serializer's returned position says, and the buffer holds the argument's text from the old cursor on, all else unchanged |
| Serial.Serialize | include/Serial/Serializer.hpp:126-139 | any number of arguments, left to right: the cursor advances by the length of the concatenated texts, and the buffer holds them from the old cursor on, all else unchanged; with no arguments nothing changes |
| Serial.SerializeInto | include/Serial/Serializer.hpp:173-178 | returns the start plus the length of the concatenated texts, so it returns the start when there are no arguments; the buffer holds the texts from the start |
| Serial.ConsecutiveCallsMatchOneCall | include/Serial/Serializer.hpp:134-135 | Serialize with a and then with b on one context leaves the cursor at the old cursor plus the length of the text of a + b, and the buffer holding that text from the old cursor on, all else unchanged: exactly the state one Serialize with a + b is specified to leave |
| Serial.DefaultIntOutput | tests/Serial/test_serializer.cpp:27-40 | a bare int in a basic context is written as "INT " followed by a decimal text that reads back as the int |
| TestSerializers.DefaultFor | tests/Serial/test_serializer.cpp:25-67 | the default serializer of each value type accepts that type; for int it is the int serializer with prefix "INT " |
| TestSerializers.Serializer.Serialize | tests/Serial/test_serializer.cpp:25-67 | writes the serializer's text for the value at the context's cursor, returns the position one past it, and leaves the context and all other cells untouched |
| TestSerializers.Serializer.Rendered | tests/Serial/test_serializer.cpp:32-39 | the string serializer's text is the string itself; the int serializer's text starts with the header (MyTestContext only) and the prefix, and the rest is a well-formed decimal text |
| TestSerializers.SerializeInt | tests/Serial/test_serializer.cpp:29-41 | builds the header (MyTestContext only), prefix and digits and copies them to the cursor; returns the position one past the last char written |
| TestSerializers.SerializeString | tests/Serial/test_serializer.cpp:62-66 | copies the string verbatim to the cursor and returns the cursor advanced by its length |
| TestSerializers.IntRenderedReadsBack | tests/Serial/test_serializer.cpp:32-40 | an int serializer's text is the header (MyTestContext only) and the prefix, then a decimal text that parses back to the value |
| TestSerializers.ContextTypeEffect | tests/Serial/test_serializer.cpp:34-36 | in a MyTestContext the int serializer writes "CUSTOM CONTEXT: " before what it writes in a basic context; the string serializer writes the same in both |
| TestSerializers.RenderedHasNoNul | tests/Serial/test_serializer.cpp:38-40 | no serializer writes a NUL unless its prefix or string value holds one |
| Decimal.ToString | tests/Serial/test_serializer.cpp:39 | std::to_string of an int is a well-formed decimal text, starts with '-' exactly when the int is negative, and holds no NUL |
| Decimal.Digits | tests/Serial/test_serializer.cpp:39 | the decimal digits of a natural number: at least one digit, a single one exactly below 10, and a leading '0' only for zero |
| Decimal.DigitsRoundTrip | tests/Serial/test_serializer.cpp:39 | the digits read back as the number they were made from |
| Decimal.ToStringRoundTrip | tests/Serial/test_serializer.cpp:39 | std::to_string of an int is a well-formed decimal text that parses back to the int |
| Decimal.ToStringInjective | tests/Serial/test_serializer.cpp:39 | different ints are rendered as different texts |
| Buffer.Splice | tests/Serial/test_serializer.cpp:40 | writing a text at a position leaves the buffer's length, puts the text at that position, and keeps every other cell |
| Buffer.SpliceConcat | include/Serial/Serializer.hpp:135 | writing x and then y right after it is the same as writing x + y |
| Buffer.Copy | tests/Serial/test_serializer.cpp:40 | std::copy writes the text at the position and returns the position one past its last char |
| Buffer.Fill | tests/Serial/test_serializer.cpp:82 | std::fill sets every cell of the buffer to the given char |
| Buffer.CString | tests/Serial/test_serializer.cpp:97 | the view of the buffer's data is the NUL-free prefix of the buffer that stops at the first NUL |
| Buffer.CStringOfPrefix | tests/Serial/test_serializer.cpp:97 | a NUL-free text followed by a NUL reads back as exactly that text |
| Buffer.CStringOfSplice | tests/Serial/test_serializer.cpp:82-97 | a NUL-free text written at the start of a buffer whose next cell is NUL reads back as exactly that text |
| SerializerTests.TestBasicOutputContext | tests/Serial/test_serializer.cpp:71-78 | a context built at the beginning reports it; AdvanceTo(end) returns end, and the context then reports end |
| SerializerTests.TestSerialize | tests/Serial/test_serializer.cpp:80-112 | no arguments leave the cursor at the beginning; 1, 2, "FOO" write "INT 1INT 2FOO" and leave the cursor 13 on; after a refill and a rewind, 1 with a "FOO " serializer writes "FOO 1" and leaves the cursor 5 on |
| SerializerTests.TestSerializeCustomContext | tests/Serial/test_serializer.cpp:114-134 | in a MyTestContext, 1, 2, "FOO" write "CUSTOM CONTEXT: INT 1CUSTOM CONTEXT: INT 2FOO" and leave the cursor 45 on |
| SerializerTests.TestSerializeInto | tests/Serial/test_serializer.cpp:136-168 | SerializeInto with no arguments returns the beginning; with 1, 2, "FOO" it returns the beginning plus 13 and writes "INT 1INT 2FOO"; with 2 and a "FOO " serializer it writes "FOO 2" and returns the beginning plus 5 |

## Left out

- `Serializer<double>` is not modelled, because it relies on floating-point formatting (`std::to_string(double)`). The scenarios keep the int and string arguments and drop `3.`, so their expected texts and positions lack `"DBL 3.000000"`.
- The compile-time machinery (`IsSerialArg`, `std::decay_t`, `if constexpr`, the undefined primary `Serializer<T>`) becomes the `Arg` datatype tag and the total `DefaultFor` function. A value paired with a serializer that cannot take it is a C++ build error, so it is excluded by the `requires AllCompile(args)` precondition rather than modelled as a runtime error.
- `MakeSerialArg` and `ForwardAsSerialArg` differ in the source only in storing copies or references (`T&&`, `std::forward`). In the model both build the same value.
- PromoteToSerialArg: the model pairs each bare value with a live default serializer. The source does not: at include/Serial/Serializer.hpp:90 it passes a temporary `Serializer<DecayedType>{}` to `ForwardAsSerialArg`, whose result keeps only a reference to it (lines 59-61). The temporary is destroyed at the end of that return statement, so the `Serialize` call at lines 130-132 runs on a destroyed serializer (for `Serializer<int>`, a destroyed `m_prefix`). That is undefined behaviour, which the model does not reproduce.
- Buffer.CString: reading a buffer that holds no NUL as a C string reads past the buffer's end in the source (undefined behaviour); the model returns the whole buffer there. Every scenario proves a NUL right after its text, so none reaches this case.
- A Dafny `char` stands for one C++ `char` (a byte): the length of a `std::string` is its byte count. Texts with chars above 255 have no counterpart in the source.
- The generic output iterator and the generic context type are not modelled generically. The cursor is an index into one `array<char>`. The context type the int serializer tests at compile time is the `ContextType` tag the context carries, because the model cannot express inheritance.
- Writing past the end of the buffer is undefined behaviour in the source (no bounds check). Enough capacity is a precondition of every writing method.
- No serializer in the model fails, so the propagation of a serializer's failure is not modelled.
- The test framework's assertion macros and `EXPECT_NO_THROW` wrappers are not modelled. Each scenario instead returns the positions and texts the suite compares, and its postcondition states the expected values.
- The `std::string` that `Serializer<int>` builds is a value in the model; allocation is not modelled.
