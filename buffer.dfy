/** The char buffer the serializers write into: what a write of a text at a cursor
    does to its contents, the std::copy and std::fill loops that perform such
    writes, and the read-back of a NUL-terminated text that the tests compare. */
module Buffer {

  /** The buffer b after the chars of s are written over it from index at. */
  function Splice(b: seq<char>, at: nat, s: string): (r: seq<char>)
    requires at + |s| <= |b|
    ensures |r| == |b|
    ensures r[at..at + |s|] == s
    ensures forall k :: 0 <= k < |b| && !(at <= k < at + |s|) ==> r[k] == b[k]
  {
    b[..at] + s + b[at + |s|..]
  }

  /** Writing x and then y right after it is writing x + y. */
  lemma SpliceConcat(b: seq<char>, at: nat, x: string, y: string)
    requires at + |x| + |y| <= |b|
    ensures Splice(Splice(b, at, x), at + |x|, y) == Splice(b, at, x + y)
  {
  }

  /** std::copy of the chars of s to the output position at: returns the
      position one past the last char written. */
  method Copy(s: string, buf: array<char>, at: nat) returns (it: nat)
    requires at + |s| <= buf.Length
    modifies buf
    ensures it == at + |s|
    ensures buf[..] == Splice(old(buf[..]), at, s)
  {
    var i := 0;
    while i < |s|
      invariant 0 <= i <= |s|
      invariant forall k :: 0 <= k < buf.Length && !(at <= k < at + i) ==> buf[k] == old(buf[k])
      invariant forall k :: 0 <= k < i ==> buf[at + k] == s[k]
    {
      buf[at + i] := s[i];
      i := i + 1;
    }
    it := at + i;
    var spliced := Splice(old(buf[..]), at, s);
    forall k | 0 <= k < buf.Length
      ensures buf[..][k] == spliced[k]
    {
      if at <= k < at + |s| {
        assert spliced[k] == spliced[at..at + |s|][k - at];
        assert buf[at + (k - at)] == s[k - at];
      }
    }
  }

  /** std::fill of the whole buffer with c. */
  method Fill(buf: array<char>, c: char)
    modifies buf
    ensures forall k :: 0 <= k < buf.Length ==> buf[k] == c
  {
    var i := 0;
    while i < buf.Length
      invariant 0 <= i <= buf.Length
      invariant forall k :: 0 <= k < i ==> buf[k] == c
    {
      buf[i] := c;
      i := i + 1;
    }
  }

  /** The text a std::string_view built from the buffer's data pointer sees:
      the chars before the first NUL.  When the buffer holds no NUL the source
      reads past its end (undefined behaviour); returning the whole buffer is
      this model's choice for that case. */
  function CString(b: seq<char>): (s: string)
    ensures |s| <= |b| && s == b[..|s|]
    ensures '\0' !in s
    ensures |s| < |b| ==> b[|s|] == '\0'
  {
    if |b| == 0 || b[0] == '\0' then [] else [b[0]] + CString(b[1..])
  }

  /** A NUL-free text followed by a NUL reads back as exactly that text. */
  lemma {:induction false} CStringOfPrefix(s: string, rest: seq<char>)
    requires '\0' !in s
    requires 0 < |rest| && rest[0] == '\0'
    ensures CString(s + rest) == s
  {
    if |s| > 0 {
      assert (s + rest)[1..] == s[1..] + rest;
      CStringOfPrefix(s[1..], rest);
    } else {
      assert s + rest == rest;
    }
  }

  /** Writing a NUL-free text at the start of a buffer whose cell just past it
      holds NUL: reading the buffer as a C string yields exactly that text. */
  lemma CStringOfSplice(b: seq<char>, s: string)
    requires |s| < |b| && '\0' !in s && b[|s|] == '\0'
    ensures CString(Splice(b, 0, s)) == s
  {
  }
}
