/**
 * ConstructException: an exception whose message lives in a fixed
 * 1024-byte buffer, so that building or copying it never allocates.
 * The buffer holds "ConstructException: " followed by as much of the
 * caller's C string as fits, and is always NUL-terminated.
 */
module ConstructExceptionModel {
  import opened Wrappers

  const MaxMsgSize: nat := 1024           // kMaxExceptionMsgSize
  const Prefix: seq<char> := "ConstructException: "
  /** The length strncpy is given: what is left after the prefix, less one for the terminator. */
  const CopyLimit: nat := MaxMsgSize - |Prefix| - 1

  /** The C string stored at the start of buf: everything before the first NUL. */
  function CString(buf: seq<char>): (s: seq<char>)
    ensures s <= buf && '\0' !in s
    ensures |s| < |buf| ==> buf[|s|] == '\0'
  {
    if buf == [] || buf[0] == '\0' then [] else [buf[0]] + CString(buf[1..])
  }

  /** A NUL-free string followed by a NUL (or by nothing) is read back whole. */
  lemma {:induction false} CStringOf(a: seq<char>, b: seq<char>)
    requires '\0' !in a && (b == [] || b[0] == '\0')
    ensures CString(a + b) == a
  {
    if a != [] {
      assert (a + b)[1..] == a[1..] + b;
      CStringOf(a[1..], b);
    }
  }

  function Take(s: seq<char>, n: nat): (r: seq<char>)
    ensures r <= s && |r| == if |s| <= n then |s| else n
  {
    if |s| <= n then s else s[..n]
  }

  function Nuls(n: nat): (r: seq<char>)
    ensures |r| == n && forall i :: 0 <= i < n ==> r[i] == '\0'
  {
    seq(n, _ => '\0')
  }

  /** The n bytes strncpy writes: src up to its terminator, at most n of them, then NUL padding. */
  function StrNCopied(src: seq<char>, n: nat): (r: seq<char>)
    ensures |r| == n
  {
    var body := Take(CString(src), n);
    body + Nuls(n - |body|)
  }

  /** The text a null message pointer contributes: none. */
  function Text(msg: Option<seq<char>>): seq<char>
  {
    if msg.Some? then msg.value else []
  }

  /** The whole buffer after construction from msg. */
  function Layout(msg: Option<seq<char>>): (buf: seq<char>)
    ensures |buf| == MaxMsgSize && buf[MaxMsgSize - 1] == '\0'
  {
    Prefix + StrNCopied(Text(msg), CopyLimit) + ['\0']
  }

  /** What what() promises for a message built from msg. */
  function ExpectedWhat(msg: Option<seq<char>>): seq<char>
  {
    Prefix + Take(CString(Text(msg)), CopyLimit)
  }

  /** The buffer laid out by the constructor reads back as the expected message. */
  lemma {:induction false} LayoutWhat(msg: Option<seq<char>>)
    ensures CString(Layout(msg)) == ExpectedWhat(msg)
  {
    var body := Take(CString(Text(msg)), CopyLimit);
    var rest := Nuls(CopyLimit - |body|) + ['\0'];
    assert Layout(msg) == (Prefix + body) + rest;
    assert '\0' !in Prefix;
    CStringOf(Prefix + body, rest);
  }

  /** what() always starts with the prefix, fits the buffer, and is just the prefix for a null message. */
  lemma {:induction false} ExpectedWhatShape(msg: Option<seq<char>>)
    ensures Prefix <= ExpectedWhat(msg) && |ExpectedWhat(msg)| < MaxMsgSize
    ensures msg.None? ==> ExpectedWhat(msg) == Prefix
    ensures msg.Some? && '\0' !in msg.value && |msg.value| <= CopyLimit ==> ExpectedWhat(msg) == Prefix + msg.value
    ensures msg.Some? && '\0' !in msg.value && |msg.value| > CopyLimit ==> ExpectedWhat(msg) == Prefix + msg.value[..CopyLimit]
  {
    if msg.Some? && '\0' !in msg.value {
      CStringOf(msg.value, []);
      assert msg.value + [] == msg.value;
    }
  }

  /**
   * strncpy(dest + at, src, n): copies src up to its terminator, at most n
   * bytes, and fills the rest of the n bytes with NUL.
   */
  method StrNCopy(dest: array<char>, at: nat, src: seq<char>, n: nat)
    requires at + n <= dest.Length
    modifies dest
    ensures dest[..at] == old(dest[..at]) && dest[at + n..] == old(dest[at + n..])
    ensures dest[at..at + n] == StrNCopied(src, n)
  {
    ghost var copied := Take(CString(src), n);
    var i := 0;
    while i < n && i < |src| && src[i] != '\0'
      invariant i <= |copied| && dest[at..at + i] == copied[..i]
      invariant dest[..at] == old(dest[..at]) && dest[at + n..] == old(dest[at + n..])
    {
      dest[at + i] := src[i];
      i := i + 1;
    }
    assert i == |copied|;
    while i < n
      invariant |copied| <= i <= n && dest[at..at + i] == copied + Nuls(i - |copied|)
      invariant dest[..at] == old(dest[..at]) && dest[at + n..] == old(dest[at + n..])
    {
      dest[at + i] := '\0';
      i := i + 1;
    }
  }

  /** strcpy of the prefix into a zeroed buffer, terminator included. */
  method CopyPrefix(buf: array<char>)
    requires buf.Length == MaxMsgSize && buf[..] == Nuls(MaxMsgSize)
    modifies buf
    ensures buf[..] == Prefix + Nuls(MaxMsgSize - |Prefix|)
  {
    for i := 0 to |Prefix|
      invariant buf[..i] == Prefix[..i] && buf[i..] == Nuls(MaxMsgSize - i)
    {
      buf[i] := Prefix[i];
    }
    buf[|Prefix|] := '\0';
  }

  /** The constructor's writes after the memset: the prefix, then the message when there is one. */
  method FillMessage(buf: array<char>, msg: Option<seq<char>>)
    requires buf.Length == MaxMsgSize && buf[..] == Nuls(MaxMsgSize)
    modifies buf
    ensures buf[..] == Layout(msg)
  {
    CopyPrefix(buf);
    ghost var n := |Prefix| + CopyLimit;
    if msg.Some? {
      StrNCopy(buf, |Prefix|, msg.value, CopyLimit);
      assert buf[..] == buf[..|Prefix|] + buf[|Prefix|..n] + buf[n..];
    } else {
      assert StrNCopied([], CopyLimit) == Nuls(CopyLimit);
      assert Nuls(MaxMsgSize - |Prefix|) == Nuls(CopyLimit) + ['\0'];
    }
  }

  class ConstructException {
    const msgBuf: array<char>   // msg_

    /** The buffer has its fixed size and its last byte is always the terminator. */
    ghost predicate Valid()
      reads msgBuf
    {
      msgBuf.Length == MaxMsgSize && msgBuf[MaxMsgSize - 1] == '\0'
    }

    /** ConstructException(const char* msg): a null msg is None. */
    constructor (msg: Option<seq<char>>)
      ensures Valid() && fresh(msgBuf)
      ensures msgBuf[..] == Layout(msg)
      ensures What() == ExpectedWhat(msg)
    {
      var buf := new char[MaxMsgSize](_ => '\0');   // memset
      FillMessage(buf, msg);
      msgBuf := buf;
      LayoutWhat(msg);
    }

    /** The copy constructor: memcpy of the whole buffer. */
    constructor Copy(e: ConstructException)
      requires e.Valid()
      ensures Valid() && fresh(msgBuf)
      ensures msgBuf[..] == e.msgBuf[..] && What() == e.What()
    {
      var buf := new char[MaxMsgSize];
      for i := 0 to MaxMsgSize
        invariant buf[..i] == e.msgBuf[..i]
      {
        buf[i] := e.msgBuf[i];
      }
      msgBuf := buf;
    }

    /** what(): the message as a C string, which the terminator keeps inside the buffer. */
    function What(): (s: seq<char>)
      reads msgBuf
      requires Valid()
      ensures s <= msgBuf[..] && '\0' !in s && |s| < MaxMsgSize
      ensures msgBuf[|s|] == '\0'
    {
      CString(msgBuf[..])
    }
  }
}
