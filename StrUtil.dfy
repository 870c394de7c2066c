/**
 * StrUtil: whitespace trimming, lower-casing, and the URI path and host
 * helpers built on them.
 *
 * Character classes are those of the "C" locale that the program runs in:
 * isspace accepts space, tab, newline, vertical tab, form feed and carriage
 * return, and tolower maps only 'A'..'Z'.
 */
module StrUtil {

  /** isspace in the "C" locale. */
  predicate IsSpace(c: char)
  {
    c == ' ' || c == '\t' || c == '\n' || c == '\U{000B}' || c == '\U{000C}' || c == '\r'
  }

  /** isupper in the "C" locale. */
  predicate IsUpper(c: char)
  {
    'A' <= c <= 'Z'
  }

  /** tolower in the "C" locale. */
  function LowerChar(c: char): (d: char)
    ensures !IsUpper(d)
    ensures IsSpace(d) <==> IsSpace(c)
    ensures !IsUpper(c) ==> d == c
  {
    if IsUpper(c) then (c as int + 32) as char else c
  }

  /** boost::to_lower_copy: every character through tolower. */
  function Lower(s: string): (r: string)
  {
    seq(|s|, i requires 0 <= i < |s| => LowerChar(s[i]))
  }

  /** s without its leading whitespace. */
  function TrimLeft(s: string): (r: string)
    ensures |r| <= |s|
    ensures r == [] || !IsSpace(r[0])
  {
    if s != [] && IsSpace(s[0]) then TrimLeft(s[1..]) else s
  }

  /** s without its trailing whitespace. */
  function TrimRight(s: string): (r: string)
    ensures |r| <= |s|
    ensures r == [] || !IsSpace(r[|r| - 1])
  {
    if s != [] && IsSpace(s[|s| - 1]) then TrimRight(s[..|s| - 1]) else s
  }

  /** TrimLeft drops a prefix made only of whitespace. */
  lemma {:induction false} TrimLeftSuffix(s: string)
    ensures TrimLeft(s) == s[|s| - |TrimLeft(s)|..]
    ensures forall k :: 0 <= k < |s| - |TrimLeft(s)| ==> IsSpace(s[k])
  {
    if s != [] && IsSpace(s[0]) {
      TrimLeftSuffix(s[1..]);
      forall k | 0 <= k < |s| - |TrimLeft(s)|
        ensures IsSpace(s[k])
      {
        if k > 0 {
          assert s[k] == s[1..][k - 1];
        }
      }
    }
  }

  /** TrimRight drops a suffix made only of whitespace. */
  lemma {:induction false} TrimRightPrefix(s: string)
    ensures TrimRight(s) == s[..|TrimRight(s)|]
    ensures forall k :: |TrimRight(s)| <= k < |s| ==> IsSpace(s[k])
  {
    if s != [] && IsSpace(s[|s| - 1]) {
      TrimRightPrefix(s[..|s| - 1]);
      forall k | |TrimRight(s)| <= k < |s|
        ensures IsSpace(s[k])
      {
        if k < |s| - 1 {
          assert s[k] == s[..|s| - 1][k];
        }
      }
    }
  }

  /** boost::algorithm::trim_copy, and what trim_whitespace leaves: both ends stripped. */
  function Trim(s: string): (r: string)
    ensures |r| <= |s|
    ensures r == [] || (!IsSpace(r[0]) && !IsSpace(r[|r| - 1]))
  {
    var t := TrimLeft(s);
    TrimRightPrefix(t);
    TrimRight(t)
  }

  /**
   * Trim(s) is the contiguous run of s that starts after a whitespace prefix
   * and ends before a whitespace suffix.
   */
  lemma {:induction false} TrimInfix(s: string)
    ensures var i := |s| - |TrimLeft(s)|;
      && i + |Trim(s)| <= |s|
      && Trim(s) == s[i..i + |Trim(s)|]
      && (forall k :: 0 <= k < i ==> IsSpace(s[k]))
      && (forall k :: i + |Trim(s)| <= k < |s| ==> IsSpace(s[k]))
  {
    var t := TrimLeft(s);
    var i := |s| - |t|;
    var r := TrimRight(t);
    TrimLeftSuffix(s);
    TrimRightPrefix(t);
    assert r == Trim(s);
    assert s[i..i + |r|] == t[..|r|];
    forall k | i + |r| <= k < |s|
      ensures IsSpace(s[k])
    {
      assert s[k] == t[k - i];
    }
  }

  /** A string without whitespace at either end is its own trim. */
  lemma {:induction false} TrimOfTrimmed(s: string)
    requires s == [] || (!IsSpace(s[0]) && !IsSpace(s[|s| - 1]))
    ensures Trim(s) == s
  {
  }

  /** Trimming twice trims nothing more, so a second trim_whitespace removes 0 characters. */
  lemma {:induction false} TrimIdempotent(s: string)
    ensures Trim(Trim(s)) == Trim(s)
  {
    TrimOfTrimmed(Trim(s));
  }

  /** trim_whitespace: trims str in place and returns how many characters went. */
  method TrimWhitespace(str: string) returns (trimmed: string, removed: nat)
    ensures trimmed == Trim(str)
    ensures removed == |str| - |trimmed|
  {
    var s := EraseLeadingSpace(str);
    s := EraseTrailingSpace(s);
    trimmed := s;
    removed := |str| - |s|;
  }

  /** trim_whitespace's first loop: count the leading whitespace, then erase it. */
  method EraseLeadingSpace(s: string) returns (r: string)
    ensures r == TrimLeft(s)
  {
    var index := 0;
    while index < |s| && IsSpace(s[index])
      invariant 0 <= index <= |s|
      invariant TrimLeft(s[index..]) == TrimLeft(s)
    {
      assert s[index..][1..] == s[index + 1..];
      index := index + 1;
    }
    r := s[index..];
  }

  /** trim_whitespace's second loop: count the trailing whitespace back from the end, then erase it. */
  method EraseTrailingSpace(s: string) returns (r: string)
    ensures r == TrimRight(s)
  {
    var index := |s|;
    assert s[..index] == s;
    while index > 0 && IsSpace(s[index - 1])
      invariant 0 <= index <= |s|
      invariant TrimRight(s[..index]) == TrimRight(s)
    {
      assert s[..index][..index - 1] == s[..index - 1];
      index := index - 1;
    }
    r := s[..index];
  }

  /** Lower-casing never touches whitespace, so it commutes with trimming the left end. */
  lemma {:induction false} LowerTrimLeft(s: string)
    ensures TrimLeft(Lower(s)) == Lower(TrimLeft(s))
  {
    if s != [] {
      assert Lower(s)[1..] == Lower(s[1..]);
      if IsSpace(s[0]) {
        LowerTrimLeft(s[1..]);
      }
    }
  }

  /** Lower-casing commutes with trimming the right end. */
  lemma {:induction false} LowerTrimRight(s: string)
    ensures TrimRight(Lower(s)) == Lower(TrimRight(s))
  {
    if s != [] {
      assert Lower(s)[..|s| - 1] == Lower(s[..|s| - 1]);
      if IsSpace(s[|s| - 1]) {
        LowerTrimRight(s[..|s| - 1]);
      }
    }
  }

  /**
   * trim_lowcase: trim of the lower-cased copy; the same as lower-casing the
   * trimmed string, with no upper-case letter and no whitespace at either end.
   */
  function TrimLowcase(str: string): (r: string)
    ensures r == Lower(Trim(str))
    ensures forall i :: 0 <= i < |r| ==> !IsUpper(r[i])
    ensures r == [] || (!IsSpace(r[0]) && !IsSpace(r[|r| - 1]))
  {
    LowerTrimLeft(str);
    LowerTrimRight(TrimLeft(str));
    Trim(Lower(str))
  }

  /** pure_uri_path's loop as a definition: drop trailing '/' while more than one character is left. */
  function StripTrailingSlashes(t: string): (r: string)
    ensures |r| <= |t| && r == t[..|r|]
    ensures t != [] ==> r != []
    ensures r == [] || r == "/" || r[|r| - 1] != '/'
  {
    if |t| > 1 && t[|t| - 1] == '/' then StripTrailingSlashes(t[..|t| - 1]) else t
  }

  /** Only '/' characters are dropped. */
  lemma {:induction false} StripOnlySlashes(t: string)
    ensures forall k :: |StripTrailingSlashes(t)| <= k < |t| ==> t[k] == '/'
  {
    if |t| > 1 && t[|t| - 1] == '/' {
      StripOnlySlashes(t[..|t| - 1]);
      forall k | |StripTrailingSlashes(t)| <= k < |t|
        ensures t[k] == '/'
      {
        if k < |t| - 1 {
          assert t[k] == t[..|t| - 1][k];
        }
      }
    }
  }

  /**
   * pure_uri_path: lower-case, trim, then drop trailing '/' while the path is
   * longer than one character. The loop condition reads the last character
   * before it looks at the length, so the trimmed path must not be empty.
   */
  method PureUriPath(uri: string) returns (path: string)
    requires TrimLowcase(uri) != []
    ensures path == StripTrailingSlashes(TrimLowcase(uri))
    ensures path != [] && (path == "/" || path[|path| - 1] != '/')
  {
    var u := TrimLowcase(uri);
    while u[|u| - 1] == '/' && |u| > 1
      invariant u != []
      invariant StripTrailingSlashes(u) == StripTrailingSlashes(TrimLowcase(uri))
    {
      u := u[..|u| - 1];
    }
    path := u;
  }

  /** std::string::find of one character: the first position holding c, or |s| when there is none. */
  function FindChar(s: string, c: char): (pos: nat)
    ensures pos <= |s|
    ensures pos < |s| ==> s[pos] == c
    ensures forall k :: 0 <= k < pos ==> s[k] != c
  {
    if s == [] then 0
    else if s[0] == c then 0
    else 1 + FindChar(s[1..], c)
  }

  /**
   * drop_host_port: the lower-cased, trimmed host cut before its first ':';
   * without a ':' it is trim_lowcase of the host.
   */
  function DropHostPort(host: string): (r: string)
    ensures ':' !in r
    ensures r <= TrimLowcase(host)
    ensures ':' !in TrimLowcase(host) ==> r == TrimLowcase(host)
    ensures |r| < |TrimLowcase(host)| ==> TrimLowcase(host)[|r|] == ':'
  {
    var t := TrimLowcase(host);
    var pos := FindChar(t, ':');
    if pos < |t| then t[..pos] else t
  }
}
