/** The two pieces of Python string handling the orchestrator relies on:
    `str.strip()` with no argument, and `sep.join(lines)`. */
module Text {

  /** Python's `str.isspace` on one character: the characters `str.strip()`
      removes when it is given no argument. */
  predicate IsSpace(c: char): (b: bool)
    ensures c == ' ' || c == '\t' || c == '\n' || c == '\r' ==> b
    ensures ('0' <= c <= '9') || ('A' <= c <= 'Z') || ('a' <= c <= 'z') || c == '_' || c == '-' ==> !b
  {
    ('\t' <= c <= '\r') || ('\U{1C}' <= c <= '\U{1F}') || c == ' '
    || c == '\U{85}' || c == '\U{A0}' || c == '\U{1680}'
    || ('\U{2000}' <= c <= '\U{200A}') || c == '\U{2028}' || c == '\U{2029}'
    || c == '\U{202F}' || c == '\U{205F}' || c == '\U{3000}'
  }

  predicate AllSpace(s: string) {
    forall i :: 0 <= i < |s| ==> IsSpace(s[i])
  }

  /** Neither the first nor the last character is whitespace. */
  predicate Trimmed(s: string) {
    s == [] || (!IsSpace(s[0]) && !IsSpace(s[|s| - 1]))
  }

  /** `s` is `core` with only whitespace before and after it. */
  predicate Padded(s: string, core: string) {
    exists i :: 0 <= i <= |s| - |core| && s[i..i + |core|] == core
                && AllSpace(s[..i]) && AllSpace(s[i + |core|..])
  }

  /** Drops the leading whitespace: what is left is a suffix of `s` that does not
      start with whitespace, and everything dropped was whitespace. */
  function TrimStart(s: string): (r: string)
    ensures |r| <= |s| && r == s[|s| - |r|..]
    ensures AllSpace(s[..|s| - |r|])
    ensures r == [] || !IsSpace(r[0])
  {
    if s != [] && IsSpace(s[0]) then
      var r := TrimStart(s[1..]);
      assert s[..|s| - |r|] == [s[0]] + s[1..][..|s| - 1 - |r|];
      r
    else
      s
  }

  /** Drops the trailing whitespace: what is left is a prefix of `s` that does not
      end with whitespace, and everything dropped was whitespace. */
  function TrimEnd(s: string): (r: string)
    ensures |r| <= |s| && r == s[..|r|]
    ensures AllSpace(s[|r|..])
    ensures r == [] || !IsSpace(r[|r| - 1])
  {
    if s != [] && IsSpace(s[|s| - 1]) then
      var r := TrimEnd(s[..|s| - 1]);
      assert r == s[..|s| - 1][..|r|] == s[..|r|];
      assert s[|r|..] == s[..|s| - 1][|r|..] + [s[|s| - 1]];
      r
    else
      s
  }

  /** Python's `s.strip()`: the result has no surrounding whitespace, and `s` is the
      result with whitespace only around it. */
  function Strip(s: string): (r: string)
    ensures Trimmed(r)
    ensures Padded(s, r)
  {
    var t := TrimStart(s);
    var r := TrimEnd(t);
    TrimBothEnds(s, t, r);
    r
  }

  /** Trimming the start and then the end leaves a trimmed core of `s` with only
      whitespace around it. */
  lemma TrimBothEnds(s: string, t: string, r: string)
    requires t == TrimStart(s) && r == TrimEnd(t)
    ensures Trimmed(r) && Padded(s, r)
  {
    var i := |s| - |t|;
    assert t == s[i..];
    assert r == t[..|r|];
    assert s[i..i + |r|] == s[i..][..|r|];
    assert s[i + |r|..] == s[i..][|r|..];
    assert AllSpace(s[..i]) && AllSpace(s[i + |r|..]);
    assert r != [] ==> r[0] == t[0];
  }

  lemma {:induction false} TrimStartPadded(pre: string, rest: string)
    requires AllSpace(pre)
    requires rest == [] || !IsSpace(rest[0])
    ensures TrimStart(pre + rest) == rest
    decreases |pre|
  {
    if pre != [] {
      assert (pre + rest)[1..] == pre[1..] + rest;
      TrimStartPadded(pre[1..], rest);
    }
  }

  lemma {:induction false} TrimEndPadded(rest: string, post: string)
    requires AllSpace(post)
    requires rest == [] || !IsSpace(rest[|rest| - 1])
    ensures TrimEnd(rest + post) == rest
    decreases |post|
  {
    if post != [] {
      assert (rest + post)[..|rest + post| - 1] == rest + post[..|post| - 1];
      TrimEndPadded(rest, post[..|post| - 1]);
    }
  }

  /** A string that has no surrounding whitespace is what `strip()` returns for it
      with any whitespace put around it. */
  lemma StripPadded(pre: string, core: string, post: string)
    requires AllSpace(pre) && AllSpace(post) && Trimmed(core)
    ensures Strip(pre + core + post) == core
  {
    if core == [] {
      assert pre + core + post == pre + post;
      assert AllSpace(pre + post);
      TrimStartPadded(pre + post, []);
      assert pre + post == (pre + post) + [];
    } else {
      assert pre + core + post == pre + (core + post);
      TrimStartPadded(pre, core + post);
      TrimEndPadded(core, post);
    }
  }

  /** `strip()` returns exactly `core` if and only if the input is `core` with only
      whitespace around it and `core` itself has none at its ends. */
  lemma StripIff(s: string, core: string)
    ensures Strip(s) == core <==> Trimmed(core) && Padded(s, core)
  {
    if Trimmed(core) && Padded(s, core) {
      StripOfPadded(s, core);
    }
  }

  lemma StripOfPadded(s: string, core: string)
    requires Trimmed(core) && Padded(s, core)
    ensures Strip(s) == core
  {
    var i :| 0 <= i <= |s| - |core| && s[i..i + |core|] == core
             && AllSpace(s[..i]) && AllSpace(s[i + |core|..]);
    var pre, post := s[..i], s[i + |core|..];
    assert s == pre + core + post by {
      assert s == s[..i] + s[i..i + |core|] + s[i + |core|..];
    }
    StripPadded(pre, core, post);
  }

  /** `sep.join(lines)`. */
  function Join(lines: seq<string>, sep: string): (r: string)
    ensures lines == [] ==> r == ""
    ensures lines != [] ==> |lines[0]| <= |r| && r[..|lines[0]|] == lines[0]
    ensures |lines| > 1 ==> |lines[0]| + |sep| <= |r| && r[|lines[0]|..|lines[0]| + |sep|] == sep
  {
    if |lines| == 0 then ""
    else if |lines| == 1 then lines[0]
    else lines[0] + sep + Join(lines[1..], sep)
  }

  /** Joining one more line adds the separator and that line at the end. */
  lemma {:induction false} JoinSnoc(lines: seq<string>, line: string, sep: string)
    requires lines != []
    ensures Join(lines + [line], sep) == Join(lines, sep) + sep + line
    decreases |lines|
  {
    if |lines| > 1 {
      assert (lines + [line])[1..] == lines[1..] + [line];
      JoinSnoc(lines[1..], line, sep);
    } else {
      assert lines + [line] == [lines[0], line];
    }
  }
}
