/** The message escaping both booking handlers apply before splicing a message into
    the `parent.postMessage({... message:"<msg>"})` script of their reply page. */
module IframeReply {
  import opened Text

  /** Longest escaped message the newer handler keeps. */
  const MaxEscapedMessage: nat := 800

  /** `s.replace(/c/g, rep)` for a single character `c`. */
  function ReplaceChar(s: string, c: char, rep: string): string
  {
    if s == [] then [] else (if s[0] == c then rep else [s[0]]) + ReplaceChar(s[1..], c, rep)
  }

  /** The three replacements in the order both handlers chain them: backslashes doubled,
      then double quotes prefixed with a backslash, then line feeds turned into spaces.
      Together they escape one character at a time, so a message only ever grows, and at
      most doubles. */
  function Escape(s: string): (r: string)
    ensures r == EscapeChars(s)
    ensures |s| <= |r| <= 2 * |s|
  {
    ChainIsCharwise(s);
    ReplaceChar(ReplaceChar(ReplaceChar(s, '\\', "\\\\"), '"', "\\\""), '\n', " ")
  }

  /** What one input character becomes in the escaped message. */
  function EscapeChar(c: char): string
  {
    if c == '\\' then "\\\\"
    else if c == '"' then "\\\""
    else if c == '\n' then " "
    else [c]
  }

  /** Escaping one character at a time: the reference definition `Escape` is shown equal to. */
  function EscapeChars(s: string): (r: string)
    ensures |s| <= |r| <= 2 * |s|
  {
    if s == [] then [] else EscapeChar(s[0]) + EscapeChars(s[1..])
  }

  lemma {:induction false} ReplaceCharAppend(a: string, b: string, c: char, rep: string)
    ensures ReplaceChar(a + b, c, rep) == ReplaceChar(a, c, rep) + ReplaceChar(b, c, rep)
    decreases |a|
  {
    if a != [] {
      assert (a + b)[0] == a[0] && (a + b)[1..] == a[1..] + b;
      ReplaceCharAppend(a[1..], b, c, rep);
      var h := if a[0] == c then rep else [a[0]];
      assert ReplaceChar(a + b, c, rep) == h + (ReplaceChar(a[1..], c, rep) + ReplaceChar(b, c, rep));
    } else {
      assert a + b == b;
    }
  }

  /** The three chained passes act character by character: no pass rewrites what an
      earlier pass produced except in the intended way. */
  lemma {:induction false} ChainIsCharwise(s: string)
    ensures ReplaceChar(ReplaceChar(ReplaceChar(s, '\\', "\\\\"), '"', "\\\""), '\n', " ") == EscapeChars(s)
    decreases |s|
  {
    if s != [] {
      var x := [s[0]];
      var t := s[1..];
      assert s == x + t;
      ReplaceCharAppend(x, t, '\\', "\\\\");
      var a1 := ReplaceChar(x, '\\', "\\\\");
      var b1 := ReplaceChar(t, '\\', "\\\\");
      ReplaceCharAppend(a1, b1, '"', "\\\"");
      var a2 := ReplaceChar(a1, '"', "\\\"");
      var b2 := ReplaceChar(b1, '"', "\\\"");
      ReplaceCharAppend(a2, b2, '\n', " ");
      ChainIsCharwise(t);
      assert ReplaceChar(a2, '\n', " ") == EscapeChar(s[0]);
    }
  }

  /** A JavaScript double-quoted string body whose only escapes are `\\` and `\"`,
      with no bare quote, backslash, line feed or carriage return. */
  predicate LiteralBody(s: string)
  {
    if s == [] then true
    else if s[0] == '\\' then |s| >= 2 && (s[1] == '\\' || s[1] == '"') && LiteralBody(s[2..])
    else s[0] != '"' && s[0] != '\n' && s[0] != '\r' && LiteralBody(s[1..])
  }

  /** The string value JavaScript reads from a literal body. */
  function Unescape(s: string): string
  {
    if s == [] then []
    else if s[0] == '\\' && |s| >= 2 then [s[1]] + Unescape(s[2..])
    else [s[0]] + Unescape(s[1..])
  }

  /** `s` with every line feed replaced by a space. */
  function LineFeedsAsSpaces(s: string): (r: string)
    ensures |r| == |s|
    ensures forall i | 0 <= i < |s| :: r[i] == (if s[i] == '\n' then ' ' else s[i])
  {
    if s == [] then [] else [if s[0] == '\n' then ' ' else s[0]] + LineFeedsAsSpaces(s[1..])
  }

  lemma {:induction false} EscapeCharsRoundTrip(s: string)
    ensures Unescape(EscapeChars(s)) == LineFeedsAsSpaces(s)
    ensures (forall i | 0 <= i < |s| :: s[i] != '\r') ==> LiteralBody(EscapeChars(s))
    decreases |s|
  {
    if s != [] {
      EscapeCharsRoundTrip(s[1..]);
      var e := EscapeChars(s);
      var rest := EscapeChars(s[1..]);
      if s[0] == '\\' || s[0] == '"' {
        assert e[2..] == rest;
      } else {
        assert e[1..] == rest;
      }
    }
  }

  /** Reading the escaped message back as a JavaScript string gives the original message
      with its line feeds turned into spaces; a message without carriage returns always
      yields a well-formed literal. */
  lemma EscapeRoundTrip(s: string)
    ensures Unescape(Escape(s)) == LineFeedsAsSpaces(s)
    ensures (forall i | 0 <= i < |s| :: s[i] != '\r') ==> LiteralBody(Escape(s))
  {
    EscapeCharsRoundTrip(s);
  }

  /** The newer handler's message: escaped, then cut to `MaxEscapedMessage` characters.
      Whenever nothing is cut, it reads back as the original message. */
  function CappedMessage(s: string): (r: string)
    ensures |r| <= MaxEscapedMessage
    ensures |r| <= |Escape(s)| && r == Escape(s)[..|r|]
    ensures |Escape(s)| <= MaxEscapedMessage ==> Unescape(r) == LineFeedsAsSpaces(s)
    ensures 2 * |s| <= MaxEscapedMessage ==> r == Escape(s)
  {
    EscapeRoundTrip(s);
    Take(Escape(s), MaxEscapedMessage)
  }

  lemma {:induction false} EscapeOfPlain(s: string)
    requires forall i | 0 <= i < |s| :: s[i] != '\\' && s[i] != '"' && s[i] != '\n'
    ensures Escape(s) == s
    decreases |s|
  {
    if s != [] {
      EscapeOfPlain(s[1..]);
    }
  }

  lemma {:induction false} LoneTrailingBackslash(p: string)
    requires forall i | 0 <= i < |p| :: p[i] != '\\'
    ensures !LiteralBody(p + ['\\'])
    decreases |p|
  {
    if p != [] {
      assert (p + ['\\'])[1..] == p[1..] + ['\\'];
      LoneTrailingBackslash(p[1..]);
    }
  }

  /** The cut at 800 characters can split an escape pair: 799 letters followed by a
      double quote escape to 801 characters, and the kept 800 end in a lone backslash,
      which is not a well-formed string body. */
  lemma CapCanSplitEscape()
    ensures var s := seq(MaxEscapedMessage - 1, _ => 'a') + ['"'];
            !LiteralBody(CappedMessage(s))
  {
    var a := seq(MaxEscapedMessage - 1, _ => 'a');
    var s := a + ['"'];
    EscapeOfPlain(a);
    assert Escape(s) == a + ['\\', '"'] by {
      EscapeCharsAppend(a, ['"']);
    }
    assert CappedMessage(s) == a + ['\\'];
    LoneTrailingBackslash(a);
  }

  lemma {:induction false} EscapeCharsAppend(a: string, b: string)
    ensures EscapeChars(a + b) == EscapeChars(a) + EscapeChars(b)
    decreases |a|
  {
    if a != [] {
      assert (a + b)[0] == a[0] && (a + b)[1..] == a[1..] + b;
      EscapeCharsAppend(a[1..], b);
      assert EscapeChars(a + b) == EscapeChar(a[0]) + (EscapeChars(a[1..]) + EscapeChars(b));
    } else {
      assert a + b == b;
    }
  }
}
