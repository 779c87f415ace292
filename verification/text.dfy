/** String helpers shared by the handlers and the browser scripts: JavaScript's
    whitespace class, `trim`, `replace(/\s+/g, " ")`, `slice(0, n)`, `includes`,
    `endsWith`, `toLowerCase`, number-to-string and `Array.prototype.join`. */
module Text {

  /** The characters JavaScript's `\s` and `String.prototype.trim` treat as white space
      (WhiteSpace and LineTerminator of ECMAScript). */
  predicate IsWhitespace(c: char)
  {
    || c == ' ' || c == '\t' || c == '\n' || c == '\r'
    || c == '\U{000B}' || c == '\U{000C}' || c == '\U{00A0}' || c == '\U{1680}'
    || ('\U{2000}' <= c <= '\U{200A}')
    || c == '\U{2028}' || c == '\U{2029}' || c == '\U{202F}' || c == '\U{205F}'
    || c == '\U{3000}' || c == '\U{FEFF}'
  }

  predicate AllWhitespace(s: string)
  {
    forall i | 0 <= i < |s| :: IsWhitespace(s[i])
  }

  /** No two neighbouring characters are both white space. */
  predicate NoDoubleWhitespace(s: string)
  {
    forall i | 0 <= i && i + 1 < |s| :: !IsWhitespace(s[i]) || !IsWhitespace(s[i + 1])
  }

  /** Where the run of white space that starts at index `i` of `s` ends. */
  function WhiteFrom(s: string, i: nat): (n: nat)
    requires i <= |s|
    decreases |s| - i
    ensures i <= n <= |s| && (n == |s| || !IsWhitespace(s[n]))
    ensures forall k | i <= k < n :: IsWhitespace(s[k])
  {
    if i < |s| && IsWhitespace(s[i]) then WhiteFrom(s, i + 1) else i
  }

  /** Where the run of white space that ends just before index `j` of `s` starts. */
  function WhiteUntil(s: string, j: nat): (n: nat)
    requires j <= |s|
    ensures n <= j && (n == 0 || !IsWhitespace(s[n - 1]))
    ensures forall k | n <= k < j :: IsWhitespace(s[k])
  {
    if j > 0 && IsWhitespace(s[j - 1]) then WhiteUntil(s, j - 1) else j
  }

  /** Cutting a string keeps its spacing: no doubled white space appears. */
  lemma PrefixKeepsSpacing(s: string, r: string)
    requires |r| <= |s| && r == s[..|r|] && NoDoubleWhitespace(s)
    ensures NoDoubleWhitespace(r)
  {
    forall i | 0 <= i && i + 1 < |r| ensures !IsWhitespace(r[i]) || !IsWhitespace(r[i + 1]) {
      assert r[i] == s[i] && r[i + 1] == s[i + 1];
    }
  }

  /** `s` with its leading white space removed: the longest all-white prefix is dropped. */
  function TrimStart(s: string): (r: string)
    ensures |r| <= |s| && r == s[|s| - |r|..]
    ensures AllWhitespace(s[..|s| - |r|])
    ensures r == [] || !IsWhitespace(r[0])
  {
    var n := WhiteFrom(s, 0);
    assert AllWhitespace(s[..n]) by {
      forall k | 0 <= k < n ensures IsWhitespace(s[..n][k]) {
        assert s[..n][k] == s[k];
      }
    }
    s[n..]
  }

  /** `s` with its trailing white space removed. */
  function TrimEnd(s: string): (r: string)
    ensures |r| <= |s| && r == s[..|r|]
    ensures AllWhitespace(s[|r|..])
    ensures r == [] || !IsWhitespace(r[|r| - 1])
  {
    var n := WhiteUntil(s, |s|);
    assert AllWhitespace(s[n..]) by {
      forall k | 0 <= k < |s| - n ensures IsWhitespace(s[n..][k]) {
        assert s[n..][k] == s[n + k];
      }
    }
    s[..n]
  }

  /** The three facts `TrimStart` ensures pin its result down: any cut after white space
      and before a visible character is the one it makes. */
  lemma TrimStartIs(s: string, k: nat)
    requires k <= |s| && AllWhitespace(s[..k]) && (k == |s| || !IsWhitespace(s[k]))
    ensures TrimStart(s) == s[k..]
  {
  }

  /** Likewise for `TrimEnd`: a cut after a visible character and before white space only
      is the one it makes. */
  lemma TrimEndIs(s: string, k: nat)
    requires k <= |s| && AllWhitespace(s[k..]) && (k == 0 || !IsWhitespace(s[k - 1]))
    ensures TrimEnd(s) == s[..k]
  {
  }

  /** `trimStart` looks at one character at a time. */
  lemma TrimStartCons(s: string)
    requires s != []
    ensures TrimStart(s) == if IsWhitespace(s[0]) then TrimStart(s[1..]) else s
  {
    if IsWhitespace(s[0]) {
      var u := s[1..];
      var m := |u| - |TrimStart(u)|;
      var p := s[..m + 1];
      assert AllWhitespace(p) by {
        forall j | 0 <= j < m + 1 ensures IsWhitespace(p[j]) {
          if j > 0 {
            assert p[j] == u[..m][j - 1];
          }
        }
      }
      assert m + 1 == |s| || s[m + 1] == TrimStart(u)[0];
      TrimStartIs(s, m + 1);
      assert s[m + 1..] == u[m..];
    } else {
      TrimStartIs(s, 0);
    }
  }

  /** `String.prototype.trim`: `s` is `r` framed by white space, and `r` neither starts
      nor ends with white space. */
  function Trim(s: string): (r: string)
    ensures exists i, j :: 0 <= i <= j <= |s| && r == s[i..j] && AllWhitespace(s[..i]) && AllWhitespace(s[j..])
    ensures r == [] || (!IsWhitespace(r[0]) && !IsWhitespace(r[|r| - 1]))
  {
    var a := TrimStart(s);
    var r := TrimEnd(a);
    var i := |s| - |a|;
    var j := i + |r|;
    TrimFrame(s, a, r);
    TrimEnds(a, r);
    assert 0 <= i <= j <= |s| && r == s[i..j] && AllWhitespace(s[..i]) && AllWhitespace(s[j..]);
    r
  }

  /** Where the two halves of `trim` cut `s`. */
  lemma TrimFrame(s: string, a: string, r: string)
    requires a == TrimStart(s) && r == TrimEnd(a)
    ensures var i := |s| - |a|;
            i + |r| <= |s| && r == s[i..i + |r|] && AllWhitespace(s[..i]) && AllWhitespace(s[i + |r|..])
  {
    var i := |s| - |a|;
    assert a == s[i..];
    assert r == a[..|r|];
    assert s[i + |r|..] == a[|r|..];
  }

  /** The trimmed string starts and ends with a visible character, if it has any. */
  lemma TrimEnds(a: string, r: string)
    requires a == [] || !IsWhitespace(a[0])
    requires r == TrimEnd(a)
    ensures r == [] || (!IsWhitespace(r[0]) && !IsWhitespace(r[|r| - 1]))
  {
    if r != [] {
      assert r[0] == a[0];
    }
  }

  /** Trimming leaves nothing exactly when the string is white space only. */
  lemma TrimAllWhitespace(s: string)
    ensures AllWhitespace(s) <==> Trim(s) == []
  {
    var a := TrimStart(s);
    TrimmedEmpty(s, a, TrimEnd(a));
  }

  /** The two cuts of `trim` meet exactly when no visible character lies between them. */
  lemma TrimmedEmpty(s: string, a: string, r: string)
    requires |a| <= |s| && a == s[|s| - |a|..] && AllWhitespace(s[..|s| - |a|])
    requires a == [] || !IsWhitespace(a[0])
    requires |r| <= |a| && r == a[..|r|] && AllWhitespace(a[|r|..])
    ensures AllWhitespace(s) <==> r == []
  {
    if !AllWhitespace(s) {
      var k :| 0 <= k < |s| && !IsWhitespace(s[k]);
      assert a[k - (|s| - |a|)] == s[k];
    }
  }

  /** `s.replace(/\s+/g, " ")`: every maximal run of white space becomes one space. */
  function Collapse(s: string): (r: string)
    decreases |s|
    ensures |r| <= |s|
    ensures r == [] <==> s == []
    ensures r != [] ==> (IsWhitespace(r[0]) <==> IsWhitespace(s[0]))
    ensures r != [] && !IsWhitespace(s[0]) ==> r[0] == s[0]
    ensures NoDoubleWhitespace(r)
  {
    if s == [] then []
    else if IsWhitespace(s[0]) then
      var rest := TrimStart(s);
      [' '] + Collapse(rest)
    else
      [s[0]] + Collapse(s[1..])
  }

  /** What character `i` of `s` contributes to `s.replace(/\s+/g, " ")`, read left to
      right: a visible character itself, the first character of a white-space run one space,
      and every later character of the run nothing. */
  function RunOutput(s: string, i: nat): string
    requires i < |s|
  {
    if !IsWhitespace(s[i]) then [s[i]]
    else if i > 0 && IsWhitespace(s[i - 1]) then []
    else [' ']
  }

  /** The run-by-run reading of the replacement: the contributions of all positions, in order. */
  function Runwise(s: string): string
    decreases |s|
  {
    if s == [] then [] else Runwise(s[..|s| - 1]) + RunOutput(s, |s| - 1)
  }

  /** Appending one character to a string extends its leading-white-space trim. */
  lemma TrimStartSnoc(s: string, c: char)
    ensures TrimStart(s + [c]) == if TrimStart(s) == [] then TrimStart([c]) else TrimStart(s) + [c]
  {
    if TrimStart(s) == [] {
      TrimStartSnocAfterWhite(s, c);
    } else {
      TrimStartSnocAfterVisible(s, c);
    }
  }

  lemma TrimStartSnocAfterVisible(s: string, c: char)
    requires TrimStart(s) != []
    ensures TrimStart(s + [c]) == TrimStart(s) + [c]
  {
    var t := s + [c];
    var a := TrimStart(s);
    var n := |s| - |a|;
    assert t[..n] == s[..n];
    assert t[n] == a[0];
    TrimStartIs(t, n);
    assert t[n..] == a + [c];
  }

  lemma TrimStartSnocAfterWhite(s: string, c: char)
    requires TrimStart(s) == []
    ensures TrimStart(s + [c]) == TrimStart([c])
  {
    var t := s + [c];
    assert AllWhitespace(s) by {
      assert s[..|s|] == s;
    }
    if IsWhitespace(c) {
      assert AllWhitespace(t[..|t|]) by {
        forall j | 0 <= j < |t| ensures IsWhitespace(t[..|t|][j]) {
          if j < |s| {
            assert t[..|t|][j] == s[j];
          }
        }
      }
      TrimStartIs(t, |t|);
      assert [c][..1] == [c];
      TrimStartIs([c], 1);
    } else {
      assert t[..|s|] == s && t[|s|] == c;
      TrimStartIs(t, |s|);
      assert t[|s|..] == [c];
      TrimStartIs([c], 0);
    }
  }

  /** How collapsing reacts to one more character at the end: a visible one is kept, white
      space after white space adds nothing, and white space after anything else one space. */
  lemma {:induction false} CollapseSnoc(s: string, c: char)
    ensures Collapse(s + [c]) == SnocCollapse(s, c)
    decreases |s|, 1
  {
    if s == [] {
      CollapseSingle(c);
      assert s + [c] == [c];
    } else if IsWhitespace(s[0]) {
      CollapseSnocWhite(s, c);
    } else {
      CollapseSnocVisible(s, c);
    }
  }

  /** The collapse of `s + [c]` described from the collapse of `s`. */
  function SnocCollapse(s: string, c: char): string
  {
    if !IsWhitespace(c) then Collapse(s) + [c]
    else if s != [] && IsWhitespace(s[|s| - 1]) then Collapse(s)
    else Collapse(s) + [' ']
  }

  lemma CollapseSingle(c: char)
    ensures Collapse([c]) == if IsWhitespace(c) then [' '] else [c]
  {
    if IsWhitespace(c) {
      assert TrimStart([c]) == TrimStart([c][1..]);
      assert Collapse([c]) == [' '] + Collapse(TrimStart([c]));
    } else {
      assert Collapse([c]) == [c] + Collapse([c][1..]);
    }
  }

  lemma {:induction false} CollapseSnocWhite(s: string, c: char)
    requires s != [] && IsWhitespace(s[0])
    ensures Collapse(s + [c]) == SnocCollapse(s, c)
    decreases |s|, 0
  {
    var t := s + [c];
    var rest := TrimStart(s);
    assert t[0] == s[0];
    assert Collapse(t) == [' '] + Collapse(TrimStart(t));
    assert Collapse(s) == [' '] + Collapse(rest);
    TrimStartSnoc(s, c);
    if rest == [] {
      CollapseSnocAllWhite(s, c);
    } else {
      assert TrimStart(t) == rest + [c];
      CollapseSnoc(rest, c);
      assert rest[|rest| - 1] == s[|s| - 1];
      SnocCollapseCons([' '], rest, c, s);
    }
  }

  /** A string of white space only, with one more character. */
  lemma {:induction false} CollapseSnocAllWhite(s: string, c: char)
    requires s != [] && IsWhitespace(s[0]) && TrimStart(s) == []
    requires Collapse(s + [c]) == [' '] + Collapse(TrimStart([c]))
    ensures Collapse(s + [c]) == SnocCollapse(s, c)
  {
    assert IsWhitespace(s[|s| - 1]) by {
      assert s[..|s|][|s| - 1] == s[|s| - 1];
    }
    assert Collapse(s) == [' '] by {
      assert Collapse(s) == [' '] + Collapse(TrimStart(s));
    }
    TrimStartCons([c]);
    if IsWhitespace(c) {
      assert [c][1..] == [];
      assert Collapse(s + [c]) == [' '] + Collapse([]);
    } else {
      CollapseSingle(c);
      assert Collapse(s + [c]) == [' '] + [c];
    }
  }

  lemma {:induction false} CollapseSnocVisible(s: string, c: char)
    requires s != [] && !IsWhitespace(s[0])
    ensures Collapse(s + [c]) == SnocCollapse(s, c)
    decreases |s|, 0
  {
    var t := s + [c];
    var a := [s[0]];
    var u := s[1..];
    assert t[0] == s[0] && t[1..] == u + [c];
    assert Collapse(t) == a + Collapse(u + [c]);
    assert Collapse(s) == a + Collapse(u);
    CollapseSnoc(u, c);
    if |s| > 1 {
      assert u[|u| - 1] == s[|s| - 1];
    }
    SnocCollapseCons(a, u, c, s);
  }

  /** Putting a fixed prefix in front of the collapse of the tail distributes over the
      three cases of `SnocCollapse`. */
  lemma {:induction false} SnocCollapseCons(a: string, u: string, c: char, s: string)
    requires Collapse(s) == a + Collapse(u)
    requires s != [] && (u != [] ==> s[|s| - 1] == u[|u| - 1])
    requires u == [] ==> !IsWhitespace(s[|s| - 1])
    ensures a + SnocCollapse(u, c) == SnocCollapse(s, c)
  {
    var cu := Collapse(u);
    if !IsWhitespace(c) {
      assert a + (cu + [c]) == (a + cu) + [c];
    } else if u != [] && IsWhitespace(u[|u| - 1]) {
    } else {
      assert a + (cu + [' ']) == (a + cu) + [' '];
    }
  }

  /** `Collapse` is the run-by-run replacement: every maximal white-space run becomes exactly
      one space and every visible character is kept in place. */
  lemma {:induction false} CollapseIsRunwise(s: string)
    ensures Collapse(s) == Runwise(s)
    decreases |s|
  {
    if s != [] {
      var p := s[..|s| - 1];
      var c := s[|s| - 1];
      assert s == p + [c];
      CollapseIsRunwise(p);
      CollapseSnoc(p, c);
      SnocCollapseRuns(p, c);
    }
  }

  /** One more character adds to the collapse exactly what its position contributes. */
  lemma SnocCollapseRuns(p: string, c: char)
    ensures SnocCollapse(p, c) == Collapse(p) + RunOutput(p + [c], |p|)
  {
    var s := p + [c];
    var x := Collapse(p);
    assert s[|p|] == c;
    if !IsWhitespace(c) {
      assert RunOutput(s, |p|) == [c];
    } else if p != [] && IsWhitespace(p[|p| - 1]) {
      assert s[|p| - 1] == p[|p| - 1];
      assert RunOutput(s, |p|) == [];
      assert x + [] == x;
    } else {
      assert p != [] ==> s[|p| - 1] == p[|p| - 1];
      assert RunOutput(s, |p|) == [' '];
    }
  }

  /** The visible (non-white-space) characters of `s`, in order. */
  function Visible(s: string): string
  {
    if s == [] then []
    else if IsWhitespace(s[0]) then Visible(s[1..])
    else [s[0]] + Visible(s[1..])
  }

  lemma {:induction false} VisibleOfWhitespacePrefix(s: string, k: nat)
    requires k <= |s| && AllWhitespace(s[..k])
    ensures Visible(s) == Visible(s[k..])
    decreases k
  {
    if k > 0 {
      assert s[..k][0] == s[0];
      assert s[1..][..k - 1] == s[..k][1..];
      VisibleOfWhitespacePrefix(s[1..], k - 1);
      assert s[1..][k - 1..] == s[k..];
    }
  }

  lemma {:induction false} VisibleAppend(a: string, b: string)
    ensures Visible(a + b) == Visible(a) + Visible(b)
    decreases |a|
  {
    if a == [] {
      assert a + b == b;
    } else {
      assert (a + b)[0] == a[0];
      assert (a + b)[1..] == a[1..] + b;
      VisibleAppend(a[1..], b);
    }
  }

  lemma {:induction false} VisibleOfAllWhitespace(s: string)
    requires AllWhitespace(s)
    ensures Visible(s) == []
    decreases |s|
  {
    if s != [] {
      VisibleOfAllWhitespace(s[1..]);
    }
  }

  lemma TrimStartKeepsVisible(s: string)
    ensures Visible(TrimStart(s)) == Visible(s)
  {
    var a := TrimStart(s);
    var k := |s| - |a|;
    VisibleOfWhitespacePrefix(s, k);
  }

  lemma TrimEndKeepsVisible(s: string)
    ensures Visible(TrimEnd(s)) == Visible(s)
  {
    var r := TrimEnd(s);
    var t := s[|r|..];
    assert s == r + t;
    VisibleAppend(r, t);
    VisibleOfAllWhitespace(t);
    assert Visible(r) + [] == Visible(r);
  }

  /** Trimming removes white space only. */
  lemma TrimKeepsVisible(s: string)
    ensures Visible(Trim(s)) == Visible(s)
  {
    TrimStartKeepsVisible(s);
    TrimEndKeepsVisible(TrimStart(s));
  }

  /** Cutting a string keeps a prefix of its visible characters. */
  lemma VisiblePrefix(s: string, n: nat)
    requires n <= |s|
    ensures var v := Visible(s[..n]); |v| <= |Visible(s)| && v == Visible(s)[..|v|]
  {
    assert s == s[..n] + s[n..];
    VisibleAppend(s[..n], s[n..]);
  }

  /** Collapsing white space keeps every visible character, in order. */
  lemma {:induction false} CollapseKeepsVisible(s: string)
    ensures Visible(Collapse(s)) == Visible(s)
    decreases |s|
  {
    if s == [] {
    } else if IsWhitespace(s[0]) {
      var rest := TrimStart(s);
      CollapseKeepsVisible(rest);
      VisibleOfWhitespacePrefix(s, |s| - |rest|);
      assert ([' '] + Collapse(rest))[1..] == Collapse(rest);
    } else {
      CollapseKeepsVisible(s[1..]);
      assert ([s[0]] + Collapse(s[1..]))[1..] == Collapse(s[1..]);
    }
  }

  /** A string with no run of white space longer than one space is its own collapse
      when its white space is already plain spaces. */
  lemma {:induction false} CollapseIdempotent(s: string)
    ensures Collapse(Collapse(s)) == Collapse(s)
    decreases |s|
  {
    if s == [] {
    } else if IsWhitespace(s[0]) {
      var rest := TrimStart(s);
      var c := Collapse(rest);
      CollapseIdempotent(rest);
      var r := [' '] + c;
      assert TrimStart(r) == c by {
        assert r[1..] == c;
        assert c == [] || !IsWhitespace(c[0]);
      }
    } else {
      CollapseIdempotent(s[1..]);
      var r := [s[0]] + Collapse(s[1..]);
      assert r[1..] == Collapse(s[1..]);
    }
  }

  /** `s.slice(0, n)`: the first `n` characters, or all of `s` when it is shorter. */
  function Take(s: string, n: nat): (r: string)
    ensures |r| <= n && |r| <= |s|
    ensures r == s[..|r|]
    ensures |r| == if |s| <= n then |s| else n
  {
    if |s| <= n then s else s[..n]
  }

  /** `s.includes(t)`. */
  predicate Contains(s: string, t: string)
  {
    exists i | 0 <= i <= |s| :: OccursAt(s, t, i)
  }

  /** The three parts of a concatenation can be cut back out of it. */
  lemma SplitThree(a: string, b: string, c: string)
    ensures (a + b + c)[..|a|] == a
    ensures (a + b + c)[|a|..|a| + |b|] == b
    ensures (a + b + c)[|a| + |b|..] == c
  {
  }

  /** A string contains anything spliced into it. */
  lemma ContainsSpliced(pre: string, t: string, post: string)
    ensures Contains(pre + t + post, t)
  {
    var s := pre + t + post;
    assert s[|pre|..|pre| + |t|] == t;
    assert OccursAt(s, t, |pre|);
  }

  /** `t` occurs in `s` starting at index `i`. */
  predicate OccursAt(s: string, t: string, i: int)
  {
    0 <= i && i + |t| <= |s| && s[i..i + |t|] == t
  }

  /** `s.endsWith(t)`. */
  predicate EndsWith(s: string, t: string)
  {
    |t| <= |s| && s[|s| - |t|..] == t
  }

  function LowerChar(c: char): char
  {
    if 'A' <= c <= 'Z' then (c as int + 32) as char else c
  }

  /** `s.toLowerCase()` on ASCII letters. */
  function ToLower(s: string): (r: string)
    ensures |r| == |s|
    ensures forall i | 0 <= i < |s| :: r[i] == LowerChar(s[i])
  {
    seq(|s|, i requires 0 <= i < |s| => LowerChar(s[i]))
  }

  /** Lower-casing twice is lower-casing once. */
  lemma ToLowerIdempotent(s: string)
    ensures ToLower(ToLower(s)) == ToLower(s)
  {
    var t := ToLower(s);
    assert forall i | 0 <= i < |t| :: LowerChar(t[i]) == t[i];
  }

  function DigitChar(d: nat): char
    requires d < 10
  {
    ('0' as int + d) as char
  }

  predicate IsDigit(c: char)
  {
    '0' <= c <= '9'
  }

  /** The decimal value of a string of digits. */
  function DigitsValue(s: string): nat
    requires forall i | 0 <= i < |s| :: IsDigit(s[i])
  {
    if s == [] then 0 else DigitsValue(s[..|s| - 1]) * 10 + DigitValue(s[|s| - 1])
  }

  function DigitValue(c: char): nat
    requires IsDigit(c)
  {
    c as int - '0' as int
  }

  /** `String(n)` for a non-negative integer: its shortest decimal spelling. */
  function NatToString(n: nat): (r: string)
    ensures 1 <= |r|
    ensures forall i | 0 <= i < |r| :: IsDigit(r[i])
    ensures n < 10 <==> |r| == 1
    ensures n < 1000 ==> |r| <= 3
    ensures r[0] != '0' || n == 0
  {
    if n < 10 then [DigitChar(n)] else NatToString(n / 10) + [DigitChar(n % 10)]
  }

  /** Reading the decimal spelling back gives the number. */
  lemma {:induction false} NatToStringRoundTrip(n: nat)
    ensures DigitsValue(NatToString(n)) == n
  {
    if n >= 10 {
      NatToStringRoundTrip(n / 10);
      var s := NatToString(n);
      assert s[..|s| - 1] == NatToString(n / 10);
    }
  }

  /** `xs.join(sep)`. */
  function Join(xs: seq<string>, sep: string): (r: string)
    ensures |sep| > 0 ==> (r == [] <==> (|xs| == 0 || (|xs| == 1 && xs[0] == [])))
    ensures forall k | 0 <= k < |xs| :: |xs[k]| <= |r|
  {
    if |xs| == 0 then []
    else if |xs| == 1 then xs[0]
    else xs[0] + sep + Join(xs[1..], sep)
  }
}
