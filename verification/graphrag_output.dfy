/**
 * `clean_graphrag_output` (utils/common.py): colour codes and `[Data: …]`
 * citations are removed, the text is stripped, and every newline–whitespace–
 * newline run becomes a blank line. Each `re.sub` is a left-to-right scan
 * that replaces non-overlapping matches; a matcher reports the length of the
 * match starting at the front of the remaining text, 0 for none.
 */
module GraphRagOutput {
  import opened Wrappers
  import opened Text

  /** Every matcher is applied to a suffix and never reaches past its end. */
  ghost predicate Bounded(m: string -> nat)
  {
    forall t :: m(t) <= |t|
  }

  /** `re.sub(pattern, repl, s)` for a pattern that matches no empty text. */
  function Scan(t: string, m: string -> nat, repl: string): string
    requires Bounded(m)
    decreases |t|
  {
    if t == [] then []
    else if m(t) > 0 then repl + Scan(t[m(t)..], m, repl)
    else [t[0]] + Scan(t[1..], m, repl)
  }

  /** A prefix where no match starts is copied unchanged. */
  lemma {:induction false} ScanUnmatched(a: string, b: string, m: string -> nat, repl: string)
    requires Bounded(m)
    requires forall k :: 0 <= k < |a| ==> m(a[k..] + b) == 0
    ensures Scan(a + b, m, repl) == a + Scan(b, m, repl)
    decreases |a|
  {
    if a == [] {
      assert a + b == b;
    } else {
      assert a[0..] == a;
      ScanCopiesHead(a, b, m, repl);
      UnmatchedTail(a, b, m);
      ScanUnmatched(a[1..], b, m, repl);
      ConsAssoc(a, Scan(b, m, repl));
    }
  }

  /** Without a match at the front, the first character is copied. */
  lemma ScanCopiesHead(a: string, b: string, m: string -> nat, repl: string)
    requires Bounded(m) && a != [] && m(a + b) == 0
    ensures Scan(a + b, m, repl) == [a[0]] + Scan(a[1..] + b, m, repl)
  {
    assert (a + b)[1..] == a[1..] + b;
  }

  lemma ConsAssoc(a: string, rest: string)
    requires a != []
    ensures [a[0]] + (a[1..] + rest) == a + rest
  {
    assert a == [a[0]] + a[1..];
  }

  lemma UnmatchedTail(a: string, b: string, m: string -> nat)
    requires a != [] && forall k :: 0 <= k < |a| ==> m(a[k..] + b) == 0
    ensures forall k :: 0 <= k < |a[1..]| ==> m(a[1..][k..] + b) == 0
  {
    forall k | 0 <= k < |a[1..]|
      ensures m(a[1..][k..] + b) == 0
    {
      assert a[1..][k..] == a[k + 1..];
    }
  }

  /** A match at the front is replaced and the scan resumes after it. */
  lemma ScanMatched(code: string, b: string, m: string -> nat, repl: string)
    requires Bounded(m)
    requires code != [] && m(code + b) == |code|
    ensures Scan(code + b, m, repl) == repl + Scan(b, m, repl)
  {
    assert (code + b)[|code|..] == b;
  }

  lemma Regroup(a: string, x: string, y: string, z: string, b: string)
    ensures a + x + y + z + b == a + (x + y + z + b)
  {
  }

  /** When no match starts anywhere in `s`, the scan copies it. */
  lemma ScanUnmatchedAll(s: string, m: string -> nat, repl: string)
    requires Bounded(m)
    requires forall k :: 0 <= k < |s| ==> m(s[k..]) == 0
    ensures Scan(s, m, repl) == s
  {
    forall k | 0 <= k < |s|
      ensures m(s[k..] + []) == 0
    {
      assert s[k..] + [] == s[k..];
    }
    ScanUnmatched(s, [], m, repl);
    assert s + [] == s;
  }

  // ---------------------------------------------------------------- colour codes

  const Esc: char := '\U{001B}'

  predicate CodeChar(c: char)
  {
    IsDigit(c) || c == ';'
  }

  /** The length of the run of digits and `;` at the front of `t`. */
  function CodeRun(t: string): (n: nat)
    ensures n <= |t|
    ensures forall k :: 0 <= k < n ==> CodeChar(t[k])
    ensures n == |t| || !CodeChar(t[n])
  {
    if t != [] && CodeChar(t[0]) then 1 + CodeRun(t[1..]) else 0
  }

  /** The length of `[0-9;]*m` at index `i` of `t`, 0 when no `m` ends the run. */
  function CodeTail(t: string, i: nat): (n: nat)
    requires i <= |t|
    ensures i + n <= |t|
    ensures n > 0 ==> t[i + n - 1] == 'm'
  {
    var run := CodeRun(t[i..]);
    if i + run < |t| && t[i + run] == 'm' then run + 1 else 0
  }

  /** `\x1B\[[0-9;]*m|\[[0-9;]*m` at the front of `t`. */
  function ColourCode(t: string): (n: nat)
    ensures n <= |t|
    ensures n > 0 ==> t[0] == Esc || t[0] == '['
  {
    if |t| >= 2 && t[0] == Esc && t[1] == '[' && CodeTail(t, 2) > 0 then 2 + CodeTail(t, 2)
    else if |t| >= 1 && t[0] == '[' && CodeTail(t, 1) > 0 then 1 + CodeTail(t, 1)
    else 0
  }

  function StripColours(s: string): string
  {
    Scan(s, ColourCode, "")
  }

  lemma {:induction false} CodeRunOf(digits: string, rest: string)
    requires forall k :: 0 <= k < |digits| ==> CodeChar(digits[k])
    requires rest != [] && !CodeChar(rest[0])
    ensures CodeRun(digits + rest) == |digits|
    decreases |digits|
  {
    if digits == [] {
      assert digits + rest == rest;
    } else {
      assert (digits + rest)[0] == digits[0];
      assert (digits + rest)[1..] == digits[1..] + rest;
      CodeRunOf(digits[1..], rest);
    }
  }

  lemma CodeTailOf(t: string, i: nat, digits: string, b: string)
    requires i <= |t| && t[i..] == digits + "m" + b
    requires forall k :: 0 <= k < |digits| ==> CodeChar(digits[k])
    ensures CodeTail(t, i) == |digits| + 1
  {
    assert digits + "m" + b == digits + ("m" + b);
    CodeRunOf(digits, "m" + b);
    assert t[i + |digits|] == t[i..][|digits|] == 'm';
  }

  /** A colour code at the front of the text is matched exactly. */
  lemma ColourCodeAt(escaped: bool, digits: string, b: string)
    requires forall k :: 0 <= k < |digits| ==> CodeChar(digits[k])
    ensures var code := (if escaped then [Esc] else []) + "[" + digits + "m";
      ColourCode(code + b) == |code|
  {
    var code := (if escaped then [Esc] else []) + "[" + digits + "m";
    var t := code + b;
    if escaped {
      assert t[0] == Esc && t[1] == '[';
      assert t[2..] == digits + "m" + b;
      CodeTailOf(t, 2, digits, b);
    } else {
      assert t[0] == '[';
      assert t[1..] == digits + "m" + b;
      CodeTailOf(t, 1, digits, b);
    }
  }

  /** Text free of `[` and escape characters, followed by a colour code, keeps only the text. */
  lemma ColourCodeRemoved(a: string, escaped: bool, digits: string, b: string)
    requires '[' !in a && Esc !in a
    requires forall k :: 0 <= k < |digits| ==> CodeChar(digits[k])
    ensures var code := (if escaped then [Esc] else []) + "[" + digits + "m";
      StripColours(a + code + b) == a + StripColours(b)
  {
    var code := (if escaped then [Esc] else []) + "[" + digits + "m";
    forall k | 0 <= k < |a|
      ensures ColourCode(a[k..] + (code + b)) == 0
    {
      assert (a[k..] + (code + b))[0] == a[k];
      assert a[k] in a;
    }
    ScanUnmatched(a, code + b, ColourCode, "");
    ColourCodeAt(escaped, digits, b);
    ScanMatched(code, b, ColourCode, "");
    calc {
      StripColours(a + code + b);
      { assert a + code + b == a + (code + b); }
      Scan(a + (code + b), ColourCode, "");
      a + Scan(code + b, ColourCode, "");
      { assert "" + Scan(b, ColourCode, "") == Scan(b, ColourCode, ""); }
      a + StripColours(b);
    }
  }

  // ---------------------------------------------------------------- citations

  const DataTag: string := "[Data: "

  /** The position of the first `]` in `t` at or after `k`, if any. */
  function CloseFrom(t: string, k: nat): (r: Option<nat>)
    ensures r.Some? ==> k <= r.value < |t| && t[r.value] == ']'
    ensures r.Some? ==> forall j :: k <= j < r.value ==> t[j] != ']'
    ensures r.None? ==> forall j :: k <= j < |t| ==> t[j] != ']'
    decreases |t| - k
  {
    if k >= |t| then None
    else if t[k] == ']' then Some(k)
    else CloseFrom(t, k + 1)
  }

  /** `\[Data: [^\]]+\]` at the front of `t`. */
  function Citation(t: string): (n: nat)
    ensures n <= |t|
    ensures n > 0 ==> t[0] == '['
  {
    if |t| >= |DataTag| && t[..|DataTag|] == DataTag then
      match CloseFrom(t, |DataTag|)
      case Some(j) => if j > |DataTag| then j + 1 else 0
      case None => 0
    else 0
  }

  function StripCitations(s: string): string
  {
    Scan(s, Citation, "")
  }

  /** The first `]` after the tag closes a citation whose body has none. */
  lemma CitationAt(body: string, b: string)
    requires body != [] && ']' !in body
    ensures Citation(DataTag + body + "]" + b) == |DataTag| + |body| + 1
  {
    var t := DataTag + body + "]" + b;
    var n := |DataTag|;
    assert t[..n] == DataTag;
    forall j | n <= j < n + |body|
      ensures t[j] != ']'
    {
      assert t[j] == body[j - n];
      assert body[j - n] in body;
    }
    assert t[n + |body|] == ']';
    var r := CloseFrom(t, n);
    if r.None? {
      assert false;
    } else {
      assert r.value == n + |body|;
    }
  }

  /** Text free of `[`, followed by a citation with a non-empty body, keeps only the text. */
  lemma CitationRemoved(a: string, body: string, b: string)
    requires '[' !in a
    requires body != [] && ']' !in body
    ensures StripCitations(a + DataTag + body + "]" + b) == a + StripCitations(b)
  {
    var cite := DataTag + body + "]";
    forall k | 0 <= k < |a|
      ensures Citation(a[k..] + (cite + b)) == 0
    {
      assert (a[k..] + (cite + b))[0] == a[k];
      assert a[k] in a;
    }
    ScanUnmatched(a, cite + b, Citation, "");
    CitationAt(body, b);
    assert cite + b == DataTag + body + "]" + b;
    ScanMatched(cite, b, Citation, "");
    calc {
      StripCitations(a + DataTag + body + "]" + b);
      { Regroup(a, DataTag, body, "]", b); }
      Scan(a + (cite + b), Citation, "");
      a + Scan(cite + b, Citation, "");
      { assert "" + Scan(b, Citation, "") == Scan(b, Citation, ""); }
      a + StripCitations(b);
    }
  }

  // ---------------------------------------------------------------- blank lines

  /** The length of the run of whitespace at the front of `t`. */
  function SpaceRun(t: string): (n: nat)
    ensures n <= |t|
    ensures forall k :: 0 <= k < n ==> IsSpace(t[k])
    ensures n == |t| || !IsSpace(t[n])
  {
    if t != [] && IsSpace(t[0]) then 1 + SpaceRun(t[1..]) else 0
  }

  /** The last newline of `t` before index `hi`, if any. */
  function LastNewline(t: string, hi: nat): (r: Option<nat>)
    requires hi <= |t|
    ensures r.Some? ==> r.value < hi && t[r.value] == '\n'
    ensures r.Some? ==> forall j :: r.value < j < hi ==> t[j] != '\n'
    ensures r.None? ==> forall j :: 0 <= j < hi ==> t[j] != '\n'
  {
    if hi == 0 then None
    else if t[hi - 1] == '\n' then Some(hi - 1)
    else LastNewline(t, hi - 1)
  }

  /**
   * `\n\s*\n` at the front of `t`: the greedy `\s*` backs off to the last
   * newline of the whitespace run that follows the first newline.
   */
  function BlankLines(t: string): (n: nat)
    ensures n <= |t|
    ensures n > 0 ==> n >= 2 && t[0] == '\n' && t[n - 1] == '\n'
    ensures forall k :: 0 <= k < n ==> IsSpace(t[k])
  {
    if t != [] && t[0] == '\n' then
      var w := SpaceRun(t[1..]);
      match LastNewline(t[1..], w)
      case Some(k) =>
        assert forall j :: 1 <= j < k + 2 ==> t[j] == t[1..][j - 1];
        k + 2
      case None => 0
    else 0
  }

  function CollapseBlankLines(s: string): string
  {
    Scan(s, BlankLines, "\n\n")
  }

  lemma {:induction false} SpaceRunOf(w: string, b: string)
    requires AllSpace(w)
    requires b == [] || !IsSpace(b[0])
    ensures SpaceRun(w + b) == |w|
    decreases |w|
  {
    if w == [] {
      assert w + b == b;
    } else {
      assert (w + b)[0] == w[0];
      assert (w + b)[1..] == w[1..] + b;
      SpaceRunOf(w[1..], b);
    }
  }

  /** The whole whitespace run between two newlines is matched. */
  lemma BlankLinesAt(w: string, b: string)
    requires AllSpace(w)
    requires b == [] || !IsSpace(b[0])
    ensures BlankLines("\n" + w + "\n" + b) == |w| + 2
  {
    var t := "\n" + w + "\n" + b;
    assert t[0] == '\n';
    assert t[1..] == (w + "\n") + b;
    assert AllSpace(w + "\n") by {
      forall i | 0 <= i < |w + "\n"|
        ensures IsSpace((w + "\n")[i])
      {
        if i < |w| {
          assert (w + "\n")[i] == w[i];
        }
      }
    }
    SpaceRunOf(w + "\n", b);
    assert t[1..][|w|] == '\n';
    var r := LastNewline(t[1..], |w| + 1);
    assert r == Some(|w|);
  }

  /** A newline, whitespace and a newline ending the run become exactly one blank line. */
  lemma BlankLinesCollapsed(a: string, w: string, b: string)
    requires '\n' !in a && AllSpace(w)
    requires b == [] || !IsSpace(b[0])
    ensures CollapseBlankLines(a + "\n" + w + "\n" + b) == a + "\n\n" + CollapseBlankLines(b)
  {
    var run := "\n" + w + "\n";
    UnmatchedBeforeNewline(a, run + b);
    ScanUnmatched(a, run + b, BlankLines, "\n\n");
    BlankLinesAt(w, b);
    assert run + b == "\n" + w + "\n" + b;
    ScanMatched(run, b, BlankLines, "\n\n");
    Regroup(a, "\n", w, "\n", b);
  }

  /** No blank-line match starts inside a text without a newline. */
  lemma UnmatchedBeforeNewline(a: string, rest: string)
    requires '\n' !in a
    ensures forall k :: 0 <= k < |a| ==> BlankLines(a[k..] + rest) == 0
  {
    forall k | 0 <= k < |a|
      ensures BlankLines(a[k..] + rest) == 0
    {
      assert (a[k..] + rest)[0] == a[k];
      assert a[k] in a;
    }
  }

  /** Collapsing keeps a first character that is not a newline. */
  lemma CollapseKeepsFirst(s: string)
    requires s != [] && s[0] != '\n'
    ensures CollapseBlankLines(s) != [] && CollapseBlankLines(s)[0] == s[0]
  {
    assert BlankLines(s) == 0;
  }

  /** Collapsing keeps a last character that is not whitespace: matches consist of whitespace only. */
  lemma {:induction false} CollapseKeepsLast(s: string)
    requires s != [] && !IsSpace(s[|s| - 1])
    ensures CollapseBlankLines(s) != [] && CollapseBlankLines(s)[|CollapseBlankLines(s)| - 1] == s[|s| - 1]
    decreases |s|
  {
    var n := BlankLines(s);
    if n > 0 {
      assert n < |s|;
      assert CollapseBlankLines(s) == "\n\n" + CollapseBlankLines(s[n..]);
      assert s[n..][|s[n..]| - 1] == s[|s| - 1];
      CollapseKeepsLast(s[n..]);
    } else if |s| == 1 {
      assert CollapseBlankLines(s) == [s[0]] + CollapseBlankLines(s[1..]);
      assert s[1..] == [];
    } else {
      assert CollapseBlankLines(s) == [s[0]] + CollapseBlankLines(s[1..]);
      assert s[1..][|s[1..]| - 1] == s[|s| - 1];
      CollapseKeepsLast(s[1..]);
    }
  }

  /**
   * `clean_graphrag_output(raw_text)`: colour codes and citations removed,
   * surrounding whitespace stripped, blank-line runs collapsed.
   */
  function CleanOutput(raw: string): (r: string)
    ensures Stripped(r)
    ensures r == [] <==> AllSpace(StripCitations(StripColours(raw)))
  {
    var text := Strip(StripCitations(StripColours(raw)));
    if text == [] then []
    else
      CollapseKeepsFirst(text);
      CollapseKeepsLast(text);
      CollapseBlankLines(text)
  }

  /** Plain text — no brackets, escapes, newlines or padding — comes back unchanged. */
  lemma CleanPlainText(s: string)
    requires '[' !in s && Esc !in s && '\n' !in s && Stripped(s)
    ensures CleanOutput(s) == s
  {
    forall k | 0 <= k < |s|
      ensures ColourCode(s[k..]) == 0 && Citation(s[k..]) == 0 && BlankLines(s[k..]) == 0
    {
      assert s[k..][0] == s[k];
      assert s[k] in s;
    }
    ScanUnmatchedAll(s, ColourCode, "");
    ScanUnmatchedAll(s, Citation, "");
    StripStripped(s);
    ScanUnmatchedAll(s, BlankLines, "\n\n");
  }
}
