/**
 * Python string and list primitives the services rely on: `str.strip`,
 * `str.split(",")`, `sep.join`, substring tests, ASCII case mapping,
 * `dict.fromkeys` de-duplication and slicing with Python's bounds.
 */
module Text {
  import opened Wrappers

  /** The characters Python's `str.isspace` accepts. */
  predicate IsSpace(c: char)
  {
    c == ' ' || c == '\t' || c == '\n' || c == '\r' || c == '\U{000B}' || c == '\U{000C}'
    || ('\U{001C}' <= c <= '\U{001F}') || c == '\U{0085}' || c == '\U{00A0}'
    || c == '\U{1680}' || ('\U{2000}' <= c <= '\U{200A}') || c == '\U{2028}'
    || c == '\U{2029}' || c == '\U{202F}' || c == '\U{205F}' || c == '\U{3000}'
  }

  predicate AllSpace(s: string)
  {
    forall i :: 0 <= i < |s| ==> IsSpace(s[i])
  }

  /** No leading and no trailing whitespace. */
  predicate Stripped(s: string)
  {
    s == [] || (!IsSpace(s[0]) && !IsSpace(s[|s| - 1]))
  }

  function LStrip(s: string): (r: string)
    ensures |r| <= |s| && r == s[|s| - |r|..]
    ensures r == [] || !IsSpace(r[0])
    ensures AllSpace(s[..|s| - |r|])
  {
    if |s| > 0 && IsSpace(s[0]) then
      var t := s[1..];
      var r := LStrip(t);
      assert t[|t| - |r|..] == s[|s| - |r|..];
      assert s[..|s| - |r|] == [s[0]] + t[..|t| - |r|];
      r
    else s
  }

  function RStrip(s: string): (r: string)
    ensures |r| <= |s| && r == s[..|r|]
    ensures r == [] || !IsSpace(r[|r| - 1])
    ensures AllSpace(s[|r|..])
  {
    if |s| > 0 && IsSpace(s[|s| - 1]) then
      var t := s[..|s| - 1];
      var r := RStrip(t);
      assert t[..|r|] == s[..|r|];
      assert s[|r|..] == t[|r|..] + [s[|s| - 1]];
      r
    else s
  }

  /** Python's `str.strip()`. */
  function Strip(s: string): (r: string)
    ensures Stripped(r)
    ensures |r| <= |s|
  {
    RStrip(LStrip(s))
  }

  /** Stripping leaves nothing exactly when the text is all whitespace. */
  lemma StripEmpty(s: string)
    ensures AllSpace(s) <==> Strip(s) == []
  {
    var l := LStrip(s);
    var r := RStrip(l);
    if r == [] {
      assert AllSpace(l);
      assert s == s[..|s| - |l|] + l;
    }
    assert l != [] ==> l[0] == s[|s| - |l|];
  }

  lemma LStripPadded(p: string, x: string)
    requires AllSpace(p) && (x == [] || !IsSpace(x[0]))
    ensures LStrip(p + x) == x
    decreases |p|
  {
    if p == [] {
      assert p + x == x;
    } else {
      assert (p + x)[1..] == p[1..] + x;
      LStripPadded(p[1..], x);
    }
  }

  /** Stripping a stripped string that carries leading whitespace gives the string back. */
  lemma StripPadded(p: string, x: string)
    requires AllSpace(p) && Stripped(x)
    ensures Strip(p + x) == x
  {
    LStripPadded(p, x);
  }

  /** `strip` is idempotent; a stripped string is its own strip. */
  lemma StripStripped(x: string)
    requires Stripped(x)
    ensures Strip(x) == x
  {
    StripPadded("", x);
    assert "" + x == x;
  }

  /** ASCII case mapping. Python's `lower`/`upper` are Unicode-wide; see README. */
  function LowerChar(c: char): char
  {
    if 'A' <= c <= 'Z' then (c as int + 32) as char else c
  }

  function UpperChar(c: char): char
  {
    if 'a' <= c <= 'z' then (c as int - 32) as char else c
  }

  function Lower(s: string): (r: string)
    ensures |r| == |s|
  {
    seq(|s|, i requires 0 <= i < |s| => LowerChar(s[i]))
  }

  function Upper(s: string): (r: string)
    ensures |r| == |s|
  {
    seq(|s|, i requires 0 <= i < |s| => UpperChar(s[i]))
  }

  predicate IsDigit(c: char)
  {
    '0' <= c <= '9'
  }

  /**
   * `str.isalnum` on the characters this model classifies: ASCII letters and
   * digits, and CJK unified ideographs (which Python counts as alphabetic).
   */
  predicate IsAlnum(c: char)
  {
    ('a' <= c <= 'z') || ('A' <= c <= 'Z') || IsDigit(c) || ('\U{4E00}' <= c <= '\U{9FFF}')
  }

  // ---------------------------------------------------------------- substrings

  predicate OccursAt(s: string, pat: string, i: int)
  {
    0 <= i && i + |pat| <= |s| && s[i..i + |pat|] == pat
  }

  /** The first occurrence of `pat` in `s` at or after `from` (Python's `str.find`). */
  function FindFrom(s: string, pat: string, from: nat): (r: Option<nat>)
    ensures r.Some? ==> from <= r.value && OccursAt(s, pat, r.value)
    ensures r.Some? ==> forall j :: from <= j < r.value ==> !OccursAt(s, pat, j)
    ensures r.None? ==> forall j :: from <= j ==> !OccursAt(s, pat, j)
    decreases |s| - from
  {
    if from + |pat| > |s| then None
    else if s[from..from + |pat|] == pat then Some(from)
    else FindFrom(s, pat, from + 1)
  }

  function Find(s: string, pat: string): Option<nat>
  {
    FindFrom(s, pat, 0)
  }

  /** Python's `pat in s` for strings. */
  predicate Contains(s: string, pat: string)
  {
    Find(s, pat).Some?
  }

  lemma ContainsAt(s: string, pat: string, i: int)
    requires OccursAt(s, pat, i)
    ensures Contains(s, pat)
  {
  }

  /** Python's `s.split(pat, 1)` when `pat in s`: the text before and after the first occurrence. */
  function SplitOnce(s: string, pat: string): (r: (string, string))
    requires Contains(s, pat)
    ensures s == r.0 + pat + r.1
    ensures !Contains(r.0, pat) || |pat| == 0
  {
    var i := Find(s, pat).value;
    assert s == s[..i] + s[i..i + |pat|] + s[i + |pat|..];
    NoEarlierOccurrence(s, pat, i);
    (s[..i], s[i + |pat|..])
  }

  lemma NoEarlierOccurrence(s: string, pat: string, i: nat)
    requires i <= |s|
    requires forall j :: 0 <= j < i ==> !OccursAt(s, pat, j)
    ensures !Contains(s[..i], pat) || |pat| == 0
  {
    if |pat| > 0 && Contains(s[..i], pat) {
      var j := Find(s[..i], pat).value;
      assert s[..i][j..j + |pat|] == s[j..j + |pat|];
      assert OccursAt(s, pat, j);
    }
  }

  /** Python's `s.split(sep)[0]`: the text before the first occurrence of `sep`, or all of `s`. */
  function Before(s: string, sep: string): (r: string)
    ensures Contains(s, sep) ==> s == r + sep + SplitOnce(s, sep).1
    ensures !Contains(s, sep) ==> r == s
    ensures sep != [] ==> !Contains(r, sep)
  {
    if Contains(s, sep) then SplitOnce(s, sep).0 else s
  }

  /** Python's `s.split(sep)[1]` when `sep in s`: the text between the first and the second occurrence. */
  function Second(s: string, sep: string): (r: string)
    requires Contains(s, sep)
    ensures sep != [] ==> !Contains(r, sep)
  {
    Before(SplitOnce(s, sep).1, sep)
  }

  /** A text without the first character of `pat` cannot contain `pat`. */
  lemma NotContainsWithoutHead(s: string, pat: string)
    requires pat != [] && pat[0] !in s
    ensures !Contains(s, pat)
  {
    forall j | 0 <= j
      ensures !OccursAt(s, pat, j)
    {
      if j + |pat| <= |s| {
        assert s[j..j + |pat|][0] == s[j];
      }
    }
  }

  /** When the first character of `pat` is absent from `pre`, the first occurrence of `pat` in `pre + pat + rest` follows `pre`. */
  lemma SplitOnceAfterClean(pre: string, pat: string, rest: string)
    requires pat != [] && pat[0] !in pre
    ensures Contains(pre + pat + rest, pat)
    ensures SplitOnce(pre + pat + rest, pat) == (pre, rest)
  {
    var s := pre + pat + rest;
    assert s[|pre|..|pre| + |pat|] == pat;
    assert OccursAt(s, pat, |pre|);
    var i := Find(s, pat).value;
    assert forall j :: 0 <= j < |pre| ==> s[j] == pre[j];
    assert forall j :: 0 <= j < |pre| ==> !OccursAt(s, pat, j) by {
      forall j | 0 <= j < |pre|
        ensures !OccursAt(s, pat, j)
      {
        if j + |pat| <= |s| {
          assert s[j..j + |pat|][0] == s[j] == pre[j];
        }
      }
    }
    assert i == |pre|;
    assert s[..|pre|] == pre;
    assert s[|pre| + |pat|..] == rest;
  }

  /** Under the same condition, the text before `pat` is exactly `pre`. */
  lemma BeforeAfterClean(pre: string, pat: string, rest: string)
    requires pat != [] && pat[0] !in pre
    ensures Before(pre + pat + rest, pat) == pre
  {
    SplitOnceAfterClean(pre, pat, rest);
  }

  /** Python's `any(k in text for k in keywords)`. */
  predicate AnyOccurs(text: string, keywords: seq<string>)
  {
    exists k :: 0 <= k < |keywords| && Contains(text, keywords[k])
  }

  // ---------------------------------------------------------------- split and join

  /** Python's `sep.join(xs)`. */
  function Join(xs: seq<string>, sep: string): string
  {
    if |xs| == 0 then ""
    else if |xs| == 1 then xs[0]
    else xs[0] + sep + Join(xs[1..], sep)
  }

  function FirstIndexOf(s: string, c: char): (i: nat)
    requires c in s
    ensures i < |s| && s[i] == c && c !in s[..i]
  {
    if s[0] == c then 0
    else
      var i := FirstIndexOf(s[1..], c);
      assert s[..i + 1] == [s[0]] + s[1..][..i];
      i + 1
  }

  /** Python's `s.split(sep)` for a one-character separator. */
  function Split(s: string, sep: char): (r: seq<string>)
    ensures |r| >= 1
    ensures forall k :: 0 <= k < |r| ==> sep !in r[k]
    ensures Join(r, [sep]) == s
    decreases |s|
  {
    if sep !in s then [s]
    else
      var i := FirstIndexOf(s, sep);
      var rest := Split(s[i + 1..], sep);
      assert s == s[..i] + [sep] + s[i + 1..];
      [s[..i]] + rest
  }

  lemma SplitNoSep(a: string, sep: char)
    requires sep !in a
    ensures Split(a, sep) == [a]
  {
  }

  /** Splitting at the first separator peels off exactly the text before it. */
  lemma SplitCons(a: string, rest: string, sep: char)
    requires sep !in a
    ensures Split(a + [sep] + rest, sep) == [a] + Split(rest, sep)
  {
    var s := a + [sep] + rest;
    assert s[|a|] == sep;
    assert forall k :: 0 <= k < |a| ==> s[k] == a[k];
    assert forall j :: |a| < j <= |s| ==> s[..j][|a|] == sep;
    var i := FirstIndexOf(s, sep);
    assert i == |a|;
    assert s[..i] == a;
    assert s[i + 1..] == rest;
  }

  /** A non-empty piece of text without surrounding whitespace. */
  predicate Trimmed(x: string)
  {
    x != "" && Stripped(x)
  }

  /** `[e.strip() for e in parts if e.strip()]` */
  function NonBlank(parts: seq<string>): (r: seq<string>)
    ensures |r| <= |parts|
  {
    if parts == [] then []
    else
      var t := Strip(parts[0]);
      var rest := NonBlank(parts[1..]);
      if t == "" then rest else [t] + rest
  }

  /** Every kept item is non-empty and trimmed. */
  lemma ConsTrimmed(t: string, rest: seq<string>)
    requires Stripped(t) && t != ""
    requires forall k :: 0 <= k < |rest| ==> Trimmed(rest[k])
    ensures forall k :: 0 <= k < |[t] + rest| ==> Trimmed(([t] + rest)[k])
  {
    forall k | 0 <= k < |rest| + 1
      ensures Trimmed(([t] + rest)[k])
    {
      if k > 0 {
        assert ([t] + rest)[k] == rest[k - 1];
      }
    }
  }

  lemma {:induction false} NonBlankTrimmed(parts: seq<string>)
    ensures forall k :: 0 <= k < |NonBlank(parts)| ==> Trimmed(NonBlank(parts)[k])
  {
    if parts != [] {
      var t := Strip(parts[0]);
      var rest := NonBlank(parts[1..]);
      NonBlankTrimmed(parts[1..]);
      if t == "" {
        assert NonBlank(parts) == rest;
      } else {
        assert NonBlank(parts) == [t] + rest;
        ConsTrimmed(t, rest);
      }
    }
  }

  /**
   * The list an LLM reply denotes: `[e.strip() for e in reply.split(",") if e.strip()]`.
   * Every item is non-empty, trimmed and free of commas.
   */
  function CommaItems(reply: string): (r: seq<string>)
    ensures forall k :: 0 <= k < |r| ==> r[k] != "" && Stripped(r[k]) && ',' !in r[k]
  {
    var parts := Split(reply, ',');
    NonBlankCommaFree(parts);
    NonBlankTrimmed(parts);
    NonBlank(parts)
  }

  lemma NonBlankCommaFree(parts: seq<string>)
    requires forall k :: 0 <= k < |parts| ==> ',' !in parts[k]
    ensures forall k :: 0 <= k < |NonBlank(parts)| ==> ',' !in NonBlank(parts)[k]
  {
    if parts != [] {
      NonBlankCommaFree(parts[1..]);
    }
  }

  /** An item a reply can list and get back unchanged. */
  predicate Listable(x: string)
  {
    x != "" && Stripped(x) && ',' !in x
  }

  lemma NonBlankCons(a: string, rest: seq<string>)
    requires Strip(a) != ""
    ensures NonBlank([a] + rest) == [Strip(a)] + NonBlank(rest)
  {
    assert ([a] + rest)[1..] == rest;
  }

  lemma JoinCons(p: string, xs: seq<string>)
    requires |xs| >= 2
    ensures p + Join(xs, ", ") == (p + xs[0]) + [','] + (" " + Join(xs[1..], ", "))
  {
  }

  lemma CommaItemsOfSingle(p: string, x: string)
    requires AllSpace(p) && ',' !in p && Listable(x)
    ensures NonBlank(Split(p + x, ',')) == [x]
  {
    assert ',' !in p + x;
    StripPadded(p, x);
    SplitNoSep(p + x, ',');
    NonBlankCons(p + x, []);
  }

  lemma CommaItemsStep(p: string, xs: seq<string>)
    requires |xs| >= 2 && AllSpace(p) && ',' !in p && Listable(xs[0])
    ensures NonBlank(Split(p + Join(xs, ", "), ','))
         == [xs[0]] + NonBlank(Split(" " + Join(xs[1..], ", "), ','))
  {
    assert ',' !in p + xs[0];
    StripPadded(p, xs[0]);
    var tail := " " + Join(xs[1..], ", ");
    JoinCons(p, xs);
    SplitCons(p + xs[0], tail, ',');
    NonBlankCons(p + xs[0], Split(tail, ','));
  }

  /** The padding `", "` leaves before each later item. */
  lemma SingleSpace()
    ensures AllSpace(" ") && ',' !in " "
  {
  }

  lemma {:induction false} CommaItemsOfJoinPadded(p: string, xs: seq<string>)
    requires |xs| >= 1 && AllSpace(p) && ',' !in p
    requires forall k :: 0 <= k < |xs| ==> Listable(xs[k])
    ensures NonBlank(Split(p + Join(xs, ", "), ',')) == xs
    decreases |xs|, 1
  {
    if |xs| == 1 {
      CommaItemsOfSingle(p, xs[0]);
    } else {
      CommaItemsOfJoinLonger(p, xs);
    }
  }

  /** The step of the round trip: the first item, then the rest read after its `", "`. */
  lemma {:induction false} CommaItemsOfJoinLonger(p: string, xs: seq<string>)
    requires |xs| >= 2 && AllSpace(p) && ',' !in p
    requires forall k :: 0 <= k < |xs| ==> Listable(xs[k])
    ensures NonBlank(Split(p + Join(xs, ", "), ',')) == xs
    decreases |xs|, 0
  {
    calc {
      NonBlank(Split(p + Join(xs, ", "), ','));
      == { CommaItemsStep(p, xs); }
      [xs[0]] + NonBlank(Split(" " + Join(xs[1..], ", "), ','));
      == { SingleSpace(); CommaItemsOfJoinPadded(" ", xs[1..]); }
      [xs[0]] + xs[1..];
    }
    assert xs == [xs[0]] + xs[1..];
  }

  /**
   * Round trip: a reply that echoes a comma-and-space separated list of
   * listable items denotes exactly that list.
   */
  lemma CommaItemsOfJoin(xs: seq<string>)
    requires forall k :: 0 <= k < |xs| ==> Listable(xs[k])
    ensures CommaItems(Join(xs, ", ")) == xs
  {
    if xs == [] {
      assert Split("", ',') == [""];
      assert Strip("") == "";
    } else {
      assert "" + Join(xs, ", ") == Join(xs, ", ");
      CommaItemsOfJoinPadded("", xs);
    }
  }

  // ---------------------------------------------------------------- lists

  /** The keys of an insertion-ordered dictionary held as a list of pairs, in order. */
  function Keys<V>(entries: seq<(string, V)>): (ks: seq<string>)
    ensures |ks| == |entries| && forall i :: 0 <= i < |entries| ==> ks[i] == entries[i].0
  {
    seq(|entries|, i requires 0 <= i < |entries| => entries[i].0)
  }

  /** `d.get(key, default)`. */
  function GetOr<V>(m: map<string, V>, key: string, default: V): (v: V)
    ensures key in m ==> v == m[key]
    ensures key !in m ==> v == default
  {
    if key in m then m[key] else default
  }

  predicate NoDups<T(==)>(s: seq<T>)
  {
    forall i, j :: 0 <= i < j < |s| ==> s[i] != s[j]
  }

  /** Position of the first occurrence of `x` in `s`. */
  function FirstIndex<T(==)>(s: seq<T>, x: T): (i: nat)
    requires x in s
    ensures i < |s| && s[i] == x && x !in s[..i]
  {
    if s[0] == x then 0
    else
      var i := FirstIndex(s[1..], x);
      assert s[..i + 1] == [s[0]] + s[1..][..i];
      i + 1
  }

  lemma FirstIndexPrefix<T>(s: seq<T>, x: T, y: T)
    requires y in s
    ensures FirstIndex(s + [x], y) == FirstIndex(s, y)
  {
    var i := FirstIndex(s, y);
    var t := s + [x];
    assert t[i] == y;
    assert forall k :: 0 <= k < i ==> t[k] == s[..i][k];
    assert forall j :: i < j <= |t| ==> t[..j][i] == y;
  }

  lemma FirstIndexLast<T>(s: seq<T>, x: T)
    requires x !in s
    ensures FirstIndex(s + [x], x) == |s|
  {
    assert forall k :: 0 <= k < |s| ==> (s + [x])[k] == s[k];
  }

  /**
   * `list(dict.fromkeys(s))`: the distinct elements of `s`, each at its
   * first occurrence, in order of first occurrence.
   */
  function Dedup<T(==,!new)>(s: seq<T>): (r: seq<T>)
    ensures NoDups(r)
    ensures forall x :: x in r <==> x in s
    ensures |r| <= |s|
  {
    if s == [] then []
    else
      var init := s[..|s| - 1];
      var x := s[|s| - 1];
      assert s == init + [x];
      var r := Dedup(init);
      if x in r then r else r + [x]
  }

  /** The kept elements stand in the order of their first occurrences. */
  lemma {:induction false} DedupOrder<T(!new)>(s: seq<T>)
    ensures forall i, j :: 0 <= i < j < |Dedup(s)| ==> FirstIndex(s, Dedup(s)[i]) < FirstIndex(s, Dedup(s)[j])
  {
    if s != [] {
      var init := s[..|s| - 1];
      var x := s[|s| - 1];
      assert s == init + [x];
      DedupOrder(init);
      var r := Dedup(init);
      forall y | y in init
        ensures FirstIndex(s, y) == FirstIndex(init, y)
      {
        FirstIndexPrefix(init, x, y);
      }
      if x !in r {
        FirstIndexLast(init, x);
      }
    }
  }

  /** A list without repeats is its own de-duplication. */
  lemma {:induction false} DedupNoDups<T(!new)>(s: seq<T>)
    requires NoDups(s)
    ensures Dedup(s) == s
  {
    if s != [] {
      var init := s[..|s| - 1];
      assert NoDups(init);
      DedupNoDups(init);
      assert s == init + [s[|s| - 1]];
      assert s[|s| - 1] !in init;
    }
  }

  lemma AppendAssoc<T>(x: seq<T>, y: seq<T>, z: seq<T>)
    ensures x + (y + z) == (x + y) + z
  {
  }

  lemma ConsAppend<T>(h: T, x: seq<T>, y: seq<T>)
    ensures [h] + (x + y) == ([h] + x) + y
  {
  }

  /** A property holds of every element of `init + [x]` exactly when it holds of every element of `init` and of `x`. */
  lemma AllSnoc<T>(init: seq<T>, x: T, p: T -> bool)
    ensures (forall i :: 0 <= i < |init + [x]| ==> p((init + [x])[i])) <==>
            (forall i :: 0 <= i < |init| ==> p(init[i])) && p(x)
  {
    assert forall i :: 0 <= i < |init| ==> (init + [x])[i] == init[i];
    assert (init + [x])[|init|] == x;
  }

  /** De-duplicating one more element: it is added only when new. */
  lemma DedupSnoc<T(!new)>(s: seq<T>, y: T)
    ensures Dedup(s + [y]) == if y in s then Dedup(s) else Dedup(s) + [y]
  {
    var t := s + [y];
    assert t[..|t| - 1] == s;
  }

  function Min(a: int, b: int): int
  {
    if a <= b then a else b
  }

  function Max(a: int, b: int): int
  {
    if a >= b then a else b
  }

  /** Python's `s[:k]` for any integer `k`, negative ones counting from the end. */
  function SliceTo<T>(s: seq<T>, k: int): (r: seq<T>)
    ensures |r| <= |s| && r == s[..|r|]
    ensures 0 <= k ==> |r| == Min(k, |s|)
    ensures k < 0 ==> |r| == Max(0, |s| + k)
  {
    if 0 <= k then (if k <= |s| then s[..k] else s)
    else if |s| + k >= 0 then s[..|s| + k]
    else []
  }

  /** A prefix of a de-duplicated list has no repeats and only elements of the original. */
  lemma SliceToDedup<T(!new)>(s: seq<T>, k: int)
    ensures NoDups(SliceTo(Dedup(s), k))
    ensures forall x :: x in SliceTo(Dedup(s), k) ==> x in s
  {
    var d := Dedup(s);
    var r := SliceTo(d, k);
    assert forall x :: x in r ==> x in d;
  }


  /** Python's `s[k:]` for any integer `k`; note `s[-0:]` is `s[0:]`, the whole list. */
  function SliceFrom<T>(s: seq<T>, k: int): (r: seq<T>)
    ensures |r| <= |s| && r == s[|s| - |r|..]
    ensures 0 <= k ==> |r| == Max(0, |s| - k)
    ensures k < 0 ==> |r| == Min(-k, |s|)
  {
    if 0 <= k then (if k <= |s| then s[k..] else [])
    else if |s| + k >= 0 then s[|s| + k..]
    else s
  }

  // ---------------------------------------------------------------- numbers

  function DigitChar(d: nat): char
    requires d < 10
  {
    ('0' as int + d) as char
  }

  /** Python's `str(n)` for a natural number. */
  function NatToString(n: nat): (r: string)
    ensures |r| >= 1 && forall i :: 0 <= i < |r| ==> IsDigit(r[i])
  {
    if n < 10 then [DigitChar(n)] else NatToString(n / 10) + [DigitChar(n % 10)]
  }

  function DigitsValue(s: string): (v: nat)
    requires forall i :: 0 <= i < |s| ==> IsDigit(s[i])
  {
    if s == [] then 0
    else
      assert IsDigit(s[|s| - 1]);
      DigitsValue(s[..|s| - 1]) * 10 + (s[|s| - 1] as int - '0' as int)
  }

  /** Reading the decimal text back gives the number: the rendering loses nothing. */
  lemma {:induction false} NatToStringValue(n: nat)
    ensures DigitsValue(NatToString(n)) == n
  {
    if n >= 10 {
      NatToStringValue(n / 10);
      var s := NatToString(n);
      assert s[..|s| - 1] == NatToString(n / 10);
    }
  }

  /** Python's `str(i)` for any integer. */
  function IntToString(i: int): string
  {
    if i < 0 then "-" + NatToString(-i) else NatToString(i)
  }
}
