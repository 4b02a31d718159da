/**
 * Partition isolation of Cypher text (`_add_grag_filter` and
 * `_get_params_with_grag_id`, identical in neo4j_connector.py and
 * core/neo4j_db.py): every node variable of a query is constrained to the
 * connector's `grag_id`, and the id is bound as the `$grag_id` parameter.
 */
module CypherFilter {
  import opened Wrappers
  import opened Text

  // ---------------------------------------------------------------- the node-pattern regex

  /** Python's `\w`: letters, digits and the underscore. */
  predicate IsWordChar(c: char)
  {
    IsAlnum(c) || c == '_'
  }

  predicate AllWord(t: string)
  {
    forall k :: 0 <= k < |t| ==> IsWordChar(t[k])
  }

  /** `s[a..b]` is made of word characters. */
  predicate WordSpan(s: string, a: nat, b: nat)
  {
    a <= b <= |s| && forall m :: a <= m < b ==> IsWordChar(s[m])
  }

  /** `s[a..b]` is made of whitespace. */
  predicate SpaceSpan(s: string, a: nat, b: nat)
  {
    a <= b <= |s| && forall m :: a <= m < b ==> IsSpace(s[m])
  }

  /** The optional `(?::\w+)` part spans `s[a..j]`: empty, or a colon and a label. */
  predicate LabelSpan(s: string, a: nat, j: nat)
  {
    j == a || (a + 2 <= j && WordSpan(s, a + 1, j) && s[a] == ':')
  }

  /** The optional `(?:\s*\{[^}]*\})` part spans `s[j..b]`: empty, or blanks and a brace block without an inner `}`. */
  predicate PropsSpan(s: string, j: nat, b: nat)
  {
    j == b || exists k :: j <= k < b && PropsFrom(s, j, k, b)
  }

  /** Blanks `s[j..k]`, then `{` at `k`, a block without `}`, and `}` at `b - 1`. */
  predicate PropsFrom(s: string, j: nat, k: nat, b: nat)
  {
    j <= k && k + 1 < b <= |s| && SpaceSpan(s, j, k) && s[k] == '{' && s[b - 1] == '}'
    && forall m :: k < m < b - 1 ==> s[m] != '}'
  }

  /**
   * `s[i..e]` is a match of `\((\w+)(?::\w+)?(?:\s*\{[^}]*\})?\)` whose
   * captured variable is `v`.
   */
  predicate NodePatternAt(s: string, i: nat, e: nat, v: string)
  {
    i < e <= |s| && s[i] == '(' && s[e - 1] == ')' && v != [] && AllWord(v)
    && i + 1 + |v| <= e - 1 && s[i + 1..i + 1 + |v|] == v
    && HasDecor(s, i + 1 + |v|, e - 1)
  }

  /** The text between the variable and the closing parenthesis is a label part then a property part. */
  predicate HasDecor(s: string, a: nat, b: nat)
  {
    exists j :: a <= j <= b && DecorAt(s, a, j, b)
  }

  predicate DecorAt(s: string, a: nat, j: nat, b: nat)
  {
    a <= j <= b <= |s| && LabelSpan(s, a, j) && PropsSpan(s, j, b)
  }

  /** Length of the run of word characters starting at `i`. */
  function WordRun(s: string, i: nat): (n: nat)
    requires i <= |s|
    ensures i + n <= |s|
    decreases |s| - i
  {
    if i < |s| && IsWordChar(s[i]) then 1 + WordRun(s, i + 1) else 0
  }

  /** The run is all word characters, and it stops at the end or before a non-word character. */
  lemma {:induction false} WordRunSpan(s: string, i: nat)
    requires i <= |s|
    ensures WordSpan(s, i, i + WordRun(s, i))
    ensures i + WordRun(s, i) == |s| || !IsWordChar(s[i + WordRun(s, i)])
    decreases |s| - i
  {
    if i < |s| && IsWordChar(s[i]) {
      WordRunSpan(s, i + 1);
    }
  }

  /** Length of the run of whitespace starting at `i`. */
  function SpaceRun(s: string, i: nat): (n: nat)
    requires i <= |s|
    ensures i + n <= |s|
    decreases |s| - i
  {
    if i < |s| && IsSpace(s[i]) then 1 + SpaceRun(s, i + 1) else 0
  }

  /** The run is all whitespace, and it stops at the end or before a non-blank. */
  lemma {:induction false} SpaceRunSpan(s: string, i: nat)
    requires i <= |s|
    ensures SpaceSpan(s, i, i + SpaceRun(s, i))
    ensures i + SpaceRun(s, i) == |s| || !IsSpace(s[i + SpaceRun(s, i)])
    decreases |s| - i
  {
    if i < |s| && IsSpace(s[i]) {
      SpaceRunSpan(s, i + 1);
    }
  }

  /** End of the optional label part after position `j`. */
  function LabelEnd(s: string, j: nat): (r: nat)
    requires j <= |s|
    ensures j <= r <= |s|
  {
    if j < |s| && s[j] == ':' && WordRun(s, j + 1) > 0 then j + 1 + WordRun(s, j + 1) else j
  }

  /** What `LabelEnd` skips is a label part. */
  lemma LabelEndSpan(s: string, j: nat)
    requires j <= |s|
    ensures LabelSpan(s, j, LabelEnd(s, j))
  {
    if j < |s| {
      WordRunSpan(s, j + 1);
    }
  }

  /** Position of the first `}` at or after `from`, or `|s|` when there is none. */
  function CloseBrace(s: string, from: nat): (r: nat)
    requires from <= |s|
    ensures from <= r <= |s|
    decreases |s| - from
  {
    if from == |s| || s[from] == '}' then from else CloseBrace(s, from + 1)
  }

  /** `CloseBrace` stops at the first `}`: none lies before it. */
  lemma {:induction false} CloseBraceSpan(s: string, from: nat)
    requires from <= |s|
    ensures CloseBrace(s, from) < |s| ==> s[CloseBrace(s, from)] == '}'
    ensures forall m :: from <= m < CloseBrace(s, from) ==> s[m] != '}'
    decreases |s| - from
  {
    if from < |s| && s[from] != '}' {
      CloseBraceSpan(s, from + 1);
    }
  }

  /** A `}` with none before it from `from` is the one `CloseBrace` finds. */
  lemma {:induction false} CloseBraceAt(s: string, from: nat, p: nat)
    requires from <= p < |s| && s[p] == '}'
    requires forall m :: from <= m < p ==> s[m] != '}'
    ensures CloseBrace(s, from) == p
    decreases p - from
  {
    if from < p {
      CloseBraceAt(s, from + 1, p);
    }
  }

  /** End of the optional property block after position `j`. */
  function PropsEnd(s: string, j: nat): (r: nat)
    requires j <= |s|
    ensures j <= r <= |s|
  {
    var k := j + SpaceRun(s, j);
    if k < |s| && s[k] == '{' && CloseBrace(s, k + 1) < |s| then CloseBrace(s, k + 1) + 1 else j
  }

  /** What `PropsEnd` skips is a property part. */
  lemma PropsEndSpan(s: string, j: nat)
    requires j <= |s|
    ensures PropsSpan(s, j, PropsEnd(s, j))
  {
    var k := j + SpaceRun(s, j);
    if k < |s| && s[k] == '{' && CloseBrace(s, k + 1) < |s| {
      CloseBraceSpan(s, k + 1);
      SpaceRunSpan(s, j);
      assert PropsFrom(s, j, k, CloseBrace(s, k + 1) + 1);
    }
  }

  /**
   * The regex tried at position `i`: the captured variable and the end of
   * the match. Backtracking cannot change the outcome, since each optional
   * part can only be followed by a character it does not itself accept.
   */
  function MatchAt(s: string, i: nat): (r: Option<(string, nat)>)
    requires i <= |s|
    ensures r.Some? ==> i < r.value.1 <= |s|
  {
    if i < |s| && s[i] == '(' then
      var n := WordRun(s, i + 1);
      if n == 0 then None
      else
        var a := i + 1 + n;
        var b := PropsEnd(s, LabelEnd(s, a));
        if b < |s| && s[b] == ')' then Some((s[i + 1..a], b + 1)) else None
    else None
  }

  /** Soundness of the scanner: whatever `MatchAt` reports is a match of the regex at `i`. */
  lemma MatchAtSound(s: string, i: nat)
    requires i <= |s|
    ensures MatchAt(s, i).Some? ==> NodePatternAt(s, i, MatchAt(s, i).value.1, MatchAt(s, i).value.0)
  {
    if MatchAt(s, i).Some? {
      var a := i + 1 + WordRun(s, i + 1);
      ScannedNodePattern(s, i, a, PropsEnd(s, LabelEnd(s, a)));
    }
  }

  /** A parenthesis, a word run, the two decorations and a closing parenthesis form a node pattern. */
  lemma ScannedNodePattern(s: string, i: nat, a: nat, b: nat)
    requires i < |s| && s[i] == '(' && i + 1 < a && a == i + 1 + WordRun(s, i + 1)
    requires b == PropsEnd(s, LabelEnd(s, a)) && b < |s| && s[b] == ')'
    ensures NodePatternAt(s, i, b + 1, s[i + 1..a])
  {
    WordRunSpan(s, i + 1);
    SpanAllWord(s, i + 1, a);
    DecorFromScanners(s, a);
  }

  /** The label and property scanners together skip a decoration. */
  lemma DecorFromScanners(s: string, a: nat)
    requires a <= |s|
    ensures HasDecor(s, a, PropsEnd(s, LabelEnd(s, a)))
  {
    var j := LabelEnd(s, a);
    LabelEndSpan(s, a);
    PropsEndSpan(s, j);
    assert DecorAt(s, a, j, PropsEnd(s, j));
  }

  /** A span of word characters, cut out, is a word. */
  lemma SpanAllWord(s: string, a: nat, b: nat)
    requires WordSpan(s, a, b)
    ensures AllWord(s[a..b])
  {
    forall m | 0 <= m < b - a
      ensures IsWordChar(s[a..b][m])
    {
      assert s[a..b][m] == s[a + m];
    }
  }

  lemma {:induction false} WordRunExact(s: string, i: nat, n: nat)
    requires WordSpan(s, i, i + n) && (i + n == |s| || !IsWordChar(s[i + n]))
    ensures WordRun(s, i) == n
    decreases n
  {
    if n > 0 {
      WordRunExact(s, i + 1, n - 1);
    }
  }

  lemma {:induction false} SpaceRunExact(s: string, i: nat, n: nat)
    requires SpaceSpan(s, i, i + n) && (i + n == |s| || !IsSpace(s[i + n]))
    ensures SpaceRun(s, i) == n
    decreases n
  {
    if n > 0 {
      SpaceRunExact(s, i + 1, n - 1);
    }
  }

  /** A property block ending at `b` is the one `PropsEnd` finds. */
  lemma PropsEndExact(s: string, j: nat, b: nat)
    requires j <= b < |s| && PropsSpan(s, j, b) && s[b] == ')'
    ensures PropsEnd(s, j) == b
  {
    if j == b {
      SpaceRunExact(s, j, 0);
    } else {
      var k :| j <= k < b && PropsFrom(s, j, k, b);
      SpaceRunExact(s, j, k - j);
      CloseBraceAt(s, k + 1, b - 1);
    }
  }

  /** A label part followed by a non-word character is the one `LabelEnd` finds. */
  lemma LabelEndExact(s: string, a: nat, j: nat)
    requires a <= j <= |s| && LabelSpan(s, a, j)
    requires j == |s| || !IsWordChar(s[j])
    requires j == a ==> j == |s| || s[j] != ':'
    ensures LabelEnd(s, a) == j
  {
    if j > a {
      WordRunExact(s, a + 1, j - a - 1);
    }
  }

  /** What may follow the variable or the label: none of it a word character, and no colon after a bare variable. */
  lemma DecorBoundaries(s: string, a: nat, j: nat, b: nat)
    requires DecorAt(s, a, j, b) && b < |s| && s[b] == ')'
    ensures a < |s| && !IsWordChar(s[a])
    ensures j < |s| && !IsWordChar(s[j])
    ensures j == a ==> s[j] != ':'
  {
    if j < b {
      var k :| j <= k < b && PropsFrom(s, j, k, b);
      if j < k {
        SpaceIsNotWord(s[j]);
      }
    }
  }

  lemma SpaceIsNotWord(c: char)
    requires IsSpace(c)
    ensures !IsWordChar(c) && c != '{' && c != ')' && c != ':'
  {
  }

  /** Every match of the regex at `i` is the one `MatchAt` reports: the regex has one match per position. */
  lemma MatchAtComplete(s: string, i: nat, e: nat, v: string)
    requires NodePatternAt(s, i, e, v)
    ensures MatchAt(s, i) == Some((v, e))
  {
    var a := i + 1 + |v|;
    var b := e - 1;
    var j: nat :| a <= j <= b && DecorAt(s, a, j, b);
    DecorBoundaries(s, a, j, b);
    assert WordSpan(s, i + 1, a) by {
      forall m | i + 1 <= m < a
        ensures IsWordChar(s[m])
      {
        assert s[m] == v[m - (i + 1)];
      }
    }
    WordRunExact(s, i + 1, |v|);
    LabelEndExact(s, a, j);
    PropsEndExact(s, j, b);
    MatchAtFound(s, i, a, j, b);
  }

  /** `MatchAt` reports the span its three scanners delimit. */
  lemma MatchAtFound(s: string, i: nat, a: nat, j: nat, b: nat)
    requires i < |s| && s[i] == '(' && i + 1 < a && a == i + 1 + WordRun(s, i + 1)
    requires j == LabelEnd(s, a) && b == PropsEnd(s, j) && b < |s| && s[b] == ')'
    ensures MatchAt(s, i) == Some((s[i + 1..a], b + 1))
  {
  }

  /** Some match of the regex at or after position `i` captures `v`. */
  predicate CapturedFrom(s: string, i: nat, v: string)
  {
    exists p, e :: i <= p < e <= |s| && NodePatternAt(s, p, e, v)
  }

  /** `re.findall` from position `i`: scan left to right, resuming after each match. */
  function FindAllFrom(s: string, i: nat): seq<string>
    requires i <= |s|
    decreases |s| - i
  {
    if i == |s| then []
    else
      match MatchAt(s, i)
      case Some((v, e)) => [v] + FindAllFrom(s, e)
      case None => FindAllFrom(s, i + 1)
  }

  /** `v` is a non-empty word that some match at or after `i` captures. */
  predicate ReportedFrom(s: string, i: nat, v: string)
  {
    v != [] && AllWord(v) && CapturedFrom(s, i, v)
  }

  /** What a match after `j` captures is also captured after any earlier `i`. */
  lemma ReportedLater(s: string, i: nat, j: nat, v: string)
    requires i <= j && ReportedFrom(s, j, v)
    ensures ReportedFrom(s, i, v)
  {
    var p, e :| j <= p < e <= |s| && NodePatternAt(s, p, e, v);
  }

  /** Every variable the scan reports is a non-empty word captured by some match at or after `i`. */
  lemma {:induction false} FindAllFromSound(s: string, i: nat)
    requires i <= |s|
    ensures forall k :: 0 <= k < |FindAllFrom(s, i)| ==> ReportedFrom(s, i, FindAllFrom(s, i)[k])
    decreases |s| - i
  {
    if i < |s| {
      var r := FindAllFrom(s, i);
      match MatchAt(s, i)
      case Some((v, e)) =>
        MatchAtSound(s, i);
        var rest := FindAllFrom(s, e);
        FindAllFromSound(s, e);
        assert r == [v] + rest;
        assert ReportedFrom(s, i, v);
        forall k | 0 <= k < |rest|
          ensures ReportedFrom(s, i, rest[k])
        {
          ReportedLater(s, i, e, rest[k]);
        }
      case None =>
        var rest := FindAllFrom(s, i + 1);
        FindAllFromSound(s, i + 1);
        assert r == rest;
        forall k | 0 <= k < |rest|
          ensures ReportedFrom(s, i, rest[k])
        {
          ReportedLater(s, i, i + 1, rest[k]);
        }
    }
  }

  /** A text without `(` from `i` on yields no variable. */
  lemma {:induction false} FindAllFromNoParen(s: string, i: nat)
    requires i <= |s| && '(' !in s[i..]
    ensures FindAllFrom(s, i) == []
    decreases |s| - i
  {
    if i < |s| {
      assert s[i] == s[i..][0];
      assert MatchAt(s, i).None?;
      assert s[i + 1..] == s[i..][1..];
      FindAllFromNoParen(s, i + 1);
    }
  }

  /** The node variables of a query, in order of appearance, repeats included. */
  function NodeVars(query: string): seq<string>
  {
    FindAllFrom(query, 0)
  }

  /** Every match the scan reaches is reported: a pattern at the very start is always found. */
  lemma NodeVarsFindsFirst(query: string, e: nat, v: string)
    requires NodePatternAt(query, 0, e, v)
    ensures NodeVars(query) != [] && NodeVars(query)[0] == v
  {
    MatchAtComplete(query, 0, e, v);
  }

  // ---------------------------------------------------------------- the filter

  /** Python truthiness of the optional `grag_id`: neither `None` nor empty. */
  predicate Truthy(gragId: Option<string>)
  {
    gragId.Some? && gragId.value != ""
  }

  function Conjunct(v: string): (r: string)
  {
    v + ".grag_id = $grag_id"
  }

  lemma ConjunctInjective(a: string, b: string)
    requires Conjunct(a) == Conjunct(b)
    ensures a == b
  {
    assert a == Conjunct(a)[..|a|];
  }

  /** One conjunct per distinct variable (`for var in set(node_vars)`). */
  function Filters(vars: seq<string>): (r: seq<string>)
    ensures |r| == |Dedup(vars)|
    ensures NoDups(r)
    ensures forall v :: v in vars <==> Conjunct(v) in r
  {
    var d := Dedup(vars);
    var r := seq(|d|, k requires 0 <= k < |d| => Conjunct(d[k]));
    forall k, m | 0 <= k < m < |r|
      ensures r[k] != r[m]
    {
      if r[k] == r[m] {
        ConjunctInjective(d[k], d[m]);
      }
    }
    forall v | Conjunct(v) in r
      ensures v in vars
    {
      var k :| 0 <= k < |r| && r[k] == Conjunct(v);
      ConjunctInjective(d[k], v);
    }
    assert forall v :: v in vars ==> Conjunct(v) in r by {
      forall v | v in vars
        ensures Conjunct(v) in r
      {
        var k :| 0 <= k < |d| && d[k] == v;
        assert r[k] == Conjunct(v);
      }
    }
    r
  }

  /** `" AND x.grag_id = $grag_id AND ..."`, or with `WHERE` when the query has no WHERE clause yet. */
  function FilterClause(whereExists: bool, vars: seq<string>): string
  {
    " " + (if whereExists then "AND" else "WHERE") + " " + Join(Filters(vars), " AND ")
  }

  /** `parts[0] + clause + " " + kw + parts[1]` for `parts = query.split(kw, 1)`. */
  function InsertBefore(query: string, kw: string, clause: string): (r: string)
    requires Contains(query, kw)
    ensures var p := Find(query, kw).value; r == query[..p] + clause + " " + query[p..]
  {
    var parts := SplitOnce(query, kw);
    SplitAtFind(query, kw);
    parts.0 + clause + " " + kw + parts.1
  }

  /**
   * `_add_grag_filter`: unchanged without a partition or without node
   * variables; otherwise the clause goes right before the first `RETURN`,
   * else before the first `WITH` (each then preceded by a blank), else at
   * the end. Nothing else in the query changes.
   */
  function AddFilter(query: string, gragId: Option<string>, whereExists: bool): (r: string)
    ensures !Truthy(gragId) || NodeVars(query) == [] ==> r == query
    ensures Truthy(gragId) && NodeVars(query) != [] && Contains(query, "RETURN") ==>
      var p := Find(query, "RETURN").value;
      r == query[..p] + FilterClause(whereExists, NodeVars(query)) + " " + query[p..]
    ensures Truthy(gragId) && NodeVars(query) != [] && !Contains(query, "RETURN") && Contains(query, "WITH") ==>
      var p := Find(query, "WITH").value;
      r == query[..p] + FilterClause(whereExists, NodeVars(query)) + " " + query[p..]
    ensures Truthy(gragId) && NodeVars(query) != [] && !Contains(query, "RETURN") && !Contains(query, "WITH") ==>
      r == query + FilterClause(whereExists, NodeVars(query))
  {
    if !Truthy(gragId) then query
    else
      var vars := NodeVars(query);
      if vars == [] then query
      else
        var clause := FilterClause(whereExists, vars);
        if Contains(query, "RETURN") then InsertBefore(query, "RETURN", clause)
        else if Contains(query, "WITH") then InsertBefore(query, "WITH", clause)
        else query + clause
  }

  /** `s.split(pat, 1)` cuts at the first occurrence `str.find` reports. */
  lemma SplitAtFind(s: string, pat: string)
    requires Contains(s, pat)
    ensures SplitOnce(s, pat).0 == s[..Find(s, pat).value]
    ensures pat + SplitOnce(s, pat).1 == s[Find(s, pat).value..]
  {
  }

  lemma ContainsMiddle(x: string, c: string, y: string)
    ensures Contains(x + c + y, c)
  {
    assert (x + c + y)[|x|..|x| + |c|] == c;
    ContainsAt(x + c + y, c, |x|);
  }

  lemma ContainsInserted(x: string, c: string, y: string, r: string)
    requires r == x + c + " " + y
    ensures Contains(r, c)
  {
    ContainsMiddle(x, c, " " + y);
    assert x + c + (" " + y) == r;
  }

  /** Once a partition and a node variable exist, the filter clause occurs in the rewritten query. */
  lemma ClauseOccurs(query: string, gragId: Option<string>, whereExists: bool)
    ensures Truthy(gragId) && NodeVars(query) != [] ==>
      Contains(AddFilter(query, gragId, whereExists), FilterClause(whereExists, NodeVars(query)))
  {
    if Truthy(gragId) && NodeVars(query) != [] {
      var c := FilterClause(whereExists, NodeVars(query));
      var r := AddFilter(query, gragId, whereExists);
      if Contains(query, "RETURN") {
        var p := Find(query, "RETURN").value;
        ContainsInserted(query[..p], c, query[p..], r);
      } else if Contains(query, "WITH") {
        var p := Find(query, "WITH").value;
        ContainsInserted(query[..p], c, query[p..], r);
      } else {
        ContainsMiddle(query, c, "");
        assert query + c + "" == r;
      }
    }
  }

  /**
   * `execute_complex_query`'s rewriting: `where_exists` is whether the text
   * contains `WHERE` anywhere, so the clause opens with `AND` exactly then.
   */
  function ComplexQueryText(query: string, gragId: Option<string>): (r: string)
    ensures !Truthy(gragId) || NodeVars(query) == [] ==> r == query
    ensures Truthy(gragId) && NodeVars(query) != [] ==>
      Contains(r, FilterClause(Contains(query, "WHERE"), NodeVars(query)))
  {
    ClauseOccurs(query, gragId, Contains(query, "WHERE"));
    AddFilter(query, gragId, Contains(query, "WHERE"))
  }

  // ---------------------------------------------------------------- parameters

  datatype Param = PStr(text: string) | PInt(number: int) | PList(items: seq<string>)

  /** `_get_params_with_grag_id`: the given parameters, plus `grag_id` when the connector has one. */
  function ParamsWithGragId(params: Option<map<string, Param>>, gragId: Option<string>): (r: map<string, Param>)
    ensures Truthy(gragId) ==> "grag_id" in r && r["grag_id"] == PStr(gragId.value)
    ensures !Truthy(gragId) ==> ("grag_id" in r <==> params.Some? && "grag_id" in params.value)
    ensures forall k :: k != "grag_id" ==> (k in r <==> params.Some? && k in params.value)
    ensures forall k :: k != "grag_id" && k in r ==> r[k] == params.value[k]
  {
    var base := params.UnwrapOr(map[]);
    if Truthy(gragId) then base["grag_id" := PStr(gragId.value)] else base
  }
}
