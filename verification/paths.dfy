/**
 * Reasoning paths of the Think-on-Graph engine: seeding, one-hop extension
 * and the textual rendering shown to the LLM (`_format_paths`).
 */
module ToGPaths {
  import opened Wrappers
  import opened Text

  /** A hop `(source) --[relation]--> (target)`; a seed hop has neither source nor relation. */
  datatype Hop = Hop(source: Option<string>, relation: Option<string>, target: string)

  type Path = seq<Hop>

  /** One `{"source", "relation", "targets"}` record of entity exploration. */
  datatype Exploration = Exploration(source: string, relation: string, targets: seq<string>)

  // ---------------------------------------------------------------- paths

  function Last(p: Path): Hop
    requires p != []
  {
    p[|p| - 1]
  }

  predicate AllNonEmpty(paths: seq<Path>)
  {
    forall i :: 0 <= i < |paths| ==> paths[i] != []
  }

  /** A well-formed reasoning path: a seed hop, then hops each leaving from the previous target. */
  predicate Chained(p: Path)
  {
    |p| >= 1 && p[0].source.None? && p[0].relation.None?
    && forall i :: 1 <= i < |p| ==> p[i].source == Some(p[i - 1].target) && p[i].relation.Some?
  }

  predicate AllChained(paths: seq<Path>)
  {
    forall i :: 0 <= i < |paths| ==> Chained(paths[i])
  }

  /** One-hop seed paths, one per topic entity. */
  function Seeds(topics: seq<string>): (r: seq<Path>)
    ensures |r| == |topics| && AllChained(r)
  {
    seq(|topics|, i requires 0 <= i < |topics| => [Hop(None, None, topics[i])])
  }

  /** The tail entity of every non-empty path, in beam order. */
  function Tails(paths: seq<Path>): (r: seq<string>)
    ensures |r| <= |paths|
    ensures AllNonEmpty(paths) ==> |r| == |paths| && forall i :: 0 <= i < |paths| ==> r[i] == Last(paths[i]).target
    ensures r == [] <==> forall i :: 0 <= i < |paths| ==> paths[i] == []
  {
    if paths == [] then []
    else
      var rest := Tails(paths[1..]);
      assert forall i :: 1 <= i < |paths| ==> paths[i] == paths[1..][i - 1];
      (if paths[0] == [] then [] else [Last(paths[0]).target]) + rest
  }

  function HopFor(e: Exploration, target: string): Hop
  {
    Hop(Some(e.source), Some(e.relation), target)
  }

  /** `path + [hop]` for every target of one exploration. */
  function ExtendBy(p: Path, e: Exploration): (r: seq<Path>)
    ensures |r| == |e.targets|
    ensures forall k :: 0 <= k < |r| ==> r[k] == p + [HopFor(e, e.targets[k])]
  {
    seq(|e.targets|, k requires 0 <= k < |e.targets| => p + [HopFor(e, e.targets[k])])
  }

  /** Some exploration leaving `tail` offers hop `h`: same source, relation and one of its targets. */
  predicate Offers(results: seq<Exploration>, tail: string, h: Hop)
  {
    exists e :: e in results && e.source == tail && h.target in e.targets && h == HopFor(e, h.target)
  }

  /** `q` is `p` plus one hop offered from `p`'s tail; `p` itself is unchanged. */
  predicate GrownFrom(q: Path, p: Path, results: seq<Exploration>)
  {
    |p| >= 1 && |q| == |p| + 1 && q[..|p|] == p && Offers(results, Last(p).target, q[|p|])
  }

  lemma OffersMore(results: seq<Exploration>, tail: string, h: Hop)
    requires results != [] && Offers(results[1..], tail, h)
    ensures Offers(results, tail, h)
  {
    var e :| e in results[1..] && e.source == tail && h.target in e.targets && h == HopFor(e, h.target);
    assert e in results;
  }

  /** The extensions of one path by every exploration leaving its tail, in exploration order. */
  function ExtendPath(p: Path, results: seq<Exploration>): seq<Path>
    requires p != []
  {
    if results == [] then []
    else
      var e := results[0];
      (if e.source == Last(p).target then ExtendBy(p, e) else []) + ExtendPath(p, results[1..])
  }

  /** Every extension is the path plus one hop offered from its tail. */
  lemma {:induction false} ExtendPathGrown(p: Path, results: seq<Exploration>)
    requires p != []
    ensures forall q :: q in ExtendPath(p, results) ==> GrownFrom(q, p, results)
  {
    if results != [] {
      var e := results[0];
      var here := if e.source == Last(p).target then ExtendBy(p, e) else [];
      var rest := ExtendPath(p, results[1..]);
      ExtendPathGrown(p, results[1..]);
      forall q: Path | q in rest
        ensures GrownFrom(q, p, results)
      {
        OffersMore(results, Last(p).target, q[|p|]);
      }
      forall q: Path | q in here
        ensures GrownFrom(q, p, results)
      {
        var k :| 0 <= k < |here| && here[k] == q;
        assert q == p + [HopFor(e, e.targets[k])];
        assert q[|p|].target == e.targets[k];
        assert q[..|p|] == p;
      }
    }
  }

  /** Every offered hop is taken: `path + [hop]` appears among the extensions. */
  lemma {:induction false} ExtendPathComplete(p: Path, results: seq<Exploration>, e: Exploration, t: string)
    requires p != [] && e in results && e.source == Last(p).target && t in e.targets
    ensures p + [HopFor(e, t)] in ExtendPath(p, results)
  {
    if e == results[0] {
      var k :| 0 <= k < |e.targets| && e.targets[k] == t;
      assert ExtendBy(p, e)[k] == p + [HopFor(e, t)];
    } else {
      assert e in results[1..];
      ExtendPathComplete(p, results[1..], e, t);
    }
  }

  /** Step 3 of an iteration: every path extended by every exploration leaving its tail. */
  function Expand(paths: seq<Path>, results: seq<Exploration>): seq<Path>
    requires AllNonEmpty(paths)
  {
    if paths == [] then []
    else ExtendPath(paths[0], results) + Expand(paths[1..], results)
  }

  /** Every new path is an old path plus one hop offered from its tail. */
  lemma {:induction false} ExpandGrown(paths: seq<Path>, results: seq<Exploration>)
    requires AllNonEmpty(paths)
    ensures forall q :: q in Expand(paths, results) ==> |q| >= 2 && q[..|q| - 1] in paths && GrownFrom(q, q[..|q| - 1], results)
  {
    if paths != [] {
      var here := ExtendPath(paths[0], results);
      var rest := Expand(paths[1..], results);
      ExtendPathGrown(paths[0], results);
      ExpandGrown(paths[1..], results);
      forall q: Path | q in here
        ensures |q| >= 2 && q[..|q| - 1] in paths && GrownFrom(q, q[..|q| - 1], results)
      {
        assert q[..|q| - 1] == paths[0];
      }
      forall q: Path | q in rest
        ensures q[..|q| - 1] in paths
      {
        assert q[..|q| - 1] in paths[1..];
      }
    }
  }

  lemma AllNonEmptyAppend(a: seq<Path>, b: seq<Path>)
    requires AllNonEmpty(a) && AllNonEmpty(b)
    ensures AllNonEmpty(a + b)
  {
    assert forall i :: 0 <= i < |a + b| ==> (a + b)[i] == if i < |a| then a[i] else b[i - |a|];
  }

  lemma AllNonEmptyTail(a: seq<Path>)
    requires a != [] && AllNonEmpty(a)
    ensures AllNonEmpty(a[1..])
  {
    assert forall i :: 0 <= i < |a| - 1 ==> a[1..][i] == a[i + 1];
  }

  /** Expansion keeps the beam's order: the extensions of earlier paths come first. */
  lemma {:induction false} ExpandAppend(a: seq<Path>, b: seq<Path>, results: seq<Exploration>)
    requires AllNonEmpty(a) && AllNonEmpty(b)
    ensures AllNonEmpty(a + b)
    ensures Expand(a + b, results) == Expand(a, results) + Expand(b, results)
  {
    AllNonEmptyAppend(a, b);
    if a != [] {
      var ab := a + b;
      assert ab[0] == a[0] && ab[1..] == a[1..] + b;
      AllNonEmptyTail(a);
      ExpandAppend(a[1..], b, results);
      var here := ExtendPath(a[0], results);
      assert Expand(a, results) == here + Expand(a[1..], results);
      assert Expand(ab, results) == here + (Expand(a[1..], results) + Expand(b, results));
      AppendAssoc(here, Expand(a[1..], results), Expand(b, results));
    } else {
      assert a + b == b;
    }
  }

  /** One path's extensions keep the exploration order: those by earlier explorations come first. */
  lemma {:induction false} ExtendPathAppend(p: Path, r1: seq<Exploration>, r2: seq<Exploration>)
    requires p != []
    ensures ExtendPath(p, r1 + r2) == ExtendPath(p, r1) + ExtendPath(p, r2)
  {
    if r1 != [] {
      assert (r1 + r2)[0] == r1[0] && (r1 + r2)[1..] == r1[1..] + r2;
      ExtendPathAppend(p, r1[1..], r2);
    } else {
      assert r1 + r2 == r2;
    }
  }

  /**
   * A single path meeting a single exploration: one extension per target, in
   * target order, when the exploration leaves the path's tail, else none.
   * With `ExpandAppend` and `ExtendPathAppend` this fixes the whole order of
   * `Expand`: by path, then by exploration, then by target.
   */
  lemma ExpandSingle(p: Path, e: Exploration)
    requires p != []
    ensures AllNonEmpty([p])
    ensures Expand([p], [e]) == if e.source == Last(p).target then ExtendBy(p, e) else []
  {
    var here := if e.source == Last(p).target then ExtendBy(p, e) else [];
    assert [p][0] == p && [p][1..] == [] && [e][0] == e && [e][1..] == [];
    assert ExtendPath(p, [e]) == here + [] == here;
    assert Expand([p], [e]) == here + [] == here;
  }

  /** Every path meets every exploration leaving its tail: nothing offered is lost. */
  lemma {:induction false} ExpandComplete(paths: seq<Path>, results: seq<Exploration>, i: nat, e: Exploration, t: string)
    requires AllNonEmpty(paths) && i < |paths|
    requires e in results && e.source == Last(paths[i]).target && t in e.targets
    ensures paths[i] + [HopFor(e, t)] in Expand(paths, results)
  {
    if i == 0 {
      ExtendPathComplete(paths[0], results, e, t);
    } else {
      assert paths[1..][i - 1] == paths[i];
      ExpandComplete(paths[1..], results, i - 1, e, t);
    }
  }

  lemma ChainedGrown(q: Path, p: Path, results: seq<Exploration>)
    requires Chained(p) && GrownFrom(q, p, results)
    ensures Chained(q)
  {
    var h := q[|p|];
    var e :| e in results && e.source == Last(p).target && h.target in e.targets && h == HopFor(e, h.target);
    assert forall k :: 0 <= k < |p| ==> q[k] == p[k];
  }

  /** Extending chained paths yields chained paths. */
  lemma ExpandChained(paths: seq<Path>, results: seq<Exploration>)
    requires AllNonEmpty(paths)
    ensures AllChained(paths) ==> AllChained(Expand(paths, results))
  {
    if AllChained(paths) {
      ExpandGrown(paths, results);
      var r := Expand(paths, results);
      forall i | 0 <= i < |r|
        ensures Chained(r[i])
      {
        var q := r[i];
        assert q in r;
        var p := q[..|q| - 1];
        assert p in paths;
        ChainedGrown(q, p, results);
      }
    }
  }

  // ---------------------------------------------------------------- evaluation

  function OptText(o: Option<string>): string
  {
    match o
    case Some(v) => v
    case None => "None"
  }

  function HopText(h: Hop): (r: string)
    ensures r != ""
  {
    "(" + OptText(h.source) + ") --[" + OptText(h.relation) + "]--> (" + h.target + ")"
  }

  /** The rendered hops of a path that carry a relation; seed hops are skipped. */
  function HopTexts(p: Path): (r: seq<string>)
    ensures r == [] <==> forall i :: 0 <= i < |p| ==> p[i].relation.None?
    ensures forall k :: 0 <= k < |r| ==> r[k] != ""
  {
    if p == [] then []
    else
      assert forall i :: 1 <= i < |p| ==> p[i] == p[1..][i - 1];
      (if p[0].relation.Some? then [HopText(p[0])] else []) + HopTexts(p[1..])
  }

  lemma JoinNonEmpty(xs: seq<string>, sep: string)
    requires xs != [] ==> xs[0] != ""
    ensures xs != [] ==> Join(xs, sep) != ""
  {
  }

  function PathText(p: Path): (r: string)
    ensures r == "" <==> forall i :: 0 <= i < |p| ==> p[i].relation.None?
  {
    var texts := HopTexts(p);
    JoinNonEmpty(texts, " -> ");
    Join(texts, " -> ")
  }

  /** `"Path {n}: ..."` for the paths numbered from `start` that have a relation hop. */
  function PathLine(n: nat, p: Path): string
  {
    "Path " + NatToString(n) + ": " + PathText(p)
  }

  /** The rendering of each path, in beam order. */
  function PathTexts(paths: seq<Path>): (r: seq<string>)
    ensures |r| == |paths| && forall i :: 0 <= i < |paths| ==> r[i] == PathText(paths[i])
  {
    seq(|paths|, i requires 0 <= i < |paths| => PathText(paths[i]))
  }

  /**
   * The 1-based numbers (counting from `start`) of the renderings that
   * `_format_paths` prints: exactly the non-empty ones, in increasing order,
   * so an omitted path leaves a gap in the numbering.
   */
  function Numbered(texts: seq<string>, start: nat): (r: seq<nat>)
    ensures |r| <= |texts|
  {
    if texts == [] then []
    else (if texts[0] == "" then [] else [start]) + Numbered(texts[1..], start + 1)
  }

  lemma {:induction false} NumberedSound(texts: seq<string>, start: nat)
    ensures forall k :: 0 <= k < |Numbered(texts, start)| ==>
      var n := Numbered(texts, start)[k]; start <= n < start + |texts| && texts[n - start] != ""
    decreases |texts|
  {
    if texts != [] {
      NumberedSound(texts[1..], start + 1);
      var rest := Numbered(texts[1..], start + 1);
      var here: seq<nat> := if texts[0] == "" then [] else [start];
      var r := here + rest;
      assert Numbered(texts, start) == r;
      forall k | 0 <= k < |r|
        ensures start <= r[k] < start + |texts| && texts[r[k] - start] != ""
      {
        if k >= |here| {
          var n := rest[k - |here|];
          assert r[k] == n;
          assert texts[1..][n - (start + 1)] == texts[n - start];
        }
      }
    }
  }

  lemma {:induction false} NumberedComplete(texts: seq<string>, start: nat, i: nat)
    requires i < |texts| && texts[i] != ""
    ensures start + i in Numbered(texts, start)
    decreases i
  {
    if i > 0 {
      assert texts[1..][i - 1] == texts[i];
      NumberedComplete(texts[1..], start + 1, i - 1);
    }
  }

  predicate Increasing(r: seq<nat>)
  {
    forall k :: 0 < k < |r| ==> r[k - 1] < r[k]
  }

  lemma {:induction false} NumberedIncreasing(texts: seq<string>, start: nat)
    ensures Increasing(Numbered(texts, start))
    ensures forall k :: 0 <= k < |Numbered(texts, start)| ==> Numbered(texts, start)[k] >= start
    decreases |texts|
  {
    if texts != [] {
      NumberedIncreasing(texts[1..], start + 1);
      var rest := Numbered(texts[1..], start + 1);
      var here: seq<nat> := if texts[0] == "" then [] else [start];
      var r := here + rest;
      assert Numbered(texts, start) == r;
      forall k | 0 < k < |r|
        ensures r[k - 1] < r[k]
      {
        if k > |here| {
          assert r[k - 1] == rest[k - 1 - |here|] && r[k] == rest[k - |here|];
        } else {
          assert r[k - 1] == start && r[k] == rest[0];
        }
      }
      forall k | 0 <= k < |r|
        ensures r[k] >= start
      {
        if k >= |here| {
          assert r[k] == rest[k - |here|];
        }
      }
    }
  }

  /** The printed numbers stay within the beam. */
  lemma NumberedBounds(texts: seq<string>, start: nat)
    ensures forall k :: 0 <= k < |Numbered(texts, start)| ==>
      start <= Numbered(texts, start)[k] < start + |texts|
  {
    NumberedSound(texts, start);
  }

  /** `"Path {n}: ..."` for every printed path. */
  function PathLines(paths: seq<Path>): (r: seq<string>)
    ensures |r| == |Numbered(PathTexts(paths), 1)|
  {
    var ns := Numbered(PathTexts(paths), 1);
    NumberedBounds(PathTexts(paths), 1);
    seq(|ns|, k requires 0 <= k < |ns| => PathLine(ns[k], paths[ns[k] - 1]))
  }

  /** Line `k` renders the `k`-th printed path under its position in the beam. */
  lemma PathLinesNumbered(paths: seq<Path>)
    ensures forall k :: 0 <= k < |PathLines(paths)| ==>
      var n := Numbered(PathTexts(paths), 1)[k];
      1 <= n <= |paths| && PathText(paths[n - 1]) != "" && PathLines(paths)[k] == PathLine(n, paths[n - 1])
  {
    NumberedSound(PathTexts(paths), 1);
  }

  /** `_format_paths`: the numbered lines joined by newlines. */
  function FormatPaths(paths: seq<Path>): string
  {
    Join(PathLines(paths), "\n")
  }

}
