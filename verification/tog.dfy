/**
 * The Think-on-Graph beam-search engine shared by `ToGReasoning`
 * (tog_reasoning.py) and `ToGService` (services/query_tog_service.py).
 *
 * The graph store, the entity-linking index and the LLM are parameters. A
 * path is a list of hops; its first hop is a seed with no source and no
 * relation, and every later hop leaves from the previous hop's target.
 */
module ToG {
  import opened Wrappers
  import opened Text
  import EntityLinking
  import opened ToGPaths

  /** One row of the neighbour query; "" stands for a missing or null column. */
  datatype Neighbor = Neighbor(relation: string, target: string)


  /**
   * The five prompts, with the values they are filled with. Candidate lists
   * are shown to the LLM joined by ", ".
   */
  datatype Prompt =
    | EntityExtraction(question: string)
    | RelationSelection(question: string, entity: string, relations: seq<string>, width: int)
    | EntitySelection(question: string, relation: string, entities: seq<string>, width: int)
    | Evaluation(question: string, paths: string)
    | AnswerGeneration(question: string, paths: string)

  /** Graph-store lookups of one partition: neighbours, exact and fuzzy name matches. */
  datatype Graph = Graph(
    neighbors: string -> seq<Neighbor>,
    exact: string -> seq<string>,
    fuzzy: string -> seq<string>)

  /** Which of the two copies of the engine runs. */
  datatype Variant = Reasoning | Service

  /**
   * Everything one run depends on. `retriever` is the vector index search,
   * absent when the retriever could not be constructed; `ask` is the LLM,
   * whose failure stands for a raised exception.
   */
  datatype Setup = Setup(
    variant: Variant,
    width: int,
    threshold: real,
    graph: Graph,
    retriever: Option<string -> Result<seq<EntityLinking.Hit>>>,
    ask: Prompt -> Result<string>)

  /** The message of the `IndexError` raised by `path[-1]` on an empty path. */
  const IndexErrorMessage: string := "list index out of range"

  /** An LLM that never raises. */
  ghost predicate Reliable(ask: Prompt -> Result<string>)
  {
    forall p :: ask(p).Success?
  }

  // ---------------------------------------------------------------- topic entities

  /** A mention resolved against the graph: exact hit, else fuzzy hit, else the mention itself. */
  function MatchMention(g: Graph, mention: string): string
  {
    if g.exact(mention) != [] then g.exact(mention)[0]
    else if g.fuzzy(mention) != [] then g.fuzzy(mention)[0]
    else mention
  }

  /** `_fallback_entity_matching`: resolve every mention, de-duplicate, cut to the width. */
  function FallbackMatching(g: Graph, raw: seq<string>, width: int): (r: seq<string>)
    ensures NoDups(r)
    ensures 0 <= width ==> |r| <= width
    ensures forall x :: x in r ==> exists i :: 0 <= i < |raw| && x == MatchMention(g, raw[i])
    ensures |raw| > 0 && width > 0 ==> |r| > 0
  {
    var matched := seq(|raw|, i requires 0 <= i < |raw| => MatchMention(g, raw[i]));
    assert |raw| > 0 ==> matched[0] in matched;
    SliceToDedup(matched, width);
    SliceTo(Dedup(matched), width)
  }

  /** With no match anywhere in the graph, the fallback keeps the raw mentions themselves. */
  lemma FallbackKeepsUnmatched(g: Graph, raw: seq<string>, width: int)
    requires forall i :: 0 <= i < |raw| ==> g.exact(raw[i]) == [] && g.fuzzy(raw[i]) == []
    ensures FallbackMatching(g, raw, width) == SliceTo(Dedup(raw), width)
  {
    var matched := seq(|raw|, i requires 0 <= i < |raw| => MatchMention(g, raw[i]));
    assert matched == raw;
  }

  /**
   * `_extract_topic_entities`: ask the LLM for mentions, link them through the
   * retriever when there is one (falling back to graph matching when linking
   * raises), de-duplicate keeping first occurrences and cut to the width.
   */
  function TopicEntities(s: Setup, question: string): (r: Result<seq<string>>)
    ensures r.Failure? <==> s.ask(EntityExtraction(question)).Failure?
    ensures r.Success? ==> NoDups(r.value)
    ensures r.Success? && 0 <= s.width ==> |r.value| <= s.width
  {
    var reply :- s.ask(EntityExtraction(question));
    var raw := CommaItems(reply);
    match s.retriever
    case None => Success(FallbackMatching(s.graph, raw, s.width))
    case Some(search) =>
      match EntityLinking.Link(search, raw, s.threshold)
      case Success(linked) => Success(SliceTo(Dedup(linked.names), s.width))
      case Failure(_) => Success(FallbackMatching(s.graph, raw, s.width))
  }

  /** Without a retriever, a reply naming at least one entity always yields a topic entity. */
  lemma TopicEntitiesWithoutRetriever(s: Setup, question: string)
    requires s.retriever.None? && 0 < s.width
    requires s.ask(EntityExtraction(question)).Success?
    ensures TopicEntities(s, question).Success?
    ensures TopicEntities(s, question).value != [] <==> CommaItems(s.ask(EntityExtraction(question)).value) != []
  {
  }

  // ---------------------------------------------------------------- pruning

  /**
   * The pruning step shared by relations and entities: candidates that fit
   * the width are kept as they are without asking; otherwise the reply's
   * comma list is cut to the width, with no check against the candidates.
   */
  function Prune(ask: Prompt -> Result<string>, prompt: Prompt, candidates: seq<string>, width: int): (r: Result<seq<string>>)
    ensures |candidates| <= width ==> r == Success(candidates)
    ensures r.Failure? ==> |candidates| > width && ask(prompt).Failure?
    ensures |candidates| > width && ask(prompt).Success? ==> r.Success?
    ensures r.Success? && |candidates| > width ==> forall k :: 0 <= k < |r.value| ==> Listable(r.value[k])
    ensures r.Success? && 0 <= width ==> |r.value| <= width
  {
    if |candidates| <= width then Success(candidates)
    else
      var reply :- ask(prompt);
      Success(SliceTo(CommaItems(reply), width))
  }

  /** An empty reply prunes everything away: there is no first-k fallback. */
  lemma PruneEmptyReply(ask: Prompt -> Result<string>, prompt: Prompt, candidates: seq<string>, width: int)
    requires |candidates| > width && ask(prompt) == Success("")
    ensures Prune(ask, prompt, candidates, width) == Success([])
  {
    assert Split("", ',') == [""];
  }

  /** A reply that lists names (joined by ", ") selects the first `width` of them, candidates or not. */
  lemma PruneEchoedList(ask: Prompt -> Result<string>, prompt: Prompt, candidates: seq<string>, width: int, names: seq<string>)
    requires |candidates| > width
    requires forall k :: 0 <= k < |names| ==> Listable(names[k])
    requires ask(prompt) == Success(Join(names, ", "))
    ensures Prune(ask, prompt, candidates, width) == Success(SliceTo(names, width))
  {
    CommaItemsOfJoin(names);
  }

  /** The non-empty relation names of the neighbour rows, in row order. */
  function RelationsOf(ns: seq<Neighbor>): (r: seq<string>)
    ensures forall x :: x in r <==> x != "" && exists n :: n in ns && n.relation == x
  {
    if ns == [] then []
    else (if ns[0].relation != "" then [ns[0].relation] else []) + RelationsOf(ns[1..])
  }

  /** The distinct non-empty relation names of an entity's neighbours. */
  function RelationCandidates(ns: seq<Neighbor>): (r: seq<string>)
    ensures NoDups(r)
    ensures forall x :: x in r <==> x != "" && exists n :: n in ns && n.relation == x
  {
    Dedup(RelationsOf(ns))
  }

  /** The non-empty targets reached over exactly `relation`, in row order. */
  function TargetsOf(ns: seq<Neighbor>, relation: string): (r: seq<string>)
    ensures forall x :: x in r <==> x != "" && exists n :: n in ns && n.relation == relation && n.target == x
  {
    if ns == [] then []
    else (if ns[0].relation == relation && ns[0].target != "" then [ns[0].target] else [])
         + TargetsOf(ns[1..], relation)
  }

  /** The distinct non-empty targets over `relation`, first occurrence kept. */
  function TargetCandidates(ns: seq<Neighbor>, relation: string): (r: seq<string>)
    ensures NoDups(r)
  {
    Dedup(TargetsOf(ns, relation))
  }

  /** The target candidates are exactly the distinct non-empty targets reached over `relation`. */
  lemma TargetCandidatesMembers(ns: seq<Neighbor>, relation: string)
    ensures forall x :: x in TargetCandidates(ns, relation) <==>
      x != "" && exists n :: n in ns && n.relation == relation && n.target == x
  {
  }

  /** Relation pruning for one entity; no candidates means no relations. */
  function SelectRelations(s: Setup, question: string, entity: string): (r: Result<seq<string>>)
    ensures RelationCandidates(s.graph.neighbors(entity)) == [] ==> r == Success([])
    ensures r.Failure? ==> exists p :: s.ask(p).Failure?
    ensures r.Success? && 0 <= s.width ==> |r.value| <= s.width
  {
    var candidates := RelationCandidates(s.graph.neighbors(entity));
    if candidates == [] then Success([])
    else Prune(s.ask, RelationSelection(question, entity, candidates, s.width), candidates, s.width)
  }

  /** Entity pruning for one (source, relation) pair; at most 20 candidates are offered. */
  function SelectTargets(s: Setup, question: string, relation: string, candidates: seq<string>): (r: Result<seq<string>>)
    ensures |candidates| <= s.width ==> r == Success(candidates)
    ensures r.Failure? ==> exists p :: s.ask(p).Failure?
    ensures r.Success? && 0 <= s.width ==> |r.value| <= s.width
  {
    Prune(s.ask, EntitySelection(question, relation, SliceTo(candidates, 20), s.width), candidates, s.width)
  }

  /** Candidates beyond the twentieth never influence which targets are selected. */
  lemma SelectTargetsSeesTwenty(s: Setup, question: string, relation: string, c1: seq<string>, c2: seq<string>)
    requires |c1| > s.width && |c2| > s.width
    requires SliceTo(c1, 20) == SliceTo(c2, 20)
    ensures SelectTargets(s, question, relation, c1) == SelectTargets(s, question, relation, c2)
  {
  }

  // ---------------------------------------------------------------- exploration

  /** `_explore_relations` over distinct entities: one entry per entity, in order. */
  function ExploreRelations(s: Setup, question: string, entities: seq<string>): (r: Result<seq<(string, seq<string>)>>)
    ensures r.Success? ==> |r.value| == |entities|
    ensures r.Failure? ==> exists p :: s.ask(p).Failure?
  {
    if entities == [] then Success([])
    else
      var first :- SelectRelations(s, question, entities[0]);
      var rest :- ExploreRelations(s, question, entities[1..]);
      Success([(entities[0], first)] + rest)
  }

  /** Entry `i` pairs the `i`-th entity with its own selection. */
  lemma {:induction false} ExploreRelationsContent(s: Setup, question: string, entities: seq<string>)
    requires ExploreRelations(s, question, entities).Success?
    ensures forall i :: 0 <= i < |entities| ==>
      var r := ExploreRelations(s, question, entities).value;
      r[i].0 == entities[i] && SelectRelations(s, question, entities[i]) == Success(r[i].1)
  {
    if entities != [] {
      ExploreRelationsContent(s, question, entities[1..]);
      assert forall i :: 1 <= i < |entities| ==> entities[i] == entities[1..][i - 1];
    }
  }

  /** The target candidates of a (source, relation) pair. */
  function Candidates(s: Setup, pair: (string, string)): seq<string>
  {
    TargetCandidates(s.graph.neighbors(pair.0), pair.1)
  }

  /** The relations of `source` that have target candidates, in order, repeats kept. */
  function WithTargets(s: Setup, source: string, relations: seq<string>): (r: seq<string>)
    ensures |r| <= |relations|
    ensures forall x :: x in r <==> x in relations && Candidates(s, (source, x)) != []
  {
    if relations == [] then []
    else (if Candidates(s, (source, relations[0])) != [] then [relations[0]] else []) + WithTargets(s, source, relations[1..])
  }

  /** The (source, relation) pairs of one source that entity exploration prunes, in visiting order. */
  function SourcePairs(s: Setup, source: string, relations: seq<string>): (r: seq<(string, string)>)
    ensures |r| == |WithTargets(s, source, relations)|
    ensures forall k :: 0 <= k < |r| ==> r[k] == (source, WithTargets(s, source, relations)[k])
  {
    var w := WithTargets(s, source, relations);
    seq(|w|, k requires 0 <= k < |w| => (source, w[k]))
  }

  /** The pairs of every source in turn: the order in which `_explore_entities` visits them. */
  function Pairs(s: Setup, rels: seq<(string, seq<string>)>): seq<(string, string)>
  {
    if rels == [] then [] else SourcePairs(s, rels[0].0, rels[0].1) + Pairs(s, rels[1..])
  }

  /** Entity pruning of a pair succeeds. */
  predicate Prunes(s: Setup, question: string, pair: (string, string))
  {
    SelectTargets(s, question, pair.1, Candidates(s, pair)).Success?
  }

  /** Entity pruning of each pair in turn, stopping at the first failure. */
  function SelectEach(s: Setup, question: string, pairs: seq<(string, string)>): (r: Result<seq<Exploration>>)
    ensures r.Success? ==> |r.value| == |pairs|
    ensures r.Failure? ==> exists p :: s.ask(p).Failure?
  {
    if pairs == [] then Success([])
    else
      var targets :- SelectTargets(s, question, pairs[0].1, Candidates(s, pairs[0]));
      var rest :- SelectEach(s, question, pairs[1..]);
      Success([Exploration(pairs[0].0, pairs[0].1, targets)] + rest)
  }

  /**
   * Pruning every pair succeeds exactly when each pruning does, and then
   * exploration `k` is pair `k` with its selected targets.
   */
  lemma {:induction false} SelectEachContent(s: Setup, question: string, pairs: seq<(string, string)>)
    ensures SelectEach(s, question, pairs).Success? <==> forall k :: 0 <= k < |pairs| ==> Prunes(s, question, pairs[k])
    ensures SelectEach(s, question, pairs).Success? ==> forall k :: 0 <= k < |pairs| ==>
      SelectEach(s, question, pairs).value[k] ==
        Exploration(pairs[k].0, pairs[k].1, SelectTargets(s, question, pairs[k].1, Candidates(s, pairs[k])).value)
  {
    if pairs != [] {
      var tail := pairs[1..];
      SelectEachContent(s, question, tail);
      assert forall k :: 1 <= k < |pairs| ==> pairs[k] == tail[k - 1];
      if SelectEach(s, question, pairs).Success? {
        var r := SelectEach(s, question, pairs).value;
        assert r[1..] == SelectEach(s, question, tail).value;
        assert forall k :: 1 <= k < |pairs| ==> r[k] == r[1..][k - 1];
      }
    }
  }

  /** The error is that of the first pair whose pruning fails. */
  lemma SelectEachFirstError(s: Setup, question: string, pairs: seq<(string, string)>, k: nat)
    requires k < |pairs| && !Prunes(s, question, pairs[k])
    requires forall j :: 0 <= j < k ==> Prunes(s, question, pairs[j])
    ensures SelectEach(s, question, pairs) == Failure(SelectTargets(s, question, pairs[k].1, Candidates(s, pairs[k])).error)
  {
    var a := pairs[..k];
    var b := pairs[k..];
    assert pairs == a + b;
    assert forall j :: 0 <= j < |a| ==> a[j] == pairs[j];
    assert b[0] == pairs[k];
    SelectEachContent(s, question, a);
    SelectEachAppend(s, question, a, b);
  }

  /** Pruning the pairs of `a + b` prunes those of `a`, then those of `b`. */
  lemma {:induction false} SelectEachAppend(s: Setup, question: string, a: seq<(string, string)>, b: seq<(string, string)>)
    ensures SelectEach(s, question, a + b) ==
      if SelectEach(s, question, a).Failure? then SelectEach(s, question, a)
      else if SelectEach(s, question, b).Failure? then SelectEach(s, question, b)
      else Success(SelectEach(s, question, a).value + SelectEach(s, question, b).value)
  {
    if a != [] {
      var ab := a + b;
      assert ab[0] == a[0] && ab[1..] == a[1..] + b;
      SelectEachAppend(s, question, a[1..], b);
      var t := SelectTargets(s, question, a[0].1, Candidates(s, a[0]));
      var x := SelectEach(s, question, a[1..]);
      var y := SelectEach(s, question, b);
      if t.Success? && x.Success? && y.Success? {
        var head := Exploration(a[0].0, a[0].1, t.value);
        assert SelectEach(s, question, a) == Success([head] + x.value);
        assert SelectEach(s, question, ab) == Success([head] + (x.value + y.value));
        ConsAppend(head, x.value, y.value);
      }
    } else {
      assert a + b == b;
      if SelectEach(s, question, b).Success? {
        assert [] + SelectEach(s, question, b).value == SelectEach(s, question, b).value;
      }
    }
  }

  /**
   * The explorations of one source over its selected relations, in relation
   * order: a relation without target candidates is skipped, the others are
   * pruned, and the first pruning that fails is the result.
   */
  function ExploreSource(s: Setup, question: string, source: string, relations: seq<string>): (r: Result<seq<Exploration>>)
    ensures r.Failure? ==> exists p :: s.ask(p).Failure?
  {
    if relations == [] then Success([])
    else
      var candidates := TargetCandidates(s.graph.neighbors(source), relations[0]);
      if candidates == [] then ExploreSource(s, question, source, relations[1..])
      else
        var targets :- SelectTargets(s, question, relations[0], candidates);
        var rest :- ExploreSource(s, question, source, relations[1..]);
        Success([Exploration(source, relations[0], targets)] + rest)
  }

  /** The pairs of one source, relation by relation. */
  lemma SourcePairsCons(s: Setup, source: string, relations: seq<string>)
    requires relations != []
    ensures SourcePairs(s, source, relations) ==
      (if Candidates(s, (source, relations[0])) != [] then [(source, relations[0])] else []) + SourcePairs(s, source, relations[1..])
  {
    if Candidates(s, (source, relations[0])) != [] {
      SourcePairsKept(s, source, relations);
    } else {
      var tp := SourcePairs(s, source, relations[1..]);
      assert SourcePairs(s, source, relations) == tp;
      assert [] + tp == tp;
    }
  }

  /** A relation with candidates contributes its pair ahead of the rest. */
  lemma SourcePairsKept(s: Setup, source: string, relations: seq<string>)
    requires relations != [] && Candidates(s, (source, relations[0])) != []
    ensures SourcePairs(s, source, relations) == [(source, relations[0])] + SourcePairs(s, source, relations[1..])
  {
    var w := WithTargets(s, source, relations);
    var tail := WithTargets(s, source, relations[1..]);
    var lhs := SourcePairs(s, source, relations);
    var tp := SourcePairs(s, source, relations[1..]);
    assert w == [relations[0]] + tail;
    var rhs := [(source, relations[0])] + tp;
    forall k | 0 <= k < |lhs|
      ensures lhs[k] == rhs[k]
    {
      if k > 0 {
        assert w[k] == tail[k - 1] && rhs[k] == tp[k - 1];
      }
    }
    assert lhs == rhs;
  }

  /** One source's exploration prunes exactly its pairs, one exploration per relation that has candidates. */
  lemma {:induction false} ExploreSourcePairs(s: Setup, question: string, source: string, relations: seq<string>)
    ensures ExploreSource(s, question, source, relations) == SelectEach(s, question, SourcePairs(s, source, relations))
  {
    if relations != [] {
      var pairs := SourcePairs(s, source, relations);
      var tail := SourcePairs(s, source, relations[1..]);
      ExploreSourcePairs(s, question, source, relations[1..]);
      SourcePairsCons(s, source, relations);
      var here := ExploreSource(s, question, source, relations);
      if Candidates(s, (source, relations[0])) != [] {
        assert pairs[0] == (source, relations[0]) && pairs[1..] == tail;
        var t := SelectTargets(s, question, relations[0], Candidates(s, (source, relations[0])));
        var rest := SelectEach(s, question, tail);
        if t.Failure? {
          assert here == Failure(t.error);
        } else if rest.Failure? {
          assert here == Failure(rest.error);
        } else {
          assert here == Success([Exploration(source, relations[0], t.value)] + rest.value);
        }
      } else {
        assert [] + tail == tail;
        assert here == ExploreSource(s, question, source, relations[1..]);
      }
    }
  }

  /** `_explore_entities`: the explorations of every selected (source, relation) pair with candidates. */
  function ExploreEntities(s: Setup, question: string, rels: seq<(string, seq<string>)>): (r: Result<seq<Exploration>>)
    ensures r.Failure? ==> exists p :: s.ask(p).Failure?
  {
    if rels == [] then Success([])
    else
      var first :- ExploreSource(s, question, rels[0].0, rels[0].1);
      var rest :- ExploreEntities(s, question, rels[1..]);
      Success(first + rest)
  }

  /**
   * Entity exploration prunes exactly the pairs of `Pairs`, in order: it
   * succeeds when every pruning does, exploration `k` is pair `k` with its
   * selected targets, and otherwise the first failing pruning is the error.
   */
  lemma {:induction false} ExploreEntitiesPairs(s: Setup, question: string, rels: seq<(string, seq<string>)>)
    ensures ExploreEntities(s, question, rels) == SelectEach(s, question, Pairs(s, rels))
  {
    if rels != [] {
      ExploreSourcePairs(s, question, rels[0].0, rels[0].1);
      ExploreEntitiesPairs(s, question, rels[1..]);
      SelectEachAppend(s, question, SourcePairs(s, rels[0].0, rels[0].1), Pairs(s, rels[1..]));
    }
  }

  /** A pair is explored exactly when its source was explored with that relation selected and it has candidates. */
  lemma {:induction false} PairsMembers(s: Setup, rels: seq<(string, seq<string>)>, pair: (string, string))
    ensures pair in Pairs(s, rels) <==>
      (exists i :: 0 <= i < |rels| && rels[i].0 == pair.0 && pair.1 in rels[i].1) && Candidates(s, pair) != []
  {
    if rels != [] {
      PairsMembers(s, rels[1..], pair);
      var here := SourcePairs(s, rels[0].0, rels[0].1);
      assert pair in here <==> pair.0 == rels[0].0 && pair.1 in WithTargets(s, rels[0].0, rels[0].1) by {
        if pair in here {
          var k :| 0 <= k < |here| && here[k] == pair;
        }
        if pair.0 == rels[0].0 && pair.1 in WithTargets(s, rels[0].0, rels[0].1) {
          var w := WithTargets(s, rels[0].0, rels[0].1);
          var k :| 0 <= k < |w| && w[k] == pair.1;
          assert here[k] == pair;
        }
      }
      assert forall i :: 1 <= i < |rels| ==> rels[i] == rels[1..][i - 1];
      if (exists i :: 0 <= i < |rels| && rels[i].0 == pair.0 && pair.1 in rels[i].1) && Candidates(s, pair) != [] {
        var i :| 0 <= i < |rels| && rels[i].0 == pair.0 && pair.1 in rels[i].1;
        if i > 0 {
          assert rels[1..][i - 1] == rels[i];
        }
      }
    }
  }

  /**
   * Relation and entity exploration from the given tails, then expansion:
   * the first `width` new paths in generation order, or the paths unchanged
   * when nothing was generated.
   */
  function Step(s: Setup, question: string, paths: seq<Path>, tails: seq<string>): (r: Result<seq<Path>>)
    ensures r.Failure? ==> (exists p :: s.ask(p).Failure?) || !AllNonEmpty(paths)
    ensures r.Success? && AllChained(paths) ==> AllChained(r.value)
    ensures r.Success? && 0 <= s.width && |paths| <= s.width ==> |r.value| <= s.width
    ensures r.Success? && 0 < s.width ==> (r.value != [] <==> paths != [])
    ensures r.Success? ==>
      var rels := ExploreRelations(s, question, Dedup(tails));
      rels.Success? && ExploreEntities(s, question, rels.value).Success? && AllNonEmpty(paths) &&
      r.value == Advance(paths, ExploreEntities(s, question, rels.value).value, s.width)
  {
    var rels :- ExploreRelations(s, question, Dedup(tails));
    var results :- ExploreEntities(s, question, rels);
    if !AllNonEmpty(paths) then Failure(IndexErrorMessage)
    else Success(Advance(paths, results, s.width))
  }

  /** The beam after one round: the grown paths cut to the width, or the old beam when nothing grew. */
  function Advance(paths: seq<Path>, results: seq<Exploration>, width: int): (r: seq<Path>)
    requires AllNonEmpty(paths)
    ensures AllChained(paths) ==> AllChained(r)
    ensures 0 <= width && |paths| <= width ==> |r| <= width
    ensures 0 < width ==> (r != [] <==> paths != [])
    ensures Expand(paths, results) == [] ==> r == paths
    ensures Expand(paths, results) != [] ==> r == SliceTo(Expand(paths, results), width)
  {
    var grown := Expand(paths, results);
    ExpandChained(paths, results);
    ExpandGrown(paths, results);
    assert grown != [] ==> grown[0] in grown && grown[0][..|grown[0]| - 1] in paths;
    if grown == [] then paths else SliceTo(grown, width)
  }

  /**
   * `_beam_search_iteration`. `ToGReasoning` seeds from the topic entities
   * when no path has a tail and skips empty paths when collecting tails;
   * `ToGService` seeds only from an empty beam and takes every path's tail.
   */
  function Iterate(s: Setup, question: string, beam: seq<Path>): (r: Result<seq<Path>>)
    ensures r.Failure? ==> (exists p :: s.ask(p).Failure?) || !AllNonEmpty(beam)
    ensures r.Success? && AllChained(beam) ==> AllChained(r.value)
    ensures r.Success? && 0 <= s.width && |beam| <= s.width ==> |r.value| <= s.width
    ensures s.variant.Reasoning? && Tails(beam) != [] ==> r == Step(s, question, beam, Tails(beam))
    ensures s.variant.Service? && beam != [] && AllNonEmpty(beam) ==> r == Step(s, question, beam, Tails(beam))
    ensures (if s.variant.Reasoning? then Tails(beam) == [] else beam == []) ==>
      var topics := TopicEntities(s, question);
      r == if topics.Failure? then Failure(topics.error) else Step(s, question, Seeds(topics.value), topics.value)
  {
    match s.variant
    case Reasoning =>
      var tails := Tails(beam);
      if tails == [] then
        var topics :- TopicEntities(s, question);
        Step(s, question, Seeds(topics), topics)
      else Step(s, question, beam, tails)
    case Service =>
      if beam == [] then
        var topics :- TopicEntities(s, question);
        Step(s, question, Seeds(topics), topics)
      else if !AllNonEmpty(beam) then Failure(IndexErrorMessage)
      else Step(s, question, beam, Tails(beam))
  }

  /**
   * `_evaluate_sufficiency`: false without asking when there is no non-empty
   * path; otherwise whether the lower-cased reply contains "yes".
   */
  function Sufficient(ask: Prompt -> Result<string>, question: string, paths: seq<Path>): (r: Result<bool>)
    ensures (forall i :: 0 <= i < |paths| ==> paths[i] == []) ==> r == Success(false)
    ensures r.Failure? ==> ask(Evaluation(question, FormatPaths(paths))).Failure?
    ensures r.Success? && r.value ==> (ask(Evaluation(question, FormatPaths(paths))).Success?
      && Contains(Lower(ask(Evaluation(question, FormatPaths(paths))).value), "yes"))
    ensures (exists i :: 0 <= i < |paths| && paths[i] != []) && ask(Evaluation(question, FormatPaths(paths))).Success? ==>
      r == Success(Contains(Lower(ask(Evaluation(question, FormatPaths(paths))).value), "yes"))
  {
    if forall i :: 0 <= i < |paths| ==> paths[i] == [] then Success(false)
    else
      var reply :- ask(Evaluation(question, FormatPaths(paths)));
      Success(Contains(Lower(reply), "yes"))
  }

  // ---------------------------------------------------------------- the reasoning loop

  /** The beam after a run of iterations that started from `start`. */
  function FinalBeam(start: seq<Path>, history: seq<seq<Path>>): seq<Path>
  {
    if history == [] then start else history[|history| - 1]
  }

  /** The loop goes on after beam `b`: it is non-empty and judged insufficient. */
  predicate Continues(judge: seq<Path> -> Result<bool>, b: seq<Path>)
  {
    b != [] && judge(b) == Success(false)
  }

  /** The loop stops after beam `b`: it is empty or judged sufficient. */
  predicate Stops(judge: seq<Path> -> Result<bool>, b: seq<Path>)
  {
    b == [] || judge(b) == Success(true)
  }

  /**
   * The depth-bounded loop of `reason`, over an iteration `step` and a
   * sufficiency test `judge`: at most `fuel` iterations, stopping after one
   * that leaves the beam empty or that is judged sufficient. The result
   * lists the beam after every iteration; an exception ends the loop.
   */
  function Loop(step: seq<Path> -> Result<seq<Path>>, judge: seq<Path> -> Result<bool>, beam: seq<Path>, fuel: nat): (r: Result<seq<seq<Path>>>)
    ensures r.Success? ==> |r.value| <= fuel
    ensures r.Success? ==> forall i :: 0 <= i < |r.value| - 1 ==> Continues(judge, r.value[i])
    ensures r.Success? && 0 < |r.value| < fuel ==> Stops(judge, r.value[|r.value| - 1])
    ensures r.Success? ==> (r.value == [] <==> fuel == 0)
    ensures r.Success? && fuel > 0 ==> step(beam) == Success(r.value[0])
    decreases fuel
  {
    if fuel == 0 then Success([])
    else
      var next :- step(beam);
      if next == [] then Success([next])
      else
        var enough :- judge(next);
        if enough then Success([next])
        else
          var rest :- Loop(step, judge, next, fuel - 1);
          var h := [next] + rest;
          assert forall i :: 1 <= i < |h| ==> h[i] == rest[i - 1];
          Success(h)
  }

  /** `reason`'s loop: the engine's iteration, judged by the LLM. */
  function Explore(s: Setup, question: string, beam: seq<Path>, fuel: nat): Result<seq<seq<Path>>>
  {
    Loop(b => Iterate(s, question, b), b => Sufficient(s.ask, question, b), beam, fuel)
  }

  /** The beam a run of `reason` ends on: the last one the loop produced, or none when it raised. */
  function FinalPaths(s: Setup, question: string, depth: int): seq<Path>
  {
    match Explore(s, question, [], Max(0, depth))
    case Success(history) => FinalBeam([], history)
    case Failure(_) => []
  }

  /** The record `reason` returns (the wall-clock `execution_time` is left out). */
  datatype Outcome = Outcome(success: bool, question: string, answer: string, errorMessage: Option<string>)

  const NoAnswer: string := "无法从知识图谱中找到足够的信息来回答该问题。"

  function Errored(question: string, e: string): Outcome
  {
    Outcome(false, question, "推理过程出错: " + e, Some(e))
  }

  /**
   * `reason` with a depth limit: explore from an empty beam, then answer from
   * the final beam if it is non-empty; any exception becomes a failed outcome
   * carrying its message.
   */
  function Run(s: Setup, question: string, depth: int): (r: Outcome)
    ensures r.question == question
    ensures r.success ==> r.errorMessage.None?
    ensures r.errorMessage.Some? ==> !r.success && r.answer == "推理过程出错: " + r.errorMessage.value
    ensures !r.success && r.errorMessage.None? ==> r.answer == NoAnswer
    ensures r.success <==> (Explore(s, question, [], Max(0, depth)).Success?
      && FinalBeam([], Explore(s, question, [], Max(0, depth)).value) != []
      && s.ask(AnswerGeneration(question, FormatPaths(FinalBeam([], Explore(s, question, [], Max(0, depth)).value)))).Success?)
  {
    match Explore(s, question, [], Max(0, depth))
    case Failure(e) => Errored(question, e)
    case Success(history) =>
      var beam := FinalBeam([], history);
      if beam == [] then Outcome(false, question, NoAnswer, None)
      else
        match s.ask(AnswerGeneration(question, FormatPaths(beam)))
        case Success(answer) => Outcome(true, question, answer, None)
        case Failure(e) => Errored(question, e)
  }

  // ---------------------------------------------------------------- properties of the loop

  /** A property of beams that every iteration preserves holds of every beam the loop visits. */
  lemma {:induction false} LoopInvariant(step: seq<Path> -> Result<seq<Path>>, judge: seq<Path> -> Result<bool>,
                                         inv: seq<Path> -> bool, beam: seq<Path>, fuel: nat)
    requires inv(beam)
    requires forall b {:trigger step(b)} :: inv(b) && step(b).Success? ==> inv(step(b).value)
    requires Loop(step, judge, beam, fuel).Success?
    ensures forall i :: 0 <= i < |Loop(step, judge, beam, fuel).value| ==> inv(Loop(step, judge, beam, fuel).value[i])
    decreases fuel
  {
    if fuel > 0 {
      var next := step(beam).value;
      if next != [] && judge(next) == Success(false) {
        LoopInvariant(step, judge, inv, next, fuel - 1);
        var rest := Loop(step, judge, next, fuel - 1).value;
        assert Loop(step, judge, beam, fuel).value == [next] + rest;
      }
    }
  }

  /**
   * When iterations keep the beam non-empty and the judge never raises, the
   * loop does not raise and ends on a non-empty beam.
   */
  lemma {:induction false} LoopKeepsBeam(step: seq<Path> -> Result<seq<Path>>, judge: seq<Path> -> Result<bool>,
                                         inv: seq<Path> -> bool, beam: seq<Path>, fuel: nat)
    requires beam != [] && inv(beam)
    requires forall b {:trigger step(b)} :: b != [] && inv(b) ==> step(b).Success? && step(b).value != [] && inv(step(b).value)
    requires forall b :: b != [] ==> judge(b).Success?
    ensures Loop(step, judge, beam, fuel).Success?
    ensures FinalBeam(beam, Loop(step, judge, beam, fuel).value) != []
    decreases fuel
  {
    if fuel > 0 {
      var next := step(beam).value;
      if !judge(next).value {
        LoopKeepsBeam(step, judge, inv, next, fuel - 1);
        var rest := Loop(step, judge, next, fuel - 1).value;
        assert Loop(step, judge, beam, fuel).value == [next] + rest;
      }
    }
  }

  /** When iterations preserve a property and never raise on it, and the judge never raises, the loop never raises. */
  lemma {:induction false} LoopSucceeds(step: seq<Path> -> Result<seq<Path>>, judge: seq<Path> -> Result<bool>,
                                        inv: seq<Path> -> bool, beam: seq<Path>, fuel: nat)
    requires inv(beam)
    requires forall b {:trigger step(b)} :: inv(b) ==> step(b).Success? && inv(step(b).value)
    requires forall b :: judge(b).Success?
    ensures Loop(step, judge, beam, fuel).Success?
    decreases fuel
  {
    if fuel > 0 {
      var next := step(beam).value;
      if next != [] && !judge(next).value {
        LoopSucceeds(step, judge, inv, next, fuel - 1);
      }
    }
  }

  /** With a reliable LLM, an iteration on a non-empty chained beam keeps a non-empty chained beam. */
  lemma IterateKeepsBeam(s: Setup, question: string, beam: seq<Path>)
    requires Reliable(s.ask) && 0 < s.width
    requires beam != [] && AllChained(beam)
    ensures Iterate(s, question, beam).Success?
    ensures Iterate(s, question, beam).value != [] && AllChained(Iterate(s, question, beam).value)
  {
    assert AllNonEmpty(beam);
    assert Tails(beam) != [] by {
      assert beam[0] != [];
    }
  }

  /** With a reliable LLM, the first iteration from an empty beam yields paths iff there are topic entities. */
  lemma IterateFromEmpty(s: Setup, question: string)
    requires Reliable(s.ask) && 0 < s.width
    ensures TopicEntities(s, question).Success?
    ensures Iterate(s, question, []).Success?
    ensures Iterate(s, question, []).value != [] <==> TopicEntities(s, question).value != []
    ensures AllChained(Iterate(s, question, []).value)
  {
    assert s.ask(EntityExtraction(question)).Success?;
    var topics := TopicEntities(s, question).value;
    var seeds := Seeds(topics);
    assert AllNonEmpty(seeds);
    assert Tails([]) == [];
    assert Iterate(s, question, []) == Step(s, question, seeds, topics);
    assert Step(s, question, seeds, topics).Success?;
  }

  /** With a reliable LLM, the sufficiency test never raises. */
  lemma SufficientReliable(s: Setup, question: string, b: seq<Path>)
    requires Reliable(s.ask)
    ensures Sufficient(s.ask, question, b).Success?
  {
    assert s.ask(Evaluation(question, FormatPaths(b))).Success?;
  }

  /**
   * With an LLM that never raises, a run never ends in the exception branch:
   * the graph lookups cannot raise, and chained beams have no empty path.
   */
  lemma RunReliable(s: Setup, question: string, depth: int)
    requires Reliable(s.ask)
    ensures Explore(s, question, [], Max(0, depth)).Success?
    ensures Run(s, question, depth).errorMessage.None?
    ensures Run(s, question, depth).success <==> FinalPaths(s, question, depth) != []
  {
    var step := b => Iterate(s, question, b);
    var judge := b => Sufficient(s.ask, question, b);
    forall b | AllChained(b)
      ensures step(b).Success? && AllChained(step(b).value)
    {
      assert AllNonEmpty(b);
    }
    forall b: seq<Path>
      ensures judge(b).Success?
    {
      SufficientReliable(s, question, b);
    }
    LoopSucceeds(step, judge, AllChained, [], Max(0, depth));
    var beam := FinalBeam([], Explore(s, question, [], Max(0, depth)).value);
    assert s.ask(AnswerGeneration(question, FormatPaths(beam))).Success?;
  }

  /** Once the beam is non-empty and chained, a reliable LLM keeps it non-empty until the loop stops. */
  lemma ExploreKeepsBeam(s: Setup, question: string, beam: seq<Path>, fuel: nat)
    requires Reliable(s.ask) && 0 < s.width
    requires beam != [] && AllChained(beam)
    ensures Explore(s, question, beam, fuel).Success?
    ensures FinalBeam(beam, Explore(s, question, beam, fuel).value) != []
  {
    var step := b => Iterate(s, question, b);
    var judge := b => Sufficient(s.ask, question, b);
    forall b | b != [] && AllChained(b)
      ensures step(b).Success? && step(b).value != [] && AllChained(step(b).value)
    {
      IterateKeepsBeam(s, question, b);
    }
    forall b: seq<Path> | b != []
      ensures judge(b).Success?
    {
      SufficientReliable(s, question, b);
    }
    LoopKeepsBeam(step, judge, AllChained, beam, fuel);
  }

  /**
   * A loop whose first iteration succeeds, under the hypotheses of
   * `LoopKeepsBeam`, ends on a non-empty beam exactly when that first
   * iteration produced one.
   */
  lemma LoopFromFirst(step: seq<Path> -> Result<seq<Path>>, judge: seq<Path> -> Result<bool>,
                      inv: seq<Path> -> bool, beam: seq<Path>, fuel: nat)
    requires 1 <= fuel && step(beam).Success? && inv(step(beam).value)
    requires forall b {:trigger step(b)} :: b != [] && inv(b) ==> step(b).Success? && step(b).value != [] && inv(step(b).value)
    requires forall b :: b != [] ==> judge(b).Success?
    ensures Loop(step, judge, beam, fuel).Success?
    ensures FinalBeam(beam, Loop(step, judge, beam, fuel).value) != [] <==> step(beam).value != []
  {
    var first := step(beam).value;
    if first == [] {
      assert Loop(step, judge, beam, fuel) == Success([first]);
    } else if judge(first).value {
      assert Loop(step, judge, beam, fuel) == Success([first]);
    } else {
      LoopKeepsBeam(step, judge, inv, first, fuel - 1);
      var rest := Loop(step, judge, first, fuel - 1).value;
      assert Loop(step, judge, beam, fuel) == Success([first] + rest);
      assert FinalBeam(beam, [first] + rest) == FinalBeam(first, rest);
    }
  }

  /** With a reliable LLM, the loop from an empty beam ends on paths iff there are topic entities. */
  lemma ExploreFromEmpty(s: Setup, question: string, fuel: nat)
    requires Reliable(s.ask) && 0 < s.width && 1 <= fuel
    ensures TopicEntities(s, question).Success?
    ensures Explore(s, question, [], fuel).Success?
    ensures FinalBeam([], Explore(s, question, [], fuel).value) != [] <==> TopicEntities(s, question).value != []
  {
    IterateFromEmpty(s, question);
    var step := b => Iterate(s, question, b);
    var judge := b => Sufficient(s.ask, question, b);
    forall b | b != [] && AllChained(b)
      ensures step(b).Success? && step(b).value != [] && AllChained(step(b).value)
    {
      IterateKeepsBeam(s, question, b);
    }
    forall b: seq<Path> | b != []
      ensures judge(b).Success?
    {
      SufficientReliable(s, question, b);
    }
    LoopFromFirst(step, judge, AllChained, [], fuel);
  }

  /**
   * With an LLM that never raises and a positive width, a run of depth at
   * least one succeeds exactly when topic extraction finds an entity: the
   * graph may add nothing, since a stalled expansion keeps the seed paths.
   */
  lemma RunSucceedsIffTopics(s: Setup, question: string, depth: int)
    requires Reliable(s.ask) && 0 < s.width && 1 <= depth
    ensures TopicEntities(s, question).Success?
    ensures Run(s, question, depth).success <==> TopicEntities(s, question).value != []
  {
    ExploreFromEmpty(s, question, depth);
    var beam := FinalBeam([], Explore(s, question, [], depth).value);
    assert s.ask(AnswerGeneration(question, FormatPaths(beam))).Success?;
  }

  /** Every beam the loop visits consists of chained paths. */
  lemma ExploreChained(s: Setup, question: string, beam: seq<Path>, fuel: nat)
    requires AllChained(beam)
    ensures Explore(s, question, beam, fuel).Success? ==>
      forall i :: 0 <= i < |Explore(s, question, beam, fuel).value| ==> AllChained(Explore(s, question, beam, fuel).value[i])
  {
    if Explore(s, question, beam, fuel).Success? {
      LoopInvariant(b => Iterate(s, question, b), b => Sufficient(s.ask, question, b), AllChained, beam, fuel);
    }
  }

  /** Every beam the loop visits holds at most `width` paths. */
  lemma ExploreBounded(s: Setup, question: string, beam: seq<Path>, fuel: nat)
    requires 0 <= s.width && |beam| <= s.width
    ensures Explore(s, question, beam, fuel).Success? ==>
      forall i :: 0 <= i < |Explore(s, question, beam, fuel).value| ==> |Explore(s, question, beam, fuel).value[i]| <= s.width
  {
    if Explore(s, question, beam, fuel).Success? {
      var inv := b => |b| <= s.width;
      LoopInvariant(b => Iterate(s, question, b), b => Sufficient(s.ask, question, b), inv, beam, fuel);
      assert forall i :: 0 <= i < |Explore(s, question, beam, fuel).value| ==> inv(Explore(s, question, beam, fuel).value[i]);
    }
  }

  /** An LLM that always raises never lets a run succeed, whatever the graph holds. */
  lemma RunNeedsTheLlm(s: Setup, question: string, depth: int)
    requires forall p :: s.ask(p).Failure?
    ensures !Run(s, question, depth).success
  {
  }
}
