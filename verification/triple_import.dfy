/**
 * `import_relationships_without_apoc` (insert_to_neo4j.py) up to the point
 * where batches are sent to the database: field detection on the first
 * triple, the id-or-name match field, and the grouping of triples into one
 * batch per normalised relationship type. The Cypher each batch runs is not
 * modelled.
 */
module TripleImport {
  import opened Wrappers
  import opened Text
  import opened Records
  import RelationType

  const SubjectKeys: seq<string> := ["subject_id", "subject", "source", "head"]
  const ObjectKeys: seq<string> := ["object_id", "object", "target", "tail"]

  /** The first key of `keys` that `rec` holds. */
  function FirstPresent(keys: seq<string>, rec: Record): (r: Option<string>)
    ensures r.Some? ==> exists i :: 0 <= i < |keys| && keys[i] == r.value && r.value in rec && forall j :: 0 <= j < i ==> keys[j] !in rec
    ensures r.None? ==> forall k :: k in keys ==> k !in rec
  {
    if keys == [] then None
    else if keys[0] in rec then
      assert keys[0] == keys[0];
      Some(keys[0])
    else
      var r := FirstPresent(keys[1..], rec);
      if r.Some? then
        var i :| 0 <= i < |keys[1..]| && keys[1..][i] == r.value && r.value in rec && forall j :: 0 <= j < i ==> keys[1..][j] !in rec;
        assert keys[i + 1] == r.value;
        assert forall j :: 0 <= j < i + 1 ==> keys[j] !in rec by {
          forall j | 0 <= j < i + 1 ensures keys[j] !in rec {
            if j > 0 { assert keys[j] == keys[1..][j - 1]; }
          }
        }
        r
      else r
  }

  /** A value that looks like a generated identifier: a long dashed id or a 32-character hash. */
  predicate IdLike(v: string)
  {
    (Contains(v, "-") && |v| > 20) || |v| == 32
  }

  /** The node property the batches match endpoints on. */
  function MatchField(sample: Cell): (f: string)
    ensures f == "id" || f == "name"
    ensures f == "id" <==> IdLike(Str(sample))
  {
    if IdLike(Str(sample)) then "id" else "name"
  }

  /**
   * `_normalize_relationship_type` applied to whatever `triple.get('predicate',
   * 'RELATED_TO')` returned: a falsy value gives `RELATED_TO` and any other
   * non-string raises, having no `strip`.
   */
  function NormalizeCell(c: Cell): (r: Result<string>)
    ensures c.Text? ==> r == Success(RelationType.Normalize(c.s))
    ensures !c.Text? ==> (r.Success? <==> !Truthy(c))
    ensures r.Success? ==> RelationType.WellFormed(r.value)
  {
    match c
    case Text(s) => Success(RelationType.Normalize(s))
    case _ =>
      if Truthy(c) then Failure("AttributeError: object has no attribute 'strip'")
      else
        RelationType.RelatedToWellFormed();
        Success(RelationType.RelatedTo)
  }

  /** A NaN or infinite predicate is truthy, so it raises like any other non-text value. */
  lemma NormalizeCellNonFinite(r: string)
    requires NonFinite(r)
    ensures NormalizeCell(Number(r)).Failure?
  {
  }

  /** One row of a batch. */
  datatype RelRow = RelRow(subjectVal: Cell, objectVal: Cell, weight: Cell, description: Cell,
                           originalPredicate: Cell, gragId: Cell)

  /** The relationship type and batch row of one triple; a missing endpoint key raises `KeyError`. */
  function Entry(t: Record, subjectKey: string, objectKey: string): (r: Result<(string, RelRow)>)
    ensures r.Success? <==> NormalizeCell(GetOr(t, "predicate", Text("RELATED_TO"))).Success? && subjectKey in t && objectKey in t
    ensures r.Success? ==> r.value.0 == NormalizeCell(GetOr(t, "predicate", Text("RELATED_TO"))).value
    ensures r.Success? ==> r.value.1.subjectVal == t[subjectKey] && r.value.1.objectVal == t[objectKey]
    ensures r.Success? ==> r.value.1.weight == GetOr(t, "weight", Number("0.0")) && r.value.1.description == GetOr(t, "description", Text(""))
    ensures r.Success? ==> r.value.1.gragId == GetOr(t, "grag_id", Text(""))
  {
    var original := GetOr(t, "predicate", Text("RELATED_TO"));
    var relType :- NormalizeCell(original);
    if subjectKey !in t then Failure("KeyError: " + subjectKey)
    else if objectKey !in t then Failure("KeyError: " + objectKey)
    else Success((relType, RelRow(t[subjectKey], t[objectKey], GetOr(t, "weight", Number("0.0")),
                                  GetOr(t, "description", Text("")), original, GetOr(t, "grag_id", Text("")))))
  }

  /** The entries of every triple in order, or the first exception. */
  function Entries(ts: seq<Record>, subjectKey: string, objectKey: string): (r: Result<seq<(string, RelRow)>>)
    ensures r.Success? ==> |r.value| == |ts|
  {
    if ts == [] then Success([])
    else
      var x :- Entry(ts[0], subjectKey, objectKey);
      var rest :- Entries(ts[1..], subjectKey, objectKey);
      Success([x] + rest)
  }

  lemma EntriesOkCons(ts: seq<Record>, subjectKey: string, objectKey: string)
    requires ts != []
    ensures (forall i :: 0 <= i < |ts| ==> Entry(ts[i], subjectKey, objectKey).Success?) <==>
      Entry(ts[0], subjectKey, objectKey).Success? && (forall i :: 0 <= i < |ts[1..]| ==> Entry(ts[1..][i], subjectKey, objectKey).Success?)
  {
    var ok := (t: Record) => Entry(t, subjectKey, objectKey).Success?;
    AllCons(ts, ok);
    assert forall i :: 0 <= i < |ts| ==> ok(ts[i]) == Entry(ts[i], subjectKey, objectKey).Success?;
    assert forall i :: 0 <= i < |ts[1..]| ==> ok(ts[1..][i]) == Entry(ts[1..][i], subjectKey, objectKey).Success?;
  }

  /** A property holds of every element exactly when it holds of the head and of every element of the tail. */
  lemma AllCons<T>(xs: seq<T>, p: T -> bool)
    requires xs != []
    ensures (forall i :: 0 <= i < |xs| ==> p(xs[i])) <==> p(xs[0]) && (forall i :: 0 <= i < |xs[1..]| ==> p(xs[1..][i]))
  {
    assert forall i :: 1 <= i < |xs| ==> xs[i] == xs[1..][i - 1];
  }

  /** The loop succeeds exactly when every triple's entry does. */
  lemma {:induction false} EntriesSucceed(ts: seq<Record>, subjectKey: string, objectKey: string)
    ensures Entries(ts, subjectKey, objectKey).Success? <==> forall i :: 0 <= i < |ts| ==> Entry(ts[i], subjectKey, objectKey).Success?
  {
    if ts != [] {
      var tail := ts[1..];
      EntriesSucceed(tail, subjectKey, objectKey);
      assert Entries(ts, subjectKey, objectKey).Success? <==>
        Entry(ts[0], subjectKey, objectKey).Success? && Entries(tail, subjectKey, objectKey).Success?;
      EntriesOkCons(ts, subjectKey, objectKey);
    }
  }

  /** A successful loop yields every triple's entry, in order. */
  lemma {:induction false} EntriesContent(ts: seq<Record>, subjectKey: string, objectKey: string)
    requires Entries(ts, subjectKey, objectKey).Success?
    ensures forall i :: 0 <= i < |ts| ==>
      Entry(ts[i], subjectKey, objectKey).Success? &&
      Entries(ts, subjectKey, objectKey).value[i] == Entry(ts[i], subjectKey, objectKey).value
  {
    if ts != [] {
      var tail := ts[1..];
      EntriesContent(tail, subjectKey, objectKey);
      var r := Entries(ts, subjectKey, objectKey).value;
      var rest := Entries(tail, subjectKey, objectKey).value;
      assert r == [Entry(ts[0], subjectKey, objectKey).value] + rest;
      forall i | 0 <= i < |ts|
        ensures Entry(ts[i], subjectKey, objectKey).Success? && r[i] == Entry(ts[i], subjectKey, objectKey).value
      {
        if i > 0 {
          assert ts[i] == tail[i - 1] && r[i] == rest[i - 1];
        }
      }
    }
  }

  // ---------------------------------------------------------------- grouping

  type Groups = seq<(string, seq<RelRow>)>

  function KeyIndex(g: Groups, t: string): (r: Option<nat>)
    ensures r.Some? ==> r.value < |g| && g[r.value].0 == t
    ensures r.None? <==> t !in Keys(g)
  {
    if g == [] then None
    else if g[|g| - 1].0 == t then Some(|g| - 1)
    else
      var r := KeyIndex(g[..|g| - 1], t);
      assert Keys(g) == Keys(g[..|g| - 1]) + [g[|g| - 1].0];
      r
  }

  /** One iteration of the grouping loop: append to the type's bucket, opening it when new. */
  function AddEntry(g: Groups, x: (string, RelRow)): Groups
  {
    match KeyIndex(g, x.0)
    case Some(j) => g[j := (x.0, g[j].1 + [x.1])]
    case None => g + [(x.0, [x.1])]
  }

  /** The grouping loop over the entries, left to right. */
  function GroupFrom(g: Groups, xs: seq<(string, RelRow)>): Groups
    decreases |xs|
  {
    if xs == [] then g else GroupFrom(AddEntry(g, xs[0]), xs[1..])
  }

  /** The rows of the entries of type `t`, in order. */
  function RowsOf(xs: seq<(string, RelRow)>, t: string): seq<RelRow>
  {
    if xs == [] then []
    else RowsOf(xs[..|xs| - 1], t) + (if xs[|xs| - 1].0 == t then [xs[|xs| - 1].1] else [])
  }

  /** The batch of each key in `ks`: the key and the rows of that type, in triple order. */
  function BatchesOf(xs: seq<(string, RelRow)>, ks: seq<string>): (g: Groups)
    ensures |g| == |ks| && Keys(g) == ks
  {
    seq(|ks|, i requires 0 <= i < |ks| => (ks[i], RowsOf(xs, ks[i])))
  }

  /**
   * Reference definition of the batches: one per distinct type in order of
   * first appearance, holding exactly that type's rows in triple order.
   */
  function Batches(xs: seq<(string, RelRow)>): Groups
  {
    BatchesOf(xs, Dedup(Keys(xs)))
  }

  lemma {:induction false} RowsOfAbsent(xs: seq<(string, RelRow)>, t: string)
    requires t !in Keys(xs)
    ensures RowsOf(xs, t) == []
  {
    if xs != [] {
      assert Keys(xs[..|xs| - 1]) == Keys(xs)[..|xs| - 1];
      RowsOfAbsent(xs[..|xs| - 1], t);
    }
  }

  lemma RowsOfSnoc(p: seq<(string, RelRow)>, x: (string, RelRow), t: string)
    ensures RowsOf(p + [x], t) == RowsOf(p, t) + (if x.0 == t then [x.1] else [])
  {
    var q := p + [x];
    assert q[..|q| - 1] == p;
  }

  /** The type list of the grouped entries grows as de-duplication says. */
  lemma KeysSnoc(p: seq<(string, RelRow)>, x: (string, RelRow))
    ensures Dedup(Keys(p + [x])) == if x.0 in Dedup(Keys(p)) then Dedup(Keys(p)) else Dedup(Keys(p)) + [x.0]
    ensures forall t :: t in Dedup(Keys(p)) <==> t in Keys(p)
  {
    assert Keys(p + [x]) == Keys(p) + [x.0];
    DedupSnoc(Keys(p), x.0);
  }

  lemma AddEntryPresent(p: seq<(string, RelRow)>, x: (string, RelRow), ks: seq<string>, j: nat)
    requires j < |ks| && ks[j] == x.0 && NoDups(ks)
    ensures BatchesOf(p, ks)[j := (x.0, BatchesOf(p, ks)[j].1 + [x.1])] == BatchesOf(p + [x], ks)
  {
    var b := BatchesOf(p + [x], ks);
    forall i | 0 <= i < |ks|
      ensures b[i] == BatchesOf(p, ks)[j := (x.0, BatchesOf(p, ks)[j].1 + [x.1])][i]
    {
      RowsOfSnoc(p, x, ks[i]);
      assert b[i] == (ks[i], RowsOf(p + [x], ks[i]));
      assert BatchesOf(p, ks)[i] == (ks[i], RowsOf(p, ks[i]));
      if i != j {
        assert ks[i] != ks[j];
        assert RowsOf(p + [x], ks[i]) == RowsOf(p, ks[i]);
      }
    }
  }

  lemma AddEntryAbsent(p: seq<(string, RelRow)>, x: (string, RelRow), ks: seq<string>)
    requires x.0 !in ks && x.0 !in Keys(p)
    ensures BatchesOf(p, ks) + [(x.0, [x.1])] == BatchesOf(p + [x], ks + [x.0])
  {
    RowsOfAbsent(p, x.0);
    var b := BatchesOf(p + [x], ks + [x.0]);
    forall i | 0 <= i < |ks|
      ensures b[i] == BatchesOf(p, ks)[i]
    {
      RowsOfSnoc(p, x, ks[i]);
      assert b[i] == ((ks + [x.0])[i], RowsOf(p + [x], (ks + [x.0])[i]));
      assert (ks + [x.0])[i] == ks[i] && ks[i] != x.0;
      assert RowsOf(p + [x], ks[i]) == RowsOf(p, ks[i]);
      assert BatchesOf(p, ks)[i] == (ks[i], RowsOf(p, ks[i]));
    }
    RowsOfSnoc(p, x, x.0);
    assert RowsOf(p + [x], x.0) == [x.1];
    assert b[|ks|] == (x.0, [x.1]);
    assert |b| == |BatchesOf(p, ks) + [(x.0, [x.1])]|;
  }

  /** One loop iteration turns the batches of `p` into the batches of `p + [x]`. */
  lemma AddEntryBatches(p: seq<(string, RelRow)>, x: (string, RelRow))
    ensures AddEntry(Batches(p), x) == Batches(p + [x])
  {
    var ks := Dedup(Keys(p));
    KeysSnoc(p, x);
    match KeyIndex(BatchesOf(p, ks), x.0)
    case Some(j) => AddEntryPresent(p, x, ks, j);
    case None => AddEntryAbsent(p, x, ks);
  }

  /** Any reference that one loop iteration carries from `q` to `q + [x]` is what the whole loop builds. */
  lemma {:induction false} GroupFromRef(ref: seq<(string, RelRow)> -> Groups, p: seq<(string, RelRow)>, xs: seq<(string, RelRow)>)
    requires forall q, x {:trigger ref(q + [x])} :: AddEntry(ref(q), x) == ref(q + [x])
    ensures GroupFrom(ref(p), xs) == ref(p + xs)
    decreases |xs|
  {
    if xs == [] {
      assert p + xs == p;
    } else {
      var q := p + [xs[0]];
      assert AddEntry(ref(p), xs[0]) == ref(q);
      GroupFromRef(ref, q, xs[1..]);
      SnocAppend(p, xs);
    }
  }

  lemma SnocAppend<T>(p: seq<T>, xs: seq<T>)
    requires xs != []
    ensures (p + [xs[0]]) + xs[1..] == p + xs
  {
    assert xs == [xs[0]] + xs[1..];
  }

  /** The grouping loop builds exactly the reference batches. */
  lemma GroupAllBatches(xs: seq<(string, RelRow)>)
    ensures GroupFrom([], xs) == Batches(xs)
  {
    forall q, x ensures AddEntry(Batches(q), x) == Batches(q + [x]) {
      AddEntryBatches(q, x);
    }
    assert Keys<RelRow>([]) == [];
    assert Batches([]) == [];
    GroupFromRef(Batches, [], xs);
    assert [] + xs == xs;
  }

  /** `RowsOf` counts each entry under its own type only. */
  lemma {:induction false} RowsOfCount(xs: seq<(string, RelRow)>, ks: seq<string>)
    requires NoDups(ks) && forall i :: 0 <= i < |xs| ==> xs[i].0 in ks
    ensures SumRows(xs, ks) == |xs|
    decreases |xs|
  {
    if xs == [] {
      SumRowsNone(ks);
    } else {
      var init := xs[..|xs| - 1];
      var x := xs[|xs| - 1];
      assert forall i :: 0 <= i < |init| ==> init[i] == xs[i];
      RowsOfCount(init, ks);
      assert init + [x] == xs;
      SumRowsStep(init, x, ks);
    }
  }

  lemma {:induction false} SumRowsNone(ks: seq<string>)
    ensures SumRows([], ks) == 0
  {
    if ks != [] {
      SumRowsNone(ks[1..]);
    }
  }

  /** The total number of rows filed under the keys `ks`. */
  function SumRows(xs: seq<(string, RelRow)>, ks: seq<string>): nat
  {
    if ks == [] then 0 else |RowsOf(xs, ks[0])| + SumRows(xs, ks[1..])
  }

  lemma {:induction false} SumRowsStep(init: seq<(string, RelRow)>, x: (string, RelRow), ks: seq<string>)
    requires NoDups(ks)
    ensures SumRows(init + [x], ks) == SumRows(init, ks) + (if x.0 in ks then 1 else 0)
  {
    var xs := init + [x];
    assert xs[..|xs| - 1] == init;
    if ks != [] {
      assert NoDups(ks[1..]) by {
        assert forall i, j :: 0 <= i < j < |ks[1..]| ==> ks[1..][i] == ks[i + 1] && ks[1..][j] == ks[j + 1];
      }
      SumRowsStep(init, x, ks[1..]);
      assert x.0 in ks <==> x.0 == ks[0] || x.0 in ks[1..];
      assert x.0 == ks[0] ==> x.0 !in ks[1..];
    }
  }

  /** Every triple lands in exactly one batch: the batch sizes add up to the number of triples. */
  lemma BatchesPartition(xs: seq<(string, RelRow)>)
    ensures SumRows(xs, Keys(Batches(xs))) == |xs|
  {
    var ks := Dedup(Keys(xs));
    forall i | 0 <= i < |xs| ensures xs[i].0 in ks {
      assert Keys(xs)[i] == xs[i].0;
    }
    RowsOfCount(xs, ks);
  }

  // ---------------------------------------------------------------- the import

  datatype Plan =
    | NothingToImport
    | UnknownFields
    | Send(matchField: string, batches: Groups)

  /**
   * `import_relationships_without_apoc(triples)`: nothing for no triples;
   * nothing when the first triple has no recognisable subject or object key;
   * otherwise the batches, or the exception the loop raised.
   */
  function ImportRelationships(ts: seq<Record>): (r: Result<Plan>)
    ensures ts == [] ==> r == Success(NothingToImport)
    ensures ts != [] && (FirstPresent(SubjectKeys, ts[0]).None? || FirstPresent(ObjectKeys, ts[0]).None?) ==>
      r == Success(UnknownFields)
    ensures r.Success? && r.value.Send? ==> (ts != [] &&
      var sk := FirstPresent(SubjectKeys, ts[0]).value;
      var ok := FirstPresent(ObjectKeys, ts[0]).value;
      r.value.matchField == MatchField(ts[0][sk]) &&
      Entries(ts, sk, ok).Success? && r.value.batches == Batches(Entries(ts, sk, ok).value))
    ensures ts != [] && FirstPresent(SubjectKeys, ts[0]).Some? && FirstPresent(ObjectKeys, ts[0]).Some? ==>
      var e := Entries(ts, FirstPresent(SubjectKeys, ts[0]).value, FirstPresent(ObjectKeys, ts[0]).value);
      (r.Success? <==> e.Success?) && (r.Success? ==> r.value.Send?) && (e.Failure? ==> r == Failure(e.error))
  {
    if ts == [] then Success(NothingToImport)
    else
      match (FirstPresent(SubjectKeys, ts[0]), FirstPresent(ObjectKeys, ts[0]))
      case (Some(sk), Some(ok)) =>
        var field := MatchField(ts[0][sk]);
        var xs :- Entries(ts, sk, ok);
        GroupAllBatches(xs);
        Success(Send(field, GroupFrom([], xs)))
      case _ => Success(UnknownFields)
  }
}
