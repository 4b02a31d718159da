/**
 * `DatabaseManager` (core/neo4j_db.py): one connector per partition, cached
 * under the key `connector_<grag_id>` in a dictionary whose insertion order
 * is kept. Opening a connection is an oracle that may raise.
 */
module ConnectorCache {
  import opened Wrappers
  import opened Text

  const KeyPrefix: string := "connector_"

  /** The cache as an insertion-ordered list of (key, connector) entries. */
  datatype Manager<C> = Manager(entries: seq<(string, C)>)

  function CacheKey(gragId: string): (k: string)
    ensures |k| == |KeyPrefix| + |gragId| && k[..|KeyPrefix|] == KeyPrefix && k[|KeyPrefix|..] == gragId
  {
    KeyPrefix + gragId
  }

  lemma CacheKeyInjective(a: string, b: string)
    ensures CacheKey(a) == CacheKey(b) <==> a == b
  {
    if CacheKey(a) == CacheKey(b) {
      assert a == CacheKey(a)[|KeyPrefix|..];
    }
  }

  /** A dictionary: no key twice. */
  predicate Valid<C>(m: Manager<C>)
  {
    NoDups(Keys(m.entries))
  }

  function Lookup<C>(entries: seq<(string, C)>, key: string): (r: Option<C>)
    ensures r.None? <==> key !in Keys(entries)
    ensures r.Some? ==> (key, r.value) in entries
  {
    if entries == [] then None
    else if entries[0].0 == key then Some(entries[0].1)
    else
      var rest := Lookup(entries[1..], key);
      assert Keys(entries) == [entries[0].0] + Keys(entries[1..]);
      rest
  }

  /**
   * `get_connector(grag_id)`: the cached connector when the key is present,
   * else a new connection, cached and returned; a failing connection raises
   * and leaves the cache as it was.
   */
  function GetConnector<C>(m: Manager<C>, gragId: string, connect: string -> Result<C>): (r: Result<(C, Manager<C>)>)
    ensures CacheKey(gragId) in Keys(m.entries) ==>
      r.Success? && r.value.1 == m && (CacheKey(gragId), r.value.0) in m.entries
    ensures CacheKey(gragId) !in Keys(m.entries) ==>
      (r.Success? <==> connect(gragId).Success?) &&
      (r.Success? ==> r.value == (connect(gragId).value, Manager(m.entries + [(CacheKey(gragId), connect(gragId).value)]))) &&
      (r.Failure? ==> r.error == connect(gragId).error)
  {
    match Lookup(m.entries, CacheKey(gragId))
    case Some(c) => Success((c, m))
    case None =>
      match connect(gragId)
      case Success(c) => Success((c, Manager(m.entries + [(CacheKey(gragId), c)])))
      case Failure(e) => Failure(e)
  }

  /** The cache stays a dictionary, and afterwards holds the key of the partition asked for. */
  lemma GetConnectorValid<C>(m: Manager<C>, gragId: string, connect: string -> Result<C>)
    requires Valid(m)
    requires GetConnector(m, gragId, connect).Success?
    ensures Valid(GetConnector(m, gragId, connect).value.1)
    ensures CacheKey(gragId) in Keys(GetConnector(m, gragId, connect).value.1.entries)
  {
    var m' := GetConnector(m, gragId, connect).value.1;
    if CacheKey(gragId) !in Keys(m.entries) {
      assert Keys(m'.entries) == Keys(m.entries) + [CacheKey(gragId)];
    }
  }

  /** Asking again for the same partition returns the same connector without connecting. */
  lemma GetConnectorIdempotent<C>(m: Manager<C>, gragId: string, connect: string -> Result<C>, connect2: string -> Result<C>)
    requires Valid(m)
    requires GetConnector(m, gragId, connect).Success?
    ensures var (c, m') := GetConnector(m, gragId, connect).value;
      GetConnector(m', gragId, connect2) == Success((c, m'))
  {
    var (c, m') := GetConnector(m, gragId, connect).value;
    GetConnectorValid(m, gragId, connect);
    if CacheKey(gragId) !in Keys(m.entries) {
      LookupLast(m.entries, CacheKey(gragId), c);
    } else {
      LookupUnique(m.entries, CacheKey(gragId), c);
    }
  }

  lemma {:induction false} LookupLast<C>(entries: seq<(string, C)>, key: string, c: C)
    requires key !in Keys(entries)
    ensures Lookup(entries + [(key, c)], key) == Some(c)
  {
    if entries != [] {
      assert (entries + [(key, c)])[1..] == entries[1..] + [(key, c)];
      assert Keys(entries) == [entries[0].0] + Keys(entries[1..]);
      LookupLast(entries[1..], key, c);
    }
  }

  lemma {:induction false} LookupUnique<C>(entries: seq<(string, C)>, key: string, c: C)
    requires NoDups(Keys(entries)) && (key, c) in entries
    ensures Lookup(entries, key) == Some(c)
  {
    if entries[0].0 != key {
      var i :| 0 <= i < |entries| && entries[i] == (key, c);
      assert entries[1..][i - 1] == entries[i];
      assert Keys(entries[1..]) == Keys(entries)[1..];
      LookupUnique(entries[1..], key, c);
    } else {
      var i :| 0 <= i < |entries| && entries[i] == (key, c);
      assert Keys(entries)[0] == Keys(entries)[i];
    }
  }

  /** The manager after serving a sequence of requests, stopping at the first that raises. */
  function Serve<C>(m: Manager<C>, ids: seq<string>, connect: string -> Result<C>): (r: Manager<C>)
    decreases |ids|
  {
    if ids == [] then m
    else match GetConnector(m, ids[0], connect)
      case Success((_, m')) => Serve(m', ids[1..], connect)
      case Failure(_) => m
  }

  /** However many requests are served, each partition has at most one cached connector. */
  lemma {:induction false} ServeAtMostOne<C>(m: Manager<C>, ids: seq<string>, connect: string -> Result<C>)
    requires Valid(m)
    ensures Valid(Serve(m, ids, connect))
    ensures forall g, i, j :: (0 <= i < j < |Serve(m, ids, connect).entries| &&
      Serve(m, ids, connect).entries[i].0 == CacheKey(g)) ==> Serve(m, ids, connect).entries[j].0 != CacheKey(g)
    decreases |ids|
  {
    if ids != [] && GetConnector(m, ids[0], connect).Success? {
      GetConnectorValid(m, ids[0], connect);
      ServeAtMostOne(GetConnector(m, ids[0], connect).value.1, ids[1..], connect);
    }
    var e := Serve(m, ids, connect).entries;
    assert forall i, j :: 0 <= i < j < |e| ==> Keys(e)[i] != Keys(e)[j];
  }

  /**
   * `close_all()`: every cached connector is closed, in insertion order, and
   * the cache is left empty. The closed connectors are the first component.
   */
  function CloseAll<C>(m: Manager<C>): (r: (seq<C>, Manager<C>))
    ensures r.1.entries == []
    ensures |r.0| == |m.entries| && forall i :: 0 <= i < |m.entries| ==> r.0[i] == m.entries[i].1
  {
    (seq(|m.entries|, i requires 0 <= i < |m.entries| => m.entries[i].1), Manager([]))
  }

  /** After closing everything, the next request for any partition connects afresh. */
  lemma CloseAllForgets<C>(m: Manager<C>, gragId: string, connect: string -> Result<C>)
    ensures GetConnector(CloseAll(m).1, gragId, connect).Success? <==> connect(gragId).Success?
  {
  }
}
