/** What the store holds, and the view of it that a client can have at a given time. */
module Values {
  import opened Bytes

  /** Scores are integers here: a total order with an exact text. */
  datatype StoredValue =
    | Str(text: bytes)
    | List(items: seq<bytes>)
    | Set(members: set<bytes>)
    | Hash(fields: map<bytes, bytes>)
    | SortedSet(scores: map<bytes, int>, tree: map<int, set<bytes>>)

  // ------------------------------------------------------ the two indices of a sorted set

  /** The members of a sorted set, grouped by score. */
  function TreeOf(scores: map<bytes, int>): map<int, set<bytes>>
  {
    map s | s in scores.Values :: set m | m in scores && scores[m] == s
  }

  /** A member is in the bucket of a score exactly when it has that score, and no bucket is empty. */
  ghost predicate Coherent(scores: map<bytes, int>, tree: map<int, set<bytes>>)
  {
    && (forall m, s :: s in tree && m in tree[s] <==> m in scores && scores[m] == s)
    && (forall s :: s in tree ==> tree[s] != {})
  }

  /** The score map determines the tree. */
  lemma CoherentExactly(scores: map<bytes, int>, tree: map<int, set<bytes>>)
    ensures Coherent(scores, tree) <==> tree == TreeOf(scores)
  {
    var t := TreeOf(scores);
    forall s | s in t ensures t[s] != {} {
      var m :| m in scores && scores[m] == s;
      assert m in t[s];
    }
    forall m | m in scores ensures scores[m] in t && m in t[scores[m]] {
      assert scores[m] in scores.Values;
    }
    assert Coherent(scores, t);
    if Coherent(scores, tree) {
      forall s ensures s in tree <==> s in t {
        if s in tree { var m :| m in tree[s]; assert m in scores && scores[m] == s; }
        if s in t { var m :| m in t[s]; assert m in scores && scores[m] == s; assert s in tree && m in tree[s]; }
      }
      forall s | s in t ensures tree[s] == t[s] {
        assert forall m :: m in tree[s] <==> m in t[s];
      }
    }
  }

  function Ranked(scores: map<bytes, int>): StoredValue { SortedSet(scores, TreeOf(scores)) }

  // ---------------------------------------------------------- what every key must satisfy

  /** A collection without elements: a key that the store removes. */
  predicate Vacant(x: StoredValue)
  {
    match x
    case Str(_) => false
    case List(items) => items == []
    case Set(members) => members == {}
    case Hash(fields) => fields == map[]
    case SortedSet(scores, _) => scores == map[]
  }

  /** No key holds an empty collection, and a sorted set's two indices agree. */
  predicate Sound(x: StoredValue)
  {
    !Vacant(x) && (x.SortedSet? ==> x == Ranked(x.scores))
  }

  type Data = map<bytes, StoredValue>
  type Expirations = map<bytes, int>

  /** The store's invariant: sound values, and deadlines only for keys that exist. */
  predicate Consistent(data: Data, expirations: Expirations)
  {
    && expirations.Keys <= data.Keys
    && forall k :: k in data ==> Sound(data[k])
  }

  // -------------------------------------------------------------- a map with deadlines

  datatype Entry = Entry(value: StoredValue, deadline: Option<int>)

  type View = map<bytes, Entry>

  /** The keys that have not expired at `now`, with their deadlines. */
  function LiveView(data: Data, expirations: Expirations, now: int): View
  {
    map k | k in data && (k in expirations ==> now < expirations[k]) ::
      Entry(data[k], if k in expirations then Some(expirations[k]) else None)
  }

  predicate AliveAt(e: Entry, now: int) { e.deadline.Some? ==> now < e.deadline.value }

  /** A view as time passes. */
  function Prune(v: View, now: int): View
  {
    map k | k in v && AliveAt(v[k], now) :: v[k]
  }

  function DeadlineOf(v: View, k: bytes): Option<int>
  {
    if k in v then v[k].deadline else None
  }

  predicate SoundView(v: View) { forall k :: k in v ==> Sound(v[k].value) }

  lemma LiveViewIsSound(data: Data, expirations: Expirations, now: int)
    requires Consistent(data, expirations)
    ensures SoundView(LiveView(data, expirations, now))
    ensures Prune(LiveView(data, expirations, now), now) == LiveView(data, expirations, now)
  {
  }

  /** What is seen later is what is seen now, less what expires in between. */
  lemma LiveViewLater(data: Data, expirations: Expirations, now: int, later: int)
    requires now <= later
    ensures LiveView(data, expirations, later) == Prune(LiveView(data, expirations, now), later)
  {
  }

  /** Dropping keys that have expired is invisible, now and later. */
  lemma EvictionInvisible(data: Data, expirations: Expirations, gone: set<bytes>, now: int)
    requires forall k :: k in gone ==> k in expirations && expirations[k] <= now
    ensures LiveView(data - gone, expirations - gone, now) == LiveView(data, expirations, now)
  {
  }

  lemma RemoveKeys(data: Data, expirations: Expirations, gone: set<bytes>, now: int)
    ensures LiveView(data - gone, expirations - gone, now) == LiveView(data, expirations, now) - gone
  {
  }

  /** Writing the value of a key that has not expired keeps its deadline. */
  lemma WriteValue(data: Data, expirations: Expirations, k: bytes, x: StoredValue, now: int)
    requires expirations.Keys <= data.Keys
    requires k in expirations ==> now < expirations[k]
    ensures var v := LiveView(data, expirations, now);
      LiveView(data[k := x], expirations, now) == v[k := Entry(x, DeadlineOf(v, k))]
  {
    var v, w := LiveView(data, expirations, now), LiveView(data[k := x], expirations, now);
    var u := v[k := Entry(x, DeadlineOf(v, k))];
    assert k in data <==> k in v;
    assert w.Keys == u.Keys;
    assert forall j :: j in w ==> w[j] == u[j];
  }

  /** Writing the value and dropping the deadline. */
  lemma WriteUntimed(data: Data, expirations: Expirations, k: bytes, x: StoredValue, now: int)
    ensures LiveView(data[k := x], expirations - {k}, now) == LiveView(data, expirations, now)[k := Entry(x, None)]
  {
  }

  /** Writing the value with a deadline; one that is not ahead makes the key disappear. */
  lemma WriteTimed(data: Data, expirations: Expirations, k: bytes, x: StoredValue, deadline: int, now: int)
    ensures var v := LiveView(data, expirations, now);
      LiveView(data[k := x], expirations[k := deadline], now) ==
        if now < deadline then v[k := Entry(x, Some(deadline))] else v - {k}
  {
  }
}
