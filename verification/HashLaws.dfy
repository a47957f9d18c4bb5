/** What a client sees of a hash: HSET and HDEL through HGET, HEXISTS, HLEN and the listings. */
module HashLaws {
  import opened Bytes
  import opened Resp
  import opened Commands
  import opened Values
  import opened Enumerations
  import opened Semantics
  import opened KeyLaws
  import opened SetLaws

  lemma HashStep(v: View, c: Command, now: int, w: View, r: Reply)
    requires OnHash(c) && !c.HKeys? && !c.HVals? && !c.HGetAll? && Steps(v, c, now, w, r)
    ensures w == HashNext(v, c) && r == Replied(HashReply(v, c))
  {
    hide Next, ReplyOf, Steps, HashNext, HashReply;
    PlainStep(v, c, now, w, r);
    HashMeaning(v, c, now);
  }

  lemma ListingStep(v: View, c: Command, now: int, w: View, r: Reply)
    requires (c.HKeys? || c.HVals? || c.HGetAll?) && Steps(v, c, now, w, r)
    ensures w == v && AnswersListing(v, c, r)
  {
    hide Next, ReplyOf, AnswersListing, HashReply;
    HashMeaning(v, c, now);
  }

  /** The key holds a value, and that is no hash. */
  predicate NoHash(v: View, k: bytes) { k in v && !v[k].value.Hash? }

  lemma TypeErrors(v: View, c: Command, now: int, w: View, r: Reply)
    requires OnHash(c) && Steps(v, c, now, w, r) && NoHash(v, c.key)
    ensures w == v && r == WRONG_KIND
  {
    hide Steps, InSomeOrder, LastWins;
    if c.HKeys? || c.HVals? || c.HGetAll? {
      ListingStep(v, c, now, w, r);
    } else {
      HashStep(v, c, now, w, r);
    }
  }

  /** What a key without another type holds, as a map. */
  function Fields(v: View, k: bytes): map<bytes, bytes>
    requires !NoHash(v, k)
  {
    if k in v then v[k].value.fields else map[]
  }

  /** `v` with the hash `h` at a key, under the deadline it had; an empty hash is no key. */
  function Recording(v: View, k: bytes, h: map<bytes, bytes>): View
  {
    if h == map[] then v - {k} else v[k := Entry(Hash(h), if k in v then v[k].deadline else None)]
  }

  lemma RecordingHolds(v: View, k: bytes, h: map<bytes, bytes>)
    ensures !NoHash(Recording(v, k, h), k) && Fields(Recording(v, k, h), k) == h
  {
  }

  // --------------------------------------------------------------------------- the readers

  lemma GetsField(v: View, k: bytes, f: bytes, now: int, w: View, r: Reply)
    requires Steps(v, HGet(k, f), now, w, r) && !NoHash(v, k)
    ensures w == v && r == Bulk(if f in Fields(v, k) then Some(Fields(v, k)[f]) else None)
  {
    hide Steps;
    HashStep(v, HGet(k, f), now, w, r);
  }

  lemma HasField(v: View, k: bytes, f: bytes, now: int, w: View, r: Reply)
    requires Steps(v, HExists(k, f), now, w, r) && !NoHash(v, k)
    ensures w == v && r == Number(if f in Fields(v, k) then 1 else 0)
  {
    hide Steps;
    HashStep(v, HExists(k, f), now, w, r);
  }

  lemma CountsFields(v: View, k: bytes, now: int, w: View, r: Reply)
    requires Steps(v, HLen(k), now, w, r) && !NoHash(v, k) && |Fields(v, k).Keys| < TWO_TO_63
    ensures w == v && r == Number(|Fields(v, k).Keys|)
  {
    hide Steps;
    HashStep(v, HLen(k), now, w, r);
    MapSize(Fields(v, k));
  }

  lemma MapSize(h: map<bytes, bytes>)
    ensures |h| == |h.Keys|
  {
  }

  lemma {:induction false} AlongIs(q: seq<bytes>, h: map<bytes, bytes>)
    requires forall i :: 0 <= i < |q| ==> q[i] in h
    ensures |ValuesAlong(q, h)| == |q| && forall i :: 0 <= i < |q| ==> ValuesAlong(q, h)[i] == h[q[i]]
    ensures |PairsAlong(q, h)| == 2 * |q|
    ensures forall i :: 0 <= i < |q| ==> PairsAlong(q, h)[2 * i] == q[i] && PairsAlong(q, h)[2 * i + 1] == h[q[i]]
    decreases |q|
  {
    if q != [] {
      var rest := q[1..];
      AlongIs(rest, h);
      assert PairsAlong(q, h) == [q[0], h[q[0]]] + PairsAlong(rest, h);
      forall i | 0 <= i < |q|
        ensures ValuesAlong(q, h)[i] == h[q[i]]
        ensures PairsAlong(q, h)[2 * i] == q[i] && PairsAlong(q, h)[2 * i + 1] == h[q[i]]
      {
        if i > 0 { assert q[i] == rest[i - 1]; }
      }
    }
  }

  lemma OrderIn(q: seq<bytes>, s: set<bytes>)
    requires Enumerates(q, s)
    ensures forall i :: 0 <= i < |q| ==> q[i] in s
  {
    EnumerationIs(q, s);
    assert forall i :: 0 <= i < |q| ==> q[i] in SetOf(q);
  }

  /** HKEYS: every field once. */
  lemma ListsFields(v: View, k: bytes, now: int, w: View, r: Reply)
    requires Steps(v, HKeys(k), now, w, r) && !NoHash(v, k)
    ensures w == v && exists q :: Enumerates(q, Fields(v, k).Keys) && r == Replied(Array(BulkStrings(q)))
  {
    hide Steps;
    ListingStep(v, HKeys(k), now, w, r);
    assert FieldsAt(v, k) == Fields(v, k);
    hide Fields, FieldsAt;
  }

  lemma ValuesListed(v: View, k: bytes, now: int, w: View, r: Reply) returns (q: seq<bytes>)
    requires Steps(v, HVals(k), now, w, r) && !NoHash(v, k)
    ensures w == v && Enumerates(q, Fields(v, k).Keys) && r == Replied(BulkArray(ValuesAlong(q, Fields(v, k))))
  {
    hide Steps, ValuesAlong, BulkArray;
    ListingStep(v, HVals(k), now, w, r);
    var h := Fields(v, k);
    assert FieldsAt(v, k) == h;
    hide Fields, FieldsAt;
    q :| Enumerates(q, h.Keys) && r == Replied(BulkArray(ValuesAlong(q, h)));
  }

  lemma PairsListed(v: View, k: bytes, now: int, w: View, r: Reply) returns (q: seq<bytes>)
    requires Steps(v, HGetAll(k), now, w, r) && !NoHash(v, k)
    ensures w == v && Enumerates(q, Fields(v, k).Keys) && SortedBy(LexLe, q)
    ensures r == Replied(BulkArray(PairsAlong(q, Fields(v, k))))
  {
    hide Steps, PairsAlong, BulkArray;
    ListingStep(v, HGetAll(k), now, w, r);
    var h := Fields(v, k);
    assert FieldsAt(v, k) == h;
    hide Fields, FieldsAt;
    q :| Enumerates(q, h.Keys) && SortedBy(LexLe, q) && r == Replied(BulkArray(PairsAlong(q, h)));
  }

  /** HVALS: the value of every field once, whatever values are equal. */
  lemma ListsValues(v: View, k: bytes, now: int, w: View, r: Reply)
    requires Steps(v, HVals(k), now, w, r) && !NoHash(v, k)
    ensures w == v && exists q, xs ::
      && Enumerates(q, Fields(v, k).Keys) && |xs| == |q|
      && (forall i :: 0 <= i < |q| ==> q[i] in Fields(v, k) && xs[i] == Fields(v, k)[q[i]])
      && r == Replied(Array(BulkStrings(xs)))
  {
    var q := ValuesListed(v, k, now, w, r);
    hide Steps, Fields, ValuesAlong, Enumerates;
    OrderIn(q, Fields(v, k).Keys);
    AlongIs(q, Fields(v, k));
    assert r == Replied(Array(BulkStrings(ValuesAlong(q, Fields(v, k)))));
  }

  /** HGETALL: field, value, field, value, with the fields in ascending order. */
  lemma ListsAll(v: View, k: bytes, now: int, w: View, r: Reply)
    requires Steps(v, HGetAll(k), now, w, r) && !NoHash(v, k)
    ensures w == v && exists q, xs ::
      && Enumerates(q, Fields(v, k).Keys) && SortedBy(LexLe, q) && |xs| == 2 * |q|
      && (forall i :: 0 <= i < |q| ==> q[i] in Fields(v, k) && xs[2 * i] == q[i] && xs[2 * i + 1] == Fields(v, k)[q[i]])
      && r == Replied(Array(BulkStrings(xs)))
  {
    var q := PairsListed(v, k, now, w, r);
    hide Steps, Fields, PairsAlong, Enumerates;
    OrderIn(q, Fields(v, k).Keys);
    AlongIs(q, Fields(v, k));
    assert r == Replied(Array(BulkStrings(PairsAlong(q, Fields(v, k)))));
  }

  // --------------------------------------------------------------------------- the writers

  lemma SetsFields(v: View, k: bytes, pairs: seq<(bytes, bytes)>, now: int, w: View, r: Reply)
    requires Steps(v, HSet(k, pairs), now, w, r) && !NoHash(v, k) && pairs != []
    ensures w == Recording(v, k, Fields(v, k) + LastWins(pairs))
    ensures |LastWins(pairs).Keys - Fields(v, k).Keys| < TWO_TO_63 ==>
      r == Number(|LastWins(pairs).Keys - Fields(v, k).Keys|)
  {
    hide Steps, LastWins, Fields;
    HashStep(v, HSet(k, pairs), now, w, r);
    NotEmptied(Fields(v, k), pairs);
    FieldsWritten(v, k, pairs);
    hide HashNext, HashReply;
  }

  lemma FieldsWritten(v: View, k: bytes, pairs: seq<(bytes, bytes)>)
    requires !NoHash(v, k) && pairs != []
    ensures HashNext(v, HSet(k, pairs)) == Write(v, k, Hash(Fields(v, k) + LastWins(pairs)))
    ensures HashReply(v, HSet(k, pairs)) == Count(|LastWins(pairs).Keys - Fields(v, k).Keys|)
  {
    hide Write, LastWins;
  }

  lemma NotEmptied(h: map<bytes, bytes>, pairs: seq<(bytes, bytes)>)
    requires pairs != []
    ensures h + LastWins(pairs) != map[]
  {
    LastWinsAre(pairs);
    hide LastWins;
    assert pairs[0].0 in h + LastWins(pairs);
  }

  lemma DropsFields(v: View, k: bytes, fs: seq<bytes>, now: int, w: View, r: Reply)
    requires Steps(v, HDel(k, fs), now, w, r) && SoundView(v) && !NoHash(v, k)
    ensures w == Recording(v, k, Fields(v, k) - SetOf(fs))
    ensures |SetOf(fs) * Fields(v, k).Keys| < TWO_TO_63 ==> r == Number(|SetOf(fs) * Fields(v, k).Keys|)
  {
    hide Steps, SetOf, Fields;
    HashStep(v, HDel(k, fs), now, w, r);
    FieldsDropped(v, k, fs);
    hide HashNext, HashReply;
    if k !in v {
      NoRecording(v, k, SetOf(fs));
      hide Recording;
    }
  }

  lemma FieldsDropped(v: View, k: bytes, fs: seq<bytes>)
    requires !NoHash(v, k) && (k in v ==> Sound(v[k].value))
    ensures HashNext(v, HDel(k, fs)) == if k in v then Shrink(v, k, Hash(Fields(v, k) - SetOf(fs))) else v
    ensures HashReply(v, HDel(k, fs)) == Count(|SetOf(fs) * Fields(v, k).Keys|)
  {
    hide Shrink, Write, SetOf, LastWins, Fields, FieldsAt, Sound, Mistyped, NoHash, AsI64;
    FieldsThere(v, k);
  }

  lemma FieldsThere(v: View, k: bytes)
    requires !NoHash(v, k) && (k in v ==> Sound(v[k].value))
    ensures FieldsAt(v, k) == Fields(v, k) && (k in v <==> Fields(v, k) != map[]) && !Mistyped(v, k, HashKind)
  {
  }

  lemma NoRecording(v: View, k: bytes, gone: set<bytes>)
    requires k !in v
    ensures Recording(v, k, Fields(v, k) - gone) == v
  {
    assert Fields(v, k) - gone == map[];
    assert v - {k} == v;
  }

  /** HSET, seen through HGET: the last value given for a field, and the other fields as before. */
  lemma SetThenGetField(v: View, k: bytes, pairs: seq<(bytes, bytes)>, now: int, w: View, r: Reply,
                        f: bytes, before: Reply, behind: Reply)
    requires Steps(v, HSet(k, pairs), now, w, r) && !NoHash(v, k) && pairs != []
    requires Steps(v, HGet(k, f), now, v, before) && Steps(w, HGet(k, f), now, w, behind)
    ensures forall i :: 0 <= i < |pairs| && pairs[i].0 == f && (forall j :: i < j < |pairs| ==> pairs[j].0 != f) ==>
      behind == Bulk(Some(pairs[i].1))
    ensures (forall i :: 0 <= i < |pairs| ==> pairs[i].0 != f) ==> behind == before
  {
    hide Steps, Recording, Fields, LastWins;
    SetsFields(v, k, pairs, now, w, r);
    RecordingHolds(v, k, Fields(v, k) + LastWins(pairs));
    GetsField(v, k, f, now, v, before);
    GetsField(w, k, f, now, w, behind);
    LastWinsAre(pairs);
  }

  lemma DropThenGetField(v: View, k: bytes, fs: seq<bytes>, now: int, w: View, r: Reply,
                         f: bytes, before: Reply, behind: Reply)
    requires Steps(v, HDel(k, fs), now, w, r) && SoundView(v) && !NoHash(v, k)
    requires Steps(v, HGet(k, f), now, v, before) && Steps(w, HGet(k, f), now, w, behind)
    ensures behind == if f in fs then Bulk(None) else before
  {
    hide Steps, Recording, Fields;
    DropsFields(v, k, fs, now, w, r);
    RecordingHolds(v, k, Fields(v, k) - SetOf(fs));
    GetsField(v, k, f, now, v, before);
    GetsField(w, k, f, now, w, behind);
  }

  /** HEXISTS says whether HGET finds something. */
  lemma ExistsIsGet(v: View, k: bytes, f: bytes, now: int, r: Reply, s: Reply)
    requires Steps(v, HExists(k, f), now, v, r) && Steps(v, HGet(k, f), now, v, s) && !NoHash(v, k)
    ensures r == Number(if s == Bulk(None) then 0 else 1)
  {
    hide Steps;
    HasField(v, k, f, now, v, r);
    GetsField(v, k, f, now, v, s);
  }

  lemma MergedKeys(h: map<bytes, bytes>, g: map<bytes, bytes>)
    ensures (h + g).Keys == h.Keys + g.Keys
  {
  }

  lemma ThinnedKeys(h: map<bytes, bytes>, s: set<bytes>)
    ensures (h - s).Keys == h.Keys - s
  {
  }

  /** The reply of HSET is by how much HLEN grows. */
  lemma SetsBalance(v: View, k: bytes, pairs: seq<(bytes, bytes)>, now: int, w: View, r: Reply,
                    before: Reply, behind: Reply)
    requires Steps(v, HSet(k, pairs), now, w, r) && !NoHash(v, k) && pairs != []
    requires |Fields(v, k).Keys| + |LastWins(pairs).Keys| < TWO_TO_63
    requires Steps(v, HLen(k), now, v, before) && Steps(w, HLen(k), now, w, behind)
    ensures r.Replied? && r.value.Integer? && before.Replied? && before.value.Integer?
    ensures behind.Replied? && behind.value.Integer? && behind.value.n == before.value.n + r.value.n
  {
    hide Steps, Recording, Fields, LastWins;
    MergedKeys(Fields(v, k), LastWins(pairs));
    Sizes(Fields(v, k).Keys, LastWins(pairs).Keys);
    SetsFields(v, k, pairs, now, w, r);
    RecordingHolds(v, k, Fields(v, k) + LastWins(pairs));
    CountsFields(v, k, now, v, before);
    CountsFields(w, k, now, w, behind);
  }

  /** The reply of HDEL is by how much HLEN shrinks. */
  lemma DropsBalance(v: View, k: bytes, fs: seq<bytes>, now: int, w: View, r: Reply,
                     before: Reply, behind: Reply)
    requires Steps(v, HDel(k, fs), now, w, r) && SoundView(v) && !NoHash(v, k)
    requires |Fields(v, k).Keys| < TWO_TO_63
    requires Steps(v, HLen(k), now, v, before) && Steps(w, HLen(k), now, w, behind)
    ensures r.Replied? && r.value.Integer? && before.Replied? && before.value.Integer?
    ensures behind.Replied? && behind.value.Integer? && behind.value.n == before.value.n - r.value.n
  {
    hide Steps, Recording, Fields, SetOf;
    ThinnedKeys(Fields(v, k), SetOf(fs));
    Sizes(Fields(v, k).Keys, SetOf(fs));
    DropsFields(v, k, fs, now, w, r);
    RecordingHolds(v, k, Fields(v, k) - SetOf(fs));
    CountsFields(v, k, now, v, before);
    CountsFields(w, k, now, w, behind);
  }
}
