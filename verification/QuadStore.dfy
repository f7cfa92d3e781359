/** The store: one value-less key per quad and index, and a persisted fact counter. */
module QuadStore {
  import opened Common
  import opened StringOrder
  import opened QuadKeys

  const KEY_FACT_COUNT: Key := [SYSTEM, 1 as char]

  type Database = map<Key, Key>

  /** The quads that an index decodes to. */
  function IndexQuads(db: Database, prefix: Byte): set<Quad> {
    set key | key in db && |key| == 33 && key[0] == prefix && DecodeQuadKey(key).Some? :: DecodeQuadKey(key).value
  }

  lemma IndexHolds(db: Database, prefix: Byte, q: Quad)
    requires prefix in PREFIXES
    ensures q in IndexQuads(db, prefix) <==> KeyOf(prefix, q) in db
  {
    DecodeUndoesEncode(prefix, q);
    if q in IndexQuads(db, prefix) {
      var key :| key in db && |key| == 33 && key[0] == prefix && DecodeQuadKey(key) == Some(q);
      EncodeUndoesDecode(key);
    }
  }

  /** Every index has a key for exactly these quads. */
  ghost predicate Holds(db: Database, quads: set<Quad>) {
    forall prefix, q | prefix in PREFIXES :: KeyOf(prefix, q) in db <==> q in quads
  }

  /** The four indexes decode to one and the same set of quads. */
  lemma IndexesAgree(db: Database, quads: set<Quad>)
    requires Holds(db, quads)
    ensures forall prefix | prefix in PREFIXES :: IndexQuads(db, prefix) == quads
  {
    forall prefix, q | prefix in PREFIXES ensures q in IndexQuads(db, prefix) <==> q in quads {
      IndexHolds(db, prefix, q);
    }
  }

  /** The count a store that opens this database starts from. */
  function StoredCount(db: Database): nat {
    if KEY_FACT_COUNT in db && |db[KEY_FACT_COUNT]| == 8 then Value(db[KEY_FACT_COUNT]) else 0
  }

  /** The number of quads, as a 64-bit counter keeps it. */
  function Wrapped(quads: set<Quad>): Word {
    |quads| % WORDS
  }

  lemma SetKey(db: Database, prefix: Byte, q: Quad, index: Byte, r: Quad)
    requires prefix in PREFIXES && index in PREFIXES
    ensures KeyOf(index, r) in db[KeyOf(prefix, q) := []] <==>
              KeyOf(index, r) in db || (index == prefix && r == q)
  {
    if KeyOf(index, r) == KeyOf(prefix, q) {
      KeyIsInjective(index, r, prefix, q);
    }
  }

  lemma KeysHave33Bytes(prefix: Byte, q: Quad)
    requires prefix in PREFIXES
    ensures |KeyOf(prefix, q)| == 33 && KeyOf(prefix, q)[0] == prefix
  {
  }

  /** The key of the quad is written into one index after the other. */
  ghost predicate Writing(db: Database, quads: set<Quad>, done: seq<Byte>, q: Quad) {
    forall prefix, r | prefix in PREFIXES ::
      KeyOf(prefix, r) in db <==> r in quads || (prefix in done && r == q)
  }

  class GraphStore {
    var db: Database
    var numFacts: nat
    ghost var quads: set<Quad>

    ghost predicate Valid()
      reads this
    {
      Holds(db, quads) && numFacts == Wrapped(quads) && StoredCount(db) == numFacts
    }

    /** Opens a database that holds these quads, reading the counter stored with it. */
    constructor (db: Database, ghost quads: set<Quad>)
      requires Holds(db, quads) && StoredCount(db) == Wrapped(quads)
      ensures Valid() && this.db == db && this.quads == quads
    {
      this.db, this.quads := db, quads;
      numFacts := if KEY_FACT_COUNT in db && |db[KEY_FACT_COUNT]| == 8 then Value(db[KEY_FACT_COUNT]) else 0;
    }

    /** Sets the key of the quad in every index. */
    method PutQuad(q: Quad)
      requires Holds(db, quads)
      modifies this`db, this`quads
      ensures Holds(db, quads) && quads == old(quads) + {q}
      ensures StoredCount(db) == old(StoredCount(db))
    {
      for i := 0 to |PREFIXES|
        invariant StoredCount(db) == old(StoredCount(db)) && quads == old(quads)
        invariant Writing(db, quads, PREFIXES[..i], q)
      {
        forall index, r | index in PREFIXES { SetKey(db, PREFIXES[i], q, index, r); }
        KeysHave33Bytes(PREFIXES[i], q);
        db := db[KeyOf(PREFIXES[i], q) := []];
        assert PREFIXES[..i + 1] == PREFIXES[..i] + [PREFIXES[i]];
      }
      assert PREFIXES[..|PREFIXES|] == PREFIXES;
      quads := quads + {q};
    }

    /** Stores the counter next to the facts. */
    method PutCount()
      requires Holds(db, quads) && numFacts == Wrapped(quads)
      modifies this`db
      ensures Valid()
    {
      forall index, r | index in PREFIXES { KeysHave33Bytes(index, r); }
      WordRoundTrip(numFacts);
      db := db[KEY_FACT_COUNT := Encode(numFacts)];
    }

    /** Looks the quad up by its key in the first index. */
    method HasFact(q: Quad) returns (found: bool)
      requires Holds(db, quads)
      ensures found <==> q in quads
    {
      found := KeyOf(SPOG, q) in db;
      assert SPOG in PREFIXES;
    }

    /** Adds one quad; a quad that is already there changes nothing, the counter included. */
    method AddFact(q: Quad)
      requires Valid()
      modifies this
      ensures Valid() && quads == old(quads) + {q}
    {
      var found := HasFact(q);
      PutQuad(q);
      if !found {
        OneMoreQuad(old(quads), q);
        numFacts := (numFacts + 1) % WORDS;
        PutCount();
      } else {
        assert quads == old(quads);
      }
    }

    /** Counts the distinct quads of a batch that the store does not have yet. */
    method CountNew(batch: seq<Quad>) returns (newSet: set<Quad>, newCount: nat)
      requires Holds(db, quads)
      ensures newSet == Quads(batch) && newCount == |newSet - quads|
    {
      newSet, newCount := {}, 0;
      for i := 0 to |batch|
        invariant newSet == Quads(batch[..i]) && newCount == |newSet - quads|
      {
        var q := batch[i];
        NextQuad(batch, i);
        if q !in newSet {
          var found := HasFact(q);
          NewQuad(newSet, quads, q);
          if !found {
            newCount := newCount + 1;
          }
          newSet := newSet + {q};
        }
      }
      assert batch[..|batch|] == batch;
    }

    method PutAll(newSet: set<Quad>)
      requires Holds(db, quads)
      modifies this`db, this`quads
      ensures Holds(db, quads) && quads == old(quads) + newSet
      ensures StoredCount(db) == old(StoredCount(db))
    {
      var todo := newSet;
      while todo != {}
        invariant todo <= newSet && quads + todo == old(quads) + newSet
        invariant Holds(db, quads) && StoredCount(db) == old(StoredCount(db))
        decreases todo
      {
        var q :| q in todo;
        PutQuad(q);
        todo := todo - {q};
      }
    }

    /** Adds a batch in one write, duplicates inside it or before it notwithstanding. */
    method AddFacts(batch: seq<Quad>)
      requires Valid()
      modifies this
      ensures Valid() && quads == old(quads) + Quads(batch)
    {
      if batch == [] {
        return;
      }
      var newSet, newCount := CountNew(batch);
      PutAll(newSet);
      if newCount > 0 {
        ManyMoreQuads(old(quads), newSet);
        numFacts := (numFacts + newCount) % WORDS;
        PutCount();
      } else {
        forall q | q in newSet ensures q in old(quads) {
          assert q !in newSet - old(quads);
        }
        assert quads == old(quads);
      }
    }

    /**
      Walks an index in key order from the seek key, handing each quad to the
      callback until it declines, the limit is reached or the index ends.
    */
    method Scan(prefix: Byte, seek: Key, limit: int, wants: seq<Quad> -> bool) returns (seen: seq<Quad>)
      requires Holds(db, quads)
      ensures ScannedFrom(quads, prefix, seek, seen)
      ensures forall i | 0 < i < |seen| :: wants(seen[..i])
      ensures limit > 0 ==> |seen| <= limit
      ensures Quads(seen) == From(quads, prefix, seek) || (seen != [] && (!wants(seen) || |seen| == limit))
    {
      ghost var todo, keys;
      seen, todo, keys := Iterate(KeysFrom(db, prefix, seek), DecodeQuadKey, limit, wants);
      VisitedIsScanned(db, quads, prefix, seek, todo, keys, seen);
    }
  }

  /** Takes keys in order, skipping those that do not decode. */
  method Iterate(all: set<Key>, decode: Key -> Option<Quad>, limit: int, wants: seq<Quad> -> bool)
    returns (seen: seq<Quad>, ghost left: set<Key>, ghost keys: seq<Key>)
    ensures left <= all && Visited(decode, all, left, keys, seen)
    ensures forall i | 0 < i < |seen| :: wants(seen[..i])
    ensures limit > 0 ==> |seen| <= limit
    ensures left == {} || (seen != [] && (!wants(seen) || |seen| == limit))
  {
    seen, keys := [], [];
    var todo := all;
    while todo != {}
      invariant todo <= all && Visited(decode, all, todo, keys, seen)
      invariant forall i | 0 < i <= |seen| :: wants(seen[..i])
      invariant limit > 0 ==> |seen| < limit
      decreases todo
    {
      ghost var least := LeastExists(todo);
      var key :| key in todo && IsLeast(key, todo);
      var q := decode(key);
      VisitOne(decode, all, todo, keys, seen, key);
      todo := todo - {key};
      if q.Some? {
        ghost var before := seen;
        keys, seen := keys + [key], seen + [q.value];
        assert forall i | 0 < i < |seen| :: seen[..i] == before[..i];
        assert seen[..|seen|] == seen;
        if !wants(seen) || (limit > 0 && |seen| >= limit) {
          left := todo;
          return;
        }
      }
    }
    left := todo;
  }

  function KeysFrom(db: Database, prefix: Byte, seek: Key): set<Key> {
    set key | key in db && |key| > 0 && key[0] == prefix && !Less(key, seek)
  }

  /** The keys taken out of `todo` so far, those that decode listed in order with their quads. */
  ghost predicate Visited(decode: Key -> Option<Quad>, all: set<Key>, todo: set<Key>, keys: seq<Key>, seen: seq<Quad>) {
    && |keys| == |seen|
    && (forall i | 0 <= i < |keys| :: keys[i] in all && keys[i] !in todo && decode(keys[i]) == Some(seen[i]))
    && (forall i, j | 0 <= i < j < |keys| :: Less(keys[i], keys[j]))
    && (forall key | key in all && key !in todo && decode(key).Some? :: key in keys)
    && (forall key, later | key in all && key !in todo && later in todo :: Less(key, later))
  }

  lemma VisitOne(decode: Key -> Option<Quad>, all: set<Key>, todo: set<Key>, keys: seq<Key>, seen: seq<Quad>, key: Key)
    requires Visited(decode, all, todo, keys, seen) && todo <= all && key in todo && IsLeast(key, todo)
    ensures if decode(key).Some?
            then Visited(decode, all, todo - {key}, keys + [key], seen + [decode(key).value])
            else Visited(decode, all, todo - {key}, keys, seen)
  {
  }

  /** What a scan saw: quads of the index from the seek key, in order, skipping none. */
  ghost predicate ScannedFrom(quads: set<Quad>, prefix: Byte, seek: Key, seen: seq<Quad>) {
    && Quads(seen) <= From(quads, prefix, seek)
    && (prefix in PREFIXES ==>
          && (forall i, j | 0 <= i < j < |seen| :: Before(prefix, seen[i], seen[j]))
          && (forall q, i | q in From(quads, prefix, seek) - Quads(seen) && 0 <= i < |seen| ::
                Before(prefix, seen[i], q)))
  }

  /** A visited key is the key of its quad, and the quad is one the scan may see. */
  lemma SeenQuad(db: Database, quads: set<Quad>, prefix: Byte, seek: Key, key: Key, q: Quad)
    requires Holds(db, quads) && key in KeysFrom(db, prefix, seek) && DecodeQuadKey(key) == Some(q)
    ensures prefix in PREFIXES && KeyOf(prefix, q) == key && q in From(quads, prefix, seek)
  {
    EncodeUndoesDecode(key);
  }

  /** A quad the scan may see has its key in the index, and a visited key was seen. */
  lemma UnseenKey(db: Database, quads: set<Quad>, prefix: Byte, seek: Key, todo: set<Key>, keys: seq<Key>,
                  seen: seq<Quad>, q: Quad)
    requires Holds(db, quads) && Visited(DecodeQuadKey, KeysFrom(db, prefix, seek), todo, keys, seen)
    requires q in From(quads, prefix, seek) && q !in seen
    ensures KeyOf(prefix, q) in todo
  {
    KeysHave33Bytes(prefix, q);
    DecodeUndoesEncode(prefix, q);
    assert KeyOf(prefix, q) in KeysFrom(db, prefix, seek);
  }

  lemma SeenInOrder(prefix: Byte, keys: seq<Key>, seen: seq<Quad>)
    requires prefix in PREFIXES && |keys| == |seen|
    requires forall i | 0 <= i < |seen| :: KeyOf(prefix, seen[i]) == keys[i]
    requires forall i, j | 0 <= i < j < |keys| :: Less(keys[i], keys[j])
    ensures forall i, j | 0 <= i < j < |seen| :: Before(prefix, seen[i], seen[j])
  {
    forall i, j | 0 <= i < j < |seen| ensures Before(prefix, seen[i], seen[j]) {
      KeysInTupleOrder(prefix, seen[i], seen[j]);
    }
  }

  lemma VisitedIsScanned(db: Database, quads: set<Quad>, prefix: Byte, seek: Key, todo: set<Key>, keys: seq<Key>,
                         seen: seq<Quad>)
    requires Holds(db, quads) && Visited(DecodeQuadKey, KeysFrom(db, prefix, seek), todo, keys, seen)
    requires todo <= KeysFrom(db, prefix, seek)
    ensures ScannedFrom(quads, prefix, seek, seen)
    ensures todo == {} ==> Quads(seen) == From(quads, prefix, seek)
  {
    forall i | 0 <= i < |seen|
      ensures prefix in PREFIXES && KeyOf(prefix, seen[i]) == keys[i] && seen[i] in From(quads, prefix, seek)
    {
      SeenQuad(db, quads, prefix, seek, keys[i], seen[i]);
    }
    forall q | q in From(quads, prefix, seek) && q !in seen
      ensures prefix in PREFIXES && KeyOf(prefix, q) in todo
      ensures forall i | 0 <= i < |seen| :: Less(keys[i], KeyOf(prefix, q))
    {
      UnseenKey(db, quads, prefix, seek, todo, keys, seen, q);
    }
    if prefix in PREFIXES {
      SeenInOrder(prefix, keys, seen);
      UnseenIsLater(prefix, keys, seen, From(quads, prefix, seek) - Quads(seen));
    }
  }

  lemma UnseenIsLater(prefix: Byte, keys: seq<Key>, seen: seq<Quad>, unseen: set<Quad>)
    requires prefix in PREFIXES && |keys| == |seen|
    requires forall i | 0 <= i < |seen| :: KeyOf(prefix, seen[i]) == keys[i]
    requires forall q, i | q in unseen && 0 <= i < |seen| :: Less(keys[i], KeyOf(prefix, q))
    ensures forall q, i | q in unseen && 0 <= i < |seen| :: Before(prefix, seen[i], q)
  {
    forall q, i | q in unseen && 0 <= i < |seen| ensures Before(prefix, seen[i], q) {
      KeysInTupleOrder(prefix, seen[i], q);
    }
  }

  lemma NextQuad(batch: seq<Quad>, i: nat)
    requires i < |batch|
    ensures Quads(batch[..i + 1]) == Quads(batch[..i]) + {batch[i]}
  {
    assert batch[..i + 1] == batch[..i] + [batch[i]];
  }

  lemma NewQuad(newSet: set<Quad>, quads: set<Quad>, q: Quad)
    requires q !in newSet
    ensures |(newSet + {q}) - quads| == |newSet - quads| + if q in quads then 0 else 1
  {
    if q in quads {
      assert (newSet + {q}) - quads == newSet - quads;
    } else {
      assert (newSet + {q}) - quads == (newSet - quads) + {q};
    }
  }

  lemma OneMoreQuad(quads: set<Quad>, q: Quad)
    requires q !in quads
    ensures Wrapped(quads + {q}) == (Wrapped(quads) + 1) % WORDS
  {
  }

  lemma ManyMoreQuads(quads: set<Quad>, more: set<Quad>)
    ensures Wrapped(quads + more) == (Wrapped(quads) + |more - quads|) % WORDS
  {
    assert quads + more == quads + (more - quads);
  }

  function Quads(seen: seq<Quad>): set<Quad> {
    set q | q in seen
  }

  /** The quads whose key in an index is not before the seek key; none for an unknown prefix. */
  function From(quads: set<Quad>, prefix: Byte, seek: Key): set<Quad> {
    set q | q in quads && prefix in PREFIXES && !Less(KeyOf(prefix, q), seek)
  }
}
