/** Ids stay one to one and stable, however calls interleave. */
module DictProofs {
  import opened Common
  import opened DictModel

  predicate Inverse(shard: Shard) {
    && (forall text | text in shard.ids :: shard.ids[text] in shard.names && shard.names[shard.ids[text]] == text)
    && (forall id | id in shard.names :: shard.names[id] in shard.ids && shard.ids[shard.names[id]] == id)
  }

  predicate Placed(hash: string -> nat, d: Tables) {
    forall h, text | 0 <= h < |d.shards| && text in d.shards[h].ids :: Index(hash, text) == h
  }

  predicate Apart(d: Tables) {
    forall g, h, id
      | 0 <= g < |d.shards| && 0 <= h < |d.shards| && id in d.shards[g].names && id in d.shards[h].names ::
      g == h
  }

  predicate Below(d: Tables) {
    forall h, id | 0 <= h < |d.shards| && id in d.shards[h].names :: id <= d.next
  }

  /** The maps of every shard are inverse, no id is in two shards, and the counter is past every id. */
  predicate Consistent(hash: string -> nat, d: Tables) {
    && Shaped(d)
    && (forall h | 0 <= h < |d.shards| :: Inverse(d.shards[h]))
    && Placed(hash, d) && Apart(d) && Below(d)
  }

  predicate Unused(d: Tables, id: nat) {
    forall h | 0 <= h < |d.shards| :: id !in d.shards[h].names
  }

  predicate Published(hash: string -> nat, d: Tables, text: string, id: nat)
    requires Shaped(d)
  {
    text in ShardFor(hash, d, text).ids && ShardFor(hash, d, text).ids[text] == id
  }

  /** No two texts share an id. */
  lemma PublishedIsInjective(hash: string -> nat, d: Tables, x: string, a: nat, y: string, b: nat)
    requires Consistent(hash, d) && Published(hash, d, x, a) && Published(hash, d, y, b)
    ensures x == y <==> a == b
  {
    var g, h := Index(hash, x), Index(hash, y);
    assert Inverse(d.shards[g]) && Inverse(d.shards[h]);
    assert a in d.shards[g].names && b in d.shards[h].names;
  }

  /** A text enters its shard under an id used nowhere. */
  lemma EnteringIsConsistent(hash: string -> nat, d: Tables, text: string, id: nat, next: nat)
    requires Consistent(hash, d) && text !in ShardFor(hash, d, text).ids && Unused(d, id)
    requires id <= next && d.next <= next
    ensures Consistent(hash, SetShard(hash, d, text, Entered(ShardFor(hash, d, text), text, id)).(next := next))
  {
    var h := Index(hash, text);
    var shard := d.shards[h];
    assert Inverse(shard);
    assert Inverse(Entered(shard, text, id));
    var d' := SetShard(hash, d, text, Entered(shard, text, id)).(next := next);
    forall g, i, n | 0 <= g < |d'.shards| && 0 <= i < |d'.shards| && n in d'.shards[g].names && n in d'.shards[i].names
      ensures g == i
    {
      if n != id { assert n in d.shards[g].names && n in d.shards[i].names; }
    }
  }

  lemma EnteringPublishes(hash: string -> nat, d: Tables, text: string, id: nat, next: nat, x: string, n: nat)
    requires Shaped(d) && text !in ShardFor(hash, d, text).ids
    ensures var d' := SetShard(hash, d, text, Entered(ShardFor(hash, d, text), text, id)).(next := next);
            Published(hash, d', x, n) <==> Published(hash, d, x, n) || (x == text && n == id)
  {
  }

  lemma FreshIsUnused(hash: string -> nat, d: Tables)
    requires Consistent(hash, d)
    ensures Unused(d, d.next + 1)
  {
  }

  /** An uninterrupted call publishes the text's id and changes nothing else. */
  lemma GetOrCreateIsConsistent(hash: string -> nat, d: Tables, text: string)
    requires Consistent(hash, d) && d.next + 1 < WORD
    ensures var (d', id) := GetOrCreate(hash, d, text);
            && Consistent(hash, d')
            && forall x, n: nat :: Published(hash, d', x, n) <==> Published(hash, d, x, n) || (x == text && n == id)
  {
    var (d', id) := GetOrCreate(hash, d, text);
    if text !in ShardFor(hash, d, text).ids {
      FreshIsUnused(hash, d);
      EnteringIsConsistent(hash, d, text, id, id);
      forall x, n: nat
        ensures Published(hash, d', x, n) <==> Published(hash, d, x, n) || (x == text && n == id)
      {
        EnteringPublishes(hash, d, text, id, id, x, n);
      }
    }
  }

  lemma WriterIsConsistent(hash: string -> nat, d: Tables, text: string, writer: Option<nat>)
    requires Consistent(hash, d)
    ensures Consistent(hash, WithWriter(hash, d, text, writer))
  {
    assert Inverse(d.shards[Index(hash, text)]);
  }

  // ----- The load phase --------------------------------------------------

  predicate Distinct(entries: seq<(string, nat)>) {
    forall i, j | 0 <= i < j < |entries| :: entries[i].0 != entries[j].0 && entries[i].1 != entries[j].1
  }

  /** Loaded are exactly the entries, whatever their order. */
  ghost predicate HoldsEntries(hash: string -> nat, d: Tables, entries: seq<(string, nat)>)
    requires Shaped(d)
  {
    forall text, id: nat :: Published(hash, d, text, id) <==> (text, id) in entries
  }

  lemma UnusedExactly(hash: string -> nat, d: Tables, id: nat)
    requires Consistent(hash, d) && forall text :: !Published(hash, d, text, id)
    ensures Unused(d, id)
  {
    forall h | 0 <= h < |d.shards| ensures id !in d.shards[h].names {
      if id in d.shards[h].names {
        assert Inverse(d.shards[h]);
        assert Published(hash, d, d.shards[h].names[id], id);
      }
    }
  }

  lemma LoadEnters(hash: string -> nat, d: Tables, entries: seq<(string, nat)>, text: string, id: nat)
    requires Consistent(hash, d) && HoldsEntries(hash, d, entries) && id < WORD - 1
    requires forall e | e in entries :: e.0 != text && e.1 != id
    ensures Consistent(hash, Load(hash, d, text, id))
    ensures HoldsEntries(hash, Load(hash, d, text, id), entries + [(text, id)])
  {
    var next := if id < d.next then d.next else id + 1;
    var d' := SetShard(hash, d, text, Entered(ShardFor(hash, d, text), text, id)).(next := next);
    assert Load(hash, d, text, id) == d';
    assert text !in ShardFor(hash, d, text).ids by {
      if text in ShardFor(hash, d, text).ids {
        assert Published(hash, d, text, ShardFor(hash, d, text).ids[text]);
      }
    }
    UnusedExactly(hash, d, id);
    EnteringIsConsistent(hash, d, text, id, next);
    forall x, n: nat ensures Published(hash, d', x, n) <==> (x, n) in entries + [(text, id)] {
      EnteringPublishes(hash, d, text, id, next, x, n);
    }
  }

  lemma EmptyIsConsistent(hash: string -> nat)
    ensures Consistent(hash, Empty()) && HoldsEntries(hash, Empty(), [])
  {
  }

  /** Distinct texts and ids below the top of the range leave the dictionary holding exactly them. */
  lemma {:induction false} LoadedIsConsistent(hash: string -> nat, entries: seq<(string, nat)>)
    requires Distinct(entries) && forall e | e in entries :: e.1 < WORD - 1
    ensures Consistent(hash, LoadAll(hash, entries)) && HoldsEntries(hash, LoadAll(hash, entries), entries)
  {
    if entries == [] {
      EmptyIsConsistent(hash);
    } else {
      var n := |entries| - 1;
      var front, last := entries[..n], entries[n];
      assert entries == front + [last];
      LoadedIsConsistent(hash, front);
      LoadEnters(hash, LoadAll(hash, front), front, last.0, last.1);
    }
  }

  // ----- Every interleaving ----------------------------------------------

  predicate Writing(p: Phase) {
    p.Holding? || p.Vacant? || p.Allocated?
  }

  /** What holds of every thread, whatever the others are doing. */
  predicate ThreadOk(hash: string -> nat, s: System, t: nat)
    requires Shaped(s.dict)
  {
    var p := PhaseOf(s, t);
    && (Writing(p) ==> ShardFor(hash, s.dict, p.text).writer == Some(t))
    && (p.Vacant? || p.Allocated? ==> p.text !in ShardFor(hash, s.dict, p.text).ids)
    && (p.Allocated? ==> p.id <= s.dict.next && Unused(s.dict, p.id))
  }

  /** Ids drawn and not yet published differ. */
  predicate PendingApart(s: System) {
    forall t, u | t in s.threads && u in s.threads && s.threads[t].Allocated? && s.threads[u].Allocated? && t != u ::
      s.threads[t].id != s.threads[u].id
  }

  ghost predicate Good(hash: string -> nat, s: System) {
    && Consistent(hash, s.dict)
    && (forall t :: ThreadOk(hash, s, t))
    && PendingApart(s)
    && (forall r | r in s.returned :: Published(hash, s.dict, r.0, r.1))
  }

  /** Nothing published is lost or changed. */
  ghost predicate Extends(hash: string -> nat, d: Tables, d': Tables)
    requires Shaped(d) && Shaped(d')
  {
    forall text, id | Published(hash, d, text, id) :: Published(hash, d', text, id)
  }

  lemma ReadKeepsGood(hash: string -> nat, s: System, t: nat, text: string)
    requires Good(hash, s) && Enabled(hash, s, Read(t, text))
    ensures Good(hash, Step(hash, s, Read(t, text)))
  {
    var s' := Step(hash, s, Read(t, text));
    assert s'.dict == s.dict;
    forall u: nat ensures ThreadOk(hash, s', u) {
      assert ThreadOk(hash, s, u);
    }
  }

  lemma LockKeepsGood(hash: string -> nat, s: System, t: nat)
    requires Good(hash, s) && Enabled(hash, s, Lock(t))
    ensures Good(hash, Step(hash, s, Lock(t)))
    ensures Extends(hash, s.dict, Step(hash, s, Lock(t)).dict)
  {
    var s' := Step(hash, s, Lock(t));
    WriterIsConsistent(hash, s.dict, PhaseOf(s, t).text, Some(t));
    forall u: nat ensures ThreadOk(hash, s', u) {
      assert ThreadOk(hash, s, u);
    }
  }

  lemma RecheckKeepsGood(hash: string -> nat, s: System, t: nat)
    requires Good(hash, s) && Enabled(hash, s, Recheck(t))
    ensures Good(hash, Step(hash, s, Recheck(t)))
    ensures Extends(hash, s.dict, Step(hash, s, Recheck(t)).dict)
  {
    var s' := Step(hash, s, Recheck(t));
    WriterIsConsistent(hash, s.dict, PhaseOf(s, t).text, None);
    assert ThreadOk(hash, s, t);
    forall u: nat ensures ThreadOk(hash, s', u) {
      assert ThreadOk(hash, s, u);
    }
  }

  lemma AllocateKeepsGood(hash: string -> nat, s: System, t: nat)
    requires Good(hash, s) && Enabled(hash, s, Allocate(t)) && s.dict.next + 1 < WORD
    ensures Good(hash, Step(hash, s, Allocate(t)))
    ensures Extends(hash, s.dict, Step(hash, s, Allocate(t)).dict)
  {
    var s' := Step(hash, s, Allocate(t));
    assert s'.dict == s.dict.(next := s.dict.next + 1);
    FreshIsUnused(hash, s.dict);
    forall u: nat | u in s.threads && s.threads[u].Allocated? ensures s.threads[u].id <= s.dict.next {
      assert ThreadOk(hash, s, u);
    }
    forall u: nat ensures ThreadOk(hash, s', u) {
      assert ThreadOk(hash, s, u) && ThreadOk(hash, s, t);
    }
  }

  lemma PublishKeepsThreads(hash: string -> nat, s: System, t: nat, u: nat)
    requires Good(hash, s) && Enabled(hash, s, Publish(t))
    ensures ThreadOk(hash, Step(hash, s, Publish(t)), u)
  {
    assert ThreadOk(hash, s, t) && ThreadOk(hash, s, u);
    if u != t && PhaseOf(s, u).Allocated? {
      assert PhaseOf(s, u).id != PhaseOf(s, t).id;
    }
  }

  lemma PublishedStays(hash: string -> nat, s: System, t: nat, x: string, n: nat)
    requires Good(hash, s) && Enabled(hash, s, Publish(t))
    ensures var d' := Step(hash, s, Publish(t)).dict;
            Published(hash, d', x, n) <==>
              Published(hash, s.dict, x, n) || (x, n) == (PhaseOf(s, t).text, PhaseOf(s, t).id)
  {
    assert ThreadOk(hash, s, t);
  }

  lemma PublishKeepsGood(hash: string -> nat, s: System, t: nat)
    requires Good(hash, s) && Enabled(hash, s, Publish(t))
    ensures Good(hash, Step(hash, s, Publish(t)))
    ensures Extends(hash, s.dict, Step(hash, s, Publish(t)).dict)
  {
    var s' := Step(hash, s, Publish(t));
    var p := PhaseOf(s, t);
    assert Consistent(hash, s'.dict) by {
      assert ThreadOk(hash, s, t);
      EnteringIsConsistent(hash, s.dict, p.text, p.id, s.dict.next);
      var shard := Entered(ShardFor(hash, s.dict, p.text), p.text, p.id);
      var d := SetShard(hash, s.dict, p.text, shard).(next := s.dict.next);
      WriterIsConsistent(hash, d, p.text, None);
      assert s'.dict == WithWriter(hash, d, p.text, None);
    }
    forall u: nat ensures ThreadOk(hash, s', u) {
      PublishKeepsThreads(hash, s, t, u);
    }
    forall x, n: nat
      ensures Published(hash, s'.dict, x, n) <==> Published(hash, s.dict, x, n) || (x, n) == (p.text, p.id)
    {
      PublishedStays(hash, s, t, x, n);
    }
  }

  lemma StepKeepsGood(hash: string -> nat, s: System, op: Op)
    requires Good(hash, s) && Enabled(hash, s, op) && s.dict.next + 1 < WORD
    ensures Good(hash, Step(hash, s, op)) && Extends(hash, s.dict, Step(hash, s, op).dict)
    ensures Step(hash, s, op).dict.next <= s.dict.next + 1
  {
    match op
    case Read(t, text) => ReadKeepsGood(hash, s, t, text);
    case Lock(t) => LockKeepsGood(hash, s, t);
    case Recheck(t) => RecheckKeepsGood(hash, s, t);
    case Allocate(t) => AllocateKeepsGood(hash, s, t);
    case Publish(t) => PublishKeepsGood(hash, s, t);
  }

  /** As long as the 64-bit counter does not wrap, every interleaving keeps the dictionary good. */
  lemma {:induction false} RunKeepsGood(hash: string -> nat, s: System, ops: seq<Op>)
    requires Good(hash, s) && ValidRun(hash, s, ops) && s.dict.next + |ops| < WORD
    ensures Good(hash, After(hash, s, ops)) && Extends(hash, s.dict, After(hash, s, ops).dict)
    decreases |ops|
  {
    if ops != [] {
      StepKeepsGood(hash, s, ops[0]);
      RunKeepsGood(hash, Step(hash, s, ops[0]), ops[1..]);
    }
  }

  function Opened(d: Tables): System {
    System(d, map[], {})
  }

  lemma OpenedIsGood(hash: string -> nat, d: Tables)
    requires Consistent(hash, d)
    ensures Good(hash, Opened(d))
  {
  }

  /**
    After a load phase with distinct texts and distinct ids, in every
    interleaving of calls, two texts that were loaded or came back from a call
    are equal exactly when their ids are.
  */
  lemma IdsAreOneToOne(hash: string -> nat, entries: seq<(string, nat)>, ops: seq<Op>, q: (string, nat),
                       r: (string, nat))
    requires Distinct(entries) && forall e | e in entries :: e.1 < WORD - 1
    requires LoadAll(hash, entries).next + |ops| < WORD
    requires ValidRun(hash, Opened(LoadAll(hash, entries)), ops)
    requires var s := After(hash, Opened(LoadAll(hash, entries)), ops);
             (q in s.returned || q in entries) && (r in s.returned || r in entries)
    ensures q.0 == r.0 <==> q.1 == r.1
    ensures Consistent(hash, After(hash, Opened(LoadAll(hash, entries)), ops).dict)
  {
    LoadedIsConsistent(hash, entries);
    var s0 := Opened(LoadAll(hash, entries));
    OpenedIsGood(hash, s0.dict);
    RunKeepsGood(hash, s0, ops);
    var s := After(hash, s0, ops);
    assert q in entries ==> Published(hash, s0.dict, q.0, q.1);
    assert r in entries ==> Published(hash, s0.dict, r.0, r.1);
    PublishedIsInjective(hash, s.dict, q.0, q.1, r.0, r.1);
  }

  /** A thread that runs alone does exactly one uninterrupted call. */
  lemma AloneIsUninterrupted(hash: string -> nat, d: Tables, text: string)
    requires Shaped(d) && ShardFor(hash, d, text).writer.None?
    ensures var (d', id) := GetOrCreate(hash, d, text);
            var ops := if text in ShardFor(hash, d, text).ids then [Read(0, text)]
                       else [Read(0, text), Lock(0), Recheck(0), Allocate(0), Publish(0)];
            && ValidRun(hash, Opened(d), ops)
            && After(hash, Opened(d), ops) == System(d', map[0 := Idle], {(text, id)})
  {
    var (d', id) := GetOrCreate(hash, d, text);
    var s := Opened(d);
    if text in ShardFor(hash, d, text).ids {
      RunOne(hash, s, Read(0, text), []);
    } else {
      var s1 := Step(hash, s, Read(0, text));
      var s2 := Step(hash, s1, Lock(0));
      var s3 := Step(hash, s2, Recheck(0));
      var s4 := Step(hash, s3, Allocate(0));
      var s5 := Step(hash, s4, Publish(0));
      assert s2.dict.shards[Index(hash, text)] == d.shards[Index(hash, text)].(writer := Some(0));
      assert s4.threads[0] == Allocated(text, id);
      assert s5.dict.shards == d'.shards;
      assert s5.threads == map[0 := Idle];
      RunOne(hash, s4, Publish(0), []);
      RunOne(hash, s3, Allocate(0), [Publish(0)]);
      RunOne(hash, s2, Recheck(0), [Allocate(0), Publish(0)]);
      RunOne(hash, s1, Lock(0), [Recheck(0), Allocate(0), Publish(0)]);
      RunOne(hash, s, Read(0, text), [Lock(0), Recheck(0), Allocate(0), Publish(0)]);
    }
  }

  lemma RunOne(hash: string -> nat, s: System, op: Op, ops: seq<Op>)
    requires Shaped(s.dict) && Enabled(hash, s, op) && ValidRun(hash, Step(hash, s, op), ops)
    ensures ValidRun(hash, s, [op] + ops) && After(hash, s, [op] + ops) == After(hash, Step(hash, s, op), ops)
  {
    assert ([op] + ops)[1..] == ops;
  }

  // ----- Looking an id up ------------------------------------------------

  /** The scan sees shard `h` as it is in the `h`-th of these states. */
  function Scan(states: seq<Tables>, id: nat, h: nat): Option<string>
    requires |states| == NUM_SHARDS && (forall i | 0 <= i < |states| :: Shaped(states[i])) && h <= NUM_SHARDS
    decreases NUM_SHARDS - h
  {
    if h == NUM_SHARDS then None
    else
      assert Shaped(states[h]);
      if id in states[h].shards[h].names then Some(states[h].shards[h].names[id])
      else Scan(states, id, h + 1)
  }

  /** A scan that starts once a text's id is published finds the text, even if other calls go on meanwhile. */
  lemma {:induction false} ScanFinds(hash: string -> nat, states: seq<Tables>, text: string, id: nat, h: nat)
    requires |states| == NUM_SHARDS
    requires forall i | 0 <= i < |states| ::
               Shaped(states[i]) && Consistent(hash, states[i]) && Published(hash, states[i], text, id)
    requires h <= Index(hash, text)
    ensures Scan(states, id, h) == Some(text)
    decreases NUM_SHARDS - h
  {
    var d, own := states[h], Index(hash, text);
    assert Shaped(d) && Inverse(d.shards[own]) && id in d.shards[own].names;
    if h < own {
      ScanFinds(hash, states, text, id, h + 1);
    }
  }

  lemma {:induction false} PrefixIsValid(hash: string -> nat, s: System, ops: seq<Op>, n: nat)
    requires Shaped(s.dict) && ValidRun(hash, s, ops) && n <= |ops|
    ensures ValidRun(hash, s, ops[..n])
    decreases |ops|
  {
    if n > 0 {
      PrefixIsValid(hash, Step(hash, s, ops[0]), ops[1..], n - 1);
      assert ops[..n][1..] == ops[1..][..n - 1];
    }
  }

  /** Each shard is scanned at some moment of a run; the moments need not be the same. */
  ghost predicate ScannedDuring(hash: string -> nat, s: System, ops: seq<Op>, moments: seq<nat>, states: seq<Tables>)
    requires Shaped(s.dict) && ValidRun(hash, s, ops)
  {
    && |moments| == |states| == NUM_SHARDS
    && forall h | 0 <= h < NUM_SHARDS ::
         && moments[h] <= |ops|
         && ValidRun(hash, s, ops[..moments[h]])
         && states[h] == After(hash, s, ops[..moments[h]]).dict
  }

  /** The states of any choice of moments. */
  lemma StatesAt(hash: string -> nat, s: System, ops: seq<Op>, moments: seq<nat>) returns (states: seq<Tables>)
    requires Shaped(s.dict) && ValidRun(hash, s, ops)
    requires |moments| == NUM_SHARDS && forall h | 0 <= h < NUM_SHARDS :: moments[h] <= |ops|
    ensures ScannedDuring(hash, s, ops, moments, states)
  {
    forall n: nat | n <= |ops| ensures ValidRun(hash, s, ops[..n]) { PrefixIsValid(hash, s, ops, n); }
    states := seq(NUM_SHARDS, h requires 0 <= h < NUM_SHARDS => After(hash, s, ops[..moments[h]]).dict);
  }

  /**
    Looking up a published id, loaded or returned by a call, gives its text,
    whatever other calls do while the shards are scanned one by one.
  */
  lemma LookupUndoesCall(
      hash: string -> nat, s: System, ops: seq<Op>, moments: seq<nat>, states: seq<Tables>, text: string, id: nat)
    requires Good(hash, s) && ValidRun(hash, s, ops) && s.dict.next + |ops| < WORD
    requires ScannedDuring(hash, s, ops, moments, states) && Published(hash, s.dict, text, id)
    ensures (forall i | 0 <= i < |states| :: Shaped(states[i])) && Scan(states, id, 0) == Some(text)
  {
    forall h | 0 <= h < |states|
      ensures Shaped(states[h]) && Consistent(hash, states[h]) && Published(hash, states[h], text, id)
    {
      RunKeepsGood(hash, s, ops[..moments[h]]);
    }
    ScanFinds(hash, states, text, id, 0);
  }

  /** And so at whatever moments of the run each shard is scanned. */
  lemma LookupAtAnyMoments(hash: string -> nat, s: System, ops: seq<Op>, moments: seq<nat>, text: string, id: nat)
    requires Good(hash, s) && ValidRun(hash, s, ops) && s.dict.next + |ops| < WORD
    requires |moments| == NUM_SHARDS && forall h | 0 <= h < NUM_SHARDS :: moments[h] <= |ops|
    requires Published(hash, s.dict, text, id)
    ensures exists states ::
              && ScannedDuring(hash, s, ops, moments, states)
              && (forall i | 0 <= i < |states| :: Shaped(states[i]))
              && Scan(states, id, 0) == Some(text)
  {
    var states := StatesAt(hash, s, ops, moments);
    LookupUndoesCall(hash, s, ops, moments, states, text, id);
  }

  /** An id no state has published is not found. */
  lemma {:induction false} ScanMisses(hash: string -> nat, states: seq<Tables>, id: nat, h: nat)
    requires |states| == NUM_SHARDS && h <= NUM_SHARDS
    requires forall i | 0 <= i < |states| :: Shaped(states[i]) && Unused(states[i], id)
    ensures Scan(states, id, h) == None
    decreases NUM_SHARDS - h
  {
    if h < NUM_SHARDS {
      ScanMisses(hash, states, id, h + 1);
    }
  }
}
