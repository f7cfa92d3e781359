/**
  A string dictionary split over shards: each shard guards its two maps with
  its own lock, and all shards draw ids from one counter. Calls of different
  threads interleave between the points where they touch shared state.
*/
module DictModel {
  import opened Common

  const NUM_SHARDS := 32
  const WORD := 0x1_0000_0000_0000_0000

  /** `writer` is the thread holding the shard's write lock. */
  datatype Shard = Shard(ids: map<string, nat>, names: map<nat, string>, writer: Option<nat>)

  datatype Tables = Tables(shards: seq<Shard>, next: nat)

  function Index(hash: string -> nat, text: string): (h: nat)
    ensures h < NUM_SHARDS
  {
    hash(text) % NUM_SHARDS
  }

  predicate Shaped(d: Tables) {
    |d.shards| == NUM_SHARDS
  }

  function ShardFor(hash: string -> nat, d: Tables, text: string): Shard
    requires Shaped(d)
  {
    d.shards[Index(hash, text)]
  }

  function SetShard(hash: string -> nat, d: Tables, text: string, shard: Shard): (d': Tables)
    requires Shaped(d)
    ensures Shaped(d')
  {
    d.(shards := d.shards[Index(hash, text) := shard])
  }

  function Empty(): Tables {
    Tables(seq(NUM_SHARDS, _ => Shard(map[], map[], None)), 100)
  }

  function Entered(shard: Shard, text: string, id: nat): Shard {
    shard.(ids := shard.ids[text := id], names := shard.names[id := text])
  }

  /** A whole call that nothing interrupts. */
  function GetOrCreate(hash: string -> nat, d: Tables, text: string): (Tables, nat)
    requires Shaped(d)
  {
    var shard := ShardFor(hash, d, text);
    if text in shard.ids then (d, shard.ids[text])
    else
      var id := (d.next + 1) % WORD;
      (SetShard(hash, d, text, Entered(shard, text, id)).(next := id), id)
  }

  /** Loading one entry of a persistent store keeps the counter ahead of its id. */
  function Load(hash: string -> nat, d: Tables, text: string, id: nat): (d': Tables)
    requires Shaped(d)
    ensures Shaped(d')
  {
    var d' := SetShard(hash, d, text, Entered(ShardFor(hash, d, text), text, id));
    if id < d.next then d' else d'.(next := (id + 1) % WORD)
  }

  function LoadAll(hash: string -> nat, entries: seq<(string, nat)>): (d: Tables)
    ensures Shaped(d)
  {
    if entries == [] then Empty()
    else
      var n := |entries| - 1;
      Load(hash, LoadAll(hash, entries[..n]), entries[n].0, entries[n].1)
  }

  // ----- Threads ---------------------------------------------------------

  /** Where a thread stands in obtaining the id of a text. */
  datatype Phase =
    | Idle
    | Missed(text: string)
    | Holding(text: string)
    | Vacant(text: string)
    | Allocated(text: string, id: nat)

  /** `returned` records every text and id a call has come back with. */
  datatype System = System(dict: Tables, threads: map<nat, Phase>, returned: set<(string, nat)>)

  datatype Op =
    | Read(thread: nat, text: string)
    | Lock(thread: nat)
    | Recheck(thread: nat)
    | Allocate(thread: nat)
    | Publish(thread: nat)

  function PhaseOf(s: System, t: nat): Phase {
    if t in s.threads then s.threads[t] else Idle
  }

  /** A lock is taken only when it is free; the other steps only need their turn. */
  predicate Enabled(hash: string -> nat, s: System, op: Op)
    requires Shaped(s.dict)
  {
    match op
    case Read(t, text) => PhaseOf(s, t).Idle? && ShardFor(hash, s.dict, text).writer.None?
    case Lock(t) => PhaseOf(s, t).Missed? && ShardFor(hash, s.dict, PhaseOf(s, t).text).writer.None?
    case Recheck(t) => PhaseOf(s, t).Holding?
    case Allocate(t) => PhaseOf(s, t).Vacant?
    case Publish(t) => PhaseOf(s, t).Allocated?
  }

  function Move(s: System, t: nat, phase: Phase): System {
    s.(threads := s.threads[t := phase])
  }

  function Return(s: System, t: nat, text: string, id: nat): System {
    Move(s, t, Idle).(returned := s.returned + {(text, id)})
  }

  function WithWriter(hash: string -> nat, d: Tables, text: string, writer: Option<nat>): (d': Tables)
    requires Shaped(d)
    ensures Shaped(d')
  {
    SetShard(hash, d, text, ShardFor(hash, d, text).(writer := writer))
  }

  function Step(hash: string -> nat, s: System, op: Op): (s': System)
    requires Shaped(s.dict) && Enabled(hash, s, op)
    ensures Shaped(s'.dict)
  {
    match op
    case Read(t, text) =>
      var ids := ShardFor(hash, s.dict, text).ids;
      if text in ids then Return(s, t, text, ids[text]) else Move(s, t, Missed(text))
    case Lock(t) =>
      var text := PhaseOf(s, t).text;
      Move(s.(dict := WithWriter(hash, s.dict, text, Some(t))), t, Holding(text))
    case Recheck(t) =>
      var text := PhaseOf(s, t).text;
      var ids := ShardFor(hash, s.dict, text).ids;
      if text in ids then Return(s.(dict := WithWriter(hash, s.dict, text, None)), t, text, ids[text])
      else Move(s, t, Vacant(text))
    case Allocate(t) =>
      var id := (s.dict.next + 1) % WORD;
      Move(s.(dict := s.dict.(next := id)), t, Allocated(PhaseOf(s, t).text, id))
    case Publish(t) =>
      var Allocated(text, id) := PhaseOf(s, t);
      var shard := Entered(ShardFor(hash, s.dict, text), text, id).(writer := None);
      Return(s.(dict := SetShard(hash, s.dict, text, shard)), t, text, id)
  }

  predicate ValidRun(hash: string -> nat, s: System, ops: seq<Op>)
    requires Shaped(s.dict)
    decreases |ops|
  {
    ops == [] || (Enabled(hash, s, ops[0]) && ValidRun(hash, Step(hash, s, ops[0]), ops[1..]))
  }

  function After(hash: string -> nat, s: System, ops: seq<Op>): (s': System)
    requires Shaped(s.dict) && ValidRun(hash, s, ops)
    ensures Shaped(s'.dict)
    decreases |ops|
  {
    if ops == [] then s else After(hash, Step(hash, s, ops[0]), ops[1..])
  }
}
