/** The dictionary as one caller uses it. */
module ShardedDict {
  import opened Common
  import opened DictModel
  import opened DictProofs

  class ShardedDict {
    const hash: string -> nat
    var shards: seq<Shard>
    var next: nat

    function View(): Tables
      reads this
    {
      Tables(shards, next)
    }

    predicate Valid()
      reads this
    {
      Consistent(hash, View())
    }

    constructor (hash: string -> nat)
      ensures this.hash == hash && Valid() && View() == Empty()
    {
      this.hash := hash;
      shards := seq(NUM_SHARDS, _ => Shard(map[], map[], None));
      next := 100;
    }

    method GetOrCreateID(text: string) returns (id: nat)
      requires Shaped(View())
      modifies this
      ensures Shaped(View()) && (View(), id) == GetOrCreate(hash, old(View()), text)
      ensures old(Valid()) && old(next) + 1 < WORD ==> Valid()
    {
      if Valid() && next + 1 < WORD {
        GetOrCreateIsConsistent(hash, View(), text);
      }
      var h := hash(text) % NUM_SHARDS;
      if text in shards[h].ids {
        return shards[h].ids[text];
      }
      next := (next + 1) % WORD;
      id := next;
      shards := shards[h := Entered(shards[h], text, id)];
    }

    /** The text published under the id, if there is one. */
    method GetString(id: nat) returns (text: Option<string>)
      requires Valid()
      ensures text.Some? ==> Published(hash, View(), text.value, id)
      ensures text.None? ==> Unused(View(), id)
    {
      for h := 0 to NUM_SHARDS
        invariant forall g | 0 <= g < h :: id !in shards[g].names
      {
        if id in shards[h].names {
          assert Inverse(View().shards[h]);
          return Some(shards[h].names[id]);
        }
      }
      return None;
    }

    method CompareAndSwap(expected: nat, value: nat) returns (swapped: bool)
      modifies this`next
      ensures swapped == (old(next) == expected)
      ensures next == if swapped then value else old(next)
    {
      swapped := next == expected;
      if swapped {
        next := value;
      }
    }

    /** A new text, a new id, and room for the counter above it. */
    predicate Loadable(text: string, id: nat)
      reads this
    {
      Valid() && text !in ShardFor(hash, View(), text).ids && Unused(View(), id) && id < WORD - 1
    }

    /** Enters a stored pair and moves the counter past its id by compare and swap. */
    method Load(text: string, id: nat)
      requires Shaped(View())
      modifies this
      ensures Shaped(View()) && View() == DictModel.Load(hash, old(View()), text, id)
      ensures old(Loadable(text, id)) ==> Valid() && next > id && next >= old(next)
    {
      if Loadable(text, id) {
        EnteringIsConsistent(hash, View(), text, id, if id < next then next else id + 1);
      }
      var h := hash(text) % NUM_SHARDS;
      shards := shards[h := Entered(shards[h], text, id)];
      var settled := false;
      while !settled
        invariant shards == old(shards)[h := Entered(old(shards)[h], text, id)]
        invariant next == if settled && id >= old(next) then (id + 1) % WORD else old(next)
        decreases if settled then 0 else 1
      {
        var current := next;
        if id < current {
          settled := true;
        } else {
          settled := CompareAndSwap(current, (id + 1) % WORD);
        }
      }
    }
  }
}
