/** The in-memory store of design intents, keyed by design id. */
module IntentDb {
  import opened Common

  /** A design intent as its schema declares it; `.dict()` gives a copy of these fields. */
  datatype DesignIntent = DesignIntent(
    designId: string,
    version: string,
    partClass: string,
    functionalRequirements: map<string, Value>,
    constraints: map<string, Value>,
    interfaces: map<string, Value>,
    designParameters: map<string, Value>,
    acceptanceCriteria: map<string, Value>)

  /** The store that results from storing the given intents in order, starting empty. */
  function Replay(history: seq<DesignIntent>): map<string, DesignIntent>
  {
    if |history| == 0 then map[]
    else
      var last := history[|history| - 1];
      Replay(history[..|history| - 1])[last.designId := last]
  }

  /** An id is stored exactly when some stored intent carries it. */
  lemma {:induction false} ReplayKeys(history: seq<DesignIntent>, id: string)
    ensures id in Replay(history) <==> exists i :: 0 <= i < |history| && history[i].designId == id
  {
    if |history| > 0 {
      var n := |history| - 1;
      ReplayKeys(history[..n], id);
      if id in Replay(history[..n]) {
        var i :| 0 <= i < n && history[..n][i].designId == id;
        assert history[i].designId == id;
      }
    }
  }

  /** The entry of an id is the last intent stored under it: the last writer wins. */
  lemma {:induction false} ReplayLastWriterWins(history: seq<DesignIntent>, i: nat)
    requires i < |history|
    requires forall k :: i < k < |history| ==> history[k].designId != history[i].designId
    ensures history[i].designId in Replay(history)
    ensures Replay(history)[history[i].designId] == history[i]
  {
    var n := |history| - 1;
    if i < n {
      ReplayLastWriterWins(history[..n], i);
    }
  }

  /** The module-level dictionary `_intent_store` with its two operations. */
  class IntentStore {
    var intents: map<string, DesignIntent>

    /** Every intent stored so far, oldest first. */
    ghost var History: seq<DesignIntent>

    ghost predicate Valid()
      reads this
    {
      intents == Replay(History)
    }

    constructor ()
      ensures Valid() && History == [] && intents == map[]
    {
      intents := map[];
      History := [];
    }

    /** `store_intent`: insert the intent under its id, replacing any earlier one. */
    method StoreIntent(intent: DesignIntent)
      requires Valid()
      modifies this
      ensures Valid() && History == old(History) + [intent]
      ensures intent.designId in intents && intents[intent.designId] == intent
      ensures forall id :: id != intent.designId ==>
        (id in intents <==> id in old(intents)) && (id in intents ==> intents[id] == old(intents)[id])
    {
      intents := intents[intent.designId := intent];
      History := History + [intent];
      assert History[..|History| - 1] == old(History);
    }

    /** `get_intent`: the intent stored under the id, or `None`; the store is unchanged. */
    method GetIntent(designId: string) returns (r: Option<DesignIntent>)
      requires Valid()
      ensures r.Some? <==> exists i :: 0 <= i < |History| && History[i].designId == designId
      ensures r.Some? ==> designId in intents && r.value == intents[designId]
    {
      ReplayKeys(History, designId);
      if designId in intents {
        r := Some(intents[designId]);
      } else {
        r := None;
      }
    }
  }
}
