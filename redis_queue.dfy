/**
 * RedisQueueProcessor: the decisions the queue client makes on top of Redis streams. The
 * broker is a map from stream keys to entries and the sequence of acknowledgements sent; what
 * a read or an auto-claim returns, the id Redis gives a new entry and the XINFO reply are
 * parameters.
 */
module RedisQueue {
  import opened Results
  import opened Text

  /** The one field a produced entry carries. */
  const DataFieldName: string := "data"

  /** A NameValueEntry of a stream entry. */
  datatype Field = Field(name: string, value: string)

  datatype Entry = Entry(id: string, values: seq<Field>)

  /** An XACK of one entry for a consumer group. */
  datatype Ack = Ack(streamKey: string, groupName: string, id: string)

  /** The entries of a stream; XADD creates a stream that does not exist yet. */
  function Stream(streams: map<string, seq<Entry>>, streamKey: string): seq<Entry>
  {
    if streamKey in streams then streams[streamKey] else []
  }

  /** entry.Values.FirstOrDefault(v => v.Name == "data").Value: the first data field's value, or null. */
  function DataOf(values: seq<Field>): Option<string>
  {
    if values == [] then None
    else if values[0].name == DataFieldName then Some(values[0].value)
    else DataOf(values[1..])
  }

  /** The value found is that of the first field named "data"; null means there is none. */
  lemma {:induction false} DataOfSpec(values: seq<Field>)
    ensures DataOf(values).None? <==> forall k :: 0 <= k < |values| ==> values[k].name != DataFieldName
    ensures DataOf(values).Some? ==> exists k :: 0 <= k < |values| && values[k] == Field(DataFieldName, DataOf(values).value) &&
                                                (forall j :: 0 <= j < k ==> values[j].name != DataFieldName)
  {
    if values != [] && values[0].name != DataFieldName {
      DataOfSpec(values[1..]);
      if DataOf(values).Some? {
        var k :| 0 <= k < |values[1..]| && values[1..][k] == Field(DataFieldName, DataOf(values).value) &&
                 (forall j :: 0 <= j < k ==> values[1..][j].name != DataFieldName);
        assert values[k + 1] == Field(DataFieldName, DataOf(values).value);
      }
    } else if values != [] {
      assert values[0] == Field(DataFieldName, DataOf(values).value);
    }
  }

  /** What a produced entry holds reads back as exactly the payload. */
  lemma DataOfProduced(data: string)
    ensures DataOf([Field(DataFieldName, data)]) == Some(data)
  {
  }

  // ---------------------------------------------------------------------------------------
  // Consumer group creation

  /** What XGROUP CREATE answers: success, a server error, or another failure. */
  datatype GroupReply = Created | ServerError(message: string) | OtherFailure(message: string)

  /**
   * The group-creation step of Consume: Ok when the group was created (true) or a server error
   * says it exists already (false); any other failure is the exception that propagates.
   */
  function CreateGroup(reply: GroupReply): (r: Result<bool, string>)
    ensures r.Ok? <==> reply.Created? || (reply.ServerError? && exists i :: OccursAt(reply.message, "BUSYGROUP", i))
    ensures r.Ok? ==> (r.value <==> reply.Created?)
    ensures r.Err? ==> r.error == reply.message
  {
    match reply
    case Created => Ok(true)
    case ServerError(message) =>
      ContainsIffOccurs(message, "BUSYGROUP");
      if Contains(message, "BUSYGROUP") then Ok(false) else Err(message)
    case OtherFailure(message) => Err(message)
  }

  // ---------------------------------------------------------------------------------------
  // One round of Consume

  /** The entries a round works on: the read, or the auto-claimed entries when the read is empty. */
  function Batch(read: seq<Entry>, claimed: seq<Entry>): seq<Entry>
  {
    if read == [] then claimed else read
  }

  /** An entry is acknowledged when it has no data, or when the handler returned normally on its data. */
  predicate Acknowledged(entry: Entry, action: string -> bool)
  {
    DataOf(entry.values).None? || action(DataOf(entry.values).value)
  }

  /** The acknowledgements a round sends for a batch, in order. */
  function AcksOf(streamKey: string, groupName: string, batch: seq<Entry>, action: string -> bool): (acks: seq<Ack>)
    ensures |acks| <= |batch|
    decreases |batch|
  {
    if batch == [] then []
    else
      var last := batch[|batch| - 1];
      AcksOf(streamKey, groupName, batch[..|batch| - 1], action) +
        (if Acknowledged(last, action) then [Ack(streamKey, groupName, last.id)] else [])
  }

  /** The data values a round hands to the handler, in order. */
  function Handed(batch: seq<Entry>): (handed: seq<string>)
    ensures |handed| <= |batch|
    decreases |batch|
  {
    if batch == [] then []
    else
      var data := DataOf(batch[|batch| - 1].values);
      Handed(batch[..|batch| - 1]) + (if data.Some? then [data.value] else [])
  }

  /**
   * Entries are acknowledged one by one: the acknowledgements of a batch are those of its
   * first part followed by those of the rest, so an entry whose handler throws does not stop
   * the ones after it.
   */
  lemma {:induction false} AcksOfAppend(streamKey: string, groupName: string, a: seq<Entry>, b: seq<Entry>, action: string -> bool)
    ensures AcksOf(streamKey, groupName, a + b, action) ==
      AcksOf(streamKey, groupName, a, action) + AcksOf(streamKey, groupName, b, action)
    decreases |b|
  {
    if b != [] {
      var ab := a + b;
      assert ab[..|ab| - 1] == a + b[..|b| - 1];
      assert ab[|ab| - 1] == b[|b| - 1];
      AcksOfAppend(streamKey, groupName, a, b[..|b| - 1], action);
    } else {
      assert a + b == a;
    }
  }

  /**
   * An entry is acknowledged exactly when the batch holds it and it has no data or its handler
   * returned normally.
   */
  lemma {:induction false} AcksOfSpec(streamKey: string, groupName: string, batch: seq<Entry>, action: string -> bool, id: string)
    ensures Ack(streamKey, groupName, id) in AcksOf(streamKey, groupName, batch, action) <==>
      exists k :: 0 <= k < |batch| && batch[k].id == id && Acknowledged(batch[k], action)
    decreases |batch|
  {
    if batch != [] {
      var init := batch[..|batch| - 1];
      AcksOfSpec(streamKey, groupName, init, action, id);
      assert forall k :: 0 <= k < |init| ==> init[k] == batch[k];
      if exists k :: 0 <= k < |batch| && batch[k].id == id && Acknowledged(batch[k], action) {
        var k :| 0 <= k < |batch| && batch[k].id == id && Acknowledged(batch[k], action);
        if k < |init| {
          assert init[k].id == id && Acknowledged(init[k], action);
        }
      }
    }
  }

  /** The handler sees a value exactly when some entry of the batch carries it as its data. */
  lemma {:induction false} HandedSpec(batch: seq<Entry>, x: string)
    ensures x in Handed(batch) <==> exists k :: 0 <= k < |batch| && DataOf(batch[k].values) == Some(x)
    decreases |batch|
  {
    if batch != [] {
      var init := batch[..|batch| - 1];
      HandedSpec(init, x);
      assert forall k :: 0 <= k < |init| ==> init[k] == batch[k];
      if exists k :: 0 <= k < |batch| && DataOf(batch[k].values) == Some(x) {
        var k :| 0 <= k < |batch| && DataOf(batch[k].values) == Some(x);
        if k < |init| {
          assert DataOf(init[k].values) == Some(x);
        }
      }
    }
  }

  // ---------------------------------------------------------------------------------------
  // XINFO GROUPS filtering

  /** The group properties Status reports. */
  const ValidKeys: seq<string> := ["consumers", "pending", "entries-read", "lag"]

  /** validKeys.Contains: whether Status reports a property. */
  predicate IsValidKey(key: string)
  {
    key in ValidKeys
  }

  /** The reported pairs of one group's properties, read as key/value pairs from the start. */
  function Pairs(props: seq<string>): (pairs: seq<(string, string)>)
    ensures 2 * |pairs| <= |props|
    decreases |props|
  {
    if |props| < 2 then []
    else (if IsValidKey(props[0]) then [(Upper(props[0]), props[1])] else []) + Pairs(props[2..])
  }

  /** The reported pairs of every group, group after group. */
  function StatusOf(groups: seq<seq<string>>): seq<(string, string)>
    decreases |groups|
  {
    if groups == [] then [] else StatusOf(groups[..|groups| - 1]) + Pairs(groups[|groups| - 1])
  }

  /**
   * A pair is reported exactly when a key at an even position, followed by its value, is one
   * of the four valid keys; the key is reported upper-cased.
   */
  lemma {:induction false} PairsSpec(props: seq<string>, key: string, value: string)
    ensures (key, value) in Pairs(props) <==>
      exists j :: 0 <= j < |props| - 1 && j % 2 == 0 && IsValidKey(props[j]) &&
        key == Upper(props[j]) && value == props[j + 1]
    decreases |props|
  {
    if |props| >= 2 {
      var rest := props[2..];
      PairsSpec(rest, key, value);
      if exists j :: 0 <= j < |rest| - 1 && j % 2 == 0 && IsValidKey(rest[j]) && key == Upper(rest[j]) && value == rest[j + 1] {
        var j :| 0 <= j < |rest| - 1 && j % 2 == 0 && IsValidKey(rest[j]) && key == Upper(rest[j]) && value == rest[j + 1];
        assert props[j + 2] == rest[j] && props[j + 3] == rest[j + 1];
      }
      if exists j :: 0 <= j < |props| - 1 && j % 2 == 0 && IsValidKey(props[j]) && key == Upper(props[j]) && value == props[j + 1] {
        var j :| 0 <= j < |props| - 1 && j % 2 == 0 && IsValidKey(props[j]) && key == Upper(props[j]) && value == props[j + 1];
        if j > 0 {
          assert rest[j - 2] == props[j] && rest[j - 1] == props[j + 1];
        }
      }
    }
  }

  /** A trailing key without a value is ignored. */
  lemma {:induction false} PairsIgnoresTrailing(props: seq<string>)
    requires |props| % 2 == 1
    ensures Pairs(props) == Pairs(props[..|props| - 1])
    decreases |props|
  {
    if |props| > 2 {
      var init := props[..|props| - 1];
      PairsIgnoresTrailing(props[2..]);
      assert props[2..][..|props| - 3] == init[2..];
    }
  }

  /** One step of Status's inner loop: the pair at i, then the pairs after it. */
  lemma PairsStep(props: seq<string>, i: nat)
    requires i + 1 < |props|
    ensures Pairs(props[i..]) ==
      (if IsValidKey(props[i]) then [(Upper(props[i]), props[i + 1])] else []) + Pairs(props[i + 2..])
  {
    assert props[i..][2..] == props[i + 2..];
  }

  /** One step of Status's outer loop: the pairs of one more group. */
  lemma StatusStep(groups: seq<seq<string>>, g: nat)
    requires g < |groups|
    ensures StatusOf(groups[..g + 1]) == StatusOf(groups[..g]) + Pairs(groups[g])
  {
    assert groups[..g + 1][..g] == groups[..g];
  }

  class RedisQueueProcessor {
    var streams: map<string, seq<Entry>>
    var acks: seq<Ack>

    constructor()
      ensures streams == map[] && acks == []
    {
      streams := map[];
      acks := [];
    }

    /** Produce: XADD one entry holding the payload in its single "data" field; returns its id. */
    method Produce(streamKey: string, data: string, newId: string) returns (messageId: string)
      modifies this
      ensures streams == old(streams)[streamKey := Stream(old(streams), streamKey) + [Entry(newId, [Field(DataFieldName, data)])]]
      ensures acks == old(acks) && messageId == newId
    {
      var stream := Stream(streams, streamKey);
      streams := streams[streamKey := stream + [Entry(newId, [Field(DataFieldName, data)])]];
      messageId := newId;
    }

    /**
     * One pass of Consume's inner loop: work on the (at most 10) entries read, or, only when
     * there are none, on the (at most 1) entry auto-claimed. An entry without data is
     * acknowledged without calling the handler; an entry with data is handed to the handler
     * and acknowledged only if the handler returns normally (action gives true). Returns the
     * values handed to the handler, in order.
     */
    method ConsumeRound(streamKey: string, groupName: string, read: seq<Entry>, claimed: seq<Entry>,
                        action: string -> bool) returns (handed: seq<string>)
      requires |read| <= 10 && |claimed| <= 1
      modifies this
      ensures streams == old(streams)
      ensures acks == old(acks) + AcksOf(streamKey, groupName, Batch(read, claimed), action)
      ensures handed == Handed(Batch(read, claimed)) && |handed| <= 10
    {
      var entries := read;
      if |entries| == 0 {
        entries := claimed;
      }
      handed := [];
      for i := 0 to |entries|
        invariant streams == old(streams)
        invariant acks == old(acks) + AcksOf(streamKey, groupName, entries[..i], action)
        invariant handed == Handed(entries[..i])
      {
        assert entries[..i + 1][..i] == entries[..i];
        var entry := entries[i];
        var data := DataOf(entry.values);
        if data.None? {
          acks := acks + [Ack(streamKey, groupName, entry.id)];
        } else {
          handed := handed + [data.value];
          var returned := action(data.value);
          if returned {
            acks := acks + [Ack(streamKey, groupName, entry.id)];
          }
        }
      }
      assert entries[..|entries|] == entries;
    }

    /** Status's inner loop over one group's reply: its valid pairs, appended to the result. */
    static method AppendPairs(start: seq<(string, string)>, groupProps: seq<string>)
      returns (result: seq<(string, string)>)
      ensures result == start + Pairs(groupProps)
    {
      result := start;
      var i := 0;
      while i < |groupProps| - 1
        invariant 0 <= i <= |groupProps|
        invariant start + Pairs(groupProps) == result + Pairs(groupProps[i..])
        decreases |groupProps| - i
      {
        PairsStep(groupProps, i);
        ghost var before, rest := result, Pairs(groupProps[i + 2..]);
        var key := groupProps[i];
        if IsValidKey(key) {
          result := result + [(Upper(key), groupProps[i + 1])];
          assert result + rest == before + ([(Upper(key), groupProps[i + 1])] + rest);
        }
        i := i + 2;
      }
      assert groupProps[0..] == groupProps;
    }

    /** Status: walk each group's reply two by two and keep the four valid keys, upper-cased. */
    method Status(groups: seq<seq<string>>) returns (result: seq<(string, string)>)
      ensures result == StatusOf(groups)
    {
      result := [];
      for g := 0 to |groups|
        invariant result == StatusOf(groups[..g])
      {
        StatusStep(groups, g);
        result := AppendPairs(result, groups[g]);
      }
      assert groups[..|groups|] == groups;
    }
  }
}
