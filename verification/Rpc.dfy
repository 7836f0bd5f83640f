/** JSON-RPC batches (`crates/luaml/src/stdlib/rpc.rs`). */
module Rpc {
  // Section 6 of JSON-RPC 2.0.

  import opened Wrappers
  import opened Values
  import Json

  type Payload = Json.Json

  const MODULUS := 0x1_0000_0000_0000_0000

  datatype Call = Call(name: string, params: Payload)

  /** A request object with an id. */
  datatype Request = Request(id: u64, call: Call)

  datatype RpcError = EmptyBatch | BadEntry | NotAnArray

  // Ids.

  /** `n` consecutive values of the counter, which wraps around. */
  function IdsFrom(start: u64, n: nat): (ids: seq<u64>)
    ensures |ids| == n
  {
    seq(n, i requires 0 <= i < n => (start + i) % MODULUS)
  }

  ghost predicate Distinct(ids: seq<u64>) {
    forall i, j | 0 <= i < j < |ids| :: ids[i] != ids[j]
  }

  lemma WrapsApart(start: int, i: int, j: int)
    requires 0 <= i < j < i + MODULUS
    ensures (start + i) % MODULUS != (start + j) % MODULUS
  {
  }

  /** Ids are used once, as long as the counter has not gone around. */
  lemma IdsDistinct(start: u64, n: nat)
    requires n <= MODULUS
    ensures Distinct(IdsFrom(start, n))
  {
    forall i, j | 0 <= i < j < n ensures IdsFrom(start, n)[i] != IdsFrom(start, n)[j] {
      WrapsApart(start, i, j);
    }
  }

  /** The ids of one batch after another are those of one longer batch, so they are distinct together. */
  lemma IdsContinue(start: u64, n: nat, m: nat)
    ensures IdsFrom(start, n) + IdsFrom((start + n) % MODULUS, m) == IdsFrom(start, n + m)
  {
    var later := IdsFrom((start + n) % MODULUS, m);
    forall i | 0 <= i < m ensures later[i] == IdsFrom(start, n + m)[n + i] {
      WrapTwice(start + n, i);
    }
    forall i | 0 <= i < n + m ensures (IdsFrom(start, n) + later)[i] == IdsFrom(start, n + m)[i] {
      assert i >= n ==> (IdsFrom(start, n) + later)[i] == later[i - n];
    }
  }

  lemma WrapTwice(a: nat, i: nat)
    ensures (a % MODULUS + i) % MODULUS == (a + i) % MODULUS
  {
    var q := a / MODULUS;
    assert a + i == (a % MODULUS + i) + q * MODULUS;
    WrapMultiple(a % MODULUS + i, q);
  }

  lemma {:induction false} WrapMultiple(a: nat, q: nat)
    ensures (a + q * MODULUS) % MODULUS == a % MODULUS
  {
    if q > 0 {
      WrapMultiple(a, q - 1);
      assert a + q * MODULUS == (a + (q - 1) * MODULUS) + MODULUS;
    }
  }

  class RpcClient {
    var nextId: u64

    constructor ()
      ensures nextId == 1
    {
      nextId := 1;
    }

    method NextId() returns (id: u64)
      modifies this
      ensures id == old(nextId) && nextId == (old(nextId) + 1) % MODULUS
    {
      id := nextId;
      nextId := (nextId + 1) % MODULUS;
    }

    /** An entry of the batch that is no call stops the batch; the ids before it are used up. */
    method BuildBatchBody(batch: seq<Option<Call>>) returns (r: Result<(seq<Request>, seq<u64>), RpcError>)
      modifies this
      ensures batch == [] ==> r == Err(EmptyBatch) && nextId == old(nextId)
      ensures batch != [] && (forall i | 0 <= i < |batch| :: batch[i].Some?) ==>
        && r.Ok?
        && r.value.1 == IdsFrom(old(nextId), |batch|)
        && |r.value.0| == |batch|
        && (forall i | 0 <= i < |batch| :: r.value.0[i] == Request(r.value.1[i], batch[i].value))
        && nextId == (old(nextId) + |batch|) % MODULUS
      ensures forall i | 0 <= i < |batch| && batch[i].None? && (forall j | 0 <= j < i :: batch[j].Some?) ::
        r == Err(BadEntry) && nextId == (old(nextId) + i) % MODULUS
    {
      if batch == [] {
        return Err(EmptyBatch);
      }
      var requests: seq<Request> := [];
      var ids: seq<u64> := [];
      for i := 0 to |batch|
        invariant |requests| == |ids| == i && nextId == (old(nextId) + i) % MODULUS
        invariant forall j | 0 <= j < i :: batch[j].Some? && requests[j] == Request(ids[j], batch[j].value)
        invariant forall j | 0 <= j < i :: ids[j] == (old(nextId) + j) % MODULUS
      {
        if batch[i].None? {
          return Err(BadEntry);
        }
        WrapTwice(old(nextId) + i, 1);
        var id := NextId();
        ids := ids + [id];
        requests := requests + [Request(id, batch[i].value)];
      }
      assert ids == IdsFrom(old(nextId), |batch|);
      return Ok((requests, ids));
    }
  }

  // Correlation.

  /** A server's error object; missing fields have defaults. */
  datatype RawError = RawError(code: Option<i64>, message: Option<string>, data: Option<Payload>)

  /** One element of a batch response; a null error counts as none. */
  datatype Item = Item(id: Option<u64>, error: Option<RawError>, result: Option<Payload>)

  datatype Response = NotArray | Items(items: seq<Item>)

  datatype BatchEntry =
    | Success(value: Payload)
    | ServerError(code: i64, message: string, data: Payload)

  /** The entries made up here are server errors like any other. */
  function Gap(id: u64): BatchEntry {
    ServerError(0, "no response for request id " + DigitsText(id), Json.JNull)
  }

  const EMPTY_ANSWER := ServerError(0, "response missing both result and error", Json.JNull)

  function ParseServerError(e: RawError): BatchEntry {
    ServerError(
      if e.code.Some? then e.code.value else 0,
      if e.message.Some? then e.message.value else "<unknown>",
      if e.data.Some? then e.data.value else Json.JNull)
  }

  /** What becomes of a request with this id. */
  function Entry(id: u64, found: Option<Item>): BatchEntry {
    match found
    case None => Gap(id)
    case Some(item) =>
      if item.error.Some? then ParseServerError(item.error.value)
      else if item.result.Some? then Success(item.result.value)
      else EMPTY_ANSWER
  }

  /** The last item that answers an id. */
  function Answer(items: seq<Item>, id: u64): Option<Item> {
    if items == [] then None
    else if items[|items| - 1].id == Some(id) then Some(items[|items| - 1])
    else Answer(items[..|items| - 1], id)
  }

  function Correlated(items: seq<Item>, ids: seq<u64>): (out: seq<BatchEntry>)
    ensures |out| == |ids|
  {
    seq(|ids|, i requires 0 <= i < |ids| => Entry(ids[i], Answer(items, ids[i])))
  }

  method CorrelateBatchResponse(response: Response, ids: seq<u64>) returns (r: Result<seq<BatchEntry>, RpcError>)
    ensures r == if response.NotArray? then Err(NotAnArray) else Ok(Correlated(response.items, ids))
  {
    if response.NotArray? {
      return Err(NotAnArray);
    }
    var items := response.items;
    var byId: map<u64, Item> := map[];
    for n := 0 to |items|
      invariant forall id: u64 :: Answer(items[..n], id) == if id in byId then Some(byId[id]) else None
    {
      assert items[..n + 1][..n] == items[..n];
      if items[n].id.Some? {
        byId := byId[items[n].id.value := items[n]];
      }
    }
    assert items[..|items|] == items;
    var out: seq<BatchEntry> := [];
    for i := 0 to |ids|
      invariant out == Correlated(items, ids)[..i]
    {
      var found := if ids[i] in byId then Some(byId[ids[i]]) else None;
      out := out + [Entry(ids[i], found)];
    }
    assert Correlated(items, ids)[..|ids|] == Correlated(items, ids);
    return Ok(out);
  }

  /** No two items answer the same request. */
  ghost predicate DistinctAnswers(items: seq<Item>) {
    forall i, j | 0 <= i < j < |items| && items[i].id.Some? :: items[i].id != items[j].id
  }

  /** With distinct ids the answer is the one item that has the id. */
  lemma {:induction false} AnswerIff(items: seq<Item>, id: u64, item: Item)
    requires DistinctAnswers(items) && item.id == Some(id)
    ensures Answer(items, id) == Some(item) <==> item in items
  {
    if items != [] {
      var front, last := items[..|items| - 1], items[|items| - 1];
      assert items == front + [last];
      if last.id == Some(id) {
        assert item in front ==> item == last;
      } else {
        AnswerIff(front, id, item);
      }
    }
  }

  lemma {:induction false} AnswerHasId(items: seq<Item>, id: u64)
    ensures Answer(items, id).Some? ==> Answer(items, id).value in items && Answer(items, id).value.id == Some(id)
    ensures Answer(items, id).None? ==> forall item | item in items :: item.id != Some(id)
  {
    if items != [] {
      AnswerHasId(items[..|items| - 1], id);
      assert items == items[..|items| - 1] + [items[|items| - 1]];
    }
  }

  /** If several items answer one request, the last of them counts. */
  lemma {:induction false} LastAnswerCounts(items: seq<Item>, id: u64, k: nat)
    requires k < |items| && items[k].id == Some(id) && forall j | k < j < |items| :: items[j].id != Some(id)
    ensures Answer(items, id) == Some(items[k])
  {
    if k < |items| - 1 {
      LastAnswerCounts(items[..|items| - 1], id, k);
    }
  }

  /** Two responses that hold the same items for the requests, in any order and among any others. */
  ghost predicate SameAnswers(a: seq<Item>, b: seq<Item>, ids: seq<u64>) {
    forall item: Item | item.id.Some? && item.id.value in ids :: item in a <==> item in b
  }

  lemma SameAnswer(a: seq<Item>, b: seq<Item>, id: u64)
    requires DistinctAnswers(a) && DistinctAnswers(b)
    requires forall item: Item | item.id == Some(id) :: item in a <==> item in b
    ensures Answer(a, id) == Answer(b, id)
  {
    AnswerHasId(a, id);
    AnswerHasId(b, id);
    if Answer(a, id).Some? {
      AnswerIff(b, id, Answer(a, id).value);
    }
  }

  /** Neither the order of the items nor items for unknown ids change the outcome. */
  lemma OrderAndStrangersIrrelevant(a: seq<Item>, b: seq<Item>, ids: seq<u64>)
    requires DistinctAnswers(a) && DistinctAnswers(b) && SameAnswers(a, b, ids)
    ensures Correlated(a, ids) == Correlated(b, ids)
  {
    forall i | 0 <= i < |ids| ensures Answer(a, ids[i]) == Answer(b, ids[i]) {
      SameAnswer(a, b, ids[i]);
    }
  }

  lemma PermutationIrrelevant(a: seq<Item>, b: seq<Item>, ids: seq<u64>)
    requires DistinctAnswers(a) && DistinctAnswers(b) && multiset(a) == multiset(b)
    ensures Correlated(a, ids) == Correlated(b, ids)
  {
    forall item ensures item in a <==> item in b {
      assert item in a <==> item in multiset(a);
      assert item in b <==> item in multiset(b);
    }
    OrderAndStrangersIrrelevant(a, b, ids);
  }

  /** The server answers the requests with these items, in any order and among other items. */
  ghost predicate Answers(answers: seq<Item>, ids: seq<u64>, items: seq<Item>) {
    |answers| == |ids| && forall i | 0 <= i < |ids| :: answers[i].id == Some(ids[i]) && answers[i] in items
  }

  /** Each request of a batch gets what its own answer says, in the order of the requests. */
  lemma AnswersInRequestOrder(ids: seq<u64>, items: seq<Item>, answers: seq<Item>)
    requires DistinctAnswers(items) && Answers(answers, ids, items)
    ensures Correlated(items, ids) == seq(|ids|, i requires 0 <= i < |ids| => Entry(ids[i], Some(answers[i])))
  {
    forall i | 0 <= i < |ids| ensures Answer(items, ids[i]) == Some(answers[i]) {
      AnswerIff(items, ids[i], answers[i]);
    }
  }

  /** In particular, if every request is answered by a result, the entries are the results. */
  lemma ResultsInRequestOrder(start: u64, items: seq<Item>, results: seq<Payload>)
    requires DistinctAnswers(items)
    requires var ids := IdsFrom(start, |results|);
      Answers(seq(|ids|, i requires 0 <= i < |ids| => Item(Some(ids[i]), None, Some(results[i]))), ids, items)
    ensures Correlated(items, IdsFrom(start, |results|)) ==
      seq(|results|, i requires 0 <= i < |results| => Success(results[i]))
  {
    var ids := IdsFrom(start, |results|);
    AnswersInRequestOrder(ids, items,
      seq(|ids|, i requires 0 <= i < |ids| => Item(Some(ids[i]), None, Some(results[i]))));
  }

  /** The server answers with an error spelled like the entry for a missing response. */
  predicate SpellsGap(item: Item, id: u64) {
    item.error.Some? &&
    var e := item.error.value;
    && e.message == Some("no response for request id " + DigitsText(id))
    && (e.code.None? || e.code == Some(0))
    && (e.data.None? || e.data == Some(Json.JNull))
  }

  /**
   A request without an answer gets the gap entry.  The entry tells of a missing answer except where the
   server spells the same error itself.
   */
  lemma GapIff(items: seq<Item>, ids: seq<u64>, i: nat)
    requires i < |ids|
    ensures var answer := Answer(items, ids[i]);
      && (answer.None? <==> forall item | item in items :: item.id != Some(ids[i]))
      && (Correlated(items, ids)[i] == Gap(ids[i]) <==> answer.None? || SpellsGap(answer.value, ids[i]))
  {
    AnswerHasId(items, ids[i]);
    var answer, text := Answer(items, ids[i]), "no response for request id " + DigitsText(ids[i]);
    assert text[0] == 'n' && EMPTY_ANSWER.message[0] == 'r' && "<unknown>"[0] == '<';
  }

  /** The items that answer one of the requests. */
  function Known(items: seq<Item>, ids: seq<u64>): seq<Item> {
    if items == [] then []
    else
      var last := items[|items| - 1];
      Known(items[..|items| - 1], ids) + if last.id.Some? && last.id.value in ids then [last] else []
  }

  lemma {:induction false} KnownAnswers(items: seq<Item>, ids: seq<u64>, id: u64)
    requires id in ids
    ensures Answer(Known(items, ids), id) == Answer(items, id)
  {
    if items != [] {
      var front, last := items[..|items| - 1], items[|items| - 1];
      KnownAnswers(front, ids, id);
      var known := Known(front, ids);
      assert (known + [last])[..|known|] == known && known + [] == known;
    }
  }

  /** An item that answers no request leaves no entry at all, whatever it says. */
  lemma StrangersAreDropped(items: seq<Item>, ids: seq<u64>)
    ensures Correlated(items, ids) == Correlated(Known(items, ids), ids)
    ensures |Correlated(items, ids)| == |ids|
  {
    forall i | 0 <= i < |ids| ensures Answer(Known(items, ids), ids[i]) == Answer(items, ids[i]) {
      KnownAnswers(items, ids, ids[i]);
    }
  }

  /** What an answer becomes: an error counts before a result, and its missing parts have defaults. */
  lemma EntrySays(id: u64, item: Item)
    ensures var entry := Entry(id, Some(item));
      && (item.error.Some? ==> var e := item.error.value;
           && entry.ServerError?
           && (e.code.Some? ==> entry.code == e.code.value) && (e.code.None? ==> entry.code == 0)
           && (e.message.Some? ==> entry.message == e.message.value)
           && (e.message.None? ==> entry.message == "<unknown>")
           && (e.data.Some? ==> entry.data == e.data.value) && (e.data.None? ==> entry.data == Json.JNull))
      && (item.error.None? && item.result.Some? ==> entry == Success(item.result.value))
      && (item.error.None? && item.result.None? ==>
           entry == ServerError(0, "response missing both result and error", Json.JNull))
  {
  }
}
