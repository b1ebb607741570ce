/** The state calls of a handler's Context (processor/context.go) against a
    validator that keeps an address map and applies entries in order. */
module StateContext {
  import opened Common

  type Address = string
  type Data = seq<Byte>
  type Ledger = map<Address, Data>

  datatype Entry = Entry(address: Address, data: Data)

  // ---- The validator -------------------------------------------------------

  datatype Request =
    | GetRequest(addresses: seq<Address>)
    | SetRequest(entries: seq<Entry>)
    | DeleteRequest(addresses: seq<Address>)

  /** AUTHORIZATION_ERROR is the one status the calls turn into an error. */
  datatype Response =
    | GetResponse(authorized: bool, entries: seq<Entry>)
    | SetResponse(authorized: bool, addresses: seq<Address>)
    | DeleteResponse(authorized: bool, addresses: seq<Address>)

  /** The transaction's inputs and outputs. */
  datatype Permissions = Permissions(readable: Address -> bool, writable: Address -> bool)

  function Apply(ledger: Ledger, entries: seq<Entry>): (l: Ledger) {
    if entries == [] then ledger
    else
      var last := entries[|entries| - 1];
      Apply(ledger, entries[..|entries| - 1])[last.address := last.data]
  }

  /** The response to a get request: one entry an address, empty if not set. */
  function Lookup(ledger: Ledger, addresses: seq<Address>): (entries: seq<Entry>)
    ensures |entries| == |addresses|
    ensures forall i :: 0 <= i < |addresses| ==> entries[i] == Entry(addresses[i], Value(ledger, addresses[i]))
  {
    seq(|addresses|, i requires 0 <= i < |addresses| => Entry(addresses[i], Value(ledger, addresses[i])))
  }

  function Value(ledger: Ledger, a: Address): Data {
    if a in ledger then ledger[a] else []
  }

  function Remove(ledger: Ledger, addresses: seq<Address>): (l: Ledger) {
    map a | a in ledger && a !in addresses :: ledger[a]
  }

  function AddressesOf(entries: seq<Entry>): (addresses: seq<Address>)
    ensures |addresses| == |entries|
    ensures forall i :: 0 <= i < |entries| ==> addresses[i] == entries[i].address
  {
    seq(|entries|, i requires 0 <= i < |entries| => entries[i].address)
  }

  predicate Permitted(p: Permissions, request: Request) {
    match request
    case GetRequest(addresses) => forall a :: a in addresses ==> p.readable(a)
    case SetRequest(entries) => forall e :: e in entries ==> p.writable(e.address)
    case DeleteRequest(addresses) => forall a :: a in addresses ==> p.writable(a)
  }

  /** Serving a request: all of it, or nothing if one address is not permitted. */
  function Serve(ledger: Ledger, p: Permissions, request: Request): (r: (Ledger, Response)) {
    var ok := Permitted(p, request);
    match request
    case GetRequest(addresses) => (ledger, GetResponse(ok, if ok then Lookup(ledger, addresses) else []))
    case SetRequest(entries) =>
      (if ok then Apply(ledger, entries) else ledger, SetResponse(ok, if ok then AddressesOf(entries) else []))
    case DeleteRequest(addresses) =>
      (if ok then Remove(ledger, addresses) else ledger, DeleteResponse(ok, if ok then addresses else []))
  }

  // ---- What the calls mean ---------------------------------------------------

  ghost predicate AllFrom(entries: seq<Entry>, pairs: map<Address, Data>) {
    forall i :: 0 <= i < |entries| ==> entries[i].address in pairs && pairs[entries[i].address] == entries[i].data
  }

  /** `entries` lists `pairs`, each address once, in some order. */
  ghost predicate Lists(entries: seq<Entry>, pairs: map<Address, Data>) {
    && AllFrom(entries, pairs)
    && (forall a :: a in pairs ==> Entry(a, pairs[a]) in entries)
    && |entries| == |pairs|
  }

  lemma {:induction false} ApplyOverwrites(ledger: Ledger, entries: seq<Entry>, pairs: map<Address, Data>)
    requires AllFrom(entries, pairs)
    ensures var l := Apply(ledger, entries);
            && (forall e :: e in entries ==> e.address in l && l[e.address] == pairs[e.address])
            && (forall a :: a in l ==> (a in ledger && l[a] == ledger[a]) || (a in pairs && l[a] == pairs[a]))
            && (forall a :: a in ledger ==> a in l)
            && (forall a :: a in ledger && a !in pairs ==> l[a] == ledger[a])
            && (forall a :: a in l && a !in ledger ==> a in pairs)
  {
    if entries != [] {
      var front := entries[..|entries| - 1];
      ApplyOverwrites(ledger, front, pairs);
      assert entries == front + [entries[|entries| - 1]];
    }
  }

  /** In whatever order ranging over the map lists the pairs, the validator ends
      with the same ledger: the old one overwritten by the pairs. */
  lemma AnyOrderGivesSameLedger(ledger: Ledger, entries: seq<Entry>, pairs: map<Address, Data>)
    requires Lists(entries, pairs)
    ensures Apply(ledger, entries) == ledger + pairs
  {
    ApplyOverwrites(ledger, entries, pairs);
    var l := Apply(ledger, entries);
    forall a | a in pairs
      ensures a in l && l[a] == pairs[a]
    {
      assert Entry(a, pairs[a]) in entries;
    }
  }

  // ---- What a get returns ------------------------------------------------------

  /** The loop of GetState over the entries of the response. */
  function Collected(entries: seq<Entry>): (results: map<Address, Data>) {
    if entries == [] then map[]
    else
      var last := entries[|entries| - 1];
      var results := Collected(entries[..|entries| - 1]);
      if |last.data| != 0 then results[last.address := last.data] else results
  }

  /** `results` holds exactly the requested addresses with a non-empty value. */
  ghost predicate IsView(results: map<Address, Data>, ledger: Ledger, addresses: seq<Address>) {
    && (forall a :: a in results <==> a in addresses && a in ledger && ledger[a] != [])
    && forall a :: a in results ==> results[a] == ledger[a]
  }

  lemma {:induction false} CollectedIsView(ledger: Ledger, addresses: seq<Address>)
    ensures IsView(Collected(Lookup(ledger, addresses)), ledger, addresses)
    decreases |addresses|
  {
    if addresses != [] {
      var n := |addresses| - 1;
      CollectedIsView(ledger, addresses[..n]);
      assert Lookup(ledger, addresses)[..n] == Lookup(ledger, addresses[..n]);
      assert addresses == addresses[..n] + [addresses[n]];
    }
  }

  // ---- The calls ---------------------------------------------------------------

  /** How an exchange of messages goes.  In every case but SendFails the validator has
      served the request. */
  datatype Delivery = Arrives | SendFails | ReceiveFails | WrongId | WrongType | Garbled

  datatype Result<+T> = Ok(value: T) | AuthorizationError | CallFailed

  class ValidatorState {
    var ledger: Ledger
    const permissions: Permissions

    constructor (ledger: Ledger, permissions: Permissions)
      ensures this.ledger == ledger && this.permissions == permissions
    {
      this.ledger := ledger;
      this.permissions := permissions;
    }
  }

  class Context {
    const validator: ValidatorState

    constructor (validator: ValidatorState)
      ensures this.validator == validator
    {
      this.validator := validator;
    }

    /** SendNewMsg, RecvMsgWithId and the checks on the message received. */
    method Exchange(request: Request, delivery: Delivery) returns (response: Option<Response>)
      modifies validator
      ensures var (l, r) := Serve(old(validator.ledger), validator.permissions, request);
              && validator.ledger == (if delivery.SendFails? then old(validator.ledger) else l)
              && response == if delivery.Arrives? then Some(r) else None
    {
      if delivery.SendFails? {
        return None;
      }
      var (l, r) := Serve(validator.ledger, validator.permissions, request);
      validator.ledger := l;
      response := if delivery.Arrives? then Some(r) else None;
    }

    method GetState(addresses: seq<Address>, delivery: Delivery) returns (r: Result<map<Address, Data>>)
      modifies validator
      ensures validator.ledger == old(validator.ledger)
      ensures r.CallFailed? <==> !delivery.Arrives?
      ensures r.Ok? <==> delivery.Arrives? && forall a :: a in addresses ==> validator.permissions.readable(a)
      ensures r.Ok? ==>
                && IsView(r.value, validator.ledger, addresses)
                && r.value == Collected(Lookup(validator.ledger, addresses))
    {
      var response := Exchange(GetRequest(addresses), delivery);
      if response.None? {
        return CallFailed;
      }
      if !response.value.authorized {
        return AuthorizationError;
      }
      var entries := response.value.entries;
      var results := map[];
      for i := 0 to |entries|
        invariant results == Collected(entries[..i])
      {
        if |entries[i].data| != 0 {
          results := results[entries[i].address := entries[i].data];
        }
        assert entries[..i + 1][..i] == entries[..i];
      }
      assert entries[..|entries|] == entries;
      CollectedIsView(validator.ledger, addresses);
      r := Ok(results);
    }

    /** If the call fails after sending, the ledger has changed although the caller
        sees an error. */
    method SetState(pairs: map<Address, Data>, delivery: Delivery) returns (r: Result<seq<Address>>)
      modifies validator
      ensures var permitted := AllWritable(validator.permissions, pairs);
              && validator.ledger
                 == (if delivery.SendFails? || !permitted then old(validator.ledger) else old(validator.ledger) + pairs)
              && (r.CallFailed? <==> !delivery.Arrives?)
              && (r.Ok? <==> delivery.Arrives? && permitted)
      ensures r.Ok? ==> |r.value| == |pairs| && forall a :: a in r.value <==> a in pairs
    {
      var entries := ListPairs(pairs);
      ServeSet(validator.ledger, validator.permissions, entries, pairs);
      var response := Exchange(SetRequest(entries), delivery);
      if response.None? {
        return CallFailed;
      }
      if !response.value.authorized {
        return AuthorizationError;
      }
      r := Ok(response.value.addresses);
    }

    method DeleteState(addresses: seq<Address>, delivery: Delivery) returns (r: Result<seq<Address>>)
      modifies validator
      ensures var permitted := forall a :: a in addresses ==> validator.permissions.writable(a);
              && (r.CallFailed? <==> !delivery.Arrives?)
              && (r.Ok? <==> delivery.Arrives? && permitted)
              && (delivery.SendFails? || !permitted ==> validator.ledger == old(validator.ledger))
              && (!delivery.SendFails? && permitted ==>
                    && (forall a :: a in validator.ledger <==> a in old(validator.ledger) && a !in addresses)
                    && (forall a :: a in validator.ledger ==> validator.ledger[a] == old(validator.ledger)[a]))
      ensures r.Ok? ==> r.value == addresses
    {
      var response := Exchange(DeleteRequest(addresses), delivery);
      if response.None? {
        return CallFailed;
      }
      if !response.value.authorized {
        return AuthorizationError;
      }
      r := Ok(response.value.addresses);
    }
  }

  predicate AllWritable(p: Permissions, pairs: map<Address, Data>) {
    forall a :: a in pairs ==> p.writable(a)
  }

  lemma PermittedIffAllWritable(p: Permissions, entries: seq<Entry>, pairs: map<Address, Data>)
    requires Lists(entries, pairs)
    ensures Permitted(p, SetRequest(entries)) <==> AllWritable(p, pairs)
  {
    forall a | a in pairs && Permitted(p, SetRequest(entries))
      ensures p.writable(a)
    {
      assert Entry(a, pairs[a]) in entries;
    }
  }

  lemma AddressesAreKeys(entries: seq<Entry>, pairs: map<Address, Data>)
    requires Lists(entries, pairs)
    ensures forall a :: a in AddressesOf(entries) <==> a in pairs
  {
    forall a | a in pairs
      ensures a in AddressesOf(entries)
    {
      var i :| 0 <= i < |entries| && entries[i] == Entry(a, pairs[a]);
      assert AddressesOf(entries)[i] == a;
    }
  }

  /** Serving a set request that lists `pairs` in any order. */
  lemma ServeSet(ledger: Ledger, p: Permissions, entries: seq<Entry>, pairs: map<Address, Data>)
    requires Lists(entries, pairs)
    ensures var (l, r) := Serve(ledger, p, SetRequest(entries));
            && r.SetResponse? && (r.authorized <==> AllWritable(p, pairs))
            && l == (if r.authorized then ledger + pairs else ledger)
            && (r.authorized ==> |r.addresses| == |pairs| && forall a :: a in r.addresses <==> a in pairs)
  {
    PermittedIffAllWritable(p, entries, pairs);
    AddressesAreKeys(entries, pairs);
    AnyOrderGivesSameLedger(ledger, entries, pairs);
  }

  /** The loop of SetState that turns the map into entries, in any order. */
  method ListPairs(pairs: map<Address, Data>) returns (entries: seq<Entry>)
    ensures Lists(entries, pairs)
  {
    entries := [];
    var rest := pairs;
    while rest != map[]
      invariant rest.Keys <= pairs.Keys && forall a :: a in rest ==> rest[a] == pairs[a]
      invariant AllFrom(entries, pairs)
      invariant forall a :: a in pairs && a !in rest ==> Entry(a, pairs[a]) in entries
      invariant |entries| + |rest| == |pairs|
      decreases |rest|
    {
      assert rest.Keys != {};
      var address :| address in rest;
      ghost var before := entries;
      entries := entries + [Entry(address, rest[address])];
      assert forall e :: e in before ==> e in entries;
      assert Entry(address, pairs[address]) == entries[|entries| - 1];
      assert (rest - {address}).Keys == rest.Keys - {address};
      assert |rest - {address}| == |rest| - 1;
      rest := rest - {address};
    }
  }

  // ---- Sequences of calls -----------------------------------------------------

  /** A permitted set in any order of its pairs, followed by a get: the get sees the new
      non-empty values and the old ones elsewhere; a value set to nothing reads as not set. */
  lemma GetAfterSet(
    ledger: Ledger, p: Permissions, pairs: map<Address, Data>, entries: seq<Entry>, addresses: seq<Address>)
    requires Lists(entries, pairs) && Permitted(p, SetRequest(entries))
    ensures var results := Collected(Lookup(Serve(ledger, p, SetRequest(entries)).0, addresses));
            && (forall a :: a in results <==>
                  a in addresses && if a in pairs then pairs[a] != [] else a in ledger && ledger[a] != [])
            && (forall a :: a in results ==> results[a] == if a in pairs then pairs[a] else Value(ledger, a))
  {
    AnyOrderGivesSameLedger(ledger, entries, pairs);
    CollectedIsView(ledger + pairs, addresses);
  }

  /** A permitted delete, followed by a get: the deleted addresses read as not set and
      the others as before. */
  lemma GetAfterDelete(ledger: Ledger, p: Permissions, deleted: seq<Address>, addresses: seq<Address>)
    requires Permitted(p, DeleteRequest(deleted))
    ensures var before := Collected(Lookup(ledger, addresses));
            Collected(Lookup(Serve(ledger, p, DeleteRequest(deleted)).0, addresses))
            == map a | a in before && a !in deleted :: before[a]
  {
    CollectedIsView(ledger, addresses);
    CollectedIsView(Remove(ledger, deleted), addresses);
  }
}
