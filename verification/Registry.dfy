/** The client registry as it is stored: an array of records that grows by doubling up to 1024. */
module Registry {
  import opened Bytes
  import opened Clients

  const INITIAL_CAPACITY: nat := 8

  /** The capacities that doubling reaches. */
  predicate Reachable(capacity: nat) {
    capacity in {0, 8, 16, 32, 64, 128, 256, 512, 1024}
  }

  class Registry {
    var records: array<Client>
    var count: nat
    const bootstrapHash: seq<byte>

    ghost predicate Valid()
      reads this, records
    {
      count <= records.Length && Reachable(records.Length)
    }

    ghost function Records(): seq<Client>
      requires Valid()
      reads this, records
    {
      records[..count]
    }

    constructor (bootstrapHash: seq<byte>)
      ensures Valid() && Records() == [] && fresh(records) && this.bootstrapHash == bootstrapHash
    {
      this.bootstrapHash := bootstrapHash;
      records := new Client[0];
      count := 0;
    }

    /** Make room for one more record; this is refused only when 1024 clients are registered. */
    method EnsureCapacity() returns (status: Status)
      requires Valid()
      modifies this
      ensures Valid() && count == old(count) && Records() == old(Records())
      ensures records == old(records) || fresh(records)
      ensures status == LimitExceeded <==> count == MAX_CLIENTS
      ensures status != LimitExceeded ==> status == Ok && count < records.Length
    {
      if count < records.Length {
        return Ok;
      }
      if records.Length >= MAX_CLIENTS {
        return LimitExceeded;
      }
      var capacity := if records.Length == 0 then INITIAL_CAPACITY else records.Length * 2;
      if capacity > MAX_CLIENTS {
        capacity := MAX_CLIENTS;
      }
      var next := new Client[capacity];
      for i := 0 to count
        invariant unchanged(this) && unchanged(records) && count <= records.Length
        invariant next[..i] == records[..i]
      {
        next[i] := records[i];
      }
      records := next;
      return Ok;
    }

    method FindRecord(id: seq<byte>) returns (i: nat)
      requires Valid()
      ensures i == IndexOf(Records(), id)
    {
      i := 0;
      while i < count && records[i].id != id
        invariant i <= count
        invariant forall j :: 0 <= j < i ==> records[j].id != id
      {
        i := i + 1;
      }
      assert i < count ==> Records()[i].id == id;
    }

    method Register(id: seq<byte>, role: nat, hash: seq<byte>) returns (status: Status)
      requires Valid()
      modifies this, records
      ensures Valid() && (records == old(records) || fresh(records))
      ensures (status, Records()) == Clients.Register(old(Records()), id, role, hash)
    {
      if role == ROLE_NONE || !ValidId(id) {
        return InvalidArgument;
      }
      var i := FindRecord(id);
      if i < count {
        return Conflict;
      }
      status := EnsureCapacity();
      if status != Ok {
        return;
      }
      records[count] := Client(id, role, true, hash);
      count := count + 1;
      assert Records() == old(Records()) + [Client(id, role, true, hash)];
    }

    method Rotate(id: seq<byte>, hash: seq<byte>) returns (status: Status)
      requires Valid()
      modifies this, records
      ensures Valid() && records == old(records)
      ensures (status, Records()) == Clients.Rotate(old(Records()), id, hash)
    {
      if !ValidId(id) {
        return InvalidArgument;
      }
      var i := FindRecord(id);
      if i == count {
        return NotFound;
      }
      records[i] := records[i].(active := true, hash := hash);
      return Ok;
    }

    method Invalidate(id: seq<byte>) returns (status: Status)
      requires Valid()
      modifies this, records
      ensures Valid() && records == old(records)
      ensures (status, Records()) == Clients.Invalidate(old(Records()), id)
    {
      if !ValidId(id) {
        return InvalidArgument;
      }
      var i := FindRecord(id);
      if i == count {
        return NotFound;
      }
      records[i] := records[i].(active := false, hash := Zeros(HASH_SIZE));
      return Ok;
    }

    method Import(id: seq<byte>, role: nat, hash: seq<byte>, active: bool) returns (status: Status)
      requires Valid()
      modifies this, records
      ensures Valid() && (records == old(records) || fresh(records))
      ensures (status, Records()) == Clients.Import(old(Records()), id, role, hash, active)
    {
      if role == ROLE_NONE || !ValidId(id) {
        return InvalidArgument;
      }
      var i := FindRecord(id);
      if i == count {
        status := EnsureCapacity();
        if status != Ok {
          return;
        }
        count := count + 1;
      }
      records[i] := Normalized(id, role, hash, active);
      assert Records() == Put(old(Records()), Normalized(id, role, hash, active));
      return Ok;
    }

    /** Forget every client; the array keeps its capacity. */
    method Clear()
      requires Valid()
      modifies this
      ensures Valid() && records == old(records) && Records() == []
    {
      count := 0;
    }

    method Authenticate(hash: seq<byte>) returns (principal: Option<Principal>)
      requires Valid()
      ensures principal == Clients.Authenticate(Records(), bootstrapHash, hash)
      ensures hash != bootstrapHash && principal.Some? ==>
                exists i :: 0 <= i < |Records()| && Matches(Records()[i], hash)
                            && principal.value.role == Records()[i].role && principal.value.id == Records()[i].id
    {
      AuthenticateExactly(Records(), bootstrapHash, hash);
      if hash == bootstrapHash {
        return Some(Principal(ROLE_ADMIN, BootstrapId()));
      }
      var i := 0;
      while i < count && !(records[i].active && records[i].hash == hash)
        invariant i <= count
        invariant forall j :: 0 <= j < i ==> !(records[j].active && records[j].hash == hash)
      {
        i := i + 1;
      }
      assert i < count ==> Records()[i] == records[i];
      assert i == FirstMatch(Records(), hash);
      if i == count {
        return None;
      }
      return Some(Principal(records[i].role, records[i].id));
    }
  }
}
