/** What the client registry means: an ordered list of client records with unique ids. */
module Clients {
  import opened Bytes

  const MAX_CLIENTS: nat := 1024
  const ID_CAP: nat := 64
  const HASH_SIZE: nat := 32

  const ROLE_NONE: nat := 0
  const ROLE_CLIENT: nat := 1
  const ROLE_OPERATOR: nat := 2
  const ROLE_ADMIN: nat := 3

  datatype Client = Client(id: seq<byte>, role: nat, active: bool, hash: seq<byte>)

  datatype Principal = Principal(role: nat, id: seq<byte>)

  datatype Status = Ok | NotFound | Conflict | InvalidArgument | LimitExceeded

  /** ASCII letters and digits, '-', '_' and '.'. */
  predicate IsIdByte(c: byte) {
    48 <= c <= 57 || 65 <= c <= 90 || 97 <= c <= 122 || c == 45 || c == 95 || c == 46
  }

  predicate ValidId(id: seq<byte>) {
    0 < |id| < ID_CAP && forall i :: 0 <= i < |id| ==> IsIdByte(id[i])
  }

  /** The index of the first record with this id, or the number of records when there is none. */
  function IndexOf(cs: seq<Client>, id: seq<byte>): (i: nat)
    ensures i <= |cs|
    ensures i < |cs| ==> cs[i].id == id
    ensures forall j :: 0 <= j < i ==> cs[j].id != id
  {
    if |cs| == 0 || cs[0].id == id then 0 else 1 + IndexOf(cs[1..], id)
  }

  function Lookup(cs: seq<Client>, id: seq<byte>): Option<Client> {
    var i := IndexOf(cs, id);
    if i < |cs| then Some(cs[i]) else None
  }

  predicate UniqueIds(cs: seq<Client>) {
    forall i, j :: 0 <= i < j < |cs| ==> cs[i].id != cs[j].id
  }

  /** Replace the record with the same id, or add one at the end. */
  function Put(cs: seq<Client>, c: Client): (r: seq<Client>) {
    var i := IndexOf(cs, c.id);
    if i < |cs| then cs[i := c] else cs + [c]
  }

  lemma IndexOfUnique(cs: seq<Client>, i: nat)
    requires UniqueIds(cs) && i < |cs|
    ensures IndexOf(cs, cs[i].id) == i
  {
  }

  lemma PutLookup(cs: seq<Client>, c: Client, id: seq<byte>)
    ensures Lookup(Put(cs, c), id) == if id == c.id then Some(c) else Lookup(cs, id)
  {
    var p := Put(cs, c);
    var j, k := IndexOf(p, id), IndexOf(cs, id);
    assert forall m :: 0 <= m < |cs| ==> p[m].id == cs[m].id;
    assert k < |cs| ==> j == k;
    assert k == |cs| && id != c.id ==> j == |p|;
    assert k == |cs| && id == c.id ==> p[|cs|] == c && j == |cs|;
  }

  /** The stored form of an imported record: an inactive record never keeps a hash. */
  function Normalized(id: seq<byte>, role: nat, hash: seq<byte>, active: bool): Client {
    Client(id, role, active, if active then hash else Zeros(HASH_SIZE))
  }

  function Import(cs: seq<Client>, id: seq<byte>, role: nat, hash: seq<byte>, active: bool): (r: (Status, seq<Client>))
  {
    if role == ROLE_NONE || !ValidId(id) then (InvalidArgument, cs)
    else if IndexOf(cs, id) == |cs| && |cs| >= MAX_CLIENTS then (LimitExceeded, cs)
    else (Ok, Put(cs, Normalized(id, role, hash, active)))
  }

  function Register(cs: seq<Client>, id: seq<byte>, role: nat, hash: seq<byte>): (r: (Status, seq<Client>)) {
    if role == ROLE_NONE || !ValidId(id) then (InvalidArgument, cs)
    else if IndexOf(cs, id) < |cs| then (Conflict, cs)
    else if |cs| >= MAX_CLIENTS then (LimitExceeded, cs)
    else (Ok, cs + [Client(id, role, true, hash)])
  }

  function Rotate(cs: seq<Client>, id: seq<byte>, hash: seq<byte>): (r: (Status, seq<Client>)) {
    if !ValidId(id) then (InvalidArgument, cs)
    else
      var i := IndexOf(cs, id);
      if i == |cs| then (NotFound, cs) else (Ok, cs[i := cs[i].(active := true, hash := hash)])
  }

  function Invalidate(cs: seq<Client>, id: seq<byte>): (r: (Status, seq<Client>)) {
    if !ValidId(id) then (InvalidArgument, cs)
    else
      var i := IndexOf(cs, id);
      if i == |cs| then (NotFound, cs) else (Ok, cs[i := cs[i].(active := false, hash := Zeros(HASH_SIZE))])
  }

  /** The first active record whose hash matches, after the bootstrap administrator. */
  function FirstMatch(cs: seq<Client>, hash: seq<byte>): (i: nat)
    ensures i <= |cs|
    ensures i < |cs| ==> cs[i].active && cs[i].hash == hash
    ensures forall j :: 0 <= j < i ==> !(cs[j].active && cs[j].hash == hash)
  {
    if |cs| == 0 || (cs[0].active && cs[0].hash == hash) then 0 else 1 + FirstMatch(cs[1..], hash)
  }

  function BootstrapId(): seq<byte> {
    // "bootstrap-admin"
    [98, 111, 111, 116, 115, 116, 114, 97, 112, 45, 97, 100, 109, 105, 110]
  }

  lemma BootstrapName()
    ensures |BootstrapId()| == 15 && forall i :: 0 <= i < 15 ==> BootstrapId()[i] as char == "bootstrap-admin"[i]
  {
  }

  function Authenticate(cs: seq<Client>, bootstrapHash: seq<byte>, hash: seq<byte>): Option<Principal> {
    if hash == bootstrapHash then Some(Principal(ROLE_ADMIN, BootstrapId()))
    else
      var i := FirstMatch(cs, hash);
      if i < |cs| then Some(Principal(cs[i].role, cs[i].id)) else None
  }

  predicate Matches(c: Client, hash: seq<byte>) {
    c.active && c.hash == hash
  }

  /** The bootstrap digest is the administrator; any other digest is the first active record that holds it. */
  lemma AuthenticateExactly(cs: seq<Client>, bootstrap: seq<byte>, hash: seq<byte>)
    ensures hash == bootstrap ==>
              Authenticate(cs, bootstrap, hash) == Some(Principal(3, BootstrapId()))
    ensures hash != bootstrap ==>
              match Authenticate(cs, bootstrap, hash)
              case None => forall i :: 0 <= i < |cs| ==> !Matches(cs[i], hash)
              case Some(p) =>
                exists i :: 0 <= i < |cs| && Matches(cs[i], hash) && p.role == cs[i].role && p.id == cs[i].id
                            && forall j :: 0 <= j < i ==> !Matches(cs[j], hash)
  {
    var i := FirstMatch(cs, hash);
    if i < |cs| {
      assert Matches(cs[i], hash);
    }
  }

  /** A digest that one active record holds authenticates as that record, with its role and its id. */
  lemma OwnTokenAuthenticates(cs: seq<Client>, bootstrap: seq<byte>, i: nat)
    requires i < |cs| && cs[i].active && cs[i].hash != bootstrap
    requires forall j :: 0 <= j < |cs| && j != i ==> !Matches(cs[j], cs[i].hash)
    ensures Authenticate(cs, bootstrap, cs[i].hash) == Some(Principal(cs[i].role, cs[i].id))
  {
    assert FirstMatch(cs, cs[i].hash) == i;
  }

  predicate WellFormedClient(c: Client) {
    && ValidId(c.id)
    && 0 < c.role < TWO_32
    && |c.hash| == HASH_SIZE
    && (!c.active ==> c.hash == Zeros(HASH_SIZE))
  }

  /** What every registry operation keeps. */
  predicate WellFormed(cs: seq<Client>) {
    && |cs| <= MAX_CLIENTS
    && UniqueIds(cs)
    && forall i :: 0 <= i < |cs| ==> WellFormedClient(cs[i])
  }

  lemma PutUniqueIds(cs: seq<Client>, c: Client)
    requires UniqueIds(cs)
    ensures UniqueIds(Put(cs, c))
  {
  }

  lemma RegistryOperationsKeepWellFormed(cs: seq<Client>, id: seq<byte>, role: nat, hash: seq<byte>, active: bool)
    requires WellFormed(cs) && |hash| == HASH_SIZE && role < TWO_32
    ensures WellFormed(Import(cs, id, role, hash, active).1)
    ensures WellFormed(Register(cs, id, role, hash).1)
    ensures WellFormed(Rotate(cs, id, hash).1)
    ensures WellFormed(Invalidate(cs, id).1)
  {
  }

  /** Register, rotate and invalidate leave exactly the record that is then looked up and journaled. */
  lemma ChangeIsOnePut(cs: seq<Client>, id: seq<byte>, role: nat, hash: seq<byte>)
    ensures Register(cs, id, role, hash).0 == Ok ==>
              Register(cs, id, role, hash).1 == Put(cs, Client(id, role, true, hash))
    ensures Rotate(cs, id, hash).0 == Ok ==>
              && Lookup(cs, id).Some?
              && Rotate(cs, id, hash).1 == Put(cs, Lookup(cs, id).value.(active := true, hash := hash))
    ensures Invalidate(cs, id).0 == Ok ==>
              && Lookup(cs, id).Some?
              && Invalidate(cs, id).1 == Put(cs, Lookup(cs, id).value.(active := false, hash := Zeros(HASH_SIZE)))
  {
  }

  function Ids(cs: seq<Client>): seq<seq<byte>> {
    seq(|cs|, i requires 0 <= i < |cs| => cs[i].id)
  }

  lemma SameIdsSameRecords(a: seq<Client>, b: seq<Client>)
    requires UniqueIds(a) && UniqueIds(b)
    requires Ids(a) == Ids(b)
    requires forall id :: Lookup(a, id) == Lookup(b, id)
    ensures a == b
  {
    assert |Ids(a)| == |Ids(b)|;
    forall i | 0 <= i < |a|
      ensures a[i] == b[i]
    {
      assert Ids(a)[i] == Ids(b)[i];
      IndexOfUnique(a, i);
      IndexOfUnique(b, i);
      assert Lookup(a, a[i].id) == Lookup(b, a[i].id);
    }
  }
}
