/** Writing the state payload into a growing buffer, from the live store and registry. */
module Serializer {
  import opened Bytes
  import opened CacheTable
  import opened Recovery
  import opened Codec
  import opened HashStore
  import opened Registry

  const SIZE_MAX: nat := TWO_64 - 1
  const BUFFER_INITIAL_CAPACITY: nat := 256

  class Buffer {
    var bytes: array<byte>
    var length: nat

    ghost predicate Valid()
      reads this, bytes
    {
      length <= bytes.Length
    }

    ghost function Contents(): (s: seq<byte>)
      requires Valid()
      reads this, bytes
      ensures |s| == length
    {
      bytes[..length]
    }

    constructor ()
      ensures Valid() && Contents() == [] && fresh(bytes)
    {
      bytes := new byte[0];
      length := 0;
    }

    /** Make room by doubling; refused exactly when the new length would not be a size. */
    method Reserve(additional: nat) returns (ok: bool)
      requires Valid() && length <= SIZE_MAX
      modifies this
      ensures Valid() && Contents() == old(Contents()) && (bytes == old(bytes) || fresh(bytes))
      ensures ok <==> length + additional <= SIZE_MAX
      ensures ok ==> length + additional <= bytes.Length
    {
      if additional > SIZE_MAX - length {
        return false;
      }
      ok := true;
      if length + additional <= bytes.Length {
        return;
      }
      var capacity := if bytes.Length == 0 then BUFFER_INITIAL_CAPACITY else bytes.Length;
      while capacity < length + additional
        invariant capacity > 0 && bytes.Length <= capacity && bytes == old(bytes) && length == old(length)
      {
        if capacity > SIZE_MAX / 2 {
          capacity := length + additional;
          break;
        }
        capacity := capacity * 2;
      }
      var grown := new byte[capacity];
      for i := 0 to length
        invariant bytes == old(bytes) && length == old(length) && grown[..i] == bytes[..i]
      {
        grown[i] := bytes[i];
      }
      bytes := grown;
    }

    method Append(data: seq<byte>) returns (ok: bool)
      requires Valid() && length <= SIZE_MAX
      modifies this, bytes
      ensures Valid() && length <= SIZE_MAX && (bytes == old(bytes) || fresh(bytes))
      ensures ok <==> old(length) + |data| <= SIZE_MAX
      ensures Contents() == if ok then old(Contents()) + data else old(Contents())
    {
      ok := Reserve(|data|);
      if ok {
        for i := 0 to |data|
          invariant length == old(length) && length + |data| <= bytes.Length
          invariant bytes == old(bytes) || fresh(bytes)
          invariant bytes[..length + i] == old(Contents()) + data[..i]
        {
          bytes[length + i] := data[i];
        }
        length := length + |data|;
      }
    }
  }

  // ---------------------------------------------------------------- what is written

  function ActiveOnly(listing: seq<(Key, Entry)>, now: int): seq<(Key, Entry)> {
    if |listing| == 0 then []
    else
      var rest, e := ActiveOnly(listing[..|listing| - 1], now), listing[|listing| - 1];
      if e.1.expires <= now then rest else rest + [e]
  }

  lemma {:induction false} ActiveOnlyKeeps(listing: seq<(Key, Entry)>, now: int, e: (Key, Entry))
    ensures e in ActiveOnly(listing, now) <==> e in listing && e.1.expires > now
  {
    if |listing| > 0 {
      ActiveOnlyKeeps(listing[..|listing| - 1], now, e);
      assert listing == listing[..|listing| - 1] + [listing[|listing| - 1]];
    }
  }

  lemma {:induction false} ActiveOnlyIsDistinct(listing: seq<(Key, Entry)>, now: int)
    requires forall i, j :: 0 <= i < j < |listing| ==> listing[i].0 != listing[j].0
    ensures var s := ActiveOnly(listing, now); forall i, j :: 0 <= i < j < |s| ==> s[i].0 != s[j].0
  {
    if |listing| > 0 {
      var front := listing[..|listing| - 1];
      ActiveOnlyIsDistinct(front, now);
      forall i | 0 <= i < |ActiveOnly(front, now)|
        ensures ActiveOnly(front, now)[i].0 != listing[|listing| - 1].0
      {
        ActiveOnlyKeeps(front, now, ActiveOnly(front, now)[i]);
        var j :| 0 <= j < |front| && front[j] == ActiveOnly(front, now)[i];
        assert listing[j].0 != listing[|listing| - 1].0;
      }
    }
  }

  /** Filtering a listing of the table lists its unexpired part. */
  lemma ActiveOnlyLists(listing: seq<(Key, Entry)>, t: Table, now: int)
    requires Lists(listing, t)
    ensures Lists(ActiveOnly(listing, now), Active(t, now))
  {
    var s := ActiveOnly(listing, now);
    ActiveOnlyIsDistinct(listing, now);
    forall i | 0 <= i < |s|
      ensures s[i].0 in Active(t, now) && Active(t, now)[s[i].0] == s[i].1
    {
      ActiveOnlyKeeps(listing, now, s[i]);
      assert s[i] in s;
    }
    forall k | k in Active(t, now)
      ensures exists i :: 0 <= i < |s| && s[i].0 == k
    {
      var i :| 0 <= i < |listing| && listing[i].0 == k;
      ActiveOnlyKeeps(listing, now, listing[i]);
      var j :| 0 <= j < |s| && s[j] == listing[i];
    }
  }

  lemma {:induction false} EncodedPrefixIsNoLonger<T>(encode: T -> seq<byte>, vs: seq<T>, n: nat)
    requires n <= |vs|
    ensures |EncodeMany(encode, vs[..n])| <= |EncodeMany(encode, vs)|
  {
    if n < |vs| {
      var m := |vs| - 1;
      EncodedPrefixIsNoLonger(encode, vs[..m], n);
      assert vs[..m][..n] == vs[..n] && vs[..m] + [vs[m]] == vs;
      EncodeManySnoc(encode, vs[..m], vs[m]);
    } else {
      assert vs[..n] == vs;
    }
  }

  lemma {:induction false} ActiveOnlyOfPrefix(listing: seq<(Key, Entry)>, now: int, n: nat)
    requires n <= |listing|
    ensures ActiveOnly(listing[..n], now) <= ActiveOnly(listing, now)
  {
    if n < |listing| {
      ActiveOnlyOfPrefix(listing[..|listing| - 1], now, n);
      assert listing[..|listing| - 1][..n] == listing[..n];
    } else {
      assert listing[..n] == listing;
    }
  }

  lemma WrittenSoFarIsNoLonger(listing: seq<(Key, Entry)>, now: int, n: nat)
    requires n <= |listing|
    ensures |EncodeEntries(ActiveOnly(listing[..n], now))| <= |EncodeEntries(ActiveOnly(listing, now))|
  {
    var part, all := ActiveOnly(listing[..n], now), ActiveOnly(listing, now);
    ActiveOnlyOfPrefix(listing, now, n);
    assert all[..|part|] == part;
    EncodedPrefixIsNoLonger(EncodeListed, all, |part|);
  }

  // ---------------------------------------------------------------- writing it

  /** Count, then write, the unexpired entries of a listing. */
  method CountActive(listing: seq<(Key, Entry)>, now: int) returns (count: nat)
    ensures count == |ActiveOnly(listing, now)|
  {
    count := 0;
    for i := 0 to |listing|
      invariant count == |ActiveOnly(listing[..i], now)|
    {
      assert listing[..i + 1][..i] == listing[..i];
      if listing[i].1.expires > now {
        count := count + 1;
      }
    }
    assert listing[..|listing|] == listing;
  }

  lemma NothingWritten<T>(encode: T -> seq<byte>, now: int)
    ensures EncodeMany(encode, []) == [] && ActiveOnly([], now) == []
  {
  }

  lemma ActiveOnlySnoc(listing: seq<(Key, Entry)>, now: int, i: nat)
    requires i < |listing|
    ensures ActiveOnly(listing[..i + 1], now)
         == if listing[i].1.expires > now then ActiveOnly(listing[..i], now) + [listing[i]]
            else ActiveOnly(listing[..i], now)
  {
    assert listing[..i + 1][..i] == listing[..i];
  }

  method WriteEntries(buffer: Buffer, listing: seq<(Key, Entry)>, now: int) returns (ok: bool)
    requires buffer.Valid() && buffer.length <= SIZE_MAX
    modifies buffer, buffer.bytes
    ensures buffer.Valid() && buffer.length <= SIZE_MAX && (buffer.bytes == old(buffer.bytes) || fresh(buffer.bytes))
    ensures ok <==> old(buffer.length) + |EncodeEntries(ActiveOnly(listing, now))| <= SIZE_MAX
    ensures ok ==> buffer.Contents() == old(buffer.Contents()) + EncodeEntries(ActiveOnly(listing, now))
  {
    hide EncodeListed, EncodeMany, ActiveOnly;
    NothingWritten(EncodeListed, now);
    for i := 0 to |listing|
      invariant buffer.Valid() && buffer.length <= SIZE_MAX
      invariant (buffer.bytes == old(buffer.bytes) || fresh(buffer.bytes))
      invariant buffer.Contents() == old(buffer.Contents()) + EncodeEntries(ActiveOnly(listing[..i], now))
    {
      ActiveOnlySnoc(listing, now, i);
      if listing[i].1.expires > now {
        EncodeManySnoc(EncodeListed, ActiveOnly(listing[..i], now), listing[i]);
        ok := buffer.Append(EncodeListed(listing[i]));
        if !ok {
          WrittenSoFarIsNoLonger(listing, now, i + 1);
          return;
        }
      }
    }
    assert listing[..|listing|] == listing;
    ok := true;
  }

  method WriteClients(buffer: Buffer, registry: Registry) returns (ok: bool)
    requires buffer.Valid() && buffer.length <= SIZE_MAX && registry.Valid()
    modifies buffer, buffer.bytes
    ensures buffer.Valid() && buffer.length <= SIZE_MAX && (buffer.bytes == old(buffer.bytes) || fresh(buffer.bytes))
    ensures registry.Valid() && registry.Records() == old(registry.Records())
    ensures ok <==> old(buffer.length) + |EncodeClients(registry.Records())| <= SIZE_MAX
    ensures ok ==> buffer.Contents() == old(buffer.Contents()) + EncodeClients(registry.Records())
  {
    hide EncodeClient, EncodeMany;
    NothingWritten(EncodeClient, 0);
    ghost var cs := registry.Records();
    for i := 0 to registry.count
      invariant buffer.Valid() && buffer.length <= SIZE_MAX
      invariant (buffer.bytes == old(buffer.bytes) || fresh(buffer.bytes))
      invariant registry.Valid() && registry.Records() == cs
      invariant buffer.Contents() == old(buffer.Contents()) + EncodeClients(cs[..i])
    {
      assert cs[..i + 1] == cs[..i] + [cs[i]] && registry.records[i] == cs[i];
      EncodeManySnoc(EncodeClient, cs[..i], cs[i]);
      ok := buffer.Append(EncodeClient(registry.records[i]));
      if !ok {
        EncodedPrefixIsNoLonger(EncodeClient, cs, i + 1);
        return;
      }
    }
    assert cs[..|cs|] == cs;
    ok := true;
  }

  method WriteHead(buffer: Buffer, count: nat, now: int) returns (ok: bool)
    requires buffer.Valid() && buffer.length == 0
    modifies buffer, buffer.bytes
    ensures buffer.Valid() && buffer.length <= SIZE_MAX && (buffer.bytes == old(buffer.bytes) || fresh(buffer.bytes))
    ensures ok && buffer.Contents() == U32(STATE_VERSION) + U64(now) + U32(count)
  {
    hide BigEndian;
    ok := buffer.Append(U32(STATE_VERSION));
    ok := buffer.Append(U64(now));
    ok := buffer.Append(U32(count));
  }

  lemma EncodedInOrder(image: Image, now: int)
    ensures EncodeImage(image, now) ==
            U32(STATE_VERSION) + U64(now) + U32(|image.entries|) + EncodeEntries(image.entries) +
            U32(|image.clients|) + EncodeClients(image.clients)
  {
  }

  /**
   Write the state: the unexpired entries of the store in bucket order, then every client. The only
   refusal is a payload too long for a size.
   */
  method Serialize(store: Store, registry: Registry, now: int)
        returns (payload: Option<seq<byte>>, entries: seq<(Key, Entry)>)
    requires store.Valid() && registry.Valid()
    ensures Lists(entries, Active(store.Table(), now))
    ensures var whole := EncodeImage(Image(entries, registry.Records()), now);
            payload == if |whole| <= SIZE_MAX then Some(whole) else None
  {
    hide EncodeEntries, EncodeClients, EncodeImage;
    var listing := store.Entries();
    ActiveOnlyLists(listing, store.Table(), now);
    entries := ActiveOnly(listing, now);
    EncodedInOrder(Image(entries, registry.Records()), now);
    var count := CountActive(listing, now);
    var buffer := new Buffer();
    payload := None;
    var ok := WriteHead(buffer, count, now);
    ok := WriteEntries(buffer, listing, now);
    if !ok { return; }
    ok := buffer.Append(U32(registry.count));
    if !ok { return; }
    ok := WriteClients(buffer, registry);
    if !ok { return; }
    payload := Some(buffer.bytes[..buffer.length]);
  }

  // ---------------------------------------------------------------- journal records

  /** Write the body of a journal record. */
  method WriteBody(buffer: Buffer, r: Record) returns (ok: bool)
    requires buffer.Valid() && buffer.length + |EncodeBody(r)| <= SIZE_MAX
    modifies buffer, buffer.bytes
    ensures buffer.Valid() && buffer.length <= SIZE_MAX && (buffer.bytes == old(buffer.bytes) || fresh(buffer.bytes))
    ensures ok && buffer.Contents() == old(buffer.Contents()) + EncodeBody(r)
  {
    hide EncodeEntry, EncodeClient, U32;
    match r {
      case Set(k, v, e) => ok := WriteSet(buffer, k, Entry(v, e));
      case Remove(k) =>
        ok := buffer.Append(U32(|k|));
        ok := buffer.Append(k);
      case Upsert(c) => ok := buffer.Append(EncodeClient(c));
      case PurgeAll => ok := true;
    }
  }

  method WriteSet(buffer: Buffer, k: Key, e: Entry) returns (ok: bool)
    requires buffer.Valid() && buffer.length + |EncodeEntry(k, e)| <= SIZE_MAX
    modifies buffer, buffer.bytes
    ensures buffer.Valid() && buffer.length <= SIZE_MAX && (buffer.bytes == old(buffer.bytes) || fresh(buffer.bytes))
    ensures ok && buffer.Contents() == old(buffer.Contents()) + EncodeEntry(k, e)
  {
    hide U32, U64;
    ghost var head := U32(|k|) + U32(|e.value|) + U64(e.expires);
    assert EncodeEntry(k, e) == head + k + e.value;
    hide EncodeEntry;
    ok := WriteThree(buffer, U32(|k|), U32(|e.value|), U64(e.expires));
    ghost var written := buffer.Contents();
    assert written == old(buffer.Contents()) + head;
    ok := buffer.Append(k);
    ok := buffer.Append(e.value);
    assert old(buffer.Contents()) + head + k + e.value == old(buffer.Contents()) + (head + k + e.value);
  }

  method WriteThree(buffer: Buffer, a: seq<byte>, b: seq<byte>, c: seq<byte>) returns (ok: bool)
    requires buffer.Valid() && buffer.length + |a| + |b| + |c| <= SIZE_MAX
    modifies buffer, buffer.bytes
    ensures buffer.Valid() && buffer.length <= SIZE_MAX && (buffer.bytes == old(buffer.bytes) || fresh(buffer.bytes))
    ensures ok && buffer.Contents() == old(buffer.Contents()) + a + b + c
  {
    ok := buffer.Append(a);
    ok := buffer.Append(b);
    ok := buffer.Append(c);
  }

  /** The payload of one journal record. */
  method BuildRecord(r: Record, now: int) returns (payload: seq<byte>)
    requires |EncodeRecord(r, now)| <= SIZE_MAX
    ensures payload == EncodeRecord(r, now)
  {
    hide BigEndian, EncodeBody;
    var buffer := new Buffer();
    var ok := buffer.Append(U32(JOURNAL_VERSION));
    ok := buffer.Append(U32(Operation(r)));
    ok := buffer.Append(U64(now));
    ok := WriteBody(buffer, r);
    payload := buffer.bytes[..buffer.length];
  }
}
