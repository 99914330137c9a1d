/**
 The default-deny channel registry of kernel/src/ipc/mod.rs: who may use a channel, over every
 sequence of calls, and the registry as an object holding one ring per channel.
 */
module Channels {
  import opened Prelude
  import opened IpcRing

  const ID_LIMIT: nat := U32

  datatype IpcError = NotFound | PermissionDenied

  /** `R` is what the channel carries: its waiting bytes, or the ring object that holds them. */
  datatype Channel<+R> = Channel(id: nat, owner: nat, allowed: seq<nat>, ring: R)

  datatype State = State(channels: seq<Channel<seq<byte>>>, nextId: nat)

  predicate CanAccess<R>(c: Channel<R>, uid: nat) { c.owner == uid || uid in c.allowed }

  /** The first channel with the given id. */
  function Find<R>(cs: seq<Channel<R>>, id: nat): (k: Option<nat>)
    ensures k.Some? ==> k.value < |cs| && cs[k.value].id == id && forall j :: 0 <= j < k.value ==> cs[j].id != id
    ensures k.None? ==> forall j :: 0 <= j < |cs| ==> cs[j].id != id
  {
    if cs == [] then None
    else if cs[0].id == id then Some(0)
    else
      match Find(cs[1..], id)
      case None =>
        assert forall j :: 0 < j < |cs| ==> cs[j] == cs[1..][j - 1];
        None
      case Some(k) =>
        assert cs[1..][k] == cs[k + 1] && forall j :: 0 < j < k + 1 ==> cs[j] == cs[1..][j - 1];
        Some(k + 1)
  }

  /** The channel `caller` may use under `id`, or why not. */
  function Lookup<R>(cs: seq<Channel<R>>, caller: nat, id: nat): Result<nat, IpcError> {
    match Find(cs, id)
    case None => Err(NotFound)
    case Some(k) => if CanAccess(cs[k], caller) then Ok(k) else Err(PermissionDenied)
  }

  /** NotFound: no channel has the id. PermissionDenied: the first one with it does not let the caller in. */
  lemma LookupSays<R>(cs: seq<Channel<R>>, caller: nat, id: nat)
    ensures Lookup(cs, caller, id) == Err(NotFound) <==> forall j :: 0 <= j < |cs| ==> cs[j].id != id
    ensures forall k: nat :: k < |cs| && cs[k].id == id && (forall j :: 0 <= j < k ==> cs[j].id != id) ==>
              Lookup(cs, caller, id) ==
                if cs[k].owner == caller || caller in cs[k].allowed then Ok(k) else Err(PermissionDenied)
  {
  }

  function Allow<R>(c: Channel<R>, uid: nat): Channel<R> {
    if uid in c.allowed then c else c.(allowed := c.allowed + [uid])
  }

  // ----- The calls on values -----

  datatype Call =
    | Create(caller: nat)
    | Grant(caller: nat, id: nat, uid: nat)
    | Send(caller: nat, id: nat, data: seq<byte>)
    | Recv(caller: nat, id: nat, len: nat)

  function NewId(s: State): nat { s.nextId % ID_LIMIT }

  function SendCount(c: Channel<seq<byte>>, data: seq<byte>): nat { Min(|data|, Max(0, CAPACITY - |c.ring|)) }

  function Apply(s: State, c: Call): State {
    match c
    case Create(caller) => State(s.channels + [Channel(NewId(s), caller, [], [])], (s.nextId + 1) % U64)
    case Grant(caller, id, uid) =>
      (match Find(s.channels, id)
       case None => s
       case Some(k) =>
         if s.channels[k].owner != caller then s
         else s.(channels := s.channels[k := Allow(s.channels[k], uid)]))
    case Send(caller, id, data) =>
      (match Lookup(s.channels, caller, id)
       case Err(_) => s
       case Ok(k) =>
         var ch := s.channels[k];
         s.(channels := s.channels[k := ch.(ring := ch.ring + data[..SendCount(ch, data)])]))
    case Recv(caller, id, len) =>
      (match Lookup(s.channels, caller, id)
       case Err(_) => s
       case Ok(k) =>
         var ch := s.channels[k];
         s.(channels := s.channels[k := ch.(ring := ch.ring[Min(len, |ch.ring|)..])]))
  }

  /** The registry after a sequence of calls, starting empty. */
  function After(calls: seq<Call>): State {
    if calls == [] then State([], 1) else Apply(After(DropLast(calls)), Last(calls))
  }

  // ----- Default deny -----

  /** Call `j` is the owner of channel `k` granting it to `uid`. */
  ghost predicate GrantedAt(calls: seq<Call>, j: nat, k: nat, uid: nat)
    requires j < |calls|
  {
    && calls[j].Grant? && calls[j].uid == uid
    && var cs := After(calls[..j]).channels;
       Find(cs, calls[j].id) == Some(k) && cs[k].owner == calls[j].caller
  }

  ghost predicate Granted(calls: seq<Call>, k: nat, uid: nat) {
    exists j: nat :: j < |calls| && GrantedAt(calls, j, k, uid)
  }

  lemma GrantedSplit(calls: seq<Call>, k: nat, uid: nat)
    requires calls != []
    ensures Granted(calls, k, uid) <==> Granted(DropLast(calls), k, uid) || GrantedAt(calls, |calls| - 1, k, uid)
  {
    forall j: nat | j < |calls| - 1 ensures GrantedAt(calls, j, k, uid) <==> GrantedAt(DropLast(calls), j, k, uid) {
      assert DropLast(calls)[..j] == calls[..j] && DropLast(calls)[j] == calls[j];
    }
  }

  /** What one call does to the right of `uid` to use channel `k`. */
  lemma ApplyAccess(s: State, c: Call, k: nat, uid: nat)
    requires k < |s.channels|
    ensures var s' := Apply(s, c);
            && k < |s'.channels| && s'.channels[k].owner == s.channels[k].owner && s'.channels[k].id == s.channels[k].id
            && (CanAccess(s'.channels[k], uid) <==>
                  || CanAccess(s.channels[k], uid)
                  || (c.Grant? && c.uid == uid && Find(s.channels, c.id) == Some(k) && s.channels[k].owner == c.caller))
  {
  }

  /**
   Default deny, over every sequence of calls: a uid may use a channel exactly when it created the channel
   or the channel's creator granted it.
   */
  lemma {:induction false} AccessIffGranted(calls: seq<Call>, k: nat, uid: nat)
    requires k < |After(calls).channels|
    ensures CanAccess(After(calls).channels[k], uid) <==>
              After(calls).channels[k].owner == uid || Granted(calls, k, uid)
  {
    hide CanAccess, GrantedAt, Apply;
    var before := DropLast(calls);
    var s := After(before);
    GrantedSplit(calls, k, uid);
    assert calls[..|calls| - 1] == before;
    if k < |s.channels| {
      AccessIffGranted(before, k, uid);
      ApplyAccess(s, Last(calls), k, uid);
      LastGrant(calls, k, uid);
    } else {
      NotYetGranted(before, k, uid);
      Created(s, Last(calls), k, uid);
      LastGrant(calls, k, uid);
    }
  }

  lemma LastGrant(calls: seq<Call>, k: nat, uid: nat)
    requires calls != []
    ensures var s, c := After(DropLast(calls)), Last(calls);
            GrantedAt(calls, |calls| - 1, k, uid) <==>
              c.Grant? && c.uid == uid && Find(s.channels, c.id) == Some(k) && s.channels[k].owner == c.caller
  {
    assert calls[..|calls| - 1] == DropLast(calls);
  }

  lemma Created(s: State, c: Call, k: nat, uid: nat)
    requires |s.channels| <= k < |Apply(s, c).channels|
    ensures CanAccess(Apply(s, c).channels[k], uid) <==> Apply(s, c).channels[k].owner == uid
  {
  }

  lemma {:induction false} NotYetGranted(calls: seq<Call>, k: nat, uid: nat)
    requires k >= |After(calls).channels|
    ensures !Granted(calls, k, uid)
  {
    forall j: nat | j < |calls| ensures !GrantedAt(calls, j, k, uid) {
      ChannelsGrow(calls, j);
    }
  }

  lemma {:induction false} ChannelsGrow(calls: seq<Call>, j: nat)
    requires j <= |calls|
    ensures |After(calls[..j]).channels| <= |After(calls).channels|
  {
    if j < |calls| {
      ChannelsGrow(DropLast(calls), j);
      assert DropLast(calls)[..j] == calls[..j];
    } else {
      assert calls[..j] == calls;
    }
  }

  /** A call by a uid without access to a channel leaves that channel, and its waiting bytes, as they are. */
  lemma DeniedChangesNothing(s: State, c: Call, k: nat)
    requires k < |s.channels| && !CanAccess(s.channels[k], c.caller)
    ensures k < |Apply(s, c).channels| && Apply(s, c).channels[k] == s.channels[k]
  {
  }

  // ----- Channel ids -----

  lemma {:induction false} IdsCount(calls: seq<Call>, k: nat)
    ensures k < |After(calls).channels| ==> After(calls).channels[k].id == (k + 1) % ID_LIMIT
    ensures After(calls).nextId == (|After(calls).channels| + 1) % U64
  {
    if calls != [] {
      IdsCount(DropLast(calls), k);
      var s := After(DropLast(calls));
      if k < |s.channels| {
        ApplyAccess(s, Last(calls), k, 0);
      }
      NextWraps(|s.channels| + 1);
      WrapsAsId(|s.channels| + 1);
    }
  }

  lemma WrapsAsId(n: nat)
    ensures n % U64 % ID_LIMIT == n % ID_LIMIT
  {
    var q := n / U64;
    assert n % U64 == n - ID_LIMIT * (ID_LIMIT * q);
  }

  lemma NextWraps(n: nat)
    ensures (n % U64 + 1) % U64 == (n + 1) % U64
  {
    var q := n / U64;
    assert n + 1 == n % U64 + 1 + U64 * q;
  }

  lemma FirstIs<R>(cs: seq<Channel<R>>, id: nat, k: nat)
    requires k < |cs| && cs[k].id == id && forall j :: 0 <= j < k ==> cs[j].id != id
    ensures Find(cs, id) == Some(k)
  {
    hide Find;
  }

  /** A new channel is found under the id its creator was given exactly while fewer than 2^32 exist. */
  lemma NewIdIsOwn(calls: seq<Call>, caller: nat)
    ensures var s := After(calls);
            Find(Apply(s, Create(caller)).channels, NewId(s)) == Some(|s.channels|) <==> |s.channels| < ID_LIMIT
  {
    hide After, Find;
    var s := After(calls);
    var cs, n := Apply(s, Create(caller)).channels, |s.channels|;
    IdsCount(calls, 0);
    WrapsAsId(n + 1);
    forall k: nat | k < n ensures cs[k].id == (k + 1) % ID_LIMIT {
      IdsCount(calls, k);
    }
    assert cs[n].id == NewId(s) == (n + 1) % ID_LIMIT;
    if n < ID_LIMIT {
      forall k: nat | k < n ensures cs[k].id != NewId(s) {
        RemaindersDiffer(k + 1, n + 1, ID_LIMIT);
      }
      FirstIs(cs, NewId(s), n);
    } else {
      Recurs(n - ID_LIMIT + 1);
      assert cs[n - ID_LIMIT].id == NewId(s);
    }
  }

  lemma Recurs(n: nat)
    ensures (n + ID_LIMIT) % ID_LIMIT == n % ID_LIMIT
  {
  }

  // ----- The registry as an object -----

  ghost function Rings(cs: seq<Channel<RingBuffer>>): set<RingBuffer> { set k | 0 <= k < |cs| :: cs[k].ring }

  ghost function Buffers(cs: seq<Channel<RingBuffer>>): set<array<byte>> { set k | 0 <= k < |cs| :: cs[k].ring.buf }

  /** Each channel has a valid ring of its own. */
  ghost predicate Separate(cs: seq<Channel<RingBuffer>>)
    reads Rings(cs), Buffers(cs)
  {
    forall k :: 0 <= k < |cs| ==>
      && cs[k].ring.Valid()
      && forall j :: 0 <= j < k ==> cs[j].ring != cs[k].ring && cs[j].ring.buf != cs[k].ring.buf
  }

  /** The channels with their waiting bytes. */
  ghost function View(cs: seq<Channel<RingBuffer>>): (v: seq<Channel<seq<byte>>>)
    requires Separate(cs)
    reads Rings(cs), Buffers(cs)
    ensures |v| == |cs|
    ensures forall k :: 0 <= k < |cs| ==> v[k] == Channel(cs[k].id, cs[k].owner, cs[k].allowed, cs[k].ring.Contents())
  {
    seq(|cs|, k requires 0 <= k < |cs| && Separate(cs) reads Rings(cs), Buffers(cs) =>
      Channel(cs[k].id, cs[k].owner, cs[k].allowed, cs[k].ring.Contents()))
  }

  lemma SameLookup<R, S>(a: seq<Channel<R>>, b: seq<Channel<S>>, caller: nat, id: nat)
    requires |a| == |b|
    requires forall k :: 0 <= k < |a| ==> a[k].id == b[k].id && a[k].owner == b[k].owner && a[k].allowed == b[k].allowed
    ensures Find(a, id) == Find(b, id) && Lookup(a, caller, id) == Lookup(b, caller, id)
  {
    if Find(a, id).Some? {
      FirstIs(b, id, Find(a, id).value);
    }
  }

  /** `channels` and the id counter; each method is one call of the machine above. */
  class Registry {
    var channels: seq<Channel<RingBuffer>>
    var nextId: nat

    ghost predicate Valid()
      reads this, Rings(channels), Buffers(channels)
    {
      Separate(channels)
    }

    ghost function Abs(): State
      requires Valid()
      reads this, Rings(channels), Buffers(channels)
    {
      State(View(channels), nextId)
    }

    constructor ()
      ensures Valid() && Abs() == After([])
    {
      channels, nextId := [], 1;
    }

    method CreateChannel(caller: nat) returns (id: nat)
      requires Valid()
      modifies this
      ensures Valid() && Abs() == Apply(old(Abs()), Create(caller)) && id == NewId(old(Abs()))
    {
      id := nextId % ID_LIMIT;
      var ring := new RingBuffer();
      nextId := (nextId + 1) % U64;
      channels := channels + [Channel(id, caller, [], ring)];
    }

    method GrantTo(caller: nat, id: nat, uid: nat) returns (r: Result<(), IpcError>)
      requires Valid()
      modifies this
      ensures Valid() && Abs() == Apply(old(Abs()), Grant(caller, id, uid))
      ensures r == match Find(old(Abs()).channels, id)
                   case None => Err(NotFound)
                   case Some(k) => if old(Abs()).channels[k].owner == caller then Ok(()) else Err(PermissionDenied)
    {
      SameLookup(channels, View(channels), caller, id);
      var found := Find(channels, id);
      if found.None? {
        return Err(NotFound);
      }
      var k := found.value;
      if channels[k].owner != caller {
        return Err(PermissionDenied);
      }
      channels := channels[k := Allow(channels[k], uid)];
      r := Ok(());
    }

    method SendTo(caller: nat, id: nat, data: seq<byte>) returns (r: Result<nat, IpcError>)
      requires Valid()
      modifies Rings(channels), Buffers(channels)
      ensures Valid() && channels == old(channels) && Abs() == Apply(old(Abs()), Send(caller, id, data))
      ensures r == match Lookup(old(Abs()).channels, caller, id)
                   case Err(e) => Err(e)
                   case Ok(k) => Ok(SendCount(old(Abs()).channels[k], data))
    {
      hide Inv, Find, CanAccess;
      SameLookup(channels, View(channels), caller, id);
      var found := Lookup(channels, caller, id);
      if found.Err? {
        return Err(found.error);
      }
      var n := channels[found.value].ring.Push(data);
      r := Ok(n);
    }

    method RecvFrom(caller: nat, id: nat, len: nat) returns (r: Result<seq<byte>, IpcError>)
      requires Valid()
      modifies Rings(channels), Buffers(channels)
      ensures Valid() && channels == old(channels) && Abs() == Apply(old(Abs()), Recv(caller, id, len))
      ensures r == match Lookup(old(Abs()).channels, caller, id)
                   case Err(e) => Err(e)
                   case Ok(k) => Ok(old(Abs()).channels[k].ring[..Min(len, |old(Abs()).channels[k].ring|)])
    {
      hide Inv, Find, CanAccess;
      SameLookup(channels, View(channels), caller, id);
      var found := Lookup(channels, caller, id);
      if found.Err? {
        return Err(found.error);
      }
      var got := channels[found.value].ring.Pop(len);
      r := Ok(got);
    }
  }
}
