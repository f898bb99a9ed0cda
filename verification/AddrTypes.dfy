/** Addresses, what is remembered about a peer, and the keyed bucket choice (src/addrman.h, src/addrman.cpp). */
module AddrTypes {

  const TRIED_BUCKET_COUNT := 64
  const TRIED_BUCKET_SIZE := 64
  const NEW_BUCKET_COUNT := 256
  const NEW_BUCKET_SIZE := 64
  const TRIED_BUCKETS_PER_GROUP := 4
  const NEW_BUCKETS_PER_SOURCE_GROUP := 32
  const NEW_BUCKETS_PER_ADDRESS := 4
  const TRIED_ENTRIES_INSPECT_ON_EVICT := 4
  const HORIZON_DAYS := 30
  const RETRIES := 3
  const MAX_FAILURES := 10
  const MIN_FAIL_DAYS := 7
  const GETADDR_MAX_PCT := 23
  const GETADDR_MAX := 2500

  /** The 16 address bytes; the port is not part of it. */
  datatype NetAddr = NetAddr(ip: seq<bv8>)

  /** `CAddress` without its memory-only `nLastTry`; `nTime` is an unsigned 32-bit number. */
  datatype Address = Address(net: NetAddr, port: nat, nServices: bv64, nTime: nat)

  /** The part of `CAddrInfo` that describes the peer. */
  datatype Peer = Peer(addr: Address, source: NetAddr, nLastSuccess: int, nLastTry: int, nAttempts: int)

  /** `CAddrInfo`: the peer and its memory-only place in the tables. */
  datatype Info = Info(peer: Peer, nRefCount: int, fInTried: bool, nRandomPos: int)

  /** A 64-bit value stored in an unsigned 32-bit field. */
  function U32(x: int): nat { x % 0x1_0000_0000 }

  function Max0(x: int): nat { if x < 0 then 0 else x }

  /** `GetRandInt` on a raw random number: in range, and 0 when the range is empty. */
  function GetRandInt(raw: nat, nMax: nat): (r: nat)
    ensures nMax > 0 ==> r < nMax
    ensures nMax == 0 ==> r == 0
  {
    if nMax == 0 then 0 else raw % nMax
  }

  datatype Field = Bytes(bytes: seq<bv8>) | Num(n: nat)

  /** What bucket choice depends on: the secret key, the hash (read as a 64-bit number), and the
      byte keys that an address yields. */
  datatype Hasher = Hasher(
    nKey: seq<bv8>,
    hash: seq<Field> -> nat,
    serviceKey: (NetAddr, nat) -> seq<bv8>,
    group: NetAddr -> seq<bv8>,
    routable: NetAddr -> bool)

  function TriedBucketOfGroup(h: Hasher, group: seq<bv8>, slot: nat): (k: nat)
    ensures k < TRIED_BUCKET_COUNT
  {
    h.hash([Bytes(h.nKey), Bytes(group), Num(slot)]) % TRIED_BUCKET_COUNT
  }

  function GetTriedBucket(h: Hasher, net: NetAddr, port: nat): (k: nat)
    ensures k < TRIED_BUCKET_COUNT
  {
    var hash1 := h.hash([Bytes(h.nKey), Bytes(h.serviceKey(net, port))]);
    TriedBucketOfGroup(h, h.group(net), hash1 % TRIED_BUCKETS_PER_GROUP)
  }

  function GetNewBucket(h: Hasher, net: NetAddr, src: NetAddr): (b: nat)
    ensures b < NEW_BUCKET_COUNT
  {
    var hash1 := h.hash([Bytes(h.nKey), Bytes(h.group(net)), Bytes(h.group(src))]);
    h.hash([Bytes(h.nKey), Bytes(h.group(src)), Num(hash1 % NEW_BUCKETS_PER_SOURCE_GROUP)]) % NEW_BUCKET_COUNT
  }

  /** `CAddrInfo::IsTerrible`. */
  predicate IsTerrible(p: Peer, nNow: int) {
    if p.nLastTry != 0 && p.nLastTry >= nNow - 60 then false
    else if p.addr.nTime > nNow + 10 * 60 then true
    else if p.addr.nTime == 0 || nNow - p.addr.nTime > HORIZON_DAYS * 86400 then true
    else if p.nLastSuccess == 0 && p.nAttempts >= RETRIES then true
    else nNow - p.nLastSuccess > MIN_FAIL_DAYS * 86400 && p.nAttempts >= MAX_FAILURES
  }

  /** How `Add_` merges a repeated announcement into a known peer. */
  function Refreshed(p: Peer, addr: Address, nTimePenalty: int, nNow: int): Peer {
    var nUpdateInterval := if nNow - addr.nTime < 24 * 60 * 60 then 60 * 60 else 24 * 60 * 60;
    var nTime :=
      if addr.nTime != 0 && (p.addr.nTime == 0 || p.addr.nTime < addr.nTime - nUpdateInterval - nTimePenalty)
      then U32(Max0(addr.nTime - nTimePenalty))
      else p.addr.nTime;
    p.(addr := p.addr.(nTime := nTime, nServices := p.addr.nServices | addr.nServices))
  }

  /** `Add_` goes on to the buckets only if the announcement is newer than what is known. */
  predicate HasNews(p: Peer, addr: Address) {
    addr.nTime != 0 && (p.addr.nTime == 0 || addr.nTime > p.addr.nTime)
  }

  /** The peer that `Create` and `Add_` make of an unknown address. */
  function FreshPeer(addr: Address, source: NetAddr, nTimePenalty: int): Peer {
    Peer(addr.(nTime := U32(Max0(addr.nTime - nTimePenalty))), source, 0, 0, 0)
  }

  function MarkedGood(p: Peer, nTime: int): Peer {
    p.(addr := p.addr.(nTime := U32(nTime)), nLastSuccess := nTime, nLastTry := nTime, nAttempts := 0)
  }

  function MarkedTried(p: Peer, nTime: int): Peer {
    p.(nLastTry := nTime, nAttempts := p.nAttempts + 1)
  }

  function MarkedConnected(p: Peer, nTime: int): Peer {
    if nTime - p.addr.nTime > 20 * 60 then p.(addr := p.addr.(nTime := U32(nTime))) else p
  }
}
