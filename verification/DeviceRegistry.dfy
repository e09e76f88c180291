/** Device subscriptions, claim tokens and ownership (`device/mod.rs`,
    `device/subscription.rs`). */
module DeviceRegistry {
  import opened Common

  /** What the kernel knows about a device, as one number per distinct description. */
  type Info = nat

  /** A driver's subscription: the descriptions its match bytes select, and its process. */
  datatype Subscriber = Subscriber(selects: set<Info>, pid: nat)

  /** A subscription, by index, and a device. */
  datatype Pairing = Pairing(sub: nat, device: nat)

  datatype Token = Token(device: nat, pid: nat)

  datatype ClaimResult = Claimed(device: nat) | InvalidToken | AlreadyClaimed

  /** Successful claims and releases, in order. */
  datatype Event = Claim(token: nat, device: nat, pid: nat) | Release(device: nat)

  predicate Matching(subs: seq<Subscriber>, devices: seq<Info>, p: Pairing) {
    p.sub < |subs| && p.device < |devices| && devices[p.device] in subs[p.sub].selects
  }

  /** Who owns a device after some events. */
  function OwnerAfter(log: seq<Event>, device: nat): Option<nat> {
    if log == [] then None
    else
      match log[|log| - 1]
      case Claim(_, d, p) => if d == device then Some(p) else OwnerAfter(log[..|log| - 1], device)
      case Release(d) => if d == device then None else OwnerAfter(log[..|log| - 1], device)
  }

  /** No token succeeds twice, and a device is claimed only while nobody owns it: between
      two claims of a device there is a release of it. */
  ghost predicate Orderly(log: seq<Event>) {
    && (forall i, j :: 0 <= i < j < |log| && log[i].Claim? && log[j].Claim? ==> log[i].token != log[j].token)
    && (forall k :: 0 <= k < |log| && log[k].Claim? ==> OwnerAfter(log[..k], log[k].device) == None)
  }

  /** Between two claims of one device there is a release of it. */
  lemma {:induction false} ReleasedBetween(log: seq<Event>, i: nat, j: nat)
    requires Orderly(log) && i < j < |log| && log[i].Claim? && log[j].Claim? && log[i].device == log[j].device
    ensures exists k :: i < k < j && log[k] == Release(log[i].device)
  {
    var d := log[i].device;
    if forall k :: i < k < j ==> log[k] != Release(d) {
      StillOwned(log, i, j);
    }
  }

  lemma {:induction false} StillOwned(log: seq<Event>, i: nat, j: nat)
    requires i < j <= |log| && log[i].Claim? && forall k :: i < k < j ==> log[k] != Release(log[i].device)
    ensures OwnerAfter(log[..j], log[i].device).Some?
    decreases j
  {
    var before := log[..j];
    assert before[..|before| - 1] == log[..j - 1];
    if j - 1 > i { StillOwned(log, i, j - 1); }
  }

  /** Exactly the matching pairs have a token, all tokens differ and none is zero. */
  ghost predicate Minted(subs: seq<Subscriber>, devices: seq<Info>, minted: map<Pairing, nat>, next: nat) {
    && (forall p :: p in minted <==> Matching(subs, devices, p))
    && Numbered(minted, next)
  }

  ghost predicate Numbered(minted: map<Pairing, nat>, next: nat) {
    && next > 0
    && (forall p <- minted :: 0 < minted[p] < next)
    && (forall p <- minted, q <- minted :: minted[p] == minted[q] ==> p == q)
  }

  /** A token was minted for this device and the process of one of its subscriptions. */
  ghost predicate MintedFor(subs: seq<Subscriber>, minted: map<Pairing, nat>, token: nat, device: nat, pid: nat) {
    exists p :: p in minted && minted[p] == token && p.device == device && p.sub < |subs| && subs[p.sub].pid == pid
  }

  /** Tokens not yet used stand for the pair they were minted for, used ones are gone, and
      every claim that succeeded was made by the process its token was minted for. */
  ghost predicate Pending(subs: seq<Subscriber>, minted: map<Pairing, nat>, tokens: map<nat, Token>, log: seq<Event>) {
    && (forall p <- minted :: minted[p] in tokens ==>
          p.sub < |subs| && tokens[minted[p]] == Token(p.device, subs[p.sub].pid))
    && (forall t <- tokens :: MintedFor(subs, minted, t, tokens[t].device, tokens[t].pid))
    && (forall e <- log :: e.Claim? ==> e.token !in tokens && MintedFor(subs, minted, e.token, e.device, e.pid))
  }

  /** An owner table says what the events say. */
  ghost predicate OwnersAre(log: seq<Event>, owners: map<nat, nat>) {
    forall d: nat :: OwnerAfter(log, d) == if d in owners then Some(owners[d]) else None
  }

  /** What a subscriber is told on subscribing: each device it has a token for, once, in
      the order of their numbers, with that token. */
  ghost predicate Replayed(sub: nat, minted: map<Pairing, nat>, replayed: seq<(nat, nat)>) {
    && (forall r <- replayed :: Pairing(sub, r.0) in minted && minted[Pairing(sub, r.0)] == r.1)
    && (forall d: nat :: Pairing(sub, d) in minted ==> exists k :: 0 <= k < |replayed| && replayed[k].0 == d)
    && (forall i, j :: 0 <= i < j < |replayed| ==> replayed[i].0 < replayed[j].0)
  }

  class Registry {
    var devices: seq<Info>
    var owners: map<nat, nat>
    var tokens: map<nat, Token>
    var nextToken: nat
    var subs: seq<Subscriber>
    /** The token of each pair, and what happened so far. */
    ghost var minted: map<Pairing, nat>
    ghost var log: seq<Event>

    ghost predicate Valid()
      reads this
    {
      && Minted(subs, devices, minted, nextToken)
      && Pending(subs, minted, tokens, log)
      && Owned()
    }

    /** Owners are what the events say. */
    ghost predicate Owned()
      reads this
    {
      Orderly(log) && OwnersAre(log, owners)
    }

    constructor ()
      ensures Valid() && devices == [] && subs == [] && log == [] && tokens == map[]
    {
      devices, owners, tokens, nextToken, subs := [], map[], map[], 1, [];
      minted, log := map[], [];
    }

    /** `mint_token`. */
    method MintToken(ghost all: seq<Subscriber>, ghost p: Pairing, device: nat, pid: nat) returns (t: nat)
      requires Numbered(minted, nextToken) && Pending(all, minted, tokens, log) && p !in minted
      requires p.device == device && p.sub < |all| && all[p.sub].pid == pid
      modifies this`tokens, this`nextToken, this`minted
      ensures Numbered(minted, nextToken) && Pending(all, minted, tokens, log)
      ensures t == old(nextToken) && minted == old(minted)[p := t]
    {
      t := nextToken;
      PendingMore(all, minted, tokens, log, p, t, nextToken);
      nextToken := nextToken + 1;
      tokens := tokens[t := Token(device, pid)];
      minted := minted[p := t];
    }

    /** `register`: every subscription that selects the device gets a token for it. */
    method Register(info: Info) returns (id: nat)
      requires Valid()
      modifies this
      ensures Valid() && id == |old(devices)| && devices == old(devices) + [info]
      ensures subs == old(subs) && owners == old(owners) && log == old(log)
      ensures forall p <- old(minted) :: p in minted && minted[p] == old(minted)[p]
    {
      hide Orderly, OwnerAfter, Numbered, Pending;
      id := |devices|;
      devices := devices + [info];
      var i := 0;
      while i < |subs|
        invariant 0 <= i <= |subs| && Numbered(minted, nextToken) && Pending(subs, minted, tokens, log)
        invariant devices == old(devices) + [info] && subs == old(subs) && owners == old(owners) && log == old(log)
        invariant forall p :: p in minted <==> Matching(subs, devices, p) && (p.device < id || p.sub < i)
        invariant forall p <- old(minted) :: p in minted && minted[p] == old(minted)[p]
      {
        if info in subs[i].selects {
          var _ := MintToken(subs, Pairing(i, id), id, subs[i].pid);
        }
        i := i + 1;
      }
    }

    /** `subscribe`: the new subscription gets a token for every known device it selects. */
    method Subscribe(selects: set<Info>, pid: nat) returns (replayed: seq<(nat, nat)>)
      requires Valid()
      modifies this
      ensures Valid() && subs == old(subs) + [Subscriber(selects, pid)]
      ensures devices == old(devices) && owners == old(owners) && log == old(log)
      ensures forall p <- old(minted) :: p in minted && minted[p] == old(minted)[p]
      ensures Replayed(|old(subs)|, minted, replayed)
    {
      hide Orderly, OwnerAfter, OwnersAre, Numbered, Pending, Replayed;
      NothingReplayed(subs, devices, minted, nextToken);
      ghost var s := |subs|;
      var entry := Subscriber(selects, pid);
      ghost var all := subs + [entry];
      PendingWider(subs, entry, minted, tokens, log);
      replayed := [];
      var id := 0;
      while id < |devices|
        invariant 0 <= id <= |devices| && Numbered(minted, nextToken) && Pending(all, minted, tokens, log)
        invariant subs == old(subs) && devices == old(devices) && owners == old(owners) && log == old(log)
        invariant forall p :: p in minted <==> Matching(all, devices, p) && (p.sub < s || p.device < id)
        invariant forall p <- old(minted) :: p in minted && minted[p] == old(minted)[p]
        invariant Replayed(s, minted, replayed)
      {
        if devices[id] in selects {
          ghost var was := minted;
          var t := MintToken(all, Pairing(s, id), id, pid);
          ReplayedMore(s, was, replayed, id, t);
          replayed := replayed + [(id, t)];
        }
        id := id + 1;
      }
      subs := subs + [entry];
    }

    /** `claim`: the token is used up unless it belongs to someone else; the device goes to
        the caller only if nobody owns it. */
    method ClaimDevice(token: nat, pid: nat) returns (r: ClaimResult)
      requires Valid()
      modifies this
      ensures Valid() && devices == old(devices) && subs == old(subs) && minted == old(minted)
      ensures r == if token !in old(tokens) || old(tokens)[token].pid != pid then InvalidToken
                   else if old(tokens)[token].device in old(owners) then AlreadyClaimed
                   else Claimed(old(tokens)[token].device)
      ensures tokens == if r == InvalidToken then old(tokens) else old(tokens) - {token}
      ensures r.Claimed? ==> owners == old(owners)[r.device := pid] && log == old(log) + [Claim(token, r.device, pid)]
      ensures !r.Claimed? ==> owners == old(owners) && log == old(log)
    {
      hide Minted, Pending, Orderly, OwnersAre, OwnerAfter;
      if token !in tokens {
        return InvalidToken;
      }
      var device := tokens[token].device;
      if tokens[token].pid != pid {
        return InvalidToken;
      }
      TokenUsed(subs, minted, tokens, log, token);
      if device in owners {
        tokens := tokens - {token};
        return AlreadyClaimed;
      }
      EventRecorded(log, owners, Claim(token, device, pid), owners[device := pid]);
      tokens := tokens - {token};
      owners := owners[device := pid];
      log := log + [Claim(token, device, pid)];
      return Claimed(device);
    }

    /** `release`. */
    method ReleaseDevice(device: nat)
      requires Valid()
      modifies this
      ensures Valid() && devices == old(devices) && subs == old(subs) && minted == old(minted) && tokens == old(tokens)
      ensures owners == old(owners) - {device} && log == old(log) + [Release(device)]
    {
      hide Minted, Orderly, OwnersAre, OwnerAfter;
      EventRecorded(log, owners, Release(device), owners - {device});
      owners := owners - {device};
      log := log + [Release(device)];
    }

    /** `release_all_owned_by`, on process exit. */
    method ReleaseAllOwnedBy(pid: nat)
      requires Valid()
      modifies this
      ensures Valid() && devices == old(devices) && subs == old(subs) && minted == old(minted) && tokens == old(tokens)
      ensures owners == map d | d in old(owners) && old(owners)[d] != pid :: old(owners)[d]
      ensures |log| == |old(log)| + |set d | d in old(owners) && old(owners)[d] == pid| && log[..|old(log)|] == old(log)
      ensures forall k :: |old(log)| <= k < |log| ==>
                log[k].Release? && log[k].device in old(owners) && old(owners)[log[k].device] == pid
    {
      hide Minted, Pending, Orderly, OwnerAfter;
      var owned := set d | d in owners && owners[d] == pid;
      var left := owned;
      while left != {}
        invariant Valid() && left <= owned
        invariant devices == old(devices) && subs == old(subs) && minted == old(minted) && tokens == old(tokens)
        invariant owners.Keys <= old(owners).Keys && forall d <- owners :: owners[d] == old(owners)[d]
        invariant forall d <- owners :: owners[d] == pid ==> d in left
        invariant forall d <- old(owners) :: old(owners)[d] != pid ==> d in owners
        invariant |log| + |left| == |old(log)| + |owned| && |old(log)| <= |log| && log[..|old(log)|] == old(log)
        invariant forall k :: |old(log)| <= k < |log| ==> log[k].Release? && log[k].device in owned
        decreases |left|
      {
        var d :| d in left;
        ReleaseDevice(d);
        left := left - {d};
      }
    }
  }

  lemma NothingReplayed(subs: seq<Subscriber>, devices: seq<Info>, minted: map<Pairing, nat>, next: nat)
    requires Minted(subs, devices, minted, next)
    ensures Replayed(|subs|, minted, [])
  {
  }

  lemma ReplayedMore(sub: nat, minted: map<Pairing, nat>, replayed: seq<(nat, nat)>, id: nat, t: nat)
    requires Replayed(sub, minted, replayed) && forall d: nat :: d >= id ==> Pairing(sub, d) !in minted
    ensures Replayed(sub, minted[Pairing(sub, id) := t], replayed + [(id, t)])
  {
    var more := replayed + [(id, t)];
    assert more[|replayed|].0 == id;
    assert forall k :: 0 <= k < |replayed| ==> more[k] == replayed[k];
  }

  /** A new token keeps every earlier one and what it stands for. */
  lemma PendingMore(subs: seq<Subscriber>, minted: map<Pairing, nat>, tokens: map<nat, Token>, log: seq<Event>,
                    p: Pairing, t: nat, next: nat)
    requires Numbered(minted, next) && Pending(subs, minted, tokens, log) && p !in minted && p.sub < |subs| && t == next
    ensures Pending(subs, minted[p := t], tokens[t := Token(p.device, subs[p.sub].pid)], log)
    ensures Numbered(minted[p := t], next + 1)
  {
    var minted', tokens' := minted[p := t], tokens[t := Token(p.device, subs[p.sub].pid)];
    forall u <- tokens'
      ensures MintedFor(subs, minted', u, tokens'[u].device, tokens'[u].pid)
    {
      if u == t {
        assert minted'[p] == t;
      } else {
        MintedForMore(subs, minted, p, t, u, tokens[u].device, tokens[u].pid);
      }
    }
    forall e <- log | e.Claim?
      ensures e.token !in tokens' && MintedFor(subs, minted', e.token, e.device, e.pid)
    {
      MintedForMore(subs, minted, p, t, e.token, e.device, e.pid);
    }
  }

  lemma MintedForMore(subs: seq<Subscriber>, minted: map<Pairing, nat>, p: Pairing, t: nat, token: nat, device: nat,
                      pid: nat)
    requires MintedFor(subs, minted, token, device, pid) && p !in minted
    ensures MintedFor(subs, minted[p := t], token, device, pid)
  {
    var q :| q in minted && minted[q] == token && q.device == device && q.sub < |subs| && subs[q.sub].pid == pid;
    assert minted[p := t][q] == token;
  }

  lemma PendingWider(subs: seq<Subscriber>, entry: Subscriber, minted: map<Pairing, nat>, tokens: map<nat, Token>,
                     log: seq<Event>)
    requires Pending(subs, minted, tokens, log)
    ensures Pending(subs + [entry], minted, tokens, log)
  {
    var all := subs + [entry];
    assert forall i :: 0 <= i < |subs| ==> all[i] == subs[i];
    forall token, device, pid | MintedFor(subs, minted, token, device, pid)
      ensures MintedFor(all, minted, token, device, pid)
    {
    }
  }

  /** A token that is taken out stays used, whether or not its claim succeeds. */
  lemma TokenUsed(subs: seq<Subscriber>, minted: map<Pairing, nat>, tokens: map<nat, Token>, log: seq<Event>,
                  token: nat)
    requires Pending(subs, minted, tokens, log) && token in tokens
    ensures Pending(subs, minted, tokens - {token}, log)
    ensures Pending(subs, minted, tokens - {token}, log + [Claim(token, tokens[token].device, tokens[token].pid)])
    ensures forall e <- log :: e.Claim? ==> e.token != token
  {
    hide MintedFor;
    var left := tokens - {token};
    assert forall t <- left :: t in tokens;
  }

  /** A claim with a new token of a device nobody owns, or a release, keeps the events
      orderly and the owner table in step with them. */
  lemma EventRecorded(log: seq<Event>, owners: map<nat, nat>, e: Event, owners': map<nat, nat>)
    requires Orderly(log) && OwnersAre(log, owners)
    requires e.Claim? ==> e.device !in owners && owners' == owners[e.device := e.pid]
    requires e.Claim? ==> forall f <- log :: f.Claim? ==> f.token != e.token
    requires e.Release? ==> owners' == owners - {e.device}
    ensures Orderly(log + [e]) && OwnersAre(log + [e], owners')
  {
    var more := log + [e];
    assert more[..|more| - 1] == log;
    assert forall k :: 0 <= k <= |log| ==> more[..k] == log[..k];
    assert log[..|log|] == log;
  }
}
