/**
 * The WIDEn-N relay decision, as the source computes it over a fixed hop array,
 * proved equal to a path rewrite on sequences; and what that rewrite guarantees
 * to a network of stations, however they are configured.
 */
module Digipeat {
  import opened Prelude

  const MAX_DIGIPEATERS: nat := 8
  const WIDE_N_MAX: nat := 7

  type Ssid = s: nat | s <= 15

  predicate CallsignShape(c: string) {
    1 <= |c| <= 6 && forall i :: 0 <= i < |c| ==> 'A' <= c[i] <= 'Z' || '0' <= c[i] <= '9'
  }

  type Callsign = c: string | CallsignShape(c) witness "A"

  datatype Address = Address(callsign: Callsign, ssid: Ssid)

  // Address construction re-validates both fields.
  function NewAddress(callsign: string, ssid: nat): Option<Address> {
    if CallsignShape(callsign) && ssid <= 15 then Some(Address(callsign, ssid)) else None
  }

  datatype PathHop = PathHop(address: Address, repeated: bool)

  type WideLimit = n: nat | 1 <= n <= WIDE_N_MAX witness 1

  datatype Alias = Exact(address: Address) | Wide(limit: WideLimit)

  datatype ExactAliasAction = Keep | Substitute

  datatype IgnoreReason =
    | AllHopsUsed
    | NotForUs
    | WideInvalid(n: nat, remaining: nat)
    | WideAboveLimit(requested: nat, max: nat)
    | PathFull

  datatype Decision = Relay(path: seq<PathHop>) | Ignore(reason: IgnoreReason)

  // The class of a WIDEn hop; its remaining count is the SSID.
  function ParseWide(a: Address): Option<nat> {
    if |a.callsign| == 5 && a.callsign[..4] == "WIDE" && '1' <= a.callsign[4] <= '7'
    then Some(a.callsign[4] as int - '0' as int) else None
  }

  function FirstUnused(path: seq<PathHop>): (k: nat)
    ensures k <= |path|
    ensures forall i :: 0 <= i < k ==> path[i].repeated
    ensures k < |path| ==> !path[k].repeated
  {
    if path == [] || !path[0].repeated then 0 else 1 + FirstUnused(path[1..])
  }

  predicate Served(aliases: seq<Alias>, a: Address) {
    Exact(a) in aliases
  }

  function WideLimitOf(aliases: seq<Alias>): Option<WideLimit> {
    if aliases == [] then None
    else if aliases[0].Wide? then Some(aliases[0].limit)
    else WideLimitOf(aliases[1..])
  }

  // ---------------------------------------------------------------- the rule, on sequences

  // A WIDE hop served by policy `limit`.
  function DecideWide(path: seq<PathHop>, k: nat, limit: WideLimit, n: nat, me: Address): Decision
    requires k < |path|
  {
    var hop := path[k];
    var remaining := hop.address.ssid;
    if n > limit then Ignore(WideAboveLimit(n, limit))
    else if remaining == 0 || remaining > n then Ignore(WideInvalid(n, remaining))
    else if remaining == 1 then Relay(path[k := hop.(repeated := true)])
    else if |path| + 1 > MAX_DIGIPEATERS then Ignore(PathFull)
    else
      var next := Address(hop.address.callsign, remaining - 1);
      Relay(path[..k] + [PathHop(me, true), PathHop(next, false)] + path[k + 1..])
  }

  function Decide(path: seq<PathHop>, aliases: seq<Alias>, me: Address, action: ExactAliasAction): Decision {
    if |path| > MAX_DIGIPEATERS then Ignore(PathFull)
    else
      var k := FirstUnused(path);
      if k == |path| then Ignore(AllHopsUsed)
      else if Served(aliases, path[k].address) then
        Relay(path[k := PathHop(if action == Keep then path[k].address else me, true)])
      else
        match (WideLimitOf(aliases), ParseWide(path[k].address))
        case (Some(limit), Some(n)) => DecideWide(path, k, limit, n, me)
        case _ => Ignore(NotForUs)
  }

  // ---------------------------------------------------------------- the rule, in place

  method ShiftRight(hops: array<PathHop>, from: nat, len: nat)
    requires from < len <= hops.Length
    modifies hops
    ensures forall i :: 0 <= i < hops.Length ==> hops[i] == old(hops[if from < i < len then i - 1 else i])
  {
    var i := len - 1;
    while i > from
      invariant from <= i < len
      invariant forall j :: 0 <= j < hops.Length ==> hops[j] == old(hops[if i < j < len then j - 1 else j])
    {
      hops[i] := hops[i - 1];
      i := i - 1;
    }
  }

  method RelayWide(path: seq<PathHop>, k: nat, limit: WideLimit, n: nat, me: Address, hops: array<PathHop>)
    returns (d: Decision)
    requires k < |path| <= hops.Length == MAX_DIGIPEATERS && hops[..|path|] == path
    modifies hops
    ensures d == DecideWide(path, k, limit, n, me)
  {
    var hop := path[k];
    var remaining := hop.address.ssid;
    if n > limit {
      return Ignore(WideAboveLimit(n, limit));
    }
    if remaining == 0 || remaining > n {
      return Ignore(WideInvalid(n, remaining));
    }
    if remaining == 1 {
      hops[k] := hops[k].(repeated := true);
      return Relay(hops[..|path|]);
    }
    if |path| + 1 > MAX_DIGIPEATERS {
      return Ignore(PathFull);
    }
    var len := |path| + 1;
    assert forall i :: 0 <= i < |path| ==> hops[i] == path[i];
    ShiftRight(hops, k, len);
    hops[k] := PathHop(me, true);
    var decremented := NewAddress(hop.address.callsign, remaining - 1);
    hops[k + 1] := PathHop(decremented.value, false);
    var out := hops[..len];
    assert out == path[..k] + [PathHop(me, true), PathHop(decremented.value, false)] + path[k + 1..];
    return Relay(out);
  }

  method RelayDecision(path: seq<PathHop>, aliases: seq<Alias>, me: Address, action: ExactAliasAction)
    returns (d: Decision)
    ensures d == Decide(path, aliases, me, action)
  {
    if |path| > MAX_DIGIPEATERS {
      return Ignore(PathFull);
    }
    var k := FirstUnused(path);
    if k == |path| {
      return Ignore(AllHopsUsed);
    }
    var hop := path[k];
    var hops := new PathHop[MAX_DIGIPEATERS](_ => PathHop(me, false));
    for i := 0 to |path|
      invariant forall j :: 0 <= j < i ==> hops[j] == path[j]
    {
      hops[i] := path[i];
    }
    if Exact(hop.address) in aliases {
      hops[k] := PathHop(if action == Keep then hop.address else me, true);
      return Relay(hops[..|path|]);
    }
    var limit, wide := WideLimitOf(aliases), ParseWide(hop.address);
    if limit.None? || wide.None? {
      return Ignore(NotForUs);
    }
    d := RelayWide(path, k, limit.value, wide.value, me, hops);
  }

  // ---------------------------------------------------------------- termination across a network

  function HopWeight(hop: PathHop): nat {
    if hop.repeated then 0
    else if ParseWide(hop.address).Some? && hop.address.ssid > 1 then hop.address.ssid
    else 1
  }

  function Weight(path: seq<PathHop>): nat {
    if path == [] then 0 else HopWeight(path[0]) + Weight(path[1..])
  }

  lemma {:induction false} WeightAppend(a: seq<PathHop>, b: seq<PathHop>)
    ensures Weight(a + b) == Weight(a) + Weight(b)
  {
    if a == [] {
      assert a + b == b;
    } else {
      WeightAppend(a[1..], b);
      assert (a + b)[1..] == a[1..] + b;
    }
  }

  lemma WeightAround(path: seq<PathHop>, k: nat, middle: seq<PathHop>)
    requires k < |path|
    ensures Weight(path[..k] + middle + path[k + 1..]) == Weight(path) - HopWeight(path[k]) + Weight(middle)
  {
    WeightAppend(path[..k] + middle, path[k + 1..]);
    WeightAppend(path[..k], middle);
    assert path == path[..k] + path[k..];
    WeightAppend(path[..k], path[k..]);
    assert path[k..][1..] == path[k + 1..];
  }

  // The rewrite a relay makes, whoever makes it: the first unused hop becomes one
  // used hop, or a used hop and the same WIDE alias with one request fewer.
  lemma RelayRewrites(path: seq<PathHop>, aliases: seq<Alias>, me: Address, action: ExactAliasAction)
    returns (middle: seq<PathHop>)
    requires Decide(path, aliases, me, action).Relay?
    ensures var k := FirstUnused(path);
            && k < |path|
            && Decide(path, aliases, me, action).path == path[..k] + middle + path[k + 1..]
            && 1 <= |middle| <= 2 && middle[0].repeated
            && (|middle| == 2 ==>
                  && |path| < MAX_DIGIPEATERS && ParseWide(path[k].address).Some? && path[k].address.ssid >= 2
                  && middle == [PathHop(me, true), PathHop(path[k].address.(ssid := path[k].address.ssid - 1), false)])
  {
    var k := FirstUnused(path);
    var out := Decide(path, aliases, me, action).path;
    if |out| == |path| {
      middle := [out[k]];
    } else {
      middle := [out[k], out[k + 1]];
    }
  }

  // Every relay, by any station with any aliases and either action, strictly
  // lowers the weight of the path.
  lemma RelayLosesWeight(path: seq<PathHop>, aliases: seq<Alias>, me: Address, action: ExactAliasAction)
    requires Decide(path, aliases, me, action).Relay?
    ensures Weight(Decide(path, aliases, me, action).path) < Weight(path)
    ensures |Decide(path, aliases, me, action).path| <= MAX_DIGIPEATERS
  {
    var k := FirstUnused(path);
    var middle := RelayRewrites(path, aliases, me, action);
    WeightAround(path, k, middle);
    assert middle[0].repeated && HopWeight(middle[0]) == 0;
    assert Weight(middle) == HopWeight(middle[0]) + Weight(middle[1..]);
    if |middle| == 2 {
      assert middle[1..] == [middle[1]] && middle[1..][1..] == [];
      assert Weight(middle[1..]) == HopWeight(middle[1]);
    } else {
      assert middle[1..] == [];
    }
  }

  datatype Station = Station(aliases: seq<Alias>, call: Address, action: ExactAliasAction)

  // A frame passed along a chain of stations, each relaying what it heard.
  ghost predicate Chain(path: seq<PathHop>, stations: seq<Station>)
    decreases |stations|
  {
    stations != [] ==>
      var d := Decide(path, stations[0].aliases, stations[0].call, stations[0].action);
      d.Relay? && Chain(d.path, stations[1..])
  }

  // No frame is relayed more often than its first path weighs, whatever network of
  // stations, repeated or not, it meets.
  lemma {:induction false} ChainsAreBounded(path: seq<PathHop>, stations: seq<Station>)
    requires Chain(path, stations)
    ensures |stations| <= Weight(path)
    decreases |stations|
  {
    if stations != [] {
      var s := stations[0];
      RelayLosesWeight(path, s.aliases, s.call, s.action);
      ChainsAreBounded(Decide(path, s.aliases, s.call, s.action).path, stations[1..]);
    }
  }

  predicate UsedFirst(path: seq<PathHop>) {
    forall i, j :: 0 <= i < j < |path| && path[j].repeated ==> path[i].repeated
  }

  ghost predicate UsedUpTo(path: seq<PathHop>, n: nat) {
    n <= |path| && forall i :: 0 <= i < |path| ==> (path[i].repeated <==> i < n)
  }

  lemma UsedFirstIsUpTo(path: seq<PathHop>)
    requires UsedFirst(path)
    ensures UsedUpTo(path, FirstUnused(path))
  {
  }

  lemma UpToIsUsedFirst(path: seq<PathHop>, n: nat)
    requires UsedUpTo(path, n)
    ensures UsedFirst(path) && FirstUnused(path) == n
  {
    assert n < |path| ==> !path[n].repeated;
  }

  lemma ReplacedUpTo(path: seq<PathHop>, k: nat, middle: seq<PathHop>)
    requires k < |path| && UsedUpTo(path, k)
    requires 1 <= |middle| <= 2 && middle[0].repeated && (|middle| == 2 ==> !middle[1].repeated)
    ensures var out := path[..k] + middle + path[k + 1..]; UsedUpTo(out, k + 1) && out[..k] == path[..k]
  {
    var out := path[..k] + middle + path[k + 1..];
    forall i | k + |middle| <= i < |out|
      ensures !out[i].repeated
    {
      assert out[i] == path[i - |middle| + 1];
    }
  }

  // A used-hops-first path stays one, used hops are never rewritten, and exactly
  // one more of them is used.
  lemma RelayKeepsUsedFirst(path: seq<PathHop>, aliases: seq<Alias>, me: Address, action: ExactAliasAction)
    requires Decide(path, aliases, me, action).Relay? && UsedFirst(path)
    ensures var k, out := FirstUnused(path), Decide(path, aliases, me, action).path;
            UsedFirst(out) && FirstUnused(out) == k + 1 && out[..k] == path[..k]
  {
    hide Decide, FirstUnused, UsedFirst, UsedUpTo;
    var middle := RelayRewrites(path, aliases, me, action);
    UsedFirstIsUpTo(path);
    ReplacedUpTo(path, FirstUnused(path), middle);
    UpToIsUsedFirst(Decide(path, aliases, me, action).path, FirstUnused(path) + 1);
  }
}
