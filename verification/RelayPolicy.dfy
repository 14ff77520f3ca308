/**
 * Which frames a digipeater relays, and what it may change in them: the policy,
 * stated over the path and the aliases without the rule that computes it.
 */
module RelayPolicy {
  import opened Prelude
  import opened Digipeat

  // The seven aliases that carry a hop count.
  function WideName(n: nat): string
    requires 1 <= n <= 7
  {
    ["WIDE1", "WIDE2", "WIDE3", "WIDE4", "WIDE5", "WIDE6", "WIDE7"][n - 1]
  }

  lemma WideNames(a: Address, n: nat)
    requires 1 <= n <= 7
    ensures ParseWide(a) == Some(n) <==> a.callsign == WideName(n)
  {
    if a.callsign == WideName(n) {
      assert a.callsign[..4] == "WIDE";
    }
    if ParseWide(a) == Some(n) {
      assert a.callsign == a.callsign[..4] + [a.callsign[4]];
      assert WideName(n) == "WIDE" + [WideName(n)[4]];
    }
  }

  lemma WideClass(a: Address)
    ensures ParseWide(a).Some? ==> 1 <= ParseWide(a).value <= 7
  {
  }

  // The WIDEn policy of a station is its first one.
  ghost predicate WidePolicy(aliases: seq<Alias>, limit: nat) {
    exists i :: PolicyAt(aliases, limit, i)
  }

  ghost predicate PolicyAt(aliases: seq<Alias>, limit: nat, i: int) {
    0 <= i < |aliases| && aliases[i].Wide? && aliases[i].limit == limit && forall j :: 0 <= j < i ==> aliases[j].Exact?
  }

  lemma {:induction false} PolicyIsFirst(aliases: seq<Alias>, limit: nat)
    ensures WidePolicy(aliases, limit) <==> WideLimitOf(aliases).Some? && WideLimitOf(aliases).value == limit
  {
    if aliases != [] {
      if aliases[0].Wide? {
        assert aliases[0].limit == limit ==> PolicyAt(aliases, limit, 0);
      } else {
        PolicyIsFirst(aliases[1..], limit);
        if i :| PolicyAt(aliases[1..], limit, i) {
          assert PolicyAt(aliases, limit, i + 1);
        }
        if i :| PolicyAt(aliases, limit, i) {
          assert PolicyAt(aliases[1..], limit, i - 1);
        }
      }
    }
  }

  // Hop `k` is the one being asked for.
  ghost predicate NextHop(path: seq<PathHop>, k: int) {
    0 <= k < |path| && !path[k].repeated && forall i :: 0 <= i < k ==> path[i].repeated
  }

  // A WIDEn request the station's policy lets through.
  ghost predicate Admitted(path: seq<PathHop>, aliases: seq<Alias>, k: int, n: int, limit: nat)
    requires 0 <= k < |path|
  {
    var a := path[k].address;
    && WidePolicy(aliases, limit) && 1 <= n <= 7 && a.callsign == WideName(n)
    && 1 <= a.ssid <= n <= limit && (a.ssid == 1 || |path| < 8)
  }

  lemma NextHopIs(path: seq<PathHop>, k: int)
    ensures NextHop(path, k) <==> k == FirstUnused(path) && k < |path|
  {
  }

  lemma AdmittedIffWide(path: seq<PathHop>, aliases: seq<Alias>, k: nat, n: nat, limit: nat, me: Address)
    requires k < |path| <= 8 && 1 <= n <= 7 && 1 <= limit <= 7
    requires WideLimitOf(aliases) == Some(limit) && ParseWide(path[k].address) == Some(n)
    ensures DecideWide(path, k, limit, n, me).Relay? <==> Admitted(path, aliases, k, n, limit)
  {
    PolicyIsFirst(aliases, limit);
    WideNames(path[k].address, n);
    hide WidePolicy, WideName, ParseWide;
  }

  ghost predicate Asked(path: seq<PathHop>, aliases: seq<Alias>, k: int)
    requires 0 <= k < |path|
  {
    Exact(path[k].address) in aliases || exists n, limit: nat :: Admitted(path, aliases, k, n, limit)
  }

  lemma AskedIffWide(path: seq<PathHop>, aliases: seq<Alias>, k: nat, me: Address)
    requires k < |path| <= 8 && Exact(path[k].address) !in aliases
    ensures Asked(path, aliases, k) <==>
              && WideLimitOf(aliases).Some? && ParseWide(path[k].address).Some?
              && DecideWide(path, k, WideLimitOf(aliases).value, ParseWide(path[k].address).value, me).Relay?
  {
    var limit, n := WideLimitOf(aliases), ParseWide(path[k].address);
    WideClass(path[k].address);
    hide WideLimitOf, ParseWide, DecideWide, WidePolicy;
    if limit.Some? && n.Some? {
      AdmittedIffWide(path, aliases, k, n.value, limit.value, me);
    }
    forall n', limit': nat | Admitted(path, aliases, k, n', limit')
      ensures limit == Some(limit') && n == Some(n')
    {
      PolicyIsFirst(aliases, limit');
      WideNames(path[k].address, n');
    }
  }

  // A frame is relayed if and only if it has at most eight hops, one of them is
  // still asked for, and that one is the station's own alias or a WIDEn request
  // for no more than the class, the class within the policy and, unless it is the
  // last, with room for one hop more.
  lemma RelayIff(path: seq<PathHop>, aliases: seq<Alias>, me: Address, action: ExactAliasAction)
    ensures Decide(path, aliases, me, action).Relay?
       <==> |path| <= 8 && exists k :: NextHop(path, k) && Asked(path, aliases, k)
  {
    var k := FirstUnused(path);
    NextHopIs(path, k);
    forall k' | NextHop(path, k')
      ensures k' == k
    {
      NextHopIs(path, k');
    }
    hide FirstUnused, NextHop, DecideWide, WideLimitOf, ParseWide, Asked;
    if |path| <= 8 && k < |path| {
      if Exact(path[k].address) in aliases {
        ServedIsAsked(path, aliases, k);
      } else {
        AskedIffWide(path, aliases, k, me);
      }
    }
  }

  lemma ServedIsAsked(path: seq<PathHop>, aliases: seq<Alias>, k: nat)
    requires k < |path| && Exact(path[k].address) in aliases
    ensures Asked(path, aliases, k)
  {
  }

  lemma UpdatedIs(path: seq<PathHop>, k: nat, hop: PathHop)
    requires k < |path|
    ensures path[k := hop] == path[..k] + [hop] + path[k + 1..]
  {
  }

  lemma WideChanges(path: seq<PathHop>, k: nat, limit: WideLimit, n: nat, me: Address)
    requires k < |path| && DecideWide(path, k, limit, n, me).Relay?
    ensures var a, out := path[k].address, DecideWide(path, k, limit, n, me).path;
            if a.ssid == 1 then out == path[k := PathHop(a, true)]
            else
              && a.ssid > 1
              && out == path[..k] + [PathHop(me, true), PathHop(a.(ssid := a.ssid - 1), false)] + path[k + 1..]
  {
  }

  // What may change: of a served alias its address under `Substitute` and nothing
  // under `Keep`, of a last request nothing; of an earlier one the count goes down
  // by one behind the station's own call.
  lemma RelayChanges(path: seq<PathHop>, aliases: seq<Alias>, me: Address, action: ExactAliasAction)
    requires Decide(path, aliases, me, action).Relay?
    ensures var out, k := Decide(path, aliases, me, action).path, FirstUnused(path);
            && k < |path|
            && (var a := path[k].address;
                var rest := path[k + 1..];
                if Exact(a) in aliases then
                  out == path[..k] + [PathHop(if action == Keep then a else me, true)] + rest
                else if a.ssid == 1 then out == path[..k] + [PathHop(a, true)] + rest
                else out == path[..k] + [PathHop(me, true), PathHop(a.(ssid := a.ssid - 1), false)] + rest)
  {
    var k := FirstUnused(path);
    hide FirstUnused, WideLimitOf, ParseWide, DecideWide;
    UpdatedIs(path, k, PathHop(path[k].address, true));
    UpdatedIs(path, k, PathHop(me, true));
    if Exact(path[k].address) !in aliases {
      WideChanges(path, k, WideLimitOf(aliases).value, ParseWide(path[k].address).value, me);
    }
  }

  // Keeping never rewrites an address that was not counted down.
  lemma KeepKeepsAddresses(path: seq<PathHop>, aliases: seq<Alias>, me: Address, action: ExactAliasAction, i: nat)
    requires Decide(path, aliases, me, action).Relay? && i < |path|
    requires var a := path[FirstUnused(path)].address;
             if Exact(a) in aliases then action == Keep else a.ssid == 1
    ensures var out := Decide(path, aliases, me, action).path;
            && |out| == |path| && out[i].address == path[i].address
            && out[i].repeated == (path[i].repeated || i == FirstUnused(path))
  {
    RelayChanges(path, aliases, me, action);
    hide Decide;
  }

  // Why a WIDEn hop with a policy in force is refused.
  lemma WideRefused(path: seq<PathHop>, aliases: seq<Alias>, me: Address, action: ExactAliasAction,
                    k: nat, n: nat, limit: nat)
    requires |path| <= 8 && NextHop(path, k) && Exact(path[k].address) !in aliases
    requires WidePolicy(aliases, limit) && 1 <= n <= 7 && path[k].address.callsign == WideName(n)
    ensures var d, m := Decide(path, aliases, me, action), path[k].address.ssid;
            && (n > limit <==> d == Ignore(WideAboveLimit(n, limit)))
            && (n <= limit && (m == 0 || m > n) <==> d == Ignore(WideInvalid(n, m)))
            && (n <= limit && 2 <= m <= n && |path| == 8 <==> d == Ignore(PathFull))
  {
    NextHopIs(path, k);
    PolicyIsFirst(aliases, limit);
    WideNames(path[k].address, n);
    hide FirstUnused, NextHop, WideLimitOf, ParseWide, WideName, WidePolicy;
  }
}
