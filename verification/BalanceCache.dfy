/**
 The balance a fee quote reports for the destination token: from a short-lived cache entry, else from the
 chain, else from a long-lived entry. Whatever is found after a miss is written to both tiers.
 */
module BalanceCache {
  import opened Options
  import opened DecimalText

  const PLT_CROSSCHAIN_ID: nat := 8
  const PLT_BALANCE: int := 100_000_000_000_000_000_000_000_000_000

  datatype Tier = Short | Long

  /** What a balance is cached for. */
  datatype BalanceKey = BalanceKey(src: nat, dst: nat, dstToken: string)

  /** What a bound lock proxy is remembered for; the token hash is in lower case. */
  datatype ProxyKey = ProxyKey(src: nat, dst: nat, srcToken: string)

  datatype TokenMap = TokenMap(src: nat, dst: nat, srcToken: string, dstToken: string)

  function TierName(t: Tier): string { if t.Short? then "ShortTokenBalance" else "LongTokenBalance" }

  function FormatBalanceKey(t: Tier, k: BalanceKey): string
  {
    TierName(t) + ['_'] + (PrintNat(k.src) + ['_'] + (PrintNat(k.dst) + ['_'] + k.dstToken))
  }

  function FormatProxyKey(k: ProxyKey): string
  {
    PrintNat(k.src) + ['-'] + (PrintNat(k.dst) + ['-'] + k.srcToken)
  }

  lemma NatsAreInjective(m: nat, n: nat)
    requires PrintNat(m) == PrintNat(n)
    ensures m == n
  {
    PrintIsInjective(m, n);
  }

  /** Different tiers or keys never share a cache entry. */
  lemma BalanceKeysAreInjective(t: Tier, k: BalanceKey, u: Tier, l: BalanceKey)
    requires FormatBalanceKey(t, k) == FormatBalanceKey(u, l)
    ensures t == u && k == l
  {
    assert FormatBalanceKey(t, k)[0] == TierName(t)[0] && FormatBalanceKey(u, l)[0] == TierName(u)[0];
    var n := |TierName(t)| + 1;
    assert FormatBalanceKey(t, k)[n..] == PrintNat(k.src) + ['_'] + (PrintNat(k.dst) + ['_'] + k.dstToken);
    assert FormatBalanceKey(u, l)[n..] == PrintNat(l.src) + ['_'] + (PrintNat(l.dst) + ['_'] + l.dstToken);
    DigitsSeparate(PrintNat(k.src), PrintNat(k.dst) + ['_'] + k.dstToken, PrintNat(l.src),
        PrintNat(l.dst) + ['_'] + l.dstToken, '_');
    DigitsSeparate(PrintNat(k.dst), k.dstToken, PrintNat(l.dst), l.dstToken, '_');
    NatsAreInjective(k.src, l.src);
    NatsAreInjective(k.dst, l.dst);
  }

  lemma ProxyKeysAreInjective(k: ProxyKey, l: ProxyKey)
    requires FormatProxyKey(k) == FormatProxyKey(l)
    ensures k == l
  {
    DigitsSeparate(PrintNat(k.src), PrintNat(k.dst) + ['-'] + k.srcToken, PrintNat(l.src),
        PrintNat(l.dst) + ['-'] + l.srcToken, '-');
    DigitsSeparate(PrintNat(k.dst), k.srcToken, PrintNat(l.dst), l.srcToken, '-');
    NatsAreInjective(k.src, l.src);
    NatsAreInjective(k.dst, l.dst);
  }

  function LowerChar(c: char): char { if 'A' <= c <= 'Z' then c - 'A' + 'a' else c }

  function Lower(s: string): string { seq(|s|, i requires 0 <= i < |s| => LowerChar(s[i])) }

  /**
   The cache and the table of lock proxies, with two records of the past: `reads` holds every balance a chain
   has returned for a key, `bindings` every proxy a chain has named.
   */
  datatype State = State(redis: map<string, string>, proxies: map<string, string>,
                         returned: set<(BalanceKey, int)>, bindings: set<(ProxyKey, string)>)

  /** The environment of one request: failing cache calls, and what the chain answers. */
  datatype Env = Env(ethChains: set<nat>, getShortFails: bool, getLongFails: bool, setShortFails: bool,
      setLongFails: bool,
                     boundProxy: Option<string>, balance: Option<int>)

  function KeyOf(r: TokenMap): BalanceKey { BalanceKey(r.src, r.dst, r.dstToken) }

  function ProxyKeyOf(r: TokenMap): ProxyKey { ProxyKey(r.src, r.dst, Lower(r.srcToken)) }

  function Lookup(s: State, t: Tier, k: BalanceKey, fails: bool): Option<int>
  {
    var text := FormatBalanceKey(t, k);
    if fails || text !in s.redis then None else Parse(s.redis[text])
  }

  function Store(s: State, t: Tier, k: BalanceKey, balance: int, fails: bool): State
  {
    if fails then s else s.(redis := s.redis[FormatBalanceKey(t, k) := Print(balance)])
  }

  predicate KnowsProxy(s: State, k: ProxyKey)
  {
    FormatProxyKey(k) in s.proxies && s.proxies[FormatProxyKey(k)] != ""
  }

  /** On EVM chains the lock proxy is needed first; one that is not known is asked for and remembered. */
  function FindProxy(s: State, r: TokenMap, e: Env): State
  {
    if r.dst !in e.ethChains || KnowsProxy(s, ProxyKeyOf(r)) || e.boundProxy.None? then s
    else s.(proxies := s.proxies[FormatProxyKey(ProxyKeyOf(r)) := e.boundProxy.value],
            bindings := s.bindings + {(ProxyKeyOf(r), e.boundProxy.value)})
  }

  function ReadChain(s: State, r: TokenMap, e: Env): State
  {
    if e.balance.None? then s else s.(returned := s.returned + {(KeyOf(r), e.balance.value)})
  }

  function StoreBoth(s: State, k: BalanceKey, balance: int, e: Env): State
  {
    Store(Store(s, Short, k, balance, e.setShortFails), Long, k, balance, e.setLongFails)
  }

  /** One request: the new state, and the balance reported, or none when nothing is known. */
  function Serve(s: State, r: TokenMap, e: Env): (State, Option<int>)
  {
    var k := KeyOf(r);
    if r.dst == PLT_CROSSCHAIN_ID then (s, Some(PLT_BALANCE)) else
    var short := Lookup(s, Short, k, e.getShortFails);
    if short.Some? then (s, short) else
    var asked := ReadChain(FindProxy(s, r, e), r, e);
    var found := if e.balance.Some? then e.balance else Lookup(asked, Long, k, e.getLongFails);
    if found.None? then (asked, None) else (StoreBoth(asked, k, found.value, e), found)
  }

  // Provenance

  /** Every cached balance was read from the chain for its key, and every remembered proxy was named by it. */
  ghost predicate Inv(s: State)
  {
    && (forall t, k :: FormatBalanceKey(t, k) in s.redis ==>
          var text := s.redis[FormatBalanceKey(t, k)];
          Parse(text).Some? && text == Print(Parse(text).value) && (k, Parse(text).value) in s.returned)
    && (forall k :: FormatProxyKey(k) in s.proxies ==> (k, s.proxies[FormatProxyKey(k)]) in s.bindings)
  }

  lemma StoreKeepsInv(s: State, t: Tier, k: BalanceKey, balance: int, fails: bool)
    requires Inv(s) && (k, balance) in s.returned
    ensures Inv(Store(s, t, k, balance, fails)) && Store(s, t, k, balance, fails).returned == s.returned
  {
    ParsePrint(balance);
    var after := Store(s, t, k, balance, fails);
    forall u, l | FormatBalanceKey(u, l) in after.redis
      ensures var text := after.redis[FormatBalanceKey(u, l)];
              Parse(text).Some? && text == Print(Parse(text).value) && (l, Parse(text).value) in after.returned
    {
      if FormatBalanceKey(u, l) == FormatBalanceKey(t, k) {
        BalanceKeysAreInjective(u, l, t, k);
      }
    }
  }

  lemma FindProxyKeepsInv(s: State, r: TokenMap, e: Env)
    requires Inv(s)
    ensures Inv(FindProxy(s, r, e))
  {
    var after := FindProxy(s, r, e);
    forall k | FormatProxyKey(k) in after.proxies ensures (k, after.proxies[FormatProxyKey(k)]) in after.bindings {
      if FormatProxyKey(k) == FormatProxyKey(ProxyKeyOf(r)) {
        ProxyKeysAreInjective(k, ProxyKeyOf(r));
      }
    }
  }

  /** A request keeps the provenance, and reports the fixed PLT balance or one the chain has returned for its key. */
  lemma ServeKeepsInv(s: State, r: TokenMap, e: Env)
    requires Inv(s)
    ensures
      var (after, reported) := Serve(s, r, e);
      && Inv(after) && s.returned <= after.returned
      && (reported.Some? ==> if r.dst == PLT_CROSSCHAIN_ID then reported.value == PLT_BALANCE
                             else (KeyOf(r), reported.value) in after.returned)
  {
    var k := KeyOf(r);
    FindProxyKeepsInv(s, r, e);
    var asked := ReadChain(FindProxy(s, r, e), r, e);
    assert Inv(asked);
    var found := if e.balance.Some? then e.balance else Lookup(asked, Long, k, e.getLongFails);
    if found.Some? {
      assert (k, found.value) in asked.returned;
      StoreKeepsInv(asked, Short, k, found.value, e.setShortFails);
      StoreKeepsInv(Store(asked, Short, k, found.value, e.setShortFails), Long, k, found.value, e.setLongFails);
    }
  }

  // Histories

  datatype Event = Request(request: TokenMap, env: Env) | Expire(texts: set<string>) | RestartProcess

  function Next(s: State, e: Event): State
  {
    match e
    case Request(r, env) => Serve(s, r, env).0
    case Expire(texts) => s.(redis := s.redis - texts)
    case RestartProcess => s.(proxies := map[])
  }

  function After(s: State, events: seq<Event>): State
  {
    if events == [] then s else Next(After(s, events[..|events| - 1]), events[|events| - 1])
  }

  lemma {:induction false} HistoryKeepsInv(s: State, events: seq<Event>)
    requires Inv(s)
    ensures Inv(After(s, events)) && s.returned <= After(s, events).returned
  {
    if events == [] {
    } else {
      var n := |events| - 1;
      HistoryKeepsInv(s, events[..n]);
      var t := After(s, events[..n]);
      if events[n].Request? {
        ServeKeepsInv(t, events[n].request, events[n].env);
      }
    }
  }

  /**
   Balance-cache provenance. From an empty cache, after any requests, expiries and restarts, whatever a
   request reports for a key, from the chain or from either tier, is a balance some chain read has returned
   for that very key, or the fixed balance of the PLT chain; or nothing is reported.
   */
  lemma ReportedBalancesWereRead(events: seq<Event>, r: TokenMap, e: Env)
    ensures
      var s := After(State(map[], map[], {}, {}), events);
      var (after, reported) := Serve(s, r, e);
      reported == None
      || (r.dst == PLT_CROSSCHAIN_ID && reported == Some(PLT_BALANCE))
      || (r.dst != PLT_CROSSCHAIN_ID && (KeyOf(r), reported.value) in s.returned + if e.balance.Some?
          then {(KeyOf(r), e.balance.value)} else {})
  {
    HistoryKeepsInv(State(map[], map[], {}, {}), events);
    ServeKeepsInv(After(State(map[], map[], {}, {}), events), r, e);
  }

  /** Once written, a balance is what the next request for the key reports, until the entry expires. */
  lemma StoredBalanceIsServed(s: State, r: TokenMap, e: Env, r': TokenMap, e': Env)
    requires r.dst != PLT_CROSSCHAIN_ID && KeyOf(r) == KeyOf(r')
    requires Serve(s, r, e).1.Some? && Lookup(s, Short, KeyOf(r), e.getShortFails).None?
    requires !e.setShortFails && !e'.getShortFails
    ensures Serve(Serve(s, r, e).0, r', e') == (Serve(s, r, e).0, Serve(s, r, e).1)
  {
    var (after, reported) := Serve(s, r, e);
    ParsePrint(reported.value);
    var k := KeyOf(r);
    if FormatBalanceKey(Short, k) == FormatBalanceKey(Long, k) {
      BalanceKeysAreInjective(Short, k, Long, k);
    }
    assert after.redis[FormatBalanceKey(Short, k)] == Print(reported.value);
  }

  // What is reported

  /** The balance that an entry of the cache holds, if it is there and can be read. */
  function Entry(s: State, t: Tier, k: BalanceKey, fails: bool): Option<int>
  {
    if !fails && FormatBalanceKey(t, k) in s.redis then Parse(s.redis[FormatBalanceKey(t, k)]) else None
  }

  /**
   What a request reports: the short-lived entry; without it what the chain answers; if that fails the long-lived
   entry; and nothing only if all three are missing. The PLT chain has its fixed balance.
   */
  lemma WhatIsReported(s: State, r: TokenMap, e: Env)
    ensures
      var reported := Serve(s, r, e).1;
      var short := Entry(s, Short, KeyOf(r), e.getShortFails);
      var long := Entry(s, Long, KeyOf(r), e.getLongFails);
      && (r.dst == PLT_CROSSCHAIN_ID ==> reported == Some(PLT_BALANCE))
      && (r.dst != PLT_CROSSCHAIN_ID ==>
            && (short.Some? ==> reported == short)
            && (short.None? && e.balance.Some? ==> reported == e.balance)
            && (short.None? && e.balance.None? ==> reported == long))
  {
  }

  /** A balance that did not come from the short-lived entry is put into both tiers, as decimal text. */
  lemma BothTiersAreWritten(s: State, r: TokenMap, e: Env)
    requires r.dst != PLT_CROSSCHAIN_ID && Entry(s, Short, KeyOf(r), e.getShortFails).None? && Serve(s, r, e).1.Some?
    ensures
      var (after, reported) := Serve(s, r, e);
      && (!e.setShortFails ==> Entry(after, Short, KeyOf(r), false) == reported)
      && (!e.setLongFails ==> Entry(after, Long, KeyOf(r), false) == reported)
  {
    var k := KeyOf(r);
    ParsePrint(Serve(s, r, e).1.value);
    if FormatBalanceKey(Short, k) == FormatBalanceKey(Long, k) {
      BalanceKeysAreInjective(Short, k, Long, k);
    }
  }

  /** On an EVM chain a lock proxy that is not known is asked for, and remembered if the chain names one. */
  lemma ProxyIsRemembered(s: State, r: TokenMap, e: Env)
    requires r.dst != PLT_CROSSCHAIN_ID && r.dst in e.ethChains && Entry(s, Short, KeyOf(r), e.getShortFails).None?
    requires !KnowsProxy(s, ProxyKeyOf(r)) && e.boundProxy.Some? && e.boundProxy.value != ""
    ensures
      var after := Serve(s, r, e).0;
      KnowsProxy(after, ProxyKeyOf(r)) && after.proxies[FormatProxyKey(ProxyKeyOf(r))] == e.boundProxy.value
  {
  }

  lemma LowerIs(s: string)
    ensures |Lower(s)| == |s|
    ensures forall i :: 0 <= i < |s| ==>
              if 'A' <= s[i] <= 'Z' then Lower(s)[i] as int == s[i] as int + 32 else Lower(s)[i] == s[i]
  {
  }

  // The request as the program serves it

  class BalanceReader {
    var redis: map<string, string>
    var dstLockProxyMap: map<string, string>
    ghost var returned: set<(BalanceKey, int)>
    ghost var bindings: set<(ProxyKey, string)>

    constructor ()
      ensures Current() == State(map[], map[], {}, {})
    {
      redis, dstLockProxyMap, returned, bindings := map[], map[], {}, {};
    }

    ghost function Current(): State
      reads this
    {
      State(redis, dstLockProxyMap, returned, bindings)
    }

    method GetBalance(t: Tier, k: BalanceKey, fails: bool) returns (balance: Option<int>)
      ensures balance == Lookup(Current(), t, k, fails)
    {
      var key := FormatBalanceKey(t, k);
      if fails || key !in redis {
        return None;
      }
      balance := Parse(redis[key]);
    }

    method SetBalance(t: Tier, k: BalanceKey, balance: int, fails: bool)
      modifies this`redis
      ensures Current() == Store(old(Current()), t, k, balance, fails)
    {
      if !fails {
        redis := redis[FormatBalanceKey(t, k) := Print(balance)];
      }
    }

    /** The proxy whose balance is read: empty when the chain could not name one. */
    method LockProxy(r: TokenMap, e: Env) returns (dstLockProxy: string)
      requires r.dst in e.ethChains
      modifies this`dstLockProxyMap, this`bindings
      ensures Current() == FindProxy(old(Current()), r, e)
      ensures dstLockProxy == if KnowsProxy(old(Current()), ProxyKeyOf(r))
            then old(dstLockProxyMap)[FormatProxyKey(ProxyKeyOf(r))]
                              else if e.boundProxy.Some? then e.boundProxy.value else ""
    {
      var lockProxyKey := FormatProxyKey(ProxyKeyOf(r));
      dstLockProxy := if lockProxyKey in dstLockProxyMap then dstLockProxyMap[lockProxyKey] else "";
      if dstLockProxy == "" {
        if e.boundProxy.Some? {
          dstLockProxy := e.boundProxy.value;
          dstLockProxyMap := dstLockProxyMap[lockProxyKey := dstLockProxy];
          bindings := bindings + {(ProxyKeyOf(r), dstLockProxy)};
        }
      }
    }

    /** The read from the chain; on EVM chains the balance of the lock proxy. */
    method ReadFromChain(r: TokenMap, e: Env) returns (balance: Option<int>)
      modifies this`dstLockProxyMap, this`bindings, this`returned
      ensures Current() == ReadChain(FindProxy(old(Current()), r, e), r, e)
      ensures balance == e.balance
    {
      if r.dst in e.ethChains {
        var dstLockProxy := LockProxy(r, e);
      }
      balance := e.balance;
      if balance.Some? {
        returned := returned + {(KeyOf(r), balance.value)};
      }
    }

    method TokenBalance(r: TokenMap, e: Env) returns (reported: Option<int>)
      modifies this
      ensures (Current(), reported) == Serve(old(Current()), r, e)
    {
      if r.dst == PLT_CROSSCHAIN_ID {
        return Some(PLT_BALANCE);
      }
      var k := KeyOf(r);
      reported := GetBalance(Short, k, e.getShortFails);
      if reported.Some? {
        return;
      }
      reported := ReadFromChain(r, e);
      if reported.None? {
        reported := GetBalance(Long, k, e.getLongFails);
        if reported.None? {
          return;
        }
      }
      SetBalance(Short, k, reported.value, e.setShortFails);
      SetBalance(Long, k, reported.value, e.setLongFails);
    }
  }
}
