/**
 The pool of nodes of one EVM chain: a map of shared node objects, the sweep that probes them, the
 picker of the highest node, and the loops that call a node, demote it when it fails, and pick again.
 */
module Nodes {
  import opened FiniteSets
  import opened Machine

  const MAX_UINT64: uint64 := TWO_64 - 1
  const ALL_NODES_DOWN := "all node is not working"

  datatype Reply = Value(value: int) | Error(message: string)

  datatype Probe = Height(height: uint64) | NoAnswer

  /** The height a sweep records: a node that does not answer, or answers 0 or the maximum, is down. */
  function Probed(p: Probe): uint64
  {
    var height := if p.NoAnswer? || p.height == MAX_UINT64 || p.height == 0 then 1 else p.height;
    height - 1
  }

  /** The node answers, and with a height above 1 that is not the maximum. */
  predicate Usable(p: Probe) { p.Height? && 1 < p.height < MAX_UINT64 }

  /** A probe leaves a node live exactly when it is usable, one block below the height it answered. */
  lemma ProbedIsLiveIff(p: Probe)
    ensures Probed(p) > 0 <==> Usable(p)
    ensures Usable(p) ==> Probed(p) == p.height - 1
  {
  }

  class EthereumInfo {
    const url: string
    var latestHeight: uint64

    constructor (url: string)
      ensures this.url == url && latestHeight == 0
    {
      this.url := url;
      latestHeight := 0;
    }
  }

  /** `url` is up and no node of `heights` is higher. */
  ghost predicate Highest(heights: map<string, uint64>, url: string)
  {
    url in heights && heights[url] > 0 && forall u :: u in heights ==> heights[u] <= heights[url]
  }

  function Live(heights: map<string, uint64>): set<string> { set u | u in heights && heights[u] > 0 }

  /** The heights once the nodes of `down` have been demoted. */
  function Demoted(heights: map<string, uint64>, down: set<string>): map<string, uint64>
  {
    map u | u in heights :: if u in down then 0 else heights[u]
  }

  function Members(s: seq<string>): set<string> { set u | u in s }

  /**
   A failover from the given heights: each node tried is the highest of those not tried before, and all of
   them failed.
   */
  ghost predicate FailedInOrder(heights: map<string, uint64>, answer: string -> Reply, tried: seq<string>)
  {
    forall k :: 0 <= k < |tried| ==>
      Highest(Demoted(heights, Members(tried[..k])), tried[k]) && answer(tried[k]).Error?
  }

  class EthereumSdkPro {
    var infos: map<string, EthereumInfo>

    ghost predicate Valid()
      reads this, infos.Values
    {
      forall u :: u in infos ==> infos[u].url == u
    }

    ghost function Heights(): map<string, uint64>
      reads this, infos.Values
    {
      map u | u in infos :: infos[u].latestHeight
    }

    constructor (urls: seq<string>)
      ensures Valid() && infos.Keys == Members(urls) && fresh(infos.Values)
      ensures Live(Heights()) == {}
    {
      infos := map[];
      new;
      for i := 0 to |urls|
        invariant infos.Keys == Members(urls[..i])
        invariant forall u :: u in infos ==> fresh(infos[u]) && infos[u].url == u && infos[u].latestHeight == 0
      {
        var info := new EthereumInfo(urls[i]);
        assert urls[..i + 1] == urls[..i] + [urls[i]];
        infos := infos[urls[i] := info];
      }
      assert urls[..|urls|] == urls;
    }

    /** One sweep over all nodes, in any order. */
    method Selection(probe: string -> Probe)
      requires Valid()
      modifies infos.Values
      ensures Valid() && infos == old(infos)
      ensures forall u :: u in infos ==> infos[u].latestHeight == Probed(probe(u))
      ensures forall u :: u in infos ==> (u in Live(Heights()) <==> Usable(probe(u)))
      ensures forall u :: u in infos && Usable(probe(u)) ==> infos[u].latestHeight == probe(u).height - 1
      ensures (forall u :: u in infos ==> !Usable(probe(u))) ==> Live(Heights()) == {}
    {
      var rest := infos.Keys;
      while rest != {}
        invariant rest <= infos.Keys && Valid() && infos == old(infos)
        invariant forall u :: u in infos && u !in rest ==> infos[u].latestHeight == Probed(probe(u))
        decreases rest
      {
        var url :| url in rest;
        infos[url].latestHeight := Probed(probe(url));
        rest := rest - {url};
      }
      forall u | u in infos
        ensures u in Live(Heights()) <==> Usable(probe(u))
        ensures Usable(probe(u)) ==> infos[u].latestHeight == probe(u).height - 1
      {
        ProbedIsLiveIff(probe(u));
      }
    }

    /** The picker, for any iteration order of the map. */
    method GetLatest() returns (latest: EthereumInfo?)
      requires Valid()
      ensures latest == null <==> Live(Heights()) == {}
      ensures latest != null ==> latest.url in infos && infos[latest.url] == latest && Highest(Heights(), latest.url)
    {
      var height: uint64 := 0;
      latest := null;
      var rest := infos.Keys;
      while rest != {}
        invariant rest <= infos.Keys
        invariant forall u :: u in infos && u !in rest ==> infos[u].latestHeight <= height
        invariant latest == null ==> height == 0
        invariant latest != null ==>
          height > 0 && latest.url in infos && infos[latest.url] == latest && latest.latestHeight == height
        decreases rest
      {
        var url :| url in rest;
        if infos[url].latestHeight > height {
          height := infos[url].latestHeight;
          latest := infos[url];
        }
        rest := rest - {url};
      }
      if latest != null {
        assert latest.url in Live(Heights());
      }
    }

    /** Demotes a node and picks another one. */
    method Reset(info: EthereumInfo) returns (latest: EthereumInfo?)
      requires Valid() && info.url in infos && infos[info.url] == info
      modifies info`latestHeight
      ensures Valid() && Heights() == Demoted(old(Heights()), {info.url})
      ensures info.latestHeight == 0
      ensures forall u :: u in infos && infos[u] != info ==>
                infos[u].latestHeight == old(infos[u].latestHeight)
      ensures latest != info
      ensures latest == null <==> Live(Heights()) == {}
      ensures latest != null ==> latest.url in infos && infos[latest.url] == latest && Highest(Heights(), latest.url)
    {
      info.latestHeight := 0;
      assert Heights() == Demoted(old(Heights()), {info.url});
      latest := GetLatest();
    }

    /**
     The loop of NonceAt and its siblings. `tried` lists the nodes called. A value is the answer of the last
     node called, all earlier ones having failed; the error is reported only when every node live at the
     start was called and failed.
     */
    method NonceAt(answer: string -> Reply) returns (reply: Reply, tried: seq<string>)
      requires Valid()
      modifies infos.Values
      ensures Valid() && infos == old(infos)
      ensures reply.Value? ==>
        && tried != []
        && FailedInOrder(old(Heights()), answer, tried[..|tried| - 1])
        && Highest(Heights(), tried[|tried| - 1]) && answer(tried[|tried| - 1]) == reply
        && Heights() == Demoted(old(Heights()), Members(tried[..|tried| - 1]))
      ensures reply.Error? ==>
        && reply == Error(ALL_NODES_DOWN)
        && FailedInOrder(old(Heights()), answer, tried)
        && Members(tried) == Live(old(Heights()))
        && Live(Heights()) == {}
      ensures reply.Error? <==> forall u :: u in Live(old(Heights())) ==> answer(u).Error?
    {
      tried := [];
      NothingDemoted(Heights());
      var info := GetLatest();
      while info != null
        invariant Valid() && infos == old(infos)
        invariant Heights() == Demoted(old(Heights()), Members(tried))
        invariant info == null <==> Live(Heights()) == {}
        invariant info != null ==> info.url in infos && infos[info.url] == info && Highest(Heights(), info.url)
        invariant FailedInOrder(old(Heights()), answer, tried)
        invariant Members(tried) <= Live(old(Heights()))
        decreases Live(old(Heights())) - Members(tried)
      {
        reply := answer(info.url);
        ghost var before := tried;
        PickedIsNew(old(Heights()), tried, info.url);
        tried := tried + [info.url];
        assert tried[..|tried| - 1] == before;
        if reply.Value? {
          return;
        }
        ExtendFailed(old(Heights()), answer, before, info.url);
        DemoteOneMore(old(Heights()), before, info.url);
        info := Reset(info);
      }
      reply := Error(ALL_NODES_DOWN);
      AllLiveTried(old(Heights()), tried);
      TriedFailed(old(Heights()), answer, tried);
    }

    /**
     The loop of NFTBalance and its siblings: it demotes through Reset, and when no node is left it
     returns the error of the last node called.
     */
    method NftBalance(answer: string -> Reply) returns (reply: Reply, tried: seq<string>)
      requires Valid()
      modifies infos.Values
      ensures Valid() && infos == old(infos)
      ensures reply.Value? ==> tried != [] && FailedInOrder(old(Heights()), answer, tried[..|tried| - 1])
      ensures reply.Error? ==> FailedInOrder(old(Heights()), answer, tried) && Members(tried) == Live(old(Heights()))
      ensures reply == if tried == [] then Error(ALL_NODES_DOWN) else answer(tried[|tried| - 1])
      ensures reply.Error? <==> forall u :: u in Live(old(Heights())) ==> answer(u).Error?
    {
      tried := [];
      NothingDemoted(Heights());
      reply := Error(ALL_NODES_DOWN);
      var info := GetLatest();
      while info != null
        invariant Valid() && infos == old(infos)
        invariant Heights() == Demoted(old(Heights()), Members(tried))
        invariant info == null <==> Live(Heights()) == {}
        invariant info != null ==> info.url in infos && infos[info.url] == info && Highest(Heights(), info.url)
        invariant FailedInOrder(old(Heights()), answer, tried)
        invariant Members(tried) <= Live(old(Heights()))
        invariant reply.Error?
        invariant reply == if tried == [] then Error(ALL_NODES_DOWN) else answer(tried[|tried| - 1])
        decreases Live(old(Heights())) - Members(tried)
      {
        reply := answer(info.url);
        ghost var before := tried;
        PickedIsNew(old(Heights()), tried, info.url);
        tried := tried + [info.url];
        assert tried[..|tried| - 1] == before;
        if reply.Value? {
          return;
        }
        ExtendFailed(old(Heights()), answer, before, info.url);
        DemoteOneMore(old(Heights()), before, info.url);
        info := Reset(info);
      }
      AllLiveTried(old(Heights()), tried);
      TriedFailed(old(Heights()), answer, tried);
    }
  }

  lemma NothingDemoted(heights: map<string, uint64>)
    ensures Demoted(heights, Members([])) == heights
  {
  }

  lemma PickedIsNew(heights: map<string, uint64>, tried: seq<string>, url: string)
    requires Highest(Demoted(heights, Members(tried)), url)
    ensures url !in tried && url in Live(heights)
  {
  }

  lemma ExtendFailed(heights: map<string, uint64>, answer: string -> Reply, tried: seq<string>, url: string)
    requires FailedInOrder(heights, answer, tried)
    requires Highest(Demoted(heights, Members(tried)), url) && answer(url).Error?
    ensures FailedInOrder(heights, answer, tried + [url])
  {
    var longer := tried + [url];
    forall k | 0 <= k < |longer|
      ensures Highest(Demoted(heights, Members(longer[..k])), longer[k]) && answer(longer[k]).Error?
    {
      assert longer[..k] == tried[..k];
      if k == |tried| { assert tried[..k] == tried; }
    }
  }

  lemma DemoteOneMore(heights: map<string, uint64>, tried: seq<string>, url: string)
    ensures Demoted(Demoted(heights, Members(tried)), {url}) == Demoted(heights, Members(tried + [url]))
    ensures Members(tried + [url]) == Members(tried) + {url}
  {
  }

  lemma AllLiveTried(heights: map<string, uint64>, tried: seq<string>)
    requires Live(Demoted(heights, Members(tried))) == {} && Members(tried) <= Live(heights)
    ensures Members(tried) == Live(heights)
  {
    assert forall u :: u in Live(heights) && u !in tried ==> u in Live(Demoted(heights, Members(tried)));
  }

  lemma TriedFailed(heights: map<string, uint64>, answer: string -> Reply, tried: seq<string>)
    requires FailedInOrder(heights, answer, tried)
    ensures forall u :: u in tried ==> answer(u).Error?
  {
  }

  // What an ordered failover means

  /** No node is called twice, only nodes live at the start are called, and never a higher one after a lower one. */
  lemma FailoverOrder(heights: map<string, uint64>, answer: string -> Reply, tried: seq<string>, i: nat, j: nat)
    requires FailedInOrder(heights, answer, tried) && i < j < |tried|
    ensures tried[i] != tried[j]
    ensures tried[i] in Live(heights) && tried[j] in Live(heights)
    ensures heights[tried[i]] >= heights[tried[j]]
  {
    var before := Demoted(heights, Members(tried[..i]));
    var after := Demoted(heights, Members(tried[..j]));
    assert Highest(before, tried[i]) && Highest(after, tried[j]);
    assert tried[i] == tried[..j][i];
    assert tried[j] !in tried[..j];
    assert forall u :: u in tried[..i] ==> u in tried[..j] by {
      assert tried[..i] == tried[..j][..i];
    }
  }

  lemma FailedPrefix(heights: map<string, uint64>, answer: string -> Reply, tried: seq<string>, n: nat)
    requires FailedInOrder(heights, answer, tried) && n <= |tried|
    ensures FailedInOrder(heights, answer, tried[..n])
  {
    forall k | 0 <= k < n
      ensures Highest(Demoted(heights, Members(tried[..n][..k])), tried[..n][k]) && answer(tried[..n][k]).Error?
    {
      assert tried[..n][..k] == tried[..k];
    }
  }

  /** At most one call per node. */
  lemma {:induction false} FailoverLength(heights: map<string, uint64>, answer: string -> Reply, tried: seq<string>)
    requires FailedInOrder(heights, answer, tried)
    ensures |tried| == |Members(tried)| && Members(tried) <= Live(heights)
    ensures |tried| <= |Live(heights)|
  {
    if tried == [] {
      assert Members(tried) == {};
    } else {
      var n := |tried| - 1;
      FailedPrefix(heights, answer, tried, n);
      FailoverLength(heights, answer, tried[..n]);
      assert Highest(Demoted(heights, Members(tried[..n])), tried[n]);
      PickedIsNew(heights, tried[..n], tried[n]);
      assert tried == tried[..n] + [tried[n]];
      DemoteOneMore(heights, tried[..n], tried[n]);
    }
    SubsetSize(Members(tried), Live(heights));
  }
}
