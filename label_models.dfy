/** Labelbases and their labels: the network a labelbase is on, the base
    of its mempool explorer and API, and the explorer link of a label. */
module LabelModels {
  import opened Wrappers
  import opened Text

  const Mainnet: string := "mainnet"
  const Testnet: string := "testnet"

  /** A labelbase, with the mempool endpoint of its owner's profile. */
  datatype Labelbase = Labelbase(network: string, mempoolEndpoint: string)

  /** A label as the explorer link and the xpub link need it. */
  datatype Label = Label(id: int, labelType: string, ref: string)

  predicate IsMainnet(lb: Labelbase) { lb.network == Mainnet }

  predicate IsTestnet(lb: Labelbase) { lb.network == Testnet }

  /** A labelbase is never on both networks. */
  lemma NetworksExclusive(lb: Labelbase)
    ensures !(IsMainnet(lb) && IsTestnet(lb))
  {
    assert Mainnet[0] != Testnet[0];
  }

  /** The explorer base of a labelbase: the endpoint, followed by the network
      when it is not mainnet. */
  function MempoolBase(lb: Labelbase): string {
    if lb.network != Mainnet then lb.mempoolEndpoint + "/" + lb.network else lb.mempoolEndpoint
  }

  /** `get_mempool_api`: the API base URL. */
  function MempoolApiBase(lb: Labelbase): (url: string)
    ensures url == MempoolBase(lb) + "/api/"
  {
    if lb.network != Mainnet then lb.mempoolEndpoint + "/" + lb.network + "/api/"
    else lb.mempoolEndpoint + "/api/"
  }

  /** The API sits directly under the endpoint exactly on mainnet; any other
      network puts a path segment in between. */
  lemma ApiBaseOnMainnet(lb: Labelbase)
    ensures MempoolApiBase(lb) == lb.mempoolEndpoint + "/api/" <==> IsMainnet(lb)
  {
    if !IsMainnet(lb) {
      assert |MempoolApiBase(lb)| == |lb.mempoolEndpoint| + 1 + |lb.network| + 5;
    }
  }

  /** The transaction id of an output reference `txid:vout`. */
  function TxidOf(ref: string): (txid: string)
    ensures |txid| <= |ref| && txid == ref[..|txid|] && ':' !in txid
    ensures |txid| < |ref| ==> ref[|txid|] == ':'
  {
    SplitHead(ref, ':');
    Split(ref, ':')[0]
  }

  /** `get_mempool_url`: the explorer page of an address, a transaction or
      the transaction of an output; "" for any other type. */
  function MempoolUrl(l: Label, lb: Labelbase): (url: string)
    ensures l.labelType == "addr" ==> url == MempoolBase(lb) + "/address/" + l.ref
    ensures l.labelType == "tx" ==> url == MempoolBase(lb) + "/tx/" + l.ref
    ensures l.labelType == "output" ==> url == MempoolBase(lb) + "/tx/" + TxidOf(l.ref)
    ensures url == "" <==> l.labelType !in {"addr", "tx", "output"}
  {
    var base := MempoolBase(lb);
    if l.labelType == "addr" then base + "/address/" + l.ref
    else if l.labelType == "tx" then base + "/tx/" + l.ref
    else if l.labelType == "output" then base + "/tx/" + TxidOf(l.ref)
    else ""
  }

  /** An output label links to the page of its transaction. */
  lemma OutputLinksToItsTx(lb: Labelbase, id: int, txid: string, vout: string)
    requires ':' !in txid
    ensures MempoolUrl(Label(id, "output", txid + ":" + vout), lb) == MempoolUrl(Label(id, "tx", txid), lb)
  {
    SplitHeadOfPrefix(txid, ':', vout);
  }

  /** `get_xpub_url`: the first xpub label of the labelbase, in the order the
      labels are listed, or None. The URL itself is the route of that
      label's edit page, so the model returns the label's id. */
  function XpubLabel(labels: seq<Label>): (r: Option<int>)
    ensures r.None? <==> forall i :: 0 <= i < |labels| ==> labels[i].labelType != "xpub"
    ensures r.Some? ==> exists i :: (0 <= i < |labels| && labels[i].labelType == "xpub" && labels[i].id == r.value
      && forall j :: 0 <= j < i ==> labels[j].labelType != "xpub")
  {
    if labels == [] then None
    else if labels[0].labelType == "xpub" then Some(labels[0].id)
    else
      var r := XpubLabel(labels[1..]);
      assert r.Some? ==> exists i :: (1 <= i < |labels| && labels[i].labelType == "xpub" && labels[i].id == r.value
        && forall j :: 0 <= j < i ==> labels[j].labelType != "xpub") by {
        if r.Some? {
          var i :| 0 <= i < |labels[1..]| && labels[1..][i].labelType == "xpub" && labels[1..][i].id == r.value
            && forall j :: 0 <= j < i ==> labels[1..][j].labelType != "xpub";
          assert forall j :: 1 <= j < i + 1 ==> labels[j] == labels[1..][j - 1];
        }
      }
      r
  }
}
