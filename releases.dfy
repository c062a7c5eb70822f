/**
 * The part of a GitHub "latest release" answer that the three update checks read: the list of
 * assets, each a name and a download address, searched front to back for the first that fits.
 */
module Releases {
  import opened Wrappers

  /** One entry of the release's `assets` array: `name` and `browser_download_url`. */
  datatype Asset = Asset(name: string, url: string)

  /** The position of the first asset whose name `fits`, if any. */
  function FirstFit(assets: seq<Asset>, fits: string -> bool): (r: Option<nat>)
    ensures r.Some? ==> r.value < |assets| && fits(assets[r.value].name)
    ensures r.Some? ==> forall k :: 0 <= k < r.value ==> !fits(assets[k].name)
    ensures r.None? ==> forall k :: 0 <= k < |assets| ==> !fits(assets[k].name)
    decreases |assets|
  {
    if |assets| == 0 then None
    else if fits(assets[0].name) then Some(0)
    else
      match FirstFit(assets[1..], fits)
      case None => None
      case Some(i) => Some(i + 1)
  }

  /** The first asset whose name fits, if any. */
  function FirstAsset(assets: seq<Asset>, fits: string -> bool): Option<Asset> {
    match FirstFit(assets, fits)
    case None => None
    case Some(i) => Some(assets[i])
  }

  /** An asset that fits, with none before it fitting, is the one `FirstAsset` picks. */
  lemma FirstAssetAt(assets: seq<Asset>, fits: string -> bool, i: nat)
    requires i < |assets| && fits(assets[i].name)
    requires forall k :: 0 <= k < i ==> !fits(assets[k].name)
    ensures FirstAsset(assets, fits) == Some(assets[i])
  {
  }

  /** The `foreach` over the assets that stops at the first whose name fits. */
  method FindAsset(assets: seq<Asset>, fits: string -> bool) returns (found: Option<Asset>)
    ensures found == FirstAsset(assets, fits)
  {
    found := None;
    var i := 0;
    while i < |assets|
      invariant 0 <= i <= |assets|
      invariant forall k :: 0 <= k < i ==> !fits(assets[k].name)
    {
      if fits(assets[i].name) {
        FirstAssetAt(assets, fits, i);
        found := Some(assets[i]);
        return;
      }
      i := i + 1;
    }
  }
}
