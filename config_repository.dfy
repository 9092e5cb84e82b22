/**
 * The three queries over flash-sale configurations, as filters over the
 * stored rows. The pessimistic lock taken by `FindByIdWithLock` has no
 * counterpart here: every service call is one atomic step of the model.
 */
module FlashSaleConfigRepository {
  import opened Domain
  import opened FlashSaleConfigEntity

  /**
   * The configuration is for `saleDate`, is active, and its window
   * contains `currentTime`, both ends included.
   */
  predicate InSaleWindow(c: FlashSaleConfig, saleDate: int, currentTime: int): (b: bool)
    ensures b <==> c.isActive && c.saleDate == saleDate
                   && At(c.saleDate, c.startTime) <= At(saleDate, currentTime) <= At(c.saleDate, c.endTime)
  {
    c.saleDate == saleDate && c.startTime <= currentTime && c.endTime >= currentTime && c.isActive
  }

  /** The window is inclusive at both ends. */
  lemma {:induction false} WindowIncludesBothEnds(c: FlashSaleConfig)
    requires c.isActive && c.startTime <= c.endTime
    ensures InSaleWindow(c, c.saleDate, c.startTime) && InSaleWindow(c, c.saleDate, c.endTime)
    ensures !InSaleWindow(c, c.saleDate, c.startTime - 1) && !InSaleWindow(c, c.saleDate, c.endTime + 1)
  {
  }

  /**
   * The sales running at `currentTime` on `saleDate` that have stock left,
   * each row once: over rows with distinct ids, the result repeats no id.
   */
  function FindActiveFlashSales(configs: seq<FlashSaleConfig>, saleDate: int, currentTime: int): (r: seq<FlashSaleConfig>)
    reads configs
    ensures forall c :: c in r ==> c in configs && InSaleWindow(c, saleDate, currentTime) && c.soldQuantity < c.flashQuantity
    ensures forall c :: c in configs && InSaleWindow(c, saleDate, currentTime) && c.soldQuantity < c.flashQuantity ==> c in r
    ensures forall c :: c in r ==> c.HasStock()
    ensures |r| <= |configs|
    ensures (forall i, j :: 0 <= i < j < |configs| ==> configs[i].id != configs[j].id) ==>
              forall i, j :: 0 <= i < j < |r| ==> r[i].id != r[j].id
  {
    if configs == [] then []
    else
      var n := |configs| - 1;
      var last := configs[n];
      var earlier := FindActiveFlashSales(configs[..n], saleDate, currentTime);
      assert forall i :: 0 <= i < |earlier| ==> earlier[i] in earlier;
      earlier + if InSaleWindow(last, saleDate, currentTime) && last.soldQuantity < last.flashQuantity then [last] else []
  }

  /** The configuration with the given id, if any. */
  function FindByIdWithLock(configs: seq<FlashSaleConfig>, id: nat): (r: Option<FlashSaleConfig>)
    ensures r.Some? ==> r.value in configs && r.value.id == id
    ensures r.None? <==> forall c :: c in configs ==> c.id != id
  {
    if configs == [] then None
    else if configs[0].id == id then Some(configs[0])
    else FindByIdWithLock(configs[1..], id)
  }

  /** With distinct ids, looking a stored configuration up by its own id finds that configuration. */
  lemma {:induction false} FindByIdWithLockFindsItself(configs: seq<FlashSaleConfig>, c: FlashSaleConfig)
    requires c in configs
    requires forall i, j :: 0 <= i < j < |configs| ==> configs[i].id != configs[j].id
    ensures FindByIdWithLock(configs, c.id) == Some(c)
  {
    var r := FindByIdWithLock(configs, c.id);
    var i :| 0 <= i < |configs| && configs[i] == c;
    var j :| 0 <= j < |configs| && configs[j] == r.value;
  }

  /** The positions of the rows running a sale of `productId` now, whether or not it has stock. */
  function SaleIndicesForProduct(configs: seq<FlashSaleConfig>, productId: nat, saleDate: int, currentTime: int): (r: seq<nat>)
    reads configs
    ensures forall k :: k in r ==> k < |configs| && configs[k].productId == productId && InSaleWindow(configs[k], saleDate, currentTime)
    ensures forall k :: 0 <= k < |configs| && configs[k].productId == productId && InSaleWindow(configs[k], saleDate, currentTime) ==> k in r
    ensures forall a, b :: 0 <= a < b < |r| ==> r[a] < r[b]
  {
    if configs == [] then []
    else
      var n := |configs| - 1;
      var earlier := SaleIndicesForProduct(configs[..n], productId, saleDate, currentTime);
      assert forall a :: 0 <= a < |earlier| ==> earlier[a] in earlier;
      earlier + if configs[n].productId == productId && InSaleWindow(configs[n], saleDate, currentTime) then [n] else []
  }

  /**
   * The sale of `productId` running now. There is no stock filter, so a
   * sold-out sale is still found; two matching rows are an error.
   */
  function FindActiveFlashSaleForProduct(configs: seq<FlashSaleConfig>, productId: nat, saleDate: int, currentTime: int)
    : (r: Single<FlashSaleConfig>)
    reads configs
    ensures r.NoRow? <==>
      forall k :: 0 <= k < |configs| ==> !(configs[k].productId == productId && InSaleWindow(configs[k], saleDate, currentTime))
    ensures r.OneRow? ==>
      && r.row in configs && r.row.productId == productId && InSaleWindow(r.row, saleDate, currentTime)
      && forall k :: 0 <= k < |configs| && configs[k].productId == productId && InSaleWindow(configs[k], saleDate, currentTime)
           ==> configs[k] == r.row
    ensures r.ManyRows? ==>
      exists a, b :: 0 <= a < b < |configs|
        && configs[a].productId == productId && InSaleWindow(configs[a], saleDate, currentTime)
        && configs[b].productId == productId && InSaleWindow(configs[b], saleDate, currentTime)
  {
    var hits := SaleIndicesForProduct(configs, productId, saleDate, currentTime);
    if |hits| == 0 then
      NoHitMeansNoSale(configs, productId, saleDate, currentTime);
      NoRow
    else if |hits| == 1 then
      OneHitMeansOneSale(configs, productId, saleDate, currentTime);
      OneRow(configs[hits[0]])
    else
      TwoHitsMeanTwoSales(configs, productId, saleDate, currentTime);
      ManyRows
  }

  /** No matching position means no running sale of the product. */
  lemma NoHitMeansNoSale(configs: seq<FlashSaleConfig>, productId: nat, saleDate: int, currentTime: int)
    requires |SaleIndicesForProduct(configs, productId, saleDate, currentTime)| == 0
    ensures forall k :: 0 <= k < |configs| ==> !(configs[k].productId == productId && InSaleWindow(configs[k], saleDate, currentTime))
  {
  }

  /** One matching position means exactly one running sale of the product, at that position. */
  lemma OneHitMeansOneSale(configs: seq<FlashSaleConfig>, productId: nat, saleDate: int, currentTime: int)
    requires |SaleIndicesForProduct(configs, productId, saleDate, currentTime)| == 1
    ensures var k0 := SaleIndicesForProduct(configs, productId, saleDate, currentTime)[0];
      && k0 < |configs| && configs[k0].productId == productId && InSaleWindow(configs[k0], saleDate, currentTime)
      && forall k :: 0 <= k < |configs| && configs[k].productId == productId && InSaleWindow(configs[k], saleDate, currentTime)
           ==> k == k0
  {
    var hits := SaleIndicesForProduct(configs, productId, saleDate, currentTime);
    assert hits[0] in hits;
  }

  /** Two matching positions are two different running sales of the product. */
  lemma TwoHitsMeanTwoSales(configs: seq<FlashSaleConfig>, productId: nat, saleDate: int, currentTime: int)
    requires |SaleIndicesForProduct(configs, productId, saleDate, currentTime)| >= 2
    ensures var hits := SaleIndicesForProduct(configs, productId, saleDate, currentTime);
      && hits[0] < hits[1] < |configs|
      && configs[hits[0]].productId == productId && InSaleWindow(configs[hits[0]], saleDate, currentTime)
      && configs[hits[1]].productId == productId && InSaleWindow(configs[hits[1]], saleDate, currentTime)
  {
    var hits := SaleIndicesForProduct(configs, productId, saleDate, currentTime);
    assert hits[0] in hits && hits[1] in hits;
  }
}
